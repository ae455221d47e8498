/**
 What validation accepts and what it makes of it, kind by kind: the values a field denotes, the
 exact condition of each error code, and where a field's value is looked for.
 */
module ValidationKinds {
  import opened Wrappers
  import opened Validation
  import Text
  import Fx

  // ---------------------------------------------------------------------------------------
  // Blank values
  // ---------------------------------------------------------------------------------------

  /** Null, white space, and empty collections. */
  predicate Empty(value: Value) {
    || value == Null
    || (value.Str? && Text.AllSpace(value.text))
    || (value.List? && |value.items| == 0)
    || (value.Dict? && |value.entries| == 0)
  }

  lemma BlankIs(spec: FieldSpec, value: Value, formats: Formats)
    ensures IsBlank(value) <==> Empty(value)
    ensures Empty(value) ==>
      Normalize(spec, value, formats) ==
      if spec.required then Failure(REQUIRED) else if spec.kind.JsonKind? then Success(value) else Success(Null)
  {
    if value.Dict? && |value.entries| == 0 {
      assert value.entries == map[];
    }
  }

  // ---------------------------------------------------------------------------------------
  // Booleans
  // ---------------------------------------------------------------------------------------

  predicate SaysTrue(value: Value, formats: Formats) {
    || value == Bool(true) || value == Int(1)
    || (value.Str? &&
        var word := formats.fold(Text.Strip(value.text));
        word == "true" || word == "yes" || word == "y" || word == "1" || word == "on" || word == "active" || word == "enabled")
  }

  predicate SaysFalse(value: Value, formats: Formats) {
    || value == Bool(false) || value == Int(0)
    || (value.Str? &&
        var word := formats.fold(Text.Strip(value.text));
        word == "false" || word == "no" || word == "n" || word == "0" || word == "off" || word == "inactive" || word == "disabled")
  }

  lemma BooleanIs(spec: FieldSpec, value: Value, formats: Formats)
    requires spec.kind.BooleanKind? && !Empty(value)
    ensures Normalize(spec, value, formats) == Success(Bool(true)) <==> SaysTrue(value, formats)
    ensures Normalize(spec, value, formats) == Success(Bool(false)) <==> SaysFalse(value, formats)
    ensures Normalize(spec, value, formats) == Failure(INVALID_TYPE) <==> !SaysTrue(value, formats) && !SaysFalse(value, formats)
  {
    BlankIs(spec, value, formats);
    if value.Str? {
      WordsApart(formats.fold(Text.Strip(value.text)));
    }
  }

  /** No word says both. */
  lemma WordsApart(word: string)
    ensures word in TRUE_TEXT <==>
      word == "true" || word == "yes" || word == "y" || word == "1" || word == "on" || word == "active" || word == "enabled"
    ensures word in FALSE_TEXT <==>
      word == "false" || word == "no" || word == "n" || word == "0" || word == "off" || word == "inactive" || word == "disabled"
    ensures word in TRUE_TEXT ==> word !in FALSE_TEXT
  {
  }

  // ---------------------------------------------------------------------------------------
  // Numbers
  // ---------------------------------------------------------------------------------------

  /** The finite number a value denotes; truth values, dates and collections denote none. */
  predicate Denotes(value: Value, formats: Formats, x: real) {
    || (value.Int? && value.whole as real == x)
    || (value.Float? && value.number == Fx.Finite(x))
    || (value.Dec? && value.number == Fx.Finite(x))
    || (value.Str? && formats.number(Text.Strip(value.text)) == Some(Fx.Finite(x)))
  }

  predicate DenotesWhole(value: Value, formats: Formats, k: int) {
    Denotes(value, formats, k as real)
  }

  predicate DenotesNumber(value: Value, formats: Formats) {
    || value.Int? || (value.Float? && value.number.Finite?) || (value.Dec? && value.number.Finite?)
    || (value.Str? && formats.number(Text.Strip(value.text)).Some? && formats.number(Text.Strip(value.text)).value.Finite?)
  }

  lemma DenotesOne(value: Value, formats: Formats, x: real)
    ensures Denotes(value, formats, x) <==> ToNumber(value, formats) == Some(x)
    ensures DenotesNumber(value, formats) <==> ToNumber(value, formats).Some?
  {
  }

  predicate Within(spec: FieldSpec, x: real) {
    !(spec.minimum.Some? && x < spec.minimum.value) && !(spec.maximum.Some? && x > spec.maximum.value)
  }

  /** Integers: the whole number denoted, inside the limits. */
  lemma IntegerIs(spec: FieldSpec, value: Value, formats: Formats, n: int)
    requires spec.kind.IntegerKind? && !Empty(value)
    ensures Normalize(spec, value, formats) == Success(Int(n)) <==> DenotesWhole(value, formats, n) && Within(spec, n as real)
    ensures Normalize(spec, value, formats) == Failure(OUT_OF_RANGE) <==>
            exists k :: DenotesWhole(value, formats, k) && !Within(spec, k as real)
    ensures Normalize(spec, value, formats) == Failure(INVALID_TYPE) <==> !exists k :: DenotesWhole(value, formats, k)
    ensures Normalize(spec, value, formats).Success? ==> Normalize(spec, value, formats).value.Int?
  {
    BlankIs(spec, value, formats);
    match ToNumber(value, formats)
    case None =>
      forall k
        ensures !DenotesWhole(value, formats, k)
      {
        DenotesOne(value, formats, k as real);
      }
    case Some(x) =>
      DenotesOne(value, formats, x);
      forall k
        ensures DenotesWhole(value, formats, k) <==> k as real == x
      {
        DenotesOne(value, formats, k as real);
      }
      if IsWhole(x) {
        assert DenotesWhole(value, formats, x.Floor);
      }
  }

  /** Decimals: the number denoted, inside the limits, with no more places than allowed. */
  lemma DecimalIs(spec: FieldSpec, value: Value, formats: Formats, x: real)
    requires spec.kind.DecimalKind? && !Empty(value)
    ensures Normalize(spec, value, formats) == Success(Dec(Fx.Finite(x))) <==>
            Denotes(value, formats, x) && Within(spec, x) && (spec.decimalPlaces.Some? ==> Fx.Storable(x, spec.decimalPlaces.value))
    ensures Denotes(value, formats, x) ==>
      && (Normalize(spec, value, formats) == Failure(OUT_OF_RANGE) <==> !Within(spec, x))
      && (Normalize(spec, value, formats) == Failure(INVALID_PRECISION) <==>
          Within(spec, x) && spec.decimalPlaces.Some? && !Fx.Storable(x, spec.decimalPlaces.value))
    ensures Normalize(spec, value, formats) == Failure(INVALID_TYPE) <==> !DenotesNumber(value, formats)
  {
    BlankIs(spec, value, formats);
    DenotesOne(value, formats, x);
    if spec.decimalPlaces.Some? {
      WholeUnitsAreStorable(x, spec.decimalPlaces.value);
    }
  }

  lemma WholeUnitsAreStorable(x: real, places: nat)
    ensures IsWhole(Fx.ToUnits(x, places)) <==> Fx.Storable(x, places)
  {
    var units := Fx.ToUnits(x, places);
    if IsWhole(units) {
      assert Fx.FromUnits(units.Floor, places) == x;
    }
    if k :| Fx.FromUnits(k, places) == x {
      Fx.UnitsAndBack(k, places);
    }
  }

  // ---------------------------------------------------------------------------------------
  // Dates and references
  // ---------------------------------------------------------------------------------------

  predicate DenotesDay(value: Value, formats: Formats, day: int) {
    value == Date(day) || (value.DateTime? && value.date == day) || (value.Str? && formats.date(Text.Strip(value.text)) == Some(day))
  }

  /** Dates: the day denoted, and nothing that denotes none. */
  lemma DateIs(spec: FieldSpec, value: Value, formats: Formats, day: int)
    requires spec.kind.DateKind? && !Empty(value)
    ensures Normalize(spec, value, formats) == Success(Date(day)) <==> DenotesDay(value, formats, day)
    ensures Normalize(spec, value, formats) == Failure(INVALID_FORMAT) <==> !exists d :: DenotesDay(value, formats, d)
    ensures Normalize(spec, value, formats).Success? ==> Normalize(spec, value, formats).value.Date?
  {
    BlankIs(spec, value, formats);
    if Normalize(spec, value, formats).Success? {
      assert DenotesDay(value, formats, Normalize(spec, value, formats).value.day);
    }
  }

  predicate DenotesInstant(value: Value, formats: Formats, instant: int, day: int) {
    || value == DateTime(instant, day)
    || (value == Date(day) && instant == formats.midnight(day))
    || (value.Str? && formats.dateTime(Text.Strip(value.text)) == Some((instant, day)))
  }

  /** Date-times: the instant denoted; a plain date denotes its midnight. */
  lemma DateTimeIs(spec: FieldSpec, value: Value, formats: Formats, instant: int, day: int)
    requires spec.kind.DateTimeKind? && !Empty(value)
    ensures Normalize(spec, value, formats) == Success(DateTime(instant, day)) <==> DenotesInstant(value, formats, instant, day)
    ensures Normalize(spec, value, formats) == Failure(INVALID_FORMAT) <==> !exists i, d :: DenotesInstant(value, formats, i, d)
    ensures Normalize(spec, value, formats).Success? ==> Normalize(spec, value, formats).value.DateTime?
  {
    BlankIs(spec, value, formats);
    if Normalize(spec, value, formats).Success? {
      var v := Normalize(spec, value, formats).value;
      assert DenotesInstant(value, formats, v.instant, v.date);
    }
  }

  /** References: a positive id, or a trimmed code that is not too long. */
  lemma ReferenceIs(spec: FieldSpec, value: Value, formats: Formats, id: int)
    requires spec.kind.ReferenceKind? && !Empty(value)
    ensures Normalize(spec, value, formats) == Success(Int(id)) <==>
            id > 0 && (value == Int(id) || value == Float(Fx.Finite(id as real)))
    ensures value.Str? ==>
      var code := Text.Strip(value.text);
      Normalize(spec, value, formats) ==
      if spec.maxLength.Some? && |code| > spec.maxLength.value then Failure(TOO_LONG) else Success(Str(code))
    ensures !value.Str? ==>
      (Normalize(spec, value, formats) == Failure(INVALID_TYPE) <==>
       !exists k: int :: k > 0 && (value == Int(k) || value == Float(Fx.Finite(k as real))))
  {
    BlankIs(spec, value, formats);
    if value.Float? && value.number.Finite? && IsWhole(value.number.value) {
      assert value == Float(Fx.Finite(value.number.value.Floor as real));
    }
    if Normalize(spec, value, formats).Success? && !value.Str? {
      var k := Normalize(spec, value, formats).value.whole;
      assert k > 0 && (value == Int(k) || value == Float(Fx.Finite(k as real)));
    }
  }

  /** JSON: whatever JSON can hold, as it is. */
  lemma JsonIs(spec: FieldSpec, value: Value, formats: Formats)
    requires spec.kind.JsonKind?
    ensures !Empty(value) ==>
      Normalize(spec, value, formats) == if value.Dec? || value.Date? || value.DateTime? then Failure(INVALID_TYPE) else Success(value)
  {
    BlankIs(spec, value, formats);
  }

  // ---------------------------------------------------------------------------------------
  // Text
  // ---------------------------------------------------------------------------------------

  predicate IsTextKind(kind: Kind) {
    kind.StringKind? || kind.EmailKind? || kind.PhoneKind? || kind.UrlKind?
  }

  predicate TooShort(spec: FieldSpec, text: string) {
    spec.minLength.Some? && |text| < spec.minLength.value
  }

  predicate TooLong(spec: FieldSpec, text: string) {
    spec.maxLength.Some? && |text| > spec.maxLength.value
  }

  /** Not an address, number or link of the field's kind. */
  predicate Malformed(spec: FieldSpec, text: string, formats: Formats) {
    || (spec.kind.EmailKind? && !formats.isEmail(text))
    || (spec.kind.PhoneKind? && !formats.isPhone(text))
    || (spec.kind.UrlKind? && !formats.isUrl(text))
  }

  /** None of the choices, whatever the case. */
  predicate NoChoice(spec: FieldSpec, text: string, formats: Formats) {
    spec.choices.Some? && forall i :: 0 <= i < |spec.choices.value| ==> formats.fold(spec.choices.value[i]) != formats.fold(text)
  }

  predicate OffPattern(spec: FieldSpec, text: string) {
    spec.pattern.Some? && !spec.pattern.value(text)
  }

  /** Text: trimmed unless the field keeps its spaces, and refused by the first rule it breaks. */
  lemma TextIs(spec: FieldSpec, value: Value, formats: Formats)
    requires IsTextKind(spec.kind) && !Empty(value)
    ensures Normalize(spec, value, formats) == Failure(INVALID_TYPE) <==> !value.Str?
    ensures value.Str? ==>
      var text := if spec.strip then Text.Strip(value.text) else value.text;
      var outcome := Normalize(spec, value, formats);
      && (outcome == Success(Str(text)) <==>
          !TooShort(spec, text) && !TooLong(spec, text) && !Malformed(spec, text, formats) && !NoChoice(spec, text, formats) && !OffPattern(spec, text))
      && (outcome == Failure(TOO_SHORT) <==> TooShort(spec, text))
      && (outcome == Failure(TOO_LONG) <==> !TooShort(spec, text) && TooLong(spec, text))
      && (outcome == Failure(INVALID_CHOICE) <==>
          !TooShort(spec, text) && !TooLong(spec, text) && !Malformed(spec, text, formats) && NoChoice(spec, text, formats))
      && (outcome == Failure(INVALID_FORMAT) <==>
          !TooShort(spec, text) && !TooLong(spec, text) && (Malformed(spec, text, formats) || (!NoChoice(spec, text, formats) && OffPattern(spec, text))))
  {
    BlankIs(spec, value, formats);
    if value.Str? {
      var text := if spec.strip then Text.Strip(value.text) else value.text;
      assert text != "";
      ChoiceIs(spec, text, formats);
    }
  }

  lemma ChoiceIs(spec: FieldSpec, text: string, formats: Formats)
    ensures NoChoice(spec, text, formats) <==> spec.choices.Some? && !MatchesChoice(text, spec.choices.value, formats)
  {
    if spec.choices.Some? && MatchesChoice(text, spec.choices.value, formats) {
      var c :| c in spec.choices.value && formats.fold(text) == formats.fold(c);
      var i :| 0 <= i < |spec.choices.value| && spec.choices.value[i] == c;
    }
  }

  // ---------------------------------------------------------------------------------------
  // Where a field is looked for, and what a payload is refused for
  // ---------------------------------------------------------------------------------------

  /** The key itself, or else the first of the aliases that is there. */
  lemma SourceIs(spec: FieldSpec, payload: Payload, key: string)
    ensures Source(spec, payload) == Some(key) <==>
            key in payload && (key == spec.key || (spec.key !in payload && FirstAlias(spec.aliases, payload, key)))
    ensures Source(spec, payload) == None <==> spec.key !in payload && forall a :: a in spec.aliases ==> a !in payload
  {
    FirstInIs(spec.aliases, payload, key);
  }

  predicate FirstAlias(aliases: seq<string>, payload: Payload, key: string) {
    exists j :: 0 <= j < |aliases| && aliases[j] == key && key in payload && forall i :: 0 <= i < j ==> aliases[i] !in payload
  }

  lemma {:induction false} FirstInIs(keys: seq<string>, payload: Payload, key: string)
    ensures FirstIn(keys, payload) == Some(key) <==> FirstAlias(keys, payload, key)
  {
    if keys != [] {
      FirstInIs(keys[1..], payload, key);
      if keys[0] !in payload {
        if j :| 0 <= j < |keys[1..]| && keys[1..][j] == key && key in payload && forall i :: 0 <= i < j ==> keys[1..][i] !in payload {
          assert keys[j + 1] == key;
          assert forall i :: 0 < i < j + 1 ==> keys[i] == keys[1..][i - 1];
        }
        if j :| 0 <= j < |keys| && keys[j] == key && key in payload && forall i :: 0 <= i < j ==> keys[i] !in payload {
          assert j > 0 && keys[1..][j - 1] == key;
          assert forall i :: 0 <= i < j - 1 ==> keys[1..][i] == keys[i + 1];
        }
      } else {
        assert keys[0] == key ==> FirstAlias(keys, payload, key);
      }
    }
  }

  /** The error of one field: required and not there, or there and refused. */
  lemma ViolationIs(spec: FieldSpec, payload: Payload, partial: bool, formats: Formats, e: Error)
    ensures Violation(spec, payload, partial, formats) == Some(e) <==>
      && e.field == spec.key
      && ((e.code == REQUIRED && spec.required && !partial && Source(spec, payload) == None)
          || exists key :: Source(spec, payload) == Some(key) && key in payload && Normalize(spec, payload[key], formats) == Failure(e.code))
  {
  }

  /** A key that is no field, alias or read-only key is refused as such, and no other is. */
  lemma {:induction false} UnknownIs(schema: Schema, keys: seq<string>, e: Error)
    ensures e in Unknown(schema, keys) <==>
      && e.field in keys && e.field !in schema.readonly && e.code == UNKNOWN_FIELD
      && (forall i :: 0 <= i < |schema.fields| ==> schema.fields[i].key != e.field && e.field !in schema.fields[i].aliases)
  {
    if keys != [] {
      var n := |keys| - 1;
      UnknownIs(schema, keys[..n], e);
      assert keys == keys[..n] + [keys[n]];
    }
  }

  /** The failures of the cross-field rules, all of them. */
  lemma {:induction false} CrossedIs(rules: seq<Payload -> Option<Error>>, values: Payload, e: Error)
    ensures e in Crossed(rules, values) <==> exists r :: 0 <= r < |rules| && rules[r](values) == Some(e)
  {
    if rules != [] {
      var n := |rules| - 1;
      CrossedIs(rules[..n], values, e);
      assert forall r :: 0 <= r < n ==> rules[..n][r] == rules[r];
      if rules[n](values) == Some(e) {
        assert 0 <= n < |rules|;
      }
    }
  }

  /** When a payload passes. */
  lemma PassesIff(schema: Schema, payload: Payload, keys: seq<string>, partial: bool)
    ensures Validated(schema, payload, keys, partial).Success? <==>
      && (schema.rejectUnknown ==> forall k :: k in keys ==> Allowed(schema, k))
      && (forall i :: 0 <= i < |schema.fields| ==> Violation(schema.fields[i], payload, partial, schema.formats) == None)
      && (forall r :: 0 <= r < |schema.crossField| ==>
            schema.crossField[r](payload + Normalized(schema.fields, payload, schema.formats)) == None)
  {
    var values := payload + Normalized(schema.fields, payload, schema.formats);
    NothingUnknown(schema, keys);
    NoViolations(schema.fields, payload, partial, schema.formats);
    NothingCrossed(schema.crossField, values);
  }

  lemma {:induction false} NothingCrossed(rules: seq<Payload -> Option<Error>>, values: Payload)
    ensures Crossed(rules, values) == [] <==> forall r :: 0 <= r < |rules| ==> rules[r](values) == None
  {
    if rules != [] {
      var n := |rules| - 1;
      NothingCrossed(rules[..n], values);
      assert forall r :: 0 <= r < n ==> rules[..n][r] == rules[r];
    }
  }
}
