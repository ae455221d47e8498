/** Schema validation of request payloads: `backend/app/core/validation.py`. */
module Validation {
  import opened Wrappers
  import opened Decimals
  import Text
  import Fx

  /** A JSON value, or one of the Python objects validation produces. */
  datatype Value =
    | Null
    | Bool(on: bool)
    | Int(whole: int)
    | Float(number: Fx.Number)
    | Dec(number: Fx.Number)
    | Str(text: string)
    | Date(day: int)
    | DateTime(instant: int, date: int)
    | List(items: seq<Value>)
    | Dict(order: seq<string>, entries: map<string, Value>)

  datatype Code =
    | REQUIRED | INVALID_TYPE | INVALID_FORMAT | TOO_SHORT | TOO_LONG | OUT_OF_RANGE
    | INVALID_PRECISION | INVALID_CHOICE | UNKNOWN_FIELD | CROSS_FIELD

  datatype Kind = StringKind | IntegerKind | DecimalKind | BooleanKind | DateKind | DateTimeKind
    | EmailKind | PhoneKind | UrlKind | ReferenceKind | JsonKind

  /** Regular expressions, literals and case folding, on trimmed text. */
  datatype Formats = Formats(
    isEmail: string -> bool,
    isPhone: string -> bool,
    isUrl: string -> bool,
    number: string -> Option<Fx.Number>,
    date: string -> Option<int>,
    dateTime: string -> Option<(int, int)>,
    midnight: int -> int,
    fold: string -> string)

  /** `pattern` is the full match of the field's pattern; a malformed one matches everything. */
  datatype FieldSpec = FieldSpec(
    key: string,
    kind: Kind,
    required: bool,
    minLength: Option<nat>,
    maxLength: Option<nat>,
    minimum: Option<real>,
    maximum: Option<real>,
    decimalPlaces: Option<nat>,
    pattern: Option<string -> bool>,
    choices: Option<seq<string>>,
    strip: bool,
    aliases: seq<string>)

  type Payload = map<string, Value>

  datatype Error = Error(field: string, code: Code)

  datatype Schema = Schema(
    fields: seq<FieldSpec>,
    crossField: seq<Payload -> Option<Error>>,
    readonly: seq<string>,
    rejectUnknown: bool,
    formats: Formats)

  // ---------------------------------------------------------------------------------------
  // One value
  // ---------------------------------------------------------------------------------------

  function IsBlank(value: Value): bool {
    match value
    case Null => true
    case Str(text) => Text.Strip(text) == ""
    case List(items) => items == []
    case Dict(_, entries) => entries == map[]
    case _ => false
  }

  function Normalize(spec: FieldSpec, value: Value, formats: Formats): Result<Value, Code> {
    if IsBlank(value) then
      if spec.required then Failure(REQUIRED)
      else if spec.kind == JsonKind then Success(value)
      else Success(Null)
    else
      match spec.kind
      case StringKind => NormalizeString(spec, value, formats)
      case EmailKind => NormalizeString(spec, value, formats)
      case PhoneKind => NormalizeString(spec, value, formats)
      case UrlKind => NormalizeString(spec, value, formats)
      case IntegerKind => NormalizeInteger(spec, value, formats)
      case DecimalKind => NormalizeDecimal(spec, value, formats)
      case BooleanKind => NormalizeBoolean(value, formats)
      case DateKind => NormalizeDate(value, formats)
      case DateTimeKind => NormalizeDateTime(value, formats)
      case ReferenceKind => NormalizeReference(spec, value)
      case JsonKind =>
        if value.Dec? || value.Date? || value.DateTime? then Failure(INVALID_TYPE) else Success(value)
  }

  function NormalizeString(spec: FieldSpec, value: Value, formats: Formats): Result<Value, Code> {
    if !value.Str? then Failure(INVALID_TYPE)
    else
      var text := if spec.strip then Text.Strip(value.text) else value.text;
      if spec.required && text == "" then Failure(REQUIRED)
      else if spec.minLength.Some? && |text| < spec.minLength.value then Failure(TOO_SHORT)
      else if spec.maxLength.Some? && |text| > spec.maxLength.value then Failure(TOO_LONG)
      else if spec.kind == EmailKind && !formats.isEmail(text) then Failure(INVALID_FORMAT)
      else if spec.kind == PhoneKind && !formats.isPhone(text) then Failure(INVALID_FORMAT)
      else if spec.kind == UrlKind && !formats.isUrl(text) then Failure(INVALID_FORMAT)
      else if spec.choices.Some? && !MatchesChoice(text, spec.choices.value, formats) then Failure(INVALID_CHOICE)
      else if spec.pattern.Some? && !spec.pattern.value(text) then Failure(INVALID_FORMAT)
      else Success(Str(text))
  }

  predicate MatchesChoice(text: string, choices: seq<string>, formats: Formats) {
    exists c :: c in choices && formats.fold(text) == formats.fold(c)
  }

  /** `_to_decimal`: the text of any other object is no decimal literal. */
  function ToNumber(value: Value, formats: Formats): Option<real> {
    var number := match value
      case Int(n) => Some(Fx.Finite(n as real))
      case Float(n) => Some(n)
      case Dec(n) => Some(n)
      case Str(text) => formats.number(Text.Strip(text))
      case _ => None;
    if number.Some? && number.value.Finite? then Some(number.value.value) else None
  }

  predicate InRange(spec: FieldSpec, number: real) {
    && (spec.minimum.Some? ==> spec.minimum.value <= number)
    && (spec.maximum.Some? ==> number <= spec.maximum.value)
  }

  predicate IsWhole(x: real) {
    x.Floor as real == x
  }

  function NormalizeInteger(spec: FieldSpec, value: Value, formats: Formats): Result<Value, Code> {
    match ToNumber(value, formats)
    case None => Failure(INVALID_TYPE)
    case Some(number) =>
      if !IsWhole(number) then Failure(INVALID_TYPE)
      else if !InRange(spec, number) then Failure(OUT_OF_RANGE)
      else Success(Int(number.Floor))
  }

  function NormalizeDecimal(spec: FieldSpec, value: Value, formats: Formats): Result<Value, Code> {
    match ToNumber(value, formats)
    case None => Failure(INVALID_TYPE)
    case Some(number) =>
      if !InRange(spec, number) then Failure(OUT_OF_RANGE)
      else if spec.decimalPlaces.Some? && !IsWhole(Fx.ToUnits(number, spec.decimalPlaces.value)) then Failure(INVALID_PRECISION)
      else Success(Dec(Fx.Finite(number)))
  }

  const TRUE_TEXT: set<string> := {"true", "yes", "y", "1", "on", "active", "enabled"}
  const FALSE_TEXT: set<string> := {"false", "no", "n", "0", "off", "inactive", "disabled"}

  function NormalizeBoolean(value: Value, formats: Formats): Result<Value, Code> {
    match value
    case Bool(_) => Success(value)
    case Int(n) => if n == 0 || n == 1 then Success(Bool(n == 1)) else Failure(INVALID_TYPE)
    case Str(text) =>
      var folded := formats.fold(Text.Strip(text));
      if folded in TRUE_TEXT then Success(Bool(true))
      else if folded in FALSE_TEXT then Success(Bool(false))
      else Failure(INVALID_TYPE)
    case _ => Failure(INVALID_TYPE)
  }

  function NormalizeDate(value: Value, formats: Formats): Result<Value, Code> {
    match value
    case DateTime(_, date) => Success(Date(date))
    case Date(_) => Success(value)
    case Str(text) =>
      (match formats.date(Text.Strip(text))
       case Some(day) => Success(Date(day))
       case None => Failure(INVALID_FORMAT))
    case _ => Failure(INVALID_FORMAT)
  }

  function NormalizeDateTime(value: Value, formats: Formats): Result<Value, Code> {
    match value
    case DateTime(_, _) => Success(value)
    case Date(day) => Success(DateTime(formats.midnight(day), day))
    case Str(text) =>
      (match formats.dateTime(Text.Strip(text))
       case Some(parsed) => Success(DateTime(parsed.0, parsed.1))
       case None => Failure(INVALID_FORMAT))
    case _ => Failure(INVALID_FORMAT)
  }

  function NormalizeReference(spec: FieldSpec, value: Value): Result<Value, Code> {
    match value
    case Int(n) => if n <= 0 then Failure(INVALID_TYPE) else Success(value)
    case Float(Finite(x)) => if !IsWhole(x) || x <= 0.0 then Failure(INVALID_TYPE) else Success(Int(x.Floor))
    case Str(text) =>
      var stripped := Text.Strip(text);
      if spec.maxLength.Some? && |stripped| > spec.maxLength.value then Failure(TOO_LONG) else Success(Str(stripped))
    case _ => Failure(INVALID_TYPE)
  }

  /** A normalised value is its own normal form, for every kind and every rule. */
  lemma NormalizeTwice(spec: FieldSpec, value: Value, formats: Formats)
    requires Normalize(spec, value, formats).Success?
    ensures Normalize(spec, Normalize(spec, value, formats).value, formats) == Normalize(spec, value, formats)
  {
    if value.Str? {
      Text.StripTwice(value.text);
    }
    if !IsBlank(value) {
      match spec.kind
      case StringKind => StringTwice(spec, value, formats);
      case EmailKind => StringTwice(spec, value, formats);
      case PhoneKind => StringTwice(spec, value, formats);
      case UrlKind => StringTwice(spec, value, formats);
      case IntegerKind => NumberTwice(spec, value, formats);
      case DecimalKind => NumberTwice(spec, value, formats);
      case ReferenceKind => ReferenceTwice(spec, value);
      case _ =>
    }
  }

  lemma StringTwice(spec: FieldSpec, value: Value, formats: Formats)
    requires !IsBlank(value) && NormalizeString(spec, value, formats).Success?
    ensures var text := NormalizeString(spec, value, formats).value;
      !IsBlank(text) && NormalizeString(spec, text, formats) == Success(text)
  {
    Text.StripTwice(value.text);
  }

  lemma NumberTwice(spec: FieldSpec, value: Value, formats: Formats)
    ensures NormalizeInteger(spec, value, formats).Success? ==>
      var n := NormalizeInteger(spec, value, formats).value;
      !IsBlank(n) && NormalizeInteger(spec, n, formats) == Success(n)
    ensures NormalizeDecimal(spec, value, formats).Success? ==>
      var n := NormalizeDecimal(spec, value, formats).value;
      !IsBlank(n) && NormalizeDecimal(spec, n, formats) == Success(n)
  {
  }

  lemma ReferenceTwice(spec: FieldSpec, value: Value)
    requires !IsBlank(value) && NormalizeReference(spec, value).Success?
    ensures var r := NormalizeReference(spec, value).value;
      !IsBlank(r) && NormalizeReference(spec, r) == Success(r)
  {
    if value.Str? {
      Text.StripTwice(value.text);
    }
  }

  // ---------------------------------------------------------------------------------------
  // One field of a payload
  // ---------------------------------------------------------------------------------------

  /** The key itself, or else the first alias in the payload. */
  function Source(spec: FieldSpec, payload: Payload): Option<string> {
    if spec.key in payload then Some(spec.key) else FirstIn(spec.aliases, payload)
  }

  function FirstIn(keys: seq<string>, payload: Payload): (r: Option<string>)
    ensures r.Some? ==> r.value in keys && r.value in payload
    ensures r.None? <==> forall k :: k in keys ==> k !in payload
  {
    if keys == [] then None else if keys[0] in payload then Some(keys[0]) else FirstIn(keys[1..], payload)
  }

  /** What is wrong with the field, if anything. */
  function Violation(spec: FieldSpec, payload: Payload, partial: bool, formats: Formats): Option<Error> {
    match Source(spec, payload)
    case None => if spec.required && !partial then Some(Error(spec.key, REQUIRED)) else None
    case Some(source) =>
      match Normalize(spec, payload[source], formats)
      case Failure(code) => Some(Error(spec.key, code))
      case Success(_) => None
  }

  /** The copied payload after the field: its value under its key, the alias gone. */
  function Store(spec: FieldSpec, payload: Payload, normalized: Payload, formats: Formats): Payload {
    match Source(spec, payload)
    case None => normalized
    case Some(source) =>
      match Normalize(spec, payload[source], formats)
      case Failure(_) => normalized
      case Success(value) =>
        if source != spec.key then normalized[spec.key := value] - {source} else normalized[spec.key := value]
  }

  // ---------------------------------------------------------------------------------------
  // All fields
  // ---------------------------------------------------------------------------------------

  /** The violated fields, in schema order. */
  function Violations(fields: seq<FieldSpec>, payload: Payload, partial: bool, formats: Formats): seq<Error> {
    if fields == [] then []
    else
      var n := |fields| - 1;
      var violation := Violation(fields[n], payload, partial, formats);
      Violations(fields[..n], payload, partial, formats) + if violation.Some? then [violation.value] else []
  }

  function Normalized(fields: seq<FieldSpec>, payload: Payload, formats: Formats): Payload {
    if fields == [] then payload
    else
      var n := |fields| - 1;
      Store(fields[n], payload, Normalized(fields[..n], payload, formats), formats)
  }

  predicate Names(spec: FieldSpec, key: string) {
    key == spec.key || key in spec.aliases
  }

  predicate Allowed(schema: Schema, key: string) {
    key in schema.readonly || exists i :: 0 <= i < |schema.fields| && Names(schema.fields[i], key)
  }

  /** The keys refused, in payload order. */
  function Unknown(schema: Schema, keys: seq<string>): seq<Error> {
    if keys == [] then []
    else
      var n := |keys| - 1;
      Unknown(schema, keys[..n]) + if Allowed(schema, keys[n]) then [] else [Error(keys[n], UNKNOWN_FIELD)]
  }

  /** The failed rules, in order. */
  function Crossed(rules: seq<Payload -> Option<Error>>, values: Payload): seq<Error> {
    if rules == [] then []
    else
      var n := |rules| - 1;
      Crossed(rules[..n], values) + if rules[n](values).Some? then [rules[n](values).value] else []
  }

  function FieldErrors(schema: Schema, payload: Payload, keys: seq<string>, partial: bool): seq<Error> {
    (if schema.rejectUnknown then Unknown(schema, keys) else []) + Violations(schema.fields, payload, partial, schema.formats)
  }

  /** The outcome of `validate`; cross-field rules run only on fields without errors. */
  function Validated(schema: Schema, payload: Payload, keys: seq<string>, partial: bool): Result<Payload, seq<Error>> {
    var errors := FieldErrors(schema, payload, keys, partial);
    var normalized := Normalized(schema.fields, payload, schema.formats);
    var crossed := Crossed(schema.crossField, payload + normalized);
    if errors != [] then Failure(errors) else if crossed != [] then Failure(crossed) else Success(normalized)
  }

  /** `RecordSchema.validate`; `keys` is the order of the payload. */
  method Validate(schema: Schema, payload: Payload, keys: seq<string>, partial: bool)
    returns (outcome: Result<Payload, seq<Error>>)
    ensures outcome == Validated(schema, payload, keys, partial)
  {
    var unknown: seq<Error> := [];
    if schema.rejectUnknown {
      unknown := RefuseUnknown(schema, keys);
    }
    var violations, normalized := NormalizeFields(schema.fields, payload, partial, schema.formats);
    var errors := unknown + violations;
    if errors == [] {
      errors := ApplyRules(schema.crossField, payload + normalized);
    }
    return if errors != [] then Failure(errors) else Success(normalized);
  }

  /** Its first loop. */
  method RefuseUnknown(schema: Schema, keys: seq<string>) returns (errors: seq<Error>)
    ensures errors == Unknown(schema, keys)
  {
    errors := [];
    for i := 0 to |keys|
      invariant errors == Unknown(schema, keys[..i])
    {
      if !Allowed(schema, keys[i]) {
        errors := errors + [Error(keys[i], UNKNOWN_FIELD)];
      }
      assert keys[..i + 1][..i] == keys[..i];
    }
    assert keys[..|keys|] == keys;
  }

  /** Its loop over the fields. */
  method NormalizeFields(fields: seq<FieldSpec>, payload: Payload, partial: bool, formats: Formats)
    returns (errors: seq<Error>, normalized: Payload)
    ensures errors == Violations(fields, payload, partial, formats)
    ensures normalized == Normalized(fields, payload, formats)
  {
    errors, normalized := [], payload;
    for i := 0 to |fields|
      invariant errors == Violations(fields[..i], payload, partial, formats)
      invariant normalized == Normalized(fields[..i], payload, formats)
    {
      var spec := fields[i];
      assert fields[..i + 1][..i] == fields[..i];
      var source := Source(spec, payload);
      if source.None? {
        if spec.required && !partial {
          errors := errors + [Error(spec.key, REQUIRED)];
        }
        continue;
      }
      var value := Normalize(spec, payload[source.value], formats);
      if value.Failure? {
        errors := errors + [Error(spec.key, value.error)];
      } else {
        normalized := normalized[spec.key := value.value];
        if source.value != spec.key {
          normalized := normalized - {source.value};
        }
      }
    }
    assert fields[..|fields|] == fields;
  }

  /** Its loop over the cross-field rules. */
  method ApplyRules(rules: seq<Payload -> Option<Error>>, values: Payload) returns (errors: seq<Error>)
    ensures errors == Crossed(rules, values)
  {
    errors := [];
    for i := 0 to |rules|
      invariant errors == Crossed(rules[..i], values)
    {
      assert rules[..i + 1][..i] == rules[..i];
      var failure := rules[i](values);
      if failure.Some? {
        errors := errors + [failure.value];
      }
    }
    assert rules[..|rules|] == rules;
  }

  // ---------------------------------------------------------------------------------------
  // What a failure lists
  // ---------------------------------------------------------------------------------------

  predicate DistinctKeys(fields: seq<FieldSpec>) {
    forall i, j :: 0 <= i < j < |fields| ==> fields[i].key != fields[j].key
  }

  ghost predicate Increasing(indices: seq<nat>, bound: nat) {
    && (forall i :: 0 <= i < |indices| ==> indices[i] < bound)
    && forall i, j :: 0 <= i < j < |indices| ==> indices[i] < indices[j]
  }

  /** A field is violated when it has no acceptable value where it needs one. */
  ghost predicate Violated(spec: FieldSpec, payload: Payload, partial: bool, formats: Formats) {
    Violation(spec, payload, partial, formats).Some?
  }

  /** What is there, in order. */
  function Somes<E>(found: seq<Option<E>>): seq<E> {
    if found == [] then []
    else
      var n := |found| - 1;
      Somes(found[..n]) + if found[n].Some? then [found[n].value] else []
  }

  lemma {:induction false} SomesInOrder<E(!new)>(found: seq<Option<E>>) returns (at: seq<nat>)
    ensures Increasing(at, |found|) && Places(found, at, Somes(found))
  {
    at := [];
    if found != [] {
      var n := |found| - 1;
      at := SomesInOrder(found[..n]);
      OneMorePlace(found, at, Somes(found[..n]));
      if found[n].Some? {
        at := at + [n];
      }
    }
  }

  /** The values are those found at these places, and nothing is found elsewhere. */
  ghost predicate Places<E(!new)>(found: seq<Option<E>>, at: seq<nat>, values: seq<E>) {
    && |values| == |at|
    && (forall e :: 0 <= e < |at| ==> at[e] < |found| && found[at[e]] == Some(values[e]))
    && (forall i :: 0 <= i < |found| ==> (found[i].Some? <==> i in at))
  }

  lemma OneMorePlace<E(!new)>(found: seq<Option<E>>, at: seq<nat>, values: seq<E>)
    requires found != [] && var n := |found| - 1; Increasing(at, n) && Places(found[..n], at, values)
    ensures var n := |found| - 1;
      if found[n].Some? then Increasing(at + [n], |found|) && Places(found, at + [n], values + [found[n].value])
      else Increasing(at, |found|) && Places(found, at, values)
  {
    var n := |found| - 1;
    assert found == found[..n] + [found[n]];
    if found[n].Some? {
      IncreasingMore(at, n);
      PlaceAdded(found[..n], at, values, found[n].value);
    } else {
      PlaceSkipped(found[..n], at, values);
    }
  }

  lemma IncreasingMore(at: seq<nat>, n: nat)
    requires Increasing(at, n)
    ensures Increasing(at + [n], n + 1)
  {
  }

  lemma PlaceAdded<E(!new)>(found: seq<Option<E>>, at: seq<nat>, values: seq<E>, value: E)
    requires Places(found, at, values)
    ensures Places(found + [Some(value)], at + [|found|], values + [value])
  {
    var more, next := found + [Some(value)], at + [|found|];
    forall i | 0 <= i < |more|
      ensures more[i].Some? <==> i in next
    {
      assert i in next <==> i in at || i == |found|;
    }
  }

  lemma PlaceSkipped<E(!new)>(found: seq<Option<E>>, at: seq<nat>, values: seq<E>)
    requires Places(found, at, values)
    ensures Places(found + [None], at, values)
  {
    var more := found + [None];
    assert forall k :: k in at ==> k < |found|;
    forall i | 0 <= i < |more|
      ensures more[i].Some? <==> i in at
    {
    }
  }

  function FieldViolations(fields: seq<FieldSpec>, payload: Payload, partial: bool, formats: Formats): seq<Option<Error>> {
    seq(|fields|, i requires 0 <= i < |fields| => Violation(fields[i], payload, partial, formats))
  }

  lemma {:induction false} ViolationsAreSomes(fields: seq<FieldSpec>, payload: Payload, partial: bool, formats: Formats)
    ensures Violations(fields, payload, partial, formats) == Somes(FieldViolations(fields, payload, partial, formats))
  {
    if fields != [] {
      var n := |fields| - 1;
      ViolationsAreSomes(fields[..n], payload, partial, formats);
      FieldViolationsInit(fields, payload, partial, formats);
    }
  }

  lemma FieldViolationsInit(fields: seq<FieldSpec>, payload: Payload, partial: bool, formats: Formats)
    requires fields != []
    ensures var n := |fields| - 1;
      FieldViolations(fields, payload, partial, formats)[..n] == FieldViolations(fields[..n], payload, partial, formats)
  {
    var n := |fields| - 1;
    forall i | 0 <= i < n
      ensures FieldViolations(fields, payload, partial, formats)[..n][i] == FieldViolations(fields[..n], payload, partial, formats)[i]
    {
      assert fields[..n][i] == fields[i];
    }
  }

  /** The errors are those of the violated fields: all of them, once each, in schema order. */
  lemma ViolationsInSchemaOrder(fields: seq<FieldSpec>, payload: Payload, partial: bool, formats: Formats)
    returns (at: seq<nat>)
    ensures var errors := Violations(fields, payload, partial, formats);
      && |errors| == |at| && Increasing(at, |fields|)
      && (forall e :: 0 <= e < |at| ==> Violation(fields[at[e]], payload, partial, formats) == Some(errors[e]))
      && (forall i :: 0 <= i < |fields| ==> (Violated(fields[i], payload, partial, formats) <==> i in at))
  {
    var found := FieldViolations(fields, payload, partial, formats);
    ViolationsAreSomes(fields, payload, partial, formats);
    at := SomesInOrder(found);
    forall i | 0 <= i < |fields|
      ensures Violated(fields[i], payload, partial, formats) <==> i in at
    {
      assert found[i] == Violation(fields[i], payload, partial, formats);
    }
    forall e | 0 <= e < |at|
      ensures Violation(fields[at[e]], payload, partial, formats) == Some(Somes(found)[e])
    {
      assert found[at[e]] == Violation(fields[at[e]], payload, partial, formats);
    }
  }

  /** A missing required field is the only violation that a partial validation forgives. */
  lemma {:induction false} PartialForgivesOnlyMissing(fields: seq<FieldSpec>, payload: Payload, formats: Formats)
    ensures Violations(fields, payload, false, formats) == [] ==> Violations(fields, payload, true, formats) == []
    ensures Violations(fields, payload, true, formats) == [] ==>
      (Violations(fields, payload, false, formats) == [] <==> forall s :: s in fields && s.required ==> Source(s, payload).Some?)
  {
    if fields != [] {
      var n := |fields| - 1;
      PartialForgivesOnlyMissing(fields[..n], payload, formats);
      assert forall s :: s in fields <==> s in fields[..n] || s == fields[n];
    }
  }

  /** Full success implies partial success with the same result. */
  lemma FullImpliesPartial(schema: Schema, payload: Payload, keys: seq<string>)
    requires Validated(schema, payload, keys, false).Success?
    ensures Validated(schema, payload, keys, true) == Validated(schema, payload, keys, false)
  {
    PartialForgivesOnlyMissing(schema.fields, payload, schema.formats);
  }

  /** Conversely, partial success lacks nothing but missing required fields. */
  lemma PartialBecomesFullIff(schema: Schema, payload: Payload, keys: seq<string>)
    requires Validated(schema, payload, keys, true).Success?
    ensures Validated(schema, payload, keys, false).Success? <==>
            forall s :: s in schema.fields && s.required ==> Source(s, payload).Some?
  {
    PartialForgivesOnlyMissing(schema.fields, payload, schema.formats);
  }

  // ---------------------------------------------------------------------------------------
  // A validated payload validates to itself
  // ---------------------------------------------------------------------------------------

  ghost predicate AliasesAreNoKeys(fields: seq<FieldSpec>) {
    forall i, j :: 0 <= i < |fields| && 0 <= j < |fields| ==> fields[j].key !in fields[i].aliases
  }

  ghost predicate AllAccepted(fields: seq<FieldSpec>, payload: Payload, formats: Formats) {
    forall i :: 0 <= i < |fields| ==> Accepted(fields[i], payload, formats)
  }

  predicate Accepted(spec: FieldSpec, payload: Payload, formats: Formats) {
    Source(spec, payload).Some? ==> Normalize(spec, payload[Source(spec, payload).value], formats).Success?
  }

  ghost predicate IsKey(fields: seq<FieldSpec>, key: string) {
    exists i :: 0 <= i < |fields| && fields[i].key == key
  }

  /** Some field took its value from here. */
  ghost predicate IsSource(fields: seq<FieldSpec>, payload: Payload, key: string) {
    exists i :: 0 <= i < |fields| && Source(fields[i], payload) == Some(key)
  }

  /** Apart from the keys, the result is the payload without the aliases used. */
  lemma {:induction false} NormalizedOther(fields: seq<FieldSpec>, payload: Payload, formats: Formats, key: string)
    requires AllAccepted(fields, payload, formats) && !IsKey(fields, key)
    ensures var normalized := Normalized(fields, payload, formats);
      && (key in normalized <==> key in payload && !IsSource(fields, payload, key))
      && (key in normalized ==> normalized[key] == payload[key])
  {
    if fields != [] {
      var n := |fields| - 1;
      assert forall i :: 0 <= i < n ==> fields[..n][i] == fields[i];
      assert !IsKey(fields[..n], key);
      NormalizedOther(fields[..n], payload, formats, key);
      assert fields[n].key != key;
      SourceOneMore(fields, payload, key);
    }
  }

  lemma SourceOneMore(fields: seq<FieldSpec>, payload: Payload, key: string)
    requires fields != []
    ensures var n := |fields| - 1;
      IsSource(fields, payload, key) <==> IsSource(fields[..n], payload, key) || Source(fields[n], payload) == Some(key)
  {
    var n := |fields| - 1;
    assert forall i :: 0 <= i < n ==> fields[..n][i] == fields[i];
    if i :| 0 <= i < |fields| && Source(fields[i], payload) == Some(key) && i < n {
      assert Source(fields[..n][i], payload) == Some(key);
    }
  }

  /** What the result holds under the key of a field. */
  ghost predicate HoldsFor(spec: FieldSpec, payload: Payload, formats: Formats, normalized: Payload) {
    match Source(spec, payload)
    case None => spec.key !in normalized
    case Some(source) => spec.key in normalized && Normalize(spec, payload[source], formats) == Success(normalized[spec.key])
  }

  /** Storing another field leaves it. */
  lemma StoreLeaves(spec: FieldSpec, other: FieldSpec, payload: Payload, formats: Formats, normalized: Payload)
    requires HoldsFor(spec, payload, formats, normalized) && other.key != spec.key && spec.key !in other.aliases
    ensures HoldsFor(spec, payload, formats, Store(other, payload, normalized, formats))
  {
    assert Source(other, payload).Some? ==> Source(other, payload).value != spec.key;
  }

  /** Storing the field itself puts it there. */
  lemma StorePuts(spec: FieldSpec, payload: Payload, formats: Formats, normalized: Payload)
    requires Accepted(spec, payload, formats) && (Source(spec, payload).None? ==> spec.key !in normalized)
    ensures HoldsFor(spec, payload, formats, Store(spec, payload, normalized, formats))
  {
  }

  /** Under each key: the normal form of what was found for it, or nothing. */
  lemma {:induction false} NormalizedKey(fields: seq<FieldSpec>, payload: Payload, formats: Formats, i: nat)
    requires DistinctKeys(fields) && AliasesAreNoKeys(fields) && AllAccepted(fields, payload, formats) && i < |fields|
    ensures HoldsFor(fields[i], payload, formats, Normalized(fields, payload, formats))
  {
    var n := |fields| - 1;
    var init := fields[..n];
    assert forall j :: 0 <= j < n ==> init[j] == fields[j];
    if i < n {
      NormalizedKey(init, payload, formats, i);
      StoreLeaves(fields[i], fields[n], payload, formats, Normalized(init, payload, formats));
    } else {
      if Source(fields[n], payload).None? {
        assert !IsKey(init, fields[n].key);
        NormalizedOther(init, payload, formats, fields[n].key);
      }
      StorePuts(fields[n], payload, formats, Normalized(init, payload, formats));
    }
  }

  /** Validating the result again finds every field under its own key, already normal. */
  lemma FieldsAgain(fields: seq<FieldSpec>, payload: Payload, formats: Formats, i: nat, partial: bool)
    requires DistinctKeys(fields) && AliasesAreNoKeys(fields) && AllAccepted(fields, payload, formats) && i < |fields|
    ensures var normalized := Normalized(fields, payload, formats);
      && Source(fields[i], normalized) == (if Source(fields[i], payload).Some? then Some(fields[i].key) else None)
      && (Source(fields[i], payload).Some? ==> Normalize(fields[i], normalized[fields[i].key], formats) == Success(normalized[fields[i].key]))
      && (Violation(fields[i], payload, partial, formats).None? ==> Violation(fields[i], normalized, partial, formats).None?)
  {
    var normalized := Normalized(fields, payload, formats);
    NormalizedKey(fields, payload, formats, i);
    match Source(fields[i], payload)
    case None =>
      forall alias | alias in fields[i].aliases
        ensures alias !in normalized
      {
        NormalizedOther(fields, payload, formats, alias);
      }
    case Some(source) =>
      NormalizeTwice(fields[i], payload[source], formats);
  }

  lemma NormalizedAgain(fields: seq<FieldSpec>, payload: Payload, formats: Formats)
    requires DistinctKeys(fields) && AliasesAreNoKeys(fields) && AllAccepted(fields, payload, formats)
    ensures var normalized := Normalized(fields, payload, formats);
      AllAccepted(fields, normalized, formats) && Normalized(fields, normalized, formats) == normalized
  {
    var normalized := Normalized(fields, payload, formats);
    forall i | 0 <= i < |fields|
      ensures Accepted(fields[i], normalized, formats)
      ensures Source(fields[i], normalized).Some? ==> Source(fields[i], normalized).value == fields[i].key
    {
      FieldsAgain(fields, payload, formats, i, true);
    }
    var again := Normalized(fields, normalized, formats);
    forall key
      ensures key in again <==> key in normalized
      ensures key in again && key in normalized ==> again[key] == normalized[key]
    {
      if i :| 0 <= i < |fields| && fields[i].key == key {
        FieldsAgain(fields, payload, formats, i, true);
        NormalizedKey(fields, normalized, formats, i);
      } else {
        NormalizedOther(fields, normalized, formats, key);
      }
    }
    assert again.Keys == normalized.Keys;
  }

  lemma {:induction false} NoViolations(fields: seq<FieldSpec>, payload: Payload, partial: bool, formats: Formats)
    ensures Violations(fields, payload, partial, formats) == [] <==>
            forall i :: 0 <= i < |fields| ==> Violation(fields[i], payload, partial, formats).None?
  {
    if fields != [] {
      var n := |fields| - 1;
      NoViolations(fields[..n], payload, partial, formats);
      assert forall i :: 0 <= i < n ==> fields[..n][i] == fields[i];
    }
  }

  lemma {:induction false} NothingUnknown(schema: Schema, keys: seq<string>)
    ensures Unknown(schema, keys) == [] <==> forall k :: k in keys ==> Allowed(schema, k)
  {
    if keys != [] {
      var n := |keys| - 1;
      NothingUnknown(schema, keys[..n]);
      assert forall k :: k in keys <==> k in keys[..n] || k == keys[n];
    }
  }

  /** The rules look at schema keys only. */
  ghost predicate RulesReadKeys(schema: Schema) {
    forall r, v, w :: 0 <= r < |schema.crossField| && SameOnKeys(schema.fields, v, w) ==>
      schema.crossField[r](v) == schema.crossField[r](w)
  }

  ghost predicate SameOnKeys(fields: seq<FieldSpec>, v: Payload, w: Payload) {
    forall i :: 0 <= i < |fields| ==>
      && (fields[i].key in v <==> fields[i].key in w)
      && (fields[i].key in v ==> v[fields[i].key] == w[fields[i].key])
  }

  lemma {:induction false} SameCrossed(schema: Schema, n: nat, v: Payload, w: Payload)
    requires RulesReadKeys(schema) && SameOnKeys(schema.fields, v, w) && n <= |schema.crossField|
    ensures Crossed(schema.crossField[..n], v) == Crossed(schema.crossField[..n], w)
  {
    if n > 0 {
      SameCrossed(schema, n - 1, v, w);
      assert schema.crossField[..n][..n - 1] == schema.crossField[..n - 1];
      assert schema.crossField[n - 1](v) == schema.crossField[n - 1](w);
    }
  }

  lemma SameRulesOutcome(schema: Schema, payload: Payload)
    requires DistinctKeys(schema.fields) && AliasesAreNoKeys(schema.fields) && RulesReadKeys(schema)
    requires AllAccepted(schema.fields, payload, schema.formats)
    ensures var normalized := Normalized(schema.fields, payload, schema.formats);
      Crossed(schema.crossField, payload + normalized) == Crossed(schema.crossField, normalized + normalized)
  {
    var normalized := Normalized(schema.fields, payload, schema.formats);
    forall i | 0 <= i < |schema.fields|
      ensures schema.fields[i].key in payload ==> schema.fields[i].key in normalized
    {
      NormalizedKey(schema.fields, payload, schema.formats, i);
    }
    assert SameOnKeys(schema.fields, payload + normalized, normalized + normalized);
    SameCrossed(schema, |schema.crossField|, payload + normalized, normalized + normalized);
    assert schema.crossField[..|schema.crossField|] == schema.crossField;
  }

  /**
   Main result: what `validate` returns is a fixed point of `validate`, in either mode, in
   whatever order its keys are listed.
   */
  lemma ValidatedIsStable(schema: Schema, payload: Payload, keys: seq<string>, again: seq<string>, partial: bool)
    requires DistinctKeys(schema.fields) && AliasesAreNoKeys(schema.fields) && RulesReadKeys(schema)
    requires forall k :: k in payload <==> k in keys
    requires Validated(schema, payload, keys, partial).Success?
    requires forall k :: k in Validated(schema, payload, keys, partial).value <==> k in again
    ensures Validated(schema, Validated(schema, payload, keys, partial).value, again, partial) == Validated(schema, payload, keys, partial)
  {
    var fields, formats := schema.fields, schema.formats;
    var normalized := Normalized(fields, payload, formats);
    NoViolations(fields, payload, partial, formats);
    forall i | 0 <= i < |fields|
      ensures Accepted(fields[i], payload, formats)
    {
      assert Violation(fields[i], payload, partial, formats).None?;
    }
    forall i | 0 <= i < |fields|
      ensures Violation(fields[i], normalized, partial, formats).None?
    {
      FieldsAgain(fields, payload, formats, i, partial);
    }
    NoViolations(fields, normalized, partial, formats);
    if schema.rejectUnknown {
      NothingUnknown(schema, keys);
      forall k | k in again
        ensures Allowed(schema, k)
      {
        if i :| 0 <= i < |fields| && fields[i].key == k {
          assert Names(fields[i], k);
        } else {
          NormalizedOther(fields, payload, formats, k);
        }
      }
      NothingUnknown(schema, again);
    }
    NormalizedAgain(fields, payload, formats);
    SameRulesOutcome(schema, payload);
  }

  // ---------------------------------------------------------------------------------------
  // Repeated rows
  // ---------------------------------------------------------------------------------------

  /** `text.rstrip(".")` */
  function StripDots(text: string): string {
    if text != [] && text[|text| - 1] == '.' then StripDots(text[..|text| - 1]) else text
  }

  function RowPath(field: string, index: nat): string {
    field + "." + Digits(index)
  }

  function Path(field: string, index: nat, key: string): string {
    StripDots(RowPath(field, index) + "." + key)
  }

  lemma {:induction false} StripDotsOfSum(head: string, tail: string)
    ensures StripDots(head + tail) == if StripDots(tail) != "" then head + StripDots(tail) else StripDots(head)
  {
    if tail != [] {
      var n := |tail| - 1;
      assert (head + tail)[..|head + tail| - 1] == head + tail[..n];
      if tail[n] == '.' {
        StripDotsOfSum(head, tail[..n]);
      }
    } else {
      assert head + tail == head;
    }
  }

  /** What `rstrip` leaves of the part after the row. */
  function Tail(key: string): string {
    if StripDots(key) == "" then "" else "." + StripDots(key)
  }

  lemma OneDot(head: string)
    requires head != [] && head[|head| - 1] != '.'
    ensures StripDots(head + ".") == head
  {
    assert (head + ".")[..|head|] == head;
  }

  lemma RowEndsInDigit(field: string, index: nat)
    ensures var row := RowPath(field, index); row != [] && row[|row| - 1] != '.'
  {
    var row := RowPath(field, index);
    assert row[|row| - 1] == Digits(index)[|Digits(index)| - 1];
    assert IsDigit(row[|row| - 1]);
  }

  /** A key with something before its final dots. */
  lemma KeyBehind(row: string, key: string)
    requires StripDots(key) != ""
    ensures StripDots((row + ".") + key) == row + ("." + StripDots(key))
  {
    StripDotsOfSum(row + ".", key);
    assert (row + ".") + StripDots(key) == row + ("." + StripDots(key));
  }

  /** A key of dots only. */
  lemma DotsBehind(row: string, key: string)
    requires StripDots(key) == "" && row != [] && row[|row| - 1] != '.'
    ensures StripDots((row + ".") + key) == row
  {
    StripDotsOfSum(row + ".", key);
    OneDot(row);
  }

  lemma PathShape(field: string, index: nat, key: string)
    ensures Path(field, index, key) == RowPath(field, index) + Tail(key)
  {
    var row := RowPath(field, index);
    RowEndsInDigit(field, index);
    if StripDots(key) != "" {
      KeyBehind(row, key);
    } else {
      DotsBehind(row, key);
      assert row + "" == row;
    }
  }

  /** A path is field, row and key with dots between; without a key it is the row's. */
  lemma PathIs(field: string, index: nat, key: string)
    ensures key != "" && key[|key| - 1] != '.' ==> Path(field, index, key) == field + "." + Digits(index) + "." + key
    ensures (forall i :: 0 <= i < |key| ==> key[i] == '.') ==> Path(field, index, key) == field + "." + Digits(index)
  {
    PathShape(field, index, key);
    if forall i :: 0 <= i < |key| ==> key[i] == '.' {
      OnlyDots(key);
      assert RowPath(field, index) + "" == RowPath(field, index);
    } else if key[|key| - 1] != '.' {
      assert RowPath(field, index) + ("." + key) == field + "." + Digits(index) + "." + key;
    }
  }

  lemma {:induction false} OnlyDots(key: string)
    requires forall i :: 0 <= i < |key| ==> key[i] == '.'
    ensures StripDots(key) == ""
  {
    if key != "" {
      OnlyDots(key[..|key| - 1]);
    }
  }

  /** Two errors share a path exactly when they are about the same row and, up to final dots, key. */
  lemma PathsAddressRows(field: string, i: nat, k: string, j: nat, l: string)
    ensures Path(field, i, k) == Path(field, j, l) <==> i == j && StripDots(k) == StripDots(l)
  {
    PathShape(field, i, k);
    PathShape(field, j, l);
    if Path(field, i, k) == Path(field, j, l) {
      SamePaths(field + ".", Digits(i), Tail(k), Digits(j), Tail(l));
      SplitAfterDigits(Digits(i), Tail(k), Digits(j), Tail(l));
      ValueOfDigits(i);
      ValueOfDigits(j);
      SameTails(k, l);
    }
  }

  lemma SamePaths(head: string, p: string, s: string, q: string, t: string)
    requires head + p + s == head + q + t
    ensures p + s == q + t
  {
    assert (head + p + s)[|head|..] == p + s && (head + q + t)[|head|..] == q + t;
  }

  lemma SameTails(k: string, l: string)
    requires Tail(k) == Tail(l)
    ensures StripDots(k) == StripDots(l)
  {
    assert Tail(k) != "" ==> Tail(k)[1..] == StripDots(k);
    assert Tail(l) != "" ==> Tail(l)[1..] == StripDots(l);
  }

  /** One row: its values or its errors under the keys of the schema. */
  function Row(schema: Schema, item: Value): Result<Payload, seq<Error>> {
    if item.Dict? then Validated(schema, item.entries, item.order, false) else Failure([Error("", INVALID_TYPE)])
  }

  function Prefixed(field: string, index: nat, errors: seq<Error>): seq<Error> {
    seq(|errors|, e requires 0 <= e < |errors| => Error(Path(field, index, errors[e].field), errors[e].code))
  }

  function RowErrors(schema: Schema, items: seq<Value>, field: string): seq<Error> {
    if items == [] then []
    else
      var n := |items| - 1;
      var row := Row(schema, items[n]);
      RowErrors(schema, items[..n], field) + if row.Failure? then Prefixed(field, n, row.error) else []
  }

  datatype LinesError = NotAList(field: string) | InRows(errors: seq<Error>)

  /** `validate_line_items`: every row validated, or nothing returned. */
  method ValidateLineItems(value: Value, schema: Schema, field: string) returns (outcome: Result<seq<Payload>, LinesError>)
    ensures value == Null || value == Str("") ==> outcome == Success([])
    ensures value != Null && value != Str("") && !value.List? ==> outcome == Failure(NotAList(field))
    ensures value.List? ==> (outcome.Success? <==> forall i :: 0 <= i < |value.items| ==> Row(schema, value.items[i]).Success?)
    ensures value.List? && outcome.Success? ==>
      && |outcome.value| == |value.items|
      && forall i :: 0 <= i < |value.items| ==> Row(schema, value.items[i]) == Success(outcome.value[i])
    ensures value.List? && outcome.Failure? ==> outcome.error == InRows(RowErrors(schema, value.items, field))
  {
    if value == Null || value == Str("") {
      return Success([]);
    }
    if !value.List? {
      return Failure(NotAList(field));
    }
    var rows, errors := ValidateRows(value.items, schema, field);
    return if errors != [] then Failure(InRows(errors)) else Success(rows);
  }

  /** Its loop. */
  method ValidateRows(items: seq<Value>, schema: Schema, field: string) returns (rows: seq<Payload>, errors: seq<Error>)
    ensures errors == RowErrors(schema, items, field)
    ensures errors == [] <==> forall i :: 0 <= i < |items| ==> Row(schema, items[i]).Success?
    ensures errors == [] ==> |rows| == |items| && forall i :: 0 <= i < |items| ==> Row(schema, items[i]) == Success(rows[i])
  {
    rows, errors := [], [];
    for i := 0 to |items|
      invariant errors == RowErrors(schema, items[..i], field)
      invariant errors == [] <==> forall j :: 0 <= j < i ==> Row(schema, items[j]).Success?
      invariant errors == [] ==> |rows| == i && forall j :: 0 <= j < i ==> Row(schema, items[j]) == Success(rows[j])
    {
      var found, row := ValidateRow(schema, field, i, items[i]);
      RowErrorsOneMore(schema, items, field, i);
      errors := errors + found;
      if row.Some? {
        rows := rows + [row.value];
      }
    }
    assert items[..|items|] == items;
  }

  lemma RowErrorsOneMore(schema: Schema, items: seq<Value>, field: string, i: nat)
    requires i < |items|
    ensures RowErrors(schema, items[..i + 1], field) == RowErrors(schema, items[..i], field) +
      if Row(schema, items[i]).Failure? then Prefixed(field, i, Row(schema, items[i]).error) else []
  {
    assert items[..i + 1][..i] == items[..i];
  }

  /** One turn of its loop. */
  method ValidateRow(schema: Schema, field: string, index: nat, item: Value) returns (errors: seq<Error>, row: Option<Payload>)
    ensures Row(schema, item).Success? ==> errors == [] && row == Some(Row(schema, item).value)
    ensures Row(schema, item).Failure? ==> errors == Prefixed(field, index, Row(schema, item).error) && errors != [] && row == None
  {
    if !item.Dict? {
      PathShape(field, index, "");
      assert Path(field, index, "") == RowPath(field, index);
      errors, row := [Error(RowPath(field, index), INVALID_TYPE)], None;
      assert errors == Prefixed(field, index, Row(schema, item).error);
      return;
    }
    var outcome := Validate(schema, item.entries, item.order, false);
    if outcome.Success? {
      return [], Some(outcome.value);
    }
    errors, row := [], None;
    for e := 0 to |outcome.error|
      invariant errors == Prefixed(field, index, outcome.error)[..e]
    {
      errors := errors + [Error(Path(field, index, outcome.error[e].field), outcome.error[e].code)];
    }
  }

  /** The errors listed under one row's paths are exactly that row's own. */
  lemma ErrorsOfRow(schema: Schema, items: seq<Value>, field: string, i: nat, key: string, code: Code)
    requires i < |items|
    ensures Error(Path(field, i, key), code) in RowErrors(schema, items, field) <==>
            Row(schema, items[i]).Failure? && exists e :: e in Row(schema, items[i]).error && StripDots(e.field) == StripDots(key) && e.code == code
  {
    ErrorsUpTo(schema, items, field, i, key, code);
  }

  lemma {:induction false} ErrorsUpTo(schema: Schema, items: seq<Value>, field: string, i: nat, key: string, code: Code)
    ensures Error(Path(field, i, key), code) in RowErrors(schema, items, field) <==>
            i < |items| && Row(schema, items[i]).Failure? && exists e :: e in Row(schema, items[i]).error && StripDots(e.field) == StripDots(key) && e.code == code
  {
    if items != [] {
      var n := |items| - 1;
      ErrorsUpTo(schema, items[..n], field, i, key, code);
      if Row(schema, items[n]).Failure? {
        ErrorsOfOne(Row(schema, items[n]).error, field, n, i, key, code);
      }
    }
  }

  lemma ErrorsOfOne(errors: seq<Error>, field: string, n: nat, i: nat, key: string, code: Code)
    ensures Error(Path(field, i, key), code) in Prefixed(field, n, errors) <==>
            i == n && exists e :: e in errors && StripDots(e.field) == StripDots(key) && e.code == code
  {
    var listed := Prefixed(field, n, errors);
    forall e | 0 <= e < |errors|
      ensures listed[e] == Error(Path(field, i, key), code) <==> i == n && StripDots(errors[e].field) == StripDots(key) && errors[e].code == code
    {
      PathsAddressRows(field, n, errors[e].field, i, key);
    }
    if i == n && exists e :: e in errors && StripDots(e.field) == StripDots(key) && e.code == code {
      var e :| 0 <= e < |errors| && StripDots(errors[e].field) == StripDots(key) && errors[e].code == code;
      assert listed[e] in listed;
    }
  }
}