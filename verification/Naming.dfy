/**
 API names and column names: `to_camel` of `serialization.py`, `_snake_case` and
 `resolve_sort_column` of `pagination.py`. Case mapping is that of ASCII letters.
 */
module Naming {
  import opened Wrappers
  import Text

  predicate IsUpper(c: char) {
    'A' <= c <= 'Z'
  }

  predicate IsLower(c: char) {
    'a' <= c <= 'z'
  }

  function ToUpper(c: char): char {
    if IsLower(c) then (c as int - 32) as char else c
  }

  function ToLower(c: char): char {
    if IsUpper(c) then (c as int + 32) as char else c
  }

  /** `str.lower` */
  function Lowered(s: string): string {
    if s == [] then [] else [ToLower(s[0])] + Lowered(s[1..])
  }

  /** `str.capitalize` */
  function Capitalized(s: string): string {
    if s == [] then [] else [ToUpper(s[0])] + Lowered(s[1..])
  }

  /** `str.split("_")` */
  function Segments(s: string): (r: seq<string>)
    ensures r != []
  {
    if s == [] then [[]]
    else
      var rest := Segments(s[1..]);
      if s[0] == '_' then [[]] + rest else [[s[0]] + rest[0]] + rest[1..]
  }

  function Capitals(segments: seq<string>): string {
    if segments == [] then [] else Capitalized(segments[0]) + Capitals(segments[1..])
  }

  function ToCamel(name: string): string {
    if '_' !in name then name
    else
      var segments := Segments(name);
      segments[0] + Capitals(segments[1..])
  }

  /** `re.sub(r"(?<!^)(?=[A-Z])", "_", name).lower()`; `start` is the beginning of the text. */
  function SnakeFrom(s: string, start: bool): string {
    if s == [] then []
    else (if IsUpper(s[0]) && !start then "_" else "") + [ToLower(s[0])] + SnakeFrom(s[1..], false)
  }

  function SnakeCase(name: string): string {
    SnakeFrom(name, true)
  }

  // ---------------------------------------------------------------------------------------
  // The round trip
  // ---------------------------------------------------------------------------------------

  /** Column names as the models use them. */
  ghost predicate IsColumnName(s: string) {
    forall i :: 0 <= i < |s| ==> IsLower(s[i]) || '0' <= s[i] <= '9' || s[i] == '_'
  }

  predicate LetterFirst(segment: string) {
    segment != [] && IsLower(segment[0])
  }

  /** No underscore; or text before the first underscore and a letter after each. */
  ghost predicate Reversible(name: string) {
    '_' !in name || (Segments(name)[0] != "" && forall i :: 0 < i < |Segments(name)| ==> LetterFirst(Segments(name)[i]))
  }

  /** Each segment behind its underscore. */
  function Joined(segments: seq<string>): string {
    if segments == [] then [] else "_" + segments[0] + Joined(segments[1..])
  }

  ghost predicate Plain(s: string) {
    IsColumnName(s) && '_' !in s
  }

  lemma {:induction false} SegmentsJoin(s: string)
    ensures Segments(s)[0] + Joined(Segments(s)[1..]) == s
    ensures '_' in s <==> |Segments(s)| > 1
  {
    if s != [] {
      var rest, r := Segments(s[1..]), Segments(s);
      SegmentsJoin(s[1..]);
      if s[0] == '_' {
        assert r[0] == "" && r[1..] == rest;
        assert Joined(rest) == "_" + rest[0] + Joined(rest[1..]);
        Underscored(rest[0], Joined(rest[1..]));
      } else {
        assert r[0] == [s[0]] + rest[0] && r[1..] == rest[1..];
        Associate([s[0]], rest[0], Joined(rest[1..]));
      }
      assert s == [s[0]] + s[1..];
    }
  }

  lemma Associate(a: string, b: string, c: string)
    ensures (a + b) + c == a + (b + c)
  {
  }

  lemma Underscored(b: string, c: string)
    ensures "" + ("_" + b + c) == ['_'] + (b + c)
  {
  }

  lemma {:induction false} SegmentsArePlain(s: string)
    requires IsColumnName(s)
    ensures forall i :: 0 <= i < |Segments(s)| ==> Plain(Segments(s)[i])
  {
    if s != [] {
      var rest, r := Segments(s[1..]), Segments(s);
      SegmentsArePlain(s[1..]);
      assert Plain(rest[0]);
      forall i | 0 <= i < |r|
        ensures Plain(r[i])
      {
        if s[0] == '_' {
          assert r[i] == if i == 0 then [] else rest[i - 1];
        } else {
          assert r[i] == if i == 0 then [s[0]] + rest[0] else rest[i];
        }
      }
    }
  }

  lemma {:induction false} LoweredPlain(s: string)
    requires IsColumnName(s)
    ensures Lowered(s) == s
  {
    if s != [] {
      LoweredPlain(s[1..]);
    }
  }

  lemma {:induction false} SnakeOfPlain(s: string, start: bool)
    requires IsColumnName(s)
    ensures SnakeFrom(s, start) == s
  {
    if s != [] {
      SnakeOfPlain(s[1..], false);
    }
  }

  lemma {:induction false} SnakeOfSum(a: string, b: string, start: bool)
    ensures SnakeFrom(a + b, start) == SnakeFrom(a, start) + SnakeFrom(b, start && a == [])
  {
    if a == [] {
      assert a + b == b;
    } else {
      assert (a + b)[1..] == a[1..] + b;
      SnakeOfSum(a[1..], b, false);
    }
  }

  /** One segment: the underscore comes back before a letter, except at the start. */
  lemma SnakeOfCapitalized(segment: string, start: bool)
    requires Plain(segment)
    ensures SnakeFrom(Capitalized(segment), start) == (if LetterFirst(segment) && !start then "_" else "") + segment
  {
    if segment != [] {
      LoweredPlain(segment[1..]);
      assert Capitalized(segment)[1..] == segment[1..];
      SnakeOfPlain(segment[1..], false);
      assert segment == [segment[0]] + segment[1..];
    }
  }

  /** All segments: exact if each starts with a letter, and otherwise too short. */
  lemma {:induction false} SnakeOfCapitals(segments: seq<string>, start: bool)
    requires forall i :: 0 <= i < |segments| ==> Plain(segments[i])
    ensures (forall i :: 0 <= i < |segments| ==> LetterFirst(segments[i])) && !start ==>
      SnakeFrom(Capitals(segments), start) == Joined(segments)
    ensures |SnakeFrom(Capitals(segments), start)| <= |Joined(segments)|
    ensures (exists i :: 0 <= i < |segments| && !LetterFirst(segments[i])) || (start && segments != []) ==>
      |SnakeFrom(Capitals(segments), start)| < |Joined(segments)|
  {
    if segments != [] {
      var head, rest := segments[0], segments[1..];
      var atStart := start && Capitalized(head) == [];
      assert forall i :: 0 <= i < |rest| ==> rest[i] == segments[i + 1];
      SnakeOfCapitals(rest, atStart);
      SnakeOfSum(Capitalized(head), Capitals(rest), start);
      SnakeOfCapitalized(head, start);
    }
  }

  /** Main result: the API name leads back to the column name exactly for reversible names. */
  lemma SnakeUndoesCamelIff(name: string)
    requires IsColumnName(name)
    ensures SnakeCase(ToCamel(name)) == name <==> Reversible(name)
  {
    if '_' !in name {
      SnakeOfPlain(name, true);
    } else {
      SegmentsJoin(name);
      SegmentsArePlain(name);
      var segments := Segments(name);
      var first, rest := segments[0], segments[1..];
      assert forall i :: 0 <= i < |rest| ==> rest[i] == segments[i + 1];
      SnakeOfCapitals(rest, first == []);
      SnakeOfSum(first, Capitals(rest), true);
      SnakeOfPlain(first, true);
    }
  }

  ghost predicate NoMark(s: string) {
    forall i :: 0 <= i < |s| ==> s[i] != '_' && !Text.IsSpace(s[i])
  }

  lemma PlainHasNoMark(s: string)
    requires Plain(s)
    ensures NoMark(s) && NoMark(Capitalized(s))
  {
    if s != [] {
      LoweredPlain(s[1..]);
    }
  }

  lemma {:induction false} NoUnderscores(segments: seq<string>)
    requires forall i :: 0 <= i < |segments| ==> Plain(segments[i])
    ensures NoMark(Capitals(segments))
  {
    if segments != [] {
      assert forall i :: 0 <= i < |segments[1..]| ==> segments[1..][i] == segments[i + 1];
      NoUnderscores(segments[1..]);
      PlainHasNoMark(segments[0]);
    }
  }

  lemma CamelHasNoUnderscore(name: string)
    requires IsColumnName(name)
    ensures NoMark(ToCamel(name))
  {
    if '_' in name {
      SegmentsJoin(name);
      SegmentsArePlain(name);
      var segments := Segments(name);
      assert forall i :: 0 <= i < |segments[1..]| ==> segments[1..][i] == segments[i + 1];
      NoUnderscores(segments[1..]);
      PlainHasNoMark(segments[0]);
    } else {
      PlainHasNoMark(name);
    }
  }

  // ---------------------------------------------------------------------------------------
  // Sort keys
  // ---------------------------------------------------------------------------------------

  /** An alias names a column or is an expression of its own. */
  datatype Target = Column(name: string) | Expression(id: string)

  function AsColumn(columns: set<string>, name: string): Option<Target> {
    if name in columns then Some(Column(name)) else None
  }

  function Resolved(columns: set<string>, aliases: map<string, Target>, sortBy: Option<string>): Option<Target> {
    if sortBy.None? || Text.Strip(sortBy.value) == "" then None
    else
      var key := Text.Strip(sortBy.value);
      if key in aliases then if aliases[key].Column? then AsColumn(columns, aliases[key].name) else Some(aliases[key])
      else if key in columns then Some(Column(key))
      else if SnakeCase(key) in columns then Some(Column(SnakeCase(key)))
      else AsColumn(columns, Lowered(key))
  }

  method ResolveSortColumn(columns: set<string>, aliases: map<string, Target>, sortBy: Option<string>) returns (target: Option<Target>)
    ensures target == Resolved(columns, aliases, sortBy)
    ensures target.Some? ==> (target.value.Column? && target.value.name in columns) || target.value in aliases.Values
  {
    if sortBy.None? || sortBy.value == "" {
      return None;
    }
    var key := Text.Strip(sortBy.value);
    if key == "" {
      return None;
    }
    if key in aliases {
      var alias := aliases[key];
      if !alias.Column? {
        return Some(alias);
      }
      return if alias.name in columns then Some(alias) else None;
    }
    var candidates := [key, SnakeCase(key), Lowered(key)];
    for i := 0 to |candidates|
      invariant i > 0 ==> key !in columns
      invariant i > 1 ==> SnakeCase(key) !in columns
      invariant i > 2 ==> Lowered(key) !in columns
    {
      if candidates[i] in columns {
        return Some(Column(candidates[i]));
      }
    }
    return None;
  }

  /**
   Which column a sort key means: none if blank; what its alias says if it has one, a name only if
   whitelisted; otherwise the column of that very name, before its snake form, before its lower case.
   */
  lemma SortKeyMeans(columns: set<string>, aliases: map<string, Target>, key: string, sortBy: string)
    requires Text.Strip(sortBy) == key
    ensures Resolved(columns, aliases, None) == None
    ensures key == "" ==> Resolved(columns, aliases, Some(sortBy)) == None
    ensures key != "" && key in aliases && aliases[key].Expression? ==> Resolved(columns, aliases, Some(sortBy)) == Some(aliases[key])
    ensures key != "" && key in aliases && aliases[key].Column? ==>
      Resolved(columns, aliases, Some(sortBy)) == if aliases[key].name in columns then Some(aliases[key]) else None
    ensures key != "" && key !in aliases && key in columns ==> Resolved(columns, aliases, Some(sortBy)) == Some(Column(key))
    ensures key != "" && key !in aliases && key !in columns && SnakeCase(key) in columns ==>
      Resolved(columns, aliases, Some(sortBy)) == Some(Column(SnakeCase(key)))
    ensures key != "" && key !in aliases && key !in columns && SnakeCase(key) !in columns ==>
      Resolved(columns, aliases, Some(sortBy)) == if Lowered(key) in columns then Some(Column(Lowered(key))) else None
  {
  }

  lemma {:induction false} LoweredHasNoUnderscore(s: string)
    requires '_' !in s
    ensures '_' !in Lowered(s)
  {
    if s != [] {
      LoweredHasNoUnderscore(s[1..]);
    }
  }

  /**
   The API key of a column sorts by that very column exactly when the column name is reversible,
   whatever the other columns are.
   */
  lemma ApiKeySortsByItsColumnIff(columns: set<string>, aliases: map<string, Target>, column: string)
    requires column in columns && column != "" && forall c :: c in columns ==> IsColumnName(c)
    requires ToCamel(column) !in aliases
    ensures Resolved(columns, aliases, Some(ToCamel(column))) == Some(Column(column)) <==> Reversible(column)
  {
    var key := ToCamel(column);
    SnakeUndoesCamelIff(column);
    CamelHasNoUnderscore(column);
    LoweredHasNoUnderscore(key);
    assert Text.Strip(key) == key;
    if key in columns {
      SnakeOfPlain(key, true);
    }
  }

  /** Two reversible columns never share an API key. */
  lemma ApiKeysAreDistinct(a: string, b: string)
    requires IsColumnName(a) && IsColumnName(b) && Reversible(a) && Reversible(b) && ToCamel(a) == ToCamel(b)
    ensures a == b
  {
    SnakeUndoesCamelIff(a);
    SnakeUndoesCamelIff(b);
  }
}
