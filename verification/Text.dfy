/** Python's view of white space: `str.isspace`, `str.strip`. */
module Text {

  /** The characters `str.strip()` and `str.split()` treat as white space. */
  predicate IsSpace(c: char) {
    var n := c as int;
    || 9 <= n <= 13 || 28 <= n <= 32 || n == 0x85 || n == 0xA0 || n == 0x1680
    || 0x2000 <= n <= 0x200A || n == 0x2028 || n == 0x2029 || n == 0x202F || n == 0x205F || n == 0x3000
  }

  predicate AllSpace(s: string) {
    forall i :: 0 <= i < |s| ==> IsSpace(s[i])
  }

  function Strip(s: string): (r: string)
    ensures r == [] <==> AllSpace(s)
    ensures r != [] ==> !IsSpace(r[0]) && !IsSpace(r[|r| - 1])
    ensures |r| <= |s|
  {
    if s == [] then s
    else if IsSpace(s[0]) then Strip(s[1..])
    else if IsSpace(s[|s| - 1]) then Strip(s[..|s| - 1])
    else s
  }

  /** `r` is `s` without white space at its ends. */
  predicate Trims(before: string, r: string, after: string, s: string) {
    AllSpace(before) && AllSpace(after) && before + (r + after) == s
  }

  lemma TrimsMoreInFront(c: char, before: string, r: string, after: string, s: string)
    requires IsSpace(c) && Trims(before, r, after, s)
    ensures Trims([c] + before, r, after, [c] + s)
  {
    assert ([c] + before) + (r + after) == [c] + (before + (r + after));
  }

  lemma TrimsMoreBehind(before: string, r: string, after: string, c: char, s: string)
    requires IsSpace(c) && Trims(before, r, after, s)
    ensures Trims(before, r, after + [c], s + [c])
  {
    assert before + (r + (after + [c])) == (before + (r + after)) + [c];
  }

  /** Stripping takes white space off both ends, and nothing else. */
  lemma {:induction false} StripIs(s: string) returns (before: string, after: string)
    ensures Trims(before, Strip(s), after, s)
  {
    before, after := [], [];
    if s != [] && IsSpace(s[0]) {
      before, after := StripIs(s[1..]);
      TrimsMoreInFront(s[0], before, Strip(s), after, s[1..]);
      assert s == [s[0]] + s[1..];
      before := [s[0]] + before;
    } else if s != [] && IsSpace(s[|s| - 1]) {
      var n := |s| - 1;
      before, after := StripIs(s[..n]);
      TrimsMoreBehind(before, Strip(s), after, s[n], s[..n]);
      assert s == s[..n] + [s[n]];
      after := after + [s[n]];
    }
  }

  lemma StripTwice(s: string)
    ensures Strip(Strip(s)) == Strip(s)
  {
  }
}
