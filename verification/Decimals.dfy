/** Python's decimal rendering of non-negative integers: `str(n)` and `str.zfill`. */
module Decimals {

  predicate IsDigit(c: char) {
    '0' <= c <= '9'
  }

  ghost predicate AllDigits(s: string) {
    forall i :: 0 <= i < |s| ==> IsDigit(s[i])
  }

  /** `str(n)` */
  function Digits(n: nat): (s: string)
    ensures AllDigits(s) && 0 < |s|
  {
    if n < 10 then [('0' as int + n) as char] else Digits(n / 10) + [('0' as int + n % 10) as char]
  }

  /** The number a digit string denotes, leading zeros allowed. */
  function Value(s: string): (n: nat)
    requires AllDigits(s)
  {
    if s == [] then 0 else 10 * Value(s[..|s| - 1]) + (s[|s| - 1] as int - '0' as int)
  }

  lemma {:induction false} ValueOfDigits(n: nat)
    ensures Value(Digits(n)) == n
  {
    if n < 10 {
      assert Digits(n)[..0] == [];
    } else {
      ValueOfDigits(n / 10);
      assert Digits(n)[..|Digits(n)| - 1] == Digits(n / 10);
    }
  }

  /** `str.zfill` on digits: pad with zeros on the left up to the width, never cut. */
  function ZFill(s: string, width: nat): (r: string)
    requires AllDigits(s)
    ensures AllDigits(r) && |r| == if |s| < width then width else |s|
    decreases width - |s|
  {
    if |s| < width then ZFill(['0'] + s, width) else s
  }

  lemma {:induction false} ValueOfZero(s: string)
    requires AllDigits(s)
    ensures Value(['0'] + s) == Value(s)
  {
    if s == [] {
      assert (['0'] + s)[..0] == [];
    } else {
      ValueOfZero(s[..|s| - 1]);
      assert (['0'] + s)[..|s|] == ['0'] + s[..|s| - 1];
    }
  }

  /** Padding does not change the number. */
  lemma {:induction false} ValueOfZFill(s: string, width: nat)
    requires AllDigits(s)
    ensures Value(ZFill(s, width)) == Value(s)
    decreases width - |s|
  {
    if |s| < width {
      ValueOfZero(s);
      ValueOfZFill(['0'] + s, width);
    }
  }

  ghost predicate NoDigit(s: string) {
    forall i :: 0 <= i < |s| ==> !IsDigit(s[i])
  }

  /**
   Where two texts switch from one kind of character to the other, they switch at the same
   place: a digit-free head is determined by the whole text once a digit follows it.
   */
  lemma SplitAtFirstDigit(p: string, s: string, q: string, t: string)
    requires NoDigit(p) && NoDigit(q)
    requires s != [] && IsDigit(s[0]) && t != [] && IsDigit(t[0])
    requires p + s == q + t
    ensures p == q && s == t
  {
    var w := p + s;
    assert w[|p|] == s[0] && w[|q|] == t[0];
    assert forall i :: 0 <= i < |p| ==> w[i] == p[i];
    assert forall i :: 0 <= i < |q| ==> w[i] == q[i];
    assert p == (p + s)[..|p|] && q == (q + t)[..|q|];
    assert s == (p + s)[|p|..] && t == (q + t)[|q|..];
  }

  /** The same with the roles exchanged: a run of digits up to a separator. */
  lemma SplitAfterDigits(p: string, s: string, q: string, t: string)
    requires AllDigits(p) && AllDigits(q)
    requires (s == [] || !IsDigit(s[0])) && (t == [] || !IsDigit(t[0]))
    requires p + s == q + t
    ensures p == q && s == t
  {
    var w := p + s;
    assert |p| < |w| ==> w[|p|] == s[0];
    assert |q| < |w| ==> w[|q|] == t[0];
    assert forall i :: 0 <= i < |p| ==> w[i] == p[i];
    assert forall i :: 0 <= i < |q| ==> w[i] == q[i];
    assert p == (p + s)[..|p|] && q == (q + t)[..|q|];
    assert s == (p + s)[|p|..] && t == (q + t)[|q|..];
  }
}
