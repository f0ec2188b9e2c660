/**
 * The two pieces of Go's standard library the access-token core relies on for
 * its observable behaviour: `strings.TrimSpace` and the `%d` verb of
 * `fmt.Sprintf` on a signed integer. Strings are sequences of runes.
 */
module GoStrings {

  /** Go's `unicode.IsSpace`: the Unicode White_Space property. */
  predicate IsSpace(c: char) {
    c == '\t' || c == '\n' || c == '\U{000B}' || c == '\U{000C}' || c == '\r' || c == ' '
    || c == '\U{0085}' || c == '\U{00A0}' || c == '\U{1680}'
    || ('\U{2000}' <= c <= '\U{200A}')
    || c == '\U{2028}' || c == '\U{2029}' || c == '\U{202F}' || c == '\U{205F}' || c == '\U{3000}'
  }

  predicate AllSpace(s: string) {
    forall i :: 0 <= i < |s| ==> IsSpace(s[i])
  }

  /** Drops leading white space: what remains is a suffix of `s` that does not start with a space. */
  function TrimLeft(s: string): (r: string)
    ensures |r| <= |s| && r == s[|s| - |r|..]
    ensures AllSpace(s[..|s| - |r|])
    ensures r != [] ==> !IsSpace(r[0])
  {
    if s != [] && IsSpace(s[0]) then TrimLeft(s[1..]) else s
  }

  /** Drops trailing white space: what remains is a prefix of `s` that does not end with a space. */
  function TrimRight(s: string): (r: string)
    ensures |r| <= |s| && r == s[..|r|]
    ensures AllSpace(s[|r|..])
    ensures r != [] ==> !IsSpace(r[|r| - 1])
  {
    if s != [] && IsSpace(s[|s| - 1]) then TrimRight(s[..|s| - 1]) else s
  }

  /**
   * Go's `strings.TrimSpace`: `s` without its leading and trailing white
   * space. It is empty exactly when `s` is all space; otherwise it starts and
   * ends with a character that is not a space (`TrimSpaceInfix` says where in
   * `s` it lies).
   */
  function TrimSpace(s: string): (r: string)
    ensures r != [] ==> !IsSpace(r[0]) && !IsSpace(r[|r| - 1])
    ensures r == [] <==> AllSpace(s)
  {
    var l := TrimLeft(s);
    var r := TrimRight(l);
    TrimBothEnds(s, |s| - |l|, l, r);
    r
  }

  /**
   * The trimmed string is the infix of `s` that starts at `k`, after a run of
   * leading white space, and is followed only by white space.
   */
  lemma TrimSpaceInfix(s: string) returns (k: nat)
    ensures k + |TrimSpace(s)| <= |s| && TrimSpace(s) == s[k..k + |TrimSpace(s)|]
    ensures AllSpace(s[..k]) && AllSpace(s[k + |TrimSpace(s)|..])
  {
    var l := TrimLeft(s);
    var r := TrimRight(l);
    assert r == TrimSpace(s);
    k := |s| - |l|;
    TrimBothEnds(s, k, l, r);
  }

  /** Joins what the two one-sided trims promise into the promise of `TrimSpace`. */
  lemma TrimBothEnds(s: string, k: nat, l: string, r: string)
    requires k <= |s| && l == s[k..] && AllSpace(s[..k])
    requires |r| <= |l| && r == l[..|r|] && AllSpace(l[|r|..])
    requires r != [] ==> !IsSpace(r[0])
    ensures k <= |s| - |r| && r == s[k..k + |r|] && AllSpace(s[k + |r|..])
    ensures r == [] <==> AllSpace(s)
  {
    assert s[k + |r|..] == l[|r|..];
    if r == [] {
      assert s == s[..k] + l;
      AllSpaceConcat(s[..k], l);
    }
  }

  lemma AllSpaceConcat(a: string, b: string)
    requires AllSpace(a) && AllSpace(b)
    ensures AllSpace(a + b)
  {
    forall i | 0 <= i < |a + b| ensures IsSpace((a + b)[i]) {
      if i >= |a| {
        assert (a + b)[i] == b[i - |a|];
      }
    }
  }

  /** A string with no white space at either end is its own trimmed form. */
  lemma TrimSpaceOfTrimmed(s: string)
    requires s != [] ==> !IsSpace(s[0]) && !IsSpace(s[|s| - 1])
    ensures TrimSpace(s) == s
  {
  }

  /** Trimming twice is trimming once. */
  lemma TrimSpaceIdempotent(s: string)
    ensures TrimSpace(TrimSpace(s)) == TrimSpace(s)
  {
    TrimSpaceOfTrimmed(TrimSpace(s));
  }

  predicate IsDigit(c: char) {
    '0' <= c <= '9'
  }

  function DigitChar(d: nat): (c: char)
    requires d < 10
    ensures IsDigit(c)
  {
    ('0' as int + d) as char
  }

  function DigitValue(c: char): nat
    requires IsDigit(c)
  {
    c as int - '0' as int
  }

  /** The decimal digits of `n`, most significant first, with no leading zero. */
  function NatDigits(n: nat): (r: string)
    ensures |r| > 0
    ensures forall i :: 0 <= i < |r| ==> IsDigit(r[i])
    ensures |r| == 1 <==> n < 10
  {
    if n < 10 then [DigitChar(n)] else NatDigits(n / 10) + [DigitChar(n % 10)]
  }

  /** Reads a string of decimal digits back as a number. */
  function ParseNat(s: string): nat
    requires forall i :: 0 <= i < |s| ==> IsDigit(s[i])
  {
    if s == [] then 0 else ParseNat(s[..|s| - 1]) * 10 + DigitValue(s[|s| - 1])
  }

  lemma {:induction false} ParseNatDigits(n: nat)
    ensures ParseNat(NatDigits(n)) == n
  {
    if n >= 10 {
      var r := NatDigits(n);
      assert r[..|r| - 1] == NatDigits(n / 10);
      ParseNatDigits(n / 10);
    }
  }

  /** The `%d` rendering of a signed integer: an optional minus sign, then the digits of its magnitude. */
  function FormatInt(x: int): (r: string)
    ensures |r| >= 1 && (x < 0 ==> |r| >= 2 && r[0] == '-')
    ensures forall i :: (if x < 0 then 1 else 0) <= i < |r| ==> IsDigit(r[i])
  {
    if x < 0 then "-" + NatDigits(-x) else NatDigits(x)
  }

  /** Distinct integers print differently. */
  lemma FormatIntInjective(x: int, y: int)
    requires FormatInt(x) == FormatInt(y)
    ensures x == y
  {
    if x < 0 && y < 0 {
      assert NatDigits(-x) == FormatInt(x)[1..];
      ParseNatDigits(-x);
      ParseNatDigits(-y);
    } else if x >= 0 && y >= 0 {
      ParseNatDigits(x);
      ParseNatDigits(y);
    } else {
      FormatIntSign(x);
      FormatIntSign(y);
      assert false;
    }
  }

  /** A printed integer starts with a minus sign exactly when it is negative. */
  lemma FormatIntSign(x: int)
    ensures FormatInt(x) != [] && (FormatInt(x)[0] == '-' <==> x < 0)
  {
    if x >= 0 {
      assert IsDigit(NatDigits(x)[0]);
    }
  }

  /**
   * Splitting `a + sep + b` at the first `sep` recovers `a` when `a` is made of
   * characters other than `sep`.
   */
  lemma SplitAtSeparator(a1: string, b1: string, a2: string, b2: string, sep: char)
    requires forall i :: 0 <= i < |a1| ==> a1[i] != sep
    requires forall i :: 0 <= i < |a2| ==> a2[i] != sep
    requires a1 + [sep] + b1 == a2 + [sep] + b2
    ensures a1 == a2 && b1 == b2
  {
    var s := a1 + [sep] + b1;
    assert s[|a1|] == sep;
    assert s[|a2|] == sep;
    assert |a1| == |a2|;
    assert a1 == s[..|a1|] && a2 == s[..|a2|];
    assert b1 == s[|a1| + 1..] && b2 == s[|a2| + 1..];
  }

  /**
   * `FormatInt(x) + sep + rest` determines both `x` and `rest` when `sep` is a
   * minus sign, because a printed integer carries a minus sign only in front.
   */
  lemma FormatIntThenDash(x: int, rest1: string, y: int, rest2: string)
    requires FormatInt(x) + "-" + rest1 == FormatInt(y) + "-" + rest2
    ensures x == y && rest1 == rest2
  {
    FormatIntSign(x);
    FormatIntSign(y);
    assert (FormatInt(x) + "-" + rest1)[0] == FormatInt(x)[0];
    assert (FormatInt(y) + "-" + rest2)[0] == FormatInt(y)[0];
    if x < 0 {
      NegativeThenDash(-x, rest1, -y, rest2);
    } else {
      SplitAtSeparator(NatDigits(x), rest1, NatDigits(y), rest2, '-');
    }
    FormatIntInjective(x, y);
  }

  lemma NegativeThenDash(m: nat, rest1: string, n: nat, rest2: string)
    requires "-" + NatDigits(m) + "-" + rest1 == "-" + NatDigits(n) + "-" + rest2
    ensures NatDigits(m) == NatDigits(n) && rest1 == rest2
  {
    var s1 := "-" + NatDigits(m) + "-" + rest1;
    assert s1[1..] == NatDigits(m) + "-" + rest1;
    assert s1[1..] == NatDigits(n) + "-" + rest2;
    SplitAtSeparator(NatDigits(m), rest1, NatDigits(n), rest2, '-');
  }
}
