/** Base-ten rendering of integers: `strconv.FormatInt(n, 10)` and the verb `%d`. */
module Decimal {

  function Digit(d: nat): char
    requires d < 10
  {
    (48 + d) as char
  }

  predicate IsDigit(c: char) { '0' <= c <= '9' }

  predicate Digits(s: string) { forall i :: 0 <= i < |s| ==> IsDigit(s[i]) }

  function FormatNat(n: nat): (s: string)
    ensures s != [] && forall i :: 0 <= i < |s| ==> IsDigit(s[i])
  {
    if n < 10 then [Digit(n)] else FormatNat(n / 10) + [Digit(n % 10)]
  }

  function FormatInt(n: int): string {
    if n < 0 then "-" + FormatNat(-n) else FormatNat(n)
  }

  /** The number that a string of digits stands for. */
  function ParseNat(s: string): nat
    requires forall i :: 0 <= i < |s| ==> IsDigit(s[i])
  {
    if s == [] then 0 else
      assert IsDigit(s[|s| - 1]);
      10 * ParseNat(s[..|s| - 1]) + (s[|s| - 1] as int - 48)
  }

  lemma {:induction false} ParseFormat(n: nat)
    ensures ParseNat(FormatNat(n)) == n
  {
    if n >= 10 {
      var s := FormatNat(n);
      assert s[..|s| - 1] == FormatNat(n / 10);
      ParseFormat(n / 10);
    } else {
      assert FormatNat(n)[..0] == [];
    }
  }

  /** Distinct integers have distinct renderings. */
  lemma FormatIntInjective(a: int, b: int)
    requires FormatInt(a) == FormatInt(b)
    ensures a == b
  {
    var s, t := FormatNat(if a < 0 then -a else a), FormatNat(if b < 0 then -b else b);
    ParseFormat(if a < 0 then -a else a);
    ParseFormat(if b < 0 then -b else b);
    assert IsDigit(s[0]) && IsDigit(t[0]);
    if a < 0 && b < 0 {
      assert s == FormatInt(a)[1..] == FormatInt(b)[1..] == t;
    }
  }

  /** A rendering consists of digits and at most a leading minus sign. */
  lemma FormatIntChars(n: int)
    ensures FormatInt(n) != []
    ensures forall i :: 0 <= i < |FormatInt(n)| ==> FormatInt(n)[i] == '-' || IsDigit(FormatInt(n)[i])
  {
  }

  /** Two texts that end at the first occurrence of a separator are told apart by it. */
  lemma SplitAtSeparator(a: string, b: string, sep: char, x: string, y: string)
    requires sep !in a && sep !in b
    requires a + [sep] + x == b + [sep] + y
    ensures a == b && x == y
  {
    var l, r := a + [sep] + x, b + [sep] + y;
    assert l[|a|] == sep && r[|b|] == sep;
    assert |a| == |b|;
    assert a == l[..|a|] == r[..|b|] == b;
    assert x == l[|a| + 1..] == r[|b| + 1..] == y;
  }

  /** A number with leading zeros up to a width. */
  function Pad(n: nat, width: nat): string
    decreases width
  {
    if width == 0 || |FormatNat(n)| >= width then FormatNat(n) else "0" + Pad(n, width - 1)
  }

  lemma {:induction false} PadIsDigits(n: nat, width: nat)
    ensures Pad(n, width) != [] && forall i :: 0 <= i < |Pad(n, width)| ==> IsDigit(Pad(n, width)[i])
    ensures |Pad(n, width)| == if |FormatNat(n)| >= width then |FormatNat(n)| else width
    decreases width
  {
    if width > 0 && |FormatNat(n)| < width {
      PadIsDigits(n, width - 1);
    }
  }

  lemma {:induction false} LeadingZero(s: string)
    requires forall i :: 0 <= i < |s| ==> IsDigit(s[i])
    ensures forall i :: 0 <= i < |"0" + s| ==> IsDigit(("0" + s)[i])
    ensures ParseNat("0" + s) == ParseNat(s)
  {
    var t := "0" + s;
    if s == [] {
      assert t[..0] == [];
    } else {
      assert t[..|t| - 1] == "0" + s[..|s| - 1];
      LeadingZero(s[..|s| - 1]);
    }
  }

  lemma {:induction false} ParsePad(n: nat, width: nat)
    ensures forall i :: 0 <= i < |Pad(n, width)| ==> IsDigit(Pad(n, width)[i])
    ensures ParseNat(Pad(n, width)) == n
    decreases width
  {
    PadIsDigits(n, width);
    if width > 0 && |FormatNat(n)| < width {
      ParsePad(n, width - 1);
      LeadingZero(Pad(n, width - 1));
    } else {
      ParseFormat(n);
    }
  }
}
