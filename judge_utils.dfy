/**
 * The helpers every Python judge carries a copy of: Python's `int()` on a
 * token, and `_utils_ToInteger`, which adds the judges' rules about leading
 * zeros, negative zero and the allowed range.  Tokens come out of the judges'
 * tokenizer, so they never contain whitespace.
 */
module JudgeUtils {
  import opened Wrappers

  predicate IsDigit(c: char)
  {
    '0' <= c <= '9'
  }

  /** Every character is a decimal digit (checked from the last one back). */
  predicate AllDigits(s: string)
  {
    s == [] || (IsDigit(s[|s| - 1]) && AllDigits(s[..|s| - 1]))
  }

  lemma {:induction false} AllDigitsIff(s: string)
    ensures AllDigits(s) <==> forall i | 0 <= i < |s| :: IsDigit(s[i])
  {
    if s != [] {
      var u := s[..|s| - 1];
      AllDigitsIff(u);
      assert forall i | 0 <= i < |u| :: u[i] == s[i];
    }
  }

  function DigitValue(c: char): nat
    requires IsDigit(c)
  {
    c as int - '0' as int
  }

  function DigitChar(d: nat): (c: char)
    requires d < 10
    ensures IsDigit(c) && DigitValue(c) == d
  {
    ('0' as int + d) as char
  }

  /** The value of a string of decimal digits (leading zeros allowed). */
  function DigitsValue(s: string): nat
    requires AllDigits(s)
  {
    if s == [] then 0 else DigitsValue(s[..|s| - 1]) * 10 + DigitValue(s[|s| - 1])
  }

  function Pow10(n: nat): (p: nat)
    ensures p >= 1
  {
    if n == 0 then 1 else 10 * Pow10(n - 1)
  }

  /** The canonical decimal digits of a natural number. */
  function NatDigits(n: nat): (s: string)
    ensures AllDigits(s) && |s| >= 1 && DigitsValue(s) == n
    ensures |s| > 1 ==> s[0] != '0'
    ensures n == 0 <==> s == "0"
  {
    if n < 10 then
      [DigitChar(n)]
    else
      var s := NatDigits(n / 10) + [DigitChar(n % 10)];
      assert s[..|s| - 1] == NatDigits(n / 10);
      s
  }

  /** The canonical rendering of an integer: no leading zeros, a '-' only for negatives. */
  function Decimal(n: int): string
  {
    if n < 0 then "-" + NatDigits(-n) else NatDigits(n)
  }

  /** Python's `int()` on a token without whitespace: an optional sign, then at least one digit. */
  function PyInt(s: string): Option<int>
  {
    if |s| >= 2 && (s[0] == '-' || s[0] == '+') && AllDigits(s[1..]) then
      var n: int := DigitsValue(s[1..]);
      Some(if s[0] == '-' then -n else n)
    else if |s| >= 1 && AllDigits(s) then
      Some(DigitsValue(s))
    else
      None
  }

  /** `map(int, tokens)`: every token converted, or None when one of them is not an integer. */
  function PyInts(tokens: seq<string>): (r: Option<seq<int>>)
    ensures r.Some? <==> forall i | 0 <= i < |tokens| :: PyInt(tokens[i]).Some?
    ensures r.Some? ==> |r.value| == |tokens| && forall i | 0 <= i < |tokens| :: PyInt(tokens[i]) == Some(r.value[i])
  {
    if tokens == [] then Some([])
    else match (PyInt(tokens[0]), PyInts(tokens[1..]))
      case (Some(v), Some(vs)) => Some([v] + vs)
      case _ => None
  }

  /** `map(int, line)` on every line, or None when any token anywhere is not an integer. */
  function PyIntLines(lines: seq<seq<string>>): (r: Option<seq<seq<int>>>)
    ensures r.Some? <==> forall i | 0 <= i < |lines| :: PyInts(lines[i]).Some?
    ensures r.Some? ==> |r.value| == |lines| && forall i | 0 <= i < |lines| :: PyInts(lines[i]) == Some(r.value[i])
  {
    if lines == [] then Some([])
    else match (PyInts(lines[0]), PyIntLines(lines[1..]))
      case (Some(v), Some(vs)) => Some([v] + vs)
      case _ => None
  }

  /**
   * Python 2's `repr` of an integer from `int()`: values beyond a 64-bit
   * machine word are longs and print with an `L` suffix.
   */
  function PyRepr(v: int): string
  {
    Decimal(v) + if v > 0x7fff_ffff_ffff_ffff || v < -0x8000_0000_0000_0000 then "L" else ""
  }

  /** `str` of a pair of integers, as in `'{}'.format((r, k))`. */
  function PairStr(a: int, b: int): string
  {
    "(" + PyRepr(a) + ", " + PyRepr(b) + ")"
  }

  /** A digit string without a leading zero has at least as many digits as its canonical form needs. */
  lemma {:induction false} NoLeadingZeroValue(s: string)
    requires AllDigits(s) && |s| >= 1 && s[0] != '0'
    ensures DigitsValue(s) >= Pow10(|s| - 1)
  {
    if |s| > 1 {
      var u := s[..|s| - 1];
      assert u[0] == s[0];
      NoLeadingZeroValue(u);
    }
  }

  /** The canonical digits are the only digit string without a leading zero for their value. */
  lemma {:induction false} CanonicalDigits(s: string)
    requires AllDigits(s) && |s| >= 1 && (|s| > 1 ==> s[0] != '0')
    ensures s == NatDigits(DigitsValue(s))
  {
    if |s| > 1 {
      var u := s[..|s| - 1];
      assert u[0] == s[0];
      NoLeadingZeroValue(u);
      CanonicalDigits(u);
      var n := DigitsValue(s);
      assert n / 10 == DigitsValue(u) && n % 10 == DigitValue(s[|s| - 1]);
      assert s == u + [s[|s| - 1]];
    }
  }

  function Zeros(n: nat): (z: string)
    ensures |z| == n && AllDigits(z) && forall i | 0 <= i < n :: z[i] == '0'
  {
    var z := seq(n, _ => '0');
    AllDigitsIff(z);
    z
  }

  /** Appending a digit to a shifted value: the arithmetic step of DigitsConcat. */
  lemma AppendDigit(va: int, p: int, vb: int, last: int)
    ensures (va * p + vb) * 10 + last == va * (p * 10) + (vb * 10 + last)
  {
    assert (va * p) * 10 == va * (p * 10);
  }

  /** The value of two digit strings written one after the other. */
  lemma {:induction false} DigitsConcat(a: string, b: string)
    requires AllDigits(a) && AllDigits(b)
    ensures AllDigits(a + b) && DigitsValue(a + b) == DigitsValue(a) * Pow10(|b|) + DigitsValue(b)
  {
    if b != [] {
      var b' := b[..|b| - 1];
      var ab := a + b;
      assert ab[..|ab| - 1] == a + b' && ab[|ab| - 1] == b[|b| - 1];
      DigitsConcat(a, b');
      var last := DigitValue(b[|b| - 1]);
      assert DigitsValue(ab) == DigitsValue(a + b') * 10 + last;
      assert DigitsValue(b) == DigitsValue(b') * 10 + last;
      assert Pow10(|b|) == Pow10(|b'|) * 10;
      AppendDigit(DigitsValue(a), Pow10(|b'|), DigitsValue(b'), last);
    } else {
      assert a + b == a;
    }
  }

  lemma {:induction false} ZerosValue(n: nat)
    ensures DigitsValue(Zeros(n)) == 0
  {
    if n > 0 {
      assert Zeros(n)[..n - 1] == Zeros(n - 1);
      ZerosValue(n - 1);
    }
  }

  /** Leading zeros do not change the value. */
  lemma LeadingZeros(n: nat, d: string)
    requires AllDigits(d)
    ensures AllDigits(Zeros(n) + d) && DigitsValue(Zeros(n) + d) == DigitsValue(d)
  {
    DigitsConcat(Zeros(n), d);
    ZerosValue(n);
  }

  /** A string of k digits stays below 10^k. */
  lemma {:induction false} DigitsBelow(d: string)
    requires AllDigits(d)
    ensures DigitsValue(d) < Pow10(|d|)
  {
    if d != [] {
      DigitsBelow(d[..|d| - 1]);
    }
  }

  lemma {:induction false} Pow10Monotone(m: nat, n: nat)
    requires m <= n
    ensures Pow10(m) <= Pow10(n)
  {
    if m < n {
      Pow10Monotone(m, n - 1);
    }
  }

  /** Rendering then parsing gives the number back. */
  lemma PyIntDecimal(n: int)
    ensures PyInt(Decimal(n)) == Some(n)
  {
    if n < 0 {
      assert Decimal(n)[1..] == NatDigits(-n);
    } else {
      AllDigitsIff(Decimal(n));
    }
  }

  /**
   * The source's `_utils_ToInteger`, as written: `int(s)`, then refuse a string
   * of two or more characters starting with '0', a string starting with "-0",
   * and values outside the optional bounds.
   */
  function ToIntegerAsWritten(s: string, lo: Option<int>, hi: Option<int>): Option<int>
  {
    match PyInt(s)
    case None => None
    case Some(v) =>
      if |s| > 1 && s[0] == '0' then None
      else if |s| >= 2 && s[..2] == "-0" then None
      else if lo.Some? && v < lo.value then None
      else if hi.Some? && v > hi.value then None
      else Some(v)
  }

  /** "+05" has a leading zero, which the function's documentation forbids, yet it is accepted. */
  lemma ToIntegerAcceptsPlusLeadingZero()
    ensures ToIntegerAsWritten("+05", None, None) == Some(5)
  {
    assert "+05"[1..] == "05";
    assert "+05"[..2] == "+0";
    assert "05"[..1] == "0" && "0"[..0] == "";
    assert DigitsValue("05") == DigitsValue("0") * 10 + 5;
  }

  /** The digits of `s` after an optional sign. */
  function Unsigned(s: string): string
  {
    if |s| >= 1 && (s[0] == '-' || s[0] == '+') then s[1..] else s
  }

  /**
   * `_utils_ToInteger` as its documentation states it: like `int(s)`, but the
   * digits after the optional sign have no leading zero and zero has no '-'.
   */
  function ToInteger(s: string, lo: Option<int>, hi: Option<int>): (r: Option<int>)
    ensures r.Some? ==> InRange(r.value, lo, hi)
  {
    match PyInt(s)
    case None => None
    case Some(v) =>
      var d := Unsigned(s);
      if |d| > 1 && d[0] == '0' then None
      else if |s| >= 2 && s[..2] == "-0" then None
      else if lo.Some? && v < lo.value then None
      else if hi.Some? && v > hi.value then None
      else Some(v)
  }

  predicate InRange(v: int, lo: Option<int>, hi: Option<int>)
  {
    (lo.Some? ==> lo.value <= v) && (hi.Some? ==> v <= hi.value)
  }

  /** A signed token whose digits are canonical renders its value, given that "-0" is excluded. */
  lemma SignedCanonical(s: string, v: int)
    requires |s| >= 2 && (s[0] == '-' || s[0] == '+') && AllDigits(s[1..])
    requires |s| > 2 ==> s[1] != '0'
    requires s[0] == '-' ==> s[1..] != "0"
    requires v == if s[0] == '-' then -(DigitsValue(s[1..]) as int) else DigitsValue(s[1..])
    ensures s == Decimal(v) || (v >= 0 && s == "+" + Decimal(v))
  {
    var d := s[1..];
    CanonicalDigits(d);
    assert s == [s[0]] + d;
    if s[0] == '-' {
      assert DigitsValue(d) != 0;
    }
  }

  /** Every string ToInteger accepts is the canonical rendering of an in-range value, or '+' and that rendering. */
  lemma ToIntegerAccepted(s: string, lo: Option<int>, hi: Option<int>, v: int)
    requires ToInteger(s, lo, hi) == Some(v)
    ensures InRange(v, lo, hi) && (s == Decimal(v) || (v >= 0 && s == "+" + Decimal(v)))
  {
    if |s| >= 2 && (s[0] == '-' || s[0] == '+') && AllDigits(s[1..]) {
      assert Unsigned(s) == s[1..];
      SignedCanonical(s, v);
    } else {
      CanonicalDigits(s);
    }
  }

  /** ToInteger accepts the canonical rendering of every in-range value, with or without a '+'. */
  lemma ToIntegerAccepts(s: string, lo: Option<int>, hi: Option<int>, v: int)
    requires InRange(v, lo, hi) && (s == Decimal(v) || (v >= 0 && s == "+" + Decimal(v)))
    ensures ToInteger(s, lo, hi) == Some(v)
  {
    if s == Decimal(v) {
      if v < 0 {
        assert s[1..] == NatDigits(-v);
        assert s[..2] == ['-', s[1]];
      } else {
        AllDigitsIff(s);
      }
    } else {
      assert s[1..] == NatDigits(v);
      assert s[..2] == ['+', s[1]];
    }
  }

  function UpperChar(c: char): (u: char)
    ensures 'a' <= c <= 'z' ==> 'A' <= u <= 'Z'
    ensures !('a' <= c <= 'z') ==> u == c
  {
    if 'a' <= c <= 'z' then (c as int - 'a' as int + 'A' as int) as char else c
  }

  /** Python's `upper` on ASCII text. */
  function Upper(s: string): (u: string)
    ensures |u| == |s| && forall i | 0 <= i < |s| :: u[i] == UpperChar(s[i])
  {
    seq(|s|, i requires 0 <= i < |s| => UpperChar(s[i]))
  }

  function LowerChar(c: char): (l: char)
    ensures 'A' <= c <= 'Z' ==> 'a' <= l <= 'z'
    ensures !('A' <= c <= 'Z') ==> l == c
  {
    if 'A' <= c <= 'Z' then (c as int - 'A' as int + 'a' as int) as char else c
  }

  /** Python's `lower` on ASCII text. */
  function Lower(s: string): (l: string)
    ensures |l| == |s| && forall i | 0 <= i < |s| :: l[i] == LowerChar(s[i])
  {
    seq(|s|, i requires 0 <= i < |s| => LowerChar(s[i]))
  }

  /** The one token of an answer that must be a single line holding a single token. */
  function SingleToken(lines: seq<seq<string>>): (t: Option<string>)
    ensures t.Some? <==> |lines| == 1 && |lines[0]| == 1
    ensures t.Some? ==> t.value == lines[0][0]
  {
    if |lines| == 1 && |lines[0]| == 1 then Some(lines[0][0]) else None
  }

  /** That token upper-cased, for judges that ignore the case of letters. */
  function UpperToken(lines: seq<seq<string>>): (t: Option<string>)
    ensures t.Some? <==> |lines| == 1 && |lines[0]| == 1
    ensures t.Some? ==> t.value == Upper(lines[0][0])
  {
    match SingleToken(lines)
    case Some(tok) => Some(Upper(tok))
    case None => None
  }
}
