/** Shared vocabulary for the per-day models: optional values, results that
    stand for the exceptions the C# code throws, C# integer division, sums,
    powers and decimal text. */
module Common {

  datatype Option<T> = None | Some(value: T)

  /** A computation that either yields a value or fails the way the C#
      code throws (the message names the exception's cause). */
  datatype Result<T> = Ok(value: T) | Err(msg: string)
  {
    predicate IsFailure() { Err? }
  }

  // ---------------------------------------------------------------------
  // C# `/` and `%` on int and long: the quotient is truncated toward zero
  // and the remainder takes the sign of the dividend.

  function Abs(x: int): nat { if x < 0 then -x else x }

  lemma DivBounds(x: nat, y: nat)
    requires y > 0
    ensures (x / y) * y <= x < (x / y + 1) * y
  {
    assert x == (x / y) * y + x % y;
  }
  /** C#'s integer division: the quotient of the absolute values, with
      the sign of a / b, so it is truncated toward zero. */
  function TruncDiv(a: int, b: int): int
    requires b != 0
  {
    var m: int := Abs(a) / Abs(b);
    if (a < 0) == (b < 0) then m else -m
  }

  /** C#'s remainder: the remainder of the sizes, with the sign of a. */
  function TruncRem(a: int, b: int): (r: int)
    requires b != 0
    ensures Abs(r) < Abs(b)
    ensures a >= 0 ==> r >= 0
    ensures a <= 0 ==> r <= 0
  {
    if a >= 0 then Abs(a) % Abs(b) else -(Abs(a) % Abs(b))
  }

  /** The truncated quotient's size is the largest whole number of |b|s
      in |a|. */
  lemma TruncDivBounds(a: int, b: int)
    requires b != 0
    ensures Abs(TruncDiv(a, b)) == Abs(a) / Abs(b)
    ensures Abs(TruncDiv(a, b)) * Abs(b) <= Abs(a) < (Abs(TruncDiv(a, b)) + 1) * Abs(b)
  {
    var A: nat, B: nat := Abs(a), Abs(b);
    var m: int := A / B;
    assert Abs(TruncDiv(a, b)) == m;
    DivBounds(A, B);
  }

  /** Truncated quotient and remainder put a back together. */
  lemma TruncDivRem(a: int, b: int)
    requires b != 0
    ensures a == TruncDiv(a, b) * b + TruncRem(a, b)
  {
    var A: int, B: int := Abs(a), Abs(b);
    var m: int, r: int := A / B, A % B;
    assert A == m * B + r;
    if a >= 0 && b > 0 {
      assert TruncDiv(a, b) * b == m * B;
    } else if a >= 0 {
      assert TruncDiv(a, b) * b == (-m) * (-B);
    } else if b > 0 {
      assert TruncDiv(a, b) * b == -(m * B);
    } else {
      assert TruncDiv(a, b) * b == m * (-B);
    }
  }

  /** On non-negative operands C# division agrees with Dafny's. */
  lemma TruncAgreesOnNonNegative(a: int, b: int)
    requires a >= 0 && b > 0
    ensures TruncDiv(a, b) == a / b && TruncRem(a, b) == a % b
  {
    DivBounds(a, b);
  }

  // ---------------------------------------------------------------------
  // Sequences

  /** The last element first. */
  function Reversed<T>(s: seq<T>): seq<T>
  {
    if s == [] then [] else [s[|s| - 1]] + Reversed(s[..|s| - 1])
  }

  lemma {:induction false} ReversedIndex<T>(s: seq<T>)
    ensures |Reversed(s)| == |s|
    ensures forall i :: 0 <= i < |s| ==> Reversed(s)[i] == s[|s| - 1 - i]
  {
    if s != [] {
      ReversedIndex(s[..|s| - 1]);
    }
  }

  /** One more element of a sequence's prefix. */
  lemma PrefixStep<T>(s: seq<T>, k: int)
    requires 0 <= k < |s|
    ensures s[..k + 1] == s[..k] + [s[k]]
  {
  }

  /** Taking one more element out of a finite set's remainder shrinks it. */
  lemma RemoveOne<T>(all: set<T>, taken: set<T>, x: T)
    requires x in all && x !in taken
    ensures |all - (taken + {x})| < |all - taken|
  {
    assert all - taken == (all - (taken + {x})) + {x};
  }

  /** A prefix of a prefix. */
  lemma PrefixAppend<T>(s: seq<T>, x: T, t: seq<T>)
    requires s + [x] <= t
    ensures s <= t
  {
    assert t[..|s|] == (s + [x])[..|s|];
  }

  /** Dropping what was just appended. */
  lemma DropLast<T>(s: seq<T>, x: T)
    ensures (s + [x])[..|s|] == s
  {
  }

  /** A set that is not empty has an element. */
  lemma SomeElement<K>(s: set<K>) returns (x: K)
    requires s != {}
    ensures x in s
  {
    x :| x in s;
  }

  /** The smallest element of a non-empty set of integers. */
  function SetMin(s: set<int>): (m: int)
    requires s != {}
    ensures m in s && forall y :: y in s ==> m <= y
  {
    MinExists(s);
    var m :| m in s && forall y :: y in s ==> m <= y;
    m
  }

  lemma {:induction false} MinExists(s: set<int>)
    requires s != {}
    ensures exists m :: m in s && forall y :: y in s ==> m <= y
  {
    var x := SomeElement(s);
    if s != {x} {
      MinExists(s - {x});
      var m :| m in s - {x} && forall y :: y in s - {x} ==> m <= y;
      var least := if x < m then x else m;
      forall y | y in s ensures least <= y {
        if y != x {
          assert y in s - {x};
        }
      }
    } else {
      assert forall y :: y in s ==> x <= y;
    }
  }

  // ---------------------------------------------------------------------
  // Sums and powers

  /** The sum of a sequence, peeled from the end like a running total. */
  function Sum(s: seq<int>): int
  {
    if s == [] then 0 else Sum(s[..|s| - 1]) + s[|s| - 1]
  }

  lemma {:induction false} SumConcat(a: seq<int>, b: seq<int>)
    ensures Sum(a + b) == Sum(a) + Sum(b)
  {
    if b == [] {
      assert a + b == a;
    } else {
      assert (a + b)[..|a + b| - 1] == a + b[..|b| - 1];
      SumConcat(a, b[..|b| - 1]);
    }
  }

  lemma {:induction false} SumFirst(s: seq<int>)
    requires s != []
    ensures Sum(s) == s[0] + Sum(s[1..])
  {
    assert s == [s[0]] + s[1..];
    SumConcat([s[0]], s[1..]);
    assert [s[0]][..0] == [];
  }

  function Pow(b: int, e: nat): int
  {
    if e == 0 then 1 else b * Pow(b, e - 1)
  }

  lemma {:induction false} PowPositive(b: int, e: nat)
    requires b > 0
    ensures Pow(b, e) > 0
  {
    if e > 0 { PowPositive(b, e - 1); }
  }

  lemma {:induction false} PowAdd(b: int, e1: nat, e2: nat)
    ensures Pow(b, e1 + e2) == Pow(b, e1) * Pow(b, e2)
  {
    if e2 > 0 {
      PowAdd(b, e1, e2 - 1);
      assert Pow(b, e1 + e2) == b * Pow(b, e1 + e2 - 1);
    }
  }

  // ---------------------------------------------------------------------
  // Binary digit strings

  /** The value of a digit string read big-endian, each '1' a set bit and
      any other character a clear one. */
  function BinaryValue(digits: seq<char>): nat
  {
    if digits == [] then 0
    else 2 * BinaryValue(digits[..|digits| - 1]) + (if digits[|digits| - 1] == '1' then 1 else 0)
  }

  /** The leading digit is worth 2^(number of digits after it). */
  lemma {:induction false} BinaryValueCons(d: char, s: seq<char>)
    ensures BinaryValue([d] + s) == (if d == '1' then Pow(2, |s|) else 0) + BinaryValue(s)
    decreases |s|
  {
    var t := [d] + s;
    if s != [] {
      var init := s[..|s| - 1];
      assert t[..|t| - 1] == [d] + init;
      BinaryValueCons(d, init);
    } else {
      assert t[..|t| - 1] == [];
    }
  }

  /** A string of n digits is worth less than 2^n. */
  lemma {:induction false} BinaryValueBound(s: seq<char>)
    ensures BinaryValue(s) < Pow(2, |s|)
  {
    if s != [] {
      BinaryValueBound(s[..|s| - 1]);
    }
  }

  // ---------------------------------------------------------------------
  // Decimal text: C#'s int.ToString and int.Parse on ASCII digits

  predicate IsDigit(c: char) { '0' <= c <= '9' }

  predicate AllDigits(s: string) { forall i :: 0 <= i < |s| ==> IsDigit(s[i]) }

  function DigitValue(c: char): nat requires IsDigit(c) { c as int - '0' as int }

  function DigitChar(d: nat): (c: char)
    requires d < 10
    ensures IsDigit(c) && DigitValue(c) == d
  {
    ('0' as int + d) as char
  }

  /** The big-endian value of a run of decimal digits. */
  function DigitsValue(s: string): nat
    requires AllDigits(s)
  {
    if s == [] then 0 else DigitsValue(s[..|s| - 1]) * 10 + DigitValue(s[|s| - 1])
  }

  /** Canonical decimal text: non-empty digits with no leading zero. */
  predicate Canonical(s: string)
  {
    |s| > 0 && AllDigits(s) && (s[0] == '0' ==> |s| == 1)
  }

  function NatToString(n: nat): (s: string)
    ensures Canonical(s)
    ensures DigitsValue(s) == n
  {
    if n < 10 then [DigitChar(n)]
    else
      var s := NatToString(n / 10) + [DigitChar(n % 10)];
      assert s[..|s| - 1] == NatToString(n / 10);
      s
  }

  lemma {:induction false} LeadingDigitPositive(s: string)
    requires Canonical(s) && |s| > 1
    ensures DigitsValue(s) >= 10
  {
    var p := s[..|s| - 1];
    if |p| > 1 {
      LeadingDigitPositive(p);
    } else {
      assert p[0] == s[0];
    }
  }

  /** Printing a parsed canonical numeral gives the numeral back. */
  lemma {:induction false} CanonicalRoundTrip(s: string)
    requires Canonical(s)
    ensures NatToString(DigitsValue(s)) == s
  {
    if |s| > 1 {
      var p := s[..|s| - 1];
      var last := s[|s| - 1];
      assert p[0] == s[0];
      LeadingDigitPositive(s);
      CanonicalRoundTrip(p);
      var v := DigitsValue(s);
      assert v == DigitsValue(p) * 10 + DigitValue(last);
      assert v / 10 == DigitsValue(p) && v % 10 == DigitValue(last);
      assert DigitChar(DigitValue(last)) == last;
      assert s == p + [last];
    }
  }

  function IntToString(i: int): string
  {
    if i < 0 then "-" + NatToString(-i) else NatToString(i)
  }

  const IntMin: int := -0x8000_0000
  const IntMax: int := 0x7FFF_FFFF

  /** The white space int.Parse skips around a number: the space and the
      characters U+0009 to U+000D. */
  predicate IsWhite(c: char)
  {
    c == ' ' || c == '\t' || c == '\n' || c == '\U{B}' || c == '\U{C}' || c == '\r'
  }

  predicate AllWhite(s: string) { forall i :: 0 <= i < |s| ==> IsWhite(s[i]) }

  /** The text without its leading white space. */
  function TrimStart(s: string): string
  {
    if |s| > 0 && IsWhite(s[0]) then TrimStart(s[1..]) else s
  }

  /** The text without its trailing white space. */
  function TrimEnd(s: string): string
  {
    if |s| > 0 && IsWhite(s[|s| - 1]) then TrimEnd(s[..|s| - 1]) else s
  }

  /** TrimStart drops a run of white space from the front and stops at the
      first other character. */
  lemma {:induction false} TrimStartMeaning(s: string)
    ensures var t := TrimStart(s);
      |t| <= |s| && t == s[|s| - |t|..] && (|t| == 0 || !IsWhite(t[0])) &&
      forall i :: 0 <= i < |s| - |t| ==> IsWhite(s[i])
  {
    if |s| > 0 && IsWhite(s[0]) {
      TrimStartMeaning(s[1..]);
    }
  }

  /** TrimEnd drops a run of white space from the back and stops at the
      last other character. */
  lemma {:induction false} TrimEndMeaning(s: string)
    ensures var t := TrimEnd(s);
      |t| <= |s| && t == s[..|t|] && (|t| == 0 || !IsWhite(t[|t| - 1])) &&
      forall i :: |t| <= i < |s| ==> IsWhite(s[i])
  {
    if |s| > 0 && IsWhite(s[|s| - 1]) {
      TrimEndMeaning(s[..|s| - 1]);
    }
  }

  function Trim(s: string): string
  {
    TrimStart(TrimEnd(s))
  }

  /** Leading white space makes no difference to TrimStart. */
  lemma {:induction false} TrimStartWhite(w: string, s: string)
    requires AllWhite(w)
    ensures TrimStart(w + s) == TrimStart(s)
  {
    if |w| > 0 {
      assert (w + s)[1..] == w[1..] + s;
      TrimStartWhite(w[1..], s);
    } else {
      assert w + s == s;
    }
  }

  /** Trailing white space makes no difference to TrimEnd. */
  lemma {:induction false} TrimEndWhite(s: string, w: string)
    requires AllWhite(w)
    ensures TrimEnd(s + w) == TrimEnd(s)
  {
    if |w| > 0 {
      assert (s + w)[..|s + w| - 1] == s + w[..|w| - 1];
      TrimEndWhite(s, w[..|w| - 1]);
    } else {
      assert s + w == s;
    }
  }

  /** Leading white space makes no difference to Trim. */
  lemma {:induction false} TrimLeadingWhite(w: string, s: string)
    requires AllWhite(w)
    ensures Trim(w + s) == Trim(s)
  {
    if |s| == 0 {
      assert w + s == w;
      TrimEndMeaning(w);
      TrimStartWhite(TrimEnd(w), "");
      assert TrimEnd(w) + "" == TrimEnd(w);
    } else if IsWhite(s[|s| - 1]) {
      var p := s[..|s| - 1];
      assert (w + s)[..|w + s| - 1] == w + p;
      TrimLeadingWhite(w, p);
    } else {
      TrimStartWhite(w, s);
    }
  }

  /** White space on either side of a number makes no difference to it. */
  lemma TrimWhite(w1: string, s: string, w2: string)
    requires AllWhite(w1) && AllWhite(w2)
    ensures Trim(w1 + s + w2) == Trim(s)
  {
    assert w1 + s + w2 == (w1 + s) + w2;
    TrimEndWhite(w1 + s, w2);
    TrimLeadingWhite(w1, s);
  }

  /** Text that neither starts nor ends with white space is its own trim. */
  lemma TrimNone(s: string)
    requires |s| > 0 && !IsWhite(s[0]) && !IsWhite(s[|s| - 1])
    ensures Trim(s) == s
  {
  }

  /** C#'s int.Parse with its default integer style: white space around an
      optional sign and one or more ASCII digits, within the 32-bit range. */
  function ParseInt(s: string): (r: Result<int>)
    ensures r.Ok? ==> IntMin <= r.value <= IntMax
  {
    ParseTrimmed(Trim(s))
  }

  /** int.Parse on text whose surrounding white space is gone. */
  function ParseTrimmed(u: string): (r: Result<int>)
    ensures r.Ok? ==> IntMin <= r.value <= IntMax
  {
    var neg := |u| > 0 && u[0] == '-';
    var digits := if |u| > 0 && (u[0] == '-' || u[0] == '+') then u[1..] else u;
    if |digits| == 0 || !AllDigits(digits) then Err("FormatException")
    else
      var v: int := if neg then -(DigitsValue(digits) as int) else DigitsValue(digits);
      if v < IntMin || v > IntMax then Err("OverflowException") else Ok(v)
  }

  /** White space around the text does not change what int.Parse reads. */
  lemma ParseIntIgnoresWhite(w1: string, s: string, w2: string)
    requires AllWhite(w1) && AllWhite(w2)
    ensures ParseInt(w1 + s + w2) == ParseInt(s)
  {
    TrimWhite(w1, s, w2);
  }

  /** A run of ASCII digits is read as its value, with nothing to trim. */
  lemma ParseDigits(s: string)
    requires |s| > 0 && AllDigits(s)
    ensures ParseInt(s) == if DigitsValue(s) <= IntMax then Ok(DigitsValue(s) as int) else Err("OverflowException")
  {
    assert IsDigit(s[0]) && IsDigit(s[|s| - 1]);
    TrimNone(s);
    assert ParseInt(s) == ParseTrimmed(s);
  }

  /** Every 32-bit integer prints to text that int.Parse reads back. */
  lemma ParseIntToString(i: int)
    requires IntMin <= i <= IntMax
    ensures ParseInt(IntToString(i)) == Ok(i)
  {
    var s := IntToString(i);
    if i < 0 {
      assert s[1..] == NatToString(-i);
    }
    TrimNone(s);
  }
}
