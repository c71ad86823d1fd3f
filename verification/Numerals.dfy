/** Decimal numerals: how a number is printed, what `int()` reads off a run of digits, and that
    the two are one order on the numerals without leading zeros. */
module Numerals {
  import opened Basics
  import opened TextOrder

  predicate AllDigits(s: string) {
    forall c :: c in s ==> IsDigit(c)
  }

  predicate IsNumeral(s: string) {
    s != "" && AllDigits(s)
  }

  function DigitValue(c: char): (d: nat)
    ensures IsDigit(c) ==> d < 10
  {
    if IsDigit(c) then c as int - '0' as int else 0
  }

  /** `int(text)` on decimal digits. */
  function ToInt(s: string): nat {
    if s == "" then 0 else ToInt(s[..|s| - 1]) * 10 + DigitValue(s[|s| - 1])
  }

  /** `str(n)` */
  function Decimal(n: nat): (s: string)
    ensures IsNumeral(s)
  {
    var d := ('0' as int + n % 10) as char;
    if n < 10 then [d] else Decimal(n / 10) + [d]
  }

  /** A printed number reads back as itself. */
  lemma {:induction false} DecimalReads(n: nat)
    ensures ToInt(Decimal(n)) == n
    ensures Decimal(n)[0] == '0' <==> n == 0
    decreases n
  {
    var s := Decimal(n);
    if n >= 10 {
      DecimalReads(n / 10);
      assert s[..|s| - 1] == Decimal(n / 10);
    } else {
      assert s[..|s| - 1] == "";
    }
  }

  // ---------------------------------------------------------------------------- leading zeros

  function Zeros(k: nat): string {
    if k == 0 then "" else "0" + Zeros(k - 1)
  }

  /** The number, printed, behind any number of zeros. */
  predicate Writes(s: string, n: nat) {
    |Decimal(n)| <= |s| && s == Zeros(|s| - |Decimal(n)|) + Decimal(n)
  }

  lemma {:induction false} LeadingZero(s: string)
    ensures ToInt("0" + s) == ToInt(s)
    decreases |s|
  {
    var z := "0" + s;
    if s == "" {
      assert z[..|z| - 1] == "";
    } else {
      LeadingZero(s[..|s| - 1]);
      assert z[..|z| - 1] == "0" + s[..|s| - 1];
    }
  }

  lemma {:induction false} LeadingZeros(k: nat, s: string)
    ensures ToInt(Zeros(k) + s) == ToInt(s)
    decreases k
  {
    MoreZeros(k, s);
    if k > 0 {
      LeadingZeros(k - 1, s);
      LeadingZero(Zeros(k - 1) + s);
    }
  }

  lemma MoreZeros(k: nat, s: string)
    ensures Zeros(k) + s == if k == 0 then s else "0" + (Zeros(k - 1) + s)
  {
  }

  lemma WrittenNumber(s: string, n: nat)
    requires Writes(s, n)
    ensures IsNumeral(s) && ToInt(s) == n
  {
    DecimalReads(n);
    ZerosBefore(|s| - |Decimal(n)|, Decimal(n));
  }

  lemma ZerosBefore(k: nat, s: string)
    requires IsNumeral(s)
    ensures IsNumeral(Zeros(k) + s) && ToInt(Zeros(k) + s) == ToInt(s)
  {
    ZerosAreDigits(k);
    LeadingZeros(k, s);
  }

  lemma {:induction false} ZerosAreDigits(k: nat)
    ensures |Zeros(k)| == k && AllDigits(Zeros(k))
    decreases k
  {
    if k > 0 {
      ZerosAreDigits(k - 1);
    }
  }

  /** Without a leading zero a numeral is the printed form of what it reads. */
  lemma {:induction false} ReadsToItself(s: string)
    requires IsNumeral(s) && s[0] != '0'
    ensures Decimal(ToInt(s)) == s && ToInt(s) > 0
    decreases |s|
  {
    var front, last := LastDigit(s);
    if front == "" {
      OneDigit(last);
    } else {
      ReadsToItself(front);
      DecimalStep(ToInt(front), last);
    }
  }

  lemma LastDigit(s: string) returns (front: string, last: char)
    requires IsNumeral(s)
    ensures s == front + [last] && |front| < |s| && IsDigit(last) && AllDigits(front)
    ensures front == "" ==> s == [last]
    ensures front != "" ==> front[0] == s[0]
    ensures ToInt(s) == ToInt(front) * 10 + DigitValue(last)
  {
    front, last := s[..|s| - 1], s[|s| - 1];
    assert last in s && forall c :: c in front ==> c in s;
  }

  lemma OneDigit(c: char)
    requires IsDigit(c)
    ensures ToInt([c]) == DigitValue(c) && Decimal(DigitValue(c)) == [c]
  {
    assert [c][..0] == "";
  }

  lemma DecimalStep(m: nat, c: char)
    requires m > 0 && IsDigit(c)
    ensures Decimal(m * 10 + DigitValue(c)) == Decimal(m) + [c]
  {
    var n := m * 10 + DigitValue(c);
    assert n / 10 == m && n % 10 == DigitValue(c);
  }

  lemma {:induction false} EveryNumeralWrites(s: string)
    requires IsNumeral(s)
    ensures Writes(s, ToInt(s))
    decreases |s|
  {
    if s[0] != '0' {
      ReadsToItself(s);
      assert Zeros(0) + s == s;
    } else if |s| == 1 {
      assert s == "0" == Decimal(0);
      DecimalReads(0);
      assert Zeros(0) + s == s;
    } else {
      var t := s[1..];
      assert s == "0" + t;
      EveryNumeralWrites(t);
      LeadingZero(t);
      WriteOneMoreZero(t, ToInt(t));
    }
  }

  lemma WriteOneMoreZero(t: string, n: nat)
    requires Writes(t, n)
    ensures Writes("0" + t, n)
  {
    var k := |t| - |Decimal(n)|;
    assert "0" + t == Zeros(k + 1) + Decimal(n);
  }

  /** What a numeral reads as is the one number it writes. */
  lemma WritesExactly(s: string, n: nat)
    requires IsNumeral(s)
    ensures Writes(s, n) <==> ToInt(s) == n
  {
    EveryNumeralWrites(s);
    if Writes(s, n) {
      WrittenNumber(s, n);
    }
  }

  // --------------------------------------------------------------------------------- the order

  lemma {:induction false} LeadingDigitCounts(s: string)
    requires IsNumeral(s) && s[0] != '0'
    ensures ToInt(s) > 0
    decreases |s|
  {
    ReadsToItself(s);
  }

  lemma {:induction false} LongerIsGreater(s: string, t: string)
    requires AllDigits(s) && IsNumeral(t) && t[0] != '0' && |s| < |t|
    ensures ToInt(s) < ToInt(t)
    decreases |s|
  {
    if s == "" {
      LeadingDigitCounts(t);
    } else {
      var u, v := s[..|s| - 1], t[..|t| - 1];
      assert s[|s| - 1] in s && forall c :: c in u ==> c in s;
      assert v[0] == t[0] && forall c :: c in v ==> c in t;
      LongerIsGreater(u, v);
    }
  }

  lemma {:induction false} LessOnLast(a: string, b: string, x: char, y: char)
    requires |a| == |b|
    ensures Less(a + [x], b + [y]) <==> Less(a, b) || (a == b && x < y)
    decreases |a|
  {
    var s, t := a + [x], b + [y];
    if a == "" {
      assert s[1..] == "" && t[1..] == "";
    } else {
      assert s[1..] == a[1..] + [x] && t[1..] == b[1..] + [y];
      LessOnLast(a[1..], b[1..], x, y);
      assert a == [a[0]] + a[1..] && b == [b[0]] + b[1..];
    }
  }

  lemma {:induction false} SameLengthOrder(s: string, t: string)
    requires AllDigits(s) && AllDigits(t) && |s| == |t|
    ensures ToInt(s) < ToInt(t) <==> Less(s, t)
    ensures ToInt(s) == ToInt(t) <==> s == t
    decreases |s|
  {
    if s == "" {
      assert t == "";
    } else {
      var u, v, x, y := s[..|s| - 1], t[..|t| - 1], s[|s| - 1], t[|t| - 1];
      assert s == u + [x] && t == v + [y] && x in s && y in t;
      SameLengthOrder(u, v);
      LessOnLast(u, v, x, y);
      LessTotal(u, v);
    }
  }

  /** Shorter printed numbers are smaller; of equal length, those that come first as text are. */
  lemma NumberOrder(m: nat, n: nat)
    ensures m < n <==>
      |Decimal(m)| < |Decimal(n)| || (|Decimal(m)| == |Decimal(n)| && Less(Decimal(m), Decimal(n)))
  {
    DecimalReads(m);
    DecimalReads(n);
    if |Decimal(m)| == |Decimal(n)| {
      SameLengthOrder(Decimal(m), Decimal(n));
    } else if |Decimal(m)| < |Decimal(n)| {
      ZeroIsShort(n);
      LongerIsGreater(Decimal(m), Decimal(n));
    } else {
      ZeroIsShort(m);
      LongerIsGreater(Decimal(n), Decimal(m));
    }
  }

  lemma ZeroIsShort(n: nat)
    requires |Decimal(n)| > 1
    ensures Decimal(n)[0] != '0'
  {
    DecimalReads(n);
  }
}
