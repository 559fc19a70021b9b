/** Stored timestamps (store/time.go): UTC instants in the form of section 5.6 of RFC 3339, with the
    fraction's trailing zeros dropped. SQL compares them as text. */
module Timestamps {
  import opened Order
  import opened Options

  datatype Instant = Instant(year: nat, month: nat, day: nat, hour: nat, minute: nat, second: nat, nanos: nat)

  function DaysIn(year: nat, month: nat): nat {
    if month == 2 then (if year % 4 == 0 && (year % 100 != 0 || year % 400 == 0) then 29 else 28)
    else if month in {4, 6, 9, 11} then 30 else 31
  }

  predicate Valid(t: Instant) {
    && t.year <= 9999 && 1 <= t.month <= 12 && 1 <= t.day <= DaysIn(t.year, t.month)
    && t.hour < 24 && t.minute < 60 && t.second < 60 && t.nanos < 1_000_000_000
  }

  function Pow10(w: nat): nat {
    if w == 0 then 1 else 10 * Pow10(w - 1)
  }

  function DigitChar(d: nat): char
    requires d < 10
  {
    '0' + d as char
  }

  /** `n` in `w` decimal digits. */
  function Digits(n: nat, w: nat): (s: string)
    ensures |s| == w && forall i :: 0 <= i < w ==> '0' <= s[i] <= '9'
  {
    if w == 0 then "" else Digits(n / 10, w - 1) + [DigitChar(n % 10)]
  }

  function TrimZeros(s: string): (t: string)
    ensures |t| <= |s| && t == s[..|t|]
    ensures t != [] ==> t[|t|-1] != '0'
    ensures forall i :: |t| <= i < |s| ==> s[i] == '0'
  {
    if s != [] && s[|s|-1] == '0' then TrimZeros(s[..|s|-1]) else s
  }

  function Fraction(nanos: nat): string {
    TrimZeros(Digits(nanos, 9))
  }

  function Tail(nanos: nat): string {
    if Fraction(nanos) == "" then "Z" else "." + Fraction(nanos) + "Z"
  }

  function Encode(t: Instant): string {
    Digits(t.year, 4) + "-" + Digits(t.month, 2) + "-" + Digits(t.day, 2) + "T"
    + Digits(t.hour, 2) + ":" + Digits(t.minute, 2) + ":" + Digits(t.second, 2) + Tail(t.nanos)
  }

  predicate AllDigits(s: string) {
    forall i :: 0 <= i < |s| ==> '0' <= s[i] <= '9'
  }

  function Value(s: string): nat
    requires AllDigits(s)
  {
    if s == "" then 0 else 10 * Value(s[..|s|-1]) + (s[|s|-1] - '0') as nat
  }

  /** The fraction digits, scaled to nanoseconds. */
  function Scaled(v: nat, missing: nat): nat
    decreases missing
  {
    if missing == 0 then v else Scaled(10 * v, missing - 1)
  }

  function DecodeTail(s: string): Option<nat> {
    if s == "Z" then
      Some(0)
    else if 3 <= |s| <= 11 && s[0] == '.' && s[|s|-1] == 'Z' && AllDigits(s[1..|s|-1]) then
      Some(Scaled(Value(s[1..|s|-1]), 11 - |s|))
    else
      None
  }

  predicate HasLayout(s: string) {
    && |s| >= 20 && AllDigits(s[0..4]) && s[4] == '-' && AllDigits(s[5..7]) && s[7] == '-' && AllDigits(s[8..10])
    && s[10] == 'T' && AllDigits(s[11..13]) && s[13] == ':' && AllDigits(s[14..16]) && s[16] == ':'
    && AllDigits(s[17..19]) && DecodeTail(s[19..]).Some?
  }

  function Fields(s: string): Instant
    requires HasLayout(s)
  {
    Instant(Value(s[0..4]), Value(s[5..7]), Value(s[8..10]),
            Value(s[11..13]), Value(s[14..16]), Value(s[17..19]), DecodeTail(s[19..]).value)
  }

  function Decode(s: string): Option<Instant> {
    if HasLayout(s) && Valid(Fields(s)) then Some(Fields(s)) else None
  }

  lemma {:induction false} ValueOfDigits(n: nat, w: nat)
    requires n < Pow10(w)
    ensures Value(Digits(n, w)) == n
  {
    if w > 0 {
      ValueOfDigits(n / 10, w - 1);
      assert Digits(n, w)[..w-1] == Digits(n / 10, w - 1);
    }
  }

  lemma {:induction false} ValuePadded(t: string, s: string)
    requires AllDigits(s) && |t| <= |s| && t == s[..|t|] && forall i :: |t| <= i < |s| ==> s[i] == '0'
    ensures AllDigits(t) && Value(s) == Scaled(Value(t), |s| - |t|)
    decreases |s|
  {
    if |t| < |s| {
      ValuePadded(t, s[..|s|-1]);
      ScaledTen(Value(t), |s| - |t| - 1);
    } else {
      assert s == t;
    }
  }

  lemma {:induction false} ScaledTen(v: nat, k: nat)
    ensures Scaled(v, k + 1) == 10 * Scaled(v, k)
    decreases k
  {
    if k > 0 {
      ScaledTen(10 * v, k - 1);
    }
  }

  lemma PowersOfTen()
    ensures Pow10(2) == 100 && Pow10(4) == 10_000 && Pow10(9) == 1_000_000_000
  {
    assert Pow10(1) == 10 && Pow10(2) == 100 && Pow10(3) == 1000 && Pow10(4) == 10_000;
    assert Pow10(5) == 100_000 && Pow10(6) == 1_000_000 && Pow10(7) == 10_000_000 && Pow10(8) == 100_000_000;
  }

  lemma DecodeDotted(t: string)
    requires 1 <= |t| <= 9 && AllDigits(t)
    ensures DecodeTail("." + t + "Z") == Some(Scaled(Value(t), 9 - |t|))
  {
    var s := "." + t + "Z";
    assert s[1..|s|-1] == t;
  }

  lemma FractionValue(nanos: nat)
    requires nanos < 1_000_000_000
    ensures var t := Fraction(nanos);
            |t| <= 9 && AllDigits(t) && Scaled(Value(t), 9 - |t|) == nanos
  {
    PowersOfTen();
    ValueOfDigits(nanos, 9);
    ValuePadded(Fraction(nanos), Digits(nanos, 9));
  }

  lemma DecodeTailOfTail(nanos: nat)
    requires nanos < 1_000_000_000
    ensures DecodeTail(Tail(nanos)) == Some(nanos)
  {
    FractionValue(nanos);
    if Fraction(nanos) == "" {
      ScaledZero(9);
    } else {
      DecodeDotted(Fraction(nanos));
    }
  }

  lemma {:induction false} ScaledZero(k: nat)
    ensures Scaled(0, k) == 0
  {
    if k > 0 {
      ScaledZero(k - 1);
    }
  }

  lemma Layout(t: Instant)
    ensures var s := Encode(t);
            && |s| >= 20 && s[19..] == Tail(t.nanos)
            && s[0..4] == Digits(t.year, 4) && s[5..7] == Digits(t.month, 2) && s[8..10] == Digits(t.day, 2)
            && s[11..13] == Digits(t.hour, 2) && s[14..16] == Digits(t.minute, 2) && s[17..19] == Digits(t.second, 2)
            && s[4] == '-' && s[7] == '-' && s[10] == 'T' && s[13] == ':' && s[16] == ':'
  {
  }

  lemma ValueOfFields(t: Instant)
    requires Valid(t)
    ensures Value(Digits(t.year, 4)) == t.year && Value(Digits(t.month, 2)) == t.month
    ensures Value(Digits(t.day, 2)) == t.day && Value(Digits(t.hour, 2)) == t.hour
    ensures Value(Digits(t.minute, 2)) == t.minute && Value(Digits(t.second, 2)) == t.second
  {
    PowersOfTen();
    ValueOfDigits(t.year, 4);
    ValueOfDigits(t.month, 2);
    ValueOfDigits(t.day, 2);
    ValueOfDigits(t.hour, 2);
    ValueOfDigits(t.minute, 2);
    ValueOfDigits(t.second, 2);
  }

  lemma SameFields(s: string, t: Instant)
    requires |s| >= 20 && DecodeTail(s[19..]) == Some(t.nanos)
    requires s[4] == '-' && s[7] == '-' && s[10] == 'T' && s[13] == ':' && s[16] == ':'
    requires s[0..4] == Digits(t.year, 4) && s[5..7] == Digits(t.month, 2) && s[8..10] == Digits(t.day, 2)
    requires s[11..13] == Digits(t.hour, 2) && s[14..16] == Digits(t.minute, 2) && s[17..19] == Digits(t.second, 2)
    requires Valid(t)
    ensures Decode(s) == Some(t)
  {
    ValueOfFields(t);
  }

  /** Decoding undoes encoding. */
  lemma RoundTrip(t: Instant)
    requires Valid(t)
    ensures Decode(Encode(t)) == Some(t)
  {
    Layout(t);
    DecodeTailOfTail(t.nanos);
    SameFields(Encode(t), t);
  }

  // ----------------------------------------------------------------------- order

  predicate SecondBefore(a: Instant, b: Instant) {
    a.year < b.year || (a.year == b.year && (
    a.month < b.month || (a.month == b.month && (
    a.day < b.day || (a.day == b.day && (
    a.hour < b.hour || (a.hour == b.hour && (
    a.minute < b.minute || (a.minute == b.minute && a.second < b.second)))))))))
  }

  predicate SameSecond(a: Instant, b: Instant) {
    a.(nanos := 0) == b.(nanos := 0)
  }

  predicate Before(a: Instant, b: Instant) {
    SecondBefore(a, b) || (SameSecond(a, b) && a.nanos < b.nanos)
  }

  predicate ProperPrefix(a: string, b: string) {
    a < b
  }

  /** Within one second, one trimmed fraction (possibly empty) starts the other. */
  predicate Inverted(a: Instant, b: Instant) {
    SameSecond(a, b)
    && (ProperPrefix(Fraction(a.nanos), Fraction(b.nanos)) || ProperPrefix(Fraction(b.nanos), Fraction(a.nanos)))
  }

  lemma {:induction false} FirstDifference(a: nat, b: nat, w: nat) returns (i: nat)
    requires a < b < Pow10(w)
    ensures i < w && Digits(a, w)[..i] == Digits(b, w)[..i] && Digits(a, w)[i] < Digits(b, w)[i]
  {
    var x, y := Digits(a / 10, w - 1), Digits(b / 10, w - 1);
    if a / 10 < b / 10 {
      i := FirstDifference(a / 10, b / 10, w - 1);
      assert Digits(a, w)[..i] == x[..i] && Digits(b, w)[..i] == y[..i];
    } else {
      i := w - 1;
      assert Digits(a, w)[..i] == x && Digits(b, w)[..i] == y;
    }
  }

  lemma SliceOrder(x: string, y: string, at: nat, w: nat, i: nat)
    requires at + w <= |x| && at + w <= |y| && x[..at] == y[..at] && i < w
    requires x[at..at+w][..i] == y[at..at+w][..i] && x[at..at+w][i] < y[at..at+w][i]
    ensures Less(x, y)
  {
    assert x[..at+i] == x[..at] + x[at..at+w][..i];
    assert y[..at+i] == y[..at] + y[at..at+w][..i];
    LessAt(x, y, at + i);
  }

  /** The first field that differs decides. */
  lemma FieldOrder(x: string, y: string, at: nat, w: nat, a: nat, b: nat)
    requires at + w <= |x| && at + w <= |y| && x[..at] == y[..at]
    requires x[at..at+w] == Digits(a, w) && y[at..at+w] == Digits(b, w)
    requires a < b < Pow10(w)
    ensures Less(x, y)
  {
    var i := FirstDifference(a, b, w);
    SliceOrder(x, y, at, w, i);
  }

  /** The first differing digit survives the trimming of the larger number, at least. */
  lemma FractionsDiffer(a: nat, b: nat) returns (i: nat)
    requires a < b < 1_000_000_000
    ensures var s, t := Fraction(a), Fraction(b);
            && i < |t|
            && (if i < |s| then s[..i] == t[..i] && s[i] < t[i] else s == t[..|s|])
  {
    PowersOfTen();
    i := FirstDifference(a, b, 9);
    var x, y, s, t := Digits(a, 9), Digits(b, 9), Fraction(a), Fraction(b);
    assert |t| > i;
    assert t[..i] == y[..i] && t[i] == y[i];
    if i < |s| {
      assert s[..i] == x[..i] && s[i] == x[i];
    } else {
      assert s == x[..i][..|s|] && t[..|s|] == y[..i][..|s|];
    }
  }

  lemma TailOrder(a: nat, b: nat)
    requires a < b < 1_000_000_000
    ensures ProperPrefix(Fraction(a), Fraction(b)) ==> Less(Tail(b), Tail(a))
    ensures !ProperPrefix(Fraction(a), Fraction(b)) ==> Less(Tail(a), Tail(b))
    ensures !ProperPrefix(Fraction(b), Fraction(a))
  {
    var i := FractionsDiffer(a, b);
    CompareTails(Fraction(a), Fraction(b), i);
  }

  lemma CompareTails(s: string, t: string, i: nat)
    requires i < |t| && AllDigits(s) && AllDigits(t)
    requires if i < |s| then s[..i] == t[..i] && s[i] < t[i] else s == t[..|s|]
    ensures var x, y := if s == "" then "Z" else "." + s + "Z", "." + t + "Z";
            if ProperPrefix(s, t) then Less(y, x) else Less(x, y)
    ensures !ProperPrefix(t, s)
  {
    var y := "." + t + "Z";
    if s == "" {
    } else {
      var x := "." + s + "Z";
      if i < |s| {
        assert x[..i+1] == "." + s[..i] && y[..i+1] == "." + t[..i];
        LessAt(x, y, i + 1);
        assert s[i] != t[i];
      } else {
        assert x[..|s|+1] == "." + s && y[..|s|+1] == "." + t[..|s|];
        LessAt(y, x, |s| + 1);
      }
    }
  }

  lemma SameField(x: string, y: string, from: nat, width: nat)
    requires from + width < |x| && from + width < |y| && x[..from] == y[..from]
    requires x[from..from+width] == y[from..from+width] && x[from+width] == y[from+width]
    ensures x[..from+width+1] == y[..from+width+1]
  {
    assert x[..from+width+1] == x[..from] + x[from..from+width] + [x[from+width]];
    assert y[..from+width+1] == y[..from] + y[from..from+width] + [y[from+width]];
  }

  /** Equal leading fields make equal leading text. */
  lemma SameStart(a: Instant, b: Instant)
    ensures var x, y := Encode(a), Encode(b);
            && |x| >= 20 && |y| >= 20
            && (a.year == b.year ==> x[..5] == y[..5])
            && (a.year == b.year && a.month == b.month ==> x[..8] == y[..8])
            && (a.year == b.year && a.month == b.month && a.day == b.day ==> x[..11] == y[..11])
  {
    var x, y := Encode(a), Encode(b);
    Layout(a);
    Layout(b);
    if a.year == b.year {
      SameField(x, y, 0, 4);
      if a.month == b.month {
        SameField(x, y, 5, 2);
        if a.day == b.day {
          SameField(x, y, 8, 2);
        }
      }
    }
  }

  lemma SameStartClock(a: Instant, b: Instant)
    requires a.year == b.year && a.month == b.month && a.day == b.day && a.hour == b.hour
    ensures var x, y := Encode(a), Encode(b);
            && |x| >= 20 && |y| >= 20
            && x[..14] == y[..14]
            && (a.minute == b.minute ==> x[..17] == y[..17])
  {
    var x, y := Encode(a), Encode(b);
    Layout(a);
    Layout(b);
    SameStart(a, b);
    SameField(x, y, 11, 2);
    if a.minute == b.minute {
      SameField(x, y, 14, 2);
    }
  }

  lemma YearOrder(a: Instant, b: Instant)
    requires Valid(a) && Valid(b) && a.year < b.year
    ensures Less(Encode(a), Encode(b))
  {
    PowersOfTen();
    Layout(a);
    Layout(b);
    FieldOrder(Encode(a), Encode(b), 0, 4, a.year, b.year);
  }

  lemma MonthOrder(a: Instant, b: Instant)
    requires Valid(a) && Valid(b) && a.year == b.year && a.month < b.month
    ensures Less(Encode(a), Encode(b))
  {
    PowersOfTen();
    Layout(a);
    Layout(b);
    SameStart(a, b);
    FieldOrder(Encode(a), Encode(b), 5, 2, a.month, b.month);
  }

  lemma DayOrder(a: Instant, b: Instant)
    requires Valid(a) && Valid(b) && a.year == b.year && a.month == b.month && a.day < b.day
    ensures Less(Encode(a), Encode(b))
  {
    PowersOfTen();
    Layout(a);
    Layout(b);
    SameStart(a, b);
    FieldOrder(Encode(a), Encode(b), 8, 2, a.day, b.day);
  }

  lemma DateOrder(a: Instant, b: Instant)
    requires Valid(a) && Valid(b) && SecondBefore(a, b) && (a.year != b.year || a.month != b.month || a.day != b.day)
    ensures Less(Encode(a), Encode(b))
  {
    if a.year < b.year {
      YearOrder(a, b);
    } else if a.month < b.month {
      MonthOrder(a, b);
    } else {
      DayOrder(a, b);
    }
  }

  lemma ClockOrder(a: Instant, b: Instant)
    requires Valid(a) && Valid(b) && SecondBefore(a, b) && a.year == b.year && a.month == b.month && a.day == b.day
    ensures Less(Encode(a), Encode(b))
  {
    PowersOfTen();
    var x, y := Encode(a), Encode(b);
    Layout(a);
    Layout(b);
    if a.hour < b.hour {
      SameStart(a, b);
      FieldOrder(x, y, 11, 2, a.hour, b.hour);
    } else {
      SameStartClock(a, b);
      if a.minute < b.minute {
        FieldOrder(x, y, 14, 2, a.minute, b.minute);
      } else {
        FieldOrder(x, y, 17, 2, a.second, b.second);
      }
    }
  }

  lemma SecondOrder(a: Instant, b: Instant)
    requires Valid(a) && Valid(b) && SecondBefore(a, b)
    ensures Less(Encode(a), Encode(b))
  {
    if a.year == b.year && a.month == b.month && a.day == b.day {
      ClockOrder(a, b);
    } else {
      DateOrder(a, b);
    }
  }

  lemma TextBefore(a: Instant, b: Instant)
    requires Valid(a) && Valid(b) && Before(a, b)
    ensures if Inverted(a, b) then Less(Encode(b), Encode(a)) else Less(Encode(a), Encode(b))
  {
    if SecondBefore(a, b) {
      SecondOrder(a, b);
    } else {
      var p := Encode(a)[..19];
      assert Encode(a) == p + Tail(a.nanos) && Encode(b) == p + Tail(b.nanos);
      TailOrder(a.nanos, b.nanos);
      LessAfter(p, Tail(a.nanos), Tail(b.nanos));
      LessAfter(p, Tail(b.nanos), Tail(a.nanos));
    }
  }

  /** Stored text orders two distinct instants as time does, except exactly when they share a second
      and one trimmed fraction is a proper prefix of the other. */
  lemma TextOrderIsTimeOrder(a: Instant, b: Instant)
    requires Valid(a) && Valid(b) && a != b
    ensures Less(Encode(a), Encode(b)) <==> (if Inverted(a, b) then Before(b, a) else Before(a, b))
  {
    if Before(a, b) {
      TextBefore(a, b);
    } else {
      TextBefore(b, a);
    }
    if Less(Encode(a), Encode(b)) {
      LessAsymmetric(Encode(a), Encode(b));
    }
  }

  lemma {:induction false} ZerosTrimmed(s: string)
    ensures TrimZeros(s) == "" <==> forall i :: 0 <= i < |s| ==> s[i] == '0'
  {
  }

  lemma {:induction false} DigitsOfZero(w: nat)
    ensures forall i :: 0 <= i < w ==> Digits(0, w)[i] == '0'
  {
    if w > 0 {
      DigitsOfZero(w - 1);
    }
  }

  lemma FractionOfZero()
    ensures Fraction(0) == ""
  {
    DigitsOfZero(9);
    ZerosTrimmed(Digits(0, 9));
  }

  lemma FractionOfMore(nanos: nat)
    requires 0 < nanos < 1_000_000_000
    ensures Fraction(nanos) != ""
  {
    FractionOfZero();
    PowersOfTen();
    DecodeTailOfTail(nanos);
    DecodeTailOfTail(0);
  }

  /** The form of a stored timestamp, character by character around its numbers. */
  lemma WrittenForm(t: Instant)
    requires Valid(t)
    ensures var s := Encode(t);
            && |s| >= 20 && s[4] == '-' && s[7] == '-' && s[10] == 'T' && s[13] == ':' && s[16] == ':'
            && s[..4] == Digits(t.year, 4) && s[5..7] == Digits(t.month, 2) && s[8..10] == Digits(t.day, 2)
            && s[11..13] == Digits(t.hour, 2) && s[14..16] == Digits(t.minute, 2) && s[17..19] == Digits(t.second, 2)
            && (t.nanos == 0 ==> s[19..] == "Z")
            && (t.nanos > 0 ==> s[19] == '.' && s[|s|-1] == 'Z' && s[|s|-2] != '0' && 22 <= |s| <= 30)
  {
    Layout(t);
    FractionOfZero();
    if t.nanos > 0 {
      FractionOfMore(t.nanos);
      assert Encode(t)[19..] == Tail(t.nanos);
    }
  }
}
