/** SRT timestamps from 100 ns ticks (`subtitles/SubtitleTime`). */
module SubtitleTime {
  import opened Bytes

  datatype Time = Time(millis: nat)

  const COLON: byte := 58
  const COMMA: byte := 44
  const ZERO: byte := 48

  function FromEdgeTicks(ticks: int): Result<Time> {
    if ticks < 0 then Err(InvalidArgument) else Ok(Time(ticks / 10000))
  }

  // ---- Printing ---------------------------------------------------------------

  function Digit(d: nat): byte
    requires d < 10
  {
    ZERO + d
  }

  /** `std::to_string` of a non-negative number. */
  function Decimal(n: nat): (r: Bytes)
    ensures |r| > 0
  {
    if n < 10 then [Digit(n)] else Decimal(n / 10) + [Digit(n % 10)]
  }

  /** `%0<width>lld`: zeros in front up to the width, more digits where the number needs them. */
  function Padded(n: nat, width: nat): (r: Bytes)
    ensures |r| >= width && |r| > 0
  {
    var d := Decimal(n);
    if |d| >= width then d else seq(width - |d|, _ => ZERO) + d
  }

  function Timestamp(t: Time): Bytes {
    var hrs := t.millis / 3600000;
    var mins := t.millis % 3600000 / 60000;
    var secs := t.millis % 60000 / 1000;
    var ms := t.millis % 1000;
    Padded(hrs, 2) + [COLON] + Padded(mins, 2) + [COLON] + Padded(secs, 2) + [COMMA] + Padded(ms, 3)
  }

  // ---- Reading ----------------------------------------------------------------

  predicate IsDigit(b: byte) {
    48 <= b <= 57
  }

  function DigitSpan(s: Bytes): (n: nat)
    ensures n <= |s| && forall k :: 0 <= k < n ==> IsDigit(s[k])
    ensures n < |s| ==> !IsDigit(s[n])
  {
    if s == [] || !IsDigit(s[0]) then 0 else 1 + DigitSpan(s[1..])
  }

  function DigitValue(b: byte): nat
    requires IsDigit(b)
  {
    b as int - ZERO as int
  }

  /** The number a string of digits denotes in base ten. */
  function Value(digits: Bytes): nat
    requires forall k :: 0 <= k < |digits| ==> IsDigit(digits[k])
  {
    if digits == [] then 0 else Value(digits[..|digits| - 1]) * 10 + DigitValue(digits[|digits| - 1])
  }

  function ReadNumber(s: Bytes): Option<(nat, Bytes)> {
    var n := DigitSpan(s);
    if n == 0 then None else Some((Value(s[..n]), s[n..]))
  }

  function Expect(s: Bytes, literal: Bytes): (r: Option<Bytes>)
    ensures r.Some? ==> s == literal + r.value
  {
    if literal <= s then Some(s[|literal|..]) else None
  }

  /** Hours, minutes, seconds and milliseconds as printed by `Timestamp`. */
  function ReadTime(s: Bytes): Option<(Time, Bytes)> {
    var (h, s1) :- ReadNumber(s);
    var s2 :- Expect(s1, [COLON]);
    var (m, s3) :- ReadNumber(s2);
    var s4 :- Expect(s3, [COLON]);
    var (sec, s5) :- ReadNumber(s4);
    var s6 :- Expect(s5, [COMMA]);
    var (ms, rest) :- ReadNumber(s6);
    Some((Time(((h * 60 + m) * 60 + sec) * 1000 + ms), rest))
  }

  // ---- Reading inverts printing ------------------------------------------------------

  lemma {:induction false} DecimalDigits(n: nat)
    ensures forall k :: 0 <= k < |Decimal(n)| ==> IsDigit(Decimal(n)[k])
    ensures Value(Decimal(n)) == n
  {
    if n >= 10 {
      DecimalDigits(n / 10);
      assert Decimal(n)[..|Decimal(n)| - 1] == Decimal(n / 10);
    }
  }

  lemma {:induction false} LeadingZeros(z: Bytes, d: Bytes)
    requires forall k :: 0 <= k < |z| ==> z[k] == ZERO
    requires forall k :: 0 <= k < |d| ==> IsDigit(d[k])
    ensures forall k :: 0 <= k < |z + d| ==> IsDigit((z + d)[k])
    ensures Value(z + d) == Value(d)
    decreases |z| + |d|
  {
    hide Value;
    if d != [] {
      var init, last := d[..|d| - 1], d[|d| - 1];
      LeadingZeros(z, init);
      assert z + d == (z + init) + [last] && d == init + [last];
      ValueSnoc(z + init, last);
      ValueSnoc(init, last);
    } else if z != [] {
      var init := z[..|z| - 1];
      LeadingZeros(init, []);
      assert z + d == init + [] + [ZERO] && init + [] == init;
      ValueSnoc(init, ZERO);
      NoValue();
    } else {
      assert z + d == d;
    }
  }

  lemma ValueSnoc(digits: Bytes, last: byte)
    requires IsDigit(last) && forall k :: 0 <= k < |digits| ==> IsDigit(digits[k])
    ensures Value(digits + [last]) == Value(digits) * 10 + DigitValue(last)
  {
    assert (digits + [last])[..|digits|] == digits;
  }

  lemma NoValue()
    ensures Value([]) == 0
  {}

  lemma SpanIs(s: Bytes, n: nat)
    requires n <= |s| && (n < |s| ==> !IsDigit(s[n])) && forall k :: 0 <= k < n ==> IsDigit(s[k])
    ensures DigitSpan(s) == n
  {}

  lemma PaddedDigits(n: nat, width: nat)
    ensures forall k :: 0 <= k < |Padded(n, width)| ==> IsDigit(Padded(n, width)[k])
    ensures Value(Padded(n, width)) == n
  {
    hide Decimal, Value;
    var p, d := Padded(n, width), Decimal(n);
    DecimalDigits(n);
    LeadingZeros(p[..|p| - |d|], d);
    assert p == p[..|p| - |d|] + d;
  }

  /** A padded number in front of anything but a digit is read back exactly. */
  lemma ReadPadded(n: nat, width: nat, rest: Bytes)
    requires rest != [] ==> !IsDigit(rest[0])
    ensures ReadNumber(Padded(n, width) + rest) == Some((n, rest))
  {
    hide Padded, Value;
    var p := Padded(n, width);
    PaddedDigits(n, width);
    SpanIs(p + rest, |p|);
    assert (p + rest)[..|p|] == p && (p + rest)[|p|..] == rest;
  }

  lemma ReadTimestamp(t: Time, rest: Bytes)
    requires rest != [] ==> !IsDigit(rest[0])
    ensures ReadTime(Timestamp(t) + rest) == Some((t, rest))
  {
    hide ReadNumber, Padded;
    var h, m := t.millis / 3600000, t.millis % 3600000 / 60000;
    var sec, ms := t.millis % 60000 / 1000, t.millis % 1000;
    var r3 := Padded(ms, 3) + rest;
    var r2 := Padded(sec, 2) + ([COMMA] + r3);
    var r1 := Padded(m, 2) + ([COLON] + r2);
    assert Timestamp(t) + rest == Padded(h, 2) + ([COLON] + r1);
    ReadPadded(h, 2, [COLON] + r1);
    ReadPadded(m, 2, [COLON] + r2);
    ReadPadded(sec, 2, [COMMA] + r3);
    ReadPadded(ms, 3, rest);
    SplitMillis(t.millis);
  }

  lemma SplitMillis(n: nat)
    ensures ((n / 3600000 * 60 + n % 3600000 / 60000) * 60 + n % 60000 / 1000) * 1000 + n % 1000 == n
  {
    MinutesWithinHour(n);
    MillisWithinMinute(n);
    assert n == 3600000 * (n / 3600000) + n % 3600000;
    assert n % 3600000 == 60000 * (n % 3600000 / 60000) + n % 3600000 % 60000;
    assert n % 60000 == 1000 * (n % 60000 / 1000) + n % 60000 % 1000;
  }

  lemma MinutesWithinHour(n: nat)
    ensures n % 3600000 % 60000 == n % 60000
  {
    var h, r := n / 3600000, n % 3600000;
    var m, q := r / 60000, r % 60000;
    assert n == 60000 * (60 * h + m) + q;
  }

  lemma MillisWithinMinute(n: nat)
    ensures n % 60000 % 1000 == n % 1000
  {
    var m, r := n / 60000, n % 60000;
    var s, q := r / 1000, r % 1000;
    assert n == 1000 * (60 * m + s) + q;
  }

  /** Below 100 hours a timestamp is `hh:mm:ss,mmm`. */
  lemma TimestampDigits(h: nat, m: nat, sec: nat, ms: nat)
    requires h < 100 && m < 60 && sec < 60 && ms < 1000
    ensures Timestamp(Time(((h * 60 + m) * 60 + sec) * 1000 + ms)) ==
            [48 + h / 10, 48 + h % 10, 58, 48 + m / 10, 48 + m % 10, 58, 48 + sec / 10, 48 + sec % 10, 44,
             48 + ms / 100, 48 + ms / 10 % 10, 48 + ms % 10]
  {
    hide Padded;
    TimeParts(h, m, sec, ms);
    TwoDigits(h);
    TwoDigits(m);
    TwoDigits(sec);
    ThreeDigits(ms);
  }

  lemma TimeParts(h: nat, m: nat, sec: nat, ms: nat)
    requires m < 60 && sec < 60 && ms < 1000
    ensures var n := ((h * 60 + m) * 60 + sec) * 1000 + ms;
            n / 3600000 == h && n % 3600000 / 60000 == m && n % 60000 / 1000 == sec && n % 1000 == ms
  {
    var r, q := (m * 60 + sec) * 1000 + ms, sec * 1000 + ms;
    HourPart(h, r);
    MinutePart(60 * h + m, q);
    MinutePart(m, q);
    SecondPart(sec, ms);
    SecondPart((h * 60 + m) * 60 + sec, ms);
  }

  lemma HourPart(h: nat, r: nat)
    requires r < 3600000
    ensures (3600000 * h + r) / 3600000 == h && (3600000 * h + r) % 3600000 == r
  {}

  lemma MinutePart(m: nat, r: nat)
    requires r < 60000
    ensures (60000 * m + r) / 60000 == m && (60000 * m + r) % 60000 == r
  {}

  lemma SecondPart(sec: nat, r: nat)
    requires r < 1000
    ensures (1000 * sec + r) / 1000 == sec && (1000 * sec + r) % 1000 == r
  {}

  lemma TwoDigits(n: nat)
    requires n < 100
    ensures Padded(n, 2) == [48 + n / 10, 48 + n % 10]
  {
    SmallDecimal(n);
    assert seq(1, _ => ZERO) == [ZERO];
  }

  lemma ThreeDigits(n: nat)
    requires n < 1000
    ensures Padded(n, 3) == [48 + n / 100, 48 + n / 10 % 10, 48 + n % 10]
  {
    SmallDecimal(n);
    assert seq(1, _ => ZERO) == [ZERO] && seq(2, _ => ZERO) == [ZERO, ZERO];
  }

  lemma SmallDecimal(n: nat)
    requires n < 1000
    ensures n < 10 ==> Decimal(n) == [48 + n]
    ensures 10 <= n < 100 ==> Decimal(n) == [48 + n / 10, 48 + n % 10]
    ensures n >= 100 ==> Decimal(n) == [48 + n / 100, 48 + n / 10 % 10, 48 + n % 10]
  {
    if n >= 100 {
      assert Decimal(n / 10) == Decimal(n / 100) + [Digit(n / 10 % 10)];
    }
  }

  /** A timestamp of at most 2^63 - 1 ticks fits the 32-byte buffer, terminator included. */
  lemma TimestampFitsBuffer(ticks: int)
    requires 0 <= ticks < 0x8000_0000_0000_0000
    ensures |Timestamp(FromEdgeTicks(ticks).value)| < 32
  {
    var n := ticks / 10000;
    DecimalLength(n / 3600000, 9);
    DecimalLength(n % 3600000 / 60000, 2);
    DecimalLength(n % 60000 / 1000, 2);
    DecimalLength(n % 1000, 3);
  }

  function PowerOfTen(k: nat): nat {
    if k == 0 then 1 else 10 * PowerOfTen(k - 1)
  }

  lemma {:induction false} DecimalLength(n: nat, k: nat)
    requires k > 0 && n < PowerOfTen(k)
    ensures |Decimal(n)| <= k
  {
    if n >= 10 {
      DecimalLength(n / 10, k - 1);
    }
  }
}
