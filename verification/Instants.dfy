/** Timestamps: the split into seconds and microseconds, and the text form. */
module Instants {
  import opened Wrappers
  import opened Wire
  import opened Numbers

  const MILLION := 1_000_000
  const BILLION := 1_000_000_000

  /** Seconds from 1970 to 2000. */
  const EPOCH_2000 := 946684800

  // ---- truncating division ----

  function TruncDiv(a: int, b: int): int
    requires b > 0
  {
    if a >= 0 then a / b else -((-a) / b)
  }

  function TruncRem(a: int, b: int): int
    requires b > 0
  {
    a - b * TruncDiv(a, b)
  }

  lemma TruncVersusFloor(a: int, b: int)
    requires b > 0
    ensures TruncRem(a, b) >= 0 ==> TruncDiv(a, b) == a / b && TruncRem(a, b) == a % b
    ensures TruncRem(a, b) < 0 ==> TruncDiv(a, b) - 1 == a / b && TruncRem(a, b) + b == a % b
    ensures -b < TruncRem(a, b) < b
  {
    var q, r := a / b, a % b;
    assert a == q * b + r;
    if a < 0 {
      var q', r' := (-a) / b, (-a) % b;
      assert -a == q' * b + r';
      if r' == 0 {
        Unique(a, b, -q', 0, q, r);
      } else {
        assert a == (-q' - 1) * b + (b - r');
        Unique(a, b, -q' - 1, b - r', q, r);
      }
    }
  }

  lemma MultipleGrows(d: int, b: int)
    requires b > 0
    ensures d >= 1 ==> d * b >= b
    ensures d <= -1 ==> d * b <= -b
  {
  }

  lemma Unique(a: int, b: int, q: int, r: int, q': int, r': int)
    requires b > 0 && a == q * b + r && a == q' * b + r' && 0 <= r < b && 0 <= r' < b
    ensures q == q' && r == r'
  {
    MultipleGrows(q - q', b);
    assert (q - q') * b == r' - r;
  }

  datatype Split = Split(sec: int, usec: int)

  /** The correction every decoder makes after dividing by a million. */
  method SplitMicros(v: int, shift: int) returns (s: Split)
    ensures s == Split(v / MILLION + shift, v % MILLION)
    ensures 0 <= s.usec < MILLION && s.sec * MILLION + s.usec == v + shift * MILLION
  {
    var epoch := TruncDiv(v, MILLION) + shift;
    var micros := TruncRem(v, MILLION);
    TruncVersusFloor(v, MILLION);
    if micros < 0 {
      micros := micros + MILLION;
      epoch := epoch - 1;
    }
    return Split(epoch, micros);
  }

  /** How a time point, in nanoseconds, is split for printing. */
  function SplitTimePoint(ns: int): Split {
    var micros := TruncDiv(ns, 1000);
    Split(micros / MILLION, micros % MILLION)
  }

  lemma DivDiv(n: nat)
    ensures n / 1000 / MILLION == n / BILLION
    ensures n % BILLION / 1000 == n / 1000 % MILLION
  {
    var q, r := n / BILLION, n % BILLION;
    assert n == BILLION * q + r;
    assert n / 1000 == MILLION * q + r / 1000;
  }

  method SplitNanos(ns: int) returns (s: Split)
    ensures s == SplitTimePoint(ns)
  {
    var seconds := TruncDiv(ns, BILLION);
    var micros := TruncDiv(ns - seconds * BILLION, 1000);
    DivDiv(if ns < 0 then -ns else ns);
    assert TruncDiv(ns, 1000) == seconds * MILLION + micros;
    var secCount, usecCount := seconds, micros;
    if usecCount < 0 {
      usecCount := usecCount + MILLION;
      secCount := secCount - 1;
    }
    ghost var total := TruncDiv(ns, 1000);
    Unique(total, MILLION, secCount, usecCount, total / MILLION, total % MILLION);
    return Split(secCount, usecCount);
  }

  /** The printed split is the floor in microseconds, except for a time before
      1970 that is no whole number of them, which is one microsecond late. */
  lemma PrintsFloorIff(ns: int)
    ensures var s := SplitTimePoint(ns);
            0 <= s.usec < MILLION && (s.sec * MILLION + s.usec == ns / 1000 <==> ns >= 0 || ns % 1000 == 0)
  {
    TruncVersusFloor(ns, 1000);
  }

  // ---- text ----

  datatype Tm = Tm(year: int, month: int, day: int, hour: int, minute: int, second: int)

  /** The C library's calendar: `strptime` and `strptimeT` read a date and a time
      with a blank or a T between them, and return what they did not read. */
  datatype Calendar = Calendar(
    gmtime: int -> Tm,
    timegm: Tm -> int,
    strftime: Tm -> bytes,
    strptime: bytes -> Option<(Tm, bytes)>,
    strptimeT: bytes -> Option<(Tm, bytes)>)

  /** The calendar prints this second so that it can be read back, as it does for
      years of four digits. */
  ghost predicate Prints(cal: Calendar, sec: int) {
    && cal.timegm(cal.gmtime(sec)) == sec
    && NulFree(cal.strftime(cal.gmtime(sec)))
    && forall rest: bytes {:trigger cal.strftime(cal.gmtime(sec)) + rest} ::
         rest != [] && !IsDigit(rest[0]) ==>
           cal.strptime(cal.strftime(cal.gmtime(sec)) + rest) == Some((cal.gmtime(sec), rest))
  }

  function Pow10(n: nat): nat {
    if n == 0 then 1 else 10 * Pow10(n - 1)
  }

  function DigitRun(s: bytes): (n: nat)
    ensures n <= |s|
  {
    if s != [] && IsDigit(s[0]) then 1 + DigitRun(s[1..]) else 0
  }

  function Least(a: nat, b: nat): nat {
    if a < b then a else b
  }

  /** The digits behind a decimal point, as millionths; those past the sixth are
      dropped. */
  function Millionths(s: bytes): nat {
    var n := Least(DigitRun(s), 6);
    Digits(s[..n], 0) * Pow10(6 - n)
  }

  lemma {:induction false} RunIsDigits(s: bytes, k: nat)
    requires k <= |s|
    ensures k <= DigitRun(s) <==> AllDigits(s[..k])
  {
    if k > 0 {
      RunIsDigits(s[1..], k - 1);
      assert s[..k] == [s[0]] + s[1..][..k - 1];
    }
  }

  lemma Pow10Values()
    ensures Pow10(0) == 1 && Pow10(1) == 10 && Pow10(2) == 100 && Pow10(3) == 1000
    ensures Pow10(4) == 10000 && Pow10(5) == 100000 && Pow10(6) == 1000000
  {
    assert Pow10(3) == 1000;
  }

  lemma MillionthsStep(s: bytes, i: nat)
    requires i < 6 && i < DigitRun(s)
    ensures Digits(s[..i + 1], 0) * Pow10(5 - i)
         == Digits(s[..i], 0) * Pow10(6 - i) + (s[i] - '0' as int) * Pow10(5 - i)
  {
    RunIsDigits(s, i + 1);
    assert s[..i + 1][i] == s[i];
    assert forall k | 0 <= k < i :: s[..i][k] == s[..i + 1][k];
    assert s[..i + 1] == s[..i] + [s[i]];
    DigitsSnoc(s[..i], s[i], 0);
    Distributes(Digits(s[..i], 0), s[i] - '0' as int, Pow10(5 - i));
  }

  lemma Distributes(d: int, c: int, p: int)
    ensures (10 * d + c) * p == d * (10 * p) + c * p
  {
  }

  /** Reads the digits behind a decimal point. */
  method ReadFraction(s: bytes) returns (usec: nat, rest: bytes)
    ensures usec == Millionths(s) && rest == s[DigitRun(s)..]
  {
    usec := 0;
    var i, mult := 0, 100000;
    Pow10Values();
    RunIsDigits(s, 0);
    while i < |s| && IsDigit(s[i])
      invariant i <= DigitRun(s)
      invariant mult == if i < 6 then Pow10(5 - i) else 0
      invariant usec == Digits(s[..Least(i, 6)], 0) * Pow10(6 - Least(i, 6))
    {
      RunGoesOn(s, i);
      if i < 6 {
        MillionthsStep(s, i);
        usec := usec + (s[i] - '0' as int) * mult;
        mult := mult / 10;
      }
      i := i + 1;
    }
    RunEnds(s, i);
    rest := s[i..];
  }

  lemma RunGoesOn(s: bytes, i: nat)
    requires i <= DigitRun(s) && i < |s| && IsDigit(s[i])
    ensures i < DigitRun(s)
  {
    RunIsDigits(s, i);
    RunIsDigits(s, i + 1);
    assert s[..i + 1] == s[..i] + [s[i]];
  }

  lemma {:induction false} RunHolds(s: bytes, i: nat)
    requires i < DigitRun(s)
    ensures IsDigit(s[i])
  {
    if i > 0 {
      RunHolds(s[1..], i - 1);
    }
  }

  lemma RunEnds(s: bytes, i: nat)
    requires i <= DigitRun(s) && (i < |s| ==> !IsDigit(s[i]))
    ensures i == DigitRun(s)
  {
    if i < DigitRun(s) {
      RunHolds(s, i);
    }
  }

  predicate DigitAt(s: bytes, i: nat) {
    i < |s| && IsDigit(s[i])
  }

  function TwoDigits(s: bytes, i: nat): int
    requires DigitAt(s, i) && DigitAt(s, i + 1)
  {
    (s[i] - '0' as int) * 10 + (s[i + 1] - '0' as int)
  }

  /** A time zone in front of `s`: seconds east of UTC, and what follows. */
  function Offset(s: bytes): Option<(int, bytes)> {
    if s == [] then None
    else if s[0] == 'Z' as int || s[0] == 'z' as int then Some((0, s[1..]))
    else if s[0] == '+' as int || s[0] == '-' as int then
      var sign := if s[0] == '+' as int then 1 else -1;
      if !DigitAt(s, 1) || !DigitAt(s, 2) then None
      else
        var h := TwoDigits(s, 1);
        if 3 < |s| && s[3] == ':' as int then
          if !DigitAt(s, 4) || !DigitAt(s, 5) then None
          else Some((sign * (h * 3600 + TwoDigits(s, 4) * 60), s[6..]))
        else if DigitAt(s, 3) && DigitAt(s, 4) then Some((sign * (h * 3600 + TwoDigits(s, 3) * 60), s[5..]))
        else Some((sign * (h * 3600), s[3..]))
    else None
  }

  /** A date and time in text: broken-down time in UTC, and microseconds. */
  function TextDateTime(cal: Calendar, s: bytes): Option<(Tm, nat)> {
    var p := if cal.strptime(s).Some? then cal.strptime(s) else cal.strptimeT(s);
    if p.None? then None
    else
      var (tm, rest) := p.value;
      if rest != [] && rest[0] == '.' as int then
        var digits := rest[1..];
        Zoned(cal, tm, Millionths(digits), digits[DigitRun(digits)..])
      else Zoned(cal, tm, 0, rest)
  }

  /** The end of the text is nothing, or a time zone the time is taken out of. */
  function Zoned(cal: Calendar, tm: Tm, usec: nat, rest: bytes): Option<(Tm, nat)> {
    if rest == [] then Some((tm, usec))
    else
      match Offset(rest)
      case None => None
      case Some((offset, end)) =>
        if end != [] then None
        else
          var local := cal.timegm(tm);
          Some((if local != -1 then cal.gmtime(local - offset) else tm, usec))
  }

  /** A cell as the decoders see it. */
  datatype Raw = Raw(isNull: bool, binary: bool, data: bytes)

  function Int64(s: bytes): int
    requires |s| == 8
  {
    Signed32(ReadU32(s, 0)) * TWO_32 + ReadU32(s, 4)
  }

  /** The text of a cell ends at its first NUL. */
  function CText(s: bytes): bytes {
    s[..NulAt(s, 0)]
  }

  function DateTimeOf(cal: Calendar, cell: Raw): Option<(Tm, nat)> {
    if cell.isNull then None
    else if cell.binary then
      if |cell.data| != 8 then None
      else
        var v := Int64(cell.data);
        Some((cal.gmtime(v / MILLION + EPOCH_2000), v % MILLION))
    else TextDateTime(cal, CText(cell.data))
  }

  method AsTextDatetime(cal: Calendar, text: bytes) returns (r: Option<(Tm, nat)>)
    ensures r == TextDateTime(cal, text)
  {
    var end := cal.strptime(text);
    if end.None? {
      end := cal.strptimeT(text);
    }
    if end.Some? {
      var (tm, rest) := end.value;
      var usec := 0;
      if rest != [] && rest[0] == '.' as int {
        usec, rest := ReadFraction(rest[1..]);
      }
      if rest != [] {
        var zone := Offset(rest);
        if zone.Some? && zone.value.1 == [] {
          var local := cal.timegm(tm);
          if local != -1 {
            tm := cal.gmtime(local - zone.value.0);
          }
          return Some((tm, usec));
        }
      } else {
        return Some((tm, usec));
      }
    }
    return None;
  }

  method AsDatetime(cal: Calendar, cell: Raw) returns (r: Option<(Tm, nat)>)
    ensures r == DateTimeOf(cal, cell)
  {
    if cell.isNull {
      return None;
    }
    if cell.binary {
      if |cell.data| != 8 {
        return None;
      }
      var split := SplitMicros(Int64(cell.data), EPOCH_2000);
      return Some((cal.gmtime(split.sec), split.usec));
    }
    r := AsTextDatetime(cal, CText(cell.data));
  }

  /** A time point, in microseconds since 1970; nothing when an error is set. */
  function TimePointOf(cal: Calendar, cell: Raw): Option<int> {
    if cell.isNull then None
    else if cell.binary then
      if |cell.data| != 8 then None else Some(Int64(cell.data) + EPOCH_2000 * MILLION)
    else
      match DateTimeOf(cal, cell)
      case None => None
      case Some((tm, usec)) =>
        var sec := cal.timegm(tm);
        if sec == -1 then None else Some(sec * MILLION + usec)
  }

  method AsTimePoint(cal: Calendar, cell: Raw) returns (r: Option<int>)
    ensures r == TimePointOf(cal, cell)
  {
    if cell.isNull {
      return None;
    }
    if cell.binary {
      if |cell.data| != 8 {
        return None;
      }
      var v := Int64(cell.data);
      return Some(v + 946684800000000);
    }
    var dateTime := AsDatetime(cal, cell);
    if dateTime.None? {
      return None;
    }
    var sec := cal.timegm(dateTime.value.0);
    if sec == -1 {
      return None;
    }
    return Some(sec * MILLION + dateTime.value.1);
  }

  /** Both binary decoders denote the same instant. */
  lemma BinaryDecodersAgree(cal: Calendar, cell: Raw)
    requires cell.binary && DateTimeOf(cal, cell).Some?
    requires forall sec :: cal.timegm(cal.gmtime(sec)) == sec
    ensures var (tm, usec) := DateTimeOf(cal, cell).value;
            usec < MILLION && TimePointOf(cal, cell) == Some(cal.timegm(tm) * MILLION + usec)
  {
  }

  // ---- printing ----

  function Two(n: nat): bytes
    requires n < 100
  {
    ['0' as int + n / 10, '0' as int + n % 10]
  }

  function Six(n: nat): bytes
    requires n < MILLION
  {
    Two(n / 10000) + Two(n / 100 % 100) + Two(n % 100)
  }

  function TimePointText(cal: Calendar, ns: int): bytes {
    var s := SplitTimePoint(ns);
    cal.strftime(cal.gmtime(s.sec)) + ['.' as int] + Six(s.usec) + Text("+00")
  }

  method PrintTimePoint(cal: Calendar, ns: int) returns (text: bytes)
    ensures text == TimePointText(cal, ns)
  {
    var s := SplitNanos(ns);
    text := cal.strftime(cal.gmtime(s.sec));
    text := text + ['.' as int] + Six(s.usec) + Text("+00");
  }

  lemma SixIsRead(n: nat, rest: bytes)
    requires n < MILLION && (rest != [] ==> !IsDigit(rest[0]))
    ensures DigitRun(Six(n) + rest) == 6 && Millionths(Six(n) + rest) == n
  {
    var s := Six(n) + rest;
    RunIsDigits(s, 6);
    assert s[..6] == Six(n) && AllDigits(Six(n));
    RunEnds(s, 6);
    SixDigits(n);
    Pow10Values();
  }

  lemma TwoIsRead(n: nat, rest: bytes, acc: nat)
    requires n < 100
    ensures Digits(Two(n) + rest, acc) == Digits(rest, 100 * acc + n)
  {
    var s := Two(n) + rest;
    assert s[1..][1..] == rest;
    assert Digits(s, acc) == Digits(s[1..], 10 * acc + n / 10);
    assert Digits(s[1..], 10 * acc + n / 10) == Digits(rest, 10 * (10 * acc + n / 10) + n % 10);
  }

  lemma Hundreds(n: nat)
    ensures n == 100 * (100 * (n / 10000) + n / 100 % 100) + n % 100
  {
    assert n / 10000 == n / 100 / 100;
  }

  lemma SixDigits(n: nat)
    requires n < MILLION
    ensures Digits(Six(n), 0) == n
  {
    var a, b, c := n / 10000, n / 100 % 100, n % 100;
    Hundreds(n);
    assert Six(n) == Two(a) + (Two(b) + (Two(c) + []));
    TwoIsRead(a, Two(b) + (Two(c) + []), 0);
    TwoIsRead(b, Two(c) + [], a);
    TwoIsRead(c, [], 100 * a + b);
  }

  /** A zone written as hours, hours and minutes, or with a colon between them,
      is read as written. */
  lemma OffsetIsRead(negative: bool, h: nat, m: nat)
    requires h < 100 && m < 100
    ensures var sign: bytes := [if negative then '-' as int else '+' as int];
            var seconds := h * 3600 + m * 60;
            && Offset(sign + Two(h) + [':' as int] + Two(m)) == Some((if negative then -seconds else seconds, []))
            && Offset(sign + Two(h) + Two(m)) == Some((if negative then -seconds else seconds, []))
            && (m == 0 ==> Offset(sign + Two(h)) == Some((if negative then -seconds else seconds, [])))
  {
    var sign: bytes := [if negative then '-' as int else '+' as int];
    assert (sign + Two(h) + [':' as int] + Two(m))[6..] == [];
    assert (sign + Two(h) + Two(m))[5..] == [];
    assert (sign + Two(h))[3..] == [];
  }

  /** A time written with a zone is read as the same instant in UTC. */
  lemma ZonedDateTime(cal: Calendar, sec: int, usec: nat, zone: bytes, offset: int)
    requires Prints(cal, sec) && usec < MILLION
    requires zone != [] && !IsDigit(zone[0]) && Offset(zone) == Some((offset, []))
    ensures TextDateTime(cal, cal.strftime(cal.gmtime(sec)) + ['.' as int] + Six(usec) + zone)
         == Some((if sec == -1 then cal.gmtime(sec) else cal.gmtime(sec - offset), usec))
  {
    var rest := ['.' as int] + Six(usec) + zone;
    assert cal.strftime(cal.gmtime(sec)) + ['.' as int] + Six(usec) + zone == cal.strftime(cal.gmtime(sec)) + rest;
    assert rest[0] == '.' as int && rest[1..] == Six(usec) + zone;
    SixIsRead(usec, zone);
    assert (Six(usec) + zone)[6..] == zone;
  }

  /** What is printed is read back as the same broken-down time. */
  lemma PrintedDateTime(cal: Calendar, ns: int)
    requires Prints(cal, SplitTimePoint(ns).sec)
    ensures var s := SplitTimePoint(ns);
            TextDateTime(cal, TimePointText(cal, ns)) == Some((cal.gmtime(s.sec), s.usec))
  {
    var s := SplitTimePoint(ns);
    var zone := Text("+00");
    assert zone == ['+' as int] + Two(0) == ['+' as int, '0' as int, '0' as int];
    OffsetIsRead(false, 0, 0);
    ZonedDateTime(cal, s.sec, s.usec, zone, 0);
  }

  /** A time point of whole microseconds reads back exactly, unless it lies in
      the second before 1970, which the reader takes for an error. */
  lemma PrintedReadsBackIff(cal: Calendar, ns: int)
    requires ns % 1000 == 0 && Prints(cal, ns / 1000 / MILLION)
    ensures TimePointOf(cal, Raw(false, false, TimePointText(cal, ns))) == Some(ns / 1000)
            <==> !(-BILLION <= ns < 0)
  {
    TruncVersusFloor(ns, 1000);
    var s := SplitTimePoint(ns);
    var text := TimePointText(cal, ns);
    assert s == Split(ns / 1000 / MILLION, ns / 1000 % MILLION);
    PrintedDateTime(cal, ns);
    assert NulFree(text);
    NulAtNone(text, 0);
    assert text[0..] == text;
    assert text[..|text|] == text;
    assert s.sec == -1 <==> -BILLION <= ns < 0;
  }

  // ---- what a text or a binary cell says ----

  /** The calendar reads this date and time in front of anything but a digit, with
      a blank in it or, failing that, with a T. */
  ghost predicate Reads(cal: Calendar, text: bytes, tm: Tm) {
    forall rest: bytes {:trigger text + rest} ::
      rest == [] || !IsDigit(rest[0]) ==>
        || cal.strptime(text + rest) == Some((tm, rest))
        || (cal.strptime(text + rest).None? && cal.strptimeT(text + rest) == Some((tm, rest)))
  }

  function Zeros(n: nat): (s: bytes)
    ensures |s| == n && AllDigits(s)
  {
    if n == 0 then [] else Zeros(n - 1) + ['0' as int]
  }

  /** The first six digits, filled up with zeros. */
  function FirstSix(digits: bytes): (s: bytes)
    ensures |s| == 6
  {
    if |digits| >= 6 then digits[..6] else digits + Zeros(6 - |digits|)
  }

  lemma {:induction false} DigitsFilled(s: bytes, n: nat)
    requires AllDigits(s)
    ensures Digits(s + Zeros(n), 0) == Digits(s, 0) * Pow10(n)
    decreases n
  {
    if n == 0 {
      assert s + Zeros(0) == s;
    } else {
      DigitsFilled(s, n - 1);
      assert s + Zeros(n) == (s + Zeros(n - 1)) + ['0' as int];
      DigitsSnoc(s + Zeros(n - 1), '0' as int, 0);
      TenTimes(Digits(s, 0), Pow10(n - 1));
    }
  }

  lemma TenTimes(d: int, p: int)
    ensures 10 * (d * p) == d * (10 * p)
  {
  }

  lemma RunOf(digits: bytes, rest: bytes)
    requires AllDigits(digits) && (rest == [] || !IsDigit(rest[0]))
    ensures DigitRun(digits + rest) == |digits| && (digits + rest)[|digits|..] == rest
  {
    var s := digits + rest;
    assert s[..|digits|] == digits;
    RunIsDigits(s, |digits|);
    RunEnds(s, |digits|);
  }

  lemma MillionthsAre(digits: bytes, rest: bytes)
    requires AllDigits(digits) && (rest == [] || !IsDigit(rest[0]))
    ensures Millionths(digits + rest) == Digits(FirstSix(digits), 0)
  {
    var s := digits + rest;
    RunOf(digits, rest);
    if |digits| >= 6 {
      assert s[..6] == digits[..6];
      Pow10Values();
    } else {
      assert s[..|digits|] == digits;
      DigitsFilled(digits, 6 - |digits|);
    }
  }

  /** A decimal point and digits, or nothing. */
  function Fraction(digits: Option<bytes>): bytes {
    match digits
    case None => []
    case Some(ds) => ['.' as int] + ds
  }

  /** What a text says: a date and time with a blank or a T, a fraction of any length
      or none, and a zone or nothing; anything else behind them makes it no time. */
  lemma TextIsRead(cal: Calendar, text: bytes, tm: Tm, digits: Option<bytes>, zone: bytes)
    requires Reads(cal, text, tm) && (digits.Some? ==> AllDigits(digits.value))
    requires zone == [] || (!IsDigit(zone[0]) && zone[0] != '.' as int)
    ensures var usec := if digits.Some? then Digits(FirstSix(digits.value), 0) else 0;
            TextDateTime(cal, text + (Fraction(digits) + zone))
            == if zone == [] then Some((tm, usec))
               else if Offset(zone).None? || Offset(zone).value.1 != [] then None
               else
                 var utc := cal.timegm(tm) - Offset(zone).value.0;
                 Some((if cal.timegm(tm) == -1 then tm else cal.gmtime(utc), usec))
  {
    var rest := Fraction(digits) + zone;
    ReadsThis(cal, text, tm, rest);
    if digits.Some? {
      FractionIsRead(digits.value, zone);
      ZoneIsRead(cal, tm, Digits(FirstSix(digits.value), 0), zone);
    } else {
      assert rest == zone;
      ZoneIsRead(cal, tm, 0, zone);
    }
  }

  lemma ZoneIsRead(cal: Calendar, tm: Tm, usec: nat, zone: bytes)
    ensures Zoned(cal, tm, usec, zone)
         == if zone == [] then Some((tm, usec))
            else if Offset(zone).None? || Offset(zone).value.1 != [] then None
            else
              var utc := cal.timegm(tm) - Offset(zone).value.0;
              Some((if cal.timegm(tm) == -1 then tm else cal.gmtime(utc), usec))
  {
  }

  lemma ReadsThis(cal: Calendar, text: bytes, tm: Tm, rest: bytes)
    requires Reads(cal, text, tm) && (rest == [] || !IsDigit(rest[0]))
    ensures var p := if cal.strptime(text + rest).Some? then cal.strptime(text + rest) else cal.strptimeT(text + rest);
            p == Some((tm, rest))
  {
    var s := text + rest;
    assert cal.strptime(s) == Some((tm, rest)) || (cal.strptime(s).None? && cal.strptimeT(s) == Some((tm, rest)));
  }

  lemma FractionIsRead(digits: bytes, zone: bytes)
    requires AllDigits(digits) && (zone == [] || !IsDigit(zone[0]))
    ensures var rest := Fraction(Some(digits)) + zone;
            && rest != [] && rest[0] == '.' as int
            && Millionths(rest[1..]) == Digits(FirstSix(digits), 0)
            && rest[1..][DigitRun(rest[1..])..] == zone
  {
    assert (Fraction(Some(digits)) + zone)[1..] == digits + zone;
    RunOf(digits, zone);
    MillionthsAre(digits, zone);
  }

  /** A text without a date and a time in front is no time. */
  lemma NoDateNoTime(cal: Calendar, s: bytes)
    requires cal.strptime(s).None? && cal.strptimeT(s).None?
    ensures TextDateTime(cal, s) == None
  {
  }

  /** Zulu time is UTC, in either case; and what is no zone: another letter, a sign
      without two digits, a colon without two digits. */
  lemma ZonesAre(rest: bytes)
    ensures Offset(['Z' as int] + rest) == Some((0, rest)) && Offset(['z' as int] + rest) == Some((0, rest))
    ensures (rest == [] || rest[0] !in Text("Zz+-")) ==> Offset(rest) == None
    ensures rest != [] && (rest[0] == '+' as int || rest[0] == '-' as int) ==>
              && (!(DigitAt(rest, 1) && DigitAt(rest, 2)) ==> Offset(rest) == None)
              && (|rest| > 3 && rest[3] == ':' as int && !(DigitAt(rest, 4) && DigitAt(rest, 5)) ==>
                    Offset(rest) == None)
  {
    assert (['Z' as int] + rest)[1..] == rest && (['z' as int] + rest)[1..] == rest;
    var letters := Text("Zz+-");
    assert |letters| == 4 && letters[0] == 'Z' as int && letters[1] == 'z' as int;
    assert letters[2] == '+' as int && letters[3] == '-' as int;
  }

  /** A signed number of 64 bits as a server writes it. */
  function WriteI64(v: int): bytes {
    WriteU32(v / TWO_32) + WriteU32(v)
  }

  lemma Int64IsRead(v: int)
    requires -0x8000_0000_0000_0000 <= v < 0x8000_0000_0000_0000
    ensures |WriteI64(v)| == 8 && Int64(WriteI64(v)) == v
  {
    var high, low := WriteU32(v / TWO_32), WriteU32(v);
    var s := WriteI64(v);
    assert s == [] + high + low && s == high + low + [];
    ReadWriteSigned([], v / TWO_32, low);
    ReadWriteU32(high, v, []);
  }

  /** Microseconds since 2000, as a binary cell holds them, are read as the instant
      they stand for, 946684800 seconds after 1970. */
  lemma BinaryIsRead(cal: Calendar, v: int)
    requires -0x8000_0000_0000_0000 <= v < 0x8000_0000_0000_0000
    ensures var cell, micros := Raw(false, true, WriteI64(v)), v + 946684800000000;
            && TimePointOf(cal, cell) == Some(micros)
            && DateTimeOf(cal, cell) == Some((cal.gmtime(micros / 1000000), micros % 1000000))
  {
    Int64IsRead(v);
    EpochShift(v);
  }

  lemma EpochShift(v: int)
    ensures v / MILLION + EPOCH_2000 == (v + 946684800000000) / 1000000
    ensures v % MILLION == (v + 946684800000000) % 1000000
  {
  }

  /** A null cell and a binary one of another size hold no time; a text cell is read
      up to its first NUL. */
  lemma OtherCells(cal: Calendar, cell: Raw, text: bytes, junk: bytes)
    requires NulFree(text)
    ensures cell.isNull || (cell.binary && |cell.data| != 8) ==>
              DateTimeOf(cal, cell) == None && TimePointOf(cal, cell) == None
    ensures DateTimeOf(cal, Raw(false, false, text)) == TextDateTime(cal, text)
    ensures DateTimeOf(cal, Raw(false, false, text + [0] + junk)) == TextDateTime(cal, text)
  {
    NulAtNone(text, 0);
    assert text[0..] == text && text[..|text|] == text;
    var s := text + [0] + junk;
    assert s[0..|text|] == text;
    NulAtIs(s, 0, |text|);
    assert s[..|text|] == text;
  }

  /** The instant of a text is the one its broken-down time stands for, and its
      microseconds, unless that is the second that stands for an error. */
  lemma TextTimePoint(cal: Calendar, text: bytes, tm: Tm, usec: nat)
    requires NulFree(text) && TextDateTime(cal, text) == Some((tm, usec))
    ensures TimePointOf(cal, Raw(false, false, text))
         == if cal.timegm(tm) == -1 then None else Some(cal.timegm(tm) * 1000000 + usec)
  {
    OtherCells(cal, Raw(false, false, text), text, []);
  }
}
