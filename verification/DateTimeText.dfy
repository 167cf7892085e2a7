/** The dateTime text of the generated classes: `gds_format_datetime` and `gds_parse_datetime` in the template of
  art/generateDS/generateDS.py. */
module DateTimeText {
  import opened Helpers
  import opened Decimal

  /** A date-time; `zone` is the offset from UTC in minutes. */
  datatype DateTime = DateTime(year: nat, month: nat, day: nat, hour: nat, minute: nat, second: nat, micro: nat, zone: Option<int>)

  predicate IsLeap(year: nat) { year % 4 == 0 && (year % 100 != 0 || year % 400 == 0) }

  function DaysIn(year: nat, month: nat): nat {
    if month == 2 then (if IsLeap(year) then 29 else 28)
    else if month in {4, 6, 9, 11} then 30
    else 31
  }

  /** Every fourth year is a leap year, but of the hundredth ones only every fourth. */
  lemma LeapYears(k: nat, r: nat)
    requires r < 4
    ensures IsLeap(4 * k + r) <==> r == 0 && (k % 25 != 0 || k % 100 == 0)
  {
    assert (4 * k + r) % 4 == r;
    if r == 0 {
      assert (4 * k) % 100 == 4 * (k % 25);
      assert (4 * k) % 400 == 4 * (k % 100);
    }
  }

  lemma MonthLengths(year: nat)
    ensures seq(12, m requires 0 <= m < 12 => DaysIn(year, m + 1)) == [31, if IsLeap(year) then 29 else 28, 31, 30, 31, 30, 31, 31, 30, 31, 30, 31]
  {
  }

  predicate ValidDate(year: nat, month: nat, day: nat) {
    1 <= year <= 9999 && 1 <= month <= 12 && 1 <= day <= DaysIn(year, month)
  }

  predicate ValidTime(hour: nat, minute: nat, second: nat) { hour < 24 && minute < 60 && second < 60 }

  /** What `datetime` accepts: offsets are less than a day. */
  predicate Valid(v: DateTime) {
    && ValidDate(v.year, v.month, v.day) && ValidTime(v.hour, v.minute, v.second) && v.micro < 1000000
    && (v.zone.Some? ==> -1440 < v.zone.value < 1440)
  }

  // ---------- Formatting ----------

  function DateText(v: DateTime): string { Pad(v.year, 4) + "-" + Pad(v.month, 2) + "-" + Pad(v.day, 2) }

  function TimeText(v: DateTime): string { Pad(v.hour, 2) + ":" + Pad(v.minute, 2) + ":" + Pad(v.second, 2) }

  function FractionText(v: DateTime): string { if v.micro == 0 then "" else "." + Pad(v.micro, 6) }

  function ZoneText(zone: Option<int>): string {
    if zone.None? then ""
    else
      var totalSeconds := zone.value * 60;
      if totalSeconds == 0 then "Z"
      else
        var size := if totalSeconds < 0 then -totalSeconds else totalSeconds;
        var hours := size / 3600;
        var minutes := (size - hours * 3600) / 60;
        (if totalSeconds < 0 then "-" else "+") + Pad(hours, 2) + ":" + Pad(minutes, 2)
  }

  function Format(v: DateTime): string { DateText(v) + "T" + TimeText(v) + FractionText(v) + ZoneText(v.zone) }

  // ---------- Parsing ----------

  function Number(s: string): Option<nat> { if s != "" && AllDigits(s) then Some(Value(s)) else None }

  datatype Triple = Triple(a: nat, b: nat, c: nat)

  /** Three numbers of the given widths with a separator between them. */
  function ParseTriple(s: string, w: nat, sep: char): Option<Triple> {
    if |s| != w + 6 || s[w] != sep || s[w + 3] != sep then None
    else
      var a, b, c := Number(s[..w]), Number(s[w + 1..w + 3]), Number(s[w + 4..]);
      if a.Some? && b.Some? && c.Some? then Some(Triple(a.value, b.value, c.value)) else None
  }

  /** The fraction of a second: one to six digits. */
  function ParseFraction(s: string): Option<nat> {
    if |s| <= 6 && Number(s).Some? then Some(Number(s).value * Pow10(6 - |s|)) else None
  }

  /** The microseconds of a text whose date and time take the first 19 places: "%f" is used when there is a dot. */
  function ParseMicro(s: string): Option<nat>
    requires |s| >= 19
  {
    if '.' !in s then (if |s| == 19 then Some(0) else None)
    else if |s| > 19 && s[19] == '.' then ParseFraction(s[20..])
    else None
  }

  /** `strptime` without and with "%f". */
  function ParseLocal(s: string, zone: Option<int>): Option<DateTime> {
    if |s| < 19 || s[10] != 'T' then None
    else
      var date, time, micro := ParseTriple(s[..10], 4, '-'), ParseTriple(s[11..19], 2, ':'), ParseMicro(s);
      if date.None? || time.None? || micro.None? then None
      else if !ValidDate(date.value.a, date.value.b, date.value.c) || !ValidTime(time.value.a, time.value.b, time.value.c) then None
      else Some(DateTime(date.value.a, date.value.b, date.value.c, time.value.a, time.value.b, time.value.c, micro.value, zone))
  }

  /** `tzoff_pattern`: a sign, then an hour up to 13 with minutes, or 14:00. */
  predicate IsOffset(t: string) {
    && |t| == 6 && (t[0] == '+' || t[0] == '-') && t[3] == ':'
    && IsDigit(t[1]) && IsDigit(t[2]) && IsDigit(t[4]) && IsDigit(t[5])
    && (((t[1] == '0' || (t[1] == '1' && t[2] <= '3')) && t[4] <= '5') || t[1..] == "14:00")
  }

  function OffsetOf(t: string): int
    requires IsOffset(t)
  {
    var tzoff := Value(t[1..3]) * 60 + Value(t[4..]);
    if t[0] == '-' then -tzoff else tzoff
  }

  /** The empty text fails in the source too, with an IndexError. */
  function Parse(s: string): Option<DateTime> {
    if s == "" then None
    else if s[|s| - 1] == 'Z' then ParseLocal(s[..|s| - 1], Some(0))
    else if |s| >= 6 && IsOffset(s[|s| - 6..]) then ParseLocal(s[..|s| - 6], Some(OffsetOf(s[|s| - 6..])))
    else ParseLocal(s, None)
  }

  // ---------- Round trip ----------

  lemma NumberOfPad(n: nat, w: nat)
    requires n < Pow10(w) && w > 0
    ensures Number(Pad(n, w)) == Some(n)
  {
    ValueOfPad(n, w);
  }

  lemma Powers()
    ensures Pow10(2) == 100 && Pow10(4) == 10000 && Pow10(6) == 1000000 && Pow10(0) == 1
  {
    assert Pow10(1) == 10;
    assert Pow10(3) == 10 * Pow10(2);
    assert Pow10(5) == 10 * Pow10(4);
  }

  /** Three parts with a separator between them, cut apart again. */
  lemma Cuts(x: string, y: string, z: string, sep: char)
    requires |y| == 2 && |z| == 2
    ensures var s, w := x + [sep] + y + [sep] + z, |x|;
            && |s| == w + 6 && s[w] == sep && s[w + 3] == sep
            && s[..w] == x && s[w + 1..w + 3] == y && s[w + 4..] == z
  {
    var s := x + [sep] + y + [sep] + z;
    assert s == x + ([sep] + y + [sep] + z);
    assert s == (x + [sep]) + (y + [sep] + z);
    assert s == (x + [sep] + y + [sep]) + z;
  }

  lemma TripleOfText(a: nat, b: nat, c: nat, w: nat, sep: char)
    requires a < Pow10(w) && w > 0 && b < 100 && c < 100
    ensures ParseTriple(Pad(a, w) + [sep] + Pad(b, 2) + [sep] + Pad(c, 2), w, sep) == Some(Triple(a, b, c))
  {
    Powers();
    NumberOfPad(a, w);
    NumberOfPad(b, 2);
    NumberOfPad(c, 2);
    Cuts(Pad(a, w), Pad(b, 2), Pad(c, 2), sep);
  }

  function LocalText(v: DateTime): string { DateText(v) + "T" + TimeText(v) + FractionText(v) }

  lemma Places(date: string, time: string, rest: string)
    requires |date| == 10 && |time| == 8
    ensures var s := date + "T" + time + rest;
            |s| >= 19 && s[10] == 'T' && s[..10] == date && s[11..19] == time && s[19..] == rest
  {
    var s := date + "T" + time + rest;
    assert s == date + ("T" + time + rest);
    assert s == (date + "T") + (time + rest);
    assert s == (date + "T" + time) + rest;
  }

  lemma TextHasNoDot(v: DateTime)
    ensures '.' !in DateText(v) + "T" + TimeText(v)
  {
    assert forall c :: c in Pad(v.year, 4) ==> IsDigit(c);
    assert forall c :: c in Pad(v.month, 2) ==> IsDigit(c);
    assert forall c :: c in Pad(v.day, 2) ==> IsDigit(c);
    assert '.' !in DateText(v);
    assert forall c :: c in Pad(v.hour, 2) ==> IsDigit(c);
    assert forall c :: c in Pad(v.minute, 2) ==> IsDigit(c);
    assert forall c :: c in Pad(v.second, 2) ==> IsDigit(c);
    assert '.' !in TimeText(v);
  }

  lemma {:induction false} ValueAppend(s: string, c: char)
    requires AllDigits(s) && IsDigit(c)
    ensures AllDigits(s + [c]) && Value(s + [c]) == 10 * Value(s) + DigitValue(c)
  {
    assert (s + [c])[..|s|] == s;
  }

  /** The fraction is one of a second: zeros at its end do not matter, and six digits are the microseconds. */
  lemma FractionExactly(s: string)
    ensures ParseFraction(s).Some? <==> 1 <= |s| <= 6 && AllDigits(s)
    ensures |s| == 6 && AllDigits(s) ==> ParseFraction(s) == Some(Value(s))
    ensures 1 <= |s| < 6 ==> ParseFraction(s + "0") == ParseFraction(s)
  {
    Powers();
    if 1 <= |s| < 6 {
      ZeroAtTheEnd(s, 5 - |s|);
    }
  }

  lemma ZeroAtTheEnd(s: string, n: nat)
    requires |s| + n == 5 && s != ""
    ensures ParseFraction(s + "0") == ParseFraction(s)
  {
    var t := s + "0";
    assert t[|s|] == '0' && forall i :: 0 <= i < |s| ==> t[i] == s[i];
    assert AllDigits(t) <==> AllDigits(s);
    if AllDigits(s) {
      ValueAppend(s, '0');
      var v, p := Value(s), Pow10(n);
      assert Pow10(n + 1) == 10 * p && (10 * v) * p == v * (10 * p);
    }
  }

  /** Text that follows the seconds is read back as microseconds, or not at all. */
  lemma MicroOfText(s: string, rest: string)
    requires |s| == 19 && '.' !in s
    ensures rest == "" ==> ParseMicro(s + rest) == Some(0)
    ensures rest != "" && rest[0] == '.' ==> ParseMicro(s + rest) == ParseFraction(rest[1..])
    ensures rest != "" && rest[0] != '.' ==> ParseMicro(s + rest) == None
  {
    if rest == "" {
      assert s + rest == s;
    } else {
      assert (s + rest)[19] == rest[0];
      assert (s + rest)[20..] == rest[1..];
    }
  }

  /** `strptime` on the local part followed by anything reads the date and the time, and leaves the rest to the fraction. */
  lemma LocalReads(v: DateTime, rest: string)
    requires Valid(v)
    ensures var s := DateText(v) + "T" + TimeText(v) + rest;
            && |s| >= 19
            && ParseLocal(s, v.zone) == match ParseMicro(s) { case None => None case Some(m) => Some(v.(micro := m)) }
  {
    Powers();
    TripleOfText(v.year, v.month, v.day, 4, '-');
    TripleOfText(v.hour, v.minute, v.second, 2, ':');
    Places(DateText(v), TimeText(v), rest);
  }

  lemma LocalRoundTrip(v: DateTime)
    requires Valid(v)
    ensures ParseLocal(LocalText(v), v.zone) == Some(v)
  {
    TextHasNoDot(v);
    MicroOfText(DateText(v) + "T" + TimeText(v), FractionText(v));
    LocalReads(v, FractionText(v));
    if v.micro != 0 {
      Powers();
      NumberOfPad(v.micro, 6);
      assert FractionText(v)[1..] == Pad(v.micro, 6);
    }
  }

  /** An offset the pattern does not admit makes `strptime` fail. */
  lemma StrayOffsetFails(v: DateTime, zone: Option<int>, offset: string)
    requires Valid(v) && offset != "" && (offset[0] == '+' || offset[0] == '-')
    ensures ParseLocal(LocalText(v) + offset, zone) == None
  {
    var rest := FractionText(v) + offset;
    assert LocalText(v) + offset == DateText(v) + "T" + TimeText(v) + rest;
    TextHasNoDot(v);
    MicroOfText(DateText(v) + "T" + TimeText(v), rest);
    LocalReads(v.(zone := None), rest);
    if v.micro != 0 {
      assert rest[1..][6] == offset[0];
    }
  }

  // ---------- Zones ----------

  function Abs(n: int): nat { if n < 0 then -n else n }

  lemma PadTwo(n: nat)
    requires n < 100
    ensures Pad(n, 2) == [DigitChar(n / 10), DigitChar(n % 10)]
  {
    assert Pad(n / 10, 1) == Pad(n / 100, 0) + [DigitChar(n / 10 % 10)];
  }

  lemma HoursAndMinutes(n: nat)
    ensures n * 60 / 3600 == n / 60 && (n * 60 - n / 60 * 3600) / 60 == n % 60
  {
  }

  lemma ZoneTextOf(zone: int)
    requires zone != 0 && -1440 < zone < 1440
    ensures ZoneText(Some(zone)) == [if zone < 0 then '-' else '+'] + Pad(Abs(zone) / 60, 2) + ":" + Pad(Abs(zone) % 60, 2)
  {
    var size := Abs(zone) * 60;
    HoursAndMinutes(Abs(zone));
    assert size / 3600 == Abs(zone) / 60 && (size - size / 3600 * 3600) / 60 == Abs(zone) % 60;
  }

  /** The pattern admits exactly the offsets up to 14 hours. */
  lemma OffsetPattern(sign: char, hours: nat, minutes: nat)
    requires (sign == '+' || sign == '-') && hours < 24 && minutes < 60
    ensures var t := [sign, DigitChar(hours / 10), DigitChar(hours % 10), ':', DigitChar(minutes / 10), DigitChar(minutes % 10)];
            IsOffset(t) <==> hours * 60 + minutes <= 840
  {
    var t := [sign, DigitChar(hours / 10), DigitChar(hours % 10), ':', DigitChar(minutes / 10), DigitChar(minutes % 10)];
    assert t[4] <= '5' && (t[1] == '0' <==> hours < 10) && (t[1] == '1' <==> 10 <= hours < 20);
    assert t[1] == '1' ==> (t[2] <= '3' <==> hours <= 13);
    assert t[1..] == "14:00" <==> t[1] == '1' && t[2] == '4' && t[4] == '0' && t[5] == '0';
  }

  /** The value of two digits, without unfolding `Pad`. */
  lemma ValueOfTwo(n: nat)
    requires n < 100
    ensures AllDigits([DigitChar(n / 10), DigitChar(n % 10)]) && Value([DigitChar(n / 10), DigitChar(n % 10)]) == n
  {
    PadTwo(n);
    Powers();
    ValueOfPad(n, 2);
  }

  /** The sign, the digits and the value, apart from what the pattern says. */
  lemma DigitsOfOffset(zone: int)
    requires zone != 0 && -1440 < zone < 1440
    ensures var hours, minutes := Abs(zone) / 60, Abs(zone) % 60;
            var t := ZoneText(Some(zone));
            && hours < 24 && minutes < 60 && Abs(zone) == hours * 60 + minutes
            && t == [if zone < 0 then '-' else '+', DigitChar(hours / 10), DigitChar(hours % 10), ':',
                     DigitChar(minutes / 10), DigitChar(minutes % 10)]
  {
    ZoneTextOf(zone);
    PadTwo(Abs(zone) / 60);
    PadTwo(Abs(zone) % 60);
  }

  lemma ValueOfOffset(sign: char, hours: nat, minutes: nat)
    requires (sign == '+' || sign == '-') && hours < 24 && minutes < 60
    ensures var t := [sign, DigitChar(hours / 10), DigitChar(hours % 10), ':', DigitChar(minutes / 10), DigitChar(minutes % 10)];
            IsOffset(t) ==> OffsetOf(t) == (if sign == '-' then -(hours * 60 + minutes) else hours * 60 + minutes)
  {
    var t := [sign, DigitChar(hours / 10), DigitChar(hours % 10), ':', DigitChar(minutes / 10), DigitChar(minutes % 10)];
    ValueOfTwo(hours);
    ValueOfTwo(minutes);
    assert t[1..3] == [DigitChar(hours / 10), DigitChar(hours % 10)] && t[4..] == [DigitChar(minutes / 10), DigitChar(minutes % 10)];
  }

  lemma TextOfOffset(zone: int)
    requires zone != 0 && -1440 < zone < 1440
    ensures var t := ZoneText(Some(zone));
            && |t| == 6 && t[0] == (if zone < 0 then '-' else '+') && t[5] != 'Z'
            && (IsOffset(t) <==> -840 <= zone <= 840)
            && (IsOffset(t) ==> OffsetOf(t) == zone)
  {
    var hours, minutes := Abs(zone) / 60, Abs(zone) % 60;
    var sign := if zone < 0 then '-' else '+';
    DigitsOfOffset(zone);
    OffsetPattern(sign, hours, minutes);
    ValueOfOffset(sign, hours, minutes);
  }

  /** The local text ends neither in `Z` nor in something that reads as an offset. */
  lemma LocalTextHasNoZone(v: DateTime)
    ensures var s := LocalText(v);
            |s| >= 19 && s[|s| - 1] != 'Z' && !IsOffset(s[|s| - 6..])
  {
    var s := LocalText(v);
    if v.micro == 0 {
      assert s == (DateText(v) + "T" + Pad(v.hour, 2)) + (":" + Pad(v.minute, 2) + ":" + Pad(v.second, 2));
      assert s[|s| - 6..] == ":" + Pad(v.minute, 2) + ":" + Pad(v.second, 2);
      assert s[|s| - 1] == Pad(v.second, 2)[1];
    } else {
      assert s == (DateText(v) + "T" + TimeText(v) + ".") + Pad(v.micro, 6);
      assert s[|s| - 6..] == Pad(v.micro, 6);
      assert s[|s| - 1] == Pad(v.micro, 6)[5];
    }
  }

  lemma TriplePlaces(a: nat, b: nat, c: nat, w: nat, sep: char)
    requires a < Pow10(w) && b < 100 && c < 100
    ensures var s := Pad(a, w) + [sep] + Pad(b, 2) + [sep] + Pad(c, 2);
            && |s| == w + 6 && s[w] == sep && s[w + 3] == sep
            && AllDigits(s[..w]) && Value(s[..w]) == a
            && AllDigits(s[w + 1..w + 3]) && Value(s[w + 1..w + 3]) == b
            && AllDigits(s[w + 4..]) && Value(s[w + 4..]) == c
  {
    Powers();
    ValueOfPad(a, w);
    ValueOfPad(b, 2);
    ValueOfPad(c, 2);
    Cuts(Pad(a, w), Pad(b, 2), Pad(c, 2), sep);
  }

  /** Which digits of the text say what: the lexical form YYYY-MM-DDThh:mm:ss of XML Schema Part 2, section 3.2.7. */
  lemma FormatPlaces(v: DateTime)
    requires Valid(v)
    ensures var s := Format(v);
            && |s| >= 19 && s[10] == 'T'
            && var date, time := s[..10], s[11..19];
            && date[4] == '-' && date[7] == '-' && time[2] == ':' && time[5] == ':'
            && AllDigits(date[..4]) && Value(date[..4]) == v.year
            && AllDigits(date[5..7]) && Value(date[5..7]) == v.month
            && AllDigits(date[8..]) && Value(date[8..]) == v.day
            && AllDigits(time[..2]) && Value(time[..2]) == v.hour
            && AllDigits(time[3..5]) && Value(time[3..5]) == v.minute
            && AllDigits(time[6..]) && Value(time[6..]) == v.second
  {
    var rest := FractionText(v) + ZoneText(v.zone);
    assert Format(v) == DateText(v) + "T" + TimeText(v) + rest;
    Places(DateText(v), TimeText(v), rest);
    Powers();
    TriplePlaces(v.year, v.month, v.day, 4, '-');
    TriplePlaces(v.hour, v.minute, v.second, 2, ':');
  }

  /** The same for what follows the seconds: the microseconds, only when they are not zero, and the zone. */
  lemma TailPlaces(v: DateTime)
    requires Valid(v)
    ensures var s := Format(v);
            && |s| >= 19
            && (v.micro == 0 ==> s[19..] == ZoneText(v.zone))
            && (v.micro != 0 ==> |s| >= 26 && s[19] == '.' && AllDigits(s[20..26]) && Value(s[20..26]) == v.micro && s[26..] == ZoneText(v.zone))
  {
    var rest := FractionText(v) + ZoneText(v.zone);
    assert Format(v) == DateText(v) + "T" + TimeText(v) + rest;
    Places(DateText(v), TimeText(v), rest);
    if v.micro != 0 {
      Powers();
      ValueOfPad(v.micro, 6);
      CutsTail(Format(v), rest, Pad(v.micro, 6), ZoneText(v.zone));
    } else {
      assert rest == ZoneText(v.zone);
    }
  }

  lemma CutsTail(s: string, rest: string, micro: string, zone: string)
    requires |s| >= 19 && s[19..] == rest && rest == "." + micro + zone && |micro| == 6
    ensures |s| >= 26 && s[19] == '.' && s[20..26] == micro && s[26..] == zone
  {
    assert |rest| == |s| - 19 && rest[0] == s[19];
    assert rest[1..7] == micro && rest[7..] == zone;
    assert s[20..26] == rest[1..7] && s[26..] == rest[7..];
  }

  /** The zone: nothing, `Z`, or a sign with the hours and the minutes of the offset. */
  lemma ZonePlaces(zone: int)
    requires -1440 < zone < 1440
    ensures ZoneText(None) == "" && ZoneText(Some(0)) == "Z"
    ensures zone != 0 ==>
      var t := ZoneText(Some(zone));
      && |t| == 6 && t[0] == (if zone < 0 then '-' else '+') && t[3] == ':'
      && AllDigits(t[1..3]) && Value(t[1..3]) == Abs(zone) / 60 && AllDigits(t[4..]) && Value(t[4..]) == Abs(zone) % 60
  {
    if zone != 0 {
      ZoneTextOf(zone);
      Powers();
      ValueOfPad(Abs(zone) / 60, 2);
      ValueOfPad(Abs(zone) % 60, 2);
      CutsZone(if zone < 0 then '-' else '+', Pad(Abs(zone) / 60, 2), Pad(Abs(zone) % 60, 2));
    }
  }

  lemma CutsZone(sign: char, hours: string, minutes: string)
    requires |hours| == 2 && |minutes| == 2
    ensures var t := [sign] + hours + ":" + minutes;
            |t| == 6 && t[0] == sign && t[3] == ':' && t[1..3] == hours && t[4..] == minutes
  {
    var t := [sign] + hours + ":" + minutes;
    assert t[1..3] == hours && t[4..] == minutes;
  }

  /** `gds_parse_datetime` of a local text with a zone text behind it. */
  lemma ParseSplits(s: string, t: string)
    requires |s| >= 19 && s[|s| - 1] != 'Z' && !IsOffset(s[|s| - 6..])
    ensures t == "" ==> Parse(s + t) == ParseLocal(s, None)
    ensures t == "Z" ==> Parse(s + t) == ParseLocal(s, Some(0))
    ensures |t| == 6 && IsOffset(t) ==> Parse(s + t) == ParseLocal(s, Some(OffsetOf(t)))
    ensures |t| == 6 && t[5] != 'Z' && !IsOffset(t) ==> Parse(s + t) == ParseLocal(s + t, None)
  {
    assert (s + t)[..|s|] == s && (s + t)[|s|..] == t;
    if t == "" {
      assert s + t == s;
    }
  }

  /** A zone that the pattern admits is read back; any other makes the parse fail. */
  lemma OffsetRoundTrip(v: DateTime, s: string, zone: int)
    requires Valid(v) && zone != 0 && v.zone == Some(zone) && s == LocalText(v)
    ensures Parse(s + ZoneText(Some(zone))) == (if -840 <= zone <= 840 then Some(v) else None)
  {
    var t := ZoneText(Some(zone));
    LocalTextHasNoZone(v);
    TextOfOffset(zone);
    ParseSplits(s, t);
    if IsOffset(t) {
      LocalRoundTrip(v);
    } else {
      StrayOffsetFails(v, None, t);
    }
  }

  /** The round trip: a value is read back from its own text exactly when it has no zone or one within 14 hours of UTC. */
  lemma RoundTrip(v: DateTime)
    requires Valid(v)
    ensures Parse(Format(v)) == (if v.zone.None? || -840 <= v.zone.value <= 840 then Some(v) else None)
  {
    var s := LocalText(v);
    if v.zone.Some? && v.zone.value != 0 {
      OffsetRoundTrip(v, s, v.zone.value);
    } else {
      LocalTextHasNoZone(v);
      LocalRoundTrip(v);
      ParseSplits(s, ZoneText(v.zone));
    }
  }

  // ---------- What else is read ----------

  /** A text that `strptime` reads has the date and the time at their places, and then nothing or a fraction. */
  lemma LocalOnlyReads(s: string, zone: Option<int>) returns (fraction: string)
    requires ParseLocal(s, zone).Some?
    ensures var v := ParseLocal(s, zone).value;
            Valid(v.(zone := None)) && v.zone == zone && |s| >= 19 && AtPlaces(s[..19], v) && s[19..] == fraction && IsFraction(fraction, v.micro)
  {
    fraction := s[19..];
    assert s[..19][..10] == s[..10] && s[..19][11..] == s[11..19];
    if '.' in s {
      FractionExactly(s[20..]);
      assert fraction == "." + s[20..];
      Powers();
      FractionSmall(s[20..]);
    }
  }

  /** Year, month, day, hour, minute and second in the form YYYY-MM-DDThh:mm:ss. */
  ghost predicate AtPlaces(t: string, v: DateTime) {
    && |t| == 19 && t[10] == 'T'
    && var date, time := t[..10], t[11..];
    && date[4] == '-' && date[7] == '-' && time[2] == ':' && time[5] == ':'
    && AllDigits(date[..4]) && Value(date[..4]) == v.year
    && AllDigits(date[5..7]) && Value(date[5..7]) == v.month
    && AllDigits(date[8..]) && Value(date[8..]) == v.day
    && AllDigits(time[..2]) && Value(time[..2]) == v.hour
    && AllDigits(time[3..5]) && Value(time[3..5]) == v.minute
    && AllDigits(time[6..]) && Value(time[6..]) == v.second
  }

  /** Nothing, or a dot with one to six digits; `micro` is the value in millionths. */
  ghost predicate IsFraction(t: string, micro: nat) {
    if t == "" then micro == 0
    else t[0] == '.' && 2 <= |t| <= 7 && AllDigits(t[1..]) && micro * Pow10(|t| - 1) == Value(t[1..]) * 1000000
  }

  lemma {:induction false} ValueBelow(s: string)
    requires AllDigits(s)
    ensures Value(s) < Pow10(|s|)
    decreases |s|
  {
    if s != "" {
      ValueBelow(s[..|s| - 1]);
    }
  }

  lemma {:induction false} Pow10Add(a: nat, b: nat)
    ensures Pow10(a + b) == Pow10(a) * Pow10(b)
    decreases a
  {
    if a > 0 {
      Pow10Add(a - 1, b);
    }
  }

  lemma FractionSmall(s: string)
    requires ParseFraction(s).Some?
    ensures 1 <= |s| <= 6 && AllDigits(s) && ParseFraction(s).value < 1000000
    ensures ParseFraction(s).value * Pow10(|s|) == Value(s) * 1000000
  {
    FractionExactly(s);
    ValueBelow(s);
    Powers();
    Pow10Add(6 - |s|, |s|);
    var n, p, q := Value(s), Pow10(6 - |s|), Pow10(|s|);
    assert p * q == 1000000;
    Scaled(n, p, q);
  }

  lemma Scaled(n: nat, p: nat, q: nat)
    requires n < q && p > 0
    ensures n * p < p * q && n * p * q == n * (p * q)
  {
  }

  /** The zone: none, `Z`, or a sign with hours and minutes. */
  ghost predicate IsZone(t: string, zone: Option<int>) {
    if t == "" then zone == None
    else if t == "Z" then zone == Some(0)
    else
      && |t| == 6 && (t[0] == '+' || t[0] == '-') && t[3] == ':' && AllDigits(t[1..3]) && AllDigits(t[4..])
      && var size := Value(t[1..3]) * 60 + Value(t[4..]);
         Value(t[4..]) < 60 && size <= 840 && zone == Some(if t[0] == '-' then -size else size)
  }

  /** The text has `v` at its places. */
  ghost predicate ReadsAs(s: string, v: DateTime, fraction: string, zone: string) {
    |s| >= 19 && AtPlaces(s[..19], v) && s[19..] == fraction + zone && IsFraction(fraction, v.micro) && IsZone(zone, v.zone)
  }

  lemma Behind(local: string, v: DateTime, fraction: string, zone: string)
    requires |local| >= 19 && AtPlaces(local[..19], v) == true && local[19..] == fraction
    requires IsFraction(fraction, v.micro) == true && IsZone(zone, v.zone) == true
    ensures ReadsAs(local + zone, v, fraction, zone) == true
  {
    assert (local + zone)[..19] == local[..19] && (local + zone)[19..] == local[19..] + zone;
  }

  /** The other way round: whatever is read is a valid date-time, written in the text at its places. */
  lemma ParseOnlyReads(s: string) returns (fraction: string, zone: string)
    requires Parse(s).Some?
    ensures Valid(Parse(s).value) && ReadsAs(s, Parse(s).value, fraction, zone)
  {
    var local;
    if s[|s| - 1] == 'Z' {
      local, zone := s[..|s| - 1], "Z";
      fraction := LocalOnlyReads(local, Some(0));
    } else if |s| >= 6 && IsOffset(s[|s| - 6..]) {
      local, zone := s[..|s| - 6], s[|s| - 6..];
      fraction := LocalOnlyReads(local, Some(OffsetOf(zone)));
      OffsetIsZone(zone);
    } else {
      local, zone := s, "";
      fraction := LocalOnlyReads(s, None);
    }
    assert s == local + zone;
    Behind(local, Parse(s).value, fraction, zone);
  }

  lemma OffsetIsZone(t: string)
    requires IsOffset(t)
    ensures IsZone(t, Some(OffsetOf(t))) && -840 <= OffsetOf(t) <= 840
  {
    var h, m := t[1..3], t[4..];
    assert h == [t[1], t[2]] && m == [t[4], t[5]];
    TwoDigits(t[1], t[2]);
    TwoDigits(t[4], t[5]);
    assert t[1..] == "14:00" ==> t[1] == '1' && t[2] == '4' && t[4] == '0' && t[5] == '0';
  }

  lemma TwoDigits(a: char, b: char)
    requires IsDigit(a) && IsDigit(b)
    ensures AllDigits([a, b]) && Value([a, b]) == 10 * DigitValue(a) + DigitValue(b)
  {
    assert [a, b][..1] == [a] && [a][..0] == [];
    assert Value([a]) == DigitValue(a);
  }

  lemma NumberOf(t: string)
    requires t != "" && AllDigits(t)
    ensures Number(t) == Some(Value(t))
  {
  }

  lemma TriplesOf(t: string, v: DateTime)
    requires AtPlaces(t, v)
    ensures ParseTriple(t[..10], 4, '-') == Some(Triple(v.year, v.month, v.day))
    ensures ParseTriple(t[11..], 2, ':') == Some(Triple(v.hour, v.minute, v.second))
  {
    var date, time := t[..10], t[11..];
    NumberOf(date[..4]);
    NumberOf(date[5..7]);
    NumberOf(date[8..]);
    NumberOf(time[..2]);
    NumberOf(time[3..5]);
    NumberOf(time[6..]);
  }

  lemma PlaceChars(t: string, v: DateTime)
    requires AtPlaces(t, v)
    ensures forall i :: 0 <= i < 19 ==> IsDigit(t[i]) || (t[i] == '-' && i < 10) || t[i] == ':' || t[i] == 'T'
  {
    var date, time := t[..10], t[11..];
    assert forall i :: 0 <= i < 10 ==> t[i] == date[i];
    assert forall i :: 11 <= i < 19 ==> t[i] == time[i - 11];
    assert forall i :: 0 <= i < 4 ==> IsDigit(date[..4][i]);
    assert forall i :: 5 <= i < 7 ==> date[i] == date[5..7][i - 5];
    assert forall i :: 8 <= i < 10 ==> date[i] == date[8..][i - 8];
    assert forall i :: 0 <= i < 2 ==> IsDigit(time[..2][i]);
    assert forall i :: 3 <= i < 5 ==> time[i] == time[3..5][i - 3];
    assert forall i :: 6 <= i < 8 ==> time[i] == time[6..][i - 6];
  }

  lemma MicroIs(micro: nat, other: nat, q: nat, n: nat)
    requires q > 0 && micro * q == n && other * q == n
    ensures micro == other
  {
    assert (micro - other) * q == micro * q - other * q == 0;
  }

  lemma {:induction false} Pow10Positive(n: nat)
    ensures Pow10(n) > 0
  {
    if n > 0 {
      Pow10Positive(n - 1);
    }
  }

  lemma FractionReads(fraction: string, micro: nat)
    requires IsFraction(fraction, micro) && fraction != ""
    ensures ParseFraction(fraction[1..]) == Some(micro)
  {
    var digits := fraction[1..];
    FractionExactly(digits);
    FractionSmall(digits);
    Pow10Positive(|digits|);
    MicroIs(micro, ParseFraction(digits).value, Pow10(|digits|), Value(digits) * 1000000);
  }

  lemma PlacesRead(t: string, v: DateTime, fraction: string, zone: Option<int>)
    requires Valid(v) && AtPlaces(t, v) == true && IsFraction(fraction, v.micro) == true
    ensures |t| == 19 && ParseLocal(t + fraction, zone) == Some(v.(zone := zone))
  {
    var s := t + fraction;
    PlaceChars(t, v);
    TriplesOf(t, v);
    assert s[..10] == t[..10] && s[11..19] == t[11..] && s[10] == t[10];
    MicroOfText(t, fraction);
    if fraction != "" {
      FractionReads(fraction, v.micro);
    }
  }

  lemma NoZoneAtEnd(t: string, v: DateTime, fraction: string)
    requires AtPlaces(t, v) && IsFraction(fraction, v.micro)
    ensures var s := t + fraction; |s| >= 19 && s[|s| - 1] != 'Z' && !IsOffset(s[|s| - 6..])
  {
    var s := t + fraction;
    PlaceChars(t, v);
    var i := |s| - 6;
    assert s[i..][0] == s[i];
    assert t[11..][6..][1] == t[18];
    if i < 19 {
      assert s[i] == t[i];
    } else {
      assert s[i] == fraction[i - 19];
      assert i > 19 ==> fraction[i - 19] == fraction[1..][i - 20];
    }
    if fraction != "" {
      assert fraction[|fraction| - 1] == fraction[1..][|fraction| - 2];
    }
  }

  lemma ZoneIsOffset(t: string, zone: int)
    requires IsZone(t, Some(zone)) && t != "Z"
    ensures IsOffset(t) && OffsetOf(t) == zone
  {
    var h, m := t[1..3], t[4..];
    assert h == [t[1], t[2]] && m == [t[4], t[5]];
    assert IsDigit(h[0]) && IsDigit(h[1]) && IsDigit(m[0]) && IsDigit(m[1]);
    TwoDigits(t[1], t[2]);
    TwoDigits(t[4], t[5]);
    assert t[1] == '1' && t[2] == '4' && t[4] == '0' && t[5] == '0' ==> t[1..] == "14:00";
  }

  lemma ParseReads(s: string, v: DateTime, fraction: string, zone: string)
    requires Valid(v) && ReadsAs(s, v, fraction, zone)
    ensures Parse(s) == Some(v)
  {
    var t := s[..19];
    var local := t + fraction;
    assert s == local + zone;
    NoZoneAtEnd(t, v, fraction);
    if zone != "" && zone != "Z" {
      ZoneIsOffset(zone, v.zone.value);
    }
    ParseSplits(local, zone);
    PlacesRead(t, v, fraction, v.zone);
  }

  /** Which texts are read, and as what: exactly those that have a valid date-time at their places, with a fraction and a zone
    of the forms above behind it. */
  lemma ParseExactly(s: string, v: DateTime)
    ensures Parse(s) == Some(v) <==> Valid(v) && exists fraction, zone :: ReadsAs(s, v, fraction, zone)
  {
    if Parse(s) == Some(v) {
      var fraction, zone := ParseOnlyReads(s);
    }
    if Valid(v) {
      if fraction, zone :| ReadsAs(s, v, fraction, zone) {
        ParseReads(s, v, fraction, zone);
      }
    }
  }
}
