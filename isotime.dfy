/**
 * The date-time grammar both route files hand to `datetime.fromisoformat`,
 * after replacing every `Z` with `+00:00`:
 *
 *   YYYY-MM-DD 'T' HH:MM:SS [ '.' digit+ ] [ ('+' | '-') HH:MM ]
 *
 * with the date checked against the Gregorian calendar. `Print` writes a
 * date-time back in this grammar; `ParsePrint` and `PrintParse` show that the
 * parser accepts exactly the printed strings, each with one meaning.
 */
module IsoTime {
  import opened Wrappers
  import opened Text

  /** The UTC offset of a date-time; `Local` is a naive date-time without one. */
  datatype Zone = Local | Offset(negative: bool, hours: nat, minutes: nat)

  /** The wall-clock fields, the digits of the fractional seconds ("" if none), and the zone. */
  datatype DateTime = DateTime(
    year: nat, month: nat, day: nat,
    hour: nat, minute: nat, second: nat,
    fraction: string, zone: Zone)

  const UTC: Zone := Offset(false, 0, 0)

  predicate IsLeapYear(year: nat) {
    year % 4 == 0 && (year % 100 != 0 || year % 400 == 0)
  }

  function DaysInMonth(year: nat, month: nat): (n: nat)
    requires 1 <= month <= 12
    ensures 28 <= n <= 31
    ensures n == 29 <==> month == 2 && IsLeapYear(year)
    ensures n == 28 <==> month == 2 && !IsLeapYear(year)
    ensures n == 30 <==> month == 4 || month == 6 || month == 9 || month == 11
  {
    if month == 2 then (if IsLeapYear(year) then 29 else 28)
    else if month == 4 || month == 6 || month == 9 || month == 11 then 30
    else 31
  }

  /**
   * An offset `timezone` accepts: strictly less than a day. Each field is two
   * digits, and the minutes are not bounded by 60 on their own.
   */
  predicate ValidZone(zone: Zone) {
    zone.Offset? ==> zone.minutes < 100 && zone.hours * 60 + zone.minutes < 1440
  }

  /** A date-time `datetime` can represent (years 1 to 9999, no leap second). */
  predicate Valid(dt: DateTime) {
    1 <= dt.year <= 9999 &&
    1 <= dt.month <= 12 &&
    1 <= dt.day <= DaysInMonth(dt.year, dt.month) &&
    dt.hour < 24 && dt.minute < 60 && dt.second < 60 &&
    AllDigits(dt.fraction) &&
    ValidZone(dt.zone)
  }

  /** The same wall-clock fields as UTC and without fractional seconds. */
  function WallClock(dt: DateTime): (r: DateTime)
    ensures Valid(dt) ==> Valid(r)
  {
    dt.(fraction := "", zone := UTC)
  }

  // ---------------------------------------------------------------------------
  // Printing

  /** `YYYY-MM-DDTHH:MM:SS` */
  function WallClockText(dt: DateTime): (s: string)
    ensures |s| == 19
  {
    var y, mo, d := Pad4(dt.year), Pad2(dt.month), Pad2(dt.day);
    var h, mi, s := Pad2(dt.hour), Pad2(dt.minute), Pad2(dt.second);
    [y[0], y[1], y[2], y[3], '-', mo[0], mo[1], '-', d[0], d[1], 'T',
     h[0], h[1], ':', mi[0], mi[1], ':', s[0], s[1]]
  }

  function FractionText(fraction: string): string {
    if fraction == "" then "" else "." + fraction
  }

  function ZoneText(zone: Zone): string {
    match zone
    case Local => ""
    case Offset(negative, hours, minutes) =>
      (if negative then "-" else "+") + Pad2(hours) + ":" + Pad2(minutes)
  }

  /** A date-time written in the grammar above. */
  function Print(dt: DateTime): string {
    WallClockText(dt) + FractionText(dt.fraction) + ZoneText(dt.zone)
  }

  // ---------------------------------------------------------------------------
  // Parsing

  /** The separators and digit positions of `YYYY-MM-DDTHH:MM:SS`. */
  predicate WallClockShape(w: string) {
    |w| == 19 &&
    IsDigit(w[0]) && IsDigit(w[1]) && IsDigit(w[2]) && IsDigit(w[3]) && w[4] == '-' &&
    IsDigit(w[5]) && IsDigit(w[6]) && w[7] == '-' &&
    IsDigit(w[8]) && IsDigit(w[9]) && w[10] == 'T' &&
    IsDigit(w[11]) && IsDigit(w[12]) && w[13] == ':' &&
    IsDigit(w[14]) && IsDigit(w[15]) && w[16] == ':' &&
    IsDigit(w[17]) && IsDigit(w[18])
  }

  function Field2(s: string, i: nat): nat
    requires i + 2 <= |s| && IsDigit(s[i]) && IsDigit(s[i + 1])
  {
    10 * DigitValue(s[i]) + DigitValue(s[i + 1])
  }

  function Field4(s: string, i: nat): nat
    requires i + 4 <= |s| && IsDigit(s[i]) && IsDigit(s[i + 1]) && IsDigit(s[i + 2]) && IsDigit(s[i + 3])
  {
    100 * Field2(s, i) + Field2(s, i + 2)
  }

  /** The length of the longest all-digit prefix of `s`. */
  function DigitRun(s: string): (n: nat)
    ensures n <= |s| && AllDigits(s[..n])
    ensures n < |s| ==> !IsDigit(s[n])
  {
    if s != [] && IsDigit(s[0]) then
      var n := 1 + DigitRun(s[1..]);
      assert s[..n] == [s[0]] + s[1..][..n - 1];
      n
    else
      0
  }

  function ParseZone(z: string): (r: Option<Zone>)
  {
    if z == "" then Some(Local)
    else if |z| == 6 && (z[0] == '+' || z[0] == '-') &&
            IsDigit(z[1]) && IsDigit(z[2]) && z[3] == ':' && IsDigit(z[4]) && IsDigit(z[5])
    then Some(Offset(z[0] == '-', Field2(z, 1), Field2(z, 4)))
    else None
  }

  /** The optional fraction and the optional offset after the seconds. */
  function ParseTail(s: string): (r: Option<(string, Zone)>)
  {
    if s != "" && s[0] == '.' then
      var rest := s[1..];
      var n := DigitRun(rest);
      if n == 0 then None
      else match ParseZone(rest[n..])
        case None => None
        case Some(zone) => Some((rest[..n], zone))
    else
      match ParseZone(s)
      case None => None
      case Some(zone) => Some(("", zone))
  }

  /** The restricted `datetime.fromisoformat`: `None` is a `ValueError`. */
  function ParseIso(t: string): (r: Option<DateTime>)
    ensures r.Some? ==> Valid(r.value)
  {
    if |t| < 19 || !WallClockShape(t[..19]) then None
    else
      var w := t[..19];
      match ParseTail(t[19..])
      case None => None
      case Some((fraction, zone)) =>
        var dt := FromFields(w, fraction, zone);
        if Valid(dt) then Some(dt) else None
  }

  /** The date-time whose wall-clock fields are read from `w`. */
  function FromFields(w: string, fraction: string, zone: Zone): DateTime
    requires WallClockShape(w)
  {
    DateTime(Field4(w, 0), Field2(w, 5), Field2(w, 8),
             Field2(w, 11), Field2(w, 14), Field2(w, 17), fraction, zone)
  }

  /** `datetime.fromisoformat(s.replace("Z", "+00:00"))`, shared by both route files. */
  function ParseTimestamp(s: string): (r: Option<DateTime>)
    ensures r.Some? ==> Valid(r.value)
  {
    ParseIso(ReplaceAll(s, "Z", "+00:00"))
  }

  /** A string without `Z` is handed to `fromisoformat` as it is. */
  lemma ParseTimestampWithoutZ(s: string)
    requires forall i :: 0 <= i < |s| ==> s[i] != 'Z'
    ensures ParseTimestamp(s) == ParseIso(s)
  {
    ReplaceCharAbsent(s, 'Z', "+00:00");
  }

  // ---------------------------------------------------------------------------
  // The grammar and the parser agree

  lemma WallClockTextShape(dt: DateTime)
    ensures WallClockShape(WallClockText(dt))
    ensures Field4(WallClockText(dt), 0) == dt.year % 10000
    ensures Field2(WallClockText(dt), 5) == dt.month % 100
    ensures Field2(WallClockText(dt), 8) == dt.day % 100
    ensures Field2(WallClockText(dt), 11) == dt.hour % 100
    ensures Field2(WallClockText(dt), 14) == dt.minute % 100
    ensures Field2(WallClockText(dt), 17) == dt.second % 100
  {
  }

  /** The wall-clock text is made of digits and the separators `-`, `T`, `:`. */
  lemma WallClockTextHasNoZ(dt: DateTime)
    ensures forall i :: 0 <= i < 19 ==> WallClockText(dt)[i] != 'Z'
  {
    WallClockTextShape(dt);
  }

  /** No date-time of the grammar is printed with a `Z`. */
  lemma PrintHasNoZ(dt: DateTime)
    requires Valid(dt)
    ensures forall i :: 0 <= i < |Print(dt)| ==> Print(dt)[i] != 'Z'
  {
    var w, f, z := WallClockText(dt), FractionText(dt.fraction), ZoneText(dt.zone);
    WallClockTextHasNoZ(dt);
    assert forall i :: 0 <= i < |f| ==> f[i] != 'Z';
    assert forall i :: 0 <= i < |z| ==> z[i] != 'Z';
    assert Print(dt) == w + f + z;
  }

  /** The wall clock of 2021-04-01 21:30:00, the date-time of the examples. */
  lemma ExampleWallClock()
    ensures forall fraction, zone ::
      WallClockText(DateTime(2021, 4, 1, 21, 30, 0, fraction, zone)) == "2021-04-01T21:30:00"
  {
    assert Pad4(2021) == "2021" by { assert Pad4(2021) == Pad2(20) + Pad2(2021); }
    assert Pad2(4) == "04" && Pad2(1) == "01" && Pad2(21) == "21" && Pad2(30) == "30" && Pad2(0) == "00";
  }

  lemma Pad2OfDigits(s: string, i: nat)
    requires i + 2 <= |s| && IsDigit(s[i]) && IsDigit(s[i + 1])
    ensures Pad2(Field2(s, i)) == s[i..i + 2]
  {
  }

  /** Two digits are determined by the number they spell. */
  lemma TwoDigitsUnique(r: string, t: string)
    requires |r| == 2 && AllDigits(r) && |t| == 2 && AllDigits(t)
    requires 10 * DigitValue(r[0]) + DigitValue(r[1]) == 10 * DigitValue(t[0]) + DigitValue(t[1])
    ensures r == t
  {
    var a, b, c, d := DigitValue(r[0]), DigitValue(r[1]), DigitValue(t[0]), DigitValue(t[1]);
    assert a == c && b == d;
    assert r[0] == DigitChar(a) == t[0];
    assert r[1] == DigitChar(b) == t[1];
  }

  lemma Pad2Mod(n: nat)
    ensures Pad2(n) == Pad2(n % 100)
  {
    SmallMod(n % 100, 100);
    TwoDigitsUnique(Pad2(n), Pad2(n % 100));
  }

  lemma Pad4OfDigits(s: string, i: nat)
    requires i + 4 <= |s| && IsDigit(s[i]) && IsDigit(s[i + 1]) && IsDigit(s[i + 2]) && IsDigit(s[i + 3])
    ensures Pad4(Field4(s, i)) == s[i..i + 4]
  {
    var a, b := Field2(s, i), Field2(s, i + 2);
    var n := Field4(s, i);
    assert n == 100 * a + b && b < 100;
    assert n / 100 == a;
    assert n % 100 == b;
    Pad2Mod(n);
    Pad2OfDigits(s, i);
    Pad2OfDigits(s, i + 2);
    assert Pad4(n) == Pad2(a) + Pad2(b);
  }

  /** Reading a wall-clock text and writing it again gives the same text. */
  lemma WallClockTextOfShape(w: string, fraction: string, zone: Zone)
    requires WallClockShape(w)
    ensures WallClockText(FromFields(w, fraction, zone)) == w
  {
    var dt := FromFields(w, fraction, zone);
    Pad4OfDigits(w, 0);
    Pad2OfDigits(w, 5);
    Pad2OfDigits(w, 8);
    Pad2OfDigits(w, 11);
    Pad2OfDigits(w, 14);
    Pad2OfDigits(w, 17);
    var lhs := WallClockText(dt);
    assert lhs[0] == w[0] && lhs[1] == w[1] && lhs[2] == w[2] && lhs[3] == w[3];
    assert lhs[5] == w[5] && lhs[6] == w[6] && lhs[8] == w[8] && lhs[9] == w[9];
    assert lhs[11] == w[11] && lhs[12] == w[12] && lhs[14] == w[14] && lhs[15] == w[15];
    assert lhs[17] == w[17] && lhs[18] == w[18];
    assert forall i :: 0 <= i < 19 ==> lhs[i] == w[i];
  }

  lemma ZoneRoundTrip(zone: Zone)
    requires ValidZone(zone)
    ensures ParseZone(ZoneText(zone)) == Some(zone)
  {
  }

  lemma ZoneTextOfParse(z: string)
    requires ParseZone(z).Some?
    ensures ZoneText(ParseZone(z).value) == z
  {
    if z != "" {
      Pad2OfDigits(z, 1);
      Pad2OfDigits(z, 4);
      assert ZoneText(ParseZone(z).value) == [z[0]] + z[1..3] + [':'] + z[4..6];
    }
  }

  lemma {:induction false} DigitRunOfDigits(a: string, b: string)
    requires AllDigits(a) && (b == "" || !IsDigit(b[0]))
    ensures DigitRun(a + b) == |a|
    decreases |a|
  {
    if a == "" {
      assert a + b == b;
    } else {
      assert (a + b)[1..] == a[1..] + b;
      DigitRunOfDigits(a[1..], b);
    }
  }

  lemma TailRoundTrip(fraction: string, zone: Zone)
    requires AllDigits(fraction) && ValidZone(zone)
    ensures ParseTail(FractionText(fraction) + ZoneText(zone)) == Some((fraction, zone))
  {
    var zt := ZoneText(zone);
    ZoneRoundTrip(zone);
    if fraction == "" {
      assert FractionText(fraction) + zt == zt;
    } else {
      var s := FractionText(fraction) + zt;
      assert s[1..] == fraction + zt;
      DigitRunOfDigits(fraction, zt);
      assert (fraction + zt)[..|fraction|] == fraction;
      assert (fraction + zt)[|fraction|..] == zt;
    }
  }

  lemma TailTextOfParse(s: string)
    requires ParseTail(s).Some?
    ensures FractionText(ParseTail(s).value.0) + ZoneText(ParseTail(s).value.1) == s
  {
    if s != "" && s[0] == '.' {
      var rest := s[1..];
      var n := DigitRun(rest);
      ZoneTextOfParse(rest[n..]);
      assert s == "." + rest[..n] + rest[n..];
    } else {
      ZoneTextOfParse(s);
    }
  }

  /** A well-shaped wall clock followed by a well-formed tail is read field by field. */
  lemma ParseIsoOf(w: string, tail: string)
    requires WallClockShape(w) && ParseTail(tail).Some?
    ensures var dt := FromFields(w, ParseTail(tail).value.0, ParseTail(tail).value.1);
      ParseIso(w + tail) == if Valid(dt) then Some(dt) else None
  {
    assert (w + tail)[..19] == w;
    assert (w + tail)[19..] == tail;
  }

  lemma FromFieldsOfWallClockText(dt: DateTime)
    requires Valid(dt)
    ensures WallClockShape(WallClockText(dt))
    ensures FromFields(WallClockText(dt), dt.fraction, dt.zone) == dt
  {
    var w := WallClockText(dt);
    WallClockTextShape(dt);
    SmallMod(dt.year, 10000);
    SmallMod(dt.month, 100);
    SmallMod(dt.day, 100);
    SmallMod(dt.hour, 100);
    SmallMod(dt.minute, 100);
    SmallMod(dt.second, 100);
    assert Field4(w, 0) == dt.year;
    assert Field2(w, 5) == dt.month;
    assert Field2(w, 8) == dt.day;
    assert Field2(w, 11) == dt.hour;
    assert Field2(w, 14) == dt.minute;
    assert Field2(w, 17) == dt.second;
  }

  /** Every date-time of the grammar is read back as itself. */
  lemma PrintParse(dt: DateTime)
    requires Valid(dt)
    ensures ParseIso(Print(dt)) == Some(dt)
  {
    var w := WallClockText(dt);
    var tail := FractionText(dt.fraction) + ZoneText(dt.zone);
    assert Print(dt) == w + tail;
    FromFieldsOfWallClockText(dt);
    TailRoundTrip(dt.fraction, dt.zone);
    ParseIsoOf(w, tail);
  }

  /** Whatever the parser accepts is exactly the printed form of its result. */
  lemma ParsePrint(t: string)
    requires ParseIso(t).Some?
    ensures Print(ParseIso(t).value) == t
  {
    var dt := ParseIso(t).value;
    var w := t[..19];
    WallClockTextOfShape(w, dt.fraction, dt.zone);
    TailTextOfParse(t[19..]);
    assert t == w + t[19..];
  }
}
