/**
 * `rfc822` and `to_rfc822` of the older package (listparser/dates.py).
 * `rfc822` reads the date-time syntax of section 5 of RFC 822 and
 * converts it to a naive UTC `datetime` by subtracting the zone offset;
 * `to_rfc822` writes a `datetime` in that syntax with English names.
 * Day/month swapping and time parsing are the same code as in the newer
 * parser and are shared with it.
 */
module DatesLegacy {
  import opened Text
  import Calendar
  import DatesSrc

  /** The `day_names` set. */
  const DayNames: set<string> := {"mon", "tue", "wed", "thu", "fri", "sat", "sun"}

  /** The `timezone_names` table: offsets in whole hours. */
  const TimezoneNames: map<string, int> := map[
    "ut" := 0, "gmt" := 0, "z" := 0,
    "adt" := -3, "ast" := -4, "at" := -4, "edt" := -4, "est" := -5, "et" := -5,
    "cdt" := -5, "cst" := -6, "ct" := -6, "mdt" := -6, "mst" := -7, "mt" := -7,
    "pdt" := -7, "pst" := -8, "pt" := -8,
    "a" := -1, "n" := 1, "m" := -12, "y" := 12]

  /** `rfc822_month_names` and `rfc822_day_names`. */
  const MonthNamesOut: seq<string> :=
    ["Jan", "Feb", "Mar", "Apr", "May", "Jun", "Jul", "Aug", "Sep", "Oct", "Nov", "Dec"]
  const DayNamesOut: seq<string> := ["Mon", "Tue", "Wed", "Thu", "Fri", "Sat", "Sun"]

  /** The largest number of days a `timedelta` may hold. */
  const MaxDeltaDays := 999999999

  /** What a call of `rfc822` does: return a value, or let an OverflowError escape. */
  datatype Outcome = Returned(value: Option<Calendar.DateTime>) | RaisedOverflow

  /** Fewer than five tokens get "00:00:00" and "0000" appended. */
  function PadTokens(parts: seq<string>): (r: seq<string>)
    ensures |r| >= 2 && |r| >= |parts| && r[..|parts|] == parts
  {
    if |parts| < 5 then parts + ["00:00:00", "0000"] else parts
  }

  /** A first token starting with a day name is dropped. */
  function DropDayName(parts: seq<string>): (r: seq<string>)
    requires |parts| >= 1
    ensures r == parts || r == parts[1..]
  {
    if Take(parts[0], 3) in DayNames then parts[1..] else parts
  }

  /** A year written with at most two characters is moved into 1990..2089. */
  function ShortYear(token: string, year: int): (r: int)
    ensures |token| <= 2 && 0 <= year < 100 ==> 1990 <= r <= 2089 && r % 100 == year
    ensures |token| > 2 ==> r == year
  {
    if |token| <= 2 then year + (if year < 90 then 2000 else 1900) else year
  }

  /** The zone token after "etc/" is removed and a "gmt" prefix loses its colons. */
  function ZoneText(zone: string): string
  {
    var a := if StartsWith(zone, "etc/") then zone[4..] else zone;
    if StartsWith(a, "gmt") then (var r := Remove(a[3..], ':'); if r == [] then "gmt" else r) else a
  }

  /**
   * Hours and minutes of the zone: "+hh..." and "-hh..." take the hours
   * from characters 1-2 and the minutes from the rest, both negated for
   * '-'; any other text is a name, and an unknown name means zero.
   */
  function ZoneParts(zone: string): Option<(int, int)>
  {
    ZoneOfText(ZoneText(zone))
  }

  function ZoneOfText(z: string): Option<(int, int)>
  {
    if z != [] && (z[0] == '+' || z[0] == '-') then
      match (ParseInt(Take(z[1..], 2)), ParseInt(Drop(z, 3)))
      case (Some(h), Some(m)) => Some(if z[0] == '-' then (-h, -m) else (h, m))
      case _ => None
    else
      Some((if z in TimezoneNames then TimezoneNames[z] else 0, 0))
  }

  /**
   * The longest digit string `int()` converts under CPython's default limit
   * (from 3.11 on); a longer one raises ValueError.
   */
  const MaxIntDigits := 4300

  predicate WithinIntLimit(digits: string)
  {
    |digits| <= MaxIntDigits
  }

  /**
   * `timedelta(minutes=m)` can be built: its day count `m // 1440` stays
   * within the `timedelta` range (written here without the division).
   */
  predicate DeltaFits(minutes: int)
  {
    -MaxDeltaDays * Calendar.MinutesPerDay <= minutes < (MaxDeltaDays + 1) * Calendar.MinutesPerDay
  }

  /** The bounds above are those of the floor division by a day's minutes. */
  lemma DeltaFitsDays(minutes: int)
    ensures DeltaFits(minutes) <==> -MaxDeltaDays <= minutes / Calendar.MinutesPerDay <= MaxDeltaDays
  {
    var q, r := minutes / Calendar.MinutesPerDay, minutes % Calendar.MinutesPerDay;
    assert minutes == q * Calendar.MinutesPerDay + r && 0 <= r < Calendar.MinutesPerDay;
  }

  /** The tokens `rfc822` reads, after padding and dropping a day name. */
  function Parts(date: string): seq<string>
  {
    DropDayName(PadTokens(Words(Lower(date))))
  }

  /** The wall-clock fields of the first four tokens, not yet range-checked. */
  function Stamp(parts: seq<string>): Option<Calendar.DateTime>
    requires |parts| >= 4
  {
    match (DatesSrc.DayMonth(parts[0], parts[1]), ParseInt(parts[2]), DatesSrc.ParseTime(parts[3]))
    case (Some((day, month)), Some(year), Some((h, mi, s))) =>
      Some(Calendar.DateTime(ShortYear(parts[2], year), month, day, h, mi, s))
    case _ => None
  }

  /** `rfc822` on at least five tokens, as written: the `timedelta` is built outside the `try`. */
  function ReadParts(parts: seq<string>): (r: Outcome)
    requires |parts| >= 5
    ensures r.Returned? && r.value.Some? ==> Calendar.Valid(r.value.value)
  {
    Shift(Stamp(parts), ZoneParts(parts[4]))
  }

  /** A value that fits the C `int` CPython's `datetime` constructor converts each field to. */
  predicate FitsCInt(x: int)
  {
    -0x8000_0000 <= x < 0x8000_0000
  }

  predicate FieldsFitCInt(t: Calendar.DateTime)
  {
    FitsCInt(t.year) && FitsCInt(t.month) && FitsCInt(t.day) &&
    FitsCInt(t.hour) && FitsCInt(t.minute) && FitsCInt(t.second)
  }

  /**
   * The wall clock moved back by the zone offset, once both have been read.
   * Building the `datetime` raises OverflowError for a field beyond a C
   * `int` and ValueError (caught) for one out of range; building the
   * `timedelta` raises OverflowError beyond its range.
   */
  function Shift(stamp: Option<Calendar.DateTime>, zone: Option<(int, int)>): (r: Outcome)
    ensures r.Returned? && r.value.Some? ==> Calendar.Valid(r.value.value)
  {
    if stamp.None? || zone.None? then Returned(None)
    else if !Calendar.Valid(stamp.value) then
      // valid fields always fit a C `int`, so only an invalid stamp can overflow
      if FieldsFitCInt(stamp.value) then Returned(None) else RaisedOverflow
    else
      var offset := zone.value.0 * 60 + zone.value.1;
      if !DeltaFits(offset) then RaisedOverflow
      else Returned(Calendar.SubtractMinutes(stamp.value, offset))
  }

  /** `rfc822(date)` as written: a naive UTC `datetime`, None, or an escaping OverflowError. */
  function Rfc822AsWritten(date: string): (r: Outcome)
    ensures r.Returned? && r.value.Some? ==> Calendar.Valid(r.value.value)
    ensures |Parts(date)| < 5 ==> r == Returned(None)
  {
    var parts := Parts(date);
    if |parts| < 5 then Returned(None) else ReadParts(parts)
  }

  /** `rfc822(date)` as evidently intended: a field too large for a C `int` or an offset too large for a `timedelta` gives None like every other failure. */
  function Rfc822(date: string): (r: Option<Calendar.DateTime>)
    ensures r.Some? ==> Calendar.Valid(r.value)
    ensures Rfc822AsWritten(date).Returned? ==> r == Rfc822AsWritten(date).value
    ensures Rfc822AsWritten(date).RaisedOverflow? ==> r.None?
  {
    match Rfc822AsWritten(date)
    case Returned(v) => v
    case RaisedOverflow => None
  }

  /** The six space-separated fields of `'{day}, {d:02} {month} {y:04} {h:02}:{m:02}:{s:02} GMT'`. */
  function Fields(day: string, dd: string, month: string, yyyy: string, clock: string): seq<string>
  {
    [day + ",", dd, month, yyyy, clock, "GMT"]
  }

  function Clock(h: nat, mi: nat, s: nat): string
  {
    ZeroPad(h, 2) + ":" + ZeroPad(mi, 2) + ":" + ZeroPad(s, 2)
  }

  /** `to_rfc822(date)`: always 29 characters, "Ddd, DD Mon YYYY HH:MM:SS GMT". */
  function ToRfc822(d: Calendar.DateTime): (r: string)
    requires Calendar.Valid(d)
    ensures |r| == 29
  {
    var day := DayNamesOut[Calendar.Weekday(d.year, d.month, d.day)];
    var month := MonthNamesOut[d.month - 1];
    ZeroPadWidth(d.day, 2);
    ZeroPadWidth(d.year, 4);
    ZeroPadWidth(d.hour, 2);
    ZeroPadWidth(d.minute, 2);
    ZeroPadWidth(d.second, 2);
    FieldWidths(day, ZeroPad(d.day, 2), month, ZeroPad(d.year, 4), Clock(d.hour, d.minute, d.second));
    Unwords(Fields(day, ZeroPad(d.day, 2), month, ZeroPad(d.year, 4), Clock(d.hour, d.minute, d.second)))
  }

  lemma FieldWidths(day: string, dd: string, month: string, yyyy: string, clock: string)
    requires |day| == 3 && |dd| == 2 && |month| == 3 && |yyyy| == 4 && |clock| == 8
    ensures |Unwords(Fields(day, dd, month, yyyy, clock))| == 29
  {
    var f := Fields(day, dd, month, yyyy, clock);
    assert |Unwords(f[5..])| == 3;
    assert f[4..][1..] == f[5..];
    assert |Unwords(f[4..])| == 12;
    assert f[3..][1..] == f[4..];
    assert |Unwords(f[3..])| == 17;
    assert f[2..][1..] == f[3..];
    assert |Unwords(f[2..])| == 21;
    assert f[1..][1..] == f[2..];
    assert |Unwords(f[1..])| == 24;
  }

  // ---------------------------------------------------------------------
  // reading `to_rfc822` output back

  predicate Letters(s: string)
  {
    forall i :: 0 <= i < |s| ==> 'A' <= s[i] <= 'Z' || 'a' <= s[i] <= 'z'
  }

  predicate ClockChars(s: string)
  {
    forall i :: 0 <= i < |s| ==> IsDigit(s[i]) || s[i] == ':'
  }

  lemma DayNameRead(w: int)
    requires 0 <= w < 7
    ensures |DayNamesOut[w]| == 3 && Letters(DayNamesOut[w])
    ensures Lower(DayNamesOut[w]) in DayNames
  {
    var n := DayNamesOut[w];
    var l := Lower(n) + ",";
    assert l[..3] == [LowerChar(n[0]), n[1], n[2]];
  }

  lemma MonthNameRead(m: int)
    requires 1 <= m <= 12
    ensures |MonthNamesOut[m - 1]| == 3 && Letters(MonthNamesOut[m - 1])
    ensures DatesSrc.MonthOf(Lower(MonthNamesOut[m - 1])) == Some(m)
  {
    var n := MonthNamesOut[m - 1];
    assert Lower(n) == [LowerChar(n[0]), n[1], n[2]];
  }

  lemma ClockRead(h: nat, mi: nat, s: nat)
    requires h < 24 && mi < 60 && s < 60
    ensures |Clock(h, mi, s)| == 8 && ClockChars(Clock(h, mi, s))
    ensures DatesSrc.ParseTime(Clock(h, mi, s)) == Some((h as int, mi as int, s as int))
  {
    ZeroPadWidth(h, 2);
    ZeroPadWidth(mi, 2);
    ZeroPadWidth(s, 2);
    ParseDigits(ZeroPad(h, 2));
    ParseDigits(ZeroPad(mi, 2));
    ParseDigits(ZeroPad(s, 2));
    DatesSrc.TimeFields(ZeroPad(h, 2), ZeroPad(mi, 2), ZeroPad(s, 2));
  }

  /** The fields as `rfc822` sees them after lowercasing. */
  function LowerFields(day: string, dd: string, month: string, yyyy: string, clock: string): seq<string>
  {
    [Lower(day) + ",", dd, Lower(month), yyyy, clock, "gmt"]
  }

  lemma LowerOfFields(day: string, dd: string, month: string, yyyy: string, clock: string)
    requires day != [] && Letters(day) && month != [] && Letters(month)
    requires dd != [] && AllDigits(dd) && yyyy != [] && AllDigits(yyyy) && clock != [] && ClockChars(clock)
    ensures LowerAll(Fields(day, dd, month, yyyy, clock)) == LowerFields(day, dd, month, yyyy, clock)
    ensures forall i :: 0 <= i < 6 ==> IsWord(LowerFields(day, dd, month, yyyy, clock)[i])
    ensures forall i :: 1 <= i < 6 ==> ',' !in Fields(day, dd, month, yyyy, clock)[i]
  {
    LowerAppend(day, ",");
    LowerOfLower(dd);
    LowerOfLower(yyyy);
    LowerOfLower(clock);
    assert Lower("GMT") == "gmt";
    assert Lower(",") == ",";
  }

  /** Text laid out like `to_rfc822` output splits into its lowercased fields. */
  lemma TokensOfFields(day: string, dd: string, month: string, yyyy: string, clock: string)
    requires day != [] && Letters(day) && month != [] && Letters(month)
    requires dd != [] && AllDigits(dd) && yyyy != [] && AllDigits(yyyy) && clock != [] && ClockChars(clock)
    ensures Words(Lower(Unwords(Fields(day, dd, month, yyyy, clock)))) == LowerFields(day, dd, month, yyyy, clock)
  {
    LowerUnwords(Fields(day, dd, month, yyyy, clock));
    LowerOfFields(day, dd, month, yyyy, clock);
    WordsUnwords(LowerFields(day, dd, month, yyyy, clock));
  }

  /** The five tokens after the day name read back as `d` at offset zero. */
  lemma ReadsBack(d: Calendar.DateTime, dd: string, month: string, yyyy: string, clock: string)
    requires Calendar.Valid(d)
    requires ParseInt(dd) == Some(d.day) && DatesSrc.MonthOf(month) == Some(d.month)
    requires ParseInt(yyyy) == Some(d.year) && |yyyy| == 4
    requires DatesSrc.ParseTime(clock) == Some((d.hour, d.minute, d.second))
    ensures ReadParts([dd, month, yyyy, clock, "gmt"]) == Returned(Some(d))
  {
    assert ZoneParts("gmt") == Some((0, 0)) by {
      assert ZoneText("gmt") == "gmt";
    }
    Calendar.SubtractZero(d);
  }

  /** Text laid out like `to_rfc822` output leaves five tokens once its day name is dropped. */
  lemma PartsOfFields(day: string, dd: string, month: string, yyyy: string, clock: string)
    requires |day| == 3 && Letters(day) && month != [] && Letters(month)
    requires Lower(day) in DayNames
    requires dd != [] && AllDigits(dd) && yyyy != [] && AllDigits(yyyy) && clock != [] && ClockChars(clock)
    ensures Parts(Unwords(Fields(day, dd, month, yyyy, clock))) == [dd, Lower(month), yyyy, clock, "gmt"]
  {
    TokensOfFields(day, dd, month, yyyy, clock);
    var g := LowerFields(day, dd, month, yyyy, clock);
    assert Take(g[0], 3) == Lower(day);
    assert PadTokens(g) == g;
  }

  /** `rfc822(to_rfc822(d)) == d` for every `datetime` d (both as written and as intended). */
  lemma RoundTrip(d: Calendar.DateTime)
    requires Calendar.Valid(d)
    ensures Rfc822AsWritten(ToRfc822(d)) == Returned(Some(d))
    ensures Rfc822(ToRfc822(d)) == Some(d)
  {
    var w := Calendar.Weekday(d.year, d.month, d.day);
    var day, month := DayNamesOut[w], MonthNamesOut[d.month - 1];
    var dd, yyyy, clock := ZeroPad(d.day, 2), ZeroPad(d.year, 4), Clock(d.hour, d.minute, d.second);
    DayNameRead(w);
    MonthNameRead(d.month);
    ClockRead(d.hour, d.minute, d.second);
    ZeroPadWidth(d.year, 4);
    ParseDigits(dd);
    ParseDigits(yyyy);
    assert ToRfc822(d) == Unwords(Fields(day, dd, month, yyyy, clock));
    PartsOfFields(day, dd, month, yyyy, clock);
    ReadsBack(d, dd, Lower(month), yyyy, clock);
  }

  /** After the last comma, text laid out like `to_rfc822` output is its last five fields. */
  lemma TokensAfterComma(day: string, dd: string, month: string, yyyy: string, clock: string)
    requires day != [] && Letters(day) && month != [] && Letters(month)
    requires dd != [] && AllDigits(dd) && yyyy != [] && AllDigits(yyyy) && clock != [] && ClockChars(clock)
    ensures DatesSrc.Tokens(Unwords(Fields(day, dd, month, yyyy, clock))) == LowerFields(day, dd, month, yyyy, clock)[1..]
  {
    var f := Fields(day, dd, month, yyyy, clock);
    var g := LowerFields(day, dd, month, yyyy, clock);
    LowerOfFields(day, dd, month, yyyy, clock);
    var rest := Unwords(f[1..]);
    AfterDayName(day, f[1..]);
    LowerAfterComma(f[1..], g[1..]);
    WordsAtSpace(" " + Unwords(g[1..]));
    assert (" " + Unwords(g[1..]))[1..] == Unwords(g[1..]);
    WordsUnwords(g[1..]);
  }

  lemma AfterDayName(day: string, tail: seq<string>)
    requires |tail| >= 1
    requires forall i :: 0 <= i < |tail| ==> ',' !in tail[i]
    ensures AfterLast(Unwords([day + ","] + tail), ',') == " " + Unwords(tail)
  {
    var ws := [day + ","] + tail;
    assert ws[1..] == tail;
    assert Unwords(ws) == day + [','] + (" " + Unwords(tail));
    UnwordsExcludes(tail, ',');
    AfterLastAppend(day, ',', " " + Unwords(tail));
  }

  lemma LowerAfterComma(tail: seq<string>, lowered: seq<string>)
    requires LowerAll(tail) == lowered
    ensures Lower(" " + Unwords(tail)) == " " + Unwords(lowered)
  {
    LowerAppend(" ", Unwords(tail));
    LowerUnwords(tail);
  }

  /**
   * The newer parser reads `to_rfc822` output as the same wall clock at
   * offset zero, except that a year below 100 (written "00yy") is moved
   * into 1990..2089.
   */
  lemma NewParserReadsFormatted(d: Calendar.DateTime)
    requires Calendar.Valid(d)
    ensures DatesSrc.ParseRfc822(ToRfc822(d)) ==
      Some(DatesSrc.Zoned(d.(year := DatesSrc.NormalizeYear(d.year)), 0))
    ensures d.year >= 100 ==> DatesSrc.ParseRfc822(ToRfc822(d)) == Some(DatesSrc.Zoned(d, 0))
  {
    var w := Calendar.Weekday(d.year, d.month, d.day);
    var day, month := DayNamesOut[w], MonthNamesOut[d.month - 1];
    var dd, yyyy, clock := ZeroPad(d.day, 2), ZeroPad(d.year, 4), Clock(d.hour, d.minute, d.second);
    DayNameRead(w);
    MonthNameRead(d.month);
    ClockRead(d.hour, d.minute, d.second);
    ParseDigits(dd);
    ParseDigits(yyyy);
    assert ToRfc822(d) == Unwords(Fields(day, dd, month, yyyy, clock));
    TokensAfterComma(day, dd, month, yyyy, clock);
    var p := [dd, Lower(month), yyyy, clock, "gmt"];
    assert LowerFields(day, dd, month, yyyy, clock)[1..] == p;
    NewParserReadsBack(d, dd, Lower(month), yyyy, clock);
  }

  lemma NewParserReadsBack(d: Calendar.DateTime, dd: string, month: string, yyyy: string, clock: string)
    requires Calendar.Valid(d)
    requires ParseInt(dd) == Some(d.day) && DatesSrc.MonthOf(month) == Some(d.month)
    requires ParseInt(yyyy) == Some(d.year)
    requires DatesSrc.ParseTime(clock) == Some((d.hour, d.minute, d.second))
    ensures DatesSrc.ParseParts([dd, month, yyyy, clock, "gmt"]) ==
      Some(DatesSrc.Zoned(d.(year := DatesSrc.NormalizeYear(d.year)), 0))
  {
    DatesSrc.GmtIsZero();
    NormalizedYearValid(d);
  }

  lemma NormalizedYearValid(d: Calendar.DateTime)
    requires Calendar.Valid(d)
    ensures Calendar.Valid(d.(year := DatesSrc.NormalizeYear(d.year)))
  {
    var y := d.year;
    var n := DatesSrc.NormalizeYear(y);
    if y < 100 {
      assert n % 4 == y % 4 && n % 100 == y % 100 && n % 100 != 0;
      assert Calendar.IsLeap(n) == Calendar.IsLeap(y);
    }
  }

  /** A date given as three tokens, without a day name, reads at midnight UTC. */
  lemma DateOnly(date: string)
    requires |Words(Lower(date))| == 3 && Take(Words(Lower(date))[0], 3) !in DayNames
    ensures Parts(date) == Words(Lower(date)) + ["00:00:00", "0000"]
    ensures Rfc822(date).Some? ==>
      var t := Rfc822(date).value;
      t.hour == 0 && t.minute == 0 && t.second == 0
  {
    var parts := Words(Lower(date)) + ["00:00:00", "0000"];
    assert Parts(date) == parts;
    assert parts[3] == "00:00:00" && parts[4] == "0000";
    var stamp := Stamp(parts);
    assert Rfc822AsWritten(date) == Shift(stamp, Some((0, 0))) by {
      PaddedZone();
      assert ReadParts(parts) == Shift(stamp, Some((0, 0)));
    }
    if stamp.Some? && Calendar.Valid(stamp.value) {
      var t := stamp.value;
      assert t.hour == 0 && t.minute == 0 && t.second == 0 by {
        MidnightStamp(parts);
      }
      assert Shift(stamp, Some((0, 0))) == Returned(Some(t)) by {
        Calendar.SubtractZero(t);
        ShiftWith(t, 0, 0);
      }
    }
  }

  /** The padding zone "0000" is UTC. */
  lemma PaddedZone()
    ensures ZoneParts("0000") == Some((0, 0))
  {
    assert !StartsWith("0000", "etc/") && !StartsWith("0000", "gmt") by {
      assert "0000"[..4][0] == '0' && "0000"[..3][0] == '0';
    }
    assert "0000" !in TimezoneNames;
    UnknownZoneIsUtc("0000");
  }

  /** The padding time "00:00:00" is midnight. */
  lemma MidnightStamp(parts: seq<string>)
    requires |parts| >= 4 && parts[3] == "00:00:00" && Stamp(parts).Some?
    ensures Stamp(parts).value.hour == 0 && Stamp(parts).value.minute == 0 && Stamp(parts).value.second == 0
  {
    DatesSrc.Midnight();
  }

  // ---------------------------------------------------------------------
  // zones

  lemma GmtZone()
    ensures ZoneParts("gmt") == Some((0, 0))
  {
    assert ZoneText("gmt") == "gmt";
  }

  lemma SignedZoneText(z: string)
    requires |z| >= 4 && (z[0] == '+' || z[0] == '-')
    ensures ZoneText(z) == z
  {
    assert z[..4] != "etc/" && z[..3] != "gmt" by {
      assert z[..4][0] == z[0] && z[..3][0] == z[0];
    }
  }

  lemma ZonePartsOfSigned(z: string, h: int, m: int)
    requires ZoneText(z) == z && z != [] && (z[0] == '+' || z[0] == '-')
    requires ParseInt(Take(z[1..], 2)) == Some(h) && ParseInt(Drop(z, 3)) == Some(m)
    ensures ZoneParts(z) == Some(if z[0] == '-' then (-h, -m) else (h, m))
  {
  }

  lemma SignedSlices(sign: char, hh: string, mm: string)
    requires |hh| == 2 && mm != []
    ensures |[sign] + hh + mm| >= 4 && ([sign] + hh + mm)[0] == sign
    ensures Take(([sign] + hh + mm)[1..], 2) == hh && Drop([sign] + hh + mm, 3) == mm
  {
    var z := [sign] + hh + mm;
    assert z[1..] == hh + mm;
    assert (hh + mm)[..2] == hh;
    assert z[3..] == mm;
  }

  /** "+hh<digits>" and "-hh<digits>" read as hours and minutes, both negated for '-'. */
  lemma SignedZone(sign: char, hh: string, mm: string)
    requires sign == '+' || sign == '-'
    requires |hh| == 2 && AllDigits(hh) && mm != [] && AllDigits(mm)
    ensures ZoneParts([sign] + hh + mm) == Some(
      if sign == '-' then (-(DigitsValue(hh) as int), -(DigitsValue(mm) as int))
      else (DigitsValue(hh) as int, DigitsValue(mm) as int))
  {
    var z := [sign] + hh + mm;
    SignedSlices(sign, hh, mm);
    SignedZoneText(z);
    ParseDigits(hh);
    ParseDigits(mm);
    ZonePartsOfSigned(z, DigitsValue(hh), DigitsValue(mm));
  }

  /** A zone that is neither signed, prefixed nor in the table means UTC. */
  lemma UnknownZoneIsUtc(z: string)
    requires !StartsWith(z, "etc/") && !StartsWith(z, "gmt")
    requires z == [] || (z[0] != '+' && z[0] != '-')
    requires z !in TimezoneNames
    ensures ZoneParts(z) == Some((0, 0))
  {
  }

  /** "etc/" in front of a zone that is not itself "etc/"-prefixed changes nothing. */
  lemma EtcPrefix(z: string)
    requires !StartsWith(z, "etc/")
    ensures ZoneParts("etc/" + z) == ZoneParts(z)
  {
    var e := "etc/" + z;
    assert e[..4] == "etc/" && e[4..] == z;
    assert ZoneText(e) == ZoneText(z);
  }

  lemma ReadPartsWith(parts: seq<string>, stamp: Calendar.DateTime, zh: int, zm: int)
    requires |parts| == 5 && Stamp(parts) == Some(stamp) && ZoneParts(parts[4]) == Some((zh, zm))
    requires Calendar.Valid(stamp) && DeltaFits(zh * 60 + zm)
    ensures ReadParts(parts) == Returned(Calendar.SubtractMinutes(stamp, zh * 60 + zm))
  {
    assert ReadParts(parts) == Shift(Some(stamp), Some((zh, zm)));
    ShiftWith(stamp, zh, zm);
  }

  lemma ShiftWith(stamp: Calendar.DateTime, zh: int, zm: int)
    requires Calendar.Valid(stamp) && DeltaFits(zh * 60 + zm)
    ensures Shift(Some(stamp), Some((zh, zm))) == Returned(Calendar.SubtractMinutes(stamp, zh * 60 + zm))
  {
  }

  lemma StampIgnoresZone(parts: seq<string>, z: string)
    requires |parts| == 5
    ensures Stamp(parts[4 := z]) == Stamp(parts)
  {
    var p := parts[4 := z];
    assert p[0] == parts[0] && p[1] == parts[1] && p[2] == parts[2] && p[3] == parts[3];
  }

  /**
   * The result is the wall clock minus the zone offset: with "gmt" the
   * tokens read as their wall clock, with zone `z` as that wall clock
   * shifted back by `z`'s minutes.
   */
  lemma ZoneShift(parts: seq<string>, z: string, stamp: Calendar.DateTime, zh: int, zm: int)
    requires |parts| == 5 && Stamp(parts) == Some(stamp) && Calendar.Valid(stamp)
    requires ZoneParts(z) == Some((zh, zm)) && DeltaFits(zh * 60 + zm)
    ensures ReadParts(parts[4 := "gmt"]) == Returned(Some(stamp))
    ensures ReadParts(parts[4 := z]) == Returned(Calendar.SubtractMinutes(stamp, zh * 60 + zm))
  {
    GmtZone();
    StampIgnoresZone(parts, "gmt");
    StampIgnoresZone(parts, z);
    Calendar.SubtractZero(stamp);
    ReadPartsWith(parts[4 := "gmt"], stamp, 0, 0);
    ReadPartsWith(parts[4 := z], stamp, zh, zm);
  }

  // ---------------------------------------------------------------------
  // the escaping OverflowError

  /**
   * A zone "+hh" (`sign`) followed by a minute count of at least 1440 * 10^9 makes
   * `timedelta` raise OverflowError outside the `try`, so `rfc822` raises
   * where the same tokens with any table zone return a value.
   */
  lemma OverflowEscapes(parts: seq<string>, stamp: Calendar.DateTime, sign: string, digits: string)
    requires |parts| == 5 && Stamp(parts) == Some(stamp) && Calendar.Valid(stamp)
    requires |sign| == 3 && sign[0] == '+' && AllDigits(sign[1..]) && digits != [] && AllDigits(digits)
    requires WithinIntLimit(digits)
    requires DigitsValue(digits) >= Calendar.MinutesPerDay * (MaxDeltaDays + 1)
    ensures ReadParts(parts[4 := sign + digits]) == RaisedOverflow
  {
    var hh := sign[1..];
    var z := sign + digits;
    var p := parts[4 := z];
    var h, m := DigitsValue(hh) as int, DigitsValue(digits) as int;
    PlusZone(sign, digits);
    assert Stamp(p) == Some(stamp) by {
      StampIgnoresZone(parts, z);
    }
    assert Shift(Some(stamp), Some((h, m))) == RaisedOverflow by {
      ShiftOverflow(stamp, h, m);
    }
    assert ReadParts(p) == Shift(Some(stamp), Some((h, m)));
  }

  /** "+hh" followed by digits reads as hours and minutes. */
  lemma PlusZone(sign: string, digits: string)
    requires |sign| == 3 && sign[0] == '+' && AllDigits(sign[1..]) && digits != [] && AllDigits(digits)
    ensures ZoneParts(sign + digits) == Some((DigitsValue(sign[1..]) as int, DigitsValue(digits) as int))
  {
    var hh := sign[1..];
    assert sign + digits == ['+'] + hh + digits by {
      assert sign == [sign[0]] + hh;
    }
    SignedZone('+', hh, digits);
  }

  lemma ShiftOverflow(stamp: Calendar.DateTime, zh: int, zm: int)
    requires Calendar.Valid(stamp) && !DeltaFits(zh * 60 + zm)
    ensures Shift(Some(stamp), Some((zh, zm))) == RaisedOverflow
  {
  }

  lemma ExampleParts(digits: string)
    requires digits != [] && AllDigits(digits)
    ensures Parts(Unwords(["14", "Jun", "2009", "11:47:32", "+00" + digits])) ==
      ["14", "jun", "2009", "11:47:32", "+00" + digits]
  {
    var ws := ["14", "Jun", "2009", "11:47:32", "+00" + digits];
    var lowered := ["14", "jun", "2009", "11:47:32", "+00" + digits];
    LowerUnwords(ws);
    ExampleLowered(digits);
    ExampleWords(digits);
    WordsUnwords(lowered);
    assert Take("14", 3) !in DayNames;
  }

  lemma ExampleLowered(digits: string)
    requires AllDigits(digits)
    ensures LowerAll(["14", "Jun", "2009", "11:47:32", "+00" + digits]) == ["14", "jun", "2009", "11:47:32", "+00" + digits]
  {
    assert Lower("Jun") == "jun";
    LowerOfLower("14");
    LowerOfLower("2009");
    LowerOfLower("11:47:32");
    LowerOfLower("+00" + digits);
  }

  lemma ExampleWords(digits: string)
    requires AllDigits(digits)
    ensures forall i :: 0 <= i < 5 ==> IsWord(["14", "jun", "2009", "11:47:32", "+00" + digits][i])
  {
    assert NoSpace("+00" + digits);
  }

  lemma StampOf(parts: seq<string>, day: int, month: int, year: int, h: int, mi: int, s: int)
    requires |parts| >= 4
    requires DatesSrc.DayMonth(parts[0], parts[1]) == Some((day, month))
    requires ParseInt(parts[2]) == Some(year) && DatesSrc.ParseTime(parts[3]) == Some((h, mi, s))
    ensures Stamp(parts) == Some(Calendar.DateTime(ShortYear(parts[2], year), month, day, h, mi, s))
  {
  }

  lemma ExampleFields()
    ensures DatesSrc.DayMonth("14", "jun") == Some((14, 6))
    ensures ParseInt("2009") == Some(2009)
    ensures DatesSrc.ParseTime("11:47:32") == Some((11, 47, 32))
  {
    ExampleDay();
    ExampleYear();
    ExampleClock();
  }

  lemma ExampleDay()
    ensures DatesSrc.DayMonth("14", "jun") == Some((14, 6))
  {
    TwoDigits("14");
    assert DatesSrc.MonthOf("jun") == Some(6) by {
      assert Take("jun", 3) == "jun";
    }
  }

  lemma ExampleYear()
    ensures ParseInt("2009") == Some(2009)
  {
    assert DigitsValue("2009") == 2009 by {
      assert "2009"[..3] == "200" && "200"[..2] == "20" && "20"[..1] == "2";
    }
  }

  lemma ExampleClock()
    ensures DatesSrc.ParseTime("11:47:32") == Some((11, 47, 32))
  {
    TwoDigits("11");
    TwoDigits("47");
    TwoDigits("32");
    assert DatesSrc.ParseTime("11" + [':'] + "47" + [':'] + "32") == Some((11, 47, 32)) by {
      DatesSrc.TimeFields("11", "47", "32");
    }
    assert "11:47:32" == "11" + [':'] + "47" + [':'] + "32";
  }

  lemma ExampleStamp(zone: string)
    ensures Stamp(["14", "jun", "2009", "11:47:32", zone]) == Some(Calendar.DateTime(2009, 6, 14, 11, 47, 32))
  {
    ExampleFields();
    StampOf(["14", "jun", "2009", "11:47:32", zone], 14, 6, 2009, 11, 47, 32);
  }

  /** The example's tokens with a zone "+00" and at least 1440 * 10^9 minutes raise. */
  lemma OverflowTokens(digits: string)
    requires digits != [] && AllDigits(digits) && WithinIntLimit(digits)
    requires DigitsValue(digits) >= Calendar.MinutesPerDay * (MaxDeltaDays + 1)
    ensures ReadParts(["14", "jun", "2009", "11:47:32", "+00" + digits]) == RaisedOverflow
  {
    var parts := ["14", "jun", "2009", "11:47:32", "+00" + digits];
    var stamp := Calendar.DateTime(2009, 6, 14, 11, 47, 32);
    assert Stamp(parts) == Some(stamp) && Calendar.Valid(stamp) by {
      ExampleStamp("+00" + digits);
    }
    assert AllDigits("+00"[1..]);
    assert parts[4 := "+00" + digits] == parts;
    OverflowEscapes(parts, stamp, "+00", digits);
  }

  /** "14 Jun 2009 11:47:32 +00" followed by the digits of 1440000000000 raises OverflowError. */
  lemma OverflowExample()
    ensures Rfc822AsWritten(Unwords(["14", "Jun", "2009", "11:47:32", "+00" + Decimal(1440000000000)])) == RaisedOverflow
    ensures Rfc822(Unwords(["14", "Jun", "2009", "11:47:32", "+00" + Decimal(1440000000000)])).None?
  {
    var digits := Decimal(1440000000000);
    DecimalLength(1440000000000, 13);
    ExampleParts(digits);
    OverflowTokens(digits);
  }

  /** Any stamp field beyond a C `int` raises OverflowError before the zone is applied. */
  lemma FieldOverflowEscapes(parts: seq<string>, stamp: Calendar.DateTime)
    requires |parts| >= 5 && Stamp(parts) == Some(stamp) && ZoneParts(parts[4]).Some?
    requires !FieldsFitCInt(stamp)
    ensures ReadParts(parts) == RaisedOverflow
  {
    assert !Calendar.Valid(stamp);
    assert ReadParts(parts) == Shift(Some(stamp), ZoneParts(parts[4]));
  }

  lemma YearExampleParts(year: string)
    requires year != [] && AllDigits(year)
    ensures Parts(Unwords(["14", "Jun", year, "11:47:32", "GMT"])) == ["14", "jun", year, "11:47:32", "gmt"]
  {
    var ws := ["14", "Jun", year, "11:47:32", "GMT"];
    var lowered := ["14", "jun", year, "11:47:32", "gmt"];
    LowerUnwords(ws);
    assert LowerAll(ws) == lowered by {
      assert Lower("Jun") == "jun" && Lower("GMT") == "gmt";
      LowerOfLower("14");
      LowerOfLower(year);
      LowerOfLower("11:47:32");
    }
    assert forall i :: 0 <= i < 5 ==> IsWord(lowered[i]) by {
      assert NoSpace(year);
    }
    WordsUnwords(lowered);
    assert Take("14", 3) !in DayNames;
  }

  /** The example's tokens with a year beyond a C `int` raise. */
  lemma YearOverflowTokens(year: string)
    requires year != [] && AllDigits(year) && !FitsCInt(DigitsValue(year))
    ensures ReadParts(["14", "jun", year, "11:47:32", "gmt"]) == RaisedOverflow
  {
    var parts := ["14", "jun", year, "11:47:32", "gmt"];
    var y := DigitsValue(year) as int;
    ExampleDay();
    ExampleClock();
    ParseDigits(year);
    StampOf(parts, 14, 6, y, 11, 47, 32);
    GmtZone();
    FieldOverflowEscapes(parts, Calendar.DateTime(ShortYear(year, y), 6, 14, 11, 47, 32));
  }

  /** "14 Jun 99999999999 11:47:32 GMT" raises OverflowError as written and gives None as intended. */
  lemma YearOverflowExample()
    ensures Rfc822AsWritten(Unwords(["14", "Jun", Decimal(99999999999), "11:47:32", "GMT"])) == RaisedOverflow
    ensures Rfc822(Unwords(["14", "Jun", Decimal(99999999999), "11:47:32", "GMT"])).None?
  {
    var year := Decimal(99999999999);
    YearExampleParts(year);
    YearOverflowTokens(year);
  }
}
