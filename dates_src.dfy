/**
 * `parse_rfc822` of the current package (src/listparser/dates.py): a
 * tolerant reader of the date-time syntax of section 5 of RFC 822 that
 * returns the written wall-clock fields together with a fixed UTC offset,
 * or None.  It never raises.
 */
module DatesSrc {
  import opened Text
  import Calendar

  /** The `months` table: three-letter lowercase abbreviations. */
  const Months: map<string, int> := map[
    "jan" := 1, "feb" := 2, "mar" := 3, "apr" := 4, "may" := 5, "jun" := 6,
    "jul" := 7, "aug" := 8, "sep" := 9, "oct" := 10, "nov" := 11, "dec" := 12]

  /** The `timezones` table: named zones and their offsets in whole hours. */
  const Timezones: map<string, int> := map[
    "ut" := 0, "utc" := 0, "gmt" := 0,
    "est" := -5, "edt" := -4, "cst" := -6, "cdt" := -5,
    "mst" := -7, "mdt" := -6, "pst" := -8, "pdt" := -7,
    "z" := 0, "a" := -1, "n" := 1, "m" := -12, "y" := 12]

  /** A `datetime` with `tzinfo=timezone(timedelta(minutes=offset))`. */
  datatype Zoned = Zoned(local: Calendar.DateTime, offset: int)

  /** What `datetime.datetime(...)` and `datetime.timezone(...)` accept without raising. */
  predicate ValidZoned(z: Zoned)
  {
    Calendar.Valid(z.local) && -Calendar.MinutesPerDay < z.offset < Calendar.MinutesPerDay
  }

  /** The lowercased whitespace tokens of the text after the last comma. */
  function Tokens(date: string): seq<string>
  {
    Words(Lower(AfterLast(date, ',')))
  }

  /** Three tokens get a midnight time, three or four get the "gmt" zone; any other count but five fails. */
  function PadParts(parts: seq<string>): (r: Option<seq<string>>)
    ensures r.Some? <==> 3 <= |parts| <= 5
    ensures r.Some? ==> |r.value| == 5 && r.value[..|parts|] == parts
  {
    if |parts| == 3 then Some(parts + ["00:00:00", "gmt"])
    else if |parts| == 4 then Some(parts + ["gmt"])
    else if |parts| == 5 then Some(parts)
    else None
  }

  /** `months.get(token[:3])`. */
  function MonthOf(token: string): Option<int>
  {
    var key := Take(token, 3);
    if key in Months then Some(Months[key]) else None
  }

  /** Day and month from the first two tokens, accepting "Mon DD" as well as "DD Mon". */
  function DayMonth(first: string, second: string): Option<(int, int)>
  {
    match ParseInt(first)
    case Some(day) =>
      (match MonthOf(second)
       case Some(month) => Some((day, month))
       case None => None)
    case None =>
      if MonthOf(first).None? then None
      else
        match ParseInt(second)
        case Some(day) => Some((day, MonthOf(first).value))
        case None => None
  }

  /** Years 0..99 are moved into 1990..2089, negative years gain 2000, and years from 100 on are kept. */
  function NormalizeYear(year: int): (r: int)
    ensures 0 <= year < 100 ==> 1990 <= r <= 2089 && r % 100 == year
    ensures year < 0 ==> r == year + 2000
    ensures year >= 100 ==> r == year
  {
    if year < 100 then (if year >= 90 then year + 1900 else year + 2000) else year
  }

  /** `h:m[:s]` with missing fields read as "0"; more than three fields fail. */
  function ParseTime(token: string): (r: Option<(int, int, int)>)
    ensures |SplitOn(token, ':')| > 3 ==> r.None?
  {
    var fields := SplitOn(token, ':');
    if |fields| > 3 then None
    else
      var padded := fields + (if |fields| == 1 then ["0", "0"] else if |fields| == 2 then ["0"] else []);
      match (ParseInt(padded[0]), ParseInt(padded[1]), ParseInt(padded[2]))
      case (Some(h), Some(m), Some(s)) => Some((h, m, s))
      case _ => None
  }

  /** The zone token with a leading "etc/" and then a leading "gmt" removed (an empty remainder reads as "gmt"). */
  function ZoneName(zone: string): string
  {
    var a := if StartsWith(zone, "etc/") then (if |zone| == 4 then "gmt" else zone[4..]) else zone;
    if StartsWith(a, "gmt") then (if |a| == 3 then "gmt" else a[3..]) else a
  }

  /** Hour and minute of a numeric zone: "H:MM" when the text splits at exactly one colon into integers, else the last two characters as minutes. */
  function NumericZone(name: string): Option<(int, int)>
  {
    var halves := SplitOn(name, ':');
    if |halves| == 2 && ParseInt(halves[0]).Some? && ParseInt(halves[1]).Some? then
      Some((ParseInt(halves[0]).value, ParseInt(halves[1]).value))
    else
      var head := if |name| >= 2 then name[..|name| - 2] else [];
      var tail := if |name| >= 2 then name[|name| - 2..] else name;
      match (ParseInt(head), ParseInt(tail))
      case (Some(h), Some(m)) => Some((h, m))
      case _ => None
  }

  /** The zone offset in minutes; the minutes take the sign of the hour only when the hour is negative. */
  function ZoneOffset(zone: string): Option<int>
  {
    var name := ZoneName(zone);
    if name in Timezones then Some(Timezones[name] * 60)
    else
      match NumericZone(name)
      case Some((h, m)) => Some(h * 60 + (if h < 0 then -m else m))
      case None => None
  }

  /** The parse of five (padded) tokens. */
  function ParseParts(parts: seq<string>): (r: Option<Zoned>)
    requires |parts| == 5
    ensures r.Some? ==> ValidZoned(r.value)
  {
    match (DayMonth(parts[0], parts[1]), ParseInt(parts[2]), ParseTime(parts[3]), ZoneOffset(parts[4]))
    case (Some((day, month)), Some(year), Some((h, mi, s)), Some(offset)) =>
      var z := Zoned(Calendar.DateTime(NormalizeYear(year), month, day, h, mi, s), offset);
      if ValidZoned(z) then Some(z) else None
    case _ => None
  }

  /** `parse_rfc822(date)`: a valid zoned date-time, or None. */
  function ParseRfc822(date: string): (r: Option<Zoned>)
    ensures r.Some? ==> ValidZoned(r.value)
    ensures !(3 <= |Tokens(date)| <= 5) ==> r.None?
  {
    match PadParts(Tokens(date))
    case Some(parts) => ParseParts(parts)
    case None => None
  }

  // ---------------------------------------------------------------------
  // properties

  /** Only the text after the last comma is read: a leading day name (or anything else) is ignored. */
  lemma CommaPrefixIgnored(prefix: string, date: string)
    requires ',' !in date
    ensures ParseRfc822(prefix + [','] + date) == ParseRfc822(date)
  {
    AfterLastAppend(prefix, ',', date);
    RPartitionParts(date, ',');
  }

  /** "h:m:s" with three integers reads as those integers. */
  lemma {:induction false} TimeFields(h: string, m: string, s: string)
    requires h != [] && m != [] && s != [] && AllDigits(h) && AllDigits(m) && AllDigits(s)
    ensures ParseTime(h + [':'] + m + [':'] + s) == Some((DigitsValue(h) as int, DigitsValue(m) as int, DigitsValue(s) as int))
  {
    assert ':' !in h && ':' !in m && ':' !in s;
    assert h + [':'] + m + [':'] + s == h + [':'] + (m + [':'] + s);
    SplitOnCons(h, ':', m + [':'] + s);
    SplitOnCons(m, ':', s);
    SplitOnNoSep(s, ':');
  }

  /** "h:m" reads as those integers with zero seconds. */
  lemma {:induction false} TimeWithoutSeconds(h: string, m: string)
    requires h != [] && m != [] && AllDigits(h) && AllDigits(m)
    ensures ParseTime(h + [':'] + m) == Some((DigitsValue(h) as int, DigitsValue(m) as int, 0))
  {
    assert ':' !in h && ':' !in m;
    SplitOnCons(h, ':', m);
    SplitOnNoSep(m, ':');
    assert DigitsValue("0") == 0;
  }

  lemma Midnight()
    ensures ParseTime("00:00:00") == Some((0, 0, 0))
  {
    assert "00:00:00" == "00" + [':'] + "00" + [':'] + "00";
    TwoDigits("00");
    TimeFields("00", "00", "00");
  }

  lemma GmtIsZero()
    ensures ZoneOffset("gmt") == Some(0)
  {
    assert ZoneName("gmt") == "gmt";
  }

  /** A date with only day, month and year is read at midnight GMT; one with no zone is read in GMT. */
  lemma DefaultTimeAndZone(date: string)
    ensures |Tokens(date)| == 3 && ParseRfc822(date).Some? ==>
      var z := ParseRfc822(date).value;
      z.local.hour == 0 && z.local.minute == 0 && z.local.second == 0 && z.offset == 0
    ensures |Tokens(date)| == 4 && ParseRfc822(date).Some? ==> ParseRfc822(date).value.offset == 0
  {
    Midnight();
    GmtIsZero();
  }

  /** "Mon DD" reads like "DD Mon". */
  lemma SwapTolerance(month: string, day: string, rest: seq<string>)
    requires |rest| == 3
    requires ParseInt(month).None? && MonthOf(month).Some? && ParseInt(day).Some?
    ensures ParseParts([month, day] + rest) == ParseParts([day, month] + rest)
  {
    assert DayMonth(month, day) == DayMonth(day, month);
  }

  /** The first three letters of the month token decide the month; anything else fails. */
  lemma MonthByPrefix(day: string, month: string, rest: seq<string>)
    requires |rest| == 3 && ParseInt(day).Some?
    ensures MonthOf(month).None? ==> ParseParts([day, month] + rest).None?
    ensures ParseParts([day, month] + rest).Some? ==>
      ParseParts([day, month] + rest).value.local.month == Months[Take(month, 3)]
  {
  }

  lemma ZoneKeysShort(k: string)
    requires k in Timezones
    ensures 1 <= |k| <= 3
  {
  }

  /** Every named zone, with or without an "etc/" prefix, reads as its whole-hour offset. */
  lemma NamedZone(k: string)
    requires k in Timezones
    ensures ZoneOffset(k) == Some(Timezones[k] * 60)
    ensures ZoneOffset("etc/" + k) == Some(Timezones[k] * 60)
  {
    ZoneKeysShort(k);
    assert !StartsWith(k, "etc/");
    assert ("etc/" + k)[..4] == "etc/";
    assert ("etc/" + k)[4..] == k;
    if StartsWith(k, "gmt") {
      assert k == "gmt";
    }
  }

  /** A zone that starts with a sign is neither prefixed nor named. */
  lemma SignedName(z: string)
    requires |z| >= 4 && (z[0] == '+' || z[0] == '-')
    ensures ZoneName(z) == z && z !in Timezones
  {
    assert z[..4] != "etc/" && z[..3] != "gmt" by {
      assert z[..4][0] == z[0] && z[..3][0] == z[0];
    }
    if z in Timezones {
      ZoneKeysShort(z);
    }
  }

  lemma FixedHalves(sign: char, hh: string, mm: string)
    requires sign == '+' || sign == '-'
    requires |hh| == 2 && |mm| == 2 && AllDigits(hh) && AllDigits(mm)
    ensures NumericZone([sign] + hh + mm) ==
      Some((if sign == '-' then -(DigitsValue(hh) as int) else DigitsValue(hh) as int, DigitsValue(mm) as int))
  {
    var z := [sign] + hh + mm;
    assert ':' !in z by {
      assert forall i :: 1 <= i < 5 ==> IsDigit(z[i]);
    }
    SplitOnNoSep(z, ':');
    assert z[..3] == [sign] + hh;
    assert z[3..] == mm;
    ParseIntSigned(sign, hh);
  }

  lemma ZoneOffsetOfNumeric(z: string, h: int, m: int, offset: int)
    requires ZoneName(z) == z && z !in Timezones && NumericZone(z) == Some((h, m))
    requires offset == h * 60 + (if h < 0 then -m else m)
    ensures ZoneOffset(z) == Some(offset)
  {
  }

  /**
   * "+hhmm" and "-hhmm" read as the signed offset, except that with a zero
   * hour the minutes keep a positive sign: "-0030" reads as +30 minutes.
   */
  lemma NumericZoneFixed(sign: char, hh: string, mm: string)
    requires sign == '+' || sign == '-'
    requires |hh| == 2 && |mm| == 2 && AllDigits(hh) && AllDigits(mm)
    ensures ZoneOffset([sign] + hh + mm) == Some(FixedOffset(sign, DigitsValue(hh), DigitsValue(mm)))
  {
    var z := [sign] + hh + mm;
    var H, M := DigitsValue(hh) as int, DigitsValue(mm) as int;
    var h := if sign == '-' then -H else H;
    SignedName(z);
    FixedHalves(sign, hh, mm);
    SignedOffset(sign, H, M);
    ZoneOffsetOfNumeric(z, h, M, FixedOffset(sign, H, M));
  }

  /** The offset "+hhmm" and "-hhmm" are read as: the sign reaches the minutes only with a non-zero hour. */
  function FixedOffset(sign: char, H: nat, M: nat): int
  {
    if sign == '-' && H != 0 then -(H * 60 + M) else H * 60 + M
  }

  lemma SignedOffset(sign: char, H: nat, M: nat)
    ensures var h: int := if sign == '-' then -(H as int) else H;
      h * 60 + (if h < 0 then -(M as int) else M) == FixedOffset(sign, H, M)
  {
  }

  lemma ColonHalves(sign: char, hh: string, mm: string)
    requires sign == '+' || sign == '-'
    requires |hh| == 2 && |mm| == 2 && AllDigits(hh) && AllDigits(mm)
    ensures NumericZone([sign] + hh + [':'] + mm) ==
      Some((if sign == '-' then -(DigitsValue(hh) as int) else DigitsValue(hh) as int, DigitsValue(mm) as int))
  {
    var a := [sign] + hh;
    assert ':' !in a by {
      assert forall i :: 1 <= i < 3 ==> IsDigit(a[i]);
    }
    assert ':' !in mm;
    SplitOnCons(a, ':', mm);
    SplitOnNoSep(mm, ':');
    ParseIntSigned(sign, hh);
    assert ParseInt(mm) == Some(DigitsValue(mm) as int);
  }

  /** "+hh:mm" and "-hh:mm" read the same way as their colon-free forms. */
  lemma NumericZoneColon(sign: char, hh: string, mm: string)
    requires sign == '+' || sign == '-'
    requires |hh| == 2 && |mm| == 2 && AllDigits(hh) && AllDigits(mm)
    ensures ZoneOffset([sign] + hh + [':'] + mm) == ZoneOffset([sign] + hh + mm)
  {
    NumericZoneFixed(sign, hh, mm);
    SignedName([sign] + hh + [':'] + mm);
    ColonHalves(sign, hh, mm);
  }

  /** A "gmt" prefix before a numeric zone changes nothing. */
  lemma GmtPrefixedNumeric(sign: char, hh: string, mm: string)
    requires sign == '+' || sign == '-'
    requires |hh| == 2 && |mm| == 2 && AllDigits(hh) && AllDigits(mm)
    ensures ZoneOffset("gmt" + [sign] + hh + mm) == ZoneOffset([sign] + hh + mm)
  {
    var z := [sign] + hh + mm;
    var g := "gmt" + z;
    assert "gmt" + [sign] + hh + mm == g;
    assert g[..3] == "gmt" && g[3..] == z;
    assert g[..4] != "etc/" by {
      assert g[..4][0] == 'g';
    }
    SignedName(z);
    assert ZoneName(g) == z;
  }
}
