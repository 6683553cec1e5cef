# listparser, modelled in Dafny

listparser reads subscription lists: OPML outlines, FOAF/RDF agent
descriptions and iGoogle GadgetTabML pages. It returns a *harvest*: three
containers (`feeds`, `lists`, `opportunities`) of `{url, title,
categories, tags}` objects, a `meta` dictionary (title, owner, dates), a
`version` string and the `bozo`/`bozo_exception` pair that reports
malformed input.

The repository ships two generations:

* The older package, `listparser/`, drives `xml.sax`. It opens file
  names, URLs and file objects through `_mkfile`, and converts dates to
  naive UTC with `rfc822`.
* The newer package, `src/listparser/`, offers `parse` over bytes or
  strings, with `get_content`. Its handlers are keyed by tokenizer
  (`LxmlHandler`, `XmlSaxHandler`), it has `parse_rfc822` (zone-aware),
  and it has the namespace-tracking `XMLHandler` for `html.parser`
  events.

The model has one module per component.

| file | module | what it holds |
|---|---|---|
| `text.dfy` | `Text` | the Python string operations the parsers lean on: `strip`, `lower`, `split`, `rpartition`, `int()`, zero padding |
| `calendar.dfy` | `Calendar` | the `datetime` range checks, ordinals, weekday, and subtraction of a minute offset |
| `dates_src.dfy` | `DatesSrc` | `parse_rfc822` of the newer package |
| `dates_legacy.dfy` | `DatesLegacy` | `rfc822` and `to_rfc822` of the older package |
| `common.dfy` | `Common` | the namespace table, `_ns` and `SuperDict` |
| `harvest.dfy` | `Harvest` | the harvest containers with `found_urls`, the category/tag rules, and the outline filing and FOAF group merge as functions on a `Store` value |
| `dialects.dfy` | `Dialects` | class `BaseHandler` holding the shared handler state, with every `_start_*`/`_end_*` handler of the OPML, FOAF and iGoogle mixins as a method |
| `dispatch.dfy` | `Dispatch` | the element dispatchers: `LxmlHandler`, `XmlSaxHandler`, and the older `Handler`'s `startElementNS`/`endElementNS` |
| `xml_handler.dfy` | `XmlHandlers` | class `XmlHandler`: the namespace stacks, node stack and method caches of `src/listparser/xml_handler.py` |
| `intake.dfy` | `Intake` | `get_content`, `_mkfile`, UTF-8 for `encode('utf8')`/`normchars`, and the entity retry of both `parse` functions |
| `injector.dfy` | `Injection` | class `Injector`: the buffered `read` that splices a DOCTYPE after the first `>` |

Dispatchers return the name of the handler they would call (or `None`).
The caller then runs that handler on `BaseHandler`. `AfterEnd` resets
the character capture once an end handler has run, which is the order
the Python code uses.

The FOAF and iGoogle mixins are the same code in both generations, so
one model serves both:

* older FOAF lines = newer lines + 15;
* older iGoogle lines = newer lines + 13;
* the older OPML handlers are at `listparser/opml.py:30-148`.

The generations differ in a few places:

* Attribute keys: the newer OPML handler reads plain string keys; all
  other handlers read `(namespace, local)` pairs. `Dialects.KeyStyle`
  carries the key type.
* `normchars`: the older handlers read the captured text through it,
  while the newer ones call `strip()`. `Intake.NormChars` proves the two
  agree.

## Model

| member | source | states |
|---|---|---|
| Text.Strip | src/listparser/opml.py:23-26 | `strip()` is no longer than its input and neither starts nor ends with whitespace |
| Text.StripTrims | src/listparser/opml.py:23-26 | `strip()` is exactly the slice `s[i..j]` of its input where everything before `i` and from `j` on is whitespace |
| Text.LStrip | listparser/__init__.py:210 | `lstrip()` is a suffix of its input that does not start with whitespace, and everything it drops is whitespace |
| Text.StripIdempotent | src/listparser/opml.py:87-89 | stripping a stripped value changes nothing |
| Text.StripEmptyIffBlank | src/listparser/opml.py:87-88 | the stripped text is empty exactly when every character is whitespace |
| Text.Lower | src/listparser/dates.py:77 | `lower()` keeps the length and maps each character |
| Text.LowerAppend | listparser/dates.py:73 | lowercasing distributes over concatenation |
| Text.Words | src/listparser/dates.py:77 | every piece of `split()` is non-empty and contains no whitespace |
| Text.WordsCons | src/listparser/dates.py:77 | a space-free word followed by a space is the first piece of `split()` |
| Text.WordsUnwords | listparser/dates.py:73 | splitting words joined by single spaces gives the words back |
| Text.LowerUnwords | listparser/dates.py:73 | lowercasing a space-joined text lowercases each word |
| Text.SplitOn | src/listparser/dates.py:124 | `split(c)` gives at least one piece and no piece contains `c` |
| Text.SplitOnNoSep | src/listparser/dates.py:149 | text without the separator splits into itself |
| Text.SplitOnCons | src/listparser/dates.py:124 | a separator-free head is the first piece and the rest splits on |
| Text.Remove | listparser/dates.py:123 | `''.join(s.split(c))` contains no `c` and is no longer than `s` |
| Text.RemoveNoSep | listparser/dates.py:123 | text without `c` is returned unchanged |
| Text.RemoveAppend | listparser/dates.py:123 | removal distributes over concatenation, so the characters other than `c` keep their order |
| Text.RemoveCounts | listparser/dates.py:123 | every character other than `c` occurs in the result exactly as often as in the input, and `c` not at all |
| Text.LastIndex | src/listparser/xml_handler.py:98 | the index found holds `c` and no later index does |
| Text.AfterLast | src/listparser/dates.py:77 | `rpartition(c)[2]` contains no `c` |
| Text.RPartitionParts | src/listparser/xml_handler.py:98 | `rpartition` loses nothing but the separator, and without one gives `("", "", s)` |
| Text.AfterLastAppend | src/listparser/dates.py:77 | the text after a final separator is what `rpartition` returns, whatever precedes it |
| Text.AfterFirst | src/listparser/xml_handler.py:91 | `partition(c)[2]` is the text after the first `c`, or "" when there is no `c` |
| Text.ParseInt | src/listparser/dates.py:91 | `int()` succeeds only on non-empty text, and unsigned text reads non-negative |
| Text.ParseIntFails | src/listparser/dates.py:90-92 | `int()` fails exactly on empty text, a bare sign, or a character that is neither a digit nor a leading sign |
| Text.ParseIntSigned | src/listparser/dates.py:150 | a sign followed by digits reads as the signed value of the digits |
| Text.ParseDigits | src/listparser/dates.py:109 | plain digits read as their value |
| Text.Decimal | listparser/dates.py:174 | the decimal spelling is non-empty digits with the given value |
| Text.ZeroPad | listparser/dates.py:174 | `{n:0w}` is at least `w` digits long and `int()` reads it back as `n` |
| Text.ZeroPadWidth | listparser/dates.py:174 | a value below 10^w pads to exactly `w` characters |
| Text.LeadingZeros | listparser/dates.py:174 | leading zeros do not change a digit string's value |
| Calendar.DaysInMonth | listparser/dates.py:138 | every month has 28 to 31 days |
| Calendar.DaysInYear | listparser/dates.py:138 | every year has 365 or 366 days |
| Calendar.DaysBeforeMonthWholeYear | listparser/dates.py:138 | the twelve months add up to the year's length |
| Calendar.FromOrdinal | listparser/dates.py:144 | `fromordinal(n)` is a valid date whose ordinal is `n` |
| Calendar.FromOrdinalOrdinal | listparser/dates.py:144 | `fromordinal(toordinal(d)) == d` for every date |
| Calendar.OrdinalInRange | listparser/dates.py:143-146 | an ordinal names a year within `datetime`'s range exactly when it is at most that of 9999-12-31 |
| Calendar.Weekday | listparser/dates.py:185 | `weekday()` is in 0..6 |
| Calendar.WeekdayOfEpoch | listparser/dates.py:185 | 0001-01-01 is weekday 0 (Monday) |
| Calendar.WeekdayOfNextDay | listparser/dates.py:185 | the day after any date, across month and year ends, has the next weekday `(w + 1) % 7` |
| Calendar.MinuteIndex | listparser/dates.py:144 | every valid `datetime` has a minute number within the representable range |
| Calendar.FromMinuteIndex | listparser/dates.py:144 | each minute number in range is a valid `datetime` with that minute number |
| Calendar.MinuteIndexInjective | listparser/dates.py:144 | two valid `datetime`s with the same minute number and seconds are equal |
| Calendar.SubtractMinutes | listparser/dates.py:143-146 | `stamp - delta` is a valid `datetime` that is `delta` minutes earlier with the same seconds, and it is None exactly when it would leave the range (OverflowError) |
| Calendar.SubtractZero | listparser/dates.py:141-144 | subtracting a zero offset returns the same `datetime` |
| Common.NamespacesInjective | src/listparser/common.py:6-16 | no two namespace URIs share a prefix |
| Common.Ns | listparser/common.py:33 | `_ns` maps each prefix back to the URI naming it, and holds exactly the table's prefixes |
| Common.RdfThroughNs | listparser/foaf.py:31 | `_ns['rdf']` is the RDF syntax namespace |
| Common.SuperDict.GetAttr | src/listparser/common.py:32-36 | reading `d.name` gives the item when the key exists, else the dict member, else AttributeError |
| Common.SuperDict.SetAttr | src/listparser/common.py:38-40 | `d.name = v` stores the key, changes no other key, returns `v`, and reading it back gives `v` |
| DatesSrc.PadParts | src/listparser/dates.py:77-87 | three tokens get a midnight time and a "gmt" zone, four get the zone, five are kept, and any other count fails |
| DatesSrc.NormalizeYear | src/listparser/dates.py:117-121 | years 0..99 move into 1990..2089 keeping their last two digits, negative years gain 2000 ("-500" reads as 1500), and years from 100 on are kept |
| DatesSrc.ParseTime | src/listparser/dates.py:124-129 | more than three colon fields fail |
| DatesSrc.ParseParts | src/listparser/dates.py:89-172 | every date-time returned is one `datetime` accepts, with an offset under one day |
| DatesSrc.ParseRfc822 | src/listparser/dates.py:50-172 | the result is valid when present, and None unless there are 3 to 5 tokens after the last comma |
| DatesSrc.CommaPrefixIgnored | src/listparser/dates.py:77 | anything before the last comma (a day name) does not change the result |
| DatesSrc.TimeFields | src/listparser/dates.py:124-129 | "h:m:s" of digits reads as those three numbers |
| DatesSrc.TimeWithoutSeconds | src/listparser/dates.py:124-129 | "h:m" reads with zero seconds |
| DatesSrc.Midnight | src/listparser/dates.py:80 | the padding time is 00:00:00 |
| DatesSrc.GmtIsZero | src/listparser/dates.py:83 | the padding zone "gmt" is offset zero |
| DatesSrc.DefaultTimeAndZone | src/listparser/dates.py:78-83 | a date of three tokens reads at midnight with offset zero; one of four tokens reads with offset zero |
| DatesSrc.SwapTolerance | src/listparser/dates.py:90-102 | "Mon DD" reads exactly like "DD Mon" |
| DatesSrc.MonthByPrefix | src/listparser/dates.py:103-105 | the first three letters of the month token decide the month, and an unknown month fails |
| DatesSrc.NamedZone | src/listparser/dates.py:134-144 | each named zone, with or without "etc/", reads as its whole-hour offset |
| DatesSrc.SignedName | src/listparser/dates.py:134-144 | a zone starting with a sign is neither prefixed nor named |
| DatesSrc.FixedHalves | src/listparser/dates.py:154-156 | "+hhmm"/"-hhmm" split into a signed hour and the minutes |
| DatesSrc.NumericZoneFixed | src/listparser/dates.py:147-160 | "+hhmm" and "-hhmm" read as the signed offset, except that "-00mm" reads as +mm minutes |
| DatesSrc.SignedOffset | src/listparser/dates.py:159-160 | the minutes take the sign only when the hour is negative |
| DatesSrc.ColonHalves | src/listparser/dates.py:148-151 | "+hh:mm" splits at its colon into a signed hour and the minutes |
| DatesSrc.NumericZoneColon | src/listparser/dates.py:148-151 | "+hh:mm" reads the same as "+hhmm" |
| DatesSrc.GmtPrefixedNumeric | src/listparser/dates.py:142-143 | a "gmt" before a numeric zone changes nothing |
| DatesLegacy.PadTokens | listparser/dates.py:74-76 | fewer than five tokens are extended, and the given tokens come first |
| DatesLegacy.DropDayName | listparser/dates.py:78-79 | at most the first token is dropped |
| DatesLegacy.ShortYear | listparser/dates.py:107-108 | a year of at most two characters moves into 1990..2089 keeping its last two digits; longer ones are kept |
| DatesLegacy.DeltaFitsDays | listparser/dates.py:141 | the `timedelta` bound is that its day count `minutes // 1440` lies within ±999999999 |
| DatesLegacy.ReadParts | listparser/dates.py:84-146 | a returned value is a valid `datetime`; a stamp field beyond a C `int` or an offset beyond `timedelta` raises OverflowError (see FieldOverflowEscapes, OverflowEscapes) |
| DatesLegacy.Shift | listparser/dates.py:136-146 | a returned value is a valid `datetime`; the raising cases are stated by FieldOverflowEscapes and ShiftOverflow |
| DatesLegacy.Rfc822AsWritten | listparser/dates.py:61-146 | a returned value is valid, and fewer than five tokens after padding and dropping the day name give None |
| DatesLegacy.Rfc822 | listparser/dates.py:137-146 | agrees with the code as written wherever that returns, and gives None where that raises OverflowError |
| DatesLegacy.ToRfc822 | listparser/dates.py:177-192 | the formatted date is always 29 characters |
| DatesLegacy.FieldWidths | listparser/dates.py:174 | fields of widths 3, 2, 3, 4, 8 and "GMT" join to 29 characters |
| DatesLegacy.DayNameRead | listparser/dates.py:164-172 | every written day name is three letters that `rfc822` recognises as a day name |
| DatesLegacy.MonthNameRead | listparser/dates.py:149-162 | every written month name is three letters that read back as its month |
| DatesLegacy.ClockRead | listparser/dates.py:174 | "HH:MM:SS" is eight characters that read back as the hour, minute and second |
| DatesLegacy.LowerOfFields | listparser/dates.py:73 | lowercasing the written fields lowercases only the names, and every field is a space-free word |
| DatesLegacy.TokensOfFields | listparser/dates.py:73 | written text splits back into its lowercased fields |
| DatesLegacy.ReadsBack | listparser/dates.py:84-146 | the five tokens after the day name read back as the `datetime` at offset zero |
| DatesLegacy.PartsOfFields | listparser/dates.py:73-79 | written text leaves exactly five tokens once its day name is dropped |
| DatesLegacy.RoundTrip | listparser/dates.py:61-192 | `rfc822(to_rfc822(d)) == d` for every `datetime` |
| DatesLegacy.TokensAfterComma | src/listparser/dates.py:77 | the newer parser reads the last five written fields |
| DatesLegacy.AfterDayName | src/listparser/dates.py:77 | after the comma of the day name comes the rest of the written text |
| DatesLegacy.LowerAfterComma | src/listparser/dates.py:77 | lowercasing the text after the comma lowercases each field |
| DatesLegacy.NewParserReadsFormatted | src/listparser/dates.py:50-172 | the newer parser reads `to_rfc822(d)` back as `d` at offset zero, with the year normalised (and unchanged from 100 on) |
| DatesLegacy.NewParserReadsBack | src/listparser/dates.py:89-172 | five written tokens read back in the newer parser |
| DatesLegacy.NormalizedYearValid | src/listparser/dates.py:117-121 | normalising the year of a valid `datetime` keeps it valid |
| DatesLegacy.DateOnly | listparser/dates.py:74-76 | a three-token date without a day name reads at midnight UTC |
| DatesLegacy.PaddedZone | listparser/dates.py:76 | the padding zone "0000" is UTC |
| DatesLegacy.MidnightStamp | listparser/dates.py:109-114 | the padding time "00:00:00" is midnight |
| DatesLegacy.GmtZone | listparser/dates.py:122-123 | "gmt" is UTC |
| DatesLegacy.SignedZoneText | listparser/dates.py:116-123 | a signed zone is left as it is by the "etc/" and "gmt" rules |
| DatesLegacy.ZonePartsOfSigned | listparser/dates.py:125-133 | a signed zone reads hours from characters 1-2 and minutes from the rest, both negated for '-' |
| DatesLegacy.SignedZone | listparser/dates.py:125-133 | "+hh<digits>" and "-hh<digits>" read as hours and minutes, both negated for '-' |
| DatesLegacy.UnknownZoneIsUtc | listparser/dates.py:134-135 | an unknown zone name means UTC |
| DatesLegacy.EtcPrefix | listparser/dates.py:117-118 | "etc/" in front of a zone changes nothing |
| DatesLegacy.ReadPartsWith | listparser/dates.py:137-146 | with a fitting offset the result is the stamp moved back by the offset |
| DatesLegacy.ShiftWith | listparser/dates.py:141-146 | with a fitting offset the shift is the subtraction of the offset |
| DatesLegacy.StampIgnoresZone | listparser/dates.py:138 | the wall-clock fields do not depend on the zone token |
| DatesLegacy.ZoneShift | listparser/dates.py:136-146 | the same wall clock reads unchanged at "gmt" and moved back by any zone that fits |
| DatesLegacy.OverflowEscapes | listparser/dates.py:141 | a zone of at least 1440 * 10^9 minutes, written in at most 4300 digits, raises OverflowError out of the code as written |
| DatesLegacy.ShiftOverflow | listparser/dates.py:141 | an offset beyond the `timedelta` range raises |
| DatesLegacy.OverflowTokens | listparser/dates.py:141 | the example's tokens with a zone "+00" and a huge minute count raise |
| DatesLegacy.OverflowExample | listparser/dates.py:141 | "14 Jun 2009 11:47:32 +001440000000000" raises in the code as written and gives None as intended |
| DatesLegacy.FieldOverflowEscapes | listparser/dates.py:137-139 | a stamp field beyond a C `int` raises OverflowError out of the `datetime` constructor, which only catches ValueError |
| DatesLegacy.YearOverflowTokens | listparser/dates.py:137-139 | the example's tokens with a year beyond a C `int` raise |
| DatesLegacy.YearOverflowExample | listparser/dates.py:137-139 | "14 Jun 99999999999 11:47:32 GMT" raises in the code as written and gives None as intended |
| Dialects.OpmlVersion | src/listparser/opml.py:13-18 | "opml1" exactly for version 1.0 or 1.1, "opml2" exactly for 2.0, else "opml" |
| Dialects.TitleOf | src/listparser/opml.py:22-26 | the outline title is always stripped |
| Dialects.FirstUrl | src/listparser/opml.py:29-32 | the forward scan stops at the first attribute whose lowercased name matches, and strips its value |
| Dialects.LastUrl | src/listparser/opml.py:49-53 | the full scan keeps the last matching attribute, stripped |
| Dialects.FirstNamedIsFirst | src/listparser/opml.py:29-32 | the earliest matching attribute is the one found |
| Dialects.FirstNamedNone | src/listparser/opml.py:29-34 | nothing is found exactly when no attribute matches |
| Dialects.LastNamedIsLast | src/listparser/opml.py:50-52 | the latest matching attribute is the one found |
| Dialects.LastNamedNone | src/listparser/opml.py:49 | nothing is found exactly when no attribute matches |
| Dialects.Decide | src/listparser/opml.py:33-57 | a group exactly when there is no xmlUrl, the type is not link/include and the title is non-empty. A filed URL is non-empty and comes from xmlUrl, url or htmlUrl. A non-blank xmlUrl files a feed, or a list for type "source". An opportunity comes from htmlUrl. |
| Dialects.ClassifyRules | src/listparser/opml.py:20-57 | the outline rules stated on the attributes; every filed URL is stripped, and an opportunity is the stripped last htmlUrl |
| Dialects.DecideStripped | src/listparser/opml.py:28-57 | with stripped candidates, whatever is filed is stripped |
| Dialects.SetOwner | src/listparser/opml.py:93-113 | `setdefault('author')` and then one owner key set; the rest of meta and of the author are kept |
| Dialects.SrcStamp | src/listparser/opml.py:121-125 | a stamp exactly when `parse_rfc822` succeeds, carrying its zoned value |
| Dialects.Tagged | src/listparser/foaf.py:35-43 | one `(container, {url, title})` per URL, in order |
| Dialects.GadgetFeed | src/listparser/igoogle.py:31-38 | the gadget feed has the URL and title "", has categories exactly under a hierarchy and tags exactly at depth one, and its tags agree with its categories |
| Dialects.StagedFlushed | src/listparser/foaf.py:30-43 | staging feeds, lists and opportunities one after another is one flush |
| Dialects.FlushedInOrder | src/listparser/foaf.py:30-43 | the flush keeps every pending URL in order, with its container and the innermost name as title |
| Dialects.AddCategoryPaths | src/listparser/opml.py:68-72 | the category loop equals adding each piece's path by the non-empty-and-new rule |
| Dialects.ClassifyOutline | src/listparser/opml.py:20-57 | the outline start's reads and scans decide the outline the rules define |
| Dialects.Filing | src/listparser/opml.py:58-79 | a filing keeps the store coherent and changes nothing when the outline is not filed |
| Dialects.BaseHandler.RaiseBozo | src/listparser/parsers.py:52-57 | bozo is set; a string is recorded as a ListError with that message, an exception as itself |
| Dialects.BaseHandler.ExpectCharacters | src/listparser/common.py:44-48 | capture is on and empty |
| Dialects.BaseHandler.Characters | src/listparser/parsers.py:186-188 | text is appended only while capture is on |
| Dialects.BaseHandler.StopCapture | src/listparser/parsers.py:181-184 | capture is off and empty |
| Dialects.BaseHandler.StartOpmlOpml | src/listparser/opml.py:13-18 | the version is set from the `version` attribute |
| Dialects.BaseHandler.StartOpmlOutline | src/listparser/opml.py:20-79 | exactly one label is pushed (the group title or ""), and the store changes only by filing the classified outline under the old hierarchy |
| Dialects.BaseHandler.FileEntry | src/listparser/opml.py:58-77 | the store becomes the outline filing through `found_urls`, with categories and tags |
| Dialects.BaseHandler.EndOpmlOutline | src/listparser/opml.py:81-82 | as written: raises exactly on an empty hierarchy, otherwise pops one label |
| Dialects.BaseHandler.PopHierarchy | src/listparser/igoogle.py:19-21 | the guarded pop: an empty hierarchy stays empty |
| Dialects.BaseHandler.EndOpmlOutlineGuarded | src/listparser/opml.py:81-82 | as intended: pops one label, and an empty hierarchy stays empty |
| Dialects.BaseHandler.EndOpmlTitle | src/listparser/opml.py:86-89 | the stripped text becomes the meta title when it is not blank |
| Dialects.BaseHandler.EndOpmlOwner | src/listparser/opml.py:93-113 | non-blank stripped text sets the author's url, email or name |
| Dialects.BaseHandler.EndOpmlDate | src/listparser/opml.py:117-137 | non-blank text is kept raw. A parsed stamp is stored, or else bozo is raised with the field's message. Blank text changes nothing. |
| Dialects.BaseHandler.StartRdfRdf | src/listparser/foaf.py:12-13 | the version is "rdf" |
| Dialects.BaseHandler.StartRssChannel | src/listparser/foaf.py:15-22 | a non-blank `rdf:about` is a pending feed and cancels a pending opportunity; a blank one changes nothing |
| Dialects.BaseHandler.StartYaFeed | src/listparser/foaf.py:24-28 | a non-blank `rdf:resource` is appended to the pending feeds |
| Dialects.BaseHandler.StartRdfsSeeAlso | src/listparser/foaf.py:69-73 | a non-blank `rdf:resource` is appended to the pending lists |
| Dialects.BaseHandler.StartFoafDocument | src/listparser/foaf.py:115-120 | a non-blank `rdf:about` is a pending opportunity and sets the flag |
| Dialects.BaseHandler.Stage | src/listparser/foaf.py:35-43 | one `(container, {url, title})` per URL is appended to `group_objs` |
| Dialects.BaseHandler.CleanFoundObjs | src/listparser/foaf.py:30-43 | the pending feeds, lists and opportunities are appended to `group_objs`, titled with the innermost name; the pending lists are not cleared |
| Dialects.BaseHandler.StartFoafAgent | src/listparser/foaf.py:45-48 | the agent, feed and new-title flags are set |
| Dialects.BaseHandler.EndFoafAgent | src/listparser/foaf.py:50-61 | flush, drop the innermost name, clear the pending lists and flags |
| Dialects.BaseHandler.StartFoafPerson | src/listparser/foaf.py:63-66 | the feed and new-title flags are set and the pending lists are flushed |
| Dialects.BaseHandler.StartFoafGroup | src/listparser/foaf.py:75-76 | the group flag is set |
| Dialects.BaseHandler.EndFoafGroup | src/listparser/foaf.py:78-98 | every pending object is merged under the old hierarchy, `group_objs` is cleared and the hierarchy is popped when non-empty |
| Dialects.BaseHandler.MergeGroup | src/listparser/foaf.py:80-95 | the merge loop equals merging each object in order |
| Dialects.BaseHandler.MergeStep | src/listparser/foaf.py:80-94 | one loop round equals one merge |
| Dialects.BaseHandler.EndFoafName | src/listparser/foaf.py:103-110 | a new agent's first name (even blank) is pushed; else a non-blank group name labels the hierarchy; else nothing changes |
| Dialects.BaseHandler.StartGtmlGadgetTabML | src/listparser/igoogle.py:12-13 | the version is "igoogle" |
| Dialects.BaseHandler.StartGtmlTab | src/listparser/igoogle.py:15-17 | a non-blank stripped title is pushed |
| Dialects.BaseHandler.EndGtmlTab | src/listparser/igoogle.py:19-21 | pops whenever the hierarchy is non-empty |
| Dialects.BaseHandler.StartIGoogleModule | src/listparser/igoogle.py:23-25 | the feed flag is set when the stripped, lowercased type is "rss" |
| Dialects.BaseHandler.EndIGoogleModule | src/listparser/igoogle.py:27-28 | the feed flag is cleared |
| Dialects.BaseHandler.StartIGoogleModulePrefs | src/listparser/igoogle.py:30-38 | inside an rss module a non-blank xmlUrl appends a gadget feed to `feeds`, bypassing `found_urls` |
| Dialects.TabInsideOutline | src/listparser/opml.py:81-82 | a titled outline around an untitled Tab raises IndexError at the outline end |
| Dialects.TabInsideOutlineGuarded | src/listparser/opml.py:81-82 | with the guarded pop the same events leave the hierarchy empty |
| Dispatch.LxmlSplit | src/listparser/parsers.py:67-68 | the local name after the last '}' contains no '}' |
| Dispatch.LxmlNames | src/listparser/parsers.py:64-73 | a known namespace gives its prefix; any other gives "opml" |
| Dispatch.SaxKey | src/listparser/parsers.py:159-163 | an attribute with no namespace, or an empty one, keeps its bare local name |
| Dispatch.SaxKeySplits | src/listparser/parsers.py:153-163 | a converted `{uri}local` key splits back into its URI and local name |
| Dispatch.SaxNames | src/listparser/parsers.py:143-147 | no name exactly for an unknown namespace; no namespace gives "opml"; a known one gives its prefix |
| Dispatch.SaxStart | src/listparser/parsers.py:140-148 | a start handler is found exactly when its name exists |
| Dispatch.SaxEnd | src/listparser/parsers.py:168-176 | an end handler is found exactly when its name exists |
| Dispatch.TokenizersAgree | src/listparser/parsers.py:64-73 | both tokenizers pick the same handler for known namespaces and for no namespace; for an unknown one only lxml falls back to opml |
| Dispatch.ConvertedPairs | src/listparser/parsers.py:158-163 | each attribute becomes its converted key with its value, in order |
| Dispatch.ConvertAttributes | src/listparser/parsers.py:158-163 | the loop builds the dictionary of the converted pairs: keys unique, exactly the converted keys |
| Dispatch.ConvertedStep | src/listparser/parsers.py:159-163 | one loop round assigns one converted key |
| Dispatch.ConvertedKeys | src/listparser/parsers.py:158-163 | the dictionary's keys are exactly the converted keys |
| Dispatch.ConvertedLastWins | src/listparser/parsers.py:159-163 | when two attributes convert to the same key, the later value wins |
| Dispatch.Warning | src/listparser/parsers.py:123-128 | a reported parser error sets bozo and is kept as the exception |
| Dispatch.AfterEnd | src/listparser/parsers.py:92-98 | capture is reset only when an end handler ran |
| Dispatch.LxmlHandler.Start | src/listparser/parsers.py:61-76 | returns the start handler a fresh lookup finds, and caches it under the name |
| Dispatch.LxmlHandler.End | src/listparser/parsers.py:78-98 | returns the end handler a fresh lookup finds, and caches it under the name |
| Dispatch.LxmlHandler.Data | src/listparser/parsers.py:100-104 | text is appended only while capture is on |
| Dispatch.SaxHandler.StartElementNS | src/listparser/parsers.py:133-151 | returns the start handler, caching it under the name pair |
| Dispatch.SaxHandler.StartConverted | src/listparser/parsers.py:133-165 | attributes are converted exactly when a handler exists, into the dictionary of converted pairs |
| Dispatch.SaxHandler.EndElementNS | src/listparser/parsers.py:167-184 | returns the end handler, caching it under the name pair |
| Dispatch.SaxHandler.Characters | src/listparser/parsers.py:186-188 | text is appended only while capture is on |
| Dispatch.LegacyHandler.StartElementNS | listparser/__init__.py:144-151 | a start handler exactly when the namespace is known or absent and the handler exists |
| Dispatch.LegacyHandler.EndElementNS | listparser/__init__.py:153-164 | an end handler exactly when the namespace is known or absent and the handler exists |
| Dispatch.LegacyHandler.Characters | listparser/__init__.py:172-174 | text is appended only while capture is on |
| Dispatch.CacheIsTransparent | src/listparser/__init__.py:124-136 | a cache holding only fresh lookups answers what a fresh lookup would |
| Harvest.Recorded | src/listparser/__init__.py:109-114 | a string becomes a ListError with that message; an exception is kept |
| Harvest.Append | src/listparser/igoogle.py:38 | only the container grows, by the entry, and every stored entry stays |
| Harvest.File | src/listparser/opml.py:58-64 | a known URL keeps its first location and the store is unchanged. A new URL is appended as `{url, title}` and recorded. Nothing stored moves. |
| Harvest.FreshFiled | src/listparser/opml.py:58-62 | a new URL's entry lands at the end of its container, is recorded, and nothing else changes |
| Harvest.Put | src/listparser/opml.py:64-77 | the updated entry replaces only the one at its location |
| Harvest.KeptShape | src/listparser/opml.py:70 | every kept label is non-blank, stripped and without the separator |
| Harvest.KeptKeeps | src/listparser/opml.py:70 | no non-blank label is lost |
| Harvest.PathOf | src/listparser/opml.py:70 | a category path holds exactly the stripped non-blank '/'-labels |
| Harvest.AddPath | src/listparser/opml.py:71-72 | a path is appended only when non-empty and absent, so no duplicates appear |
| Harvest.Paths | src/listparser/opml.py:69-70 | one path per comma-separated piece, in order |
| Harvest.AddPathsSpec | src/listparser/opml.py:68-72 | the categories grow by exactly the new non-empty paths, without duplicates |
| Harvest.TagsOf | src/listparser/opml.py:77 | the tags are exactly the labels of one-label paths |
| Harvest.AddTag | src/listparser/foaf.py:92-94 | a depth-one hierarchy label is added once; other tags are kept |
| Harvest.FileAgrees | src/listparser/opml.py:58-64 | filing keeps every entry's tags agreeing with its categories |
| Harvest.PutAgrees | src/listparser/opml.py:77 | replacing an entry with an agreeing one keeps the agreement |
| Harvest.FileOutline | src/listparser/opml.py:58-77 | filing an outline keeps `found_urls` coherent and records only the outline's URL |
| Harvest.FileOutlineFirstSeen | src/listparser/opml.py:58-64 | the first-seen location and title win, and only a new URL grows its container, by one |
| Harvest.FileOutlineTags | src/listparser/opml.py:77 | the filed entry's tags are exactly the labels of its one-label paths |
| Harvest.FileOutlinePaths | src/listparser/opml.py:66-75 | the hierarchy and each non-empty category path end up among the entry's categories, and no earlier path is lost |
| Harvest.FileOutlineKeepsPaths | src/listparser/opml.py:66-77 | no category path recorded before is lost |
| Harvest.FileOutlineAt | src/listparser/opml.py:64-77 | only the filed entry changes, and its categories are the old ones plus the new paths |
| Harvest.CategorizedKeeps | src/listparser/opml.py:68-72 | the category attribute only adds paths, and adds every non-empty one |
| Harvest.Merge | src/listparser/foaf.py:80-94 | a merge keeps `found_urls` coherent and records only the object's URL |
| Harvest.MergeSpec | src/listparser/foaf.py:80-94 | a known URL keeps its location and a new one lands in the object's container. The entry gets the hierarchy and the depth-one tag. Nothing recorded before is lost. |
| Harvest.MergeFound | src/listparser/foaf.py:81-86 | a merge only adds the object's URL, and known URLs keep their location |
| Harvest.MergeAt | src/listparser/foaf.py:81-94 | only the merged entry changes: its categories gain the hierarchy and its tags the label |
| Harvest.MergeAll | src/listparser/foaf.py:80-95 | merging the group keeps `found_urls` coherent |
| Harvest.MergeAllStep | src/listparser/foaf.py:80 | the group merge is the merges in order |
| Harvest.MergeAllKeys | src/listparser/foaf.py:80-86 | `found_urls` ends with exactly the old URLs and the group's |
| Harvest.MergeAllKeeps | src/listparser/foaf.py:81-83 | URLs recorded earlier keep their location: the first-seen entry wins |
| Harvest.Urls | src/listparser/foaf.py:80 | one URL per group object, in order |
| Harvest.MergeAllLabels | src/listparser/foaf.py:90-94 | every group URL carries the hierarchy and the depth-one label, and nothing earlier is lost |
| Harvest.MergeTwice | src/listparser/foaf.py:80-94 | merging the same object again changes nothing |
| Harvest.MergeAgrees | src/listparser/foaf.py:88-94 | a merge keeps every entry's tags agreeing with its categories |
| Harvest.MergeAllAgrees | src/listparser/foaf.py:80-95 | the group merge keeps the agreement |
| Harvest.FileOutlineAgrees | src/listparser/opml.py:77 | filing an outline keeps the agreement |
| XmlHandlers.UrisInverse | src/listparser/xml_handler.py:13-25 | `uris` and `prefixes` are exact inverses |
| XmlHandlers.StandardPrefix | src/listparser/xml_handler.py:107-114 | the innermost declared URI decides the prefix; an emptied stack falls back to the deployed prefix |
| XmlHandlers.UndeclaredPrefix | src/listparser/xml_handler.py:107-114 | an undeclared prefix maps through the standard table or stays itself |
| XmlHandlers.HandlerNames | src/listparser/xml_handler.py:129-134 | a non-empty prefix names `start_<prefix>_<name>` and `end_<prefix>_<name>` |
| XmlHandlers.Declare | src/listparser/xml_handler.py:88-93 | every prefix's stack grows by the number of its declarations |
| XmlHandlers.Declared | src/listparser/xml_handler.py:87-93 | a node records exactly the prefixes declared on its tag |
| XmlHandlers.Passed | src/listparser/xml_handler.py:86-95 | exactly the attributes not starting with "xmlns" reach the handler |
| XmlHandlers.PopDecls | src/listparser/xml_handler.py:166-167 | popping leaves the keys and every prefix not popped unchanged |
| XmlHandlers.BalancedRestores | src/listparser/xml_handler.py:86-167 | with at most one declaration per prefix, an end restores every stack |
| XmlHandlers.DeclaredStack | src/listparser/xml_handler.py:88-93 | a declaration pushes its URI on top of the old stack |
| XmlHandlers.DeclaredTwiceLeaks | src/listparser/xml_handler.py:88-93 | two declarations of one prefix on a tag push two URIs but its end pops one |
| XmlHandlers.DefaultDeclarations | src/listparser/xml_handler.py:89-91 | "xmlns" and "xmlns:" both declare the default prefix |
| XmlHandlers.Cut | src/listparser/xml_handler.py:146-174 | the end loop stops at the topmost node with the tag, or empties the stack |
| XmlHandlers.EndRound | src/listparser/xml_handler.py:146-174 | one round of the end loop keeps its eventual outcome |
| XmlHandlers.UnwindCut | src/listparser/xml_handler.py:146-174 | `end(tag)` leaves the stack just below the topmost matching node |
| XmlHandlers.StartScoped | src/listparser/xml_handler.py:118-124 | a start keeps every open declaration poppable |
| XmlHandlers.PopScoped | src/listparser/xml_handler.py:148-167 | popping the top node keeps the stacks scoped, and its prefixes have a URI to pop |
| XmlHandlers.UnwindScoped | src/listparser/xml_handler.py:146-174 | `end` from a scoped state leaves a scoped state |
| XmlHandlers.StartEndRestores | src/listparser/xml_handler.py:71-174 | a start followed by its end restores the stacks and the node stack |
| XmlHandlers.DictOf | src/listparser/xml_handler.py:211 | the dictionary has unique keys, exactly those of the pairs |
| XmlHandlers.AssignKeySet | src/listparser/xml_handler.py:211 | assignment adds its key |
| XmlHandlers.AssignUnique | src/listparser/xml_handler.py:211 | assignment keeps keys unique |
| XmlHandlers.AssignPairs | src/listparser/xml_handler.py:211 | the key gets the value, and other pairs stay |
| XmlHandlers.DictOfLastWins | src/listparser/xml_handler.py:211 | the last pair for a key decides its value, with None read as "" |
| XmlHandlers.Resolve | src/listparser/xml_handler.py:135-136 | `getattr(self, name, None)` finds a handler exactly when it exists |
| XmlHandlers.XmlHandler.PushDeclarations | src/listparser/xml_handler.py:86-95 | the attribute loop pushes each declaration and passes the rest |
| XmlHandlers.XmlHandler.Start | src/listparser/xml_handler.py:71-141 | pushes declarations and a node for the standard prefix, and returns the cached or freshly found start handler; old cache entries are kept |
| XmlHandlers.XmlHandler.CachedStart | src/listparser/xml_handler.py:126-138 | a miss fills both caches with fresh lookups, and the result equals a fresh lookup |
| XmlHandlers.XmlHandler.PopPrefixes | src/listparser/xml_handler.py:166-167 | each recorded prefix loses its innermost URI |
| XmlHandlers.XmlHandler.PopNode | src/listparser/xml_handler.py:147-167 | pops the top node (or makes one up) and undoes its declarations |
| XmlHandlers.XmlHandler.End | src/listparser/xml_handler.py:143-174 | unwinds to just below the topmost matching node, calling each cached end handler |
| XmlHandlers.XmlHandler.Data | src/listparser/xml_handler.py:176-180 | text is kept only while a handler asked for it |
| XmlHandlers.XmlHandler.Close | src/listparser/xml_handler.py:182-189 | caches and capture are reset |
| XmlHandlers.XmlHandler.HandleStartTag | src/listparser/xml_handler.py:196-211 | attribute pairs become a dictionary (None read as "") before `start` |
| Intake.EncodeChar | src/listparser/__init__.py:171 | a code point takes one to four bytes; ASCII exactly one, itself; the rest are continuation bytes |
| Intake.DecodeChar | listparser/__init__.py:170 | a decoded code point takes at least one byte and no more than there are |
| Intake.DecodeEncodeChar | listparser/__init__.py:170 | one code point's bytes decode back to it, whatever follows |
| Intake.DecodeEncode | listparser/__init__.py:166-170 | `s.encode('utf8').decode('utf8') == s` |
| Intake.EncodeAscii | src/listparser/__init__.py:171 | ASCII text encodes to its own code points |
| Intake.NormChars | listparser/__init__.py:166-170 | `normchars()` is `strip()` of the captured text |
| Intake.GetContent | src/listparser/__init__.py:162-196 | bozo exactly when there is no content, and exactly when there is an exception. Bytes pass through. A non-URL string is UTF-8 encoded. Other objects give ListError "parse() called with unparsable object". A URL without requests gives the requests error. |
| Intake.DocumentRoundTrip | src/listparser/__init__.py:169-174 | a document given as text is parsed from bytes that decode back to it |
| Intake.MkFile | listparser/__init__.py:199-217 | a file object is used as given, other types are refused, and bytes raise TypeError. Any URL is fetched. A non-URL string is a document exactly when its left-stripped text starts with '<'. |
| Intake.GenerationsOnStrings | listparser/__init__.py:207-211 | both generations encode a string document; the older one treats other strings as file names |
| Intake.Parse | src/listparser/__init__.py:71-80 | one run, or two exactly when an uninjected run's exception mentions "entity". An injected result is bozo, and carries "undefined entity found" unless another exception was recorded. |
| Intake.RetryKeepsBozo | src/listparser/__init__.py:71-80 | the returned bozo is the first run's when every exception sets bozo |
| Intake.ParseSrc | src/listparser/__init__.py:45-81 | no content (or empty bytes) gives the guarantees with the intake info; otherwise the tokenizer runs under the retry rule |
| Intake.EmptyHarvest | src/listparser/__init__.py:45-57 | with nothing to parse every guaranteed key is present and empty, and bozo is set |
| Intake.ParseLegacy | listparser/__init__.py:64-104 | bytes escape with TypeError; a refused argument gives the guarantees with the error. A caller's file object escapes with ValueError exactly when an uninjected run asks for the retry, since the first run closed it. Every other opened source runs under the retry rule. |
| Injection.FirstIndex | src/listparser/__init__.py:226 | the first `>` is at the index found |
| Injection.Step | src/listparser/__init__.py:210-233 | a read returns at most `size` bytes, and at least one while data remains |
| Injection.ReadLosesNothing | src/listparser/__init__.py:212-215 | the bytes read, the cache left and the stream left are the old cache and stream |
| Injection.SpliceAccounts | src/listparser/__init__.py:226-228 | splicing at the first `>` of the read equals injecting into the whole document |
| Injection.StepAccounts | src/listparser/__init__.py:210-233 | every read keeps the output, cache and stream accounting for the injected document |
| Injection.StepServesCache | src/listparser/__init__.py:212-218 | after injection a read is served from the cache and the stream |
| Injection.StepBeforeInjection | src/listparser/__init__.py:212-233 | before injection a read either passes bytes through or injects at its first `>` |
| Injection.StreamRead | src/listparser/__init__.py:212-215 | with an empty cache the read and what is left make up the stream |
| Injection.PlainRead | src/listparser/__init__.py:217-218 | a read without `>` passes through unchanged |
| Injection.SpliceRead | src/listparser/__init__.py:220-233 | the read holding the first `>` injects the DOCTYPE right after it |
| Injection.SpliceStep | src/listparser/__init__.py:226-233 | the injected read and new cache continue the injected document |
| Injection.Drained | src/listparser/__init__.py:205-233 | once the cache and stream are empty, everything read is the injected document |
| Injection.NoTagNoInjection | src/listparser/__init__.py:217-218 | a document without `>` is never changed |
| Injection.Injector.Read | src/listparser/__init__.py:210-233 | a read is the step function on the old state, returns at most `size` bytes and keeps the accounting invariant |

## Left out

- Tokenizers: `xml.sax`, lxml and `html.parser` are not modelled. Their events are the inputs of the dispatchers and handlers. Each `parse` takes the tokenizer as a function from the bytes (or source) and the inject flag to a harvest.
- I/O: the network (`requests.get`, `urllib` openers and their redirect and error handlers), file opening and HTTP header handling (etag, modified, status, href) are parameters or left out. A fetch is a `Fetched` parameter, and the older `_mkfile` source is a `Source` value. Parameters `agent`, `etag` and `modified` of the older `parse` are not modelled.
- `html.entities.name2codepoint`: the DOCTYPE that `Injector` splices in is a parameter, and its contents are not modelled.
- Handler invocation by name: a dispatcher returns the method name and the caller runs the handler. `getattr(self, name, None)` is `Resolve` over a given set of handler names.
- `Dispatch.LegacyHandler.StartElementNS`: the older dispatcher's `hasattr(..., '__call__')` test is modelled as the name being in that set.
- Text: `str.isspace`, `lower()` and `int()` are modelled on Latin-1 whitespace, ASCII letters and ASCII digits. `int()`'s acceptance of surrounding whitespace, underscores and non-ASCII digits is not modelled. The parsers only reach it on whitespace-free tokens.
- Text.ParseInt: CPython from 3.11 on refuses to convert more than 4300 digits (ValueError, so the date parsers return None). The model reads any length, so on longer digit strings it gives a value where `int()` raises. `DatesLegacy.OverflowEscapes` is stated only for minute counts within the limit.
- Text.Strip: its own contract gives the shape of the result. That the result is the input with exactly its whitespace margins removed is stated by `Text.StripTrims`, so that callers of `Strip` do not carry an existential.
- `Intake.DecodeChar`: the UTF-8 decoder is specified only on encoder output (`DecodeEncode`). Its answer on other byte strings is lenient and unspecified.
- Bozo flag: `bozo` is a boolean in both generations. The older package writes 1.
- Older `parse`: the older guarantees lack a `bozo_exception` key, which the model writes as None.
- Older `parse` retry: it calls `parse(parse_obj, ...)` again. A string is opened afresh and the tokenizer runs on it again. A caller's file object was closed by the first run, and reading it raises ValueError, which `Intake.ParseLegacy` models as `Escaped("ValueError")`.
- `Injection.Injector.Read`: a negative `size` (Python slices from the end) is not modelled; sizes are `nat`.
- Newer FOAF handlers: they read `common._ns` and assign `self.harvest.version` on a plain dict. Neither exists in `src/listparser/common.py` and `src/listparser/parsers.py`, so the newer package would fail there. The model follows the older package, where `_ns` exists and the harvest is a `SuperDict`, in both generations.
- Older OPML date handlers: they call `dates._rfc822`, which `listparser/dates.py` does not define. `Dialects.BaseHandler.EndOpmlDate` takes the date parser as a parameter; the newer handlers pass `Dialects.SrcStamp`.
- `Dialects.BaseHandler.EndOpmlDate`: the older `isinstance(d, datetime)` test is the parser's `Some` result.
- `Intake.MkFile`: on bytes, the older `_mkfile` calls `bytes.startswith` with a `str` argument, which raises TypeError. The model records this as the `TypeErrorRaised`/`Escaped` outcome, not a harvest.
- Newer `-00MM` zones: `parse_rfc822` reads "-0030" as +30 minutes, because the minutes take the sign only when the hour is negative. The model follows the code, stated in `DatesSrc.NumericZoneFixed`.
- `Dialects.BaseHandler.StartOpmlOutline`: the htmlUrl scan is modelled as always run. The handler runs it only when no URL was found yet, but the scan changes nothing, so the outcome is the same.
- iGoogle feeds: absent `categories`/`tags` keys are `None` fields of `Entry`. For FOAF and OPML lookups they read as empty.
- Microseconds of `datetime` and time zones other than a fixed minute offset are not modelled. The parsers produce neither.
- Exceptions raised by the tokenizers are modelled as the `Failure` values they record; `str()` of one is its `message`.
- `XmlHandlers.XmlHandler.End`: it returns the end handlers to call, in order, and the caller runs them after each node's declarations are popped. Interleaving handler side effects with the loop is not modelled.
- `close()` of `LxmlHandler` does nothing and is not modelled.

## Findings

| source | as written | input that shows it | evidently intended | confidence | as-written member | corrected member |
|---|---|---|---|---|---|---|
| listparser/dates.py:141 | the `timedelta` for the zone offset is built outside the `try` that catches OverflowError, so an offset beyond ±999999999 days escapes `rfc822`. Likewise the `datetime` constructor at lines 137-139 catches only ValueError, so a field beyond a C `int` raises OverflowError out of `rfc822`. | "14 Jun 2009 11:47:32 +001440000000000"; "14 Jun 99999999999 11:47:32 GMT" (DatesLegacy.YearOverflowExample) | like every other unreadable date, return None | not executed | DatesLegacy.OverflowExample | DatesLegacy.Rfc822 |
| src/listparser/opml.py:81-82 | `_end_opml_outline` pops unconditionally, while `_end_gtml_Tab` pops whenever the shared hierarchy is non-empty, even if its start pushed nothing. A titled outline around an untitled `gtml:Tab` therefore loses its label to the Tab end, and the outline end pops an empty list (IndexError escapes `parse`). The same code is at listparser/opml.py:98-99. | `<opml xmlns:gtml="http://schemas.google.com/GadgetTabML/2008"><body><outline text="a"><gtml:Tab></gtml:Tab></outline></body></opml>` | the guarded pop the FOAF and iGoogle ends use | not executed | Dialects.TabInsideOutline | Dialects.BaseHandler.EndOpmlOutlineGuarded |
