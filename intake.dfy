/**
 * What `parse` does around the tokenizer: classify its argument into
 * bytes to parse or a recorded failure (`get_content` in the newer
 * generation, `_mkfile` in the older), then run the tokenizer at most
 * twice, the second time with the entity DOCTYPE injected.
 *
 * The tokenizer run itself, opening files and fetching URLs are not
 * modelled: they enter as parameters.
 */
module Intake {
  import opened Text
  import opened Harvest

  newtype Byte = b: int | 0 <= b < 256

  // ---------------------------------------------------------------------
  // UTF-8, as `str.encode('utf8')` and `bytes.decode('utf8')` use it

  predicate Continuation(b: Byte)
  {
    0x80 <= b < 0xC0
  }

  /** The one to four bytes of one code point. */
  function EncodeChar(c: char): (r: seq<Byte>)
    ensures 1 <= |r| <= 4
    ensures (c as int < 0x80) <==> |r| == 1
    ensures |r| == 1 ==> r[0] as int == c as int
    ensures forall i :: 1 <= i < |r| ==> Continuation(r[i])
  {
    var n := c as int;
    var q1 := n / 0x40;
    var q2 := q1 / 0x40;
    var q3 := q2 / 0x40;
    if n < 0x80 then [n as Byte]
    else if n < 0x800 then [(0xC0 + q1) as Byte, (0x80 + n % 0x40) as Byte]
    else if n < 0x10000 then [(0xE0 + q2) as Byte, (0x80 + q1 % 0x40) as Byte, (0x80 + n % 0x40) as Byte]
    else [(0xF0 + q3) as Byte, (0x80 + q2 % 0x40) as Byte, (0x80 + q1 % 0x40) as Byte, (0x80 + n % 0x40) as Byte]
  }

  function Encode(s: string): seq<Byte>
  {
    if s == [] then [] else EncodeChar(s[0]) + Encode(s[1..])
  }

  /** A code point from its number, where the number names one. */
  function ToChar(n: int): Option<char>
  {
    if 0 <= n < 0xD800 || 0xE000 <= n < 0x11_0000 then Some(n as char) else None
  }

  function Low(b: Byte): int
  {
    b as int - 0x80
  }

  /** The code point at the head of `b` and how many bytes it took. */
  function DecodeChar(b: seq<Byte>): (r: Option<(char, nat)>)
    requires |b| > 0
    ensures r.Some? ==> 1 <= r.value.1 <= |b|
  {
    var b0 := b[0] as int;
    if b0 < 0x80 then Some((b0 as char, 1))
    else if 0xC0 <= b0 < 0xE0 && |b| >= 2 && Continuation(b[1]) then
      var c := ToChar((b0 - 0xC0) * 0x40 + Low(b[1]));
      if c.Some? then Some((c.value, 2)) else None
    else if 0xE0 <= b0 < 0xF0 && |b| >= 3 && Continuation(b[1]) && Continuation(b[2]) then
      var c := ToChar(((b0 - 0xE0) * 0x40 + Low(b[1])) * 0x40 + Low(b[2]));
      if c.Some? then Some((c.value, 3)) else None
    else if 0xF0 <= b0 < 0xF8 && |b| >= 4 && Continuation(b[1]) && Continuation(b[2]) && Continuation(b[3]) then
      var c := ToChar((((b0 - 0xF0) * 0x40 + Low(b[1])) * 0x40 + Low(b[2])) * 0x40 + Low(b[3]));
      if c.Some? then Some((c.value, 4)) else None
    else None
  }

  function Decode(b: seq<Byte>): Option<string>
    decreases |b|
  {
    if b == [] then Some([])
    else
      match DecodeChar(b)
      case None => None
      case Some((c, k)) =>
        var tail := Decode(b[k..]);
        if tail.Some? then Some([c] + tail.value) else None
  }

  /** One code point's bytes decode back to it, whatever follows. */
  lemma DecodeEncodeChar(c: char, rest: seq<Byte>)
    ensures DecodeChar(EncodeChar(c) + rest) == Some((c, |EncodeChar(c)|))
  {
    var n := c as int;
    var q1 := n / 0x40;
    var q2 := q1 / 0x40;
    var q3 := q2 / 0x40;
    assert n == q1 * 0x40 + n % 0x40;
    assert q1 == q2 * 0x40 + q1 % 0x40;
    assert q2 == q3 * 0x40 + q2 % 0x40;
    var b := EncodeChar(c) + rest;
    if n < 0x80 {
    } else if n < 0x800 {
      assert b[0] as int - 0xC0 == q1 && Low(b[1]) == n % 0x40;
    } else if n < 0x10000 {
      assert b[0] as int - 0xE0 == q2 && Low(b[1]) == q1 % 0x40 && Low(b[2]) == n % 0x40;
    } else {
      assert b[0] as int - 0xF0 == q3 && Low(b[1]) == q2 % 0x40 && Low(b[2]) == q1 % 0x40 && Low(b[3]) == n % 0x40;
    }
  }

  /** `s.encode('utf8').decode('utf8') == s`. */
  lemma {:induction false} DecodeEncode(s: string)
    ensures Decode(Encode(s)) == Some(s)
  {
    if s != [] {
      var head := EncodeChar(s[0]);
      DecodeEncodeChar(s[0], Encode(s[1..]));
      assert (head + Encode(s[1..]))[|head|..] == Encode(s[1..]);
      DecodeEncode(s[1..]);
      assert [s[0]] + s[1..] == s;
    }
  }

  /** An ASCII text encodes to its own code points, one byte each. */
  lemma {:induction false} EncodeAscii(s: string)
    requires forall i :: 0 <= i < |s| ==> s[i] as int < 0x80
    ensures |Encode(s)| == |s|
    ensures forall i :: 0 <= i < |s| ==> Encode(s)[i] as int == s[i] as int
  {
    if s != [] {
      EncodeAscii(s[1..]);
      assert forall i :: 1 <= i < |s| ==> Encode(s)[i] == Encode(s[1..])[i - 1];
    }
  }

  /**
   * `normchars` of the older handler: the captured text passed through
   * UTF-8 and back, then stripped, which is the captured text stripped.
   */
  function NormChars(characters: string): (r: string)
    ensures r == Strip(characters)
  {
    DecodeEncode(characters);
    Strip(Decode(Encode(characters)).value)
  }

  // ---------------------------------------------------------------------
  // classifying the argument of parse

  /** What `parse` may be handed. */
  datatype Input =
    | Bytes(data: seq<Byte>)
    | Str(text: string)
    | FileObject(handle: nat)   // anything with `read` and `close`
    | Other                     // any other object

  /** The outcome of fetching a URL, which is not modelled. */
  datatype Fetched = Fetched(text: string) | FetchFailed(error: Failure)

  /** Content to parse, or the failure that the result reports as `bozo`. */
  datatype Intake = Intake(content: Option<seq<Byte>>, bozo: bool, exception: Option<Failure>)

  const Unparsable := "parse() called with unparsable object"

  predicate IsWebUrl(s: string)
  {
    StartsWith(s, "http://") || StartsWith(s, "https://")
  }

  function NoRequests(url: string): string
  {
    "requests is not installed so " + url + " cannot be retrieved"
  }

  /**
   * `get_content`: bytes are parsed as they are, a string that is not an
   * http(s) URL is an encoded document, a URL needs `requests` and the
   * network, and anything else is refused.
   */
  function GetContent(obj: Input, requestsInstalled: bool, fetch: string -> Fetched): (r: Intake)
    ensures r.bozo <==> r.content.None?
    ensures r.bozo <==> r.exception.Some?
    ensures obj.Bytes? ==> r.content == Some(obj.data)
    ensures obj.Str? && !IsWebUrl(obj.text) ==> r.content == Some(Encode(obj.text))
    ensures obj.FileObject? || obj.Other? ==> r.exception == Some(ListError(Unparsable))
    ensures obj.Str? && IsWebUrl(obj.text) && !requestsInstalled ==> r.exception == Some(ListError(NoRequests(obj.text)))
  {
    match obj
    case Bytes(data) => Intake(Some(data), false, None)
    case Str(text) =>
      if !IsWebUrl(text) then Intake(Some(Encode(text)), false, None)
      else if !requestsInstalled then Intake(None, true, Some(ListError(NoRequests(text))))
      else (
        match fetch(text)
        case Fetched(body) => Intake(Some(Encode(body)), false, None)
        case FetchFailed(e) => Intake(None, true, Some(e)))
    case _ => Intake(None, true, Some(ListError(Unparsable)))
  }

  /** A document given as text is parsed from bytes that decode back to that text. */
  lemma DocumentRoundTrip(text: string, requestsInstalled: bool, fetch: string -> Fetched)
    requires !IsWebUrl(text)
    ensures var r := GetContent(Str(text), requestsInstalled, fetch);
      r.content.Some? && Decode(r.content.value) == Some(text)
  {
    DecodeEncode(text);
  }

  /** What the older `_mkfile` hands on to the tokenizer. */
  datatype Source =
    | Given(handle: nat)          // the caller's file object
    | Document(data: seq<Byte>)   // a string holding XML
    | FileName(name: string)      // opened from the file system, not modelled
    | Url(url: string)            // fetched over the network, not modelled

  /**
   * `_mkfile`'s outcome.  A bytes argument reaches `startswith` with
   * string prefixes, which raises `TypeError` out of `parse`.
   */
  datatype Made = Opened(source: Source) | Refused(error: Failure) | TypeErrorRaised

  predicate IsAnyUrl(s: string)
  {
    StartsWith(s, "http://") || StartsWith(s, "https://") || StartsWith(s, "ftp://") || StartsWith(s, "file://")
  }

  /**
   * `_mkfile`'s classification: file objects pass through, other objects
   * are refused, a string is a URL by its scheme, otherwise a document
   * when its text starts with '<' after leading whitespace, otherwise a
   * file name.
   */
  function MkFile(obj: Input): (r: Made)
    ensures obj.FileObject? <==> r.Opened? && r.source.Given?
    ensures obj.Other? <==> r.Refused?
    ensures obj.Bytes? <==> r.TypeErrorRaised?
    ensures r.Refused? ==> r.error == ListError(Unparsable)
    ensures r.Opened? && r.source.Document? <==> obj.Str? && !IsAnyUrl(obj.text) && StartsWith(LStrip(obj.text), "<")
    ensures r.Opened? && r.source.Url? <==> obj.Str? && IsAnyUrl(obj.text)
    ensures r.Opened? && r.source.Document? ==> r.source.data == Encode(obj.text)
  {
    match obj
    case FileObject(h) => Opened(Given(h))
    case Other => Refused(ListError(Unparsable))
    case Bytes(_) => TypeErrorRaised
    case Str(s) =>
      if IsAnyUrl(s) then Opened(Url(s))
      else if StartsWith(LStrip(s), "<") then Opened(Document(Encode(s)))
      else Opened(FileName(s))
  }

  /**
   * The two generations read a string holding XML the same way; they part
   * on other strings, which the newer one parses as XML and the older one
   * opens as a file name or an ftp/file URL.
   */
  lemma GenerationsOnStrings(text: string, requestsInstalled: bool, fetch: string -> Fetched)
    requires !IsAnyUrl(text)
    ensures var newer := GetContent(Str(text), requestsInstalled, fetch);
      newer.content == Some(Encode(text)) &&
      (MkFile(Str(text)) == Opened(Document(Encode(text))) <==> StartsWith(LStrip(text), "<"))
  {
  }

  // ---------------------------------------------------------------------
  // the retry rule of parse

  /** The harvest `parse` returns; every guaranteed key is a field. */
  datatype Report = Report(bozo: bool, exception: Option<Failure>, store: Store, meta: Meta, version: string)

  /** The guaranteed keys and their defaults. */
  const Guarantees := Report(false, None, EmptyStore, EmptyMeta, "")

  const UndefinedEntity := "undefined entity found"

  /** The recorded error mentions an entity, so an injected parse may help. */
  predicate EntityTrouble(rep: Report)
  {
    rep.exception.Some? && Contains(rep.exception.value.message, "entity")
  }

  /**
   * The tokenizer is run with or without injection (`run(inject)`), and
   * again with injection when the first run's error mentions an entity.
   * An injected run that recorded nothing is still marked bozo.  The
   * second component counts the tokenizer runs.
   */
  function Parse(run: bool -> Report, inject: bool): (r: (Report, nat))
    ensures 1 <= r.1 <= 2
    ensures r.1 == 2 <==> !inject && EntityTrouble(run(false))
    ensures inject || r.1 == 2 ==> r.0.bozo
    ensures !inject && !EntityTrouble(run(false)) ==> r.0 == run(false)
    ensures r.1 == 2 ==> r.0.store == run(true).store && r.0.meta == run(true).meta && r.0.version == run(true).version
    ensures (inject || r.1 == 2) && !run(true).bozo ==> r.0.exception == Some(ListError(UndefinedEntity))
    ensures (inject || r.1 == 2) && run(true).bozo ==> r.0 == run(true)
    decreases if inject then 0 else 1
  {
    var first := run(inject);
    if EntityTrouble(first) && !inject then
      var again := Parse(run, true);
      (again.0, again.1 + 1)
    else if inject && !first.bozo then
      (first.(bozo := true, exception := Some(ListError(UndefinedEntity))), 1)
    else
      (first, 1)
  }

  /**
   * A run that only records errors through `raise_bozo` sets bozo with
   * every error, so the retry never turns a clean parse into a bozo one.
   */
  lemma {:induction false} RetryKeepsBozo(run: bool -> Report)
    requires forall inject :: run(inject).exception.Some? ==> run(inject).bozo
    ensures Parse(run, false).0.bozo == run(false).bozo
  {
    if EntityTrouble(run(false)) {
      assert run(false).bozo;
      assert Parse(run, false).0.bozo;
    }
  }

  /**
   * The newer `parse`: classify, return the guarantees when there are no
   * bytes (or no content at all), else run the tokenizer on the bytes.
   */
  function ParseSrc(obj: Input, requestsInstalled: bool, fetch: string -> Fetched,
                    tokenize: (seq<Byte>, bool) -> Report, inject: bool): (r: Report)
    ensures var got := GetContent(obj, requestsInstalled, fetch);
      (got.content.None? || got.content.value == []) ==>
        r == Guarantees.(bozo := got.bozo, exception := got.exception)
    ensures var got := GetContent(obj, requestsInstalled, fetch);
      got.content.Some? && got.content.value != [] ==>
        r == Parse(i => tokenize(got.content.value, i), inject).0
  {
    var got := GetContent(obj, requestsInstalled, fetch);
    if got.content.None? || got.content.value == [] then
      Guarantees.(bozo := got.bozo, exception := got.exception)
    else
      Parse(i => tokenize(got.content.value, i), inject).0
  }

  /** With nothing to parse the result still holds every key, empty. */
  lemma EmptyHarvest(obj: Input, requestsInstalled: bool, fetch: string -> Fetched,
                     tokenize: (seq<Byte>, bool) -> Report, inject: bool)
    requires GetContent(obj, requestsInstalled, fetch).content.None?
    ensures var r := ParseSrc(obj, requestsInstalled, fetch, tokenize, inject);
      r.bozo && r.exception.Some? && r.store == EmptyStore && r.meta == EmptyMeta && r.version == ""
  {
  }

  /**
   * The older `parse` either returns a harvest or lets an exception escape:
   * `TypeError` out of `_mkfile`, or `ValueError` from reading a closed file.
   */
  datatype Outcome = Returned(report: Report) | Escaped(exception: string)

  /**
   * The older `parse`: a refused argument yields the guarantees with the
   * failure; otherwise the tokenizer runs over the source as `Parse` says.
   * The retry hands `parse_obj` back to `_mkfile`: a string is opened
   * afresh, but the caller's file object was closed by the first run, so
   * reading it again raises `ValueError`, which nothing catches.
   * (The older guarantees have no `bozo_exception` key, which `None` stands for.)
   */
  function ParseLegacy(obj: Input, tokenize: (Source, bool) -> Report, inject: bool): (r: Outcome)
    ensures r == Escaped("TypeError") <==> obj.Bytes?
    ensures r == Escaped("ValueError") <==>
      obj.FileObject? && !inject && EntityTrouble(tokenize(Given(obj.handle), false))
    ensures obj.Other? ==> r == Returned(Guarantees.(bozo := true, exception := Some(ListError(Unparsable))))
    ensures MkFile(obj).Opened? && !MkFile(obj).source.Given? ==>
      r == Returned(Parse(i => tokenize(MkFile(obj).source, i), inject).0)
    ensures obj.FileObject? && (inject || !EntityTrouble(tokenize(Given(obj.handle), false))) ==>
      r == Returned(Parse(i => tokenize(Given(obj.handle), i), inject).0)
  {
    match MkFile(obj)
    case TypeErrorRaised => Escaped("TypeError")
    case Refused(e) => Returned(Guarantees.(bozo := true, exception := Some(e)))
    case Opened(source) =>
      if source.Given? && !inject && EntityTrouble(tokenize(source, false)) then Escaped("ValueError")
      else Returned(Parse(i => tokenize(source, i), inject).0)
  }
}
