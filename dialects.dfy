/**
 * The dialect handlers: the OPML, FOAF and iGoogle mixins together with
 * the state they share (`BaseHandler` in the newer package, `Handler` in
 * the older one).  Each `_start_*`/`_end_*` handler is a method of
 * `BaseHandler`; the dispatchers decide which one an element reaches.
 *
 * Handlers that read attributes take them as a sequence of key/value
 * pairs in document order, with the key type of the generation: plain
 * strings for the newer OPML handler, `(namespace, local)` pairs for all
 * the others.
 */
module Dialects {
  import opened Text
  import opened Harvest
  import Common
  import DatesSrc

  /** A SAX attribute key: the namespace URI (`None` outside any namespace) and the local name. */
  type QName = (Option<string>, string)

  /** How a handler spells an attribute key from a local name, and reads the local name back. */
  datatype KeyStyle<!K> = KeyStyle(key: string -> K, local: K -> string)

  /** The newer OPML handler's plain string keys. */
  const PlainKeys: KeyStyle<string> := KeyStyle(s => s, k => k)

  /** The older OPML handler's `(None, local)` keys; the local name is the second half. */
  const QualifiedKeys: KeyStyle<QName> := KeyStyle(s => (None, s), (k: QName) => k.1)

  /** `attrs.get(k)`. */
  function Get<K(==)>(attrs: seq<(K, string)>, k: K): Option<string>
  {
    if attrs == [] then None
    else if attrs[0].0 == k then Some(attrs[0].1)
    else Get(attrs[1..], k)
  }

  /** `attrs.get(k, d)`. */
  function GetOr<K(==)>(attrs: seq<(K, string)>, k: K, d: string): string
  {
    match Get(attrs, k)
    case Some(v) => v
    case None => d
  }

  /** An attribute in the RDF namespace, such as `rdf:about`. */
  function RdfKey(local: string): QName
  {
    (Some(Common.RdfUri), local)
  }

  // ---------------------------------------------------------------------
  // OPML outline classification

  /** The `version` attribute of the root element as a harvest version. */
  function OpmlVersion(v: Option<string>): (r: string)
    ensures r == "opml1" <==> v == Some("1.0") || v == Some("1.1")
    ensures r == "opml2" <==> v == Some("2.0")
    ensures r == "opml" <==> v != Some("1.0") && v != Some("1.1") && v != Some("2.0")
  {
    if FirstEdition(v) then "opml1"
    else if SecondEdition(v) then "opml2"
    else "opml"
  }

  /** `version` names OPML 1.0 or 1.1. */
  predicate FirstEdition(v: Option<string>)
  {
    v == Some("1.0") || v == Some("1.1")
  }

  /** `version` names OPML 2.0. */
  predicate SecondEdition(v: Option<string>)
  {
    v == Some("2.0")
  }

  /** The stripped `text` attribute when it is not blank, else the stripped `title`, else "". */
  function TitleOf<K(==)>(attrs: seq<(K, string)>, style: KeyStyle<K>): (r: string)
    ensures Strip(r) == r
  {
    var text := Strip(GetOr(attrs, style.key("text"), ""));
    StripIdempotent(GetOr(attrs, style.key("text"), ""));
    StripIdempotent(GetOr(attrs, style.key("title"), ""));
    if text != [] then text else Strip(GetOr(attrs, style.key("title"), ""))
  }

  /** The value of the first attribute whose local name lowercases to `name`. */
  function FirstNamed<K>(attrs: seq<(K, string)>, local: K -> string, name: string): Option<string>
  {
    if attrs == [] then None
    else if Lower(local(attrs[0].0)) == name then Some(attrs[0].1)
    else FirstNamed(attrs[1..], local, name)
  }

  /** The value of the last attribute whose local name lowercases to `name`. */
  function LastNamed<K>(attrs: seq<(K, string)>, local: K -> string, name: string): Option<string>
  {
    if attrs == [] then None
    else if Lower(local(attrs[|attrs| - 1].0)) == name then Some(attrs[|attrs| - 1].1)
    else LastNamed(attrs[..|attrs| - 1], local, name)
  }

  /** A forward scan for the first attribute named `name`, in any case; its value is stripped. */
  method FirstUrl<K>(attrs: seq<(K, string)>, local: K -> string, name: string) returns (url: Option<string>)
    ensures url == Stripped(FirstNamed(attrs, local, name))
  {
    url := None;
    var i := 0;
    while i < |attrs| && url.None?
      invariant 0 <= i <= |attrs|
      invariant url.None? ==> FirstNamed(attrs, local, name) == FirstNamed(attrs[i..], local, name)
      invariant url.Some? ==> url == Stripped(FirstNamed(attrs, local, name))
    {
      assert attrs[i..][1..] == attrs[i + 1..];
      if Lower(local(attrs[i].0)) == name {
        url := Some(Strip(attrs[i].1));
      }
      i := i + 1;
    }
  }

  /** A scan over every attribute that keeps the last one named `name`, in any case; its value is stripped. */
  method LastUrl<K>(attrs: seq<(K, string)>, local: K -> string, name: string) returns (url: Option<string>)
    ensures url == Stripped(LastNamed(attrs, local, name))
  {
    url := None;
    var j := 0;
    while j < |attrs|
      invariant 0 <= j <= |attrs|
      invariant url == Stripped(LastNamed(attrs[..j], local, name))
    {
      assert attrs[..j + 1][..j] == attrs[..j];
      if Lower(local(attrs[j].0)) == name {
        url := Some(Strip(attrs[j].1));
      }
      j := j + 1;
    }
    assert attrs[..j] == attrs;
  }

  /** `FirstNamed` finds the earliest matching attribute. */
  lemma {:induction false} FirstNamedIsFirst<K>(attrs: seq<(K, string)>, local: K -> string, name: string, i: nat)
    requires i < |attrs| && Lower(local(attrs[i].0)) == name
    requires forall j :: 0 <= j < i ==> Lower(local(attrs[j].0)) != name
    ensures FirstNamed(attrs, local, name) == Some(attrs[i].1)
  {
    if i > 0 {
      FirstNamedIsFirst(attrs[1..], local, name, i - 1);
    }
  }

  /** `FirstNamed` finds nothing exactly when no attribute matches. */
  lemma {:induction false} FirstNamedNone<K>(attrs: seq<(K, string)>, local: K -> string, name: string)
    ensures FirstNamed(attrs, local, name).None? <==> forall j :: 0 <= j < |attrs| ==> Lower(local(attrs[j].0)) != name
  {
    if attrs != [] {
      FirstNamedNone(attrs[1..], local, name);
      assert forall j :: 1 <= j < |attrs| ==> attrs[1..][j - 1] == attrs[j];
    }
  }

  /** `LastNamed` finds the latest matching attribute. */
  lemma {:induction false} LastNamedIsLast<K>(attrs: seq<(K, string)>, local: K -> string, name: string, i: nat)
    requires i < |attrs| && Lower(local(attrs[i].0)) == name
    requires forall j :: i < j < |attrs| ==> Lower(local(attrs[j].0)) != name
    ensures LastNamed(attrs, local, name) == Some(attrs[i].1)
  {
    if i < |attrs| - 1 {
      LastNamedIsLast(attrs[..|attrs| - 1], local, name, i);
    }
  }

  /** `LastNamed` finds nothing exactly when no attribute matches. */
  lemma {:induction false} LastNamedNone<K>(attrs: seq<(K, string)>, local: K -> string, name: string)
    ensures LastNamed(attrs, local, name).None? <==> forall j :: 0 <= j < |attrs| ==> Lower(local(attrs[j].0)) != name
  {
    if attrs != [] {
      LastNamedNone(attrs[..|attrs| - 1], local, name);
    }
  }

  /** The stripped, lowercased outline type says "source". */
  predicate IsSource(kind: string)
  {
    Lower(Strip(kind)) == "source"
  }

  /** The stripped, lowercased module type says "rss". */
  predicate IsRss(kind: string)
  {
    Lower(Strip(kind)) == "rss"
  }

  /** A value found by a scan, stripped. */
  function Stripped(v: Option<string>): Option<string>
  {
    if v.Some? then Some(Strip(v.value)) else None
  }

  /** What an outline start does: push a group label, push a blank, or file an entry. */
  datatype Outline = Grouping(name: string) | Unfiled | Filed(container: Container, url: string, title: string)

  predicate IsLink(kind: string)
  {
    Lower(kind) == "link" || Lower(kind) == "include"
  }

  /**
   * The outline rules, in order: the first `xmlUrl` (any case) makes a
   * feed, or a list when the stripped type is "source"; else a `link` or
   * `include` type makes a list from `url`; else a title makes a group.
   * A feed or list whose URL is blank, and an untitled outline, fall back
   * to the last `htmlUrl` as an opportunity.
   */
  function Classify<K(==)>(attrs: seq<(K, string)>, style: KeyStyle<K>): Outline
  {
    Decide(TitleOf(attrs, style), GetOr(attrs, style.key("type"), ""), Stripped(FirstNamed(attrs, style.local, "xmlurl")),
           Strip(GetOr(attrs, style.key("url"), "")), Stripped(LastNamed(attrs, style.local, "htmlurl")))
  }

  /**
   * The rules on the values the outline start reads: the title, the
   * type, the stripped first `xmlUrl`, the stripped `url` and the
   * stripped last `htmlUrl`.
   */
  function Decide(title: string, kind: string, xml: Option<string>, link: string, html: Option<string>): (r: Outline)
    ensures r.Grouping? <==> xml.None? && !IsLink(kind) && title != []
    ensures r.Grouping? ==> r.name == title
    ensures r.Filed? ==> r.url != [] && r.title == title
    ensures r.Filed? ==> (xml.Some? && r.url == xml.value) || (IsLink(kind) && r.url == link) || (html.Some? && r.url == html.value)
    ensures xml.Some? && xml.value != [] ==> r == Filed(if IsSource(kind) then Lists else Feeds, xml.value, title)
    ensures r.Filed? && r.container == Opportunities ==> html.Some? && r.url == html.value
    ensures r.Unfiled? ==> !r.Grouping? && (xml.Some? ==> xml.value == []) && (xml.None? && IsLink(kind) ==> link == [])
  {
    if xml.None? && !IsLink(kind) && title != [] then Grouping(title)
    else
      var url := if xml.Some? then xml.value else if IsLink(kind) then link else [];
      var c := if xml.Some? then (if IsSource(kind) then Lists else Feeds) else Lists;
      if url == [] && html.Some? then (if html.value == [] then Unfiled else Filed(Opportunities, html.value, title))
      else if url == [] then Unfiled
      else Filed(c, url, title)
  }

  /** The outline rules in terms of the attributes; every URL filed is stripped. */
  lemma ClassifyRules<K>(attrs: seq<(K, string)>, style: KeyStyle<K>)
    ensures var r := Classify(attrs, style);
      && (r.Grouping? <==>
            FirstNamed(attrs, style.local, "xmlurl").None? && !IsLink(GetOr(attrs, style.key("type"), "")) &&
            TitleOf(attrs, style) != [])
      && (r.Grouping? ==> r.name == TitleOf(attrs, style))
      && (r.Filed? ==> r.url != [] && Strip(r.url) == r.url && r.title == TitleOf(attrs, style))
    ensures var r := Classify(attrs, style);
      r.Filed? && r.container == Opportunities ==>
        LastNamed(attrs, style.local, "htmlurl").Some? && r.url == Strip(LastNamed(attrs, style.local, "htmlurl").value)
  {
    var xml := FirstNamed(attrs, style.local, "xmlurl");
    var html := LastNamed(attrs, style.local, "htmlurl");
    var link := GetOr(attrs, style.key("url"), "");
    var title := TitleOf(attrs, style);
    var kind := GetOr(attrs, style.key("type"), "");
    assert Classify(attrs, style) == Decide(title, kind, Stripped(xml), Strip(link), Stripped(html));
    DecideStripped(title, kind, xml, link, html);
  }

  /** `Decide` on stripped candidates: what it files is stripped, and an htmlUrl filing is the stripped htmlUrl. */
  lemma DecideStripped(title: string, kind: string, xml: Option<string>, link: string, html: Option<string>)
    ensures var r := Decide(title, kind, Stripped(xml), Strip(link), Stripped(html));
      && (r.Grouping? <==> xml.None? && !IsLink(kind) && title != [])
      && (r.Grouping? ==> r.name == title)
      && (r.Filed? ==> r.url != [] && Strip(r.url) == r.url && r.title == title)
      && (r.Filed? && r.container == Opportunities ==> html.Some? && r.url == Strip(html.value))
  {
    var x, l, h := Stripped(xml), Strip(link), Stripped(html);
    var r := Decide(title, kind, x, l, h);
    assert x.None? <==> xml.None?;
    if r.Filed? {
      if x.Some? && r.url == x.value {
        StripIdempotent(xml.value);
      } else if IsLink(kind) && r.url == l {
        StripIdempotent(link);
      } else {
        StripIdempotent(html.value);
      }
    }
  }

  // ---------------------------------------------------------------------
  // Head metadata

  datatype OwnerField = OwnerId | OwnerEmail | OwnerName
  datatype DateField = DateCreated | DateModified

  /** `meta.setdefault('author', {})` followed by setting one owner key. */
  function SetOwner(meta: Meta, field: OwnerField, value: string): (r: Meta)
    ensures r.author.Some? && r.(author := meta.author) == meta
    ensures var a := if meta.author.Some? then meta.author.value else NoAuthor;
      r.author.value == match field
        case OwnerId => a.(url := Some(value))
        case OwnerEmail => a.(email := Some(value))
        case OwnerName => a.(name := Some(value))
  {
    var a := if meta.author.Some? then meta.author.value else NoAuthor;
    meta.(author := Some(match field
      case OwnerId => a.(url := Some(value))
      case OwnerEmail => a.(email := Some(value))
      case OwnerName => a.(name := Some(value))))
  }

  /** The raw text of a date element. */
  function SetDate(meta: Meta, field: DateField, value: string): Meta
  {
    match field
    case DateCreated => meta.(created := Some(value))
    case DateModified => meta.(modified := Some(value))
  }

  /** The parsed value of a date element. */
  function SetParsed(meta: Meta, field: DateField, stamp: Stamp): Meta
  {
    match field
    case DateCreated => meta.(createdParsed := Some(stamp))
    case DateModified => meta.(modifiedParsed := Some(stamp))
  }

  function DateMessage(field: DateField): string
  {
    match field
    case DateCreated => "dateCreated is not an RFC 822 datetime"
    case DateModified => "dateModified is not an RFC 822 datetime"
  }

  /** The newer handler's date parser: `parse_rfc822`, which keeps the zone. */
  function SrcStamp(value: string): (r: Option<Stamp>)
    ensures r.Some? <==> DatesSrc.ParseRfc822(value).Some?
    ensures r.Some? ==> r.value == Aware(DatesSrc.ParseRfc822(value).value)
  {
    match DatesSrc.ParseRfc822(value)
    case Some(z) => Some(Aware(z))
    case None => None
  }

  // ---------------------------------------------------------------------
  // FOAF pending objects and iGoogle feeds

  /** `(container, {url, title})` for each pending URL, in order. */
  function Tagged(c: Container, urls: seq<string>, title: string): (r: seq<Pending>)
    ensures |r| == |urls|
    ensures forall i :: 0 <= i < |urls| ==> r[i] == Pending(c, urls[i], title)
  {
    if urls == [] then [] else Tagged(c, urls[..|urls| - 1], title) + [Pending(c, urls[|urls| - 1], title)]
  }

  /** The title pending objects get: the innermost `foaf:name`, or "". */
  function NameOf(names: seq<string>): string
  {
    if names == [] then "" else names[|names| - 1]
  }

  /** A ModulePrefs feed: title "", categories only under a hierarchy, tags only at depth one. */
  function GadgetFeed(url: string, hierarchy: seq<string>): (e: Entry)
    ensures e.url == url && e.title == ""
    ensures e.categories.Some? <==> hierarchy != []
    ensures hierarchy != [] ==> e.categories == Some([hierarchy])
    ensures e.tags.Some? <==> |hierarchy| == 1
    ensures TagsAgree(e)
  {
    var e := Entry(url, "", if hierarchy != [] then Some([hierarchy]) else None,
                   if |hierarchy| == 1 then Some(hierarchy) else None);
    assert TagsAgree(e) by {
      if |hierarchy| == 1 {
        assert hierarchy == [hierarchy[0]];
      }
    }
    e
  }

  // ---------------------------------------------------------------------
  // The handler state

  /** What the pending lists turn into when flushed: feeds, then lists, then opportunities. */
  function Flushed(feeds: seq<string>, lists: seq<string>, opps: seq<string>, names: seq<string>): seq<Pending>
  {
    Tagged(Feeds, feeds, NameOf(names)) + Tagged(Lists, lists, NameOf(names)) + Tagged(Opportunities, opps, NameOf(names))
  }

  /** Staging the three lists one after the other appends their flush. */
  lemma StagedFlushed(objs: seq<Pending>, feeds: seq<string>, lists: seq<string>, opps: seq<string>, names: seq<string>)
    ensures objs + Tagged(Feeds, feeds, NameOf(names)) + Tagged(Lists, lists, NameOf(names))
      + Tagged(Opportunities, opps, NameOf(names)) == objs + Flushed(feeds, lists, opps, names)
  {
  }

  /**
   * Flushing keeps every pending URL, in order, with the container its
   * list stands for and the innermost name as title.
   */
  lemma FlushedInOrder(feeds: seq<string>, lists: seq<string>, opps: seq<string>, names: seq<string>)
    ensures var r := Flushed(feeds, lists, opps, names);
      && |r| == |feeds| + |lists| + |opps|
      && (forall i :: 0 <= i < |r| ==> r[i].url == (feeds + lists + opps)[i] && r[i].title == NameOf(names))
      && (forall i :: 0 <= i < |r| ==>
            r[i].container == (if i < |feeds| then Feeds else if i < |feeds| + |lists| then Lists else Opportunities))
  {
    var t := NameOf(names);
    var r := Flushed(feeds, lists, opps, names);
    forall i | 0 <= i < |r|
      ensures r[i].url == (feeds + lists + opps)[i]
    {
      if i < |feeds| {
        assert r[i] == Tagged(Feeds, feeds, t)[i];
      } else if i < |feeds| + |lists| {
        assert r[i] == Tagged(Lists, lists, t)[i - |feeds|];
      } else {
        assert r[i] == Tagged(Opportunities, opps, t)[i - |feeds| - |lists|];
      }
    }
  }

  /** The outline's category loop: each comma-separated piece's path, when non-empty and new, is appended. */
  method AddCategoryPaths(cats: seq<seq<string>>, pieces: seq<string>) returns (r: seq<seq<string>>)
    ensures r == AddPaths(cats, Paths(pieces))
  {
    r := cats;
    var k := 0;
    while k < |pieces|
      invariant 0 <= k <= |pieces|
      invariant r == AddPaths(cats, Paths(pieces)[..k])
    {
      assert Paths(pieces)[..k + 1][..k] == Paths(pieces)[..k];
      var path := PathOf(pieces[k]);
      if path != [] && path !in r {
        r := r + [path];
      }
      k := k + 1;
    }
    assert Paths(pieces)[..k] == Paths(pieces);
  }

  /**
   * The outline start's reads: the title, the type, the two scans over
   * the attributes and the `url` attribute, then the rules.  The handler
   * scans for `htmlUrl` only when no URL was found yet; the scan reads
   * and changes nothing, so running it always gives the same outline.
   */
  method ClassifyOutline<K(==)>(attrs: seq<(K, string)>, style: KeyStyle<K>) returns (o: Outline)
    ensures o == Classify(attrs, style)
  {
    var title := TitleOf(attrs, style);
    var kind := GetOr(attrs, style.key("type"), "");
    var xml := FirstUrl(attrs, style.local, "xmlurl");
    var link := Strip(GetOr(attrs, style.key("url"), ""));
    var html := LastUrl(attrs, style.local, "htmlurl");
    o := Decide(title, kind, xml, link, html);
  }

  /** What an outline start pushes on the hierarchy. */
  function Pushed(o: Outline): string
  {
    if o.Grouping? then o.name else ""
  }

  /** The store after an outline start. */
  function Filing(s: Store, o: Outline, category: Option<string>, hierarchy: seq<string>): (r: Store)
    requires Coherent(s)
    ensures Coherent(r)
    ensures !o.Filed? ==> r == s
  {
    if o.Filed? then FileOutline(s, o.container, o.url, o.title, category, hierarchy) else s
  }

  /**
   * The harvest and handler state shared by the three dialect mixins.
   * `store` holds the three harvest containers together with
   * `found_urls`; `bozo` is a boolean (the older package writes 1).
   * Every handler names the fields it may change in its `modifies`
   * clause; the others keep their values.
   */
  class BaseHandler {
    var version: string
    var bozo: bool
    var bozoException: Option<Failure>
    var meta: Meta
    var store: Store
    var expecting: bool
    var characters: string
    var hierarchy: seq<string>
    var flagAgent: bool
    var flagFeed: bool
    var flagNewTitle: bool
    var flagOpportunity: bool
    var flagGroup: bool
    var groupObjs: seq<Pending>
    var agentFeeds: seq<string>
    var agentLists: seq<string>
    var agentOpps: seq<string>
    var foafName: seq<string>

    /** A fresh handler whose harvest already holds the guaranteed keys. */
    constructor ()
      ensures Sound(store)
      ensures version == "" && !bozo && bozoException == None && meta == EmptyMeta && store == EmptyStore
      ensures !expecting && characters == "" && hierarchy == []
      ensures !flagAgent && !flagFeed && !flagNewTitle && !flagOpportunity && !flagGroup
      ensures groupObjs == [] && agentFeeds == [] && agentLists == [] && agentOpps == [] && foafName == []
    {
      version, bozo, bozoException, meta, store := "", false, None, EmptyMeta, EmptyStore;
      expecting, characters, hierarchy := false, "", [];
      flagAgent, flagFeed, flagNewTitle, flagOpportunity, flagGroup := false, false, false, false, false;
      groupObjs, agentFeeds, agentLists, agentOpps, foafName := [], [], [], [], [];
    }

    // -------------------------------------------------------------------
    // Shared

    /** `raise_bozo`: bozo is always set; a string is wrapped in a ListError, an error kept. */
    method RaiseBozo(err: Raised)
      modifies this`bozo, this`bozoException
      ensures bozo && bozoException == Some(Recorded(err))
    {
      bozo := true;
      match err
      case Message(text) => bozoException := Some(ListError(text));
      case Exception(e) => bozoException := Some(e);
    }

    /** `_expect_characters`: capture starts afresh. */
    method ExpectCharacters()
      modifies this`expecting, this`characters
      ensures expecting && characters == ""
    {
      expecting := true;
      characters := "";
    }

    /** `characters`/`data`: text is appended only while capture is on. */
    method Characters(content: string)
      modifies this`characters
      ensures characters == if expecting then old(characters) + content else old(characters)
    {
      if expecting {
        characters := characters + content;
      }
    }

    /** What the dispatchers do once an end handler has run: capture is off and empty. */
    method StopCapture()
      modifies this`expecting, this`characters
      ensures !expecting && characters == ""
    {
      expecting := false;
      characters := "";
    }

    // -------------------------------------------------------------------
    // OPML

    method StartOpmlOpml<K(==)>(attrs: seq<(K, string)>, style: KeyStyle<K>)
      modifies this`version
      ensures version == OpmlVersion(Get(attrs, style.key("version")))
    {
      version := "opml";
      var v := Get(attrs, style.key("version"));
      if FirstEdition(v) {
        version := "opml1";
      } else if SecondEdition(v) {
        version := "opml2";
      }
    }

    /**
     * An outline start: exactly one hierarchy element is pushed, and the
     * store changes only when the outline is filed.
     */
    method StartOpmlOutline<K(==)>(attrs: seq<(K, string)>, style: KeyStyle<K>)
      requires Sound(store)
      modifies this`hierarchy, this`store
      ensures Sound(store)
      ensures hierarchy == old(hierarchy) + [Pushed(Classify(attrs, style))]
      ensures store == Filing(old(store), Classify(attrs, style), Get(attrs, style.key("category")), old(hierarchy))
    {
      var outline := ClassifyOutline(attrs, style);
      match outline
      case Grouping(name) =>
        hierarchy := hierarchy + [name];
      case Unfiled =>
        hierarchy := hierarchy + [""];
      case Filed(c, url, title) =>
        FileEntry(c, url, title, Get(attrs, style.key("category")), hierarchy);
        hierarchy := hierarchy + [""];
    }

    /**
     * Files an outline's URL through `found_urls`, then grows its
     * categories from the category attribute and the hierarchy, and
     * recomputes its tags.
     */
    method FileEntry(c: Container, url: string, title: string, category: Option<string>, labels: seq<string>)
      requires Sound(store)
      modifies this`store
      ensures Sound(store)
      ensures store == FileOutline(old(store), c, url, title, category, labels)
    {
      var (filed, loc) := File(store, c, url, title);
      var e := At(filed, loc);
      var cats := CategoriesOf(e);
      if category.Some? {
        cats := AddCategoryPaths(cats, SplitOn(category.value, ','));
      }
      if labels != [] && labels !in cats {
        cats := cats + [labels];
      }
      assert cats == AddPath(Categorized(CategoriesOf(e), category), labels);
      store := Put(filed, loc, e.(categories := Some(cats), tags := Some(TagsOf(cats))));
      FileOutlineAgrees(old(store), c, url, title, category, labels);
    }

    /** `_end_opml_outline` as written: pops unconditionally, so an empty hierarchy raises IndexError. */
    method EndOpmlOutline() returns (raised: bool)
      modifies this`hierarchy
      ensures raised <==> old(hierarchy) == []
      ensures hierarchy == if raised then old(hierarchy) else old(hierarchy)[..|old(hierarchy)| - 1]
    {
      if hierarchy == [] {
        return true;
      }
      hierarchy := hierarchy[..|hierarchy| - 1];
      return false;
    }

    /** `if self.hierarchy: self.hierarchy.pop()`, the guarded pop of the FOAF and iGoogle ends. */
    method PopHierarchy()
      modifies this`hierarchy
      ensures hierarchy == if old(hierarchy) == [] then [] else old(hierarchy)[..|old(hierarchy)| - 1]
    {
      if hierarchy != [] {
        hierarchy := hierarchy[..|hierarchy| - 1];
      }
    }

    /** The outline end with the pop guarded, as the FOAF and iGoogle ends already do. */
    method EndOpmlOutlineGuarded()
      modifies this`hierarchy
      ensures hierarchy == if old(hierarchy) == [] then [] else old(hierarchy)[..|old(hierarchy)| - 1]
    {
      PopHierarchy();
    }

    /** `_end_opml_title`: the stripped text, only when it is not blank. */
    method EndOpmlTitle()
      modifies this`meta
      ensures meta == if Strip(old(characters)) == [] then old(meta) else old(meta).(title := Some(Strip(old(characters))))
    {
      var value := Strip(characters);
      if value != [] {
        meta := meta.(title := Some(value));
      }
    }

    /** `_end_opml_ownerId`, `_end_opml_ownerEmail`, `_end_opml_ownerName`. */
    method EndOpmlOwner(field: OwnerField)
      modifies this`meta
      ensures meta == if Strip(old(characters)) == [] then old(meta) else SetOwner(old(meta), field, Strip(old(characters)))
    {
      var value := Strip(characters);
      if value != [] {
        meta := SetOwner(meta, field, value);
      }
    }

    /**
     * `_end_opml_dateCreated`, `_end_opml_dateModified`: the raw text is
     * kept; a parsed stamp is stored, or `raise_bozo` is called when the
     * text does not parse.
     */
    method EndOpmlDate(field: DateField, parse: string -> Option<Stamp>)
      modifies this`meta, this`bozo, this`bozoException
      ensures var value := Strip(old(characters));
        if value == [] then meta == old(meta) && bozo == old(bozo) && bozoException == old(bozoException)
        else if parse(value).Some? then
          meta == SetParsed(SetDate(old(meta), field, value), field, parse(value).value) &&
          bozo == old(bozo) && bozoException == old(bozoException)
        else
          meta == SetDate(old(meta), field, value) && bozo && bozoException == Some(ListError(DateMessage(field)))
    {
      var value := Strip(characters);
      if value != [] {
        meta := SetDate(meta, field, value);
        var stamp := parse(value);
        if stamp.Some? {
          meta := SetParsed(meta, field, stamp.value);
        } else {
          RaiseBozo(Message(DateMessage(field)));
        }
      }
    }

    // -------------------------------------------------------------------
    // FOAF

    method StartRdfRdf()
      modifies this`version
      ensures version == "rdf"
    {
      version := "rdf";
    }

    /** An `rss:channel` with an `rdf:about` is a feed, and it cancels a pending opportunity. */
    method StartRssChannel(attrs: seq<(QName, string)>)
      requires flagOpportunity ==> agentOpps != []
      modifies this`flagOpportunity, this`agentOpps, this`agentFeeds
      ensures flagOpportunity ==> agentOpps != []
      ensures var about := Strip(GetOr(attrs, RdfKey("about"), ""));
        if about == [] then
          flagOpportunity == old(flagOpportunity) && agentOpps == old(agentOpps) && agentFeeds == old(agentFeeds)
        else
          !flagOpportunity && agentFeeds == old(agentFeeds) + [about] &&
          agentOpps == if old(flagOpportunity) then old(agentOpps)[..|old(agentOpps)| - 1] else old(agentOpps)
    {
      var about := Strip(GetOr(attrs, RdfKey("about"), ""));
      if about != [] {
        if flagOpportunity {
          flagOpportunity := false;
          agentOpps := agentOpps[..|agentOpps| - 1];
        }
        agentFeeds := agentFeeds + [about];
      }
    }

    /** A `ya:feed` with an `rdf:resource` is a pending feed. */
    method StartYaFeed(attrs: seq<(QName, string)>)
      modifies this`agentFeeds
      ensures var resource := Strip(GetOr(attrs, RdfKey("resource"), ""));
        agentFeeds == if resource == [] then old(agentFeeds) else old(agentFeeds) + [resource]
    {
      var resource := Strip(GetOr(attrs, RdfKey("resource"), ""));
      if resource != [] {
        agentFeeds := agentFeeds + [resource];
      }
    }

    /** An `rdfs:seeAlso` with an `rdf:resource` is a pending subscription list. */
    method StartRdfsSeeAlso(attrs: seq<(QName, string)>)
      modifies this`agentLists
      ensures var resource := Strip(GetOr(attrs, RdfKey("resource"), ""));
        agentLists == if resource == [] then old(agentLists) else old(agentLists) + [resource]
    {
      var resource := Strip(GetOr(attrs, RdfKey("resource"), ""));
      if resource != [] {
        agentLists := agentLists + [resource];
      }
    }

    /** A `foaf:Document` with an `rdf:about` is a pending opportunity. */
    method StartFoafDocument(attrs: seq<(QName, string)>)
      requires flagOpportunity ==> agentOpps != []
      modifies this`flagOpportunity, this`agentOpps
      ensures flagOpportunity ==> agentOpps != []
      ensures var about := Strip(GetOr(attrs, RdfKey("about"), ""));
        if about == [] then flagOpportunity == old(flagOpportunity) && agentOpps == old(agentOpps)
        else flagOpportunity && agentOpps == old(agentOpps) + [about]
    {
      var about := Strip(GetOr(attrs, RdfKey("about"), ""));
      if about != [] {
        flagOpportunity := true;
        agentOpps := agentOpps + [about];
      }
    }

    /** Appends `(c, {url, title})` for every URL, in order. */
    method Stage(c: Container, urls: seq<string>, title: string)
      modifies this`groupObjs
      ensures groupObjs == old(groupObjs) + Tagged(c, urls, title)
    {
      var i := 0;
      while i < |urls|
        invariant 0 <= i <= |urls|
        invariant groupObjs == old(groupObjs) + Tagged(c, urls[..i], title)
      {
        assert urls[..i + 1][..i] == urls[..i];
        groupObjs := groupObjs + [Pending(c, urls[i], title)];
        i := i + 1;
      }
      assert urls[..i] == urls;
    }

    /** `_clean_found_objs`: the pending lists are flushed to `group_objs` but not cleared. */
    method CleanFoundObjs()
      modifies this`groupObjs
      ensures groupObjs == old(groupObjs) + Flushed(old(agentFeeds), old(agentLists), old(agentOpps), old(foafName))
    {
      var title := NameOf(foafName);
      Stage(Feeds, agentFeeds, title);
      Stage(Lists, agentLists, title);
      Stage(Opportunities, agentOpps, title);
      StagedFlushed(old(groupObjs), agentFeeds, agentLists, agentOpps, foafName);
    }

    method StartFoafAgent()
      modifies this`flagAgent, this`flagFeed, this`flagNewTitle
      ensures flagAgent && flagFeed && flagNewTitle
    {
      flagAgent := true;
      flagFeed := true;
      flagNewTitle := true;
    }

    /** Agent and Person end: flush, drop the innermost name, reset the pending lists and flags. */
    method EndFoafAgent()
      modifies this`groupObjs, this`foafName, this`agentFeeds, this`agentLists, this`agentOpps
      modifies this`flagAgent, this`flagFeed, this`flagOpportunity
      ensures groupObjs == old(groupObjs) + Flushed(old(agentFeeds), old(agentLists), old(agentOpps), old(foafName))
      ensures foafName == if old(foafName) == [] then [] else old(foafName)[..|old(foafName)| - 1]
      ensures agentFeeds == [] && agentLists == [] && agentOpps == []
      ensures !flagAgent && !flagFeed && !flagOpportunity
    {
      CleanFoundObjs();
      if foafName != [] {
        foafName := foafName[..|foafName| - 1];
      }
      agentFeeds := [];
      agentLists := [];
      agentOpps := [];
      flagAgent := false;
      flagFeed := false;
      flagOpportunity := false;
    }

    /** A Person start flushes what is pending straight away. */
    method StartFoafPerson()
      modifies this`flagFeed, this`flagNewTitle, this`groupObjs
      ensures flagFeed && flagNewTitle
      ensures groupObjs == old(groupObjs) + Flushed(old(agentFeeds), old(agentLists), old(agentOpps), old(foafName))
    {
      flagFeed := true;
      flagNewTitle := true;
      CleanFoundObjs();
    }

    method StartFoafGroup()
      modifies this`flagGroup
      ensures flagGroup
    {
      flagGroup := true;
    }

    /**
     * Group end (and `rdf:RDF` end): every pending object is merged
     * through `found_urls`, `group_objs` is cleared and the hierarchy
     * popped when it is not empty.
     */
    method EndFoafGroup()
      requires Sound(store)
      modifies this`flagGroup, this`store, this`groupObjs, this`hierarchy
      ensures Sound(store)
      ensures !flagGroup && groupObjs == []
      ensures store == MergeAll(old(store), old(groupObjs), old(hierarchy))
      ensures hierarchy == if old(hierarchy) == [] then [] else old(hierarchy)[..|old(hierarchy)| - 1]
    {
      flagGroup := false;
      MergeGroup(groupObjs, hierarchy);
      groupObjs := [];
      PopHierarchy();
    }

    /** The group end's loop: every pending object, in order, merged under the hierarchy. */
    method MergeGroup(objs: seq<Pending>, labels: seq<string>)
      requires Sound(store)
      modifies this`store
      ensures Sound(store)
      ensures store == MergeAll(old(store), objs, labels)
    {
      MergeAllAgrees(store, objs, labels);
      var i := 0;
      while i < |objs|
        invariant 0 <= i <= |objs|
        invariant store == MergeAll(old(store), objs[..i], labels)
      {
        MergeAllStep(old(store), objs, i, labels);
        MergeStep(objs[i], labels);
        i := i + 1;
      }
      assert objs[..i] == objs;
    }

    /** One round of the merge loop, written the way the handler does it. */
    method MergeStep(obj: Pending, hierarchy: seq<string>)
      requires Coherent(store)
      modifies this`store
      ensures store == Merge(old(store), obj, hierarchy)
    {
      var (filed, loc) := File(store, obj.container, obj.url, obj.title);
      var e := At(filed, loc);
      var cats := CategoriesOf(e);
      var tags := TagsField(e);
      if hierarchy != [] && hierarchy !in cats {
        cats := cats + [hierarchy];
      }
      if |hierarchy| == 1 && hierarchy[0] !in tags {
        tags := tags + hierarchy;
      }
      store := Put(filed, loc, e.(categories := Some(cats), tags := Some(tags)));
    }

    /**
     * `foaf:name` (and `foaf:member_name`) end: a new agent's first name,
     * even blank, is pushed; otherwise a non-blank group name labels the
     * hierarchy.
     */
    method EndFoafName()
      modifies this`foafName, this`flagNewTitle, this`hierarchy, this`flagGroup
      ensures var value := Strip(old(characters));
        if old(flagFeed && flagNewTitle) then
          foafName == old(foafName) + [value] && !flagNewTitle &&
          hierarchy == old(hierarchy) && flagGroup == old(flagGroup)
        else if old(flagGroup) && value != [] then
          hierarchy == old(hierarchy) + [value] && !flagGroup &&
          foafName == old(foafName) && flagNewTitle == old(flagNewTitle)
        else
          foafName == old(foafName) && flagNewTitle == old(flagNewTitle) &&
          hierarchy == old(hierarchy) && flagGroup == old(flagGroup)
    {
      var value := Strip(characters);
      if flagFeed && flagNewTitle {
        foafName := foafName + [value];
        flagNewTitle := false;
      } else if flagGroup && value != [] {
        hierarchy := hierarchy + [value];
        flagGroup := false;
      }
    }

    // -------------------------------------------------------------------
    // iGoogle

    method StartGtmlGadgetTabML()
      modifies this`version
      ensures version == "igoogle"
    {
      version := "igoogle";
    }

    /** A Tab pushes its stripped title when it has a non-blank one. */
    method StartGtmlTab(attrs: seq<(QName, string)>)
      modifies this`hierarchy
      ensures var title := Strip(GetOr(attrs, (None, "title"), ""));
        hierarchy == if title == [] then old(hierarchy) else old(hierarchy) + [title]
    {
      var title := Strip(GetOr(attrs, (None, "title"), ""));
      if title != [] {
        hierarchy := hierarchy + [title];
      }
    }

    /** Tab end pops whenever the hierarchy is not empty, whether or not its start pushed. */
    method EndGtmlTab()
      modifies this`hierarchy
      ensures hierarchy == if old(hierarchy) == [] then [] else old(hierarchy)[..|old(hierarchy)| - 1]
    {
      PopHierarchy();
    }

    /** A Module whose stripped, lowercased type is "rss" holds feeds. */
    method StartIGoogleModule(attrs: seq<(QName, string)>)
      modifies this`flagFeed
      ensures flagFeed == (old(flagFeed) || IsRss(GetOr(attrs, (None, "type"), "")))
    {
      if IsRss(GetOr(attrs, (None, "type"), "")) {
        flagFeed := true;
      }
    }

    method EndIGoogleModule()
      modifies this`flagFeed
      ensures !flagFeed
    {
      flagFeed := false;
    }

    /** Inside an rss Module, a non-blank `xmlUrl` appends a new feed, bypassing `found_urls`. */
    method StartIGoogleModulePrefs(attrs: seq<(QName, string)>)
      requires Sound(store)
      modifies this`store
      ensures Sound(store)
      ensures var url := Strip(GetOr(attrs, (None, "xmlUrl"), ""));
        store == if old(flagFeed) && url != [] then Append(old(store), Feeds, GadgetFeed(url, old(hierarchy))) else old(store)
    {
      var url := Strip(GetOr(attrs, (None, "xmlUrl"), ""));
      if flagFeed && url != [] {
        var e := GadgetFeed(url, hierarchy);
        ghost var s0 := store;
        store := Append(store, Feeds, e);
        assert AllTagsAgree(store) by {
          forall loc | Holds(store, loc)
            ensures TagsAgree(At(store, loc))
          {
            if !Holds(s0, loc) {
              assert At(store, loc) == e;
            }
          }
        }
      }
    }
  }

  /**
   * A titled outline wrapping an untitled `gtml:Tab`: the Tab end pops the
   * outline's label although the Tab start pushed nothing, so the outline
   * end then pops an empty hierarchy and raises.
   */
  method TabInsideOutline() returns (raised: bool)
    ensures raised
  {
    var h := new BaseHandler();
    h.StartOpmlOutline([("text", "a")], PlainKeys);
    h.StartGtmlTab([]);
    h.EndGtmlTab();
    raised := h.EndOpmlOutline();
  }

  /** With the guarded pop the same events leave the hierarchy empty. */
  method TabInsideOutlineGuarded() returns (labels: seq<string>)
    ensures labels == []
  {
    var h := new BaseHandler();
    h.StartOpmlOutline([("text", "a")], PlainKeys);
    h.StartGtmlTab([]);
    h.EndGtmlTab();
    h.EndOpmlOutlineGuarded();
    labels := h.hierarchy;
  }
}
