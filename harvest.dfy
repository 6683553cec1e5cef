/**
 * The harvest the dialect handlers fill: three containers of entries
 * (`feeds`, `lists`, `opportunities`) and the `found_urls` index that
 * de-duplicates them, plus the category and tag derivation shared by the
 * OPML and FOAF handlers.
 *
 * Python keeps the same entry object both in a container and in
 * `found_urls`, and later grows its categories in place.  Here an entry
 * lives in its container only and `found_urls` records where: the
 * container and the index.  Containers are only ever appended to, so a
 * recorded index stays valid.
 */
module Harvest {
  import opened Text
  import Calendar
  import DatesSrc

  datatype Container = Feeds | Lists | Opportunities

  /**
   * One harvested subscription.  `None` stands for a key the entry was
   * never given: iGoogle adds `categories` and `tags` only conditionally.
   */
  datatype Entry = Entry(url: string, title: string, categories: Option<seq<seq<string>>>, tags: Option<seq<string>>)

  /** Where `found_urls` says an entry lives. */
  datatype Location = Location(container: Container, index: nat)

  /** The three containers and `found_urls`. */
  datatype Store = Store(feeds: seq<Entry>, lists: seq<Entry>, opportunities: seq<Entry>, found: map<string, Location>)

  const EmptyStore := Store([], [], [], map[])

  /** A parsed timestamp: the newer parser keeps the zone, the older one yields naive UTC. */
  datatype Stamp = Aware(zoned: DatesSrc.Zoned) | Naive(utc: Calendar.DateTime)

  datatype Author = Author(url: Option<string>, email: Option<string>, name: Option<string>)

  /** `harvest['meta']`: every key is optional. */
  datatype Meta = Meta(
    title: Option<string>,
    author: Option<Author>,
    created: Option<string>,
    createdParsed: Option<Stamp>,
    modified: Option<string>,
    modifiedParsed: Option<Stamp>)

  const EmptyMeta := Meta(None, None, None, None, None, None)
  const NoAuthor := Author(None, None, None)

  /**
   * A recorded `bozo_exception`.  `message` is what `str()` of the
   * exception shows, which is all `parse` inspects.
   */
  datatype Failure =
    | ListError(message: string)
    | ParserError(message: string)
    | FetchError(message: string)

  /** What `raise_bozo` is handed: a string, or an exception object. */
  datatype Raised = Message(text: string) | Exception(error: Failure)

  /** `raise_bozo`'s choice of what to store: a string is wrapped, an object kept. */
  function Recorded(err: Raised): (f: Failure)
    ensures err.Message? ==> f.ListError? && f.message == err.text
    ensures err.Exception? ==> f == err.error
  {
    match err
    case Message(text) => ListError(text)
    case Exception(e) => e
  }

  // ---------------------------------------------------------------------
  // The store

  function Items(s: Store, c: Container): seq<Entry>
  {
    match c
    case Feeds => s.feeds
    case Lists => s.lists
    case Opportunities => s.opportunities
  }

  function WithItems(s: Store, c: Container, items: seq<Entry>): (r: Store)
    ensures Items(r, c) == items
    ensures forall d :: d != c ==> Items(r, d) == Items(s, d)
    ensures r.found == s.found
  {
    match c
    case Feeds => s.(feeds := items)
    case Lists => s.(lists := items)
    case Opportunities => s.(opportunities := items)
  }

  predicate Holds(s: Store, loc: Location)
  {
    loc.index < |Items(s, loc.container)|
  }

  function At(s: Store, loc: Location): Entry
    requires Holds(s, loc)
  {
    Items(s, loc.container)[loc.index]
  }

  /** Every URL in `found_urls` points at an entry carrying that URL. */
  predicate Coherent(s: Store)
  {
    forall u :: u in s.found ==> Holds(s, s.found[u]) && At(s, s.found[u]).url == u
  }

  /** A brand-new `{url, title}` entry. */
  function Fresh(url: string, title: string): Entry
  {
    Entry(url, title, None, None)
  }

  /** Appending to a container without recording the URL (what iGoogle does). */
  function Append(s: Store, c: Container, e: Entry): (r: Store)
    ensures Items(r, c) == Items(s, c) + [e]
    ensures forall d :: d != c ==> Items(r, d) == Items(s, d)
    ensures r.found == s.found
    ensures forall loc :: Holds(s, loc) ==> Holds(r, loc) && At(r, loc) == At(s, loc)
    ensures Coherent(s) ==> Coherent(r)
  {
    WithItems(s, c, Items(s, c) + [e])
  }

  /**
   * The `found_urls` lookup: a known URL keeps its first location (so its
   * first title and container win); an unknown one gets a fresh entry at
   * the end of `c`, recorded under the URL.
   */
  function File(s: Store, c: Container, url: string, title: string): (r: (Store, Location))
    requires Coherent(s)
    ensures Coherent(r.0) && Holds(r.0, r.1) && At(r.0, r.1).url == url
    ensures r.0.found == s.found[url := r.1]
    ensures url in s.found ==> r.0 == s && r.1 == s.found[url]
    ensures url !in s.found ==> r.1 == Location(c, |Items(s, c)|) && At(r.0, r.1) == Fresh(url, title)
    ensures forall d :: Items(s, d) <= Items(r.0, d)
    ensures forall d :: |Items(r.0, d)| == |Items(s, d)| + (if url !in s.found && d == c then 1 else 0)
    ensures forall loc :: Holds(s, loc) ==> Holds(r.0, loc) && At(r.0, loc) == At(s, loc)
  {
    if url in s.found then (s, s.found[url])
    else
      var loc := Location(c, |Items(s, c)|);
      FreshFiled(s, c, url, title);
      (Append(s, c, Fresh(url, title)).(found := s.found[url := loc]), loc)
  }

  /** A new URL: its entry is appended to `c` and recorded, and nothing else moves. */
  lemma FreshFiled(s: Store, c: Container, url: string, title: string)
    requires Coherent(s) && url !in s.found
    ensures var loc := Location(c, |Items(s, c)|);
      var r := Append(s, c, Fresh(url, title)).(found := s.found[url := loc]);
      && Coherent(r) && Holds(r, loc) && At(r, loc) == Fresh(url, title)
      && (forall d :: Items(r, d) == Items(s, d) + (if d == c then [Fresh(url, title)] else []))
      && (forall l :: Holds(s, l) ==> Holds(r, l) && At(r, l) == At(s, l))
  {
    var loc := Location(c, |Items(s, c)|);
    var t := Append(s, c, Fresh(url, title));
    var r := t.(found := s.found[url := loc]);
    assert forall d :: Items(r, d) == Items(t, d);
    forall u | u in r.found
      ensures Holds(r, r.found[u]) && At(r, r.found[u]).url == u
    {
      if u != url {
        assert Holds(s, s.found[u]);
      }
    }
  }

  /** Replacing the entry at a location; the URL must stay the same to keep the index right. */
  function Put(s: Store, loc: Location, e: Entry): (r: Store)
    requires Holds(s, loc)
    ensures Holds(r, loc) && At(r, loc) == e
    ensures r.found == s.found
    ensures forall d :: |Items(r, d)| == |Items(s, d)|
    ensures forall l :: Holds(s, l) && l != loc ==> At(r, l) == At(s, l)
    ensures Coherent(s) && e.url == At(s, loc).url ==> Coherent(r)
  {
    WithItems(s, loc.container, Items(s, loc.container)[loc.index := e])
  }

  // ---------------------------------------------------------------------
  // Categories and tags

  predicate NoDuplicates<T(==)>(s: seq<T>)
  {
    forall i, j :: 0 <= i < j < |s| ==> s[i] != s[j]
  }

  /** The pieces stripped, with the blank ones dropped, in order. */
  function Kept(pieces: seq<string>): seq<string>
  {
    if pieces == [] then []
    else if Strip(pieces[0]) == [] then Kept(pieces[1..])
    else [Strip(pieces[0])] + Kept(pieces[1..])
  }

  /** Every kept piece is non-blank and already stripped, and a character no piece holds stays out. */
  lemma {:induction false} KeptShape(pieces: seq<string>, sep: char)
    requires forall j :: 0 <= j < |pieces| ==> sep !in pieces[j]
    ensures forall x :: x in Kept(pieces) ==> x != [] && sep !in x && Strip(x) == x
  {
    if pieces != [] {
      assert forall j :: 0 <= j < |pieces[1..]| ==> pieces[1..][j] == pieces[j + 1];
      KeptShape(pieces[1..], sep);
      if Strip(pieces[0]) != [] {
        StripIdempotent(pieces[0]);
        StripWithin(pieces[0]);
      }
    }
  }

  /** No non-blank piece is lost. */
  lemma {:induction false} KeptKeeps(pieces: seq<string>)
    ensures forall x :: x in pieces && Strip(x) != [] ==> Strip(x) in Kept(pieces)
  {
    if pieces != [] {
      var rest := pieces[1..];
      KeptKeeps(rest);
      assert Kept(pieces) == Kept(rest) || Kept(pieces) == [Strip(pieces[0])] + Kept(rest);
      assert forall x :: x in pieces ==> x == pieces[0] || x in rest;
    }
  }

  /** One comma-separated category: its '/'-separated labels, stripped, blanks dropped. */
  function PathOf(piece: string): (r: seq<string>)
    ensures forall i :: 0 <= i < |r| ==> r[i] != [] && '/' !in r[i] && Strip(r[i]) == r[i]
    ensures forall part :: part in SplitOn(piece, '/') && Strip(part) != [] ==> Strip(part) in r
  {
    KeptShape(SplitOn(piece, '/'), '/');
    KeptKeeps(SplitOn(piece, '/'));
    Kept(SplitOn(piece, '/'))
  }

  /** What `strip()` keeps is a slice of its input. */
  lemma StripWithin(s: string)
    ensures forall c :: c in Strip(s) ==> c in s
  {
    var r := RStrip(s);
    assert forall c :: c in LStrip(r) ==> c in r by {
      assert LStrip(r) == r[|r| - |LStrip(r)|..];
    }
    assert forall c :: c in r ==> c in s by {
      assert r == s[..|r|];
    }
  }

  /** Appends a path unless it is empty or already present (`if tmp and tmp not in cats`). */
  function AddPath(cats: seq<seq<string>>, p: seq<string>): (r: seq<seq<string>>)
    ensures cats <= r
    ensures forall q :: q in r <==> q in cats || (q == p && p != [])
    ensures NoDuplicates(cats) ==> NoDuplicates(r)
  {
    if p != [] && p !in cats then cats + [p] else cats
  }

  /** The path of every comma-separated piece, in order. */
  function Paths(pieces: seq<string>): (r: seq<seq<string>>)
    ensures |r| == |pieces|
    ensures forall i :: 0 <= i < |pieces| ==> r[i] == PathOf(pieces[i])
  {
    seq(|pieces|, i requires 0 <= i < |pieces| => PathOf(pieces[i]))
  }

  /** Paths added one after the other, each under `AddPath`'s rule. */
  function AddPaths(cats: seq<seq<string>>, paths: seq<seq<string>>): seq<seq<string>>
    decreases |paths|
  {
    if paths == [] then cats
    else AddPath(AddPaths(cats, paths[..|paths| - 1]), paths[|paths| - 1])
  }

  /**
   * Adding paths keeps what was there, in place, adds exactly the
   * non-empty paths, and never duplicates one.
   */
  lemma {:induction false} AddPathsSpec(cats: seq<seq<string>>, paths: seq<seq<string>>)
    ensures cats <= AddPaths(cats, paths)
    ensures forall q :: q in AddPaths(cats, paths) <==> q in cats || (q != [] && q in paths)
    ensures NoDuplicates(cats) ==> NoDuplicates(AddPaths(cats, paths))
    decreases |paths|
  {
    if paths != [] {
      var init := paths[..|paths| - 1];
      AddPathsSpec(cats, init);
      assert paths == init + [paths[|paths| - 1]];
    }
  }

  /** `[i[0] for i in cats if len(i) == 1]`. */
  function TagsOf(cats: seq<seq<string>>): (r: seq<string>)
    ensures forall t :: t in r <==> [t] in cats
    ensures |r| <= |cats|
  {
    if cats == [] then []
    else
      var rest := TagsOf(cats[1..]);
      assert forall p :: p in cats <==> p == cats[0] || p in cats[1..];
      if |cats[0]| == 1 then
        assert cats[0] == [cats[0][0]];
        [cats[0][0]] + rest
      else rest
  }

  /** FOAF's tag rule: a depth-one hierarchy label is added once. */
  function AddTag(tags: seq<string>, hierarchy: seq<string>): (r: seq<string>)
    ensures tags <= r
    ensures forall t :: t in r <==> t in tags || (|hierarchy| == 1 && t == hierarchy[0])
    ensures NoDuplicates(tags) ==> NoDuplicates(r)
  {
    if |hierarchy| == 1 && hierarchy[0] !in tags then tags + hierarchy else tags
  }

  function CategoriesOf(e: Entry): seq<seq<string>>
  {
    if e.categories.Some? then e.categories.value else []
  }

  function TagsField(e: Entry): seq<string>
  {
    if e.tags.Some? then e.tags.value else []
  }

  /** The entry filed under `u` carries path `p` among its categories. */
  predicate HasPath(s: Store, u: string, p: seq<string>)
  {
    u in s.found && Holds(s, s.found[u]) && p in CategoriesOf(At(s, s.found[u]))
  }

  /** The entry filed under `u` carries tag `t`. */
  predicate HasTag(s: Store, u: string, t: string)
  {
    u in s.found && Holds(s, s.found[u]) && t in TagsField(At(s, s.found[u]))
  }

  /** An entry's tags are the labels of its one-label category paths (as sets). */
  ghost predicate TagsAgree(e: Entry)
  {
    forall t :: t in TagsField(e) <==> [t] in CategoriesOf(e)
  }

  /** Every stored entry's tags agree with its categories. */
  ghost predicate AllTagsAgree(s: Store)
  {
    forall loc :: Holds(s, loc) ==> TagsAgree(At(s, loc))
  }

  /** The store invariant every handler keeps: `found_urls` is coherent and every entry's tags agree. */
  ghost predicate Sound(s: Store)
  {
    Coherent(s) && AllTagsAgree(s)
  }

  /** Filing keeps the agreement: a fresh entry has neither tags nor categories. */
  lemma FileAgrees(s: Store, c: Container, url: string, title: string)
    requires Coherent(s) && AllTagsAgree(s)
    ensures AllTagsAgree(File(s, c, url, title).0)
  {
    var (r, loc) := File(s, c, url, title);
    forall l | Holds(r, l)
      ensures TagsAgree(At(r, l))
    {
      if !Holds(s, l) {
        assert url !in s.found && l.container == c && l.index == |Items(s, c)|;
      }
    }
  }

  lemma PutAgrees(s: Store, loc: Location, e: Entry)
    requires Holds(s, loc) && AllTagsAgree(s) && TagsAgree(e)
    ensures AllTagsAgree(Put(s, loc, e))
  {
  }

  // ---------------------------------------------------------------------
  // OPML filing

  /**
   * An OPML outline with a URL: filed through `found_urls`, then the
   * category pieces and a non-empty hierarchy are added to its categories
   * and the tags are recomputed from the one-label paths.
   */
  function FileOutline(s: Store, c: Container, url: string, title: string, category: Option<string>,
                       hierarchy: seq<string>): (r: Store)
    requires Coherent(s)
    ensures Coherent(r) && url in r.found
    ensures r.found == s.found[url := r.found[url]]
  {
    var (s1, loc) := File(s, c, url, title);
    var e := At(s1, loc);
    var cats := AddPath(Categorized(CategoriesOf(e), category), hierarchy);
    Put(s1, loc, e.(categories := Some(cats), tags := Some(TagsOf(cats))))
  }

  /**
   * Filing an outline through `found_urls`: the first-seen location and
   * title win, and only a new URL grows its container, by one.
   */
  lemma FileOutlineFirstSeen(s: Store, c: Container, url: string, title: string, category: Option<string>,
                             hierarchy: seq<string>)
    requires Coherent(s)
    ensures var r := FileOutline(s, c, url, title, category, hierarchy);
      && (url in s.found ==> r.found[url] == s.found[url] && At(r, r.found[url]).title == At(s, s.found[url]).title)
      && (url !in s.found ==> r.found[url] == Location(c, |Items(s, c)|) && At(r, r.found[url]).title == title)
      && (forall d :: |Items(r, d)| == |Items(s, d)| + (if url !in s.found && d == c then 1 else 0))
  {
    var (s1, loc) := File(s, c, url, title);
    var e := At(s1, loc);
    var cats := AddPath(Categorized(CategoriesOf(e), category), hierarchy);
    var r := Put(s1, loc, e.(categories := Some(cats), tags := Some(TagsOf(cats))));
    assert r == FileOutline(s, c, url, title, category, hierarchy);
  }

  /** The filed entry's tags are exactly the labels of its one-label category paths. */
  lemma FileOutlineTags(s: Store, c: Container, url: string, title: string, category: Option<string>,
                        hierarchy: seq<string>)
    requires Coherent(s)
    ensures var r := FileOutline(s, c, url, title, category, hierarchy);
      && At(r, r.found[url]).tags.Some? && At(r, r.found[url]).categories.Some?
      && (forall t :: t in TagsField(At(r, r.found[url])) <==> [t] in CategoriesOf(At(r, r.found[url])))
  {
    var (s1, loc) := File(s, c, url, title);
    var e := At(s1, loc);
    var cats := AddPath(Categorized(CategoriesOf(e), category), hierarchy);
    var r := Put(s1, loc, e.(categories := Some(cats), tags := Some(TagsOf(cats))));
    assert r == FileOutline(s, c, url, title, category, hierarchy);
    assert r.found[url] == loc;
  }

  /**
   * The hierarchy and every non-empty category path end up among the
   * filed entry's categories, and no path recorded before is lost.
   */
  lemma FileOutlinePaths(s: Store, c: Container, url: string, title: string, category: Option<string>,
                         hierarchy: seq<string>)
    requires Coherent(s)
    ensures var r := FileOutline(s, c, url, title, category, hierarchy);
      && (hierarchy != [] ==> HasPath(r, url, hierarchy))
      && (forall u, p :: HasPath(s, u, p) ==> HasPath(r, u, p))
      && (category.Some? ==> forall p :: p in Paths(SplitOn(category.value, ',')) && p != [] ==> HasPath(r, url, p))
  {
    FileOutlineKeepsPaths(s, c, url, title, category, hierarchy);
    var (s1, loc) := File(s, c, url, title);
    FileOutlineAt(s, c, url, title, category, hierarchy);
    CategorizedKeeps(CategoriesOf(At(s1, loc)), category);
  }

  /** Filing an outline loses no category path recorded before. */
  lemma FileOutlineKeepsPaths(s: Store, c: Container, url: string, title: string, category: Option<string>,
                              hierarchy: seq<string>)
    requires Coherent(s)
    ensures forall u, p :: HasPath(s, u, p) ==> HasPath(FileOutline(s, c, url, title, category, hierarchy), u, p)
  {
    var (s1, loc) := File(s, c, url, title);
    var old_cats := CategoriesOf(At(s1, loc));
    var r := FileOutline(s, c, url, title, category, hierarchy);
    FileOutlineAt(s, c, url, title, category, hierarchy);
    assert old_cats <= Categorized(old_cats, category) by {
      CategorizedKeeps(old_cats, category);
    }
    forall u, p | HasPath(s, u, p)
      ensures HasPath(r, u, p)
    {
      var l := s.found[u];
      assert s1.found[u] == l && Holds(s1, l) && At(s1, l) == At(s, l);
      if l == loc {
        assert p in old_cats;
      } else {
        assert At(r, l) == At(s1, l);
      }
    }
  }

  /** Where `FileOutline` leaves the filed entry, and that only that entry changes. */
  lemma FileOutlineAt(s: Store, c: Container, url: string, title: string, category: Option<string>,
                      hierarchy: seq<string>)
    requires Coherent(s)
    ensures var (s1, loc) := File(s, c, url, title);
      var r := FileOutline(s, c, url, title, category, hierarchy);
      && r.found == s1.found && Holds(r, loc)
      && CategoriesOf(At(r, loc)) == AddPath(Categorized(CategoriesOf(At(s1, loc)), category), hierarchy)
      && (forall l :: Holds(s1, l) && l != loc ==> Holds(r, l) && At(r, l) == At(s1, l))
  {
    var (s1, loc) := File(s, c, url, title);
    var e := At(s1, loc);
    var cats := AddPath(Categorized(CategoriesOf(e), category), hierarchy);
    var r := Put(s1, loc, e.(categories := Some(cats), tags := Some(TagsOf(cats))));
    assert r == FileOutline(s, c, url, title, category, hierarchy);
  }

  /** The category attribute's paths added to `cats`, when the attribute is present. */
  function Categorized(cats: seq<seq<string>>, category: Option<string>): seq<seq<string>>
  {
    if category.Some? then AddPaths(cats, Paths(SplitOn(category.value, ','))) else cats
  }

  lemma CategorizedKeeps(cats: seq<seq<string>>, category: Option<string>)
    ensures cats <= Categorized(cats, category)
    ensures category.Some? ==> forall p :: p in Paths(SplitOn(category.value, ',')) && p != [] ==>
      p in Categorized(cats, category)
  {
    if category.Some? {
      AddPathsSpec(cats, Paths(SplitOn(category.value, ',')));
    }
  }

  // ---------------------------------------------------------------------
  // FOAF group merge

  /** A `group_objs` element: the container key and the `{url, title}` object. */
  datatype Pending = Pending(container: Container, url: string, title: string)

  /**
   * One group object merged: filed through `found_urls` (first seen wins),
   * a non-empty hierarchy added to its categories and a depth-one label
   * to its tags, each only when absent.
   */
  function Merge(s: Store, obj: Pending, hierarchy: seq<string>): (r: Store)
    requires Coherent(s)
    ensures Coherent(r) && obj.url in r.found
    ensures r.found == s.found[obj.url := r.found[obj.url]]
  {
    var (s1, loc) := File(s, obj.container, obj.url, obj.title);
    var e := At(s1, loc);
    var cats := AddPath(CategoriesOf(e), hierarchy);
    var tags := AddTag(TagsField(e), hierarchy);
    Put(s1, loc, e.(categories := Some(cats), tags := Some(tags)))
  }

  /**
   * What one merge guarantees: a known URL keeps its location, a new one
   * lands in the object's container; the merged entry holds the
   * hierarchy and the depth-one label; nothing recorded before is lost.
   */
  lemma MergeSpec(s: Store, obj: Pending, hierarchy: seq<string>)
    requires Coherent(s)
    ensures obj.url in s.found ==> Merge(s, obj, hierarchy).found[obj.url] == s.found[obj.url]
    ensures obj.url !in s.found ==> Merge(s, obj, hierarchy).found[obj.url].container == obj.container
    ensures hierarchy != [] ==> HasPath(Merge(s, obj, hierarchy), obj.url, hierarchy)
    ensures |hierarchy| == 1 ==> HasTag(Merge(s, obj, hierarchy), obj.url, hierarchy[0])
    ensures forall u, p :: HasPath(s, u, p) ==> HasPath(Merge(s, obj, hierarchy), u, p)
    ensures forall u, t :: HasTag(s, u, t) ==> HasTag(Merge(s, obj, hierarchy), u, t)
  {
    var (s1, loc) := File(s, obj.container, obj.url, obj.title);
    var e := At(s1, loc);
    var r := Merge(s, obj, hierarchy);
    MergeAt(s, obj, hierarchy);
    forall u, p | HasPath(s, u, p)
      ensures HasPath(r, u, p)
    {
      assert HasPath(s1, u, p);
      if s1.found[u] == loc {
        assert p in CategoriesOf(e);
      }
    }
    forall u, t | HasTag(s, u, t)
      ensures HasTag(r, u, t)
    {
      assert HasTag(s1, u, t);
      if s1.found[u] == loc {
        assert t in TagsField(e);
      }
    }
  }

  /** A merge only adds the object's URL to `found_urls`, and a known URL keeps its location. */
  lemma MergeFound(s: Store, obj: Pending, hierarchy: seq<string>)
    requires Coherent(s)
    ensures var r := Merge(s, obj, hierarchy);
      && (forall u :: u in s.found ==> u in r.found && r.found[u] == s.found[u])
      && (obj.url !in s.found ==> r.found[obj.url].container == obj.container)
  {
    MergeAt(s, obj, hierarchy);
  }

  /** Where `Merge` leaves the merged entry, and that only that entry changes. */
  lemma MergeAt(s: Store, obj: Pending, hierarchy: seq<string>)
    requires Coherent(s)
    ensures var (s1, loc) := File(s, obj.container, obj.url, obj.title);
      var r := Merge(s, obj, hierarchy);
      && r.found == s1.found && Holds(r, loc)
      && CategoriesOf(At(r, loc)) == AddPath(CategoriesOf(At(s1, loc)), hierarchy)
      && TagsField(At(r, loc)) == AddTag(TagsField(At(s1, loc)), hierarchy)
      && (forall l :: Holds(s1, l) && l != loc ==> Holds(r, l) && At(r, l) == At(s1, l))
  {
    var (s1, loc) := File(s, obj.container, obj.url, obj.title);
    var e := At(s1, loc);
    var cats := AddPath(CategoriesOf(e), hierarchy);
    var tags := AddTag(TagsField(e), hierarchy);
    var r := Put(s1, loc, e.(categories := Some(cats), tags := Some(tags)));
    assert r == Merge(s, obj, hierarchy);
  }

  /** The merge loop of the group end, over `group_objs` in order. */
  function MergeAll(s: Store, objs: seq<Pending>, hierarchy: seq<string>): (r: Store)
    requires Coherent(s)
    ensures Coherent(r)
    decreases |objs|
  {
    if objs == [] then s
    else Merge(MergeAll(s, objs[..|objs| - 1], hierarchy), objs[|objs| - 1], hierarchy)
  }

  /** One more object merged, as the group end's loop does it. */
  lemma MergeAllStep(s: Store, objs: seq<Pending>, i: nat, hierarchy: seq<string>)
    requires Coherent(s) && i < |objs|
    ensures MergeAll(s, objs[..i + 1], hierarchy) == Merge(MergeAll(s, objs[..i], hierarchy), objs[i], hierarchy)
  {
    assert objs[..i + 1][..i] == objs[..i];
  }

  /** After the merge, `found_urls` holds exactly the old URLs and the group's. */
  lemma {:induction false} MergeAllKeys(s: Store, objs: seq<Pending>, hierarchy: seq<string>)
    requires Coherent(s)
    ensures forall u :: u in MergeAll(s, objs, hierarchy).found <==> u in s.found || u in Urls(objs)
    decreases |objs|
  {
    if objs != [] {
      var init := objs[..|objs| - 1];
      MergeAllKeys(s, init, hierarchy);
      assert Urls(objs) == Urls(init) + [objs[|objs| - 1].url];
    }
  }

  /** URLs recorded before the merge keep their location: the first-seen entry wins. */
  lemma {:induction false} MergeAllKeeps(s: Store, objs: seq<Pending>, hierarchy: seq<string>)
    requires Coherent(s)
    ensures forall u :: u in s.found ==> u in MergeAll(s, objs, hierarchy).found && MergeAll(s, objs, hierarchy).found[u] == s.found[u]
    decreases |objs|
  {
    if objs != [] {
      var init := objs[..|objs| - 1];
      var last := objs[|objs| - 1];
      MergeAllKeeps(s, init, hierarchy);
      MergeFound(MergeAll(s, init, hierarchy), last, hierarchy);
    }
  }

  /** The group URLs, in order. */
  function Urls(objs: seq<Pending>): (r: seq<string>)
    ensures |r| == |objs|
    ensures forall i :: 0 <= i < |objs| ==> r[i] == objs[i].url
  {
    if objs == [] then [] else Urls(objs[..|objs| - 1]) + [objs[|objs| - 1].url]
  }

  /**
   * After the merge every group URL's entry holds a non-empty hierarchy
   * among its categories and a depth-one label among its tags, and
   * nothing recorded before is lost.
   */
  lemma {:induction false} MergeAllLabels(s: Store, objs: seq<Pending>, hierarchy: seq<string>)
    requires Coherent(s)
    ensures hierarchy != [] ==> forall u :: u in Urls(objs) ==> HasPath(MergeAll(s, objs, hierarchy), u, hierarchy)
    ensures |hierarchy| == 1 ==> forall u :: u in Urls(objs) ==> HasTag(MergeAll(s, objs, hierarchy), u, hierarchy[0])
    ensures forall u, p :: HasPath(s, u, p) ==> HasPath(MergeAll(s, objs, hierarchy), u, p)
    ensures forall u, t :: HasTag(s, u, t) ==> HasTag(MergeAll(s, objs, hierarchy), u, t)
    decreases |objs|
  {
    if objs != [] {
      var init := objs[..|objs| - 1];
      var last := objs[|objs| - 1];
      MergeAllLabels(s, init, hierarchy);
      var m := MergeAll(s, init, hierarchy);
      MergeSpec(m, last, hierarchy);
      assert Urls(objs) == Urls(init) + [last.url];
    }
  }

  /**
   * Merging the same object twice changes nothing the second time: the
   * URL is known, its categories already hold the hierarchy, its tags
   * the label.
   */
  lemma MergeTwice(s: Store, obj: Pending, hierarchy: seq<string>)
    requires Coherent(s)
    ensures Merge(Merge(s, obj, hierarchy), obj, hierarchy) == Merge(s, obj, hierarchy)
  {
    var (s1, l1) := File(s, obj.container, obj.url, obj.title);
    var e1 := At(s1, l1);
    var m := Merge(s, obj, hierarchy);
    var e := At(m, l1);
    assert e == e1.(categories := Some(AddPath(CategoriesOf(e1), hierarchy)), tags := Some(AddTag(TagsField(e1), hierarchy)));
    assert File(m, obj.container, obj.url, obj.title) == (m, l1);
    assert AddPath(CategoriesOf(e), hierarchy) == CategoriesOf(e);
    assert AddTag(TagsField(e), hierarchy) == TagsField(e);
    assert e.(categories := Some(CategoriesOf(e)), tags := Some(TagsField(e))) == e;
    assert Items(m, l1.container)[l1.index := e] == Items(m, l1.container);
  }

  /** A merge keeps every entry's tags in agreement with its categories. */
  lemma MergeAgrees(s: Store, obj: Pending, hierarchy: seq<string>)
    requires Coherent(s) && AllTagsAgree(s)
    ensures AllTagsAgree(Merge(s, obj, hierarchy))
  {
    var (s1, loc) := File(s, obj.container, obj.url, obj.title);
    FileAgrees(s, obj.container, obj.url, obj.title);
    var e := At(s1, loc);
    var e2 := e.(categories := Some(AddPath(CategoriesOf(e), hierarchy)), tags := Some(AddTag(TagsField(e), hierarchy)));
    assert TagsAgree(e);
    assert TagsAgree(e2) by {
      forall t
        ensures t in TagsField(e2) <==> [t] in CategoriesOf(e2)
      {
        if |hierarchy| == 1 {
          assert hierarchy == [hierarchy[0]];
        }
      }
    }
    PutAgrees(s1, loc, e2);
  }

  lemma {:induction false} MergeAllAgrees(s: Store, objs: seq<Pending>, hierarchy: seq<string>)
    requires Coherent(s) && AllTagsAgree(s)
    ensures AllTagsAgree(MergeAll(s, objs, hierarchy))
    decreases |objs|
  {
    if objs != [] {
      MergeAllAgrees(s, objs[..|objs| - 1], hierarchy);
      MergeAgrees(MergeAll(s, objs[..|objs| - 1], hierarchy), objs[|objs| - 1], hierarchy);
    }
  }

  /** Filing an outline recomputes the tags from the categories, so they agree. */
  lemma FileOutlineAgrees(s: Store, c: Container, url: string, title: string, category: Option<string>,
                          hierarchy: seq<string>)
    requires Coherent(s) && AllTagsAgree(s)
    ensures AllTagsAgree(FileOutline(s, c, url, title, category, hierarchy))
  {
    var (s1, loc) := File(s, c, url, title);
    FileAgrees(s, c, url, title);
    var e := At(s1, loc);
    var cats := AddPath(Categorized(CategoriesOf(e), category), hierarchy);
    PutAgrees(s1, loc, e.(categories := Some(cats), tags := Some(TagsOf(cats))));
  }
}
