/**
 * The event dispatcher of the newer generation: it receives start, end and
 * text events, keeps per-prefix stacks of namespace URIs (scoped as in
 * section 6.1 of Namespaces in XML 1.0), a stack of open elements that
 * tolerates mismatched end tags, a cache of handler lookups, and a text
 * buffer filled only while a handler asked for text.
 *
 * Handlers are found by name; the names a handler object provides are
 * given as a set instead of being looked up with `getattr`, and the
 * methods return the handler they would call instead of calling it.
 */
module XmlHandlers {
  import opened Text

  /** Namespace URI to the standard prefix that handler names use. */
  const Prefixes: map<string, string> := map[
    "http://opml.org/spec2" := "opml",
    "http://www.google.com/ig" := "igoogle",
    "http://schemas.google.com/GadgetTabML/2008" := "gtml",
    "http://www.w3.org/1999/02/22-rdf-syntax-ns#" := "rdf",
    "http://www.w3.org/2000/01/rdf-schema#" := "rdfs",
    "http://xmlns.com/foaf/0.1/" := "foaf",
    "http://purl.org/dc/elements/1.1/" := "dc",
    "http://purl.org/rss/1.0/" := "rss",
    "http://blogs.yandex.ru/schema/foaf/" := "ya"
  ]

  /** `uris`, the table read the other way: standard prefix to its URI. */
  const Uris: map<string, string> := map[
    "opml" := "http://opml.org/spec2",
    "igoogle" := "http://www.google.com/ig",
    "gtml" := "http://schemas.google.com/GadgetTabML/2008",
    "rdf" := "http://www.w3.org/1999/02/22-rdf-syntax-ns#",
    "rdfs" := "http://www.w3.org/2000/01/rdf-schema#",
    "foaf" := "http://xmlns.com/foaf/0.1/",
    "dc" := "http://purl.org/dc/elements/1.1/",
    "rss" := "http://purl.org/rss/1.0/",
    "ya" := "http://blogs.yandex.ru/schema/foaf/"
  ]

  /** The two tables are exact inverses, so no two URIs share a prefix. */
  lemma UrisInverse()
    ensures forall u :: u in Prefixes ==> Prefixes[u] in Uris && Uris[Prefixes[u]] == u
    ensures forall p :: p in Uris ==> Uris[p] in Prefixes && Prefixes[Uris[p]] == p
  {
  }

  const Sentinel := "= sentinel: no identifier ="

  /** What a start tag leaves for its end tag. */
  datatype Node = Node(tag: string, standardPrefix: string, name: string, namespacePrefixes: set<string>)

  /** An attribute dictionary, in insertion order. */
  type Attrs = seq<(string, string)>

  predicate UniqueKeys(attrs: Attrs)
  {
    forall i, j :: 0 <= i < j < |attrs| ==> attrs[i].0 != attrs[j].0
  }

  /** The URI stack of a prefix; a prefix never declared has an empty one. */
  function Bindings(uris: map<string, seq<string>>, p: string): seq<string>
  {
    if p in uris then uris[p] else []
  }

  /**
   * The standard prefix of a deployed prefix: the table name of the
   * innermost URI bound to it, or the deployed prefix itself.
   */
  function StandardPrefix(uris: map<string, seq<string>>, deployed: string): (r: string)
    ensures deployed in uris && |uris[deployed]| > 0 ==>
      var uri := uris[deployed][|uris[deployed]| - 1];
      r == if uri in Prefixes then Prefixes[uri] else deployed
    ensures deployed in uris && |uris[deployed]| == 0 ==> r == deployed
  {
    var identifiers := if deployed in uris then uris[deployed]
      else [if deployed in Uris then Uris[deployed] else deployed];
    var identifier := if |identifiers| > 0 then identifiers[|identifiers| - 1] else Sentinel;
    if identifier in Prefixes then Prefixes[identifier] else deployed
  }

  /**
   * An undeclared deployed prefix names its own namespace: a standard
   * prefix maps to itself through the inverse table, and a deployed prefix
   * that is literally one of the nine URIs maps to that URI's prefix.
   */
  lemma UndeclaredPrefix(uris: map<string, seq<string>>, deployed: string)
    requires deployed !in uris
    ensures StandardPrefix(uris, deployed) == if deployed in Prefixes then Prefixes[deployed] else deployed
  {
    if deployed in Uris {
      UrisInverse();
    }
  }

  /** The (start, end) handler names for a standard prefix and local name. */
  function HandlerNames(standardPrefix: string, name: string): (r: (string, string))
    ensures standardPrefix != "" ==> r == ("start_" + standardPrefix + "_" + name, "end_" + standardPrefix + "_" + name)
  {
    var prefix := if standardPrefix == "" then "opml" else standardPrefix;
    ("start_" + prefix + "_" + name, "end_" + prefix + "_" + name)
  }

  // ---------------------------------------------------------------------
  // namespace declarations carried by a start tag

  /** Whether an attribute declares a namespace that gets pushed. */
  predicate Declares(attr: (string, string))
  {
    StartsWith(attr.0, "xmlns") && attr.1 != ""
  }

  /** The prefix a declaring attribute binds: the text after its first ':'. */
  function DeclaredPrefix(attr: (string, string)): string
  {
    AfterFirst(attr.0, ':')
  }

  /** The binding stacks after the declarations among `attrs`, in order. */
  function Declare(uris: map<string, seq<string>>, attrs: Attrs): (r: map<string, seq<string>>)
    ensures forall p :: |Bindings(r, p)| == |Bindings(uris, p)| + DeclCount(attrs, p)
  {
    if |attrs| == 0 then uris
    else
      var before := Declare(uris, attrs[..|attrs| - 1]);
      var a := attrs[|attrs| - 1];
      if Declares(a) then
        var p := DeclaredPrefix(a);
        before[p := Bindings(before, p) + [a.1]]
      else before
  }

  /** How many attributes of `attrs` push onto the stack of `p`. */
  function DeclCount(attrs: Attrs, p: string): nat
  {
    if |attrs| == 0 then 0
    else
      var a := attrs[|attrs| - 1];
      DeclCount(attrs[..|attrs| - 1], p) + (if Declares(a) && DeclaredPrefix(a) == p then 1 else 0)
  }

  /** The set of prefixes a start tag records in its node. */
  function Declared(attrs: Attrs): (r: set<string>)
    ensures forall p :: p in r <==> DeclCount(attrs, p) > 0
  {
    if |attrs| == 0 then {}
    else
      var a := attrs[|attrs| - 1];
      Declared(attrs[..|attrs| - 1]) + (if Declares(a) then {DeclaredPrefix(a)} else {})
  }

  /** The attributes handed to the start handler: every one not starting with "xmlns". */
  function Passed(attrs: Attrs): (r: Attrs)
    ensures forall x :: x in r <==> x in attrs && !StartsWith(x.0, "xmlns")
  {
    if |attrs| == 0 then []
    else
      var a := attrs[|attrs| - 1];
      Passed(attrs[..|attrs| - 1]) + (if StartsWith(a.0, "xmlns") then [] else [a])
  }

  /** Each prefix of `ps` loses its innermost URI. */
  function PopDecls(uris: map<string, seq<string>>, ps: set<string>): (r: map<string, seq<string>>)
    ensures r.Keys == uris.Keys
    ensures forall p :: p in uris && p !in ps ==> r[p] == uris[p]
  {
    map p | p in uris :: if p in ps && |uris[p]| > 0 then uris[p][..|uris[p]| - 1] else uris[p]
  }

  /**
   * A start tag followed by its end tag leaves every binding stack as it
   * was, provided no prefix is declared twice on the tag.
   */
  lemma BalancedRestores(uris: map<string, seq<string>>, attrs: Attrs)
    requires forall p :: DeclCount(attrs, p) <= 1
    ensures forall p :: Bindings(PopDecls(Declare(uris, attrs), Declared(attrs)), p) == Bindings(uris, p)
  {
    forall p
      ensures Bindings(PopDecls(Declare(uris, attrs), Declared(attrs)), p) == Bindings(uris, p)
    {
      DeclaredStack(uris, attrs, p);
    }
  }

  /** The stack of `p` after the declarations: the old one plus the pushed URIs. */
  lemma {:induction false} DeclaredStack(uris: map<string, seq<string>>, attrs: Attrs, p: string)
    requires DeclCount(attrs, p) <= 1
    ensures DeclCount(attrs, p) == 0 ==> Bindings(Declare(uris, attrs), p) == Bindings(uris, p)
    ensures DeclCount(attrs, p) == 1 ==>
      p in Declare(uris, attrs) && Bindings(Declare(uris, attrs), p)[..|Bindings(uris, p)|] == Bindings(uris, p)
  {
    if |attrs| > 0 {
      var init := attrs[..|attrs| - 1];
      var a := attrs[|attrs| - 1];
      DeclaredStack(uris, init, p);
      if Declares(a) && DeclaredPrefix(a) == p {
        assert DeclCount(init, p) == 0;
        var before := Declare(uris, init);
        assert Bindings(Declare(uris, attrs), p) == Bindings(before, p) + [a.1];
      }
    }
  }

  /**
   * Two attributes declaring the same prefix push twice, and the end tag
   * pops once, so the enclosing scope is left with the first URI bound.
   */
  lemma DeclaredTwiceLeaks(uris: map<string, seq<string>>, a0: (string, string), a1: (string, string))
    requires Declares(a0) && Declares(a1) && DeclaredPrefix(a0) == DeclaredPrefix(a1)
    ensures Bindings(PopDecls(Declare(uris, [a0, a1]), Declared([a0, a1])), DeclaredPrefix(a0))
      == Bindings(uris, DeclaredPrefix(a0)) + [a0.1]
  {
    var p := DeclaredPrefix(a0);
    var attrs := [a0, a1];
    assert attrs[..1] == [a0] && [a0][..0] == [];
    var once := Declare(uris, [a0]);
    assert Declare(uris, [a0][..0]) == uris;
    assert once == uris[p := Bindings(uris, p) + [a0.1]];
    assert Declare(uris, attrs) == once[p := Bindings(uris, p) + [a0.1] + [a1.1]];
    assert Declared(attrs) == {p};
  }

  /** "xmlns" and "xmlns:" both declare the default prefix. */
  lemma DefaultDeclarations(u0: string, u1: string)
    requires u0 != "" && u1 != ""
    ensures Declares(("xmlns", u0)) && DeclaredPrefix(("xmlns", u0)) == ""
    ensures Declares(("xmlns:", u1)) && DeclaredPrefix(("xmlns:", u1)) == ""
  {
    assert StartsWith("xmlns", "xmlns") && ':' !in "xmlns";
    assert StartsWith("xmlns:", "xmlns") by {
      assert "xmlns:"[..5] == "xmlns";
    }
    assert "xmlns:"[..5] == "xmlns" && "xmlns:"[5] == ':';
  }

  // ---------------------------------------------------------------------
  // the open-element stack

  /** How many open elements declared `p`. */
  function Depth(stack: seq<Node>, p: string): nat
  {
    if |stack| == 0 then 0
    else Depth(stack[..|stack| - 1], p) + (if p in stack[|stack| - 1].namespacePrefixes then 1 else 0)
  }

  /** The stack height left by `end(tag)`: below the topmost node with that tag, or empty. */
  function Cut(stack: seq<Node>, tag: string): (k: nat)
    ensures k <= |stack| && (k == |stack| ==> k == 0)
    ensures forall i :: k < i < |stack| ==> stack[i].tag != tag
    ensures (exists i :: 0 <= i < |stack| && stack[i].tag == tag) ==> stack[k].tag == tag
    ensures (forall i :: 0 <= i < |stack| ==> stack[i].tag != tag) ==> k == 0
  {
    if |stack| == 0 then 0
    else if stack[|stack| - 1].tag == tag then |stack| - 1
    else Cut(stack[..|stack| - 1], tag)
  }

  /** The node `end` makes up when no start tag is left to match. */
  function Synthesized(uris: map<string, seq<string>>, tag: string): Node
  {
    var deployed := BeforeLast(tag, ':');
    Node(tag, StandardPrefix(uris, deployed), AfterLast(tag, ':'), {})
  }

  /** The end handler a node leads to: only a lookup cached by a start tag counts. */
  function EndCall(cache: map<(string, string), Option<string>>, node: Node): seq<string>
  {
    var key := (node.standardPrefix, node.name);
    if key in cache && cache[key].Some? then [cache[key].value] else []
  }

  /**
   * What `end(tag)` does from a given state: the binding stacks, the
   * element stack and the end handlers called, in order.
   */
  function Unwind(uris: map<string, seq<string>>, stack: seq<Node>, tag: string,
                  cache: map<(string, string), Option<string>>): (r: (map<string, seq<string>>, seq<Node>, seq<string>))
    decreases |stack|
  {
    if |stack| == 0 then
      (uris, [], EndCall(cache, Synthesized(uris, tag)))
    else
      var node := stack[|stack| - 1];
      var popped := PopDecls(uris, node.namespacePrefixes);
      if node.tag == tag then (popped, stack[..|stack| - 1], EndCall(cache, node))
      else
        var rest := Unwind(popped, stack[..|stack| - 1], tag, cache);
        (rest.0, rest.1, EndCall(cache, node) + rest.2)
  }

  /**
   * The outcome of `end` seen from the middle of its loop: what is already
   * done, plus what the remaining rounds will do.
   */
  function Progress(uris: map<string, seq<string>>, stack: seq<Node>, calls: seq<string>, done: bool,
                    tag: string, cache: map<(string, string), Option<string>>): (map<string, seq<string>>, seq<Node>, seq<string>)
  {
    if done then (uris, stack, calls)
    else
      var r := Unwind(uris, stack, tag, cache);
      (r.0, r.1, calls + r.2)
  }

  /** One round of the `end` loop keeps the eventual outcome. */
  lemma EndRound(uris: map<string, seq<string>>, stack: seq<Node>, calls: seq<string>,
                 tag: string, cache: map<(string, string), Option<string>>)
    ensures var node := if |stack| > 0 then stack[|stack| - 1] else Synthesized(uris, tag);
      var rest := if |stack| > 0 then stack[..|stack| - 1] else [];
      Progress(uris, stack, calls, false, tag, cache) ==
      Progress(PopDecls(uris, node.namespacePrefixes), rest, calls + EndCall(cache, node), node.tag == tag, tag, cache)
  {
    var node := if |stack| > 0 then stack[|stack| - 1] else Synthesized(uris, tag);
    if |stack| == 0 {
      assert PopDecls(uris, {}) == uris;
    } else if node.tag != tag {
      var r := Unwind(PopDecls(uris, node.namespacePrefixes), stack[..|stack| - 1], tag, cache);
      assert calls + (EndCall(cache, node) + r.2) == calls + EndCall(cache, node) + r.2;
    }
  }

  /** `end(tag)` leaves the stack just below the topmost node with that tag, or empty. */
  lemma {:induction false} UnwindCut(uris: map<string, seq<string>>, stack: seq<Node>, tag: string,
                                     cache: map<(string, string), Option<string>>)
    ensures Unwind(uris, stack, tag, cache).1 == stack[..Cut(stack, tag)]
    decreases |stack|
  {
    if |stack| > 0 {
      var node := stack[|stack| - 1];
      if node.tag != tag {
        UnwindCut(PopDecls(uris, node.namespacePrefixes), stack[..|stack| - 1], tag, cache);
        assert stack[..|stack| - 1][..Cut(stack, tag)] == stack[..Cut(stack, tag)];
      }
    }
  }

  /** Every node on the stack still has a URI to pop for each prefix it declared. */
  ghost predicate Scoped(uris: map<string, seq<string>>, stack: seq<Node>)
  {
    forall p :: Depth(stack, p) <= |Bindings(uris, p)|
  }

  /** Declaring on a start tag and pushing its node keeps the stacks scoped. */
  lemma StartScoped(uris: map<string, seq<string>>, stack: seq<Node>, attrs: Attrs, node: Node)
    requires Scoped(uris, stack) && node.namespacePrefixes == Declared(attrs)
    ensures Scoped(Declare(uris, attrs), stack + [node])
  {
    forall p
      ensures Depth(stack + [node], p) <= |Bindings(Declare(uris, attrs), p)|
    {
      assert (stack + [node])[..|stack|] == stack;
    }
  }

  /** Popping the top node and its declarations keeps the stacks scoped. */
  lemma PopScoped(uris: map<string, seq<string>>, stack: seq<Node>)
    requires Scoped(uris, stack) && |stack| > 0
    ensures Scoped(PopDecls(uris, stack[|stack| - 1].namespacePrefixes), stack[..|stack| - 1])
    ensures forall p :: p in stack[|stack| - 1].namespacePrefixes ==> p in uris && |uris[p]| > 0
  {
    var node := stack[|stack| - 1];
    var popped := PopDecls(uris, node.namespacePrefixes);
    forall p
      ensures p in node.namespacePrefixes ==> p in uris && |uris[p]| > 0
      ensures Depth(stack[..|stack| - 1], p) <= |Bindings(popped, p)|
    {
      assert Depth(stack, p) == Depth(stack[..|stack| - 1], p) + (if p in node.namespacePrefixes then 1 else 0);
      assert Depth(stack, p) <= |Bindings(uris, p)|;
    }
  }

  /** `end` from a scoped state leaves a scoped state. */
  lemma {:induction false} UnwindScoped(uris: map<string, seq<string>>, stack: seq<Node>, tag: string,
                                        cache: map<(string, string), Option<string>>)
    requires Scoped(uris, stack)
    ensures var r := Unwind(uris, stack, tag, cache); Scoped(r.0, r.1)
    decreases |stack|
  {
    if |stack| > 0 {
      PopScoped(uris, stack);
      var node := stack[|stack| - 1];
      if node.tag != tag {
        UnwindScoped(PopDecls(uris, node.namespacePrefixes), stack[..|stack| - 1], tag, cache);
      }
    }
  }

  /**
   * A start tag and the matching end tag restore every binding stack,
   * whatever elements are open, as long as no prefix is declared twice.
   */
  lemma StartEndRestores(uris: map<string, seq<string>>, stack: seq<Node>, tag: string, attrs: Attrs,
                         cache: map<(string, string), Option<string>>)
    requires forall p :: DeclCount(attrs, p) <= 1
    ensures var node := Node(tag, StandardPrefix(Declare(uris, attrs), BeforeLast(tag, ':')), AfterLast(tag, ':'), Declared(attrs));
      var r := Unwind(Declare(uris, attrs), stack + [node], tag, cache);
      r.1 == stack && forall p :: Bindings(r.0, p) == Bindings(uris, p)
  {
    var node := Node(tag, StandardPrefix(Declare(uris, attrs), BeforeLast(tag, ':')), AfterLast(tag, ':'), Declared(attrs));
    assert (stack + [node])[..|stack|] == stack;
    BalancedRestores(uris, attrs);
  }

  // ---------------------------------------------------------------------
  // the HTMLParser shim

  /** The keys of an insertion-ordered dictionary. */
  function KeysOf<V>(d: seq<(string, V)>): set<string>
  {
    set i | 0 <= i < |d| :: d[i].0
  }

  lemma KeysOfCons<V>(x: (string, V), d: seq<(string, V)>)
    ensures KeysOf([x] + d) == {x.0} + KeysOf(d)
  {
    var s := [x] + d;
    forall y | y in KeysOf(s)
      ensures y in {x.0} + KeysOf(d)
    {
      var i :| 0 <= i < |s| && s[i].0 == y;
      if i > 0 {
        assert d[i - 1].0 == y;
      }
    }
    forall y | y in KeysOf(d)
      ensures y in KeysOf(s)
    {
      var i :| 0 <= i < |d| && d[i].0 == y;
      assert s[i + 1].0 == y;
    }
    assert s[0].0 == x.0;
  }

  lemma KeysOfSnoc<V>(d: seq<(string, V)>, x: (string, V))
    ensures KeysOf(d + [x]) == KeysOf(d) + {x.0}
  {
    var s := d + [x];
    forall y | y in KeysOf(s)
      ensures y in KeysOf(d) + {x.0}
    {
      var i :| 0 <= i < |s| && s[i].0 == y;
      if i < |d| {
        assert d[i].0 == y;
      }
    }
    forall y | y in KeysOf(d)
      ensures y in KeysOf(s)
    {
      var i :| 0 <= i < |d| && d[i].0 == y;
      assert s[i].0 == y;
    }
    assert s[|d|].0 == x.0;
  }

  /** Python's `{key: value or "" for key, value in attrs}`: first position, last value. */
  function DictOf(attrs: seq<(string, Option<string>)>): (r: Attrs)
    ensures UniqueKeys(r)
    ensures KeysOf(r) == KeysOf(attrs)
  {
    if |attrs| == 0 then []
    else
      var a := attrs[|attrs| - 1];
      var init := attrs[..|attrs| - 1];
      assert init + [a] == attrs;
      KeysOfSnoc(init, a);
      AssignKeySet(DictOf(init), a.0, if a.1.Some? then a.1.value else "");
      AssignUnique(DictOf(init), a.0, if a.1.Some? then a.1.value else "");
      Assign(DictOf(init), a.0, if a.1.Some? then a.1.value else "")
  }

  /** `d[k] = v` on an insertion-ordered dictionary: an existing key keeps its place. */
  function Assign(d: Attrs, k: string, v: string): Attrs
  {
    if |d| == 0 then [(k, v)]
    else if d[0].0 == k then [(k, v)] + d[1..]
    else [d[0]] + Assign(d[1..], k, v)
  }

  /** The key set grows by `k`. */
  lemma {:induction false} AssignKeySet(d: Attrs, k: string, v: string)
    ensures KeysOf(Assign(d, k, v)) == KeysOf(d) + {k}
  {
    if |d| == 0 {
      KeysOfCons((k, v), []);
    } else {
      var r := Assign(d, k, v);
      var rest := if d[0].0 == k then d[1..] else Assign(d[1..], k, v);
      if d[0].0 != k {
        AssignKeySet(d[1..], k, v);
      }
      assert [d[0]] + d[1..] == d;
      assert r == [r[0]] + rest;
      KeysOfCons(d[0], d[1..]);
      KeysOfCons(r[0], rest);
    }
  }

  /** Unique keys stay unique. */
  lemma {:induction false} AssignUnique(d: Attrs, k: string, v: string)
    requires UniqueKeys(d)
    ensures UniqueKeys(Assign(d, k, v))
  {
    if |d| > 0 {
      var rest := if d[0].0 == k then d[1..] else Assign(d[1..], k, v);
      UniqueTail(d);
      if d[0].0 != k {
        AssignUnique(d[1..], k, v);
        AssignKeySet(d[1..], k, v);
      }
      UniqueCons(if d[0].0 == k then (k, v) else d[0], rest);
    }
  }

  lemma UniqueTail(d: Attrs)
    requires UniqueKeys(d) && |d| > 0
    ensures UniqueKeys(d[1..]) && d[0].0 !in KeysOf(d[1..])
  {
    forall a, b | 0 <= a < b < |d[1..]|
      ensures d[1..][a].0 != d[1..][b].0
    {
      assert d[1..][a] == d[a + 1] && d[1..][b] == d[b + 1];
    }
    forall a | 0 <= a < |d[1..]|
      ensures d[1..][a].0 != d[0].0
    {
      assert d[1..][a] == d[a + 1];
    }
  }

  lemma UniqueCons(x: (string, string), rest: Attrs)
    requires UniqueKeys(rest) && x.0 !in KeysOf(rest)
    ensures UniqueKeys([x] + rest)
  {
    var r := [x] + rest;
    forall a, b | 0 <= a < b < |r|
      ensures r[a].0 != r[b].0
    {
      assert r[b] == rest[b - 1] && rest[b - 1].0 in KeysOf(rest);
      if a > 0 {
        assert r[a] == rest[a - 1];
      }
    }
  }

  /** `k` now maps to `v`, and every pair for another key stays. */
  lemma {:induction false} AssignPairs(d: Attrs, k: string, v: string)
    ensures (k, v) in Assign(d, k, v)
    ensures forall x :: x in d && x.0 != k ==> x in Assign(d, k, v)
    ensures forall x :: x in Assign(d, k, v) && x.0 != k ==> x in d
  {
    if |d| > 0 && d[0].0 != k {
      AssignPairs(d[1..], k, v);
      assert [d[0]] + d[1..] == d;
    } else if |d| > 0 {
      assert [d[0]] + d[1..] == d;
    }
  }

  /** The value a key ends up with is the one its last pair carried. */
  lemma {:induction false} DictOfLastWins(attrs: seq<(string, Option<string>)>, j: nat)
    requires j < |attrs| && forall m :: j < m < |attrs| ==> attrs[m].0 != attrs[j].0
    ensures (attrs[j].0, if attrs[j].1.Some? then attrs[j].1.value else "") in DictOf(attrs)
  {
    var a := attrs[|attrs| - 1];
    var init := attrs[..|attrs| - 1];
    AssignPairs(DictOf(init), a.0, if a.1.Some? then a.1.value else "");
    if j < |attrs| - 1 {
      DictOfLastWins(init, j);
    }
  }

  /**
   * `getattr(self, name, None)`: the handler methods an object defines are
   * given as a set of names, and a name resolves to itself when it is one.
   */
  function Resolve(handlers: set<string>, name: string): (r: Option<string>)
    ensures r.Some? <==> name in handlers
    ensures r.Some? ==> r.value == name
  {
    if name in handlers then Some(name) else None
  }

  // ---------------------------------------------------------------------
  // the handler object

  class XmlHandler {
    /** The handler methods the object defines, by name. */
    const handlers: set<string>

    var uris: map<string, seq<string>>
    var nodeStack: seq<Node>
    var startMethods: map<(string, string), Option<string>>
    var endMethods: map<(string, string), Option<string>>
    var flagExpectText: bool
    var text: seq<string>

    /** `getattr(self, name, None)` on this handler. */
    function Lookup(name: string): Option<string>
    {
      Resolve(handlers, name)
    }

    /** Both caches hold, for the same keys, what a fresh lookup would find. */
    ghost predicate CachesAgree()
      reads this
    {
      startMethods.Keys == endMethods.Keys &&
      forall k :: k in startMethods ==>
        startMethods[k] == Lookup(HandlerNames(k.0, k.1).0) &&
        endMethods[k] == Lookup(HandlerNames(k.0, k.1).1)
    }

    ghost predicate Valid()
      reads this
    {
      Scoped(uris, nodeStack) && CachesAgree()
    }

    constructor (handlers: set<string>)
      ensures Valid() && this.handlers == handlers
      ensures uris == map[] && nodeStack == [] && startMethods == map[] && endMethods == map[]
      ensures !flagExpectText && text == []
    {
      this.handlers := handlers;
      uris := map[];
      nodeStack := [];
      startMethods := map[];
      endMethods := map[];
      flagExpectText := false;
      text := [];
    }

    /** The attribute loop of `start`: pushes each declaration and keeps the other attributes. */
    method PushDeclarations(attrs: Attrs) returns (passed: Attrs, declared: set<string>)
      modifies this`uris
      ensures uris == Declare(old(uris), attrs)
      ensures passed == Passed(attrs) && declared == Declared(attrs)
    {
      passed := [];
      declared := {};
      var i := 0;
      while i < |attrs|
        invariant 0 <= i <= |attrs|
        invariant uris == Declare(old(uris), attrs[..i])
        invariant passed == Passed(attrs[..i])
        invariant declared == Declared(attrs[..i])
      {
        var (key, value) := attrs[i];
        assert attrs[..i + 1][..i] == attrs[..i];
        if StartsWith(key, "xmlns") {
          if value != "" {
            var prefix := AfterFirst(key, ':');
            uris := uris[prefix := Bindings(uris, prefix) + [value]];
            declared := declared + {prefix};
          }
        } else {
          passed := passed + [(key, value)];
        }
        i := i + 1;
      }
      assert attrs[..i] == attrs;
    }

    /**
     * A start tag: pushes the namespace declarations and one node, and
     * returns the start handler to call (if the object has one) with the
     * attributes that do not start with "xmlns".
     */
    method Start(tag: string, attrs: Attrs) returns (call: Option<string>, passed: Attrs)
      requires Valid() && UniqueKeys(attrs)
      modifies this`uris, this`nodeStack, this`startMethods, this`endMethods
      ensures Valid()
      ensures passed == Passed(attrs)
      ensures uris == Declare(old(uris), attrs)
      ensures var sp := StandardPrefix(uris, BeforeLast(tag, ':'));
        nodeStack == old(nodeStack) + [Node(tag, sp, AfterLast(tag, ':'), Declared(attrs))] &&
        call == Lookup(HandlerNames(sp, AfterLast(tag, ':')).0) &&
        (sp, AfterLast(tag, ':')) in startMethods &&
        startMethods.Keys == old(startMethods.Keys) + {(sp, AfterLast(tag, ':'))}
      ensures forall k :: k in old(startMethods) ==> startMethods[k] == old(startMethods)[k] && endMethods[k] == old(endMethods)[k]
    {
      var declared;
      passed, declared := PushDeclarations(attrs);
      assert Scoped(old(uris), nodeStack);

      var deployed := BeforeLast(tag, ':');
      var name := AfterLast(tag, ':');
      var standard := StandardPrefix(uris, deployed);
      var node := Node(tag, standard, name, declared);
      StartScoped(old(uris), nodeStack, attrs, node);
      nodeStack := nodeStack + [node];

      call := CachedStart(standard, name);
    }

    /** The `start_methods` cache lookup, filling both caches on a miss. */
    method CachedStart(standard: string, name: string) returns (call: Option<string>)
      requires CachesAgree()
      modifies this`startMethods, this`endMethods
      ensures CachesAgree()
      ensures call == Lookup(HandlerNames(standard, name).0)
      ensures (standard, name) in startMethods
      ensures startMethods.Keys == old(startMethods.Keys) + {(standard, name)}
      ensures forall k :: k in old(startMethods) ==> startMethods[k] == old(startMethods)[k] && endMethods[k] == old(endMethods)[k]
    {
      var key := (standard, name);
      if key in startMethods {
        call := startMethods[key];
      } else {
        var (startName, endName) := HandlerNames(standard, name);
        call := Lookup(startName);
        startMethods := startMethods[key := call];
        endMethods := endMethods[key := Lookup(endName)];
      }
    }

    /** `for prefix in node.namespace_prefixes: self.uris[prefix].pop()` */
    method PopPrefixes(ps: set<string>)
      requires forall p :: p in ps ==> p in uris && |uris[p]| > 0
      modifies this`uris
      ensures uris == PopDecls(old(uris), ps)
    {
      var rest := ps;
      while rest != {}
        invariant rest <= ps
        invariant uris.Keys == old(uris).Keys
        invariant forall p :: p in old(uris) ==>
          uris[p] == if p in ps - rest && |old(uris)[p]| > 0 then old(uris)[p][..|old(uris)[p]| - 1] else old(uris)[p]
        decreases rest
      {
        var prefix :| prefix in rest;
        uris := uris[prefix := uris[prefix][..|uris[prefix]| - 1]];
        rest := rest - {prefix};
      }
    }

    /** One round of `end`: the top node, or a made-up one, and its declarations undone. */
    method PopNode(tag: string) returns (node: Node)
      requires Scoped(uris, nodeStack)
      modifies this`uris, this`nodeStack
      ensures Scoped(uris, nodeStack)
      ensures |old(nodeStack)| > 0 ==>
        node == old(nodeStack)[|old(nodeStack)| - 1] && nodeStack == old(nodeStack)[..|old(nodeStack)| - 1]
      ensures |old(nodeStack)| == 0 ==> node == Synthesized(old(uris), tag) && nodeStack == []
      ensures uris == PopDecls(old(uris), node.namespacePrefixes)
    {
      if |nodeStack| > 0 {
        node := nodeStack[|nodeStack| - 1];
        PopScoped(uris, nodeStack);
        nodeStack := nodeStack[..|nodeStack| - 1];
      } else {
        node := Synthesized(uris, tag);
        assert PopDecls(uris, {}) == uris;
      }
      PopPrefixes(node.namespacePrefixes);
    }

    /**
     * An end tag: pops nodes until one with this raw tag is gone (making
     * one up when the stack runs dry), unbinding what each popped node
     * declared, and returns the end handlers called, in order.
     */
    method End(tag: string) returns (calls: seq<string>)
      requires Valid()
      modifies this`uris, this`nodeStack
      ensures Valid()
      ensures (uris, nodeStack, calls) == Unwind(old(uris), old(nodeStack), tag, endMethods)
      ensures nodeStack == old(nodeStack)[..Cut(old(nodeStack), tag)]
    {
      calls := [];
      var done := false;
      ghost var total := Progress(uris, nodeStack, calls, done, tag, endMethods);
      assert calls + Unwind(uris, nodeStack, tag, endMethods).2 == Unwind(uris, nodeStack, tag, endMethods).2;
      while !done
        invariant Scoped(uris, nodeStack)
        invariant Progress(uris, nodeStack, calls, done, tag, endMethods) == total
        decreases |nodeStack| + (if done then 0 else 1)
      {
        EndRound(uris, nodeStack, calls, tag, endMethods);
        var node := PopNode(tag);
        calls := calls + EndCall(endMethods, node);
        done := node.tag == tag;
      }
      UnwindCut(old(uris), old(nodeStack), tag, endMethods);
    }

    /** Text is kept only while a handler asked for it. */
    method Data(data: string)
      modifies this`text
      ensures text == if flagExpectText then old(text) + [data] else old(text)
    {
      if flagExpectText {
        text := text + [data];
      }
    }

    /** Resets the caches and the text capture, but not the element or binding stacks. */
    method Close()
      requires Valid()
      modifies this`startMethods, this`endMethods, this`flagExpectText, this`text
      ensures Valid()
      ensures startMethods == map[] && endMethods == map[] && !flagExpectText && text == []
    {
      startMethods := map[];
      endMethods := map[];
      flagExpectText := false;
      text := [];
    }

    /** The HTMLParser entry point: attribute pairs become a dictionary, None becoming "". */
    method HandleStartTag(tag: string, attrs: seq<(string, Option<string>)>) returns (call: Option<string>, passed: Attrs)
      requires Valid()
      modifies this`uris, this`nodeStack, this`startMethods, this`endMethods
      ensures Valid()
      ensures passed == Passed(DictOf(attrs))
      ensures uris == Declare(old(uris), DictOf(attrs))
      ensures var sp := StandardPrefix(uris, BeforeLast(tag, ':'));
        nodeStack == old(nodeStack) + [Node(tag, sp, AfterLast(tag, ':'), Declared(DictOf(attrs)))] &&
        call == Lookup(HandlerNames(sp, AfterLast(tag, ':')).0)
    {
      call, passed := Start(tag, DictOf(attrs));
    }
  }
}
