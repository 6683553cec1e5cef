/**
 * The event dispatchers that sit between a tokenizer and the dialect
 * handlers: the newer generation's `LxmlHandler` and `XmlSaxHandler`, the
 * newer `Handler` (a SAX dispatcher without attribute conversion) and the
 * older `Handler` (a SAX dispatcher without a cache).
 *
 * A dispatcher turns an element name into the name of a handler method
 * (`_start_{prefix}_{local}` / `_end_{prefix}_{local}`) and reports which
 * method, if any, the dialect object defines; the caller then runs it.
 * The capture state (`expect`, `_characters`) lives on the dialect object,
 * so the dispatchers reach it through `state`.
 */
module Dispatch {
  import opened Text
  import opened Harvest
  import Common
  import Dialects
  import XmlHandlers

  /** A SAX name, `(namespace URI or None, local name)`. */
  type QName = Dialects.QName

  function StartName(prefix: string, local: string): string
  {
    "_start_" + prefix + "_" + local
  }

  function EndName(prefix: string, local: string): string
  {
    "_end_" + prefix + "_" + local
  }

  // ---------------------------------------------------------------------
  // lxml names: "{uri}local"

  /** `name.rpartition('}')` with the first character of the namespace dropped. */
  function LxmlSplit(name: string): (r: (string, string))
    ensures '}' !in r.1
  {
    (Drop(BeforeLast(name, '}'), 1), AfterLast(name, '}'))
  }

  /**
   * The start and end method names for an lxml element name: a known
   * namespace picks its prefix, anything else (no namespace included)
   * falls back to the OPML handlers.
   */
  function LxmlNames(name: string): (r: (string, string))
    ensures var (ns, local) := LxmlSplit(name);
      r == if ns in Common.Namespaces then (StartName(Common.Namespaces[ns], local), EndName(Common.Namespaces[ns], local))
           else (StartName("opml", local), EndName("opml", local))
  {
    var (ns, local) := LxmlSplit(name);
    var prefix := if ns in Common.Namespaces then Common.Namespaces[ns] else "opml";
    (StartName(prefix, local), EndName(prefix, local))
  }

  /** The key a SAX attribute gets: "{uri}local" under a non-empty URI, else the local name. */
  function SaxKey(name: QName): (r: string)
    ensures name.0.None? || name.0.value == "" ==> r == name.1
  {
    if name.0.Some? && name.0.value != "" then "{" + name.0.value + "}" + name.1 else name.1
  }

  /** The position of the last `c` in a text that ends in `c` followed by text without one. */
  lemma {:induction false} LastIndexBefore(s: string, c: char, t: string)
    requires c !in t
    ensures LastIndex(s + [c] + t, c) == |s|
    decreases |t|
  {
    var w := s + [c] + t;
    if t == [] {
      assert w[|w| - 1] == c;
    } else {
      assert w[|w| - 1] == t[|t| - 1];
      assert w[..|w| - 1] == s + [c] + t[..|t| - 1];
      LastIndexBefore(s, c, t[..|t| - 1]);
    }
  }

  /**
   * The converted SAX key is the lxml spelling of the same name: splitting
   * it as lxml does gives the URI and the local name back.
   */
  lemma SaxKeySplits(uri: string, local: string)
    requires uri != "" && '}' !in local
    ensures LxmlSplit(SaxKey((Some(uri), local))) == (uri, local)
  {
    var key := SaxKey((Some(uri), local));
    assert key == ("{" + uri) + ['}'] + local;
    LastIndexBefore("{" + uri, '}', local);
    assert BeforeLast(key, '}') == "{" + uri;
    assert AfterLast(key, '}') == local;
  }

  // ---------------------------------------------------------------------
  // SAX names: (uri, local)

  /**
   * The start and end method names for a SAX element name: a known URI
   * picks its prefix, `None` picks OPML, and any other URI picks nothing.
   */
  function SaxNames(name: QName): (r: Option<(string, string)>)
    ensures r.None? <==> name.0.Some? && name.0.value !in Common.Namespaces
    ensures name.0.None? ==> r == Some((StartName("opml", name.1), EndName("opml", name.1)))
    ensures name.0.Some? && name.0.value in Common.Namespaces ==>
      var p := Common.Namespaces[name.0.value];
      r == Some((StartName(p, name.1), EndName(p, name.1)))
  {
    match name.0
    case None => Some((StartName("opml", name.1), EndName("opml", name.1)))
    case Some(uri) =>
      if uri in Common.Namespaces then
        var p := Common.Namespaces[uri];
        Some((StartName(p, name.1), EndName(p, name.1)))
      else None
  }

  /** The start method a SAX name reaches, if the object defines it. */
  function SaxStart(handlers: set<string>, name: QName): (r: Option<string>)
    ensures r.Some? <==> SaxNames(name).Some? && SaxNames(name).value.0 in handlers
    ensures r.Some? ==> r.value == SaxNames(name).value.0
  {
    if SaxNames(name).Some? then XmlHandlers.Resolve(handlers, SaxNames(name).value.0) else None
  }

  /** The end method a SAX name reaches, if the object defines it. */
  function SaxEnd(handlers: set<string>, name: QName): (r: Option<string>)
    ensures r.Some? <==> SaxNames(name).Some? && SaxNames(name).value.1 in handlers
    ensures r.Some? ==> r.value == SaxNames(name).value.1
  {
    if SaxNames(name).Some? then XmlHandlers.Resolve(handlers, SaxNames(name).value.1) else None
  }

  /**
   * The two tokenizers agree on names in a known namespace and on names
   * without one; under an unknown namespace lxml falls back to the OPML
   * handlers while SAX reaches none.
   */
  lemma TokenizersAgree(uri: string, local: string)
    requires '}' !in local
    ensures uri in Common.Namespaces ==> SaxNames((Some(uri), local)) == Some(LxmlNames(SaxKey((Some(uri), local))))
    ensures uri != "" && uri !in Common.Namespaces ==>
      SaxNames((Some(uri), local)).None? && LxmlNames(SaxKey((Some(uri), local))).0 == StartName("opml", local)
    ensures SaxNames((None, local)) == Some(LxmlNames(local))
  {
    if uri != "" {
      SaxKeySplits(uri, local);
    }
    assert "" !in Common.Namespaces;
    assert LastIndex(local, '}') == -1;
    assert LxmlSplit(local) == ("", local);
  }

  // ---------------------------------------------------------------------
  // attribute conversion

  /** Each SAX attribute under its converted key, in document order. */
  function ConvertedPairs(attrs: seq<(QName, string)>): (r: seq<(string, Option<string>)>)
    ensures |r| == |attrs|
    ensures forall i :: 0 <= i < |attrs| ==> r[i] == (SaxKey(attrs[i].0), Some(attrs[i].1))
  {
    seq(|attrs|, i requires 0 <= i < |attrs| => (SaxKey(attrs[i].0), Some(attrs[i].1)))
  }

  /**
   * The loop that rebuilds the attribute dictionary with string keys:
   * every key appears once, in first-seen order, holding the last value
   * written under it.
   */
  method ConvertAttributes(attrs: seq<(QName, string)>) returns (attributes: XmlHandlers.Attrs)
    ensures attributes == XmlHandlers.DictOf(ConvertedPairs(attrs))
    ensures XmlHandlers.UniqueKeys(attributes)
    ensures XmlHandlers.KeysOf(attributes) == set i | 0 <= i < |attrs| :: SaxKey(attrs[i].0)
  {
    attributes := [];
    var i := 0;
    while i < |attrs|
      invariant 0 <= i <= |attrs|
      invariant attributes == XmlHandlers.DictOf(ConvertedPairs(attrs[..i]))
    {
      ConvertedStep(attrs, i);
      attributes := XmlHandlers.Assign(attributes, SaxKey(attrs[i].0), attrs[i].1);
      i := i + 1;
    }
    assert attrs[..|attrs|] == attrs;
    ConvertedKeys(attrs);
  }

  /** One more attribute is one more assignment. */
  lemma ConvertedStep(attrs: seq<(QName, string)>, i: nat)
    requires i < |attrs|
    ensures XmlHandlers.DictOf(ConvertedPairs(attrs[..i + 1])) ==
      XmlHandlers.Assign(XmlHandlers.DictOf(ConvertedPairs(attrs[..i])), SaxKey(attrs[i].0), attrs[i].1)
  {
    var next := ConvertedPairs(attrs[..i + 1]);
    assert next[..i] == ConvertedPairs(attrs[..i]);
    assert next[i] == (SaxKey(attrs[i].0), Some(attrs[i].1));
  }

  /** The converted dictionary's keys are the converted attribute names. */
  lemma ConvertedKeys(attrs: seq<(QName, string)>)
    ensures XmlHandlers.KeysOf(XmlHandlers.DictOf(ConvertedPairs(attrs))) == set i | 0 <= i < |attrs| :: SaxKey(attrs[i].0)
  {
    var pairs := ConvertedPairs(attrs);
    forall k | k in XmlHandlers.KeysOf(pairs)
      ensures k in set i | 0 <= i < |attrs| :: SaxKey(attrs[i].0)
    {
      var i :| 0 <= i < |pairs| && pairs[i].0 == k;
      assert SaxKey(attrs[i].0) == k;
    }
    forall i | 0 <= i < |attrs|
      ensures SaxKey(attrs[i].0) in XmlHandlers.KeysOf(pairs)
    {
      assert pairs[i].0 == SaxKey(attrs[i].0);
    }
  }

  /** The value a converted key holds is the one written last under it. */
  lemma ConvertedLastWins(attrs: seq<(QName, string)>, j: nat)
    requires j < |attrs| && forall m :: j < m < |attrs| ==> SaxKey(attrs[m].0) != SaxKey(attrs[j].0)
    ensures (SaxKey(attrs[j].0), attrs[j].1) in XmlHandlers.DictOf(ConvertedPairs(attrs))
  {
    XmlHandlers.DictOfLastWins(ConvertedPairs(attrs), j);
  }

  // ---------------------------------------------------------------------
  // the dispatchers

  /** `warning`, `error` and `fatalError`: every report is recorded and none raises. */
  method Warning(state: Dialects.BaseHandler, exception: Failure)
    modifies state`bozo, state`bozoException
    ensures state.bozo && state.bozoException == Some(exception)
  {
    state.RaiseBozo(Exception(exception));
  }

  /** An end handler ran, so capture is reset; without one it is left alone. */
  method AfterEnd(state: Dialects.BaseHandler, call: Option<string>)
    modifies state`expecting, state`characters
    ensures call.Some? ==> !state.expecting && state.characters == ""
    ensures call.None? ==> state.expecting == old(state.expecting) && state.characters == old(state.characters)
  {
    if call.Some? {
      state.StopCapture();
    }
  }

  /** The newer generation's lxml dispatcher, caching lookups per raw name. */
  class LxmlHandler {
    const state: Dialects.BaseHandler
    const handlers: set<string>
    var startMethods: map<string, Option<string>>
    var endMethods: map<string, Option<string>>

    /** Every cached lookup is what a fresh lookup would find. */
    ghost predicate Valid()
      reads this
    {
      (forall k :: k in startMethods ==> startMethods[k] == XmlHandlers.Resolve(handlers, LxmlNames(k).0)) &&
      (forall k :: k in endMethods ==> endMethods[k] == XmlHandlers.Resolve(handlers, LxmlNames(k).1))
    }

    constructor (state: Dialects.BaseHandler, handlers: set<string>)
      ensures Valid() && this.state == state && this.handlers == handlers
      ensures startMethods == map[] && endMethods == map[]
    {
      this.state := state;
      this.handlers := handlers;
      startMethods, endMethods := map[], map[];
    }

    /** `start`: the start method to run with the attributes, cached on first sight. */
    method Start(name: string) returns (call: Option<string>)
      requires Valid()
      modifies this`startMethods
      ensures Valid()
      ensures call == XmlHandlers.Resolve(handlers, LxmlNames(name).0)
      ensures startMethods == old(startMethods)[name := call]
    {
      if name in startMethods {
        call := startMethods[name];
      } else {
        call := XmlHandlers.Resolve(handlers, LxmlNames(name).0);
        startMethods := startMethods[name := call];
      }
    }

    /** `end`, up to running the method: the end method, cached on first sight. */
    method End(name: string) returns (call: Option<string>)
      requires Valid()
      modifies this`endMethods
      ensures Valid()
      ensures call == XmlHandlers.Resolve(handlers, LxmlNames(name).1)
      ensures endMethods == old(endMethods)[name := call]
    {
      if name in endMethods {
        call := endMethods[name];
      } else {
        call := XmlHandlers.Resolve(handlers, LxmlNames(name).1);
        endMethods := endMethods[name := call];
      }
    }

    /** `data`: text is appended only while capture is on. */
    method Data(data: string)
      modifies state`characters
      ensures state.characters == if state.expecting then old(state.characters) + data else old(state.characters)
    {
      state.Characters(data);
    }
  }

  /**
   * A SAX dispatcher caching lookups per `(uri, local)` name: the newer
   * generation's `XmlSaxHandler`, and its package-level `Handler`, which
   * differs only in handing the attributes over unconverted.
   */
  class SaxHandler {
    const state: Dialects.BaseHandler
    const handlers: set<string>
    var startMethods: map<QName, Option<string>>
    var endMethods: map<QName, Option<string>>

    ghost predicate Valid()
      reads this
    {
      (forall k :: k in startMethods ==> startMethods[k] == SaxStart(handlers, k)) &&
      (forall k :: k in endMethods ==> endMethods[k] == SaxEnd(handlers, k))
    }

    constructor (state: Dialects.BaseHandler, handlers: set<string>)
      ensures Valid() && this.state == state && this.handlers == handlers
      ensures startMethods == map[] && endMethods == map[]
    {
      this.state := state;
      this.handlers := handlers;
      startMethods, endMethods := map[], map[];
    }

    /** `startElementNS` of the package-level `Handler`: the start method, cached on first sight. */
    method StartElementNS(name: QName) returns (call: Option<string>)
      requires Valid()
      modifies this`startMethods
      ensures Valid()
      ensures call == SaxStart(handlers, name)
      ensures startMethods == old(startMethods)[name := call]
    {
      if name in startMethods {
        call := startMethods[name];
      } else {
        call := SaxStart(handlers, name);
        startMethods := startMethods[name := call];
      }
    }

    /**
     * `XmlSaxHandler.startElementNS`: as above, and when there is a method
     * to run, the attributes it receives under string keys.
     */
    method StartConverted(name: QName, attrs: seq<(QName, string)>) returns (call: Option<string>, attributes: Option<XmlHandlers.Attrs>)
      requires Valid()
      modifies this`startMethods
      ensures Valid()
      ensures call == SaxStart(handlers, name)
      ensures startMethods == old(startMethods)[name := call]
      ensures attributes.Some? <==> call.Some?
      ensures attributes.Some? ==> attributes.value == XmlHandlers.DictOf(ConvertedPairs(attrs))
    {
      call := StartElementNS(name);
      if call.None? {
        return call, None;
      }
      var converted := ConvertAttributes(attrs);
      attributes := Some(converted);
    }

    /** `endElementNS`, up to running the method: the end method, cached on first sight. */
    method EndElementNS(name: QName) returns (call: Option<string>)
      requires Valid()
      modifies this`endMethods
      ensures Valid()
      ensures call == SaxEnd(handlers, name)
      ensures endMethods == old(endMethods)[name := call]
    {
      if name in endMethods {
        call := endMethods[name];
      } else {
        call := SaxEnd(handlers, name);
        endMethods := endMethods[name := call];
      }
    }

    /** `characters`: text is appended only while capture is on. */
    method Characters(content: string)
      modifies state`characters
      ensures state.characters == if state.expecting then old(state.characters) + content else old(state.characters)
    {
      state.Characters(content);
    }
  }

  /**
   * The older generation's `Handler`: the same name rules as the SAX
   * dispatcher, looked up afresh on every event.
   */
  class LegacyHandler {
    const state: Dialects.BaseHandler
    const handlers: set<string>

    constructor (state: Dialects.BaseHandler, handlers: set<string>)
      ensures this.state == state && this.handlers == handlers
    {
      this.state := state;
      this.handlers := handlers;
    }

    /** `startElementNS`: the start method to run with the attributes, if any. */
    method StartElementNS(name: QName) returns (call: Option<string>)
      ensures call.Some? <==> SaxNames(name).Some? && SaxNames(name).value.0 in handlers
      ensures call.Some? ==> call.value == SaxNames(name).value.0
    {
      var fn := "";
      if name.0.Some? && name.0.value in Common.Namespaces {
        fn := StartName(Common.Namespaces[name.0.value], name.1);
      } else if name.0.None? {
        fn := StartName("opml", name.1);
      }
      // `getattr(self, '')` never finds a method
      call := if fn != "" then XmlHandlers.Resolve(handlers, fn) else None;
    }

    /** `endElementNS`, up to running the method: the end method, if any. */
    method EndElementNS(name: QName) returns (call: Option<string>)
      ensures call.Some? <==> SaxNames(name).Some? && SaxNames(name).value.1 in handlers
      ensures call.Some? ==> call.value == SaxNames(name).value.1
    {
      var fn := "";
      if name.0.Some? && name.0.value in Common.Namespaces {
        fn := EndName(Common.Namespaces[name.0.value], name.1);
      } else if name.0.None? {
        fn := EndName("opml", name.1);
      }
      call := if fn != "" then XmlHandlers.Resolve(handlers, fn) else None;
    }

    /** `characters`: text is appended only while capture is on. */
    method Characters(content: string)
      modifies state`characters
      ensures state.characters == if state.expecting then old(state.characters) + content else old(state.characters)
    {
      state.Characters(content);
    }
  }

  /** A cached dispatcher and the uncached one reach the same methods. */
  lemma CacheIsTransparent(handlers: set<string>, name: QName, cached: map<QName, Option<string>>)
    requires forall k :: k in cached ==> cached[k] == SaxStart(handlers, k)
    ensures (if name in cached then cached[name] else SaxStart(handlers, name)) == SaxStart(handlers, name)
  {
  }
}
