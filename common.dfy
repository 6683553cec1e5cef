/**
 * The pieces shared by every dialect handler: the table from namespace URI
 * to the prefix used in handler names (and, in the older generation, its
 * inverse), and `SuperDict`, the dictionary whose keys double as attributes.
 */
module Common {

  /**
   * Namespace URI to handler prefix.  Both generations ship the same nine
   * entries, with the Google gadget namespace spelled "iGoogle".
   */
  const Namespaces: map<string, string> := map[
    "http://opml.org/spec2" := "opml",
    "http://www.google.com/ig" := "iGoogle",
    "http://schemas.google.com/GadgetTabML/2008" := "gtml",
    "http://www.w3.org/1999/02/22-rdf-syntax-ns#" := "rdf",
    "http://www.w3.org/2000/01/rdf-schema#" := "rdfs",
    "http://xmlns.com/foaf/0.1/" := "foaf",
    "http://purl.org/dc/elements/1.1/" := "dc",
    "http://purl.org/rss/1.0/" := "rss",
    "http://blogs.yandex.ru/schema/foaf/" := "ya"
  ]

  const RdfUri := "http://www.w3.org/1999/02/22-rdf-syntax-ns#"

  /** No two namespaces share a prefix, so the table can be inverted. */
  lemma NamespacesInjective()
    ensures forall u, v :: u in Namespaces && v in Namespaces && Namespaces[u] == Namespaces[v] ==> u == v
  {
  }

  /** `_ns`: every prefix mapped back to the URI it names. */
  function Ns(): (r: map<string, string>)
    ensures r.Keys == Namespaces.Values
    ensures forall u :: u in Namespaces ==> r[Namespaces[u]] == u
    ensures forall p :: p in r ==> r[p] in Namespaces && Namespaces[r[p]] == p
  {
    NamespacesInjective();
    map u | u in Namespaces :: Namespaces[u] := u
  }

  /** The older FOAF handler reads `rdf:about` and `rdf:resource` through `_ns`. */
  lemma RdfThroughNs()
    ensures "rdf" in Ns() && Ns()["rdf"] == RdfUri
  {
    assert Namespaces[RdfUri] == "rdf";
  }

  // ---------------------------------------------------------------------
  // SuperDict

  /** What reading `d.name` produces on a `SuperDict`. */
  datatype Attribute<V> = Item(value: V) | DictMember(name: string) | AttributeError(name: string)

  /**
   * A dictionary whose keys are also attributes.  The names that
   * `dict.__getattribute__` itself resolves (`keys`, `get`, ...) are
   * given as `members` rather than enumerated.
   */
  class SuperDict<V> {
    var items: map<string, V>

    constructor (items: map<string, V>)
      ensures this.items == items
    {
      this.items := items;
    }

    /** `__getattribute__`: a key wins over a dict member of the same name. */
    function GetAttr(name: string, members: set<string>): (r: Attribute<V>)
      reads this
      ensures name in items <==> r.Item?
      ensures r.Item? ==> r.value == items[name]
      ensures name !in items ==> (r.DictMember? <==> name in members)
      ensures name !in items && name !in members ==> r == AttributeError(name)
    {
      if name in items then Item(items[name])
      else if name in members then DictMember(name)
      else AttributeError(name)
    }

    /** `__setattr__`: the attribute becomes a key; the value is returned. */
    method SetAttr(name: string, value: V) returns (r: V)
      modifies this
      ensures items == old(items)[name := value]
      ensures r == value
      ensures GetAttr(name, {}) == Item(value)
    {
      items := items[name := value];
      r := value;
    }
  }
}
