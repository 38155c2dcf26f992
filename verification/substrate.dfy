/** The graph library the information model is built on (compas `Graph` and
    `Network`), as an abstract value: node keys in insertion order, the stored
    attribute dictionary of every node, a set of directed edges, graph-level
    attributes, default node and edge attributes, and the largest integer key
    seen so far, from which automatic keys are drawn. */
module Substrate {
  import opened PyValues

  /** A node attribute value: a plain scalar, a float, or an owned object. */
  datatype Value<P> = Plain(d: Datum) | Real(r: real) | Obj(obj: P)

  type Attrs<P> = map<string, Value<P>>

  datatype Graph<P> = Graph(
    order: seq<Datum>,
    node: map<Datum, Attrs<P>>,
    edges: set<(Datum, Datum)>,
    attributes: map<string, Datum>,
    nodeDefaults: Attrs<P>,
    edgeDefaults: map<string, Datum>,
    maxInt: int)
  {
    /** The library's own invariant: every key appears once in `order` and has
        an attribute dictionary, edges join stored nodes, and no integer key
        exceeds `maxInt`. */
    ghost predicate Valid() {
      && (forall i, j :: 0 <= i < j < |order| ==> order[i] != order[j])
      && (forall k :: k in node <==> k in order)
      && (forall e :: e in edges ==> e.0 in node && e.1 in node)
      && (forall k :: k in node && k.DInt? ==> k.i <= maxInt)
    }
  }

  /** A new graph: no nodes, no edges, the given attributes and defaults. */
  function Empty<P>(attributes: map<string, Datum>, nodeDefaults: Attrs<P>): (g: Graph<P>)
    ensures g.Valid() && |g.order| == 0 && g.edges == {}
    ensures g.attributes == attributes && g.nodeDefaults == nodeDefaults
  {
    Graph([], map[], {}, attributes, nodeDefaults, map[], -1)
  }

  /** The key `add_node(None, ...)` hands out. */
  function AutoKey<P>(g: Graph<P>): Datum {
    DInt(g.maxInt + 1)
  }

  /** `add_node(key, **attrs)`: a new key is appended with `attrs`; a present
      key keeps its place and gets `attrs` merged over what it stores; `None`
      is replaced by the next automatic integer key. Returns the key used. */
  function AddNode<P>(g: Graph<P>, key: Datum, attrs: Attrs<P>): (r: (Graph<P>, Datum))
    ensures r.1 == (if key == DNone then AutoKey(g) else key)
    ensures r.1 in r.0.node
    ensures r.0.node == g.node[r.1 := (if r.1 in g.node then g.node[r.1] else map[]) + attrs]
    ensures r.0.order == (if r.1 in g.node then g.order else g.order + [r.1])
    ensures r.0.edges == g.edges && r.0.attributes == g.attributes
    ensures r.0.nodeDefaults == g.nodeDefaults && r.0.edgeDefaults == g.edgeDefaults
    ensures g.Valid() ==> r.0.Valid()
    ensures g.Valid() && key == DNone ==> r.1 !in g.node
    ensures key == DNone ==> r.0.maxInt == g.maxInt + 1
  {
    var k := if key == DNone then AutoKey(g) else key;
    var stored := if k in g.node then g.node[k] else map[];
    var g' := g.(
      order := if k in g.node then g.order else g.order + [k],
      node := g.node[k := stored + attrs],
      maxInt := if k.DInt? && k.i > g.maxInt then k.i else g.maxInt);
    (g', k)
  }

  /** The graph with `k` as a node: unchanged if `k` is one already,
      otherwise `k` added with no attributes. */
  function EnsureNode<P>(g: Graph<P>, k: Datum): (r: Graph<P>)
    requires k != DNone
    ensures k in r.node
    ensures k in g.node ==> r == g
    ensures r.order == if k in g.node then g.order else g.order + [k]
    ensures forall x :: x in g.node ==> x in r.node && r.node[x] == g.node[x]
    ensures forall x :: x in r.node && x !in g.node ==> x == k && r.node[x] == map[]
    ensures r.edges == g.edges && r.attributes == g.attributes && r.nodeDefaults == g.nodeDefaults
    ensures g.Valid() ==> r.Valid()
  {
    if k in g.node then g else AddNode(g, k, map[]).0
  }

  /** `add_edge(u, v)`: an endpoint that is not a node yet is added first,
      with no attributes; then the edge is recorded. */
  function AddEdge<P>(g: Graph<P>, u: Datum, v: Datum): (r: Graph<P>)
    requires u != DNone && v != DNone
    ensures r.edges == g.edges + {(u, v)}
    ensures u in r.node && v in r.node
    ensures r.order == g.order + (if u in g.node then [] else [u]) + (if v in g.node || v == u then [] else [v])
    ensures forall k :: k in g.node ==> k in r.node && r.node[k] == g.node[k]
    ensures forall k :: k in r.node && k !in g.node ==> (k == u || k == v) && r.node[k] == map[]
    ensures r.attributes == g.attributes && r.nodeDefaults == g.nodeDefaults
    ensures g.Valid() ==> r.Valid()
    ensures u in g.node && v in g.node ==> r == g.(edges := g.edges + {(u, v)})
  {
    var g1 := EnsureNode(g, u);
    var g2 := EnsureNode(g1, v);
    EdgeKeepsValid(g2, u, v);
    g2.(edges := g2.edges + {(u, v)})
  }

  /** An edge between two stored nodes keeps a graph valid. */
  lemma EdgeKeepsValid<P>(g: Graph<P>, u: Datum, v: Datum)
    requires u in g.node && v in g.node
    ensures g.Valid() ==> g.(edges := g.edges + {(u, v)}).Valid()
  {
  }

  /** `node_attribute(key, name)`: the stored value, else the default, else
      `None`. */
  function NodeAttribute<P>(g: Graph<P>, key: Datum, name: string): Value<P>
    requires key in g.node
  {
    if name in g.node[key] then g.node[key][name]
    else if name in g.nodeDefaults then g.nodeDefaults[name]
    else Plain(DNone)
  }

  predicate Matches<P(==)>(g: Graph<P>, key: Datum, name: string, value: Value<P>) {
    key in g.node && NodeAttribute(g, key, name) == value
  }

  /** `nodes_where({name: value})`: the keys, in node order, whose attribute
      `name` equals `value`. */
  function NodesWhere<P(==)>(g: Graph<P>, name: string, value: Value<P>): (r: seq<Datum>)
    ensures forall k :: k in r <==> k in g.order && Matches(g, k, name, value)
    ensures |r| <= |g.order|
  {
    Filter(g, g.order, name, value)
  }

  function Filter<P(==)>(g: Graph<P>, keys: seq<Datum>, name: string, value: Value<P>): (r: seq<Datum>)
    ensures forall k :: k in r <==> k in keys && Matches(g, k, name, value)
    ensures |r| <= |keys|
  {
    if |keys| == 0 then []
    else
      var rest := Filter(g, keys[1..], name, value);
      assert forall k :: k in keys <==> k == keys[0] || k in keys[1..];
      if Matches(g, keys[0], name, value) then [keys[0]] + rest else rest
  }

  function NumberOfNodes<P>(g: Graph<P>): nat {
    |g.order|
  }

  function NumberOfEdges<P>(g: Graph<P>): nat {
    |g.edges|
  }

  /** A sequence without repeats has as many distinct elements as entries. */
  lemma {:induction false} DistinctCount<T>(s: seq<T>)
    requires forall i, j :: 0 <= i < j < |s| ==> s[i] != s[j]
    ensures |(set x | x in s)| == |s|
  {
    if |s| > 0 {
      DistinctCount(s[1..]);
      assert (set x | x in s) == (set x | x in s[1..]) + {s[0]};
      assert s[0] !in (set x | x in s[1..]);
    }
  }

  /** In a valid graph the key order counts each node once. */
  lemma NodeCountIsKeyCount<P>(g: Graph<P>)
    ensures g.Valid() ==> NumberOfNodes(g) == |g.node|
  {
    if g.Valid() {
      DistinctCount(g.order);
      assert g.node.Keys == set x | x in g.order;
    }
  }

  /** A plain attribute dictionary lifted to node attributes. */
  function Lift<P>(m: map<string, Datum>): (r: Attrs<P>)
    ensures r.Keys == m.Keys
    ensures forall k :: k in m ==> r[k] == Plain(m[k])
  {
    map k | k in m :: Plain(m[k])
  }

  /** The automatic keys `start`, `start + 1`, ..., `start + n - 1`. */
  function IntKeys(start: int, n: nat): (r: seq<Datum>)
    ensures |r| == n
    ensures forall i :: 0 <= i < n ==> r[i] == DInt(start + i)
  {
    seq(n, i requires 0 <= i < n => DInt(start + i))
  }

  /** Automatic keys are new: no integer key exceeds the counter. */
  predicate AutoFresh<P>(g: Graph<P>) {
    forall k :: k in g.node && k.DInt? ==> k.i <= g.maxInt
  }

  /** A valid graph's automatic keys are new. */
  lemma ValidAutoFresh<P>(g: Graph<P>)
    requires g.Valid()
    ensures AutoFresh(g)
  {
  }

  /** The run of automatic keys from `start` is `start` followed by the run
      from `start + 1`. */
  lemma IntKeysCons(start: int, n: nat)
    requires n > 0
    ensures IntKeys(start, n) == [DInt(start)] + IntKeys(start + 1, n - 1)
  {
    assert forall i :: 0 <= i < n ==> IntKeys(start, n)[i] == ([DInt(start)] + IntKeys(start + 1, n - 1))[i];
  }

  /** Appending one element and then a run is appending the run prefixed
      with the element. */
  lemma AppendCons<T>(a: seq<T>, x: T, b: seq<T>, c: seq<T>)
    requires c == [x] + b
    ensures (a + [x]) + b == a + c
  {
  }

  /** The `attr_dict` argument of an `add_*` method whose default is one
      mutable dictionary: not passed (so the shared default is used), passed
      as `None`, or passed as a dictionary. */
  datatype DictArg = NotPassed | PassedNone | Passed(dict: map<string, Datum>)

  /** `attr_dict.update(kwattr)`, giving the dictionary the method passes
      on: the caller's, or else the shared default one, with the keyword
      attributes merged in. `None` has no `update` and raises
      AttributeError. */
  function AttrDict(attrDict: DictArg, kw: map<string, Datum>, shared: map<string, Datum>): (r: Result<map<string, Datum>>)
    ensures r.Err? <==> attrDict.PassedNone?
    ensures r.Err? ==> r.error == AttributeError
    ensures r.Ok? ==> r.value.Keys == (if attrDict.Passed? then attrDict.dict.Keys else shared.Keys) + kw.Keys
    ensures r.Ok? ==> forall k :: k in kw ==> r.value[k] == kw[k]
    ensures r.Ok? ==> forall k :: k !in kw && attrDict.Passed? && k in attrDict.dict ==> r.value[k] == attrDict.dict[k]
    ensures r.Ok? ==> forall k :: k !in kw && attrDict.NotPassed? && k in shared ==> r.value[k] == shared[k]
  {
    match attrDict
    case NotPassed => Ok(shared + kw)
    case PassedNone => Err(AttributeError)
    case Passed(d) => Ok(d + kw)
  }
}
