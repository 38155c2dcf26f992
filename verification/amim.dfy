/** `AMIM`, the model of the `additive_manufacturing_information_model`
    package: a network whose nodes each hold a fabrication node, stored with
    the coordinates of its frame's origin. Adding a node links it to the node
    whose key is one less, so nodes added with automatic keys form a chain. */
module AMIMs {
  import opened PyValues
  import opened Geometry
  import opened Substrate
  import opened NetworkSetup

  /** A fabrication node, as far as the network sees it: its frame. */
  datatype FabNode = FabNode(frame: Frame)

  datatype AMIM = AMIM(network: Graph<FabNode>)

  /** The attribute holding a network node's fabrication node. */
  const NodeAttr: string := "node"

  /** The name a model gets when its attributes carry none. */
  const DefaultName: string := "Assembly"

  /** The attributes stored for a node: the attribute dictionary, then the
      coordinates of the frame's origin and the node itself. */
  function NodeAttrs(dict: map<string, Datum>, n: FabNode): (r: Attrs<FabNode>)
    ensures r.Keys == dict.Keys + {"x", "y", "z", NodeAttr}
    ensures r["x"] == Real(n.frame.point.x) && r["y"] == Real(n.frame.point.y) && r["z"] == Real(n.frame.point.z)
    ensures r[NodeAttr] == Obj(n)
    ensures forall k :: k in dict && k !in {"x", "y", "z", NodeAttr} ==> r[k] == Plain(dict[k])
  {
    Lift(dict) + map["x" := Real(n.frame.point.x), "y" := Real(n.frame.point.y),
                     "z" := Real(n.frame.point.z), NodeAttr := Obj(n)]
  }

  /** `number_of_nodes()`. */
  function NumberOfNodes(m: AMIM): nat {
    Substrate.NumberOfNodes(m.network)
  }

  /** In a valid model `number_of_nodes` counts each key once. */
  lemma NodeCount(m: AMIM)
    requires m.network.Valid()
    ensures NumberOfNodes(m) == |m.network.node|
  {
    NodeCountIsKeyCount(m.network);
  }

  /** `number_of_connections()`. */
  function NumberOfConnections(m: AMIM): (r: nat)
    ensures r == 0 <==> m.network.edges == {}
  {
    NumberOfEdges(m.network)
  }

  /** The integer a key stands for in `key == 0` and `key - 1`: an integer,
      or a boolean (which Python treats as 0 or 1); a string has none. */
  function KeyNumber(k: Datum): (r: Option<int>)
    ensures r.Some? <==> k.DInt? || k.DBool?
    ensures k.DInt? ==> r == Some(k.i)
    ensures k.DBool? ==> r == Some(if k.b then 1 else 0)
  {
    match k
    case DInt(i) => Some(i)
    case DBool(b) => Some(if b then 1 else 0)
    case _ => None
  }

  /** The outcome of `add_node`: the model, the key used, and the default
      attribute dictionary shared by all calls that do not pass their own. */
  datatype Added = Added(model: AMIM, key: Datum, shared: map<string, Datum>)

  /** The edge `add_node` draws to a node stored under `k`: none for key 0,
      otherwise one from key `k - 1`. */
  function LinkFor(k: Datum): (r: set<(Datum, Datum)>)
    requires KeyNumber(k).Some?
    ensures KeyNumber(k).value == 0 ==> r == {}
    ensures KeyNumber(k).value != 0 ==> r == {(DInt(KeyNumber(k).value - 1), k)}
  {
    var i := KeyNumber(k).value;
    if i == 0 then {} else {(DInt(i - 1), k)}
  }

  /** The link `add_node` draws after storing a node under `k`: none for a
      key equal to 0, otherwise an edge from `k - 1`, which is added as a node
      if missing; a string key cannot be decremented and raises TypeError. */
  function Link(g: Graph<FabNode>, k: Datum): (r: Result<Graph<FabNode>>)
    requires k != DNone
    ensures r.Err? <==> k.DStr?
    ensures r.Err? ==> r.error == TypeError
    ensures r.Ok? ==> && r.value.edges == g.edges + LinkFor(k)
                      && (forall x :: x in g.node ==> x in r.value.node && r.value.node[x] == g.node[x])
                      && r.value.attributes == g.attributes && r.value.nodeDefaults == g.nodeDefaults
                      && (g.Valid() ==> r.value.Valid())
  {
    match KeyNumber(k)
    case None => Err(TypeError)
    case Some(i) => if i == 0 then Ok(g) else Ok(AddEdge(g, DInt(i - 1), k))
  }

  /** `add_node(node, key, attr_dict, **kwattr)`. The keyword attributes are
      merged into `attr_dict` (the one default dictionary when the caller
      passes none, which keeps them for later calls; an explicit `None`
      raises AttributeError); the node is stored under `key` (an automatic
      integer key for `None`) with those attributes, its origin's coordinates
      and itself; then it is linked from `key - 1` unless the key equals
      0. */
  function AddNode(m: AMIM, n: FabNode, key: Datum, attrDict: DictArg,
                   kw: map<string, Datum>, shared: map<string, Datum>): (r: Result<Added>)
    ensures r.Err? <==> attrDict.PassedNone? || key.DStr?
    ensures r.Err? ==> r.error == (if attrDict.PassedNone? then AttributeError else TypeError)
    ensures r.Ok? ==> r.value.key == (if key == DNone then AutoKey(m.network) else key)
    ensures r.Ok? ==> var g := r.value.model.network; var k := r.value.key;
      && k in g.node
      && g.node[k] == (if k in m.network.node then m.network.node[k] else map[]) + NodeAttrs(AttrDict(attrDict, kw, shared).value, n)
      && g.edges == m.network.edges + LinkFor(k)
      && (forall x :: x in m.network.node && x != k ==> x in g.node && g.node[x] == m.network.node[x])
      && g.attributes == m.network.attributes && g.nodeDefaults == m.network.nodeDefaults
      && (m.network.Valid() ==> g.Valid())
    ensures r.Ok? ==> r.value.shared == (if attrDict.NotPassed? then shared + kw else shared)
  {
    var dict :- AttrDict(attrDict, kw, shared);
    var stored := Substrate.AddNode(m.network, key, NodeAttrs(dict, n));
    var linked :- Link(stored.0, stored.1);
    Ok(Added(AMIM(linked), stored.1, if attrDict.NotPassed? then dict else shared))
  }

  /** Keyword attributes given to one call that uses the default dictionary
      are stored with a node added by a later call that passes none. */
  lemma SharedDefaultPersists(m: AMIM, a: FabNode, b: FabNode, kw: map<string, Datum>, shared: map<string, Datum>, name: string)
    requires name in kw && name !in {"x", "y", "z", NodeAttr}
    ensures AddNode(m, a, DNone, NotPassed, kw, shared).Ok?
    ensures var first := AddNode(m, a, DNone, NotPassed, kw, shared).value;
      && AddNode(first.model, b, DNone, NotPassed, map[], first.shared).Ok?
      && var second := AddNode(first.model, b, DNone, NotPassed, map[], first.shared).value;
         second.model.network.node[second.key][name] == Plain(kw[name])
  {
    var first := AddNode(m, a, DNone, NotPassed, kw, shared).value;
    var dict := AttrDict(NotPassed, map[], first.shared).value;
    assert dict[name] == kw[name] by {
      assert first.shared[name] == kw[name];
    }
    assert NodeAttrs(dict, b)[name] == Plain(kw[name]);
  }

  /** The edges of a chain of `n` nodes keyed 0 to `n - 1`: each key but the
      first linked from the one before. */
  function Chain(n: nat): (r: set<(Datum, Datum)>)
    ensures forall e :: e in r ==> e.0.DInt? && e.1.DInt? && e.1.i == e.0.i + 1 && 1 <= e.1.i < n
    ensures |r| == if n == 0 then 0 else n - 1
  {
    if n <= 1 then {}
    else
      var rest := Chain(n - 1);
      assert (DInt(n - 2), DInt(n - 1)) !in rest;
      rest + {(DInt(n - 2), DInt(n - 1))}
  }

  /** Every link of consecutive keys below `n` is in the chain. */
  lemma {:induction false} InChain(n: nat, i: int)
    requires 1 <= i < n
    ensures (DInt(i - 1), DInt(i)) in Chain(n)
    decreases n
  {
    if i < n - 1 {
      InChain(n - 1, i);
    }
  }

  /** The node appended under the next automatic key with the default
      dictionary's attributes, linked from the key before it unless it is
      the first. */
  function AutoAdd(m: AMIM, n: FabNode, shared: map<string, Datum>): (r: AMIM)
    requires AutoFresh(m.network)
    ensures AutoFresh(r.network)
  {
    var g := m.network;
    var k := DInt(g.maxInt + 1);
    AMIM(g.(order := g.order + [k], node := g.node[k := NodeAttrs(shared, n)],
            edges := if g.maxInt + 1 == 0 then g.edges else g.edges + {(DInt(g.maxInt), k)},
            maxInt := g.maxInt + 1))
  }

  /** Storing a node under a fresh automatic key appends the key. */
  lemma StoreAuto(g: Graph<FabNode>, attrs: Attrs<FabNode>)
    requires AutoFresh(g)
    ensures Substrate.AddNode(g, DNone, attrs)
         == (g.(order := g.order + [DInt(g.maxInt + 1)], node := g.node[DInt(g.maxInt + 1) := attrs], maxInt := g.maxInt + 1),
             DInt(g.maxInt + 1))
  {
    assert DInt(g.maxInt + 1) !in g.node;
    assert map[] + attrs == attrs;
  }

  /** `add_node(node)` with no key, no dictionary and no keyword attributes
      is the automatic addition when the key before the next one is a node
      (or there is none), and leaves the default dictionary as it was. */
  lemma AutoAddIsAddNode(m: AMIM, n: FabNode, shared: map<string, Datum>)
    requires AutoFresh(m.network)
    requires m.network.maxInt == -1 || DInt(m.network.maxInt) in m.network.node
    ensures AddNode(m, n, DNone, NotPassed, map[], shared) == Ok(Added(AutoAdd(m, n, shared), DInt(m.network.maxInt + 1), shared))
  {
    assert shared + map[] == shared;
    assert AttrDict(NotPassed, map[], shared) == Ok(shared);
    var g := m.network;
    var attrs := NodeAttrs(shared, n);
    StoreAuto(g, attrs);
    var k := DInt(g.maxInt + 1);
    LinkAuto(g.(order := g.order + [k], node := g.node[k := attrs], maxInt := g.maxInt + 1));
  }

  /** Linking the newest automatic key, whose predecessor is a node (or
      which is 0), adds just the edge from the predecessor. */
  lemma LinkAuto(g: Graph<FabNode>)
    requires DInt(g.maxInt) in g.node
    requires g.maxInt == 0 || DInt(g.maxInt - 1) in g.node
    ensures Link(g, DInt(g.maxInt))
         == Ok(if g.maxInt == 0 then g else g.(edges := g.edges + {(DInt(g.maxInt - 1), DInt(g.maxInt))}))
  {
  }

  /** The constructor's loop: `add_node(node)` for each node in turn. */
  function AddNodes(m: AMIM, ns: seq<FabNode>, shared: map<string, Datum>): (r: AMIM)
    requires AutoFresh(m.network)
    ensures AutoFresh(r.network)
    ensures r.network.maxInt == m.network.maxInt + |ns|
    ensures m.network.edges <= r.network.edges && r.network.attributes == m.network.attributes
    ensures r.network.nodeDefaults == m.network.nodeDefaults && r.network.edgeDefaults == m.network.edgeDefaults
    decreases |ns|
  {
    if |ns| == 0 then m else AddNodes(AutoAdd(m, ns[0], shared), ns[1..], shared)
  }

  /** The constructor's loop keeps the graph valid, as long as the key
      before the next automatic one is a node (or there is none). */
  lemma {:induction false} AddNodesValid(m: AMIM, ns: seq<FabNode>, shared: map<string, Datum>)
    requires m.network.Valid()
    requires m.network.maxInt == -1 || DInt(m.network.maxInt) in m.network.node
    ensures AutoFresh(m.network) && AddNodes(m, ns, shared).network.Valid()
    decreases |ns|
  {
    ValidAutoFresh(m.network);
    if |ns| > 0 {
      AutoAddIsAddNode(m, ns[0], shared);
      AddNodesValid(AutoAdd(m, ns[0], shared), ns[1..], shared);
    }
  }

  /** The nodes land under the next automatic keys, in order, and the graph
      attributes and defaults stay as they were. */
  lemma {:induction false} AddNodesOrder(m: AMIM, ns: seq<FabNode>, shared: map<string, Datum>)
    requires AutoFresh(m.network)
    ensures var r := AddNodes(m, ns, shared);
      && r.network.maxInt == m.network.maxInt + |ns|
      && r.network.order == m.network.order + IntKeys(m.network.maxInt + 1, |ns|)
      && r.network.attributes == m.network.attributes
      && r.network.nodeDefaults == m.network.nodeDefaults
    decreases |ns|
  {
    if |ns| > 0 {
      var g := m.network;
      AddNodesOrder(AutoAdd(m, ns[0], shared), ns[1..], shared);
      IntKeysCons(g.maxInt + 1, |ns|);
      AppendCons(g.order, DInt(g.maxInt + 1), IntKeys(g.maxInt + 2, |ns| - 1), IntKeys(g.maxInt + 1, |ns|));
    }
  }

  /** Adding a node with an automatic key to a chain of edges extends the
      chain by the link to the new key. */
  lemma AutoAddEdges(m: AMIM, n: FabNode, shared: map<string, Datum>)
    requires AutoFresh(m.network) && m.network.maxInt >= -1
    requires m.network.edges == Chain(m.network.maxInt + 1)
    ensures AutoAdd(m, n, shared).network.edges == Chain(m.network.maxInt + 2)
  {
    AutoAddLinks(m, n, shared);
    ChainNext(m.network.maxInt + 1);
  }

  /** The automatic addition links the new key from its predecessor,
      unless it is 0. */
  lemma AutoAddLinks(m: AMIM, n: FabNode, shared: map<string, Datum>)
    requires AutoFresh(m.network)
    ensures var g := m.network;
      AutoAdd(m, n, shared).network.edges
        == if g.maxInt + 1 == 0 then g.edges else g.edges + {(DInt(g.maxInt), DInt(g.maxInt + 1))}
  {
  }

  /** The chain one key longer adds the link into its newest key. */
  lemma ChainNext(k: nat)
    ensures Chain(k + 1) == if k == 0 then {} else Chain(k) + {(DInt(k - 1), DInt(k))}
  {
  }

  /** Nodes added in turn to a chain of edges extend it to a chain ending at
      `end`, one past the last key. */
  lemma {:induction false} AddNodesEdges(m: AMIM, ns: seq<FabNode>, shared: map<string, Datum>, end: nat)
    requires AutoFresh(m.network) && m.network.maxInt >= -1
    requires m.network.edges == Chain(m.network.maxInt + 1)
    requires end == m.network.maxInt + 1 + |ns|
    ensures AddNodes(m, ns, shared).network.edges == Chain(end)
    decreases |ns|
  {
    if |ns| > 0 {
      var a := AutoAdd(m, ns[0], shared);
      AutoAddEdges(m, ns[0], shared);
      AddNodesEdges(a, ns[1..], shared, end);
    }
  }

  /** The nodes are stored, in order, under the keys `start`, `start + 1`,
      ..., each with the dictionary's attributes. */
  ghost predicate Stored(node: map<Datum, Attrs<FabNode>>, start: int, shared: map<string, Datum>, ns: seq<FabNode>)
    decreases |ns|
  {
    |ns| > 0 ==>
      && DInt(start) in node && node[DInt(start)] == NodeAttrs(shared, ns[0])
      && Stored(node, start + 1, shared, ns[1..])
  }

  /** What `Stored` says about the `i`-th node. */
  lemma {:induction false} StoredAt(node: map<Datum, Attrs<FabNode>>, start: int, shared: map<string, Datum>, ns: seq<FabNode>, i: nat)
    requires Stored(node, start, shared, ns) && i < |ns|
    ensures DInt(start + i) in node && node[DInt(start + i)] == NodeAttrs(shared, ns[i])
    decreases i
  {
    if i > 0 {
      StoredAt(node, start + 1, shared, ns[1..], i - 1);
    }
  }

  /** Each node is stored, with the default dictionary's attributes, under
      its automatic key, and what was stored before is unchanged. */
  lemma {:induction false} AddNodesStored(m: AMIM, ns: seq<FabNode>, shared: map<string, Datum>)
    requires AutoFresh(m.network)
    ensures Stored(AddNodes(m, ns, shared).network.node, m.network.maxInt + 1, shared, ns)
    ensures forall k :: k in m.network.node ==>
      k in AddNodes(m, ns, shared).network.node && AddNodes(m, ns, shared).network.node[k] == m.network.node[k]
    decreases |ns|
  {
    if |ns| > 0 {
      var g := m.network;
      var a := AutoAdd(m, ns[0], shared);
      AddNodesStored(a, ns[1..], shared);
      assert DInt(g.maxInt + 1) in a.network.node;
    }
  }

  /** `AMIM(nodes, attributes, default_node_attribute,
      default_connection_attributes)`: the network is set up, then each node
      is added through `add_node`; an empty node list adds nothing. */
  function NewAMIM(nodes: seq<FabNode>, attributes: Option<map<string, Datum>>,
                   defaultNode: Option<map<string, Datum>>, defaultConnection: Option<map<string, Datum>>,
                   shared: map<string, Datum>): (r: AMIM)
    ensures r.network.attributes == InitialAttributes(DefaultName, attributes)
    ensures r.network.nodeDefaults == InitialDefaults(defaultNode)
    ensures r.network.maxInt == |nodes| - 1
  {
    AddNodes(AMIM(InitialNetwork(DefaultName, attributes, defaultNode, defaultConnection)), nodes, shared)
  }

  /** A new model holds the given nodes, in order, under the keys 0, 1, ...,
      each with the default dictionary's attributes and its origin's
      coordinates, linked into a chain of one connection fewer than there are
      nodes. */
  lemma NewAMIMShape(nodes: seq<FabNode>, attributes: Option<map<string, Datum>>,
                     defaultNode: Option<map<string, Datum>>, defaultConnection: Option<map<string, Datum>>,
                     shared: map<string, Datum>)
    ensures var m := NewAMIM(nodes, attributes, defaultNode, defaultConnection, shared);
      && m.network.Valid()
      && m.network.order == IntKeys(0, |nodes|)
      && NumberOfNodes(m) == |nodes|
      && NumberOfConnections(m) == (if |nodes| == 0 then 0 else |nodes| - 1)
      && (forall i :: 1 <= i < |nodes| ==> (DInt(i - 1), DInt(i)) in m.network.edges)
      && Stored(m.network.node, 0, shared, nodes)
      && m.network.attributes == InitialAttributes(DefaultName, attributes)
      && m.network.nodeDefaults == InitialDefaults(defaultNode)
  {
    var m0 := AMIM(InitialNetwork(DefaultName, attributes, defaultNode, defaultConnection));
    AddNodesValid(m0, nodes, shared);
    AddNodesOrder(m0, nodes, shared);
    AddNodesEdges(m0, nodes, shared, |nodes|);
    AddNodesStored(m0, nodes, shared);
    assert [] + IntKeys(0, |nodes|) == IntKeys(0, |nodes|);
    forall i | 1 <= i < |nodes|
      ensures (DInt(i - 1), DInt(i)) in Chain(|nodes|)
    {
      InChain(|nodes|, i);
    }
  }

  /** `copy()` is not implemented. */
  function Copy(m: AMIM): (r: Result<AMIM>)
    ensures r.Err? && r.error == NotImplementedError
  {
    Err(NotImplementedError)
  }

  /** `transformed(T)`: a copy, then transformed; the copy raises first, so
      no transformation is ever applied. */
  function Transformed(m: AMIM, t: Transformation): (r: Result<AMIM>)
    ensures r.Err? && r.error == NotImplementedError
  {
    Copy(m)
  }
}
