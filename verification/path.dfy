/** `Path`: an extended graph whose nodes hold printing nodes under the
    attribute `"node"`, keyed `node_0`, `node_1`, ... in the order they are
    added. The last key added is kept in a field of the path, not in the
    graph's attributes, which is why a default-parent addition never finds a
    parent. */
module Paths {
  import opened PyValues
  import opened PyText
  import opened Geometry
  import opened Substrate
  import opened ExtendedGraphs
  import opened ExtendedGraphFacts
  import Nodes

  /** The node attribute that holds the printing node. */
  const NodeAttr: string := "node"

  /** The type name the keys of a path are minted from. */
  const NodeName: string := "node"

  datatype Path = Path(graph: Graph<Nodes.Node>, lastNode: Datum, pcf: Frame)

  /** `Path(name)`. The name is the graph attribute `"name"`. */
  function NewPath(name: Datum): (p: Path)
    ensures p.graph.Valid() && |p.graph.order| == 0 && p.graph.edges == {}
    ensures p.graph.attributes == map["name" := name] && p.graph.nodeDefaults == map[]
    ensures p.lastNode == DNone && p.pcf == WorldXY
  {
    Path(NewGraph(map["name" := name]), DNone, WorldXY)
  }

  /** `node.attributes.get("name")`. */
  function NameOf(node: Nodes.Node): Datum {
    if "name" in node.attributes then node.attributes["name"] else DNone
  }

  /** The parent `add_node` links from: the graph attribute
      `_last_<node name>` when asked for `"last"`, else the argument. */
  function ParentOf(p: Path, node: Nodes.Node, parent: Datum): Datum {
    if parent == Last then GetLastKey(p.graph, Show(NameOf(node))) else parent
  }

  /** `add_node(node, key, parent_node)`: a missing key is minted as
      `node_<1 + largest suffix>` over all nodes of the path; the node is
      stored (over whatever the key held), the key becomes `_last_node`, and
      the resolved parent, unless `None`, gets an edge to it. The flag is the
      "value is overwritten" warning. */
  function AddNode(p: Path, node: Nodes.Node, key: Datum, parent: Datum): (r: Result<Warned<Path>>)
    ensures r.Ok? <==> key != DNone || AllParse(p.graph.order)
    ensures r.Ok? && key != DNone ==> r.value.value.lastNode == key
    ensures r.Ok? && key == DNone ==> r.value.value.lastNode != DNone && r.value.value.lastNode !in p.graph.order
    ensures r.Ok? && key == DNone ==> Ok(r.value.value.lastNode) == GetNextKey(p.graph.order, NodeName + "_")
    ensures r.Ok? ==> r.value.warned == (key != DNone && key in p.graph.node)
    ensures r.Ok? ==> var q := r.value.value;
      && q.lastNode in q.graph.node && NodeAttr in q.graph.node[q.lastNode]
      && q.graph.node[q.lastNode][NodeAttr] == Obj(node)
      && q.graph.edges == (if ParentOf(p, node, parent) == DNone then p.graph.edges
                           else p.graph.edges + {(ParentOf(p, node, parent), q.lastNode)})
      && q.graph.attributes == p.graph.attributes && q.graph.nodeDefaults == p.graph.nodeDefaults
      && q.pcf == p.pcf
    ensures r.Ok? && p.graph.Valid() ==> r.value.value.graph.Valid()
  {
    var pk := ParentOf(p, node, parent);
    var k :- if key == DNone then GetNextKey(p.graph.order, NodeName + "_") else Ok(key);
    var overwritten := key != DNone && key in p.graph.node;
    if key == DNone then
      NextKeyIsFresh(p.graph.order, NodeName + "_");
      Ok(Warned(Put(p, node, k, pk), overwritten))
    else
      Ok(Warned(Put(p, node, k, pk), overwritten))
  }

  /** Stores `node` under `k`, records `k` as the last node, and links it
      from `pk` unless that is `None`. */
  function Put(p: Path, node: Nodes.Node, k: Datum, pk: Datum): Path
    requires k != DNone
  {
    var g1 := Substrate.AddNode(p.graph, k, map[NodeAttr := Obj(node)]).0;
    Path(if pk != DNone then AddEdge(g1, pk, k) else g1, k, p.pcf)
  }

  /** What `Put` changes: the record of `k`, the key order (`k`, then a
      missing parent, appended) and the edges; every other record stays. */
  lemma PutShape(p: Path, node: Nodes.Node, k: Datum, pk: Datum)
    requires k != DNone
    ensures var q := Put(p, node, k, pk);
      && (forall x :: x in p.graph.node && x != k ==> x in q.graph.node && q.graph.node[x] == p.graph.node[x])
      && (forall x :: x in q.graph.node ==> x in p.graph.node || x == k || x == pk)
      && q.graph.order == p.graph.order + (if k in p.graph.node then [] else [k])
                          + (if pk == DNone || pk in p.graph.node || pk == k then [] else [pk])
  {
  }

  /** `add_node` leaves every other record as it was, and appends to the key
      order only the key and, when it was missing, the parent. */
  lemma AddNodeFrame(p: Path, node: Nodes.Node, key: Datum, parent: Datum)
    requires AddNode(p, node, key, parent).Ok?
    ensures var q := AddNode(p, node, key, parent).value.value; var pk := ParentOf(p, node, parent);
      && (forall x :: x in p.graph.node && x != q.lastNode ==> x in q.graph.node && q.graph.node[x] == p.graph.node[x])
      && (forall x :: x in q.graph.node ==> x in p.graph.node || x == q.lastNode || x == pk)
      && q.graph.order == p.graph.order + (if q.lastNode in p.graph.node then [] else [q.lastNode])
                          + (if pk == DNone || pk in p.graph.node || pk == q.lastNode then [] else [pk])
  {
    var q := AddNode(p, node, key, parent).value.value;
    PutShape(p, node, q.lastNode, ParentOf(p, node, parent));
  }

  /** Adding under a key the path already has, with a parent that is `None`
      or already a node, overwrites in place: the node count is unchanged. */
  lemma OverwriteKeepsCount(p: Path, node: Nodes.Node, key: Datum, parent: Datum)
    requires p.graph.Valid() && key != DNone && key in p.graph.node
    requires ParentOf(p, node, parent) == DNone || ParentOf(p, node, parent) in p.graph.node
    ensures AddNode(p, node, key, parent).Ok?
    ensures NumberOfNodes(AddNode(p, node, key, parent).value.value.graph) == NumberOfNodes(p.graph)
  {
  }

  /** The graph attributes contain no `_last_...` entry. */
  predicate NoLastEntries(attributes: map<string, Datum>) {
    forall a :: a in attributes ==> !(|a| >= 6 && a[..6] == "_last_")
  }

  /** Without `_last_...` attributes every default-parent lookup gives
      `None`. */
  lemma NoDefaultParent(p: Path, node: Nodes.Node)
    requires NoLastEntries(p.graph.attributes)
    ensures ParentOf(p, node, Last) == DNone
  {
    var a := LastAttr(Show(NameOf(node)));
    assert a[..6] == "_last_";
  }

  /** A new path has no `_last_...` attribute, and `add_node` never writes
      one: so an addition with the default `"last"` parent adds no edge. */
  lemma DefaultAddNoEdge(p: Path, node: Nodes.Node, key: Datum)
    requires NoLastEntries(p.graph.attributes)
    requires AddNode(p, node, key, Last).Ok?
    ensures AddNode(p, node, key, Last).value.value.graph.edges == p.graph.edges
    ensures NoLastEntries(AddNode(p, node, key, Last).value.value.graph.attributes)
  {
    NoDefaultParent(p, node);
  }

  lemma NewPathHasNoLastEntries(name: Datum)
    ensures NoLastEntries(NewPath(name).graph.attributes)
  {
  }

  /** The nodes of `p` are exactly `node_0 .. node_(n-1)` and no default
      parent can be found. */
  ghost predicate MintedPath(p: Path, n: nat) {
    && p.graph.Valid()
    && (forall k :: k in p.graph.order <==> k in MintedSet(NodeName, n))
    && NoLastEntries(p.graph.attributes)
  }

  lemma NextKeyOfEmpty(order: seq<Datum>)
    requires forall k :: k in order <==> k in MintedSet(NodeName, 0)
    ensures GetNextKey(order, NodeName + "_") == Ok(MintedKey(NodeName, 0))
  {
    MintedIds(order, NodeName, 0);
    NextKeyOfNone(NodeName + "_");
  }

  lemma NextKeyOfMinted(order: seq<Datum>, p: nat, n: nat)
    requires forall k :: k in order <==> k in MintedSet(NodeName, n)
    requires n == p + 1
    ensures GetNextKey(order, NodeName + "_") == Ok(MintedKey(NodeName, n))
  {
    MintedIds(order, NodeName, n);
    var m := MintedHasTop(order, NodeName, p, n);
    NextKeyOfIds(order, NodeName + "_", p, m, n);
  }

  /** `node_n` is not among `node_0 .. node_(n-1)`. */
  lemma MintedKeyIsNew(n: nat)
    ensures MintedKey(NodeName, n) !in MintedSet(NodeName, n)
  {
    MintedSetIds(NodeName, n);
    MintedKeyId(NodeName, n);
  }

  /** One key-less, default-parent addition to a path holding
      `node_0 .. node_(n-1)` stores the node as `node_n`, appends it to the
      node order, and adds no edge. */
  lemma MintStep(p: Path, node: Nodes.Node, n: nat) returns (q: Path)
    requires MintedPath(p, n)
    ensures AddNode(p, node, DNone, Last) == Ok(Warned(q, false))
    ensures && q.lastNode == MintedKey(NodeName, n)
      && q.graph.order == p.graph.order + [MintedKey(NodeName, n)]
      && q.graph.edges == p.graph.edges
      && MintedPath(q, n + 1)
  {
    if n == 0 {
      NextKeyOfEmpty(p.graph.order);
    } else {
      NextKeyOfMinted(p.graph.order, n - 1, n);
    }
    NoDefaultParent(p, node);
    MintedKeyIsNew(n);
    MintedSetNext(NodeName, n);
    q := AddNode(p, node, DNone, Last).value.value;
  }

  /** `add_nodes` after the keys are known: `zip` pairs nodes with keys and
      stops at the shorter list; each pair is added with the default
      parent. */
  function AddZipped(p: Path, nodes: seq<Nodes.Node>, keys: seq<Datum>): (r: Result<Path>)
    ensures r.Ok? ==> r.value.graph.attributes == p.graph.attributes && r.value.pcf == p.pcf
    ensures r.Ok? && p.graph.Valid() ==> r.value.graph.Valid()
    ensures r.Ok? && (|nodes| == 0 || |keys| == 0) ==> r.value == p
    decreases |nodes|
  {
    if |nodes| == 0 || |keys| == 0 then Ok(p)
    else
      var a :- AddNode(p, nodes[0], keys[0], Last);
      AddZipped(a.value, nodes[1..], keys[1..])
  }

  /** `None` for each of `n` nodes. */
  function NoKeys(n: nat): (r: seq<Datum>)
    ensures |r| == n && forall i :: 0 <= i < n ==> r[i] == DNone
  {
    seq(n, _ => DNone)
  }

  /** `add_nodes(nodes, keys)`; missing keys mean `None` for every node. */
  function AddNodes(p: Path, nodes: seq<Nodes.Node>, keys: Option<seq<Datum>>): (r: Result<Path>)
    ensures r.Ok? ==> r.value.graph.attributes == p.graph.attributes && r.value.pcf == p.pcf
    ensures r.Ok? && p.graph.Valid() ==> r.value.graph.Valid()
    ensures |nodes| == 0 || (keys.Some? && |keys.value| == 0) ==> r == Ok(p)
  {
    AddZipped(p, nodes, if keys.None? then NoKeys(|nodes|) else keys.value)
  }

  /** `Path.from_nodes(nodes)`. */
  function FromNodes(nodes: seq<Nodes.Node>): (r: Result<Path>)
    ensures r.Ok? ==> r.value.graph.Valid() && r.value.graph.attributes == map["name" := DStr("path")]
    ensures r.Ok? ==> r.value.pcf == WorldXY
    ensures |nodes| == 0 ==> r == Ok(NewPath(DStr("path")))
  {
    AddNodes(NewPath(DStr("path")), nodes, None)
  }

  /** Only the first `min(|nodes|, |keys|)` pairs are added. */
  lemma {:induction false} ZipStopsAtShorter(p: Path, nodes: seq<Nodes.Node>, keys: seq<Datum>)
    ensures var m := if |nodes| <= |keys| then |nodes| else |keys|;
      AddZipped(p, nodes, keys) == AddZipped(p, nodes[..m], keys[..m])
    decreases |nodes|
  {
    var m := if |nodes| <= |keys| then |nodes| else |keys|;
    if m > 0 {
      var a := AddNode(p, nodes[0], keys[0], Last);
      assert nodes[..m][0] == nodes[0] && keys[..m][0] == keys[0];
      assert nodes[..m][1..] == nodes[1..][..m - 1];
      assert keys[..m][1..] == keys[1..][..m - 1];
      if a.Ok? {
        ZipStopsAtShorter(a.value.value, nodes[1..], keys[1..]);
      }
    }
  }

  /** The keys `node_n .. node_(n+m-1)`, in order. */
  function MintedRun(n: nat, m: nat): (r: seq<Datum>)
    ensures |r| == m
  {
    seq(m, i => MintedKey(NodeName, n + i))
  }

  lemma MintedRunCons(n: nat, m: nat)
    requires m > 0
    ensures MintedRun(n, m) == [MintedKey(NodeName, n)] + MintedRun(n + 1, m - 1)
  {
    var a := MintedRun(n, m);
    var b := [MintedKey(NodeName, n)] + MintedRun(n + 1, m - 1);
    forall i | 0 <= i < m ensures a[i] == b[i] {
      if i > 0 {
        CreateKeyOfEqualIds(n + 1 + (i - 1), n + i, NodeName + "_");
      }
    }
  }

  /** One step of `AddZipped`. */
  lemma ZippedStep(p: Path, nodes: seq<Nodes.Node>, keys: seq<Datum>, q: Path, warned: bool)
    requires |nodes| > 0 && |keys| > 0 && AddNode(p, nodes[0], keys[0], Last) == Ok(Warned(q, warned))
    ensures AddZipped(p, nodes, keys) == AddZipped(q, nodes[1..], keys[1..])
  {
  }

  /** The first pair of `add_nodes`, as far as the later pairs care: the
      path it leaves, where the first node went, and what stayed. */
  lemma ZipHead(p: Path, nodes: seq<Nodes.Node>, keys: seq<Datum>) returns (q: Path)
    requires |nodes| > 0 && |keys| > 0 && AddZipped(p, nodes, keys).Ok?
    ensures AddZipped(p, nodes, keys) == AddZipped(q, nodes[1..], keys[1..])
    ensures p.graph.Valid() ==> q.graph.Valid()
    ensures keys[0] != DNone ==> q.lastNode == keys[0]
    ensures p.graph.Valid() && keys[0] == DNone ==> q.lastNode !in p.graph.node
    ensures q.lastNode in q.graph.node && NodeAttr in q.graph.node[q.lastNode]
    ensures q.graph.node[q.lastNode][NodeAttr] == Obj(nodes[0])
    ensures forall x :: x in p.graph.node && x != q.lastNode ==> x in q.graph.node && q.graph.node[x] == p.graph.node[x]
    ensures p.graph.order <= q.graph.order
  {
    var a := AddNode(p, nodes[0], keys[0], Last).value;
    ZippedStep(p, nodes, keys, a.value, a.warned);
    AddNodeFrame(p, nodes[0], keys[0], Last);
    q := a.value;
  }

  /** `add_nodes` after its first pair goes on from a valid path. */
  lemma ZipRest(p: Path, nodes: seq<Nodes.Node>, keys: seq<Datum>) returns (q: Path)
    requires p.graph.Valid() && |nodes| > 0 && |keys| > 0 && AddZipped(p, nodes, keys).Ok?
    ensures AddZipped(p, nodes, keys) == AddZipped(q, nodes[1..], keys[1..]) && q.graph.Valid()
  {
    q := ZipHead(p, nodes, keys);
  }

  /** `add_nodes` only extends the key order. */
  lemma {:induction false} ZippedExtends(p: Path, nodes: seq<Nodes.Node>, keys: seq<Datum>)
    requires AddZipped(p, nodes, keys).Ok?
    ensures p.graph.order <= AddZipped(p, nodes, keys).value.graph.order
    decreases |nodes|
  {
    if |nodes| > 0 && |keys| > 0 {
      var q := ZipHead(p, nodes, keys);
      ZippedExtends(q, nodes[1..], keys[1..]);
    }
  }

  /** Later additions leave a record alone unless one of them names its
      key: a minted key is never one already in the path. */
  lemma {:induction false} ZippedKeeps(p: Path, nodes: seq<Nodes.Node>, keys: seq<Datum>, k: Datum)
    requires p.graph.Valid() && k in p.graph.node && AddZipped(p, nodes, keys).Ok?
    requires forall j :: 0 <= j < |nodes| && j < |keys| ==> keys[j] != k
    ensures var q := AddZipped(p, nodes, keys).value.graph; k in q.node && q.node[k] == p.graph.node[k]
    decreases |nodes|
  {
    if |nodes| > 0 && |keys| > 0 {
      var q := ZipHead(p, nodes, keys);
      assert keys[0] != k;
      ZippedKeeps(q, nodes[1..], keys[1..], k);
    }
  }

  /** `add_nodes` goes on from a valid path after any number of its pairs. */
  lemma {:induction false} ZipSplit(p: Path, nodes: seq<Nodes.Node>, keys: seq<Datum>, i: nat) returns (q: Path)
    requires p.graph.Valid() && AddZipped(p, nodes, keys).Ok?
    requires i <= |nodes| && i <= |keys|
    ensures AddZipped(p, nodes, keys) == AddZipped(q, nodes[i..], keys[i..]) && q.graph.Valid()
    decreases i
  {
    if i == 0 {
      q := p;
    } else {
      var r := ZipRest(p, nodes, keys);
      q := ZipSplit(r, nodes[1..], keys[1..], i - 1);
      assert nodes[1..][i - 1..] == nodes[i..] && keys[1..][i - 1..] == keys[i..];
    }
  }

  /** With explicit keys the last writer wins: `nodes[i]` ends up under
      `keys[i]` unless a later pair names the same key. */
  lemma ZippedPlacement(p: Path, nodes: seq<Nodes.Node>, keys: seq<Datum>, i: nat)
    requires p.graph.Valid() && AddZipped(p, nodes, keys).Ok?
    requires i < |nodes| && i < |keys| && keys[i] != DNone
    requires forall j :: i < j < |nodes| && j < |keys| ==> keys[j] != keys[i]
    ensures var q := AddZipped(p, nodes, keys).value.graph;
      keys[i] in q.node && NodeAttr in q.node[keys[i]] && q.node[keys[i]][NodeAttr] == Obj(nodes[i])
  {
    var q := ZipSplit(p, nodes, keys, i);
    LaterKeysShift(keys, |nodes|, i);
    ZippedPlacedFirst(q, nodes[i..], keys[i..]);
  }

  /** The first pair's node stays where it went when no later pair names
      its key. */
  lemma ZippedPlacedFirst(p: Path, nodes: seq<Nodes.Node>, keys: seq<Datum>)
    requires p.graph.Valid() && AddZipped(p, nodes, keys).Ok?
    requires 0 < |nodes| && 0 < |keys| && keys[0] != DNone
    requires forall j :: 0 < j < |nodes| && j < |keys| ==> keys[j] != keys[0]
    ensures var q := AddZipped(p, nodes, keys).value.graph;
      keys[0] in q.node && NodeAttr in q.node[keys[0]] && q.node[keys[0]][NodeAttr] == Obj(nodes[0])
  {
    var q := ZipHead(p, nodes, keys);
    ZippedKeeps(q, nodes[1..], keys[1..], keys[0]);
  }

  /** Dropping the first `i` pairs turns "no later key among the first `n`
      repeats `keys[i]`" into the same statement about the first key. */
  lemma LaterKeysShift(keys: seq<Datum>, n: nat, i: nat)
    requires i < |keys|
    requires forall j :: i < j < n && j < |keys| ==> keys[j] != keys[i]
    ensures forall j :: 0 < j < n - i && j < |keys| - i ==> keys[i..][j] != keys[i..][0]
  {
    forall j | 0 < j < n - i && j < |keys| - i
      ensures keys[i..][j] != keys[i..][0]
    {
      assert keys[i..][j] == keys[i + j];
    }
  }

  /** Key-less additions to a path holding `node_0 .. node_(n-1)` store the
      nodes as `node_n, node_(n+1), ...` in input order and add no edge. */
  lemma {:induction false} AutoKeysMint(p: Path, nodes: seq<Nodes.Node>, n: nat) returns (q: Path)
    requires MintedPath(p, n)
    ensures AddZipped(p, nodes, NoKeys(|nodes|)) == Ok(q)
    ensures q.graph.order == p.graph.order + MintedRun(n, |nodes|)
    ensures q.graph.edges == p.graph.edges
    ensures MintedPath(q, n + |nodes|)
    decreases |nodes|
  {
    if |nodes| == 0 {
      assert p.graph.order + MintedRun(n, 0) == p.graph.order;
      q := p;
    } else {
      var keys := NoKeys(|nodes|);
      var a := MintStep(p, nodes[0], n);
      ZippedStep(p, nodes, keys, a, false);
      assert keys[1..] == NoKeys(|nodes| - 1);
      q := AutoKeysMint(a, nodes[1..], n + 1);
      MintedRunCons(n, |nodes|);
      AppendCons(p.graph.order, MintedKey(NodeName, n), MintedRun(n + 1, |nodes| - 1), MintedRun(n, |nodes|));
    }
  }

  /** `Path.from_nodes(nodes)` keys the nodes `node_0 .. node_(n-1)` in input
      order and links none of them. */
  lemma FromNodesKeys(nodes: seq<Nodes.Node>)
    ensures FromNodes(nodes).Ok?
    ensures FromNodes(nodes).value.graph.order == MintedRun(0, |nodes|)
    ensures FromNodes(nodes).value.graph.edges == {}
  {
    var p := NewPath(DStr("path"));
    assert MintedPath(p, 0);
    var q := AutoKeysMint(p, nodes, 0);
  }

  /** The node record of `k` holds a printing node. */
  predicate HoldsNode(g: Graph<Nodes.Node>, k: Datum)
    requires k in g.node
  {
    NodeAttr in g.node[k] && g.node[k][NodeAttr].Obj?
  }

  /** The node record `attrs` with its printing node transformed. */
  function Moved(attrs: Attrs<Nodes.Node>, t: Transformation): Attrs<Nodes.Node>
    requires NodeAttr in attrs && attrs[NodeAttr].Obj?
  {
    attrs[NodeAttr := Obj(Nodes.Transform(attrs[NodeAttr].obj, t))]
  }

  /** The error the scan of `transform(T)` stops with, from position `i`
      of the node order on: the first record without a printing node raises
      KeyError if it has no `"node"` entry and AttributeError if the entry is
      not an object. */
  function FirstFailure(g: Graph<Nodes.Node>, i: nat): (r: Option<Error>)
    requires g.Valid() && i <= |g.order|
    ensures r.None? <==> forall j :: i <= j < |g.order| ==> HoldsNode(g, g.order[j])
    ensures r.Some? ==>
      (exists j :: && i <= j < |g.order| && !HoldsNode(g, g.order[j])
                   && (forall l :: i <= l < j ==> HoldsNode(g, g.order[l]))
                   && r.value == (if NodeAttr !in g.node[g.order[j]] then KeyError else AttributeError))
    decreases |g.order| - i
  {
    if i == |g.order| then None
    else if !HoldsNode(g, g.order[i]) then
      Some(if NodeAttr !in g.node[g.order[i]] then KeyError else AttributeError)
    else FirstFailure(g, i + 1)
  }

  /** `transform(T)`: every printing node of the path is transformed; keys,
      node order, edges and graph attributes are unchanged. Each record is
      transformed on its own, so the result does not depend on the order of
      the scan; only which error is raised does. */
  function Transform(p: Path, t: Transformation): (r: Result<Path>)
    requires p.graph.Valid()
    ensures r.Ok? <==> forall k :: k in p.graph.node ==> HoldsNode(p.graph, k)
    ensures r.Err? ==> r.error == FirstFailure(p.graph, 0).value
    ensures r.Ok? ==> && r.value.graph.order == p.graph.order && r.value.graph.edges == p.graph.edges
                      && r.value.graph.attributes == p.graph.attributes
                      && r.value.graph.node.Keys == p.graph.node.Keys
                      && r.value.graph.Valid()
                      && r.value.lastNode == p.lastNode && r.value.pcf == p.pcf
    ensures r.Ok? ==> forall k :: k in p.graph.node ==> r.value.graph.node[k] == Moved(p.graph.node[k], t)
  {
    var g := p.graph;
    match FirstFailure(g, 0)
    case Some(e) => Err(e)
    case None =>
      assert forall k :: k in g.node ==> HoldsNode(g, k) by {
        forall k | k in g.node ensures HoldsNode(g, k) {
          var j :| 0 <= j < |g.order| && g.order[j] == k;
        }
      }
      Ok(p.(graph := g.(node := map k | k in g.node :: Moved(g.node[k], t))))
  }
}
