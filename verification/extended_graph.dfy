/** `ExtendedGraph`: the typed-child bookkeeping shared by paths, elements and
    the information model. Children carry a `node_type` tag, keys are minted as
    `<type>_<n>` from the largest numeric suffix in use, and each addition
    records `_last_<name>` and links the child from a parent. */
module ExtendedGraphs {
  import opened PyValues
  import opened PyText
  import opened Substrate

  const NodeType: string := "node_type"

  /** The default `parent` argument, the string `"last"`. */
  const Last: Datum := DStr("last")

  /** What `add_named_node` reads off the object it is given: `obj.name`,
      `obj.attributes["name"]` and `obj.attributes.get("node_type")` (`None`
      when absent). */
  datatype ObjInfo = ObjInfo(name: string, nameAttr: string, nodeTypeAttr: Datum)

  /** What `add_named_node` reads off an extended graph handed to it as the
      child: its name and its `name` and `node_type` graph attributes. The
      name is rendered as `str` renders it. */
  function InfoOf(attributes: map<string, Datum>): (info: ObjInfo)
    ensures "name" in attributes ==> info.name == Show(attributes["name"]) && info.nameAttr == info.name
    ensures "node_type" !in attributes ==> info.nodeTypeAttr == DNone
  {
    var name := Show(if "name" in attributes then attributes["name"] else DNone);
    ObjInfo(name, name, if "node_type" in attributes then attributes["node_type"] else DNone)
  }

  /** The outcome of an addition: the new graph, the key used, and whether the
      "value is overwritten" warning was printed. */
  datatype Added<P> = Added(graph: Graph<P>, key: Datum, overwritten: bool)

  /** Which key `get_key` is asked for: `"first"`, `"last"` or a numeric id. */
  datatype KeySelector = First | LastKey | Id(n: int)

  /** `ExtendedGraph.__init__`: no nodes and no default node attributes. The
      graph's name is kept by the owning record. */
  function NewGraph<P>(attributes: map<string, Datum>): (g: Graph<P>)
    ensures g.Valid() && |g.order| == 0 && g.edges == {}
    ensures g.attributes == attributes && g.nodeDefaults == map[]
  {
    Empty(attributes, map[])
  }

  /** The name of the graph attribute that remembers the last child. */
  function LastAttr(suffix: string): string {
    "_last_" + suffix
  }

  function TypeTag<P>(t: string): Value<P> {
    Plain(DStr(t))
  }

  /** `objects(t)` / `get_nodes_where({"node_type": t})`: the keys of the
      children tagged `t`, in node order. */
  function Objects<P(==)>(g: Graph<P>, t: string): (r: seq<Datum>)
    ensures forall k :: k in r <==> k in g.order && Matches(g, k, NodeType, TypeTag(t))
  {
    NodesWhere(g, NodeType, TypeTag(t))
  }

  /** `node_attribute(key, attr)` where `attr` may be `None`; a missing key
      reads as `None`. */
  function AttrOf<P>(g: Graph<P>, key: Datum, attr: Option<string>): Value<P> {
    if key in g.node && attr.Some? then NodeAttribute(g, key, attr.value) else Plain(DNone)
  }

  /** `get_nodes_where({name: value}, data=True, attr)`: each matching key
      paired with its attribute `attr`. */
  function NodesWhereWithData<P(==)>(g: Graph<P>, name: string, value: Value<P>, attr: Option<string>): (r: seq<(Datum, Value<P>)>)
    ensures |r| == |NodesWhere(g, name, value)|
    ensures forall i :: 0 <= i < |r| ==> r[i] == (NodesWhere(g, name, value)[i], AttrOf(g, NodesWhere(g, name, value)[i], attr))
  {
    var ks := NodesWhere(g, name, value);
    seq(|ks|, i requires 0 <= i < |ks| => (ks[i], AttrOf(g, ks[i], attr)))
  }

  /** `get_node(key, attr)`. */
  function GetNode<P>(g: Graph<P>, key: Datum, attr: string): (r: Value<P>)
    ensures key !in g.node ==> r == Plain(DNone)
  {
    if key in g.node then NodeAttribute(g, key, attr) else Plain(DNone)
  }

  /** `get_id(key)`: `int(key.split('_')[-1])`. A key that is not a string has
      no `split` (AttributeError); a suffix that is not an integer literal is a
      ValueError. */
  function GetId(key: Datum): (r: Result<int>)
    ensures !key.DStr? ==> r == Err(AttributeError)
    ensures key.DStr? ==> (r.Ok? <==> ParseInt(LastSegment(key.s)).Some?)
    ensures r.Ok? ==> key.DStr? && ParseInt(LastSegment(key.s)) == Some(r.value)
  {
    match key
    case DStr(s) => (match ParseInt(LastSegment(s)) case Some(n) => Ok(n) case None => Err(ValueError))
    case _ => Err(AttributeError)
  }

  predicate EndsInUnderscore(p: string) {
    |p| > 0 && p[|p| - 1] == '_'
  }

  /** `create_key(id, prefix)`: the bare integer for an empty prefix, else the
      prefix followed by the decimal id. */
  function CreateKey(id: int, prefix: string): (r: Datum)
    ensures prefix == "" ==> r == DInt(id)
    ensures prefix != "" ==> r.DStr?
  {
    if prefix == "" then DInt(id) else DStr(prefix + IntToString(id))
  }

  /** `get_id` reads back the id `create_key` wrote after a `<type>_` prefix. */
  lemma CreateKeyId(id: int, prefix: string)
    requires EndsInUnderscore(prefix)
    ensures GetId(CreateKey(id, prefix)) == Ok(id)
  {
    LastSegmentAfterUnderscore(prefix, IntToString(id));
    ParseIntOfIntToString(id);
  }

  predicate AllParse(keys: seq<Datum>) {
    forall i :: 0 <= i < |keys| ==> GetId(keys[i]).Ok?
  }

  /** All keys parse when the first does and the rest do. */
  lemma AllParseCons(keys: seq<Datum>)
    requires |keys| > 0
    ensures AllParse(keys) <==> GetId(keys[0]).Ok? && AllParse(keys[1..])
  {
    assert forall i :: 1 <= i < |keys| ==> keys[i] == keys[1..][i - 1];
  }

  /** The ids of `keys`, in order; the first key that does not parse raises. */
  function ParseIds(keys: seq<Datum>): (r: Result<seq<int>>)
    ensures r.Ok? <==> AllParse(keys)
    ensures r.Ok? ==> |r.value| == |keys| && forall i :: 0 <= i < |keys| ==> GetId(keys[i]) == Ok(r.value[i])
  {
    if |keys| == 0 then Ok([])
    else
      AllParseCons(keys);
      var first :- GetId(keys[0]);
      var rest :- ParseIds(keys[1..]);
      IdsCons(keys, first, rest);
      Ok([first] + rest)
  }

  /** The ids of the head and of the tail make the ids of the whole. */
  lemma IdsCons(keys: seq<Datum>, first: int, rest: seq<int>)
    requires |keys| > 0 && GetId(keys[0]) == Ok(first) && |rest| == |keys| - 1
    requires forall i :: 0 <= i < |keys| - 1 ==> GetId(keys[1..][i]) == Ok(rest[i])
    ensures forall i :: 0 <= i < |keys| ==> GetId(keys[i]) == Ok(([first] + rest)[i])
  {
    forall i | 1 <= i < |keys|
      ensures GetId(keys[i]) == Ok(([first] + rest)[i])
    {
      assert keys[i] == keys[1..][i - 1];
    }
  }

  /** `list(get_ids(keys))`: the ids of the keys, or the single sentinel `-1`
      when there are no keys. */
  function GetIds(keys: seq<Datum>): (r: Result<seq<int>>)
    ensures |keys| == 0 ==> r == Ok([-1])
    ensures |keys| > 0 ==> r == ParseIds(keys)
  {
    if |keys| == 0 then Ok([-1]) else ParseIds(keys)
  }

  /** The position of a largest element of `s` (the first, from the back,
      that no later element exceeds). */
  function ArgMax(s: seq<int>): (j: nat)
    requires |s| > 0
    ensures j < |s|
    ensures forall i :: 0 <= i < |s| ==> s[i] <= s[j]
  {
    if |s| == 1 then 0
    else
      var rest := 1 + ArgMax(s[1..]);
      assert forall i :: 1 <= i < |s| ==> s[i] == s[1..][i - 1];
      if s[0] >= s[rest] then 0 else rest
  }

  /** The id of `keys[j]` is the largest id among `keys`. */
  predicate IsMaxId(keys: seq<Datum>, j: nat)
    requires j < |keys| && AllParse(keys)
  {
    forall i :: 0 <= i < |keys| ==> GetId(keys[i]).value <= GetId(keys[j]).value
  }

  /** `get_next_key(keys, prefix)`: one past the largest id among `keys` (0
      when there are none), rendered by `create_key`. */
  function GetNextKey(keys: seq<Datum>, prefix: string): (r: Result<Datum>)
    ensures r.Ok? <==> AllParse(keys)
    ensures |keys| == 0 ==> r == Ok(CreateKey(0, prefix))
    ensures r.Ok? && |keys| > 0 ==>
      exists j :: 0 <= j < |keys| && IsMaxId(keys, j) && r.value == CreateKey(GetId(keys[j]).value + 1, prefix)
  {
    var ids :- GetIds(keys);
    var j := ArgMax(ids);
    assert |keys| > 0 ==> GetId(keys[j]) == Ok(ids[j]) && IsMaxId(keys, j);
    Ok(CreateKey(ids[j] + 1, prefix))
  }

  /** A key minted by `get_next_key` with a `<type>_` or empty prefix is none
      of the keys it was computed from. */
  lemma NextKeyIsFresh(keys: seq<Datum>, prefix: string)
    requires prefix == "" || EndsInUnderscore(prefix)
    requires GetNextKey(keys, prefix).Ok?
    ensures GetNextKey(keys, prefix).value !in keys
  {
    var key := GetNextKey(keys, prefix).value;
    if |keys| > 0 {
      var j :| 0 <= j < |keys| && IsMaxId(keys, j) && key == CreateKey(GetId(keys[j]).value + 1, prefix);
      forall i | 0 <= i < |keys| ensures keys[i] != key {
        if prefix == "" {
          assert GetId(keys[i]).Ok?;
        } else {
          CreateKeyId(GetId(keys[j]).value + 1, prefix);
          assert GetId(keys[i]).value <= GetId(keys[j]).value;
        }
      }
    }
  }

  /** `get_last_key(t)`: the graph attribute `_last_<t>`, or `None`. */
  function GetLastKey<P>(g: Graph<P>, nodeType: string): (r: Datum)
    ensures LastAttr(nodeType) !in g.attributes ==> r == DNone
    ensures r != DNone ==> LastAttr(nodeType) in g.attributes && r == g.attributes[LastAttr(nodeType)]
  {
    if LastAttr(nodeType) in g.attributes then g.attributes[LastAttr(nodeType)] else DNone
  }

  /** Every key before position `i` parses to an id other than `n`. */
  predicate NoMatchBefore(keys: seq<Datum>, i: nat, n: int)
    requires i <= |keys|
  {
    forall j :: 0 <= j < i ==> GetId(keys[j]).Ok? && GetId(keys[j]).value != n
  }

  /** How the scan of `get_key` for a numeric id ends. */
  datatype IdSearch = Found(at: nat) | Missing | Unparsable(at: nat, error: Error)

  /** Scans `keys` from position `i` for the first key whose id is `n`,
      stopping at the first key that does not parse. */
  function Search(keys: seq<Datum>, n: int, i: nat): (r: IdSearch)
    requires i <= |keys| && NoMatchBefore(keys, i, n)
    ensures r.Found? ==> i <= r.at < |keys| && GetId(keys[r.at]) == Ok(n) && NoMatchBefore(keys, r.at, n)
    ensures r.Missing? ==> NoMatchBefore(keys, |keys|, n)
    ensures r.Unparsable? ==> i <= r.at < |keys| && GetId(keys[r.at]) == Err(r.error) && NoMatchBefore(keys, r.at, n)
    decreases |keys| - i
  {
    if i == |keys| then Missing
    else
      var id := GetId(keys[i]);
      if id.Err? then Unparsable(i, id.error)
      else if id.value == n then Found(i)
      else
        assert NoMatchBefore(keys, i + 1, n);
        Search(keys, n, i + 1)
  }

  /** `get_key(id)`. */
  function GetKey<P>(g: Graph<P>, id: KeySelector): (r: Result<Datum>)
    ensures id == First ==> (r.Ok? <==> |g.order| > 0) && (r.Ok? ==> r.value == g.order[0])
    ensures id == First && |g.order| == 0 ==> r == Err(StopIteration)
    ensures id == LastKey ==> r.Ok? && r.value == (if |g.order| == 0 then DNone else g.order[|g.order| - 1])
    ensures id.Id? && r.Ok? ==>
      (exists i :: 0 <= i < |g.order| && g.order[i] == r.value && GetId(r.value) == Ok(id.n) && NoMatchBefore(g.order, i, id.n))
    ensures id.Id? ==> (r == Err(IndexError) <==> NoMatchBefore(g.order, |g.order|, id.n))
    ensures id.Id? && r.Err? && r.error != IndexError ==>
      (exists i :: 0 <= i < |g.order| && GetId(g.order[i]) == Err(r.error) && NoMatchBefore(g.order, i, id.n))
  {
    match id
    case First => if |g.order| == 0 then Err(StopIteration) else Ok(g.order[0])
    case LastKey => Ok(if |g.order| == 0 then DNone else g.order[|g.order| - 1])
    case Id(n) =>
      match Search(g.order, n, 0)
      case Found(i) => Ok(g.order[i])
      case Missing => Err(IndexError)
      case Unparsable(i, e) => Err(e)
  }

  /** The parent `add_named_node` links from: the `_last_<node_type>` entry
      when asked for `"last"`, else the argument itself. */
  function ResolveParent<P>(g: Graph<P>, parent: Datum, info: ObjInfo): (r: Datum)
    ensures parent != Last ==> r == parent
    ensures parent == Last && LastAttr(Show(info.nodeTypeAttr)) !in g.attributes ==> r == DNone
    ensures parent == Last && r != DNone ==> r == g.attributes[LastAttr(Show(info.nodeTypeAttr))]
  {
    if parent == Last then GetLastKey(g, Show(info.nodeTypeAttr)) else parent
  }

  /** The attributes `add_named_node` stores on the child. */
  function ChildAttrs<P>(obj: P, info: ObjInfo): Attrs<P> {
    map[info.nameAttr := Obj(obj)][NodeType := TypeTag(info.name)]
  }

  /** Stores the child under `k` and records it as `_last_<name>`. */
  function Store<P>(g: Graph<P>, obj: P, info: ObjInfo, k: Datum): (r: Graph<P>)
    requires k != DNone
    ensures r.node == g.node[k := (if k in g.node then g.node[k] else map[]) + ChildAttrs(obj, info)]
    ensures r.order == (if k in g.node then g.order else g.order + [k])
    ensures r.attributes == g.attributes[LastAttr(info.nameAttr) := k]
    ensures r.edges == g.edges && r.nodeDefaults == g.nodeDefaults
    ensures g.Valid() ==> r.Valid()
  {
    var g1 := AddNode(g, k, ChildAttrs(obj, info)).0;
    g1.(attributes := g1.attributes[LastAttr(info.nameAttr) := k])
  }

  /** Adds the edge `p -> k` unless `p` is `None`. */
  function Link<P>(g: Graph<P>, p: Datum, k: Datum): (r: Graph<P>)
    requires k != DNone && k in g.node
    ensures r.edges == if p == DNone then g.edges else g.edges + {(p, k)}
    ensures forall x :: x in g.node ==> x in r.node && r.node[x] == g.node[x]
    ensures forall x :: x in r.node && x !in g.node ==> x == p && r.node[x] == map[]
    ensures r.attributes == g.attributes && r.nodeDefaults == g.nodeDefaults
    ensures g.Valid() ==> r.Valid()
    ensures p == DNone || p in g.node ==> r.order == g.order
  {
    if p != DNone then AddEdge(g, p, k) else g
  }

  /** The part of `add_named_node` after the key and parent are known. */
  function Place<P>(g: Graph<P>, obj: P, info: ObjInfo, k: Datum, p: Datum): (r: Graph<P>)
    requires k != DNone
  {
    Link(Store(g, obj, info, k), p, k)
  }

  /** `add_named_node(obj, key, parent_obj)`: a missing key is minted from the
      children of the same type; the child is stored, `_last_<name>` records
      it, and the resolved parent (if not `None`) gets an edge to it. */
  function AddNamedNode<P(==)>(g: Graph<P>, obj: P, info: ObjInfo, key: Datum, parent: Datum): (r: Result<Added<P>>)
    ensures r.Ok? <==> key != DNone || AllParse(Objects(g, info.name))
    ensures r.Ok? && key != DNone ==> r.value.key == key
    ensures r.Ok? && key == DNone ==> r.value.key !in Objects(g, info.name)
    ensures r.Ok? && key == DNone ==> Ok(r.value.key) == GetNextKey(Objects(g, info.name), info.name + "_")
    ensures r.Ok? ==> r.value.overwritten == (key != DNone && key in Objects(g, info.name))
    ensures r.Ok? ==> r.value.key != DNone && r.value.graph == Place(g, obj, info, r.value.key, ResolveParent(g, parent, info))
  {
    var p := ResolveParent(g, parent, info);
    var k :- if key == DNone then GetNextKey(Objects(g, info.name), info.name + "_") else Ok(key);
    if key == DNone then
      NextKeyIsFresh(Objects(g, info.name), info.name + "_");
      Ok(Added(Place(g, obj, info, k, p), k, false))
    else
      Ok(Added(Place(g, obj, info, k, p), k, key in Objects(g, info.name)))
  }
}

module ExtendedGraphFacts {
  import opened PyValues
  import opened PyText
  import opened Substrate
  import opened ExtendedGraphs

  /** Successive `add_named_node(objs[i], keys[i])` calls with the default
      `"last"` parent; returns the final graph and the keys used. */
  function AddAll<P(==)>(g: Graph<P>, objs: seq<P>, keys: seq<Datum>, info: ObjInfo): (r: Result<(Graph<P>, seq<Datum>)>)
    requires |keys| == |objs|
    ensures r.Ok? ==> |r.value.1| == |objs|
    ensures r.Ok? ==> forall i :: 0 <= i < |r.value.1| ==> r.value.1[i] != DNone
    decreases |objs|
  {
    if |objs| == 0 then Ok((g, []))
    else
      var a :- AddNamedNode(g, objs[0], info, keys[0], Last);
      var rest :- AddAll(a.graph, objs[1..], keys[1..], info);
      Ok((rest.0, [a.key] + rest.1))
  }

  /** The edges a run of default-parent additions creates when each one links
      from the previous: from `prev` (if not `None`) to the first key, then
      between consecutive keys. */
  function Chain(prev: Datum, ks: seq<Datum>): set<(Datum, Datum)>
    decreases |ks|
  {
    if |ks| == 0 then {}
    else (if prev != DNone then {(prev, ks[0])} else {}) + Chain(ks[0], ks[1..])
  }

  /** The key `add_named_node` mints for the `i`-th child of type `t`. */
  function MintedKey(t: string, i: int): Datum {
    CreateKey(i, t + "_")
  }

  /** The keys `t_0 .. t_(n-1)`. */
  function MintedSet(t: string, n: nat): set<Datum> {
    set i | 0 <= i < n :: MintedKey(t, i)
  }

  /** The keys of the children tagged `t`. */
  ghost function TypedKeys<P>(g: Graph<P>, t: string): set<Datum> {
    set k | k in g.node && Matches(g, k, NodeType, TypeTag(t))
  }

  /** A stored child can be read back with `get_node` under the object's name
      attribute, and carries its type tag. */
  lemma AddedChildIsRetrievable<P>(g: Graph<P>, obj: P, info: ObjInfo, key: Datum, parent: Datum)
    requires info.nameAttr != NodeType
    requires AddNamedNode(g, obj, info, key, parent).Ok?
    ensures var a := AddNamedNode(g, obj, info, key, parent).value;
      GetNode(a.graph, a.key, info.nameAttr) == Obj(obj) && GetNode(a.graph, a.key, NodeType) == TypeTag(info.name)
  {
  }

  /** Adding under a key that is already a node, with a parent that is `None`
      or already a node, overwrites in place: the node count is unchanged. */
  lemma OverwriteKeepsCount<P>(g: Graph<P>, obj: P, info: ObjInfo, key: Datum, parent: Datum)
    requires g.Valid() && key != DNone && key in g.node
    requires ResolveParent(g, parent, info) == DNone || ResolveParent(g, parent, info) in g.node
    ensures AddNamedNode(g, obj, info, key, parent).Ok?
    ensures NumberOfNodes(AddNamedNode(g, obj, info, key, parent).value.graph) == NumberOfNodes(g)
  {
  }

  /** After one addition, the next default-parent lookup for `info2` sees the
      key just added exactly when `info2`'s node type names the attribute the
      addition wrote; otherwise it sees what it saw before. */
  lemma DefaultParentAfterAdd<P>(g: Graph<P>, obj: P, info: ObjInfo, key: Datum, parent: Datum, info2: ObjInfo)
    requires AddNamedNode(g, obj, info, key, parent).Ok?
    ensures var a := AddNamedNode(g, obj, info, key, parent).value;
      ResolveParent(a.graph, Last, info2)
        == if Show(info2.nodeTypeAttr) == info.nameAttr then a.key else ResolveParent(g, Last, info2)
  {
    var x := Show(info2.nodeTypeAttr);
    if x != info.nameAttr {
      assert LastAttr(x)[6..] == x && LastAttr(info.nameAttr)[6..] == info.nameAttr;
    }
  }

  /** When an object's `node_type` attribute matches its `name` attribute,
      default-parent additions form a chain: each child is linked from the one
      added before it, and the first from whatever `_last_<name>` held. */
  lemma {:induction false} AddAllChains<P>(g: Graph<P>, objs: seq<P>, keys: seq<Datum>, info: ObjInfo)
    requires |keys| == |objs|
    requires Show(info.nodeTypeAttr) == info.nameAttr
    requires AddAll(g, objs, keys, info).Ok?
    ensures AddAll(g, objs, keys, info).value.0.edges
      == g.edges + Chain(GetLastKey(g, info.nameAttr), AddAll(g, objs, keys, info).value.1)
    decreases |objs|
  {
    if |objs| > 0 {
      var a := AddNamedNode(g, objs[0], info, keys[0], Last).value;
      DefaultParentAfterAdd(g, objs[0], info, keys[0], Last, info);
      AddAllChains(a.graph, objs[1..], keys[1..], info);
      assert GetLastKey(a.graph, info.nameAttr) == a.key;
    }
  }

  /** The edge a chain gives position `i` of `ks`, `prev` standing before
      the first key. */
  function Step(prev: Datum, ks: seq<Datum>, i: nat): (Datum, Datum)
    requires i < |ks|
  {
    (if i == 0 then prev else ks[i - 1], ks[i])
  }

  /** The edge from `ks[i-1]` to `ks[i]`. */
  function Consecutive(ks: seq<Datum>, i: nat): (Datum, Datum)
    requires 1 <= i < |ks|
  {
    (ks[i - 1], ks[i])
  }

  lemma {:induction false} ChainFromKey(prev: Datum, ks: seq<Datum>)
    requires prev != DNone
    requires forall i :: 0 <= i < |ks| ==> ks[i] != DNone
    ensures Chain(prev, ks) == set i | 0 <= i < |ks| :: Step(prev, ks, i)
    decreases |ks|
  {
    if |ks| > 0 {
      ChainFromKey(ks[0], ks[1..]);
      var s := set i | 0 <= i < |ks| :: Step(prev, ks, i);
      var t := set i | 0 <= i < |ks| - 1 :: Step(ks[0], ks[1..], i);
      assert s == {(prev, ks[0])} + t by {
        forall e | e in s ensures e in {(prev, ks[0])} + t {
          var i :| 0 <= i < |ks| && e == Step(prev, ks, i);
          if i > 0 {
            assert e == Step(ks[0], ks[1..], i - 1);
          }
        }
        assert (prev, ks[0]) == Step(prev, ks, 0);
        forall e | e in t ensures e in s {
          var i :| 0 <= i < |ks| - 1 && e == Step(ks[0], ks[1..], i);
          assert e == Step(prev, ks, i + 1);
        }
      }
    }
  }

  lemma ChainFromNone(ks: seq<Datum>)
    requires forall i :: 0 <= i < |ks| ==> ks[i] != DNone
    ensures Chain(DNone, ks) == set i | 1 <= i < |ks| :: Consecutive(ks, i)
  {
    if |ks| > 0 {
      ChainFromKey(ks[0], ks[1..]);
      var s := set i | 1 <= i < |ks| :: Consecutive(ks, i);
      var t := set i | 0 <= i < |ks| - 1 :: Step(ks[0], ks[1..], i);
      assert s == t by {
        forall e | e in s ensures e in t {
          var i :| 1 <= i < |ks| && e == Consecutive(ks, i);
          assert e == Step(ks[0], ks[1..], i - 1);
        }
        forall e | e in t ensures e in s {
          var i :| 0 <= i < |ks| - 1 && e == Step(ks[0], ks[1..], i);
          assert e == Consecutive(ks, i + 1);
        }
      }
    }
  }

  /** Starting with no `_last_<name>` entry, default-parent additions link
      exactly consecutive children, `keys[i-1] -> keys[i]`, and nothing else. */
  lemma AddAllLinksConsecutive<P>(g: Graph<P>, objs: seq<P>, keys: seq<Datum>, info: ObjInfo)
    requires |keys| == |objs|
    requires Show(info.nodeTypeAttr) == info.nameAttr
    requires LastAttr(info.nameAttr) !in g.attributes
    requires AddAll(g, objs, keys, info).Ok?
    ensures var (g', used) := AddAll(g, objs, keys, info).value;
      g'.edges == g.edges + set i | 1 <= i < |used| :: Consecutive(used, i)
  {
    AddAllChains(g, objs, keys, info);
    ChainFromNone(AddAll(g, objs, keys, info).value.1);
  }

  lemma MintedKeyId(t: string, i: int)
    ensures MintedKey(t, i).DStr? && GetId(MintedKey(t, i)) == Ok(i)
  {
    CreateKeyId(i, t + "_");
  }

  /** Equal ids give equal keys; stated as a lemma so that callers whose ids
      are equal only arithmetically get the key equation directly. */
  lemma CreateKeyOfEqualIds(a: int, b: int, prefix: string)
    requires a == b
    ensures CreateKey(a, prefix) == CreateKey(b, prefix)
  {
  }

  /** Every key of `t_0 .. t_(n-1)` parses to an id below `n`. */
  lemma MintedSetIds(t: string, n: nat)
    ensures forall k :: k in MintedSet(t, n) ==> GetId(k).Ok? && 0 <= GetId(k).value < n
  {
    forall k | k in MintedSet(t, n) ensures GetId(k).Ok? && 0 <= GetId(k).value < n {
      var i :| 0 <= i < n && k == MintedKey(t, i);
      MintedKeyId(t, i);
    }
  }

  lemma MintedSetNext(t: string, n: nat)
    ensures MintedSet(t, n + 1) == MintedSet(t, n) + {MintedKey(t, n)}
  {
    assert MintedKey(t, n) in MintedSet(t, n + 1);
  }

  /** `get_next_key` of no keys mints id 0. */
  lemma NextKeyOfNone(prefix: string)
    ensures GetNextKey([], prefix) == Ok(CreateKey(0, prefix))
  {
  }

  /** `get_next_key` of keys whose ids are at most `p`, one of them `p`,
      mints id `n == p + 1`. */
  lemma NextKeyOfIds(keys: seq<Datum>, prefix: string, p: int, m: nat, n: int)
    requires AllParse(keys) && forall i :: 0 <= i < |keys| ==> GetId(keys[i]).value <= p
    requires m < |keys| && GetId(keys[m]) == Ok(p) && n == p + 1
    ensures GetNextKey(keys, prefix) == Ok(CreateKey(n, prefix))
  {
    var key := GetNextKey(keys, prefix).value;
    var j :| 0 <= j < |keys| && IsMaxId(keys, j) && key == CreateKey(GetId(keys[j]).value + 1, prefix);
    assert GetId(keys[j]).value == p;
    CreateKeyOfEqualIds(GetId(keys[j]).value + 1, n, prefix);
  }

  /** The ids of keys that are exactly `t_0 .. t_(n-1)` parse and lie below
      `n`; with `n == 0` there are no keys. */
  lemma MintedIds(os: seq<Datum>, t: string, n: nat)
    requires forall k :: k in os <==> k in MintedSet(t, n)
    ensures AllParse(os) && forall i :: 0 <= i < |os| ==> 0 <= GetId(os[i]).value < n
    ensures n == 0 ==> os == []
  {
    MintedSetIds(t, n);
    forall i | 0 <= i < |os| ensures GetId(os[i]).Ok? && 0 <= GetId(os[i]).value < n {
      assert os[i] in MintedSet(t, n);
    }
    if |os| > 0 {
      assert 0 <= GetId(os[0]).value < n;
    }
  }

  /** Among keys that are exactly `t_0 .. t_p`, one has id `p`. */
  lemma MintedHasTop(os: seq<Datum>, t: string, p: nat, n: nat) returns (m: nat)
    requires forall k :: k in os <==> k in MintedSet(t, n)
    requires n == p + 1
    ensures m < |os| && GetId(os[m]) == Ok(p)
  {
    var top := MintedKey(t, p);
    assert top in MintedSet(t, n);
    assert top in os;
    m :| 0 <= m < |os| && os[m] == top;
    MintedKeyId(t, p);
  }

  lemma ObjectsAreTyped<P>(g: Graph<P>, t: string)
    requires g.Valid()
    ensures forall k :: k in Objects(g, t) <==> k in TypedKeys(g, t)
  {
  }

  lemma NextKeyOfUntyped<P>(g: Graph<P>, t: string)
    requires g.Valid() && TypedKeys(g, t) == MintedSet(t, 0)
    ensures GetNextKey(Objects(g, t), t + "_") == Ok(MintedKey(t, 0))
  {
    ObjectsAreTyped(g, t);
    MintedIds(Objects(g, t), t, 0);
    NextKeyOfNone(t + "_");
  }

  lemma NextKeyOfSomeTyped<P>(g: Graph<P>, t: string, p: nat, n: nat)
    requires g.Valid() && TypedKeys(g, t) == MintedSet(t, n) && n == p + 1
    ensures GetNextKey(Objects(g, t), t + "_") == Ok(MintedKey(t, n))
  {
    var os := Objects(g, t);
    ObjectsAreTyped(g, t);
    MintedIds(os, t, n);
    var m := MintedHasTop(os, t, p, n);
    NextKeyOfIds(os, t + "_", p, m, n);
  }

  /** The key `get_next_key` mints for the children of a graph whose type-`t`
      children are exactly `t_0 .. t_(n-1)`. */
  lemma NextKeyOfTyped<P>(g: Graph<P>, t: string, n: nat)
    requires g.Valid() && TypedKeys(g, t) == MintedSet(t, n)
    ensures GetNextKey(Objects(g, t), t + "_") == Ok(MintedKey(t, n))
  {
    if n == 0 {
      NextKeyOfUntyped(g, t);
    } else {
      NextKeyOfSomeTyped(g, t, n - 1, n);
    }
  }

  /** Storing and linking a child under `k` adds `k`, and only `k`, to the
      children of its type, when no default node attribute supplies a type. */
  lemma PlaceTypedKeys<P>(g: Graph<P>, obj: P, info: ObjInfo, k: Datum, p: Datum)
    requires k != DNone && NodeType !in g.nodeDefaults
    ensures TypedKeys(Place(g, obj, info, k, p), info.name) == TypedKeys(g, info.name) + {k}
    ensures Place(g, obj, info, k, p).nodeDefaults == g.nodeDefaults
    ensures g.Valid() ==> Place(g, obj, info, k, p).Valid()
  {
    var t := info.name;
    var g' := Place(g, obj, info, k, p);
    var g1 := Store(g, obj, info, k);
    forall x ensures x in TypedKeys(g', t) <==> x in TypedKeys(g, t) + {k} {
      if x == k {
        assert x in g'.node && g'.node[x] == g1.node[x];
      } else if x in g.node {
        assert g'.node[x] == g.node[x];
      } else if x in g'.node {
        assert g'.node[x] == map[];
      }
    }
  }

  /** A graph whose type-`t` children are exactly `t_0 .. t_(n-1)`, and
      whose default node attributes supply no type. */
  ghost predicate MintsFrom<P>(g: Graph<P>, t: string, n: nat) {
    g.Valid() && TypedKeys(g, t) == MintedSet(t, n) && NodeType !in g.nodeDefaults
  }

  /** One key-less addition to a graph whose type-`t` children are
      `t_0 .. t_(n-1)` stores the child as `t_n`, after which they are
      `t_0 .. t_n`. */
  lemma MintStep<P>(g: Graph<P>, obj: P, info: ObjInfo, parent: Datum, n: nat)
    requires MintsFrom(g, info.name, n)
    ensures AddNamedNode(g, obj, info, DNone, parent).Ok?
    ensures AddNamedNode(g, obj, info, DNone, parent).value.key == MintedKey(info.name, n)
    ensures MintsFrom(AddNamedNode(g, obj, info, DNone, parent).value.graph, info.name, n + 1)
  {
    NextKeyOfTyped(g, info.name, n);
    var a := AddNamedNode(g, obj, info, DNone, parent).value;
    PlaceTypedKeys(g, obj, info, a.key, ResolveParent(g, parent, info));
    MintedSetNext(info.name, n);
  }

  /** A new graph has no children of any type. */
  lemma NewGraphUntyped<P>(attributes: map<string, Datum>, t: string)
    ensures MintsFrom(NewGraph<P>(attributes), t, 0)
  {
  }
}
