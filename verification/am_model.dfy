/** `AMModel`: a network whose nodes each hold a layer under the attribute
    `layer`. Layers are added without edges. The layers' node objects live in
    the heap of `Layers`, so a copy of the model shares them with the
    original. */
module AMModels {
  import opened PyValues
  import opened Geometry
  import opened Substrate
  import Layers
  import opened NetworkSetup

  /** The node attribute that holds the layer. */
  const LayerAttr: string := "layer"

  datatype AMModel = AMModel(network: Graph<Layers.Layer>)

  /** The name a model gets when its attributes carry none. */
  const DefaultName: string := "AMModel"

  /** The attributes stored for a layer: the attribute dictionary, then the
      layer itself. */
  function LayerAttrs(dict: map<string, Datum>, layer: Layers.Layer): (r: Attrs<Layers.Layer>)
    ensures r.Keys == dict.Keys + {LayerAttr}
    ensures r[LayerAttr] == Obj(layer)
    ensures forall k :: k in dict && k != LayerAttr ==> r[k] == Plain(dict[k])
  {
    Lift(dict)[LayerAttr := Obj(layer)]
  }

  /** The outcome of `add_layer`: the model, the key used, and the default
      attribute dictionary shared by all calls that do not pass their own. */
  datatype Added = Added(model: AMModel, key: Datum, shared: map<string, Datum>)

  /** `add_layer(layer, key, attr_dict, **kwattr)`. The keyword attributes are
      merged into `attr_dict`; when the caller passes none, that is the one
      default dictionary, which keeps them for later calls, and an explicit
      `None` raises AttributeError. The layer is added under `key` (an
      automatic integer key for `None`) with those attributes and the layer,
      merged over what a present key stores; no edge is added. */
  function AddLayer(m: AMModel, layer: Layers.Layer, key: Datum, attrDict: DictArg,
                    kw: map<string, Datum>, shared: map<string, Datum>): (r: Result<Added>)
    ensures r.Err? <==> attrDict.PassedNone?
    ensures r.Err? ==> r.error == AttributeError
    ensures r.Ok? ==> r.value.key == (if key == DNone then AutoKey(m.network) else key)
    ensures r.Ok? ==> var k := r.value.key; var g := r.value.model.network;
      && g.node == m.network.node[k :=
           (if k in m.network.node then m.network.node[k] else map[]) + LayerAttrs(AttrDict(attrDict, kw, shared).value, layer)]
      && g.order == (if k in m.network.node then m.network.order else m.network.order + [k])
      && g.edges == m.network.edges && g.attributes == m.network.attributes
      && g.nodeDefaults == m.network.nodeDefaults
    ensures r.Ok? ==> r.value.shared == (if attrDict.NotPassed? then shared + kw else shared)
    ensures r.Ok? && m.network.Valid() ==> r.value.model.network.Valid()
    ensures r.Ok? && m.network.Valid() && key == DNone ==>
      r.value.key !in m.network.node && r.value.model.network.maxInt == m.network.maxInt + 1
  {
    var dict :- AttrDict(attrDict, kw, shared);
    var (g, k) := AddNode(m.network, key, LayerAttrs(dict, layer));
    Ok(Added(AMModel(g), k, if attrDict.NotPassed? then dict else shared))
  }

  /** `number_of_layers()`. */
  function NumberOfLayers(m: AMModel): nat {
    NumberOfNodes(m.network)
  }

  /** In a valid model `number_of_layers` counts each key once. */
  lemma LayerCount(m: AMModel)
    requires m.network.Valid()
    ensures NumberOfLayers(m) == |m.network.node|
  {
    NodeCountIsKeyCount(m.network);
  }

  /** `number_of_connections()`. */
  function NumberOfConnections(m: AMModel): (r: nat)
    ensures r == 0 <==> m.network.edges == {}
  {
    NumberOfEdges(m.network)
  }

  /** Adding a layer under a new key adds exactly one layer and no
      connection, unless `attr_dict` is an explicit `None`. */
  lemma AddLayerCounts(m: AMModel, layer: Layers.Layer, key: Datum, attrDict: DictArg,
                       kw: map<string, Datum>, shared: map<string, Datum>)
    requires m.network.Valid()
    requires key == DNone || key !in m.network.node
    ensures AddLayer(m, layer, key, attrDict, kw, shared).Ok? <==> !attrDict.PassedNone?
    ensures AddLayer(m, layer, key, attrDict, kw, shared).Ok? ==>
      var r := AddLayer(m, layer, key, attrDict, kw, shared).value.model;
      NumberOfLayers(r) == NumberOfLayers(m) + 1 && NumberOfConnections(r) == NumberOfConnections(m)
  {
  }

  /** Keyword attributes given to a call without its own dictionary reach
      every later call without one: they are stored with the later layer
      although that call did not pass them. */
  lemma SharedDefaultPersists(m: AMModel, a: Layers.Layer, b: Layers.Layer, kw: map<string, Datum>, shared: map<string, Datum>, name: string)
    requires name in kw && name != LayerAttr
    ensures AddLayer(m, a, DNone, NotPassed, kw, shared).Ok?
    ensures var first := AddLayer(m, a, DNone, NotPassed, kw, shared).value;
      && AddLayer(first.model, b, DNone, NotPassed, map[], first.shared).Ok?
      && var second := AddLayer(first.model, b, DNone, NotPassed, map[], first.shared).value;
         second.model.network.node[second.key][name] == Plain(kw[name])
  {
    var first := AddLayer(m, a, DNone, NotPassed, kw, shared).value;
    assert first.shared[name] == kw[name];
    assert first.shared + map[] == first.shared;
  }

  /** The layer appended under the next automatic key with the default
      dictionary's attributes. */
  function AutoAdd(m: AMModel, l: Layers.Layer, shared: map<string, Datum>): (r: AMModel)
    requires AutoFresh(m.network)
    ensures AutoFresh(r.network)
  {
    var g := m.network;
    var k := DInt(g.maxInt + 1);
    AMModel(g.(order := g.order + [k], node := g.node[k := LayerAttrs(shared, l)], maxInt := g.maxInt + 1))
  }

  /** `add_layer(layer)` with no key, no dictionary and no keyword
      attributes is the automatic addition, and leaves the default dictionary
      as it was. */
  lemma AutoAddIsAddLayer(m: AMModel, l: Layers.Layer, shared: map<string, Datum>)
    requires AutoFresh(m.network)
    ensures AddLayer(m, l, DNone, NotPassed, map[], shared) == Ok(Added(AutoAdd(m, l, shared), DInt(m.network.maxInt + 1), shared))
  {
    assert shared + map[] == shared;
    assert map[] + LayerAttrs(shared, l) == LayerAttrs(shared, l);
  }

  /** The constructor's loop: `add_layer(layer)` for each layer in turn. */
  function AddLayers(m: AMModel, ls: seq<Layers.Layer>, shared: map<string, Datum>): (r: AMModel)
    requires AutoFresh(m.network)
    ensures AutoFresh(r.network)
    ensures r.network.maxInt == m.network.maxInt + |ls|
    ensures r.network.edges == m.network.edges && r.network.attributes == m.network.attributes
    ensures r.network.nodeDefaults == m.network.nodeDefaults && r.network.edgeDefaults == m.network.edgeDefaults
    decreases |ls|
  {
    if |ls| == 0 then m else AddLayers(AutoAdd(m, ls[0], shared), ls[1..], shared)
  }

  /** The constructor's loop keeps the graph valid. */
  lemma {:induction false} AddLayersValid(m: AMModel, ls: seq<Layers.Layer>, shared: map<string, Datum>)
    requires m.network.Valid()
    ensures AutoFresh(m.network) && AddLayers(m, ls, shared).network.Valid()
    decreases |ls|
  {
    if |ls| > 0 {
      AutoAddIsAddLayer(m, ls[0], shared);
      AddLayersValid(AutoAdd(m, ls[0], shared), ls[1..], shared);
    }
  }

  /** The layers land under the next automatic keys, in order, and nothing
      else changes but the node order. */
  lemma {:induction false} AddLayersOrder(m: AMModel, ls: seq<Layers.Layer>, shared: map<string, Datum>)
    requires AutoFresh(m.network)
    ensures var r := AddLayers(m, ls, shared);
      && r.network.maxInt == m.network.maxInt + |ls|
      && r.network.order == m.network.order + IntKeys(m.network.maxInt + 1, |ls|)
      && r.network.edges == m.network.edges
      && r.network.attributes == m.network.attributes
      && r.network.nodeDefaults == m.network.nodeDefaults
    decreases |ls|
  {
    if |ls| > 0 {
      var g := m.network;
      var a := AutoAdd(m, ls[0], shared);
      AddLayersOrder(a, ls[1..], shared);
      var rest := IntKeys(g.maxInt + 2, |ls| - 1);
      IntKeysCons(g.maxInt + 1, |ls|);
      AppendCons(g.order, DInt(g.maxInt + 1), rest, IntKeys(g.maxInt + 1, |ls|));
    }
  }

  /** The layers are stored, in order, under the keys `start`,
      `start + 1`, ..., each with the dictionary's attributes. */
  ghost predicate Stored(g: Graph<Layers.Layer>, start: int, shared: map<string, Datum>, ls: seq<Layers.Layer>)
    decreases |ls|
  {
    |ls| > 0 ==>
      && DInt(start) in g.node && g.node[DInt(start)] == LayerAttrs(shared, ls[0])
      && Stored(g, start + 1, shared, ls[1..])
  }

  /** What `Stored` says about the `i`-th layer. */
  lemma {:induction false} StoredAt(g: Graph<Layers.Layer>, start: int, shared: map<string, Datum>, ls: seq<Layers.Layer>, i: nat)
    requires Stored(g, start, shared, ls) && i < |ls|
    ensures DInt(start + i) in g.node && g.node[DInt(start + i)] == LayerAttrs(shared, ls[i])
    decreases i
  {
    if i > 0 {
      StoredAt(g, start + 1, shared, ls[1..], i - 1);
    }
  }

  /** Each layer is stored, with the default dictionary's attributes, under
      its automatic key, and what was stored before is unchanged. */
  lemma {:induction false} AddLayersNodes(m: AMModel, ls: seq<Layers.Layer>, shared: map<string, Datum>)
    requires AutoFresh(m.network)
    ensures Stored(AddLayers(m, ls, shared).network, m.network.maxInt + 1, shared, ls)
    ensures forall k :: k in m.network.node ==>
      k in AddLayers(m, ls, shared).network.node && AddLayers(m, ls, shared).network.node[k] == m.network.node[k]
    decreases |ls|
  {
    if |ls| > 0 {
      var g := m.network;
      var a := AutoAdd(m, ls[0], shared);
      AddLayersNodes(a, ls[1..], shared);
      var r := AddLayers(a, ls[1..], shared);
      assert AddLayers(m, ls, shared) == r;
      assert DInt(g.maxInt + 1) in a.network.node;
    }
  }

  /** `AMModel(layers, attributes, default_layer_attribute,
      default_connection_attributes)`: the network is set up, then each layer
      is added through `add_layer`. */
  function NewModel(layers: seq<Layers.Layer>, attributes: Option<map<string, Datum>>,
                    defaultLayer: Option<map<string, Datum>>, defaultConnection: Option<map<string, Datum>>,
                    shared: map<string, Datum>): (r: AMModel)
    ensures r.network.attributes == InitialAttributes(DefaultName, attributes)
    ensures r.network.nodeDefaults == InitialDefaults(defaultLayer)
    ensures r.network.edges == {} && r.network.maxInt == |layers| - 1
  {
    AddLayers(AMModel(InitialNetwork(DefaultName, attributes, defaultLayer, defaultConnection)), layers, shared)
  }

  /** A new model holds the given layers, in order, under the keys 0, 1, ...,
      each with the default dictionary's attributes, and has no connections;
      its graph attributes and layer defaults are those it was set up
      with. */
  lemma NewModelShape(layers: seq<Layers.Layer>, attributes: Option<map<string, Datum>>,
                      defaultLayer: Option<map<string, Datum>>, defaultConnection: Option<map<string, Datum>>,
                      shared: map<string, Datum>)
    ensures var m := NewModel(layers, attributes, defaultLayer, defaultConnection, shared);
      && m.network.Valid()
      && NumberOfLayers(m) == |layers| && NumberOfConnections(m) == 0
      && m.network.order == IntKeys(0, |layers|)
      && Stored(m.network, 0, shared, layers)
      && m.network.attributes == InitialAttributes(DefaultName, attributes)
      && m.network.nodeDefaults == InitialDefaults(defaultLayer)
  {
    var g := InitialNetwork(DefaultName, attributes, defaultLayer, defaultConnection);
    AddLayersValid(AMModel(g), layers, shared);
    AddLayersOrder(AMModel(g), layers, shared);
    AddLayersNodes(AMModel(g), layers, shared);
    assert [] + IntKeys(0, |layers|) == IntKeys(0, |layers|);
  }

  /** `network.node[key]["layer"]` followed by a call to a layer method:
      KeyError when the attribute is missing, AttributeError when what is
      stored is not a layer. */
  function LayerAt(g: Graph<Layers.Layer>, k: Datum): (r: Result<Layers.Layer>)
    requires k in g.node
    ensures r.Ok? <==> LayerAttr in g.node[k] && g.node[k][LayerAttr].Obj?
    ensures r.Ok? ==> r.value == g.node[k][LayerAttr].obj
    ensures LayerAttr !in g.node[k] ==> r == Err(KeyError)
    ensures LayerAttr in g.node[k] && !g.node[k][LayerAttr].Obj? ==> r == Err(AttributeError)
  {
    if LayerAttr !in g.node[k] then Err(KeyError)
    else
      match g.node[k][LayerAttr]
      case Obj(l) => Ok(l)
      case _ => Err(AttributeError)
  }

  /** `layer(key, data)`: the stored `layer` value, and with `data` also the
      node's attribute dictionary; KeyError for a missing key or a node
      without a layer. */
  function LayerOf(m: AMModel, key: Datum, data: bool): (r: Result<(Value<Layers.Layer>, Option<Attrs<Layers.Layer>>)>)
    ensures r.Ok? <==> key in m.network.node && LayerAttr in m.network.node[key]
    ensures r.Err? ==> r.error == KeyError
    ensures r.Ok? ==> r.value.0 == m.network.node[key][LayerAttr]
    ensures r.Ok? ==> (r.value.1.Some? <==> data)
    ensures r.Ok? && data ==> r.value.1.value == m.network.node[key]
  {
    if key !in m.network.node || LayerAttr !in m.network.node[key] then Err(KeyError)
    else Ok((m.network.node[key][LayerAttr], if data then Some(m.network.node[key]) else None))
  }

  /** A layer added under a key reads back through `layer(key)`, and other
      keys read as they did before. */
  lemma AddThenLayerOf(m: AMModel, layer: Layers.Layer, key: Datum, attrDict: DictArg,
                       kw: map<string, Datum>, shared: map<string, Datum>, other: Datum, data: bool)
    requires AddLayer(m, layer, key, attrDict, kw, shared).Ok?
    ensures var a := AddLayer(m, layer, key, attrDict, kw, shared).value;
      && LayerOf(a.model, a.key, false) == Ok((Obj(layer), None))
      && (other != a.key ==> LayerOf(a.model, other, data) == LayerOf(m, other, data))
  {
    var a := AddLayer(m, layer, key, attrDict, kw, shared).value;
    assert LayerAttrs(AttrDict(attrDict, kw, shared).value, layer)[LayerAttr] == Obj(layer);
  }

  /** Every key of the list is a node of the graph. */
  predicate KeysIn(g: Graph<Layers.Layer>, keys: seq<Datum>) {
    forall i :: 0 <= i < |keys| ==> keys[i] in g.node
  }

  /** `layers()`: the layer of every key in turn; the first key whose layer
      cannot be had decides the error. */
  function LayersOf(g: Graph<Layers.Layer>, keys: seq<Datum>): (r: Result<seq<Layers.Layer>>)
    requires KeysIn(g, keys)
    ensures r.Ok? <==> forall i :: 0 <= i < |keys| ==> LayerAt(g, keys[i]).Ok?
    ensures r.Ok? ==> |r.value| == |keys|
    ensures r.Ok? ==> forall i :: 0 <= i < |keys| ==> r.value[i] == LayerAt(g, keys[i]).value
    decreases |keys|
  {
    if |keys| == 0 then Ok([])
    else
      var l :- LayerAt(g, keys[0]);
      var rest :- LayersOf(g, keys[1..]);
      Ok([l] + rest)
  }

  /** Every layer stored in the graph refers into a heap of `size` nodes. */
  predicate ModelWithin(g: Graph<Layers.Layer>, h: Layers.Heap) {
    forall k :: k in g.node && LayerAttr in g.node[k] && g.node[k][LayerAttr].Obj? ==> Layers.RefsIn(h, g.node[k][LayerAttr].obj)
  }

  /** Every layer of the list refers into the heap. */
  predicate AllWithin(h: Layers.Heap, ls: seq<Layers.Layer>) {
    forall i :: 0 <= i < |ls| ==> Layers.RefsIn(h, ls[i])
  }

  /** Each layer of the list transformed in turn. */
  function TransformLayers(h: Layers.Heap, ls: seq<Layers.Layer>, t: Transformation): (r: Result<Layers.Heap>)
    requires AllWithin(h, ls)
    ensures r.Ok? <==> forall i :: 0 <= i < |ls| ==> ls[i].nodes.Some?
    ensures r.Ok? ==> |r.value| == |h|
    decreases |ls|
  {
    if |ls| == 0 then Ok(h)
    else
      var h' :- Layers.Transform(h, ls[0], t);
      TransformLayers(h', ls[1..], t)
  }

  /** `transform(T)` over the given keys: each key's layer is fetched and
      transformed before the next key is looked at. */
  function TransformKeys(g: Graph<Layers.Layer>, keys: seq<Datum>, h: Layers.Heap, t: Transformation): (r: Result<Layers.Heap>)
    requires KeysIn(g, keys) && ModelWithin(g, h)
    ensures r.Ok? ==> |r.value| == |h|
    decreases |keys|
  {
    if |keys| == 0 then Ok(h)
    else
      var l :- LayerAt(g, keys[0]);
      var h' :- Layers.Transform(h, l, t);
      TransformKeys(g, keys[1..], h', t)
  }

  /** `transform(T)`: every layer transforms its nodes in place. */
  function Transform(m: AMModel, h: Layers.Heap, t: Transformation): (r: Result<Layers.Heap>)
    requires m.network.Valid() && ModelWithin(m.network, h)
    ensures r.Ok? ==> |r.value| == |h|
    ensures r.Ok? <==> (LayersOf(m.network, m.network.order).Ok? &&
      forall i :: 0 <= i < |m.network.order| ==> LayersOf(m.network, m.network.order).value[i].nodes.Some?)
    ensures r.Ok? ==> r == TransformLayers(h, LayersOf(m.network, m.network.order).value, t)
  {
    var g := m.network;
    var r := TransformKeys(g, g.order, h, t);
    KeysAsLayers(g, g.order, h, t);
    r
  }

  /** Transforming key by key is transforming the list of the keys' layers,
      and it fails exactly when a layer is missing or has no node list. */
  lemma {:induction false} KeysAsLayers(g: Graph<Layers.Layer>, keys: seq<Datum>, h: Layers.Heap, t: Transformation)
    requires KeysIn(g, keys) && ModelWithin(g, h)
    ensures LayersOf(g, keys).Ok? ==> AllWithin(h, LayersOf(g, keys).value)
    ensures LayersOf(g, keys).Ok? ==> TransformKeys(g, keys, h, t) == TransformLayers(h, LayersOf(g, keys).value, t)
    ensures TransformKeys(g, keys, h, t).Ok? <==> (LayersOf(g, keys).Ok? &&
      forall i :: 0 <= i < |keys| ==> LayersOf(g, keys).value[i].nodes.Some?)
    decreases |keys|
  {
    if |keys| > 0 {
      var l := LayerAt(g, keys[0]);
      if l.Ok? {
        var h' := Layers.Transform(h, l.value, t);
        if h'.Ok? {
          assert ModelWithin(g, h'.value);
          KeysAsLayers(g, keys[1..], h'.value, t);
          if LayersOf(g, keys).Ok? {
            var ls := LayersOf(g, keys).value;
            assert ls[1..] == LayersOf(g, keys[1..]).value;
          }
        } else if LayersOf(g, keys).Ok? {
          assert LayersOf(g, keys).value[0].nodes.None?;
        }
      } else {
        assert !LayerAt(g, keys[0]).Ok?;
      }
    }
  }

  /** The layer copies, in order. */
  function CopyAll(ls: seq<Layers.Layer>): (r: seq<Layers.Layer>)
    ensures |r| == |ls|
    ensures forall i :: 0 <= i < |ls| ==> r[i] == Layers.Copy(ls[i])
  {
    seq(|ls|, i requires 0 <= i < |ls| => Layers.Copy(ls[i]))
  }

  /** `copy()`: a new model, built by the constructor from copies of the
      layers and the original's graph attributes. The constructor adds them
      through `add_layer` with the default dictionary, so the copies get
      whatever that dictionary holds, not the original's per-layer
      attributes. */
  function Copy(m: AMModel, shared: map<string, Datum>): (r: Result<AMModel>)
    requires m.network.Valid()
    ensures r.Ok? <==> LayersOf(m.network, m.network.order).Ok?
  {
    var ls :- LayersOf(m.network, m.network.order);
    Ok(NewModel(CopyAll(ls), Some(m.network.attributes), None, None, shared))
  }

  /** The layers of a new model, read back in node order, are the layers it
      was built from. */
  lemma NewModelLayers(layers: seq<Layers.Layer>, attributes: Option<map<string, Datum>>,
                       defaultLayer: Option<map<string, Datum>>, defaultConnection: Option<map<string, Datum>>,
                       shared: map<string, Datum>)
    ensures var g := NewModel(layers, attributes, defaultLayer, defaultConnection, shared).network;
      && g.Valid() && LayersOf(g, g.order) == Ok(layers)
  {
    NewModelShape(layers, attributes, defaultLayer, defaultConnection, shared);
    var g := NewModel(layers, attributes, defaultLayer, defaultConnection, shared).network;
    StoredLayers(g, shared, layers);
  }

  /** The layers stored under `0`, `1`, ... are the layers of those keys. */
  lemma StoredLayers(g: Graph<Layers.Layer>, shared: map<string, Datum>, layers: seq<Layers.Layer>)
    requires g.Valid() && g.order == IntKeys(0, |layers|) && Stored(g, 0, shared, layers)
    ensures LayersOf(g, g.order) == Ok(layers)
  {
    forall i | 0 <= i < |layers|
      ensures LayerAt(g, g.order[i]) == Ok(layers[i])
    {
      StoredAt(g, 0, shared, layers, i);
    }
    assert LayersOf(g, g.order).value == layers;
  }

  /** A new model built from layers that refer into a heap refers into that
      heap. */
  lemma NewModelWithin(layers: seq<Layers.Layer>, attributes: Option<map<string, Datum>>,
                       defaultLayer: Option<map<string, Datum>>, defaultConnection: Option<map<string, Datum>>,
                       shared: map<string, Datum>, h: Layers.Heap)
    requires AllWithin(h, layers)
    ensures ModelWithin(NewModel(layers, attributes, defaultLayer, defaultConnection, shared).network, h)
  {
    NewModelShape(layers, attributes, defaultLayer, defaultConnection, shared);
    var g := NewModel(layers, attributes, defaultLayer, defaultConnection, shared).network;
    StoredWithin(g, shared, layers, h);
  }

  /** A graph whose nodes are the layers stored under `0`, `1`, ... refers
      into a heap the layers refer into. */
  lemma StoredWithin(g: Graph<Layers.Layer>, shared: map<string, Datum>, layers: seq<Layers.Layer>, h: Layers.Heap)
    requires g.Valid() && g.order == IntKeys(0, |layers|) && Stored(g, 0, shared, layers)
    requires AllWithin(h, layers)
    ensures ModelWithin(g, h)
  {
    forall k | k in g.node && LayerAttr in g.node[k] && g.node[k][LayerAttr].Obj?
      ensures Layers.RefsIn(h, g.node[k][LayerAttr].obj)
    {
      assert k in g.order;
      var i :| 0 <= i < |g.order| && g.order[i] == k;
      StoredAt(g, 0, shared, layers, i);
    }
  }

  /** A copy has as many layers as the original and no connections; its
      layers are copies of the original's, in order, so they share the
      original's node lists. */
  lemma CopyLayers(m: AMModel, shared: map<string, Datum>)
    requires m.network.Valid()
    requires Copy(m, shared).Ok?
    ensures var c := Copy(m, shared).value;
      && c.network.Valid()
      && NumberOfLayers(c) == NumberOfLayers(m)
      && NumberOfConnections(c) == 0
      && LayersOf(c.network, c.network.order) == Ok(CopyAll(LayersOf(m.network, m.network.order).value))
  {
    var ls := CopyAll(LayersOf(m.network, m.network.order).value);
    var attributes := Some(m.network.attributes);
    var c := NewModel(ls, attributes, None, None, shared);
    assert Copy(m, shared).value == c;
    NewModelShape(ls, attributes, None, None, shared);
    NewModelLayers(ls, attributes, None, None, shared);
  }

  /** A copy of a model with a name, as every model has, also keeps the
      graph attributes exactly. */
  lemma CopyShape(m: AMModel, shared: map<string, Datum>)
    requires m.network.Valid() && "name" in m.network.attributes
    requires Copy(m, shared).Ok?
    ensures var c := Copy(m, shared).value;
      && c.network.Valid()
      && NumberOfLayers(c) == NumberOfLayers(m)
      && NumberOfConnections(c) == 0
      && c.network.attributes == m.network.attributes
      && LayersOf(c.network, c.network.order) == Ok(CopyAll(LayersOf(m.network, m.network.order).value))
  {
    CopyLayers(m, shared);
    NamedAttributesKept(DefaultName, m.network.attributes);
  }

  /** A copy's layers refer into the same heap as the original's. */
  lemma CopyWithin(m: AMModel, h: Layers.Heap, shared: map<string, Datum>)
    requires m.network.Valid() && ModelWithin(m.network, h)
    requires Copy(m, shared).Ok?
    ensures ModelWithin(Copy(m, shared).value.network, h)
  {
    var g := m.network;
    var ls := LayersOf(g, g.order).value;
    forall i | 0 <= i < |ls|
      ensures Layers.RefsIn(h, CopyAll(ls)[i])
    {
      assert g.order[i] in g.node;
    }
    NewModelWithin(CopyAll(ls), Some(g.attributes), None, None, shared, h);
  }

  /** Transforming copies of layers transforms the same nodes as
      transforming the layers. */
  lemma {:induction false} TransformCopies(h: Layers.Heap, ls: seq<Layers.Layer>, t: Transformation)
    requires AllWithin(h, ls)
    ensures AllWithin(h, CopyAll(ls))
    ensures TransformLayers(h, CopyAll(ls), t) == TransformLayers(h, ls, t)
    decreases |ls|
  {
    if |ls| > 0 {
      Layers.CopyAliases(h, ls[0], t);
      assert CopyAll(ls)[1..] == CopyAll(ls[1..]);
      var h' := Layers.Transform(h, ls[0], t);
      if h'.Ok? {
        TransformCopies(h'.value, ls[1..], t);
      }
    }
  }

  /** `transformed(T)`: a copy, then transformed. */
  function Transformed(m: AMModel, h: Layers.Heap, t: Transformation, shared: map<string, Datum>): (r: Result<(AMModel, Layers.Heap)>)
    requires m.network.Valid() && ModelWithin(m.network, h)
    ensures r.Ok? ==> |r.value.1| == |h|
  {
    var c :- Copy(m, shared);
    CopyLayers(m, shared);
    CopyWithin(m, h, shared);
    var h' :- Transform(c, h, t);
    Ok((c, h'))
  }

  /** `transformed` mutates the original: the copy's layers share the
      original's node lists, so the transformed copy leaves the node objects
      exactly as transforming the original would. */
  lemma TransformedMutatesOriginal(m: AMModel, h: Layers.Heap, t: Transformation, shared: map<string, Datum>)
    requires m.network.Valid() && ModelWithin(m.network, h)
    requires Transformed(m, h, t, shared).Ok?
    ensures Transform(m, h, t).Ok?
    ensures Transformed(m, h, t, shared).value.1 == Transform(m, h, t).value
  {
    CopyTransformsAlike(m, h, t, shared);
  }

  /** Transforming a copy gives the same heap, or the same error, as
      transforming the original. */
  lemma CopyTransformsAlike(m: AMModel, h: Layers.Heap, t: Transformation, shared: map<string, Datum>)
    requires m.network.Valid() && ModelWithin(m.network, h)
    requires Copy(m, shared).Ok?
    ensures Copy(m, shared).value.network.Valid() && ModelWithin(Copy(m, shared).value.network, h)
    ensures Transform(Copy(m, shared).value, h, t) == Transform(m, h, t)
  {
    var g := m.network;
    var ls := LayersOf(g, g.order).value;
    CopyLayers(m, shared);
    CopyWithin(m, h, shared);
    var c := Copy(m, shared).value;
    KeysAsLayers(c.network, c.network.order, h, t);
    KeysAsLayers(g, g.order, h, t);
    TransformCopies(h, ls, t);
  }

  /** A node of the data dictionary: the node's attributes other than
      `layer`, and the layer's data. */
  datatype NodeRecord = NodeRecord(others: Attrs<Layers.Layer>, layer: Layers.LayerData)

  /** The data dictionary: graph attributes, default layer attributes, node
      records and edges. */
  datatype ModelData = ModelData(attributes: map<string, Datum>, nodeDefaults: Attrs<Layers.Layer>,
                                 nodes: map<Datum, NodeRecord>, edges: set<(Datum, Datum)>)

  /** The layer of `k` can be serialised: it is there, it is a layer, and
      it has nodes. */
  predicate Serialisable(g: Graph<Layers.Layer>, k: Datum)
    requires k in g.node
  {
    LayerAt(g, k).Ok? && Layers.HasNodes(LayerAt(g, k).value)
  }

  /** The node records of the given keys; the first key whose layer cannot
      be serialised decides the error. */
  function NodeRecords(g: Graph<Layers.Layer>, h: Layers.Heap, keys: seq<Datum>): (r: Result<map<Datum, NodeRecord>>)
    requires KeysIn(g, keys) && ModelWithin(g, h)
    ensures r.Ok? <==> forall i :: 0 <= i < |keys| ==> Serialisable(g, keys[i])
    ensures r.Err? ==> r.error == KeyError || r.error == AttributeError
    ensures r.Ok? ==> forall k :: k in r.value <==> k in keys
    ensures r.Ok? ==> forall k :: k in r.value ==>
      && k in g.node && Serialisable(g, k)
      && r.value[k].others == g.node[k] - {LayerAttr}
      && Layers.Data(h, LayerAt(g, k).value) == Ok(r.value[k].layer)
    decreases |keys|
  {
    if |keys| == 0 then Ok(map[])
    else
      var l :- LayerAt(g, keys[0]);
      var d :- Layers.Data(h, l);
      var rest :- NodeRecords(g, h, keys[1..]);
      Ok(rest[keys[0] := NodeRecord(g.node[keys[0]] - {LayerAttr}, d)])
  }

  /** The `data` getter: the network's data with each node's layer replaced
      by the layer's data. */
  function Data(m: AMModel, h: Layers.Heap): (r: Result<ModelData>)
    requires m.network.Valid() && ModelWithin(m.network, h)
    ensures r.Ok? <==> forall k :: k in m.network.node ==> Serialisable(m.network, k)
    ensures r.Ok? ==> r.value.attributes == m.network.attributes && r.value.edges == m.network.edges
    ensures r.Ok? ==> r.value.nodes.Keys == m.network.node.Keys
    ensures r.Ok? ==> forall k :: k in r.value.nodes ==>
      && r.value.nodes[k].others == m.network.node[k] - {LayerAttr}
      && Layers.Data(h, LayerAt(m.network, k).value) == Ok(r.value.nodes[k].layer)
  {
    var g := m.network;
    var nodes :- NodeRecords(g, h, g.order);
    assert forall k :: k in g.node ==> exists i :: 0 <= i < |g.order| && g.order[i] == k;
    Ok(ModelData(g.attributes, g.nodeDefaults, nodes, g.edges))
  }
}
