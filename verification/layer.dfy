/** `Layer`: an ordered list of printing nodes with an optional robot
    trajectory. Node objects are shared: a layer holds references to them, and
    a layer's copy holds the same references. The model therefore keeps the
    node objects in a heap (a sequence indexed by reference) that every
    operation on layers takes and, when it mutates nodes, returns. */
module Layers {
  import opened PyValues
  import opened Geometry
  import Nodes

  /** The node objects reachable from the layers of a model. */
  type Heap = seq<Nodes.Node>

  /** A reference to a node object: its index in the heap. */
  type Ref = nat

  /** One point of a joint-space trajectory, kept opaque. */
  datatype Waypoint = Waypoint(joints: seq<real>)

  /** `nodes` is `None` or a list of references; `trajectory` is `None` or a
      trajectory object, seen through its points; `hiddenPath` is what the
      `path` setter stores and nothing reads. */
  datatype Layer = Layer(nodes: Option<seq<Ref>>, trajectory: Option<seq<Waypoint>>, hiddenPath: Option<seq<Frame>>)

  /** What the accessors return in place of nodes when there are none. */
  const NoNodes: string := "No nodes defined"

  /** `Layer(nodes)` and `Layer.from_nodes(nodes)`. */
  function NewLayer(nodes: Option<seq<Ref>>): (l: Layer)
    ensures l.nodes == nodes && l.trajectory.None? && l.hiddenPath.None?
  {
    Layer(nodes, None, None)
  }

  /** `nodes` is truthy: present and not empty. */
  predicate HasNodes(l: Layer) {
    l.nodes.Some? && |l.nodes.value| > 0
  }

  /** Every reference of the list points into the heap. */
  predicate Within(h: Heap, refs: seq<Ref>) {
    forall i :: 0 <= i < |refs| ==> refs[i] < |h|
  }

  /** Every reference of the layer points into the heap. */
  predicate RefsIn(h: Heap, l: Layer) {
    l.nodes.Some? ==> Within(h, l.nodes.value)
  }

  /** What `start_node` and `end_node` return: a node, or the text. */
  datatype Endpoint = NodeRef(ref: Ref) | Sentinel(text: string)

  /** `start_node`. */
  function StartNode(l: Layer): (r: Endpoint)
    ensures r.NodeRef? <==> HasNodes(l)
    ensures r.NodeRef? ==> r.ref == l.nodes.value[0]
    ensures r.Sentinel? ==> r.text == NoNodes
  {
    if HasNodes(l) then NodeRef(l.nodes.value[0]) else Sentinel(NoNodes)
  }

  /** `end_node`. */
  function EndNode(l: Layer): (r: Endpoint)
    ensures r.NodeRef? <==> HasNodes(l)
    ensures r.NodeRef? ==> r.ref == l.nodes.value[|l.nodes.value| - 1]
    ensures r.Sentinel? ==> r.text == NoNodes
  {
    if HasNodes(l) then NodeRef(l.nodes.value[|l.nodes.value| - 1]) else Sentinel(NoNodes)
  }

  /** The frames of the referenced nodes, in list order. */
  function FramesOf(h: Heap, refs: seq<Ref>): (r: seq<Frame>)
    requires Within(h, refs)
    ensures |r| == |refs|
    ensures forall i :: 0 <= i < |refs| ==> r[i] == h[refs[i]].frame
  {
    seq(|refs|, i requires 0 <= i < |refs| => h[refs[i]].frame)
  }

  /** What the `path` getter returns: frames, or the text. */
  datatype PathValue = Frames(frames: seq<Frame>) | PathText(text: string)

  /** The `path` getter: the frames of the nodes, derived afresh on every
      read. */
  function PathOf(h: Heap, l: Layer): (r: PathValue)
    requires RefsIn(h, l)
    ensures r.Frames? <==> HasNodes(l)
    ensures r.Frames? ==> |r.frames| == |l.nodes.value|
    ensures r.Frames? ==> forall i :: 0 <= i < |r.frames| ==> r.frames[i] == h[l.nodes.value[i]].frame
    ensures r.PathText? ==> r.text == NoNodes
  {
    if HasNodes(l) then Frames(FramesOf(h, l.nodes.value)) else PathText(NoNodes)
  }

  /** The `path` setter: it stores under a private name the getter does not
      read. */
  function SetPath(l: Layer, p: seq<Frame>): (r: Layer)
    ensures r.nodes == l.nodes && r.trajectory == l.trajectory
  {
    l.(hiddenPath := Some(p))
  }

  /** The path of a layer with nodes runs from its start node's frame to its
      end node's frame. */
  lemma PathEndsAtEndpoints(h: Heap, l: Layer)
    requires RefsIn(h, l) && HasNodes(l)
    ensures PathOf(h, l).frames[0] == h[StartNode(l).ref].frame
    ensures PathOf(h, l).frames[|PathOf(h, l).frames| - 1] == h[EndNode(l).ref].frame
  {
  }

  /** Reversing the node list swaps the start and end nodes. */
  lemma ReversedSwapsEndpoints(l: Layer, reversed: seq<Ref>)
    requires l.nodes.Some? && |reversed| == |l.nodes.value|
    requires forall i :: 0 <= i < |reversed| ==> reversed[i] == l.nodes.value[|reversed| - 1 - i]
    ensures StartNode(l.(nodes := Some(reversed))) == EndNode(l)
    ensures EndNode(l.(nodes := Some(reversed))) == StartNode(l)
  {
  }

  /** Setting `path` changes nothing that `path` returns. */
  lemma SetPathIsInvisible(h: Heap, l: Layer, p: seq<Frame>)
    requires RefsIn(h, l)
    ensures RefsIn(h, SetPath(l, p))
    ensures PathOf(h, SetPath(l, p)) == PathOf(h, l)
  {
  }

  /** The dictionary `data` returns or accepts; an absent key is `None`. */
  datatype LayerData = LayerData(nodes: Option<seq<Nodes.NodeData>>, trajectory: Option<seq<Waypoint>>, path: Option<seq<Frame>>)

  /** The data of the referenced nodes, in list order. */
  function NodeDataOf(h: Heap, refs: seq<Ref>): (r: seq<Nodes.NodeData>)
    requires Within(h, refs)
    ensures |r| == |refs|
    ensures forall i :: 0 <= i < |refs| ==> r[i] == Nodes.Data(h[refs[i]])
  {
    seq(|refs|, i requires 0 <= i < |refs| => Nodes.Data(h[refs[i]]))
  }

  /** Python truthiness of an optional trajectory: set and not empty. */
  predicate Truthy(t: Option<seq<Waypoint>>) {
    t.Some? && |t.value| > 0
  }

  /** The `data` getter. `nodes` is written when truthy, and so is
      `trajectory`: an empty list of points is left out. `path` is then read through the getter: without nodes that
      is the text, which is truthy, and serialising its characters raises
      AttributeError. */
  function Data(h: Heap, l: Layer): (r: Result<LayerData>)
    requires RefsIn(h, l)
    ensures r.Ok? <==> HasNodes(l)
    ensures r.Err? ==> r.error == AttributeError
    ensures r.Ok? ==> r.value.nodes == Some(NodeDataOf(h, l.nodes.value))
    ensures r.Ok? ==> r.value.trajectory == if Truthy(l.trajectory) then l.trajectory else None
    ensures r.Ok? ==> r.value.path == Some(PathOf(h, l).frames)
  {
    var path := PathOf(h, l);
    if path.PathText? then Err(AttributeError)
    else
      Ok(LayerData(Some(NodeDataOf(h, l.nodes.value)), if Truthy(l.trajectory) then l.trajectory else None,
                   Some(path.frames)))
  }

  /** Nodes built from data, one per entry, in order. */
  function NodesFromData(ds: seq<Nodes.NodeData>): (r: seq<Nodes.Node>)
    ensures |r| == |ds|
    ensures forall i :: 0 <= i < |ds| ==> r[i] == Nodes.FromData(ds[i])
  {
    seq(|ds|, i requires 0 <= i < |ds| => Nodes.FromData(ds[i]))
  }

  /** The references `start`, `start + 1`, ..., `start + n - 1`. */
  function Span(start: nat, n: nat): (r: seq<Ref>)
    ensures |r| == n
    ensures forall i :: 0 <= i < n ==> r[i] == start + i
  {
    seq(n, i requires 0 <= i < n => start + i)
  }

  /** `Layer.from_data(data)`: a new layer whose `data` is set. Listed nodes
      become new node objects. A `trajectory` entry is the list the getter
      wrote, and reading it back as a `dtype` envelope raises AttributeError,
      since a list has no `get`. A `path` entry goes to the setter. */
  function FromData(h: Heap, d: LayerData): (r: Result<(Heap, Layer)>)
    ensures r.Ok? <==> d.trajectory.None?
    ensures r.Err? ==> r.error == AttributeError
    ensures r.Ok? ==> |r.value.0| == |h| + (if d.nodes.Some? then |d.nodes.value| else 0)
    ensures r.Ok? ==> r.value.0[..|h|] == h
    ensures r.Ok? ==> RefsIn(r.value.0, r.value.1)
    ensures r.Ok? ==> r.value.1.nodes.Some? == d.nodes.Some?
    ensures r.Ok? && d.nodes.Some? ==> |r.value.1.nodes.value| == |d.nodes.value|
    ensures r.Ok? && d.nodes.Some? ==> forall i :: 0 <= i < |d.nodes.value| ==>
      r.value.1.nodes.value[i] == |h| + i && r.value.0[|h| + i] == Nodes.FromData(d.nodes.value[i])
    ensures r.Ok? ==> r.value.1.trajectory.None? && r.value.1.hiddenPath == d.path
  {
    if d.trajectory.Some? then Err(AttributeError)
    else
      var built := if d.nodes.Some? then NodesFromData(d.nodes.value) else [];
      var refs := if d.nodes.Some? then Some(Span(|h|, |built|)) else None;
      Ok((h + built, Layer(refs, None, d.path)))
  }

  /** Every referenced node holds the attributes a node's constructor fills
      in. */
  predicate NodesHaveDefaults(h: Heap, l: Layer)
    requires RefsIn(h, l)
  {
    l.nodes.Some? ==> forall i :: 0 <= i < |l.nodes.value| ==> Nodes.HasDefaults(h[l.nodes.value[i]])
  }

  /** Serialising a layer and reading it back gives a layer with the same
      data, when the layer has nodes, each of them holds the default
      attributes, and no trajectory, or an empty one, is set. */
  lemma DataRoundTrip(h: Heap, l: Layer)
    requires RefsIn(h, l) && HasNodes(l) && NodesHaveDefaults(h, l)
    requires l.trajectory.None? || l.trajectory == Some([])
    ensures Data(h, l).Ok? && FromData(h, Data(h, l).value).Ok?
    ensures var (h2, l2) := FromData(h, Data(h, l).value).value;
      RefsIn(h2, l2) && Data(h2, l2) == Data(h, l)
  {
    var d := Data(h, l).value;
    var (h2, l2) := FromData(h, d).value;
    var refs := l.nodes.value;
    forall i | 0 <= i < |refs|
      ensures Nodes.Data(h2[l2.nodes.value[i]]) == Nodes.Data(h[refs[i]])
      ensures h2[l2.nodes.value[i]].frame == h[refs[i]].frame
    {
      Nodes.DataRoundTrip(h[refs[i]]);
    }
    assert NodeDataOf(h2, l2.nodes.value) == NodeDataOf(h, refs);
    assert FramesOf(h2, l2.nodes.value) == FramesOf(h, refs);
  }

  /** A layer with a non-empty trajectory does not survive the round trip. */
  lemma TrajectoryBlocksRoundTrip(h: Heap, l: Layer)
    requires RefsIn(h, l) && HasNodes(l) && l.trajectory.Some? && |l.trajectory.value| > 0
    ensures FromData(h, Data(h, l).value) == Err(AttributeError)
  {
  }

  /** How many times `x` occurs in `refs`. */
  function Occurrences(refs: seq<Ref>, x: Ref): nat {
    if |refs| == 0 then 0 else (if refs[0] == x then 1 else 0) + Occurrences(refs[1..], x)
  }

  /** `t` applied `k` times. */
  function Iterate(t: Transformation, k: nat, f: Frame): Frame {
    if k == 0 then f else Iterate(t, k - 1, t(f))
  }

  /** `n.transform(T)` for each reference in turn: a node listed `k` times
      has its frame transformed `k` times; no other node, and nothing but
      frames, changes. */
  function TransformRefs(h: Heap, refs: seq<Ref>, t: Transformation): (r: Heap)
    requires Within(h, refs)
    ensures |r| == |h|
    ensures forall i :: 0 <= i < |h| ==>
      && r[i].attributes == h[i].attributes && r[i].key == h[i].key && r[i].process == h[i].process
      && r[i].frame == Iterate(t, Occurrences(refs, i), h[i].frame)
    decreases |refs|
  {
    if |refs| == 0 then h
    else
      var h' := h[refs[0] := Nodes.Transform(h[refs[0]], t)];
      TransformRefs(h', refs[1..], t)
  }

  /** `transform(T)`: every node of the list is transformed in place; a
      layer whose `nodes` is `None` raises TypeError. The layer itself is not
      changed. */
  function Transform(h: Heap, l: Layer, t: Transformation): (r: Result<Heap>)
    requires RefsIn(h, l)
    ensures r.Ok? <==> l.nodes.Some?
    ensures r.Err? ==> r.error == TypeError
    ensures r.Ok? ==> r.value == TransformRefs(h, l.nodes.value, t)
  {
    if l.nodes.None? then Err(TypeError) else Ok(TransformRefs(h, l.nodes.value, t))
  }

  /** A node listed once is transformed once. */
  lemma TransformOnce(h: Heap, l: Layer, t: Transformation, x: Ref)
    requires RefsIn(h, l) && l.nodes.Some? && x < |h| && Occurrences(l.nodes.value, x) == 1
    ensures Transform(h, l, t).value[x].frame == t(h[x].frame)
  {
    var r := Transform(h, l, t).value;
    assert r[x].frame == Iterate(t, 1, h[x].frame);
  }

  /** After `transform`, the path of a layer whose nodes are distinct is the
      old path with every frame transformed. */
  lemma TransformedPath(h: Heap, l: Layer, t: Transformation)
    requires RefsIn(h, l) && HasNodes(l)
    requires forall i, j :: 0 <= i < j < |l.nodes.value| ==> l.nodes.value[i] != l.nodes.value[j]
    ensures RefsIn(Transform(h, l, t).value, l)
    ensures forall i :: 0 <= i < |l.nodes.value| ==>
      PathOf(Transform(h, l, t).value, l).frames[i] == t(PathOf(h, l).frames[i])
  {
    var refs := l.nodes.value;
    var h2 := Transform(h, l, t).value;
    forall i | 0 <= i < |refs|
      ensures h2[refs[i]].frame == t(h[refs[i]].frame)
    {
      OccursOnce(refs, i);
      assert h2[refs[i]].frame == Iterate(t, 1, h[refs[i]].frame);
    }
  }

  /** In a list without repeats, each entry occurs once. */
  lemma {:induction false} OccursOnce(refs: seq<Ref>, i: nat)
    requires i < |refs|
    requires forall a, b :: 0 <= a < b < |refs| ==> refs[a] != refs[b]
    ensures Occurrences(refs, refs[i]) == 1
    decreases |refs|
  {
    if i == 0 {
      NotOccurring(refs[1..], refs[0]);
    } else {
      OccursOnce(refs[1..], i - 1);
    }
  }

  /** A value absent from the list occurs zero times. */
  lemma {:induction false} NotOccurring(refs: seq<Ref>, x: Ref)
    requires x !in refs
    ensures Occurrences(refs, x) == 0
    decreases |refs|
  {
    if |refs| > 0 {
      assert refs[1..] <= refs[1..];
      assert forall y :: y in refs[1..] ==> y in refs;
      NotOccurring(refs[1..], x);
    }
  }

  /** `copy()`: a new layer over the SAME node list; the trajectory is not
      carried over. */
  function Copy(l: Layer): (r: Layer)
    ensures r.nodes == l.nodes && r.trajectory.None?
  {
    NewLayer(l.nodes)
  }

  /** The copy aliases the original: transforming the copy transforms the
      original's nodes, and the original's path moves with it. */
  lemma CopyAliases(h: Heap, l: Layer, t: Transformation)
    requires RefsIn(h, l)
    ensures RefsIn(h, Copy(l))
    ensures Transform(h, Copy(l), t) == Transform(h, l, t)
    ensures Copy(l).nodes.Some? ==> PathOf(Transform(h, Copy(l), t).value, l) == PathOf(Transform(h, l, t).value, Copy(l))
  {
  }

  /** `transformed(T)`: the copy's node list is rebound to new nodes, each
      a transformed copy of the corresponding node; the original's nodes are
      untouched. A copy without a node list raises TypeError. */
  function Transformed(h: Heap, l: Layer, t: Transformation): (r: Result<(Heap, Layer)>)
    requires RefsIn(h, l)
    ensures r.Ok? <==> l.nodes.Some?
    ensures r.Err? ==> r.error == TypeError
    ensures r.Ok? ==> |r.value.0| == |h| + |l.nodes.value| && r.value.0[..|h|] == h
    ensures r.Ok? ==> RefsIn(r.value.0, r.value.1)
    ensures r.Ok? ==> r.value.1.nodes.Some? && |r.value.1.nodes.value| == |l.nodes.value|
    ensures r.Ok? ==> forall i :: 0 <= i < |l.nodes.value| ==>
      r.value.1.nodes.value[i] == |h| + i && r.value.0[|h| + i] == Nodes.Transformed(h[l.nodes.value[i]], t)
    ensures r.Ok? ==> r.value.1.trajectory.None?
  {
    var copy := Copy(l);
    if copy.nodes.None? then Err(TypeError)
    else
      var refs := copy.nodes.value;
      var built := seq(|refs|, i requires 0 <= i < |refs| => Nodes.Transformed(h[refs[i]], t));
      Ok((h + built, copy.(nodes := Some(Span(|h|, |refs|)))))
  }

  /** A transformed layer's path is the original path with every frame
      transformed, and the original's path is unchanged. */
  lemma TransformedLayerPath(h: Heap, l: Layer, t: Transformation)
    requires RefsIn(h, l) && HasNodes(l)
    ensures var (h2, l2) := Transformed(h, l, t).value;
      && RefsIn(h2, l2) && RefsIn(h2, l) && HasNodes(l2)
      && PathOf(h2, l) == PathOf(h, l)
      && |PathOf(h2, l2).frames| == |PathOf(h, l).frames|
      && forall i :: 0 <= i < |PathOf(h, l).frames| ==> PathOf(h2, l2).frames[i] == t(PathOf(h, l).frames[i])
  {
    var (h2, l2) := Transformed(h, l, t).value;
    var refs := l.nodes.value;
    forall i | 0 <= i < |refs|
      ensures h2[refs[i]] == h[refs[i]]
    {
      assert h2[..|h|][refs[i]] == h2[refs[i]];
    }
  }
}
