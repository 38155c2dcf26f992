/** A printing `Node`: a frame, a key, a dictionary of named attributes, and
    the process fields of `ProcessParameters`. The frame getter replaces a
    missing frame by the world XY frame the first time it is read; since every
    reader goes through that getter, the model stores the world XY frame from
    the start. */
module Nodes {
  import opened PyValues
  import opened Geometry
  import opened ProcessParameters

  datatype Node = Node(attributes: map<string, Datum>, key: Datum, frame: Frame, process: Process)

  /** The attribute names the constructor fills in. */
  const DefaultNames: set<string> := {"name", "state", "path_width", "path_height", "extrusion_rate", "robot_velocity"}

  /** `Node(name, frame)`. */
  function NewNode(name: Datum, frame: Option<Frame>): (n: Node)
    ensures n.attributes.Keys == DefaultNames
    ensures n.attributes["name"] == name
    ensures forall k :: k in n.attributes && k != "name" ==> n.attributes[k] == DNone
    ensures n.key == DNone && n.process == Fresh
    ensures n.frame == (if frame.Some? then frame.value else WorldXY)
  {
    var attributes := map[
      "name" := name, "state" := DNone, "path_width" := DNone,
      "path_height" := DNone, "extrusion_rate" := DNone, "robot_velocity" := DNone];
    Node(attributes, DNone, frame.GetOr(WorldXY), Fresh)
  }

  /** The dictionary `data` returns or accepts: `attributes` may be `None`. */
  datatype NodeData = NodeData(attributes: Option<map<string, Datum>>, key: Datum, frame: Frame)

  /** The `data` getter. */
  function Data(n: Node): (d: NodeData)
    ensures d.attributes == Some(n.attributes) && d.key == n.key && d.frame == n.frame
  {
    NodeData(Some(n.attributes), n.key, n.frame)
  }

  /** The `data` setter: incoming attributes (`None` reads as none) are merged
      over the ones held, the key and frame are replaced, and the process
      fields are kept. */
  function SetData(n: Node, d: NodeData): (r: Node)
    ensures r.attributes.Keys == n.attributes.Keys + (if d.attributes.Some? then d.attributes.value.Keys else {})
    ensures forall k :: k in r.attributes ==>
      r.attributes[k] == if d.attributes.Some? && k in d.attributes.value then d.attributes.value[k] else n.attributes[k]
    ensures r.key == d.key && r.frame == d.frame && r.process == n.process
  {
    var incoming := if d.attributes.Some? then d.attributes.value else map[];
    n.(attributes := n.attributes + incoming, key := d.key, frame := d.frame)
  }

  /** `Node.from_data(d)`: a default node whose `data` is then set to `d`. */
  function FromData(d: NodeData): (n: Node)
    ensures n.attributes.Keys == DefaultNames + (if d.attributes.Some? then d.attributes.value.Keys else {})
    ensures d.attributes.Some? ==> forall k :: k in d.attributes.value ==> n.attributes[k] == d.attributes.value[k]
    ensures n.key == d.key && n.frame == d.frame && n.process == Fresh
  {
    SetData(NewNode(DStr("node"), None), d)
  }

  /** `copy()`: a node rebuilt from this node's data. */
  function Copy(n: Node): (r: Node)
    ensures r.attributes.Keys == DefaultNames + n.attributes.Keys
    ensures forall k :: k in n.attributes ==> r.attributes[k] == n.attributes[k]
    ensures r.key == n.key && r.frame == n.frame && r.process == Fresh
  {
    FromData(Data(n))
  }

  /** `transform(T)`: the frame is transformed in place. */
  function Transform(n: Node, t: Transformation): (r: Node)
    ensures r.attributes == n.attributes && r.key == n.key && r.process == n.process
    ensures r.frame == t(n.frame)
  {
    n.(frame := t(n.frame))
  }

  /** `transformed(T)`: a transformed copy; its process fields are those of
      a new node. */
  function Transformed(n: Node, t: Transformation): (r: Node)
    ensures r.frame == t(n.frame) && r.key == n.key && r.process == Fresh
  {
    Transform(Copy(n), t)
  }

  /** A node holds at least the attributes the constructor fills in. */
  predicate HasDefaults(n: Node) {
    DefaultNames <= n.attributes.Keys
  }

  /** Setting data never drops an attribute: a node that holds the default
      attributes still holds them. */
  lemma SetDataKeepsDefaults(n: Node, d: NodeData)
    requires HasDefaults(n)
    ensures HasDefaults(SetData(n, d))
  {
  }

  /** Setting data with no attributes leaves the attributes as they were. */
  lemma SetDataWithoutAttributes(n: Node, d: NodeData)
    requires d.attributes.None? || d.attributes == Some(map[])
    ensures SetData(n, d).attributes == n.attributes
  {
    if d.attributes.Some? {
      assert n.attributes + map[] == n.attributes;
    }
  }

  /** Rebuilding a node from its data gives back its data, when it holds the
      default attributes: the merge over a fresh node's attributes overwrites
      every one of them. */
  lemma DataRoundTrip(n: Node)
    requires HasDefaults(n)
    ensures Data(FromData(Data(n))) == Data(n)
  {
    var r := FromData(Data(n));
    assert r.attributes.Keys == n.attributes.Keys;
    assert forall k :: k in r.attributes ==> r.attributes[k] == n.attributes[k];
    assert r.attributes == n.attributes;
  }

  /** A copy has the data of the original but none of its process fields
      assigned: those are not part of `data`. */
  lemma CopyForgetsProcess(n: Node)
    requires HasDefaults(n)
    ensures Data(Copy(n)) == Data(n)
    ensures Copy(n).process == Fresh
  {
    DataRoundTrip(n);
  }

  /** A transformed copy differs from the original only in its frame and its
      process fields. */
  lemma TransformedKeepsData(n: Node, t: Transformation)
    requires HasDefaults(n)
    ensures Transformed(n, t).attributes == n.attributes && Transformed(n, t).key == n.key
    ensures Transformed(n, t).frame == t(n.frame)
  {
    CopyForgetsProcess(n);
  }
}
