/** The set-up shared by the constructors of `AMModel` and `AMIM`. Both
    subclass the compas network and start it the same way. The graph is
    named by a default name unless the caller's attributes carry a name.
    The node attributes keep the compas network's coordinate defaults, and
    `is_planned` and `is_placed` default to false, unless the caller's
    defaults override them. The connection defaults are the
    caller's. */
module NetworkSetup {
  import opened PyValues
  import opened Substrate

  /** The default node attributes every network starts with: the compas
      network's own coordinates `x`, `y`, `z` at 0.0, which the constructors
      keep, and `is_planned`, `is_placed` false, which they add. */
  function BuiltinDefaults<P>(): (r: Attrs<P>)
    ensures r.Keys == {"x", "y", "z", "is_planned", "is_placed"}
    ensures r["x"] == Real(0.0) && r["y"] == Real(0.0) && r["z"] == Real(0.0)
    ensures r["is_planned"] == Plain(DBool(false)) && r["is_placed"] == Plain(DBool(false))
  {
    map["x" := Real(0.0), "y" := Real(0.0), "z" := Real(0.0)]
      + map["is_planned" := Plain(DBool(false)), "is_placed" := Plain(DBool(false))]
  }

  /** The graph attributes of a new network: the name `defaultName`, then
      the caller's attributes over it. */
  function InitialAttributes(defaultName: string, attributes: Option<map<string, Datum>>): (r: map<string, Datum>)
    ensures "name" in r
    ensures attributes.None? ==> r == map["name" := DStr(defaultName)]
    ensures attributes.Some? ==> forall k :: k in attributes.value ==> k in r && r[k] == attributes.value[k]
    ensures attributes.Some? && "name" !in attributes.value ==> r["name"] == DStr(defaultName)
    ensures attributes.Some? ==> r.Keys == attributes.value.Keys + {"name"}
  {
    map["name" := DStr(defaultName)] + (if attributes.Some? then attributes.value else map[])
  }

  /** The default node attributes of a new network: the built-in ones, then
      the caller's over them. */
  function InitialDefaults<P>(defaultNode: Option<map<string, Datum>>): (r: Attrs<P>)
    ensures defaultNode.None? ==> r == BuiltinDefaults()
    ensures defaultNode.Some? ==> r.Keys == BuiltinDefaults<P>().Keys + defaultNode.value.Keys
    ensures defaultNode.Some? ==> forall k :: k in defaultNode.value ==> r[k] == Plain(defaultNode.value[k])
    ensures forall k :: k in BuiltinDefaults<P>() && (defaultNode.None? || k !in defaultNode.value) ==> r[k] == BuiltinDefaults<P>()[k]
  {
    BuiltinDefaults() + (if defaultNode.Some? then Lift(defaultNode.value) else map[])
  }

  /** The network of a new model before anything is added to it. */
  function InitialNetwork<P>(defaultName: string, attributes: Option<map<string, Datum>>,
                             defaultNode: Option<map<string, Datum>>,
                             defaultConnection: Option<map<string, Datum>>): (g: Graph<P>)
    ensures g.Valid() && |g.order| == 0 && g.edges == {} && g.maxInt == -1
    ensures g.attributes == InitialAttributes(defaultName, attributes) && g.nodeDefaults == InitialDefaults(defaultNode)
    ensures g.edgeDefaults == (if defaultConnection.Some? then defaultConnection.value else map[])
  {
    Graph([], map[], {}, InitialAttributes(defaultName, attributes), InitialDefaults(defaultNode),
          if defaultConnection.Some? then defaultConnection.value else map[], -1)
  }

  /** Setting up a network with attributes that already carry a name keeps
      exactly those attributes, whatever the default name. */
  lemma NamedAttributesKept(defaultName: string, attributes: map<string, Datum>)
    requires "name" in attributes
    ensures InitialAttributes(defaultName, Some(attributes)) == attributes
  {
  }
}
