/** `InformationModel`: the top-level extended graph, holding robots and
    elements. Elements are added through the shared `add_named_node`; robots
    are stored directly, under keys minted as `robot_<n>`, with no edge and
    no `_last_...` record. */
module InformationModels {
  import opened PyValues
  import opened Substrate
  import opened ExtendedGraphs
  import opened ExtendedGraphFacts
  import Elements

  const RobotType: string := "robot"
  const ElementType: string := "element"

  /** What the model stores: a robot (of whatever robot type `R` is) or an
      element. */
  datatype Member<R> = RobotOf(robot: R) | ElementOf(element: Elements.Element)

  datatype InformationModel<R> = InformationModel(graph: Graph<Member<R>>)

  /** `InformationModel(name)`: no nodes; the attributes hold the name and
      `_last_element = None`. */
  function NewInformationModel<R>(name: Datum): (m: InformationModel<R>)
    ensures m.graph.Valid() && |m.graph.order| == 0 && m.graph.edges == {} && m.graph.nodeDefaults == map[]
    ensures m.graph.attributes == map["name" := name, LastAttr(ElementType) := DNone]
    ensures GetLastKey(m.graph, ElementType) == DNone
  {
    InformationModel(NewGraph(map["name" := name, LastAttr(ElementType) := DNone]))
  }

  /** `robots()`: the keys tagged `"robot"`, in node order. */
  function Robots<R(==)>(m: InformationModel<R>): (r: seq<Datum>)
    ensures forall k :: k in r <==> k in m.graph.order && Matches(m.graph, k, NodeType, TypeTag(RobotType))
  {
    Objects(m.graph, RobotType)
  }

  /** `elements()`: the keys tagged `"element"`, in node order. */
  function ElementKeys<R(==)>(m: InformationModel<R>): (r: seq<Datum>)
    ensures forall k :: k in r <==> k in m.graph.order && Matches(m.graph, k, NodeType, TypeTag(ElementType))
  {
    Objects(m.graph, ElementType)
  }

  /** `get_robot(key)`: the `"robot"` attribute of the node, `None` for a
      key that is not a node. */
  function GetRobot<R>(m: InformationModel<R>, key: Datum): (r: Value<Member<R>>)
    ensures key !in m.graph.node ==> r == Plain(DNone)
    ensures key in m.graph.node && RobotType in m.graph.node[key] ==> r == m.graph.node[key][RobotType]
  {
    GetNode(m.graph, key, RobotType)
  }

  /** `get_element(key)`: the `"element"` attribute of the node, `None` for
      a key that is not a node. */
  function GetElement<R>(m: InformationModel<R>, key: Datum): (r: Value<Member<R>>)
    ensures key !in m.graph.node ==> r == Plain(DNone)
    ensures key in m.graph.node && ElementType in m.graph.node[key] ==> r == m.graph.node[key][ElementType]
  {
    GetNode(m.graph, key, ElementType)
  }

  /** The attributes `add_robot` stores. */
  function RobotAttrs<R>(robot: R): Attrs<Member<R>> {
    map[NodeType := TypeTag(RobotType), RobotType := Obj(RobotOf(robot))]
  }

  /** `add_robot(robot, key)`: a missing key is minted as
      `robot_<1 + largest suffix>` over the robots; the robot is stored with
      its type tag. No edge is added and the graph attributes are untouched.
      The flag is the "value is overwritten" warning. */
  function AddRobot<R(==)>(m: InformationModel<R>, robot: R, key: Datum): (r: Result<Warned<InformationModel<R>>>)
    ensures r.Ok? <==> key != DNone || AllParse(Robots(m))
    ensures r.Ok? ==> r.value.warned == (key != DNone && key in Robots(m))
    ensures r.Ok? ==> exists k ::
      && k != DNone
      && (key != DNone ==> k == key)
      && (key == DNone ==> k !in Robots(m) && Ok(k) == GetNextKey(Robots(m), RobotType + "_"))
      && r.value.value.graph == Substrate.AddNode(m.graph, k, RobotAttrs(robot)).0
    ensures r.Ok? ==> r.value.value.graph.edges == m.graph.edges && r.value.value.graph.attributes == m.graph.attributes
  {
    var k :- if key == DNone then GetNextKey(Robots(m), RobotType + "_") else Ok(key);
    var warned := key != DNone && key in Robots(m);
    if key == DNone then
      NextKeyIsFresh(Robots(m), RobotType + "_");
      Ok(Warned(InformationModel(Substrate.AddNode(m.graph, k, RobotAttrs(robot)).0), warned))
    else
      Ok(Warned(InformationModel(Substrate.AddNode(m.graph, k, RobotAttrs(robot)).0), warned))
  }

  /** Re-adding a robot under a key the model already has overwrites it in
      place: the node count is unchanged, and the node now holds the new
      robot. */
  lemma RobotOverwriteKeepsCount<R>(m: InformationModel<R>, robot: R, key: Datum)
    requires m.graph.Valid() && key != DNone && key in m.graph.node
    ensures AddRobot(m, robot, key).Ok?
    ensures NumberOfNodes(AddRobot(m, robot, key).value.value.graph) == NumberOfNodes(m.graph)
    ensures GetRobot(AddRobot(m, robot, key).value.value, key) == Obj(RobotOf(robot))
  {
  }

  /** Storing a robot under `k` adds `k`, and only `k`, to the robots, when
      no default node attribute supplies a type. */
  lemma StoreRobotTypedKeys<R>(g: Graph<Member<R>>, robot: R, k: Datum)
    requires k != DNone && NodeType !in g.nodeDefaults
    ensures TypedKeys(Substrate.AddNode(g, k, RobotAttrs(robot)).0, RobotType) == TypedKeys(g, RobotType) + {k}
  {
    var g' := Substrate.AddNode(g, k, RobotAttrs(robot)).0;
    forall x ensures x in TypedKeys(g', RobotType) <==> x in TypedKeys(g, RobotType) + {k} {
      if x != k && x in g.node {
        assert g'.node[x] == g.node[x];
      }
    }
  }

  /** Key-less robot additions to a model whose robots are
      `robot_0 .. robot_(n-1)` store the next one as `robot_n`; the first
      robot of a new model is `robot_0`. */
  lemma RobotMintStep<R>(m: InformationModel<R>, robot: R, n: nat)
    requires MintsFrom(m.graph, RobotType, n)
    ensures AddRobot(m, robot, DNone).Ok?
    ensures var g := AddRobot(m, robot, DNone).value.value.graph;
      && MintedKey(RobotType, n) in g.node
      && GetNode(g, MintedKey(RobotType, n), RobotType) == Obj(RobotOf(robot))
      && MintsFrom(g, RobotType, n + 1)
  {
    NextKeyOfTyped(m.graph, RobotType, n);
    StoreRobotTypedKeys(m.graph, robot, MintedKey(RobotType, n));
    MintedSetNext(RobotType, n);
  }

  lemma NewModelHasNoRobots<R>(name: Datum)
    ensures MintsFrom(NewInformationModel<R>(name).graph, RobotType, 0)
  {
  }

  /** What `add_named_node` reads off an element. */
  function ElementInfo(element: Elements.Element): ObjInfo {
    InfoOf(element.graph.attributes)
  }

  /** `add_element(element, key, parent_element, parent_robot)`: the shared
      `add_named_node` with the element, key and parent; `parent_robot` is
      not used, and nothing is returned. */
  function AddElement<R(==)>(m: InformationModel<R>, element: Elements.Element, key: Datum,
                              parentElement: Datum, parentRobot: Datum): (r: Result<InformationModel<R>>)
    ensures r.Ok? <==> AddNamedNode(m.graph, ElementOf(element), ElementInfo(element), key, parentElement).Ok?
    ensures r.Ok? ==> r.value.graph == AddNamedNode(m.graph, ElementOf(element), ElementInfo(element), key, parentElement).value.graph
  {
    var a :- AddNamedNode(m.graph, ElementOf(element), ElementInfo(element), key, parentElement);
    Ok(InformationModel(a.graph))
  }

  /** An element built by `Element()` has no `node_type` attribute, so the
      default parent is read from `_last_None`, which nothing writes: the
      addition records itself in `_last_element` yet links from no parent. */
  lemma DefaultElementUnlinked<R>(m: InformationModel<R>, key: Datum)
    requires LastAttr("None") !in m.graph.attributes
    requires AddElement(m, Elements.NewElement(DStr(ElementType)), key, Last, Last).Ok?
    ensures var g := AddElement(m, Elements.NewElement(DStr(ElementType)), key, Last, Last).value.graph;
      && g.edges == m.graph.edges
      && LastAttr("None") !in g.attributes
      && GetLastKey(g, ElementType) != DNone
  {
  }
}
