/** `Element`: an extended graph whose children are paths. Paths are added
    through the shared `add_named_node`; the element also remembers, in a
    field, the key argument of the last `add_path` call. */
module Elements {
  import opened PyValues
  import opened Geometry
  import opened Substrate
  import opened ExtendedGraphs
  import Paths

  /** The type tag of a path child: the name a path gets by default. */
  const PathType: string := "path"

  datatype Element = Element(graph: Graph<Paths.Path>, state: bool, lastPath: Datum, ecf: Frame)

  /** `Element(name)`. */
  function NewElement(name: Datum): (e: Element)
    ensures e.graph.Valid() && |e.graph.order| == 0 && e.graph.edges == {}
    ensures e.graph.attributes == map["name" := name] && e.graph.nodeDefaults == map[]
    ensures !e.state && e.lastPath == DNone && e.ecf == WorldXY
  {
    Element(NewGraph(map["name" := name]), false, DNone, WorldXY)
  }

  /** `check_state()` does nothing. */
  function CheckState(e: Element): (r: Element)
    ensures r == e
  {
    e
  }

  /** `paths()`: the keys of the children tagged `"path"`, in node order. */
  function PathKeys(e: Element): (r: seq<Datum>)
    ensures forall k :: k in r <==> k in e.graph.order && Matches(e.graph, k, NodeType, TypeTag(PathType))
  {
    Objects(e.graph, PathType)
  }

  /** `paths(data=True)`: each path key with its `"path"` attribute. */
  function PathsWithData(e: Element): (r: seq<(Datum, Value<Paths.Path>)>)
    ensures |r| == |PathKeys(e)|
    ensures forall i :: 0 <= i < |r| ==> r[i].0 == PathKeys(e)[i] && r[i].1 == AttrOf(e.graph, r[i].0, Some(PathType))
  {
    NodesWhereWithData(e.graph, NodeType, TypeTag(PathType), Some(PathType))
  }

  /** What `add_named_node` reads off a path. */
  function PathInfo(path: Paths.Path): ObjInfo {
    InfoOf(path.graph.attributes)
  }

  /** `add_path(path, key, parent_path, parent_robot)`: the path, key and
      parent are handed to `add_named_node` as they are; `parent_robot` is
      not used; `_last_path` becomes the key ARGUMENT, which is `None` when
      the key was minted. */
  function AddPath(e: Element, path: Paths.Path, key: Datum, parentPath: Datum, parentRobot: Datum): (r: Result<Element>)
    ensures r.Ok? <==> AddNamedNode(e.graph, path, PathInfo(path), key, parentPath).Ok?
    ensures r.Ok? ==> r.value.graph == AddNamedNode(e.graph, path, PathInfo(path), key, parentPath).value.graph
    ensures r.Ok? ==> r.value.lastPath == key && r.value.state == e.state && r.value.ecf == e.ecf
  {
    var a :- AddNamedNode(e.graph, path, PathInfo(path), key, parentPath);
    Ok(e.(graph := a.graph, lastPath := key))
  }

  /** When the key is minted, `_last_path` stays `None` although the graph
      attribute `_last_<name>` records the minted key, which is a new path
      child. */
  lemma MintedKeyNotRemembered(e: Element, path: Paths.Path, parentPath: Datum, parentRobot: Datum)
    requires AddPath(e, path, DNone, parentPath, parentRobot).Ok?
    ensures var r := AddPath(e, path, DNone, parentPath, parentRobot).value;
      var minted := GetLastKey(r.graph, PathInfo(path).nameAttr);
      && r.lastPath == DNone
      && minted != DNone
      && minted in r.graph.node
      && minted !in Objects(e.graph, PathInfo(path).name)
  {
  }

  /** `parent_robot` has no effect. */
  lemma ParentRobotIgnored(e: Element, path: Paths.Path, key: Datum, parentPath: Datum, r1: Datum, r2: Datum)
    ensures AddPath(e, path, key, parentPath, r1) == AddPath(e, path, key, parentPath, r2)
  {
  }
}
