# AM information model in Dafny

This project models the `am_information_model` Python package and the `AMIM` network of the
`additive_manufacturing_information_model` package. Both are bookkeeping layers over the compas
graph library. The model covers these parts:

- **Typed-child bookkeeping of `ExtendedGraph`.**
  - Keys are parsed as the integer after their last underscore.
  - New keys are minted as `<type>_<1 + largest suffix>`.
  - Keys are looked up as `"first"`, `"last"` or by numeric id.
  - An existing key is overwritten.
  - `_last_<name>` is recorded, and the new child is linked from a parent.
- **The graph's users.** `Path`, `Element` and `InformationModel` reuse that scheme.
- **The two network containers.**
  - `AMModel` holds layers with no edges; its copy shares the layers' node lists.
  - `AMIM` links each node to the key one below it.
- **`Layer`.** Its node accessors with the `"No nodes defined"` sentinel, the derived frame
  list, its `data` dictionary, `transform`, `transformed`, and a `copy` that aliases the
  node list.
- **`Node`.** Its `data` and the process-parameter setters, as arithmetic over `real`.
- **The `dtype` envelope helpers** used for serialisation.

## How the model is organised

- **Python scalars** are `PyValues.Datum`: `None`, bool, int or str.
  - A raised exception is the `Err` case of `PyValues.Result`.
  - A printed warning is a returned flag (`PyValues.Warned`).
- **The compas graph** is `Substrate.Graph`: an immutable record of the keys in insertion
  order, each key's attribute dictionary, a set of directed edges, graph attributes, default
  node and edge attributes, and the largest integer key seen. Automatic keys are drawn from
  that last field.
  - Its operations (`AddNode`, `AddEdge`, `NodesWhere`) are written to the behaviour the
    package relies on.
  - Adding an edge adds any missing endpoint.
  - Re-adding a key merges the new attributes over the stored ones.
- **Shared constructor set-up.** The two network containers set up the compas network the same
  way, apart from the default name. That set-up is defined once, in `NetworkSetup`.
- **Frames and transformations** are opaque (`Geometry`). A transformation is any function
  from frames to frames.
- **Node objects** live in a heap, a sequence indexed by reference.
  - A `Layer` holds references into it.
  - This is what makes the aliasing of `Layer.copy` and `AMModel.transformed` visible.
- **Mutable default arguments.** `add_layer` and `add_node` have a default argument
  `attr_dict={}` that is shared between calls. It is threaded through the model as the
  explicit `shared` dictionary.
- **Objects passed to `add_named_node`** are seen through what the method reads off them:
  their name, their `name` attribute and their `node_type` attribute (`ExtendedGraphs.ObjInfo`).

The model follows the code as written, including these quirks:

- `add_named_node` reads the default parent from `_last_<node_type attribute>` but writes
  `_last_<name attribute>`. Successive additions chain only when the two agree.
  - Paths and elements built by their constructors have no `node_type` attribute. For them
    the lookup reads `_last_None`, and no link is made.
- `Path.add_node` records its last key in a field of the path, not in the graph attribute it
  reads. So an addition with the default parent never creates an edge.
- `Element.add_path` remembers the key argument. That is `None` when the key was minted.
- `AMModel.copy` shares node lists with the original, so `transformed` moves the original's
  nodes too. `AMIM.copy` raises `NotImplementedError`, so `AMIM.transformed` raises before
  transforming anything.
- The overwrite warning of `add_named_node` is printed only for a key among the children of
  the same type. The overwrite itself happens for any present key.

## Model

| member | source | states |
|---|---|---|
| PyText.IntToString | src/am_information_model/model/graph.py:55-59 | `str(id)` is non-empty text with no underscore and no space |
| PyText.LastSegmentShape | src/am_information_model/model/graph.py:27-28 | `key.split('_')[-1]` is a suffix of the key without underscores; it is preceded by an underscore unless it is the whole key |
| PyText.LastSegmentAfterUnderscore | src/am_information_model/model/graph.py:27-28 | after a prefix ending in `_`, the last segment of `prefix + t` is `t` whenever `t` has no underscore |
| PyText.ParseIntOfIntToString | src/am_information_model/model/graph.py:55-59 | `int(str(n)) == n` for every integer, negative ones included |
| PyText.ParseIntOfDigits | src/am_information_model/model/graph.py:27-28 | `int()` of a run of decimal digits is its decimal value, and `int('')` raises ValueError |
| PyText.ParseIntOfNegative | src/am_information_model/model/graph.py:27-28 | `int()` of a minus sign followed by digits is the negated decimal value |
| ExtendedGraphs.InfoOf | src/am_information_model/model/graph.py:70-77 | a graph handed over as a child is named by its `name` attribute, which is the text itself for a string name; a missing `node_type` reads as `None` |
| ExtendedGraphs.NewGraph | src/am_information_model/model/graph.py:8-12 | a new extended graph is valid and has no nodes, no edges and no default node attributes |
| ExtendedGraphs.Objects | src/am_information_model/model/graph.py:82-83 | `objects(t)` yields exactly the node keys whose `node_type` is `t` |
| ExtendedGraphs.NodesWhereWithData | src/am_information_model/model/graph.py:14-19 | with `data`, each matching key comes paired with its attribute `attr`, in the same order as without `data` |
| ExtendedGraphs.GetNode | src/am_information_model/model/graph.py:21-25 | a key that is not a node gives `None`, not an error |
| ExtendedGraphs.GetId | src/am_information_model/model/graph.py:27-28 | a non-string key raises AttributeError; a string key succeeds exactly when its last segment is an integer literal, and gives that integer |
| ExtendedGraphs.CreateKey | src/am_information_model/model/graph.py:55-59 | an empty prefix gives the id itself; any other prefix gives a string key |
| ExtendedGraphs.CreateKeyId | src/am_information_model/model/graph.py:55-59 | `get_id(create_key(n, p)) == n` whenever `p` ends in `_` |
| ExtendedGraphs.AllParseCons | src/am_information_model/model/graph.py:30-33 | all keys parse exactly when the first does and the rest do |
| ExtendedGraphs.ParseIds | src/am_information_model/model/graph.py:30-33 | the ids succeed exactly when every key parses, and the `i`-th id is `get_id` of the `i`-th key |
| ExtendedGraphs.GetIds | src/am_information_model/model/graph.py:30-35 | the sentinel `[-1]` is yielded exactly when there are no keys |
| ExtendedGraphs.ArgMax | src/am_information_model/model/graph.py:64-66 | `max` of a non-empty id list: a position whose id no other id exceeds |
| ExtendedGraphs.GetNextKey | src/am_information_model/model/graph.py:64-66 | succeeds exactly when every key parses; gives `create_key(0)` for no keys, otherwise `create_key(1 + id)` of a key whose id is the largest |
| ExtendedGraphs.NextKeyIsFresh | src/am_information_model/model/graph.py:64-66 | a key minted with an empty or `<type>_` prefix is none of the keys it was computed from |
| ExtendedGraphs.Search | src/am_information_model/model/graph.py:47-53 | the id scan finds the first key with the id, reports a missing id only when every key parses to another id, and stops at the first key that does not parse |
| ExtendedGraphs.GetKey | src/am_information_model/model/graph.py:37-53 | `"first"` gives the first key or raises StopIteration; `"last"` gives the last key or `None`; an id gives the first key with that id and raises IndexError exactly when no key has it |
| ExtendedGraphs.GetLastKey | src/am_information_model/model/graph.py:61-62 | `attributes.get('_last_<t>')`: `None` when the entry is missing, otherwise the stored entry |
| ExtendedGraphs.ResolveParent | src/am_information_model/model/graph.py:68-70 | an explicit parent is kept; `"last"` becomes the `_last_<node_type>` entry, `None` when there is none |
| ExtendedGraphs.Store | src/am_information_model/model/graph.py:76-77 | the child is stored over whatever the key held, tagged with its type, and `_last_<name>` becomes the key; edges are unchanged |
| ExtendedGraphs.Link | src/am_information_model/model/graph.py:78-79 | exactly one edge parent→key is added when the parent is not `None`, and none otherwise |
| ExtendedGraphs.AddNamedNode | src/am_information_model/model/graph.py:68-80 | fails only when a key must be minted and a child's key does not parse; a minted key is `get_next_key` over the children of the type with the prefix `<name>_`, and so fresh among them; the warning flags a key already among them; the graph is the child stored and linked from the resolved parent |
| ExtendedGraphFacts.AddAll | src/am_information_model/model/graph.py:68-80 | successive additions use one key per object, none of them `None` |
| ExtendedGraphFacts.AddedChildIsRetrievable | src/am_information_model/model/graph.py:76-76 | `get_node` under the object's name attribute gives the object back, and its `node_type` is the object's name |
| ExtendedGraphFacts.OverwriteKeepsCount | src/am_information_model/model/graph.py:73-76 | adding under a key already present, with no parent or a present one, leaves the node count unchanged |
| ExtendedGraphFacts.DefaultParentAfterAdd | src/am_information_model/model/graph.py:69-77 | the next default-parent lookup sees the key just added exactly when the object's `node_type` names the attribute the addition wrote |
| ExtendedGraphFacts.AddAllChains | src/am_information_model/model/graph.py:69-79 | when `node_type` and name agree, default-parent additions link each child from the one before, and the first from the old `_last_<name>` |
| ExtendedGraphFacts.ChainFromNone | src/am_information_model/model/graph.py:78-79 | a chain with no starting parent is exactly the set of consecutive pairs of keys |
| ExtendedGraphFacts.AddAllLinksConsecutive | src/am_information_model/model/graph.py:69-79 | with no `_last_<name>` entry at the start, the new edges are exactly `keys[i-1] -> keys[i]` |
| ExtendedGraphFacts.MintedKeyId | src/am_information_model/model/graph.py:55-59 | `get_id` of `<type>_<i>` is `i` |
| ExtendedGraphFacts.NextKeyOfNone | src/am_information_model/model/graph.py:30-35 | with no keys the next id is 0 |
| ExtendedGraphFacts.NextKeyOfIds | src/am_information_model/model/graph.py:64-66 | when the largest id is `p`, the minted id is `p + 1` |
| ExtendedGraphFacts.NextKeyOfTyped | src/am_information_model/model/graph.py:71-72 | when the children of a type are `t_0 .. t_(n-1)`, the next minted key is `t_n` |
| ExtendedGraphFacts.PlaceTypedKeys | src/am_information_model/model/graph.py:76-79 | storing and linking a child adds its key, and only its key, to the children of its type, and keeps the graph valid |
| ExtendedGraphFacts.MintStep | src/am_information_model/model/graph.py:71-77 | a key-less addition to children `t_0 .. t_(n-1)` stores the child as `t_n`, after which they are `t_0 .. t_n` |
| ExtendedGraphFacts.NewGraphUntyped | src/am_information_model/model/graph.py:8-12 | a new graph has no children of any type, so minting starts at `t_0` |
| Paths.NewPath | src/am_information_model/model/path.py:10-13 | a new path has no nodes, no edges, its name, `_last_node == None` and the world XY frame |
| Paths.AddNode | src/am_information_model/model/path.py:21-31 | a missing key is `get_next_key` over all keys with the prefix `node_`, so fresh, and minting fails only on an unparsable key; `_last_node` becomes the key; the node is stored under `"node"`; one edge from a non-`None` resolved parent; the warning flags an existing key |
| Paths.AddNodeFrame | src/am_information_model/model/path.py:21-31 | an addition leaves every other record as it was, creates no record but the key and the resolved parent, and appends to the key order the key, if new, then the parent, if new and not `None` |
| Paths.OverwriteKeepsCount | src/am_information_model/model/path.py:26-28 | adding under an existing key, with no parent or a present one, leaves the node count unchanged |
| Paths.NoDefaultParent | src/am_information_model/model/path.py:22-23 | without `_last_...` attributes the default parent is `None` |
| Paths.DefaultAddNoEdge | src/am_information_model/model/path.py:21-31 | a default-parent addition adds no edge and writes no `_last_...` attribute |
| Paths.NewPathHasNoLastEntries | src/am_information_model/model/path.py:10-13 | a new path has no `_last_...` attribute |
| Paths.NextKeyOfEmpty | src/am_information_model/model/path.py:24-25 | on an empty path the minted key is `node_0` |
| Paths.NextKeyOfMinted | src/am_information_model/model/path.py:24-25 | on a path holding `node_0 .. node_p` the minted key is `node_(p+1)` |
| Paths.MintedKeyIsNew | src/am_information_model/model/path.py:24-25 | `node_n` is not among `node_0 .. node_(n-1)` |
| Paths.MintStep | src/am_information_model/model/path.py:21-31 | one key-less addition to `node_0 .. node_(n-1)` appends `node_n`, adds no edge and warns of nothing |
| Paths.NoKeys | src/am_information_model/model/path.py:34-35 | missing keys are `None` for every node |
| Paths.AddZipped | src/am_information_model/model/path.py:36-39 | the additions keep the graph attributes and validity, and add nothing when either list is empty |
| Paths.ZippedExtends | src/am_information_model/model/path.py:33-39 | `add_nodes` only extends the key order: the old order is a prefix of the new one |
| Paths.ZippedKeeps | src/am_information_model/model/path.py:36-39 | a record is left alone by later pairs that do not name its key, since a minted key is never an existing one |
| Paths.ZippedPlacement | src/am_information_model/model/path.py:36-39 | with explicit keys the last writer wins: `nodes[i]` ends up under `keys[i]` unless a later pair names the same key |
| Paths.ZipStopsAtShorter | src/am_information_model/model/path.py:36-39 | only the first `min(len(nodes), len(keys))` pairs are added |
| Paths.AutoKeysMint | src/am_information_model/model/path.py:33-39 | key-less additions to `node_0 .. node_(n-1)` append `node_n, node_(n+1), ...` in input order and add no edge |
| Paths.AddNodes | src/am_information_model/model/path.py:33-39 | `add_nodes` keeps the graph attributes, the frame and validity, and changes nothing for an empty node or key list |
| Paths.FromNodes | src/am_information_model/model/path.py:15-19 | `from_nodes` gives a valid path named `"path"` with the world XY frame; an empty list gives the new empty path |
| Paths.FromNodesKeys | src/am_information_model/model/path.py:15-19 | `from_nodes` keys the nodes `node_0 .. node_(k-1)` in input order and links none of them |
| Paths.FirstFailure | src/am_information_model/model/path.py:41-43 | the scan stops at the first record without a printing node: KeyError without a `"node"` entry, AttributeError for an entry that is not an object |
| Paths.Transform | src/am_information_model/model/path.py:41-43 | succeeds exactly when every record holds a printing node; keys, order, edges and attributes are unchanged and each printing node is transformed |
| Elements.NewElement | src/am_information_model/model/element.py:9-13 | a new element has no paths, `state == False`, `_last_path == None` and the world XY frame |
| Elements.CheckState | src/am_information_model/model/element.py:15-16 | `check_state` changes nothing |
| Elements.PathKeys | src/am_information_model/model/element.py:18-19 | `paths()` yields exactly the keys whose `node_type` is `"path"` |
| Elements.PathsWithData | src/am_information_model/model/element.py:18-19 | with `data`, each path key comes paired with its `"path"` attribute |
| Elements.AddPath | src/am_information_model/model/element.py:24-27 | the path, key and parent go to `add_named_node` unchanged, and `_last_path` becomes the key argument |
| Elements.MintedKeyNotRemembered | src/am_information_model/model/element.py:26-27 | with a minted key `_last_path` stays `None`, although the graph records the minted key as a new child |
| Elements.ParentRobotIgnored | src/am_information_model/model/element.py:24-27 | `parent_robot` has no effect |
| InformationModels.NewInformationModel | src/am_information_model/model/informationmodel.py:11-15 | a new model has no nodes and its attributes hold the name and `_last_element = None` |
| InformationModels.Robots | src/am_information_model/model/informationmodel.py:17-18 | `robots()` yields exactly the keys tagged `"robot"` |
| InformationModels.ElementKeys | src/am_information_model/model/informationmodel.py:20-21 | `elements()` yields exactly the keys tagged `"element"` |
| InformationModels.GetRobot | src/am_information_model/model/informationmodel.py:23-24 | an absent key gives `None`; a present one gives its `"robot"` attribute |
| InformationModels.GetElement | src/am_information_model/model/informationmodel.py:26-27 | an absent key gives `None`; a present one gives its `"element"` attribute |
| InformationModels.AddRobot | src/am_information_model/model/informationmodel.py:29-35 | fails only when a key must be minted and a robot key does not parse; a minted key is `get_next_key` over the robots with the prefix `robot_`, and so fresh among them; the robot is stored with its tag; no edge and no attribute changes |
| InformationModels.RobotOverwriteKeepsCount | src/am_information_model/model/informationmodel.py:33-35 | re-adding under an existing key keeps the node count and stores the new robot |
| InformationModels.StoreRobotTypedKeys | src/am_information_model/model/informationmodel.py:35-35 | storing a robot adds its key, and only its key, to the robots |
| InformationModels.RobotMintStep | src/am_information_model/model/informationmodel.py:31-35 | with robots `robot_0 .. robot_(n-1)`, a key-less addition stores the robot as `robot_n` |
| InformationModels.NewModelHasNoRobots | src/am_information_model/model/informationmodel.py:11-15 | a new model has no robots, so the first minted key is `robot_0` |
| InformationModels.AddElement | src/am_information_model/model/informationmodel.py:37-39 | `add_element` is `add_named_node` with the element, key and parent; `parent_robot` is unused |
| InformationModels.DefaultElementUnlinked | src/am_information_model/model/informationmodel.py:37-39 | an element from `Element()` records itself in `_last_element` yet is linked from no parent |
| Nodes.NewNode | src/am_information_model/model/node.py:11-23 | a new node has the six named attributes, all `None` but the name; no key; no process field assigned; the world XY frame when none is given |
| Nodes.Data | src/am_information_model/model/node.py:35-42 | `data` holds the attributes, the key and the frame |
| Nodes.SetData | src/am_information_model/model/node.py:44-48 | the incoming attributes are merged over the held ones, keeping unmentioned ones; the key and frame are replaced |
| Nodes.FromData | src/am_information_model/model/node.py:44-48 | a node built from data holds the default names plus the incoming ones, with the incoming values |
| Nodes.Transform | src/am_information_model/model/node.py:148-149 | only the frame changes, to the transformed frame |
| Nodes.Transformed | src/am_information_model/model/node.py:151-154 | the copy has the transformed frame, the same key and fresh process fields |
| Nodes.SetDataKeepsDefaults | src/am_information_model/model/node.py:44-46 | setting data never drops an attribute |
| Nodes.SetDataWithoutAttributes | src/am_information_model/model/node.py:46-46 | `None` or empty incoming attributes leave the attributes as they were |
| Nodes.DataRoundTrip | src/am_information_model/model/node.py:35-48 | rebuilding a node from its data gives back the same data |
| Nodes.Copy | src/am_information_model/model/node.py:151-152 | a copy keeps every attribute, the key and the frame, adds the constructor's default attribute names, and has no process field assigned |
| Nodes.CopyForgetsProcess | src/am_information_model/model/node.py:151-152 | a copy has the original's data but no process field assigned |
| Nodes.TransformedKeepsData | src/am_information_model/model/node.py:151-154 | a transformed copy differs from the original only in its frame |
| ProcessParameters.Product | src/am_information_model/model/node.py:65-65 | `w * h` on the fields: AttributeError for an unassigned field, TypeError for `None`, otherwise the product |
| ProcessParameters.Divisor | src/am_information_model/model/node.py:70-70 | a divisor field: AttributeError, TypeError or ZeroDivisionError, otherwise its value |
| ProcessParameters.SetVelocity | src/am_information_model/model/node.py:60-72 | a given value is stored verbatim; `None` derives `((w*h*0.007*1000)/E*1000)/60`, which succeeds exactly when `w`, `h`, `E` are numbers and `E != 0` |
| ProcessParameters.SetExtrusion | src/am_information_model/model/node.py:85-95 | a given value is stored verbatim; `None` derives `(w*h*0.007*1000)/((v*1000)/60)`, which succeeds exactly when `w`, `h`, `v` are numbers and `v != 0` |
| ProcessParameters.ReadVelocity | src/am_information_model/model/node.py:50-58 | the getter returns the field; with width, height and rate set and velocity `None` it recurses without end |
| ProcessParameters.SetProfile | src/am_information_model/model/node.py:106-146 | both given: stored verbatim, no warning; one given: the other is `area / given`, stored even when out of bounds, with the warning flag exactly when out of bounds |
| ProcessParameters.AreaOfVelocity | src/am_information_model/model/node.py:112-115 | the area recovered from a derived velocity is `w * h` |
| ProcessParameters.ProfileInvertsVelocity | src/am_information_model/model/node.py:132-146 | after deriving the velocity from `(w, h, E)`, the profile from `w` gives back `h`, and from `h` gives back `w` |
| ProcessParameters.ExtrusionOfVelocity | src/am_information_model/model/node.py:90-95 | the extrusion formula fed the derived velocity yields `0.0036 * E`, not `E` |
| ProcessParameters.RederivedExtrusion | src/am_information_model/model/node.py:60-95 | deriving the velocity and then the rate replaces the rate `E` by `0.0036 * E` |
| Layers.NewLayer | src/am_information_model/model/layer.py:33-46 | a new layer holds the given node list and no trajectory |
| Layers.StartNode | src/am_information_model/model/layer.py:48-53 | the first node when `nodes` is truthy, else the text `"No nodes defined"` |
| Layers.EndNode | src/am_information_model/model/layer.py:55-60 | the last node when `nodes` is truthy, else the text `"No nodes defined"` |
| Layers.FramesOf | src/am_information_model/model/layer.py:65-65 | one frame per node, in order, each the node's frame |
| Layers.PathOf | src/am_information_model/model/layer.py:62-67 | the frames of the nodes, of the same length and order, when `nodes` is truthy; else the text |
| Layers.SetPath | src/am_information_model/model/layer.py:69-71 | the setter leaves the nodes and trajectory as they were |
| Layers.PathEndsAtEndpoints | src/am_information_model/model/layer.py:48-67 | the path runs from the start node's frame to the end node's frame |
| Layers.ReversedSwapsEndpoints | src/am_information_model/model/layer.py:48-60 | reversing the node list swaps start and end nodes |
| Layers.SetPathIsInvisible | src/am_information_model/model/layer.py:62-71 | setting `path` changes nothing the getter returns |
| Layers.NodeDataOf | src/am_information_model/model/layer.py:115-115 | the data of each node, in order |
| Layers.Data | src/am_information_model/model/layer.py:98-121 | succeeds exactly when the layer has nodes, else raises AttributeError; holds the node data, the trajectory exactly when it is a non-empty list (as it is), and the frames |
| Layers.NodesFromData | src/am_information_model/model/layer.py:126-126 | one node built from each data entry, in order |
| Layers.FromData | src/am_information_model/model/layer.py:123-130 | listed nodes become new node objects in order; the `path` entry goes to the setter; a trajectory entry raises AttributeError |
| Layers.DataRoundTrip | src/am_information_model/model/layer.py:74-130 | a layer with nodes holding the default attributes and no trajectory, or an empty one, reads back with the same data |
| Layers.TrajectoryBlocksRoundTrip | src/am_information_model/model/layer.py:116-128 | a layer with a non-empty trajectory does not read back |
| Layers.TransformRefs | src/am_information_model/model/layer.py:133-134 | a node listed `k` times is transformed `k` times; no other node, and nothing but frames, changes |
| Layers.Transform | src/am_information_model/model/layer.py:132-135 | raises TypeError exactly when `nodes` is `None`; otherwise transforms the listed nodes in place |
| Layers.TransformOnce | src/am_information_model/model/layer.py:132-135 | a node listed once is transformed once |
| Layers.TransformedPath | src/am_information_model/model/layer.py:132-135 | with distinct nodes, the path after `transform` is the old path with each frame transformed, same length and order |
| Layers.OccursOnce | src/am_information_model/model/layer.py:133-134 | in a list without repeats, each entry occurs once |
| Layers.Copy | src/am_information_model/model/layer.py:142-150 | the copy holds the same node list and no trajectory |
| Layers.CopyAliases | src/am_information_model/model/layer.py:142-150 | transforming the copy transforms exactly the original's nodes |
| Layers.Transformed | src/am_information_model/model/layer.py:137-140 | the copy's list is rebound to new nodes, each a transformed copy of the corresponding node; raises TypeError without a node list |
| Layers.TransformedLayerPath | src/am_information_model/model/layer.py:137-140 | the transformed layer's path is the old path with each frame transformed, and the original's path is unchanged |
| Utilities.Serialize | src/am_information_model/model/utilities.py:7-14 | `None` gives `None`; an object with `data` gives its data; one without raises AttributeError |
| Utilities.Split | src/am_information_model/model/utilities.py:19-19 | `split` gives one more piece than there are separators, none containing the separator |
| Utilities.Deserialize | src/am_information_model/model/utilities.py:17-25 | `None` or a missing `dtype` gives `None`; a `dtype` not splitting into two parts raises ValueError; otherwise the resolved class builds from the `data` entry alone |
| Utilities.SplitOfPair | src/am_information_model/model/utilities.py:19-19 | `module + "/" + name` splits back into module and name when neither contains `/` |
| Utilities.RoundTrip | src/am_information_model/model/utilities.py:7-25 | serialising, then wrapping in an envelope that names the class, deserialises to what the class's `from_data` rebuilds |
| NetworkSetup.InitialAttributes | src/am_information_model/model/model.py:50-54 | the graph is named by the default name (`"AMModel"` here, `"Assembly"` at lines 52-56 of the `AMIM` package's `model.py`) unless the caller's attributes give a name; all caller attributes are kept |
| NetworkSetup.NamedAttributesKept | src/am_information_model/model/model.py:51-54 | attributes that already carry a name are kept exactly, whatever the default name |
| NetworkSetup.BuiltinDefaults | src/am_information_model/model/model.py:56-59 | the built-in node defaults are the compas network's `x`, `y`, `z` at 0.0, which the update keeps, and `is_planned` and `is_placed`, both false |
| NetworkSetup.InitialDefaults | src/am_information_model/model/model.py:56-62 | `x`, `y`, `z` default to 0.0 and `is_planned`, `is_placed` to false unless the caller's defaults override them, and the caller's defaults are all kept; the `AMIM` constructor does the same (lines 58-64 of its `model.py`) |
| NetworkSetup.InitialNetwork | src/am_information_model/model/model.py:50-65 | a new network is valid and empty, with those attributes and node defaults and the caller's connection defaults; the same for `AMIM` (lines 52-67 of its `model.py`) |
| AMModels.LayerAttrs | src/am_information_model/model/model.py:147-147 | the stored attributes are the dictionary's plus the layer under `"layer"` |
| Substrate.AttrDict | src/am_information_model/model/model.py:146-146 | `attr_dict.update(kwattr)`: raises AttributeError exactly for an explicit `None`; otherwise the caller's dictionary, or the shared default one when none is passed, with the keyword attributes over it |
| AMModels.AddLayer | src/am_information_model/model/model.py:131-148 | an explicit `attr_dict=None` raises AttributeError, and nothing else fails; the layer is stored under the key or the next automatic key, merged over what the key held; no edge; the shared dictionary keeps the keyword attributes when no dictionary is passed |
| AMModels.AddLayerCounts | src/am_information_model/model/model.py:146-148 | adding under a new key adds exactly one layer and no connection |
| AMModels.SharedDefaultPersists | src/am_information_model/model/model.py:131-148 | keyword attributes of one call without a dictionary are stored with a later layer whose call passed none |
| AMModels.AutoAddIsAddLayer | src/am_information_model/model/model.py:146-148 | a key-less, dictionary-less addition appends the layer under the next automatic key |
| AMModels.LayerCount | src/am_information_model/model/model.py:81-90 | in a valid model `number_of_layers` is the number of distinct layer keys |
| AMModels.NumberOfConnections | src/am_information_model/model/model.py:92-101 | `number_of_connections` is 0 exactly when there are no edges |
| AMModels.AddLayers | src/am_information_model/model/model.py:67-69 | the constructor's loop takes one automatic key per layer and adds no edge; attributes and defaults are unchanged |
| AMModels.AddLayersValid | src/am_information_model/model/model.py:67-69 | the constructor's loop keeps the network valid |
| AMModels.AddLayersOrder | src/am_information_model/model/model.py:67-69 | the layers land under consecutive automatic keys in input order, with attributes and defaults unchanged |
| AMModels.StoredAt | src/am_information_model/model/model.py:67-69 | the `i`-th layer is stored under key `start + i` |
| AMModels.AddLayersNodes | src/am_information_model/model/model.py:67-69 | each layer is stored under its automatic key and earlier nodes are unchanged |
| AMModels.NewModel | src/am_information_model/model/model.py:44-69 | the constructor's network has the set-up attributes and node defaults, no connections, and automatic keys used up to `n - 1` for `n` layers |
| AMModels.NewModelShape | src/am_information_model/model/model.py:44-69 | the constructor sets up the network with the default name `"AMModel"` and holds the layers in order under keys 0, 1, ..., as many layers as given, and no connections |
| AMModels.LayerAt | src/am_information_model/model/model.py:236-236 | a node's layer: KeyError without the attribute, AttributeError when what is stored is not a layer, as the layer method calls that follow the lookup raise (lines 114, 183 and 205) |
| AMModels.LayerOf | src/am_information_model/model/model.py:208-213 | `layer(key)` gives the stored payload, and with `data` also the node's attributes; KeyError otherwise |
| AMModels.AddThenLayerOf | src/am_information_model/model/model.py:131-148 | after `add_layer`, `layer(key)` gives the added layer back, and every other key reads as before |
| AMModels.LayersOf | src/am_information_model/model/model.py:215-236 | the layers of the keys in order, succeeding exactly when every key has one |
| AMModels.TransformLayers | src/am_information_model/model/model.py:182-183 | transforming a list of layers succeeds exactly when every layer has a node list |
| AMModels.TransformKeys | src/am_information_model/model/model.py:182-183 | the key-by-key transform keeps the heap's size |
| AMModels.KeysAsLayers | src/am_information_model/model/model.py:182-183 | transforming key by key is transforming the list of the keys' layers, and fails exactly when a layer is missing or has no node list |
| AMModels.Transform | src/am_information_model/model/model.py:171-183 | `transform` succeeds exactly when every layer is there with a node list, and transforms the layers' nodes in order |
| AMModels.CopyAll | src/am_information_model/model/model.py:203-205 | one layer copy per layer, in order |
| AMModels.Copy | src/am_information_model/model/model.py:200-206 | `copy` fails exactly when some layer cannot be read |
| AMModels.NewModelLayers | src/am_information_model/model/model.py:67-69 | the layers of a new model read back, in order, are the layers it was built from |
| AMModels.StoredLayers | src/am_information_model/model/model.py:215-236 | layers stored under keys 0, 1, ... read back as those layers |
| AMModels.CopyShape | src/am_information_model/model/model.py:200-206 | the copy has as many layers and the same attributes as the original, no connections, and copies of its layers in order |
| AMModels.TransformCopies | src/am_information_model/model/model.py:196-197 | transforming copies of layers transforms the same nodes as transforming the layers |
| AMModels.Transformed | src/am_information_model/model/model.py:185-198 | `transformed` keeps the heap's size |
| AMModels.TransformedMutatesOriginal | src/am_information_model/model/model.py:185-198 | `transformed` leaves the node objects exactly as `transform` on the original would |
| AMModels.CopyTransformsAlike | src/am_information_model/model/model.py:196-197 | transforming a copy gives the same heap, or the same error, as transforming the original |
| AMModels.NodeRecords | src/am_information_model/model/model.py:111-114 | each node's record holds its attributes other than `layer` and the layer's data, and fails exactly when a layer cannot be serialised |
| AMModels.Data | src/am_information_model/model/model.py:103-117 | `data` keeps attributes, edges and keys, and replaces each `layer` by its data |
| AMIMs.NodeAttrs | src/additive_manufacturing_information_model/model/model.py:149-151 | the stored `x`, `y`, `z` are the frame's origin; the node is stored under `"node"`; the dictionary's other entries are kept |
| AMIMs.KeyNumber | src/additive_manufacturing_information_model/model/model.py:152-155 | `key == 0` and `key - 1` see an int as itself, a bool as 0 or 1, and a string as nothing |
| AMIMs.LinkFor | src/additive_manufacturing_information_model/model/model.py:152-155 | no edge for key 0, otherwise exactly the edge `(k-1, k)` |
| AMIMs.Link | src/additive_manufacturing_information_model/model/model.py:152-155 | raises TypeError exactly for a string key; otherwise adds the edge for the key and keeps the stored nodes |
| AMIMs.AddNode | src/additive_manufacturing_information_model/model/model.py:133-156 | raises AttributeError for an explicit `attr_dict=None`, otherwise TypeError exactly for a string key; stores the dictionary's attributes, the coordinates and the node under the key or the next automatic key; adds the edge from `k - 1` unless `k == 0` |
| AMIMs.SharedDefaultPersists | src/additive_manufacturing_information_model/model/model.py:133-148 | keyword attributes of one call without a dictionary are stored with a later node whose call passed none |
| AMIMs.Chain | src/additive_manufacturing_information_model/model/model.py:152-155 | the links of `n` consecutive keys join `i-1` to `i`, and number `n - 1` |
| AMIMs.InChain | src/additive_manufacturing_information_model/model/model.py:152-155 | every link `(i-1, i)` below `n` is in the chain |
| AMIMs.AutoAddIsAddNode | src/additive_manufacturing_information_model/model/model.py:69-71 | a key-less, dictionary-less addition appends the node under the next automatic key, linked from the key before |
| AMIMs.LinkAuto | src/additive_manufacturing_information_model/model/model.py:152-155 | linking the newest key adds only the edge from its predecessor |
| AMIMs.NodeCount | src/additive_manufacturing_information_model/model/model.py:82-91 | in a valid model `number_of_nodes` is the number of distinct node keys |
| AMIMs.NumberOfConnections | src/additive_manufacturing_information_model/model/model.py:93-102 | `number_of_connections` is 0 exactly when there are no edges |
| AMIMs.AddNodes | src/additive_manufacturing_information_model/model/model.py:69-71 | the constructor's loop takes one automatic key per node and only adds edges; attributes and defaults are unchanged |
| AMIMs.AddNodesValid | src/additive_manufacturing_information_model/model/model.py:69-71 | the constructor's loop keeps the network valid |
| AMIMs.AddNodesOrder | src/additive_manufacturing_information_model/model/model.py:69-71 | the nodes land under consecutive automatic keys, in input order |
| AMIMs.AutoAddEdges | src/additive_manufacturing_information_model/model/model.py:152-155 | an automatic addition extends a chain by one link |
| AMIMs.AddNodesEdges | src/additive_manufacturing_information_model/model/model.py:69-71 | automatic additions extend a chain to the last key |
| AMIMs.StoredAt | src/additive_manufacturing_information_model/model/model.py:69-71 | the `i`-th node is stored under key `start + i` |
| AMIMs.AddNodesStored | src/additive_manufacturing_information_model/model/model.py:69-71 | each node is stored under its automatic key and earlier nodes are unchanged |
| AMIMs.NewAMIM | src/additive_manufacturing_information_model/model/model.py:46-71 | the constructor's network has the set-up attributes and node defaults, and automatic keys used up to `n - 1` for `n` nodes |
| AMIMs.NewAMIMShape | src/additive_manufacturing_information_model/model/model.py:46-71 | `n` nodes given to the constructor sit under keys `0 .. n-1` in order, chained by `n - 1` connections, with the set-up attributes (default name `"Assembly"`) and defaults |
| AMIMs.Copy | src/additive_manufacturing_information_model/model/model.py:208-211 | `copy` raises NotImplementedError |
| AMIMs.Transformed | src/additive_manufacturing_information_model/model/model.py:193-206 | `transformed` raises NotImplementedError before anything is transformed |

## Left out

- Frame and transformation maths: frames are opaque values and a transformation is any function on them.
- The compas graph library: it is modelled by its observable behaviour, not its code or data layout.
  - Automatic keys are one past the largest integer key seen.
  - Edges add missing endpoints.
  - Re-adding a key merges attributes.
- The artist package: it draws in a user interface.
- `edge.py`: a wrapper over a geometry vector whose length is floating-point geometry.
- The `Node` class of the `additive_manufacturing_information_model` package: its methods read fields that are never initialised. The network model sees only its frame.
- `AMIM.transform`, `AMIM.data` and its setter, `clear`, `node`, `nodes`, `connections`, the `name` property and `add_edge`. None of them adds bookkeeping of its own: they are forwarded to the network, or, like `transform`, reachable only through `transformed`, which raises first.
- `AMModel.add_edge`, `clear`, `connections`, the `name` property and the `data` setter. They forward to the network, or rebuild it from a dictionary in the compas data layout, which is not modelled.
- `Element.get_path`: it passes `get_node` one argument too many, so it raises TypeError whatever it is given.
- `Path.transformed`: it is a compas `copy` followed by `transform`.
- The `Node` getters for `extrusion_rate` and `path_profile`, and the message printed by the velocity getter. The two getters follow the velocity getter's pattern: they return the stored fields or recurse. Only the velocity getter is modelled, because the profile setter reads it.
- The `path_profile` branch where neither dimension is given: `range` over floats raises. It is modelled as that error (TypeError), not as the search it was meant to be.
- Floating-point rounding: the process formulas are over `real`.
- `print` output: warnings are returned flags, and printing the object is not modelled.
- JSON file I/O and the dynamic `__import__` class lookup. The lookup is a function parameter of `Utilities.Deserialize`.
- State changes made before an exception: an operation that raises returns only the error. This includes the update of the shared dictionary before `AMIM.add_node` raises on a string key.
- Python's equality between `True` and `1` as dictionary keys: `DBool(true)` and `DInt(1)` are different keys here.
- How `str` renders a name that is not a string, an int or a bool: `PyText.Show` renders `None`, ints and bools as Python does.
- `Layers.Data`: the trajectory's serialised form is not modelled; the trajectory is passed through as its points.
- The `trajectory` getter and setter internals: a trajectory is a list of opaque points.
- `Layers.FromData`: reading back a `trajectory` entry always raises AttributeError. The entry is the list the getter writes, and the deserialiser calls `get` on it. An envelope dictionary in that entry is not modelled.
- Sharing of node objects between different paths or elements: a path owns its node values.
- Paths.Transform: a node object stored under two keys of one path is transformed twice by the source, once per key. The model holds node values, so it moves each key's node once.
- Layers.TransformRefs: node objects are shared through the heap, but frame objects are not. A node keeps the frame object it was given, so two nodes built on one frame share it, and the source transforms that frame once per holder. The model gives each node its own frame value.
- Layers.TransformOnce: for the same reason, a node listed once whose frame another listed node shares is moved more than once by the source. The model moves it once.
- Layers.TransformedPath: the requirement that the listed nodes be distinct does not rule out a shared frame, and shared frames are not modelled.
- Paths.AddZipped: the "value is overwritten" messages are not returned. `add_nodes` and each `add_node` it calls both print one for an explicit key already present. `Paths.AddNode` returns its flag for a single call.
- ExtendedGraphs.InfoOf: a child's name that is not a string is rendered through `str` in every use. The source uses the raw name as the `node_type` tag and as the node attribute key, and the minting prefix `obj.name + '_'` raises TypeError for it. The model is exact for string names, which every constructor of the package gives.
- ExtendedGraphs.GetId: `int()` also accepts Unicode decimal digits and surrounding Unicode whitespace. `PyText.ParseInt` accepts only ASCII digits, an optional sign and ASCII whitespace, so such keys fail to parse in the model.
- PyText.ParseInt: see the line above; the parser covers the ASCII literals that `create_key` produces. Python's `int()` also accepts single underscores between digits, which the parser rejects; `get_id` hands it only the text after the last underscore, so no such input reaches it.
- ProcessParameters.SetProfile: `path_profile` is a property setter, so plain assignment passes only `path_width`. The both-given and height-given branches are reachable only by calling the setter function (`fset`) directly. The model takes both arguments.
- `AMModels.Data`: the result is a record of attributes, defaults, node records and edges, not the nested compas dictionary with its `data` and `node` keys.
- Key-order and repr details of the compas `data` dictionary.
- AMModels.AddLayer: the caller's own `attr_dict` is not returned after the call. The source updates it with the keyword attributes, and compas `add_node` then writes `layer` into it when it is non-empty. A caller passing that dictionary again sees those entries, in the same model or in another one. For example, after one dictionary goes to `AMModel.add_layer` and then to `AMIM.add_node`, the AMIM record carries the `layer` entry. Only the shared default dictionary, used when no dictionary is passed, is carried from call to call.
- AMIMs.AddNode: the same holds for the `x`, `y`, `z` and `node` entries written into a caller's dictionary. Passed afterwards to `AMModel.add_layer`, that dictionary puts them into the layer record.
- `AMModels.Transformed`: its contract gives only the heap size. What it transforms is stated by `AMModels.TransformedMutatesOriginal`.
- `AMModels.Copy`: its contract states only when it succeeds. The shape of the copy is stated by `AMModels.CopyShape`.
