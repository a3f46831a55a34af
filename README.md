# onshape_mjcf core in Dafny

This project models the core of `onshape_mjcf`. That tool turns an Onshape assembly into a robot description for MuJoCo's MJCF format. The modelled pipeline runs as follows:

- It decodes the assembly document: instances, features, mate parameters, configuration strings and expressions.
- It reads the degrees of freedom (DOFs), closing equalities and sites out of the mate features (`buildDofs`).
- It groups the occurrences into rigid components, joined by fastened mates and mate groups (`findComponents`).
- It names each component after the common ancestor of its occurrences.
- It selects the occurrence subtrees that belong wholly to one component (`findStrictSubtrees`).
- It attaches DOFs, equalities and sites to components.
- It picks the root component by name.
- It orients the DOF graph as a breadth-first tree away from that root.
- It names the meshes of the parts.
- It combines rigid-body inertials: mass, centroid and inertia with the parallel-axis term.

Modelling conventions:

- Python exceptions (`KeyError`, `AssertionError`, `NotImplementedError`, explicit `raise`) become `Err(message)` of a `Result`.
- Numbers are `real`.
- Python dictionaries are an insertion-ordered `Dict` (a key sequence plus a map).
- Loops in the source become methods with loop invariants, proved against specification functions. Facts about those functions are proved as lemmas.

Modules, one file each:

- `Wrappers`, `Strings`, `Dicts`, `Linalg`, `Graphs`, `Components`, `Sorting`: supporting theory.
- `Ids`: instance paths and their ordering.
- `OnshapeData`, `OnshapeParams`, `OnshapeJson`: the document model.
- `Joint`, `Util`, `Topology`, `Dofs`, `Kinematics`, `Inertial`: the remaining core helpers.
- `RobotDescription`: `from_onshape`.

## Model

| member | source | states |
|---|---|---|
| Ids.Instance | onshape_mjcf/onshape_data/__init__.py:118-120 | Ok exactly when the path has elements; the value is the last element |
| Ids.Take | onshape_mjcf/onshape_data/__init__.py:124-128 | Python slice `elements[:n]`: the first n elements when n is within bounds, everything when n exceeds the length, and Python's negative-index meaning for negative n |
| Ids.At | onshape_mjcf/onshape_data/__init__.py:124-128 | `p[idx]` keeps the root and takes `elements[:idx+1]` |
| Ids.AtProperties | onshape_mjcf/onshape_data/__init__.py:118-128 | for 0 <= i < len, `p[i]` is a prefix of p of length i+1 whose instance is `elements[i]` |
| Ids.AtLast | onshape_mjcf/onshape_data/__init__.py:124-128 | indexing at len-1 or beyond gives the path itself |
| Ids.RefOrder | onshape_mjcf/onshape_data/__init__.py:50-51 | the `order=True` comparison on element references is a strict total order |
| Ids.PartRefOrder | onshape_mjcf/onshape_data/__init__.py:75-76 | the comparison on part references is a strict total order |
| Ids.PathOrder | onshape_mjcf/onshape_data/__init__.py:95-96 | the comparison on instance paths (root, then elements lexicographically) is a strict total order |
| Util.MatchGroup | onshape_mjcf/util/__init__.py:5-7 | Some exactly when the whole name is `[\w_. ]+<digits>`, and then it holds the part before the `<digits>` suffix |
| Util.FormatName | onshape_mjcf/util/__init__.py:4-8 | the result has no leading or trailing whitespace (as `str.isspace` counts it, U+001C to U+001F included), no upper-case letter and no space |
| Util.Normalise | onshape_mjcf/util/__init__.py:8 | the result has no leading or trailing whitespace (U+001C to U+001F included), no upper-case letter and no space |
| Util.NormaliseIdempotent | onshape_mjcf/util/__init__.py:8 | stripping, lower-casing and replacing spaces a second time changes nothing |
| Util.NormaliseSeparator | onshape_mjcf/util/__init__.py:8 | a leading U+001F is stripped: `"\x1fa"` normalises to `"a"` |
| Util.FormatNameSuffix | onshape_mjcf/util/__init__.py:5-8 | a name matching the pattern loses its `<digits>` suffix before normalisation |
| Util.FormatNameNoSuffix | onshape_mjcf/util/__init__.py:5-8 | a name not matching the pattern is only normalised |
| Util.FormatNameNotIdempotent | onshape_mjcf/util/__init__.py:4-8 | `formatName("A<1> ")` is `"a<1>"`, while `formatName("a<1>")` is `"a"` |
| Util.Error | onshape_mjcf/util/__init__.py:13-15 | always an error carrying the message |
| OnshapeData.InstancesOfMembers | onshape_mjcf/onshape_data/__init__.py:613-619 | the instance map holds exactly the ids of the instances of all assemblies |
| OnshapeData.InstancesOfLast | onshape_mjcf/onshape_data/__init__.py:613-619 | for an id shared by several assemblies, the later assembly's instance wins |
| OnshapeData.ArchetypeOf | onshape_mjcf/onshape_data/__init__.py:523-528 | a part instance finds its part and an assembly instance its assembly; Err when missing |
| OnshapeData.LookupId | onshape_mjcf/onshape_data/__init__.py:535-540 | Ok exactly when the id is a known instance with an archetype |
| OnshapeData.LookupPath | onshape_mjcf/onshape_data/__init__.py:542-556 | Ok exactly when the path (if absolute, a known occurrence) is non-empty, its instance is known and its archetype is found; states isAbsolute, the occurrence, the instance and the archetype |
| OnshapeData.CanonicalizePath | onshape_mjcf/onshape_data/__init__.py:481-486 | Ok exactly when the instance is an assembly instance, `path.root == instance.ref` and its occurrence exists; the result is the occurrence's root with the occurrence's elements then the path's elements |
| OnshapeData.CanonicalizePrefix | onshape_mjcf/onshape_data/__init__.py:481-486 | the occurrence path is a prefix of the canonical path, and the lengths add |
| OnshapeData.CSMatrixMapsFrame | onshape_mjcf/onshape_data/__init__.py:343-353 | the matrix maps (x, y, z) to x·xAxis + y·yAxis + z·zAxis + origin: axis columns, origin column, bottom row 0 0 0 1 |
| OnshapeData.ReadCSMatrix | onshape_mjcf/onshape_data/__init__.py:343-353 | fills a fresh 4×4 array entry by entry with that matrix |
| OnshapeParams.Decode | onshape_mjcf/onshape_data/__init__.py:456-466 | each known parameter type decodes to its value; an unknown type gives None |
| OnshapeParams.ParamsOfOk | onshape_mjcf/onshape_data/__init__.py:678-692 | a mate's parameters decode exactly when their ids are distinct, otherwise "duplicate parameter" |
| OnshapeParams.ParamsOfValues | onshape_mjcf/onshape_data/__init__.py:678-692 | each id maps to the decoding of its own entry |
| OnshapeParams.DecodeParameters | onshape_mjcf/onshape_data/__init__.py:678-692 | the loop computes exactly ParamsOf |
| OnshapeParams.MatesOfKeys | onshape_mjcf/onshape_data/__init__.py:664-700 | the keys are exactly the ids of the BTMMate features; other features are skipped |
| OnshapeParams.MatesOfLast | onshape_mjcf/onshape_data/__init__.py:664-700 | a repeated feature id keeps the later mate |
| OnshapeParams.MatesOfPrefixErr | onshape_mjcf/onshape_data/__init__.py:664-700 | once a prefix of the features fails, the whole fails |
| OnshapeParams.MateParameters | onshape_mjcf/onshape_data/__init__.py:664-700 | Ok exactly when every BTMMate has feature type "mate" and distinct parameter ids; computes MatesOf |
| OnshapeParams.ConfigOfKeys | onshape_mjcf/onshape_data/__init__.py:702-711 | a key is defined exactly when some `;`-piece splits on `=` into exactly two parts with that key |
| OnshapeParams.ConfigOfLast | onshape_mjcf/onshape_data/__init__.py:702-711 | the last piece defining a key gives its value |
| OnshapeParams.ConfigOfNoPlus | onshape_mjcf/onshape_data/__init__.py:702-711 | values have every `+` replaced by a space |
| OnshapeParams.ConfigurationParameters | onshape_mjcf/onshape_data/__init__.py:702-711 | the loop computes exactly ConfigOf |
| OnshapeParams.UnitValue | onshape_mjcf/onshape_data/__init__.py:720-737 | a unit word other than deg, rad, radian, mm, cm, m or in raises NotImplementedError; otherwise Err exactly when the number does not parse (except `(PI)` with rad/radian); `x deg` is x·π/180, `x rad`/`x radian` is x, `(PI) rad` is π, and `x mm`/`cm`/`m`/`in` is a length of magnitude x in that unit |
| OnshapeParams.ParseFloat | onshape_mjcf/onshape_data/__init__.py:727 | `float(s)` is Ok exactly when the parser gives a value, and then that value |
| OnshapeParams.ReadTwoWords | onshape_mjcf/onshape_data/__init__.py:713-737 | a plain `"<number> <unit>"` reads by dispatching on its second word |
| OnshapeParams.ReadExpression | onshape_mjcf/onshape_data/__init__.py:713-737 | an empty expression fails with IndexError; an expression without a leading `#` reads by its words; `#key` with no configured key fails with KeyError |
| OnshapeParams.ReadWords | onshape_mjcf/onshape_data/__init__.py:719-737 | text without a space has no second word and fails with IndexError |
| OnshapeParams.ReadDegrees | onshape_mjcf/onshape_data/__init__.py:721-722 | `x deg` reads as x·2π/360 |
| OnshapeParams.ReadPi | onshape_mjcf/onshape_data/__init__.py:723-725 | `(PI) rad` reads as π |
| OnshapeParams.ReadReference | onshape_mjcf/onshape_data/__init__.py:713-716 | for every key: `#key` fails with KeyError when the key is not configured; otherwise it reads the words of the configured value once (a value starting with `#` is not looked up again), except that the value `#` reads the empty key's value with a minus sign in front, or fails with KeyError when there is none; a configured plain expression reads exactly as that expression |
| OnshapeParams.ReadNoUnit | onshape_mjcf/onshape_data/__init__.py:720-721 | an expression without a space has no second word and fails (IndexError) |
| OnshapeParams.ReadValue | onshape_mjcf/onshape_data/__init__.py:395-460 | enum, boolean and unknown parameters cannot be read; a nullable quantity with a null value reads as None; a quantity reads exactly when its expression does, and then as Some of the expression's value |
| OnshapeJson.DecodeInstance | onshape_mjcf/onshape_data/__init__.py:291-299 | Part and Assembly instances decode; any other type is an error |
| OnshapeJson.DecodeFeature | onshape_mjcf/onshape_data/__init__.py:302-312 | mate, mate-group and mate-connector features decode; any other type is an error |
| OnshapeJson.CollectOk | onshape_mjcf/onshape_data/__init__.py:290-312 | the collection is Ok exactly when every record decodes |
| OnshapeJson.CollectKeys | onshape_mjcf/onshape_data/__init__.py:290-312 | its keys are exactly the records' ids |
| OnshapeJson.CollectLast | onshape_mjcf/onshape_data/__init__.py:290-312 | a repeated id keeps the later record |
| OnshapeJson.IndexByName | onshape_mjcf/onshape_data/__init__.py:314-317 | Ok exactly when instance names are unique; the name index inverts the instances' names |
| OnshapeJson.DecodeAll | onshape_mjcf/onshape_data/__init__.py:290-312 | the loop computes exactly Collect |
| OnshapeJson.AssemblyFromJson | onshape_mjcf/onshape_data/__init__.py:286-325 | Ok exactly when all instance and feature types are known and names are unique; the instances and features are the decoded records and the name index inverts them |
| OnshapeJson.WalkLengths | onshape_mjcf/onshape_data/__init__.py:595-609 | every name path has the length of the instance path it is paired with |
| OnshapeJson.NamePathLengths | onshape_mjcf/onshape_data/__init__.py:595-611 | the same for the whole traversal |
| OnshapeJson.FileFreshOk | onshape_mjcf/onshape_data/__init__.py:601-602 | filing a name path succeeds exactly when it is new |
| OnshapeJson.FileFreshKeys | onshape_mjcf/onshape_data/__init__.py:601-602 | filing adds exactly the new keys |
| OnshapeJson.FileFreshValues | onshape_mjcf/onshape_data/__init__.py:601-602 | each key maps to its own instance path |
| OnshapeJson.Traverse | onshape_mjcf/onshape_data/__init__.py:595-606 | the recursive traversal as a loop; computes Walk |
| OnshapeJson.TraverseAll | onshape_mjcf/onshape_data/__init__.py:605-609 | traverses every child in turn; computes WalkAll |
| OnshapeJson.OccurranceNamePaths | onshape_mjcf/onshape_data/__init__.py:591-611 | Ok exactly when the walk succeeds and name paths are unique; keys are the name paths in walk order, each mapped to its instance path of equal length |
| Joint.GetTPartMate | onshape_mjcf/onshape_data/joint.py:5-16 | the same layout as readCSMatrix: axis columns, origin translation, bottom row 0 0 0 1 |
| Joint.Param | onshape_mjcf/onshape_data/joint.py:19-20 | Ok exactly when the id is a parameter of the mate (KeyError otherwise), and then it is that parameter |
| Joint.ParamValue | onshape_mjcf/onshape_data/joint.py:20 | Ok exactly when the parameter is known, and then it is its value |
| Joint.ReadLimit | onshape_mjcf/onshape_data/joint.py:24-28 | a limit is the read value of its parameter |
| Joint.GetLimits | onshape_mjcf/onshape_data/joint.py:18-29 | None exactly when limitsEnabled is not true; otherwise (min, max) from the joint type's parameter ids |
| Joint.GetLimitsCases | onshape_mjcf/onshape_data/joint.py:18-29 | revolute reads limitAxialZMin/Max, prismatic reads limitZMin/Max, in that order; any other type with limits enabled fails (UnboundLocalError); a mates error propagates |
| Topology.FeatureEdges | onshape_mjcf/onshape_data/topology.py:16-31 | excluded features add nothing; only FASTENED mates add an edge, between their two occurrences; a mate group adds first-to-each-other edges |
| Topology.GroupEdgesValue | onshape_mjcf/onshape_data/topology.py:25-31 | the group edges join the first occurrence to each later one |
| Topology.SuppressedIgnored | onshape_mjcf/onshape_data/topology.py:16-31 | the edges do not depend on `suppressed` |
| Topology.NamesExcludeNothing | onshape_mjcf/onshape_data/topology.py:17 | the exclusion set holds DOF names (robot_description.py:225), which never equal feature ids, so nothing is excluded |
| Topology.FeaturesFromEdges | onshape_mjcf/onshape_data/topology.py:15-31 | Ok exactly when every feature's edges are; the result holds exactly the features' edges |
| Topology.AddEdges | onshape_mjcf/onshape_data/topology.py:15-31 | the loop adds exactly the rigid edges |
| Topology.AddGroupEdges | onshape_mjcf/onshape_data/topology.py:26-31 | the inner loop adds exactly the group edges |
| Topology.ComponentsIncomparable | onshape_mjcf/onshape_data/topology.py:45 | disjoint components never compare `<` as sets, so `sorted` keeps their order |
| Topology.GraphComponents | onshape_mjcf/onshape_data/topology.py:45 | the components partition the edge endpoints; two nodes share one exactly when connected |
| Topology.FindComponents | onshape_mjcf/onshape_data/topology.py:7-45 | Ok exactly when the edges can be built; non-empty, disjoint components covering the edge endpoints, connectivity-exact, in first-seen order |
| Topology.Scan | onshape_mjcf/onshape_data/topology.py:57-61 | the count drops to the first index where the paths disagree, and they agree before it |
| Topology.LowerCount | onshape_mjcf/onshape_data/topology.py:57-61 | the loop lowers the count to that agreement |
| Topology.CommonAncestorAgrees | onshape_mjcf/onshape_data/topology.py:54-66 | the result agrees with every path at every index both have |
| Topology.CommonAncestorCut | onshape_mjcf/onshape_data/topology.py:47-66 | the result has the shared root and is a prefix of the first path |
| Topology.CommonAncestorSingle | onshape_mjcf/onshape_data/topology.py:54-66 | for a single path the result is that path |
| Topology.CommonAncestorPrefixQuirk | onshape_mjcf/onshape_data/topology.py:57-66 | a later path that is a proper prefix of the first does not shorten the count, so the result can extend past it |
| Topology.FindCommonAncestor | onshape_mjcf/onshape_data/topology.py:47-66 | computes CommonAncestor: Err on empty input or mixed roots |
| Topology.PrefixTreeChildren | onshape_mjcf/onshape_data/topology.py:68-76 | every edge extends a node by one element, so every non-root node has exactly one parent |
| Topology.MakeOccurranceTree | onshape_mjcf/onshape_data/topology.py:68-76 | Ok exactly when some path is non-empty; a prefix tree whose nodes are exactly the prefixes of the paths |
| Topology.MarkCommon | onshape_mjcf/onshape_data/topology.py:79-89 | Ok exactly when sub's nodes are in super; a node is common exactly when its child sets agree |
| Topology.FindStrictSubtrees | onshape_mjcf/onshape_data/topology.py:78-101 | Ok exactly when sub's nodes are in super; computes StrictRoots |
| Topology.VisibleReached | onshape_mjcf/onshape_data/topology.py:95-99 | the breadth-first loop visits exactly the nodes below no selected root |
| Topology.StrictRootsAntichain | onshape_mjcf/onshape_data/topology.py:92-101 | every selected root is common, and none is a proper descendant of another |
| Topology.CommonBelowRoot | onshape_mjcf/onshape_data/topology.py:92-101 | every common node lies under some selected root |
| Topology.SelectedIffNoSelectedAncestor | onshape_mjcf/onshape_data/topology.py:92-101 | a common node is selected exactly when none of its proper ancestors is |
| Topology.LeavesCovered | onshape_mjcf/onshape_data/topology.py:78-101 | every common leaf lies under a selected root |
| Graphs.ConnectedSym | onshape_mjcf/onshape_data/topology.py:45 | connectivity is symmetric |
| Graphs.ConnectedTrans | onshape_mjcf/onshape_data/topology.py:45 | connectivity is transitive |
| Graphs.ConnectedAddEdge | onshape_mjcf/onshape_data/topology.py:45 | after adding an edge (a, b), x and y are connected exactly when they were, or each reaches a different end of (a, b) |
| Graphs.ClosedSetContainsConnected | onshape_mjcf/onshape_data/topology.py:45 | a node set closed under edges holds everything connected to its members |
| Components.Dedup | onshape_mjcf/onshape_data/topology.py:45 | holds exactly the members of the input |
| Components.Merge | onshape_mjcf/onshape_data/topology.py:45 | relabelling one class onto the other keeps the classes exactly the connectivity classes of the edges with (a, b) added, and keeps the keys |
| Components.Classify | onshape_mjcf/onshape_data/topology.py:45 | every node and edge endpoint gets a leader; leaders partition them exactly by connectivity; the forest flag holds exactly when no edge joins already connected ends |
| Components.ClassesFacts | onshape_mjcf/onshape_data/topology.py:45 | the classes are non-empty, disjoint and cover the nodes |
| Components.HeadsFirstSeen | onshape_mjcf/onshape_data/topology.py:45 | the classes come in the order their first node is seen |
| Components.ConnectedComponents | onshape_mjcf/robot_description.py:309-312 | the components of a graph, in first-seen order, each exactly a connectivity class |
| Kinematics.MergeArcsFacts | onshape_mjcf/robot_description.py:306 | the merged arcs are simple (one per unordered pair), join exactly the pairs some DOF joins, and carry the DOF found for that pair |
| Kinematics.NeighborsFacts | onshape_mjcf/robot_description.py:321 | each neighbour entry is an arc from u with its weight, and every arc from u is listed |
| Kinematics.BfsTree | onshape_mjcf/robot_description.py:321 | the breadth-first edges reach every connected node once, pointing away from the root |
| Kinematics.SearchedOutward | onshape_mjcf/robot_description.py:321 | each edge starts at the root or at the target of an earlier edge |
| Kinematics.GroupByParent | onshape_mjcf/robot_description.py:322-324 | a key for every component, each holding exactly that parent's edges in tree order |
| Kinematics.Census | onshape_mjcf/robot_description.py:309-318 | reports exactly whether the DOF graph is a forest and whether every component is connected to the root |
| Kinematics.TreeSize | onshape_mjcf/robot_description.py:321 | a spanning tree of n nodes has n-1 edges |
| Kinematics.KinematicTree | onshape_mjcf/robot_description.py:303-324 | Ok exactly when the merged DOF graph is a forest and connected; Err(cycle) exactly when not a forest; edges weighted, outward, with distinct targets, n-1 of them, grouped by parent |
| Sorting.Sort | onshape_mjcf/robot_description.py:248 | sorted and a permutation of the input |
| Strings.JoinSplit | onshape_mjcf/robot_description.py:93-98 | joining the `_`-split pieces gives back the string |
| Dofs.DofNameInverted | onshape_mjcf/robot_description.py:92-98 | `dof_X_inv` and `dof_X_inverted` both name X (the `inverted` flag set at lines 94-96 is never read afterwards, so nothing else follows from it) |
| Dofs.DofNamePlain | onshape_mjcf/robot_description.py:92-98 | `dof_X` with no inversion segment names X |
| Dofs.JointType | onshape_mjcf/robot_description.py:108-123 | REVOLUTE/CYLINDRICAL give continuous exactly when a segment is wheel or continuous, else revolute; SLIDER gives prismatic; FASTENED gives fixed; others raise |
| Dofs.Classify | onshape_mjcf/robot_description.py:52-153 | sites from `site_` connectors, equalities from `closing_` mates (tested before `dof_`), DOFs from `dof_` mates; suppressed features are skipped; a mate succeeds exactly when it has two entities and a known first occurrence and, for a `dof_` mate that is not `closing_`, a new non-empty name, a known joint type and readable limits |
| Dofs.BuildDofsSound | onshape_mjcf/robot_description.py:92-150 | every DOF comes from a `dof_` mate with two entities: child the first occurrence, parent the second, unique non-empty name |
| Dofs.BuildDofs | onshape_mjcf/robot_description.py:44-155 | the loop computes exactly BuildDofsSpec |
| Inertial.Normalize | onshape_mjcf/util/inertial.py:11-12 | keeps the mass |
| Inertial.NormalizeIdempotent | onshape_mjcf/util/inertial.py:11-28 | normalizing a plain inertial returns it unchanged |
| Inertial.NormalizeIdentity | onshape_mjcf/util/inertial.py:18-28 | the identity transform changes nothing |
| Inertial.NormalizeTranslation | onshape_mjcf/util/inertial.py:18-28 | a pure translation shifts the centroid and keeps the inertia |
| Inertial.NormalizeSymmetric | onshape_mjcf/util/inertial.py:18-28 | R·I·Rᵀ is symmetric when I is |
| Inertial.NormalizeHalfTurn | onshape_mjcf/util/inertial.py:18-28 | diag(-1,-1,1) negates the centroid's x and y and keeps a diagonal inertia |
| Inertial.Combine | onshape_mjcf/util/inertial.py:31-34 | fails exactly on empty input (the mass, centroid and inertia are stated by the lemmas below) |
| Inertial.CombineMassAndCentroid | onshape_mjcf/util/inertial.py:37-38 | mass Σmᵢ and moment Σmᵢcᵢ = mass·centroid |
| Inertial.CombinePermutation | onshape_mjcf/util/inertial.py:31-52 | the result does not depend on the order of the samples |
| Inertial.CombineSymmetric | onshape_mjcf/util/inertial.py:40-46 | symmetric inputs give a symmetric inertia |
| Inertial.CombineSingle | onshape_mjcf/util/inertial.py:31-52 | one sample reproduces its mass, centroid and inertia |
| Inertial.CombineOppositePair | onshape_mjcf/util/inertial.py:31-52 | two equal masses at opposite offsets give centroid 0 and the parallel-axis inertia |
| Inertial.CombineNormalized | onshape_mjcf/util/inertial.py:31-52 | combining normalizes each sample first |
| Inertial.CombineDiagonal | onshape_mjcf/util/test_inertial.py:46-62 | two mass-4 samples give mass 8, centroid 0 and the shifted inertia |
| Inertial.CombineOnAxis | onshape_mjcf/util/test_inertial.py:28-44 | two samples on one axis give the shifted inertia |
| Inertial.CombineSingleCase | onshape_mjcf/util/test_inertial.py:4-14 | the single-sample test input gives back its values |
| Inertial.CombineTranslationCase | onshape_mjcf/util/test_inertial.py:16-26 | the translation test input shifts the centroid, inertia unchanged |
| Inertial.CombineOnAxisCase | onshape_mjcf/util/test_inertial.py:28-44 | the on-axis test input gives its expected mass, centroid and inertia |
| Inertial.CombineDiagonalCase | onshape_mjcf/util/test_inertial.py:46-62 | mass 8, centroid 0, inertia [[18,-8,-8],[-8,18,-8],[-8,-8,18]] |
| Inertial.CombineRotationCase | onshape_mjcf/util/test_inertial.py:64-73 | diag(-1,-1,1) maps centroid (1,2,3) to (-1,-2,3), inertia unchanged |
| Inertial.CombineInertials | onshape_mjcf/util/inertial.py:31-52 | the summing loops compute exactly Combine |
| RobotDescription.IndexComponents | onshape_mjcf/robot_description.py:266-269 | every path of component idx maps to idx |
| RobotDescription.AssignDofs | onshape_mjcf/robot_description.py:271-276 | Ok exactly when no DOF joins one component to itself; child and parent components are those of its occurrences |
| RobotDescription.AssignEqualities | onshape_mjcf/robot_description.py:278-283 | each equality gets its components; the check uses the last DOF left over from the previous loop |
| RobotDescription.StaleDofSeparate | onshape_mjcf/robot_description.py:278-283 | with no DOFs and some equality, the stale check fails |
| RobotDescription.AssignSites | onshape_mjcf/robot_description.py:285-291 | each site lands on the component holding its occurrence, in order |
| RobotDescription.AssignedSites | onshape_mjcf/robot_description.py:286-288 | the sites in order, each with the component the index gives its occurrence |
| RobotDescription.LocatedSites | onshape_mjcf/robot_description.py:286-288 | the sites in order, each otherwise unchanged, with the component holding its occurrence filled in |
| RobotDescription.AssignedLocated | onshape_mjcf/robot_description.py:265-288 | over disjoint components the index assigns every site the component holding its occurrence |
| RobotDescription.FindRoot | onshape_mjcf/robot_description.py:293-301 | Ok exactly when exactly one component's originalName is rootName; zero or several matches raise |
| RobotDescription.RootOf | onshape_mjcf/robot_description.py:293-301 | the same as a step of the pipeline |
| Meshes.NameMeshes | onshape_mjcf/robot_description.py:326-349 | the mesh-naming loop as written over a listing of distinct references: Ok exactly when the counters as written (`WrittenCounters`) get through the formatted names, failing with KeyError only when two names format alike; on success each part keeps its reference, instance name and digest, and the mesh names in listing order are exactly `WrittenNames`: a new formatted name is kept, a repeated one is suffixed with the counter it has at that point, and then the counter of the suffixed name is bumped |
| Meshes.NameNext | onshape_mjcf/robot_description.py:336-342 | one pass of the loop body: Ok exactly when the counter update as written (`CountNext`) exists, then the name is `WrittenName` and the counters are the updated ones; it fails (KeyError) only on a formatted name met before, and with no lookalike names on every such name |
| Meshes.CountStep | onshape_mjcf/robot_description.py:336-342 | a step that gets through names the part as `NameFor` says and keeps the counters keyed by the names met; a failing step is on a name met before; with no lookalike names every repeated name fails |
| Meshes.WrittenCounted | onshape_mjcf/robot_description.py:328-342 | the counters as written, while the loop gets through, are keyed by exactly the formatted names met, each at least one |
| Meshes.WrittenNaming | onshape_mjcf/robot_description.py:330-342 | the names as written are each as `NameFor` says, are exactly the formatted names met, and repeat exactly when the formatted names repeat; with no lookalike names the formatted names do not repeat |
| Meshes.WrittenMeshes | onshape_mjcf/robot_description.py:330-349 | the meshes built from the names as written satisfy `NamedAsWritten` |
| Meshes.MeshesForMeshed | onshape_mjcf/robot_description.py:344-349 | the meshes built from a list of names hold one mesh per named part, keyed by its reference, with its instance name, digest and the listed name |
| Meshes.LookalikeCounter | onshape_mjcf/robot_description.py:337-340 | parts formatted `a_1`, `a_2`, `a`, `a` are named `a_1`, `a_2`, `a`, `a_1`: the counter in force, not any earlier suffixed name, picks the suffix |
| Meshes.FailureStays | onshape_mjcf/robot_description.py:330-342 | once a step fails the loop does not get through |
| Meshes.ClashMet | onshape_mjcf/robot_description.py:336-340 | a part whose formatted name was met before clashes with an earlier part |
| Meshes.SortedParts | onshape_mjcf/robot_description.py:327 | strictly increasing part references listing exactly the recorded parts, each with its recorded instance's name |
| Meshes.Enumerate | onshape_mjcf/robot_description.py:327 | lists a set's members once each |
| Meshes.ListingUnique | onshape_mjcf/robot_description.py:327 | the recorded references have exactly one increasing listing, so the sort fixes the order the loop sees |
| Meshes.NameableOutcome | onshape_mjcf/robot_description.py:327-349 | whether the loop gets through the increasing listing decides whether it gets through the recorded references |
| Meshes.KeptClash | onshape_mjcf/robot_description.py:336-349 | over meshes that keep the recorded names, formatted names are unique exactly when no two references clash |
| Meshes.MakeMeshes | onshape_mjcf/robot_description.py:326-349 | as written: Ok exactly when the loop gets through the recorded references in increasing order; Err (a KeyError) on two references whose names format alike when no formatted name looks like another suffixed, and Err only when two references clash; on success every mesh keeps ref, original name and digest, the mesh names in increasing reference order are exactly `WrittenNames` of the formatted names, names are unique exactly when formatted names are, and with no clash each mesh is its formatted name |
| Meshes.TwinPartsClash | onshape_mjcf/robot_description.py:337-340 | two parts of one name clash as written (their formatted names repeat and neither looks like the other suffixed), while the intended naming gives `a`, `a_1` |
| Meshes.NameMeshesFixed | onshape_mjcf/robot_description.py:326-349 | the corrected loop keeps every part's fields and computes IntendedNames |
| Meshes.FixedDone | onshape_mjcf/robot_description.py:326-349 | after the last part, the corrected loop's state gives the meshes and the intended names |
| Meshes.IntendedDistinct | onshape_mjcf/robot_description.py:326-349 | when no formatted name looks like another one suffixed, all intended names differ |
| Meshes.IntendedKept | onshape_mjcf/robot_description.py:326-349 | when formatted names are distinct, the intended naming keeps them unchanged |
| Meshes.IntendedApart | onshape_mjcf/robot_description.py:326-349 | two parts with the same formatted name get different names |
| Meshes.FixedApart | onshape_mjcf/robot_description.py:326-349 | the corrected meshes keep formatted names apart |
| Meshes.FixedUnique | onshape_mjcf/robot_description.py:326-349 | the corrected mesh names are unique |
| Meshes.FixedKept | onshape_mjcf/robot_description.py:326-349 | each corrected mesh keeps its ref, original name and digest |
| Meshes.MakeMeshesFixed | onshape_mjcf/robot_description.py:326-349 | never fails; keeps every part's fields and names meshes apart |
| RobotDescription.CollectParts | onshape_mjcf/robot_description.py:241-247 | Ok exactly when every part occurrence looks up; the part uses of the component |
| RobotDescription.PlaceParts | onshape_mjcf/robot_description.py:248-252 | sorted parts permuting the uses, their prefix tree, and the strict subtrees |
| RobotDescription.DescribeComponent | onshape_mjcf/robot_description.py:236-263 | Ok exactly when naming, collecting and placing succeed; name from the common ancestor, sorted parts, part tree and root instances |
| RobotDescription.DescribeNext | onshape_mjcf/robot_description.py:236-263 | one component more, described as above, with the part instances met in the listed order |
| RobotDescription.DescribeAndRecord | onshape_mjcf/robot_description.py:236-263 | one pass of the loop: Ok exactly when the next component, listed in the given order, can be described; it is then described and numbered, its part instances are written over the recorded references in that order, and every record is a part instance of some component |
| RobotDescription.DescribeComponents | onshape_mjcf/robot_description.py:234-263 | Ok exactly when every component, listed in the order set iteration gives, can be described; then every component is described and indexed in order, the recorded references are exactly those of the components' part instances, and each holds the last instance of its part met in that order |
| RobotDescription.RecordUses | onshape_mjcf/robot_description.py:247 | the references become exactly the earlier ones plus those of the uses; the last use of a reference wins, a reference no use names keeps its record, and each record is a real use of that part |
| RobotDescription.OverwrittenAppend | onshape_mjcf/robot_description.py:242-247 | writing two lists of uses one after the other is writing their concatenation, so the last use of the whole wins |
| RobotDescription.RefsOfParts | onshape_mjcf/robot_description.py:242-247 | when every part instance is recorded and every record is a part instance, the recorded references are exactly the components' part references |
| RobotDescription.InstanceTree | onshape_mjcf/robot_description.py:228-231 | maps each tree node, rooted, to its rooted children |
| RobotDescription.InstanceTreeChildren | onshape_mjcf/robot_description.py:228-231 | the children are exactly the one-element extensions |
| RobotDescription.PlaceDofs | onshape_mjcf/robot_description.py:271-283 | Ok exactly when every DOF joins two components, every equality's occurrences are in components and, by the stale check, equalities come only with some DOF; a self-loop gives its error; DOFs and equalities placed |
| RobotDescription.PlaceSites | onshape_mjcf/robot_description.py:285-291 | Ok exactly when every site's occurrence is in the index; components otherwise unchanged; each component's site list is exactly the sites assigned to it, in the order they were found, each with its component filled in |
| RobotDescription.Attach | onshape_mjcf/robot_description.py:265-291 | Ok exactly when the DOFs are attachable; a self-loop is Err; DOFs, equalities and sites placed, components otherwise unchanged; over disjoint components every component lists exactly the sites whose occurrences it holds, in the order found (`SitesGrouped`) |
| RobotDescription.Orient | onshape_mjcf/robot_description.py:293-324 | each error (no root, several roots, cycle, disconnected) exactly in its case; Ok exactly when a unique root spans a DOF tree |
| RobotDescription.Decompose | onshape_mjcf/robot_description.py:224-263 | Ok exactly when FirstHalf holds (buildDofs and the rigid-mate graph succeed, some occurrence path is non-empty, and every component can be described); then DOFs from buildDofs, components from findComponents, in the order the rigid-mate edges first reach them, named and indexed, the recorded references exactly those of the components' part instances, each with its last instance in iteration order, and the instance tree of the occurrences |
| RobotDescription.FirstHalfAt | onshape_mjcf/robot_description.py:224-263 | once the DOFs, components and occurrence tree are found, the first half gets through exactly when every listed component can be described |
| RobotDescription.ListedDescribable | onshape_mjcf/robot_description.py:236-263 | when the component of every graph node can be described, so can every listed component |
| RobotDescription.EveryNodeDescribable | onshape_mjcf/robot_description.py:236-263 | when every listed component can be described, so can the component of every graph node, against any tree of the occurrence paths |
| RobotDescription.DescribableElsewhere | onshape_mjcf/robot_description.py:226-263 | whether a component can be described depends on the occurrence tree only through its nodes |
| Topology.ComponentsAreClasses | onshape_mjcf/onshape_data/topology.py:45 | each listed component is the connected component of any of its members |
| RobotDescription.Complete | onshape_mjcf/robot_description.py:326-358 | the meshes are named as written: Ok exactly when the naming gets through, Err (a KeyError) on a clash without lookalikes, and on success the description gains meshes keyed by exactly the recorded references, each keeping the recorded instance's name and the reference's digest, and named as `WrittenNames` names the references in increasing order |
| RobotDescription.Assemble | onshape_mjcf/robot_description.py:265-358 | Ok exactly when the later stages can succeed, the mesh naming as written included; fails with the source's error in each case (self-loop, no root, several roots, cycle, the mesh-name KeyError); rooted, spanning, meshes for every part, keyed by exactly the recorded references and named after the recorded instances with mesh names as `WrittenNames` gives them; over disjoint components each component lists exactly the sites of its occurrences, in the order found |
| RobotDescription.FromOnshape | onshape_mjcf/robot_description.py:222-358 | the whole pipeline: the first half gets through exactly when FirstHalf holds (and otherwise the result is Err); then it assembles exactly when Assembles holds, fails as FailsAs says, the meshes are keyed by the recorded references and carry the recorded instances' names, and the result describes the document (Describes: meshes keyed by exactly the components' part references, each named after one of that part's instances, with mesh names as `WrittenNames` gives them; components in first-seen order; each component listing exactly the sites of its occurrences) |
| RobotDescription.MeshesFromRecorded | onshape_mjcf/robot_description.py:326-358 | meshes kept from the recorded uses are keyed by the components' part references and each carries the name of one of its part's instances |

## Left out

- Set iteration order: the order in which iterating a component's occurrence set yields its paths is the parameter `iterate`, which lists each set's members once each in an order the model leaves open. findCommonAncestor and the `allPartRefs` overwrite (robot_description.py:242-247) depend on that order, so the model proves only what holds for every such order.
- Floating point: numbers are `real`, so rounding is not modelled and `np.allclose` becomes equality.
- Combine and CombineInertials: both require a non-zero total mass. There the source divides by zero and returns nan/inf without raising.
- Normalize: its own contract states only that the mass is kept. The lemmas beside it state the result for the identity transform, for a pure translation, and for the half turn diag(-1,-1,1) on one concrete inertial; they also state that a symmetric inertia stays symmetric and that normalizing twice is normalizing once. The general R·c+t and R·I·Rᵀ mapping is the definition itself and is not restated as a contract.
- formatName works on ASCII only: `\w`, `strip`, `lower` and the case test ignore non-ASCII Unicode.
- The SHA-1 digest of the part key is the `digest` parameter.
- Parsing JSON text into records, and the REST client that fetches it, are not part of this model. The model starts from decoded records.
- `float()` parsing is the `parse` parameter.
- Exceptions are `Err` strings. The exception classes and tracebacks are not distinguished.
- The diagnostic prints at robot_description.py:313-317 are left out, because they are output only.
- The `instanceTree` children form a set, not the successor insertion order of the source list. `rootInstances` is also a set.
- The unreachable code after `return` at inertial.py:55-75 is left out.
- Out of scope: the Onshape API client, the MJCF builder and template, XML emission, mesh export, `to_mjcf_basic`, onshape_data/inertial.py, primitive_geom.py and the command-line entry point.
- pint quantities are kept as `Length(magnitude, unit)` with no unit conversion.
- Walk: recursion is bounded by fuel equal to the number of assemblies. An assembly that contains itself yields Err("RecursionError") rather than Python's stack overflow.
- The `link_` connector branch at robot_description.py:69-71 does nothing, so it is modelled as producing nothing.

## Findings

| source | as written | input that shows it | evidently intended | confidence | as-written member | corrected member |
|---|---|---|---|---|---|---|
| onshape_mjcf/robot_description.py:337-340 | on a repeated name, `partNameCounters[uniqueName] += 1` increments the counter of the already suffixed name | two part references whose instances are both named `a`: the second looks up `partNameCounters["a_1"]`, which was never set, and raises KeyError | increment the counter of the base name, giving `a` then `a_1` | not executed | Meshes.TwinPartsClash | Meshes.MakeMeshesFixed |

