/** `RobotDescription.from_onshape` (`onshape_mjcf/robot_description.py`):
    the rigid components become numbered robot components, every DOF,
    equality constraint and site is tied to the components of its
    occurrences, a uniquely named root is chosen, the component graph is
    checked and turned into a tree of parent-to-child edges, and every part
    gets a mesh name. */
module RobotDescription {
  import opened Wrappers
  import opened Dicts
  import opened Ids
  import opened Strings
  import opened OnshapeData
  import opened Topology
  import opened Dofs
  import opened Kinematics
  import opened Util
  import opened Sorting
  import opened Meshes
  import Graphs
  import Components

  // ---- pathToComponentIdx ----

  /** The components are pairwise disjoint. */
  predicate Disjoint(comps: seq<set<InstancePath>>) {
    forall i, j :: 0 <= i < j < |comps| ==> comps[i] !! comps[j]
  }

  /** `pathToComponentIdx`: every path of component `idx` is mapped to `idx`,
      component by component, so a path in several components keeps the
      last. For disjoint components each path maps to its own component. */
  method IndexComponents(comps: seq<set<InstancePath>>) returns (index: map<InstancePath, nat>)
    ensures forall x :: x in index <==> exists i :: 0 <= i < |comps| && x in comps[i]
    ensures forall x :: x in index ==> index[x] < |comps| && x in comps[index[x]]
    ensures forall x, j :: x in index && index[x] < j < |comps| ==> x !in comps[j]
    ensures Disjoint(comps) ==> forall i, x :: 0 <= i < |comps| && x in comps[i] ==> x in index && index[x] == i
  {
    index := map[];
    for idx := 0 to |comps|
      invariant forall x :: x in index <==> exists i :: 0 <= i < idx && x in comps[i]
      invariant forall x :: x in index ==> index[x] < idx && x in comps[index[x]]
      invariant forall x, j :: x in index && index[x] < j < idx ==> x !in comps[j]
    {
      var todo := comps[idx];
      while todo != {}
        invariant todo <= comps[idx]
        invariant forall x :: x in index <==> (exists i :: 0 <= i < idx && x in comps[i]) || x in comps[idx] - todo
        invariant forall x :: x in index ==> index[x] <= idx && x in comps[index[x]]
        invariant forall x :: x in comps[idx] - todo ==> index[x] == idx
        invariant forall x, j :: x in index && index[x] < j < idx ==> x !in comps[j]
        invariant forall x :: x in index && index[x] < idx ==> x !in comps[idx] - todo
        decreases |todo|
      {
        var item :| item in todo;
        index := index[item := idx];
        todo := todo - {item};
      }
    }
    if Disjoint(comps) {
      forall i, x | 0 <= i < |comps| && x in comps[i]
        ensures x in index && index[x] == i
      {
        var k := index[x];
        if k < i {
          assert false;
        }
        if i < k {
          assert false;
        }
      }
    }
  }

  // ---- DOFs and equality constraints ----

  /** Both occurrences of `d` have a component. */
  predicate Mapped(index: map<InstancePath, nat>, d: RobotDof) {
    d.child in index && d.parent in index
  }

  /** `d` joins two different components. */
  predicate Separate(index: map<InstancePath, nat>, d: RobotDof) {
    Mapped(index, d) && index[d.child] != index[d.parent]
  }

  /** `d` with its components filled in. */
  function WithComps(index: map<InstancePath, nat>, d: RobotDof): (e: RobotDof)
    requires Mapped(index, d)
    ensures e.childComp == Some(index[d.child]) && e.parentComp == Some(index[d.parent])
    ensures e.(childComp := d.childComp, parentComp := d.parentComp) == d
  {
    d.(childComp := Some(index[d.child]), parentComp := Some(index[d.parent]))
  }

  const SelfLoop := "DOF needs to be between two separate components, was to itself"

  /** The loop over `dofs.values()`: fill in both components of each DOF in
      key order, failing on a path that has no component and on a DOF whose
      two components are the same. */
  method AssignDofs(dofs: Dict<string, RobotDof>, index: map<InstancePath, nat>) returns (r: Result<Dict<string, RobotDof>>)
    requires dofs.Valid()
    ensures r.Ok? <==> forall k :: k in dofs.m ==> Separate(index, dofs.m[k])
    ensures r.Ok? ==> r.value.Valid() && r.value.keys == dofs.keys && r.value.m.Keys == dofs.m.Keys
    ensures r.Ok? ==> forall k :: k in dofs.m ==> r.value.m[k] == WithComps(index, dofs.m[k])
    ensures r.Err? && (forall k :: k in dofs.m ==> Mapped(index, dofs.m[k])) ==> r.msg == SelfLoop
    ensures r.Err? && (forall k :: k in dofs.m && Mapped(index, dofs.m[k]) ==> Separate(index, dofs.m[k])) ==> r.msg == "KeyError: path"
  {
    var d := dofs;
    for i := 0 to |dofs.keys|
      invariant FilledUpTo(dofs, index, d, i)
    {
      var k := dofs.keys[i];
      var dof := d.m[k];
      if dof.child !in index || dof.parent !in index {
        return Err("KeyError: path");
      }
      if index[dof.child] == index[dof.parent] {
        return Err(SelfLoop);
      }
      FilledNext(dofs, index, d, i);
      d := d.Put(k, WithComps(index, dof));
    }
    FilledAll(dofs, index, d);
    return Ok(d);
  }

  /** The first `i` DOFs in key order are separate and have their components
      filled in; the others are as they were. */
  ghost predicate FilledUpTo(dofs: Dict<string, RobotDof>, index: map<InstancePath, nat>, d: Dict<string, RobotDof>, i: nat)
    requires dofs.Valid()
  {
    && i <= |dofs.keys| && d.keys == dofs.keys && d.m.Keys == dofs.m.Keys
    && (forall j :: 0 <= j < i ==> Separate(index, dofs.m[dofs.keys[j]]) && d.m[dofs.keys[j]] == WithComps(index, dofs.m[dofs.keys[j]]))
    && (forall j :: i <= j < |dofs.keys| ==> d.m[dofs.keys[j]] == dofs.m[dofs.keys[j]])
  }

  /** Filling in the next DOF, when it is separate, fills one more. */
  lemma FilledNext(dofs: Dict<string, RobotDof>, index: map<InstancePath, nat>, d: Dict<string, RobotDof>, i: nat)
    requires dofs.Valid() && FilledUpTo(dofs, index, d, i) && i < |dofs.keys|
    requires Separate(index, d.m[dofs.keys[i]])
    ensures FilledUpTo(dofs, index, d.Put(dofs.keys[i], WithComps(index, d.m[dofs.keys[i]])), i + 1)
  {
    var k := dofs.keys[i];
    var d' := d.Put(k, WithComps(index, d.m[k]));
    forall j | 0 <= j < |dofs.keys| && j != i
      ensures d'.m[dofs.keys[j]] == d.m[dofs.keys[j]]
    {
      assert dofs.keys[j] != k;
    }
  }

  /** With every DOF filled in, the result is `dofs` with every DOF's
      components filled in. */
  lemma FilledAll(dofs: Dict<string, RobotDof>, index: map<InstancePath, nat>, d: Dict<string, RobotDof>)
    requires dofs.Valid() && FilledUpTo(dofs, index, d, |dofs.keys|)
    ensures d.Valid() && d.keys == dofs.keys && d.m.Keys == dofs.m.Keys
    ensures forall k :: k in dofs.m ==> Separate(index, dofs.m[k]) && d.m[k] == WithComps(index, dofs.m[k])
  {
    forall k | k in dofs.m
      ensures Separate(index, dofs.m[k]) && d.m[k] == WithComps(index, dofs.m[k])
    {
      var j :| 0 <= j < |dofs.keys| && dofs.keys[j] == k;
    }
  }

  /** The DOF the loop over `dofs.values()` ends on, which the equality loop
      reads again; none when there are no DOFs. */
  function LastDof(dofs: Dict<string, RobotDof>): (d: Option<RobotDof>)
    requires dofs.Valid()
    ensures d.Some? <==> |dofs.keys| > 0
    ensures d.Some? ==> d.value in dofs.m.Values
  {
    if |dofs.keys| == 0 then None else Some(dofs.m[dofs.keys[|dofs.keys| - 1]])
  }

  /** The loop over the equality constraints: fill in both components of
      each, failing on a path that has no component. The self-loop test looks
      at the DOF `stale` left over from the loop before, not at the
      constraint, so it raises an unbound-name error when there are no DOFs
      and otherwise never fails. */
  method AssignEqualities(eqs: seq<EqualityConstraint>, index: map<InstancePath, nat>, stale: Option<RobotDof>)
    returns (r: Result<seq<EqualityConstraint>>)
    ensures r.Ok? <==>
      && (forall i :: 0 <= i < |eqs| ==> eqs[i].left in index && eqs[i].right in index)
      && (|eqs| > 0 ==> stale.Some? && stale.value.childComp != stale.value.parentComp)
    ensures r.Ok? ==> |r.value| == |eqs| && forall i :: 0 <= i < |eqs| ==>
      r.value[i] == eqs[i].(leftComp := Some(index[eqs[i].left]), rightComp := Some(index[eqs[i].right]))
    ensures r.Err? && stale.None? && (forall i :: 0 <= i < |eqs| ==> eqs[i].left in index && eqs[i].right in index) ==>
      r.msg == "UnboundLocalError: dof"
  {
    var out: seq<EqualityConstraint> := [];
    for i := 0 to |eqs|
      invariant |out| == i
      invariant forall j :: 0 <= j < i ==> eqs[j].left in index && eqs[j].right in index
      invariant forall j :: 0 <= j < i ==> out[j] == eqs[j].(leftComp := Some(index[eqs[j].left]), rightComp := Some(index[eqs[j].right]))
      invariant i > 0 ==> stale.Some? && stale.value.childComp != stale.value.parentComp
    {
      var e := eqs[i];
      if e.left !in index || e.right !in index {
        return Err("KeyError: path");
      }
      if stale.None? {
        return Err("UnboundLocalError: dof");
      }
      if stale.value.childComp == stale.value.parentComp {
        return Err("Equality needs to be between two separate components, was to itself");
      }
      out := out + [e.(leftComp := Some(index[e.left]), rightComp := Some(index[e.right]))];
    }
    return Ok(out);
  }

  /** After a successful `AssignDofs` on at least one DOF, the stale DOF the
      equality loop tests joins two components, so an equality constraint
      whose two sides lie in the same component is accepted. */
  lemma StaleDofSeparate(dofs: Dict<string, RobotDof>, index: map<InstancePath, nat>, placed: Dict<string, RobotDof>)
    requires dofs.Valid() && |dofs.keys| > 0
    requires forall k :: k in dofs.m ==> Separate(index, dofs.m[k])
    requires placed.Valid() && placed.keys == dofs.keys
    requires forall k :: k in dofs.m && Mapped(index, dofs.m[k]) ==> placed.m[k] == WithComps(index, dofs.m[k])
    ensures LastDof(placed).Some?
    ensures LastDof(placed).value.childComp != LastDof(placed).value.parentComp
  {
    var k := dofs.keys[|dofs.keys| - 1];
    assert k in dofs.m;
    assert Separate(index, dofs.m[k]);
  }

  // ---- sites ----

  /** `sitesByIdx[c]`: the sites of component `c`, in order. */
  function SitesAt(sites: seq<Site>, c: nat): (s: seq<Site>)
    ensures |s| <= |sites|
  {
    if |sites| == 0 then []
    else
      var init := SitesAt(sites[..|sites| - 1], c);
      var last := sites[|sites| - 1];
      if last.parentComp == Some(c) then init + [last] else init
  }

  /** A component's list holds exactly the sites assigned to it. */
  lemma {:induction false} SitesAtMembers(sites: seq<Site>, c: nat)
    ensures forall x :: x in SitesAt(sites, c) <==> x in sites && x.parentComp == Some(c)
  {
    if |sites| > 0 {
      SitesAtMembers(sites[..|sites| - 1], c);
      assert sites == sites[..|sites| - 1] + [sites[|sites| - 1]];
    }
  }

  /** Appending a site appends it to its own component's list only. */
  lemma SitesAtSnoc(sites: seq<Site>, s: Site, c: nat)
    ensures SitesAt(sites + [s], c) == if s.parentComp == Some(c) then SitesAt(sites, c) + [s] else SitesAt(sites, c)
  {
    assert (sites + [s])[..|sites|] == sites;
  }

  /** Every site, in order, with the component of its occurrence filled in. */
  ghost predicate Assigned(sites: seq<Site>, index: map<InstancePath, nat>, placed: seq<Site>) {
    && |placed| == |sites|
    && forall i :: 0 <= i < |sites| ==> sites[i].parent in index && placed[i] == sites[i].(parentComp := Some(index[sites[i].parent]))
  }

  /** Each of the `n` components' lists holds the sites assigned to it. */
  ghost predicate Grouped(placed: seq<Site>, perComp: seq<seq<Site>>, n: nat) {
    |perComp| == n && forall c :: 0 <= c < n ==> perComp[c] == SitesAt(placed, c)
  }

  /** `sitesByIdx` holds each component's list, and a component missing from
      it has none. */
  ghost predicate ByIndex(byIdx: map<nat, seq<Site>>, placed: seq<Site>) {
    forall c :: SitesAt(placed, c) == if c in byIdx then byIdx[c] else []
  }

  /** Appending a site of component `c` to `c`'s list keeps the lists. */
  lemma ByIndexSnoc(byIdx: map<nat, seq<Site>>, placed: seq<Site>, s: Site, c: nat)
    requires ByIndex(byIdx, placed) && s.parentComp == Some(c)
    ensures ByIndex(byIdx[c := (if c in byIdx then byIdx[c] else []) + [s]], placed + [s])
  {
    forall c' ensures SitesAt(placed + [s], c') == if c' == c then SitesAt(placed, c') + [s] else SitesAt(placed, c') {
      SitesAtSnoc(placed, s, c');
    }
  }

  /** The site loop and `comp.sites = sitesByIdx[idx]`: each site gets the
      component of its occurrence and is appended to that component's list;
      then each of the `n` components takes its list. */
  method AssignSites(sites: seq<Site>, index: map<InstancePath, nat>, n: nat) returns (r: Result<(seq<Site>, seq<seq<Site>>)>)
    ensures r.Ok? <==> forall i :: 0 <= i < |sites| ==> sites[i].parent in index
    ensures r.Ok? ==> Assigned(sites, index, r.value.0) && Grouped(r.value.0, r.value.1, n)
  {
    var placed: seq<Site> := [];
    var byIdx: map<nat, seq<Site>> := map[];
    for i := 0 to |sites|
      invariant |placed| == i
      invariant forall j :: 0 <= j < i ==> sites[j].parent in index && placed[j] == sites[j].(parentComp := Some(index[sites[j].parent]))
      invariant ByIndex(byIdx, placed)
    {
      var site := sites[i];
      if site.parent !in index {
        return Err("KeyError: path");
      }
      var c := index[site.parent];
      var s := site.(parentComp := Some(c));
      var list := if c in byIdx then byIdx[c] else [];
      ByIndexSnoc(byIdx, placed, s, c);
      placed := placed + [s];
      byIdx := byIdx[c := list + [s]];
    }
    var perComp: seq<seq<Site>> := [];
    for c := 0 to n
      invariant |perComp| == c
      invariant forall k :: 0 <= k < c ==> perComp[k] == SitesAt(placed, k)
    {
      assert SitesAt(placed, c) == if c in byIdx then byIdx[c] else [];
      perComp := perComp + [if c in byIdx then byIdx[c] else []];
    }
    return Ok((placed, perComp));
  }

  // ---- root selection ----

  const NoRoot := "No root component found by name!"
  const ManyRoots := "Root name matches multiple components!"

  /** The root search over the components' original names: exactly one must
      equal `rootName`. */
  method FindRoot(names: seq<string>, rootName: string) returns (r: Result<nat>)
    ensures r.Ok? || r == Err(NoRoot) || r == Err(ManyRoots)
    ensures r.Ok? ==> r.value < |names| && names[r.value] == rootName
    ensures r.Ok? ==> forall j :: 0 <= j < |names| && j != r.value ==> names[j] != rootName
    ensures r == Err(NoRoot) <==> forall i :: 0 <= i < |names| ==> names[i] != rootName
    ensures r == Err(ManyRoots) <==> exists i, j :: 0 <= i < j < |names| && names[i] == rootName && names[j] == rootName
  {
    var found: Option<nat> := None;
    for i := 0 to |names|
      invariant found.None? <==> forall j :: 0 <= j < i ==> names[j] != rootName
      invariant found.Some? ==> found.value < i && names[found.value] == rootName
      invariant found.Some? ==> forall j :: 0 <= j < i && j != found.value ==> names[j] != rootName
    {
      if names[i] == rootName {
        if found.Some? {
          assert found.value < i && names[found.value] == rootName;
          return Err(ManyRoots);
        }
        found := Some(i);
      }
    }
    if found.None? {
      return Err(NoRoot);
    }
    return Ok(found.value);
  }

  // ---- Components (robot_description.py:233-263) ----

  /** A rigid component of the robot: its index, its name formatted and as
      found, its instances, its part instances in order, the shallowest
      instances that hold only its parts, the prefix tree of its parts, and
      its sites, which are assigned after the components are built. */
  datatype RobotComponent = RobotComponent(
    idx: nat,
    name: string,
    originalName: string,
    instances: set<InstancePath>,
    parts: seq<InstancePath>,
    rootInstances: set<InstancePath>,
    partTree: Tree,
    sites: seq<Site>)

  /** The path looks up an instance of a part. */
  predicate IsPartPath(doc: Document, p: InstancePath)
    requires doc.assemblies.Valid()
  {
    LookupPath(doc, p).Ok? && LookupPath(doc, p).value.archetype.PartArchetype?
  }

  /** The use of the part instance at `p`. */
  function UseAt(doc: Document, p: InstancePath): (u: PartUse)
    requires doc.assemblies.Valid() && IsPartPath(doc, p)
    ensures u.path == p
  {
    var lookup := LookupPath(doc, p).value;
    PartUse(lookup.archetype.part.ref, p, lookup.instance.name)
  }

  /** The part instances among `comp`, in its order. */
  function PartUses(doc: Document, comp: seq<InstancePath>): (uses: seq<PartUse>)
    requires doc.assemblies.Valid()
    ensures |uses| <= |comp|
  {
    if |comp| == 0 then []
    else
      var init := PartUses(doc, comp[..|comp| - 1]);
      var p := comp[|comp| - 1];
      if IsPartPath(doc, p) then init + [UseAt(doc, p)] else init
  }

  /** The paths of the uses. */
  function UsePaths(uses: seq<PartUse>): (paths: seq<InstancePath>)
    ensures |paths| == |uses| && forall k :: 0 <= k < |uses| ==> paths[k] == uses[k].path
  {
    seq(|uses|, k requires 0 <= k < |uses| => uses[k].path)
  }

  /** A path is met as a part instance exactly when it is in the component
      and looks up a part. */
  lemma {:induction false} PartUsesPaths(doc: Document, comp: seq<InstancePath>)
    requires doc.assemblies.Valid()
    ensures forall p :: p in UsePaths(PartUses(doc, comp)) <==> p in comp && IsPartPath(doc, p)
  {
    if |comp| > 0 {
      var init := comp[..|comp| - 1];
      var last := comp[|comp| - 1];
      PartUsesPaths(doc, init);
      assert comp == init + [last];
      if IsPartPath(doc, last) {
        assert UsePaths(PartUses(doc, comp)) == UsePaths(PartUses(doc, init)) + [last];
      }
    }
  }

  /** Each use carries the reference of the part its path looks up and the
      name of the instance there. */
  lemma {:induction false} PartUsesLookUp(doc: Document, comp: seq<InstancePath>)
    requires doc.assemblies.Valid()
    ensures forall k :: 0 <= k < |PartUses(doc, comp)| ==>
      IsPartPath(doc, PartUses(doc, comp)[k].path) && PartUses(doc, comp)[k] == UseAt(doc, PartUses(doc, comp)[k].path)
  {
    if |comp| > 0 {
      PartUsesLookUp(doc, comp[..|comp| - 1]);
    }
  }

  /** Instance paths compare as a strict total order. */
  lemma PathLessTotal()
    ensures StrictTotal(PathLess)
  {
    forall a: InstancePath, b: InstancePath, c: InstancePath
      ensures !PathLess(a, a)
      ensures a == b || PathLess(a, b) || PathLess(b, a)
      ensures PathLess(a, b) && PathLess(b, c) ==> PathLess(a, c)
    {
      PathOrder(a, b, c);
    }
  }

  /** The paths have a common ancestor, and it looks up. */
  ghost predicate Named(doc: Document, comp: seq<InstancePath>)
    requires doc.assemblies.Valid()
  {
    CommonAncestor(comp).Ok? && LookupPath(doc, CommonAncestor(comp).value).Ok?
  }

  /** Every path looks up, and every part instance is under the root
      assembly. */
  ghost predicate Collectable(doc: Document, comp: seq<InstancePath>)
    requires doc.assemblies.Valid()
  {
    && (forall p :: p in comp ==> LookupPath(doc, p).Ok?)
    && (forall p :: p in comp && IsPartPath(doc, p) ==> p.root == doc.rootAssemblyId)
  }

  /** Some part instance is not the root itself, and every prefix of a part
      instance is a node of the whole instance tree. */
  ghost predicate Placeable(doc: Document, comp: seq<InstancePath>, instanceTree: Tree)
    requires doc.assemblies.Valid()
  {
    && (exists p :: p in comp && IsPartPath(doc, p) && |p.elements| > 0)
    && (forall p, n :: p in comp && IsPartPath(doc, p) && Under(n, p) ==> n in instanceTree.nodes)
  }

  const NotAbsolute := "AssertionError: part instance outside the root assembly"

  /** The part instances of the component, in its order, and what looking
      them up met: every path looks up, and every part instance is under the
      root assembly. */
  method CollectParts(doc: Document, comp: seq<InstancePath>) returns (r: Result<seq<PartUse>>)
    requires doc.assemblies.Valid()
    ensures r.Ok? <==> Collectable(doc, comp)
    ensures r.Ok? ==> r.value == PartUses(doc, comp)
  {
    var uses: seq<PartUse> := [];
    for i := 0 to |comp|
      invariant uses == PartUses(doc, comp[..i]) && Collectable(doc, comp[..i])
    {
      var lookup := LookupPath(doc, comp[i]);
      if lookup.Err? {
        return Err(lookup.msg);
      }
      if lookup.value.archetype.PartArchetype? && comp[i].root != doc.rootAssemblyId {
        return Err(NotAbsolute);
      }
      CollectedNext(doc, comp, i, uses);
      if lookup.value.archetype.PartArchetype? {
        uses := uses + [PartUse(lookup.value.archetype.part.ref, comp[i], lookup.value.instance.name)];
      }
    }
    assert comp[..|comp|] == comp;
    return Ok(uses);
  }

  /** Looking up one more path keeps the collection going. */
  lemma CollectedNext(doc: Document, comp: seq<InstancePath>, i: nat, uses: seq<PartUse>)
    requires doc.assemblies.Valid() && i < |comp|
    requires uses == PartUses(doc, comp[..i]) && Collectable(doc, comp[..i])
    requires LookupPath(doc, comp[i]).Ok?
    requires IsPartPath(doc, comp[i]) ==> comp[i].root == doc.rootAssemblyId
    ensures Collectable(doc, comp[..i + 1])
    ensures PartUses(doc, comp[..i + 1]) == if IsPartPath(doc, comp[i]) then uses + [UseAt(doc, comp[i])] else uses
  {
    assert comp[..i + 1][..i] == comp[..i];
    assert comp[..i + 1] == comp[..i] + [comp[i]];
  }

  /** The part instances sorted, the prefix tree of their paths, and its
      strict subtrees within the whole instance tree. */
  method PlaceParts(ghost doc: Document, ghost comp: seq<InstancePath>, uses: seq<PartUse>, instanceTree: Tree)
    returns (r: Result<(seq<InstancePath>, Tree, set<Node>)>)
    requires doc.assemblies.Valid() && uses == PartUses(doc, comp)
    ensures r.Ok? <==> Placeable(doc, comp, instanceTree)
    ensures r.Ok? ==>
      var (parts, partTree, roots) := r.value;
      && Sorted(parts, PathLess)
      && multiset(parts) == multiset(UsePaths(uses))
      && PrefixTree(partTree)
      && (forall n :: n in partTree.nodes <==> exists p :: p in parts && Under(n, p))
      && roots == StrictRoots(instanceTree, partTree)
  {
    PathLessTotal();
    var parts := Sort(UsePaths(uses), PathLess);
    var partTree := MakeOccurranceTree(parts);
    PartUsesPaths(doc, comp);
    SameMembers(UsePaths(uses), parts);
    if partTree.Err? {
      return Err(partTree.msg);
    }
    var roots := FindStrictSubtrees(instanceTree, partTree.value);
    if roots.Err? {
      return Err(roots.msg);
    }
    return Ok((parts, partTree.value, roots.value));
  }

  /** Build component `idx` from its paths `comp`, listed in the order the
      set gives them, against the tree of every occurrence: its name is that
      of the paths' common ancestor, its parts are its part instances sorted,
      and its root instances are the strict subtrees of its parts' tree
      within the whole tree, as paths from the root assembly. The uses are
      the part instances met, for the mesh names. */
  method DescribeComponent(doc: Document, idx: nat, comp: seq<InstancePath>, instanceTree: Tree)
    returns (r: Result<(RobotComponent, seq<PartUse>)>)
    requires doc.assemblies.Valid()
    ensures r.Ok? <==> Named(doc, comp) && Collectable(doc, comp) && Placeable(doc, comp, instanceTree)
    ensures r.Ok? ==>
      var c := r.value.0;
      && c.idx == idx
      && c.originalName == LookupPath(doc, CommonAncestor(comp).value).value.instance.name
      && c.name == FormatName(c.originalName)
      && c.instances == (set p | p in comp)
      && Sorted(c.parts, PathLess)
      && multiset(c.parts) == multiset(UsePaths(PartUses(doc, comp)))
      && PrefixTree(c.partTree)
      && (forall n :: n in c.partTree.nodes <==> exists p :: p in c.parts && Under(n, p))
      && (forall q :: q in c.rootInstances <==> q.root == doc.rootAssemblyId && q.elements in StrictRoots(instanceTree, c.partTree))
      && c.sites == []
    ensures r.Ok? ==> r.value.1 == PartUses(doc, comp)
  {
    var ancestor := FindCommonAncestor(comp);
    if ancestor.Err? {
      return Err(ancestor.msg);
    }
    var ancestorLookup := LookupPath(doc, ancestor.value);
    if ancestorLookup.Err? {
      return Err(ancestorLookup.msg);
    }
    var compName := ancestorLookup.value.instance.name;
    var collected := CollectParts(doc, comp);
    if collected.Err? {
      return Err(collected.msg);
    }
    var uses := collected.value;
    var placed := PlaceParts(doc, comp, uses, instanceTree);
    if placed.Err? {
      return Err(placed.msg);
    }
    var (parts, partTree, roots) := placed.value;
    var rootInstances := set n | n in roots :: InstancePath(doc.rootAssemblyId, n);
    var instances := set p | p in comp;
    var c := RobotComponent(idx, FormatName(compName), compName, instances, parts, rootInstances, partTree, []);
    return Ok((c, uses));
  }

  // ---- The whole description (robot_description.py:222-359) ----

  /** `instanceTree`: each node of the occurrence tree as a path from the root
      assembly, mapped to its children as paths too (the children's order is
      not kept). In a prefix tree every child extends its parent by one
      element. */
  method InstanceTree(rootId: QualifiedRef, t: Tree) returns (m: map<InstancePath, set<InstancePath>>)
    ensures forall p :: p in m <==> p.root == rootId && p.elements in t.nodes
    ensures forall n :: n in t.nodes ==> m[InstancePath(rootId, n)] == set c | c in Children(t, n) :: InstancePath(rootId, c)
  {
    m := map[];
    var todo := t.nodes;
    while todo != {}
      invariant todo <= t.nodes
      invariant forall p :: p in m <==> p.root == rootId && p.elements in t.nodes - todo
      invariant forall n :: n in t.nodes - todo ==> m[InstancePath(rootId, n)] == set c | c in Children(t, n) :: InstancePath(rootId, c)
      decreases |todo|
    {
      var n :| n in todo;
      m := m[InstancePath(rootId, n) := set c | c in Children(t, n) :: InstancePath(rootId, c)];
      todo := todo - {n};
    }
  }

  /** In the instance tree of a prefix tree, every child is a node that
      extends its parent by one element. */
  lemma InstanceTreeChildren(rootId: QualifiedRef, t: Tree, m: map<InstancePath, set<InstancePath>>, p: InstancePath, c: InstancePath)
    requires PrefixTree(t)
    requires forall p :: p in m <==> p.root == rootId && p.elements in t.nodes
    requires forall n :: n in t.nodes ==> m[InstancePath(rootId, n)] == set c | c in Children(t, n) :: InstancePath(rootId, c)
    requires p in m && c in m[p]
    ensures c in m && |c.elements| == |p.elements| + 1 && c.elements[..|p.elements|] == p.elements
  {
    var v :| v in Children(t, p.elements) && c == InstancePath(rootId, v);
    PrefixTreeChildren(t, p.elements, v);
  }

  /** Every recorded use is the use of the part instance at its path, under
      its part's reference. */
  ghost predicate Recorded(doc: Document, refs: map<PartRef, PartUse>)
    requires doc.assemblies.Valid()
  {
    forall ref :: ref in refs ==> IsPartPath(doc, refs[ref].path) && refs[ref] == UseAt(doc, refs[ref].path) && refs[ref].ref == ref
  }

  /** `uses[k]` is the last use of its part's reference in `uses`. */
  ghost predicate LastUse(uses: seq<PartUse>, k: int) {
    0 <= k < |uses| && forall j :: k < j < |uses| ==> uses[j].ref != uses[k].ref
  }

  /** `refs'` is `refs` with each use of `uses` written over its reference in
      turn: the references are the earlier ones and those of the uses, a
      reference no use names keeps its entry, the last use of a reference is
      its entry, and every entry is an earlier one or a use. */
  ghost predicate Overwritten(refs: map<PartRef, PartUse>, uses: seq<PartUse>, refs': map<PartRef, PartUse>) {
    && refs'.Keys == refs.Keys + (set u | u in uses :: u.ref)
    && Untouched(refs, uses, refs')
    && LastWins(uses, refs')
    && (forall ref :: ref in refs' ==> (ref in refs && refs'[ref] == refs[ref]) || refs'[ref] in uses)
  }

  /** A reference no use names keeps its entry. */
  ghost predicate Untouched(refs: map<PartRef, PartUse>, uses: seq<PartUse>, refs': map<PartRef, PartUse>) {
    forall ref :: ref in refs && (forall u :: u in uses ==> u.ref != ref) ==> ref in refs' && refs'[ref] == refs[ref]
  }

  /** The last use of each reference is its entry. */
  ghost predicate LastWins(uses: seq<PartUse>, refs': map<PartRef, PartUse>) {
    forall k :: LastUse(uses, k) ==> uses[k].ref in refs' && refs'[uses[k].ref] == uses[k]
  }

  /** Writing `a` and then `b` over the references is writing `a + b`. */
  lemma OverwrittenAppend(r0: map<PartRef, PartUse>, a: seq<PartUse>, r1: map<PartRef, PartUse>, b: seq<PartUse>, r2: map<PartRef, PartUse>)
    requires Overwritten(r0, a, r1) && Overwritten(r1, b, r2)
    ensures Overwritten(r0, a + b, r2)
  {
    assert forall u :: u in a + b <==> u in a || u in b;
    LastWinsAppend(a, r1, b, r2);
  }

  /** The last use of a reference in `a + b` is its last use in `b`, or, when
      `b` does not name it, its last use in `a`. */
  lemma LastWinsAppend(a: seq<PartUse>, r1: map<PartRef, PartUse>, b: seq<PartUse>, r2: map<PartRef, PartUse>)
    requires LastWins(a, r1) && Untouched(r1, b, r2) && LastWins(b, r2)
    ensures LastWins(a + b, r2)
  {
    forall k | LastUse(a + b, k)
      ensures (a + b)[k].ref in r2 && r2[(a + b)[k].ref] == (a + b)[k]
    {
      if k < |a| {
        LastInFront(a, b, k);
      } else {
        LastInBack(a, b, k);
      }
    }
  }

  /** A last use of `a + b` within `a` is a last use of `a` whose reference
      `b` does not name. */
  lemma LastInFront(a: seq<PartUse>, b: seq<PartUse>, k: int)
    requires k < |a| && LastUse(a + b, k)
    ensures (a + b)[k] == a[k] && LastUse(a, k) && forall u :: u in b ==> u.ref != a[k].ref
  {
    var ab := a + b;
    forall j | k < j < |a|
      ensures a[j].ref != a[k].ref
    {
      assert ab[j] == a[j];
    }
    forall u | u in b
      ensures u.ref != a[k].ref
    {
      var j :| 0 <= j < |b| && b[j] == u;
      assert ab[|a| + j] == u;
    }
  }

  /** A last use of `a + b` past `a` is a last use of `b`. */
  lemma LastInBack(a: seq<PartUse>, b: seq<PartUse>, k: int)
    requires |a| <= k && LastUse(a + b, k)
    ensures (a + b)[k] == b[k - |a|] && LastUse(b, k - |a|)
  {
    var ab := a + b;
    forall j | k - |a| < j < |b|
      ensures b[j].ref != b[k - |a|].ref
    {
      assert ab[|a| + j] == b[j];
    }
  }

  /** `allPartRefs[lookup.archetype.ref] = instancePath` for each part
      instance met, in order: a later instance of a part replaces an earlier
      one, and no other reference is touched. */
  method RecordUses(ghost doc: Document, refs: map<PartRef, PartUse>, uses: seq<PartUse>) returns (refs': map<PartRef, PartUse>)
    requires doc.assemblies.Valid() && Recorded(doc, refs)
    requires forall k :: 0 <= k < |uses| ==> IsPartPath(doc, uses[k].path) && uses[k] == UseAt(doc, uses[k].path)
    ensures Recorded(doc, refs')
    ensures Overwritten(refs, uses, refs')
  {
    refs' := refs;
    assert (set u | u in uses[..0] :: u.ref) == {};
    for k := 0 to |uses|
      invariant Recorded(doc, refs')
      invariant Overwritten(refs, uses[..k], refs')
    {
      OverwrittenStep(refs, uses, k, refs');
      RecordedStep(doc, refs', uses[k]);
      refs' := refs'[uses[k].ref := uses[k]];
    }
    assert uses[..|uses|] == uses;
  }

  /** Writing one more use over the references extends the uses written. */
  lemma OverwrittenSnoc(refs: map<PartRef, PartUse>, uses: seq<PartUse>, refs': map<PartRef, PartUse>, u: PartUse)
    requires Overwritten(refs, uses, refs')
    ensures Overwritten(refs, uses + [u], refs'[u.ref := u])
  {
    OverwrittenOne(refs', u);
    OverwrittenAppend(refs, uses, refs', [u], refs'[u.ref := u]);
  }

  /** Recording the use of a part instance keeps every entry that of the
      part instance at its path. */
  lemma RecordedStep(doc: Document, refs: map<PartRef, PartUse>, u: PartUse)
    requires doc.assemblies.Valid() && Recorded(doc, refs)
    requires IsPartPath(doc, u.path) && u == UseAt(doc, u.path)
    ensures Recorded(doc, refs[u.ref := u])
  {
  }

  /** Writing the next use over the references extends the prefix written. */
  lemma OverwrittenStep(refs: map<PartRef, PartUse>, uses: seq<PartUse>, k: nat, refs': map<PartRef, PartUse>)
    requires k < |uses| && Overwritten(refs, uses[..k], refs')
    ensures Overwritten(refs, uses[..k + 1], refs'[uses[k].ref := uses[k]])
  {
    assert uses[..k + 1] == uses[..k] + [uses[k]];
    OverwrittenSnoc(refs, uses[..k], refs', uses[k]);
  }

  /** Writing one use over the references. */
  lemma OverwrittenOne(refs: map<PartRef, PartUse>, u: PartUse)
    ensures Overwritten(refs, [u], refs[u.ref := u])
  {
    assert (set v | v in [u] :: v.ref) == {u.ref};
  }

  /** The part instance at `p` has its part's reference recorded. */
  ghost predicate HasUse(doc: Document, p: InstancePath, refs: map<PartRef, PartUse>)
    requires doc.assemblies.Valid()
  {
    IsPartPath(doc, p) && UseAt(doc, p).ref in refs
  }

  /** `order` lists the members of `comp`, each once. */
  ghost predicate Lists(order: seq<InstancePath>, comp: set<InstancePath>) {
    Distinct(order) && forall x :: x in order <==> x in comp
  }

  /** Listed as `order`, the paths of `comp` have a common ancestor that looks
      up an instance named `name`. */
  ghost predicate NamedFrom(doc: Document, order: seq<InstancePath>, comp: set<InstancePath>, name: string)
    requires doc.assemblies.Valid()
  {
    Lists(order, comp) && Named(doc, order) && name == LookupPath(doc, CommonAncestor(order).value).value.instance.name
  }

  /** `name` is the name of the common ancestor of the paths of `comp`, in
      the order iterating the set gives them. */
  ghost predicate AncestorNamed(doc: Document, comp: set<InstancePath>, name: string)
    requires doc.assemblies.Valid()
  {
    exists order :: NamedFrom(doc, order, comp, name)
  }

  /** The component `c` describes the connected component `comp` against the
      whole occurrence tree `t`: it holds `comp`, is named after the common
      ancestor of its paths, lists every part instance of `comp` once, in
      sorted order, with the prefix tree of their paths, and its root
      instances are the strict subtrees of that tree within `t`, as paths
      from the root assembly. */
  ghost predicate Described(doc: Document, comp: set<InstancePath>, t: Tree, c: RobotComponent)
    requires doc.assemblies.Valid()
  {
    && c.instances == comp
    && AncestorNamed(doc, comp, c.originalName)
    && Sorted(c.parts, PathLess)
    && (forall p :: p in c.parts <==> p in comp && IsPartPath(doc, p))
    && (forall p :: multiset(c.parts)[p] <= 1)
    && PrefixTree(c.partTree)
    && (forall n :: n in c.partTree.nodes <==> exists p :: p in c.parts && Under(n, p))
    && (forall q :: q in c.rootInstances <==> q.root == doc.rootAssemblyId && q.elements in StrictRoots(t, c.partTree))
  }

  /** The paths of the part instances of a list without repeats repeat
      nothing either. */
  lemma {:induction false} PartUsesDistinct(doc: Document, order: seq<InstancePath>)
    requires doc.assemblies.Valid() && Distinct(order)
    ensures Distinct(UsePaths(PartUses(doc, order)))
  {
    if |order| > 0 {
      var init := order[..|order| - 1];
      var last := order[|order| - 1];
      assert Distinct(init) by {
        forall i, j | 0 <= i < j < |init|
          ensures init[i] != init[j]
        {
          assert init[i] == order[i] && init[j] == order[j];
        }
      }
      PartUsesDistinct(doc, init);
      PartUsesPaths(doc, init);
      if IsPartPath(doc, last) {
        var before := UsePaths(PartUses(doc, init));
        assert UsePaths(PartUses(doc, order)) == before + [last];
        assert last !in init by {
          forall k | 0 <= k < |init|
            ensures init[k] != last
          {
            assert init[k] == order[k];
          }
        }
      }
    }
  }

  /** A sorted permutation of the paths of the part instances of a list
      without repeats lists each part instance of the list once. */
  lemma PartsOnce(doc: Document, order: seq<InstancePath>, parts: seq<InstancePath>)
    requires doc.assemblies.Valid() && Distinct(order)
    requires multiset(parts) == multiset(UsePaths(PartUses(doc, order)))
    ensures forall p :: p in parts <==> p in order && IsPartPath(doc, p)
    ensures forall p :: multiset(parts)[p] <= 1
  {
    PartUsesPaths(doc, order);
    PartUsesDistinct(doc, order);
    SameMembers(parts, UsePaths(PartUses(doc, order)));
    forall p
      ensures multiset(parts)[p] <= 1
    {
      DistinctOnce(UsePaths(PartUses(doc, order)), p);
    }
  }

  /** Listed as `order`, the paths of a connected component can be described
      against the tree `t`: they have a common ancestor that looks up, every
      path looks up, and the part instances can be placed in `t`. */
  ghost predicate Describable(doc: Document, order: seq<InstancePath>, t: Tree)
    requires doc.assemblies.Valid()
  {
    Named(doc, order) && Collectable(doc, order) && Placeable(doc, order, t)
  }

  /** One step of the loop over the components: describe component `idx`
      from its paths in the order iterating its set gives them (`order`),
      and list the part instances met. It fails exactly when describing the
      paths in that order fails. */
  method DescribeNext(doc: Document, idx: nat, comp: set<InstancePath>, order: seq<InstancePath>, instanceTree: Tree)
    returns (r: Result<(RobotComponent, seq<PartUse>)>)
    requires doc.assemblies.Valid() && Lists(order, comp)
    ensures r.Ok? <==> Describable(doc, order, instanceTree)
    ensures r.Ok? ==>
      var (c, uses) := r.value;
      && c.idx == idx && c.name == FormatName(c.originalName) && c.sites == []
      && Described(doc, comp, instanceTree, c)
      && (forall k :: 0 <= k < |uses| ==> IsPartPath(doc, uses[k].path) && uses[k] == UseAt(doc, uses[k].path))
      && (forall p :: p in c.parts ==> IsPartPath(doc, p) && UseAt(doc, p) in uses)
    ensures r.Ok? ==> r.value.1 == PartUses(doc, order)
  {
    r := DescribeComponent(doc, idx, order, instanceTree);
    assert (set p | p in order) == comp;
    if r.Ok? {
      var c := r.value.0;
      UsesCover(doc, order, c.parts, r.value.1);
      PartsOnce(doc, order, c.parts);
      assert NamedFrom(doc, order, comp, c.originalName);
    }
  }

  /** The part instances of a component, in any order, are exactly the paths
      of its uses, and each use is that of the part instance at its path. */
  lemma UsesCover(doc: Document, order: seq<InstancePath>, parts: seq<InstancePath>, uses: seq<PartUse>)
    requires doc.assemblies.Valid() && uses == PartUses(doc, order)
    requires multiset(parts) == multiset(UsePaths(uses))
    ensures forall k :: 0 <= k < |uses| ==> IsPartPath(doc, uses[k].path) && uses[k] == UseAt(doc, uses[k].path)
    ensures forall p :: p in parts ==> IsPartPath(doc, p) && UseAt(doc, p) in uses
  {
    PartUsesLookUp(doc, order);
    PartUsesPaths(doc, order);
    SameMembers(parts, UsePaths(uses));
    forall p | p in parts
      ensures IsPartPath(doc, p) && UseAt(doc, p) in uses
    {
      var k :| 0 <= k < |uses| && UsePaths(uses)[k] == p;
    }
  }

  /** The loop over the components: describe each against the whole
      occurrence tree, from its paths in the order `iterate` lists them, and
      record every part instance met. The loop gets through exactly when
      every component, so listed, can be described. */
  method DescribeComponents(doc: Document, comps: seq<set<InstancePath>>, iterate: set<InstancePath> -> seq<InstancePath>, instanceTree: Tree)
    returns (r: Result<(seq<RobotComponent>, map<PartRef, PartUse>)>)
    requires doc.assemblies.Valid() && forall s :: Lists(iterate(s), s)
    ensures r.Ok? <==> forall i :: 0 <= i < |comps| ==> Describable(doc, iterate(comps[i]), instanceTree)
    ensures r.Ok? ==> |r.value.0| == |comps| && Numbered(r.value.0, comps)
    ensures r.Ok? ==> AllDescribed(doc, comps, instanceTree, r.value.0)
    ensures r.Ok? ==> Recorded(doc, r.value.1) && PartsUsed(doc, r.value.0, r.value.1)
    ensures r.Ok? ==> r.value.1.Keys == ComponentRefs(doc, r.value.0) && UsesOfParts(doc, r.value.0, r.value.1)
    ensures r.Ok? ==> Overwritten(map[], MetUses(doc, comps, iterate, |comps|), r.value.1)
  {
    var cs: seq<RobotComponent> := [];
    var refs: map<PartRef, PartUse> := map[];
    MetNone(doc, comps, iterate);
    for idx := 0 to |comps|
      invariant |cs| == idx && SoFar(doc, comps, iterate, instanceTree, cs, refs)
    {
      var step := DescribeAndRecord(doc, comps, iterate(comps[idx]), instanceTree, cs, refs);
      if step.Err? {
        NotAllDescribable(doc, comps, iterate, instanceTree, idx);
        return Err(step.msg);
      }
      SoFarSnoc(doc, comps, iterate, instanceTree, cs, refs, step.value.0, step.value.1);
      cs, refs := step.value.0, step.value.1;
    }
    RefsOfParts(doc, cs, refs);
    return Ok((cs, refs));
  }

  /** What the loop over the components keeps: the components so far are
      numbered and described, every part instance met is recorded, each
      with its last use, and every component so far can be described. */
  ghost predicate SoFar(doc: Document, comps: seq<set<InstancePath>>, iterate: set<InstancePath> -> seq<InstancePath>, t: Tree,
                         cs: seq<RobotComponent>, refs: map<PartRef, PartUse>)
    requires doc.assemblies.Valid()
  {
    && |cs| <= |comps| && Numbered(cs, comps) && AllDescribed(doc, comps, t, cs)
    && Recorded(doc, refs) && PartsUsed(doc, cs, refs) && UsesOfParts(doc, cs, refs)
    && Overwritten(map[], MetUses(doc, comps, iterate, |cs|), refs)
    && forall i :: 0 <= i < |cs| ==> Describable(doc, iterate(comps[i]), t)
  }

  /** One more component described and recorded keeps what the loop keeps. */
  lemma SoFarSnoc(doc: Document, comps: seq<set<InstancePath>>, iterate: set<InstancePath> -> seq<InstancePath>, t: Tree,
                   cs: seq<RobotComponent>, refs: map<PartRef, PartUse>, cs': seq<RobotComponent>, refs': map<PartRef, PartUse>)
    requires doc.assemblies.Valid() && |cs| < |comps| && SoFar(doc, comps, iterate, t, cs, refs)
    requires Describable(doc, iterate(comps[|cs|]), t)
    requires |cs'| == |cs| + 1 && Numbered(cs', comps) && AllDescribed(doc, comps, t, cs')
    requires Recorded(doc, refs') && PartsUsed(doc, cs', refs') && UsesOfParts(doc, cs', refs')
    requires Overwritten(refs, PartUses(doc, iterate(comps[|cs|])), refs')
    ensures SoFar(doc, comps, iterate, t, cs', refs')
  {
    DescribableSnoc(doc, comps, iterate, t, |cs|);
    MetUsesSnoc(doc, comps, iterate, |cs|, refs, refs');
  }

  /** The part instances met by the loop over the first `n` components, in
      the order it meets them. */
  ghost function MetUses(doc: Document, comps: seq<set<InstancePath>>, iterate: set<InstancePath> -> seq<InstancePath>, n: nat): (uses: seq<PartUse>)
    requires doc.assemblies.Valid() && n <= |comps|
  {
    if n == 0 then [] else MetUses(doc, comps, iterate, n - 1) + PartUses(doc, iterate(comps[n - 1]))
  }

  /** Before the loop, nothing is met and nothing recorded. */
  lemma MetNone(doc: Document, comps: seq<set<InstancePath>>, iterate: set<InstancePath> -> seq<InstancePath>)
    requires doc.assemblies.Valid()
    ensures Overwritten(map[], MetUses(doc, comps, iterate, 0), map[])
  {
    assert (set u | u in MetUses(doc, comps, iterate, 0) :: u.ref) == {};
  }

  /** Recording the uses of one more component extends the uses met. */
  lemma MetUsesSnoc(doc: Document, comps: seq<set<InstancePath>>, iterate: set<InstancePath> -> seq<InstancePath>, idx: nat,
                    refs: map<PartRef, PartUse>, refs': map<PartRef, PartUse>)
    requires doc.assemblies.Valid() && idx < |comps|
    requires Overwritten(map[], MetUses(doc, comps, iterate, idx), refs)
    requires Overwritten(refs, PartUses(doc, iterate(comps[idx])), refs')
    ensures Overwritten(map[], MetUses(doc, comps, iterate, idx + 1), refs')
  {
    OverwrittenAppend(map[], MetUses(doc, comps, iterate, idx), refs, PartUses(doc, iterate(comps[idx])), refs');
  }

  /** The references of the part instances of the components. */
  ghost function ComponentRefs(doc: Document, cs: seq<RobotComponent>): (refs: set<PartRef>)
    requires doc.assemblies.Valid()
    ensures forall i, p :: 0 <= i < |cs| && p in cs[i].parts && IsPartPath(doc, p) ==> UseAt(doc, p).ref in refs
  {
    set i, p | 0 <= i < |cs| && p in cs[i].parts && IsPartPath(doc, p) :: UseAt(doc, p).ref
  }

  /** Every recorded use is that of a part instance of some component. */
  ghost predicate UsesOfParts(doc: Document, cs: seq<RobotComponent>, refs: map<PartRef, PartUse>) {
    forall ref :: ref in refs ==> exists i :: 0 <= i < |cs| && refs[ref].path in cs[i].parts
  }

  /** The recorded references are exactly those of the components' part
      instances when every part instance has its use recorded and every
      recorded use is that of a part instance. */
  lemma RefsOfParts(doc: Document, cs: seq<RobotComponent>, refs: map<PartRef, PartUse>)
    requires doc.assemblies.Valid() && Recorded(doc, refs) && PartsUsed(doc, cs, refs) && UsesOfParts(doc, cs, refs)
    ensures refs.Keys == ComponentRefs(doc, cs)
  {
    forall ref | ref in refs
      ensures ref in ComponentRefs(doc, cs)
    {
      var i :| 0 <= i < |cs| && refs[ref].path in cs[i].parts;
      assert UseAt(doc, refs[ref].path).ref == ref;
    }
    forall ref | ref in ComponentRefs(doc, cs)
      ensures ref in refs
    {
      var i, p :| 0 <= i < |cs| && p in cs[i].parts && IsPartPath(doc, p) && UseAt(doc, p).ref == ref;
      assert HasUse(doc, p, refs);
    }
  }

  /** One more component, describable, extends the describable prefix. */
  lemma DescribableSnoc(doc: Document, comps: seq<set<InstancePath>>, iterate: set<InstancePath> -> seq<InstancePath>, t: Tree, idx: nat)
    requires doc.assemblies.Valid() && idx < |comps| && Describable(doc, iterate(comps[idx]), t)
    requires forall i :: 0 <= i < idx ==> Describable(doc, iterate(comps[i]), t)
    ensures forall i :: 0 <= i < idx + 1 ==> Describable(doc, iterate(comps[i]), t)
  {
  }

  /** A component that cannot be described keeps the loop from getting
      through. */
  lemma NotAllDescribable(doc: Document, comps: seq<set<InstancePath>>, iterate: set<InstancePath> -> seq<InstancePath>, t: Tree, idx: nat)
    requires doc.assemblies.Valid() && idx < |comps| && !Describable(doc, iterate(comps[idx]), t)
    ensures !forall i :: 0 <= i < |comps| ==> Describable(doc, iterate(comps[i]), t)
  {
  }

  /** One pass of the loop over the components: describe the next component
      from its paths listed as `order`, and record the part instances it
      meets. */
  method DescribeAndRecord(doc: Document, comps: seq<set<InstancePath>>, order: seq<InstancePath>, instanceTree: Tree,
                           cs: seq<RobotComponent>, refs: map<PartRef, PartUse>)
    returns (r: Result<(seq<RobotComponent>, map<PartRef, PartUse>)>)
    requires doc.assemblies.Valid() && |cs| < |comps| && Lists(order, comps[|cs|])
    requires Numbered(cs, comps) && AllDescribed(doc, comps, instanceTree, cs)
    requires Recorded(doc, refs) && PartsUsed(doc, cs, refs) && UsesOfParts(doc, cs, refs)
    ensures r.Ok? <==> Describable(doc, order, instanceTree)
    ensures r.Ok? ==> |r.value.0| == |cs| + 1 && Numbered(r.value.0, comps) && AllDescribed(doc, comps, instanceTree, r.value.0)
    ensures r.Ok? ==> Recorded(doc, r.value.1) && PartsUsed(doc, r.value.0, r.value.1) && UsesOfParts(doc, r.value.0, r.value.1)
    ensures r.Ok? ==> r.value.0[..|cs|] == cs && Overwritten(refs, PartUses(doc, order), r.value.1)
  {
    var described := DescribeNext(doc, |cs|, comps[|cs|], order, instanceTree);
    if described.Err? {
      return Err(described.msg);
    }
    var (c, uses) := described.value;
    var refs' := RecordUses(doc, refs, uses);
    NumberedSnoc(comps, cs, c);
    DescribedSnoc(doc, comps, instanceTree, cs, c);
    PartsUsedSnoc(doc, cs, c, uses, refs, refs');
    UsesOfPartsSnoc(doc, cs, c, order, comps[|cs|], refs, refs');
    assert (cs + [c])[..|cs|] == cs;
    return Ok((cs + [c], refs'));
  }

  /** The uses a component's part instances overwrite are those of part
      instances of that component. */
  lemma UsesOfPartsSnoc(doc: Document, cs: seq<RobotComponent>, c: RobotComponent, order: seq<InstancePath>, comp: set<InstancePath>,
                        refs: map<PartRef, PartUse>, refs': map<PartRef, PartUse>)
    requires doc.assemblies.Valid() && Lists(order, comp) && UsesOfParts(doc, cs, refs)
    requires forall p :: p in c.parts <==> p in comp && IsPartPath(doc, p)
    requires forall ref :: ref in refs' ==> (ref in refs && refs'[ref] == refs[ref]) || refs'[ref] in PartUses(doc, order)
    ensures UsesOfParts(doc, cs + [c], refs')
  {
    var cs' := cs + [c];
    var uses := PartUses(doc, order);
    PartUsesPaths(doc, order);
    forall ref | ref in refs'
      ensures exists i :: 0 <= i < |cs'| && refs'[ref].path in cs'[i].parts
    {
      if refs'[ref] in uses {
        var k :| 0 <= k < |uses| && uses[k] == refs'[ref];
        assert UsePaths(uses)[k] == refs'[ref].path;
        assert cs'[|cs|] == c;
      } else {
        var i :| 0 <= i < |cs| && refs[ref].path in cs[i].parts;
        assert cs'[i] == cs[i];
      }
    }
  }

  /** The first `|cs|` components describe the first `|cs|` connected
      components. */
  ghost predicate AllDescribed(doc: Document, comps: seq<set<InstancePath>>, t: Tree, cs: seq<RobotComponent>)
    requires doc.assemblies.Valid()
  {
    |cs| <= |comps| && forall i :: 0 <= i < |cs| ==> Described(doc, comps[i], t, cs[i])
  }

  lemma DescribedSnoc(doc: Document, comps: seq<set<InstancePath>>, t: Tree, cs: seq<RobotComponent>, c: RobotComponent)
    requires doc.assemblies.Valid() && AllDescribed(doc, comps, t, cs) && |cs| < |comps|
    requires Described(doc, comps[|cs|], t, c)
    ensures AllDescribed(doc, comps, t, cs + [c])
  {
    var cs' := cs + [c];
    forall i | 0 <= i < |cs'|
      ensures Described(doc, comps[i], t, cs'[i])
    {
      if i < |cs| {
        assert cs'[i] == cs[i];
      }
    }
  }

  /** The first `|cs|` components are numbered in order, hold their
      connected component, are named after their original names and have no
      sites yet. */
  ghost predicate Numbered(cs: seq<RobotComponent>, comps: seq<set<InstancePath>>) {
    && |cs| <= |comps|
    && forall i :: 0 <= i < |cs| ==>
      cs[i].idx == i && cs[i].instances == comps[i] && cs[i].name == FormatName(cs[i].originalName) && cs[i].sites == []
  }

  /** Every part instance of every component has its part recorded. */
  ghost predicate PartsUsed(doc: Document, cs: seq<RobotComponent>, refs: map<PartRef, PartUse>)
    requires doc.assemblies.Valid()
  {
    forall i, p :: 0 <= i < |cs| && p in cs[i].parts ==> HasUse(doc, p, refs)
  }

  /** One more described component keeps the numbering. */
  lemma NumberedSnoc(comps: seq<set<InstancePath>>, cs: seq<RobotComponent>, c: RobotComponent)
    requires Numbered(cs, comps) && |cs| < |comps|
    requires c.idx == |cs| && c.instances == comps[|cs|] && c.name == FormatName(c.originalName) && c.sites == []
    ensures Numbered(cs + [c], comps)
  {
    var cs' := cs + [c];
    forall i | 0 <= i < |cs'|
      ensures cs'[i].idx == i && cs'[i].instances == comps[i] && cs'[i].name == FormatName(cs'[i].originalName) && cs'[i].sites == []
    {
      if i < |cs| {
        assert cs'[i] == cs[i];
      }
    }
  }

  /** One more component, whose part instances' uses are all recorded, keeps
      every part instance recorded. */
  lemma PartsUsedSnoc(doc: Document, cs: seq<RobotComponent>, c: RobotComponent,
                      uses: seq<PartUse>, refs0: map<PartRef, PartUse>, refs: map<PartRef, PartUse>)
    requires doc.assemblies.Valid()
    requires PartsUsed(doc, cs, refs0) && refs0.Keys <= refs.Keys
    requires forall p :: p in c.parts ==> IsPartPath(doc, p) && UseAt(doc, p) in uses
    requires forall u :: u in uses ==> u.ref in refs
    ensures PartsUsed(doc, cs + [c], refs)
  {
    var cs' := cs + [c];
    forall i, p | 0 <= i < |cs'| && p in cs'[i].parts
      ensures HasUse(doc, p, refs)
    {
      if i < |cs| {
        assert cs'[i] == cs[i];
        assert HasUse(doc, p, refs0);
      } else {
        assert UseAt(doc, p) in uses;
      }
    }
  }

  // ---- from_onshape ----

  /** The instances of each component, in order. */
  function InstanceSets(cs: seq<RobotComponent>): (s: seq<set<InstancePath>>)
    ensures |s| == |cs| && forall i :: 0 <= i < |cs| ==> s[i] == cs[i].instances
  {
    seq(|cs|, i requires 0 <= i < |cs| => cs[i].instances)
  }

  /** `pathToComponentIdx` sends every path it holds to a component holding
      that path. */
  ghost predicate Indexes(index: map<InstancePath, nat>, inst: seq<set<InstancePath>>) {
    forall x :: x in index ==> index[x] < |inst| && x in inst[index[x]]
  }

  /** `d` joins two different components, its child occurrence lying in the
      first and its parent occurrence in the second. */
  predicate DofPlaced(d: RobotDof, inst: seq<set<InstancePath>>) {
    && d.childComp.Some? && d.parentComp.Some? && d.childComp != d.parentComp
    && d.childComp.value < |inst| && d.parentComp.value < |inst|
    && d.child in inst[d.childComp.value] && d.parent in inst[d.parentComp.value]
  }

  ghost predicate DofsPlaced(dofs: Dict<string, RobotDof>, inst: seq<set<InstancePath>>) {
    forall k :: k in dofs.m ==> DofPlaced(dofs.m[k], inst)
  }

  /** Both sides of `e` lie in the components recorded for them. */
  predicate EqualityPlaced(e: EqualityConstraint, inst: seq<set<InstancePath>>) {
    && e.leftComp.Some? && e.rightComp.Some?
    && e.leftComp.value < |inst| && e.rightComp.value < |inst|
    && e.left in inst[e.leftComp.value] && e.right in inst[e.rightComp.value]
  }

  ghost predicate EqualitiesPlaced(eqs: seq<EqualityConstraint>, inst: seq<set<InstancePath>>) {
    forall i :: 0 <= i < |eqs| ==> EqualityPlaced(eqs[i], inst)
  }

  /** Every site listed by a component names that component and is attached
      to one of its instances. */
  ghost predicate SitesPlaced(cs: seq<RobotComponent>) {
    forall c, s :: 0 <= c < |cs| && s in cs[c].sites ==> s.parentComp == Some(c) && s.parent in cs[c].instances
  }

  /** DOFs given the components of their two separate occurrences are placed. */
  lemma DofsPlacement(dofs: Dict<string, RobotDof>, index: map<InstancePath, nat>, inst: seq<set<InstancePath>>, placed: Dict<string, RobotDof>)
    requires Indexes(index, inst)
    requires placed.m.Keys == dofs.m.Keys
    requires forall k :: k in dofs.m ==> Separate(index, dofs.m[k]) && placed.m[k] == WithComps(index, dofs.m[k])
    ensures DofsPlaced(placed, inst)
  {
    forall k | k in placed.m
      ensures DofPlaced(placed.m[k], inst)
    {
      assert Separate(index, dofs.m[k]);
    }
  }

  /** Equality constraints given the components of their two sides are
      placed. */
  lemma EqualitiesPlacement(eqs: seq<EqualityConstraint>, index: map<InstancePath, nat>, inst: seq<set<InstancePath>>, placed: seq<EqualityConstraint>)
    requires Indexes(index, inst)
    requires |placed| == |eqs|
    requires forall i :: 0 <= i < |eqs| ==> eqs[i].left in index && eqs[i].right in index
    requires forall i :: 0 <= i < |eqs| ==>
      placed[i] == eqs[i].(leftComp := Some(index[eqs[i].left]), rightComp := Some(index[eqs[i].right]))
    ensures EqualitiesPlaced(placed, inst)
  {
    forall i | 0 <= i < |placed|
      ensures EqualityPlaced(placed[i], inst)
    {
      assert eqs[i].left in index && eqs[i].right in index;
    }
  }

  /** Sites given the component of their occurrence and grouped by component
      lie in that component. */
  lemma SitesPlacement(sites: seq<Site>, index: map<InstancePath, nat>, inst: seq<set<InstancePath>>, placed: seq<Site>, perComp: seq<seq<Site>>)
    requires Indexes(index, inst)
    requires Assigned(sites, index, placed) && Grouped(placed, perComp, |inst|)
    ensures SitesIn(perComp, inst)
  {
    forall c, s | 0 <= c < |inst| && s in perComp[c]
      ensures s.parentComp == Some(c) && s.parent in inst[c]
    {
      SitesAtMembers(placed, c);
      assert s in SitesAt(placed, c);
      var j :| 0 <= j < |placed| && placed[j] == s;
      assert sites[j].parent in index;
    }
  }

  /** Every site given the component of its occurrence lands in that
      component's list. */
  lemma SitesLanded(sites: seq<Site>, index: map<InstancePath, nat>, inst: seq<set<InstancePath>>, placed: seq<Site>, perComp: seq<seq<Site>>)
    requires Indexes(index, inst)
    requires Assigned(sites, index, placed) && Grouped(placed, perComp, |inst|)
    ensures LandedIn(sites, perComp)
  {
    forall j | 0 <= j < |sites| {
      SiteLanded(sites, index, inst, placed, perComp, j);
    }
  }

  /** Site `j` lands in the list of the component of its occurrence. */
  lemma SiteLanded(sites: seq<Site>, index: map<InstancePath, nat>, inst: seq<set<InstancePath>>, placed: seq<Site>, perComp: seq<seq<Site>>, j: nat)
    requires Indexes(index, inst)
    requires Assigned(sites, index, placed) && Grouped(placed, perComp, |inst|)
    requires j < |sites|
    ensures ListedIn(sites[j], perComp)
  {
    assert sites[j].parent in index;
    var c := index[sites[j].parent];
    assert c < |inst| && perComp[c] == SitesAt(placed, c);
    assert placed[j] == InComp(sites[j], c);
    SitesAtMembers(placed, c);
    assert placed[j] in perComp[c];
  }

  /** The site with its component set to `c`. */
  function InComp(s: Site, c: nat): Site {
    s.(parentComp := Some(c))
  }

  /** Every site listed for a component has that component and an occurrence
      in it. */
  ghost predicate SitesIn(perComp: seq<seq<Site>>, inst: seq<set<InstancePath>>) {
    forall c, s :: 0 <= c < |inst| && c < |perComp| && s in perComp[c] ==> s.parentComp == Some(c) && s.parent in inst[c]
  }

  /** Every site, with some component filled in, is listed for that
      component. */
  ghost predicate LandedIn(sites: seq<Site>, perComp: seq<seq<Site>>) {
    forall j :: 0 <= j < |sites| ==> ListedIn(sites[j], perComp)
  }

  /** The site, with some component filled in, is listed for that component. */
  ghost predicate ListedIn(s: Site, perComp: seq<seq<Site>>) {
    exists c: nat :: c < |perComp| && InComp(s, c) in perComp[c]
  }

  /** `dofs'` and `eqs'` are `dofs` and `eqs` with only their components
      changed. */
  ghost predicate Refilled(dofs: Dict<string, RobotDof>, eqs: seq<EqualityConstraint>,
                           dofs': Dict<string, RobotDof>, eqs': seq<EqualityConstraint>) {
    && dofs'.Valid() && dofs'.keys == dofs.keys && dofs'.m.Keys == dofs.m.Keys
    && (forall k :: k in dofs.m ==> dofs'.m[k].(childComp := dofs.m[k].childComp, parentComp := dofs.m[k].parentComp) == dofs.m[k])
    && |eqs'| == |eqs|
    && (forall i :: 0 <= i < |eqs| ==> eqs'[i].(leftComp := eqs[i].leftComp, rightComp := eqs[i].rightComp) == eqs[i])
  }

  /** Every site, with its component filled in, is in that component's list. */
  ghost predicate Landed(sites: seq<Site>, cs: seq<RobotComponent>) {
    forall j :: 0 <= j < |sites| ==> SiteIn(sites[j], cs)
  }

  /** The site, with some component filled in, is in that component's list. */
  ghost predicate SiteIn(s: Site, cs: seq<RobotComponent>) {
    exists c: nat :: c < |cs| && InComp(s, c) in cs[c].sites
  }

  /** The loops over the DOFs and the equality constraints: fill in the
      components of each, changing nothing else. */
  method PlaceDofs(dofs: Dict<string, RobotDof>, eqs: seq<EqualityConstraint>, index: map<InstancePath, nat>, ghost inst: seq<set<InstancePath>>)
    returns (r: Result<(Dict<string, RobotDof>, seq<EqualityConstraint>)>)
    requires dofs.Valid() && Indexes(index, inst)
    ensures r.Ok? <==>
      && (forall k :: k in dofs.m ==> Separate(index, dofs.m[k]))
      && (forall i :: 0 <= i < |eqs| ==> eqs[i].left in index && eqs[i].right in index)
      && (|eqs| > 0 ==> |dofs.keys| > 0)
    ensures (forall k :: k in dofs.m ==> Mapped(index, dofs.m[k])) && !(forall k :: k in dofs.m ==> Separate(index, dofs.m[k])) ==>
      r == Err(SelfLoop)
    ensures r.Ok? ==> Refilled(dofs, eqs, r.value.0, r.value.1)
    ensures r.Ok? ==> forall k :: k in dofs.m ==> r.value.0.m[k] == WithComps(index, dofs.m[k])
    ensures r.Ok? ==> DofsPlaced(r.value.0, inst) && EqualitiesPlaced(r.value.1, inst)
  {
    var filled := AssignDofs(dofs, index);
    if filled.Err? {
      return Err(filled.msg);
    }
    var placed := filled.value;
    DofsPlacement(dofs, index, inst, placed);
    if |dofs.keys| > 0 {
      StaleDofSeparate(dofs, index, placed);
    }
    var eqs' :- AssignEqualities(eqs, index, LastDof(placed));
    EqualitiesPlacement(eqs, index, inst, eqs');
    return Ok((placed, eqs'));
  }

  /** The loop over the sites and `comp.sites = sitesByIdx[idx]`: every
      component takes the sites of its instances, and every site lands in
      the component of its occurrence. */
  method PlaceSites(sites: seq<Site>, index: map<InstancePath, nat>, cs: seq<RobotComponent>) returns (r: Result<seq<RobotComponent>>)
    requires Indexes(index, InstanceSets(cs))
    ensures r.Ok? <==> forall j :: 0 <= j < |sites| ==> sites[j].parent in index
    ensures r.Ok? ==> |r.value| == |cs| && forall i :: 0 <= i < |cs| ==> r.value[i] == cs[i].(sites := r.value[i].sites)
    ensures r.Ok? ==> InstanceSets(r.value) == InstanceSets(cs) && SitesPlaced(r.value)
    ensures r.Ok? ==> Landed(sites, r.value)
    ensures r.Ok? ==> forall c :: 0 <= c < |cs| ==> r.value[c].sites == SitesAt(AssignedSites(sites, index), c)
  {
    var bySite :- AssignSites(sites, index, |cs|);
    assert bySite.0 == AssignedSites(sites, index);
    SitesPlacement(sites, index, InstanceSets(cs), bySite.0, bySite.1);
    SitesLanded(sites, index, InstanceSets(cs), bySite.0, bySite.1);
    var cs' := WithSites(cs, bySite.1, sites);
    return Ok(cs');
  }

  /** The sites, in order, each with the component of its occurrence under
      `pathToComponentIdx` filled in. */
  function AssignedSites(sites: seq<Site>, index: map<InstancePath, nat>): (placed: seq<Site>)
    requires forall j :: 0 <= j < |sites| ==> sites[j].parent in index
    ensures Assigned(sites, index, placed)
  {
    seq(|sites|, j requires 0 <= j < |sites| => InComp(sites[j], index[sites[j].parent]))
  }

  /** The sites, in order, each with the component holding its occurrence
      filled in. */
  ghost function LocatedSites(sites: seq<Site>, inst: seq<set<InstancePath>>): (placed: seq<Site>)
    requires forall j :: 0 <= j < |sites| ==> Covered(inst, sites[j].parent)
    ensures |placed| == |sites|
    ensures forall j :: 0 <= j < |sites| ==> placed[j].parentComp.Some? && placed[j].(parentComp := sites[j].parentComp) == sites[j]
    ensures forall j :: 0 <= j < |sites| ==> placed[j].parentComp.value < |inst| && sites[j].parent in inst[placed[j].parentComp.value]
  {
    seq(|sites|, j requires 0 <= j < |sites| => InComp(sites[j], CompOf(inst, sites[j].parent)))
  }

  /** Every site's occurrence lies in a component, and each component's list
      holds exactly the sites of its occurrences, in the order they were
      found. */
  ghost predicate SitesGrouped(sites: seq<Site>, cs: seq<RobotComponent>) {
    && (forall j :: 0 <= j < |sites| ==> Covered(InstanceSets(cs), sites[j].parent))
    && forall c :: 0 <= c < |cs| ==> cs[c].sites == SitesAt(LocatedSites(sites, InstanceSets(cs)), c)
  }

  /** Over disjoint components the index assigns each site the component
      holding its occurrence. */
  lemma AssignedLocated(sites: seq<Site>, index: map<InstancePath, nat>, inst: seq<set<InstancePath>>)
    requires IndexedBy(index, inst)
    requires forall j :: 0 <= j < |sites| ==> sites[j].parent in index
    ensures forall j :: 0 <= j < |sites| ==> Covered(inst, sites[j].parent)
    ensures AssignedSites(sites, index) == LocatedSites(sites, inst)
  {
    forall j | 0 <= j < |sites|
      ensures CompOf(inst, sites[j].parent) == index[sites[j].parent]
    {
      assert Covered(inst, sites[j].parent);
    }
  }

  /** Each component with the sites listed for it. */
  function WithSites(cs: seq<RobotComponent>, perComp: seq<seq<Site>>, ghost sites: seq<Site>): (cs': seq<RobotComponent>)
    requires |perComp| == |cs|
    ensures |cs'| == |cs| && forall i :: 0 <= i < |cs| ==> cs'[i] == cs[i].(sites := perComp[i])
    ensures InstanceSets(cs') == InstanceSets(cs)
    ensures SitesIn(perComp, InstanceSets(cs)) ==> SitesPlaced(cs')
    ensures LandedIn(sites, perComp) ==> Landed(sites, cs')
  {
    var cs' := seq(|cs|, i requires 0 <= i < |cs| => cs[i].(sites := perComp[i]));
    assert InstanceSets(cs') == InstanceSets(cs);
    assert LandedIn(sites, perComp) ==> Landed(sites, cs') by {
      if LandedIn(sites, perComp) {
        forall j | 0 <= j < |sites|
          ensures SiteIn(sites[j], cs')
        {
          var c :| 0 <= c < |perComp| && InComp(sites[j], c) in perComp[c];
          assert cs'[c].sites == perComp[c];
          assert InComp(sites[j], c) in cs'[c].sites;
        }
        assert Landed(sites, cs');
      }
    }
    assert SitesIn(perComp, InstanceSets(cs)) ==> SitesPlaced(cs') by {
      if SitesIn(perComp, InstanceSets(cs)) {
        forall c, s | 0 <= c < |cs'| && s in cs'[c].sites
          ensures s.parentComp == Some(c) && s.parent in cs'[c].instances
        {
          assert cs'[c].sites == perComp[c] && cs'[c].instances == InstanceSets(cs)[c];
        }
      }
    }
    cs'
  }

  /** The edges handed to the graph, one per DOF in key order: parent
      component, child component and the DOF's name. */
  function DofArcs(dofs: Dict<string, RobotDof>): seq<Arc>
    requires dofs.Valid()
    requires forall k :: k in dofs.m ==> dofs.m[k].childComp.Some? && dofs.m[k].parentComp.Some?
  {
    seq(|dofs.keys|, i requires 0 <= i < |dofs.keys| && dofs.Valid() =>
      (dofs.m[dofs.keys[i]].parentComp.value, dofs.m[dofs.keys[i]].childComp.value, dofs.m[dofs.keys[i]].name))
  }

  /** The edge `e`, listed for component `u`, leaves `u`, does not enter the
      root, and is an edge of the graph carrying that edge's DOF name. */
  predicate Carried(arcs: seq<Arc>, root: nat, u: nat, e: ComponentEdge) {
    && e.u == u && e.v != root
    && FindArc(arcs, u, e.v).Some? && e.dofName == arcs[FindArc(arcs, u, e.v).value].2
  }

  /** `componentEdges` over the components `0 .. n-1`: every component has a
      list, every listed edge is carried by the graph, and every component
      other than the root is entered by a listed edge. */
  ghost predicate Oriented(arcs: seq<Arc>, root: nat, n: nat, edges: map<nat, seq<ComponentEdge>>) {
    && edges.Keys == Range(n)
    && (forall u, i :: u in edges && 0 <= i < |edges[u]| ==> Carried(arcs, root, u, edges[u][i]))
    && forall v :: v in edges && v != root ==> exists u :: u in edges && v in Targets(edges[u])
  }

  /** Every edge the child lists of a search tree hold is carried by the
      graph. */
  lemma TreeCarried(arcs: seq<Arc>, root: nat, n: nat, tree: seq<ComponentEdge>, edges: map<nat, seq<ComponentEdge>>)
    requires Weighted(arcs, tree) && root !in Targets(tree)
    requires edges.Keys == Range(n) && forall u :: 0 <= u < n ==> edges[u] == ChildEdges(tree, u)
    ensures forall u, i :: u in edges && 0 <= i < |edges[u]| ==> Carried(arcs, root, u, edges[u][i])
  {
    forall u, i | u in edges && 0 <= i < |edges[u]|
      ensures Carried(arcs, root, u, edges[u][i])
    {
      var e := edges[u][i];
      ChildEdgesOf(tree, u);
      assert e in ChildEdges(tree, u);
      var j :| 0 <= j < |tree| && tree[j] == e;
      assert Targets(tree)[j] == e.v;
    }
  }

  /** The child lists of a search tree that reaches every component enter
      every component other than the root. */
  lemma TreeEntered(root: nat, n: nat, tree: seq<ComponentEdge>, edges: map<nat, seq<ComponentEdge>>)
    requires forall x: nat :: x < n && x != root ==> x in Targets(tree)
    requires forall i :: 0 <= i < |tree| ==> tree[i].u < n
    requires edges.Keys == Range(n) && forall u :: 0 <= u < n ==> edges[u] == ChildEdges(tree, u)
    ensures forall v :: v in edges && v != root ==> exists u :: u in edges && v in Targets(edges[u])
  {
    forall v | v in edges && v != root
      ensures exists u :: u in edges && v in Targets(edges[u])
    {
      assert v in Targets(tree);
      var j :| 0 <= j < |tree| && Targets(tree)[j] == v;
      var e := tree[j];
      assert e in tree && e.u < n;
      ChildEdgesOf(tree, e.u);
      assert edges[e.u] == ChildEdges(tree, e.u) && e in ChildEdges(tree, e.u);
      TargetIn(edges[e.u], e);
    }
  }

  /** The child of a listed edge is among the list's targets. */
  lemma TargetIn(es: seq<ComponentEdge>, e: ComponentEdge)
    requires e in es
    ensures e.v in Targets(es)
  {
    var k :| 0 <= k < |es| && es[k] == e;
    assert Targets(es)[k] == e.v;
  }

  /** The DOF names, which `findComponents` is handed as its excluded set. */
  function DofKeys(dofs: Dict<string, RobotDof>): (ks: set<Key>)
    ensures forall k :: k in ks <==> k.NameKey? && k.name in dofs.keys
  {
    set k | k in dofs.keys :: NameKey(k)
  }

  /** The first half of `from_onshape`: the DOFs, equality constraints and
      sites of the root assembly, the connected components of the rigid-mate
      graph described one by one, the part references met on the way, and
      the instance tree of the root assembly's occurrences. */
  method Decompose(src: Source, iterate: set<InstancePath> -> seq<InstancePath>)
    returns (r: Result<(Classified, seq<RobotComponent>, map<PartRef, PartUse>, map<InstancePath, set<InstancePath>>)>)
    requires WellFormed(src.doc)
    requires forall s :: Lists(iterate(s), s)
    ensures r.Ok? <==> FirstHalf(src, iterate)
    ensures r.Ok? ==> BuildDofsSpec(src) == Ok(r.value.0) && r.value.0.dofs.Valid()
    ensures r.Ok? ==> forall k :: k in r.value.0.dofs.m ==> r.value.0.dofs.m[k].childComp.None? && r.value.0.dofs.m[k].parentComp.None?
    ensures r.Ok? ==> RigidEdges(src.doc, DofKeys(r.value.0.dofs)).Ok?
    ensures r.Ok? ==> ComponentsOf(InstanceSets(r.value.1), RigidEdges(src.doc, DofKeys(r.value.0.dofs)).value)
    ensures r.Ok? ==> Components.FirstSeenOrder(InstanceSets(r.value.1), Components.Dedup(Components.Endpoints(RigidEdges(src.doc, DofKeys(r.value.0.dofs)).value)))
    ensures r.Ok? ==> forall i :: 0 <= i < |r.value.1| ==>
      r.value.1[i].idx == i && r.value.1[i].name == FormatName(r.value.1[i].originalName) && r.value.1[i].sites == []
    ensures r.Ok? ==> Recorded(src.doc, r.value.2)
    ensures r.Ok? ==> forall i, p :: 0 <= i < |r.value.1| && p in r.value.1[i].parts ==> HasUse(src.doc, p, r.value.2)
    ensures r.Ok? ==> r.value.2.Keys == ComponentRefs(src.doc, r.value.1) && UsesOfParts(src.doc, r.value.1, r.value.2)
    ensures r.Ok? ==> Overwritten(map[], MetUses(src.doc, InstanceSets(r.value.1), iterate, |r.value.1|), r.value.2)
    ensures r.Ok? ==> forall p :: p in r.value.3 <==>
      p.root == src.doc.rootAssemblyId && exists q :: q in src.doc.occurrences.keys && Under(p.elements, q)
    ensures r.Ok? ==> DescribedAgainst(src.doc, r.value.1)
  {
    var doc := src.doc;
    var built :- BuildDofs(src);
    BuildDofsSound(src);
    var comps :- FindComponents(doc, DofKeys(built.dofs));
    var occTree :- MakeOccurranceTree(doc.occurrences.keys);
    var instanceTree := InstanceTree(doc.rootAssemblyId, occTree);
    assert OccurrenceTree(doc, occTree);
    var described := DescribeComponents(doc, comps, iterate, occTree);
    FirstHalfAt(src, iterate, comps, occTree);
    if described.Err? {
      return Err(described.msg);
    }
    assert InstanceSets(described.value.0) == comps;
    return Ok((built, described.value.0, described.value.1, instanceTree));
  }

  /** The first half of `from_onshape` gets through: the DOFs are found, the
      rigid-mate graph is built, some occurrence path is more than the root
      itself, and the connected component of every node of the graph, listed
      in the order `iterate` gives, can be described against the tree of the
      occurrence paths. */
  ghost predicate FirstHalf(src: Source, iterate: set<InstancePath> -> seq<InstancePath>)
    requires WellFormed(src.doc)
  {
    && BuildDofsSpec(src).Ok?
    && RigidEdges(src.doc, DofKeys(BuildDofsSpec(src).value.dofs)).Ok?
    && (exists q :: q in src.doc.occurrences.keys && |q.elements| > 0)
    && NodesDescribable(src.doc, iterate, RigidEdges(src.doc, DofKeys(BuildDofsSpec(src).value.dofs)).value)
  }

  /** The connected component of every node of the graph `E`, listed in the
      order `iterate` gives, can be described against the tree of the
      occurrence paths. */
  ghost predicate NodesDescribable(doc: Document, iterate: set<InstancePath> -> seq<InstancePath>, E: seq<Edge>)
    requires doc.assemblies.Valid()
  {
    forall t, x :: OccurrenceTree(doc, t) && x in Graphs.Nodes(E) ==> Describable(doc, iterate(ComponentOf(E, x)), t)
  }

  /** Once the DOFs, the components and the occurrence tree are found, the
      first half gets through exactly when every component, as listed, can
      be described. */
  lemma FirstHalfAt(src: Source, iterate: set<InstancePath> -> seq<InstancePath>, comps: seq<set<InstancePath>>, t: Tree)
    requires WellFormed(src.doc) && BuildDofsSpec(src).Ok?
    requires RigidEdges(src.doc, DofKeys(BuildDofsSpec(src).value.dofs)).Ok?
    requires ComponentsOf(comps, RigidEdges(src.doc, DofKeys(BuildDofsSpec(src).value.dofs)).value)
    requires OccurrenceTree(src.doc, t) && exists q :: q in src.doc.occurrences.keys && |q.elements| > 0
    ensures FirstHalf(src, iterate) <==> forall i :: 0 <= i < |comps| ==> Describable(src.doc, iterate(comps[i]), t)
  {
    var E := RigidEdges(src.doc, DofKeys(BuildDofsSpec(src).value.dofs)).value;
    if forall i :: 0 <= i < |comps| ==> Describable(src.doc, iterate(comps[i]), t) {
      EveryNodeDescribable(src.doc, iterate, comps, E, t);
    }
    if NodesDescribable(src.doc, iterate, E) {
      ListedDescribable(src.doc, iterate, comps, E, t);
    }
  }

  /** Conversely, when the component of every node can be described against
      `t`, so can every listed component. */
  lemma ListedDescribable(doc: Document, iterate: set<InstancePath> -> seq<InstancePath>, comps: seq<set<InstancePath>>, E: seq<Edge>, t: Tree)
    requires doc.assemblies.Valid() && ComponentsOf(comps, E) && OccurrenceTree(doc, t)
    requires NodesDescribable(doc, iterate, E)
    ensures forall i :: 0 <= i < |comps| ==> Describable(doc, iterate(comps[i]), t)
  {
    forall i | 0 <= i < |comps|
      ensures Describable(doc, iterate(comps[i]), t)
    {
      assert comps[i] != {};
      var x :| x in comps[i];
      ComponentsAreClasses(comps, E, i, x);
    }
  }

  /** When every listed component can be described against `t`, the
      component of every node of the graph can be, against any tree of the
      occurrence paths. */
  lemma EveryNodeDescribable(doc: Document, iterate: set<InstancePath> -> seq<InstancePath>, comps: seq<set<InstancePath>>, E: seq<Edge>, t: Tree)
    requires doc.assemblies.Valid() && ComponentsOf(comps, E) && OccurrenceTree(doc, t)
    requires forall i :: 0 <= i < |comps| ==> Describable(doc, iterate(comps[i]), t)
    ensures NodesDescribable(doc, iterate, E)
  {
    forall t', x | OccurrenceTree(doc, t') && x in Graphs.Nodes(E)
      ensures Describable(doc, iterate(ComponentOf(E, x)), t')
    {
      var i :| 0 <= i < |comps| && x in comps[i];
      ComponentsAreClasses(comps, E, i, x);
      DescribableElsewhere(doc, iterate(comps[i]), t, t');
    }
  }

  /** Whether a listing can be described depends on the tree of the
      occurrence paths only through its nodes, which the paths fix. */
  lemma DescribableElsewhere(doc: Document, order: seq<InstancePath>, t: Tree, t': Tree)
    requires doc.assemblies.Valid() && OccurrenceTree(doc, t) && OccurrenceTree(doc, t')
    requires Describable(doc, order, t)
    ensures Describable(doc, order, t')
  {
    assert t'.nodes == t.nodes;
  }

  /** `t` is the prefix tree of the occurrence paths of the root assembly. */
  ghost predicate OccurrenceTree(doc: Document, t: Tree) {
    PrefixTree(t) && forall n :: n in t.nodes <==> exists q :: q in doc.occurrences.keys && Under(n, q)
  }

  /** Each component describes the connected component it holds against
      the tree of the occurrence paths. */
  ghost predicate DescribedAgainst(doc: Document, cs: seq<RobotComponent>)
    requires doc.assemblies.Valid()
  {
    exists t :: OccurrenceTree(doc, t) && AllDescribed(doc, InstanceSets(cs), t, cs)
  }

  /** Giving the components their sites keeps what describes them. */
  lemma DescribedAfterSites(doc: Document, cs: seq<RobotComponent>, cs': seq<RobotComponent>)
    requires doc.assemblies.Valid() && DescribedAgainst(doc, cs)
    requires |cs'| == |cs| && forall i :: 0 <= i < |cs| ==> cs'[i] == cs[i].(sites := cs'[i].sites)
    ensures DescribedAgainst(doc, cs')
  {
    var t :| OccurrenceTree(doc, t) && AllDescribed(doc, InstanceSets(cs), t, cs);
    forall i | 0 <= i < |cs'|
      ensures Described(doc, InstanceSets(cs')[i], t, cs'[i])
    {
      assert Described(doc, InstanceSets(cs)[i], t, cs[i]);
      assert cs'[i].instances == cs[i].instances && cs'[i].originalName == cs[i].originalName;
      assert cs'[i].parts == cs[i].parts && cs'[i].partTree == cs[i].partTree && cs'[i].rootInstances == cs[i].rootInstances;
    }
    assert AllDescribed(doc, InstanceSets(cs'), t, cs');
  }

  /** `RobotDescription`: the placed DOFs and equality constraints, the root
      component, each component's child edges, the components, a mesh per
      part reference and the instance tree. */
  datatype Description = Description(
    dofs: Dict<string, RobotDof>,
    equalities: seq<EqualityConstraint>,
    rootComponentIdx: nat,
    componentEdges: map<nat, seq<ComponentEdge>>,
    components: seq<RobotComponent>,
    meshes: map<PartRef, Mesh>,
    instanceTree: map<InstancePath, set<InstancePath>>)

  /** The DOFs, equality constraints and components keep what `buildDofs`
      found: the same DOFs and as many equality constraints, with nothing but
      their components changed, and every site, with its component filled
      in, in that component's list. */
  ghost predicate KeepsClassified(found: Classified, dofs: Dict<string, RobotDof>, eqs: seq<EqualityConstraint>, cs: seq<RobotComponent>) {
    Refilled(found.dofs, found.equalities, dofs, eqs) && Landed(found.sites, cs)
  }

  /** The components are numbered in order and named after their formatted
      original names, and every DOF, equality constraint and site is placed
      in components holding its occurrences. */
  ghost predicate Placed(dofs: Dict<string, RobotDof>, eqs: seq<EqualityConstraint>, cs: seq<RobotComponent>) {
    && (forall i :: 0 <= i < |cs| ==> cs[i].idx == i && cs[i].name == FormatName(cs[i].originalName))
    && DofsPlaced(dofs, InstanceSets(cs))
    && EqualitiesPlaced(eqs, InstanceSets(cs))
    && SitesPlaced(cs)
  }

  /** Exactly one component carries the root name, and it is `root`. */
  ghost predicate Rooted(cs: seq<RobotComponent>, root: nat, rootName: string) {
    && root < |cs| && cs[root].originalName == rootName
    && forall j :: 0 <= j < |cs| && j != root ==> cs[j].originalName != rootName
  }

  /** The DOF graph over the components `0 .. n-1` is a single tree, and the
      child lists orient it from `root`. */
  ghost predicate Spanning(dofs: Dict<string, RobotDof>, n: nat, root: nat, edges: map<nat, seq<ComponentEdge>>) {
    && dofs.Valid()
    && (forall k :: k in dofs.m ==> dofs.m[k].childComp.Some? && dofs.m[k].parentComp.Some?)
    && Graphs.Forest(Pairs(MergeArcs(DofArcs(dofs))))
    && (forall x: nat :: x < n ==> Graphs.Connected(Pairs(MergeArcs(DofArcs(dofs))), root, x))
    && Oriented(MergeArcs(DofArcs(dofs)), root, n, edges)
    && exists tree :: SearchTree(MergeArcs(DofArcs(dofs)), root, n, tree, edges)
  }

  /** `edges` groups by parent the edges of `tree`, a breadth-first tree of
      the graph over the components `0 .. n-1`: `n - 1` edges of the graph,
      each entering a different component other than the root, each leaving
      the root or a component an earlier edge entered, and together entering
      every component other than the root. */
  ghost predicate SearchTree(arcs: seq<Arc>, root: nat, n: nat, tree: seq<ComponentEdge>, edges: map<nat, seq<ComponentEdge>>) {
    && Weighted(arcs, tree)
    && root !in Targets(tree) && Distinct(Targets(tree))
    && Outward(tree, root)
    && (forall x: nat :: x < n && x != root ==> x in Targets(tree))
    && |tree| == n - 1
    && edges.Keys == Range(n)
    && forall u :: 0 <= u < n ==> edges[u] == ChildEdges(tree, u)
  }

  /** Every part of every component has a mesh keyed by its part reference;
      each mesh keeps its reference and the reference's digest; and the mesh
      names are given as the naming loop as written gives them over the
      references in increasing order (`NamedInOrder`). */
  ghost predicate PartsHaveMeshes(doc: Document, digest: PartRef -> string, cs: seq<RobotComponent>, meshes: map<PartRef, Mesh>) {
    && doc.assemblies.Valid()
    && (forall i, p :: 0 <= i < |cs| && p in cs[i].parts ==> IsPartPath(doc, p) && UseAt(doc, p).ref in meshes)
    && (forall ref :: ref in meshes ==> meshes[ref].ref == ref && meshes[ref].partHash == digest(ref))
    && NamedInOrder(digest, meshes)
  }

  /** Giving the components their sites keeps their numbers, names and
      instances, so whatever was placed in them stays placed. */
  lemma PlacedAfter(cs: seq<RobotComponent>, dofs: Dict<string, RobotDof>, eqs: seq<EqualityConstraint>, cs': seq<RobotComponent>)
    requires |cs'| == |cs| && forall i :: 0 <= i < |cs| ==> cs'[i] == cs[i].(sites := cs'[i].sites)
    requires forall i :: 0 <= i < |cs| ==> cs[i].idx == i && cs[i].name == FormatName(cs[i].originalName)
    requires InstanceSets(cs') == InstanceSets(cs)
    requires DofsPlaced(dofs, InstanceSets(cs)) && EqualitiesPlaced(eqs, InstanceSets(cs))
    requires SitesPlaced(cs')
    ensures Placed(dofs, eqs, cs')
  {
    forall i | 0 <= i < |cs'|
      ensures cs'[i].idx == i && cs'[i].name == FormatName(cs'[i].originalName)
    {
      assert cs'[i] == cs[i].(sites := cs'[i].sites);
    }
  }

  /** The path lies in some component. */
  ghost predicate Covered(inst: seq<set<InstancePath>>, x: InstancePath) {
    exists i :: 0 <= i < |inst| && x in inst[i]
  }

  /** The two occurrences of `d` lie in two different components. */
  ghost predicate Joins(inst: seq<set<InstancePath>>, d: RobotDof) {
    exists i, j :: 0 <= i < |inst| && 0 <= j < |inst| && i != j && d.child in inst[i] && d.parent in inst[j]
  }

  /** Both occurrences of every DOF lie in some component. */
  ghost predicate DofsCovered(dofs: Dict<string, RobotDof>, inst: seq<set<InstancePath>>) {
    forall k :: k in dofs.m ==> Covered(inst, dofs.m[k].child) && Covered(inst, dofs.m[k].parent)
  }

  /** Every DOF has both occurrences in some component, and some DOF has
      both in the same one. */
  ghost predicate SelfLooped(dofs: Dict<string, RobotDof>, inst: seq<set<InstancePath>>) {
    DofsCovered(dofs, inst) && exists k :: k in dofs.m && !Joins(inst, dofs.m[k])
  }

  /** What placing the DOFs, equality constraints and sites needs of the
      components: every DOF joins two different components; both sides of
      every equality constraint and the occurrence of every site lie in some
      component; and equality constraints come with at least one DOF, since
      the self-loop test made for them reads the DOF left over from the DOF
      loop. */
  ghost predicate Attachable(found: Classified, inst: seq<set<InstancePath>>) {
    && (forall k :: k in found.dofs.m ==> Joins(inst, found.dofs.m[k]))
    && (forall i :: 0 <= i < |found.equalities| ==>
          Covered(inst, found.equalities[i].left) && Covered(inst, found.equalities[i].right))
    && (|found.equalities| > 0 ==> |found.dofs.keys| > 0)
    && (forall j :: 0 <= j < |found.sites| ==> Covered(inst, found.sites[j].parent))
  }

  /** `pathToComponentIdx` over disjoint components: it holds exactly the
      covered paths, each sent to its own component. */
  ghost predicate IndexedBy(index: map<InstancePath, nat>, inst: seq<set<InstancePath>>) {
    && (forall x :: x in index <==> Covered(inst, x))
    && (forall i, x :: 0 <= i < |inst| && x in inst[i] ==> x in index && index[x] == i)
  }

  /** The component holding a covered path. */
  ghost function CompOf(inst: seq<set<InstancePath>>, x: InstancePath): (i: nat)
    requires Covered(inst, x)
    ensures i < |inst| && x in inst[i]
  {
    var i :| 0 <= i < |inst| && x in inst[i]; i
  }

  /** The DOF with the components of its occurrences filled in. */
  ghost function Located(inst: seq<set<InstancePath>>, d: RobotDof): (e: RobotDof)
    requires Covered(inst, d.child) && Covered(inst, d.parent)
    ensures e.childComp.Some? && e.parentComp.Some?
    ensures e.(childComp := d.childComp, parentComp := d.parentComp) == d
  {
    d.(childComp := Some(CompOf(inst, d.child)), parentComp := Some(CompOf(inst, d.parent)))
  }

  /** The DOFs, in the same order, each with the components of its
      occurrences filled in. */
  ghost function LocatedDofs(dofs: Dict<string, RobotDof>, inst: seq<set<InstancePath>>): (d: Dict<string, RobotDof>)
    requires DofsCovered(dofs, inst)
    ensures dofs.Valid() ==> d.Valid()
    ensures d.keys == dofs.keys && d.m.Keys == dofs.m.Keys && Filled(d)
  {
    Dict(dofs.keys, map k | k in dofs.m :: Located(inst, dofs.m[k]))
  }

  /** Over disjoint components, a DOF is separate under the index exactly
      when it joins two different components. */
  lemma SeparateJoins(index: map<InstancePath, nat>, inst: seq<set<InstancePath>>, d: RobotDof)
    requires IndexedBy(index, inst)
    ensures Separate(index, d) <==> Joins(inst, d)
  {
    if Joins(inst, d) {
      var i, j :| 0 <= i < |inst| && 0 <= j < |inst| && i != j && d.child in inst[i] && d.parent in inst[j];
      assert index[d.child] == i && index[d.parent] == j;
    }
    if Separate(index, d) {
      var i, j := index[d.child], index[d.parent];
      assert Covered(inst, d.child);
      var i' :| 0 <= i' < |inst| && d.child in inst[i'];
      var j' :| 0 <= j' < |inst| && d.parent in inst[j'] by {
        assert Covered(inst, d.parent);
      }
      assert i' == i && j' == j;
    }
  }

  /** Over disjoint components, what placing needs of the index is what
      `Attachable` asks of the components. */
  lemma AttachableIndexed(found: Classified, index: map<InstancePath, nat>, inst: seq<set<InstancePath>>)
    requires IndexedBy(index, inst)
    ensures Attachable(found, inst) <==>
      && (forall k :: k in found.dofs.m ==> Separate(index, found.dofs.m[k]))
      && (forall i :: 0 <= i < |found.equalities| ==> found.equalities[i].left in index && found.equalities[i].right in index)
      && (|found.equalities| > 0 ==> |found.dofs.keys| > 0)
      && (forall j :: 0 <= j < |found.sites| ==> found.sites[j].parent in index)
    ensures DofsCovered(found.dofs, inst) <==> forall k :: k in found.dofs.m ==> Mapped(index, found.dofs.m[k])
  {
    forall k | k in found.dofs.m
      ensures Separate(index, found.dofs.m[k]) <==> Joins(inst, found.dofs.m[k])
    {
      SeparateJoins(index, inst, found.dofs.m[k]);
    }
  }

  /** Over disjoint components, the DOFs with their components filled in from
      the index are the located DOFs. */
  lemma LocatedPlaced(dofs: Dict<string, RobotDof>, index: map<InstancePath, nat>, inst: seq<set<InstancePath>>, placed: Dict<string, RobotDof>)
    requires IndexedBy(index, inst)
    requires placed.keys == dofs.keys && placed.m.Keys == dofs.m.Keys
    requires forall k :: k in dofs.m ==> Separate(index, dofs.m[k]) && placed.m[k] == WithComps(index, dofs.m[k])
    ensures DofsCovered(dofs, inst) && placed == LocatedDofs(dofs, inst)
  {
    assert DofsCovered(dofs, inst);
    var located := LocatedDofs(dofs, inst);
    forall k | k in dofs.m
      ensures placed.m[k] == located.m[k]
    {
      var d := dofs.m[k];
      assert CompOf(inst, d.child) == index[d.child];
      assert CompOf(inst, d.parent) == index[d.parent];
    }
    assert placed.m == located.m;
  }

  /** `pathToComponentIdx` and the loops over the DOFs, the equality
      constraints and the sites: the result keeps what `buildDofs` found and
      places it; the components change only in their sites. Over disjoint
      components it succeeds exactly when `Attachable` holds, a DOF both of
      whose occurrences lie in one component fails it with the self-loop
      message, and the DOFs come out located. */
  method Attach(found: Classified, cs: seq<RobotComponent>)
    returns (r: Result<(Dict<string, RobotDof>, seq<EqualityConstraint>, seq<RobotComponent>)>)
    requires found.dofs.Valid()
    requires forall i :: 0 <= i < |cs| ==> cs[i].idx == i && cs[i].name == FormatName(cs[i].originalName)
    ensures Disjoint(InstanceSets(cs)) ==> (r.Ok? <==> Attachable(found, InstanceSets(cs)))
    ensures Disjoint(InstanceSets(cs)) && SelfLooped(found.dofs, InstanceSets(cs)) ==> r == Err(SelfLoop)
    ensures Disjoint(InstanceSets(cs)) && r.Ok? ==>
      DofsCovered(found.dofs, InstanceSets(cs)) && r.value.0 == LocatedDofs(found.dofs, InstanceSets(cs))
    ensures r.Ok? ==> KeepsClassified(found, r.value.0, r.value.1, r.value.2)
    ensures r.Ok? ==> Placed(r.value.0, r.value.1, r.value.2)
    ensures r.Ok? ==> |r.value.2| == |cs| && forall i :: 0 <= i < |cs| ==> r.value.2[i] == cs[i].(sites := r.value.2[i].sites)
    ensures r.Ok? ==> InstanceSets(r.value.2) == InstanceSets(cs)
    ensures Disjoint(InstanceSets(cs)) && r.Ok? ==> SitesGrouped(found.sites, r.value.2)
  {
    ghost var inst := InstanceSets(cs);
    var index := IndexComponents(InstanceSets(cs));
    if Disjoint(inst) {
      assert IndexedBy(index, inst);
      AttachableIndexed(found, index, inst);
    }
    var placed :- PlaceDofs(found.dofs, found.equalities, index, InstanceSets(cs));
    if Disjoint(inst) {
      LocatedPlaced(found.dofs, index, inst, placed.0);
    }
    var cs' :- PlaceSites(found.sites, index, cs);
    if Disjoint(inst) {
      AssignedLocated(found.sites, index, inst);
    }
    PlacedAfter(cs, placed.0, placed.1, cs');
    return Ok((placed.0, placed.1, cs'));
  }

  /** The arcs of placed DOFs join components below `n`. */
  lemma DofArcsBelow(dofs: Dict<string, RobotDof>, inst: seq<set<InstancePath>>)
    requires dofs.Valid() && DofsPlaced(dofs, inst)
    ensures forall k :: k in dofs.m ==> dofs.m[k].childComp.Some? && dofs.m[k].parentComp.Some?
    ensures forall i :: 0 <= i < |DofArcs(dofs)| ==> DofArcs(dofs)[i].0 < |inst| && DofArcs(dofs)[i].1 < |inst|
  {
    forall i | 0 <= i < |DofArcs(dofs)|
      ensures DofArcs(dofs)[i].0 < |inst| && DofArcs(dofs)[i].1 < |inst|
    {
      assert DofPlaced(dofs.m[dofs.keys[i]], inst);
    }
  }

  /** No component carries the root name. */
  ghost predicate NoneNamed(cs: seq<RobotComponent>, rootName: string) {
    forall i :: 0 <= i < |cs| ==> cs[i].originalName != rootName
  }

  /** Two components carry the root name. */
  ghost predicate TwoNamed(cs: seq<RobotComponent>, rootName: string) {
    exists i, j :: 0 <= i < j < |cs| && cs[i].originalName == rootName && cs[j].originalName == rootName
  }

  /** Exactly one component carries the root name. */
  ghost predicate OneRoot(cs: seq<RobotComponent>, rootName: string) {
    exists root :: Rooted(cs, root, rootName)
  }

  /** Every DOF has both its components. */
  ghost predicate Filled(dofs: Dict<string, RobotDof>) {
    forall k :: k in dofs.m ==> dofs.m[k].childComp.Some? && dofs.m[k].parentComp.Some?
  }

  /** The DOF graph has no cycle. */
  ghost predicate DofForest(dofs: Dict<string, RobotDof>)
    requires dofs.Valid() && Filled(dofs)
  {
    Graphs.Forest(Pairs(MergeArcs(DofArcs(dofs))))
  }

  /** The DOF graph over the components `0 .. n-1` has no cycle and joins
      `root` to every component. */
  ghost predicate DofTree(dofs: Dict<string, RobotDof>, n: nat, root: nat)
    requires dofs.Valid() && Filled(dofs)
  {
    DofForest(dofs) && forall x: nat :: x < n ==> Graphs.Connected(Pairs(MergeArcs(DofArcs(dofs))), root, x)
  }

  /** With no component carrying the root name there is no root. */
  lemma NoneNamedNoRoot(cs: seq<RobotComponent>, rootName: string)
    requires NoneNamed(cs, rootName)
    ensures !OneRoot(cs, rootName)
  {
  }

  /** With two components carrying the root name there is no single root. */
  lemma TwoNamedNoRoot(cs: seq<RobotComponent>, rootName: string)
    requires TwoNamed(cs, rootName)
    ensures !OneRoot(cs, rootName)
  {
    var i, j :| 0 <= i < j < |cs| && cs[i].originalName == rootName && cs[j].originalName == rootName;
    forall root | 0 <= root < |cs| && cs[root].originalName == rootName
      ensures exists k :: 0 <= k < |cs| && k != root && cs[k].originalName == rootName
    {
      if i != root {
        assert cs[i].originalName == rootName;
      } else {
        assert j != root && cs[j].originalName == rootName;
      }
    }
  }

  /** The root is the only component carrying the root name. */
  lemma RootedUnique(cs: seq<RobotComponent>, rootName: string, root: nat)
    requires Rooted(cs, root, rootName)
    ensures forall r :: Rooted(cs, r, rootName) ==> r == root
  {
  }

  /** The root search over the components' original names. */
  method RootOf(cs: seq<RobotComponent>, rootName: string) returns (r: Result<nat>)
    ensures r.Ok? || r == Err(NoRoot) || r == Err(ManyRoots)
    ensures r.Ok? ==> Rooted(cs, r.value, rootName)
    ensures r.Ok? ==> forall root :: Rooted(cs, root, rootName) ==> root == r.value
    ensures r.Err? ==> !OneRoot(cs, rootName)
    ensures r == Err(NoRoot) <==> NoneNamed(cs, rootName)
    ensures r == Err(ManyRoots) <==> TwoNamed(cs, rootName)
  {
    var names: seq<string> := seq(|cs|, i requires 0 <= i < |cs| => cs[i].originalName);
    assert forall i :: 0 <= i < |cs| ==> names[i] == cs[i].originalName;
    r := FindRoot(names, rootName);
    assert TwoNamed(cs, rootName) <==> r == Err(ManyRoots) by {
      if TwoNamed(cs, rootName) {
        var i, j :| 0 <= i < j < |cs| && cs[i].originalName == rootName && cs[j].originalName == rootName;
        assert names[i] == rootName && names[j] == rootName;
      }
    }
    if r == Err(NoRoot) {
      NoneNamedNoRoot(cs, rootName);
    } else if r == Err(ManyRoots) {
      TwoNamedNoRoot(cs, rootName);
    } else {
      RootedUnique(cs, rootName, r.value);
    }
  }

  /** The root search and the kinematic tree: exactly one component is named
      `rootName`, and the DOF graph over the components is a single tree that
      the search from the root orients. It fails with the root-search error
      exactly when no component or two components carry the name, and with
      the cycle error exactly when there is one root but the DOF graph has a
      cycle; it succeeds exactly when the graph is a tree under the root. */
  method Orient(dofs: Dict<string, RobotDof>, cs: seq<RobotComponent>, rootName: string)
    returns (r: Result<(nat, map<nat, seq<ComponentEdge>>)>)
    requires dofs.Valid() && DofsPlaced(dofs, InstanceSets(cs))
    ensures r.Ok? ==> Rooted(cs, r.value.0, rootName) && Spanning(dofs, |cs|, r.value.0, r.value.1)
    ensures r.Ok? || r == Err(NoRoot) || r == Err(ManyRoots) || r == Err(Cyclic) || r == Err(Disconnected)
    ensures r == Err(NoRoot) <==> NoneNamed(cs, rootName)
    ensures r == Err(ManyRoots) <==> TwoNamed(cs, rootName)
    ensures r == Err(Cyclic) <==> OneRoot(cs, rootName) && !DofForest(dofs)
    ensures r.Ok? <==> exists root :: Rooted(cs, root, rootName) && DofTree(dofs, |cs|, root)
  {
    var found := RootOf(cs, rootName);
    if found.Err? {
      return Err(found.msg);
    }
    var root := found.value;
    DofArcsBelow(dofs, InstanceSets(cs));
    var arcs := DofArcs(dofs);
    var kinematic :- KinematicTree(|cs|, arcs, root);
    TreeCarried(MergeArcs(arcs), root, |cs|, kinematic.0, kinematic.1);
    TreeEntered(root, |cs|, kinematic.0, kinematic.1);
    assert SearchTree(MergeArcs(arcs), root, |cs|, kinematic.0, kinematic.1);
    return Ok((root, kinematic.1));
  }

  /** Giving the components their sites keeps their parts, so every part
      still has a mesh. */
  lemma PartsMeshed(doc: Document, digest: PartRef -> string, cs: seq<RobotComponent>, cs': seq<RobotComponent>,
                    refs: map<PartRef, PartUse>, meshes: map<PartRef, Mesh>)
    requires doc.assemblies.Valid()
    requires |cs'| == |cs| && forall i :: 0 <= i < |cs| ==> cs'[i] == cs[i].(sites := cs'[i].sites)
    requires forall i, p :: 0 <= i < |cs| && p in cs[i].parts ==> HasUse(doc, p, refs)
    requires Kept(refs, digest, meshes)
    requires NamedInOrder(digest, meshes)
    ensures PartsHaveMeshes(doc, digest, cs', meshes)
  {
    PartsStillUsed(doc, cs, cs', refs, meshes);
  }

  /** Every part of the new components has a mesh. */
  lemma PartsStillUsed(doc: Document, cs: seq<RobotComponent>, cs': seq<RobotComponent>,
                       refs: map<PartRef, PartUse>, meshes: map<PartRef, Mesh>)
    requires doc.assemblies.Valid()
    requires |cs'| == |cs| && forall i :: 0 <= i < |cs| ==> cs'[i] == cs[i].(sites := cs'[i].sites)
    requires forall i, p :: 0 <= i < |cs| && p in cs[i].parts ==> HasUse(doc, p, refs)
    requires meshes.Keys == refs.Keys
    ensures forall i, p :: 0 <= i < |cs'| && p in cs'[i].parts ==> IsPartPath(doc, p) && UseAt(doc, p).ref in meshes
  {
    forall i, p | 0 <= i < |cs'| && p in cs'[i].parts
      ensures IsPartPath(doc, p) && UseAt(doc, p).ref in meshes
    {
      assert cs'[i].parts == cs[i].parts;
      assert HasUse(doc, p, refs);
    }
  }

  /** Giving the components their sites keeps their original names, so the
      root stays the only component carrying the root name. */
  lemma RootedAfterSites(cs: seq<RobotComponent>, cs': seq<RobotComponent>, root: nat, rootName: string)
    requires |cs'| == |cs| && forall i :: 0 <= i < |cs| ==> cs'[i] == cs[i].(sites := cs'[i].sites)
    requires Rooted(cs, root, rootName)
    ensures Rooted(cs', root, rootName)
  {
    forall j | 0 <= j < |cs'| && j != root
      ensures cs'[j].originalName != rootName
    {
      assert cs'[j].originalName == cs[j].originalName;
    }
  }

  /** The second half of `from_onshape` succeeds on disjoint components
      exactly when the DOFs, equality constraints and sites can be placed,
      exactly one component carries the root name, the graph of the located
      DOFs is one tree over the components, and the mesh-naming loop gets
      through the recorded part references. */
  ghost predicate Assembles(found: Classified, cs: seq<RobotComponent>, refs: map<PartRef, PartUse>, rootName: string)
    requires found.dofs.Valid()
  {
    && Attachable(found, InstanceSets(cs))
    && (exists root :: Rooted(cs, root, rootName) && DofTree(LocatedDofs(found.dofs, InstanceSets(cs)), |cs|, root))
    && MeshesNameable(refs)
  }

  /** How the second half of `from_onshape` fails on disjoint components: a
      DOF with both occurrences in one component is a self-loop; once
      everything is placed, no component or two carrying the root name fail
      the root search, and with one root a cycle among the located DOFs fails
      the tree; and two recorded references whose instances format alike,
      with no formatted name looking like another suffixed, fail the mesh
      naming, if nothing failed before. */
  ghost predicate FailsAs(found: Classified, cs: seq<RobotComponent>, refs: map<PartRef, PartUse>, rootName: string, r: Result<Description>)
    requires found.dofs.Valid()
  {
    && (SelfLooped(found.dofs, InstanceSets(cs)) ==> r == Err(SelfLoop))
    && (Attachable(found, InstanceSets(cs)) ==>
      && (r == Err(NoRoot) <==> NoneNamed(cs, rootName))
      && (r == Err(ManyRoots) <==> TwoNamed(cs, rootName))
      && (r == Err(Cyclic) <==> OneRoot(cs, rootName) && !DofForest(LocatedDofs(found.dofs, InstanceSets(cs)))))
    && (Clash(refs) && NoLookalikeNames(refs) ==> r.Err?)
  }

  /** None of the messages of the root search and the tree reads as a
      `KeyError`. */
  lemma NotKeyErrors()
    ensures !("KeyError: " <= NoRoot) && !("KeyError: " <= ManyRoots) && !("KeyError: " <= Cyclic)
  {
    assert NoRoot[0] == 'N' && ManyRoots[0] == 'R';
    var head := "AssertionError: len(nx.cycle_basis(graph))";
    assert Cyclic == head + " == 0" && head[0] == 'A';
  }

  /** The second half of `from_onshape`: place the DOFs, equality constraints
      and sites, find the root, build the kinematic tree and name the
      meshes. */
  method Assemble(doc: Document, found: Classified, cs: seq<RobotComponent>, refs: map<PartRef, PartUse>,
                  instanceTree: map<InstancePath, set<InstancePath>>, rootName: string, digest: PartRef -> string)
    returns (r: Result<Description>)
    requires doc.assemblies.Valid() && found.dofs.Valid()
    requires forall i :: 0 <= i < |cs| ==> cs[i].idx == i && cs[i].name == FormatName(cs[i].originalName)
    requires forall i, p :: 0 <= i < |cs| && p in cs[i].parts ==> HasUse(doc, p, refs)
    ensures r.Ok? ==> InstanceSets(r.value.components) == InstanceSets(cs) && r.value.instanceTree == instanceTree
    ensures r.Ok? ==> |r.value.components| == |cs| && forall i :: 0 <= i < |cs| ==> r.value.components[i] == cs[i].(sites := r.value.components[i].sites)
    ensures r.Ok? ==> KeepsClassified(found, r.value.dofs, r.value.equalities, r.value.components)
    ensures Disjoint(InstanceSets(cs)) && r.Ok? ==> SitesGrouped(found.sites, r.value.components)
    ensures r.Ok? ==> Placed(r.value.dofs, r.value.equalities, r.value.components)
    ensures r.Ok? ==> Rooted(r.value.components, r.value.rootComponentIdx, rootName)
    ensures r.Ok? ==> Spanning(r.value.dofs, |r.value.components|, r.value.rootComponentIdx, r.value.componentEdges)
    ensures r.Ok? ==> PartsHaveMeshes(doc, digest, r.value.components, r.value.meshes) && Kept(refs, digest, r.value.meshes)
    ensures Disjoint(InstanceSets(cs)) ==> (r.Ok? <==> Assembles(found, cs, refs, rootName))
    ensures Disjoint(InstanceSets(cs)) ==> FailsAs(found, cs, refs, rootName, r)
  {
    var attached :- Attach(found, cs);
    var dofs, eqs, cs' := attached.0, attached.1, attached.2;
    var oriented :- Orient(dofs, cs, rootName);
    RootedAfterSites(cs, cs', oriented.0, rootName);
    NotKeyErrors();
    r := Complete(doc, digest, cs, refs, Description(dofs, eqs, oriented.0, oriented.1, cs', map[], instanceTree));
  }

  /** The last step of `from_onshape`: the meshes of the recorded parts are
      made and named, and put into the description the earlier steps built. */
  method Complete(doc: Document, digest: PartRef -> string, cs: seq<RobotComponent>, refs: map<PartRef, PartUse>, d: Description)
    returns (r: Result<Description>)
    requires doc.assemblies.Valid()
    requires |d.components| == |cs| && forall i :: 0 <= i < |cs| ==> d.components[i] == cs[i].(sites := d.components[i].sites)
    requires forall i, p :: 0 <= i < |cs| && p in cs[i].parts ==> HasUse(doc, p, refs)
    ensures r.Ok? <==> MeshesNameable(refs)
    ensures Clash(refs) && NoLookalikeNames(refs) ==> r.Err?
    ensures r.Ok? ==> r.value == d.(meshes := r.value.meshes) && PartsHaveMeshes(doc, digest, d.components, r.value.meshes)
    ensures r.Ok? ==> Kept(refs, digest, r.value.meshes)
    ensures r.Err? ==> "KeyError: " <= r.msg
  {
    var meshes :- MakeMeshes(refs, digest);
    PartsMeshed(doc, digest, cs, d.components, refs, meshes);
    return Ok(d.(meshes := meshes));
  }

  /** `RobotDescription.from_onshape(data, rootName)`, with the SHA-1 digest
      of a part reference taken as the parameter `digest` and the order in
      which iterating a set of paths yields them as the parameter `iterate`;
      the meshes are named as the code is written. `halfway` is what the
      first half found: it is there exactly when `FirstHalf` holds, and
      given it, a description is made exactly when `Assembles` holds, it
      fails as `FailsAs` says, and it is what `Describes` says. */
  method FromOnshape(src: Source, rootName: string, digest: PartRef -> string, iterate: set<InstancePath> -> seq<InstancePath>)
    returns (r: Result<Description>, ghost halfway: Option<(Classified, seq<RobotComponent>, map<PartRef, PartUse>)>)
    requires WellFormed(src.doc)
    requires forall s :: Lists(iterate(s), s)
    ensures halfway.Some? <==> FirstHalf(src, iterate)
    ensures halfway.None? ==> r.Err?
    ensures halfway.Some? ==> Decomposed(src, iterate, halfway.value.0, halfway.value.1, halfway.value.2)
    ensures halfway.Some? ==> (r.Ok? <==> Assembles(halfway.value.0, halfway.value.1, halfway.value.2, rootName))
    ensures halfway.Some? ==> FailsAs(halfway.value.0, halfway.value.1, halfway.value.2, rootName, r)
    ensures r.Ok? ==> halfway.Some? && SitesOnly(halfway.value.1, r.value.components) && Kept(halfway.value.2, digest, r.value.meshes)
    ensures r.Ok? ==> Describes(src, rootName, digest, r.value)
  {
    var decomposed := Decompose(src, iterate);
    if decomposed.Err? {
      return Err(decomposed.msg), None;
    }
    var parts := decomposed.value;
    halfway := Some((parts.0, parts.1, parts.2));
    r := Assemble(src.doc, parts.0, parts.1, parts.2, parts.3, rootName, digest);
    if r.Ok? {
      DescribedAfterSites(src.doc, parts.1, r.value.components);
      MeshesFromRecorded(src.doc, digest, parts.1, r.value.components, parts.2, r.value.meshes);
    }
  }

  /** What a description made from `src` promises: it keeps what `buildDofs`
      found; its components are exactly the connected components of the
      rigid-mate graph, described against the occurrence tree; every DOF,
      equality constraint and site is placed, and each component lists
      exactly the sites of its occurrences in the order they were found; the
      components come in the order the rigid-mate edges first reach them;
      exactly one component carries
      the root name; the DOF graph is a single tree over the components
      oriented from the root; the meshes are keyed by the references of the
      part instances and each keeps the name of an instance of its part;
      and the instance tree
      holds exactly the prefixes of the occurrence paths. */
  ghost predicate Describes(src: Source, rootName: string, digest: PartRef -> string, d: Description)
    requires WellFormed(src.doc)
  {
    && BuildDofsSpec(src).Ok?
    && KeepsClassified(BuildDofsSpec(src).value, d.dofs, d.equalities, d.components)
    && RigidEdges(src.doc, DofKeys(BuildDofsSpec(src).value.dofs)).Ok?
    && ComponentsOf(InstanceSets(d.components), RigidEdges(src.doc, DofKeys(BuildDofsSpec(src).value.dofs)).value)
    && Components.FirstSeenOrder(InstanceSets(d.components), Components.Dedup(Components.Endpoints(RigidEdges(src.doc, DofKeys(BuildDofsSpec(src).value.dofs)).value)))
    && SitesGrouped(BuildDofsSpec(src).value.sites, d.components)
    && Placed(d.dofs, d.equalities, d.components)
    && Rooted(d.components, d.rootComponentIdx, rootName)
    && Spanning(d.dofs, |d.components|, d.rootComponentIdx, d.componentEdges)
    && PartsHaveMeshes(src.doc, digest, d.components, d.meshes)
    && MeshesOfParts(src.doc, d.components, d.meshes)
    && (forall p :: p in d.instanceTree <==>
          p.root == src.doc.rootAssemblyId && exists q :: q in src.doc.occurrences.keys && Under(p.elements, q))
    && DescribedAgainst(src.doc, d.components)
  }

  /** The meshes are keyed by exactly the references of the components' part
      instances, and each mesh keeps the instance name of one of them. */
  ghost predicate MeshesOfParts(doc: Document, cs: seq<RobotComponent>, meshes: map<PartRef, Mesh>)
    requires doc.assemblies.Valid()
  {
    && meshes.Keys == ComponentRefs(doc, cs)
    && forall ref :: ref in meshes ==>
      exists i, p :: 0 <= i < |cs| && p in cs[i].parts && IsPartPath(doc, p) && UseAt(doc, p) == PartUse(ref, p, meshes[ref].originalName)
  }

  /** Meshes kept from the recorded uses of the components' part instances
      are keyed and named by those instances, sites or no sites. */
  lemma MeshesFromRecorded(doc: Document, digest: PartRef -> string, cs: seq<RobotComponent>, cs': seq<RobotComponent>,
                           refs: map<PartRef, PartUse>, meshes: map<PartRef, Mesh>)
    requires doc.assemblies.Valid() && SitesOnly(cs, cs')
    requires Recorded(doc, refs) && refs.Keys == ComponentRefs(doc, cs) && UsesOfParts(doc, cs, refs)
    requires Kept(refs, digest, meshes)
    ensures MeshesOfParts(doc, cs', meshes)
  {
    assert forall i :: 0 <= i < |cs| ==> cs'[i].parts == cs[i].parts;
    assert ComponentRefs(doc, cs') == ComponentRefs(doc, cs);
    forall ref | ref in meshes
      ensures exists i, p :: 0 <= i < |cs'| && p in cs'[i].parts && IsPartPath(doc, p) && UseAt(doc, p) == PartUse(ref, p, meshes[ref].originalName)
    {
      var i :| 0 <= i < |cs| && refs[ref].path in cs[i].parts;
      assert cs'[i].parts == cs[i].parts;
    }
  }

  /** `cs'` is `cs` with only the sites of the components changed. */
  ghost predicate SitesOnly(cs: seq<RobotComponent>, cs': seq<RobotComponent>) {
    |cs'| == |cs| && forall i :: 0 <= i < |cs| ==> cs'[i] == cs[i].(sites := cs'[i].sites)
  }

  /** The first half of `from_onshape` found `found` and the components `cs`:
      `found` is what `buildDofs` finds, and the components, disjoint, are
      the connected components of the rigid-mate graph, numbered in the
      order the graph's edges first reach them,
      named after their formatted original names, and described against the
      occurrence tree; the recorded references are exactly those of the
      components' part instances, each recorded with its last instance met
      in the order `iterate` lists the components' paths. */
  ghost predicate Decomposed(src: Source, iterate: set<InstancePath> -> seq<InstancePath>, found: Classified,
                             cs: seq<RobotComponent>, refs: map<PartRef, PartUse>)
    requires WellFormed(src.doc)
  {
    && BuildDofsSpec(src) == Ok(found) && found.dofs.Valid()
    && RigidEdges(src.doc, DofKeys(found.dofs)).Ok?
    && ComponentsOf(InstanceSets(cs), RigidEdges(src.doc, DofKeys(found.dofs)).value)
    && Components.FirstSeenOrder(InstanceSets(cs), Components.Dedup(Components.Endpoints(RigidEdges(src.doc, DofKeys(found.dofs)).value)))
    && Disjoint(InstanceSets(cs))
    && (forall i :: 0 <= i < |cs| ==> cs[i].idx == i && cs[i].name == FormatName(cs[i].originalName))
    && DescribedAgainst(src.doc, cs)
    && Recorded(src.doc, refs) && PartsUsed(src.doc, cs, refs)
    && refs.Keys == ComponentRefs(src.doc, cs) && UsesOfParts(src.doc, cs, refs)
    && Overwritten(map[], MetUses(src.doc, InstanceSets(cs), iterate, |cs|), refs)
  }
}
