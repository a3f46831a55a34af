/** The mesh naming of `RobotDescription.from_onshape`
    (`onshape_mjcf/robot_description.py`): every part reference met gets a
    mesh named after the instance it was recorded through, a repeated name
    taking a counter. */
module Meshes {
  import opened Wrappers
  import opened Ids
  import opened Strings
  import opened Kinematics
  import opened Util
  import opened Sorting

  /** A part instance met in a component: the part's reference, the path it
      was met at and the name of the instance there. */
  datatype PartUse = PartUse(ref: PartRef, path: InstancePath, name: string)

  // ---- mesh naming ----

  /** `Mesh`: a part's reference, its mesh name, the name of the instance it
      was found through, and the digest of its reference. */
  datatype Mesh = Mesh(ref: PartRef, uniqueName: string, originalName: string, partHash: string)

  /** The formatted instance name of each part, in order. */
  function Formatted(parts: seq<(PartRef, string)>): (f: seq<string>)
    ensures |f| == |parts| && forall i {:trigger FormatName(parts[i].1)} :: 0 <= i < |parts| ==> f[i] == FormatName(parts[i].1)
  {
    seq(|parts|, i requires 0 <= i < |parts| => FormatName(parts[i].1))
  }

  /** The first `i` entries of `f`, as a set. */
  function Met<T>(f: seq<T>, i: nat): set<T>
    requires i <= |f|
  {
    if i == 0 then {} else Met(f, i - 1) + {f[i - 1]}
  }

  /** What `Met(f, i)` holds is one of the first `i` entries. */
  lemma {:induction false} MetOnly<T>(f: seq<T>, i: nat, x: T) returns (k: nat)
    requires i <= |f| && x in Met(f, i)
    ensures k < i && f[k] == x
    decreases i
  {
    if x == f[i - 1] {
      k := i - 1;
    } else {
      k := MetOnly(f, i - 1, x);
    }
  }

  /** Every one of the first `i` entries is in `Met(f, i)`. */
  lemma {:induction false} MetHolds<T>(f: seq<T>, i: nat, k: nat)
    requires k < i <= |f|
    ensures f[k] in Met(f, i)
    decreases i
  {
    if k < i - 1 {
      MetHolds(f, i - 1, k);
    }
  }

  /** None of the first `n` entries of `f` repeats an earlier one. */
  predicate Unrepeated(f: seq<string>, n: nat)
    requires n <= |f|
  {
    n == 0 || (Unrepeated(f, n - 1) && f[n - 1] !in Met(f, n - 1))
  }

  /** `Unrepeated` is pairwise difference. */
  lemma {:induction false} UnrepeatedDistinct(f: seq<string>, n: nat)
    requires n <= |f|
    ensures Unrepeated(f, n) <==> forall a, b :: 0 <= a < b < n ==> f[a] != f[b]
    decreases n
  {
    if n > 0 {
      UnrepeatedDistinct(f, n - 1);
      if f[n - 1] in Met(f, n - 1) {
        var k := MetOnly(f, n - 1, f[n - 1]);
        assert f[k] == f[n - 1];
      } else {
        forall a | 0 <= a < n - 1
          ensures f[a] != f[n - 1]
        {
          MetHolds(f, n - 1, a);
        }
      }
    }
  }

  /** `Met` and `Unrepeated` look at the first `n` entries only. */
  lemma {:induction false} PrefixAgrees(f: seq<string>, g: seq<string>, n: nat)
    requires n <= |f| && n <= |g| && forall k :: 0 <= k < n ==> f[k] == g[k]
    ensures Met(f, n) == Met(g, n)
    ensures Unrepeated(f, n) <==> Unrepeated(g, n)
    decreases n
  {
    if n > 0 {
      PrefixAgrees(f, g, n - 1);
    }
  }

  /** `Met(s, |s|)` is the set of the entries of `s`. */
  lemma MetAll(s: seq<string>, x: string)
    ensures x in Met(s, |s|) <==> x in s
  {
    if x in Met(s, |s|) {
      var k := MetOnly(s, |s|, x);
    }
    if x in s {
      var k :| 0 <= k < |s| && s[k] == x;
      MetHolds(s, |s|, k);
    }
  }

  /** `u` with the counter `c` appended after an underscore. */
  function CounterName(u: string, c: nat): string {
    u + "_" + NatToString(c)
  }

  /** `v` is `u` with a counter of at least one appended. */
  ghost predicate Suffixed(u: string, v: string) {
    exists c: nat :: 1 <= c && v == CounterName(u, c)
  }

  /** The mesh name of each part, in order. */
  function MeshNames(meshes: map<PartRef, Mesh>, parts: seq<(PartRef, string)>): (names: seq<string>)
    requires forall i :: 0 <= i < |parts| ==> parts[i].0 in meshes
    ensures |names| == |parts|
  {
    seq(|parts|, i requires 0 <= i < |parts| && parts[i].0 in meshes => meshes[parts[i].0].uniqueName)
  }

  /** The counters hold exactly the formatted names of the first `i` parts,
      each with a count of at least one. */
  ghost predicate Counted(fmt: seq<string>, i: nat, counters: map<string, nat>)
    requires i <= |fmt|
  {
    && (forall x :: x in counters <==> x in Met(fmt, i))
    && (forall x :: x in counters ==> counters[x] >= 1)
  }

  /** The mesh name of the part with formatted name `fmt[i]`: that name when
      it is new, and otherwise that name with a counter of at least one
      appended, which is itself a formatted name met before. */
  ghost predicate NameFor(fmt: seq<string>, i: nat, name: string)
    requires i < |fmt|
  {
    && (fmt[i] !in Met(fmt, i) ==> name == fmt[i])
    && (fmt[i] in Met(fmt, i) ==> Suffixed(fmt[i], name) && name in Met(fmt, i))
  }

  /** Each of `names` is the mesh name of its part. */
  ghost predicate NamedFor(fmt: seq<string>, names: seq<string>) {
    |names| <= |fmt| && forall k {:trigger names[k]} :: 0 <= k < |names| ==> NameFor(fmt, k, names[k])
  }

  lemma MetNext(f: seq<string>, i: nat)
    requires i < |f|
    ensures forall x :: x in Met(f, i + 1) <==> x in Met(f, i) || f[i] == x
  {
  }

  /** The counters after one more part with formatted name `x`, as written:
      a new name starts at one; a name met before bumps the counter of that
      name suffixed with its own counter, and there is none (`None`, the
      `KeyError`) when the suffixed name was never met. */
  function CountNext(counters: map<string, nat>, x: string): Option<map<string, nat>> {
    if x in counters then
      var u := CounterName(x, counters[x]);
      if u in counters then Some(counters[u := counters[u] + 1]) else None
    else Some(counters[x := 1])
  }

  /** The counters after the first `i` formatted names as written, or `None`
      once the loop has failed. */
  function WrittenCounters(f: seq<string>, i: nat): Option<map<string, nat>>
    requires i <= |f|
  {
    if i == 0 then Some(map[])
    else
      match WrittenCounters(f, i - 1)
      case None => None
      case Some(c) => CountNext(c, f[i - 1])
  }

  /** The name the loop as written gives a part whose formatted name is `x`,
      with the counters as they stand before it: `x` itself when it is new,
      and otherwise `x` suffixed with its counter. */
  function WrittenName(counters: map<string, nat>, x: string): string {
    if x in counters then CounterName(x, counters[x]) else x
  }

  /** The mesh names the loop as written gives the first `i` parts, or `None`
      once it has failed. */
  function WrittenNames(f: seq<string>, i: nat): (r: Option<seq<string>>)
    requires i <= |f|
    ensures r.Some? <==> WrittenCounters(f, i).Some?
    ensures r.Some? ==> |r.value| == i
  {
    if i == 0 then Some([])
    else
      match WrittenNames(f, i - 1)
      case None => None
      case Some(names) =>
        var c := WrittenCounters(f, i - 1).value;
        if CountNext(c, f[i - 1]).Some? then Some(names + [WrittenName(c, f[i - 1])]) else None
  }

  /** Of the parts formatted `a_1`, `a_2`, `a`, `a`, the fourth is named
      `a_1`: the counter of `a` is one there. That name is taken already,
      and `a_2`, also `a` suffixed and met before, is not the name given. */
  lemma LookalikeCounter()
    ensures WrittenNames(["a_1", "a_2", "a", "a"], 4) == Some(["a_1", "a_2", "a", "a_1"])
  {
    var f := ["a_1", "a_2", "a", "a"];
    var c1, c2, c3 := map["a_1" := 1], map["a_1" := 1, "a_2" := 1], map["a_1" := 1, "a_2" := 1, "a" := 1];
    assert NatToString(1) == "1";
    assert CounterName("a", 1) == "a_1";
    assert "a_2" != "a_1" by {
      assert "a_2"[2] != "a_1"[2];
    }
    assert WrittenCounters(f, 1) == Some(c1);
    assert WrittenNames(f, 1) == Some(["a_1"]) by {
      assert WrittenName(map[], f[0]) == "a_1";
      assert [] + ["a_1"] == ["a_1"];
    }
    assert WrittenCounters(f, 2) == Some(c2);
    assert WrittenNames(f, 2) == Some(["a_1", "a_2"]) by {
      assert WrittenName(c1, f[1]) == "a_2";
      assert ["a_1"] + ["a_2"] == ["a_1", "a_2"];
    }
    assert WrittenCounters(f, 3) == Some(c3);
    assert WrittenNames(f, 3) == Some(["a_1", "a_2", "a"]) by {
      assert WrittenName(c2, f[2]) == "a";
      assert ["a_1", "a_2"] + ["a"] == ["a_1", "a_2", "a"];
    }
    assert CountNext(c3, f[3]).Some?;
    assert WrittenName(c3, f[3]) == "a_1";
    assert ["a_1", "a_2", "a"] + ["a_1"] == ["a_1", "a_2", "a", "a_1"];
  }

  /** The naming as written gets through every formatted name of `f`. */
  predicate CountsThrough(f: seq<string>) {
    WrittenCounters(f, |f|).Some?
  }

  /** Once the loop has failed, it stays failed. */
  lemma {:induction false} FailureStays(f: seq<string>, i: nat)
    requires i <= |f| && WrittenCounters(f, i).None?
    ensures !CountsThrough(f)
    decreases |f| - i
  {
    if i < |f| {
      FailureStays(f, i + 1);
    }
  }

  /** One step of the mesh-naming loop: the name for the part whose formatted
      name is `formatted`, the `i`-th, and the counters after it. It fails
      only on a formatted name met before. */
  method NameNext(ghost fmt: seq<string>, i: nat, formatted: string, counters: map<string, nat>)
    returns (r: Result<(string, map<string, nat>)>)
    requires i < |fmt| && fmt[i] == formatted && Counted(fmt, i, counters)
    ensures r.Ok? ==> NameFor(fmt, i, r.value.0) && Counted(fmt, i + 1, r.value.1)
    ensures r.Err? ==> fmt[i] in Met(fmt, i)
    ensures NoLookalike(fmt) && fmt[i] in Met(fmt, i) ==> r.Err?
    ensures r.Ok? <==> CountNext(counters, formatted).Some?
    ensures r.Ok? ==> r.value.1 == CountNext(counters, formatted).value
    ensures r.Ok? ==> r.value.0 == WrittenName(counters, formatted)
    ensures r.Err? ==> "KeyError: " <= r.msg
  {
    CountStep(fmt, i, counters);
    if formatted in counters {
      var counter := counters[formatted];
      var uniqueName := CounterName(formatted, counter);
      if uniqueName !in counters {
        return Err("KeyError: " + uniqueName);
      }
      return Ok((uniqueName, counters[uniqueName := counters[uniqueName] + 1]));
    } else {
      return Ok((formatted, counters[formatted := 1]));
    }
  }

  /** The names given are exactly the formatted names met. */
  lemma NamedMet(fmt: seq<string>, names: seq<string>, name: string)
    requires |names| < |fmt| && NamedFor(fmt, names) && NameFor(fmt, |names|, name)
    requires forall x :: x in names <==> x in Met(fmt, |names|)
    ensures NamedFor(fmt, names + [name])
    ensures forall x :: x in names + [name] <==> x in Met(fmt, |names| + 1)
  {
    NamedSnoc(fmt, names, name);
    var names' := names + [name];
    MetNext(fmt, |names|);
    forall x
      ensures x in names' <==> x in Met(fmt, |names| + 1)
    {
      assert x in names' <==> x in names || x == name;
    }
  }

  /** Each name, the new one included, is its part's mesh name. */
  lemma NamedSnoc(fmt: seq<string>, names: seq<string>, name: string)
    requires |names| < |fmt| && NamedFor(fmt, names) && NameFor(fmt, |names|, name)
    ensures NamedFor(fmt, names + [name])
  {
    var names' := names + [name];
    forall k | 0 <= k < |names'|
      ensures NameFor(fmt, k, names'[k])
    {
      if k < |names| {
        assert names'[k] == names[k];
      }
    }
  }

  /** The names given are all different exactly when the formatted names
      are: a part takes a new name exactly when its formatted name is new. */
  lemma DistinctNamed(fmt: seq<string>, names: seq<string>, name: string)
    requires |names| < |fmt| && NameFor(fmt, |names|, name)
    requires forall x :: x in names <==> x in Met(fmt, |names|)
    requires Unrepeated(names, |names|) <==> Unrepeated(fmt, |names|)
    ensures Unrepeated(names + [name], |names| + 1) <==> Unrepeated(fmt, |names| + 1)
  {
    PrefixAgrees(names, names + [name], |names|);
    MetAll(names, name);
  }

  /** `meshes` holds a mesh for each of the first `i` parts and no other,
      named by `names`. */
  ghost predicate Meshed(parts: seq<(PartRef, string)>, digest: PartRef -> string, i: nat, meshes: map<PartRef, Mesh>, names: seq<string>)
    requires i <= |parts| && |names| == i
  {
    && meshes.Keys == Met(Refs(parts), i)
    && (forall k :: 0 <= k < i ==> parts[k].0 in meshes && meshes[parts[k].0] == Mesh(parts[k].0, names[k], parts[k].1, digest(parts[k].0)))
  }

  /** The reference of each part. */
  function Refs(parts: seq<(PartRef, string)>): (refs: seq<PartRef>)
    ensures |refs| == |parts| && forall i :: 0 <= i < |parts| ==> refs[i] == parts[i].0
  {
    seq(|parts|, i requires 0 <= i < |parts| => parts[i].0)
  }

  lemma MeshedNext(parts: seq<(PartRef, string)>, digest: PartRef -> string, i: nat, meshes: map<PartRef, Mesh>, names: seq<string>, name: string)
    requires i < |parts| && |names| == i && Meshed(parts, digest, i, meshes, names)
    requires forall a, b :: 0 <= a < b < |parts| ==> parts[a].0 != parts[b].0
    ensures Meshed(parts, digest, i + 1, meshes[parts[i].0 := Mesh(parts[i].0, name, parts[i].1, digest(parts[i].0))], names + [name])
  {
    assert forall k :: 0 <= k < i ==> (names + [name])[k] == names[k];
    forall x | x in Met(Refs(parts), i)
      ensures x != parts[i].0
    {
      var k := MetOnly(Refs(parts), i, x);
    }
  }

  /** After the last part, the meshes are keyed by exactly the parts' references. */
  lemma MeshedKeys(parts: seq<(PartRef, string)>, digest: PartRef -> string, meshes: map<PartRef, Mesh>, names: seq<string>)
    requires |names| == |parts| && Meshed(parts, digest, |parts|, meshes, names)
    ensures forall p :: p in meshes <==> exists i :: 0 <= i < |parts| && parts[i].0 == p
  {
    forall p
      ensures p in meshes <==> exists i :: 0 <= i < |parts| && parts[i].0 == p
    {
      if p in meshes {
        var k := MetOnly(Refs(parts), |parts|, p);
      }
    }
  }

  /** After the last part, each part has its mesh. */
  lemma MeshedFields(parts: seq<(PartRef, string)>, digest: PartRef -> string, meshes: map<PartRef, Mesh>, names: seq<string>)
    requires |names| == |parts| && Meshed(parts, digest, |parts|, meshes, names)
    ensures forall i :: 0 <= i < |parts| ==>
      && parts[i].0 in meshes
      && meshes[parts[i].0].ref == parts[i].0
      && meshes[parts[i].0].originalName == parts[i].1
      && meshes[parts[i].0].partHash == digest(parts[i].0)
  {
  }

  /** After the last part, the mesh names are the names given. */
  lemma MeshNamesGiven(parts: seq<(PartRef, string)>, digest: PartRef -> string, meshes: map<PartRef, Mesh>, names: seq<string>)
    requires |names| == |parts| && Meshed(parts, digest, |parts|, meshes, names)
    ensures MeshNames(meshes, parts) == names
  {
    var given := MeshNames(meshes, parts);
    forall k | 0 <= k < |parts|
      ensures given[k] == names[k]
    {
    }
  }

  /** After the last part, the mesh names are the names given, so they are
      named for their parts and are all different exactly when the formatted
      names are. */
  lemma MeshedNames(parts: seq<(PartRef, string)>, fmt: seq<string>, digest: PartRef -> string, meshes: map<PartRef, Mesh>, names: seq<string>)
    requires |names| == |parts| == |fmt| && Meshed(parts, digest, |parts|, meshes, names)
    requires NamedFor(fmt, names)
    requires Unrepeated(names, |parts|) <==> Unrepeated(fmt, |parts|)
    ensures MeshNames(meshes, parts) == names
    ensures NamedFor(fmt, MeshNames(meshes, parts))
    ensures Distinct(MeshNames(meshes, parts)) <==> Distinct(fmt)
  {
    MeshNamesGiven(parts, digest, meshes, names);
    DistinctAlike(names, fmt);
  }

  /** Two sequences of one length that are unrepeated together are distinct
      together. */
  lemma DistinctAlike(f: seq<string>, g: seq<string>)
    requires |f| == |g| && (Unrepeated(f, |f|) <==> Unrepeated(g, |g|))
    ensures Distinct(f) <==> Distinct(g)
  {
    UnrepeatedDistinct(f, |f|);
    UnrepeatedDistinct(g, |g|);
  }

  /** The meshes are keyed by the references of `parts`, each keeping its
      reference, the name listed beside it and the digest of the reference. */
  ghost predicate MeshedFor(parts: seq<(PartRef, string)>, digest: PartRef -> string, meshes: map<PartRef, Mesh>) {
    && (forall p :: p in meshes <==> exists i :: 0 <= i < |parts| && parts[i].0 == p)
    && (forall i :: 0 <= i < |parts| ==>
      && parts[i].0 in meshes
      && meshes[parts[i].0].ref == parts[i].0
      && meshes[parts[i].0].originalName == parts[i].1
      && meshes[parts[i].0].partHash == digest(parts[i].0))
  }

  /** What the mesh naming as written gives when it succeeds: the meshes are
      keyed and filled as `MeshedFor` says, the mesh names of the parts in
      order are the names `WrittenNames` gives, each named for its part as
      `NameFor` says, the mesh names are all different exactly when the
      formatted names are, and unless some formatted name looks like another
      suffixed, the formatted names are all different. */
  ghost predicate NamedAsWritten(parts: seq<(PartRef, string)>, digest: PartRef -> string, meshes: map<PartRef, Mesh>) {
    NamedOver(parts, Formatted(parts), digest, meshes)
  }

  /** `NamedAsWritten`, with the formatted names of the parts given as `fmt`. */
  ghost predicate NamedOver(parts: seq<(PartRef, string)>, fmt: seq<string>, digest: PartRef -> string, meshes: map<PartRef, Mesh>) {
    && MeshedFor(parts, digest, meshes)
    && |fmt| == |parts|
    && WrittenNames(fmt, |fmt|) == Some(MeshNames(meshes, parts))
    && NamedFor(fmt, MeshNames(meshes, parts))
    && (Distinct(MeshNames(meshes, parts)) <==> Distinct(fmt))
    && (NoLookalike(fmt) ==> Distinct(fmt))
  }

  /** The mesh-naming loop over the parts in reference order, `parts` pairing
      each reference with the name of the instance it was found through; the
      digest of the reference's text is a parameter. A name already met is
      suffixed with its counter, and then the counter of the SUFFIXED name
      is incremented: when that name was never met the lookup fails, and
      otherwise the part takes a name an earlier part already has. The loop
      gets through exactly when `WrittenCounters` does, and then the mesh
      names are the names `WrittenNames` gives; so a part's mesh name is its
      formatted name exactly when that name is new,
      and the mesh names are all different exactly when the formatted names
      are. It fails only on two parts whose names format alike, and unless
      some formatted name looks like another suffixed, such two parts make
      it fail. */
  method NameMeshes(parts: seq<(PartRef, string)>, digest: PartRef -> string) returns (r: Result<map<PartRef, Mesh>>)
    requires forall i, j :: 0 <= i < j < |parts| ==> parts[i].0 != parts[j].0
    ensures r.Ok? <==> CountsThrough(Formatted(parts))
    ensures r.Ok? ==> NamedAsWritten(parts, digest, r.value)
    ensures r.Err? ==> FormattedClash(parts)
    ensures r.Err? ==> "KeyError: " <= r.msg
  {
    ghost var fmt := Formatted(parts);
    var counters: map<string, nat> := map[];
    var meshes: map<PartRef, Mesh> := map[];
    ghost var names: seq<string> := [];
    for i := 0 to |parts|
      invariant WrittenCounters(fmt, i) == Some(counters)
      invariant WrittenNames(fmt, i) == Some(names)
      invariant |names| == i && meshes == MeshesFor(parts, digest, names)
    {
      var (ref, name) := parts[i];
      WrittenCounted(fmt, i);
      var next := NameNext(fmt, i, FormatName(name), counters);
      if next.Err? {
        ClashMet(parts, fmt, i);
        FailureStays(fmt, i + 1);
        return Err(next.msg);
      }
      var (uniqueName, counters') := next.value;
      WrittenStep(parts, fmt, digest, i, counters, counters', names, uniqueName);
      meshes := meshes[ref := Mesh(ref, uniqueName, name, digest(ref))];
      names := names + [uniqueName];
      counters := counters';
    }
    WrittenMeshes(parts, fmt, digest);
    return Ok(meshes);
  }

  /** A part whose formatted name was met before clashes with an earlier one. */
  lemma ClashMet(parts: seq<(PartRef, string)>, fmt: seq<string>, i: nat)
    requires fmt == Formatted(parts) && i < |parts| && fmt[i] in Met(fmt, i)
    ensures FormattedClash(parts)
  {
    var k := MetOnly(fmt, i, fmt[i]);
    assert FormatName(parts[k].1) == FormatName(parts[i].1);
  }

  /** One step that gets through: the counters and names as written after
      it, and the meshes made from those names. */
  lemma WrittenStep(parts: seq<(PartRef, string)>, fmt: seq<string>, digest: PartRef -> string, i: nat,
                    counters: map<string, nat>, counters': map<string, nat>, names: seq<string>, name: string)
    requires i < |parts| == |fmt| && |names| == i
    requires WrittenCounters(fmt, i) == Some(counters) && WrittenNames(fmt, i) == Some(names)
    requires CountNext(counters, fmt[i]) == Some(counters') && name == WrittenName(counters, fmt[i])
    ensures WrittenCounters(fmt, i + 1) == Some(counters')
    ensures WrittenNames(fmt, i + 1) == Some(names + [name])
    ensures MeshesFor(parts, digest, names + [name])
      == MeshesFor(parts, digest, names)[parts[i].0 := Mesh(parts[i].0, name, parts[i].1, digest(parts[i].0))]
  {
    MeshesForSnoc(parts, digest, names, name);
  }

  /** One more name adds the mesh of the next part. */
  lemma MeshesForSnoc(parts: seq<(PartRef, string)>, digest: PartRef -> string, names: seq<string>, name: string)
    requires |names| < |parts|
    ensures MeshesFor(parts, digest, names + [name])
      == MeshesFor(parts, digest, names)[parts[|names|].0 := Mesh(parts[|names|].0, name, parts[|names|].1, digest(parts[|names|].0))]
  {
    assert (names + [name])[..|names|] == names;
  }

  /** The meshes the loop makes for the first `|names|` parts, the `i`-th
      named `names[i]`. */
  function MeshesFor(parts: seq<(PartRef, string)>, digest: PartRef -> string, names: seq<string>): map<PartRef, Mesh>
    requires |names| <= |parts|
  {
    if |names| == 0 then map[]
    else
      var i := |names| - 1;
      MeshesFor(parts, digest, names[..i])[parts[i].0 := Mesh(parts[i].0, names[i], parts[i].1, digest(parts[i].0))]
  }

  /** `MeshesFor` holds a mesh for each of the first `|names|` parts and no
      other, named by `names`. */
  lemma {:induction false} MeshesForMeshed(parts: seq<(PartRef, string)>, digest: PartRef -> string, names: seq<string>)
    requires |names| <= |parts| && forall a, b :: 0 <= a < b < |parts| ==> parts[a].0 != parts[b].0
    ensures Meshed(parts, digest, |names|, MeshesFor(parts, digest, names), names)
    decreases |names|
  {
    if |names| > 0 {
      var i := |names| - 1;
      MeshesForMeshed(parts, digest, names[..i]);
      MeshedNext(parts, digest, i, MeshesFor(parts, digest, names[..i]), names[..i], names[i]);
      assert names[..i] + [names[i]] == names;
    }
  }

  /** A step that gets through keeps the counters keyed by the names met and
      names the part as `NameFor` says; a step fails only on a name met
      before, and with no lookalike it fails on every such name. */
  lemma CountStep(fmt: seq<string>, i: nat, counters: map<string, nat>)
    requires i < |fmt| && Counted(fmt, i, counters)
    ensures CountNext(counters, fmt[i]).Some? ==>
      NameFor(fmt, i, WrittenName(counters, fmt[i])) && Counted(fmt, i + 1, CountNext(counters, fmt[i]).value)
    ensures CountNext(counters, fmt[i]).None? ==> fmt[i] in Met(fmt, i)
    ensures NoLookalike(fmt) && fmt[i] in Met(fmt, i) ==> CountNext(counters, fmt[i]).None?
  {
    MetNext(fmt, i);
    var x := fmt[i];
    if x in counters {
      var u := CounterName(x, counters[x]);
      if u in counters {
        var k := MetOnly(fmt, i, u);
        assert Suffixed(x, fmt[k]);
      }
    }
  }

  /** The counters as written are keyed by the formatted names met, each at
      least one. */
  lemma {:induction false} WrittenCounted(f: seq<string>, i: nat)
    requires i <= |f| && WrittenCounters(f, i).Some?
    ensures Counted(f, i, WrittenCounters(f, i).value)
    decreases i
  {
    if i > 0 {
      WrittenCounted(f, i - 1);
      CountStep(f, i - 1, WrittenCounters(f, i - 1).value);
    }
  }

  /** The names as written for the first `i` parts: each is its part's mesh
      name as `NameFor` says, they are exactly the formatted names met, and
      they are unrepeated exactly when the formatted names are; with no
      lookalike, the formatted names are unrepeated. */
  lemma {:induction false} WrittenNaming(f: seq<string>, i: nat)
    requires i <= |f| && WrittenCounters(f, i).Some?
    ensures NamedFor(f, WrittenNames(f, i).value)
    ensures forall x :: x in WrittenNames(f, i).value <==> x in Met(f, i)
    ensures Unrepeated(WrittenNames(f, i).value, i) <==> Unrepeated(f, i)
    ensures NoLookalike(f) ==> Unrepeated(f, i)
    decreases i
  {
    if i > 0 {
      var c := WrittenCounters(f, i - 1).value;
      var names := WrittenNames(f, i - 1).value;
      WrittenNaming(f, i - 1);
      WrittenCounted(f, i - 1);
      CountStep(f, i - 1, c);
      var name := WrittenName(c, f[i - 1]);
      assert WrittenNames(f, i).value == names + [name];
      NamedMet(f, names, name);
      DistinctNamed(f, names, name);
    }
  }

  /** The meshes made from the names as written are named as
      `NamedAsWritten` says. */
  lemma WrittenMeshes(parts: seq<(PartRef, string)>, fmt: seq<string>, digest: PartRef -> string)
    requires |fmt| == |parts| && CountsThrough(fmt)
    requires forall a, b :: 0 <= a < b < |parts| ==> parts[a].0 != parts[b].0
    ensures NamedOver(parts, fmt, digest, MeshesFor(parts, digest, WrittenNames(fmt, |fmt|).value))
  {
    var names := WrittenNames(fmt, |fmt|).value;
    var meshes := MeshesFor(parts, digest, names);
    MeshesForMeshed(parts, digest, names);
    WrittenNaming(fmt, |fmt|);
    MeshedAll(parts, digest, meshes, names);
    MeshedNames(parts, fmt, digest, meshes, names);
    PlainDistinct(fmt);
  }

  /** After the last part, the meshes are keyed and filled as `MeshedFor` says. */
  lemma MeshedAll(parts: seq<(PartRef, string)>, digest: PartRef -> string, meshes: map<PartRef, Mesh>, names: seq<string>)
    requires |names| == |parts| && Meshed(parts, digest, |parts|, meshes, names)
    ensures MeshedFor(parts, digest, meshes)
  {
    MeshedKeys(parts, digest, meshes, names);
    MeshedFields(parts, digest, meshes, names);
  }

  /** A sequence that is unrepeated whenever it has no lookalikes is distinct
      whenever it has none. */
  lemma PlainDistinct(f: seq<string>)
    requires NoLookalike(f) ==> Unrepeated(f, |f|)
    ensures NoLookalike(f) ==> Distinct(f)
  {
    UnrepeatedDistinct(f, |f|);
  }

  /** Two parts whose instances have the same name: their formatted names
      clash and neither is the other suffixed, so by its contract
      `NameMeshes` fails on them (the second part looks up the counter of
      the suffixed name, which was never set), while the intended naming
      gives the second part the first one's name suffixed with `_1`. */
  lemma TwinPartsClash(p: PartRef, q: PartRef, name: string)
    ensures var f := Formatted([(p, name), (q, name)]);
      && f == [FormatName(name), FormatName(name)]
      && NoLookalike(f) && !Distinct(f)
      && IntendedNames(f) == [f[0], f[0] + "_1"]
  {
    var x := FormatName(name);
    assert Formatted([(p, name), (q, name)]) == [x, x];
    TwinLookalike(x);
    TwinIntended(x);
  }

  /** A name twice over repeats, with no lookalike. */
  lemma TwinLookalike(x: string)
    ensures NoLookalike([x, x]) && !Distinct([x, x])
  {
    NotSuffixedSelf(x);
    assert [x, x][0] == [x, x][1];
  }

  /** A name twice over is intended as the name and the name suffixed `_1`. */
  lemma TwinIntended(x: string)
    ensures IntendedNames([x, x]) == [x, x + "_1"]
  {
    var f := [x, x];
    assert Seen(f, 1, x) == 1;
    assert NatToString(1) == "1";
    assert IntendedName(f, 1) == x + "_1";
  }

  /** No name is itself suffixed. */
  lemma NotSuffixedSelf(x: string)
    ensures !Suffixed(x, x)
  {
    forall c: nat | 1 <= c ensures x != CounterName(x, c) {
      assert |CounterName(x, c)| == |x| + 1 + |NatToString(c)|;
    }
  }

  // ---- mesh naming as evidently intended ----

  /** No formatted name is another, or itself, suffixed with a counter. */
  ghost predicate NoLookalike(f: seq<string>) {
    forall a, b :: 0 <= a < |f| && 0 <= b < |f| ==> !Suffixed(f[a], f[b])
  }

  /** How many of the first `i` entries of `f` are `x`. */
  function Seen(f: seq<string>, i: nat, x: string): (c: nat)
    requires i <= |f|
    ensures c <= i
    ensures c > 0 <==> x in Met(f, i)
  {
    if i == 0 then 0 else Seen(f, i - 1, x) + (if f[i - 1] == x then 1 else 0)
  }

  /** The mesh name the loop evidently means to give the `i`-th part: its
      formatted name the first time that name is met, and otherwise that name
      suffixed with how many parts before it have it. */
  function IntendedName(f: seq<string>, i: nat): (name: string)
    requires i < |f|
    ensures name == f[i] || Suffixed(f[i], name)
    ensures name == f[i] <==> f[i] !in Met(f, i)
  {
    var c := Seen(f, i, f[i]);
    if c == 0 then f[i]
    else
      assert |CounterName(f[i], c)| > |f[i]|;
      CounterName(f[i], c)
  }

  /** The intended mesh name of each part, in order. */
  function IntendedNames(f: seq<string>): (names: seq<string>)
    ensures |names| == |f| && forall i :: 0 <= i < |f| ==> names[i] == IntendedName(f, i)
  {
    seq(|f|, i requires 0 <= i < |f| => IntendedName(f, i))
  }

  /** The counters hold exactly the formatted names of the first `i` parts,
      each counting how many of those parts have it. */
  ghost predicate Tallied(f: seq<string>, i: nat, counters: map<string, nat>)
    requires i <= |f|
  {
    forall x {:trigger x in counters} :: (x in counters <==> x in Met(f, i)) && (x in counters ==> counters[x] == Seen(f, i, x))
  }

  /** One step of the intended loop: a formatted name met before takes its
      count as a suffix and its count goes up by one; a new one is counted
      once and kept. */
  lemma TallyNext(f: seq<string>, i: nat, counters: map<string, nat>)
    requires i < |f| && Tallied(f, i, counters)
    ensures f[i] in counters ==>
      && IntendedName(f, i) == CounterName(f[i], counters[f[i]])
      && Tallied(f, i + 1, counters[f[i] := counters[f[i]] + 1])
    ensures f[i] !in counters ==> IntendedName(f, i) == f[i] && Tallied(f, i + 1, counters[f[i] := 1])
  {
    MetNext(f, i);
  }

  /** One step of the intended mesh-naming loop: the name for the `i`-th
      part, whose formatted name is `formatted`, and the counters after it. */
  method NameNextFixed(ghost fmt: seq<string>, i: nat, formatted: string, counters: map<string, nat>)
    returns (name: string, counters': map<string, nat>)
    requires i < |fmt| && fmt[i] == formatted && Tallied(fmt, i, counters)
    ensures name == IntendedName(fmt, i) && Tallied(fmt, i + 1, counters')
  {
    TallyNext(fmt, i, counters);
    if formatted in counters {
      var counter := counters[formatted];
      counters' := counters[formatted := counter + 1];
      name := CounterName(formatted, counter);
    } else {
      counters' := counters[formatted := 1];
      name := formatted;
    }
  }

  /** Each of `names` is the intended name of its part. */
  ghost predicate NamedIntended(fmt: seq<string>, names: seq<string>) {
    |names| <= |fmt| && forall k :: 0 <= k < |names| ==> names[k] == IntendedName(fmt, k)
  }

  /** The mesh-naming loop as evidently intended: a formatted name met before
      is suffixed with its counter and that name's own counter goes up. It
      never fails, and each part gets its intended name. */
  method NameMeshesFixed(parts: seq<(PartRef, string)>, digest: PartRef -> string) returns (meshes: map<PartRef, Mesh>)
    requires forall i, j :: 0 <= i < j < |parts| ==> parts[i].0 != parts[j].0
    ensures MeshedFor(parts, digest, meshes)
    ensures MeshNames(meshes, parts) == IntendedNames(Formatted(parts))
  {
    ghost var fmt := Formatted(parts);
    var counters: map<string, nat> := map[];
    meshes := map[];
    ghost var names: seq<string> := [];
    for i := 0 to |parts|
      invariant |names| == i && NamedIntended(fmt, names)
      invariant Tallied(fmt, i, counters)
      invariant meshes == MeshesFor(parts, digest, names)
    {
      var (ref, name) := parts[i];
      var uniqueName, counters' := NameNextFixed(fmt, i, FormatName(name), counters);
      IntendedSnoc(fmt, names, uniqueName);
      MeshesForSnoc(parts, digest, names, uniqueName);
      meshes := meshes[ref := Mesh(ref, uniqueName, name, digest(ref))];
      names := names + [uniqueName];
      counters := counters';
    }
    MeshesForMeshed(parts, digest, names);
    FixedDone(parts, digest, meshes, names);
  }

  /** After the last part, the intended loop's state gives
      `NameMeshesFixed`'s contract. */
  lemma FixedDone(parts: seq<(PartRef, string)>, digest: PartRef -> string, meshes: map<PartRef, Mesh>, names: seq<string>)
    requires |names| == |parts| && Meshed(parts, digest, |parts|, meshes, names)
    requires NamedIntended(Formatted(parts), names)
    ensures MeshedFor(parts, digest, meshes)
    ensures MeshNames(meshes, parts) == IntendedNames(Formatted(parts))
  {
    MeshedAll(parts, digest, meshes, names);
    MeshNamesGiven(parts, digest, meshes, names);
    IntendedAll(Formatted(parts), names);
  }

  /** One more intended name keeps the names intended. */
  lemma IntendedSnoc(fmt: seq<string>, names: seq<string>, name: string)
    requires NamedIntended(fmt, names) && |names| < |fmt| && name == IntendedName(fmt, |names|)
    ensures NamedIntended(fmt, names + [name])
  {
  }

  /** Intended names for every part are the intended names. */
  lemma IntendedAll(fmt: seq<string>, names: seq<string>)
    requires NamedIntended(fmt, names) && |names| == |fmt|
    ensures names == IntendedNames(fmt)
  {
  }

  /** A part named after `b` parts has met at least one more of `f[a]` than
      part `a` had. */
  lemma {:induction false} SeenGrows(f: seq<string>, a: nat, b: nat)
    requires a < b <= |f|
    ensures Seen(f, b, f[a]) >= Seen(f, a, f[a]) + 1
    decreases b
  {
    if b > a + 1 {
      SeenGrows(f, a, b - 1);
    }
  }

  /** A name suffixed with digits splits at its last underscore into the
      name and the digits. */
  lemma SuffixSplit(u: string, s: string, v: string, t: string)
    requires forall i :: 0 <= i < |s| ==> IsDigit(s[i])
    requires forall i :: 0 <= i < |t| ==> IsDigit(t[i])
    requires u + "_" + s == v + "_" + t
    ensures u == v && s == t
  {
    var w := u + "_" + s;
    assert forall i :: |u| < i < |w| ==> w[i] == s[i - |u| - 1];
    assert forall i :: |v| < i < |w| ==> w[i] == t[i - |v| - 1];
    assert w[|u|] == '_' && w[|v|] == '_';
    assert |u| == |v|;
    assert u == w[..|u|] && v == w[..|v|];
    assert s == w[|u| + 1..] && t == w[|v| + 1..];
  }

  /** Different counters make different suffixes. */
  lemma CountersApart(u: string, c: nat, d: nat)
    requires c != d
    ensures CounterName(u, c) != CounterName(u, d)
  {
    if CounterName(u, c) == CounterName(u, d) {
      SuffixSplit(u, NatToString(c), u, NatToString(d));
      NatToStringValue(c);
      NatToStringValue(d);
    }
  }

  /** Two parts with the same formatted name get different intended names. */
  lemma IntendedApart(f: seq<string>, a: nat, b: nat)
    requires a < b < |f| && f[a] == f[b]
    ensures IntendedName(f, a) != IntendedName(f, b)
  {
    SeenGrows(f, a, b);
    var ca, cb := Seen(f, a, f[a]), Seen(f, b, f[b]);
    if ca > 0 {
      CountersApart(f[a], ca, cb);
    }
  }

  /** Without lookalike formatted names, the intended names of different
      parts are all different. */
  lemma IntendedDistinct(f: seq<string>, a: nat, b: nat)
    requires a < b < |f| && NoLookalike(f)
    ensures IntendedName(f, a) != IntendedName(f, b)
  {
    if f[a] == f[b] {
      IntendedApart(f, a, b);
    } else if IntendedName(f, a) == IntendedName(f, b) {
      assert !Suffixed(f[a], f[b]) && !Suffixed(f[b], f[a]);
      var ca, cb := Seen(f, a, f[a]), Seen(f, b, f[b]);
      assert ca > 0 && cb > 0;
      SuffixSplit(f[a], NatToString(ca), f[b], NatToString(cb));
    }
  }

  /** When the formatted names are all different, every part keeps its own. */
  lemma IntendedKept(f: seq<string>)
    requires Distinct(f)
    ensures IntendedNames(f) == f
  {
    forall i | 0 <= i < |f|
      ensures IntendedName(f, i) == f[i]
    {
      if f[i] in Met(f, i) {
        var k := MetOnly(f, i, f[i]);
      }
    }
  }

  // ---- Mesh inputs (robot_description.py:327-336) ----

  /** The members of `s`, each once, in an order this model leaves open: the
      order in which iterating a dict's keys yields them, which the sort
      after it makes irrelevant. */
  method Enumerate<T(==)>(s: set<T>) returns (q: seq<T>)
    ensures Distinct(q)
    ensures forall x :: x in q <==> x in s
    ensures (set x | x in q) == s
  {
    q := [];
    var rest := s;
    while rest != {}
      invariant Distinct(q)
      invariant forall x :: x in s <==> x in q || x in rest
      invariant forall x :: x in q ==> x !in rest
      decreases |rest|
    {
      var x :| x in rest;
      q := q + [x];
      rest := rest - {x};
    }
  }

  /** A sequence without repeats holds each element at most once. */
  lemma {:induction false} DistinctOnce<T>(a: seq<T>, x: T)
    requires Distinct(a)
    ensures multiset(a)[x] <= 1
  {
    if |a| > 0 {
      var init := a[..|a| - 1];
      assert a == init + [a[|a| - 1]];
      assert Distinct(init) by {
        forall i, j | 0 <= i < j < |init|
          ensures init[i] != init[j]
        {
          assert init[i] == a[i] && init[j] == a[j];
        }
      }
      DistinctOnce(init, x);
      if x == a[|a| - 1] {
        forall k | 0 <= k < |init|
          ensures init[k] != x
        {
          assert init[k] == a[k];
        }
        assert multiset(init)[x] == 0;
      }
    }
  }

  /** An element at two indices is counted at least twice. */
  lemma CountTwo<T>(b: seq<T>, i: nat, j: nat)
    requires i < j < |b| && b[i] == b[j]
    ensures multiset(b)[b[i]] >= 2
  {
    assert b == b[..j] + [b[j]] + b[j + 1..];
    assert b[i] in b[..j];
  }

  /** A rearrangement of a sequence without repeats has none. */
  lemma PermutedDistinct<T>(a: seq<T>, b: seq<T>)
    requires multiset(a) == multiset(b) && Distinct(a)
    ensures Distinct(b)
  {
    forall i, j | 0 <= i < j < |b|
      ensures b[i] != b[j]
    {
      if b[i] == b[j] {
        CountTwo(b, i, j);
      }
      DistinctOnce(a, b[i]);
    }
  }

  /** Part references compare as a strict total order. */
  lemma PartRefLessTotal()
    ensures StrictTotal(PartRefLess)
  {
    forall a: PartRef, b: PartRef, c: PartRef
      ensures !PartRefLess(a, a)
      ensures a == b || PartRefLess(a, b) || PartRefLess(b, a)
      ensures PartRefLess(a, b) && PartRefLess(b, c) ==> PartRefLess(a, c)
    {
      PartRefOrder(a, b, c);
    }
  }

  /** `parts` lists exactly the keys of `refs`, each beside the name of the
      instance recorded for it. */
  ghost predicate Listing(refs: map<PartRef, PartUse>, parts: seq<(PartRef, string)>) {
    && (forall ref :: ref in refs <==> exists i :: 0 <= i < |parts| && parts[i].0 == ref)
    && (forall i :: 0 <= i < |parts| ==> parts[i].0 in refs && parts[i].1 == refs[parts[i].0].name)
  }

  /** The references of `parts` strictly increase. */
  ghost predicate Ascending(parts: seq<(PartRef, string)>) {
    forall i, j :: 0 <= i < j < |parts| ==> PartRefLess(parts[i].0, parts[j].0)
  }

  /** A non-empty sequence holds its first element. */
  lemma HeadIn<T>(s: seq<T>)
    ensures |s| > 0 ==> s[0] in s
  {
  }

  /** Two strictly increasing lists of the same references are one list. */
  lemma {:induction false} AscendingUnique(a: seq<PartRef>, b: seq<PartRef>)
    requires forall i, j :: 0 <= i < j < |a| ==> PartRefLess(a[i], a[j])
    requires forall i, j :: 0 <= i < j < |b| ==> PartRefLess(b[i], b[j])
    requires forall x :: x in a <==> x in b
    ensures a == b
    decreases |a|
  {
    if |a| == 0 {
      HeadIn(b);
    } else {
      assert a[0] in b;
      assert b[0] in a;
      var k :| 0 <= k < |b| && b[k] == a[0];
      var m :| 0 <= m < |a| && a[m] == b[0];
      PartRefOrder(a[0], b[0], a[0]);
      if k > 0 {
        assert false;
      }
      forall x
        ensures x in a[1..] <==> x in b[1..]
      {
        PartRefOrder(x, x, x);
        if x in a[1..] {
          var i :| 0 <= i < |a| - 1 && a[1..][i] == x;
          assert PartRefLess(a[0], a[i + 1]) && a[i + 1] == x && x in a;
          var j :| 0 <= j < |b| && b[j] == x;
          assert b[1..][j - 1] == x;
        }
        if x in b[1..] {
          var j :| 0 <= j < |b| - 1 && b[1..][j] == x;
          assert PartRefLess(b[0], b[j + 1]) && b[j + 1] == x && x in b;
          var i :| 0 <= i < |a| && a[i] == x;
          assert a[1..][i - 1] == x;
        }
      }
      AscendingUnique(a[1..], b[1..]);
      assert a == [a[0]] + a[1..];
      assert b == [b[0]] + b[1..];
    }
  }

  /** The recorded references have one listing in increasing order. */
  lemma ListingUnique(refs: map<PartRef, PartUse>, p: seq<(PartRef, string)>, q: seq<(PartRef, string)>)
    requires Listing(refs, p) && Listing(refs, q) && Ascending(p) && Ascending(q)
    ensures p == q
  {
    var a, b := Refs(p), Refs(q);
    ListedRefs(refs, p);
    ListedRefs(refs, q);
    AscendingUnique(a, b);
    forall i | 0 <= i < |p|
      ensures p[i] == q[i]
    {
      assert a[i] == b[i];
    }
  }

  /** The references a listing lists are exactly the recorded ones. */
  lemma ListedRefs(refs: map<PartRef, PartUse>, p: seq<(PartRef, string)>)
    requires Listing(refs, p)
    ensures forall x :: x in Refs(p) <==> x in refs
  {
    forall x
      ensures x in Refs(p) <==> x in refs
    {
      if x in Refs(p) {
        var i :| 0 <= i < |p| && Refs(p)[i] == x;
      }
      if x in refs {
        var i :| 0 <= i < |p| && p[i].0 == x;
        assert Refs(p)[i] == x;
      }
    }
  }

  /** `sorted(allPartRefs.items())`, each reference paired with the name of the
      instance recorded for it: the references in strictly increasing order,
      each recorded reference once. The references differ, so the recorded
      paths are never compared. */
  method SortedParts(refs: map<PartRef, PartUse>) returns (parts: seq<(PartRef, string)>)
    ensures Ascending(parts)
    ensures Listing(refs, parts)
  {
    var keys := Enumerate(refs.Keys);
    PartRefLessTotal();
    var sorted := Sort(keys, PartRefLess);
    PermutedDistinct(keys, sorted);
    SameMembers(keys, sorted);
    parts := [];
    for i := 0 to |sorted|
      invariant |parts| == i
      invariant forall k :: 0 <= k < i ==> parts[k].0 == sorted[k] && parts[k].0 in refs && parts[k].1 == refs[sorted[k]].name
    {
      parts := parts + [(sorted[i], refs[sorted[i]].name)];
    }
    forall i, j | 0 <= i < j < |parts|
      ensures PartRefLess(parts[i].0, parts[j].0)
    {
      PartRefOrder(sorted[i], sorted[j], sorted[i]);
    }
    forall ref | ref in refs
      ensures exists i :: 0 <= i < |parts| && parts[i].0 == ref
    {
      var i :| 0 <= i < |sorted| && sorted[i] == ref;
      assert parts[i].0 == ref;
    }
  }

  /** No two meshes share a mesh name. */
  ghost predicate UniqueNames(meshes: map<PartRef, Mesh>) {
    forall a, b :: a in meshes && b in meshes && a != b ==> meshes[a].uniqueName != meshes[b].uniqueName
  }

  /** No two meshes share an instance name once `f` is applied to it. */
  ghost predicate UniqueUnder(meshes: map<PartRef, Mesh>, f: string -> string) {
    forall a, b :: a in meshes && b in meshes && a != b ==> f(meshes[a].originalName) != f(meshes[b].originalName)
  }

  /** The meshes are keyed by the distinct references of `parts`. */
  ghost predicate KeyedBy(parts: seq<(PartRef, string)>, meshes: map<PartRef, Mesh>) {
    && (forall i, j :: 0 <= i < j < |parts| ==> parts[i].0 != parts[j].0)
    && (forall p :: p in meshes <==> exists i :: 0 <= i < |parts| && parts[i].0 == p)
  }

  /** No two meshes share a mesh name exactly when the mesh names of the
      parts, in order, are all different. */
  lemma UniqueNamesDistinct(parts: seq<(PartRef, string)>, meshes: map<PartRef, Mesh>)
    requires KeyedBy(parts, meshes)
    ensures forall i :: 0 <= i < |parts| ==> parts[i].0 in meshes
    ensures UniqueNames(meshes) <==> Distinct(MeshNames(meshes, parts))
  {
    assert forall i :: 0 <= i < |parts| ==> parts[i].0 in meshes;
    if UniqueNames(meshes) {
      NamesDistinct(parts, meshes);
    }
    if Distinct(MeshNames(meshes, parts)) {
      NamesUnique(parts, meshes);
    }
  }

  lemma NamesDistinct(parts: seq<(PartRef, string)>, meshes: map<PartRef, Mesh>)
    requires KeyedBy(parts, meshes) && forall i :: 0 <= i < |parts| ==> parts[i].0 in meshes
    requires UniqueNames(meshes)
    ensures Distinct(MeshNames(meshes, parts))
  {
    var names := MeshNames(meshes, parts);
    forall i, j | 0 <= i < j < |names|
      ensures names[i] != names[j]
    {
      assert parts[i].0 != parts[j].0;
      assert names[i] == meshes[parts[i].0].uniqueName && names[j] == meshes[parts[j].0].uniqueName;
    }
  }

  lemma NamesUnique(parts: seq<(PartRef, string)>, meshes: map<PartRef, Mesh>)
    requires KeyedBy(parts, meshes) && forall i :: 0 <= i < |parts| ==> parts[i].0 in meshes
    requires Distinct(MeshNames(meshes, parts))
    ensures UniqueNames(meshes)
  {
    var names := MeshNames(meshes, parts);
    forall a, b | a in meshes && b in meshes && a != b
      ensures meshes[a].uniqueName != meshes[b].uniqueName
    {
      var i :| 0 <= i < |parts| && parts[i].0 == a;
      var j :| 0 <= j < |parts| && parts[j].0 == b;
      assert names[i] == meshes[a].uniqueName && names[j] == meshes[b].uniqueName;
    }
  }

  /** No two meshes share an instance name once `f` is applied exactly when
      the images of the parts' names, in order, are all different. */
  lemma UniqueUnderDistinct(parts: seq<(PartRef, string)>, meshes: map<PartRef, Mesh>, f: string -> string, fmt: seq<string>)
    requires KeyedBy(parts, meshes)
    requires forall i :: 0 <= i < |parts| ==> parts[i].0 in meshes && meshes[parts[i].0].originalName == parts[i].1
    requires |fmt| == |parts| && forall i :: 0 <= i < |parts| ==> fmt[i] == f(parts[i].1)
    ensures UniqueUnder(meshes, f) <==> Distinct(fmt)
  {
    if UniqueUnder(meshes, f) {
      forall i, j | 0 <= i < j < |fmt|
        ensures fmt[i] != fmt[j]
      {
        assert parts[i].0 != parts[j].0;
        assert fmt[i] == f(meshes[parts[i].0].originalName) && fmt[j] == f(meshes[parts[j].0].originalName);
      }
    }
    if Distinct(fmt) {
      forall a, b | a in meshes && b in meshes && a != b
        ensures f(meshes[a].originalName) != f(meshes[b].originalName)
      {
        var i :| 0 <= i < |parts| && parts[i].0 == a;
        var j :| 0 <= j < |parts| && parts[j].0 == b;
        assert fmt[i] == f(meshes[a].originalName) && fmt[j] == f(meshes[b].originalName);
      }
    }
  }

  /** Over meshes that keep the recorded instances' names, no two share a
      formatted instance name exactly when no two references clash. */
  lemma KeptClash(refs: map<PartRef, PartUse>, digest: PartRef -> string, meshes: map<PartRef, Mesh>)
    requires Kept(refs, digest, meshes)
    ensures UniqueUnder(meshes, FormatName) <==> !Clash(refs)
  {
    if Clash(refs) {
      var a, b :| a in refs && b in refs && a != b && FormatName(refs[a].name) == FormatName(refs[b].name);
      assert a in meshes && b in meshes;
    }
    if !UniqueUnder(meshes, FormatName) {
      var a, b :| a in meshes && b in meshes && a != b && FormatName(meshes[a].originalName) == FormatName(meshes[b].originalName);
      assert a in refs && b in refs;
    }
  }

  /** Two parts whose instance names format alike. */
  ghost predicate FormattedClash(parts: seq<(PartRef, string)>) {
    exists i, j :: 0 <= i < j < |parts| && FormatName(parts[i].1) == FormatName(parts[j].1)
  }

  /** Two different references whose instances have the same formatted name. */
  ghost predicate Clash(refs: map<PartRef, PartUse>) {
    exists a, b :: a in refs && b in refs && a != b && FormatName(refs[a].name) == FormatName(refs[b].name)
  }

  /** The meshes are keyed by the references, each keeping its reference, the
      recorded instance's name and the digest of the reference. */
  ghost predicate Kept(refs: map<PartRef, PartUse>, digest: PartRef -> string, meshes: map<PartRef, Mesh>) {
    && meshes.Keys == refs.Keys
    && forall ref :: ref in meshes ==>
      meshes[ref].ref == ref && meshes[ref].originalName == refs[ref].name && meshes[ref].partHash == digest(ref)
  }

  /** The naming fails only on two references whose instances have the same
      formatted name. */
  lemma MeshesFailed(refs: map<PartRef, PartUse>, parts: seq<(PartRef, string)>)
    requires Listing(refs, parts)
    requires forall i, j :: 0 <= i < j < |parts| ==> parts[i].0 != parts[j].0
    requires FormattedClash(parts)
    ensures Clash(refs)
  {
    var i, j :| 0 <= i < j < |parts| && FormatName(parts[i].1) == FormatName(parts[j].1);
    assert parts[i].0 in refs && parts[j].0 in refs && parts[i].0 != parts[j].0;
  }

  /** The meshes made over a listing of the references are keyed by the
      references, each keeping its reference, the recorded instance's name
      and the digest of the reference. */
  lemma MeshesKept(refs: map<PartRef, PartUse>, parts: seq<(PartRef, string)>, digest: PartRef -> string, meshes: map<PartRef, Mesh>)
    requires Listing(refs, parts)
    requires MeshedFor(parts, digest, meshes)
    ensures Kept(refs, digest, meshes)
  {
    forall ref | ref in meshes
      ensures ref in refs && meshes[ref].ref == ref && meshes[ref].originalName == refs[ref].name && meshes[ref].partHash == digest(ref)
    {
      var i :| 0 <= i < |parts| && parts[i].0 == ref;
    }
    forall ref | ref in refs
      ensures ref in meshes
    {
      var i :| 0 <= i < |parts| && parts[i].0 == ref;
    }
  }

  /** Over distinct references, the mesh names are all different exactly when
      the formatted instance names are. */
  lemma MeshesUnique(parts: seq<(PartRef, string)>, digest: PartRef -> string, meshes: map<PartRef, Mesh>)
    requires forall i, j :: 0 <= i < j < |parts| ==> parts[i].0 != parts[j].0
    requires MeshedFor(parts, digest, meshes)
    requires Distinct(MeshNames(meshes, parts)) <==> Distinct(Formatted(parts))
    ensures UniqueNames(meshes) <==> UniqueUnder(meshes, FormatName)
  {
    assert KeyedBy(parts, meshes);
    UniqueNamesDistinct(parts, meshes);
    UniqueUnderDistinct(parts, meshes, FormatName, Formatted(parts));
  }

  /** Strictly increasing references are all different. */
  lemma IncreasingDistinct(parts: seq<(PartRef, string)>)
    requires forall i, j :: 0 <= i < j < |parts| ==> PartRefLess(parts[i].0, parts[j].0)
    ensures forall i, j :: 0 <= i < j < |parts| ==> parts[i].0 != parts[j].0
  {
    forall i, j | 0 <= i < j < |parts|
      ensures parts[i].0 != parts[j].0
    {
      PartRefOrder(parts[i].0, parts[j].0, parts[i].0);
    }
  }

  /** The naming as written gets through the recorded references, listed
      in increasing order with the names of their recorded instances. */
  ghost predicate MeshesNameable(refs: map<PartRef, PartUse>) {
    forall parts :: Listing(refs, parts) && Ascending(parts) ==> CountsThrough(Formatted(parts))
  }

  /** No recorded instance's formatted name is another's, or its own,
      suffixed with a counter. */
  ghost predicate NoLookalikeNames(refs: map<PartRef, PartUse>) {
    forall u, v :: u in FormattedNames(refs) && v in FormattedNames(refs) ==> !Suffixed(u, v)
  }

  /** The formatted names of the recorded instances. */
  ghost function FormattedNames(refs: map<PartRef, PartUse>): (names: set<string>)
    ensures forall a :: a in refs ==> FormatName(refs[a].name) in names
  {
    set a | a in refs :: FormatName(refs[a].name)
  }

  /** The meshes are named as the loop as written names them, over their
      references in increasing order. */
  ghost predicate NamedInOrder(digest: PartRef -> string, meshes: map<PartRef, Mesh>) {
    exists parts :: Ascending(parts) && NamedAsWritten(parts, digest, meshes)
  }

  /** A completed naming: the references are nameable and do not clash
      without lookalikes. */
  lemma SettledNameable(refs: map<PartRef, PartUse>, parts: seq<(PartRef, string)>, digest: PartRef -> string, meshes: map<PartRef, Mesh>)
    requires Listing(refs, parts) && Ascending(parts)
    requires CountsThrough(Formatted(parts)) && NamedAsWritten(parts, digest, meshes)
    ensures MeshesNameable(refs) && !(Clash(refs) && NoLookalikeNames(refs))
  {
    NameableOutcome(refs, parts, true);
    NamedNoClash(refs, parts);
  }

  /** A completed naming rules out a clash without lookalikes. */
  lemma NamedNoClash(refs: map<PartRef, PartUse>, parts: seq<(PartRef, string)>)
    requires Listing(refs, parts)
    requires NoLookalike(Formatted(parts)) ==> Distinct(Formatted(parts))
    ensures !(Clash(refs) && NoLookalikeNames(refs))
  {
    ClashUnnameable(refs, parts);
  }

  /** A failed naming: two references clash and the references are not
      nameable. */
  lemma SettledErr(refs: map<PartRef, PartUse>, parts: seq<(PartRef, string)>)
    requires Listing(refs, parts) && Ascending(parts)
    requires forall i, j :: 0 <= i < j < |parts| ==> parts[i].0 != parts[j].0
    requires FormattedClash(parts) && !CountsThrough(Formatted(parts))
    ensures Clash(refs) && !MeshesNameable(refs)
  {
    NameableOutcome(refs, parts, false);
    MeshesFailed(refs, parts);
  }

  /** Whether the naming gets through the increasing listing decides it for
      the recorded references, as that listing is the only one. */
  lemma NameableOutcome(refs: map<PartRef, PartUse>, parts: seq<(PartRef, string)>, ok: bool)
    requires Listing(refs, parts) && Ascending(parts)
    requires ok <==> CountsThrough(Formatted(parts))
    ensures ok <==> MeshesNameable(refs)
  {
    if ok {
      forall q | Listing(refs, q) && Ascending(q)
        ensures CountsThrough(Formatted(q))
      {
        ListingUnique(refs, parts, q);
      }
    }
  }

  /** Two references whose instances format alike, without lookalikes: the
      formatted names repeat and none looks like another suffixed. */
  lemma ClashUnnameable(refs: map<PartRef, PartUse>, parts: seq<(PartRef, string)>)
    requires Listing(refs, parts)
    ensures Clash(refs) && NoLookalikeNames(refs) ==> NoLookalike(Formatted(parts)) && !Distinct(Formatted(parts))
  {
    if Clash(refs) && NoLookalikeNames(refs) {
      ClashRepeats(refs, parts);
    }
  }

  lemma ClashRepeats(refs: map<PartRef, PartUse>, parts: seq<(PartRef, string)>)
    requires Listing(refs, parts)
    requires Clash(refs) && NoLookalikeNames(refs)
    ensures NoLookalike(Formatted(parts)) && !Distinct(Formatted(parts))
  {
    ClashRepeated(refs, parts);
    ListedLookalikes(refs, parts);
  }

  /** Two references whose instances format alike repeat a formatted name. */
  lemma ClashRepeated(refs: map<PartRef, PartUse>, parts: seq<(PartRef, string)>)
    requires Listing(refs, parts) && Clash(refs)
    ensures !Distinct(Formatted(parts))
  {
    var fmt := Formatted(parts);
    var a, b :| a in refs && b in refs && a != b && FormatName(refs[a].name) == FormatName(refs[b].name);
    var i :| 0 <= i < |parts| && parts[i].0 == a;
    var j :| 0 <= j < |parts| && parts[j].0 == b;
    assert fmt[i] == FormatName(refs[a].name) && fmt[j] == FormatName(refs[b].name);
    if i < j {
      assert fmt[i] == fmt[j];
    } else {
      assert j < i && fmt[j] == fmt[i];
    }
  }

  /** Without lookalikes among the recorded names, the listing's formatted
      names have none either. */
  lemma ListedLookalikes(refs: map<PartRef, PartUse>, parts: seq<(PartRef, string)>)
    requires Listing(refs, parts) && NoLookalikeNames(refs)
    ensures NoLookalike(Formatted(parts))
  {
    var fmt := Formatted(parts);
    var names := FormattedNames(refs);
    forall x | 0 <= x < |fmt|
      ensures fmt[x] in names
    {
      assert parts[x].0 in refs && fmt[x] == FormatName(refs[parts[x].0].name);
    }
    forall x, y | 0 <= x < |fmt| && 0 <= y < |fmt|
      ensures !Suffixed(fmt[x], fmt[y])
    {
      assert fmt[x] in names && fmt[y] in names;
    }
  }

  /** What the naming as written promises over the parts, stated over the
      recorded references. */
  lemma MeshesOutcome(refs: map<PartRef, PartUse>, parts: seq<(PartRef, string)>, digest: PartRef -> string, meshes: map<PartRef, Mesh>)
    requires Listing(refs, parts) && Ascending(parts)
    requires forall i, j :: 0 <= i < j < |parts| ==> parts[i].0 != parts[j].0
    requires NamedAsWritten(parts, digest, meshes)
    ensures Kept(refs, digest, meshes) && NamedInOrder(digest, meshes)
    ensures UniqueNames(meshes) <==> !Clash(refs)
    ensures !Clash(refs) ==> forall ref :: ref in meshes && ref in refs ==> meshes[ref].uniqueName == FormatName(refs[ref].name)
  {
    MeshesKept(refs, parts, digest, meshes);
    MeshesUnique(parts, digest, meshes);
    KeptClash(refs, digest, meshes);
    if !Clash(refs) {
      FormattedKept(refs, parts, digest, meshes);
    }
  }

  /** Without two references whose instances format alike, every mesh keeps
      its formatted name. */
  lemma FormattedKept(refs: map<PartRef, PartUse>, parts: seq<(PartRef, string)>, digest: PartRef -> string, meshes: map<PartRef, Mesh>)
    requires Listing(refs, parts)
    requires forall i, j :: 0 <= i < j < |parts| ==> parts[i].0 != parts[j].0
    requires NamedAsWritten(parts, digest, meshes) && !Clash(refs)
    ensures forall ref :: ref in meshes && ref in refs ==> meshes[ref].uniqueName == FormatName(refs[ref].name)
  {
    var fmt := Formatted(parts);
    ListedDistinct(refs, parts);
    var names := MeshNames(meshes, parts);
    DistinctNamesKept(fmt, names);
    forall ref | ref in meshes && ref in refs
      ensures meshes[ref].uniqueName == FormatName(refs[ref].name)
    {
      var i :| 0 <= i < |parts| && parts[i].0 == ref;
      assert names[i] == fmt[i];
    }
  }

  /** Without two references whose instances format alike, the listing's
      formatted names all differ. */
  lemma ListedDistinct(refs: map<PartRef, PartUse>, parts: seq<(PartRef, string)>)
    requires Listing(refs, parts)
    requires forall i, j :: 0 <= i < j < |parts| ==> parts[i].0 != parts[j].0
    requires !Clash(refs)
    ensures Distinct(Formatted(parts))
  {
    var fmt := Formatted(parts);
    forall a, b | 0 <= a < b < |fmt|
      ensures fmt[a] != fmt[b]
    {
      assert parts[a].0 in refs && parts[b].0 in refs;
    }
  }

  /** When the formatted names all differ, every part is named by its own. */
  lemma DistinctNamesKept(fmt: seq<string>, names: seq<string>)
    requires Distinct(fmt) && |names| == |fmt| && NamedFor(fmt, names)
    ensures names == fmt
  {
    UnrepeatedDistinct(fmt, |fmt|);
    forall i | 0 <= i < |fmt|
      ensures names[i] == fmt[i]
    {
      UnrepeatedAt(fmt, |fmt|, i);
      assert NameFor(fmt, i, names[i]);
    }
  }

  /** In an unrepeated prefix, no entry was met before. */
  lemma {:induction false} UnrepeatedAt(f: seq<string>, n: nat, i: nat)
    requires i < n <= |f| && Unrepeated(f, n)
    ensures f[i] !in Met(f, i)
    decreases n
  {
    if i < n - 1 {
      UnrepeatedAt(f, n - 1, i);
    }
  }

  /** The mesh naming over the recorded part references, as written: each
      mesh keeps its reference, the recorded instance's name and the digest
      of the reference, and is named as the loop names it over the
      references in increasing order. It succeeds exactly when the loop gets
      through that listing: never when two references have instances whose
      formatted names agree and none looks like another suffixed, and always
      when no two agree, every mesh then keeping its formatted name. When it
      succeeds, the mesh names are all different exactly when the formatted
      names are. */
  method MakeMeshes(refs: map<PartRef, PartUse>, digest: PartRef -> string) returns (r: Result<map<PartRef, Mesh>>)
    ensures r.Err? ==> Clash(refs)
    ensures r.Ok? <==> MeshesNameable(refs)
    ensures Clash(refs) && NoLookalikeNames(refs) ==> r.Err?
    ensures r.Ok? ==> Kept(refs, digest, r.value) && NamedInOrder(digest, r.value)
    ensures r.Ok? ==> (UniqueNames(r.value) <==> !Clash(refs))
    ensures r.Ok? && !Clash(refs) ==> forall ref :: ref in r.value && ref in refs ==> r.value[ref].uniqueName == FormatName(refs[ref].name)
    ensures r.Err? ==> "KeyError: " <= r.msg
  {
    var parts := SortedParts(refs);
    IncreasingDistinct(parts);
    r := NameMeshes(parts, digest);
    if r.Ok? {
      SettledNameable(refs, parts, digest, r.value);
      MeshesOutcome(refs, parts, digest, r.value);
    } else {
      SettledErr(refs, parts);
    }
  }

  /** The mesh name is the instance's formatted name, or that name suffixed
      with a counter. */
  ghost predicate Shaped(m: Mesh) {
    m.uniqueName == FormatName(m.originalName) || Suffixed(FormatName(m.originalName), m.uniqueName)
  }

  /** No mesh's formatted instance name is another's, or its own, suffixed
      with a counter. */
  ghost predicate NoLookalikes(meshes: map<PartRef, Mesh>) {
    forall a, b :: a in meshes && b in meshes ==>
      !Suffixed(FormatName(meshes[a].originalName), FormatName(meshes[b].originalName))
  }

  /** Two different meshes whose instances format alike. */
  ghost predicate FormattedAlike(meshes: map<PartRef, Mesh>, a: PartRef, b: PartRef) {
    a in meshes && b in meshes && a != b && FormatName(meshes[a].originalName) == FormatName(meshes[b].originalName)
  }

  /** What the intended naming promises: every mesh name is shaped from its
      instance's formatted name; meshes whose instances format alike get
      different names; when no two instances format alike every mesh keeps
      its formatted name; and without lookalike formatted names all mesh
      names differ. */
  ghost predicate NamedApart(meshes: map<PartRef, Mesh>) {
    && (forall ref :: ref in meshes ==> Shaped(meshes[ref]))
    && (forall a, b :: FormattedAlike(meshes, a, b) ==> meshes[a].uniqueName != meshes[b].uniqueName)
    && (UniqueUnder(meshes, FormatName) ==> forall ref :: ref in meshes ==> meshes[ref].uniqueName == FormatName(meshes[ref].originalName))
    && (NoLookalikes(meshes) ==> UniqueNames(meshes))
  }

  /** Meshes named as intended over distinct references are shaped from
      their formatted names. */
  lemma FixedShaped(parts: seq<(PartRef, string)>, digest: PartRef -> string, meshes: map<PartRef, Mesh>)
    requires MeshedFor(parts, digest, meshes)
    requires MeshNames(meshes, parts) == IntendedNames(Formatted(parts))
    ensures forall ref :: ref in meshes ==> Shaped(meshes[ref])
  {
    forall ref | ref in meshes
      ensures Shaped(meshes[ref])
    {
      var i :| 0 <= i < |parts| && parts[i].0 == ref;
      assert MeshNames(meshes, parts)[i] == IntendedName(Formatted(parts), i);
    }
  }

  /** Meshes named as intended whose instances format alike have different
      names. */
  lemma FixedApart(parts: seq<(PartRef, string)>, digest: PartRef -> string, meshes: map<PartRef, Mesh>)
    requires MeshedFor(parts, digest, meshes)
    requires MeshNames(meshes, parts) == IntendedNames(Formatted(parts))
    ensures forall a, b :: FormattedAlike(meshes, a, b) ==> meshes[a].uniqueName != meshes[b].uniqueName
  {
    forall a, b | FormattedAlike(meshes, a, b)
      ensures meshes[a].uniqueName != meshes[b].uniqueName
    {
      var i :| 0 <= i < |parts| && parts[i].0 == a;
      var j :| 0 <= j < |parts| && parts[j].0 == b;
      PairApart(parts, digest, meshes, i, j);
    }
  }

  /** Parts `i` and `j`, of different references whose instances format
      alike, have different intended mesh names. */
  lemma PairApart(parts: seq<(PartRef, string)>, digest: PartRef -> string, meshes: map<PartRef, Mesh>, i: nat, j: nat)
    requires MeshedFor(parts, digest, meshes)
    requires MeshNames(meshes, parts) == IntendedNames(Formatted(parts))
    requires i < |parts| && j < |parts| && FormattedAlike(meshes, parts[i].0, parts[j].0)
    ensures meshes[parts[i].0].uniqueName != meshes[parts[j].0].uniqueName
  {
    var fmt := Formatted(parts);
    var a, b := parts[i].0, parts[j].0;
    assert i != j;
    assert meshes[a].originalName == parts[i].1 && meshes[b].originalName == parts[j].1;
    assert fmt[i] == fmt[j];
    assert meshes[a].uniqueName == MeshNames(meshes, parts)[i] == IntendedName(fmt, i);
    assert meshes[b].uniqueName == MeshNames(meshes, parts)[j] == IntendedName(fmt, j);
    if i < j {
      IntendedApart(fmt, i, j);
    } else {
      IntendedApart(fmt, j, i);
    }
  }

  /** Meshes named as intended keep their formatted names when no two
      instances format alike. */
  lemma FixedKept(parts: seq<(PartRef, string)>, digest: PartRef -> string, meshes: map<PartRef, Mesh>)
    requires forall i, j :: 0 <= i < j < |parts| ==> parts[i].0 != parts[j].0
    requires MeshedFor(parts, digest, meshes)
    requires MeshNames(meshes, parts) == IntendedNames(Formatted(parts))
    requires UniqueUnder(meshes, FormatName)
    ensures forall ref :: ref in meshes ==> meshes[ref].uniqueName == FormatName(meshes[ref].originalName)
  {
    var fmt := Formatted(parts);
    assert KeyedBy(parts, meshes);
    UniqueUnderDistinct(parts, meshes, FormatName, fmt);
    IntendedKept(fmt);
    forall ref | ref in meshes
      ensures meshes[ref].uniqueName == FormatName(meshes[ref].originalName)
    {
      var i :| 0 <= i < |parts| && parts[i].0 == ref;
      assert MeshNames(meshes, parts)[i] == fmt[i];
    }
  }

  /** Meshes named as intended all have different names when no formatted
      name looks like another suffixed. */
  lemma FixedUnique(parts: seq<(PartRef, string)>, digest: PartRef -> string, meshes: map<PartRef, Mesh>)
    requires forall i, j :: 0 <= i < j < |parts| ==> parts[i].0 != parts[j].0
    requires MeshedFor(parts, digest, meshes)
    requires MeshNames(meshes, parts) == IntendedNames(Formatted(parts))
    requires NoLookalikes(meshes)
    ensures UniqueNames(meshes)
  {
    var fmt := Formatted(parts);
    LookalikesFree(parts, digest, meshes);
    IntendedAllDistinct(fmt);
    assert KeyedBy(parts, meshes);
    UniqueNamesDistinct(parts, meshes);
  }

  /** No mesh's formatted name looking like another's suffixed means the
      same of the parts' formatted names. */
  lemma LookalikesFree(parts: seq<(PartRef, string)>, digest: PartRef -> string, meshes: map<PartRef, Mesh>)
    requires MeshedFor(parts, digest, meshes)
    requires NoLookalikes(meshes)
    ensures NoLookalike(Formatted(parts))
  {
    var fmt := Formatted(parts);
    forall a, b | 0 <= a < |fmt| && 0 <= b < |fmt|
      ensures !Suffixed(fmt[a], fmt[b])
    {
      assert fmt[a] == FormatName(meshes[parts[a].0].originalName);
      assert fmt[b] == FormatName(meshes[parts[b].0].originalName);
    }
  }

  /** Without lookalikes, the intended names are all different. */
  lemma IntendedAllDistinct(f: seq<string>)
    requires NoLookalike(f)
    ensures Distinct(IntendedNames(f))
  {
    forall a, b | 0 <= a < b < |f|
      ensures IntendedNames(f)[a] != IntendedNames(f)[b]
    {
      IntendedDistinct(f, a, b);
    }
  }

  /** The mesh naming over the recorded part references as evidently
      intended: it never fails, each mesh keeps its reference, the recorded
      instance's name and the digest of the reference, and the names are
      as `NamedApart` says. */
  method MakeMeshesFixed(refs: map<PartRef, PartUse>, digest: PartRef -> string) returns (meshes: map<PartRef, Mesh>)
    ensures Kept(refs, digest, meshes)
    ensures NamedApart(meshes)
  {
    var parts := SortedParts(refs);
    IncreasingDistinct(parts);
    meshes := NameMeshesFixed(parts, digest);
    MeshesKept(refs, parts, digest, meshes);
    FixedShaped(parts, digest, meshes);
    FixedApart(parts, digest, meshes);
    if UniqueUnder(meshes, FormatName) {
      FixedKept(parts, digest, meshes);
    }
    if NoLookalikes(meshes) {
      FixedUnique(parts, digest, meshes);
    }
  }
}
