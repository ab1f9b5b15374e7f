/**
 * The solid-side folds: find_bodies_with_entities_dict (one MeshGroup per solid name) and
 * define_mesh_sizes (one MeshRegion per solid name not in ignore_list), and
 * define_mesh_sizes_with_mesh_groups (one MeshRegion per mesh group not in ignore_list).
 * Both folds keep solid_name_list and the list of objects beside it: a new name appends an
 * object, a repeated name appends the resolved compound solids to that object's References.
 */
module SolidGroups {
  import opened Wrappers
  import opened Seqs
  import Geometry
  import opened Locators
  import opened Registry
  import opened Reconciler
  import opened MeshGroups

  /**
   * solid_name_list and, for each of its names, the mesh size of the entity that made the
   * object and the compound solid names of the object's References.
   */
  datatype Bodies = Bodies(names: seq<string>, sizes: seq<Option<real>>, refs: seq<seq<string>>)

  /** The lists before the first solid entity. */
  const NoBodies: Bodies := Bodies([], [], [])

  /** The lists run side by side and solid_name_list holds no name twice. */
  predicate Parallel(b: Bodies)
  {
    |b.names| == |b.sizes| == |b.refs| && Distinct(b.names)
  }

  /** A solid entity resolved to compound solids: (name, mesh size, names "SolidN"). */
  type Resolved = (string, Option<real>, seq<string>)

  /** One solid entity, once resolved: a repeated name extends References, a new name appends. */
  function AddSolids(b: Bodies, item: Resolved): (b': Bodies)
    requires Parallel(b)
    ensures Parallel(b')
    ensures item.0 in b.names ==> b'.names == b.names && b'.sizes == b.sizes
    ensures item.0 !in b.names ==> b'.names == b.names + [item.0] && b'.sizes == b.sizes + [item.1] && b'.refs == b.refs + [item.2]
  {
    match IndexOf(b.names, item.0)
    case Some(i) => b.(refs := b.refs[i := b.refs[i] + item.2])
    case None => Bodies(b.names + [item.0], b.sizes + [item.1], b.refs + [item.2])
  }

  /**
   * One turn of the solid folds: a name in ignore_list is passed over, any other entity is
   * resolved by find_compound_filter_solids and added.
   */
  function SolidTurn<P, F, S>(k: Geometry.Kernel<P, F, S>, cf: Geometry.CompoundFilter<F, S>, b: Bodies, e: Entity<S>,
                              pointSearch: bool, ignore: seq<string>): (r: Result<Bodies>)
    requires Parallel(b)
    ensures r.Ok? ==> Parallel(r.value)
    ensures r.Err? ==> r.error == SolidPointNotFound || r.error == SolidsNotFound
  {
    if e.name in ignore then Ok(b)
    else
      var cs :- FindCompoundFilterSolids(k, cf, e.geom, pointSearch);
      Ok(AddSolids(b, (e.name, e.meshSize, cs)))
  }

  /** The loop of find_bodies_with_entities_dict and define_mesh_sizes over solids, from b. */
  function SolidFold<P, F, S>(k: Geometry.Kernel<P, F, S>, cf: Geometry.CompoundFilter<F, S>, b: Bodies, solids: seq<Entity<S>>,
                              pointSearch: bool, ignore: seq<string>): (r: Result<Bodies>)
    requires Parallel(b)
    decreases |solids|
    ensures r.Ok? ==> Parallel(r.value)
    ensures r.Err? ==> r.error == SolidPointNotFound || r.error == SolidsNotFound
  {
    if solids == [] then Ok(b)
    else
      var b1 :- SolidTurn(k, cf, b, solids[0], pointSearch, ignore);
      SolidFold(k, cf, b1, solids[1..], pointSearch, ignore)
  }

  /** The entities whose names are not in ignore_list, in order. */
  function Kept<S>(solids: seq<Entity<S>>, ignore: seq<string>): (r: seq<Entity<S>>)
    ensures forall i :: 0 <= i < |r| ==> r[i] in solids && r[i].name !in ignore
    ensures forall i :: 0 <= i < |solids| && solids[i].name !in ignore ==> solids[i] in r
  {
    if solids == [] then []
    else if solids[0].name in ignore then Kept(solids[1..], ignore)
    else [solids[0]] + Kept(solids[1..], ignore)
  }

  /** find_compound_filter_solids on each entity, in order, stopping at the first that raises. */
  function ResolveSolids<P, F, S>(k: Geometry.Kernel<P, F, S>, cf: Geometry.CompoundFilter<F, S>, solids: seq<Entity<S>>,
                                  pointSearch: bool): (r: Result<seq<Resolved>>)
    ensures r.Ok? ==> |r.value| == |solids|
    ensures r.Ok? ==> forall i :: 0 <= i < |solids| ==>
              r.value[i].0 == solids[i].name && r.value[i].1 == solids[i].meshSize &&
              FindCompoundFilterSolids(k, cf, solids[i].geom, pointSearch) == Ok(r.value[i].2)
    ensures r.Err? ==> exists i :: 0 <= i < |solids| && FindCompoundFilterSolids(k, cf, solids[i].geom, pointSearch) == Err(r.error)
  {
    if solids == [] then Ok([])
    else
      var cs :- FindCompoundFilterSolids(k, cf, solids[0].geom, pointSearch);
      var rest :- ResolveSolids(k, cf, solids[1..], pointSearch);
      var r := [(solids[0].name, solids[0].meshSize, cs)] + rest;
      assert forall i :: 1 <= i < |solids| ==> solids[i] == solids[1..][i - 1] && r[i] == rest[i - 1];
      Ok(r)
  }

  /** The resolved entities added one after the other. */
  function Collect(b: Bodies, items: seq<Resolved>): (b': Bodies)
    requires Parallel(b)
    decreases |items|
    ensures Parallel(b')
  {
    if items == [] then b else Collect(AddSolids(b, items[0]), items[1..])
  }

  /**
   * The fold resolves the entities not ignored and adds them; it raises exactly where the
   * first of them that cannot be resolved raises.
   */
  lemma {:induction false} SolidFoldResolved<P, F, S>(k: Geometry.Kernel<P, F, S>, cf: Geometry.CompoundFilter<F, S>, b: Bodies,
                                                      solids: seq<Entity<S>>, pointSearch: bool, ignore: seq<string>)
    requires Parallel(b)
    decreases |solids|
    ensures SolidFold(k, cf, b, solids, pointSearch, ignore) ==
              match ResolveSolids(k, cf, Kept(solids, ignore), pointSearch)
              case Ok(items) => Ok(Collect(b, items))
              case Err(e) => Err(e)
  {
    if solids != [] {
      var e := solids[0];
      SolidFoldResolved(k, cf, b, solids[1..], pointSearch, ignore);
      if e.name in ignore {
        assert Kept(solids, ignore) == Kept(solids[1..], ignore);
      } else {
        var kept := Kept(solids, ignore);
        assert kept == [e] + Kept(solids[1..], ignore);
        assert kept[0] == e && kept[1..] == Kept(solids[1..], ignore);
        var c := FindCompoundFilterSolids(k, cf, e.geom, pointSearch);
        if c.Ok? {
          var b1 := AddSolids(b, (e.name, e.meshSize, c.value));
          SolidFoldResolved(k, cf, b1, solids[1..], pointSearch, ignore);
          var rest := ResolveSolids(k, cf, kept[1..], pointSearch);
          if rest.Ok? {
            var items := ResolveSolids(k, cf, kept, pointSearch).value;
            assert items == [(e.name, e.meshSize, c.value)] + rest.value;
            assert items[0] == (e.name, e.meshSize, c.value) && items[1..] == rest.value;
          }
        }
      }
    }
  }

  /** The names of the resolved entities, each at its first appearance. */
  function FirstNames(items: seq<Resolved>): (r: seq<string>)
    ensures Distinct(r)
    ensures forall j :: 0 <= j < |items| ==> items[j].0 in r
    ensures forall x :: x in r ==> exists j :: 0 <= j < |items| && items[j].0 == x
  {
    if items == [] then []
    else
      var init := items[..|items| - 1];
      var d := FirstNames(init);
      var n := items[|items| - 1].0;
      assert forall j :: 0 <= j < |init| ==> items[j] == init[j];
      if n in d then d else d + [n]
  }

  /** The compound solids of all resolved entities named n, in order. */
  function Gathered(items: seq<Resolved>, n: string): (r: seq<string>)
  {
    if items == [] then []
    else
      var last := items[|items| - 1];
      Gathered(items[..|items| - 1], n) + (if last.0 == n then last.2 else [])
  }

  /** The mesh size of the first resolved entity named n. */
  function FirstSize(items: seq<Resolved>, n: string): Option<real>
  {
    if items == [] then None
    else
      var init := items[..|items| - 1];
      if n in FirstNames(init) then FirstSize(init, n)
      else if items[|items| - 1].0 == n then items[|items| - 1].1
      else None
  }

  /** Adding resolved entities one by one is adding all but the last, then the last. */
  lemma {:induction false} CollectSnoc(b: Bodies, items: seq<Resolved>, x: Resolved)
    requires Parallel(b)
    decreases |items|
    ensures Collect(b, items + [x]) == AddSolids(Collect(b, items), x)
  {
    if items != [] {
      assert (items + [x])[0] == items[0] && (items + [x])[1..] == items[1..] + [x];
      CollectSnoc(AddSolids(b, items[0]), items[1..], x);
    }
  }

  /** A name that no resolved entity carries gathers nothing. */
  lemma {:induction false} GatheredAbsent(items: seq<Resolved>, n: string)
    requires n !in FirstNames(items)
    ensures Gathered(items, n) == []
  {
    if items != [] {
      var init := items[..|items| - 1];
      GatheredAbsent(init, n);
    }
  }

  /**
   * One object per distinct name, in the order names first appear; each object's mesh size
   * is that of the first entity with its name, and its References are the compound solids
   * of all entities with its name, concatenated in order.
   */
  lemma {:induction false} CollectSpec(items: seq<Resolved>)
    ensures Collected(Collect(NoBodies, items), items)
  {
    if items != [] {
      var init := items[..|items| - 1];
      var x := items[|items| - 1];
      assert items == init + [x];
      CollectSpec(init);
      CollectSnoc(NoBodies, init, x);
      CollectStep(Collect(NoBodies, init), init, x);
    }
  }

  /** The reference definitions, one resolved entity further. */
  lemma Snoc(init: seq<Resolved>, x: Resolved)
    ensures FirstNames(init + [x]) == if x.0 in FirstNames(init) then FirstNames(init) else FirstNames(init) + [x.0]
    ensures forall n :: Gathered(init + [x], n) == Gathered(init, n) + (if x.0 == n then x.2 else [])
    ensures forall n :: FirstSize(init + [x], n) ==
              if n in FirstNames(init) then FirstSize(init, n) else if x.0 == n then x.1 else None
  {
    var items := init + [x];
    assert items[..|items| - 1] == init && items[|items| - 1] == x;
  }

  /** What the reference definitions say of the lists b. */
  predicate Collected(b: Bodies, items: seq<Resolved>)
    requires Parallel(b)
  {
    && b.names == FirstNames(items)
    && (forall i :: 0 <= i < |b.names| ==> b.sizes[i] == FirstSize(items, b.names[i]))
    && (forall i :: 0 <= i < |b.names| ==> b.refs[i] == Gathered(items, b.names[i]))
  }

  /** The inductive step of CollectSpec: adding the last resolved entity. */
  lemma CollectStep(b: Bodies, init: seq<Resolved>, x: Resolved)
    requires Parallel(b) && Collected(b, init)
    ensures Collected(AddSolids(b, x), init + [x])
  {
    Snoc(init, x);
    if x.0 in b.names {
      CollectStepRepeated(b, init, x);
    } else {
      CollectStepNew(b, init, x);
    }
  }

  /** A repeated name: its References grow by the entity's compound solids, nothing else changes. */
  lemma CollectStepRepeated(b: Bodies, init: seq<Resolved>, x: Resolved)
    requires Parallel(b) && Collected(b, init) && x.0 in b.names
    requires forall n :: Gathered(init + [x], n) == Gathered(init, n) + (if x.0 == n then x.2 else [])
    requires forall n :: FirstSize(init + [x], n) ==
               if n in FirstNames(init) then FirstSize(init, n) else if x.0 == n then x.1 else None
    requires FirstNames(init + [x]) == FirstNames(init)
    ensures Collected(AddSolids(b, x), init + [x])
  {
    var items := init + [x];
    var b' := AddSolids(b, x);
    var i := IndexOf(b.names, x.0).value;
    assert b' == b.(refs := b.refs[i := b.refs[i] + x.2]);
    forall j | 0 <= j < |b'.names|
      ensures b'.refs[j] == Gathered(items, b'.names[j])
    {
      if j != i {
        assert b.names[j] != x.0;
        assert Gathered(items, b.names[j]) == Gathered(init, b.names[j]) + [];
      }
    }
  }

  /** A new name: it is appended with the entity's mesh size and compound solids. */
  lemma CollectStepNew(b: Bodies, init: seq<Resolved>, x: Resolved)
    requires Parallel(b) && Collected(b, init) && x.0 !in b.names
    requires forall n :: Gathered(init + [x], n) == Gathered(init, n) + (if x.0 == n then x.2 else [])
    requires forall n :: FirstSize(init + [x], n) ==
               if n in FirstNames(init) then FirstSize(init, n) else if x.0 == n then x.1 else None
    requires FirstNames(init + [x]) == FirstNames(init) + [x.0]
    ensures Collected(AddSolids(b, x), init + [x])
  {
    var items := init + [x];
    var b' := AddSolids(b, x);
    var n := |b.names|;
    GatheredAbsent(init, x.0);
    assert Gathered(items, x.0) == [] + x.2;
    forall j | 0 <= j < |b'.names|
      ensures b'.sizes[j] == FirstSize(items, b'.names[j]) && b'.refs[j] == Gathered(items, b'.names[j])
    {
      if j < n {
        assert b'.names[j] == b.names[j] != x.0;
        assert Gathered(items, b.names[j]) == Gathered(init, b.names[j]) + [];
      }
    }
  }

  /**
   * find_bodies_with_entities_dict and define_mesh_sizes, as stated by the reference
   * definitions: solid_name_list is duplicate-free, holds the names not in ignore_list in
   * the order they first appear, and each object's References gather the compound solids
   * of all entities with its name.
   */
  lemma SolidFoldSpec<P, F, S>(k: Geometry.Kernel<P, F, S>, cf: Geometry.CompoundFilter<F, S>, solids: seq<Entity<S>>,
                               pointSearch: bool, ignore: seq<string>)
    ensures var r := SolidFold(k, cf, NoBodies, solids, pointSearch, ignore);
            var items := ResolveSolids(k, cf, Kept(solids, ignore), pointSearch);
            && r.Ok? == items.Ok?
            && (r.Ok? ==>
                  && Distinct(r.value.names)
                  && r.value.names == FirstNames(items.value)
                  && (forall n :: n in r.value.names ==> n !in ignore)
                  && (forall i :: 0 <= i < |r.value.names| ==> r.value.sizes[i] == FirstSize(items.value, r.value.names[i]))
                  && (forall i :: 0 <= i < |r.value.names| ==> r.value.refs[i] == Gathered(items.value, r.value.names[i])))
  {
    SolidFoldResolved(k, cf, NoBodies, solids, pointSearch, ignore);
    var items := ResolveSolids(k, cf, Kept(solids, ignore), pointSearch);
    if items.Ok? {
      CollectSpec(items.value);
      KeptNames(k, cf, Kept(solids, ignore), pointSearch, ignore);
    }
  }

  /** Resolving entities whose names avoid ignore gives first names that avoid it too. */
  lemma KeptNames<P, F, S>(k: Geometry.Kernel<P, F, S>, cf: Geometry.CompoundFilter<F, S>, kept: seq<Entity<S>>,
                           pointSearch: bool, ignore: seq<string>)
    requires forall i :: 0 <= i < |kept| ==> kept[i].name !in ignore
    requires ResolveSolids(k, cf, kept, pointSearch).Ok?
    ensures forall n :: n in FirstNames(ResolveSolids(k, cf, kept, pointSearch).value) ==> n !in ignore
  {
    var items := ResolveSolids(k, cf, kept, pointSearch).value;
    forall n | n in FirstNames(items)
      ensures n !in ignore
    {
      var j :| 0 <= j < |items| && items[j].0 == n;
      assert kept[j].name == n;
    }
  }

  /** The fold from position i on is one turn on solids[i], then the fold from i + 1 on. */
  lemma SolidFoldAt<P, F, S>(k: Geometry.Kernel<P, F, S>, cf: Geometry.CompoundFilter<F, S>, b: Bodies, solids: seq<Entity<S>>,
                             pointSearch: bool, ignore: seq<string>, i: nat)
    requires Parallel(b) && i < |solids|
    ensures var t := SolidTurn(k, cf, b, solids[i], pointSearch, ignore);
            SolidFold(k, cf, b, solids[i..], pointSearch, ignore) ==
              if t.Err? then Err(t.error) else SolidFold(k, cf, t.value, solids[i + 1..], pointSearch, ignore)
  {
    assert solids[i..][0] == solids[i] && solids[i..][1..] == solids[i + 1..];
  }

  /** The i-th MeshGroup of find_bodies_with_entities_dict: label, References, mesh size, object name. */
  function BodyGroup(b: Bodies, i: nat): (g: Group)
    requires Parallel(b) && i < |b.names|
    ensures g.groupLabel == b.names[i] && g.objName == g.groupLabel + "_group"
    ensures g.meshSize == b.sizes[i] && g.refs == b.refs[i]
  {
    Group(b.names[i], b.refs[i], b.sizes[i], b.names[i] + "_group")
  }

  /** solid_objs holds distinct groups whose values are those of b. */
  ghost predicate HoldsGroups(objs: seq<MeshGroup>, b: Bodies)
    reads objs
  {
    && Parallel(b) && |objs| == |b.names|
    && (forall i, j :: 0 <= i < j < |objs| ==> objs[i] != objs[j])
    && forall i :: 0 <= i < |objs| ==> objs[i].Value() == BodyGroup(b, i)
  }

  /** solid_objs[idx].References = refs. */
  method SetBodyRefs(objs: seq<MeshGroup>, ghost b: Bodies, idx: nat, refs: seq<string>) returns (ghost b': Bodies)
    requires HoldsGroups(objs, b) && idx < |objs|
    modifies objs[idx]
    ensures HoldsGroups(objs, b') && b' == b.(refs := b.refs[idx := refs])
  {
    objs[idx].refs := refs;
    b' := b.(refs := b.refs[idx := refs]);
    forall j | 0 <= j < |objs| && j != idx
      ensures objs[j].Value() == BodyGroup(b', j)
    {
      assert objs[j] != objs[idx];
    }
  }

  /** One turn of find_bodies_with_entities_dict, proved against SolidTurn without an ignore list. */
  method AddBody<P, F, S>(k: Geometry.Kernel<P, F, S>, cf: Geometry.CompoundFilter<F, S>, solidObjs: seq<MeshGroup>,
                          solidNames: seq<string>, ghost b: Bodies, solid: Entity<S>, pointSearch: bool)
    returns (ok: bool, solidObjs': seq<MeshGroup>, solidNames': seq<string>, ghost b': Bodies)
    requires HoldsGroups(solidObjs, b) && solidNames == b.names
    modifies solidObjs
    ensures var t := SolidTurn(k, cf, b, solid, pointSearch, []);
            ok == t.Ok? && (ok ==> b' == t.value)
    ensures ok ==> HoldsGroups(solidObjs', b') && solidNames' == b'.names
    ensures ok ==> forall j :: 0 <= j < |solidObjs'| ==> solidObjs'[j] in solidObjs || fresh(solidObjs'[j])
  {
    solidObjs', solidNames', b' := solidObjs, solidNames, b;
    match IndexOf(solidNames, solid.name)
    case Some(idx) =>
      var found := solidObjs[idx].refs;
      var cs := FindCompoundFilterSolids(k, cf, solid.geom, pointSearch);
      ok := cs.Ok?;
      if ok {
        b' := SetBodyRefs(solidObjs, b, idx, found + cs.value);
      }
    case None =>
      var created := new MeshGroup(solid.name, solid.meshSize);
      var cs := FindCompoundFilterSolids(k, cf, solid.geom, pointSearch);
      ok := cs.Ok?;
      if ok {
        created.refs := cs.value;
        solidObjs' := solidObjs + [created];
        solidNames' := solidNames + [solid.name];
        b' := Bodies(b.names + [solid.name], b.sizes + [solid.meshSize], b.refs + [cs.value]);
      }
  }

  /**
   * find_bodies_with_entities_dict: the returned groups are new objects, one per name of
   * SolidFold without an ignore list, holding its values; ok is false where the source raises.
   */
  method FindBodies<P, F, S>(k: Geometry.Kernel<P, F, S>, cf: Geometry.CompoundFilter<F, S>, solids: seq<Entity<S>>, pointSearch: bool)
    returns (ok: bool, solidObjs: seq<MeshGroup>)
    ensures var r := SolidFold(k, cf, NoBodies, solids, pointSearch, []);
            && ok == r.Ok?
            && (ok ==> |solidObjs| == |r.value.names|)
            && (ok ==> forall i :: 0 <= i < |solidObjs| ==> fresh(solidObjs[i]) && solidObjs[i].Value() == BodyGroup(r.value, i))
  {
    solidObjs := [];
    var solidNames: seq<string> := [];
    ghost var b := NoBodies;
    var i := 0;
    while i < |solids|
      invariant i <= |solids| && HoldsGroups(solidObjs, b) && solidNames == b.names
      invariant forall j :: 0 <= j < |solidObjs| ==> fresh(solidObjs[j])
      invariant SolidFold(k, cf, NoBodies, solids, pointSearch, []) == SolidFold(k, cf, b, solids[i..], pointSearch, [])
    {
      SolidFoldAt(k, cf, b, solids, pointSearch, [], i);
      var turnOk;
      turnOk, solidObjs, solidNames, b := AddBody(k, cf, solidObjs, solidNames, b, solids[i], pointSearch);
      if !turnOk {
        ok := false;
        return;
      }
      i := i + 1;
    }
    ok := true;
  }

  /** The i-th MeshRegion of define_mesh_sizes: Name, element length, References. */
  function BodyRegion(b: Bodies, i: nat): (r: Region)
    requires Parallel(b) && i < |b.names|
    ensures r.objName == BodyGroup(b, i).groupLabel + "_region"
    ensures r.elementLength == BodyGroup(b, i).meshSize && r.refs == BodyGroup(b, i).refs
  {
    Region(b.names[i] + "_region", b.sizes[i], b.refs[i])
  }

  /** The region list holds distinct regions whose values are those of b. */
  ghost predicate HoldsRegions(objs: seq<MeshRegion>, b: Bodies)
    reads objs
  {
    && Parallel(b) && |objs| == |b.names|
    && (forall i, j :: 0 <= i < j < |objs| ==> objs[i] != objs[j])
    && forall i :: 0 <= i < |objs| ==> objs[i].Value() == BodyRegion(b, i)
  }

  /** solid_objs[idx].References = refs, on the regions of define_mesh_sizes. */
  method SetRegionRefs(objs: seq<MeshRegion>, ghost b: Bodies, idx: nat, refs: seq<string>) returns (ghost b': Bodies)
    requires HoldsRegions(objs, b) && idx < |objs|
    modifies objs[idx]
    ensures HoldsRegions(objs, b') && b' == b.(refs := b.refs[idx := refs])
  {
    objs[idx].refs := refs;
    b' := b.(refs := b.refs[idx := refs]);
    forall j | 0 <= j < |objs| && j != idx
      ensures objs[j].Value() == BodyRegion(b', j)
    {
      assert objs[j] != objs[idx];
    }
  }

  /** One turn of define_mesh_sizes on a name not in ignore_list: the steps of SolidTurn, on MeshRegion objects. */
  method AddRegion<P, F, S>(k: Geometry.Kernel<P, F, S>, cf: Geometry.CompoundFilter<F, S>, regions: seq<MeshRegion>,
                            solidNames: seq<string>, ghost b: Bodies, solid: Entity<S>, pointSearch: bool, ignore: seq<string>)
    returns (ok: bool, regions': seq<MeshRegion>, solidNames': seq<string>, ghost b': Bodies)
    requires HoldsRegions(regions, b) && solidNames == b.names && solid.name !in ignore
    modifies regions
    ensures var t := SolidTurn(k, cf, b, solid, pointSearch, ignore);
            ok == t.Ok? && (ok ==> b' == t.value)
    ensures ok ==> HoldsRegions(regions', b') && solidNames' == b'.names
    ensures ok ==> forall j :: 0 <= j < |regions'| ==> regions'[j] in regions || fresh(regions'[j])
  {
    regions', solidNames', b' := regions, solidNames, b;
    match IndexOf(solidNames, solid.name)
    case Some(idx) =>
      var found := regions[idx].refs;
      var cs := FindCompoundFilterSolids(k, cf, solid.geom, pointSearch);
      ok := cs.Ok?;
      if ok {
        b' := SetRegionRefs(regions, b, idx, found + cs.value);
      }
    case None =>
      var created := new MeshRegion(solid.name + "_region", solid.meshSize);
      var cs := FindCompoundFilterSolids(k, cf, solid.geom, pointSearch);
      ok := cs.Ok?;
      if ok {
        created.refs := cs.value;
        regions' := regions + [created];
        solidNames' := solidNames + [solid.name];
        b' := Bodies(b.names + [solid.name], b.sizes + [solid.meshSize], b.refs + [cs.value]);
      }
  }

  /** ignore_list, with None read as the empty list. */
  function IgnoreList(ignoreList: Option<seq<string>>): (r: seq<string>)
    ensures ignoreList.None? ==> r == []
    ensures ignoreList.Some? ==> r == ignoreList.value
  {
    if ignoreList.None? then [] else ignoreList.value
  }

  /** The loop of define_mesh_sizes before solid i: the regions made so far, and the fold still to come. */
  ghost predicate RegionLoop<P, F, S>(k: Geometry.Kernel<P, F, S>, cf: Geometry.CompoundFilter<F, S>, solids: seq<Entity<S>>,
                                      pointSearch: bool, ignore: seq<string>, i: nat, regions: seq<MeshRegion>,
                                      solidNames: seq<string>, b: Bodies)
    reads regions
  {
    && i <= |solids| && HoldsRegions(regions, b) && solidNames == b.names
    && SolidFold(k, cf, NoBodies, solids, pointSearch, ignore) == SolidFold(k, cf, b, solids[i..], pointSearch, ignore)
  }

  /**
   * define_mesh_sizes: the regions made are new objects, one per name of SolidFold with
   * ignore_list, each holding its name + "_region", its mesh size and its compound solids;
   * ok is false where the source raises.
   */
  method DefineMeshSizes<P, F, S>(k: Geometry.Kernel<P, F, S>, cf: Geometry.CompoundFilter<F, S>, solids: seq<Entity<S>>,
                                  pointSearch: bool, ignoreList: Option<seq<string>>)
    returns (ok: bool, regions: seq<MeshRegion>)
    ensures var r := SolidFold(k, cf, NoBodies, solids, pointSearch, IgnoreList(ignoreList));
            && ok == r.Ok?
            && (ok ==> |regions| == |r.value.names|)
            && (ok ==> forall i :: 0 <= i < |regions| ==> fresh(regions[i]) && regions[i].Value() == BodyRegion(r.value, i))
  {
    var ignore := IgnoreList(ignoreList);
    regions := [];
    var solidNames: seq<string> := [];
    ghost var b := NoBodies;
    var i := 0;
    while i < |solids|
      invariant RegionLoop(k, cf, solids, pointSearch, ignore, i, regions, solidNames, b)
      invariant forall j :: 0 <= j < |regions| ==> fresh(regions[j])
    {
      SolidFoldAt(k, cf, b, solids, pointSearch, ignore, i);
      if solids[i].name !in ignore {
        var turnOk;
        turnOk, regions, solidNames, b := AddRegion(k, cf, regions, solidNames, b, solids[i], pointSearch, ignore);
        if !turnOk {
          ok := false;
          return;
        }
      }
      i := i + 1;
    }
    ok := true;
  }

  /** The region define_mesh_sizes_with_mesh_groups makes from a group. */
  function RegionOf(g: Group): (r: Region)
    ensures r.objName == g.objName + "_region" && r.elementLength == g.meshSize && r.refs == g.refs
  {
    Region(g.objName + "_region", g.meshSize, g.refs)
  }

  /** The regions of define_mesh_sizes_with_mesh_groups, in the order of the groups. */
  function GroupRegions(gs: seq<Group>, ignore: seq<string>): (r: seq<Region>)
    ensures |r| <= |gs|
  {
    if gs == [] then []
    else
      var g := gs[|gs| - 1];
      GroupRegions(gs[..|gs| - 1], ignore) + (if g.groupLabel in ignore then [] else [RegionOf(g)])
  }

  /** A region is made exactly for the groups whose Label is not in ignore_list. */
  lemma {:induction false} GroupRegionsMembers(gs: seq<Group>, ignore: seq<string>)
    ensures forall g :: g in gs && g.groupLabel !in ignore ==> RegionOf(g) in GroupRegions(gs, ignore)
    ensures forall x :: x in GroupRegions(gs, ignore) ==> exists g :: g in gs && g.groupLabel !in ignore && x == RegionOf(g)
  {
    if gs != [] {
      var init := gs[..|gs| - 1];
      GroupRegionsMembers(init, ignore);
      assert gs == init + [gs[|gs| - 1]];
    }
  }

  /** The regions of two lists of groups, one after the other, are those of the joined list. */
  lemma {:induction false} GroupRegionsAppend(gs: seq<Group>, hs: seq<Group>, ignore: seq<string>)
    decreases |hs|
    ensures GroupRegions(gs + hs, ignore) == GroupRegions(gs, ignore) + GroupRegions(hs, ignore)
  {
    if hs != [] {
      var init := hs[..|hs| - 1];
      assert (gs + hs)[..|gs + hs| - 1] == gs + init;
      assert (gs + hs)[|gs + hs| - 1] == hs[|hs| - 1];
      GroupRegionsAppend(gs, init, ignore);
    } else {
      assert gs + hs == gs;
    }
  }


  /** The values of the groups. */
  ghost function Values(groups: seq<MeshGroup>): (r: seq<Group>)
    reads groups
    ensures |r| == |groups| && forall i :: 0 <= i < |groups| ==> r[i] == groups[i].Value()
  {
    if groups == [] then [] else Values(groups[..|groups| - 1]) + [groups[|groups| - 1].Value()]
  }

  /**
   * define_mesh_sizes_with_mesh_groups: one new region per group whose Label is not in
   * ignore_list, in order, made from the group's Name, mesh_size and References; the groups
   * are left as they were.
   */
  method DefineMeshSizesWithMeshGroups(groups: seq<MeshGroup>, ignoreList: Option<seq<string>>) returns (regions: seq<MeshRegion>)
    ensures var want := GroupRegions(Values(groups), IgnoreList(ignoreList));
            && |regions| == |want|
            && forall i :: 0 <= i < |regions| ==> fresh(regions[i]) && regions[i].Value() == want[i]
  {
    regions := GroupRegionLoop(groups, Values(groups), IgnoreList(ignoreList));
  }

  /** The loop of define_mesh_sizes_with_mesh_groups over groups whose values are vs. */
  method GroupRegionLoop(groups: seq<MeshGroup>, ghost vs: seq<Group>, ignore: seq<string>) returns (regions: seq<MeshRegion>)
    requires |vs| == |groups| && forall j :: 0 <= j < |groups| ==> groups[j].Value() == vs[j]
    ensures MadeRegions(regions, GroupRegions(vs, ignore)) && forall j :: 0 <= j < |regions| ==> fresh(regions[j])
  {
    ghost var want: seq<Region> := [];
    regions := [];
    var i := 0;
    while i < |groups|
      invariant i <= |groups|
      invariant want == GroupRegions(vs[..i], ignore)
      invariant MadeRegions(regions, want) && forall j :: 0 <= j < |regions| ==> fresh(regions[j])
    {
      GroupRegionsAt(vs, i, ignore);
      if groups[i].groupLabel !in ignore {
        regions, want := AddGroupRegion(regions, want, groups[i]);
      }
      i := i + 1;
    }
    assert vs[..i] == vs;
  }

  /** The regions hold the values want, in order. */
  ghost predicate MadeRegions(regions: seq<MeshRegion>, want: seq<Region>)
    reads regions
  {
    |regions| == |want| && forall j :: 0 <= j < |regions| ==> regions[j].Value() == want[j]
  }

  /** One region more, made from the group g. */
  method AddGroupRegion(regions: seq<MeshRegion>, ghost want: seq<Region>, g: MeshGroup)
    returns (regions': seq<MeshRegion>, ghost want': seq<Region>)
    requires MadeRegions(regions, want)
    ensures MadeRegions(regions', want') && want' == want + [RegionOf(g.Value())]
    ensures forall j :: 0 <= j < |regions'| ==> regions'[j] in regions || fresh(regions'[j])
  {
    var region := MakeRegion(g);
    regions' := regions + [region];
    want' := want + [RegionOf(g.Value())];
  }

  /** The regions of the first i + 1 groups: those of the first i, then that of group i if kept. */
  lemma GroupRegionsAt(gs: seq<Group>, i: nat, ignore: seq<string>)
    requires i < |gs|
    ensures GroupRegions(gs[..i + 1], ignore) ==
              GroupRegions(gs[..i], ignore) + (if gs[i].groupLabel in ignore then [] else [RegionOf(gs[i])])
  {
    assert gs[..i + 1][..i] == gs[..i];
  }

  /** makeMeshRegion(doc, mesh_object, mesh_group.mesh_size, mesh_group.Name + '_region') with the group's References. */
  method MakeRegion(g: MeshGroup) returns (region: MeshRegion)
    ensures fresh(region) && region.Value() == RegionOf(g.Value())
  {
    region := new MeshRegion(g.objName + "_region", g.meshSize);
    region.refs := g.refs;
  }
}
