/**
 * find_boundaries_with_entities_dict: the fold over the face entities of an entities
 * dictionary. Each entity is resolved to compound-filter faces by
 * find_compound_filter_boundaries (handed all_found_cface_names in separate mode) and then
 * reconciled by merge_boundaries. The fold is stated on values (FoldFaces) and run on
 * mesh group objects (FindBoundaries), which is proved against it.
 */
module BoundaryGroups {
  import opened Wrappers
  import opened Seqs
  import Geometry
  import opened Locators
  import opened Registry
  import opened Reconciler
  import opened MeshGroups
  import Boundaries

  /** One turn of the fold: resolve the entity's faces, then reconcile them. */
  function FaceTurn<P, F, S>(k: Geometry.Kernel<P, F, S>, cf: Geometry.CompoundFilter<F, S>, st: State, e: Entity<F>, separate: bool): (r: Result<State>)
    requires WellFormed(st)
    ensures r.Ok? ==> WellFormed(r.value) && PoolGrows(st.pool, r.value.pool) && AppendedTogether(st, r.value)
    ensures r.Err? ==> r.error == FacePointNotFound || r.error == FacesNotFound || r.error.NameNotInList?
  {
    var cs :- FindCompoundFilterBoundaries(k, cf, e.geom, if separate then Some(st.found) else None);
    ApplyEntity(st, e.name, e.meshSize, cs, separate)
  }

  /** The loop of find_boundaries_with_entities_dict over faces, from state st. */
  function FoldFaces<P, F, S>(k: Geometry.Kernel<P, F, S>, cf: Geometry.CompoundFilter<F, S>, st: State, faces: seq<Entity<F>>, separate: bool): (r: Result<State>)
    requires WellFormed(st)
    decreases |faces|
    ensures r.Ok? ==> WellFormed(r.value) && PoolGrows(st.pool, r.value.pool) && AppendedTogether(st, r.value)
    ensures r.Err? ==> r.error == FacePointNotFound || r.error == FacesNotFound || r.error.NameNotInList?
  {
    if faces == [] then Ok(st)
    else
      var st1 :- FaceTurn(k, cf, st, faces[0], separate);
      var r := FoldFaces(k, cf, st1, faces[1..], separate);
      assert r.Ok? ==> r.value.surfaces[..|st.surfaces|] == r.value.surfaces[..|st1.surfaces|][..|st.surfaces|];
      r
  }

  /**
   * Without separate boundaries every entity is resolved on its own: the faces of each
   * entity, in order (the locator raising stops the whole resolution).
   */
  function ResolveAll<P, F, S>(k: Geometry.Kernel<P, F, S>, cf: Geometry.CompoundFilter<F, S>, faces: seq<Entity<F>>): (r: Result<seq<(string, Option<real>, seq<string>)>>)
    ensures r.Ok? ==> |r.value| == |faces|
    ensures r.Ok? ==> forall i :: 0 <= i < |faces| ==>
              r.value[i].0 == faces[i].name && r.value[i].1 == faces[i].meshSize &&
              FindCompoundFilterBoundaries(k, cf, faces[i].geom, None) == Ok(r.value[i].2)
    ensures r.Err? ==> exists i :: 0 <= i < |faces| && FindCompoundFilterBoundaries(k, cf, faces[i].geom, None).Err?
  {
    if faces == [] then Ok([])
    else
      var cs :- FindCompoundFilterBoundaries(k, cf, faces[0].geom, None);
      var rest :- ResolveAll(k, cf, faces[1..]);
      var r := [(faces[0].name, faces[0].meshSize, cs)] + rest;
      assert forall i :: 1 <= i < |faces| ==> faces[i] == faces[1..][i - 1] && r[i] == rest[i - 1];
      Ok(r)
  }

  /**
   * Without separate boundaries the fold is the reconciler applied to the resolved
   * entities, and it succeeds only where every entity resolves.
   */
  lemma {:induction false} FoldFacesResolved<P, F, S>(k: Geometry.Kernel<P, F, S>, cf: Geometry.CompoundFilter<F, S>, st: State, faces: seq<Entity<F>>)
    requires WellFormed(st)
    decreases |faces|
    ensures var items := ResolveAll(k, cf, faces);
            var r := FoldFaces(k, cf, st, faces, false);
            && (items.Ok? ==> r == ApplyAll(st, items.value, false))
            && (r.Ok? ==> items.Ok?)
  {
    if faces != [] {
      var c := FindCompoundFilterBoundaries(k, cf, faces[0].geom, None);
      if c.Ok? {
        var t := ApplyEntity(st, faces[0].name, faces[0].meshSize, c.value, false);
        assert FaceTurn(k, cf, st, faces[0], false) == t;
        if t.Ok? {
          FoldFacesResolved(k, cf, t.value, faces[1..]);
          var items := ResolveAll(k, cf, faces);
          if items.Ok? {
            var rest := ResolveAll(k, cf, faces[1..]).value;
            assert items.value == [(faces[0].name, faces[0].meshSize, c.value)] + rest;
            assert items.value[1..] == rest;
          }
        } else {
          var items := ResolveAll(k, cf, faces);
          if items.Ok? {
            assert items.value[0] == (faces[0].name, faces[0].meshSize, c.value);
          }
        }
      }
    }
  }

  /**
   * In separate mode all_found_cface_names only grows at its end, and the faces a turn
   * adds to it are none of those it held before: a compound face is handed to at most one
   * entity.
   */
  lemma SeparateTurnFresh<P, F, S>(k: Geometry.Kernel<P, F, S>, cf: Geometry.CompoundFilter<F, S>, st: State, e: Entity<F>)
    requires WellFormed(st)
    ensures var r := FaceTurn(k, cf, st, e, true);
            r.Ok? ==>
              && |st.found| < |r.value.found| && r.value.found[..|st.found|] == st.found
              && forall i :: |st.found| <= i < |r.value.found| ==> r.value.found[i] !in st.found
  {
    var c := FindCompoundFilterBoundaries(k, cf, e.geom, Some(st.found));
    if c.Ok? {
      FindCompoundFilterBoundariesSkips(k, cf, e.geom, st.found);
      FoundList(st, e.name, e.meshSize, c.value, true);
      var r := ApplyEntity(st, e.name, e.meshSize, c.value, true);
      assert FaceTurn(k, cf, st, e, true) == r;
      if r.Ok? {
        FreshSuffix(st.found, c.value, if e.name in st.names then c.value else c.value + c.value);
      }
    }
  }

  lemma FreshSuffix(found: seq<string>, cs: seq<string>, added: seq<string>)
    requires cs != [] && (added == cs || added == cs + cs)
    requires forall a :: 0 <= a < |cs| ==> cs[a] !in found
    ensures var f := found + added;
            |found| < |f| && f[..|found|] == found && forall i :: |found| <= i < |f| ==> f[i] !in found
  {
    var f := found + added;
    forall i | |found| <= i < |f|
      ensures f[i] !in found
    {
      var j := i - |found|;
      assert f[i] == added[j];
      if j >= |cs| {
        assert added[j] == cs[j - |cs|];
      }
    }
  }

  /**
   * Entities that resolve, without separate boundaries, to distinct names and pairwise
   * disjoint faces none of which is shared: the returned groups are one per entity, in
   * order, labelled with its name and holding exactly its faces.
   */
  lemma FindBoundariesPartition<P, F, S>(k: Geometry.Kernel<P, F, S>, cf: Geometry.CompoundFilter<F, S>, faces: seq<Entity<F>>)
    requires var items := ResolveAll(k, cf, faces); items.Ok? && FreshItems(Init, items.value)
    ensures var items := ResolveAll(k, cf, faces).value;
            var r := FoldFaces(k, cf, Init, faces, false);
            r.Ok? && r.value.names == ItemNames(items) && Surfaces(r.value) == ItemGroups(items)
  {
    var items := ResolveAll(k, cf, faces).value;
    FoldFacesResolved(k, cf, Init, faces);
    DisjointEntitiesPartition(items, false);
  }

  /** group.References = refs, on group number h. */
  method SetGroupRefs(ls: Lists, ghost nb: Numbering, g: MeshGroup, ghost h: nat, refs: seq<string>) returns (ghost nb': Numbering)
    requires Valid(ls, nb) && h < |nb.objs| && g == nb.objs[h]
    modifies g
    ensures Valid(ls, nb') && nb' == nb.(pool := nb.pool[h := nb.pool[h].(refs := refs)])
  {
    g.refs := refs;
    nb' := nb.(pool := nb.pool[h := nb.pool[h].(refs := refs)]);
    forall j | 0 <= j < |nb.objs| && j != h
      ensures nb.objs[j].Value() == nb'.pool[j]
    {
      assert nb.objs[j] != g;
    }
  }

  /**
   * An entity whose name is listed at idx: its group's References are read, the faces are
   * merged with that group as surface_object, and the unowned ones are appended to what
   * was read.
   */
  method OldName(ls: Lists, ghost nb: Numbering, name: string, meshSize: Option<real>, cs: seq<string>, separate: bool, idx: nat)
    returns (ok: bool, ls': Lists, ghost nb': Numbering)
    requires Valid(ls, nb) && idx < |ls.faceNames| && ls.faceNames[idx] == name
    modifies nb.repr
    ensures var r := ApplyOldName(Abs(ls, nb), name, idx, meshSize, cs, separate);
            ok == r.Ok? && (ok ==> Valid(ls', nb') && Abs(ls', nb') == r.value)
    ensures ok ==> nb.repr <= nb'.repr && fresh(nb'.repr - nb.repr)
  {
    var g := ls.surfaceObjs[idx];
    ghost var h := nb.surfaceIdx[idx];
    var found := g.refs;
    var surface, filtered, ls2;
    ghost var nb2, m;
    ok, surface, filtered, ls2, nb2, m := MergeOld(ls, nb, name, meshSize, cs, separate, idx);
    ls', nb' := ls2, nb2;
    if ok {
      nb' := AddFiltered(ls2, nb2, surface, m, found, filtered);
    }
  }

  /**
   * For a listed name, the resolved faces are added to the found list in separate mode,
   * then merged with the listed group as surface_object.
   */
  method MergeOld(ls: Lists, ghost nb: Numbering, name: string, meshSize: Option<real>, cs: seq<string>, separate: bool, idx: nat)
    returns (ok: bool, surface: MeshGroup?, filtered: seq<string>, ls': Lists, ghost nb': Numbering, ghost m: Merge)
    requires Valid(ls, nb) && idx < |ls.faceNames|
    modifies nb.repr
    ensures var st := Abs(ls, nb);
            var r := Reconciler.MergeBoundaries(if separate then st.(found := st.found + cs) else st,
                                                name, meshSize, cs, Some(st.surfaces[idx]));
            ok == r.Ok? && (ok ==> m == r.value)
    ensures ok ==> Mirrors(ls', nb', surface, m) && m.filtered == filtered
    ensures ok ==> nb.repr <= nb'.repr && fresh(nb'.repr - nb.repr)
  {
    var ls1 := if separate then ls.(allFound := ls.allFound + cs) else ls;
    assert Abs(ls1, nb) == if separate then Abs(ls, nb).(found := Abs(ls, nb).found + cs) else Abs(ls, nb);
    ok, surface, filtered, ls', nb', m := Boundaries.MergeBoundaries(ls1, nb, name, meshSize, cs, ls.surfaceObjs[idx], Some(nb.surfaceIdx[idx]));
  }

  /** When some faces had no owner, the entity's group gets References found + filtered. */
  method AddFiltered(ls: Lists, ghost nb: Numbering, surface: MeshGroup?, ghost m: Merge, found: seq<string>, filtered: seq<string>)
    returns (ghost nb': Numbering)
    requires Mirrors(ls, nb, surface, m) && m.surface.Some? && m.filtered == filtered
    modifies surface
    ensures Valid(ls, nb') && nb'.repr == nb.repr
    ensures Abs(ls, nb') == if filtered == [] then m.st else SetRefs(m.st, m.surface.value, found + filtered)
  {
    nb' := nb;
    if filtered != [] {
      nb' := SetGroupRefs(ls, nb, surface, m.surface.value, found + filtered);
    }
  }

  /**
   * An entity whose name is not listed: the faces are merged without a surface_object and,
   * when some had no owner, the entity's new group gets them as References and is listed
   * under its name.
   */
  method NewName(ls: Lists, ghost nb: Numbering, name: string, meshSize: Option<real>, cs: seq<string>, separate: bool)
    returns (ok: bool, ls': Lists, ghost nb': Numbering)
    requires Valid(ls, nb)
    modifies nb.repr
    ensures ok ==> Valid(ls', nb')
    ensures var r := ApplyNewName(Abs(ls, nb), name, meshSize, cs, separate);
            ok == r.Ok? && (ok ==> Abs(ls', nb') == r.value)
    ensures ok ==> nb.repr <= nb'.repr && fresh(nb'.repr - nb.repr)
  {
    var surface, filtered, ls2;
    ghost var nb2, m;
    ok, surface, filtered, ls2, nb2, m := MergeNew(ls, nb, name, meshSize, cs, separate);
    ls', nb' := ls2, nb2;
    if ok {
      ls', nb' := ListFiltered(ls2, nb2, name, surface, m, filtered);
    }
  }

  /** For a new name, the resolved faces are added to the found list, then merged without a surface_object. */
  method MergeNew(ls: Lists, ghost nb: Numbering, name: string, meshSize: Option<real>, cs: seq<string>, separate: bool)
    returns (ok: bool, surface: MeshGroup?, filtered: seq<string>, ls': Lists, ghost nb': Numbering, ghost m: Merge)
    requires Valid(ls, nb)
    modifies nb.repr
    ensures var st := Abs(ls, nb);
            var r := Reconciler.MergeBoundaries(if separate then st.(found := st.found + cs + cs) else st.(found := st.found + cs),
                                                name, meshSize, cs, None);
            ok == r.Ok? && (ok ==> m == r.value)
    ensures ok ==> Mirrors(ls', nb', surface, m) && m.filtered == filtered
    ensures ok ==> nb.repr <= nb'.repr && fresh(nb'.repr - nb.repr)
  {
    var ls1 := ls.(allFound := (if separate then ls.allFound + cs else ls.allFound) + cs);
    assert Abs(ls1, nb) == if separate then Abs(ls, nb).(found := Abs(ls, nb).found + cs + cs) else Abs(ls, nb).(found := Abs(ls, nb).found + cs);
    ok, surface, filtered, ls', nb', m := Boundaries.MergeBoundaries(ls1, nb, name, meshSize, cs, null, None);
  }

  /**
   * When some faces had no owner, the entity's new group gets them as References and is
   * listed under name.
   */
  method ListFiltered(ls: Lists, ghost nb: Numbering, name: string, surface: MeshGroup?, ghost m: Merge, filtered: seq<string>)
    returns (ls': Lists, ghost nb': Numbering)
    requires Mirrors(ls, nb, surface, m) && m.filtered == filtered
    modifies surface
    ensures Valid(ls', nb') && nb'.repr == nb.repr
    ensures Abs(ls', nb') == if filtered == [] then m.st
                             else var st := SetRefs(m.st, m.surface.value, filtered);
                                  st.(surfaces := st.surfaces + [m.surface.value], names := st.names + [name])
  {
    ls', nb' := ls, nb;
    if filtered != [] {
      ls', nb' := ListNewGroup(ls, nb, name, surface, m.surface.value, filtered);
    }
  }

  /** The entity's new group gets References refs and is listed under name. */
  method ListNewGroup(ls: Lists, ghost nb: Numbering, name: string, g: MeshGroup, ghost h: nat, refs: seq<string>)
    returns (ls': Lists, ghost nb': Numbering)
    requires Valid(ls, nb) && h < |nb.objs| && g == nb.objs[h]
    modifies g
    ensures Valid(ls', nb') && nb'.repr == nb.repr
    ensures var st := SetRefs(Abs(ls, nb), h, refs);
            Abs(ls', nb') == st.(surfaces := st.surfaces + [h], names := st.names + [name])
  {
    ghost var nb1 := SetGroupRefs(ls, nb, g, h, refs);
    ls' := ls.(faceNames := ls.faceNames + [name], surfaceObjs := ls.surfaceObjs + [g]);
    nb' := nb1.(surfaceIdx := nb1.surfaceIdx + [h]);
  }

  /** One turn of find_boundaries_with_entities_dict, proved against FaceTurn. */
  method AddFaceEntity<P, F, S>(k: Geometry.Kernel<P, F, S>, cf: Geometry.CompoundFilter<F, S>, ls: Lists, ghost nb: Numbering, e: Entity<F>, separate: bool)
    returns (ok: bool, ls': Lists, ghost nb': Numbering)
    requires Valid(ls, nb)
    modifies nb.repr
    ensures var r := FaceTurn(k, cf, Abs(ls, nb), e, separate);
            ok == r.Ok? && (ok ==> Valid(ls', nb') && Abs(ls', nb') == r.value)
    ensures ok ==> nb.repr <= nb'.repr && fresh(nb'.repr - nb.repr)
  {
    var resolved := FindCompoundFilterBoundaries(k, cf, e.geom, if separate then Some(ls.allFound) else None);
    if resolved.Err? {
      ok, ls', nb' := false, ls, nb;
      return;
    }
    match IndexOf(ls.faceNames, e.name)
    case Some(idx) =>
      ok, ls', nb' := OldName(ls, nb, e.name, e.meshSize, resolved.value, separate, idx);
    case None =>
      ok, ls', nb' := NewName(ls, nb, e.name, e.meshSize, resolved.value, separate);
  }

  /** The fold from position i on is one turn on faces[i], then the fold from i + 1 on. */
  lemma FoldFacesAt<P, F, S>(k: Geometry.Kernel<P, F, S>, cf: Geometry.CompoundFilter<F, S>, st: State, faces: seq<Entity<F>>, separate: bool, i: nat)
    requires WellFormed(st) && i < |faces|
    ensures var t := FaceTurn(k, cf, st, faces[i], separate);
            FoldFaces(k, cf, st, faces[i..], separate) ==
              if t.Err? then Err(t.error) else FoldFaces(k, cf, t.value, faces[i + 1..], separate)
  {
    assert faces[i..][0] == faces[i] && faces[i..][1..] == faces[i + 1..];
  }

  /** The listed group objects hold the values of the state's group list, and are numbered. */
  lemma ListedGroups(ls: Lists, nb: Numbering)
    requires Valid(ls, nb)
    ensures |ls.surfaceObjs| == |Surfaces(Abs(ls, nb))|
    ensures forall i :: 0 <= i < |ls.surfaceObjs| ==> ls.surfaceObjs[i] in nb.repr && ls.surfaceObjs[i].Value() == Surfaces(Abs(ls, nb))[i]
  {
  }

  /**
   * find_boundaries_with_entities_dict: the returned mesh groups are new objects whose
   * Labels, References and mesh sizes are the groups of FoldFaces from the empty state;
   * ok is false where the source raises.
   */
  method FindBoundaries<P, F, S>(k: Geometry.Kernel<P, F, S>, cf: Geometry.CompoundFilter<F, S>, faces: seq<Entity<F>>, separate: bool)
    returns (ok: bool, surfaceObjs: seq<MeshGroup>)
    ensures var r := FoldFaces(k, cf, Init, faces, separate);
            && ok == r.Ok?
            && (ok ==> |surfaceObjs| == |Surfaces(r.value)|)
            && (ok ==> forall i :: 0 <= i < |surfaceObjs| ==> fresh(surfaceObjs[i]) && surfaceObjs[i].Value() == Surfaces(r.value)[i])
  {
    var ls := Lists([], [], map[], []);
    ghost var nb := Numbering([], [], [], map[], map[], {});
    assert Abs(ls, nb) == Init;
    var i := 0;
    while i < |faces|
      invariant i <= |faces| && Valid(ls, nb) && fresh(nb.repr)
      invariant FoldFaces(k, cf, Init, faces, separate) == FoldFaces(k, cf, Abs(ls, nb), faces[i..], separate)
    {
      FoldFacesAt(k, cf, Abs(ls, nb), faces, separate, i);
      var stepOk;
      stepOk, ls, nb := AddFaceEntity(k, cf, ls, nb, faces[i], separate);
      if !stepOk {
        ok, surfaceObjs := false, [];
        return;
      }
      i := i + 1;
    }
    ListedGroups(ls, nb);
    ok, surfaceObjs := true, ls.surfaceObjs;
  }
}
