/**
 * merge_boundaries and find_boundaries_with_entities_dict as the source runs them: mesh
 * group objects whose Label and References are updated in place, held by a list
 * (surface_objs) and by a dictionary from compound face names (surface_objs_by_cface_names).
 * The lists and the dictionary are local to find_boundaries_with_entities_dict and
 * handed to merge_boundaries, which changes them; here they travel as a value of type
 * Lists into and out of each method. Every method is proved against the value model of
 * module Reconciler through the abstraction Abs.
 */
module Boundaries {
  import opened Wrappers
  import opened Seqs
  import opened Reconciler
  import opened MeshGroups

  /**
   * The rename branch of merge_boundaries: the owner of cface gets the label
   * "<old>_<entity>", then the first entry of face_name_list holding the old label is
   * replaced (ok is false where list.index raises).
   */
  method RenameOwner(ls: Lists, ghost nb: Numbering, entity: string, cface: string, ghost surface: MeshGroup?, ghost m: Merge)
    returns (ok: bool, ls': Lists, ghost nb': Numbering)
    requires Mirrors(ls, nb, surface, m) && cface in ls.ownerByCface
    modifies ls.ownerByCface[cface]
    ensures nb'.repr == nb.repr
    ensures var r := Rename(m, entity, cface);
            ok == r.Ok? && (ok ==> Mirrors(ls', nb', surface, r.value))
  {
    var oldName := ls.ownerByCface[cface].groupLabel;
    var newName := MergedName(oldName, entity);
    nb' := Relabel(ls, nb, cface, newName);
    var found := IndexOf(ls.faceNames, oldName);
    if found.None? {
      ok, ls' := false, ls;
    } else {
      ok, ls' := true, ls.(faceNames := ls.faceNames[found.value := newName]);
      MirrorsRename(ls, nb, nb', surface, m, entity, cface, found.value);
    }
  }

  /** group.Label = new_name, on the owner of cface. */
  method Relabel(ls: Lists, ghost nb: Numbering, cface: string, newName: string) returns (ghost nb': Numbering)
    requires Valid(ls, nb) && cface in ls.ownerByCface
    modifies ls.ownerByCface[cface]
    ensures Valid(ls, nb')
    ensures var h := nb.ownerIdx[cface];
            nb' == nb.(pool := nb.pool[h := nb.pool[h].(groupLabel := newName)])
  {
    var g := ls.ownerByCface[cface];
    ghost var h := nb.ownerIdx[cface];
    g.groupLabel := newName;
    nb' := nb.(pool := nb.pool[h := nb.pool[h].(groupLabel := newName)]);
    forall j | 0 <= j < |nb.objs| && j != h
      ensures nb.objs[j].Value() == nb'.pool[j]
    {
      assert nb.objs[j] != g;
    }
  }

  /** The owner relabelled "<old>_<entity>", and so the first entry of the name list holding "<old>". */
  lemma MirrorsRename(ls: Lists, nb: Numbering, nb': Numbering, surface: MeshGroup?, m: Merge, entity: string, cface: string, idx: nat)
    requires Indexed(ls, nb) && m.st == Abs(ls, nb) && SurfaceAt(nb, surface, m.surface) && MergeInv(m) && cface in ls.ownerByCface
    requires IndexOf(ls.faceNames, m.st.pool[m.st.owner[cface]].groupLabel) == Some(idx)
    requires var h := nb.ownerIdx[cface];
             nb' == nb.(pool := nb.pool[h := nb.pool[h].(groupLabel := MergedName(nb.pool[h].groupLabel, entity))])
    requires Valid(ls, nb')
    ensures var r := Rename(m, entity, cface);
            && r.Ok?
            && Mirrors(ls.(faceNames := ls.faceNames[idx := MergedName(m.st.pool[m.st.owner[cface]].groupLabel, entity)]), nb', surface, r.value)
  {
  }

  /** ref_face_list.append(cface); group.References = ref_face_list, on the i-th listed group. */
  method AppendRef(ls: Lists, ghost nb: Numbering, i: nat, cface: string) returns (ghost nb': Numbering)
    requires Valid(ls, nb) && i < |ls.surfaceObjs|
    modifies ls.surfaceObjs[i]
    ensures Valid(ls, nb')
    ensures var s := nb.surfaceIdx[i];
            nb' == nb.(pool := nb.pool[s := nb.pool[s].(refs := nb.pool[s].refs + [cface])])
  {
    var t := ls.surfaceObjs[i];
    ghost var s := nb.surfaceIdx[i];
    t.refs := t.refs + [cface];
    nb' := nb.(pool := nb.pool[s := nb.pool[s].(refs := nb.pool[s].refs + [cface])]);
    forall j | 0 <= j < |nb.objs| && j != s
      ensures nb.objs[j].Value() == nb'.pool[j]
    {
      assert nb.objs[j] != t;
    }
  }

  /**
   * create_mesh_group_and_set_mesh_size, with References set to refs: a new group that
   * becomes the owner of cface, and is listed under its name when listed holds.
   */
  method NewOwner(ls: Lists, ghost nb: Numbering, name: string, meshSize: Option<real>, refs: seq<string>, cface: string, listed: bool)
    returns (created: MeshGroup, ls': Lists, ghost nb': Numbering)
    requires Valid(ls, nb)
    ensures fresh(created) && Valid(ls', nb')
    ensures nb.repr <= nb'.repr && fresh(nb'.repr - nb.repr)
    ensures var n := |nb.objs|;
            && nb' == Numbering(nb.objs + [created], nb.pool + [NewGroup(name, meshSize).(refs := refs)],
                                if listed then nb.surfaceIdx + [n] else nb.surfaceIdx, nb.ownerIdx[cface := n], nb.numberOf[created := n], nb.repr + {created})
            && ls' == ls.(faceNames := if listed then ls.faceNames + [name] else ls.faceNames,
                          surfaceObjs := if listed then ls.surfaceObjs + [created] else ls.surfaceObjs,
                          ownerByCface := ls.ownerByCface[cface := created])
  {
    created := new MeshGroup(name, meshSize);
    created.refs := refs;
    ghost var pool := nb.pool + [created.Value()];
    assert created !in nb.objs;
    assert Synced(nb.objs, nb.pool);
    SyncedAppend(nb.objs, nb.pool, created);
    if listed {
      IndexedListed(ls, nb, name, created, cface, pool);
      ls' := ls.(faceNames := ls.faceNames + [name], surfaceObjs := ls.surfaceObjs + [created],
                 ownerByCface := ls.ownerByCface[cface := created]);
      nb' := Numbering(nb.objs + [created], pool, nb.surfaceIdx + [|nb.objs|], nb.ownerIdx[cface := |nb.objs|], nb.numberOf[created := |nb.objs|], nb.repr + {created});
    } else {
      IndexedUnlisted(ls, nb, created, cface, pool);
      ls' := ls.(ownerByCface := ls.ownerByCface[cface := created]);
      nb' := Numbering(nb.objs + [created], pool, nb.surfaceIdx, nb.ownerIdx[cface := |nb.objs|], nb.numberOf[created := |nb.objs|], nb.repr + {created});
    }
  }

  /** ref_face_list.remove(cface); group.References = ref_face_list, on the owner of cface. */
  method DropRef(ls: Lists, ghost nb: Numbering, cface: string) returns (ghost nb': Numbering)
    requires Valid(ls, nb) && cface in ls.ownerByCface
    modifies ls.ownerByCface[cface]
    ensures Valid(ls, nb')
    ensures var h := nb.ownerIdx[cface];
            nb' == nb.(pool := nb.pool[h := nb.pool[h].(refs := Without(nb.pool[h].refs, cface))])
  {
    var g := ls.ownerByCface[cface];
    ghost var h := nb.ownerIdx[cface];
    g.refs := Without(g.refs, cface);
    nb' := nb.(pool := nb.pool[h := nb.pool[h].(refs := Without(nb.pool[h].refs, cface))]);
    forall j | 0 <= j < |nb.objs| && j != h
      ensures nb.objs[j].Value() == nb'.pool[j]
    {
      assert nb.objs[j] != g;
    }
  }

  /**
   * The split branch of merge_boundaries: the owner of cface loses that face from its
   * References, and the face is appended to the group listed as "<old>_<entity>", or put
   * in a new group of that name (with the entity's mesh size), which is then listed and
   * becomes the face's owner.
   */
  method SplitOff(ls: Lists, ghost nb: Numbering, entity: string, meshSize: Option<real>, cface: string,
                  ghost surface: MeshGroup?, ghost m: Merge)
    returns (ls': Lists, ghost nb': Numbering)
    requires Mirrors(ls, nb, surface, m) && cface in ls.ownerByCface
    modifies nb.repr
    ensures Mirrors(ls', nb', surface, Split(m, entity, meshSize, cface))
    ensures nb.repr <= nb'.repr && fresh(nb'.repr - nb.repr)
  {
    var newName := MergedName(ls.ownerByCface[cface].groupLabel, entity);
    assert ls.ownerByCface[cface] == nb.objs[nb.ownerIdx[cface]];
    ghost var nb1 := DropRef(ls, nb, cface);
    var found := IndexOf(ls.faceNames, newName);
    if found.Some? {
      nb' := SplitToListed(ls, nb, nb1, entity, meshSize, cface, surface, m, found.value);
      ls' := ls;
    } else {
      ls', nb' := SplitToNew(ls, nb, nb1, entity, meshSize, cface, surface, m, newName);
    }
  }

  /** The split face is appended to the References of the group listed as the merged name. */
  method SplitToListed(ls: Lists, ghost nb: Numbering, ghost nb1: Numbering, entity: string, meshSize: Option<real>, cface: string,
                       ghost surface: MeshGroup?, ghost m: Merge, si: nat)
    returns (ghost nb': Numbering)
    requires Indexed(ls, nb) && m.st == Abs(ls, nb) && SurfaceAt(nb, surface, m.surface) && MergeInv(m) && cface in ls.ownerByCface
    requires IndexOf(ls.faceNames, MergedName(m.st.pool[m.st.owner[cface]].groupLabel, entity)) == Some(si)
    requires Valid(ls, nb1) && nb1 == nb.(pool := Dropped(nb, cface))
    modifies nb.repr
    ensures Mirrors(ls, nb', surface, Split(m, entity, meshSize, cface)) && nb'.repr == nb.repr
  {
    assert ls.surfaceObjs[si] == nb.objs[nb.surfaceIdx[si]];
    nb' := AppendRef(ls, nb1, si, cface);
    MirrorsSplitListed(ls, nb, nb', surface, m, entity, meshSize, cface, si);
  }

  /** The split face is put in a new group, listed under the merged name. */
  method SplitToNew(ls: Lists, ghost nb: Numbering, ghost nb1: Numbering, entity: string, meshSize: Option<real>, cface: string,
                    ghost surface: MeshGroup?, ghost m: Merge, newName: string)
    returns (ls': Lists, ghost nb': Numbering)
    requires Indexed(ls, nb) && m.st == Abs(ls, nb) && SurfaceAt(nb, surface, m.surface) && MergeInv(m) && cface in ls.ownerByCface
    requires newName == MergedName(m.st.pool[m.st.owner[cface]].groupLabel, entity) && IndexOf(ls.faceNames, newName) == None
    requires Valid(ls, nb1) && nb1 == nb.(pool := Dropped(nb, cface))
    ensures Mirrors(ls', nb', surface, Split(m, entity, meshSize, cface))
    ensures nb.repr <= nb'.repr && fresh(nb'.repr - nb.repr)
  {
    var created;
    created, ls', nb' := NewOwner(ls, nb1, newName, meshSize, [cface], cface, true);
    MirrorsSplitNew(ls, ls', nb, nb', surface, m, entity, meshSize, cface, created);
  }

  /** The pool after the owner of cface has lost that face. */
  ghost function Dropped(nb: Numbering, cface: string): (pool: seq<Group>)
    requires cface in nb.ownerIdx && nb.ownerIdx[cface] < |nb.pool|
    ensures |pool| == |nb.pool|
  {
    var h := nb.ownerIdx[cface];
    nb.pool[h := nb.pool[h].(refs := Without(nb.pool[h].refs, cface))]
  }

  /** The split face appended to the group listed as the merged name. */
  lemma MirrorsSplitListed(ls: Lists, nb: Numbering, nb': Numbering, surface: MeshGroup?, m: Merge,
                           entity: string, meshSize: Option<real>, cface: string, si: nat)
    requires Indexed(ls, nb) && m.st == Abs(ls, nb) && SurfaceAt(nb, surface, m.surface) && MergeInv(m) && cface in ls.ownerByCface
    requires IndexOf(ls.faceNames, MergedName(m.st.pool[m.st.owner[cface]].groupLabel, entity)) == Some(si)
    requires Valid(ls, nb')
    requires var s := nb.surfaceIdx[si]; var pool1 := Dropped(nb, cface);
             nb' == nb.(pool := pool1[s := pool1[s].(refs := pool1[s].refs + [cface])])
    ensures Mirrors(ls, nb', surface, Split(m, entity, meshSize, cface))
  {
  }

  /** The split face put in a new group, listed under the merged name. */
  lemma MirrorsSplitNew(ls: Lists, ls': Lists, nb: Numbering, nb': Numbering, surface: MeshGroup?, m: Merge,
                        entity: string, meshSize: Option<real>, cface: string, created: MeshGroup)
    requires Indexed(ls, nb) && m.st == Abs(ls, nb) && SurfaceAt(nb, surface, m.surface) && MergeInv(m) && cface in ls.ownerByCface
    requires var newName := MergedName(m.st.pool[m.st.owner[cface]].groupLabel, entity);
             && IndexOf(ls.faceNames, newName) == None
             && var n := |nb.objs|;
             && nb' == Numbering(nb.objs + [created], Dropped(nb, cface) + [NewGroup(newName, meshSize).(refs := [cface])],
                                 nb.surfaceIdx + [n], nb.ownerIdx[cface := n], nb.numberOf[created := n], nb.repr + {created})
             && ls' == ls.(faceNames := ls.faceNames + [newName], surfaceObjs := ls.surfaceObjs + [created],
                           ownerByCface := ls.ownerByCface[cface := created])
    requires Valid(ls', nb')
    ensures Mirrors(ls', nb', surface, Split(m, entity, meshSize, cface))
  {
  }

  /**
   * The branch of merge_boundaries for a compound face without an owner: the entity's
   * group (made with the entity's name and mesh size when surface_object is None) becomes
   * its owner.
   */
  method TakeFace(ls: Lists, ghost nb: Numbering, entity: string, meshSize: Option<real>, cface: string,
                  surface: MeshGroup?, ghost m: Merge)
    returns (surface': MeshGroup, ls': Lists, ghost nb': Numbering)
    requires Mirrors(ls, nb, surface, m) && cface !in ls.ownerByCface
    ensures Mirrors(ls', nb', surface', TakeUnowned(m, entity, meshSize, cface))
    ensures nb.repr <= nb'.repr && fresh(nb'.repr - nb.repr)
  {
    ghost var r := TakeUnowned(m, entity, meshSize, cface);
    if surface == null {
      surface', ls', nb' := NewOwner(ls, nb, entity, meshSize, [], cface, false);
      assert NewGroup(entity, meshSize).(refs := []) == NewGroup(entity, meshSize);
      assert Abs(ls', nb') == r.st;
    } else {
      surface' := surface;
      ls' := ls.(ownerByCface := ls.ownerByCface[cface := surface]);
      nb' := nb.(ownerIdx := nb.ownerIdx[cface := m.surface.value]);
      MirrorsTakeInto(ls, nb, surface, m, entity, meshSize, cface);
    }
  }

  /** The face is mapped to the entity's group, which exists already. */
  lemma MirrorsTakeInto(ls: Lists, nb: Numbering, surface: MeshGroup?, m: Merge, entity: string, meshSize: Option<real>, cface: string)
    requires Mirrors(ls, nb, surface, m) && cface !in ls.ownerByCface && surface != null
    ensures Mirrors(ls.(ownerByCface := ls.ownerByCface[cface := surface]), nb.(ownerIdx := nb.ownerIdx[cface := m.surface.value]),
                    surface, TakeUnowned(m, entity, meshSize, cface))
  {
    var ls' := ls.(ownerByCface := ls.ownerByCface[cface := surface]);
    var nb' := nb.(ownerIdx := nb.ownerIdx[cface := m.surface.value]);
    assert Indexed(ls', nb');
    assert Abs(ls', nb') == TakeUnowned(m, entity, meshSize, cface).st;
  }

  /** One turn of the loop of merge_boundaries, proved against MergeStep. */
  method MergeFace(ls: Lists, ghost nb: Numbering, entity: string, meshSize: Option<real>, cface: string,
                   surface: MeshGroup?, filtered: seq<string>, ghost m: Merge)
    returns (ok: bool, surface': MeshGroup?, filtered': seq<string>, ls': Lists, ghost nb': Numbering, ghost m': Merge)
    requires Mirrors(ls, nb, surface, m) && m.filtered == filtered
    modifies nb.repr
    ensures ok == MergeStep(m, entity, meshSize, cface).Ok?
    ensures ok ==> m' == MergeStep(m, entity, meshSize, cface).value
    ensures ok ==> Mirrors(ls', nb', surface', m') && m'.filtered == filtered'
    ensures ok ==> nb.repr <= nb'.repr && fresh(nb'.repr - nb.repr)
  {
    ghost var r := MergeStep(m, entity, meshSize, cface);
    m' := if r.Ok? then r.value else m;
    if cface in ls.ownerByCface {
      var g := ls.ownerByCface[cface];
      assert g == nb.objs[nb.ownerIdx[cface]] && g.refs == m.st.pool[m.st.owner[cface]].refs;
      if Without(g.refs, cface) == [] {
        assert g in nb.repr;
        ok, ls', nb' := RenameOwner(ls, nb, entity, cface, surface, m);
        surface', filtered' := surface, filtered;
      } else {
        ls', nb' := SplitOff(ls, nb, entity, meshSize, cface, surface, m);
        ok, surface', filtered' := true, surface, filtered;
      }
    } else {
      ok, filtered' := true, filtered + [cface];
      surface', ls', nb' := TakeFace(ls, nb, entity, meshSize, cface, surface, m);
    }
  }

  /** MergeFace on cs[i], seen as one step along the trace of the loop. */
  method MergeTurn(ls: Lists, ghost nb: Numbering, entity: string, meshSize: Option<real>, cs: seq<string>, i: nat,
                   surface: MeshGroup?, filtered: seq<string>, ghost m0: Merge, ghost m: Merge)
    returns (ok: bool, surface': MeshGroup?, filtered': seq<string>, ls': Lists, ghost nb': Numbering, ghost m': Merge)
    requires MergeInv(m0) && i < |cs| && i < |MergeTrace(m0, entity, meshSize, cs)| && m == MergeTrace(m0, entity, meshSize, cs)[i]
    requires Mirrors(ls, nb, surface, m) && m.filtered == filtered
    modifies nb.repr
    ensures ok <==> i + 1 < |MergeTrace(m0, entity, meshSize, cs)|
    ensures ok ==> m' == MergeTrace(m0, entity, meshSize, cs)[i + 1]
    ensures ok ==> Mirrors(ls', nb', surface', m') && m'.filtered == filtered'
    ensures ok ==> nb.repr <= nb'.repr && fresh(nb'.repr - nb.repr)
  {
    MergeTraceStep(m0, entity, meshSize, cs, i);
    ok, surface', filtered', ls', nb', m' := MergeFace(ls, nb, entity, meshSize, cs[i], surface, filtered, m);
  }

  /** The loop over compound_face_names from the start of the trace of m0 on. */
  method MergeLoop(ls: Lists, ghost nb: Numbering, entity: string, meshSize: Option<real>, cs: seq<string>,
                   surface: MeshGroup?, ghost m0: Merge)
    returns (ok: bool, surface': MeshGroup?, filtered: seq<string>, ls': Lists, ghost nb': Numbering, ghost m': Merge)
    requires Mirrors(ls, nb, surface, m0) && m0.filtered == []
    modifies nb.repr
    ensures ok <==> |MergeTrace(m0, entity, meshSize, cs)| == |cs| + 1
    ensures ok ==> m' == MergeTrace(m0, entity, meshSize, cs)[|cs|]
    ensures ok ==> Mirrors(ls', nb', surface', m') && m'.filtered == filtered
    ensures ok ==> nb.repr <= nb'.repr && fresh(nb'.repr - nb.repr)
  {
    ghost var trace := MergeTrace(m0, entity, meshSize, cs);
    surface', filtered, ls', nb', m' := surface, [], ls, nb, m0;
    var i := 0;
    while i < |cs|
      invariant i <= |cs| && i < |trace| && m' == trace[i]
      invariant Mirrors(ls', nb', surface', m') && m'.filtered == filtered
      invariant nb.repr <= nb'.repr && fresh(nb'.repr - nb.repr)
    {
      var stepOk;
      stepOk, surface', filtered, ls', nb', m' := MergeTurn(ls', nb', entity, meshSize, cs, i, surface', filtered, m0, m');
      if !stepOk {
        ok := false;
        return;
      }
      i := i + 1;
    }
    ok := true;
  }

  /**
   * merge_boundaries: the loop over compound_face_names, proved against the function of
   * the same name in module Reconciler. ok is false where list.index raises.
   */
  method MergeBoundaries(ls: Lists, ghost nb: Numbering, entity: string, meshSize: Option<real>, cs: seq<string>,
                         surface: MeshGroup?, ghost h: Option<nat>)
    returns (ok: bool, surface': MeshGroup?, filtered: seq<string>, ls': Lists, ghost nb': Numbering, ghost m': Merge)
    requires Valid(ls, nb) && SurfaceAt(nb, surface, h)
    modifies nb.repr
    ensures var r := Reconciler.MergeBoundaries(Abs(ls, nb), entity, meshSize, cs, h);
            ok == r.Ok? && (ok ==> m' == r.value)
    ensures ok ==> Mirrors(ls', nb', surface', m') && m'.filtered == filtered
    ensures ok ==> nb.repr <= nb'.repr && fresh(nb'.repr - nb.repr)
  {
    ghost var m0 := Merge(Abs(ls, nb), h, []);
    MergeTraceResult(m0, entity, meshSize, cs);
    ok, surface', filtered, ls', nb', m' := MergeLoop(ls, nb, entity, meshSize, cs, surface, m0);
  }
}
