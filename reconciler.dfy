/**
 * The boundary reconciler of merge_boundaries and find_boundaries_with_entities_dict, on
 * values. Mesh groups are objects in the source, and surface_objs and
 * surface_objs_by_cface_names hold references to them; here every group ever created lives
 * in `pool`, in creation order, and is referred to by its position (its handle), so that
 * the aliasing between the list of groups and the ownership map stays visible.
 */
module Reconciler {
  import opened Wrappers
  import opened Seqs

  /**
   * A MeshGroup: its Label (renamed by merges), the compound face names of its References,
   * and the two things fixed when it is made: its mesh_size and its object Name.
   */
  datatype Group = Group(groupLabel: string, refs: seq<string>, meshSize: Option<real>, objName: string)

  /**
   * The state of find_boundaries_with_entities_dict: face_name_list (names), surface_objs
   * (surfaces, as handles), surface_objs_by_cface_names (owner, as handles) and
   * all_found_cface_names (found).
   */
  datatype State = State(pool: seq<Group>, names: seq<string>, surfaces: seq<nat>, owner: map<string, nat>, found: seq<string>)

  /** The state before the first face entity. */
  const Init: State := State([], [], [], map[], [])

  /** Handles point into the pool and the name list runs beside the group list. */
  predicate WellFormed(st: State)
  {
    && |st.names| == |st.surfaces|
    && (forall i :: 0 <= i < |st.surfaces| ==> st.surfaces[i] < |st.pool|)
    && (forall c :: c in st.owner ==> st.owner[c] < |st.pool|)
  }

  /** create_mesh_group_and_set_mesh_size: a group labelled name, no References yet. */
  function NewGroup(name: string, meshSize: Option<real>): (g: Group)
    ensures g.groupLabel == name && g.refs == [] && g.meshSize == meshSize
  {
    Group(name, [], meshSize, name + "_group")
  }

  /** '{}_{}'.format(prior, entity) */
  function MergedName(prior: string, entity: string): (r: string)
    ensures MergedFrom(r, entity)
  {
    var r := prior + "_" + entity;
    assert r[|r| - |entity| - 1..] == "_" + entity;
    r
  }

  /** x ends in "_" followed by entity, so it is longer than entity. */
  predicate MergedFrom(x: string, entity: string)
  {
    |x| > |entity| && x[|x| - |entity| - 1..] == "_" + entity
  }

  /** The pool only grows, and what is fixed at creation (mesh size, object name) stays. */
  predicate PoolGrows(pool: seq<Group>, pool': seq<Group>)
  {
    && |pool| <= |pool'|
    && forall j :: 0 <= j < |pool| ==> pool'[j].meshSize == pool[j].meshSize && pool'[j].objName == pool[j].objName
  }

  /** The group list only grows at its end, and the name list beside it. */
  predicate AppendedTogether(st: State, st': State)
  {
    && |st.surfaces| <= |st'.surfaces|
    && st'.surfaces[..|st.surfaces|] == st.surfaces
    && |st'.names| == |st'.surfaces|
  }

  /**
   * The state inside merge_boundaries: the reconciler state, surface_object (the entity's
   * own group, once made) and filtered_compound_faces.
   */
  datatype Merge = Merge(st: State, surface: Option<nat>, filtered: seq<string>)

  predicate MergeInv(m: Merge)
  {
    && WellFormed(m.st)
    && (m.surface.Some? ==> m.surface.value < |m.st.pool|)
    && (m.filtered != [] ==> m.surface.Some?)
  }

  /** The faces of cs that have no owner in keys, in the order of cs. */
  function Unowned(cs: seq<string>, keys: set<string>): (r: seq<string>)
    ensures forall c :: c in r <==> c in cs && c !in keys
  {
    if cs == [] then []
    else if cs[0] in keys then Unowned(cs[1..], keys)
    else [cs[0]] + Unowned(cs[1..], keys)
  }

  /**
   * One turn of the loop of merge_boundaries, for compound face cface of entity `entity`
   * with mesh size meshSize: rename, split or take the face into the entity's own group.
   */
  function MergeStep(m: Merge, entity: string, meshSize: Option<real>, cface: string): (r: Result<Merge>)
    requires MergeInv(m)
    ensures r.Ok? ==> MergeInv(r.value)
    ensures r.Ok? ==> PoolGrows(m.st.pool, r.value.st.pool) && AppendedTogether(m.st, r.value.st)
    ensures r.Ok? && m.surface.Some? ==> r.value.surface == m.surface
    ensures r.Err? ==> cface in m.st.owner && r.error.NameNotInList?
  {
    if cface in m.st.owner then
      if Without(m.st.pool[m.st.owner[cface]].refs, cface) == [] then Rename(m, entity, cface)
      else Ok(Split(m, entity, meshSize, cface))
    else Ok(TakeUnowned(m, entity, meshSize, cface))
  }

  /** A single-face owner is renamed, and so is the first entry of the name list holding its label. */
  function Rename(m: Merge, entity: string, cface: string): (r: Result<Merge>)
    requires MergeInv(m) && cface in m.st.owner
    ensures r.Ok? ==> MergeInv(r.value) && r.value.surface == m.surface && r.value.filtered == m.filtered
    ensures r.Ok? ==> r.value.st == m.st.(pool := r.value.st.pool, names := r.value.st.names)
    ensures r.Ok? ==> |r.value.st.pool| == |m.st.pool| && |r.value.st.names| == |m.st.names|
    ensures r.Ok? ==> forall j :: 0 <= j < |m.st.pool| ==>
                        r.value.st.pool[j].meshSize == m.st.pool[j].meshSize && r.value.st.pool[j].objName == m.st.pool[j].objName
    ensures r.Ok? ==> forall i :: 0 <= i < |m.st.names| ==>
                        r.value.st.names[i] == m.st.names[i] || MergedFrom(r.value.st.names[i], entity)
    ensures r.Err? ==> r.error.NameNotInList?
  {
    var st := m.st;
    var h := st.owner[cface];
    var g := st.pool[h];
    var newName := MergedName(g.groupLabel, entity);
    match IndexOf(st.names, g.groupLabel)
    case None => Err(NameNotInList(g.groupLabel))
    case Some(idx) =>
      Ok(m.(st := st.(pool := st.pool[h := g.(groupLabel := newName)], names := st.names[idx := newName])))
  }

  /**
   * The face leaves its owner for the group listed as "<old>_<entity>", or for a new group
   * made with that name when none is listed.
   */
  function Split(m: Merge, entity: string, meshSize: Option<real>, cface: string): (r: Merge)
    requires MergeInv(m) && cface in m.st.owner
    ensures MergeInv(r) && r.surface == m.surface && r.filtered == m.filtered && r.st.found == m.st.found
    ensures PoolGrows(m.st.pool, r.st.pool) && AppendedTogether(m.st, r.st)
    ensures r.st.owner.Keys == m.st.owner.Keys
    ensures forall c :: c in m.st.owner && c != cface ==> r.st.owner[c] == m.st.owner[c]
    ensures forall i :: 0 <= i < |r.st.names| ==>
              (i < |m.st.names| && r.st.names[i] == m.st.names[i]) || MergedFrom(r.st.names[i], entity)
  {
    var st := m.st;
    var h := st.owner[cface];
    var g := st.pool[h];
    var newName := MergedName(g.groupLabel, entity);
    var pool1 := st.pool[h := g.(refs := Without(g.refs, cface))];
    match IndexOf(st.names, newName)
    case Some(si) =>
      var s := st.surfaces[si];
      m.(st := st.(pool := pool1[s := pool1[s].(refs := pool1[s].refs + [cface])]))
    case None =>
      var n := |st.pool|;
      var created := NewGroup(newName, meshSize).(refs := [cface]);
      assert (st.surfaces + [n])[..|st.surfaces|] == st.surfaces;
      m.(st := st.(pool := pool1 + [created], names := st.names + [newName],
                   surfaces := st.surfaces + [n], owner := st.owner[cface := n]))
  }

  /**
   * A face without an owner joins filtered_compound_faces and is mapped to the entity's
   * group, which is made (with the entity's name and mesh size) when it was not given.
   */
  function TakeUnowned(m: Merge, entity: string, meshSize: Option<real>, cface: string): (r: Merge)
    requires MergeInv(m)
    ensures MergeInv(r) && r.surface.Some? && r.filtered == m.filtered + [cface]
    ensures r.st == m.st.(pool := r.st.pool, owner := m.st.owner[cface := r.surface.value])
    ensures m.surface.Some? ==> r.surface == m.surface && r.st.pool == m.st.pool
    ensures m.surface.None? ==> r.surface == Some(|m.st.pool|) && r.st.pool == m.st.pool + [NewGroup(entity, meshSize)]
  {
    var st := m.st;
    match m.surface
    case Some(h) => Merge(st.(owner := st.owner[cface := h]), m.surface, m.filtered + [cface])
    case None =>
      var n := |st.pool|;
      Merge(st.(pool := st.pool + [NewGroup(entity, meshSize)], owner := st.owner[cface := n]), Some(n), m.filtered + [cface])
  }

  /** What one turn of the loop does to the ownership map, the found list, the names and the filtered faces. */
  lemma MergeStepFacts(m: Merge, entity: string, meshSize: Option<real>, cface: string)
    requires MergeInv(m)
    ensures var r := MergeStep(m, entity, meshSize, cface);
            r.Ok? ==>
              && r.value.st.owner.Keys == m.st.owner.Keys + {cface} && r.value.st.found == m.st.found
              && (forall c :: c in m.st.owner && c != cface ==> r.value.st.owner[c] == m.st.owner[c])
              && (forall i :: 0 <= i < |r.value.st.names| ==>
                    (i < |m.st.names| && r.value.st.names[i] == m.st.names[i]) || MergedFrom(r.value.st.names[i], entity))
              && r.value.filtered == m.filtered + (if cface in m.st.owner then [] else [cface])
  {
  }

  /** The loop of merge_boundaries over the remaining compound faces cs. */
  function MergeAll(m: Merge, entity: string, meshSize: Option<real>, cs: seq<string>): (r: Result<Merge>)
    requires MergeInv(m)
    decreases |cs|
    ensures r.Ok? ==> MergeInv(r.value)
    ensures r.Ok? ==> PoolGrows(m.st.pool, r.value.st.pool) && AppendedTogether(m.st, r.value.st)
    ensures r.Ok? && m.surface.Some? ==> r.value.surface == m.surface
    ensures r.Err? ==> r.error.NameNotInList?
  {
    if cs == [] then Ok(m)
    else
      var m1 :- MergeStep(m, entity, meshSize, cs[0]);
      MergeAll(m1, entity, meshSize, cs[1..])
  }

  /**
   * Over the whole loop: every face of cs gets an owner, other owners stay, the found list
   * stays and filtered_compound_faces only grows at its end.
   */
  lemma {:induction false} MergeAllFacts(m: Merge, entity: string, meshSize: Option<real>, cs: seq<string>)
    requires MergeInv(m)
    decreases |cs|
    ensures var r := MergeAll(m, entity, meshSize, cs);
            r.Ok? ==>
              && (forall c :: c in r.value.st.owner <==> c in m.st.owner || c in cs) && r.value.st.found == m.st.found
              && (forall c :: c in m.st.owner && c !in cs ==> r.value.st.owner[c] == m.st.owner[c])
              && |m.filtered| <= |r.value.filtered| && r.value.filtered[..|m.filtered|] == m.filtered
  {
    if cs != [] {
      var r1 := MergeStep(m, entity, meshSize, cs[0]);
      if r1.Ok? {
        var m1 := r1.value;
        MergeStepFacts(m, entity, meshSize, cs[0]);
        MergeAllFacts(m1, entity, meshSize, cs[1..]);
        var r := MergeAll(m1, entity, meshSize, cs[1..]);
        assert MergeAll(m, entity, meshSize, cs) == r;
        if r.Ok? {
          assert r.value.filtered[..|m.filtered|] == r.value.filtered[..|m1.filtered|][..|m.filtered|];
          forall c | c in r.value.st.owner ensures c in m.st.owner || c in cs {
            if c !in m1.st.owner { assert c in cs[1..]; }
          }
        }
      }
    }
  }

  /**
   * The states before each turn of the loop, from m on, as long as the turns succeed: the
   * loop stops at the first turn that fails, or after the last face.
   */
  function MergeTrace(m: Merge, entity: string, meshSize: Option<real>, cs: seq<string>): (t: seq<Merge>)
    requires MergeInv(m)
    decreases |cs|
    ensures 1 <= |t| <= |cs| + 1 && t[0] == m
  {
    if cs == [] then [m]
    else match MergeStep(m, entity, meshSize, cs[0])
      case Err(_) => [m]
      case Ok(m1) => [m] + MergeTrace(m1, entity, meshSize, cs[1..])
  }

  /** Each state of the trace is one turn on from the one before it, and the trace stops at a failing turn. */
  lemma {:induction false} MergeTraceStep(m: Merge, entity: string, meshSize: Option<real>, cs: seq<string>, k: nat)
    requires MergeInv(m)
    requires var t := MergeTrace(m, entity, meshSize, cs); k < |t| && k < |cs|
    decreases k
    ensures var t := MergeTrace(m, entity, meshSize, cs);
            MergeInv(t[k]) &&
            var r := MergeStep(t[k], entity, meshSize, cs[k]);
            (r.Ok? <==> k + 1 < |t|) && (r.Ok? ==> t[k + 1] == r.value)
  {
    var t := MergeTrace(m, entity, meshSize, cs);
    if k > 0 {
      var m1 := MergeStep(m, entity, meshSize, cs[0]).value;
      var t1 := MergeTrace(m1, entity, meshSize, cs[1..]);
      assert t == [m] + t1;
      MergeTraceStep(m1, entity, meshSize, cs[1..], k - 1);
    }
  }

  /** The loop succeeds exactly when the trace runs to the end of cs, and ends in its last state. */
  lemma {:induction false} MergeTraceResult(m: Merge, entity: string, meshSize: Option<real>, cs: seq<string>)
    requires MergeInv(m)
    decreases |cs|
    ensures var t := MergeTrace(m, entity, meshSize, cs);
            var r := MergeAll(m, entity, meshSize, cs);
            (r.Ok? <==> |t| == |cs| + 1) && (r.Ok? ==> r.value == t[|cs|])
  {
    if cs != [] {
      var r1 := MergeStep(m, entity, meshSize, cs[0]);
      if r1.Ok? {
        MergeTraceResult(r1.value, entity, meshSize, cs[1..]);
        var t1 := MergeTrace(r1.value, entity, meshSize, cs[1..]);
        assert MergeTrace(m, entity, meshSize, cs) == [m] + t1;
      }
    }
  }

  /**
   * merge_boundaries(face_entity_dict, compound_face_names, ..., surface_object): the
   * updated state, the entity's group and filtered_compound_faces.
   */
  function MergeBoundaries(st: State, entity: string, meshSize: Option<real>, cs: seq<string>, surface: Option<nat>): (r: Result<Merge>)
    requires WellFormed(st) && (surface.Some? ==> surface.value < |st.pool|)
    ensures r.Ok? ==> MergeInv(r.value) && PoolGrows(st.pool, r.value.st.pool) && AppendedTogether(st, r.value.st)
    ensures r.Ok? && surface.Some? ==> r.value.surface == surface
    ensures r.Err? ==> r.error.NameNotInList?
  {
    MergeAll(Merge(st, surface, []), entity, meshSize, cs)
  }

  /** Set the References of group h. */
  function SetRefs(st: State, h: nat, refs: seq<string>): (st': State)
    requires WellFormed(st) && h < |st.pool|
    ensures WellFormed(st') && PoolGrows(st.pool, st'.pool) && AppendedTogether(st, st')
  {
    assert st.surfaces[..|st.surfaces|] == st.surfaces;
    st.(pool := st.pool[h := st.pool[h].(refs := refs)])
  }

  /**
   * One turn of the loop of find_boundaries_with_entities_dict for a face entity named
   * `name`, once find_compound_filter_boundaries has resolved it to cs.
   */
  function ApplyEntity(st: State, name: string, meshSize: Option<real>, cs: seq<string>, separate: bool): (r: Result<State>)
    requires WellFormed(st)
    ensures r.Ok? ==> WellFormed(r.value) && PoolGrows(st.pool, r.value.pool) && AppendedTogether(st, r.value)
    ensures r.Err? ==> r.error.NameNotInList?
  {
    match IndexOf(st.names, name)
    case Some(idx) => ApplyOldName(st, name, idx, meshSize, cs, separate)
    case None => ApplyNewName(st, name, meshSize, cs, separate)
  }

  /** An old name: the References are read before the merge and written after it. */
  function ApplyOldName(st: State, name: string, idx: nat, meshSize: Option<real>, cs: seq<string>, separate: bool): (r: Result<State>)
    requires WellFormed(st) && idx < |st.names| && st.names[idx] == name
    ensures r.Ok? ==> WellFormed(r.value) && PoolGrows(st.pool, r.value.pool) && AppendedTogether(st, r.value)
    ensures r.Err? ==> r.error.NameNotInList?
  {
    var h := st.surfaces[idx];
    var found := st.pool[h].refs;
    var st1 := if separate then st.(found := st.found + cs) else st;
    var m :- MergeBoundaries(st1, name, meshSize, cs, Some(h));
    if m.filtered == [] then Ok(m.st)
    else Ok(SetRefs(m.st, h, found + m.filtered))
  }

  /** A new name: the found list is extended once more, whatever the mode. */
  function ApplyNewName(st: State, name: string, meshSize: Option<real>, cs: seq<string>, separate: bool): (r: Result<State>)
    requires WellFormed(st)
    ensures r.Ok? ==> WellFormed(r.value) && PoolGrows(st.pool, r.value.pool) && AppendedTogether(st, r.value)
    ensures r.Err? ==> r.error.NameNotInList?
  {
    var st1 := if separate then st.(found := st.found + cs + cs) else st.(found := st.found + cs);
    var m :- MergeBoundaries(st1, name, meshSize, cs, None);
    if m.filtered == [] then Ok(m.st)
    else
      var h := m.surface.value;
      var st2 := SetRefs(m.st, h, m.filtered);
      assert (st2.surfaces + [h])[..|st.surfaces|] == st2.surfaces[..|st.surfaces|];
      Ok(st2.(surfaces := st2.surfaces + [h], names := st2.names + [name]))
  }

  /** Apply a sequence of already resolved entities (name, mesh size, compound faces). */
  function ApplyAll(st: State, items: seq<(string, Option<real>, seq<string>)>, separate: bool): (r: Result<State>)
    requires WellFormed(st)
    decreases |items|
    ensures r.Ok? ==> WellFormed(r.value) && PoolGrows(st.pool, r.value.pool) && AppendedTogether(st, r.value)
  {
    if items == [] then Ok(st)
    else
      var st1 :- ApplyEntity(st, items[0].0, items[0].1, items[0].2, separate);
      var r := ApplyAll(st1, items[1..], separate);
      assert r.Ok? ==> r.value.surfaces[..|st.surfaces|] == r.value.surfaces[..|st1.surfaces|][..|st.surfaces|];
      r
  }

  /** The groups of the group list, in its order (the list that is returned). */
  function Surfaces(st: State): (gs: seq<Group>)
    requires WellFormed(st)
    ensures |gs| == |st.surfaces|
  {
    seq(|st.surfaces|, i requires 0 <= i < |st.surfaces| => st.pool[st.surfaces[i]])
  }

  /**
   * Rename: a compound face whose owner holds no other face renames that owner to
   * "<old>_<entity>" and rewrites the first entry of the name list holding the old label
   * (ValueError when there is none); References, the ownership map and the group list stay.
   */
  lemma RenameStep(m: Merge, entity: string, meshSize: Option<real>, cface: string)
    requires MergeInv(m) && cface in m.st.owner
    requires Without(m.st.pool[m.st.owner[cface]].refs, cface) == []
    ensures var st := m.st; var h := st.owner[cface]; var g := st.pool[h];
            var r := MergeStep(m, entity, meshSize, cface);
            && (r.Err? <==> g.groupLabel !in st.names)
            && (r.Err? ==> r.error == NameNotInList(g.groupLabel))
            && (r.Ok? ==>
                  var st' := r.value.st; var idx := IndexOf(st.names, g.groupLabel).value;
                  && st'.pool == st.pool[h := Group(MergedName(g.groupLabel, entity), g.refs, g.meshSize, g.objName)]
                  && |st'.names| == |st.names| && st'.names[idx] == MergedName(g.groupLabel, entity)
                  && (forall i :: 0 <= i < |st.names| && i != idx ==> st'.names[i] == st.names[i])
                  && st'.owner == st.owner && st'.surfaces == st.surfaces
                  && r.value.surface == m.surface && r.value.filtered == m.filtered)
  {
  }

  /**
   * Split: a compound face whose owner holds other faces leaves the owner (whose
   * References lose exactly that face) and goes to the group listed as "<old>_<entity>",
   * or, when no such name is listed, to a new group with the entity's mesh size; only then
   * do the ownership map, the group list and the name list change.
   */
  lemma SplitStep(m: Merge, entity: string, meshSize: Option<real>, cface: string)
    requires MergeInv(m) && cface in m.st.owner
    requires Without(m.st.pool[m.st.owner[cface]].refs, cface) != []
    ensures var st := m.st; var h := st.owner[cface]; var g := st.pool[h];
            var newName := MergedName(g.groupLabel, entity);
            var r := MergeStep(m, entity, meshSize, cface);
            && r.Ok? && r.value.surface == m.surface && r.value.filtered == m.filtered
            && (newName !in st.names ==>
                  var st' := r.value.st;
                  && |st'.pool| == |st.pool| + 1
                  && multiset(st'.pool[h].refs) == multiset(g.refs)[cface := 0]
                  && st'.pool[|st.pool|] == Group(newName, [cface], meshSize, newName + "_group")
                  && (forall j :: 0 <= j < |st.pool| && j != h ==> st'.pool[j] == st.pool[j])
                  && st'.owner == st.owner[cface := |st.pool|]
                  && st'.surfaces == st.surfaces + [|st.pool|] && st'.names == st.names + [newName])
            && (newName in st.names ==>
                  var st' := r.value.st; var s := st.surfaces[IndexOf(st.names, newName).value];
                  && |st'.pool| == |st.pool|
                  && (s != h ==> multiset(st'.pool[h].refs) == multiset(g.refs)[cface := 0]
                                 && st'.pool[s].refs == st.pool[s].refs + [cface])
                  && (forall j :: 0 <= j < |st.pool| && j != h && j != s ==> st'.pool[j] == st.pool[j])
                  && st'.owner == st.owner && st'.surfaces == st.surfaces && st'.names == st.names)
  {
    var st := m.st;
    var h := st.owner[cface];
    var g := st.pool[h];
    WithoutMultiset(g.refs, cface);
    var r := Split(m, entity, meshSize, cface);
    assert MergeStep(m, entity, meshSize, cface) == Ok(r);
    var pool1 := st.pool[h := g.(refs := Without(g.refs, cface))];
    var newName := MergedName(g.groupLabel, entity);
    match IndexOf(st.names, newName)
    case Some(si) =>
      var s := st.surfaces[si];
      assert r.st == st.(pool := pool1[s := pool1[s].(refs := pool1[s].refs + [cface])]);
    case None =>
      assert r.st.pool == pool1 + [Group(newName, [cface], meshSize, newName + "_group")];
  }

  /**
   * Unowned: the face joins filtered_compound_faces and is mapped to the entity's group,
   * which is made (with the entity's name and mesh size) only if it was not given.
   */
  lemma UnownedStep(m: Merge, entity: string, meshSize: Option<real>, cface: string)
    requires MergeInv(m) && cface !in m.st.owner
    ensures var st := m.st; var r := MergeStep(m, entity, meshSize, cface);
            && r.Ok? && r.value.filtered == m.filtered + [cface]
            && r.value.surface.Some? && r.value.st.owner == st.owner[cface := r.value.surface.value]
            && r.value.st.names == st.names && r.value.st.surfaces == st.surfaces
            && (m.surface.Some? ==> r.value.surface == m.surface && r.value.st.pool == st.pool)
            && (m.surface.None? ==> r.value.surface == Some(|st.pool|) && r.value.st.pool == st.pool + [NewGroup(entity, meshSize)])
  {
  }

  /** Unowned looks at the owners of the faces of cs only. */
  lemma {:induction false} UnownedSameOn(cs: seq<string>, keys: set<string>, keys': set<string>)
    requires forall c :: c in cs ==> (c in keys <==> c in keys')
    ensures Unowned(cs, keys) == Unowned(cs, keys')
  {
    if cs != [] {
      UnownedSameOn(cs[1..], keys, keys');
    }
  }

  lemma DistinctTail<T>(s: seq<T>)
    requires Distinct(s) && s != []
    ensures Distinct(s[1..]) && s[0] !in s[1..]
  {
    forall i, j | 0 <= i < |s| - 1 && 0 <= j < |s| - 1 && i != j
      ensures s[1..][i] != s[1..][j]
    {
      assert s[1..][i] == s[i + 1] && s[1..][j] == s[j + 1];
    }
  }

  /**
   * Over distinct compound faces, filtered_compound_faces is exactly the faces that had no
   * owner when merge_boundaries was called, in input order.
   */
  lemma {:induction false} MergeFiltered(m: Merge, entity: string, meshSize: Option<real>, cs: seq<string>)
    requires MergeInv(m) && Distinct(cs)
    decreases |cs|
    ensures var r := MergeAll(m, entity, meshSize, cs);
            r.Ok? ==> r.value.filtered == m.filtered + Unowned(cs, m.st.owner.Keys)
  {
    if cs != [] {
      var r1 := MergeStep(m, entity, meshSize, cs[0]);
      if r1.Ok? {
        var m1 := r1.value;
        DistinctTail(cs);
        MergeStepFacts(m, entity, meshSize, cs[0]);
        MergeFiltered(m1, entity, meshSize, cs[1..]);
        UnownedSameOn(cs[1..], m.st.owner.Keys, m1.st.owner.Keys);
        UnownedCons(m.filtered, m1.filtered, cs, m.st.owner.Keys);
        assert MergeAll(m, entity, meshSize, cs) == MergeAll(m1, entity, meshSize, cs[1..]);
      }
    }
  }

  /** One face's contribution to the filtered faces, followed by the rest. */
  lemma UnownedCons(f: seq<string>, f1: seq<string>, cs: seq<string>, keys: set<string>)
    requires cs != [] && f1 == f + (if cs[0] in keys then [] else [cs[0]])
    ensures f1 + Unowned(cs[1..], keys) == f + Unowned(cs, keys)
  {
    var u := Unowned(cs[1..], keys);
    if cs[0] in keys {
      assert f + [] == f;
      assert Unowned(cs, keys) == u;
    } else {
      assert Unowned(cs, keys) == [cs[0]] + u;
      ConcatCons(f, cs[0], u);
    }
  }

  /** Over distinct compound faces, every face that had no owner ends up owned by the entity's group. */
  lemma {:induction false} MergeUnownedOwner(m: Merge, entity: string, meshSize: Option<real>, cs: seq<string>)
    requires MergeInv(m) && Distinct(cs)
    decreases |cs|
    ensures var r := MergeAll(m, entity, meshSize, cs);
            r.Ok? ==> forall c :: c in cs && c !in m.st.owner ==>
                        r.value.surface.Some? && c in r.value.st.owner && r.value.st.owner[c] == r.value.surface.value
  {
    if cs != [] {
      var r1 := MergeStep(m, entity, meshSize, cs[0]);
      if r1.Ok? {
        DistinctTail(cs);
        MergeStepFacts(m, entity, meshSize, cs[0]);
        MergeAllFacts(r1.value, entity, meshSize, cs[1..]);
        MergeUnownedOwner(r1.value, entity, meshSize, cs[1..]);
        assert MergeAll(m, entity, meshSize, cs) == MergeAll(r1.value, entity, meshSize, cs[1..]);
      }
    }
  }

  /**
   * Every entry of the name list after merge_boundaries is either the entry that was there
   * or a merged name "<old>_<entity>".
   */
  lemma {:induction false} MergeNames(m: Merge, entity: string, meshSize: Option<real>, cs: seq<string>)
    requires MergeInv(m)
    decreases |cs|
    ensures var r := MergeAll(m, entity, meshSize, cs);
            r.Ok? ==> forall i :: 0 <= i < |r.value.st.names| ==>
                        (i < |m.st.names| && r.value.st.names[i] == m.st.names[i]) || MergedFrom(r.value.st.names[i], entity)
  {
    if cs != [] {
      var r1 := MergeStep(m, entity, meshSize, cs[0]);
      if r1.Ok? {
        MergeStepFacts(m, entity, meshSize, cs[0]);
        var m1 := r1.value;
        MergeNames(m1, entity, meshSize, cs[1..]);
        var r := MergeAll(m1, entity, meshSize, cs[1..]);
        assert MergeAll(m, entity, meshSize, cs) == r;
        if r.Ok? {
          forall i | 0 <= i < |r.value.st.names|
            ensures (i < |m.st.names| && r.value.st.names[i] == m.st.names[i]) || MergedFrom(r.value.st.names[i], entity)
          {
            assert (i < |m1.st.names| && r.value.st.names[i] == m1.st.names[i]) || MergedFrom(r.value.st.names[i], entity);
            if i < |m1.st.names| && r.value.st.names[i] == m1.st.names[i] {
              assert (i < |m.st.names| && m1.st.names[i] == m.st.names[i]) || MergedFrom(m1.st.names[i], entity);
            }
          }
        }
      }
    }
  }

  /**
   * The entity's own group, while merge_boundaries runs: made in this call (not listed,
   * no face mapped to it but the ones of cs already handled), labelled with the entity's
   * name, holding no References yet.
   */
  predicate OwnGroupIntact(m: Merge, entity: string, poolSize: nat, handled: seq<string>)
    requires MergeInv(m)
  {
    m.surface.Some? ==>
      var h := m.surface.value;
      && poolSize <= h
      && m.st.pool[h].groupLabel == entity && m.st.pool[h].refs == []
      && (forall i :: 0 <= i < |m.st.surfaces| ==> m.st.surfaces[i] != h)
      && (forall c :: c in m.st.owner && m.st.owner[c] == h ==> c in handled)
  }

  /** One turn of the loop keeps the entity's own group intact. */
  lemma OwnGroupIntactStep(m: Merge, entity: string, meshSize: Option<real>, cface: string,
                           poolSize: nat, handled: seq<string>)
    requires MergeInv(m) && poolSize <= |m.st.pool| && cface !in handled
    requires OwnGroupIntact(m, entity, poolSize, handled)
    ensures var r := MergeStep(m, entity, meshSize, cface);
            r.Ok? ==> poolSize <= |r.value.st.pool| && OwnGroupIntact(r.value, entity, poolSize, handled + [cface])
  {
    var st := m.st;
    if cface in st.owner {
      var h' := st.owner[cface];
      assert m.surface.Some? ==> h' != m.surface.value;
      if Without(st.pool[h'].refs, cface) == [] {
        var r := Rename(m, entity, cface);
        assert MergeStep(m, entity, meshSize, cface) == r;
      } else {
        var r := Split(m, entity, meshSize, cface);
        assert MergeStep(m, entity, meshSize, cface) == Ok(r);
        if m.surface.Some? {
          var h := m.surface.value;
          assert r.st.pool[h] == st.pool[h];
        }
      }
    } else {
      var r := TakeUnowned(m, entity, meshSize, cface);
      assert MergeStep(m, entity, meshSize, cface) == Ok(r);
    }
  }

  lemma {:induction false} MergeOwnGroupIntact(m: Merge, entity: string, meshSize: Option<real>, cs: seq<string>,
                                                poolSize: nat, handled: seq<string>)
    requires MergeInv(m) && Distinct(cs) && poolSize <= |m.st.pool|
    requires OwnGroupIntact(m, entity, poolSize, handled)
    requires forall c :: c in cs ==> c !in handled
    decreases |cs|
    ensures var r := MergeAll(m, entity, meshSize, cs);
            r.Ok? ==> OwnGroupIntact(r.value, entity, poolSize, handled + cs)
  {
    if cs == [] {
      assert handled + cs == handled;
    } else {
      var r1 := MergeStep(m, entity, meshSize, cs[0]);
      if r1.Ok? {
        DistinctTail(cs);
        OwnGroupIntactStep(m, entity, meshSize, cs[0], poolSize, handled);
        MergeOwnGroupIntact(r1.value, entity, meshSize, cs[1..], poolSize, handled + [cs[0]]);
        ConcatCons(handled, cs[0], cs[1..]);
        assert [cs[0]] + cs[1..] == cs;
        assert MergeAll(m, entity, meshSize, cs) == MergeAll(r1.value, entity, meshSize, cs[1..]);
      }
    }
  }

  /**
   * merge_boundaries without a given group makes the entity's group exactly when some face
   * has no owner: one group, new, not listed, labelled and sized as the entity.
   */
  lemma MergeOwnGroup(st: State, entity: string, meshSize: Option<real>, cs: seq<string>)
    requires WellFormed(st) && Distinct(cs)
    ensures var r := MergeBoundaries(st, entity, meshSize, cs, None);
            r.Ok? ==>
              && (r.value.surface.Some? <==> Unowned(cs, st.owner.Keys) != [])
              && (r.value.surface.Some? ==>
                    var h := r.value.surface.value;
                    && |st.pool| <= h && h !in r.value.st.surfaces
                    && r.value.st.pool[h] == NewGroup(entity, meshSize)
                    && r.value.filtered == Unowned(cs, st.owner.Keys)
                    && forall c :: c in Unowned(cs, st.owner.Keys) ==> c in r.value.st.owner && r.value.st.owner[c] == h)
  {
    var m := Merge(st, None, []);
    MergeFiltered(m, entity, meshSize, cs);
    MergeUnownedOwner(m, entity, meshSize, cs);
    MergeOwnGroupIntact(m, entity, meshSize, cs, |st.pool|, []);
    assert [] + cs == cs;
    MergeOwnGroupMade(m, entity, meshSize, cs);
  }

  /** Without a group given, the entity's group is made only together with a filtered face. */
  lemma {:induction false} MergeOwnGroupMade(m: Merge, entity: string, meshSize: Option<real>, cs: seq<string>)
    requires MergeInv(m) && m.surface.None? && m.filtered == []
    decreases |cs|
    ensures var r := MergeAll(m, entity, meshSize, cs);
            r.Ok? && r.value.surface.Some? ==>
              && r.value.filtered != []
              && r.value.st.pool[r.value.surface.value].meshSize == meshSize
              && r.value.st.pool[r.value.surface.value].objName == entity + "_group"
  {
    if cs != [] {
      var r1 := MergeStep(m, entity, meshSize, cs[0]);
      if r1.Ok? {
        if r1.value.surface.None? {
          MergeOwnGroupMade(r1.value, entity, meshSize, cs[1..]);
        } else {
          var r := MergeAll(r1.value, entity, meshSize, cs[1..]);
          MergeAllFacts(r1.value, entity, meshSize, cs[1..]);
          if r.Ok? {
            assert r.value.filtered[..1] == r1.value.filtered;
          }
        }
      }
    }
  }

  /**
   * all_found_cface_names grows by the resolved faces: once for an old name in separate
   * mode, twice for a new name in separate mode, once for a new name otherwise.
   */
  lemma FoundList(st: State, name: string, meshSize: Option<real>, cs: seq<string>, separate: bool)
    requires WellFormed(st)
    ensures var r := ApplyEntity(st, name, meshSize, cs, separate);
            r.Ok? ==> r.value.found == st.found + (if name in st.names then (if separate then cs else [])
                                                   else (if separate then cs + cs else cs))
  {
    match IndexOf(st.names, name)
    case Some(idx) =>
      FoundListOld(st, name, idx, meshSize, cs, separate);
      assert st.found + [] == st.found;
    case None =>
      FoundListNew(st, name, meshSize, cs, separate);
      assert st.found + cs + cs == st.found + (cs + cs);
  }

  lemma FoundListOld(st: State, name: string, idx: nat, meshSize: Option<real>, cs: seq<string>, separate: bool)
    requires WellFormed(st) && idx < |st.names| && st.names[idx] == name
    ensures var r := ApplyOldName(st, name, idx, meshSize, cs, separate);
            r.Ok? ==> r.value.found == if separate then st.found + cs else st.found
  {
    var h := st.surfaces[idx];
    var st1 := if separate then st.(found := st.found + cs) else st;
    var m0 := Merge(st1, Some(h), []);
    MergeAllFacts(m0, name, meshSize, cs);
    var r := MergeAll(m0, name, meshSize, cs);
    if r.Ok? && r.value.filtered != [] {
      assert SetRefs(r.value.st, h, st.pool[h].refs + r.value.filtered).found == r.value.st.found;
    }
  }

  lemma FoundListNew(st: State, name: string, meshSize: Option<real>, cs: seq<string>, separate: bool)
    requires WellFormed(st)
    ensures var r := ApplyNewName(st, name, meshSize, cs, separate);
            r.Ok? ==> r.value.found == if separate then st.found + cs + cs else st.found + cs
  {
    var st1 := if separate then st.(found := st.found + cs + cs) else st.(found := st.found + cs);
    var m0 := Merge(st1, None, []);
    MergeAllFacts(m0, name, meshSize, cs);
    var r := MergeAll(m0, name, meshSize, cs);
    if r.Ok? && r.value.filtered != [] {
      assert SetRefs(r.value.st, r.value.surface.value, r.value.filtered).found == r.value.st.found;
    }
  }

  /**
   * An entity with a new name whose compound faces all have owners makes no group of its
   * own and does not enter the name list: every entry it adds is a merged name.
   */
  lemma NewNameAllOwned(st: State, name: string, meshSize: Option<real>, cs: seq<string>, separate: bool)
    requires WellFormed(st) && Distinct(cs) && name !in st.names
    requires forall c :: c in cs ==> c in st.owner
    ensures var r := ApplyEntity(st, name, meshSize, cs, separate);
            r.Ok? ==> name !in r.value.names &&
                      forall i :: |st.names| <= i < |r.value.names| ==> MergedFrom(r.value.names[i], name)
  {
    var st1 := if separate then st.(found := st.found + cs + cs) else st.(found := st.found + cs);
    var m := Merge(st1, None, []);
    MergeFiltered(m, name, meshSize, cs);
    MergeNames(m, name, meshSize, cs);
    assert Unowned(cs, st.owner.Keys) == [] by {
      UnownedAllOwned(cs, st.owner.Keys);
    }
  }

  lemma {:induction false} UnownedAllOwned(cs: seq<string>, keys: set<string>)
    requires forall c :: c in cs ==> c in keys
    ensures Unowned(cs, keys) == []
  {
    if cs != [] {
      UnownedAllOwned(cs[1..], keys);
    }
  }

  /**
   * A repeated name: when some resolved face had no owner, the listed group's References
   * become the references read before the merge followed by those faces, and each of them
   * is owned by that group.
   */
  lemma RepeatedName(st: State, name: string, meshSize: Option<real>, cs: seq<string>, separate: bool)
    requires WellFormed(st) && Distinct(cs) && name in st.names
    ensures var h := st.surfaces[IndexOf(st.names, name).value];
            var r := ApplyEntity(st, name, meshSize, cs, separate);
            r.Ok? && Unowned(cs, st.owner.Keys) != [] ==>
              && r.value.pool[h].refs == st.pool[h].refs + Unowned(cs, st.owner.Keys)
              && forall c :: c in Unowned(cs, st.owner.Keys) ==> c in r.value.owner && r.value.owner[c] == h
  {
    var h := st.surfaces[IndexOf(st.names, name).value];
    var st1 := if separate then st.(found := st.found + cs) else st;
    var m := Merge(st1, Some(h), []);
    MergeFiltered(m, name, meshSize, cs);
    MergeUnownedOwner(m, name, meshSize, cs);
    var r := MergeAll(m, name, meshSize, cs);
    var u := Unowned(cs, st.owner.Keys);
    if r.Ok? && u != [] {
      assert [] + u == u;
      var st2 := SetRefs(r.value.st, h, st.pool[h].refs + u);
      assert ApplyOldName(st, name, IndexOf(st.names, name).value, meshSize, cs, separate) == Ok(st2);
    }
  }

  /**
   * A new name with some unowned resolved face: one group is made for the entity, labelled
   * with its name, holding exactly those faces, owning them, and listed last under that name.
   */
  lemma NewNameGroup(st: State, name: string, meshSize: Option<real>, cs: seq<string>, separate: bool)
    requires WellFormed(st) && Distinct(cs) && name !in st.names
    requires Unowned(cs, st.owner.Keys) != []
    ensures var r := ApplyEntity(st, name, meshSize, cs, separate);
            r.Ok? ==>
              var st' := r.value;
              && |st.surfaces| < |st'.surfaces|
              && var h := st'.surfaces[|st'.surfaces| - 1];
              && |st.pool| <= h
              && st'.names[|st'.names| - 1] == name
              && st'.pool[h] == Group(name, Unowned(cs, st.owner.Keys), meshSize, name + "_group")
              && forall c :: c in Unowned(cs, st.owner.Keys) ==> c in st'.owner && st'.owner[c] == h
  {
    var st1 := if separate then st.(found := st.found + cs + cs) else st.(found := st.found + cs);
    MergeOwnGroup(st1, name, meshSize, cs);
    assert IndexOf(st.names, name) == None;
    var r := MergeBoundaries(st1, name, meshSize, cs, None);
    if r.Ok? {
      var m := r.value;
      var h := m.surface.value;
      var u := Unowned(cs, st.owner.Keys);
      assert m.filtered == u && m.st.pool[h] == NewGroup(name, meshSize);
      var st2 := SetRefs(m.st, h, m.filtered);
      assert st2.pool[h] == Group(name, u, meshSize, name + "_group");
      var st3 := st2.(surfaces := st2.surfaces + [h], names := st2.names + [name]);
      assert ApplyEntity(st, name, meshSize, cs, separate) == Ok(st3);
      assert st3.surfaces[|st3.surfaces| - 1] == h && st3.names[|st3.names| - 1] == name;
    }
  }

  /** Two single-face entities "A" and "B" on the same face: one group "A_B" with that face. */
  lemma {:induction false} ScenarioRename(size: Option<real>)
    ensures var r := ApplyAll(Init, [("A", size, ["Face5"]), ("B", size, ["Face5"])], false);
            r.Ok? && r.value.names == ["A_B"] && Surfaces(r.value) == [Group("A_B", ["Face5"], size, "A_group")]
  {
    var cs: seq<string> := ["Face5"];
    var st1 := State([Group("A", cs, size, "A_group")], ["A"], [0], map["Face5" := 0], cs);
    ScenarioRenameFirst(size);
    ScenarioRenameSecond(size);
    var items := [("A", size, cs), ("B", size, cs)];
    assert ApplyEntity(Init, items[0].0, items[0].1, items[0].2, false) == Ok(st1);
    assert items[1..][1..] == [];
  }

  /** "A": the face has no owner, so A's own group is made, listed and given the face. */
  lemma ScenarioRenameFirst(size: Option<real>)
    ensures ApplyEntity(Init, "A", size, ["Face5"], false)
            == Ok(State([Group("A", ["Face5"], size, "A_group")], ["A"], [0], map["Face5" := 0], ["Face5"]))
  {
    var cs: seq<string> := ["Face5"];
    FreshEntity(Init, "A", size, cs, false);
    assert cs[1..] == [];
    assert Init.owner[cs[0] := 0] == map["Face5" := 0];
    assert OwnAll(Init.owner, cs, 0) == OwnAll(map["Face5" := 0], cs[1..], 0);
    assert OwnAll(map["Face5" := 0], [], 0) == map["Face5" := 0];
    assert Init.found + cs == cs;
    GroupObjectName();
    assert Init.pool + [Group("A", cs, size, "A_group")] == [Group("A", cs, size, "A_group")];
    assert Init.names + ["A"] == ["A"] && Init.surfaces + [0] == [0];
  }

  lemma GroupObjectName()
    ensures "A" + "_group" == "A_group"
  {
  }

  /** "B": the face's owner holds no other face, so it is renamed "A_B". */
  lemma ScenarioRenameSecond(size: Option<real>)
    ensures var st1 := State([Group("A", ["Face5"], size, "A_group")], ["A"], [0], map["Face5" := 0], ["Face5"]);
            var st2 := st1.(pool := [Group("A_B", ["Face5"], size, "A_group")], names := ["A_B"], found := ["Face5", "Face5"]);
            ApplyAll(st1, [("B", size, ["Face5"])], false) == Ok(st2) && Surfaces(st2) == st2.pool
  {
    var cs: seq<string> := ["Face5"];
    var st1 := State([Group("A", cs, size, "A_group")], ["A"], [0], map["Face5" := 0], cs);
    assert IndexOf(st1.names, "B") == None;
    var s1 := st1.(found := cs + cs);
    assert Without(cs, "Face5") == [];
    assert IndexOf(s1.names, "A") == Some(0);
    var st2 := s1.(pool := [Group("A_B", cs, size, "A_group")], names := ["A_B"]);
    assert MergedName("A", "B") == "A_B";
    assert s1.pool[0 := s1.pool[0].(groupLabel := "A_B")] == st2.pool;
    assert s1.names[0 := "A_B"] == st2.names;
    assert MergeStep(Merge(s1, None, []), "B", size, "Face5") == Ok(Merge(st2, None, []));
    assert cs[1..] == [];
    assert ApplyEntity(st1, "B", size, cs, false) == Ok(st2);
    var items := [("B", size, cs)];
    assert items[1..] == [];
    assert ApplyAll(st2, items[1..], false) == Ok(st2);
    assert ApplyAll(st1, items, false) == Ok(st2);
    assert cs + cs == ["Face5", "Face5"];
    assert Surfaces(st2)[0] == st2.pool[0];
  }

  /**
   * A split to a listed merged group leaves the ownership map stale, so one face can end in
   * two groups: "A" on Face1 and Face2, "A_B" on Face3, "B" on Face1 (Face1 joins the
   * listed group "A_B" but stays mapped to "A"), then "C" on Face1 (split again from "A",
   * into a new group "A_C").
   */
  lemma {:induction false} ScenarioStaleOwner(size: Option<real>)
    ensures var r := ApplyAll(Init, [("A", size, ["Face1", "Face2"]), ("A_B", size, ["Face3"]),
                                     ("B", size, ["Face1"]), ("C", size, ["Face1"])], false);
            && r.Ok? && r.value.names == ["A", "A_B", "A_C"]
            && Surfaces(r.value) == [Group("A", ["Face2"], size, "A_group"), Group("A_B", ["Face3", "Face1"], size, "A_B_group"),
                                     Group("A_C", ["Face1"], size, "A_C_group")]
  {
    StaleChain(size);
    StaleSurfaces(size);
  }

  lemma StaleSurfaces(size: Option<real>)
    ensures Surfaces(StaleAfterC(size)) == [Group("A", ["Face2"], size, "A_group"), Group("A_B", ["Face3", "Face1"], size, "A_B_group"),
                                            Group("A_C", ["Face1"], size, "A_C_group")]
  {
    var st4 := StaleAfterC(size);
    assert Surfaces(st4)[0] == st4.pool[0] && Surfaces(st4)[1] == st4.pool[1] && Surfaces(st4)[2] == st4.pool[2];
  }

  /** The four entities of ScenarioStaleOwner, one state after the other. */
  lemma StaleChain(size: Option<real>)
    ensures ApplyAll(Init, [("A", size, ["Face1", "Face2"]), ("A_B", size, ["Face3"]),
                            ("B", size, ["Face1"]), ("C", size, ["Face1"])], false) == Ok(StaleAfterC(size))
  {
    var items := [("A", size, ["Face1", "Face2"]), ("A_B", size, ["Face3"]), ("B", size, ["Face1"]), ("C", size, ["Face1"])];
    StaleFirst(size);
    ApplyAllCons(Init, items, false, StaleAfterA(size));
    assert items[1..] == [("A_B", size, ["Face3"]), ("B", size, ["Face1"]), ("C", size, ["Face1"])];
    StaleFromSecond(size);
  }

  lemma StaleFromSecond(size: Option<real>)
    ensures ApplyAll(StaleAfterA(size), [("A_B", size, ["Face3"]), ("B", size, ["Face1"]), ("C", size, ["Face1"])], false)
            == Ok(StaleAfterC(size))
  {
    var items := [("A_B", size, ["Face3"]), ("B", size, ["Face1"]), ("C", size, ["Face1"])];
    StaleSecond(size);
    ApplyAllCons(StaleAfterA(size), items, false, StaleAfterAB(size));
    assert items[1..] == [("B", size, ["Face1"]), ("C", size, ["Face1"])];
    StaleFromThird(size);
  }

  lemma StaleFromThird(size: Option<real>)
    ensures ApplyAll(StaleAfterAB(size), [("B", size, ["Face1"]), ("C", size, ["Face1"])], false) == Ok(StaleAfterC(size))
  {
    var items := [("B", size, ["Face1"]), ("C", size, ["Face1"])];
    StaleThird(size);
    ApplyAllCons(StaleAfterAB(size), items, false, StaleAfterB(size));
    assert items[1..] == [("C", size, ["Face1"])];
    StaleFromFourth(size);
  }

  lemma StaleFromFourth(size: Option<real>)
    ensures ApplyAll(StaleAfterB(size), [("C", size, ["Face1"])], false) == Ok(StaleAfterC(size))
  {
    var last := [("C", size, ["Face1"])];
    StaleFourth(size);
    assert last[0] == ("C", size, ["Face1"]) && last[1..] == [];
    assert ApplyAll(StaleAfterC(size), [], false) == Ok(StaleAfterC(size));
  }

  function StaleAfterA(size: Option<real>): State
  {
    State([Group("A", ["Face1", "Face2"], size, "A_group")], ["A"], [0], map["Face1" := 0, "Face2" := 0], ["Face1", "Face2"])
  }

  function StaleAfterAB(size: Option<real>): State
  {
    State([Group("A", ["Face1", "Face2"], size, "A_group"), Group("A_B", ["Face3"], size, "A_B_group")], ["A", "A_B"], [0, 1],
          map["Face1" := 0, "Face2" := 0, "Face3" := 1], ["Face1", "Face2", "Face3"])
  }

  function StaleAfterB(size: Option<real>): State
  {
    State([Group("A", ["Face2"], size, "A_group"), Group("A_B", ["Face3", "Face1"], size, "A_B_group")], ["A", "A_B"], [0, 1],
          map["Face1" := 0, "Face2" := 0, "Face3" := 1], ["Face1", "Face2", "Face3", "Face1"])
  }

  function StaleAfterC(size: Option<real>): State
  {
    State([Group("A", ["Face2"], size, "A_group"), Group("A_B", ["Face3", "Face1"], size, "A_B_group"),
           Group("A_C", ["Face1"], size, "A_C_group")], ["A", "A_B", "A_C"], [0, 1, 2],
          map["Face1" := 2, "Face2" := 0, "Face3" := 1], ["Face1", "Face2", "Face3", "Face1", "Face1"])
  }

  /** "A" on Face1 and Face2: a fresh entity. */
  lemma StaleFirst(size: Option<real>)
    ensures ApplyEntity(Init, "A", size, ["Face1", "Face2"], false) == Ok(StaleAfterA(size))
  {
    var cs: seq<string> := ["Face1", "Face2"];
    assert Distinct(cs);
    FreshEntity(Init, "A", size, cs, false);
    StaleFirstOwner();
    GroupObjectName();
    assert Init.pool + [Group("A", cs, size, "A_group")] == [Group("A", cs, size, "A_group")];
    assert Init.names + ["A"] == ["A"] && Init.surfaces + [0] == [0] && Init.found + cs == cs;
  }

  lemma StaleFirstOwner()
    ensures OwnAll(map[], ["Face1", "Face2"], 0) == map["Face1" := 0, "Face2" := 0]
  {
    var cs: seq<string> := ["Face1", "Face2"];
    assert cs[1..] == ["Face2"] && cs[1..][1..] == [];
    assert OwnAll(map[], cs, 0) == OwnAll(map["Face1" := 0], ["Face2"], 0);
    assert OwnAll(map["Face1" := 0], ["Face2"], 0) == OwnAll(map["Face1" := 0, "Face2" := 0], [], 0);
  }

  /** "A_B" on Face3: a fresh entity. */
  lemma StaleSecond(size: Option<real>)
    ensures ApplyEntity(StaleAfterA(size), "A_B", size, ["Face3"], false) == Ok(StaleAfterAB(size))
  {
    var st := StaleAfterA(size);
    var cs: seq<string> := ["Face3"];
    assert "A_B" !in st.names;
    FreshEntity(st, "A_B", size, cs, false);
    assert cs[1..] == [];
    assert OwnAll(st.owner, cs, 1) == OwnAll(st.owner["Face3" := 1], [], 1);
    assert "A_B" + "_group" == "A_B_group";
    StaleSecondParts(size);
  }

  lemma StaleSecondParts(size: Option<real>)
    ensures var st := StaleAfterA(size);
            var c := StaleAfterAB(size);
            && st.owner["Face3" := 1] == c.owner
            && st.pool + [Group("A_B", ["Face3"], size, "A_B_group")] == c.pool
            && st.names + ["A_B"] == c.names && st.surfaces + [1] == c.surfaces && st.found + ["Face3"] == c.found
  {
  }

  /** "B" on Face1: Face1 leaves "A", which keeps Face2, for the listed group "A_B"; its owner stays "A". */
  lemma StaleThird(size: Option<real>)
    ensures ApplyEntity(StaleAfterAB(size), "B", size, ["Face1"], false) == Ok(StaleAfterB(size))
  {
    var st := StaleAfterAB(size);
    assert IndexOf(st.names, "B") == None;
    StaleThirdMerge(size);
  }

  lemma StaleThirdMerge(size: Option<real>)
    ensures var st := StaleAfterAB(size);
            MergeBoundaries(st.(found := st.found + ["Face1"]), "B", size, ["Face1"], None) == Ok(Merge(StaleAfterB(size), None, []))
  {
    var st := StaleAfterAB(size);
    var m0 := Merge(st.(found := st.found + ["Face1"]), None, []);
    var m := Merge(StaleAfterB(size), None, []);
    assert Without(["Face1", "Face2"], "Face1") == ["Face2"];
    StaleThirdSplit(size);
    assert MergeStep(m0, "B", size, "Face1") == Ok(m);
    assert ["Face1"][1..] == [];
  }

  /** Face1 leaves "A" for the listed group "A_B"; the ownership map is left as it was. */
  lemma StaleThirdSplit(size: Option<real>)
    ensures var st := StaleAfterAB(size);
            Split(Merge(st.(found := st.found + ["Face1"]), None, []), "B", size, "Face1") == Merge(StaleAfterB(size), None, [])
  {
    var st := StaleAfterAB(size);
    var st1 := st.(found := st.found + ["Face1"]);
    assert Without(["Face1", "Face2"], "Face1") == ["Face2"];
    assert MergedName("A", "B") == "A_B";
    assert IndexOf(st1.names, "A_B") == Some(1);
    var pool1 := st1.pool[0 := st1.pool[0].(refs := ["Face2"])];
    assert pool1[0] == Group("A", ["Face2"], size, "A_group") && pool1[1].refs + ["Face1"] == ["Face3", "Face1"];
    assert pool1[1 := pool1[1].(refs := pool1[1].refs + ["Face1"])] == StaleAfterB(size).pool;
    assert st1.found == StaleAfterB(size).found;
  }

  /** "C" on Face1: the stale owner "A" still holds Face2, so Face1 is split off again, into a new group "A_C". */
  lemma StaleFourth(size: Option<real>)
    ensures ApplyEntity(StaleAfterB(size), "C", size, ["Face1"], false) == Ok(StaleAfterC(size))
  {
    var st := StaleAfterB(size);
    assert IndexOf(st.names, "C") == None;
    StaleFourthMerge(size);
  }

  lemma StaleFourthMerge(size: Option<real>)
    ensures var st := StaleAfterB(size);
            MergeBoundaries(st.(found := st.found + ["Face1"]), "C", size, ["Face1"], None) == Ok(Merge(StaleAfterC(size), None, []))
  {
    var st := StaleAfterB(size);
    var m0 := Merge(st.(found := st.found + ["Face1"]), None, []);
    var m := Merge(StaleAfterC(size), None, []);
    assert Without(["Face2"], "Face1") == ["Face2"];
    StaleFourthSplit(size);
    assert MergeStep(m0, "C", size, "Face1") == Ok(m);
    assert ["Face1"][1..] == [];
  }

  /** Face1, still mapped to "A", leaves it for a new group "A_C". */
  lemma StaleFourthSplit(size: Option<real>)
    ensures var st := StaleAfterB(size);
            Split(Merge(st.(found := st.found + ["Face1"]), None, []), "C", size, "Face1") == Merge(StaleAfterC(size), None, [])
  {
    var st := StaleAfterB(size);
    var st1 := st.(found := st.found + ["Face1"]);
    assert Without(["Face2"], "Face1") == ["Face2"];
    assert MergedName("A", "C") == "A_C";
    assert IndexOf(st1.names, "A_C") == None;
    assert NewGroup("A_C", size).(refs := ["Face1"]) == Group("A_C", ["Face1"], size, "A_C_group");
    var pool1 := st1.pool[0 := st1.pool[0].(refs := ["Face2"])];
    assert pool1 == st1.pool;
    StaleFourthParts(size);
  }

  lemma StaleFourthParts(size: Option<real>)
    ensures var st := StaleAfterB(size);
            var c := StaleAfterC(size);
            && st.pool + [Group("A_C", ["Face1"], size, "A_C_group")] == c.pool
            && st.names + ["A_C"] == c.names && st.surfaces + [2] == c.surfaces
            && st.owner["Face1" := 2] == c.owner && st.found + ["Face1"] == c.found
  {
  }

  /** The ownership map with every face of cs mapped to h. */
  function OwnAll(owner: map<string, nat>, cs: seq<string>, h: nat): (r: map<string, nat>)
    decreases |cs|
    ensures forall c :: c in r <==> c in owner || c in cs
    ensures forall c :: c in r ==> r[c] == if c in cs then h else owner[c]
  {
    if cs == [] then owner else OwnAll(owner[cs[0] := h], cs[1..], h)
  }

  /** Faces without owners are all taken by the given group, in order. */
  lemma {:induction false} TakeAllUnowned(m: Merge, entity: string, meshSize: Option<real>, cs: seq<string>)
    requires MergeInv(m) && m.surface.Some? && Distinct(cs)
    requires forall c :: c in cs ==> c !in m.st.owner
    decreases |cs|
    ensures MergeAll(m, entity, meshSize, cs) ==
            Ok(Merge(m.st.(owner := OwnAll(m.st.owner, cs, m.surface.value)), m.surface, m.filtered + cs))
  {
    var h := m.surface.value;
    if cs == [] {
      assert m.st.(owner := OwnAll(m.st.owner, cs, h)) == m.st;
      assert m.filtered + cs == m.filtered;
    } else {
      DistinctTail(cs);
      var m1 := TakeUnowned(m, entity, meshSize, cs[0]);
      assert MergeStep(m, entity, meshSize, cs[0]) == Ok(m1);
      assert m1 == Merge(m.st.(owner := m.st.owner[cs[0] := h]), m.surface, m.filtered + [cs[0]]);
      TakeAllUnowned(m1, entity, meshSize, cs[1..]);
      assert OwnAll(m1.st.owner, cs[1..], h) == OwnAll(m.st.owner, cs, h);
      ConcatCons(m.filtered, cs[0], cs[1..]);
      assert [cs[0]] + cs[1..] == cs;
    }
  }

  /** merge_boundaries without a given group, over distinct faces without owners. */
  lemma MergeFresh(st: State, name: string, meshSize: Option<real>, cs: seq<string>)
    requires WellFormed(st) && Distinct(cs) && cs != []
    requires forall c :: c in cs ==> c !in st.owner
    ensures var n := |st.pool|;
            MergeBoundaries(st, name, meshSize, cs, None) ==
              Ok(Merge(st.(pool := st.pool + [NewGroup(name, meshSize)], owner := OwnAll(st.owner, cs, n)), Some(n), cs))
  {
    var n := |st.pool|;
    DistinctTail(cs);
    var m1 := Merge(st.(pool := st.pool + [NewGroup(name, meshSize)], owner := st.owner[cs[0] := n]), Some(n), [cs[0]]);
    assert [] + [cs[0]] == [cs[0]];
    assert MergeStep(Merge(st, None, []), name, meshSize, cs[0]) == Ok(m1);
    TakeAllUnowned(m1, name, meshSize, cs[1..]);
    assert [cs[0]] + cs[1..] == cs;
  }

  /**
   * An entity with a new name whose distinct faces have no owners gets one new group,
   * listed last under its name, holding and owning exactly those faces.
   */
  lemma FreshEntity(st: State, name: string, meshSize: Option<real>, cs: seq<string>, separate: bool)
    requires WellFormed(st) && name !in st.names && Distinct(cs) && cs != []
    requires forall c :: c in cs ==> c !in st.owner
    ensures var n := |st.pool|;
            ApplyEntity(st, name, meshSize, cs, separate) ==
              Ok(State(st.pool + [Group(name, cs, meshSize, name + "_group")], st.names + [name], st.surfaces + [n],
                       OwnAll(st.owner, cs, n), if separate then st.found + cs + cs else st.found + cs))
  {
    var n: nat := |st.pool|;
    var st1 := if separate then st.(found := st.found + cs + cs) else st.(found := st.found + cs);
    MergeFresh(st1, name, meshSize, cs);
    var g := NewGroup(name, meshSize);
    var mst := st1.(pool := st1.pool + [g], owner := OwnAll(st1.owner, cs, n));
    assert IndexOf(st.names, name) == None;
    var st2 := SetRefs(mst, n, cs);
    assert st2.pool == (st.pool + [g])[n := g.(refs := cs)];
    assert g.(refs := cs) == Group(name, cs, meshSize, name + "_group");
    assert st2.pool == st.pool + [Group(name, cs, meshSize, name + "_group")];
    var st3 := st2.(surfaces := st2.surfaces + [n], names := st2.names + [name]);
    assert ApplyNewName(st, name, meshSize, cs, separate) == Ok(st3);
  }

  /** The names of resolved entities. */
  function ItemNames(items: seq<(string, Option<real>, seq<string>)>): (r: seq<string>)
    ensures |r| == |items|
  {
    if items == [] then [] else [items[0].0] + ItemNames(items[1..])
  }

  /** One fresh group per resolved entity: its name, its faces, its mesh size. */
  function ItemGroups(items: seq<(string, Option<real>, seq<string>)>): (r: seq<Group>)
    ensures |r| == |items|
  {
    if items == [] then [] else [Group(items[0].0, items[0].2, items[0].1, items[0].0 + "_group")] + ItemGroups(items[1..])
  }

  lemma {:induction false} ItemGroupsAt(items: seq<(string, Option<real>, seq<string>)>, j: nat)
    requires j < |items|
    ensures ItemGroups(items)[j] == Group(items[j].0, items[j].2, items[j].1, items[j].0 + "_group")
  {
    if j > 0 {
      ItemGroupsAt(items[1..], j - 1);
    }
  }

  /**
   * Entities with distinct new names whose resolved faces are distinct, non-empty, without
   * owners and pairwise disjoint.
   */
  predicate FreshItems(st: State, items: seq<(string, Option<real>, seq<string>)>)
  {
    && (forall i :: 0 <= i < |items| ==>
          && Distinct(items[i].2) && items[i].2 != [] && items[i].0 !in st.names
          && forall c :: c in items[i].2 ==> c !in st.owner)
    && (forall i, j :: 0 <= i < j < |items| ==>
          items[i].0 != items[j].0 && forall c :: c in items[i].2 ==> c !in items[j].2)
  }

  lemma FreshItemsTail(st: State, st1: State, items: seq<(string, Option<real>, seq<string>)>)
    requires FreshItems(st, items) && items != []
    requires st1.names == st.names + [items[0].0]
    requires forall c :: c in st1.owner <==> c in st.owner || c in items[0].2
    ensures FreshItems(st1, items[1..])
  {
    var rest := items[1..];
    forall i | 0 <= i < |rest|
      ensures rest[i].0 !in st1.names && forall c :: c in rest[i].2 ==> c !in st1.owner
    {
      assert rest[i] == items[i + 1];
    }
    forall i, j | 0 <= i < j < |rest|
      ensures rest[i].0 != rest[j].0 && forall c :: c in rest[i].2 ==> c !in rest[j].2
    {
      assert rest[i] == items[i + 1] && rest[j] == items[j + 1];
    }
  }

  lemma SurfacesAppend(st: State, st1: State, g: Group)
    requires WellFormed(st) && WellFormed(st1)
    requires st1.pool == st.pool + [g] && st1.surfaces == st.surfaces + [|st.pool|]
    ensures Surfaces(st1) == Surfaces(st) + [g]
  {
  }

  /** The first of fresh entities, applied. */
  lemma FreshStep(st: State, items: seq<(string, Option<real>, seq<string>)>, separate: bool) returns (st1: State)
    requires WellFormed(st) && FreshItems(st, items) && items != []
    ensures WellFormed(st1) && FreshItems(st1, items[1..])
    ensures ApplyAll(st, items, separate) == ApplyAll(st1, items[1..], separate)
    ensures st1.names == st.names + [items[0].0]
    ensures Surfaces(st1) == Surfaces(st) + [Group(items[0].0, items[0].2, items[0].1, items[0].0 + "_group")]
  {
    var name, size, cs := items[0].0, items[0].1, items[0].2;
    FreshEntity(st, name, size, cs, separate);
    var n := |st.pool|;
    var g := Group(name, cs, size, name + "_group");
    st1 := State(st.pool + [g], st.names + [name], st.surfaces + [n],
                 OwnAll(st.owner, cs, n), if separate then st.found + cs + cs else st.found + cs);
    FreshItemsTail(st, st1, items);
    SurfacesAppend(st, st1, g);
    ApplyAllCons(st, items, separate, st1);
  }

  lemma {:induction false} ApplyAllFresh(st: State, items: seq<(string, Option<real>, seq<string>)>, separate: bool)
    requires WellFormed(st) && FreshItems(st, items)
    decreases |items|
    ensures var r := ApplyAll(st, items, separate);
            r.Ok? && r.value.names == st.names + ItemNames(items) && Surfaces(r.value) == Surfaces(st) + ItemGroups(items)
  {
    if items == [] {
      assert st.names + ItemNames(items) == st.names;
      assert Surfaces(st) + ItemGroups(items) == Surfaces(st);
    } else {
      var st1 := FreshStep(st, items, separate);
      ApplyAllFresh(st1, items[1..], separate);
      var g := Group(items[0].0, items[0].2, items[0].1, items[0].0 + "_group");
      var r1 := ApplyAll(st1, items[1..], separate);
      assert r1.Ok? && Surfaces(r1.value) == (Surfaces(st) + [g]) + ItemGroups(items[1..]);
      assert r1.value.names == (st.names + [items[0].0]) + ItemNames(items[1..]);
      ConcatCons(Surfaces(st), g, ItemGroups(items[1..]));
      ConcatCons(st.names, items[0].0, ItemNames(items[1..]));
    }
  }

  lemma ConcatCons<T>(a: seq<T>, x: T, b: seq<T>)
    ensures (a + [x]) + b == a + ([x] + b)
  {
  }

  lemma ApplyAllCons(st: State, items: seq<(string, Option<real>, seq<string>)>, separate: bool, st1: State)
    requires WellFormed(st) && items != []
    requires ApplyEntity(st, items[0].0, items[0].1, items[0].2, separate) == Ok(st1)
    ensures WellFormed(st1) && ApplyAll(st, items, separate) == ApplyAll(st1, items[1..], separate)
  {
  }

  /**
   * Resolved entities with distinct names and pairwise disjoint faces: every entity gets
   * its own group, labelled with its name and holding exactly its faces, so that each
   * compound face lies in exactly one group (no rename and no split happens).
   */
  lemma DisjointEntitiesPartition(items: seq<(string, Option<real>, seq<string>)>, separate: bool)
    requires FreshItems(Init, items)
    ensures var r := ApplyAll(Init, items, separate);
            && r.Ok? && r.value.names == ItemNames(items) && Surfaces(r.value) == ItemGroups(items)
            && forall i, c :: 0 <= i < |items| && c in items[i].2 ==>
                 forall j :: 0 <= j < |items| ==> (c in Surfaces(r.value)[j].refs <==> j == i)
  {
    ApplyAllFresh(Init, items, separate);
    assert Surfaces(Init) == [] && Init.names == [];
    var r := ApplyAll(Init, items, separate);
    assert Surfaces(r.value) == ItemGroups(items);
    forall i, c, j | 0 <= i < |items| && c in items[i].2 && 0 <= j < |items|
      ensures c in Surfaces(r.value)[j].refs <==> j == i
    {
      ItemGroupsAt(items, j);
      if j < i {
        assert c !in items[j].2;
      } else if i < j {
        assert c !in items[j].2;
      }
    }
  }
}
