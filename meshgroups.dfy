/**
 * The mesh group objects of the boundary reconciler, and how they mirror its value model:
 * MeshGroup objects whose Label and References change in place; the list and dictionary
 * that hold them (Lists); and the numbering (Numbering) that maps each object to its
 * handle in module Reconciler, with the abstraction Abs.
 */
module MeshGroups {
  import opened Wrappers
  import opened Reconciler

  /**
   * A MeshGroup made by create_mesh_group_and_set_mesh_size: its Label and References
   * change, its mesh_size and object Name are set when it is made.
   */
  class MeshGroup {
    var groupLabel: string
    var refs: seq<string>
    const meshSize: Option<real>
    const objName: string

    constructor (name: string, size: Option<real>)
      ensures Value() == NewGroup(name, size)
    {
      groupLabel := name;
      refs := [];
      meshSize := size;
      objName := name + "_group";
    }

    /** The group as a value. */
    function Value(): Group
      reads this
    {
      Group(groupLabel, refs, meshSize, objName)
    }
  }

  /** A MeshRegion as a value: object Name, element length and compound names of its References. */
  datatype Region = Region(objName: string, elementLength: Option<real>, refs: seq<string>)

  /** A MeshRegion made by makeMeshRegion: its References change, its Name and element length do not. */
  class MeshRegion {
    var refs: seq<string>
    const elementLength: Option<real>
    const objName: string

    constructor (name: string, size: Option<real>)
      ensures Value() == Region(name, size, [])
    {
      refs := [];
      elementLength := size;
      objName := name;
    }

    /** The region as a value. */
    function Value(): Region
      reads this
    {
      Region(objName, elementLength, refs)
    }
  }

  /** face_name_list, surface_objs, surface_objs_by_cface_names and all_found_cface_names. */
  datatype Lists = Lists(faceNames: seq<string>, surfaceObjs: seq<MeshGroup>,
                         ownerByCface: map<string, MeshGroup>, allFound: seq<string>)

  /**
   * Every group made so far, in creation order (objs), their values (pool), the numbers of
   * the groups the list and the dictionary hold, the number of each group (numberOf) and
   * the set of the groups (repr, what the methods may change).
   */
  datatype Numbering = Numbering(objs: seq<MeshGroup>, pool: seq<Group>, surfaceIdx: seq<nat>, ownerIdx: map<string, nat>,
                                 numberOf: map<MeshGroup, nat>, repr: set<MeshGroup>)

  /** The list and the dictionary hold numbered groups, and the numbering is one to one. */
  ghost predicate Indexed(ls: Lists, nb: Numbering)
  {
    && (forall j :: 0 <= j < |nb.objs| ==> nb.objs[j] in nb.numberOf && nb.numberOf[nb.objs[j]] == j && nb.objs[j] in nb.repr)
    && |nb.pool| == |nb.objs|
    && |nb.surfaceIdx| == |ls.surfaceObjs| == |ls.faceNames|
    && (forall i :: 0 <= i < |nb.surfaceIdx| ==> nb.surfaceIdx[i] < |nb.objs| && ls.surfaceObjs[i] == nb.objs[nb.surfaceIdx[i]])
    && nb.ownerIdx.Keys == ls.ownerByCface.Keys
    && (forall c :: c in nb.ownerIdx ==> nb.ownerIdx[c] < |nb.objs| && ls.ownerByCface[c] == nb.objs[nb.ownerIdx[c]])
  }

  /** The pool holds the values of the groups. */
  ghost predicate Synced(objs: seq<MeshGroup>, pool: seq<Group>)
    reads objs
  {
    |pool| == |objs| && forall j :: 0 <= j < |objs| ==> objs[j].Value() == pool[j]
  }

  ghost predicate Valid(ls: Lists, nb: Numbering)
    reads nb.objs
  {
    Indexed(ls, nb) && Synced(nb.objs, nb.pool)
  }

  /** The state as a value of the reconciler model. */
  ghost function Abs(ls: Lists, nb: Numbering): (st: State)
    requires Indexed(ls, nb)
    ensures WellFormed(st)
  {
    State(nb.pool, ls.faceNames, nb.surfaceIdx, nb.ownerIdx, ls.allFound)
  }

  /** A group object given as surface_object, and its number. */
  ghost predicate SurfaceAt(nb: Numbering, surface: MeshGroup?, h: Option<nat>)
  {
    (surface == null <==> h.None?) && (h.Some? ==> h.value < |nb.objs| && surface == nb.objs[h.value])
  }

  /** The objects mirror the reconciler state m, and surface is the group m.surface names. */
  ghost predicate Mirrors(ls: Lists, nb: Numbering, surface: MeshGroup?, m: Merge)
    reads nb.objs
  {
    Valid(ls, nb) && m.st == Abs(ls, nb) && SurfaceAt(nb, surface, m.surface) && MergeInv(m)
  }

  /** The groups made so far start with base. */
  ghost predicate Extends(base: seq<MeshGroup>, objs: seq<MeshGroup>)
  {
    |base| <= |objs| && objs[..|base|] == base
  }

  /** A group appended to the numbering keeps the pool in step with the groups. */
  lemma SyncedAppend(objs: seq<MeshGroup>, pool: seq<Group>, o: MeshGroup)
    requires Synced(objs, pool)
    ensures Synced(objs + [o], pool + [o.Value()])
  {
  }

  /** A new group, listed under name and owning cface. */
  lemma IndexedListed(ls: Lists, nb: Numbering, name: string, o: MeshGroup, cface: string, pool: seq<Group>)
    requires Indexed(ls, nb) && o !in nb.objs && |pool| == |nb.objs| + 1
    ensures var n := |nb.objs|;
            Indexed(ls.(faceNames := ls.faceNames + [name], surfaceObjs := ls.surfaceObjs + [o],
                        ownerByCface := ls.ownerByCface[cface := o]),
                    Numbering(nb.objs + [o], pool, nb.surfaceIdx + [n], nb.ownerIdx[cface := n], nb.numberOf[o := n], nb.repr + {o}))
  {
  }

  /** A new group, not listed, owning cface. */
  lemma IndexedUnlisted(ls: Lists, nb: Numbering, o: MeshGroup, cface: string, pool: seq<Group>)
    requires Indexed(ls, nb) && o !in nb.objs && |pool| == |nb.objs| + 1
    ensures var n := |nb.objs|;
            Indexed(ls.(ownerByCface := ls.ownerByCface[cface := o]),
                    Numbering(nb.objs + [o], pool, nb.surfaceIdx, nb.ownerIdx[cface := n], nb.numberOf[o := n], nb.repr + {o}))
  {
  }
}
