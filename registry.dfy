/**
 * The entity registry: entities (the dicts {'name', 'geometric object', 'mesh size'}),
 * the lists that hold them, the mesh-size lookup of add_entity_in_list, and picking faces
 * of a geometric object by Python list index.
 */
module Registry {
  import opened Wrappers

  /** An entity: the dict {'name', 'geometric object', 'mesh size'} of an entity list. */
  datatype Entity<G> = Entity(name: string, geom: G, meshSize: Option<real>)

  /** The mesh_sizes dict: entity names, and the key 'mesh size', to mesh sizes (None allowed). */
  type MeshSizes = map<string, Option<real>>

  /** The key of the fallback mesh size in mesh_sizes. */
  const MeshSizeKey: string := "mesh size"

  /**
   * The mesh size add_entity_in_list gives an entity: its own entry in mesh_sizes, else the
   * 'mesh size' entry, else None; None also when no mesh_sizes is given.
   */
  function MeshSizeOf(name: string, meshSizes: Option<MeshSizes>): (r: Option<real>)
    ensures r.Some? ==> meshSizes.Some? && (name in meshSizes.value || MeshSizeKey in meshSizes.value)
    ensures meshSizes.Some? && name in meshSizes.value ==> r == meshSizes.value[name]
  {
    match meshSizes
    case None => None
    case Some(m) =>
      if name in m then m[name]
      else if MeshSizeKey in m then m[MeshSizeKey]
      else None
  }

  /** The lookup rule, case by case: the entity's own entry wins over the fallback, which wins over None. */
  lemma MeshSizeOfRule(name: string, meshSizes: Option<MeshSizes>)
    ensures meshSizes.None? ==> MeshSizeOf(name, meshSizes) == None
    ensures meshSizes.Some? && name in meshSizes.value ==> MeshSizeOf(name, meshSizes) == meshSizes.value[name]
    ensures meshSizes.Some? && name !in meshSizes.value && MeshSizeKey in meshSizes.value ==>
              MeshSizeOf(name, meshSizes) == meshSizes.value[MeshSizeKey]
    ensures meshSizes.Some? && name !in meshSizes.value && MeshSizeKey !in meshSizes.value ==>
              MeshSizeOf(name, meshSizes) == None
  {
  }

  /** A mesh_sizes dict holding only the 'mesh size' key gives every name that size. */
  lemma MeshSizeOfFallbackOnly(name: string, size: Option<real>)
    ensures MeshSizeOf(name, Some(map[MeshSizeKey := size])) == size
  {
  }

  /** The entity add_entity_in_list appends. */
  function EntityOf<G>(name: string, geom: G, meshSizes: Option<MeshSizes>): (e: Entity<G>)
    ensures e.name == name && e.geom == geom
    ensures e.meshSize.Some? ==> meshSizes.Some?
  {
    Entity(name, geom, MeshSizeOf(name, meshSizes))
  }

  /** An entity list that callers extend in place. */
  class EntityList<G> {
    var items: seq<Entity<G>>

    constructor ()
      ensures items == []
    {
      items := [];
    }

    /** add_entity_in_list: exactly one entity is appended, with the looked-up mesh size. */
    method Add(name: string, geom: G, meshSizes: Option<MeshSizes>)
      modifies this
      ensures items == old(items) + [EntityOf(name, geom, meshSizes)]
    {
      items := items + [EntityOf(name, geom, meshSizes)];
    }

    /**
     * add_geom_obj_list_in_entitylist: one entity per geometric object, in order, all with
     * the same name; the entities already in the list stay as they were.
     */
    method AddGeomObjects(name: string, geoms: seq<G>, meshSizes: Option<MeshSizes>)
      modifies this
      ensures |items| == |old(items)| + |geoms| && items[..|old(items)|] == old(items)
      ensures forall j :: 0 <= j < |geoms| ==> items[|old(items)| + j] == EntityOf(name, geoms[j], meshSizes)
    {
      var i := 0;
      while i < |geoms|
        invariant i <= |geoms|
        invariant |items| == |old(items)| + i && items[..|old(items)|] == old(items)
        invariant forall j :: 0 <= j < i ==> items[|old(items)| + j] == EntityOf(name, geoms[j], meshSizes)
      {
        Add(name, geoms[i], meshSizes);
        i := i + 1;
      }
    }
  }

  /** get_entitylist_faces: the geometric objects of the entities, in order. */
  method GetEntitylistFaces<G>(entities: seq<Entity<G>>) returns (faces: seq<G>)
    ensures |faces| == |entities|
    ensures forall j :: 0 <= j < |entities| ==> faces[j] == entities[j].geom
  {
    faces := [];
    var i := 0;
    while i < |entities|
      invariant i <= |entities| && |faces| == i
      invariant forall j :: 0 <= j < i ==> faces[j] == entities[j].geom
    {
      faces := faces + [entities[i].geom];
      i := i + 1;
    }
  }

  /**
   * Python's list[i] on a list of length n: the position it reads, counting from the end
   * for a negative i, or None where the source raises IndexError.
   */
  function PyIndex(n: nat, i: int): (r: Option<nat>)
    ensures r.Some? <==> -(n as int) <= i < n
    ensures r.Some? ==> r.value < n && (r.value == i || r.value == i + n)
  {
    if 0 <= i < n then Some(i)
    else if -(n as int) <= i < 0 then Some(i + n)
    else None
  }

  /** A negative index reads the same element as the index n positions further on. */
  lemma PyIndexWraps(n: nat, k: int)
    requires 0 <= k < n
    ensures PyIndex(n, k - n) == PyIndex(n, k) == Some(k)
  {
  }

  /**
   * pick_faces_from_geometry: one entity per (name, face number) pick, in order, on the
   * face the index selects; IndexError at the first pick whose number is out of range.
   */
  method PickFacesFromGeometry<F>(faceObjects: seq<F>, picks: seq<(string, int)>, meshSizes: Option<MeshSizes>)
    returns (r: Result<seq<Entity<F>>>)
    ensures r.Ok? <==> forall j :: 0 <= j < |picks| ==> PyIndex(|faceObjects|, picks[j].1).Some?
    ensures r.Ok? ==> |r.value| == |picks|
    ensures r.Ok? ==> forall j :: 0 <= j < |picks| ==>
              r.value[j] == EntityOf(picks[j].0, faceObjects[PyIndex(|faceObjects|, picks[j].1).value], meshSizes)
    ensures r.Err? ==> exists j ::
              && 0 <= j < |picks| && PyIndex(|faceObjects|, picks[j].1).None?
              && (forall l :: 0 <= l < j ==> PyIndex(|faceObjects|, picks[l].1).Some?)
              && r.error == FaceIndexOutOfRange(picks[j].1)
  {
    var faces: seq<Entity<F>> := [];
    var i := 0;
    while i < |picks|
      invariant i <= |picks| && |faces| == i
      invariant forall j :: 0 <= j < i ==> PyIndex(|faceObjects|, picks[j].1).Some?
      invariant forall j :: 0 <= j < i ==>
                  faces[j] == EntityOf(picks[j].0, faceObjects[PyIndex(|faceObjects|, picks[j].1).value], meshSizes)
    {
      var at := PyIndex(|faceObjects|, picks[i].1);
      if at.None? {
        return Err(FaceIndexOutOfRange(picks[i].1));
      }
      faces := faces + [EntityOf(picks[i].0, faceObjects[at.value], meshSizes)];
      i := i + 1;
    }
    r := Ok(faces);
  }
}
