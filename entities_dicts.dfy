/**
 * Entities dictionaries: create_entities_dict, and merge_entities_dicts, which concatenates
 * the face and solid entities of several dictionaries, prefixes their names, fills in the
 * default mesh size (writing it back into the input entities) and collects the transfinite
 * mesh parameters.
 */
module EntitiesDicts {
  import opened Wrappers
  import opened Registry
  import opened Transfinite

  /**
   * An entities dictionary {'name', 'faces', 'solids', 'main object', 'transfinite_mesh_params'}.
   * merge_entities_dicts rewrites the mesh sizes of its face and solid entities.
   */
  class EntitiesDict<F, S> {
    const name: string
    var faces: seq<Entity<F>>
    var solids: seq<Entity<S>>
    const mainObject: Option<S>
    const transfinite: Option<MeshParams>

    /**
     * create_entities_dict: the given name, lists and main object; the transfinite mesh
     * parameters of params when params is given.
     */
    constructor (dictName: string, faceEntities: seq<Entity<F>>, solidEntities: seq<Entity<S>>, main: Option<S>,
                 params: Option<MeshParams>)
      ensures name == dictName && faces == faceEntities && solids == solidEntities
      ensures mainObject == main && transfinite == params
    {
      name := dictName;
      faces := faceEntities;
      solids := solidEntities;
      mainObject := main;
      transfinite := params;
    }
  }

  /** add_prefixes: whether solid names and face names get the dictionary's name in front. */
  datatype Prefixes = Prefixes(solids: bool, faces: bool)

  /** The prefixes used when add_prefixes is None: faces are prefixed, solids are not. */
  const DefaultPrefixes: Prefixes := Prefixes(false, true)

  /** The dictionary merge_entities_dicts returns. */
  datatype Merged<F, S> = Merged(name: string, faces: seq<Entity<F>>, solids: seq<Entity<S>>,
                                 transfinite: seq<MeshParams>)

  /** An entity after the default is filled in: a None mesh size becomes the default. */
  function Filled<G>(e: Entity<G>, default: Option<real>): (r: Entity<G>)
  {
    if e.meshSize.None? then e.(meshSize := default) else e
  }

  /** The name an entity gets in the merged dictionary. */
  function MergedName(prefix: bool, dictName: string, entityName: string): string
  {
    if prefix then dictName + "_" + entityName else entityName
  }

  /**
   * The entity that stands for e of the dictionary named dictName in the merged dictionary:
   * its name prefixed with the dictionary name and '_' exactly when asked, the same
   * geometric object, and its own mesh size, or the default when it had none.
   */
  function MergedEntity<G>(dictName: string, e: Entity<G>, default: Option<real>, prefix: bool): (r: Entity<G>)
    ensures prefix ==> r.name == dictName + "_" + e.name
    ensures !prefix ==> r.name == e.name
    ensures r.geom == e.geom
    ensures e.meshSize.Some? ==> r.meshSize == e.meshSize
    ensures e.meshSize.None? ==> r.meshSize == default
  {
    Entity(MergedName(prefix, dictName, e.name), e.geom, Filled(e, default).meshSize)
  }

  /** The entities of one dictionary, in order, as they appear in the merged dictionary. */
  function MergedPart<G>(dictName: string, es: seq<Entity<G>>, default: Option<real>, prefix: bool): (r: seq<Entity<G>>)
    ensures |r| == |es|
    ensures forall j :: 0 <= j < |es| ==> r[j] == MergedEntity(dictName, es[j], default, prefix)
  {
    if es == [] then []
    else
      var init := es[..|es| - 1];
      var rest := MergedPart(dictName, init, default, prefix);
      var r := rest + [MergedEntity(dictName, es[|es| - 1], default, prefix)];
      assert forall j :: 0 <= j < |init| ==> r[j] == rest[j] && init[j] == es[j];
      r
  }

  /** The number of entities over all (name, entities) parts. */
  function EntityCount<G>(parts: seq<(string, seq<Entity<G>>)>): nat
  {
    if parts == [] then 0 else EntityCount(parts[..|parts| - 1]) + |parts[|parts| - 1].1|
  }

  /** The entities of all dictionaries, (name, entities) per dictionary, in order. */
  function MergedList<G>(parts: seq<(string, seq<Entity<G>>)>, default: Option<real>, prefix: bool): (r: seq<Entity<G>>)
    ensures |r| == EntityCount(parts)
  {
    if parts == [] then []
    else
      var last := parts[|parts| - 1];
      MergedList(parts[..|parts| - 1], default, prefix) + MergedPart(last.0, last.1, default, prefix)
  }

  /** Every merged entity stands for some entity of some dictionary. */
  lemma {:induction false} MergedListFrom<G>(parts: seq<(string, seq<Entity<G>>)>, default: Option<real>, prefix: bool,
                                             x: Entity<G>)
    requires x in MergedList(parts, default, prefix)
    decreases |parts|
    ensures exists i, j :: (0 <= i < |parts| && 0 <= j < |parts[i].1| && x == MergedEntity(parts[i].0, parts[i].1[j], default, prefix))
  {
    var init := parts[..|parts| - 1];
    var last := parts[|parts| - 1];
    var b := MergedPart(last.0, last.1, default, prefix);
    if x in MergedList(init, default, prefix) {
      MergedListFrom(init, default, prefix, x);
      var i, j :| 0 <= i < |init| && 0 <= j < |init[i].1| && x == MergedEntity(init[i].0, init[i].1[j], default, prefix);
      assert init[i] == parts[i];
    } else {
      assert x in b;
      var j :| 0 <= j < |b| && b[j] == x;
      assert x == MergedEntity(parts[|parts| - 1].0, parts[|parts| - 1].1[j], default, prefix);
    }
  }

  /** The mesh parameter dicts that are present and non-empty, in order. */
  function TransfiniteOf(ts: seq<Option<MeshParams>>): (r: seq<MeshParams>)
    ensures |r| <= |ts|
    ensures forall p :: p in r ==> |p| > 0 && Some(p) in ts
  {
    if ts == [] then []
    else
      var last := ts[|ts| - 1];
      TransfiniteOf(ts[..|ts| - 1]) + (if last.Some? && |last.value| > 0 then [last.value] else [])
  }

  /** The entities lists with None mesh sizes filled in, as written back into the input. */
  function FilledAll<G>(es: seq<Entity<G>>, default: Option<real>): (r: seq<Entity<G>>)
    ensures |r| == |es|
    ensures forall j :: 0 <= j < |es| ==> r[j] == Filled(es[j], default)
  {
    seq(|es|, j requires 0 <= j < |es| => Filled(es[j], default))
  }

  /** (name, faces) of each dictionary. */
  ghost function FaceParts<F, S>(dicts: seq<EntitiesDict<F, S>>): (r: seq<(string, seq<Entity<F>>)>)
    reads dicts
    ensures |r| == |dicts| && forall i :: 0 <= i < |dicts| ==> r[i] == (dicts[i].name, dicts[i].faces)
  {
    seq(|dicts|, i reads dicts requires 0 <= i < |dicts| => (dicts[i].name, dicts[i].faces))
  }

  /** (name, solids) of each dictionary. */
  ghost function SolidParts<F, S>(dicts: seq<EntitiesDict<F, S>>): (r: seq<(string, seq<Entity<S>>)>)
    reads dicts
    ensures |r| == |dicts| && forall i :: 0 <= i < |dicts| ==> r[i] == (dicts[i].name, dicts[i].solids)
  {
    seq(|dicts|, i reads dicts requires 0 <= i < |dicts| => (dicts[i].name, dicts[i].solids))
  }

  /** The transfinite mesh parameters of each dictionary. */
  function TransfiniteParts<F, S>(dicts: seq<EntitiesDict<F, S>>): (r: seq<Option<MeshParams>>)
    ensures |r| == |dicts| && forall i :: 0 <= i < |dicts| ==> r[i] == dicts[i].transfinite
  {
    seq(|dicts|, i requires 0 <= i < |dicts| => dicts[i].transfinite)
  }

  /** add_prefixes, with None read as DefaultPrefixes. */
  function ChosenPrefixes(addPrefixes: Option<Prefixes>): Prefixes
  {
    if addPrefixes.None? then DefaultPrefixes else addPrefixes.value
  }

  /** Filling in the default twice is filling it in once. */
  lemma FilledAllIdempotent<G>(es: seq<Entity<G>>, default: Option<real>)
    ensures FilledAll(FilledAll(es, default), default) == FilledAll(es, default)
  {
  }

  /** The merged entities do not depend on whether the default was already written back. */
  lemma MergedPartFilled<G>(dictName: string, es: seq<Entity<G>>, default: Option<real>, prefix: bool)
    ensures MergedPart(dictName, FilledAll(es, default), default, prefix) == MergedPart(dictName, es, default, prefix)
  {
    var a := MergedPart(dictName, FilledAll(es, default), default, prefix);
    var b := MergedPart(dictName, es, default, prefix);
    assert forall j :: 0 <= j < |es| ==> a[j] == b[j];
  }

  /** The merged list of several dictionaries is the merged lists of each, one after the other. */
  lemma {:induction false} MergedListAppend<G>(a: seq<(string, seq<Entity<G>>)>, b: seq<(string, seq<Entity<G>>)>,
                                               default: Option<real>, prefix: bool)
    decreases |b|
    ensures MergedList(a + b, default, prefix) == MergedList(a, default, prefix) + MergedList(b, default, prefix)
  {
    if b == [] {
      assert a + b == a;
    } else {
      var init := b[..|b| - 1];
      assert (a + b)[..|a + b| - 1] == a + init;
      assert (a + b)[|a + b| - 1] == b[|b| - 1];
      MergedListAppend(a, init, default, prefix);
    }
  }

  /** The merged list of one dictionary. */
  lemma MergedListOne<G>(part: (string, seq<Entity<G>>), default: Option<real>, prefix: bool)
    ensures MergedList([part], default, prefix) == MergedPart(part.0, part.1, default, prefix)
  {
    assert [part][..0] == [];
  }

  /**
   * With the default add_prefixes, face names become dictionary name + '_' + entity name
   * and solid names stay as they are.
   */
  lemma DefaultPrefixesRule<F, S>(dictName: string, face: Entity<F>, solid: Entity<S>, default: Option<real>)
    ensures MergedEntity(dictName, face, default, ChosenPrefixes(None).faces).name == dictName + "_" + face.name
    ensures MergedEntity(dictName, solid, default, ChosenPrefixes(None).solids).name == solid.name
  {
  }

  /** The merged list of the first i + 1 dictionaries. */
  lemma MergedListAt<G>(parts: seq<(string, seq<Entity<G>>)>, i: nat, default: Option<real>, prefix: bool)
    requires i < |parts|
    ensures MergedList(parts[..i + 1], default, prefix) ==
              MergedList(parts[..i], default, prefix) + MergedPart(parts[i].0, parts[i].1, default, prefix)
  {
    assert parts[..i + 1][..i] == parts[..i];
  }

  /** The transfinite mesh parameters of the first i + 1 dictionaries. */
  lemma TransfiniteOfAt(ts: seq<Option<MeshParams>>, i: nat)
    requires i < |ts|
    ensures TransfiniteOf(ts[..i + 1]) ==
              TransfiniteOf(ts[..i]) + (if ts[i].Some? && |ts[i].value| > 0 then [ts[i].value] else [])
  {
    assert ts[..i + 1][..i] == ts[..i];
  }

  /** The merged entities of the first i + 1 entities. */
  lemma MergedPartAt<G>(dictName: string, es: seq<Entity<G>>, i: nat, default: Option<real>, prefix: bool)
    requires i < |es|
    ensures MergedPart(dictName, es[..i + 1], default, prefix) ==
              MergedPart(dictName, es[..i], default, prefix) + [MergedEntity(dictName, es[i], default, prefix)]
  {
    assert es[..i + 1][..i] == es[..i];
  }

  /**
   * The inner loop of merge_entities_dicts over one list of entities: the filled-in list to
   * write back, and the entities it adds to the merged list with add_entity_in_list.
   */
  method FillAndList<G>(es: seq<Entity<G>>, dictName: string, default: Option<real>, prefix: bool)
    returns (filled: seq<Entity<G>>, added: seq<Entity<G>>)
    ensures filled == FilledAll(es, default)
    ensures added == MergedPart(dictName, es, default, prefix)
  {
    filled := [];
    var out := new EntityList<G>();
    var i := 0;
    while i < |es|
      invariant i <= |es|
      invariant filled == FilledAll(es[..i], default)
      invariant out.items == MergedPart(dictName, es[..i], default, prefix)
    {
      var e := FillOne(out, es[i], dictName, default, prefix);
      filled := filled + [e];
      MergedPartAt(dictName, es, i, default, prefix);
      FilledAllAt(es, i, default);
      i := i + 1;
    }
    assert es[..i] == es;
    added := out.items;
  }

  /** One entity of the inner loop: its mesh size filled in, and its merged entity added to the list. */
  method FillOne<G>(out: EntityList<G>, e: Entity<G>, dictName: string, default: Option<real>, prefix: bool)
    returns (filled: Entity<G>)
    modifies out
    ensures filled == Filled(e, default)
    ensures out.items == old(out.items) + [MergedEntity(dictName, e, default, prefix)]
  {
    filled := e;
    if filled.meshSize.None? {
      filled := filled.(meshSize := default);
    }
    MeshSizeOfFallbackOnly(MergedName(prefix, dictName, filled.name), filled.meshSize);
    out.Add(MergedName(prefix, dictName, filled.name), filled.geom, Some(map[MeshSizeKey := filled.meshSize]));
  }

  /** The filled-in list of the first i + 1 entities. */
  lemma FilledAllAt<G>(es: seq<Entity<G>>, i: nat, default: Option<real>)
    requires i < |es|
    ensures FilledAll(es[..i + 1], default) == FilledAll(es[..i], default) + [Filled(es[i], default)]
  {
  }

  /**
   * One dictionary of merge_entities_dicts: its faces and solids get the default mesh size
   * written back, and their merged entities are appended. The dictionary may already have
   * been through the merge (it appears twice in the input), in which case nothing changes.
   */
  method MergeDict<F, S>(d: EntitiesDict<F, S>, ghost origFaces: seq<Entity<F>>, ghost origSolids: seq<Entity<S>>,
                         default: Option<real>, prefixes: Prefixes, faces: seq<Entity<F>>, solids: seq<Entity<S>>)
    returns (faces': seq<Entity<F>>, solids': seq<Entity<S>>)
    requires d.faces == origFaces || d.faces == FilledAll(origFaces, default)
    requires d.solids == origSolids || d.solids == FilledAll(origSolids, default)
    modifies d
    ensures d.faces == FilledAll(origFaces, default) && d.solids == FilledAll(origSolids, default)
    ensures faces' == faces + MergedPart(d.name, origFaces, default, prefixes.faces)
    ensures solids' == solids + MergedPart(d.name, origSolids, default, prefixes.solids)
  {
    FilledAllIdempotent(origFaces, default);
    FilledAllIdempotent(origSolids, default);
    MergedPartFilled(d.name, origFaces, default, prefixes.faces);
    MergedPartFilled(d.name, origSolids, default, prefixes.solids);
    var filledFaces, addedFaces := FillAndList(d.faces, d.name, default, prefixes.faces);
    d.faces := filledFaces;
    faces' := faces + addedFaces;
    var filledSolids, addedSolids := FillAndList(d.solids, d.name, default, prefixes.solids);
    d.solids := filledSolids;
    solids' := solids + addedSolids;
  }

  /** Positions holding the same dictionary hold the same (name, entities) part. */
  ghost predicate SameParts<F, S, T>(dicts: seq<EntitiesDict<F, S>>, parts: seq<(string, T)>)
  {
    && |parts| == |dicts|
    && (forall j, k :: 0 <= j < |dicts| && 0 <= k < |dicts| && dicts[j] == dicts[k] ==> parts[j] == parts[k])
  }

  /**
   * Every dictionary holds its original entities or the filled-in ones, and those at
   * positions before i hold the filled-in ones.
   */
  ghost predicate WrittenBack<F, S>(dicts: seq<EntitiesDict<F, S>>, fp: seq<(string, seq<Entity<F>>)>,
                                    sp: seq<(string, seq<Entity<S>>)>, i: nat, default: Option<real>)
    requires |fp| == |sp| == |dicts|
    reads dicts
  {
    && (forall j :: 0 <= j < |dicts| ==>
          && (dicts[j].faces == fp[j].1 || dicts[j].faces == FilledAll(fp[j].1, default))
          && (dicts[j].solids == sp[j].1 || dicts[j].solids == FilledAll(sp[j].1, default)))
    && (forall j :: 0 <= j < i && j < |dicts| ==>
          dicts[j].faces == FilledAll(fp[j].1, default) && dicts[j].solids == FilledAll(sp[j].1, default))
  }

  /** The dictionary at position i goes through the merge; the others, wherever they stand, keep what they hold. */
  method MergeAt<F, S>(dicts: seq<EntitiesDict<F, S>>, ghost fp: seq<(string, seq<Entity<F>>)>,
                       ghost sp: seq<(string, seq<Entity<S>>)>, i: nat, default: Option<real>, prefixes: Prefixes,
                       faces: seq<Entity<F>>, solids: seq<Entity<S>>)
    returns (faces': seq<Entity<F>>, solids': seq<Entity<S>>)
    requires i < |dicts| && SameParts(dicts, fp) && SameParts(dicts, sp)
    requires fp[i].0 == dicts[i].name && sp[i].0 == dicts[i].name
    requires WrittenBack(dicts, fp, sp, i, default)
    modifies dicts[i]
    ensures WrittenBack(dicts, fp, sp, i + 1, default)
    ensures faces' == faces + MergedPart(fp[i].0, fp[i].1, default, prefixes.faces)
    ensures solids' == solids + MergedPart(sp[i].0, sp[i].1, default, prefixes.solids)
  {
    faces', solids' := MergeDict(dicts[i], fp[i].1, sp[i].1, default, prefixes, faces, solids);
  }

  /**
   * merge_entities_dicts: the merged faces and solids are those of all dictionaries, in
   * order, named and sized as MergedEntity says; every input entity ends with the default in
   * place of a None mesh size; the non-empty transfinite mesh parameters are collected in order.
   */
  method MergeEntitiesDicts<F, S>(dicts: seq<EntitiesDict<F, S>>, name: string, default: Option<real>,
                                  addPrefixes: Option<Prefixes>) returns (merged: Merged<F, S>)
    modifies dicts
    ensures merged.name == name
    ensures merged.faces == MergedList(old(FaceParts(dicts)), default, ChosenPrefixes(addPrefixes).faces)
    ensures merged.solids == MergedList(old(SolidParts(dicts)), default, ChosenPrefixes(addPrefixes).solids)
    ensures merged.transfinite == TransfiniteOf(TransfiniteParts(dicts))
    ensures forall d :: d in dicts ==> d.faces == FilledAll(old(d.faces), default) && d.solids == FilledAll(old(d.solids), default)
  {
    ghost var fp := FaceParts(dicts);
    ghost var sp := SolidParts(dicts);
    var faces, solids, ts := MergeLoop(dicts, fp, sp, TransfiniteParts(dicts), default, ChosenPrefixes(addPrefixes));
    merged := Merged(name, faces, solids, ts);
  }

  /** The (name, entities) parts and the transfinite parameters taken from the dictionaries, position by position. */
  ghost predicate PartsOf<F, S>(dicts: seq<EntitiesDict<F, S>>, fp: seq<(string, seq<Entity<F>>)>,
                                sp: seq<(string, seq<Entity<S>>)>, tp: seq<Option<MeshParams>>)
  {
    && SameParts(dicts, fp) && SameParts(dicts, sp) && |tp| == |dicts|
    && forall j :: 0 <= j < |dicts| ==> fp[j].0 == dicts[j].name && sp[j].0 == dicts[j].name && tp[j] == dicts[j].transfinite
  }

  /** What the loop of merge_entities_dicts has collected from the first i dictionaries. */
  ghost predicate Collected<F, S>(fp: seq<(string, seq<Entity<F>>)>, sp: seq<(string, seq<Entity<S>>)>,
                                  tp: seq<Option<MeshParams>>, i: nat, default: Option<real>, prefixes: Prefixes,
                                  faces: seq<Entity<F>>, solids: seq<Entity<S>>, ts: seq<MeshParams>)
  {
    && i <= |fp| && i <= |sp| && i <= |tp|
    && faces == MergedList(fp[..i], default, prefixes.faces)
    && solids == MergedList(sp[..i], default, prefixes.solids)
    && ts == TransfiniteOf(tp[..i])
  }

  /** The state of the loop of merge_entities_dicts before the dictionary at position i. */
  ghost predicate LoopInv<F, S>(dicts: seq<EntitiesDict<F, S>>, fp: seq<(string, seq<Entity<F>>)>,
                                sp: seq<(string, seq<Entity<S>>)>, tp: seq<Option<MeshParams>>, i: nat,
                                default: Option<real>, prefixes: Prefixes,
                                faces: seq<Entity<F>>, solids: seq<Entity<S>>, ts: seq<MeshParams>)
    reads dicts
  {
    && i <= |dicts| && PartsOf(dicts, fp, sp, tp) && WrittenBack(dicts, fp, sp, i, default)
    && Collected(fp, sp, tp, i, default, prefixes, faces, solids, ts)
  }

  /** The loop of merge_entities_dicts over the dictionaries, on their parts taken before it starts. */
  method MergeLoop<F, S>(dicts: seq<EntitiesDict<F, S>>, ghost fp: seq<(string, seq<Entity<F>>)>,
                         ghost sp: seq<(string, seq<Entity<S>>)>, tp: seq<Option<MeshParams>>,
                         default: Option<real>, prefixes: Prefixes)
    returns (faces: seq<Entity<F>>, solids: seq<Entity<S>>, ts: seq<MeshParams>)
    requires PartsOf(dicts, fp, sp, tp)
    requires WrittenBack(dicts, fp, sp, 0, default)
    modifies dicts
    ensures WrittenBack(dicts, fp, sp, |dicts|, default)
    ensures faces == MergedList(fp, default, prefixes.faces)
    ensures solids == MergedList(sp, default, prefixes.solids)
    ensures ts == TransfiniteOf(tp)
  {
    faces, solids, ts := [], [], [];
    var i := 0;
    while i < |dicts|
      invariant LoopInv(dicts, fp, sp, tp, i, default, prefixes, faces, solids, ts)
    {
      faces, solids, ts := MergeStep(dicts, fp, sp, tp, i, default, prefixes, faces, solids, ts);
      i := i + 1;
    }
    assert fp[..i] == fp && sp[..i] == sp && tp[..i] == tp;
  }

  /** One pass of that loop: the dictionary at position i merged, the transfinite parameters it has collected. */
  method MergeStep<F, S>(dicts: seq<EntitiesDict<F, S>>, ghost fp: seq<(string, seq<Entity<F>>)>,
                         ghost sp: seq<(string, seq<Entity<S>>)>, tp: seq<Option<MeshParams>>, i: nat,
                         default: Option<real>, prefixes: Prefixes,
                         faces: seq<Entity<F>>, solids: seq<Entity<S>>, ts: seq<MeshParams>)
    returns (faces': seq<Entity<F>>, solids': seq<Entity<S>>, ts': seq<MeshParams>)
    requires i < |dicts| && LoopInv(dicts, fp, sp, tp, i, default, prefixes, faces, solids, ts)
    modifies dicts[i]
    ensures LoopInv(dicts, fp, sp, tp, i + 1, default, prefixes, faces', solids', ts')
  {
    faces', solids' := MergeAt(dicts, fp, sp, i, default, prefixes, faces, solids);
    MergedListAt(fp, i, default, prefixes.faces);
    MergedListAt(sp, i, default, prefixes.solids);
    TransfiniteOfAt(tp, i);
    var t := dicts[i].transfinite;
    ts' := ts;
    if t.Some? && |t.value| > 0 {
      ts' := ts + [t.value];
    }
  }
}
