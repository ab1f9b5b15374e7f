/**
 * Face lists that callers shrink in place: is_face_in_list, and the removal of the first
 * face that faces_are_same matches (remove_compare_face_from_list), once or for every face
 * of a second list (remove_compare_faces_from_list).
 */
module FaceLists {
  import opened Wrappers
  import opened Geometry

  /**
   * The position of the first face of fs that faces_are_same(cface, face) accepts, scanning
   * from the front; None when no face matches.
   */
  function FirstMatch<P, F, S>(k: Kernel<P, F, S>, cface: F, fs: seq<F>): (r: Option<nat>)
    ensures r.Some? ==> r.value < |fs| && FacesAreSame(k, cface, fs[r.value])
    ensures r.Some? ==> forall j :: 0 <= j < r.value ==> !FacesAreSame(k, cface, fs[j])
    ensures r.None? <==> forall j :: 0 <= j < |fs| ==> !FacesAreSame(k, cface, fs[j])
  {
    if fs == [] then None
    else if FacesAreSame(k, cface, fs[0]) then Some(0)
    else
      match FirstMatch(k, cface, fs[1..])
      case None => None
      case Some(j) => Some(j + 1)
  }

  /**
   * is_face_in_list: some face of the list is the same as search_face; so exactly when the
   * removal search finds a first match.
   */
  predicate IsFaceInList<P, F, S>(k: Kernel<P, F, S>, searchFace: F, fs: seq<F>)
    ensures IsFaceInList(k, searchFace, fs) <==> FirstMatch(k, searchFace, fs).Some?
  {
    exists j :: 0 <= j < |fs| && FacesAreSame(k, searchFace, fs[j])
  }

  /** list.pop(i): the list without its element at i. */
  function Pop<F>(fs: seq<F>, i: nat): (r: seq<F>)
    requires i < |fs|
    ensures |r| == |fs| - 1
    ensures multiset(fs) == multiset(r) + multiset{fs[i]}
    ensures forall j :: 0 <= j < i ==> r[j] == fs[j]
    ensures forall j :: i <= j < |r| ==> r[j] == fs[j + 1]
  {
    assert fs == fs[..i] + [fs[i]] + fs[i + 1..];
    fs[..i] + fs[i + 1..]
  }

  /** remove_compare_face_from_list on a list fs: the face it returns and the list it leaves. */
  function RemoveFirst<P, F, S>(k: Kernel<P, F, S>, cface: F, fs: seq<F>): (r: (seq<F>, Option<F>))
    ensures r.1.None? ==> r.0 == fs
    ensures r.1.Some? ==> FacesAreSame(k, cface, r.1.value) && multiset(fs) == multiset(r.0) + multiset{r.1.value}
  {
    match FirstMatch(k, cface, fs)
    case None => (fs, None)
    case Some(i) => (Pop(fs, i), Some(fs[i]))
  }

  /**
   * Removing one face: nothing is removed exactly when no face of the list matches; otherwise
   * the list loses one face, the first that matches, and keeps the others in order.
   */
  lemma RemoveFirstSpec<P, F, S>(k: Kernel<P, F, S>, cface: F, fs: seq<F>)
    ensures var (rest, r) := RemoveFirst(k, cface, fs);
            && (r.None? <==> !IsFaceInList(k, cface, fs))
            && (r.Some? ==> |rest| == |fs| - 1)
            && (r.Some? ==> exists i :: (0 <= i < |fs| && r.value == fs[i] && rest == fs[..i] + fs[i + 1..] &&
                                         forall j :: 0 <= j < i ==> !FacesAreSame(k, cface, fs[j])))
  {
  }

  /**
   * remove_compare_faces_from_list on a list fs: for each compare face in order, the result
   * of removing it from what the earlier removals left; the final list, then the results.
   */
  function RemoveAll<P, F, S>(k: Kernel<P, F, S>, compare: seq<F>, fs: seq<F>): (r: (seq<F>, seq<Option<F>>))
    ensures |r.1| == |compare| && |r.0| <= |fs|
  {
    if compare == [] then (fs, [])
    else
      var (rest, removed) := RemoveAll(k, compare[..|compare| - 1], fs);
      var (rest', r) := RemoveFirst(k, compare[|compare| - 1], rest);
      (rest', removed + [r])
  }

  /** The faces that were actually removed (the entries that are not None), in order. */
  function Somes<F>(rs: seq<Option<F>>): (r: seq<F>)
    ensures |r| <= |rs|
  {
    if rs == [] then []
    else Somes(rs[..|rs| - 1]) + (if rs[|rs| - 1].Some? then [rs[|rs| - 1].value] else [])
  }

  /** The removed faces after one more result. */
  lemma SomesSnoc<F>(rs: seq<Option<F>>, r: Option<F>)
    ensures Somes(rs + [r]) == Somes(rs) + (if r.Some? then [r.value] else [])
  {
    assert (rs + [r])[..|rs|] == rs;
  }

  /** Removing a list of faces: one result per compare face, and each face removed matches its compare face. */
  lemma {:induction false} RemoveAllMatches<P, F, S>(k: Kernel<P, F, S>, compare: seq<F>, fs: seq<F>)
    decreases |compare|
    ensures |RemoveAll(k, compare, fs).1| == |compare|
    ensures forall j :: 0 <= j < |compare| && RemoveAll(k, compare, fs).1[j].Some? ==>
              FacesAreSame(k, compare[j], RemoveAll(k, compare, fs).1[j].value)
  {
    if compare != [] {
      var init := compare[..|compare| - 1];
      RemoveAllMatches(k, init, fs);
      var prev := RemoveAll(k, init, fs);
      var c := compare[|compare| - 1];
      var removed := prev.1 + [RemoveFirst(k, c, prev.0).1];
      assert RemoveAll(k, compare, fs).1 == removed;
      assert forall j :: 0 <= j < |init| ==> compare[j] == init[j] && removed[j] == prev.1[j];
    }
  }

  /**
   * Removing a list of faces: the faces removed together with the faces left are the
   * original list, as a multiset; so no face is lost or duplicated.
   */
  lemma {:induction false} RemoveAllKeepsFaces<P, F, S>(k: Kernel<P, F, S>, compare: seq<F>, fs: seq<F>)
    decreases |compare|
    ensures multiset(fs) == multiset(RemoveAll(k, compare, fs).0) + multiset(Somes(RemoveAll(k, compare, fs).1))
    ensures |RemoveAll(k, compare, fs).0| + |Somes(RemoveAll(k, compare, fs).1)| == |fs|
  {
    if compare != [] {
      var init := compare[..|compare| - 1];
      RemoveAllKeepsFaces(k, init, fs);
      var prev := RemoveAll(k, init, fs);
      var step := RemoveFirst(k, compare[|compare| - 1], prev.0);
      RemoveFirstSpec(k, compare[|compare| - 1], prev.0);
      SomesSnoc(prev.1, step.1);
      assert RemoveAll(k, compare, fs) == (step.0, prev.1 + [step.1]);
    }
  }

  /** The list of the first i + 1 compare faces removed. */
  lemma RemoveAllAt<P, F, S>(k: Kernel<P, F, S>, compare: seq<F>, fs: seq<F>, i: nat)
    requires i < |compare|
    ensures RemoveAll(k, compare[..i + 1], fs) ==
              var (rest, removed) := RemoveAll(k, compare[..i], fs);
              var (rest', r) := RemoveFirst(k, compare[i], rest);
              (rest', removed + [r])
  {
    assert compare[..i + 1][..i] == compare[..i];
  }

  /** A Python list of faces, shrunk in place by the removals. */
  class FaceList<F> {
    var items: seq<F>

    constructor (faces: seq<F>)
      ensures items == faces
    {
      items := faces;
    }

    /**
     * remove_compare_face_from_list: the first face that matches cface is popped and
     * returned; None and no change when no face matches.
     */
    method RemoveCompareFace<P, S>(k: Kernel<P, F, S>, cface: F) returns (r: Option<F>)
      modifies this
      ensures (items, r) == RemoveFirst(k, cface, old(items))
    {
      var i := 0;
      while i < |items|
        invariant i <= |items| && items == old(items)
        invariant forall j :: 0 <= j < i ==> !FacesAreSame(k, cface, items[j])
      {
        if FacesAreSame(k, cface, items[i]) {
          r := Some(items[i]);
          items := items[..i] + items[i + 1..];
          return;
        }
        i := i + 1;
      }
      r := None;
    }

    /**
     * remove_compare_faces_from_list: each compare face, in order, removes its first match
     * from what is left; the results, None where nothing matched, one per compare face.
     */
    method RemoveCompareFaces<P, S>(k: Kernel<P, F, S>, compare: seq<F>) returns (removed: seq<Option<F>>)
      modifies this
      ensures (items, removed) == RemoveAll(k, compare, old(items))
    {
      removed := [];
      var i := 0;
      while i < |compare|
        invariant i <= |compare|
        invariant (items, removed) == RemoveAll(k, compare[..i], old(items))
      {
        var r := RemoveCompareFace(k, compare[i]);
        RemoveAllAt(k, compare, old(items), i);
        removed := removed + [r];
        i := i + 1;
      }
      assert compare[..i] == compare;
    }
  }
}
