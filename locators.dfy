/**
 * The compound-filter locators: linear scans over compound_filter.Shape's Edges, Faces and
 * Solids that turn an original edge, face or solid into positional compound-filter names
 * ("N", "FaceN", "SolidN", N counted from 1).
 */
module Locators {
  import opened Wrappers
  import opened Decimal
  import opened Seqs
  import opened Geometry

  /** Position of the first element satisfying p. */
  function FirstMatch<T>(s: seq<T>, p: T -> bool): (r: Option<nat>)
    ensures r.Some? ==> r.value < |s| && p(s[r.value]) && forall j :: 0 <= j < r.value ==> !p(s[j])
    ensures r.None? ==> forall j :: 0 <= j < |s| ==> !p(s[j])
  {
    if s == [] then None
    else if p(s[0]) then Some(0)
    else match FirstMatch(s[1..], p)
      case None => None
      case Some(i) => Some(i + 1)
  }

  /** Position of the last element satisfying p (a later match overwrites an earlier one). */
  function LastMatch<T>(s: seq<T>, p: T -> bool): (r: Option<nat>)
    ensures r.Some? ==> r.value < |s| && p(s[r.value]) && forall j :: r.value < j < |s| ==> !p(s[j])
    ensures r.None? ==> forall j :: 0 <= j < |s| ==> !p(s[j])
  {
    if s == [] then None
    else if p(s[|s| - 1]) then Some(|s| - 1)
    else LastMatch(s[..|s| - 1], p)
  }

  /** The N of a name "FaceN". */
  function FaceNumber(name: string): nat
  {
    if |name| >= 4 then DecimalValue(name[4..]) else 0
  }

  /** The N of a name "SolidN". */
  function SolidNumber(name: string): nat
  {
    if |name| >= 5 then DecimalValue(name[5..]) else 0
  }

  lemma FaceNameNumber(n: nat)
    ensures FaceNumber(FaceName(n)) == n
  {
    assert FaceName(n)[4..] == NatToString(n);
    NatToStringRoundTrip(n);
  }

  lemma SolidNameNumber(n: nat)
    ensures SolidNumber(SolidName(n)) == n
  {
    assert SolidName(n)[5..] == NatToString(n);
    NatToStringRoundTrip(n);
  }

  /**
   * find_compound_filter_edge: str(N) for the first compound-filter edge N that
   * is_same_edge(edge N, edge), else ValueError('Edge not found').
   */
  function FindCompoundFilterEdge<F, S>(cf: CompoundFilter<F, S>, edge: Edge): (r: Result<string>)
    ensures r.Err? <==> forall j :: 0 <= j < |cf.edges| ==> !IsSameEdge(cf.edges[j], edge, DefaultTolerance)
    ensures r.Err? ==> r.error == EdgeNotFound
    ensures r.Ok? ==>
              var n := DecimalValue(r.value);
              && 1 <= n <= |cf.edges| && r.value == NatToString(n)
              && IsSameEdge(cf.edges[n - 1], edge, DefaultTolerance)
              && forall j :: 0 <= j < n - 1 ==> !IsSameEdge(cf.edges[j], edge, DefaultTolerance)
  {
    match FirstMatch(cf.edges, (c: Edge) => IsSameEdge(c, edge, DefaultTolerance))
    case None => Err(EdgeNotFound)
    case Some(i) => NatToStringRoundTrip(i + 1); Ok(NatToString(i + 1))
  }

  /**
   * find_compound_filter_boundary: "FaceN" for the LAST compound-filter face N with
   * faces_have_same_vertices(face N, face), None when there is none.
   */
  function FindCompoundFilterBoundary<P, F, S>(k: Kernel<P, F, S>, cf: CompoundFilter<F, S>, face: F): (r: Option<string>)
    ensures r.None? <==> forall j :: 0 <= j < |cf.faces| ==> !FacesHaveSameVertices(k, cf.faces[j], face)
    ensures r.Some? ==>
              var n := FaceNumber(r.value);
              && 1 <= n <= |cf.faces| && r.value == FaceName(n)
              && FacesHaveSameVertices(k, cf.faces[n - 1], face)
              && forall j :: n - 1 < j < |cf.faces| ==> !FacesHaveSameVertices(k, cf.faces[j], face)
  {
    match LastMatch(cf.faces, (c: F) => FacesHaveSameVertices(k, c, face))
    case None => None
    case Some(i) => FaceNameNumber(i + 1); Some(FaceName(i + 1))
  }

  /**
   * find_compound_filter_solid: "SolidN" for the LAST compound-filter solid N with
   * solids_are_the_same(solid N, solid), None when there is none.
   */
  function FindCompoundFilterSolid<P, F, S>(k: Kernel<P, F, S>, cf: CompoundFilter<F, S>, solid: S): (r: Option<string>)
    ensures r.None? <==> forall j :: 0 <= j < |cf.solids| ==> !SolidsAreTheSame(k, cf.solids[j], solid)
    ensures r.Some? ==>
              var n := SolidNumber(r.value);
              && 1 <= n <= |cf.solids| && r.value == SolidName(n)
              && SolidsAreTheSame(k, cf.solids[n - 1], solid)
              && forall j :: n - 1 < j < |cf.solids| ==> !SolidsAreTheSame(k, cf.solids[j], solid)
  {
    match LastMatch(cf.solids, (c: S) => SolidsAreTheSame(k, c, solid))
    case None => None
    case Some(i) => SolidNameNumber(i + 1); Some(SolidName(i + 1))
  }

  /** Compound-filter face x is inside face (is_face_in_face(face x, face) holds). */
  predicate FaceInside<P, F, S>(k: Kernel<P, F, S>, faces: seq<F>, face: F, x: nat)
  {
    x < |faces| && k.faceInFace(faces[x], face) == Some(true)
  }

  /** No later face of xs lies in an earlier one (the nested-duplicate rule). */
  predicate NotNested<P, F, S>(k: Kernel<P, F, S>, faces: seq<F>, xs: seq<nat>)
  {
    forall a, b :: 0 <= a < b < |xs| && xs[a] < |faces| && xs[b] < |faces| ==>
      k.faceInFace(faces[xs[b]], faces[xs[a]]) == Some(false)
  }

  /**
   * The loop over already_found_cfaces: Some(true) at the first accepted face that contains
   * cface, None when a containment test raises before that.
   */
  function InsideAccepted<P, F, S>(k: Kernel<P, F, S>, cface: F, accepted: seq<F>): (r: Option<bool>)
    ensures r == Some(false) <==> forall j :: 0 <= j < |accepted| ==> k.faceInFace(cface, accepted[j]) == Some(false)
  {
    if accepted == [] then Some(false)
    else match k.faceInFace(cface, accepted[0])
      case None => None
      case Some(true) => Some(true)
      case Some(false) => InsideAccepted(k, cface, accepted[1..])
  }

  /**
   * The scan of find_compound_filter_boundaries from position i on: acc holds the
   * (0-based) positions found so far and accepted the faces already_found_cfaces.
   */
  function ContainedFaces<P, F, S>(k: Kernel<P, F, S>, faces: seq<F>, face: F, used: Option<seq<string>>,
                                   i: nat, acc: seq<nat>, accepted: seq<F>): (r: Result<seq<nat>>)
    requires i <= |faces|
    requires Increasing(acc) && forall a :: 0 <= a < |acc| ==> acc[a] < i && FaceInside(k, faces, face, acc[a])
    decreases |faces| - i
    ensures r.Err? ==> r.error == FacePointNotFound
    ensures r.Ok? ==> Increasing(r.value) && |acc| <= |r.value| && r.value[..|acc|] == acc
    ensures r.Ok? ==> forall a :: 0 <= a < |r.value| ==> FaceInside(k, faces, face, r.value[a])
    ensures r.Ok? && used.None? ==> forall j :: i <= j < |faces| && FaceInside(k, faces, face, j) ==> j in r.value
    ensures used.None? && (forall j :: i <= j < |faces| ==> k.faceInFace(faces[j], face).Some?) ==> r.Ok?
  {
    if i == |faces| then Ok(acc)
    else match k.faceInFace(faces[i], face)
      case None => Err(FacePointNotFound)
      case Some(false) => ContainedFaces(k, faces, face, used, i + 1, acc, accepted)
      case Some(true) =>
        if used.None? then
          var r := ContainedFaces(k, faces, face, used, i + 1, acc + [i], accepted);
          assert r.Ok? ==> r.value[|acc|] == (acc + [i])[|acc|] == i;
          r
        else if FaceName(i + 1) in used.value then ContainedFaces(k, faces, face, used, i + 1, acc, accepted)
        else match InsideAccepted(k, faces[i], accepted)
          case None => Err(FacePointNotFound)
          case Some(true) => ContainedFaces(k, faces, face, used, i + 1, acc, accepted)
          case Some(false) => ContainedFaces(k, faces, face, used, i + 1, acc + [i], accepted + [faces[i]])
  }

  function FaceNames(xs: seq<nat>): seq<string>
  {
    seq(|xs|, a requires 0 <= a < |xs| => FaceName(xs[a] + 1))
  }

  function SolidNames(xs: seq<nat>): seq<string>
  {
    seq(|xs|, a requires 0 <= a < |xs| => SolidName(xs[a] + 1))
  }

  /**
   * find_compound_filter_boundaries: the names "FaceN" of the compound-filter faces inside
   * face, ValueError("Faces not found") when there are none.
   */
  function FindCompoundFilterBoundaries<P, F, S>(k: Kernel<P, F, S>, cf: CompoundFilter<F, S>, face: F,
                                                 used: Option<seq<string>>): (r: Result<seq<string>>)
    ensures r.Err? ==> r.error == FacePointNotFound || r.error == FacesNotFound
    ensures r.Ok? ==> r.value != []
  {
    var xs :- ContainedFaces(k, cf.faces, face, used, 0, [], []);
    if xs == [] then Err(FacesNotFound) else Ok(FaceNames(xs))
  }

  /** The test of find_compound_filter_solids for one compound-filter solid. */
  function SolidTest<P, F, S>(k: Kernel<P, F, S>, csolid: S, solid: S, pointSearch: bool): Option<bool>
  {
    if pointSearch then k.solidPointInSolid(csolid, solid) else Some(k.commonVolumePositive(csolid, solid))
  }

  function ContainedSolids<P, F, S>(k: Kernel<P, F, S>, solids: seq<S>, solid: S, pointSearch: bool,
                                    i: nat, acc: seq<nat>): (r: Result<seq<nat>>)
    requires i <= |solids|
    requires Increasing(acc) && forall a :: 0 <= a < |acc| ==> acc[a] < i && SolidTest(k, solids[acc[a]], solid, pointSearch) == Some(true)
    decreases |solids| - i
    ensures r.Err? ==> r.error == SolidPointNotFound && pointSearch
    ensures r.Ok? ==> Increasing(r.value) && |acc| <= |r.value| && r.value[..|acc|] == acc
    ensures r.Ok? ==> forall a :: 0 <= a < |r.value| ==> r.value[a] < |solids| && SolidTest(k, solids[r.value[a]], solid, pointSearch) == Some(true)
  {
    if i == |solids| then Ok(acc)
    else match SolidTest(k, solids[i], solid, pointSearch)
      case None => Err(SolidPointNotFound)
      case Some(false) => ContainedSolids(k, solids, solid, pointSearch, i + 1, acc)
      case Some(true) =>
        var acc' := acc + [i];
        assert forall a :: 0 <= a < |acc| ==> acc'[a] == acc[a];
        var r := ContainedSolids(k, solids, solid, pointSearch, i + 1, acc');
        assert r.Ok? ==> r.value[..|acc|] == r.value[..|acc'|][..|acc|] && r.value[|acc|] == acc'[|acc|] == i;
        r
  }

  /** The scan of find_compound_filter_solids keeps every solid from position i on that passes. */
  lemma {:induction false} ContainedSolidsComplete<P, F, S>(k: Kernel<P, F, S>, solids: seq<S>, solid: S, pointSearch: bool,
                                                            i: nat, acc: seq<nat>)
    requires i <= |solids|
    requires Increasing(acc) && forall a :: 0 <= a < |acc| ==> acc[a] < i && SolidTest(k, solids[acc[a]], solid, pointSearch) == Some(true)
    decreases |solids| - i
    ensures var r := ContainedSolids(k, solids, solid, pointSearch, i, acc);
            r.Ok? ==> forall j :: i <= j < |solids| && SolidTest(k, solids[j], solid, pointSearch) == Some(true) ==> j in r.value
  {
    if i < |solids| {
      match SolidTest(k, solids[i], solid, pointSearch)
      case None =>
      case Some(false) =>
        ContainedSolidsComplete(k, solids, solid, pointSearch, i + 1, acc);
      case Some(true) =>
        var acc' := acc + [i];
        assert forall a :: 0 <= a < |acc| ==> acc'[a] == acc[a];
        ContainedSolidsComplete(k, solids, solid, pointSearch, i + 1, acc');
        var r := ContainedSolids(k, solids, solid, pointSearch, i + 1, acc');
        if r.Ok? {
          assert r.value[..|acc'|] == acc';
          assert r.value[|acc|] == i;
        }
    }
  }

  /**
   * find_compound_filter_solids: the names "SolidN" of the compound-filter solids inside
   * solid, ValueError("Solids not found") when there are none.
   */
  function FindCompoundFilterSolids<P, F, S>(k: Kernel<P, F, S>, cf: CompoundFilter<F, S>, solid: S,
                                             pointSearch: bool): (r: Result<seq<string>>)
    ensures r.Err? ==> r.error == SolidPointNotFound || r.error == SolidsNotFound
    ensures r.Ok? ==> r.value != []
  {
    var xs :- ContainedSolids(k, cf.solids, solid, pointSearch, 0, []);
    if xs == [] then Err(SolidsNotFound) else Ok(SolidNames(xs))
  }

  /** A compound-face position whose name "FaceN" is in used_compound_face_names. */
  predicate UsedFace(used: seq<string>, x: nat)
  {
    FaceName(x + 1) in used
  }

  /** With used_compound_face_names given, the scan never keeps a face that lies in a face it kept before. */
  lemma {:induction false} ContainedFacesNotNested<P, F, S>(k: Kernel<P, F, S>, faces: seq<F>, face: F, used: seq<string>,
                                                            i: nat, acc: seq<nat>, accepted: seq<F>)
    requires i <= |faces|
    requires Increasing(acc) && forall a :: 0 <= a < |acc| ==> acc[a] < i && FaceInside(k, faces, face, acc[a])
    requires |accepted| == |acc| && forall a :: 0 <= a < |acc| ==> accepted[a] == faces[acc[a]]
    requires NotNested(k, faces, acc)
    decreases |faces| - i
    ensures var r := ContainedFaces(k, faces, face, Some(used), i, acc, accepted);
            r.Ok? ==> NotNested(k, faces, r.value)
  {
    if i < |faces| {
      match k.faceInFace(faces[i], face)
      case None =>
      case Some(false) =>
        ContainedFacesNotNested(k, faces, face, used, i + 1, acc, accepted);
      case Some(true) =>
        if UsedFace(used, i) {
          ContainedFacesNotNested(k, faces, face, used, i + 1, acc, accepted);
        } else {
          match InsideAccepted(k, faces[i], accepted)
          case None =>
          case Some(true) =>
            ContainedFacesNotNested(k, faces, face, used, i + 1, acc, accepted);
          case Some(false) =>
            NotNestedExtend(k, faces, acc, accepted, i);
            var acc', accepted' := acc + [i], accepted + [faces[i]];
            forall a | 0 <= a < |acc'| ensures acc'[a] < i + 1 && FaceInside(k, faces, face, acc'[a]) && accepted'[a] == faces[acc'[a]] {
              if a < |acc| { assert acc'[a] == acc[a] && accepted'[a] == accepted[a]; }
            }
            ContainedFacesNotNested(k, faces, face, used, i + 1, acc', accepted');
        }
    }
  }

  /** With used_compound_face_names given, the scan never keeps a used name. */
  lemma {:induction false} ContainedFacesUnused<P, F, S>(k: Kernel<P, F, S>, faces: seq<F>, face: F, used: seq<string>,
                                                         i: nat, acc: seq<nat>, accepted: seq<F>)
    requires i <= |faces|
    requires Increasing(acc) && forall a :: 0 <= a < |acc| ==> acc[a] < i && FaceInside(k, faces, face, acc[a])
    requires forall a :: 0 <= a < |acc| ==> !UsedFace(used, acc[a])
    decreases |faces| - i
    ensures var r := ContainedFaces(k, faces, face, Some(used), i, acc, accepted);
            r.Ok? ==> forall a :: 0 <= a < |r.value| ==> !UsedFace(used, r.value[a])
  {
    if i < |faces| {
      match k.faceInFace(faces[i], face)
      case None =>
      case Some(false) =>
        ContainedFacesUnused(k, faces, face, used, i + 1, acc, accepted);
      case Some(true) =>
        if UsedFace(used, i) {
          ContainedFacesUnused(k, faces, face, used, i + 1, acc, accepted);
        } else {
          match InsideAccepted(k, faces[i], accepted)
          case None =>
          case Some(true) =>
            ContainedFacesUnused(k, faces, face, used, i + 1, acc, accepted);
          case Some(false) =>
            UnusedAppend(used, acc, i);
            ContainedFacesUnused(k, faces, face, used, i + 1, acc + [i], accepted + [faces[i]]);
        }
    }
  }

  lemma UnusedAppend(used: seq<string>, acc: seq<nat>, i: nat)
    requires (forall a :: 0 <= a < |acc| ==> !UsedFace(used, acc[a])) && !UsedFace(used, i)
    ensures forall a :: 0 <= a < |acc + [i]| ==> !UsedFace(used, (acc + [i])[a])
  {
    forall a | 0 <= a < |acc + [i]| ensures !UsedFace(used, (acc + [i])[a]) {
      if a < |acc| { assert (acc + [i])[a] == acc[a]; }
    }
  }

  /** Appending a face that lies in none of the accepted faces keeps the list un-nested. */
  lemma NotNestedExtend<P, F, S>(k: Kernel<P, F, S>, faces: seq<F>, acc: seq<nat>, accepted: seq<F>, i: nat)
    requires i < |faces|
    requires |accepted| == |acc| && forall a :: 0 <= a < |acc| ==> acc[a] < |faces| && accepted[a] == faces[acc[a]]
    requires NotNested(k, faces, acc)
    requires InsideAccepted(k, faces[i], accepted) == Some(false)
    ensures NotNested(k, faces, acc + [i])
  {
    var acc' := acc + [i];
    forall a, b | 0 <= a < b < |acc'| && acc'[a] < |faces| && acc'[b] < |faces|
      ensures k.faceInFace(faces[acc'[b]], faces[acc'[a]]) == Some(false)
    {
      if b == |acc| {
        assert accepted[a] == faces[acc[a]];
      } else {
        assert acc'[a] == acc[a] && acc'[b] == acc[b];
      }
    }
  }

  lemma FaceNamesDistinct(xs: seq<nat>)
    requires Increasing(xs)
    ensures Distinct(FaceNames(xs))
    ensures forall a :: 0 <= a < |xs| ==> FaceNumber(FaceNames(xs)[a]) == xs[a] + 1
  {
    var names := FaceNames(xs);
    forall a | 0 <= a < |xs|
      ensures FaceNumber(names[a]) == xs[a] + 1
    {
      FaceNameNumber(xs[a] + 1);
    }
    forall a, b | 0 <= a < |xs| && 0 <= b < |xs| && a != b
      ensures names[a] != names[b]
    {
      assert FaceNumber(names[a]) != FaceNumber(names[b]);
    }
  }

  lemma SolidNamesDistinct(xs: seq<nat>)
    requires Increasing(xs)
    ensures Distinct(SolidNames(xs))
    ensures forall a :: 0 <= a < |xs| ==> SolidNumber(SolidNames(xs)[a]) == xs[a] + 1
  {
    var names := SolidNames(xs);
    forall a | 0 <= a < |xs|
      ensures SolidNumber(names[a]) == xs[a] + 1
    {
      SolidNameNumber(xs[a] + 1);
    }
    forall a, b | 0 <= a < |xs| && 0 <= b < |xs| && a != b
      ensures names[a] != names[b]
    {
      assert SolidNumber(names[a]) != SolidNumber(names[b]);
    }
  }

  lemma FaceNamesMember(xs: seq<nat>, j: nat)
    ensures FaceName(j + 1) in FaceNames(xs) <==> j in xs
  {
    var names := FaceNames(xs);
    if j in xs {
      var a :| 0 <= a < |xs| && xs[a] == j;
      assert names[a] == FaceName(j + 1);
    }
    if FaceName(j + 1) in names {
      var a :| 0 <= a < |names| && names[a] == FaceName(j + 1);
      FaceNameInjective(xs[a] + 1, j + 1);
    }
  }

  lemma SolidNamesMember(xs: seq<nat>, j: nat)
    ensures SolidName(j + 1) in SolidNames(xs) <==> j in xs
  {
    var names := SolidNames(xs);
    if j in xs {
      var a :| 0 <= a < |xs| && xs[a] == j;
      assert names[a] == SolidName(j + 1);
    }
    if SolidName(j + 1) in names {
      var a :| 0 <= a < |names| && names[a] == SolidName(j + 1);
      SolidNameInjective(xs[a] + 1, j + 1);
    }
  }

  /**
   * find_compound_filter_boundaries returns distinct names "FaceN" in ascending N, each of a
   * compound-filter face inside face.
   */
  lemma FindCompoundFilterBoundariesSpec<P, F, S>(k: Kernel<P, F, S>, cf: CompoundFilter<F, S>, face: F,
                                                  used: Option<seq<string>>)
    ensures var r := FindCompoundFilterBoundaries(k, cf, face, used);
            && (r.Ok? ==> Distinct(r.value))
            && (r.Ok? ==> forall a :: 0 <= a < |r.value| ==>
                  var n := FaceNumber(r.value[a]);
                  1 <= n <= |cf.faces| && r.value[a] == FaceName(n) && k.faceInFace(cf.faces[n - 1], face) == Some(true))
            && (r.Ok? ==> forall a, b :: 0 <= a < b < |r.value| ==> FaceNumber(r.value[a]) < FaceNumber(r.value[b]))
  {
    var c := ContainedFaces(k, cf.faces, face, used, 0, [], []);
    if c.Ok? {
      FaceNamesDistinct(c.value);
    }
  }

  /**
   * Without used_compound_face_names, find_compound_filter_boundaries keeps every
   * compound-filter face inside face, and (when no containment test raises) it raises
   * "Faces not found" exactly when there is none.
   */
  lemma FindCompoundFilterBoundariesAll<P, F, S>(k: Kernel<P, F, S>, cf: CompoundFilter<F, S>, face: F)
    ensures var r := FindCompoundFilterBoundaries(k, cf, face, None);
            && (r.Ok? ==> forall j :: 0 <= j < |cf.faces| && k.faceInFace(cf.faces[j], face) == Some(true) ==>
                  FaceName(j + 1) in r.value)
            && ((forall j :: 0 <= j < |cf.faces| ==> k.faceInFace(cf.faces[j], face).Some?) ==>
                  (r.Err? <==> forall j :: 0 <= j < |cf.faces| ==> k.faceInFace(cf.faces[j], face) == Some(false)))
  {
    var c := ContainedFaces(k, cf.faces, face, None, 0, [], []);
    if c.Ok? {
      var xs := c.value;
      var names := FaceNames(xs);
      forall j | 0 <= j < |cf.faces| && k.faceInFace(cf.faces[j], face) == Some(true)
        ensures FaceName(j + 1) in names
      {
        assert FaceInside(k, cf.faces, face, j);
        FaceNamesMember(xs, j);
      }
      if xs != [] {
        assert k.faceInFace(cf.faces[xs[0]], face) == Some(true);
      } else {
        forall j | 0 <= j < |cf.faces| && k.faceInFace(cf.faces[j], face).Some?
          ensures k.faceInFace(cf.faces[j], face) == Some(false)
        {
          var t := k.faceInFace(cf.faces[j], face);
          if t != Some(true) {
            assert t.Some? && t.value == false;
          }
        }
      }
    }
  }

  /**
   * With used_compound_face_names given, find_compound_filter_boundaries returns no used name
   * and no face that lies in a face it returned earlier.
   */
  lemma FindCompoundFilterBoundariesSkips<P, F, S>(k: Kernel<P, F, S>, cf: CompoundFilter<F, S>, face: F,
                                                   used: seq<string>)
    ensures var r := FindCompoundFilterBoundaries(k, cf, face, Some(used));
            && (r.Ok? ==> forall a :: 0 <= a < |r.value| ==> r.value[a] !in used)
            && (r.Ok? ==> forall a, b :: 0 <= a < b < |r.value| ==>
                  1 <= FaceNumber(r.value[a]) <= |cf.faces| && 1 <= FaceNumber(r.value[b]) <= |cf.faces| &&
                  k.faceInFace(cf.faces[FaceNumber(r.value[b]) - 1], cf.faces[FaceNumber(r.value[a]) - 1]) == Some(false))
  {
    var c := ContainedFaces(k, cf.faces, face, Some(used), 0, [], []);
    ContainedFacesNotNested(k, cf.faces, face, used, 0, [], []);
    ContainedFacesUnused(k, cf.faces, face, used, 0, [], []);
    if c.Ok? {
      FaceNamesDistinct(c.value);
    }
  }

  /** The compound-filter faces at the given positions, in order. */
  function FacesAt<F>(faces: seq<F>, xs: seq<nat>): seq<F>
    requires forall a :: 0 <= a < |xs| ==> xs[a] < |faces|
  {
    seq(|xs|, a requires 0 <= a < |xs| => faces[xs[a]])
  }

  /**
   * With used_compound_face_names given, the rule that keeps compound-filter face x when the
   * faces at prev were kept before it: x lies inside face, its name is not used, and it lies
   * in none of the faces at prev.
   */
  predicate KeepsFace<P, F, S>(k: Kernel<P, F, S>, faces: seq<F>, face: F, used: seq<string>, x: nat, prev: seq<nat>)
    requires forall a :: 0 <= a < |prev| ==> prev[a] < |faces|
  {
    FaceInside(k, faces, face, x) && !UsedFace(used, x) && InsideAccepted(k, faces[x], FacesAt(faces, prev)) == Some(false)
  }

  /** The positions below n that the rule of KeepsFace keeps, one after the other. */
  function KeptBefore<P, F, S>(k: Kernel<P, F, S>, faces: seq<F>, face: F, used: seq<string>, n: nat): (r: seq<nat>)
    requires n <= |faces|
    ensures Increasing(r) && forall a :: 0 <= a < |r| ==> r[a] < n && FaceInside(k, faces, face, r[a])
  {
    if n == 0 then []
    else
      var prev := KeptBefore(k, faces, face, used, n - 1);
      if KeepsFace(k, faces, face, used, n - 1, prev) then prev + [n - 1] else prev
  }

  /** Position j is kept below n exactly when j < n and the rule keeps j after the faces kept before it. */
  lemma {:induction false} KeptBeforeMember<P, F, S>(k: Kernel<P, F, S>, faces: seq<F>, face: F, used: seq<string>, n: nat, j: nat)
    requires n <= |faces|
    decreases n
    ensures j in KeptBefore(k, faces, face, used, n) <==>
              j < n && KeepsFace(k, faces, face, used, j, KeptBefore(k, faces, face, used, j))
  {
    if n > 0 {
      var prev := KeptBefore(k, faces, face, used, n - 1);
      KeptBeforeMember(k, faces, face, used, n - 1, j);
      assert n - 1 !in prev;
      assert j in prev + [n - 1] <==> j in prev || j == n - 1;
    }
  }

  /** The containment test of compound-filter face a in compound-filter face b, or in face when b is |faces|. */
  function FaceTest<P, F, S>(k: Kernel<P, F, S>, faces: seq<F>, face: F, a: nat, b: nat): Option<bool>
    requires a < |faces| && b <= |faces|
  {
    k.faceInFace(faces[a], if b == |faces| then face else faces[b])
  }

  /** No containment test between a compound-filter face and face, or between two compound-filter faces, raises. */
  predicate NoFaceTestRaises<P, F, S>(k: Kernel<P, F, S>, faces: seq<F>, face: F)
  {
    forall a: nat, b: nat :: a < |faces| && b <= |faces| ==> FaceTest(k, faces, face, a, b).Some?
  }

  /** The loop over already_found_cfaces raises only where one of its containment tests does. */
  lemma {:induction false} InsideAcceptedTotal<P, F, S>(k: Kernel<P, F, S>, cface: F, accepted: seq<F>)
    ensures (forall j :: 0 <= j < |accepted| ==> k.faceInFace(cface, accepted[j]).Some?) ==>
              InsideAccepted(k, cface, accepted).Some?
  {
    if accepted != [] {
      InsideAcceptedTotal(k, cface, accepted[1..]);
      assert forall j :: 1 <= j < |accepted| ==> accepted[1..][j - 1] == accepted[j];
    }
  }

  /**
   * With used_compound_face_names given, the scan from position i, started from the faces
   * kept before i, raises 'Face point not found' or returns exactly the faces kept below
   * the end.
   */
  lemma {:induction false} ContainedFacesKept<P, F, S>(k: Kernel<P, F, S>, faces: seq<F>, face: F, used: seq<string>, i: nat)
    requires i <= |faces|
    decreases |faces| - i
    ensures var acc := KeptBefore(k, faces, face, used, i);
            var r := ContainedFaces(k, faces, face, Some(used), i, acc, FacesAt(faces, acc));
            r == Err(FacePointNotFound) || r == Ok(KeptBefore(k, faces, face, used, |faces|))
  {
    if i < |faces| {
      var acc := KeptBefore(k, faces, face, used, i);
      var accepted := FacesAt(faces, acc);
      var next := KeptBefore(k, faces, face, used, i + 1);
      ContainedFacesKept(k, faces, face, used, i + 1);
      match k.faceInFace(faces[i], face)
      case None =>
      case Some(false) =>
        assert next == acc;
      case Some(true) =>
        if UsedFace(used, i) {
          assert next == acc;
        } else {
          match InsideAccepted(k, faces[i], accepted)
          case None =>
          case Some(true) =>
            assert next == acc;
          case Some(false) =>
            assert next == acc + [i];
            FacesAtSnoc(faces, acc, i);
        }
    }
  }

  lemma FacesAtSnoc<F>(faces: seq<F>, xs: seq<nat>, x: nat)
    requires x < |faces| && forall a :: 0 <= a < |xs| ==> xs[a] < |faces|
    ensures FacesAt(faces, xs + [x]) == FacesAt(faces, xs) + [faces[x]]
  {
  }

  /** When no containment test raises, the scan of ContainedFacesKept does not raise either. */
  lemma {:induction false} ContainedFacesKeptOk<P, F, S>(k: Kernel<P, F, S>, faces: seq<F>, face: F, used: seq<string>, i: nat)
    requires i <= |faces|
    requires NoFaceTestRaises(k, faces, face)
    decreases |faces| - i
    ensures var acc := KeptBefore(k, faces, face, used, i);
            ContainedFaces(k, faces, face, Some(used), i, acc, FacesAt(faces, acc)).Ok?
  {
    if i < |faces| {
      var acc := KeptBefore(k, faces, face, used, i);
      var accepted := FacesAt(faces, acc);
      var next := KeptBefore(k, faces, face, used, i + 1);
      ContainedFacesKeptOk(k, faces, face, used, i + 1);
      assert FaceTest(k, faces, face, i, |faces|).Some?;
      forall j | 0 <= j < |accepted|
        ensures k.faceInFace(faces[i], accepted[j]).Some?
      {
        assert FaceTest(k, faces, face, i, acc[j]).Some?;
      }
      InsideAcceptedTotal(k, faces[i], accepted);
      ContainedFacesKeptStep(k, faces, face, used, i);
    }
  }

  /** One position of the scan of ContainedFacesKept, where neither of its tests raises. */
  lemma ContainedFacesKeptStep<P, F, S>(k: Kernel<P, F, S>, faces: seq<F>, face: F, used: seq<string>, i: nat)
    requires i < |faces|
    requires k.faceInFace(faces[i], face).Some?
    requires InsideAccepted(k, faces[i], FacesAt(faces, KeptBefore(k, faces, face, used, i))).Some?
    ensures var acc := KeptBefore(k, faces, face, used, i);
            var next := KeptBefore(k, faces, face, used, i + 1);
            ContainedFaces(k, faces, face, Some(used), i, acc, FacesAt(faces, acc)) ==
              ContainedFaces(k, faces, face, Some(used), i + 1, next, FacesAt(faces, next))
  {
    var acc := KeptBefore(k, faces, face, used, i);
    var accepted := FacesAt(faces, acc);
    var next := KeptBefore(k, faces, face, used, i + 1);
    if FaceInside(k, faces, face, i) && !UsedFace(used, i) && InsideAccepted(k, faces[i], accepted) == Some(false) {
      assert next == acc + [i];
      assert FacesAt(faces, next) == accepted + [faces[i]];
    } else {
      assert next == acc;
    }
  }

  /**
   * With used_compound_face_names given, find_compound_filter_boundaries returns the name of
   * compound-filter face j exactly when the rule of KeepsFace keeps j after the faces kept
   * before it; it raises "Faces not found" only when it keeps no face, and, when no
   * containment test raises, exactly then.
   */
  lemma FindCompoundFilterBoundariesSeparate<P, F, S>(k: Kernel<P, F, S>, cf: CompoundFilter<F, S>, face: F,
                                                      used: seq<string>)
    ensures var r := FindCompoundFilterBoundaries(k, cf, face, Some(used));
            && (r.Ok? ==> forall j :: 0 <= j < |cf.faces| ==>
                  (FaceName(j + 1) in r.value <==> KeepsFace(k, cf.faces, face, used, j, KeptBefore(k, cf.faces, face, used, j))))
            && (r == Err(FacesNotFound) ==> forall j :: 0 <= j < |cf.faces| ==>
                  !KeepsFace(k, cf.faces, face, used, j, KeptBefore(k, cf.faces, face, used, j)))
            && (NoFaceTestRaises(k, cf.faces, face) ==> r.Ok? || r == Err(FacesNotFound))
            && (NoFaceTestRaises(k, cf.faces, face) ==>
                  (r == Err(FacesNotFound) <==> forall j :: 0 <= j < |cf.faces| ==>
                     !KeepsFace(k, cf.faces, face, used, j, KeptBefore(k, cf.faces, face, used, j))))
  {
    var n := |cf.faces|;
    var kept := KeptBefore(k, cf.faces, face, used, n);
    SeparateScan(k, cf, face, used);
    KeptNone(k, cf.faces, face, used);
    forall j | 0 <= j < n
      ensures FaceName(j + 1) in FaceNames(kept) <==> KeepsFace(k, cf.faces, face, used, j, KeptBefore(k, cf.faces, face, used, j))
    {
      KeptBeforeMember(k, cf.faces, face, used, n, j);
      FaceNamesMember(kept, j);
    }
  }

  /**
   * With used_compound_face_names given, find_compound_filter_boundaries raises 'Face point
   * not found', or else returns the names of the kept faces, or "Faces not found" when none
   * is kept; the first only where a containment test raises.
   */
  lemma SeparateScan<P, F, S>(k: Kernel<P, F, S>, cf: CompoundFilter<F, S>, face: F, used: seq<string>)
    ensures var r := FindCompoundFilterBoundaries(k, cf, face, Some(used));
            var kept := KeptBefore(k, cf.faces, face, used, |cf.faces|);
            && (r == Err(FacePointNotFound) || (kept != [] && r == Ok(FaceNames(kept))) || (kept == [] && r == Err(FacesNotFound)))
            && (NoFaceTestRaises(k, cf.faces, face) ==> r != Err(FacePointNotFound))
  {
    assert KeptBefore(k, cf.faces, face, used, 0) == [];
    assert FacesAt(cf.faces, []) == [];
    ContainedFacesKept(k, cf.faces, face, used, 0);
    if NoFaceTestRaises(k, cf.faces, face) {
      ContainedFacesKeptOk(k, cf.faces, face, used, 0);
    }
  }

  /** No face is kept exactly when the rule of KeepsFace keeps no position. */
  lemma KeptNone<P, F, S>(k: Kernel<P, F, S>, faces: seq<F>, face: F, used: seq<string>)
    ensures KeptBefore(k, faces, face, used, |faces|) == [] <==>
              forall j :: 0 <= j < |faces| ==> !KeepsFace(k, faces, face, used, j, KeptBefore(k, faces, face, used, j))
  {
    var kept := KeptBefore(k, faces, face, used, |faces|);
    if kept != [] {
      KeptBeforeMember(k, faces, face, used, |faces|, kept[0]);
    } else {
      forall j | 0 <= j < |faces|
        ensures !KeepsFace(k, faces, face, used, j, KeptBefore(k, faces, face, used, j))
      {
        KeptBeforeMember(k, faces, face, used, |faces|, j);
      }
    }
  }

  /**
   * find_compound_filter_solids returns distinct names "SolidN" in ascending N, exactly those
   * of the compound-filter solids that pass the containment test.
   */
  lemma FindCompoundFilterSolidsSpec<P, F, S>(k: Kernel<P, F, S>, cf: CompoundFilter<F, S>, solid: S, pointSearch: bool)
    ensures var r := FindCompoundFilterSolids(k, cf, solid, pointSearch);
            && (r.Ok? ==> Distinct(r.value))
            && (r.Ok? ==> forall a, b :: 0 <= a < b < |r.value| ==> SolidNumber(r.value[a]) < SolidNumber(r.value[b]))
            && (r.Ok? ==> forall j :: 0 <= j < |cf.solids| ==>
                  (SolidName(j + 1) in r.value <==> SolidTest(k, cf.solids[j], solid, pointSearch) == Some(true)))
            && (r.Err? && r.error == SolidPointNotFound ==> pointSearch)
  {
    var c := ContainedSolids(k, cf.solids, solid, pointSearch, 0, []);
    ContainedSolidsComplete(k, cf.solids, solid, pointSearch, 0, []);
    if c.Ok? {
      var xs := c.value;
      SolidNamesDistinct(xs);
      var names := SolidNames(xs);
      forall j | 0 <= j < |cf.solids|
        ensures SolidName(j + 1) in names <==> SolidTest(k, cf.solids[j], solid, pointSearch) == Some(true)
      {
        SolidNamesMember(xs, j);
        if j in xs {
          var a :| 0 <= a < |xs| && xs[a] == j;
        }
      }
    }
  }

  /**
   * When no containment test raises, find_compound_filter_solids raises "Solids not found"
   * exactly when no compound-filter solid passes.
   */
  lemma FindCompoundFilterSolidsNotFound<P, F, S>(k: Kernel<P, F, S>, cf: CompoundFilter<F, S>, solid: S, pointSearch: bool)
    requires forall j :: 0 <= j < |cf.solids| ==> SolidTest(k, cf.solids[j], solid, pointSearch).Some?
    ensures var r := FindCompoundFilterSolids(k, cf, solid, pointSearch);
            r.Err? <==> forall j :: 0 <= j < |cf.solids| ==> SolidTest(k, cf.solids[j], solid, pointSearch) == Some(false)
  {
    var c := ContainedSolidsTotal(k, cf.solids, solid, pointSearch, 0, []);
    ContainedSolidsComplete(k, cf.solids, solid, pointSearch, 0, []);
    var xs := c.value;
    if xs != [] {
      assert SolidTest(k, cf.solids[xs[0]], solid, pointSearch) == Some(true);
    } else {
      forall j | 0 <= j < |cf.solids|
        ensures SolidTest(k, cf.solids[j], solid, pointSearch) == Some(false)
      {
        var t := SolidTest(k, cf.solids[j], solid, pointSearch);
        if t != Some(true) {
          assert t.Some? && t.value == false;
        }
      }
    }
  }

  /** When no test raises, the solid scan succeeds. */
  lemma {:induction false} ContainedSolidsTotal<P, F, S>(k: Kernel<P, F, S>, solids: seq<S>, solid: S, pointSearch: bool,
                                                         i: nat, acc: seq<nat>) returns (r: Result<seq<nat>>)
    requires i <= |solids|
    requires Increasing(acc) && forall a :: 0 <= a < |acc| ==> acc[a] < i && SolidTest(k, solids[acc[a]], solid, pointSearch) == Some(true)
    decreases |solids| - i
    ensures r == ContainedSolids(k, solids, solid, pointSearch, i, acc)
    ensures (forall j :: i <= j < |solids| ==> SolidTest(k, solids[j], solid, pointSearch).Some?) ==> r.Ok?
  {
    r := ContainedSolids(k, solids, solid, pointSearch, i, acc);
    if i < |solids| {
      match SolidTest(k, solids[i], solid, pointSearch)
      case None =>
      case Some(false) => var _ := ContainedSolidsTotal(k, solids, solid, pointSearch, i + 1, acc);
      case Some(true) => var _ := ContainedSolidsTotal(k, solids, solid, pointSearch, i + 1, acc + [i]);
    }
  }
}
