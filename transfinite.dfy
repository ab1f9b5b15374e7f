/**
 * The transfinite mesh parameters: the line parameter dicts (objects, since
 * find_lines_to_transfinite_mesh_params adds their 'lines' in place), the mesh parameter
 * dicts that hold them, and the pass that resolves each line's edges to compound-filter
 * edge numbers.
 */
module Transfinite {
  import opened Wrappers
  import opened Decimal
  import opened Geometry
  import opened Locators

  /**
   * A dict made by create_transfinite_line_param_dict: 'edges', 'points', 'progression'
   * and 'comment' are set once; 'lines' is absent (None) until the edges are resolved.
   */
  class LineParams {
    const edges: seq<Edge>
    const points: string
    const progression: string
    const comment: string
    var lines: Option<seq<string>>

    /** create_transfinite_line_param_dict: the point count and progression as str() of the integers. */
    constructor (edgeList: seq<Edge>, nofPoints: int, progressionValue: int, commentText: string)
      ensures edges == edgeList && comment == commentText && lines == None
      ensures IntValue(points) == nofPoints && points == IntToString(nofPoints)
      ensures IntValue(progression) == progressionValue && progression == IntToString(progressionValue)
    {
      edges := edgeList;
      points := IntToString(nofPoints);
      progression := IntToString(progressionValue);
      comment := commentText;
      lines := None;
      IntToStringRoundTrip(nofPoints);
      IntToStringRoundTrip(progressionValue);
    }
  }

  /** A value of a mesh parameter dict: a string, a list of strings, or a list of line parameter dicts. */
  datatype ParamValue = Text(text: string) | Names(names: seq<string>) | LineList(params: seq<LineParams>)

  /** A mesh parameter dict {'volume', 'surface_list', direction keys..., 'line_params'}. */
  type MeshParams = map<string, ParamValue>

  const VolumeKey: string := "volume"
  const SurfaceListKey: string := "surface_list"
  const LineParamsKey: string := "line_params"

  /** 'volume' and 'surface_list', then mesh_params.update(direction_dict) when direction_dict is non-empty. */
  function WithDirections(volume: string, surfaces: seq<string>, directions: Option<map<string, string>>): (r: MeshParams)
    ensures VolumeKey in r && SurfaceListKey in r && Directions(directions).Keys <= r.Keys
  {
    var base := map[VolumeKey := Text(volume), SurfaceListKey := Names(surfaces)];
    if directions.Some? && |directions.value| > 0
    then base + map k | k in directions.value :: Text(directions.value[k])
    else base
  }

  /**
   * create_transfinite_mesh_param_dict: 'volume' and 'surface_list', then the entries of a
   * non-empty direction_dict (which may overwrite them), then 'line_params' when a non-empty
   * list is given. The {'transfinite_mesh_params': ...} wrapper is left to the caller.
   */
  function CreateTransfiniteMeshParamDict(volume: string, surfaces: seq<string>, directions: Option<map<string, string>>,
                                          lineParams: Option<seq<LineParams>>): (r: MeshParams)
    ensures VolumeKey in r && SurfaceListKey in r && Directions(directions).Keys <= r.Keys
    ensures lineParams.Some? && |lineParams.value| > 0 ==> LineParamsKey in r && r[LineParamsKey] == LineList(lineParams.value)
  {
    var withDirections := WithDirections(volume, surfaces, directions);
    if lineParams.Some? && |lineParams.value| > 0
    then withDirections[LineParamsKey := LineList(lineParams.value)]
    else withDirections
  }

  /** The given directions, an absent direction_dict read as empty. */
  function Directions(directions: Option<map<string, string>>): map<string, string>
  {
    if directions.Some? then directions.value else map[]
  }

  /** The dict before 'line_params': the directions override the two fixed keys and add their own. */
  lemma WithDirectionsKeys(volume: string, surfaces: seq<string>, directions: Option<map<string, string>>)
    ensures var r := WithDirections(volume, surfaces, directions);
            && r.Keys == {VolumeKey, SurfaceListKey} + Directions(directions).Keys
            && (forall k :: k in Directions(directions) ==> r[k] == Text(Directions(directions)[k]))
            && (VolumeKey !in Directions(directions) ==> r[VolumeKey] == Text(volume))
            && (SurfaceListKey !in Directions(directions) ==> r[SurfaceListKey] == Names(surfaces))
  {
    if directions.Some? && |directions.value| == 0 {
      assert directions.value.Keys == {};
    }
  }

  /**
   * What the builder's dict holds, key by key: a given non-empty line list always sits under
   * 'line_params'; any other direction key holds its direction; 'volume' and 'surface_list'
   * keep the arguments unless a direction of that name overwrites them; nothing else is set.
   */
  lemma CreateTransfiniteMeshParamDictKeys(volume: string, surfaces: seq<string>, directions: Option<map<string, string>>,
                                           lineParams: Option<seq<LineParams>>)
    ensures var r := CreateTransfiniteMeshParamDict(volume, surfaces, directions, lineParams);
            var dirs := Directions(directions);
            var hasLines := lineParams.Some? && |lineParams.value| > 0;
            && r.Keys == {VolumeKey, SurfaceListKey} + dirs.Keys + (if hasLines then {LineParamsKey} else {})
            && (hasLines ==> r[LineParamsKey] == LineList(lineParams.value))
            && (forall k :: k in dirs && !(hasLines && k == LineParamsKey) ==> r[k] == Text(dirs[k]))
            && (VolumeKey !in dirs ==> r[VolumeKey] == Text(volume))
            && (SurfaceListKey !in dirs ==> r[SurfaceListKey] == Names(surfaces))
  {
    WithDirectionsKeys(volume, surfaces, directions);
  }

  /**
   * A direction named 'volume' replaces the volume name: the builder does not protect its
   * own keys from direction_dict.
   */
  lemma DirectionOverwritesVolume()
    ensures CreateTransfiniteMeshParamDict("A1", [], Some(map[VolumeKey := "Left"]), None)[VolumeKey] == Text("Left")
  {
    var dirs := map[VolumeKey := "Left"];
    assert |dirs| == 1 by {
      assert dirs.Keys == {VolumeKey};
    }
  }

  /**
   * The line parameter dicts that iterating a 'line_params' value yields, None where the
   * iteration raises TypeError (a non-empty string or list of strings has no ['edges']).
   */
  function LineParamsOf(v: ParamValue): (r: Option<seq<LineParams>>)
    ensures v.LineList? ==> r == Some(v.params)
    ensures r.None? <==> (v.Text? && v.text != []) || (v.Names? && v.names != [])
  {
    match v
    case LineList(ps) => Some(ps)
    case Text(s) => if s == [] then Some([]) else None
    case Names(ns) => if ns == [] then Some([]) else None
  }

  /** mesh_param_dict.get('line_params', []), iterated. */
  function LinesIn(p: MeshParams): Option<seq<LineParams>>
  {
    if LineParamsKey in p then LineParamsOf(p[LineParamsKey]) else Some([])
  }

  /** The line parameter dicts the pass over the mesh parameter dicts may write. */
  ghost function LineObjects(ts: seq<MeshParams>): set<LineParams>
  {
    set i, lp | 0 <= i < |ts| && LinesIn(ts[i]).Some? && lp in LinesIn(ts[i]).value :: lp
  }

  /** No edge of the compound filter is the same as e. */
  predicate Unmatched<F, S>(cf: CompoundFilter<F, S>, e: Edge)
  {
    forall c :: 0 <= c < |cf.edges| ==> !IsSameEdge(cf.edges[c], e, DefaultTolerance)
  }

  /**
   * The 'lines' of a line parameter dict: find_compound_filter_edge of each edge, in order;
   * ValueError('Edge not found') when any edge has no match.
   */
  function EdgeLines<F, S>(cf: CompoundFilter<F, S>, edges: seq<Edge>): (r: Result<seq<string>>)
    ensures r.Err? <==> exists j :: 0 <= j < |edges| && Unmatched(cf, edges[j])
    ensures r.Err? ==> r.error == EdgeNotFound
    ensures r.Ok? ==> |r.value| == |edges| && forall j :: 0 <= j < |edges| ==>
              1 <= DecimalValue(r.value[j]) <= |cf.edges| && IsSameEdge(cf.edges[DecimalValue(r.value[j]) - 1], edges[j], DefaultTolerance)
  {
    if forall j :: 0 <= j < |edges| ==> FindCompoundFilterEdge(cf, edges[j]).Ok?
    then Ok(seq(|edges|, j requires 0 <= j < |edges| && FindCompoundFilterEdge(cf, edges[j]).Ok? =>
                           FindCompoundFilterEdge(cf, edges[j]).value))
    else Err(EdgeNotFound)
  }

  /**
   * The inner loop of find_lines_to_transfinite_mesh_params on one line parameter dict:
   * its 'lines' become the edge numbers of its edges, or nothing is written when an edge
   * is not found.
   */
  method ResolveLines<F, S>(cf: CompoundFilter<F, S>, lp: LineParams) returns (ok: bool)
    modifies lp
    ensures ok == EdgeLines(cf, lp.edges).Ok?
    ensures ok ==> lp.lines == Some(EdgeLines(cf, lp.edges).value)
    ensures !ok ==> lp.lines == old(lp.lines)
  {
    var lineIds: seq<string> := [];
    var i := 0;
    while i < |lp.edges|
      invariant i <= |lp.edges| && |lineIds| == i
      invariant forall j :: 0 <= j < i ==>
                  FindCompoundFilterEdge(cf, lp.edges[j]).Ok? && lineIds[j] == FindCompoundFilterEdge(cf, lp.edges[j]).value
    {
      var id := FindCompoundFilterEdge(cf, lp.edges[i]);
      if id.Err? {
        return false;
      }
      lineIds := lineIds + [id.value];
      i := i + 1;
    }
    assert EdgeLines(cf, lp.edges).Ok?;
    assert forall j :: 0 <= j < |lineIds| ==> EdgeLines(cf, lp.edges).value[j] == lineIds[j];
    assert EdgeLines(cf, lp.edges).value == lineIds;
    lp.lines := Some(lineIds);
    ok := true;
  }

  /** The mesh parameter dict can be iterated and every edge of its lines is found. */
  predicate Resolvable<F, S>(cf: CompoundFilter<F, S>, p: MeshParams)
  {
    LinesIn(p).Some? && forall lp :: lp in LinesIn(p).value ==> EdgeLines(cf, lp.edges).Ok?
  }

  /** The pass over all mesh parameter dicts completes. */
  predicate AllResolvable<F, S>(cf: CompoundFilter<F, S>, ts: seq<MeshParams>)
  {
    forall i :: 0 <= i < |ts| ==> Resolvable(cf, ts[i])
  }

  /**
   * find_lines_to_transfinite_mesh_params: when every line resolves, every line parameter
   * dict of every mesh parameter dict holds the edge numbers of its edges under 'lines';
   * otherwise the source raises (ok is false) after the dicts it has already resolved.
   */
  method FindLinesToTransfiniteMeshParams<F, S>(cf: CompoundFilter<F, S>, ts: seq<MeshParams>) returns (ok: bool)
    modifies LineObjects(ts)
    ensures ok == AllResolvable(cf, ts)
    ensures ok ==> forall lp :: lp in LineObjects(ts) ==> lp.lines == Some(EdgeLines(cf, lp.edges).value)
  {
    var i := 0;
    while i < |ts|
      invariant i <= |ts| && forall l :: 0 <= l < i ==> Resolvable(cf, ts[l])
      invariant forall l, lp :: 0 <= l < i && LinesIn(ts[l]).Some? && lp in LinesIn(ts[l]).value ==>
                  lp.lines == Some(EdgeLines(cf, lp.edges).value)
    {
      var ps := LinesIn(ts[i]);
      if ps.None? {
        assert !Resolvable(cf, ts[i]);
        return false;
      }
      forall lp | lp in ps.value
        ensures lp in LineObjects(ts)
      {
        assert 0 <= i < |ts| && LinesIn(ts[i]).Some? && lp in LinesIn(ts[i]).value;
      }
      ok := ResolveAll(cf, ps.value);
      if !ok {
        assert !Resolvable(cf, ts[i]);
        return false;
      }
      i := i + 1;
    }
    ok := true;
  }

  /** The line parameter dicts of one mesh parameter dict, each resolved in turn. */
  method ResolveAll<F, S>(cf: CompoundFilter<F, S>, ps: seq<LineParams>) returns (ok: bool)
    modifies ps
    ensures ok == forall lp :: lp in ps ==> EdgeLines(cf, lp.edges).Ok?
    ensures ok ==> forall lp :: lp in ps ==> lp.lines == Some(EdgeLines(cf, lp.edges).value)
  {
    var j := 0;
    while j < |ps|
      invariant j <= |ps|
      invariant forall l :: 0 <= l < j ==> EdgeLines(cf, ps[l].edges).Ok? && ps[l].lines == Some(EdgeLines(cf, ps[l].edges).value)
    {
      var lineOk := ResolveLines(cf, ps[j]);
      if !lineOk {
        return false;
      }
      j := j + 1;
    }
    ok := true;
  }
}
