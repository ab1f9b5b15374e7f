# FreeCAD batch FEM tools: a verified model of the bookkeeping

`FreeCADBatchFEMTools.py` prepares FreeCAD geometry for meshing with gmsh and Elmer. The
user names faces and solids of the geometry ("entities"). The library ties those names to
the positional `FaceN`, `SolidN` and edge numbers of a compound filter, a renumbered copy of
the whole geometry. From them it builds mesh groups and mesh regions, each labelled
after the entity names and carrying a mesh size. The geometry kernel is only ever queried: is this face
inside that face, are these two points the same, what is the centre of mass. This project
models everything around those queries and proves what it does.

The modules follow the parts of the library:

- `Geometry`: the comparators.
  - The kernel is an abstract `Kernel<P, F, S>` over opaque points, faces and solids.
  - `is_same_vertices` and `is_same_edge` work on real coordinates.
  - `faces_have_same_vertices`, `faces_are_same` and `solids_are_the_same` count matching pairs.
- `Locators`: the `find_compound_filter_*` scans.
  - Edge: first match. Boundary and solid: last match.
  - `boundaries` and `solids`: every face or solid found inside, in ascending order, with the skip rules.
- `Decimal`: Python's `str()` of an integer, and the names `FaceN` and `SolidN` built from it.
- `Seqs`: the list operations the library relies on (`list.index`, filtering out a value).
- `Registry`: entities and entity lists.
  - `add_entity_in_list` with its mesh-size lookup, and `add_geom_obj_list_in_entitylist`.
  - `get_entitylist_faces`, and `pick_faces_from_geometry` with Python's negative indices.
- `EntitiesDicts`: `create_entities_dict` and `merge_entities_dicts`.
  - The merge prefixes names and fills in the default mesh size.
  - It writes that default back into the input entities.
- `Transfinite`: the line and mesh parameter dicts.
  - The `create_transfinite_*_dict` builders.
  - `find_lines_to_transfinite_mesh_params`, which writes `lines` into each line dict.
- `FaceLists`: `is_face_in_list`, and the in-place removals `remove_compare_face_from_list` and `remove_compare_faces_from_list`.
- `Ansi`: `_remove_ansi_color_escape_codes`.
- `Reconciler`: `merge_boundaries` and `find_boundaries_with_entities_dict` as a value model.
  - Groups sit in a pool and are addressed by number, so that the sharing of one group
    object between `surface_objs` and `surface_objs_by_cface_names` is explicit.
  - The three branches of a compound face are modelled: rename the single-face owner,
    split the face off a larger owner, or take an unowned face into the entity's own group.
- `MeshGroups`: the mutable `MeshGroup` and `MeshRegion` objects.
  - It also holds the abstraction that reads a set of group objects, list and dictionary as a reconciler state.
- `Boundaries` and `BoundaryGroups`: the same two functions on group objects whose `Label`
  and `References` change in place, each method proved against the value model.
- `SolidGroups`: the solid-side folds, on group and region objects, proved against one
  value fold with an ignore list.
  - `find_bodies_with_entities_dict` and `define_mesh_sizes`.
  - `define_mesh_sizes_with_mesh_groups`.

The edge cases of the library are reproduced as written:

- The owner map is not updated when a split face is appended to an existing merged group.
- A rename does not check whether the new label is already in use.
- The references of a repeated name are read before `merge_boundaries` runs and written after it.
- A new name extends the used-name list twice in separate mode.

Several lemmas exhibit consequences of these rules:

- Two edges can be reported different although their end points match in swapped order.
- The pair count can accept a face one of whose vertices matches nothing.
- A direction called `volume` overwrites the volume name.
- Removing the colour codes one after the other can join the parts of a code, so a
  second pass changes the text again.

## Model

All source paths are relative to the repository root.

| member | source | states |
|---|---|---|
| Geometry.IsSameVerticesProperties | ElmerWorkflows/FreeCADBatchFEMTools/FreeCADBatchFEMTools.py:286-300 | The vertex test is symmetric, and a vertex matches itself exactly when the tolerance is positive. |
| Geometry.IsSameVertices | ElmerWorkflows/FreeCADBatchFEMTools/FreeCADBatchFEMTools.py:286-300 | Two vertices match only under a positive tolerance. |
| Geometry.IsSameEdge | ElmerWorkflows/FreeCADBatchFEMTools/FreeCADBatchFEMTools.py:302-318 | Two edges match only under a positive tolerance, and only when the first end point of the one matches an end point of the other. |
| Geometry.FacesAreSame | ElmerWorkflows/FreeCADBatchFEMTools/FreeCADBatchFEMTools.py:158-168 | Two faces are the same only when they have the same number of vertices. |
| Geometry.IsSameEdgeFirstEndsDecide | ElmerWorkflows/FreeCADBatchFEMTools/FreeCADBatchFEMTools.py:312-318 | When the first end points match, the answer is whether the second end points match; the swapped order is never tried. |
| Geometry.IsSameEdgeSound | ElmerWorkflows/FreeCADBatchFEMTools/FreeCADBatchFEMTools.py:302-318 | A reported match is a match of the end points in one of the two orders. |
| Geometry.IsSameEdgeSymmetric | ElmerWorkflows/FreeCADBatchFEMTools/FreeCADBatchFEMTools.py:302-318 | Exchanging the two edges does not change the answer. |
| Geometry.SwappedOrderNotTried | ElmerWorkflows/FreeCADBatchFEMTools/FreeCADBatchFEMTools.py:312-318 | Concrete edges whose end points match in swapped order are reported different, because the first end points already match. |
| Geometry.MatchCount | ElmerWorkflows/FreeCADBatchFEMTools/FreeCADBatchFEMTools.py:216-231 | The counter list holds one entry per matching pair, so its length is at most the product of the two lengths. |
| Geometry.MatchCountTranspose | ElmerWorkflows/FreeCADBatchFEMTools/FreeCADBatchFEMTools.py:502-516 | The number of matching pairs does not depend on which list the outer loop scans. |
| Geometry.MatchCountDiagonal | ElmerWorkflows/FreeCADBatchFEMTools/FreeCADBatchFEMTools.py:216-231 | A list compared with itself, where each element matches itself and no two positions match each other, has exactly one matching pair per element. |
| Geometry.FacesHaveSameVertices | ElmerWorkflows/FreeCADBatchFEMTools/FreeCADBatchFEMTools.py:226-231 | A true answer implies equal vertex counts: one pair count cannot equal two different lengths. |
| Geometry.SolidsAreTheSame | ElmerWorkflows/FreeCADBatchFEMTools/FreeCADBatchFEMTools.py:511-516 | A true answer implies equal face counts. |
| Geometry.FacesHaveSameVerticesSymmetric | ElmerWorkflows/FreeCADBatchFEMTools/FreeCADBatchFEMTools.py:216-231 | With a symmetric point test, the face comparison is symmetric. |
| Geometry.FacesHaveSameVerticesReflexive | ElmerWorkflows/FreeCADBatchFEMTools/FreeCADBatchFEMTools.py:216-231 | A face matches itself when each vertex matches itself and no two of its vertices are at the same point. |
| Geometry.SolidsAreTheSameReflexive | ElmerWorkflows/FreeCADBatchFEMTools/FreeCADBatchFEMTools.py:502-516 | A solid matches itself when each face matches itself and no two of its faces match. |
| Geometry.PairCountCanMissVertex | ElmerWorkflows/FreeCADBatchFEMTools/FreeCADBatchFEMTools.py:222-231 | Concrete faces with equal pair count and lengths are accepted although one vertex matches nothing. |
| Locators.FirstMatch | ElmerWorkflows/FreeCADBatchFEMTools/FreeCADBatchFEMTools.py:759-761 | The position returned satisfies the test and no earlier position does; None only when none does. |
| Locators.LastMatch | ElmerWorkflows/FreeCADBatchFEMTools/FreeCADBatchFEMTools.py:775-778 | The position returned satisfies the test and no later position does; None only when none does. |
| Locators.FindCompoundFilterEdge | ElmerWorkflows/FreeCADBatchFEMTools/FreeCADBatchFEMTools.py:749-762 | Returns str(N) for the first 1-based edge N that matches, with no earlier match; ValueError('Edge not found') exactly when no edge matches. |
| Locators.FindCompoundFilterBoundary | ElmerWorkflows/FreeCADBatchFEMTools/FreeCADBatchFEMTools.py:764-780 | Returns "FaceN" for the last matching face N, with no later match; None exactly when no face matches. |
| Locators.FindCompoundFilterSolid | ElmerWorkflows/FreeCADBatchFEMTools/FreeCADBatchFEMTools.py:782-798 | Returns "SolidN" for the last matching solid N, with no later match; None exactly when no solid matches. |
| Locators.InsideAccepted | ElmerWorkflows/FreeCADBatchFEMTools/FreeCADBatchFEMTools.py:820-825 | Some(false), meaning no accepted face contains the candidate, exactly when every containment test against the accepted faces answers false. |
| Locators.ContainedFaces | ElmerWorkflows/FreeCADBatchFEMTools/FreeCADBatchFEMTools.py:813-827 | The scan keeps ascending positions, extending those found so far, each of a face inside the given face; "Face point not found" is its only error; without used names it keeps every face inside and succeeds whenever every containment test answers. |
| Locators.FindCompoundFilterBoundaries | ElmerWorkflows/FreeCADBatchFEMTools/FreeCADBatchFEMTools.py:800-830 | A successful result is non-empty; "Faces not found" and "Face point not found" are the only errors. |
| Locators.ContainedSolids | ElmerWorkflows/FreeCADBatchFEMTools/FreeCADBatchFEMTools.py:843-845 | The solid scan keeps ascending positions, extending those found so far, each of a solid that passes the test; "Solid point not found" arises only with point search. |
| Locators.ContainedSolidsComplete | ElmerWorkflows/FreeCADBatchFEMTools/FreeCADBatchFEMTools.py:843-845 | Every solid from the start position on that passes the test is kept. |
| Locators.FindCompoundFilterSolids | ElmerWorkflows/FreeCADBatchFEMTools/FreeCADBatchFEMTools.py:832-848 | A successful result is non-empty; "Solids not found" and "Solid point not found" are the only errors. |
| Locators.ContainedFacesNotNested | ElmerWorkflows/FreeCADBatchFEMTools/FreeCADBatchFEMTools.py:819-826 | With used names given, no kept face lies in a face kept before it. |
| Locators.ContainedFacesUnused | ElmerWorkflows/FreeCADBatchFEMTools/FreeCADBatchFEMTools.py:816-817 | With used names given, no kept face has a used name. |
| Locators.FindCompoundFilterBoundariesSpec | ElmerWorkflows/FreeCADBatchFEMTools/FreeCADBatchFEMTools.py:812-830 | The names returned are distinct "FaceN" names in ascending N, each of a face inside the given face. |
| Locators.FindCompoundFilterBoundariesAll | ElmerWorkflows/FreeCADBatchFEMTools/FreeCADBatchFEMTools.py:812-830 | Without used names, every face inside is returned; when no containment test raises, "Faces not found" is raised exactly when there is none. |
| Locators.FindCompoundFilterBoundariesSkips | ElmerWorkflows/FreeCADBatchFEMTools/FreeCADBatchFEMTools.py:812-830 | With used names, no used name and no face nested in an earlier returned face is returned (see FindCompoundFilterBoundariesSeparate for the converse). |
| Locators.KeptBefore | ElmerWorkflows/FreeCADBatchFEMTools/FreeCADBatchFEMTools.py:812-828 | The faces kept by the scan with used names, among the first n, are in ascending order, each inside the given face. |
| Locators.KeptBeforeMember | ElmerWorkflows/FreeCADBatchFEMTools/FreeCADBatchFEMTools.py:812-828 | A face is kept exactly when it is inside the given face, its name is not used, and it is inside none of the faces kept before it. |
| Locators.InsideAcceptedTotal | ElmerWorkflows/FreeCADBatchFEMTools/FreeCADBatchFEMTools.py:820-825 | The loop over the already found faces raises nothing when no containment test against them raises. |
| Locators.ContainedFacesKept | ElmerWorkflows/FreeCADBatchFEMTools/FreeCADBatchFEMTools.py:813-828 | From any position, the scan with used names either raises "Face point not found" or returns exactly the faces KeptBefore keeps. |
| Locators.ContainedFacesKeptOk | ElmerWorkflows/FreeCADBatchFEMTools/FreeCADBatchFEMTools.py:813-828 | When no containment test raises, the scan with used names does not fail. |
| Locators.ContainedFacesKeptStep | ElmerWorkflows/FreeCADBatchFEMTools/FreeCADBatchFEMTools.py:813-827 | One turn of the scan moves from the faces kept before a face to the faces kept after it. |
| Locators.SeparateScan | ElmerWorkflows/FreeCADBatchFEMTools/FreeCADBatchFEMTools.py:812-830 | With used names the result is "Face point not found", the names of the kept faces when there are some, or "Faces not found" when there are none; the first only when a containment test raises. |
| Locators.KeptNone | ElmerWorkflows/FreeCADBatchFEMTools/FreeCADBatchFEMTools.py:812-830 | No face is kept exactly when every face fails the keep rule. |
| Locators.FindCompoundFilterBoundariesSeparate | ElmerWorkflows/FreeCADBatchFEMTools/FreeCADBatchFEMTools.py:800-830 | With used names, FaceN is returned exactly when face N is inside the given face, unused and inside no earlier returned face; when no test raises, "Faces not found" is raised exactly when no face is kept. |
| Locators.FindCompoundFilterSolidsSpec | ElmerWorkflows/FreeCADBatchFEMTools/FreeCADBatchFEMTools.py:832-848 | The names returned are distinct "SolidN" names in ascending N, exactly those of the solids that pass; "Solid point not found" arises only with point search. |
| Locators.FindCompoundFilterSolidsNotFound | ElmerWorkflows/FreeCADBatchFEMTools/FreeCADBatchFEMTools.py:846-848 | When no test raises, "Solids not found" is raised exactly when no solid passes. |
| Locators.ContainedSolidsTotal | ElmerWorkflows/FreeCADBatchFEMTools/FreeCADBatchFEMTools.py:843-845 | When no test raises, the solid scan succeeds. |
| Decimal.NatToStringRoundTrip | ElmerWorkflows/FreeCADBatchFEMTools/FreeCADBatchFEMTools.py:761 | The decimal text of a natural number reads back as that number. |
| Decimal.NatToString | ElmerWorkflows/FreeCADBatchFEMTools/FreeCADBatchFEMTools.py:761 | The decimal text of a number is never empty, and has at least two digits from 10 on. |
| Decimal.IntToString | ElmerWorkflows/FreeCADBatchFEMTools/FreeCADBatchFEMTools.py:1027 | The text of an integer is never empty and starts with '-' exactly when the integer is negative. |
| Decimal.FaceName | ElmerWorkflows/FreeCADBatchFEMTools/FreeCADBatchFEMTools.py:779 | The name of face n is "Face" followed by digits whose value is n. |
| Decimal.SolidName | ElmerWorkflows/FreeCADBatchFEMTools/FreeCADBatchFEMTools.py:797 | The name of solid n is "Solid" followed by digits whose value is n. |
| Decimal.IntToStringRoundTrip | ElmerWorkflows/FreeCADBatchFEMTools/FreeCADBatchFEMTools.py:1027 | str() of any integer, sign included, reads back as that integer. |
| Decimal.NatToStringInjective | ElmerWorkflows/FreeCADBatchFEMTools/FreeCADBatchFEMTools.py:761 | Different numbers get different decimal texts. |
| Decimal.FaceNameInjective | ElmerWorkflows/FreeCADBatchFEMTools/FreeCADBatchFEMTools.py:779 | Different face numbers get different "FaceN" names. |
| Decimal.SolidNameInjective | ElmerWorkflows/FreeCADBatchFEMTools/FreeCADBatchFEMTools.py:797 | Different solid numbers get different "SolidN" names. |
| Seqs.IndexOf | ElmerWorkflows/FreeCADBatchFEMTools/FreeCADBatchFEMTools.py:1152 | list.index: the first position holding the value; None, where Python raises ValueError, exactly when the value is absent. |
| Seqs.Without | ElmerWorkflows/FreeCADBatchFEMTools/FreeCADBatchFEMTools.py:1147 | The filtered list holds no copy of the value, only elements of the list, and every element that differs from the value. |
| Seqs.WithoutMultiset | ElmerWorkflows/FreeCADBatchFEMTools/FreeCADBatchFEMTools.py:1147 | Filtering removes exactly the occurrences of the value and keeps every other element with its count. |
| Registry.MeshSizeOfRule | ElmerWorkflows/FreeCADBatchFEMTools/FreeCADBatchFEMTools.py:908-916 | The mesh size is the entity's own entry, else the 'mesh size' entry, else None, and None without mesh_sizes. |
| Registry.MeshSizeOf | ElmerWorkflows/FreeCADBatchFEMTools/FreeCADBatchFEMTools.py:908-916 | A size is found only with mesh_sizes given, through the entity's own entry or the 'mesh size' entry, and the entity's own entry wins. |
| Registry.EntityOf | ElmerWorkflows/FreeCADBatchFEMTools/FreeCADBatchFEMTools.py:914-916 | The entity keeps the given name and geometric object, and has a mesh size only when mesh_sizes was given. |
| Registry.MeshSizeOfFallbackOnly | ElmerWorkflows/FreeCADBatchFEMTools/FreeCADBatchFEMTools.py:908-916 | A mesh_sizes holding only 'mesh size' gives every name that size. |
| Registry.EntityList.constructor | ElmerWorkflows/FreeCADBatchFEMTools/FreeCADBatchFEMTools.py:891-916 | A new entity list is empty. |
| Registry.EntityList.Add | ElmerWorkflows/FreeCADBatchFEMTools/FreeCADBatchFEMTools.py:891-916 | Exactly one entity is appended, carrying the looked-up mesh size; the earlier entities are untouched. |
| Registry.EntityList.AddGeomObjects | ElmerWorkflows/FreeCADBatchFEMTools/FreeCADBatchFEMTools.py:918-923 | One entity per geometric object is appended, in order and under the same name; the entities already present stay. |
| Registry.GetEntitylistFaces | ElmerWorkflows/FreeCADBatchFEMTools/FreeCADBatchFEMTools.py:932-943 | The geometric objects of the entities, one per entity, in order. |
| Registry.PyIndex | ElmerWorkflows/FreeCADBatchFEMTools/FreeCADBatchFEMTools.py:986-990 | A Python index is valid exactly in the range -n..n-1; the position read is the index itself or, for a negative index, the index plus n. |
| Registry.PyIndexWraps | ElmerWorkflows/FreeCADBatchFEMTools/FreeCADBatchFEMTools.py:986-990 | Index k-n reads the same element as index k. |
| Registry.PickFacesFromGeometry | ElmerWorkflows/FreeCADBatchFEMTools/FreeCADBatchFEMTools.py:967-991 | One entity per pick, in order, on the face its index selects; IndexError exactly when some index is out of range, reported for the first such pick. |
| EntitiesDicts.EntitiesDict.constructor | ElmerWorkflows/FreeCADBatchFEMTools/FreeCADBatchFEMTools.py:945-965 | The dictionary holds the given name, entity lists and main object, and the transfinite parameters when given. |
| EntitiesDicts.MergedPart | ElmerWorkflows/FreeCADBatchFEMTools/FreeCADBatchFEMTools.py:1046-1055 | One merged entity per input entity, in order, each being that entity's merged form. |
| EntitiesDicts.FilledAll | ElmerWorkflows/FreeCADBatchFEMTools/FreeCADBatchFEMTools.py:1047 | Each entity keeps its name and geometric object; a None mesh size becomes the default and any other size stays. |
| EntitiesDicts.FilledAllIdempotent | ElmerWorkflows/FreeCADBatchFEMTools/FreeCADBatchFEMTools.py:1047 | Writing the default back a second time changes nothing. |
| EntitiesDicts.MergedPartFilled | ElmerWorkflows/FreeCADBatchFEMTools/FreeCADBatchFEMTools.py:1046-1055 | The merged entities are the same whether or not the default was already written back. |
| EntitiesDicts.MergedEntity | ElmerWorkflows/FreeCADBatchFEMTools/FreeCADBatchFEMTools.py:1047-1055 | A merged name is prefixed with the dictionary name and '_' exactly when asked; the geometric object is kept; the mesh size is the entity's own, or the default when it had none. |
| EntitiesDicts.MergedList | ElmerWorkflows/FreeCADBatchFEMTools/FreeCADBatchFEMTools.py:1045-1055 | The merged list holds exactly as many entities as all input dictionaries together. |
| EntitiesDicts.MergedListFrom | ElmerWorkflows/FreeCADBatchFEMTools/FreeCADBatchFEMTools.py:1045-1055 | Every merged entity is the merge of some entity of some input dictionary. |
| EntitiesDicts.TransfiniteOf | ElmerWorkflows/FreeCADBatchFEMTools/FreeCADBatchFEMTools.py:1056-1057 | Only the non-empty transfinite parameter dicts of the inputs are collected, none more than there are inputs. |
| EntitiesDicts.MergedListAppend | ElmerWorkflows/FreeCADBatchFEMTools/FreeCADBatchFEMTools.py:1039-1061 | The merge of several dictionaries is the merges of each, concatenated in order. |
| EntitiesDicts.MergedListOne | ElmerWorkflows/FreeCADBatchFEMTools/FreeCADBatchFEMTools.py:1039-1061 | The merge of one dictionary is its merged entities. |
| EntitiesDicts.DefaultPrefixesRule | ElmerWorkflows/FreeCADBatchFEMTools/FreeCADBatchFEMTools.py:1039-1040 | Without add_prefixes, face names become dictionary name + '_' + name and solid names stay bare. |
| EntitiesDicts.FillAndList | ElmerWorkflows/FreeCADBatchFEMTools/FreeCADBatchFEMTools.py:1046-1050 | The inner loop returns the list with the default written back and the merged entities it adds, in order. |
| EntitiesDicts.FillOne | ElmerWorkflows/FreeCADBatchFEMTools/FreeCADBatchFEMTools.py:1047-1050 | One entity gets the default filled in, and its merged entity is appended to the output list. |
| EntitiesDicts.MergeDict | ElmerWorkflows/FreeCADBatchFEMTools/FreeCADBatchFEMTools.py:1046-1055 | A dictionary, original or already filled in, ends with the default written back into its faces and solids; its merged entities are appended. |
| EntitiesDicts.MergeAt | ElmerWorkflows/FreeCADBatchFEMTools/FreeCADBatchFEMTools.py:1046-1055 | Merging the dictionary at position i extends the written-back prefix by one and appends its merged faces and solids. |
| EntitiesDicts.MergeEntitiesDicts | ElmerWorkflows/FreeCADBatchFEMTools/FreeCADBatchFEMTools.py:1029-1061 | The result carries the given name, the merged faces and solids of all dictionaries in order, and the non-empty transfinite parameters in order; every input entity ends with the default in place of a None mesh size. |
| EntitiesDicts.MergeLoop | ElmerWorkflows/FreeCADBatchFEMTools/FreeCADBatchFEMTools.py:1045-1057 | The loop over the dictionaries yields the merged lists of all their original parts and the non-empty transfinite parameters, and writes every default back. |
| EntitiesDicts.MergeStep | ElmerWorkflows/FreeCADBatchFEMTools/FreeCADBatchFEMTools.py:1046-1057 | One pass extends the merged lists and the collected transfinite parameters by those of dictionary i. |
| Transfinite.LineParams.constructor | ElmerWorkflows/FreeCADBatchFEMTools/FreeCADBatchFEMTools.py:1016-1027 | The edges and comment are kept; the point count and progression are stored as decimal text that reads back as the given integers; 'lines' is absent. |
| Transfinite.WithDirectionsKeys | ElmerWorkflows/FreeCADBatchFEMTools/FreeCADBatchFEMTools.py:1008-1011 | Before 'line_params', the dict holds 'volume', 'surface_list' and the direction keys; the directions override the two fixed keys. |
| Transfinite.WithDirections | ElmerWorkflows/FreeCADBatchFEMTools/FreeCADBatchFEMTools.py:1008-1011 | The parameters hold the volume, the surface list and every direction key. |
| Transfinite.CreateTransfiniteMeshParamDict | ElmerWorkflows/FreeCADBatchFEMTools/FreeCADBatchFEMTools.py:993-1014 | The parameters hold the volume, the surface list and every direction key, and the given non-empty line parameters under 'line_params'. |
| Transfinite.CreateTransfiniteMeshParamDictKeys | ElmerWorkflows/FreeCADBatchFEMTools/FreeCADBatchFEMTools.py:993-1014 | The keys are exactly 'volume', 'surface_list', the direction keys and 'line_params' for a non-empty line list, with each key's value as stated. |
| Transfinite.DirectionOverwritesVolume | ElmerWorkflows/FreeCADBatchFEMTools/FreeCADBatchFEMTools.py:1008-1011 | A direction named 'volume' replaces the volume name. |
| Transfinite.LineParamsOf | ElmerWorkflows/FreeCADBatchFEMTools/FreeCADBatchFEMTools.py:1114 | Iterating 'line_params' yields the line dicts of a line list, and fails exactly for a non-empty string or list of names. |
| Transfinite.ResolveLines | ElmerWorkflows/FreeCADBatchFEMTools/FreeCADBatchFEMTools.py:1115-1118 | One line dict gets the edge numbers of all its edges exactly when every edge is found; otherwise it is left as it was. |
| Transfinite.EdgeLines | ElmerWorkflows/FreeCADBatchFEMTools/FreeCADBatchFEMTools.py:1115-1117 | "Edge not found" is raised exactly when some edge matches no compound-filter edge; otherwise each edge gets the number of a compound-filter edge it matches. |
| Transfinite.ResolveAll | ElmerWorkflows/FreeCADBatchFEMTools/FreeCADBatchFEMTools.py:1114-1118 | The line dicts of one mesh parameter dict succeed exactly when all their edges are found, and then each holds its edge numbers. |
| Transfinite.FindLinesToTransfiniteMeshParams | ElmerWorkflows/FreeCADBatchFEMTools/FreeCADBatchFEMTools.py:1095-1118 | The pass succeeds exactly when every line of every mesh parameter dict resolves, and then every line dict holds the edge numbers of its edges. |
| FaceLists.FirstMatch | ElmerWorkflows/FreeCADBatchFEMTools/FreeCADBatchFEMTools.py:195-197 | The position returned holds a face that faces_are_same accepts and no earlier face is accepted; None exactly when no face is. |
| FaceLists.IsFaceInList | ElmerWorkflows/FreeCADBatchFEMTools/FreeCADBatchFEMTools.py:170-180 | is_face_in_list is true exactly when remove_compare_face_from_list would find a match. |
| FaceLists.Pop | ElmerWorkflows/FreeCADBatchFEMTools/FreeCADBatchFEMTools.py:197 | list.pop(i) shortens the list by one, loses exactly the element at i and keeps the others in order. |
| FaceLists.RemoveFirstSpec | ElmerWorkflows/FreeCADBatchFEMTools/FreeCADBatchFEMTools.py:182-198 | Nothing is removed exactly when no face matches; otherwise the list is one shorter and the removed face is the first matching one, the others keeping their order. |
| FaceLists.RemoveFirst | ElmerWorkflows/FreeCADBatchFEMTools/FreeCADBatchFEMTools.py:182-198 | Without a match the list is unchanged; with one, the removed face matches and the list loses exactly that face. |
| FaceLists.RemoveAll | ElmerWorkflows/FreeCADBatchFEMTools/FreeCADBatchFEMTools.py:200-214 | One answer per compared face, and the list never grows. |
| FaceLists.RemoveAllMatches | ElmerWorkflows/FreeCADBatchFEMTools/FreeCADBatchFEMTools.py:200-214 | There is one result per compare face, and each removed face matches its compare face. |
| FaceLists.RemoveAllKeepsFaces | ElmerWorkflows/FreeCADBatchFEMTools/FreeCADBatchFEMTools.py:200-214 | The faces left and the faces removed together are the original list as a multiset. |
| FaceLists.FaceList.constructor | ElmerWorkflows/FreeCADBatchFEMTools/FreeCADBatchFEMTools.py:182-198 | A face list holds the given faces. |
| FaceLists.FaceList.RemoveCompareFace | ElmerWorkflows/FreeCADBatchFEMTools/FreeCADBatchFEMTools.py:182-198 | The in-place scan pops and returns the first matching face, or returns None and leaves the list, as RemoveFirst says. |
| FaceLists.FaceList.RemoveCompareFaces | ElmerWorkflows/FreeCADBatchFEMTools/FreeCADBatchFEMTools.py:200-214 | Each compare face in turn removes its first match from what is left, as RemoveAll says. |
| Ansi.Erase | ElmerWorkflows/FreeCADBatchFEMTools/FreeCADBatchFEMTools.py:613-621 | Removing a code never lengthens the text. |
| Ansi.EraseDropsOnly | ElmerWorkflows/FreeCADBatchFEMTools/FreeCADBatchFEMTools.py:613-621 | Removing a code only drops characters. |
| Ansi.RemoveAnsiColorEscapeCodesSpec | ElmerWorkflows/FreeCADBatchFEMTools/FreeCADBatchFEMTools.py:613-621 | The result is never longer and holds no character the message lacks; a message without an escape character comes back unchanged. |
| Ansi.RemoveAnsiColorEscapeCodes | ElmerWorkflows/FreeCADBatchFEMTools/FreeCADBatchFEMTools.py:613-621 | Removing the colour codes never lengthens the message. |
| Ansi.RemovesColours | ElmerWorkflows/FreeCADBatchFEMTools/FreeCADBatchFEMTools.py:613-621 | A bold red line ending in a reset comes back as its plain text. |
| Ansi.RemovalCanFormCode | ElmerWorkflows/FreeCADBatchFEMTools/FreeCADBatchFEMTools.py:613-621 | Removing the reset code can join an escape into a bold code that survives; a second call then changes the text again, so the removal is not idempotent. |
| Reconciler.NewGroup | ElmerWorkflows/FreeCADBatchFEMTools/FreeCADBatchFEMTools.py:1089-1092 | A new group is labelled with the name, has no References and has the given mesh size. |
| Reconciler.MergedName | ElmerWorkflows/FreeCADBatchFEMTools/FreeCADBatchFEMTools.py:1144 | "<old>_<entity>" ends in '_' followed by the entity name, so it is longer than the entity name. |
| Reconciler.Unowned | ElmerWorkflows/FreeCADBatchFEMTools/FreeCADBatchFEMTools.py:1170-1171 | A face is among the unowned faces exactly when it is given and has no owner. |
| Reconciler.MergeStep | ElmerWorkflows/FreeCADBatchFEMTools/FreeCADBatchFEMTools.py:1140-1176 | One turn keeps the reconciler state well formed, only grows the pool (mesh sizes and object names fixed), appends to the group and name lists together, keeps a given group, and fails only for an owned face where list.index raises. |
| Reconciler.Rename | ElmerWorkflows/FreeCADBatchFEMTools/FreeCADBatchFEMTools.py:1141-1153 | The rename keeps the group and name lists' lengths, the owner map, the found list, the given group and the filtered faces; each name entry stays or becomes a merged name; it fails only where list.index raises. |
| Reconciler.Split | ElmerWorkflows/FreeCADBatchFEMTools/FreeCADBatchFEMTools.py:1154-1169 | The split keeps the state well formed, the found list, the given group and the filtered faces; the owner map keeps its keys and every other face's owner; the pool and lists only grow, and each name entry is old or a merged name. |
| Reconciler.TakeUnowned | ElmerWorkflows/FreeCADBatchFEMTools/FreeCADBatchFEMTools.py:1170-1176 | The unowned face is filtered and mapped to the entity's group; a given group is kept and the pool unchanged; otherwise one new group with the entity's name and mesh size is appended. |
| Reconciler.MergeStepFacts | ElmerWorkflows/FreeCADBatchFEMTools/FreeCADBatchFEMTools.py:1140-1176 | After one turn the face is owned, other owners stay, the found list stays, and the filtered faces only grow at their end. |
| Reconciler.MergeAll | ElmerWorkflows/FreeCADBatchFEMTools/FreeCADBatchFEMTools.py:1139-1176 | The whole loop keeps the state well formed, only grows the pool, appends to the two lists together, keeps a given group, and fails only where list.index raises. |
| Reconciler.MergeAllFacts | ElmerWorkflows/FreeCADBatchFEMTools/FreeCADBatchFEMTools.py:1139-1176 | Over the whole loop every face gets an owner, other owners stay, the found list stays, and the filtered faces grow only at their end. |
| Reconciler.MergeTrace | ElmerWorkflows/FreeCADBatchFEMTools/FreeCADBatchFEMTools.py:1139-1176 | The loop's states start at the given state and are at most one more than the faces. |
| Reconciler.MergeTraceStep | ElmerWorkflows/FreeCADBatchFEMTools/FreeCADBatchFEMTools.py:1139-1176 | Each state of the trace is one turn on from the one before it, and the trace stops at the first failing turn. |
| Reconciler.MergeTraceResult | ElmerWorkflows/FreeCADBatchFEMTools/FreeCADBatchFEMTools.py:1139-1178 | The loop succeeds exactly when the trace reaches the end of the faces, and it ends in the trace's last state. |
| Reconciler.MergeBoundaries | ElmerWorkflows/FreeCADBatchFEMTools/FreeCADBatchFEMTools.py:1120-1178 | merge_boundaries keeps the state well formed, only grows the pool, appends to the two lists together, keeps a given group, and fails only where list.index raises. |
| Reconciler.SetRefs | ElmerWorkflows/FreeCADBatchFEMTools/FreeCADBatchFEMTools.py:1214 | Setting References keeps the state well formed, every group's mesh size and object name, and the two lists. |
| Reconciler.ApplyEntity | ElmerWorkflows/FreeCADBatchFEMTools/FreeCADBatchFEMTools.py:1198-1232 | One entity keeps the state well formed, only grows the pool, appends to the group list and name list together, and fails only where list.index raises. |
| Reconciler.ApplyOldName | ElmerWorkflows/FreeCADBatchFEMTools/FreeCADBatchFEMTools.py:1199-1214 | A repeated name keeps the state well formed, only grows the pool, appends to the two lists together, and fails only where list.index raises. |
| Reconciler.ApplyNewName | ElmerWorkflows/FreeCADBatchFEMTools/FreeCADBatchFEMTools.py:1215-1231 | A new name keeps the state well formed, only grows the pool, appends to the two lists together, and fails only where list.index raises. |
| Reconciler.ApplyAll | ElmerWorkflows/FreeCADBatchFEMTools/FreeCADBatchFEMTools.py:1198-1232 | The fold over resolved entities keeps the state well formed, only grows the pool, and appends to the two lists together. |
| Reconciler.Surfaces | ElmerWorkflows/FreeCADBatchFEMTools/FreeCADBatchFEMTools.py:1232 | The returned groups are one per entry of the group list. |
| Reconciler.RenameStep | ElmerWorkflows/FreeCADBatchFEMTools/FreeCADBatchFEMTools.py:1141-1153 | A single-face owner is relabelled "<old>_<entity>", and the first name-list entry holding the old label is rewritten (ValueError when there is none); References, the ownership map and the group list stay. The new label is not checked for uniqueness. |
| Reconciler.SplitStep | ElmerWorkflows/FreeCADBatchFEMTools/FreeCADBatchFEMTools.py:1154-1169 | The owner's References lose exactly that face. The face goes to the group listed as "<old>_<entity>", where the owner map is not updated, or to a new group with the entity's mesh size; only the new group enters the owner map, the group list and the name list. |
| Reconciler.UnownedStep | ElmerWorkflows/FreeCADBatchFEMTools/FreeCADBatchFEMTools.py:1170-1176 | An unowned face joins the filtered faces and is mapped to the entity's group, which is made with the entity's name and mesh size only when none was given. |
| Reconciler.UnownedSameOn | ElmerWorkflows/FreeCADBatchFEMTools/FreeCADBatchFEMTools.py:1170-1176 | Which faces are unowned depends only on the owners of those faces. |
| Reconciler.MergeFiltered | ElmerWorkflows/FreeCADBatchFEMTools/FreeCADBatchFEMTools.py:1170-1178 | Over distinct faces, the filtered tuple is exactly the faces that were unowned at the call, in input order. |
| Reconciler.MergeUnownedOwner | ElmerWorkflows/FreeCADBatchFEMTools/FreeCADBatchFEMTools.py:1170-1178 | Over distinct faces, every face that was unowned ends up owned by the entity's group. |
| Reconciler.MergeNames | ElmerWorkflows/FreeCADBatchFEMTools/FreeCADBatchFEMTools.py:1141-1169 | Every name-list entry after the merge is the entry that was there or a merged name "<old>_<entity>". |
| Reconciler.OwnGroupIntactStep | ElmerWorkflows/FreeCADBatchFEMTools/FreeCADBatchFEMTools.py:1170-1176 | One turn keeps the entity's own new group unlisted, labelled with the entity's name and without References. |
| Reconciler.MergeOwnGroupIntact | ElmerWorkflows/FreeCADBatchFEMTools/FreeCADBatchFEMTools.py:1139-1178 | The whole loop keeps the entity's own new group intact. |
| Reconciler.MergeOwnGroup | ElmerWorkflows/FreeCADBatchFEMTools/FreeCADBatchFEMTools.py:1170-1178 | Without a given group, the entity's group is made exactly when some face is unowned: once, new, unlisted, labelled and sized as the entity. |
| Reconciler.MergeOwnGroupMade | ElmerWorkflows/FreeCADBatchFEMTools/FreeCADBatchFEMTools.py:1170-1178 | Without a given group, the entity's group exists only together with a filtered face, and carries the entity's mesh size and object name. |
| Reconciler.FoundList | ElmerWorkflows/FreeCADBatchFEMTools/FreeCADBatchFEMTools.py:1203-1224 | all_found_cface_names grows by the resolved faces once for a repeated name in separate mode, twice for a new name in separate mode, once for a new name otherwise, and not at all for a repeated name otherwise. |
| Reconciler.NewNameAllOwned | ElmerWorkflows/FreeCADBatchFEMTools/FreeCADBatchFEMTools.py:1215-1231 | A new name whose faces all have owners makes no group of its own and does not enter the name list. |
| Reconciler.RepeatedName | ElmerWorkflows/FreeCADBatchFEMTools/FreeCADBatchFEMTools.py:1199-1214 | For a repeated name with an unowned face, the group's References become those read before the merge followed by the filtered faces, each owned by that group. |
| Reconciler.NewNameGroup | ElmerWorkflows/FreeCADBatchFEMTools/FreeCADBatchFEMTools.py:1215-1231 | A new name with an unowned face gets one group, labelled with its name, holding and owning exactly those faces, listed last under its name. |
| Reconciler.ScenarioRename | ElmerWorkflows/FreeCADBatchFEMTools/FreeCADBatchFEMTools.py:1141-1153 | Two single-face entities "A" and "B" on the same face end as one group "A_B" holding that face. |
| Reconciler.ScenarioRenameFirst | ElmerWorkflows/FreeCADBatchFEMTools/FreeCADBatchFEMTools.py:1215-1231 | The first entity's face has no owner, so its own group is made, listed and given the face. |
| Reconciler.ScenarioRenameSecond | ElmerWorkflows/FreeCADBatchFEMTools/FreeCADBatchFEMTools.py:1141-1153 | The second entity finds a single-face owner and renames it "A_B". |
| Reconciler.ScenarioStaleOwner | ElmerWorkflows/FreeCADBatchFEMTools/FreeCADBatchFEMTools.py:1158-1162 | After "B" splits Face1 off "A" into the listed group "A_B", Face1 is still mapped to "A"; "C" then splits it again into "A_C", so Face1 ends in both "A_B" and "A_C". |
| Reconciler.StaleChain | ElmerWorkflows/FreeCADBatchFEMTools/FreeCADBatchFEMTools.py:1198-1232 | The four entities of the stale-owner scenario reach its final state. |
| Reconciler.StaleFromSecond | ElmerWorkflows/FreeCADBatchFEMTools/FreeCADBatchFEMTools.py:1198-1232 | The last three entities of the stale-owner scenario reach its final state. |
| Reconciler.StaleFromThird | ElmerWorkflows/FreeCADBatchFEMTools/FreeCADBatchFEMTools.py:1198-1232 | The last two entities of the stale-owner scenario reach its final state. |
| Reconciler.StaleFirst | ElmerWorkflows/FreeCADBatchFEMTools/FreeCADBatchFEMTools.py:1215-1231 | The new name "A" creates its group on Face1 and Face2. |
| Reconciler.StaleSecond | ElmerWorkflows/FreeCADBatchFEMTools/FreeCADBatchFEMTools.py:1215-1231 | The new name "A_B" creates its group on Face3. |
| Reconciler.StaleThird | ElmerWorkflows/FreeCADBatchFEMTools/FreeCADBatchFEMTools.py:1154-1162 | "B" on Face1 removes Face1 from "A" and appends it to the listed "A_B", leaving the owner map as it was. |
| Reconciler.StaleFourth | ElmerWorkflows/FreeCADBatchFEMTools/FreeCADBatchFEMTools.py:1163-1169 | "C" on Face1, still owned by "A", creates the new group "A_C" and maps Face1 to it. |
| Reconciler.StaleThirdSplit | ElmerWorkflows/FreeCADBatchFEMTools/FreeCADBatchFEMTools.py:1154-1162 | Face1 leaves "A", which keeps Face2, for the listed group "A_B"; the ownership map is unchanged. |
| Reconciler.StaleFourthSplit | ElmerWorkflows/FreeCADBatchFEMTools/FreeCADBatchFEMTools.py:1163-1169 | Face1, still mapped to "A", leaves it for a new group "A_C", which it is then mapped to. |
| Reconciler.OwnAll | ElmerWorkflows/FreeCADBatchFEMTools/FreeCADBatchFEMTools.py:1176 | The ownership map with every given face mapped to the group and every other owner kept. |
| Reconciler.TakeAllUnowned | ElmerWorkflows/FreeCADBatchFEMTools/FreeCADBatchFEMTools.py:1170-1176 | With a group present, distinct unowned faces are all taken by it and filtered, in order. |
| Reconciler.MergeFresh | ElmerWorkflows/FreeCADBatchFEMTools/FreeCADBatchFEMTools.py:1120-1178 | Without a given group, distinct unowned faces make one new group, unlisted, owning all of them. |
| Reconciler.FreshEntity | ElmerWorkflows/FreeCADBatchFEMTools/FreeCADBatchFEMTools.py:1215-1231 | A new name with distinct unowned faces adds exactly one group, listed last under its name, holding and owning exactly those faces. |
| Reconciler.FreshStep | ElmerWorkflows/FreeCADBatchFEMTools/FreeCADBatchFEMTools.py:1198-1232 | Applying the first of fresh entities adds its group and leaves the rest fresh. |
| Reconciler.ApplyAllFresh | ElmerWorkflows/FreeCADBatchFEMTools/FreeCADBatchFEMTools.py:1198-1232 | Fresh entities each add their own group, in order. |
| Reconciler.DisjointEntitiesPartition | ElmerWorkflows/FreeCADBatchFEMTools/FreeCADBatchFEMTools.py:1198-1232 | Entities with distinct names and disjoint, unowned faces get one group each, labelled with the name and holding exactly its faces, so that each face lies in exactly one returned group. |
| MeshGroups.MeshGroup.constructor | ElmerWorkflows/FreeCADBatchFEMTools/FreeCADBatchFEMTools.py:1073-1093 | A new group object holds the value of a new group: the label and mesh size given, no References. |
| MeshGroups.MeshRegion.constructor | ElmerWorkflows/FreeCADBatchFEMTools/FreeCADBatchFEMTools.py:1310 | A new region object has the given name and element length and no References yet. |
| Boundaries.RenameOwner | ElmerWorkflows/FreeCADBatchFEMTools/FreeCADBatchFEMTools.py:1141-1153 | The in-place rename mirrors Reconciler.Rename, and fails exactly where it fails. |
| Boundaries.Relabel | ElmerWorkflows/FreeCADBatchFEMTools/FreeCADBatchFEMTools.py:1150 | Setting the owner's Label changes that group's label in the abstract state and nothing else. |
| Boundaries.AppendRef | ElmerWorkflows/FreeCADBatchFEMTools/FreeCADBatchFEMTools.py:1160-1162 | Appending to a listed group's References changes only that group's References. |
| Boundaries.NewOwner | ElmerWorkflows/FreeCADBatchFEMTools/FreeCADBatchFEMTools.py:1165-1169 | A new group object owns the face and is listed under its name when asked; nothing else changes. |
| Boundaries.DropRef | ElmerWorkflows/FreeCADBatchFEMTools/FreeCADBatchFEMTools.py:1146-1156 | The owner's References lose exactly that face; nothing else changes. |
| Boundaries.SplitOff | ElmerWorkflows/FreeCADBatchFEMTools/FreeCADBatchFEMTools.py:1154-1169 | The in-place split mirrors Reconciler.Split. |
| Boundaries.SplitToListed | ElmerWorkflows/FreeCADBatchFEMTools/FreeCADBatchFEMTools.py:1158-1162 | Appending the face to the listed merged group mirrors the split. |
| Boundaries.SplitToNew | ElmerWorkflows/FreeCADBatchFEMTools/FreeCADBatchFEMTools.py:1163-1169 | Putting the face in a new listed group mirrors the split. |
| Boundaries.TakeFace | ElmerWorkflows/FreeCADBatchFEMTools/FreeCADBatchFEMTools.py:1170-1176 | The in-place unowned branch mirrors Reconciler.TakeUnowned. |
| Boundaries.MergeFace | ElmerWorkflows/FreeCADBatchFEMTools/FreeCADBatchFEMTools.py:1140-1176 | One turn on the objects succeeds exactly when Reconciler.MergeStep does, and then mirrors it. |
| Boundaries.MergeLoop | ElmerWorkflows/FreeCADBatchFEMTools/FreeCADBatchFEMTools.py:1139-1176 | The loop on the objects succeeds exactly when the trace runs to the end, and then mirrors its last state. |
| Boundaries.MergeBoundaries | ElmerWorkflows/FreeCADBatchFEMTools/FreeCADBatchFEMTools.py:1120-1178 | merge_boundaries on the objects succeeds exactly when Reconciler.MergeBoundaries does, and then mirrors its result. |
| BoundaryGroups.FaceTurn | ElmerWorkflows/FreeCADBatchFEMTools/FreeCADBatchFEMTools.py:1198-1231 | One entity keeps the state well formed and grows the group list and name list together; its only errors are the locator's and list.index's. |
| BoundaryGroups.FoldFaces | ElmerWorkflows/FreeCADBatchFEMTools/FreeCADBatchFEMTools.py:1198-1232 | The fold keeps the state well formed and grows the two lists together; its only errors are the locator's and list.index's. |
| BoundaryGroups.ResolveAll | ElmerWorkflows/FreeCADBatchFEMTools/FreeCADBatchFEMTools.py:1208 | One resolved entry per entity, in order, holding its name, mesh size and located faces; an error only where some entity fails to resolve. |
| BoundaryGroups.FoldFacesResolved | ElmerWorkflows/FreeCADBatchFEMTools/FreeCADBatchFEMTools.py:1198-1232 | Without separate boundaries, the fold is the reconciler applied to the resolved entities, and succeeds only when all resolve. |
| BoundaryGroups.SeparateTurnFresh | ElmerWorkflows/FreeCADBatchFEMTools/FreeCADBatchFEMTools.py:1203-1224 | In separate mode the found list only grows at its end, and by faces it did not hold before. |
| BoundaryGroups.FindBoundariesPartition | ElmerWorkflows/FreeCADBatchFEMTools/FreeCADBatchFEMTools.py:1180-1232 | Entities resolving to distinct names and disjoint unowned faces give one group per entity, labelled with its name and holding exactly its faces. |
| BoundaryGroups.SetGroupRefs | ElmerWorkflows/FreeCADBatchFEMTools/FreeCADBatchFEMTools.py:1214 | Setting one group's References changes nothing else. |
| BoundaryGroups.OldName | ElmerWorkflows/FreeCADBatchFEMTools/FreeCADBatchFEMTools.py:1199-1214 | A repeated name on the objects succeeds exactly when Reconciler.ApplyOldName does, and then mirrors it. |
| BoundaryGroups.MergeOld | ElmerWorkflows/FreeCADBatchFEMTools/FreeCADBatchFEMTools.py:1203-1212 | For a repeated name, the found list is extended in separate mode and the merge mirrors Reconciler.MergeBoundaries on the listed group. |
| BoundaryGroups.AddFiltered | ElmerWorkflows/FreeCADBatchFEMTools/FreeCADBatchFEMTools.py:1213-1214 | With filtered faces, the group's References become the faces read before the merge followed by the filtered ones. |
| BoundaryGroups.NewName | ElmerWorkflows/FreeCADBatchFEMTools/FreeCADBatchFEMTools.py:1215-1231 | A new name on the objects succeeds exactly when Reconciler.ApplyNewName does, and then mirrors it. |
| BoundaryGroups.MergeNew | ElmerWorkflows/FreeCADBatchFEMTools/FreeCADBatchFEMTools.py:1217-1227 | For a new name, the found list is extended (twice in separate mode) and the merge mirrors Reconciler.MergeBoundaries without a group. |
| BoundaryGroups.ListFiltered | ElmerWorkflows/FreeCADBatchFEMTools/FreeCADBatchFEMTools.py:1228-1231 | With filtered faces, the new group gets them as References and is listed under the name; otherwise nothing changes. |
| BoundaryGroups.ListNewGroup | ElmerWorkflows/FreeCADBatchFEMTools/FreeCADBatchFEMTools.py:1229-1231 | The new group gets its References and is appended to both lists. |
| BoundaryGroups.AddFaceEntity | ElmerWorkflows/FreeCADBatchFEMTools/FreeCADBatchFEMTools.py:1198-1231 | One entity on the objects succeeds exactly when FaceTurn does, and then mirrors it. |
| BoundaryGroups.FoldFacesAt | ElmerWorkflows/FreeCADBatchFEMTools/FreeCADBatchFEMTools.py:1198 | The fold from position i is one turn on entity i, then the fold from i + 1. |
| BoundaryGroups.ListedGroups | ElmerWorkflows/FreeCADBatchFEMTools/FreeCADBatchFEMTools.py:1232 | The listed group objects hold the values of the state's group list. |
| BoundaryGroups.FindBoundaries | ElmerWorkflows/FreeCADBatchFEMTools/FreeCADBatchFEMTools.py:1180-1232 | find_boundaries_with_entities_dict succeeds exactly when FoldFaces does, and then returns new group objects holding its groups, in order. |
| SolidGroups.AddSolids | ElmerWorkflows/FreeCADBatchFEMTools/FreeCADBatchFEMTools.py:1249-1261 | A repeated name keeps the names and sizes; a new name is appended with its size and solids; the lists stay parallel and duplicate-free. |
| SolidGroups.SolidTurn | ElmerWorkflows/FreeCADBatchFEMTools/FreeCADBatchFEMTools.py:1300-1313 | One solid keeps the lists parallel; its only errors are those of find_compound_filter_solids. |
| SolidGroups.SolidFold | ElmerWorkflows/FreeCADBatchFEMTools/FreeCADBatchFEMTools.py:1248-1262 | The fold keeps the lists parallel; its only errors are those of find_compound_filter_solids. |
| SolidGroups.Kept | ElmerWorkflows/FreeCADBatchFEMTools/FreeCADBatchFEMTools.py:1300-1301 | Exactly the entities whose names are not ignored are kept. |
| SolidGroups.ResolveSolids | ElmerWorkflows/FreeCADBatchFEMTools/FreeCADBatchFEMTools.py:1253 | One resolved entry per entity, in order, holding its name, mesh size and located solids; an error is that of some entity. |
| SolidGroups.SolidFoldResolved | ElmerWorkflows/FreeCADBatchFEMTools/FreeCADBatchFEMTools.py:1299-1313 | The fold is the kept entities resolved, then added; it raises exactly where their resolution raises. |
| SolidGroups.FirstNames | ElmerWorkflows/FreeCADBatchFEMTools/FreeCADBatchFEMTools.py:1249-1261 | The distinct names of the resolved entities, each at its first appearance. |
| SolidGroups.CollectSpec | ElmerWorkflows/FreeCADBatchFEMTools/FreeCADBatchFEMTools.py:1248-1262 | One object per distinct name, in first-appearance order, sized by the first entity of that name and referencing the solids of all its entities, concatenated in order. |
| SolidGroups.SolidFoldSpec | ElmerWorkflows/FreeCADBatchFEMTools/FreeCADBatchFEMTools.py:1299-1313 | The name list is duplicate-free, holds no ignored name and lists the names in first-appearance order; sizes and References are as CollectSpec says; it fails exactly when resolution fails. |
| SolidGroups.KeptNames | ElmerWorkflows/FreeCADBatchFEMTools/FreeCADBatchFEMTools.py:1300-1301 | Names of entities that avoid the ignore list avoid it after resolution too. |
| SolidGroups.SolidFoldAt | ElmerWorkflows/FreeCADBatchFEMTools/FreeCADBatchFEMTools.py:1248 | The fold from position i is one turn on solid i, then the fold from i + 1. |
| SolidGroups.SetBodyRefs | ElmerWorkflows/FreeCADBatchFEMTools/FreeCADBatchFEMTools.py:1255 | Setting one group's References changes nothing else. |
| SolidGroups.BodyGroup | ElmerWorkflows/FreeCADBatchFEMTools/FreeCADBatchFEMTools.py:1258-1260 | The mesh group of a body is labelled with its name, named name + "_group", and carries its mesh size and compound solids. |
| SolidGroups.AddBody | ElmerWorkflows/FreeCADBatchFEMTools/FreeCADBatchFEMTools.py:1249-1261 | One solid on group objects succeeds exactly when SolidTurn does, and then mirrors it. |
| SolidGroups.FindBodies | ElmerWorkflows/FreeCADBatchFEMTools/FreeCADBatchFEMTools.py:1234-1262 | find_bodies_with_entities_dict succeeds exactly when SolidFold does, and then returns one new group per name, holding the fold's values. |
| SolidGroups.SetRegionRefs | ElmerWorkflows/FreeCADBatchFEMTools/FreeCADBatchFEMTools.py:1307 | Setting one region's References changes nothing else. |
| SolidGroups.BodyRegion | ElmerWorkflows/FreeCADBatchFEMTools/FreeCADBatchFEMTools.py:1310-1312 | The mesh region of a body is named label + "_region" and carries the mesh size and compound solids of the body's group. |
| SolidGroups.AddRegion | ElmerWorkflows/FreeCADBatchFEMTools/FreeCADBatchFEMTools.py:1302-1313 | One solid on region objects succeeds exactly when SolidTurn does, and then mirrors it. |
| SolidGroups.IgnoreList | ElmerWorkflows/FreeCADBatchFEMTools/FreeCADBatchFEMTools.py:1295-1296 | A missing ignore_list is the empty list. |
| SolidGroups.DefineMeshSizes | ElmerWorkflows/FreeCADBatchFEMTools/FreeCADBatchFEMTools.py:1283-1313 | define_mesh_sizes succeeds exactly when SolidFold with the ignore list does, and then makes one new region per name, holding name + "_region", its mesh size and its solids. |
| SolidGroups.GroupRegions | ElmerWorkflows/FreeCADBatchFEMTools/FreeCADBatchFEMTools.py:1278-1281 | At most one region per group. |
| SolidGroups.GroupRegionsMembers | ElmerWorkflows/FreeCADBatchFEMTools/FreeCADBatchFEMTools.py:1278-1281 | A region is made exactly for the groups whose Label is not ignored. |
| SolidGroups.GroupRegionsAppend | ElmerWorkflows/FreeCADBatchFEMTools/FreeCADBatchFEMTools.py:1278-1281 | The regions of two group lists joined are the regions of each, joined. |
| SolidGroups.DefineMeshSizesWithMeshGroups | ElmerWorkflows/FreeCADBatchFEMTools/FreeCADBatchFEMTools.py:1264-1281 | One new region per group whose Label is not ignored, in order, made from the group's Name, mesh size and References. |
| SolidGroups.GroupRegionLoop | ElmerWorkflows/FreeCADBatchFEMTools/FreeCADBatchFEMTools.py:1278-1281 | The loop makes exactly the regions GroupRegions says, all new. |
| SolidGroups.GroupRegionsAt | ElmerWorkflows/FreeCADBatchFEMTools/FreeCADBatchFEMTools.py:1278-1281 | The regions of the first i + 1 groups are those of the first i, then group i's region unless ignored. |
| SolidGroups.MakeRegion | ElmerWorkflows/FreeCADBatchFEMTools/FreeCADBatchFEMTools.py:1280-1281 | A new region named after the group's Name + "_region", with its mesh size and References. |
| SolidGroups.RegionOf | ElmerWorkflows/FreeCADBatchFEMTools/FreeCADBatchFEMTools.py:1280-1281 | The region of a mesh group is named after the group's Name + "_region", with the group's mesh size and references. |

## Left out

- The FreeCAD, Fem, ObjectsFem, BOPTools and CompoundTools calls are not modelled.
  - Geometry is an abstract kernel passed as a parameter.
  - `is_face_in_face` and the solid point test may answer "point not found", modelled as an error.
  - The witness-point searches, `isclose`, `vectors_are_same` and the other floating-point helpers are not modelled.
- The document side of `makeMeshGroup` and `makeMeshRegion` is not modelled; a group or region is only its constructor.
  - A group or region made before a locator raises stays in the document; the model reports only the failure.
  - `find_bodies_with_entities_dict` makes the group before locating the solids.
- Reconciler.Rename, Boundaries.Relabel, MeshGroups.MeshGroup.constructor and SolidGroups.RegionOf: FreeCAD's renaming of a duplicate Label or Name (it appends a number such as `001`) is not modelled; labels and names are kept as the library writes them.
  - A merged label can coincide with an existing group's label. For example, in non-separate mode take entity `A` on face F1, then `A_B` on F2, then `B` on F1.
  - FreeCAD would label the renamed group `A_B001` while `face_name_list` holds `A_B`; a later entity on F1 then makes `face_name_list.index` raise ValueError (FreeCADBatchFEMTools.py:1143, 1152).
  - The model keeps the label `A_B` and that later merge succeeds.
  - Region names `Name + '_region'` inherit the unsuffixed Name.
- The geometric objects of entities are taken as their `Shape`.
- `References` is modelled as the list of compound face names; the compound-filter half of the pair is left out.
- The References of a group made by `create_mesh_group_and_set_mesh_size` but not yet assigned are modelled as empty. Reading them (`References[0]`) raises IndexError in the source.
  - This state cannot arise from `merge_boundaries` over distinct face names.
  - In `define_mesh_sizes_with_mesh_groups`, such a group would raise; the model gives it an empty region.
- Process and file I/O, gmsh, ElmerGrid, the GUI and console printing are not modelled.
- The `create_*` geometry builders and `create_mesh_object*` are not modelled, since they only call the kernel.
- Transfinite parameters:
  - Only the `transfinite_mesh_params` entry of `params` is modelled.
  - Direction values are strings.
  - The progression is an integer, since Python's `str()` of a float is not modelled.
- Transfinite.FindLinesToTransfiniteMeshParams: on failure, the line dicts resolved before the failing one keep their new `lines`; the contract does not state which ones.
- Aliasing between entities passed by the caller and those in an entities dictionary is not modelled. A dictionary that appears twice in the input is covered, since the default is filled in idempotently.
- `add_prefixes` is a pair of booleans; a dict lacking one of the two keys (KeyError) is not modelled.
- The `main object` of an entities dictionary is typed as a solid.
- The tolerance arguments of `is_face_in_list` and `remove_compare_face_from_list` are left out: the source never passes them on, and calls `faces_are_same` with its defaults.
- Edges are pairs of end points. A closed edge with one vertex, for which `is_same_edge` raises IndexError, is not modelled.
- Coordinates are exact reals; floating-point rounding in `is_same_vertices` is not modelled.
