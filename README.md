# FEM.edu bookkeeping core in Dafny

This project models the bookkeeping layer of the FEM.edu finite-element framework and proves properties of it. Four parts are modelled:

- **Node** (`node.dfy`, module `Nodes`). This is the lazy DOF registry, which hands out node-local indices for DOF codes in first-request order and remembers each element's index tuple. It also holds:
  - the fixity list that `fixDOF` builds from nested code lists;
  - the displacement vectors, with the three read modes of `getDisp` and the two write modes of `setDisp`;
  - the single-slot `pushU`/`popU` checkpoint;
  - the code-keyed load dictionary and the dense load vector of `getLoad`.
- **Element** (`element.dfy`, module `Elements`). This covers:
  - the DOF request fan-out to every node;
  - the zero-sized force and stiffness storage;
  - the topology-to-face tables of `createFaces`;
  - the per-node transformation list;
  - the copy-then-transform loop of `getStiffness`;
  - the conversion of element loads to local coordinates.
- **Face** (`faces.dfy`, module `Faces`). The base face class stores a surface traction and a flux, with the out-flux sign flip. Its virtual members all raise.
- **Record** (`record.dfy`, module `Records`). This is the time-history container: its length, key matching, data access and string form.

Two modules support these four:
- `outcomes.dfy` holds the error kinds and the `Option`, `Result` and `Outcome` wrappers.
- `identity.dfy` holds the explicit ID counter and the decimal rendering used in IDs.

The model follows the source's own form:
- **Node, Element and Face are classes.** Their fields are updated in place by methods with `modifies` clauses.
- **Displacement vectors are arrays** (`array?<real>`). This makes `pushU`'s sharing of one array with the checkpoint visible.
- **Some operations have a value-level specification.** The request loop, the fixity flattening, the write loop of `setDisp`, the load loops and the stiffness loop each have one (`Register`, `Fixed`/`Flatten`, `Writes`, `Accumulate`/`Overwrite`, `Stiffness`). The methods are proved against it, and the promised properties are lemmas about it.
- **A node's bookkeeping is a value** (`NodeBook`: registry, insertion order, index tuples, client list). `BookOk` is its invariant:
  - the code-to-index map numbers the insertion order, so it is a bijection onto `0..ndofs-1`;
  - there is an index tuple for exactly the listed clients;
  - each client is listed once;
  - every stored index is in range.

In three places the code does less than a caller would expect. The model follows the code:
- **Displacement length.** A caller would expect a node's displacement vector to hold one entry per registered DOF. The code does not keep this: a vector allocated before a later `request` stays short. `getDisp` and `setDisp` then fail with an index error, which the model returns as `IndexError`.
- **Undoing a trial step.** The docstrings of `pushU` and `popU` (Node.py:197, 203) say the vector is stored "for later restore" and that `popU` restores it. This holds only when the step replaced the whole vector (see Findings).
- **Partial writes.** A caller would expect `setDisp` by codes to reject an unknown code before changing anything. The code (Node.py:171-180) writes the pairs before the unknown code and then raises `TypeError`.

## Model

| member | source | states |
|---|---|---|
| Identity.IdCounter.Take | src/femedu/domain/Node.py:17-18 | returns the counter's current value and increments it by one; both constructors take their ID through it |
| Identity.DecimalInjective | src/femedu/domain/Node.py:56-60 | distinct numbers have distinct decimal renderings |
| Identity.Decimal | src/femedu/domain/Node.py:60 | the decimal rendering of a number is a non-empty string of digits |
| Identity.Tagged | src/femedu/domain/Node.py:60 | an ID string starts with its tag, and the rest is the number in decimal |
| Identity.TaggedInjective | src/femedu/domain/Node.py:56-60 | under one tag, the ID string determines the number |
| Nodes.RegisterKeeps | src/femedu/domain/Node.py:88-93 | after a request: known codes keep their index, every requested code is registered, new codes get indices from the old ndofs upward, and no other code appears |
| Nodes.Assign | src/femedu/domain/Node.py:90-92 | one pass of the request loop: a new code gets index ndofs and ndofs grows by one, a known code changes nothing (stated by RegisterNewCode and RegisterKnown) |
| Nodes.Register | src/femedu/domain/Node.py:88-92 | the registry after the loop has visited the whole list in order; its properties are the Register lemmas in this table |
| Nodes.RegisterNewCode | src/femedu/domain/Node.py:90-92 | a new code receives index ndofs and ndofs grows by one |
| Nodes.RegisterNumbered | src/femedu/domain/Node.py:88-93 | requesting codes keeps the indices equal to the positions in the insertion order |
| Nodes.NumberedFacts | src/femedu/domain/Node.py:88-93 | a numbering lists each code once and every index is below ndofs |
| Nodes.NumberedInjective | src/femedu/domain/Node.py:88-93 | two registered codes with the same index are the same code |
| Nodes.NumberedIsBijection | src/femedu/domain/Node.py:88-93 | the code-to-index map is a bijection onto 0..ndofs-1 |
| Nodes.NumberedCount | src/femedu/domain/Node.py:88-93 | ndofs equals the number of distinct registered codes |
| Nodes.RegisterKnown | src/femedu/domain/Node.py:88-93 | requesting only known codes changes nothing |
| Nodes.RegisterIdempotent | src/femedu/domain/Node.py:88-93 | requesting the same list twice leaves the registry as the first request left it |
| Nodes.ExtendAllKnown | src/femedu/domain/Node.py:88-93 | the insertion order does not grow for known codes |
| Nodes.ExtendAllContains | src/femedu/domain/Node.py:88-93 | after a request the insertion order holds every requested code |
| Nodes.RegisterOnlyAdds | src/femedu/domain/Node.py:89-92 | the request loop registers no code it does not visit |
| Nodes.IteratedAsWritten | src/femedu/domain/Node.py:89 | the loop visits a list entry by entry, and a single string character by character, each as a one-character code |
| Nodes.CodesOf | src/femedu/domain/Node.py:62-64 | as documented, a single code stands for the list holding only it |
| Nodes.SingleCodeSplitsAsWritten | src/femedu/domain/Node.py:62-93 | as written, a single unknown code of two or more characters is never registered by request |
| Nodes.SingleCodeSplitExample | src/femedu/domain/Node.py:62-93 | as written, request("ux") on a fresh node numbers "u" as 0 and "x" as 1 |
| Nodes.SingleCodeRegisteredWhole | src/femedu/domain/Node.py:62-93 | as intended, a single code is registered whole, as the one-code list would be |
| Nodes.Indices | src/femedu/domain/Node.py:93 | the returned tuple has one index per requested code |
| Nodes.Served | src/femedu/domain/Node.py:88-101 | after a request all requested codes are registered |
| Nodes.ServedOk | src/femedu/domain/Node.py:88-101 | serving a request keeps the bookkeeping invariant: bijective numbering, one index tuple per listed client, each client listed once, indices in range |
| Nodes.ServedEmpty | src/femedu/domain/Node.py:88-101 | an empty request from a new client lists it once with an empty tuple and changes no registry entry |
| Nodes.ServedTwice | src/femedu/domain/Node.py:88-101 | serving the same request twice from the same element gives the same bookkeeping as serving it once |
| Nodes.Node.RegisterCodes | src/femedu/domain/Node.py:88-93 | the request loop computes the registry and insertion order of the specification and returns the indices of the codes in list order |
| Nodes.Node.Request | src/femedu/domain/Node.py:62-101 | registers the codes, returns their indices in list order, stores them as the caller's tuple, lists the caller at most once, and keeps the node invariant |
| Nodes.Node.RequestAsWritten | src/femedu/domain/Node.py:62-101 | as written, a single string argument is requested character by character |
| Nodes.Node.RequestArg | src/femedu/domain/Node.py:62-101 | as intended, a single code is requested whole and comes back as a one-index tuple holding its index |
| Nodes.RequestTwice | src/femedu/domain/Node.py:88-101 | a repeated request returns the same tuple and changes no bookkeeping |
| Nodes.RegistryIsBijection | src/femedu/domain/Node.py:88-93 | every valid node's registry is a bijection onto 0..ndofs-1 with ndofs codes |
| Nodes.Node.constructor | src/femedu/domain/Node.py:11-41 | a new node takes the counter value as ID, stores 2 or 3 coordinates, and has no DOFs, fixity, displacement or loads, with load factor 1.0 |
| Nodes.Node.GetID | src/femedu/domain/Node.py:56-60 | the ID string is "Node_" followed by the decimal rendering of the node's number |
| Nodes.NodeIdsDistinct | src/femedu/domain/Node.py:56-60 | nodes with distinct IDs have distinct ID strings |
| Nodes.Node.FixDof | src/femedu/domain/Node.py:103-119 | the fixity list becomes what the recursive specification gives; a bad item raises TypeError after earlier codes were added; afterwards a code is fixed exactly when it was fixed before or was met before the first bad item |
| Nodes.Node.IsFixed | src/femedu/domain/Node.py:130-135 | a code is fixed exactly when it occurs at some position of the fixity list |
| Nodes.FixedIsAddAllOfFlatten | src/femedu/domain/Node.py:111-119 | fixDOF appends the depth-first flattened codes, skipping present ones, and fails exactly when some item is neither a string nor a list or tuple |
| Nodes.Fixed | src/femedu/domain/Node.py:111-119 | fixDOF item by item: the old fixity list stays a prefix of the new one, and an item that is neither a string nor a list makes the call fail |
| Nodes.Flatten | src/femedu/domain/Node.py:111-119 | the codes of a nested argument list in depth-first order; a top-level item that is neither a string nor a list makes the flattening incomplete |
| Nodes.AddAll | src/femedu/domain/Node.py:113-114 | appending codes keeps the old list as a prefix and adds at most one entry per code |
| Nodes.AddAllFacts | src/femedu/domain/Node.py:113-114 | appending codes keeps the old list as a prefix, adds no duplicates, and holds exactly the old and the added codes |
| Nodes.FixedMembers | src/femedu/domain/Node.py:111-135 | after fixDOF a code is fixed exactly when it was fixed before or was met before the first bad item, each listed once, with the old list as a prefix |
| Nodes.FixSpellingsAgree | src/femedu/domain/Node.py:111-119 | 'ux', ['ux'] and ['ux', ['ux']] all give the fixity list ['ux'] |
| Nodes.Node.AreFixed | src/femedu/domain/Node.py:137-147 | returns 0..k-1 for k fixed codes: positions in the fixity list, not DOF indices |
| Nodes.Node.GetFixedDofs | src/femedu/domain/Node.py:149-153 | returns the fixity list, in order |
| Nodes.Zip | src/femedu/domain/Node.py:172 | the pairs of values and codes, as many as the shorter of the two |
| Nodes.Writes | src/femedu/domain/Node.py:171-180 | the write loop over the zipped pairs keeps the vector's length |
| Nodes.WritesStatus | src/femedu/domain/Node.py:171-180 | the write loop completes exactly when every named code is known and in range; otherwise it raises TypeError or IndexError |
| Nodes.WritesFrame | src/femedu/domain/Node.py:171-180 | entries that no pair names are left unchanged |
| Nodes.WritesValues | src/femedu/domain/Node.py:171-180 | after a complete loop each named entry holds the value of the last pair naming it |
| Nodes.WritesConcat | src/femedu/domain/Node.py:171-180 | writing p then q is writing p + q, up to the first failure |
| Nodes.UnknownCodeStopsAfterEarlierWrites | src/femedu/domain/Node.py:172-180 | an unknown code raises TypeError after the earlier pairs were already written |
| Nodes.Node.WriteCodes | src/femedu/domain/Node.py:172-180 | the array write loop produces the vector and status of the specification |
| Nodes.Node.SetDisp | src/femedu/domain/Node.py:158-185 | with codes, writes the selected vector in place as specified and leaves the other vector alone; without codes, replaces the selected vector by a new one holding U |
| Nodes.Node.UpdateDisp | src/femedu/domain/Node.py:187-193 | adds the correction in place (a length-1 correction broadcasts); no vector raises TypeError, a shape mismatch raises ValueError |
| Nodes.Added | src/femedu/domain/Node.py:193 | the corrected vector keeps the length of the old one |
| Nodes.Node.PushU | src/femedu/domain/Node.py:195-199 | the checkpoint becomes the same array as the current vector |
| Nodes.Node.PopU | src/femedu/domain/Node.py:201-208 | without a checkpoint it raises TypeError and keeps the vector; otherwise the current vector becomes the checkpointed array |
| Nodes.Node.PushUCopy | src/femedu/domain/Node.py:195-199 | the corrected checkpoint: a fresh copy of the current vector |
| Nodes.CheckpointKeepsInPlaceUpdate | src/femedu/domain/Node.py:193-206 | push, in-place correction, pop: the correction survives the pop |
| Nodes.CheckpointKeepsCodeWrites | src/femedu/domain/Node.py:171-206 | push, writes by code, pop: the writes survive the pop |
| Nodes.CheckpointUndoesReplacement | src/femedu/domain/Node.py:181-206 | push, whole-vector setDisp, pop: the original vector and contents are back |
| Nodes.CheckpointCopyRestores | src/femedu/domain/Node.py:195-206 | with a copying push, an in-place correction is undone by the pop |
| Nodes.PopWithoutPushFails | src/femedu/domain/Node.py:201-208 | popping with no checkpoint raises TypeError and keeps the vector |
| Nodes.SecondPushOverwrites | src/femedu/domain/Node.py:195-206 | a second push replaces the single checkpoint slot |
| Nodes.Node.Select | src/femedu/domain/Node.py:240-264 | the read loops of getDisp return exactly the specified view |
| Nodes.Gather | src/femedu/domain/Node.py:248-250 | numpy indexing: succeeds exactly when every index is in range, then returns the indexed entries in order, otherwise IndexError |
| Nodes.Pick | src/femedu/domain/Node.py:256-260 | one code's displacement, or 0.0 when the node does not carry the code |
| Nodes.View | src/femedu/domain/Node.py:240-264 | an unregistered caller raises TypeError, a caller gets one value per index of its tuple, a code list one value per code, and no selector the whole vector; the only errors are TypeError and IndexError |
| Nodes.Node.GetDisp | src/femedu/domain/Node.py:210-264 | allocates ndofs zeros for a missing selected vector (disp, or disp_mode for mode shapes), then returns the specified view of it |
| Nodes.ViewByCaller | src/femedu/domain/Node.py:240-250 | with a registered caller the code list is ignored and the caller's entries come back in its request order, as many as its codes |
| Nodes.ViewUnregistered | src/femedu/domain/Node.py:244-246 | an unregistered caller raises TypeError |
| Nodes.ViewByCodes | src/femedu/domain/Node.py:254-260 | without a caller, on a vector of ndofs entries, one value per listed code is returned, 0.0 for absent codes, and nothing raises |
| Nodes.Node.GetIdx4Element | src/femedu/domain/Node.py:305-310 | succeeds exactly for a registered element, returning the tuple stored for it, with in-range indices; otherwise raises TypeError |
| Nodes.Node.GetIdx4DOFs | src/femedu/domain/Node.py:312-321 | succeeds exactly when every code is known, returning their indices in order; otherwise raises TypeError |
| Nodes.Node.AddLoad | src/femedu/domain/Node.py:333-345 | the load dictionary becomes the accumulation of the pairs and hasLoad is set |
| Nodes.Accumulate | src/femedu/domain/Node.py:340-344 | addLoad's loop keeps every existing load entry and creates one for every code it is given |
| Nodes.AccumulateSums | src/femedu/domain/Node.py:340-344 | each code's load grows by the sum of the values paired with it; exactly the old and the named codes are present |
| Nodes.Node.SetLoad | src/femedu/domain/Node.py:347-356 | the load dictionary becomes the overwrite by the pairs and hasLoad is set |
| Nodes.Overwrite | src/femedu/domain/Node.py:354-355 | setLoad's loop keeps every existing load entry and creates one for every code it is given |
| Nodes.OverwriteLastWins | src/femedu/domain/Node.py:354-355 | each named code holds the value of its last pair; exactly the old and the named codes are present |
| Nodes.Node.ResetLoad | src/femedu/domain/Node.py:358-363 | clears the loads and sets hasLoad false |
| Nodes.Node.GetLoad | src/femedu/domain/Node.py:365-376 | one entry per registered DOF: the stored load for that code (scaled by the load factor exactly when asked) or 0.0; loads for unregistered codes are dropped |
| Nodes.LoadVector | src/femedu/domain/Node.py:369-376 | the dense load vector has ndofs entries |
| Nodes.LoadVectorScales | src/femedu/domain/Node.py:372-375 | the scaled vector is the unscaled one times the load factor, and zero for factor 0 |
| Nodes.Node.ResetDisp | src/femedu/domain/Node.py:384-388 | the current vector becomes a new vector of ndofs zeros |
| Nodes.Node.SetLoadFactor | src/femedu/domain/Node.py:397-412 | stores the load factor |
| Nodes.RequestFixLoadScenario | src/femedu/domain/Node.py:88-101 | requesting ('ux','uy') at a fresh node gives {'ux':0,'uy':1} with ndofs 2; fixing 'ux' gives ['ux']; setting [10, 0] gives those loads |
| Faces.Initialize | src/femedu/elements/Faces.py:28-33 | the virtual initialize fails with NotImplementedError exactly for the base class |
| Faces.InFlux | src/femedu/elements/Faces.py:55-58 | an out-flux is stored negated, an in-flux as given |
| Faces.OutFluxIsNegatedInFlux | src/femedu/elements/Faces.py:46-58 | setFlux(q, True) stores what setFlux(-q, False) stores |
| Faces.Face.constructor | src/femedu/elements/Faces.py:10-22 | keeps id and nodes in order, num_nodes is their count, dim is the first node's coordinate count or 0, load [0,0] and flux 0 |
| Faces.Face.SetLoad | src/femedu/elements/Faces.py:35-44 | load becomes [pn, ps]; nothing else changes |
| Faces.Face.SetFlux | src/femedu/elements/Faces.py:46-58 | flux becomes the signed in-flux; load is untouched |
| Faces.Create | src/femedu/elements/Faces.py:10-33 | building a base face fails with NotImplementedError; a concrete kind yields a fresh valid face with the constructor's state |
| Faces.BaseVirtual | src/femedu/elements/Faces.py:60-89 | computeNodalForces, computeNodalFlux and isFace raise NotImplementedError in the base class |
| Elements.Tri3 | src/femedu/elements/Element.py:126-128 | the face table of the three-node triangle: 3 faces of 2 local indices below 3 |
| Elements.Tri6 | src/femedu/elements/Element.py:130-132 | the face table of the six-node triangle: 3 faces of 3 local indices below 6 |
| Elements.Quad4 | src/femedu/elements/Element.py:160-163 | the face table of the four-node quad: 4 faces of 2 local indices below 4 |
| Elements.Quad8 | src/femedu/elements/Element.py:165-168 | the face table of the eight- and nine-node quad: 4 faces of 3 local indices below 8 |
| Elements.Tet4 | src/femedu/elements/Element.py:140-143 | the face table of the four-node tetrahedron: 4 faces of 3 local indices below 4 |
| Elements.Tet10 | src/femedu/elements/Element.py:145-152 | the face table of the ten-node tetrahedron: 4 faces of 6 local indices below 10 |
| Elements.Brick8 | src/femedu/elements/Element.py:176-181 | the face table of the eight-node brick: 6 faces of 4 local indices below 8 |
| Elements.Brick20 | src/femedu/elements/Element.py:183-194 | the face table of the twenty-node brick: 6 faces of 8 local indices below 20 |
| Elements.Brick27 | src/femedu/elements/Element.py:196-207 | the face table of the 27-node brick: 6 faces of 9 local indices below 27 |
| Elements.FaceTable | src/femedu/elements/Element.py:111-214 | faces exist exactly for the supported (type, node count) pairs, otherwise NotImplementedError; 3, 4, 4 or 6 faces of the documented sizes, every index below the node count |
| Elements.QuadMidSideFaces | src/femedu/elements/Element.py:164-168 | quad-8/9 face k is (k, k+4, (k+1) mod 4) |
| Elements.PlaneFacesKeepCorners | src/femedu/elements/Element.py:123-168 | quadratic triangle and quad faces have the linear face's corners at their ends, with the mid-side node between them |
| Elements.SolidFacesStartWithCorners | src/femedu/elements/Element.py:137-207 | higher-order tetrahedron and brick faces start with the linear face's corners |
| Elements.Brick27ExtendsBrick20 | src/femedu/elements/Element.py:182-207 | brick-27 face k is brick-20 face k followed by node 20+k |
| Elements.BrickCentreOnNoFace | src/femedu/elements/Element.py:195-207 | node 26 appears on no face |
| Elements.NodesAt | src/femedu/elements/Element.py:123-207 | a face's nodes are the element's nodes at the table's indices, in order |
| Elements.FaceId | src/femedu/elements/Element.py:123-207 | the ID of face k of element e is the decimal e, a dot, and the decimal k |
| Elements.FaceIdsDistinct | src/femedu/elements/Element.py:123-207 | the faces of one element have distinct IDs |
| Elements.AttachAt | src/femedu/elements/Element.py:242-246 | the transformation list keeps its length |
| Elements.AttachAtMeaning | src/femedu/elements/Element.py:242-246 | listed in-range positions hold T, all other entries are kept, out-of-range positions are ignored |
| Elements.Attached | src/femedu/elements/Element.py:242-249 | an empty node list gives every node the transformation; otherwise one slot per node is kept |
| Elements.AttachedMeaning | src/femedu/elements/Element.py:242-249 | an empty list sets all nnodes entries to T; a non-empty list keeps the length and sets exactly the listed in-range positions |
| Elements.Transpose | src/femedu/elements/Element.py:371-375 | the transpose has as many rows as the matrix has columns; for a rectangular matrix, entry (c, r) of the transpose is entry (r, c) of the matrix |
| Elements.TransposeInvolution | src/femedu/elements/Element.py:371-375 | transposing a rectangular block twice gives it back |
| Elements.TransformBlock | src/femedu/elements/Element.py:366-379 | a block between untransformed nodes is returned as it is; when node i is transformed the result is node i's mapping of some matrix |
| Elements.Element.TransformedBlock | src/femedu/elements/Element.py:371-377 | the loop body computes exactly TransformBlock for a block with a transformed node |
| Elements.TransformBlockCases | src/femedu/elements/Element.py:366-379 | a block with untransformed nodes is returned as is; with only node i transformed, its mapping is applied to the block; with only node j, the transpose is mapped and transposed back; with both, node j's mapping is applied first and node i's last |
| Elements.BaseUpdateState | src/femedu/elements/Element.py:382-386 | the base updateState raises NotImplementedError |
| Elements.Stiffness | src/femedu/elements/Element.py:358-380 | fails with IndexError exactly when a needed block is missing; otherwise the result has the shape of the stored blocks |
| Elements.StiffnessWithoutTransforms | src/femedu/elements/Element.py:358-380 | without transformations getStiffness returns the stored blocks |
| Elements.StiffnessKeepsPlainBlocks | src/femedu/elements/Element.py:358-380 | a block whose nodes carry no transformation is returned unchanged |
| Elements.StiffnessFromBlocks | src/femedu/elements/Element.py:358-380 | blocks of the stored shape holding the transformed block wherever one is needed and the stored block elsewhere are getStiffness's result |
| Elements.LocalLoads | src/femedu/elements/Element.py:305-312 | one entry per (node, load) pair |
| Elements.LocalLoadsMeaning | src/femedu/elements/Element.py:305-312 | an entry is mapped by its node exactly when the load is an array, otherwise None |
| Elements.BaseLoadsAreNone | src/femedu/elements/Element.py:303-319 | with the base computeSurfaceLoads every entry is None |
| Elements.Zeros | src/femedu/elements/Element.py:99-100 | n zeros |
| Elements.Element.constructor | src/femedu/elements/Element.py:21-47 | takes the counter value as ID, one None transform and one load entry per node, empty DOF request at every node (no node gains a DOF, each lists the element with an empty tuple), load factor 1.0; it may change only the counter and the nodes' DOF bookkeeping fields |
| Elements.Element.EnrollInNodes | src/femedu/elements/Element.py:38 | the constructor's empty request: every node keeps its DOFs and lists the element once with an empty index tuple, and all nodes stay valid |
| Elements.Element.Books | src/femedu/elements/Element.py:399-401 | the bookkeeping of each node, in node order |
| Elements.Element.RequestDofs | src/femedu/elements/Element.py:388-401 | every node serves the same request for this element starting from its old bookkeeping, and keeps its invariant; the registry numbers the requested codes; the element stores the list and each node's returned tuple |
| Elements.Element.ServeAll | src/femedu/elements/Element.py:399-401 | the loop over the nodes: each serves the request once or again, keeps its invariant, and hands back its tuple |
| Elements.Element.ServeOne | src/femedu/elements/Element.py:399-401 | one node serves the request, also when a repeated node has served it already |
| Elements.Element.ResetMatrices | src/femedu/elements/Element.py:92-102 | nnodes zero force vectors of length ndofs and an nnodes x nnodes grid of ndofs x ndofs zero blocks; returns (nnodes, ndofs) |
| Elements.Element.CreateFaces | src/femedu/elements/Element.py:111-214 | empties the faces, then builds one fresh face per table row with ID "e.k" and the table's nodes, or raises for no type or an unsupported pair |
| Elements.CreateFacesTwice | src/femedu/elements/Element.py:111-113 | calling createFaces twice gives the same number of faces as once |
| Elements.Element.ResetLoads | src/femedu/elements/Element.py:104-109 | every face's traction becomes [0, 0], fluxes unchanged; without faces AttributeError |
| Elements.Element.Initialize | src/femedu/elements/Element.py:73-90 | sets the type; an empty DOF list raises TypeError with the DOF list, the faces, the matrices and every node's bookkeeping unchanged; otherwise every node serves the request from its old bookkeeping, getDofs returns the list, and either the unsupported type raises NotImplementedError with no faces and the load and matrices untouched, or the type's faces are built fresh as tabled, the distributed load is zero per node and the force and stiffness storage is zero; only the listed element fields and the nodes' DOF bookkeeping may change |
| Elements.Element.BuildStorage | src/femedu/elements/Element.py:85-90 | records the type, then builds the tabled faces, the zero distributed load and the zero matrices, or stops with NotImplementedError after emptying the faces |
| Elements.Element.GetDofs | src/femedu/elements/Element.py:403-407 | the DOF codes the element requested, in request order |
| Elements.Element.AddTransformation | src/femedu/elements/Element.py:230-249 | the corrected attachment: the list becomes the specified one, None removing, and keeps one slot per node |
| Elements.Element.AddTransformationAsWritten | src/femedu/elements/Element.py:242-249 | as written, None raises AttributeError whenever some entry would be set, and nothing is changed |
| Elements.Element.GetStiffness | src/femedu/elements/Element.py:352-380 | an updateState failure is passed on; otherwise the result is the specified transformed copy and the stored blocks are unchanged |
| Elements.Element.ComputeSurfaceLoads | src/femedu/elements/Element.py:318-319 | no load at any node |
| Elements.Element.GetLoad | src/femedu/elements/Element.py:288-316 | recomputes the loads, then returns one None per node |
| Elements.Element.LocalizeLoads | src/femedu/elements/Element.py:305-312 | the conversion loop returns the specified list |
| Elements.Element.GetID | src/femedu/elements/Element.py:327-328 | the ID string is "Elem_" followed by the decimal rendering of the element's number |
| Elements.Element.GetLabel | src/femedu/elements/Element.py:321-325 | the label when it is set and non-empty, otherwise the ID string |
| Elements.Element.SetLoadFactor | src/femedu/elements/Element.py:409-424 | stores the load factor |
| Elements.ElementIdsDistinct | src/femedu/elements/Element.py:327-328 | elements with distinct IDs have distinct ID strings |
| Records.NewRecord | src/femedu/recorder/Record.py:8-11 | a new record has no data and an empty key and label |
| Records.Length | src/femedu/recorder/Record.py:20-24 | the length is the number of entries, zero exactly for no data |
| Records.IsKey | src/femedu/recorder/Record.py:26-27 | a match is the stored key; the stored key matches exactly when it is non-empty |
| Records.IsKeyUnique | src/femedu/recorder/Record.py:26-27 | a matching key is the stored key, and it is non-empty |
| Records.StoredKeyMatches | src/femedu/recorder/Record.py:26-27 | the stored key matches itself exactly when it is non-empty |
| Records.FreshRecordMatchesNothing | src/femedu/recorder/Record.py:26-27 | a fresh record matches no key |
| Records.GetData | src/femedu/recorder/Record.py:29-33 | the label and the data, of the same length and in the same order |
| Records.Shown | src/femedu/recorder/Record.py:13-18 | the listed entries are the first min(3, n) entries |
| Records.StrSeesFirstThree | src/femedu/recorder/Record.py:13-18 | records agreeing on label, key and first three entries print the same when both hold more than three |
| Records.Str | src/femedu/recorder/Record.py:13-18 | label, key and the rendered first three entries when there are more than three, otherwise all entries, joined by colons |

## Left out

- **Transformation**: `hasTransform`, `v2l` and `m2l` are node methods that Element.py calls (Element.py:284, 309, 366-377), but the `Node` class in Node.py does not define them; only `addTransformation` (Node.py:323) exists. The model takes their answers as parameters of `GetStiffness` and `GetLoad`. As written, `getStiffness` after a successful subclass `updateState`, and `getLoad` on an array load, would raise `AttributeError`; that failure is not modelled. `registerClient` is the transformation object's own code, which is not part of this model, and a transformation is an opaque handle.
- **Subclass `updateState`**: its outcome is a parameter of `GetStiffness`. `BaseUpdateState` gives the base class's outcome.
- **Face subclasses**: `Face2D` and `Face3D` are not part of this model. Their `initialize` is taken to succeed, and their nodal force and flux computations are left out.
- **Recorder**: the recorder attached to nodes and elements (`setRecorder`, `recordThisStep`, `startRecorder` and the rest) is left out. The latent errors in both `recordThisStep` methods are not behaviour to specify. The `Recorder` class that fills `Record.data` and sets its key is not part of this model.
- **Material**: the material object is not stored; the stiffness blocks are abstract matrices of reals.
- **Process-wide `COUNT` class attributes**: modelled by an explicit `IdCounter` passed to the constructors.
- **Positions and formatting**: `getPos`, `getDeformedPos`, `setStart`, `hasLoad`, `resetAll`, `__floordiv__` and the `__str__`/`__repr__` of nodes, elements and faces are left out. For `Record.__str__`, the rendering of a Python list is a parameter of `Records.Str`.
- **Other Element members**: `getForce`, `setSurfaceLoad`, `getInternalForce`, `getStress`, `mapGaussPoints`, `getValue`, `on_converged` and `revert` are outside the modelled core.
- **Element `dof_idx`**: stored as a map from node to tuple. The source marks it for removal.
- **`getLoad(dof_list)` on a node and `getLoad(apply_load_factor)` on an element**: these arguments are ignored by the source. The model takes them (`dofList` of `Nodes.Node.GetLoad`, `applyLoadFactor` of `Elements.Element.GetLoad`) and ignores them too.
- Nodes.Node.SetDisp: with a numpy array argument the source stores the caller's array itself. The model always stores a new array holding the values, so it does not model that aliasing with the caller.
- Nodes.Node.UpdateDisp: only the broadcasting shapes that numpy accepts for a 1-D vector (same length, or length 1) are modelled. numpy's other broadcasting errors are all `ValueError`.
- Nodes.Node.GetIdx4Element: `np.int`, which newer numpy versions no longer provide, is taken to be the integer type. The model does not model its absence.
- Nodes.Node.GetIdx4DOFs: the same `np.int` simplification as for `GetIdx4Element`.
- **Types of arguments**: dynamic type tests on DOF codes (anything that is not a string) are modelled only in `fixDOF`, through its `FixSpec` argument. `request` takes a list or a single code (`DofArg`). Other operations take codes as strings and values as lists of reals.
- Nodes.Node.SetLoad: a scalar load or code argument makes `zip` raise TypeError; the model takes lists only and does not model that error.
- Nodes.Node.AddLoad: the same scalar-argument TypeError as `setLoad` is not modelled.
- Nodes.Node.SetDisp: a scalar U with codes makes `zip` raise TypeError, and a list of Python ints becomes an integer array whose later writes by code truncate; both are not modelled, values are reals.
- Nodes.Node.UpdateDisp: adding a real correction in place to an integer array stored by `setDisp` raises numpy's casting TypeError; the model has real vectors only and does not model it.
- Nodes.Node.GetDisp: a bare string passed as `dofs` is iterated character by character, as in `request`; the model takes a list of codes there and does not model that case.
- **Floating point**: displacements, loads and fluxes are reals. Rounding is not modelled.

## Findings

| source | as written | input that shows it | evidently intended | confidence | as-written member | corrected member |
|---|---|---|---|---|---|---|
| src/femedu/elements/Element.py:240-249 | `T.registerClient(self)` runs before every assignment, so `T=None` raises AttributeError | `addTransformation(None)` on any element, or with a list naming an in-range node | the docstring says assigning `T=None` removes the transformation | not executed | Elements.Element.AddTransformationAsWritten | Elements.Element.AddTransformation |
| src/femedu/domain/Node.py:62-93 | the request loop iterates whatever it is given, so a single code string is taken character by character | `request("ux", e)` on a fresh node registers "u" as 0 and "x" as 1, and "ux" stays unknown | the docstring says a list or an individual code may be sent; a single code should be requested whole | not executed | Nodes.SingleCodeSplitsAsWritten | Nodes.Node.RequestArg |
| src/femedu/domain/Node.py:193-206 | `pushU` stores a reference to the current array, and `_updateDisp` changes that array in place | push, then a `_updateDisp(dU)` with dU non-zero, then pop: the correction is still there | the docstring says the vector is stored "for later restore" | not executed | Nodes.CheckpointKeepsInPlaceUpdate | Nodes.CheckpointCopyRestores |
