# Cells and element descriptors of an MPM engine, in Dafny

This project models two parts of a Material Point Method engine's cell and
element kernel.

- **The cell's bookkeeping state.** This is the class `Cell<Tdim>`
  (`Cells.Cell`). A cell holds:
  - the ids of the particles located in it;
  - the ids of its neighbouring cells;
  - the nodes it shares with adjacent cells;
  - an optional element;
  - its MPI rank and previous rank;
  - its global particle count, solving status, free-surface flag and volume
    fraction.

  Cell operations change this state in place, so they are methods. Each method's
  contract gives the new state in terms of the old one. Pure functions over
  sequences specify particle insertion and removal (`Inserted`, `Without`,
  `InsertAll`) and the node-id set (`NodeIds`). Lemmas state what those functions
  promise.
- **The element descriptors.** These are `HexahedronElement<3, 8 | 20>` and
  `TriangleElement<2, 3 | 6>`. Each variant is a datatype value. Each has:
  - the template arguments its `static_assert`s accept;
  - its constant members: function count, face count, unit element length,
    shape-function type and whether an analytical inverse mapping exists;
  - the node and face numbering drawn in its doc comment.

  The module `Elements` collects the variants into `ElementKind`. This is the
  type of the cell's optional element.

Modules: `Wrappers` holds `Option`. `ElementTypes` holds the shape-function
family. `HexahedronElement`, `TriangleElement` and `Elements` model the
elements, and `Cells` models the cell.

Integer widths follow the source. `Index` is an unsigned 64-bit id and `Unsigned`
is a 32-bit unsigned value, both written as subset types. No operation in the
model that stores into them can overflow them. The three size getters are the
exception: they return an unbounded count, as listed under "## Left out".
`double` fields are `real`.

The bodies of the cell's member functions live in `cell.tcc`, and those of the
elements in `hexahedron_element.tcc` and `triangle_element.tcc`. None of these
files is part of this model. Where a body is not in the headers, the model
follows the header's documentation and the field declarations, and makes the
following modelling choices:
- The constructor assigns the element only when the element's function count
  equals the requested node count. Otherwise the element stays null and
  `nfunctions()` returns 0, the case include/cells/cell.h:113-117 provides for.
- `add_node` appends a node while the cell holds fewer nodes than it was built
  for. The comment on `nodes_` (include/cells/cell.h:468) speaks of pairs of
  local id and node pointer, but the model chooses to keep the nodes in the
  order they were added and does not use the local id. Any local id is
  accepted, including one at or above the node count.
- `add_particle_id` refuses an id the cell already holds and appends a new one.
- `remove_particle_id` erases every occurrence of the id and keeps the order of
  the others.
- `add_neighbour` is a set insertion that reports whether the id was new.
- `rank(r)` moves the current rank into the previous rank and then stores `r`.

The face corner sets and midside-node placements are read off the doc-comment
diagrams, with the reference hexahedron placed in [-1, 1]^3. In the diagram,
x grows from node 0 to node 1, y from node 0 to node 3 and z from node 0 to
node 4. The reference triangle has corner 0 at the origin and legs of length 1
along x and y.

## Model

| member | source | states |
|---|---|---|
| `Cells.Tdof` | include/cells/cell.h:33-34 | Tdof is 1 for Tdim 1 and 3(Tdim-1) otherwise. This equals Tdim(Tdim+1)/2, the count of independent components of a symmetric tensor: 1, 3 and 6 |
| `Cells.Cell.constructor` | include/cells/cell.h:36-43 | Stores the id and node count. Assigns the element only when its function count matches the node count. Starts with no particles, nodes or neighbours, rank 0 and the field defaults of lines 449-506. The cell invariant holds |
| `Cells.Cell.NParticles` | include/cells/cell.h:70-71 | nparticles() is the number of distinct particle ids in the cell whenever no id is held twice |
| `Cells.Cell.NNodes` | include/cells/cell.h:89-90 | nnodes() is at least the number of distinct global ids among the cell's nodes |
| `Cells.Cell.NNeighbours` | include/cells/cell.h:130-131 | nneighbours() is 0 exactly when the cell has no neighbour |
| `Cells.Cell.Status` | include/cells/cell.h:83-84 | status() is true exactly when some particle id is present, i.e. when nparticles() > 0 |
| `Cells.Cell.NodesId` | include/cells/cell.h:97-102 | The loop returns exactly the set of ids of the stored nodes. It contains every node's id and has at most nnodes() elements |
| `Cells.NodeIdsBound` | include/cells/cell.h:89-102 | The set of node ids is never larger than the number of nodes |
| `Cells.Cell.NFunctions` | include/cells/cell.h:113-117 | nfunctions() is 0 exactly when no element is assigned. Once the element fits the cell, which the constructor guarantees, it is either 0 or the node count the cell was built for |
| `Cells.Cell.AddNode` | include/cells/cell.h:119-123 | Appends the node and returns true exactly when a free node slot remains. Otherwise nothing changes. nnodes() never exceeds the node count |
| `Cells.Cell.AddNeighbour` | include/cells/cell.h:125-134 | The neighbours become old ∪ {id}. Returns true exactly when the id was new. nneighbours() grows by one exactly then, so repeating an id leaves the set unchanged |
| `Cells.Cell.AddParticleId` | include/cells/cell.h:136-139 | Returns true exactly when the id was absent. The id is then held, nparticles() has grown by one exactly on success, status() is true and ids stay unique |
| `Cells.Inserted` | include/cells/cell.h:136-139 | Insertion keeps every held id in place, adds pid once, grows the list only for a new id and keeps it duplicate-free |
| `Cells.InsertAllUnion` | include/cells/cell.h:136-139 | Submitting any sequence of ids, repeats included and in any order, yields a duplicate-free list. Its ids are exactly the union of the held and submitted ids |
| `Cells.Cell.RemoveParticleId` | include/cells/cell.h:141-143 | The loop leaves the list with every occurrence of pid erased. pid is absent afterwards and every other held id is still present |
| `Cells.Without` | include/cells/cell.h:141-143 | Erasing removes pid, keeps every other id and changes nothing when pid is absent. On a duplicate-free list that holds pid it shrinks the list by exactly one |
| `Cells.WithoutAppend` | include/cells/cell.h:141-143 | Erasing distributes over concatenation, so the surviving ids keep their relative order |
| `Cells.RemoveUndoesAdd` | include/cells/cell.h:136-143 | Removing a freshly added id restores the previous particle list |
| `Cells.StatusLifecycle` | include/cells/cell.h:83-84 | Every new cell, whatever its id, dimension, node count, element and isoparametric flag, is inactive. It is active after one add_particle_id and inactive again after that id is removed |
| `Cells.Cell.ClearParticleIds` | include/cells/cell.h:145-146 | Afterwards nparticles() is 0 and status() is false. Nodes and neighbours are unchanged |
| `Cells.Cell.SetNGlobalParticles` | include/cells/cell.h:73-81 | The getter returns the assigned global particle count |
| `Cells.Cell.AssignRank` | include/cells/cell.h:210-218 | rank() returns the assigned rank, and previous_mpirank() returns the rank held before |
| `Cells.Cell.AssignSolvingStatus` | include/cells/cell.h:267-275 | solving_status() returns the assigned status |
| `Cells.Cell.AssignFreeSurface` | include/cells/cell.h:277-285 | free_surface() returns the assigned flag |
| `Cells.Cell.AssignVolumeFraction` | include/cells/cell.h:287-297 | volume_fraction() returns the assigned fraction |
| `HexahedronElement.Make` | include/elements/3d/hexahedron_element.h:115-119 | A hexahedron exists exactly for Tdim 3 with 8 or 20 functions. The resulting variant has that function count |
| `HexahedronElement.MakeRoundTrip` | include/elements/3d/hexahedron_element.h:115-127 | Each variant is the one instantiated from its own dimension and function count |
| `HexahedronElement.TriquadraticNotConstructible` | include/elements/3d/hexahedron_element.h:50-78 | The 27-node layout in the doc comment cannot be instantiated |
| `HexahedronElement.NFunctions` | include/elements/3d/hexahedron_element.h:126-127 | nfunctions() is 8 for the trilinear variant and 20 for the serendipity variant. This is the corner count plus, for the 20-node variant, one node per listed edge |
| `HexahedronElement.MidsideNodesOnEdges` | include/elements/3d/hexahedron_element.h:31-48 | Every midside node 8..19 of the 20-node diagram lies on an edge of the reference cell |
| `HexahedronElement.MidsideEdgesDistinct` | include/elements/3d/hexahedron_element.h:31-48 | No two midside nodes share an edge |
| `HexahedronElement.EveryEdgeHasMidside` | include/elements/3d/hexahedron_element.h:31-48 | Every edge of the reference cell carries a midside node |
| `HexahedronElement.NFaces` | include/elements/3d/hexahedron_element.h:238-239 | nfaces() equals the number of faces named in the face diagram, 6 |
| `HexahedronElement.AllFacesListed` | include/elements/3d/hexahedron_element.h:80-101 | The list bottom, right, top, left, rear, front holds every face |
| `HexahedronElement.FaceFromId` | include/elements/3d/hexahedron_element.h:80-101 | A face id names a face exactly when it is below the number of listed faces, which is nfaces() of both variants. Ids 0..5 name bottom, right, top, left, rear and front |
| `HexahedronElement.FaceIdRoundTrip` | include/elements/3d/hexahedron_element.h:80-101 | Every face has an id below the number of listed faces, and that id names the same face |
| `HexahedronElement.FaceCornersOnPlane` | include/elements/3d/hexahedron_element.h:80-101 | A corner lies on a named face exactly when it lies in that face's plane of the reference cell |
| `HexahedronElement.OppositeFaces` | include/elements/3d/hexahedron_element.h:80-101 | Bottom/top, right/left and rear/front lie on the same axis, on opposite sides, share no corner and together hold all eight corners |
| `HexahedronElement.ReferenceCellSpan` | include/elements/3d/hexahedron_element.h:241-242 | Along each axis the corners span exactly unit_element_length() = 2, i.e. the reference cell is [-1, 1] |
| `HexahedronElement.EdgeLength` | include/elements/3d/hexahedron_element.h:241-242 | Every edge of the reference cell has length unit_element_length() |
| `HexahedronElement.IsValidNaturalCoordinatesAnalytical` | include/elements/3d/hexahedron_element.h:254-255 | isvalid_natural_coordinates_analytical() is false for both variants, so callers use the iterative inverse mapping |
| `HexahedronElement.UnitElementLength` | include/elements/3d/hexahedron_element.h:241-242 | unit_element_length() is the length of the reference-cell edge from corner 0 to corner 1 |
| `HexahedronElement.ShapefnTypeOf` | include/elements/3d/hexahedron_element.h:217-220 | shapefn_type() is NORMAL_MPM, the standard isoparametric family |
| `TriangleElement.Make` | include/elements/2d/triangle_element.h:48-52 | A triangle exists exactly for Tdim 2 with 3 or 6 functions. The resulting variant has that function count |
| `TriangleElement.MakeRoundTrip` | include/elements/2d/triangle_element.h:48-61 | Each variant is the one instantiated from its own dimension and function count |
| `TriangleElement.NFunctions` | include/elements/2d/triangle_element.h:60-61 | nfunctions() is 3 or 6: the corner count plus, for the 6-node variant, one node per side |
| `TriangleElement.NFaces` | include/elements/2d/triangle_element.h:170-171 | nfaces() is 3, one face per side, and each side carries one midside position |
| `TriangleElement.ReferenceCellSpan` | include/elements/2d/triangle_element.h:173-174 | Along each axis the corners span exactly unit_element_length() = 1 |
| `TriangleElement.MidsideNodesOnSides` | include/elements/2d/triangle_element.h:23-32 | Node 3 lies between corners 0 and 1, node 4 between 1 and 2, node 5 between 2 and 0. Each pair is a side |
| `TriangleElement.MidsideEdgesDistinct` | include/elements/2d/triangle_element.h:23-32 | No two midside nodes share a side, whichever way round the side is named |
| `TriangleElement.EverySideHasMidside` | include/elements/2d/triangle_element.h:23-32 | Every side of the triangle carries a midside node |
| `TriangleElement.ShapefnTypeOf` | include/elements/2d/triangle_element.h:149-152 | shapefn_type() is NORMAL_MPM, the standard isoparametric family |
| `TriangleElement.UnitElementLength` | include/elements/2d/triangle_element.h:173-174 | unit_element_length() is the length of the reference-triangle leg from corner 0 to corner 1 |
| `Elements.NFunctions` | include/elements/3d/hexahedron_element.h:126-127 | Every element variant has more shape functions than dimensions, so an assigned element never yields nfunctions() = 0 |
| `Elements.KindDeterminedByShape` | include/elements/3d/hexahedron_element.h:115-119 | Two element variants with the same dimension and function count are the same variant |
| `Elements.InstantiationsDisjoint` | include/elements/2d/triangle_element.h:48-52 | No pair of template arguments instantiates both a hexahedron and a triangle |
| `Elements.Dim` | include/elements/3d/hexahedron_element.h:117 | The dimension of an element is 3 exactly for a hexahedron and 2 exactly for a triangle, as the two constructors' static_asserts demand (see also include/elements/2d/triangle_element.h:50) |
| `Elements.NFaces` | include/elements/2d/triangle_element.h:170-171 | The nfaces() override is the six named faces of a hexahedron (include/elements/3d/hexahedron_element.h:238-239) or the three sides of a triangle, and always exceeds the dimension |
| `Elements.UnitElementLength` | include/elements/3d/hexahedron_element.h:241-242 | The unit_element_length() override is the positive edge length of the variant's reference cell (include/elements/2d/triangle_element.h:173-174 for the triangle) |
| `Elements.ShapefnTypeOf` | include/elements/2d/triangle_element.h:149-152 | The shapefn_type() override is NORMAL_MPM for every modelled element (include/elements/3d/hexahedron_element.h:217-220 for the hexahedron) |

## Left out

- Shape functions, their gradients, Jacobians, dN/dx, B-matrices, the Ni·Nj and Laplace matrices, volume, centroid, mean length and normals are all left out. They are floating-point numerics whose bodies are not part of this model.
- `is_point_in_cell`, `transform_real_to_unit_cell`, `local_coordinates_point`, `point_in_cartesian_cell` and `approx_point_in_cell` are left out. They are floating-point inverse mapping by Newton–Raphson from an affine guess.
- The `compute_local_*` accumulations, `initialise_element_matrix*`, `initialise_element_stiffness_matrix` and the matrix getters are left out. They are Eigen floating-point linear algebra.
- The cell mutex is left out, because the model is sequential. Concurrent `add_particle_id` calls are covered only as sequential interleavings (`InsertAllUnion`).
- `activate_nodes`, `assign_mpi_rank_to_nodes` and `map_cell_volume_to_nodes` are left out. They write into external `NodeBase` objects.
- The upgrade to nonlocal elements is left out: `upgrade_status`, `assign_nonlocal_elementptr`, `initialiase_nonlocal`, and B-spline/LME connectivity setup. Their bodies are not part of this model and they depend on element variants that are not modelled. The cell's element is therefore constant.
- `initialise`, `is_initialised`, `assign_quadrature`, `generate_points`, `side_node_pairs`, `sorted_face_node_ids`, `local_node_indices`, `element_ptr`, `nodes()` and `nodal_coordinates()` are left out. Their bodies or results are geometric data that is not part of this model.
- `face_indices`, `sides_indices`, `corner_indices` and `unit_cell_coordinates` are kept only as far as the diagrams show them: face corner sets, midside placements and the reference cell. The orderings inside each face table are not modelled.
- `degree()` and `quadrature()` of both elements are left out. Their bodies are not part of this model.
- The triangle's `isvalid_natural_coordinates_analytical()` and `natural_coordinates_analytical()` are left out. The header only declares them, and the body that decides the answer is not part of this model.
- HDF5 particle layout tables, the solver scheme drivers and the loggers are left out.
- Cells.Cell.NParticles: returns an unbounded `nat`. The source narrows `particles_.size()` to a 32-bit `unsigned` (include/cells/cell.h:71), which differs only once the cell holds 2^32 or more particle ids.
- Cells.Cell.NNodes: returns an unbounded `nat`. The source narrows `nodes_.size()` to a 32-bit `unsigned` (include/cells/cell.h:90). The cell invariant bounds the node count by the 32-bit build count, so the two agree on every valid cell.
- Cells.Cell.NNeighbours: returns an unbounded `nat`. The source narrows `neighbours_.size()` to a 32-bit `unsigned` (include/cells/cell.h:131), which differs only past 2^32 neighbours.
- Cells.Cell.AddNode: the local id argument is accepted but not used, whatever its value, including one at or above the node count. Nodes are kept in the order they were added, as the vector `nodes_` is.
- Cells.Cell.constructor: requires the element's dimension to equal the cell's. In the source this holds by type, since both are templates over the same `Tdim`. Cells of dimension 1 have no modelled element to hold.
