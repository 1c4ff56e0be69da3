/** The hexahedron element HexahedronElement<Tdim, Tnfunctions>: its admissible
    instantiations, its constant members and the node and face numbering of its
    reference cell [-1, 1]^3. */
module HexahedronElement {
  import opened Wrappers
  import opened ElementTypes

  /** The two instantiations the constructor admits: the 8-node trilinear and
      the 20-node serendipity hexahedron. */
  datatype Variant = Hex8 | Hex20

  /** The only dimension a hexahedron is defined for. */
  const Tdim: nat := 3

  /** Number of corner nodes; they carry the local ids 0..7 in both variants. */
  const NCorners: nat := 8

  /** The corner pair of the edge that carries each midside node of the 20-node
      element, for the local ids 8..19 in order, as the node diagram places them. */
  const MidsideEdges: seq<(nat, nat)> :=
    [(0, 1), (0, 3), (0, 4), (1, 2), (1, 5), (2, 3),
     (2, 6), (3, 7), (4, 5), (4, 7), (5, 6), (6, 7)]

  /** Template arguments accepted by the constructor's two static_asserts. */
  predicate Admissible(tdim: nat, tnfunctions: nat)
  {
    tdim == 3 && (tnfunctions == 8 || tnfunctions == 20)
  }

  /** nfunctions(): one shape function per node of the diagram, that is the
      corners plus, for the serendipity variant, one node on every edge. */
  function NFunctions(v: Variant): (n: nat)
    ensures n == NCorners + (if v == Hex20 then |MidsideEdges| else 0)
  {
    match v
    case Hex8 => 8
    case Hex20 => 20
  }

  /** Instantiates HexahedronElement<tdim, tnfunctions>; None where a
      static_assert rejects the template arguments. */
  function Make(tdim: nat, tnfunctions: nat): (r: Option<Variant>)
    ensures r.Some? <==> Admissible(tdim, tnfunctions)
    ensures r.Some? ==> NFunctions(r.value) == tnfunctions
  {
    if tdim != 3 then None
    else if tnfunctions == 8 then Some(Hex8)
    else if tnfunctions == 20 then Some(Hex20)
    else None
  }

  /** Every variant is recovered from its own dimension and function count. */
  lemma MakeRoundTrip(v: Variant)
    ensures Make(Tdim, NFunctions(v)) == Some(v)
  {
  }

  /** The 27-node triquadratic layout of the doc comment cannot be instantiated. */
  lemma TriquadraticNotConstructible()
    ensures Make(Tdim, 27) == None
  {
  }

  /** shapefn_type(): the standard isoparametric shape functions. */
  function ShapefnTypeOf(v: Variant): (t: ShapefnType)
    ensures t == NormalMpm
  {
    NormalMpm
  }

  /** Neither variant offers a closed-form inverse of the isoparametric map:
      callers fall back to the iterative inverse mapping. */
  function IsValidNaturalCoordinatesAnalytical(v: Variant): (valid: bool)
    ensures !valid
  {
    false
  }

  // Reference geometry -------------------------------------------------------

  /** Position of corner c in the reference cell [-1, 1]^3, as the node diagram
      draws it: x grows from node 0 to node 1, y from node 0 to node 3 and z from
      node 0 to node 4. */
  function CornerCoord(c: nat): seq<int>
    requires c < NCorners
  {
    [if c in {1, 2, 5, 6} then 1 else -1,
     if c in {2, 3, 6, 7} then 1 else -1,
     if c < 4 then -1 else 1]
  }

  /** The length of a side of the reference cell: the distance from corner 0
      to corner 1 along x. */
  function UnitElementLength(v: Variant): (len: real)
    ensures len == (CornerCoord(1)[0] - CornerCoord(0)[0]) as real
  {
    2.0
  }

  /** The reference cell spans unit_element_length() along every axis: every
      corner coordinate lies between those of corners 0 and 6, which differ by it. */
  lemma ReferenceCellSpan(v: Variant, axis: nat)
    requires axis < 3
    ensures forall c :: 0 <= c < NCorners ==>
      CornerCoord(0)[axis] <= CornerCoord(c)[axis] <= CornerCoord(6)[axis]
    ensures (CornerCoord(6)[axis] - CornerCoord(0)[axis]) as real == UnitElementLength(v)
  {
  }

  /** Number of axes along which two corners differ. */
  function Separation(a: nat, b: nat): nat
    requires a < NCorners && b < NCorners
  {
    var p, q := CornerCoord(a), CornerCoord(b);
    (if p[0] != q[0] then 1 else 0) + (if p[1] != q[1] then 1 else 0) + (if p[2] != q[2] then 1 else 0)
  }

  /** Corners a < b are joined by an edge of the reference cell. */
  predicate IsEdge(a: nat, b: nat)
  {
    a < b < NCorners && Separation(a, b) == 1
  }

  /** Distance between two corners along the axes of the reference cell. */
  function AxisDistance(a: nat, b: nat): int
    requires a < NCorners && b < NCorners
  {
    var p, q := CornerCoord(a), CornerCoord(b);
    Abs(p[0] - q[0]) + Abs(p[1] - q[1]) + Abs(p[2] - q[2])
  }

  function Abs(x: int): int
  {
    if x < 0 then -x else x
  }

  /** An edge joins corners one unit_element_length() apart: the reference
      cell has side unit_element_length(). */
  lemma EdgeLength(v: Variant, a: nat, b: nat)
    requires IsEdge(a, b)
    ensures AxisDistance(a, b) as real == UnitElementLength(v)
  {
  }

  /** Each midside node sits on an edge of the reference cell. */
  lemma MidsideNodesOnEdges(i: nat)
    requires i < |MidsideEdges|
    ensures IsEdge(MidsideEdges[i].0, MidsideEdges[i].1)
  {
  }

  /** No two midside nodes share an edge. */
  lemma MidsideEdgesDistinct(i: nat, j: nat)
    requires i < j < |MidsideEdges|
    ensures MidsideEdges[i] != MidsideEdges[j]
  {
  }

  /** Every edge of the reference cell carries a midside node, so the 20-node
      element has exactly one node per corner and one per edge. */
  lemma EveryEdgeHasMidside(a: nat, b: nat)
    requires IsEdge(a, b)
    ensures (a, b) in MidsideEdges
  {
  }

  // Faces --------------------------------------------------------------------

  /** The faces of the diagram, named as the doc comment names them. */
  datatype Face = Bottom | Right | Top | Left | Rear | Front

  /** The faces in the order of their ids. */
  const AllFaces: seq<Face> := [Bottom, Right, Top, Left, Rear, Front]

  /** nfaces(): one face per named face of the diagram. */
  function NFaces(v: Variant): (n: nat)
    ensures n == |AllFaces|
  {
    6
  }

  /** Every face of the hexahedron is listed, so the face ids cover all of them. */
  lemma AllFacesListed(f: Face)
    ensures f in AllFaces
  {
  }

  /** The id F0..F5 the diagram gives a face. */
  function FaceId(f: Face): nat
  {
    match f
    case Bottom => 0
    case Right => 1
    case Top => 2
    case Left => 3
    case Rear => 4
    case Front => 5
  }

  /** The face a face id names; None for ids out of the range 0 .. nfaces() - 1. */
  function FaceFromId(id: nat): (r: Option<Face>)
    ensures r.Some? <==> id < |AllFaces|
    ensures r.Some? ==> FaceId(r.value) == id && AllFaces[id] == r.value
  {
    if id < |AllFaces| then Some(AllFaces[id]) else None
  }

  /** Face ids and faces are in one-to-one correspondence. */
  lemma FaceIdRoundTrip(f: Face)
    ensures FaceId(f) < |AllFaces|
    ensures FaceFromId(FaceId(f)) == Some(f)
  {
  }

  /** The corners of each face, read off the face diagram. */
  function FaceCorners(f: Face): set<nat>
  {
    match f
    case Bottom => {0, 1, 4, 5}
    case Right => {1, 2, 5, 6}
    case Top => {2, 3, 6, 7}
    case Left => {0, 3, 4, 7}
    case Rear => {0, 1, 2, 3}
    case Front => {4, 5, 6, 7}
  }

  /** The axis a face is normal to (0 = x, 1 = y, 2 = z). */
  function FaceAxis(f: Face): nat
  {
    match f
    case Bottom => 1
    case Top => 1
    case Right => 0
    case Left => 0
    case Rear => 2
    case Front => 2
  }

  /** The side (-1 or +1) of the reference cell a face lies on. */
  function FaceSide(f: Face): int
  {
    match f
    case Bottom => -1
    case Left => -1
    case Rear => -1
    case Right => 1
    case Top => 1
    case Front => 1
  }

  /** The face across the reference cell. */
  function Opposite(f: Face): Face
  {
    match f
    case Bottom => Top
    case Top => Bottom
    case Right => Left
    case Left => Right
    case Rear => Front
    case Front => Rear
  }

  /** The names agree with the geometry: a corner lies on a face exactly when
      it lies in the plane of that face. */
  lemma FaceCornersOnPlane(f: Face, c: nat)
    requires c < NCorners
    ensures c in FaceCorners(f) <==> CornerCoord(c)[FaceAxis(f)] == FaceSide(f)
  {
  }

  /** Opposite faces are parallel, disjoint and together hold every corner. */
  lemma OppositeFaces(f: Face)
    ensures FaceAxis(Opposite(f)) == FaceAxis(f) && FaceSide(Opposite(f)) == -FaceSide(f)
    ensures FaceCorners(f) !! FaceCorners(Opposite(f))
    ensures forall c :: 0 <= c < NCorners ==> c in FaceCorners(f) + FaceCorners(Opposite(f))
  {
  }
}
