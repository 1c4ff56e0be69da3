/** The triangle element TriangleElement<Tdim, Tnfunctions>: its admissible
    instantiations, its constant members and the node numbering of its
    reference triangle. */
module TriangleElement {
  import opened Wrappers
  import opened ElementTypes

  /** The two instantiations the constructor admits: the 3-node linear and the
      6-node quadratic triangle. */
  datatype Variant = Tri3 | Tri6

  /** The only dimension a triangle is defined for. */
  const Tdim: nat := 2

  /** Number of corner nodes; they carry the local ids 0..2 in both variants. */
  const NCorners: nat := 3

  /** The corner pair of the side that carries each midside node of the 6-node
      element, for the local ids 3..5 in order: node 3 between corners 0 and 1,
      node 4 between 1 and 2, node 5 between 2 and 0. */
  const MidsideEdges: seq<(nat, nat)> := [(0, 1), (1, 2), (2, 0)]

  /** Template arguments accepted by the constructor's two static_asserts. */
  predicate Admissible(tdim: nat, tnfunctions: nat)
  {
    tdim == 2 && (tnfunctions == 3 || tnfunctions == 6)
  }

  /** nfunctions(): one shape function per node of the diagram, that is the
      corners plus, for the quadratic variant, one node on every side. */
  function NFunctions(v: Variant): (n: nat)
    ensures n == NCorners + (if v == Tri6 then |MidsideEdges| else 0)
  {
    match v
    case Tri3 => 3
    case Tri6 => 6
  }

  /** Instantiates TriangleElement<tdim, tnfunctions>; None where a
      static_assert rejects the template arguments. */
  function Make(tdim: nat, tnfunctions: nat): (r: Option<Variant>)
    ensures r.Some? <==> Admissible(tdim, tnfunctions)
    ensures r.Some? ==> NFunctions(r.value) == tnfunctions
  {
    if tdim != 2 then None
    else if tnfunctions == 3 then Some(Tri3)
    else if tnfunctions == 6 then Some(Tri6)
    else None
  }

  /** Every variant is recovered from its own dimension and function count. */
  lemma MakeRoundTrip(v: Variant)
    ensures Make(Tdim, NFunctions(v)) == Some(v)
  {
  }

  /** shapefn_type(): the standard isoparametric shape functions. */
  function ShapefnTypeOf(v: Variant): (t: ShapefnType)
    ensures t == NormalMpm
  {
    NormalMpm
  }

  // Reference geometry -------------------------------------------------------

  /** Position of corner c in the reference triangle, as the node diagram draws
      it: corner 0 at the right angle, corner 1 along x and corner 2 along y. */
  function CornerCoord(c: nat): seq<int>
    requires c < NCorners
  {
    [if c == 1 then 1 else 0, if c == 2 then 1 else 0]
  }

  /** The length of a leg of the reference triangle: the distance from
      corner 0 to corner 1 along x. */
  function UnitElementLength(v: Variant): (len: real)
    ensures len == (CornerCoord(1)[0] - CornerCoord(0)[0]) as real
  {
    1.0
  }

  /** The reference triangle spans unit_element_length() along both axes:
      every corner coordinate lies between 0 and 1, and both bounds are attained. */
  lemma ReferenceCellSpan(v: Variant, axis: nat)
    requires axis < 2
    ensures forall c :: 0 <= c < NCorners ==>
      CornerCoord(0)[axis] <= CornerCoord(c)[axis] <= CornerCoord(axis + 1)[axis]
    ensures (CornerCoord(axis + 1)[axis] - CornerCoord(0)[axis]) as real == UnitElementLength(v)
  {
  }

  /** Corners a and b bound a side of the triangle: any two distinct corners do. */
  predicate IsSide(a: nat, b: nat)
  {
    a < NCorners && b < NCorners && a != b
  }

  /** nfaces(): the faces of a triangle are its sides, one per midside position. */
  function NFaces(v: Variant): (n: nat)
    ensures n == |MidsideEdges|
  {
    3
  }

  /** Each midside node sits on a side of the triangle. */
  lemma MidsideNodesOnSides(i: nat)
    requires i < |MidsideEdges|
    ensures IsSide(MidsideEdges[i].0, MidsideEdges[i].1)
  {
  }

  /** No two midside nodes share a side, whichever way round the side is named. */
  lemma MidsideEdgesDistinct(i: nat, j: nat)
    requires i < j < |MidsideEdges|
    ensures MidsideEdges[i] != MidsideEdges[j]
    ensures MidsideEdges[i] != (MidsideEdges[j].1, MidsideEdges[j].0)
  {
  }

  /** Every side of the triangle carries a midside node, so the 6-node element
      has exactly one node per corner and one per side. */
  lemma EverySideHasMidside(a: nat, b: nat)
    requires IsSide(a, b)
    ensures (a, b) in MidsideEdges || (b, a) in MidsideEdges
  {
  }
}
