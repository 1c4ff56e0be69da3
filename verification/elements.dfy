/** The element variants a cell can hold, with the members of the base class
    Element<Tdim> dispatched to the variant. */
module Elements {
  import opened ElementTypes
  import HexahedronElement
  import TriangleElement

  datatype ElementKind =
    | Hexahedron(hex: HexahedronElement.Variant)
    | Triangle(tri: TriangleElement.Variant)

  /** The dimension Tdim of the element, which tells the two shapes apart. */
  function Dim(k: ElementKind): (d: nat)
    ensures k.Hexahedron? <==> d == HexahedronElement.Tdim
    ensures k.Triangle? <==> d == TriangleElement.Tdim
  {
    match k
    case Hexahedron(_) => HexahedronElement.Tdim
    case Triangle(_) => TriangleElement.Tdim
  }

  /** nfunctions(): every variant has at least one shape function per corner of
      its reference cell, and more functions than dimensions. */
  function NFunctions(k: ElementKind): (n: nat)
    ensures n > Dim(k)
  {
    match k
    case Hexahedron(v) => HexahedronElement.NFunctions(v)
    case Triangle(v) => TriangleElement.NFunctions(v)
  }

  /** nfaces(): the six named faces of a hexahedron, the three sides of a
      triangle; always more faces than dimensions. */
  function NFaces(k: ElementKind): (n: nat)
    ensures k.Hexahedron? ==> n == |HexahedronElement.AllFaces|
    ensures k.Triangle? ==> n == |TriangleElement.MidsideEdges|
    ensures n > Dim(k)
  {
    match k
    case Hexahedron(v) => HexahedronElement.NFaces(v)
    case Triangle(v) => TriangleElement.NFaces(v)
  }

  /** unit_element_length(): the edge length of the variant's reference cell,
      measured from corner 0 to corner 1. */
  function UnitElementLength(k: ElementKind): (len: real)
    ensures k.Hexahedron? ==>
      len == (HexahedronElement.CornerCoord(1)[0] - HexahedronElement.CornerCoord(0)[0]) as real
    ensures k.Triangle? ==>
      len == (TriangleElement.CornerCoord(1)[0] - TriangleElement.CornerCoord(0)[0]) as real
    ensures len > 0.0
  {
    match k
    case Hexahedron(v) => HexahedronElement.UnitElementLength(v)
    case Triangle(v) => TriangleElement.UnitElementLength(v)
  }

  /** shapefn_type(): every element of the model uses the standard shape
      functions. */
  function ShapefnTypeOf(k: ElementKind): (t: ShapefnType)
    ensures t == NormalMpm
  {
    match k
    case Hexahedron(v) => HexahedronElement.ShapefnTypeOf(v)
    case Triangle(v) => TriangleElement.ShapefnTypeOf(v)
  }

  /** The dimension and the function count together identify the variant, so a
      cell's node count and dimension decide which element fits it. */
  lemma KindDeterminedByShape(k1: ElementKind, k2: ElementKind)
    requires Dim(k1) == Dim(k2) && NFunctions(k1) == NFunctions(k2)
    ensures k1 == k2
  {
  }

  /** No pair of template arguments instantiates both a hexahedron and a triangle. */
  lemma InstantiationsDisjoint(tdim: nat, tnfunctions: nat)
    ensures !(HexahedronElement.Make(tdim, tnfunctions).Some?
              && TriangleElement.Make(tdim, tnfunctions).Some?)
  {
  }
}
