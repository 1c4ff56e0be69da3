/** Types shared by every element variant (the base class Element<Tdim>). */
module ElementTypes {

  /** The family of shape functions an element evaluates. The standard
      isoparametric elements are NormalMpm; the B-spline and LME families are
      the enriched variants of the system, which are not part of this model. */
  datatype ShapefnType = NormalMpm | Bspline | Lme
}
