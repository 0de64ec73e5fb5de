/** The node colour rule (`get_node_color`) and the colour names it uses. */
module Coloring {
  import opened Wrappers

  /**
   * The four display colours: the queried gene, a positive, a negative and
   * a neutral-or-missing quantitation.
   */
  datatype Color = Orange | SpringGreen | LightCoral | LightBlue

  /** The colour names as the drawing library receives them. */
  function ColorName(c: Color): (name: string)
    ensures name in {"orange", "springgreen", "lightcoral", "lightblue"}
  {
    match c
    case Orange => "orange"
    case SpringGreen => "springgreen"
    case LightCoral => "lightcoral"
    case LightBlue => "lightblue"
  }

  /** Distinct colours have distinct names, so no two categories are drawn alike. */
  lemma ColorNameInjective(c1: Color, c2: Color)
    requires c1 != c2
    ensures ColorName(c1) != ColorName(c2)
  {
  }

  /**
   * The colour of an endpoint: the queried gene is always orange whatever
   * the quantitation; any other endpoint is green for a positive, coral for
   * a negative, and blue for a zero or absent quantitation.
   */
  function NodeColor(interactor: string, gene: string, q: Option<real>): (c: Color)
    ensures c == Orange <==> interactor == gene
    ensures c == SpringGreen <==> interactor != gene && q.Some? && q.value > 0.0
    ensures c == LightCoral <==> interactor != gene && q.Some? && q.value < 0.0
    ensures c == LightBlue <==> interactor != gene && (q.None? || q.value == 0.0)
  {
    if interactor == gene then Orange
    else match q
         case Some(x) => if x > 0.0 then SpringGreen else if x < 0.0 then LightCoral else LightBlue
         case None => LightBlue
  }
}
