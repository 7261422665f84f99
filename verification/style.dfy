/** How the trend chart draws each series: colour by position in the name
    list, marker, line style and legend label by gender. */
module Style {

  /** The two gender codes the trend chart draws a line for. */
  datatype Gender = Male | Female

  /** The code of a gender in the table's Gender column. */
  function Code(g: Gender): string {
    match g
    case Male => "M"
    case Female => "F"
  }

  /** A colour as its red, green and blue channel values (0 to 255), as the
      palette's hex codes give them; matplotlib's own float triples in [0, 1]
      are the same colours divided by 255 and are not modelled separately. */
  datatype Rgb = Rgb(red: nat, green: nat, blue: nat)

  /** matplotlib's ten-colour qualitative palette "tab10", in its own order
      (blue, orange, green, red, purple, brown, pink, grey, olive, cyan). */
  const Tab10: seq<Rgb> := [
    Rgb(0x1f, 0x77, 0xb4), Rgb(0xff, 0x7f, 0x0e), Rgb(0x2c, 0xa0, 0x2c),
    Rgb(0xd6, 0x27, 0x28), Rgb(0x94, 0x67, 0xbd), Rgb(0x8c, 0x56, 0x4b),
    Rgb(0xe3, 0x77, 0xc2), Rgb(0x7f, 0x7f, 0x7f), Rgb(0xbc, 0xbd, 0x22),
    Rgb(0x17, 0xbe, 0xcf)]

  /** The colour of the lines drawn for the name at this position of the
      requested list: the palette is cycled. */
  function Colour(position: nat): (c: Rgb)
    ensures c in Tab10
  {
    Tab10[position % |Tab10|]
  }

  /** The palette has no repeated entry. */
  lemma Tab10Distinct()
    ensures forall i, j :: 0 <= i < j < |Tab10| ==> Tab10[i] != Tab10[j]
  {
  }

  /** Two positions share a colour exactly when they are congruent modulo
      the palette size: colour depends on position only, and names ten apart
      share one. */
  lemma SameColourIff(i: nat, j: nat)
    ensures Colour(i) == Colour(j) <==> i % 10 == j % 10
  {
  }

  /** Marker shapes used by the chart, with matplotlib's format codes. */
  datatype Marker = Circle | TriangleUp

  function MarkerCode(m: Marker): string {
    match m
    case Circle => "o"
    case TriangleUp => "^"
  }

  /** Line styles used by the chart, with matplotlib's format codes. */
  datatype LineStyle = Solid | Dashed

  function LineCode(l: LineStyle): string {
    match l
    case Solid => "-"
    case Dashed => "--"
  }

  function MarkerOf(g: Gender): Marker {
    match g
    case Male => Circle
    case Female => TriangleUp
  }

  function LineOf(g: Gender): LineStyle {
    match g
    case Male => Solid
    case Female => Dashed
  }

  /** The two genders of one name share a colour but never a marker or a
      line style, so their lines stay distinguishable. */
  lemma GendersDrawnApart(g: Gender, h: Gender)
    ensures g != h ==> MarkerCode(MarkerOf(g)) != MarkerCode(MarkerOf(h))
    ensures g != h ==> LineCode(LineOf(g)) != LineCode(LineOf(h))
    ensures MarkerCode(MarkerOf(Male)) == "o" && LineCode(LineOf(Male)) == "-"
    ensures MarkerCode(MarkerOf(Female)) == "^" && LineCode(LineOf(Female)) == "--"
  {
  }

  /** The legend entry of a line: the name, then the gender code in
      parentheses. */
  function Label(name: string, g: Gender): (legend: string)
    ensures |legend| == |name| + 4
    ensures legend[..|name|] == name
  {
    name + " (" + Code(g) + ")"
  }

  /** Different (name, gender) pairs never share a legend entry, and a legend
      entry ends in " (M)" or " (F)" according to the gender. */
  lemma LabelInjective(n: string, g: Gender, n': string, g': Gender)
    ensures Label(n, g) == Label(n', g') <==> n == n' && g == g'
    ensures Label(n, g)[|n|..] == (if g == Male then " (M)" else " (F)")
  {
    if Label(n, g) == Label(n', g') {
      assert |n| == |n'|;
      assert n == Label(n, g)[..|n|];
      assert Label(n, g)[|n| + 2] == Code(g)[0];
      assert Label(n', g')[|n'| + 2] == Code(g')[0];
    }
  }
}
