/** The trend query: which lines the trend chart draws for a list of names,
    a metric and an inclusive year range, stated as a pure function of the
    table, together with an independent description of that output and the
    properties that follow from it. */
module Trends {
  import opened Wrappers
  import opened Table
  import opened Style

  /** One plotted point: a year and the metric's value in that year. */
  datatype Point<V> = Point(year: int, value: V)

  /** One line of the chart. position is the index of its name in the
      requested list, which fixes its colour. */
  datatype Series<V> = Series(name: string, position: nat, gender: Gender,
                              points: seq<Point<V>>, colour: Rgb,
                              marker: Marker, line: LineStyle, legend: string)

  /** What the trend chart shows: the y-axis caption and its lines, in
      drawing order. */
  datatype Chart<V> = Chart(yLabel: string, series: seq<Series<V>>)

  /** The condition a row must meet to be a point of the (name, g) line. */
  function SeriesCriterion(name: string, g: Gender, lo: int, hi: int): Criterion {
    Both(Both(YearBetween(lo, hi), NameIs(name)), GenderIs(Code(g)))
  }

  /** A row belongs on the (name, g) line of the range [lo, hi]. */
  predicate OnTrack<V>(row: Row<V>, name: string, g: Gender, lo: int, hi: int) {
    row.name == name && row.gender == Code(g) && lo <= row.year <= hi
  }

  lemma SeriesCriterionHolds<V>(name: string, g: Gender, lo: int, hi: int)
    ensures forall row: Row<V> {:trigger Holds(SeriesCriterion(name, g, lo, hi), row)} ::
              Holds(SeriesCriterion(name, g, lo, hi), row) <==> OnTrack(row, name, g, lo, hi)
  {
    forall row: Row<V>
      ensures Holds(SeriesCriterion(name, g, lo, hi), row) <==> OnTrack(row, name, g, lo, hi)
    {
      assert Holds(SeriesCriterion(name, g, lo, hi), row)
        == (Holds(Both(YearBetween(lo, hi), NameIs(name)), row) && Holds(GenderIs(Code(g)), row));
      assert Holds(Both(YearBetween(lo, hi), NameIs(name)), row)
        == (Holds(YearBetween(lo, hi), row) && Holds(NameIs(name), row));
    }
  }

  /** The rows the (name, g) line is drawn from: exactly the rows of that
      name and gender code whose year lies in [lo, hi], in table order. */
  function Track<V>(rows: seq<Row<V>>, name: string, g: Gender, lo: int, hi: int): (t: seq<Row<V>>)
    ensures forall k :: 0 <= k < |t| ==> t[k] in rows && OnTrack(t[k], name, g, lo, hi)
    ensures forall k :: 0 <= k < |rows| && OnTrack(rows[k], name, g, lo, hi) ==> rows[k] in t
  {
    SeriesCriterionHolds<V>(name, g, lo, hi);
    Where(rows, SeriesCriterion(name, g, lo, hi))
  }

  /** The (Year, metric) pairs of some rows, in their order. */
  function Points<V>(rows: seq<Row<V>>, m: Metric): seq<Point<V>> {
    seq(|rows|, k requires 0 <= k < |rows| => Point(rows[k].year, Column(rows[k], m)))
  }

  /** A line with the rendering the chart gives the name at this position. */
  function Line<V>(name: string, position: nat, g: Gender, points: seq<Point<V>>): Series<V> {
    Series(name, position, g, points, Colour(position), MarkerOf(g), LineOf(g), Label(name, g))
  }

  /** The (name, g) line, or nothing when it would have no point. */
  function GenderSeries<V>(rows: seq<Row<V>>, name: string, position: nat, g: Gender,
                           m: Metric, lo: int, hi: int): seq<Series<V>> {
    var t := Track(rows, name, g, lo, hi);
    if |t| == 0 then [] else [Line(name, position, g, Points(t, m))]
  }

  /** The lines of one requested name: the male line, then the female one. */
  function NameSeries<V>(rows: seq<Row<V>>, name: string, position: nat,
                         m: Metric, lo: int, hi: int): seq<Series<V>> {
    GenderSeries(rows, name, position, Male, m, lo, hi)
      + GenderSeries(rows, name, position, Female, m, lo, hi)
  }

  /** The lines of all requested names, in the order of the list. */
  function AllSeries<V>(rows: seq<Row<V>>, names: seq<string>, m: Metric,
                        lo: int, hi: int): seq<Series<V>>
    decreases |names|
  {
    if |names| == 0 then []
    else
      var n := |names| - 1;
      AllSeries(rows, names[..n], m, lo, hi) + NameSeries(rows, names[n], n, m, lo, hi)
  }

  /** The trend chart for a list of names, a metric key and the inclusive
      year range [startYear, endYear]. It fails exactly on a metric key
      without a y-axis caption, whatever the names and years. */
  function Trend<V>(rows: seq<Row<V>>, names: seq<string>, metric: string,
                    startYear: int, endYear: int): (r: Result<Chart<V>, TrendError>)
    ensures r.Success? <==> metric in YLabels
    ensures r.Success? ==> r.value.yLabel == YLabels[metric]
    ensures r.Failure? ==> r.error == UnknownMetric(metric)
  {
    match ParseMetric(metric)
    case Failure(e) => Failure(e)
    case Success(m) => Success(Chart(YLabels[metric], AllSeries(rows, names, m, startYear, endYear)))
  }

  /** s is a line the chart must draw: it belongs to a requested position,
      holds exactly the in-range rows of that name and gender, is not empty,
      and carries the position's palette colour and the gender's marker,
      line style and legend suffix. */
  ghost predicate Drawn<V>(s: Series<V>, rows: seq<Row<V>>, names: seq<string>,
                           m: Metric, lo: int, hi: int) {
    && s.position < |names|
    && s.name == names[s.position]
    && s.points == Points(Track(rows, s.name, s.gender, lo, hi), m)
    && |s.points| > 0
    && s.colour == Tab10[s.position % 10]
    && (s.gender == Male ==> s.marker == Circle && s.line == Solid && s.legend == s.name + " (M)")
    && (s.gender == Female ==> s.marker == TriangleUp && s.line == Dashed && s.legend == s.name + " (F)")
  }

  ghost predicate AllDrawn<V>(out: seq<Series<V>>, rows: seq<Row<V>>, names: seq<string>,
                              m: Metric, lo: int, hi: int) {
    forall j :: 0 <= j < |out| ==> Drawn(out[j], rows, names, m, lo, hi)
  }

  /** Drawing order: by position in the name list, male before female. */
  ghost predicate Precedes<V>(a: Series<V>, b: Series<V>) {
    a.position < b.position || (a.position == b.position && a.gender == Male && b.gender == Female)
  }

  ghost predicate InDrawingOrder<V>(out: seq<Series<V>>) {
    forall i, j :: 0 <= i < j < |out| ==> Precedes(out[i], out[j])
  }

  /** out has a line for gender g at position k. */
  ghost predicate HasLine<V>(out: seq<Series<V>>, k: nat, g: Gender) {
    exists j :: 0 <= j < |out| && out[j].position == k && out[j].gender == g
  }

  ghost predicate Complete<V>(out: seq<Series<V>>, rows: seq<Row<V>>, names: seq<string>, lo: int, hi: int) {
    forall k: nat, g :: k < |names| && |Track(rows, names[k], g, lo, hi)| > 0 ==> HasLine(out, k, g)
  }

  lemma HasLineAppend<V>(a: seq<Series<V>>, b: seq<Series<V>>, k: nat, g: Gender)
    requires HasLine(a, k, g) || HasLine(b, k, g)
    ensures HasLine(a + b, k, g)
  {
    if HasLine(a, k, g) {
      var j :| 0 <= j < |a| && a[j].position == k && a[j].gender == g;
      assert (a + b)[j] == a[j];
    } else {
      var j :| 0 <= j < |b| && b[j].position == k && b[j].gender == g;
      assert (a + b)[|a| + j] == b[j];
    }
  }

  /** out is in drawing order and uses positions below n only. */
  ghost predicate Placed<V>(out: seq<Series<V>>, n: nat) {
    InDrawingOrder(out) && forall j :: 0 <= j < |out| ==> out[j].position < n
  }

  /** blk holds at most a male and then a female line, both at position n. */
  ghost predicate PositionBlock<V>(blk: seq<Series<V>>, n: nat) {
    && |blk| <= 2
    && (forall j :: 0 <= j < |blk| ==> blk[j].position == n)
    && (|blk| == 2 ==> blk[0].gender == Male && blk[1].gender == Female)
  }

  /** Appending the lines of position n to lines of earlier positions keeps
      drawing order. */
  lemma OrderedAppend<V>(prev: seq<Series<V>>, blk: seq<Series<V>>, n: nat)
    requires Placed(prev, n)
    requires PositionBlock(blk, n)
    ensures Placed(prev + blk, n + 1)
  {
  }

  /** out is the chart's line list: every line is drawn as the chart must
      draw it, the lines come strictly in drawing order (so each position
      has at most one line per gender), and every (position, gender) with
      some in-range row has its line. */
  ghost predicate Describes<V>(out: seq<Series<V>>, rows: seq<Row<V>>, names: seq<string>,
                               m: Metric, lo: int, hi: int) {
    && AllDrawn(out, rows, names, m, lo, hi)
    && InDrawingOrder(out)
    && Complete(out, rows, names, lo, hi)
  }

  /** The legend the chart gives each gender. */
  lemma LegendSuffix(name: string)
    ensures Label(name, Male) == name + " (M)" && Label(name, Female) == name + " (F)"
  {
  }

  /** The lines of one name: at most two, both at its position, the male
      one first. */
  lemma NameSeriesShape<V>(rows: seq<Row<V>>, name: string, n: nat, m: Metric, lo: int, hi: int)
    ensures PositionBlock(NameSeries(rows, name, n, m, lo, hi), n)
  {
  }

  /** Each gender's line of a name is present when that gender has an
      in-range row. */
  lemma NameSeriesPresent<V>(rows: seq<Row<V>>, name: string, n: nat, m: Metric, lo: int, hi: int)
    ensures |Track(rows, name, Male, lo, hi)| > 0 ==> HasLine(NameSeries(rows, name, n, m, lo, hi), n, Male)
    ensures |Track(rows, name, Female, lo, hi)| > 0 ==> HasLine(NameSeries(rows, name, n, m, lo, hi), n, Female)
  {
    var blk := NameSeries(rows, name, n, m, lo, hi);
    if |Track(rows, name, Male, lo, hi)| > 0 {
      assert blk[0].position == n && blk[0].gender == Male;
    }
    if |Track(rows, name, Female, lo, hi)| > 0 {
      assert blk[|blk| - 1].position == n && blk[|blk| - 1].gender == Female;
    }
  }

  lemma NameSeriesDrawn<V>(rows: seq<Row<V>>, names: seq<string>, n: nat, m: Metric, lo: int, hi: int)
    requires n < |names|
    ensures AllDrawn(NameSeries(rows, names[n], n, m, lo, hi), rows, names, m, lo, hi)
  {
  }

  lemma DrawnAppend<V>(prev: seq<Series<V>>, blk: seq<Series<V>>, rows: seq<Row<V>>,
                       names: seq<string>, n: nat, m: Metric, lo: int, hi: int)
    requires n <= |names|
    requires AllDrawn(prev, rows, names[..n], m, lo, hi)
    requires AllDrawn(blk, rows, names, m, lo, hi)
    ensures AllDrawn(prev + blk, rows, names, m, lo, hi)
  {
  }

  lemma {:induction false} AllSeriesDrawn<V>(rows: seq<Row<V>>, names: seq<string>,
                                              m: Metric, lo: int, hi: int)
    ensures AllDrawn(AllSeries(rows, names, m, lo, hi), rows, names, m, lo, hi)
    decreases |names|
  {
    if |names| > 0 {
      var n := |names| - 1;
      var prev := AllSeries(rows, names[..n], m, lo, hi);
      var blk := NameSeries(rows, names[n], n, m, lo, hi);
      AllSeriesDrawn(rows, names[..n], m, lo, hi);
      NameSeriesDrawn(rows, names, n, m, lo, hi);
      DrawnAppend(prev, blk, rows, names, n, m, lo, hi);
      assert AllSeries(rows, names, m, lo, hi) == prev + blk;
    }
  }

  lemma {:induction false} AllSeriesOrdered<V>(rows: seq<Row<V>>, names: seq<string>,
                                                m: Metric, lo: int, hi: int)
    ensures Placed(AllSeries(rows, names, m, lo, hi), |names|)
    decreases |names|
  {
    if |names| > 0 {
      var out := AllSeries(rows, names, m, lo, hi);
      var n := |names| - 1;
      var prev := AllSeries(rows, names[..n], m, lo, hi);
      var blk := NameSeries(rows, names[n], n, m, lo, hi);
      AllSeriesOrdered(rows, names[..n], m, lo, hi);
      NameSeriesShape(rows, names[n], n, m, lo, hi);
      OrderedAppend(prev, blk, n);
      assert out == prev + blk;
    }
  }

  lemma {:induction false} AllSeriesComplete<V>(rows: seq<Row<V>>, names: seq<string>,
                                                 m: Metric, lo: int, hi: int)
    ensures Complete(AllSeries(rows, names, m, lo, hi), rows, names, lo, hi)
    decreases |names|
  {
    if |names| > 0 {
      var out := AllSeries(rows, names, m, lo, hi);
      var n := |names| - 1;
      var init := names[..n];
      var prev := AllSeries(rows, init, m, lo, hi);
      var blk := NameSeries(rows, names[n], n, m, lo, hi);
      AllSeriesComplete(rows, init, m, lo, hi);
      NameSeriesPresent(rows, names[n], n, m, lo, hi);
      CompleteAppend(prev, blk, rows, names, lo, hi);
      assert out == prev + blk;
    }
  }

  lemma CompleteAppend<V>(prev: seq<Series<V>>, blk: seq<Series<V>>, rows: seq<Row<V>>,
                          names: seq<string>, lo: int, hi: int)
    requires |names| > 0
    requires Complete(prev, rows, names[..|names| - 1], lo, hi)
    requires |Track(rows, names[|names| - 1], Male, lo, hi)| > 0 ==> HasLine(blk, |names| - 1, Male)
    requires |Track(rows, names[|names| - 1], Female, lo, hi)| > 0 ==> HasLine(blk, |names| - 1, Female)
    ensures Complete(prev + blk, rows, names, lo, hi)
  {
    var n := |names| - 1;
    forall k: nat, g | k < |names| && |Track(rows, names[k], g, lo, hi)| > 0
      ensures HasLine(prev + blk, k, g)
    {
      if k < n {
        assert names[..n][k] == names[k];
      }
      HasLineAppend(prev, blk, k, g);
    }
  }

  /** The list AllSeries builds is the one Describes characterises. */
  lemma AllSeriesDescribes<V>(rows: seq<Row<V>>, names: seq<string>, m: Metric, lo: int, hi: int)
    ensures Describes(AllSeries(rows, names, m, lo, hi), rows, names, m, lo, hi)
  {
    AllSeriesDrawn(rows, names, m, lo, hi);
    AllSeriesOrdered(rows, names, m, lo, hi);
    AllSeriesComplete(rows, names, m, lo, hi);
  }

  /** Main theorem: a successful trend query returns exactly the lines
      Describes characterises. */
  lemma TrendDescribes<V>(rows: seq<Row<V>>, names: seq<string>, metric: string, lo: int, hi: int)
    ensures var r := Trend(rows, names, metric, lo, hi);
      r.Success? ==> Describes(r.value.series, rows, names, ParseMetric(metric).value, lo, hi)
  {
    if ParseMetric(metric).Success? {
      AllSeriesDescribes(rows, names, ParseMetric(metric).value, lo, hi);
    }
  }
}
