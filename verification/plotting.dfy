/** The trend routine as the dashboard runs it: one year filter over the
    whole table, then per requested name a name filter and two gender
    filters, each a full scan, appending a line for every non-empty
    selection. */
module Plotting {
  import opened Wrappers
  import opened Table
  import opened Style
  import opened Trends

  /** A boolean-mask selection: one scan of the rows, keeping those that
      satisfy c in their order. */
  method Select<V>(rows: seq<Row<V>>, c: Criterion) returns (picked: seq<Row<V>>)
    ensures picked == Where(rows, c)
  {
    picked := [];
    var i := 0;
    while i < |rows|
      invariant 0 <= i <= |rows|
      invariant picked == Where(rows[..i], c)
    {
      assert rows[..i + 1][..i] == rows[..i];
      if Holds(c, rows[i]) {
        picked := picked + [rows[i]];
      }
      i := i + 1;
    }
    assert rows[..i] == rows;
  }

  /** The staged selections pick exactly the rows of the (name, g) line. */
  lemma StagedTrack<V>(rows: seq<Row<V>>, name: string, g: Gender, lo: int, hi: int)
    ensures Where(Where(Where(rows, YearBetween(lo, hi)), NameIs(name)), GenderIs(Code(g)))
         == Track(rows, name, g, lo, hi)
  {
    WhereBoth(rows, YearBetween(lo, hi), NameIs(name));
    WhereBoth(rows, Both(YearBetween(lo, hi), NameIs(name)), GenderIs(Code(g)));
  }

  /** The line of one gender of a name, from the name's in-range rows:
      nothing when the gender selection is empty. */
  method GenderLine<V>(data: seq<Row<V>>, nameData: seq<Row<V>>, name: string, position: nat,
                       g: Gender, m: Metric, startYear: int, endYear: int)
    returns (line: seq<Series<V>>)
    requires nameData == Where(Where(data, YearBetween(startYear, endYear)), NameIs(name))
    ensures line == GenderSeries(data, name, position, g, m, startYear, endYear)
  {
    var genderData := Select(nameData, GenderIs(if g == Male then "M" else "F"));
    StagedTrack(data, name, g, startYear, endYear);
    LegendSuffix(name);
    line := [];
    if |genderData| > 0 {
      var colour := Tab10[position % |Tab10|];
      if g == Male {
        line := [Series(name, position, g, Points(genderData, m), colour, Circle, Solid, name + " (M)")];
      } else {
        line := [Series(name, position, g, Points(genderData, m), colour, TriangleUp, Dashed, name + " (F)")];
      }
    }
  }

  /** The lines of the name at this position, from the year-filtered
      table: nothing when the name has no row there, otherwise the male line
      and then the female line, each only when its selection is non-empty. */
  method NameLines<V>(data: seq<Row<V>>, filtered: seq<Row<V>>, name: string, position: nat,
                      m: Metric, startYear: int, endYear: int)
    returns (block: seq<Series<V>>)
    requires filtered == Where(data, YearBetween(startYear, endYear))
    ensures block == NameSeries(data, name, position, m, startYear, endYear)
  {
    var nameData := Select(filtered, NameIs(name));
    block := [];
    if |nameData| > 0 {
      var male := GenderLine(data, nameData, name, position, Male, m, startYear, endYear);
      var female := GenderLine(data, nameData, name, position, Female, m, startYear, endYear);
      block := male + female;
    } else {
      assert Where(nameData, GenderIs("M")) == [] && Where(nameData, GenderIs("F")) == [];
      StagedTrack(data, name, Male, startYear, endYear);
      StagedTrack(data, name, Female, startYear, endYear);
    }
  }

  /** Draws the trend chart of the requested names over [startYear, endYear]
      for the metric key, or reports the key unknown. The result is the one
      the trend query specifies. */
  method PlotNameTrendFiltered<V>(data: seq<Row<V>>, names: seq<string>, metric: string,
                                  startYear: int, endYear: int)
    returns (r: Result<Chart<V>, TrendError>)
    ensures r == Trend(data, names, metric, startYear, endYear)
  {
    var column := ParseMetric(metric);
    if column.Failure? {
      return Failure(column.error);
    }
    var m := column.value;
    var filtered := Select(data, YearBetween(startYear, endYear));
    var plotted: seq<Series<V>> := [];
    var i := 0;
    while i < |names|
      invariant 0 <= i <= |names|
      invariant plotted == AllSeries(data, names[..i], m, startYear, endYear)
    {
      var block := NameLines(data, filtered, names[i], i, m, startYear, endYear);
      plotted := plotted + block;
      assert names[..i + 1][..i] == names[..i];
      i := i + 1;
    }
    assert names[..i] == names;
    r := Success(Chart(YLabels[metric], plotted));
  }
}
