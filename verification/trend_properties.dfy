/** Consequences of the trend query's characterisation: year bounds, which
    lines exist, colours and point order. */
module TrendProperties {
  import opened Wrappers
  import opened Table
  import opened Style
  import opened Trends

  /** A (position, gender) line is drawn exactly when the table has a row of
      that name and gender code inside the year range. */
  lemma {:induction false} LinePresentIff<V>(rows: seq<Row<V>>, names: seq<string>, metric: string,
                                              lo: int, hi: int, k: nat, g: Gender)
    requires k < |names|
    ensures var r := Trend(rows, names, metric, lo, hi);
      r.Success? ==>
        (HasLine(r.value.series, k, g) <==>
         exists i :: 0 <= i < |rows| && OnTrack(rows[i], names[k], g, lo, hi))
  {
    var r := Trend(rows, names, metric, lo, hi);
    if r.Success? {
      var out := r.value.series;
      var m := ParseMetric(metric).value;
      TrendDescribes(rows, names, metric, lo, hi);
      var t := Track(rows, names[k], g, lo, hi);
      if HasLine(out, k, g) {
        var j :| 0 <= j < |out| && out[j].position == k && out[j].gender == g;
        assert Drawn(out[j], rows, names, m, lo, hi);
        assert t[0] in rows && OnTrack(t[0], names[k], g, lo, hi);
      }
      if exists i :: 0 <= i < |rows| && OnTrack(rows[i], names[k], g, lo, hi) {
        var i :| 0 <= i < |rows| && OnTrack(rows[i], names[k], g, lo, hi);
        assert rows[i] in t;
      }
    }
  }

  /** Every plotted point lies in the inclusive year range. */
  lemma YearsInRange<V>(rows: seq<Row<V>>, names: seq<string>, metric: string, lo: int, hi: int)
    ensures var r := Trend(rows, names, metric, lo, hi);
      r.Success? ==>
        forall j, k :: 0 <= j < |r.value.series| && 0 <= k < |r.value.series[j].points| ==>
          lo <= r.value.series[j].points[k].year <= hi
  {
    var r := Trend(rows, names, metric, lo, hi);
    if r.Success? {
      var out := r.value.series;
      var m := ParseMetric(metric).value;
      TrendDescribes(rows, names, metric, lo, hi);
      forall j, k | 0 <= j < |out| && 0 <= k < |out[j].points|
        ensures lo <= out[j].points[k].year <= hi
      {
        assert Drawn(out[j], rows, names, m, lo, hi);
        var t := Track(rows, out[j].name, out[j].gender, lo, hi);
        assert out[j].points[k].year == t[k].year;
      }
    }
  }

  /** An inverted year range draws no line at all (and raises nothing). */
  lemma InvertedRangeDrawsNothing<V>(rows: seq<Row<V>>, names: seq<string>, metric: string,
                                     lo: int, hi: int)
    ensures var r := Trend(rows, names, metric, lo, hi);
      r.Success? && hi < lo ==> r.value.series == []
  {
    var r := Trend(rows, names, metric, lo, hi);
    if r.Success? && |r.value.series| > 0 {
      var m := ParseMetric(metric).value;
      TrendDescribes(rows, names, metric, lo, hi);
      YearsInRange(rows, names, metric, lo, hi);
      assert Drawn(r.value.series[0], rows, names, m, lo, hi);
      assert lo <= r.value.series[0].points[0].year <= hi;
    }
  }

  /** A requested name without any row in the year range gets no line, at
      its own position or at any other position holding the same name. */
  lemma AbsentNameDrawsNothing<V>(rows: seq<Row<V>>, names: seq<string>, metric: string,
                                  lo: int, hi: int, name: string)
    requires forall i :: 0 <= i < |rows| && rows[i].name == name ==> rows[i].year < lo || hi < rows[i].year
    ensures var r := Trend(rows, names, metric, lo, hi);
      r.Success? ==> forall j :: 0 <= j < |r.value.series| ==> r.value.series[j].name != name
  {
    var r := Trend(rows, names, metric, lo, hi);
    if r.Success? {
      var out := r.value.series;
      var m := ParseMetric(metric).value;
      TrendDescribes(rows, names, metric, lo, hi);
      forall j | 0 <= j < |out|
        ensures out[j].name != name
      {
        assert Drawn(out[j], rows, names, m, lo, hi);
        var t := Track(rows, out[j].name, out[j].gender, lo, hi);
        assert t[0] in rows && OnTrack(t[0], out[j].name, out[j].gender, lo, hi);
      }
    }
  }

  /** out has exactly one line at position k, and it is of gender g. */
  ghost predicate SoleLine<V>(out: seq<Series<V>>, k: nat, g: Gender) {
    exists j :: 0 <= j < |out| && out[j].position == k && out[j].gender == g
      && forall j' :: 0 <= j' < |out| && out[j'].position == k ==> j' == j
  }

  /** A name with in-range rows of only one gender gets exactly one line, of
      that gender. */
  lemma SingleGenderSingleLine<V>(rows: seq<Row<V>>, names: seq<string>, metric: string,
                                  lo: int, hi: int, k: nat, g: Gender)
    requires k < |names|
    requires exists i :: 0 <= i < |rows| && OnTrack(rows[i], names[k], g, lo, hi)
    requires forall i :: 0 <= i < |rows| ==> !OnTrack(rows[i], names[k], if g == Male then Female else Male, lo, hi)
    ensures var r := Trend(rows, names, metric, lo, hi);
      r.Success? ==>
        && HasLine(r.value.series, k, g)
        && (forall j :: 0 <= j < |r.value.series| && r.value.series[j].position == k ==>
             r.value.series[j].gender == g)
        && SoleLine(r.value.series, k, g)
  {
    var r := Trend(rows, names, metric, lo, hi);
    if r.Success? {
      var out := r.value.series;
      var h := if g == Male then Female else Male;
      LinePresentIff(rows, names, metric, lo, hi, k, g);
      LinePresentIff(rows, names, metric, lo, hi, k, h);
      assert !HasLine(out, k, h);
      forall j | 0 <= j < |out| && out[j].position == k
        ensures out[j].gender == g
      {
        assert !(out[j].position == k && out[j].gender == h);
      }
      TrendDescribes(rows, names, metric, lo, hi);
      OrderedSoleLine(out, k, g);
    }
  }

  /** In drawing order, a position whose lines are all of gender g has at most
      one of them. */
  lemma OrderedSoleLine<V>(out: seq<Series<V>>, k: nat, g: Gender)
    requires InDrawingOrder(out) && HasLine(out, k, g)
    requires forall j :: 0 <= j < |out| && out[j].position == k ==> out[j].gender == g
    ensures SoleLine(out, k, g)
  {
    var j :| 0 <= j < |out| && out[j].position == k && out[j].gender == g;
    forall j' | 0 <= j' < |out| && out[j'].position == k
      ensures j' == j
    {
      assert out[j'].gender == g;
      assert !Precedes(out[j'], out[j]) && !Precedes(out[j], out[j']);
    }
  }

  /** A name requested twice is drawn twice, once at each of its positions;
      the colours of the two lines follow ColourByPosition. */
  lemma DuplicateNameDrawnTwice<V>(rows: seq<Row<V>>, names: seq<string>, metric: string,
                                   lo: int, hi: int, k: nat, k': nat, g: Gender)
    requires k < k' < |names| && names[k] == names[k']
    requires exists i :: 0 <= i < |rows| && OnTrack(rows[i], names[k], g, lo, hi)
    ensures var r := Trend(rows, names, metric, lo, hi);
      r.Success? ==> HasLine(r.value.series, k, g) && HasLine(r.value.series, k', g)
  {
    LinePresentIff(rows, names, metric, lo, hi, k, g);
    LinePresentIff(rows, names, metric, lo, hi, k', g);
  }

  /** Two lines share a colour exactly when their positions are congruent
      modulo ten; in particular both lines of one name share a colour. */
  lemma ColourByPosition<V>(rows: seq<Row<V>>, names: seq<string>, metric: string, lo: int, hi: int)
    ensures var r := Trend(rows, names, metric, lo, hi);
      r.Success? ==>
        forall i, j :: 0 <= i < |r.value.series| && 0 <= j < |r.value.series| ==>
          (r.value.series[i].colour == r.value.series[j].colour
           <==> r.value.series[i].position % 10 == r.value.series[j].position % 10)
  {
    var r := Trend(rows, names, metric, lo, hi);
    if r.Success? {
      var out := r.value.series;
      var m := ParseMetric(metric).value;
      TrendDescribes(rows, names, metric, lo, hi);
      forall i, j | 0 <= i < |out| && 0 <= j < |out|
        ensures out[i].colour == out[j].colour <==> out[i].position % 10 == out[j].position % 10
      {
        assert Drawn(out[i], rows, names, m, lo, hi);
        assert Drawn(out[j], rows, names, m, lo, hi);
        SameColourIff(out[i].position, out[j].position);
      }
    }
  }

  /** On a table sorted by (Name, Year), the years of every line ascend. */
  lemma YearsAscend<V>(rows: seq<Row<V>>, names: seq<string>, metric: string, lo: int, hi: int)
    requires SortedByNameYear(rows)
    ensures var r := Trend(rows, names, metric, lo, hi);
      r.Success? ==>
        forall j, a, b :: 0 <= j < |r.value.series| && 0 <= a < b < |r.value.series[j].points| ==>
          r.value.series[j].points[a].year <= r.value.series[j].points[b].year
  {
    var r := Trend(rows, names, metric, lo, hi);
    if r.Success? {
      var out := r.value.series;
      var m := ParseMetric(metric).value;
      TrendDescribes(rows, names, metric, lo, hi);
      forall j, a, b | 0 <= j < |out| && 0 <= a < b < |out[j].points|
        ensures out[j].points[a].year <= out[j].points[b].year
      {
        assert Drawn(out[j], rows, names, m, lo, hi);
        var t := Track(rows, out[j].name, out[j].gender, lo, hi);
        WhereKeepsOrder(rows, SeriesCriterion(out[j].name, out[j].gender, lo, hi));
        assert t[a].name == t[b].name;
        SameNameYearsAscend(t, a, b);
      }
    }
  }

  /** A row whose gender code is neither "M" nor "F" is on no line. */
  lemma UncodedRowsNeverDrawn<V>(rows: seq<Row<V>>, row: Row<V>, name: string, g: Gender, lo: int, hi: int)
    requires row.gender != "M" && row.gender != "F"
    ensures row !in Track(rows, name, g, lo, hi)
  {
  }
}

/** Describes pins the line list down completely: any list it accepts is the
    one the trend query returns. */
module TrendUniqueness {
  import opened Table
  import opened Style
  import opened Trends

  /** A line's place in drawing order. */
  function Rank<V>(s: Series<V>): int {
    2 * s.position + (if s.gender == Male then 0 else 1)
  }

  predicate StrictlyAscending(r: seq<int>) {
    forall i, j :: 0 <= i < j < |r| ==> r[i] < r[j]
  }

  /** Two strictly ascending lists with the same elements are equal. */
  lemma {:induction false} AscendingUnique(a: seq<int>, b: seq<int>)
    requires StrictlyAscending(a) && StrictlyAscending(b)
    requires forall x :: x in a <==> x in b
    ensures a == b
    decreases |a|
  {
    assert |a| > 0 ==> a[0] in a && a[0] in b;
    assert |b| > 0 ==> b[0] in b && b[0] in a;
    if |a| > 0 {
      assert a[0] in b && b[0] in a;
      assert |b| > 0;
      var i :| 0 <= i < |b| && b[i] == a[0];
      var j :| 0 <= j < |a| && a[j] == b[0];
      assert a[0] <= a[j] && b[0] <= b[i];
      assert a[0] == b[0];
      forall x
        ensures x in a[1..] <==> x in b[1..]
      {
        if x in a[1..] {
          var k :| 1 <= k < |a| && a[k] == x;
          assert a[0] < x && x in b;
          var l :| 0 <= l < |b| && b[l] == x;
          assert b[1..][l - 1] == x;
        }
        if x in b[1..] {
          var k :| 1 <= k < |b| && b[k] == x;
          assert b[0] < x && x in a;
          var l :| 0 <= l < |a| && a[l] == x;
          assert a[1..][l - 1] == x;
        }
      }
      AscendingUnique(a[1..], b[1..]);
      assert a == [a[0]] + a[1..] && b == [b[0]] + b[1..];
    }
  }

  function Ranks<V>(out: seq<Series<V>>): seq<int> {
    seq(|out|, i requires 0 <= i < |out| => Rank(out[i]))
  }

  /** A drawn line is determined by its position and gender. */
  lemma DrawnDeterminedByRank<V>(s: Series<V>, t: Series<V>, rows: seq<Row<V>>, names: seq<string>,
                                 m: Metric, lo: int, hi: int)
    requires Drawn(s, rows, names, m, lo, hi) && Drawn(t, rows, names, m, lo, hi)
    requires Rank(s) == Rank(t)
    ensures s == t
  {
  }

  lemma RanksAgree<V>(a: seq<Series<V>>, b: seq<Series<V>>, rows: seq<Row<V>>, names: seq<string>,
                      m: Metric, lo: int, hi: int)
    requires AllDrawn(a, rows, names, m, lo, hi) && Complete(b, rows, names, lo, hi)
    ensures forall x :: x in Ranks(a) ==> x in Ranks(b)
  {
    forall x | x in Ranks(a)
      ensures x in Ranks(b)
    {
      var i :| 0 <= i < |a| && Ranks(a)[i] == x;
      assert Drawn(a[i], rows, names, m, lo, hi);
      assert HasLine(b, a[i].position, a[i].gender);
      var j :| 0 <= j < |b| && b[j].position == a[i].position && b[j].gender == a[i].gender;
      assert Ranks(b)[j] == x;
    }
  }

  lemma OrderedRanksAscend<V>(out: seq<Series<V>>)
    requires InDrawingOrder(out)
    ensures StrictlyAscending(Ranks(out))
  {
    forall i, j | 0 <= i < j < |Ranks(out)|
      ensures Ranks(out)[i] < Ranks(out)[j]
    {
      assert Precedes(out[i], out[j]);
    }
  }

  /** Any two lists Describes accepts are equal. */
  lemma DescribesUnique<V>(a: seq<Series<V>>, b: seq<Series<V>>, rows: seq<Row<V>>,
                           names: seq<string>, m: Metric, lo: int, hi: int)
    requires Describes(a, rows, names, m, lo, hi) && Describes(b, rows, names, m, lo, hi)
    ensures a == b
  {
    RanksAgree(a, b, rows, names, m, lo, hi);
    RanksAgree(b, a, rows, names, m, lo, hi);
    OrderedRanksAscend(a);
    OrderedRanksAscend(b);
    AscendingUnique(Ranks(a), Ranks(b));
    forall i | 0 <= i < |a|
      ensures a[i] == b[i]
    {
      assert Rank(a[i]) == Ranks(a)[i] == Ranks(b)[i] == Rank(b[i]);
      DrawnDeterminedByRank(a[i], b[i], rows, names, m, lo, hi);
    }
  }

  /** A line list is the trend query's answer exactly when Describes accepts
      it. */
  lemma TrendIffDescribes<V>(out: seq<Series<V>>, rows: seq<Row<V>>, names: seq<string>,
                             metric: string, lo: int, hi: int)
    requires ParseMetric(metric).Success?
    ensures out == Trend(rows, names, metric, lo, hi).value.series
            <==> Describes(out, rows, names, ParseMetric(metric).value, lo, hi)
  {
    var m := ParseMetric(metric).value;
    AllSeriesDescribes(rows, names, m, lo, hi);
    if Describes(out, rows, names, m, lo, hi) {
      DescribesUnique(out, AllSeries(rows, names, m, lo, hi), rows, names, m, lo, hi);
    }
  }
}
