/** The in-memory name table and the boolean-mask row selections the trend
    page applies to it. */
module Table {
  import opened Wrappers

  /** One line of the dataset: a (Name, Year, Gender) triple with its three
      metric columns. The metric values are only ever selected and handed to
      the plot, never computed with, so their type is a parameter. */
  datatype Row<V> = Row(name: string, year: int, gender: string,
                        count: V, nameRatio: V, genderNameRatio: V)

  /** The three columns the trend page can plot. */
  datatype Metric = Count | NameRatio | GenderNameRatio

  /** The only error the trend page can raise on its own inputs: a metric key
      that is neither a plottable column nor a key of the y-label dictionary. */
  datatype TrendError = UnknownMetric(key: string)

  /** The column header of each metric. */
  function Key(m: Metric): string {
    match m
    case Count => "Count"
    case NameRatio => "Name_Ratio"
    case GenderNameRatio => "Gender_Name_Ratio"
  }

  /** Resolves a metric key given as text to the column it names. */
  function ParseMetric(key: string): (r: Result<Metric, TrendError>)
    ensures r.Success? ==> Key(r.value) == key
    ensures r.Failure? ==> r.error == UnknownMetric(key)
  {
    if key == "Count" then Success(Count)
    else if key == "Name_Ratio" then Success(NameRatio)
    else if key == "Gender_Name_Ratio" then Success(GenderNameRatio)
    else Failure(UnknownMetric(key))
  }

  /** Every metric is recognised by its own header. */
  lemma ParseKey(m: Metric)
    ensures ParseMetric(Key(m)) == Success(m)
  {
  }

  /** The y-axis caption of each metric key. Like the dictionary it models,
      it has no default entry. */
  const YLabels: map<string, string> :=
    map["Count" := "Count",
        "Name_Ratio" := "Name Per Thousand",
        "Gender_Name_Ratio" := "Gender Name Per Thousand"]

  /** A key has a y-axis caption exactly when it names a plottable column, so
      the caption lookup fails on precisely the keys the column lookup rejects;
      distinct metrics get distinct captions. */
  lemma YLabelsMatchMetrics(key: string)
    ensures key in YLabels <==> ParseMetric(key).Success?
    ensures key in YLabels ==> YLabels[key] in {"Count", "Name Per Thousand", "Gender Name Per Thousand"}
    ensures forall m, m' :: YLabels[Key(m)] == YLabels[Key(m')] ==> m == m'
  {
  }

  /** The value a row holds in the column of metric m. */
  function Column<V>(row: Row<V>, m: Metric): V {
    match m
    case Count => row.count
    case NameRatio => row.nameRatio
    case GenderNameRatio => row.genderNameRatio
  }

  /** A row condition, as built from the dataframe comparisons of the trend page. */
  datatype Criterion =
    | YearBetween(lo: int, hi: int)
    | NameIs(name: string)
    | GenderIs(code: string)
    | Both(first: Criterion, second: Criterion)

  predicate Holds<V>(c: Criterion, row: Row<V>) {
    match c
    case YearBetween(lo, hi) => lo <= row.year <= hi
    case NameIs(n) => row.name == n
    case GenderIs(g) => row.gender == g
    case Both(a, b) => Holds(a, row) && Holds(b, row)
  }

  /** The rows satisfying c, in table order (a boolean-mask selection). */
  function Where<V>(rows: seq<Row<V>>, c: Criterion): (r: seq<Row<V>>)
    ensures |r| <= |rows|
    ensures forall k :: 0 <= k < |r| ==> r[k] in rows && Holds(c, r[k])
    ensures forall k :: 0 <= k < |rows| && Holds(c, rows[k]) ==> rows[k] in r
  {
    if |rows| == 0 then []
    else
      var last := rows[|rows| - 1];
      Where(rows[..|rows| - 1], c) + (if Holds(c, last) then [last] else [])
  }

  /** Selection distributes over concatenation: what is kept from a table is
      what is kept from each of its parts, in the parts' order. */
  lemma {:induction false} WhereAppend<V>(a: seq<Row<V>>, b: seq<Row<V>>, c: Criterion)
    ensures Where(a + b, c) == Where(a, c) + Where(b, c)
    decreases |b|
  {
    if |b| == 0 {
      assert a + b == a;
    } else {
      var b' := b[..|b| - 1];
      assert (a + b)[..|a + b| - 1] == a + b';
      WhereAppend(a, b', c);
    }
  }

  /** Selecting with one criterion and then with another is selecting once
      with both: the staged filters of the trend page pick the same rows, in
      the same order, as a single conjunctive condition. */
  lemma {:induction false} WhereBoth<V>(rows: seq<Row<V>>, a: Criterion, b: Criterion)
    ensures Where(Where(rows, a), b) == Where(rows, Both(a, b))
  {
    if |rows| > 0 {
      var init := rows[..|rows| - 1];
      var last := rows[|rows| - 1];
      WhereBoth(init, a, b);
      var kept := if Holds(b, last) then [last] else [];
      assert Where(rows, Both(a, b)) == Where(init, Both(a, b)) + (if Holds(a, last) then kept else []);
      if Holds(a, last) {
        assert Where(rows, a) == Where(init, a) + [last];
        WhereAppend(Where(init, a), [last], b);
        assert [last][..0] == [];
        assert Where([last], b) == kept;
      } else {
        assert Where(rows, a) == Where(init, a) + [];
        assert Where(init, a) + [] == Where(init, a);
      }
    }
  }

  /** Python's ordering of strings: lexicographic on code points, a proper
      prefix first. */
  predicate TextLess(a: string, b: string) {
    if |a| == 0 then |b| > 0
    else |b| > 0 && (a[0] < b[0] || (a[0] == b[0] && TextLess(a[1..], b[1..])))
  }

  lemma {:induction false} TextLessIrreflexive(a: string)
    ensures !TextLess(a, a)
  {
    if |a| > 0 {
      TextLessIrreflexive(a[1..]);
    }
  }

  /** Row a may precede row b in a table sorted by (Name, Year). */
  predicate NameYearOrdered<V>(a: Row<V>, b: Row<V>) {
    TextLess(a.name, b.name) || (a.name == b.name && a.year <= b.year)
  }

  /** The table is sorted by (Name, Year), as it is right after loading. */
  predicate SortedByNameYear<V>(rows: seq<Row<V>>) {
    forall i, j :: 0 <= i < j < |rows| ==> NameYearOrdered(rows[i], rows[j])
  }

  /** Selection keeps the table's order. */
  lemma {:induction false} WhereKeepsOrder<V>(rows: seq<Row<V>>, c: Criterion)
    requires SortedByNameYear(rows)
    ensures SortedByNameYear(Where(rows, c))
  {
    if |rows| > 0 {
      var init := rows[..|rows| - 1];
      var last := rows[|rows| - 1];
      assert SortedByNameYear(init) by {
        forall i, j | 0 <= i < j < |init|
          ensures NameYearOrdered(init[i], init[j])
        {
          assert init[i] == rows[i] && init[j] == rows[j];
        }
      }
      WhereKeepsOrder(init, c);
      var w := Where(init, c);
      forall k | 0 <= k < |w|
        ensures NameYearOrdered(w[k], last)
      {
        var i :| 0 <= i < |init| && init[i] == w[k];
        assert rows[i] == w[k];
      }
      if Holds(c, last) {
        SortedSnoc(w, last);
      } else {
        assert Where(rows, c) == w + [];
        assert w + [] == w;
      }
    }
  }

  lemma SortedSnoc<V>(w: seq<Row<V>>, x: Row<V>)
    requires SortedByNameYear(w)
    requires forall k :: 0 <= k < |w| ==> NameYearOrdered(w[k], x)
    ensures SortedByNameYear(w + [x])
  {
  }

  /** Rows of one name in a sorted table come in non-decreasing year order. */
  lemma SameNameYearsAscend<V>(rows: seq<Row<V>>, i: int, j: int)
    requires SortedByNameYear(rows)
    requires 0 <= i < j < |rows| && rows[i].name == rows[j].name
    ensures rows[i].year <= rows[j].year
  {
    TextLessIrreflexive(rows[i].name);
  }
}
