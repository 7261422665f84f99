# Baby-name dashboard: trend query and input handling

This project models the data-handling core of a small baby-name dashboard.
The dashboard is a single script, `streamlit/app1.py`. It has three pieces of
logic that are not user-interface or rendering code:

- **The trend query** (`plot_name_trend_filtered`). It takes the name table, a
  list of names, a metric key and an inclusive year range. It decides which
  lines the trend chart draws. The table is first filtered to the year range.
  Then each requested name is handled in list order, duplicates included. A
  name gets at most a male line and then a female line. A selection with no
  rows is skipped. Each line takes its colour from the ten-colour `tab10`
  palette by the name's position modulo 10. Male lines use a circle marker, a
  solid line and the legend `"<name> (M)"`. Female lines use a triangle marker,
  a dashed line and `"<name> (F)"`. The y-axis caption comes from a
  three-entry dictionary with no default, so any other metric key fails.
- **The name box**. The comma-separated text is split on every comma. Each
  piece is stripped of surrounding whitespace. Empty pieces are kept.
- **The prediction feature row** (`user_input_features`). The form's year is
  re-based to the dataset's first year, 1880. The other five values are
  copied unchanged into the record handed to the fitted transformer.

Modules:

- `Wrappers` (`wrappers.dfy`): the `Result` type, used where the script raises.
- `Table` (`table.dfy`): rows, metrics, the y-label dictionary, and row
  selection (`Where`). It also holds the (Name, Year) sort order.
- `Style` (`style.dfy`): genders, the `tab10` palette, markers, line styles
  and legend labels.
- `Trends` (`trends.dfy`): the trend query `Trend` as a pure function. It
  also holds `Describes`, an independent description of the lines the chart
  must draw, and the proof that `Trend` meets it.
- `TrendProperties` and `TrendUniqueness` (`trend_properties.dfy`): the
  consequences of `Describes`, and the proof that `Describes` admits only one
  line list.
- `Plotting` (`plotting.dfy`): the routine written as the script runs it. It
  makes one year filter, then per name a name filter and, when that selection
  is non-empty, two gender filters; each filter is a full scan. It is proved to return `Trend`'s answer.
- `NameInput` (`name_input.dfy`): Python's `str.split(',')` and
  `str.strip()`, and the parsed name list.
- `Prediction` (`prediction.dfy`): the feature row.

The metric values (`Count`, `Name_Ratio`, `Gender_Name_Ratio`) are never
computed with. They are only selected and passed to the plot, so `Row<V>`
leaves their type as a parameter. The prediction form's rolling average is
handled the same way.

The script looks up `y_labels[metric]` (streamlit/app1.py:112) only after the
drawing loop, so an unknown key raises late. A key that is not a column raises
earlier, at the first non-empty male or female selection, when that selection's
`metric` column is read (streamlit/app1.py:90 or :97). If no selection is
non-empty, or the key names another column such as `Year`, the error comes
from the caption lookup. In every case the script raises before `st.pyplot`,
so no chart is shown. The model returns `Failure(UnknownMetric(key))` for
exactly those keys, the ones that are not among the three metric keys.
`Plotting.PlotNameTrendFiltered` checks the key before the loop, which gives
the same result.

## Model

| member | source | states |
|---|---|---|
| Table.ParseMetric | streamlit/app1.py:106-112 | a key that resolves is the header of the metric it resolves to, so no other key resolves; a failure is UnknownMetric carrying the key |
| Table.ParseKey | streamlit/app1.py:128 | each of the three selectable metrics is recognised by its own header |
| Table.YLabelsMatchMetrics | streamlit/app1.py:106-112 | the caption dictionary has an entry exactly for the three metric keys, with captions Count / Name Per Thousand / Gender Name Per Thousand, distinct per metric |
| Table.Where | streamlit/app1.py:74 | a boolean-mask selection keeps exactly the rows meeting the condition, each a row of the table, never more rows than the table |
| Table.WhereAppend | streamlit/app1.py:74 | selecting from a concatenation is concatenating the selections, so table order is kept |
| Table.WhereBoth | streamlit/app1.py:83-95 | the staged year, name and gender masks pick the same rows in the same order as one conjunctive mask |
| Table.WhereKeepsOrder | streamlit/app1.py:13 | a selection from a table sorted by (Name, Year) is still sorted |
| Table.SameNameYearsAscend | streamlit/app1.py:13 | in a table sorted by (Name, Year), rows of one name come in non-decreasing year order |
| Style.Colour | streamlit/app1.py:79 | every line colour is a palette entry |
| Style.Tab10Distinct | streamlit/app1.py:79 | the ten palette colours are pairwise distinct |
| Style.SameColourIff | streamlit/app1.py:92 | two positions get the same colour if and only if they are congruent modulo 10 |
| Style.GendersDrawnApart | streamlit/app1.py:90-99 | male lines use marker "o" and style "-", female lines "^" and "--"; the two genders never share a marker or a style |
| Style.Label | streamlit/app1.py:91 | a legend entry is the name followed by four more characters |
| Style.LabelInjective | streamlit/app1.py:98 | legend entries are equal if and only if name and gender are; the entry ends in " (M)" or " (F)" by gender |
| Trends.Track | streamlit/app1.py:83-95 | a line's rows are exactly the table rows of that name, that gender code and a year in the range |
| Trends.Trend | streamlit/app1.py:72-112 | the trend query fails exactly on a key without a caption, with UnknownMetric(key); on success the caption is the key's dictionary entry |
| Trends.NameSeriesShape | streamlit/app1.py:86-99 | one name yields at most two lines, both at its position, male before female |
| Trends.NameSeriesPresent | streamlit/app1.py:88-96 | a gender with in-range rows of the name gets its line |
| Trends.AllSeriesDescribes | streamlit/app1.py:81-99 | the drawing loop's line list satisfies Describes: each line is as drawn, the lines come strictly in drawing order, and no non-empty selection is missing |
| Trends.TrendDescribes | streamlit/app1.py:72-99 | every successful trend query returns a line list that Describes accepts |
| TrendUniqueness.AscendingUnique | streamlit/app1.py:81-99 | two strictly ascending lists with the same elements are equal (used for the uniqueness of drawing order) |
| TrendUniqueness.DescribesUnique | streamlit/app1.py:81-99 | Describes accepts at most one line list for given inputs |
| TrendUniqueness.TrendIffDescribes | streamlit/app1.py:72-99 | for a known metric, a line list is the trend query's answer if and only if Describes accepts it |
| TrendProperties.LinePresentIff | streamlit/app1.py:83-99 | a (position, gender) line is drawn if and only if the table has a row of that name and gender in the year range |
| TrendProperties.YearsInRange | streamlit/app1.py:74 | every plotted point's year lies in [start, end] |
| TrendProperties.InvertedRangeDrawsNothing | streamlit/app1.py:74 | with start after end no line is drawn, and no error is raised for it |
| TrendProperties.AbsentNameDrawsNothing | streamlit/app1.py:83-86 | a name with no in-range row gets no line at any position |
| TrendProperties.SingleGenderSingleLine | streamlit/app1.py:88-99 | a name with in-range rows of one gender only gets exactly one line, of that gender |
| TrendProperties.DuplicateNameDrawnTwice | streamlit/app1.py:81 | a name requested twice is drawn at both positions; names are not deduplicated |
| TrendProperties.ColourByPosition | streamlit/app1.py:92-99 | two drawn lines share a colour if and only if their positions are congruent modulo 10 |
| TrendProperties.YearsAscend | streamlit/app1.py:88-99 | on a table sorted by (Name, Year), each line's years are non-decreasing |
| TrendProperties.UncodedRowsNeverDrawn | streamlit/app1.py:88-95 | a row whose gender code is neither "M" nor "F" is on no line |
| Plotting.Select | streamlit/app1.py:74 | one scan of the rows returns the mask selection |
| Plotting.StagedTrack | streamlit/app1.py:83-95 | the year, then name, then gender filters return exactly the line's rows |
| Plotting.GenderLine | streamlit/app1.py:88-99 | the one-gender plotting step yields the specified line, or nothing when its selection is empty |
| Plotting.NameLines | streamlit/app1.py:83-99 | the per-name step, with its early skip of an empty name selection, yields the specified lines of that name |
| Plotting.PlotNameTrendFiltered | streamlit/app1.py:72-112 | the routine, with its staged filters and per-gender skips, returns exactly the trend query's result |
| NameInput.Split | streamlit/app1.py:132 | splitting yields one more piece than there are separators, and no piece contains the separator |
| NameInput.JoinSplit | streamlit/app1.py:132 | the pieces join back to the input text |
| NameInput.SplitJoin | streamlit/app1.py:132 | separator-free pieces joined by the separator split back into the same pieces |
| NameInput.Strip | streamlit/app1.py:132 | the stripped text is a contiguous slice of the input with only whitespace cut from either end, and neither starts nor ends with whitespace |
| NameInput.StripPadded | streamlit/app1.py:132 | a trimmed text with any whitespace on either side strips back to itself |
| NameInput.StripIdempotent | streamlit/app1.py:132 | stripping twice is stripping once |
| NameInput.ParseNames | streamlit/app1.py:132 | the name list has (number of commas + 1) entries, empty ones included, each without a comma and without surrounding whitespace |
| NameInput.ParsePadded | streamlit/app1.py:132 | any comma-separated text made of names padded with whitespace parses back to exactly those names |
| Prediction.UserInputFeatures | streamlit/app1.py:165-184 | the form's values are in the widget ranges if and only if the feature row is in the model's ranges (year 0 to 144); the name is returned alongside |
| Prediction.FeaturesRoundTrip | streamlit/app1.py:175-182 | the feature row loses nothing: shifting the year back recovers the form, and every feature row comes from exactly one form |

## Left out

- Loading the CSV and sorting it by (Name, Year) (streamlit/app1.py:9-13). This is file I/O and a library sort. Sortedness appears only as a hypothesis, of `TrendProperties.YearsAscend`, `Table.WhereKeepsOrder`, `Table.SameNameYearsAscend` and `Table.SortedSnoc`.
- The page selector, text, CSS, and the input widgets (streamlit/app1.py:16-68, 120-139, 162-173, 196-203). This is user interface. Their ranges appear only in `Prediction.InWidgetRanges`.
- Figure size, title, x-axis label, font sizes, marker size 10, legend title, grid and `st.pyplot` (streamlit/app1.py:76, 101-118). This is rendering. The model returns the chart's lines and y-axis caption instead.
- Loading the serialized classifier and transformer, `transform`, `predict` and `predict_proba` (streamlit/app1.py:150-159, 190-194). These are opaque artifacts and foreign library calls with float output.
- Plotting.PlotNameTrendFiltered: checks the metric key before the drawing loop, whereas the script reads the column inside the loop and looks up the caption after it (streamlit/app1.py:90, 97, 112). Only the outcome is modelled: a figure left half drawn before the error is not, because it is never shown.
- Prediction.UserInputFeatures: the rolling-average bound of the form (0.0 to 1000.0) is not part of `InWidgetRanges` or `InFeatureRanges`. The value's type is opaque, and the function copies it unchanged.
- Pandas-specific data quirks are not modelled: missing values, mixed column types, and the dataframe index. Names and gender codes are compared as exact strings, and years are integers.
