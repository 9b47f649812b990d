# Sheehy gymnastics dashboard — a Dafny model of its data logic

This project models the computational core of a Streamlit dashboard of gymnastics results, and proves properties of that model. The dashboard shows one tab per gymnast. A tab has a meet menu, a score table with season bests and rank labels, judge-analysis cards, and a season trend chart. The model keeps the rules that choose and shape the data behind these elements. All rendering is left out.

- `analytics_view.dfy` (module `AnalyticsView`) models `analytics_view.py`. It covers:
  - the judge-profile classifier, which maps a judging-bias index (JSI) and an interquartile range (IQR) to one of six labels;
  - the lookup of a judge statistic by (Meet, Level as text, Event), with its "Pending" fallback;
  - the choice of routines shown for a meet;
  - the floor, ceiling and bar geometry of each card's chart;
  - the loop that builds one card per routine.
- `streamlit_app.dfy` (module `StreamlitApp`) models the data selection in `show_gymnast_tab` (`streamlit_app.py`). It covers:
  - the case-insensitive name filter and its early return;
  - the meet menu, ordered by each meet's latest date, most recent first;
  - the current row, which is the last row of the chosen meet;
  - the score-table loop: scores, rank labels with ".0" removed, and season bests;
  - the trend-chart scale, the January–April chart rows in date order, the star rows and the per-season best row.
- `text.dfy` (module `Text`) models the Python string operations these rules rely on: `in`, `str.contains(case=False)`, `split()[0]`, `replace(".0", "")` and `str(int)`.
- `util.dfy` (module `Util`) holds the selection, `unique()` and sort operations on sequences. These stand in for the pandas calls.

The model is written in two styles:
- The source's expressions (classifier, lookup, filters, sorts, maxima) are pure functions over `real`/`seq`, and lemmas state their properties.
- The source's two loops that build data (`for _, row in meet_rows.iterrows()` and `for c in cols`) are methods with loop invariants. Each method is proved against the functions that specify its output.
- The per-season drawing loops (streamlit_app.py:114 and :128) only draw, so they are modelled by the sequences they walk over, `Seasons` and `SeasonBests`.

Inputs are parameters:
- the CSV tables, already loaded;
- the meet-menu choice (`pick`, the index the widget returns; 0 until the user chooses).

Dates are (year, month, day) triples. They are compared through an ordinal that matches calendar order on valid dates.

`streamlit_app.py:8` imports `show_athlete_history`, but `analytics_view.py` defines only `show_athlete_history_v2`. The tab model calls the v2 cards, since that is the card logic the source contains.

## Model

| member | source | states |
|---|---|---|
| `AnalyticsView.JudgeProfile` | analytics_view.py:7-14 | the classifier is total and always returns one of the six profile labels |
| `AnalyticsView.JudgeProfileByAxes` | analytics_view.py:7-14 | the label is the table cell picked by the JSI band (strict < −0.10 < neutral < 0.10 < lenient) and by `iqr < 0.50` alone |
| `AnalyticsView.ParseProfileLabel` | analytics_view.py:7-14 | each of the six cells reads back from its label, so no two cells share a label |
| `AnalyticsView.ProfileLabelsCount` | analytics_view.py:7-14 | there are exactly six distinct labels |
| `AnalyticsView.JudgeProfileDeterminesAxes` | analytics_view.py:7-14 | two inputs with the same label have the same JSI band and lie on the same side of 0.50 |
| `AnalyticsView.JudgeProfileTable` | analytics_view.py:9-14 | each label is returned if and only if the inputs are in its cell: "Fair but Tough" ⇔ jsi < −0.10 ∧ iqr < 0.50, and likewise for the other five |
| `AnalyticsView.JudgeProfileJsiBoundaries` | analytics_view.py:9-14 | jsi = −0.10 and jsi = 0.10 both give the neutral label, "Textbook Judging" or "Average but Erratic" |
| `AnalyticsView.JudgeProfileIqrBoundary` | analytics_view.py:10-14 | iqr = 0.50 gives the erratic variant of whichever band applies |
| `AnalyticsView.JudgeProfileSameSide` | analytics_view.py:9-14 | for a fixed jsi, two iqr values on the same side of 0.50 give the same label |
| `AnalyticsView.JudgeProfileMirror` | analytics_view.py:9-14 | negating jsi swaps strict and lenient and keeps the consistency qualifier |
| `AnalyticsView.JudgeProfileExamples` | analytics_view.py:9-14 | worked cases: (−0.20, 0.30) → "Fair but Tough", (0.00, 0.60) → "Average but Erratic", (0.25, 0.10) → "Generous but Precise", (−0.10, 0.10) → "Textbook Judging" |
| `AnalyticsView.LevelTextNumbered` | analytics_view.py:132 | `str(Level)` gives different numeric levels different keys |
| `AnalyticsView.FirstMatch` | analytics_view.py:132-135 | returns None exactly when no judge row has the key; otherwise the smallest index whose row has the key (`iloc[0]`) |
| `AnalyticsView.JudgeLookup` | analytics_view.py:132-138 | no match gives ("Pending", 0, 0); otherwise the JSI and IQR of the first matching row and the profile label computed from them |
| `AnalyticsView.PendingIffNoMatch` | analytics_view.py:132-138 | the label is "Pending" if and only if no judge row matches (Meet, str(Level), Event) |
| `AnalyticsView.MeetRows` | analytics_view.py:125-129 | None exactly when the name has no first word (`split()[0]` raises). Otherwise the rows whose Gymnast contains that word ignoring case, whose Meet is the selected meet and whose Event is not "AA", each with its exact multiplicity |
| `AnalyticsView.ContextChartGeometry` | analytics_view.py:18-104 | the floor is 7.0 if "Ansel" is in the name, else 8.0. x_max is 10.0. Both bars and the axis start at the floor. The bars end at Level_Max and Div_Max. The axis ends at x_max + 0.05 |
| `AnalyticsView.DivisionBarInsideLevelBar` | analytics_view.py:24-36 | when Div_Max ≤ Level_Max, the division bar starts with the level bar and ends no later |
| `AnalyticsView.CardsAt` | analytics_view.py:131-144 | card i of a meet is the card of row i, so the cards follow the table order one to one |
| `AnalyticsView.CardsSnoc` | analytics_view.py:131-144 | one more row adds exactly its own card at the end |
| `AnalyticsView.BuildCards` | analytics_view.py:131-144 | the loop yields the cards of the rows, one per row in order (with `CardsAt`) |
| `AnalyticsView.ShowAthleteHistory` | analytics_view.py:116-151 | `None` (the IndexError of `split()[0]`, before any card) exactly when the name has no first word; otherwise the cards of the rows selected by `MeetRows`, one per row in table order |
| `AnalyticsView.MeetRowsInTableOrder` | analytics_view.py:125-129 | the listing keeps table order: listing from two consecutive parts of the table joins the two listings |
| `Text.ContainsIffOccurs` | streamlit_app.py:107 | the recursive substring test holds if and only if the pattern occurs at some index |
| `Text.FirstToken` | analytics_view.py:126 | `split()[0]`: None exactly when the name is all whitespace; otherwise a non-empty word without whitespace, preceded only by whitespace and followed by whitespace or the end |
| `Text.RemoveAllAbsent` | streamlit_app.py:89 | `replace(".0", "")` leaves a string without ".0" unchanged |
| `Text.RemoveAllIntegralFloat` | streamlit_app.py:89 | digits followed by ".0" (a float rank such as "12.0") come out as the digits |
| `Text.RemoveAllSinglePass` | streamlit_app.py:89 | the replacement is a single left-to-right pass: "1..00" gives "1.0" |
| `Text.NatTextValue` | analytics_view.py:132 | the decimal text of a natural number reads back as that number |
| `Text.IntTextSign` | analytics_view.py:132 | `str(n)` begins with a minus sign exactly when n is negative |
| `Text.IntTextInjective` | analytics_view.py:132 | `str(n)` is injective on integers |
| `StreamlitApp.OrdinalIsCalendarOrder` | streamlit_app.py:17 | on valid dates the ordinal orders dates as the calendar does and tells them apart |
| `StreamlitApp.SubsetRows` | streamlit_app.py:51-52 | the working subset is exactly the rows whose Gymnast contains the name ignoring case, with multiplicities. It is empty exactly when no row matches, which is the early return |
| `StreamlitApp.MeetDate` | streamlit_app.py:55 | a meet's date is the latest date among its rows, and None for a meet that does not occur |
| `StreamlitApp.AllMeets` | streamlit_app.py:55 | the menu is a permutation of the distinct meets of the subset, each once, in non-increasing order of latest date |
| `StreamlitApp.AllMeetsNewestFirst` | streamlit_app.py:55 | for i ≤ j, meet j's latest date is not after meet i's |
| `StreamlitApp.DefaultMeetIsMostRecent` | streamlit_app.py:55-56 | a non-empty subset gives a non-empty menu, and the default entry 0 is a meet whose latest date is the latest date of any row |
| `StreamlitApp.LastIndex` | streamlit_app.py:57 | the current row is the last row of the subset, in table order, that belongs to the chosen meet |
| `StreamlitApp.LatestIsLastInTable` | streamlit_app.py:51-57 | the current row is a row of the whole table that matches the name and belongs to the meet, and no later row of the table does both |
| `StreamlitApp.SelectMeet` | streamlit_app.py:55-57 | returns the menu, the entry at the chosen index, and that meet's last row, which is in the subset |
| `StreamlitApp.ColumnMax` | streamlit_app.py:86 | the season best is at least every value of the column in the year's rows, and some row attains it |
| `StreamlitApp.TableColumns` | streamlit_app.py:81 | the columns are the event keys in order, followed by "AA" |
| `StreamlitApp.RankLabelCases` | streamlit_app.py:88-89 | a missing rank shows "-"; a rank text "N.0" shows "N"; a rank text without ".0" shows unchanged |
| `StreamlitApp.BuildTable` | streamlit_app.py:84-90 | the three rows have one entry per column. Entry i is the score `get(c, 0)`, the rank label of `c_Rank` (of `Meet_Rank` for "AA"), and the season best (0 when the column is absent) |
| `StreamlitApp.ScoreAtMostSeasonPB` | streamlit_app.py:79-86 | since the current row is in its own year, its value in any column is at most that column's season best, which some row of the year attains |
| `StreamlitApp.TableWithinSeasonPB` | streamlit_app.py:84-90 | every score entry of the table is at most the season-best entry below it |
| `StreamlitApp.ScoreTable` | streamlit_app.py:79-90 | the columns are the event keys and "AA"; the table is built for the current row against the subset rows of that row's year, which contain it; each score is at most its season best |
| `StreamlitApp.TabWithinSeasonPB` | streamlit_app.py:79-90 | in any view the tab can produce, every score entry is at most the season-best entry below it |
| `StreamlitApp.TrendScaleFits` | streamlit_app.py:107-108 | the goal line lies strictly inside the y range in both scales. The boys' scale (47, 56, 52) is chosen exactly when the judge cards use the 7.0 floor |
| `StreamlitApp.ChartDataRows` | streamlit_app.py:110 | the chart rows are exactly the subset rows dated January to April, with multiplicities |
| `StreamlitApp.ChartDataOrdered` | streamlit_app.py:110 | the chart rows are in non-decreasing date order |
| `StreamlitApp.Stars` | streamlit_app.py:122 | the stars are exactly the chart rows whose AA reaches the threshold, with multiplicities |
| `StreamlitApp.SeasonsIncreasing` | streamlit_app.py:114-127 | the chart's seasons come out in strictly increasing year order, which is the order of the groupby keys |
| `StreamlitApp.YearBest` | streamlit_app.py:127 | `idxmax` of a year points to a row of that year whose AA is at least every AA of that year, and no earlier row of that year has an equal AA |
| `StreamlitApp.SeasonBests` | streamlit_app.py:127 | one best row per season, in season order, each in its season and maximal in AA there |
| `StreamlitApp.Trend` | streamlit_app.py:105-127 | the trend section is missing (pandas raises KeyError) exactly when the table has no "AA" column |
| `StreamlitApp.ShowGymnastTab` | streamlit_app.py:41-131 | no view exactly when the name matches no row. Otherwise the view holds the menu, the chosen meet and its last row; the table built for that row and its season; the judge cards of the chosen meet; and the trend section, which is absent when the cards raised IndexError |
| `StreamlitApp.TabTrendShown` | streamlit_app.py:101-127 | a tab without cards has no trend, and the trend is drawn exactly when the name has a first word and the table has an "AA" column |
| `StreamlitApp.BlankNameStopsAtCards` | streamlit_app.py:51 | a blank name passes the name filter (" " occurs in "Ansel Sheehy") yet has no first word, so the stop after the table is reachable |
| `Util.Filter` | streamlit_app.py:51 | a boolean-mask selection holds exactly the elements that satisfy the mask |
| `Util.FilterCount` | streamlit_app.py:51 | the selection keeps each selected value as often as it occurs, and nothing else |
| `Util.FilterAppend` | streamlit_app.py:51 | the selection keeps the original order: selecting from a concatenation joins the two selections |
| `Util.FilterLastMatch` | streamlit_app.py:57 | the last selected entry with a property is an element of the input after which no element is both selected and has the property |
| `Util.UniqueFirstAppearanceOrder` | streamlit_app.py:114 | `unique()` lists values in order of their first appearance |
| `Util.SortByKey` | streamlit_app.py:110 | the sort returns a permutation of its input in non-decreasing key order |

## Left out

- Rendering: all Streamlit output (`st.markdown`, `st.table`, `st.columns`, `st.selectbox`, `st.plotly_chart`, CSS and HTML strings, `st.set_page_config`). It shows the modelled data and has no behaviour of its own.
- Plotly figures: traces, annotations, the grey season rectangles with their first, last and middle row (streamlit_app.py:114-118), tick settings, colours and label positions. Only the numeric chart parameters are kept.
- CSV I/O and caching: `load_data`, `pd.read_csv`, `@st.cache_data`, and the `FileNotFoundError` branch (analytics_view.py:117-122). These are foreign I/O, so the tables are parameters.
- Number formatting: `:.3f`, `:.2f`, `:.1f`, `int(row['Count'])`, `int(float(rank))`. Scores, JSI and IQR are `real`.
- NaN: a NaN JSI would fall to the neutral band and a NaN IQR to the erratic variant, as a comment in the model notes. Missing cells generally are not modelled: every row has every column.
- Date parsing and formatting: `pd.to_datetime`, the `strftime` labels (streamlit_app.py:111). A date is given as (year, month, day).
- The metric block's display (streamlit_app.py:60-76): `get('AA', 0)`, the meet rank and the rank total. Its AA value is the table's AA score; its number conversions have their own line below.
- The table's row label `Division` (streamlit_app.py:93), `highlight_pb` (streamlit_app.py:96-97, never applied), and the truncated `update_layout` call (streamlit_app.py:132).
- Case folding: it covers ASCII letters only. Python's Unicode-aware case-insensitive match is not modelled.
- Patterns: `str.contains` treats its pattern as a regular expression. The model treats it as a literal, which agrees for names without regex metacharacters.
- Missing names: a missing Gymnast value (`astype(str)`, `na=False`) is not modelled, because names are always strings here.
- Judge-table levels: a judge table whose Level column pandas reads as numbers would never equal `str(Level)`. The model takes that column as text.
- The metric block's conversions `int(float(rank))` and `int(float(total))` (streamlit_app.py:72): rank cells are taken to hold numbers. A `Meet_Rank` or `Meet_Rank_Total` text that is not a number raises ValueError and ends the tab before the table; the model does not capture that stop.
- StreamlitApp.AllMeets: does not state that meets with equal latest dates keep their first-appearance order (Python's `sorted` is stable). Only the permutation and the date order are proved.
- StreamlitApp.ChartData: pandas `sort_values` defaults to an unstable quicksort. The model sorts stably, and no order among rows with equal dates is claimed.
