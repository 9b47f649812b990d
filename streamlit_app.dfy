/** The data shaping behind one gymnast's tab of the dashboard: the athlete's rows,
    the meet menu, the current row, the score table with its season bests and rank
    labels, and the rows, stars and per-season bests of the trend chart. */
module StreamlitApp {
  import opened Util
  import opened Text
  import AnalyticsView

  // ---------------------------------------------------------------------------
  // Records
  // ---------------------------------------------------------------------------

  /** A calendar date; year and month are taken as the parser gave them. */
  datatype Date = Date(year: int, month: int, day: int)

  ghost predicate ValidDate(d: Date) {
    1 <= d.month <= 12 && 1 <= d.day <= 31
  }

  /** Dates are compared through this number (31 days to a month, 12 months to a year). */
  function Ordinal(d: Date): int {
    d.year * 372 + (d.month - 1) * 31 + (d.day - 1)
  }

  /** Calendar order of (year, month, day). */
  ghost predicate EarlierDate(a: Date, b: Date) {
    a.year < b.year || (a.year == b.year && (a.month < b.month || (a.month == b.month && a.day < b.day)))
  }

  /** On valid dates the ordinal is the calendar order, and it tells dates apart. */
  lemma OrdinalIsCalendarOrder(a: Date, b: Date)
    requires ValidDate(a) && ValidDate(b)
    ensures Ordinal(a) < Ordinal(b) <==> EarlierDate(a, b)
    ensures Ordinal(a) == Ordinal(b) <==> a == b
  {
  }

  /** A later-or-equal date is in a later-or-equal year. */
  lemma OrdinalYear(a: Date, b: Date)
    requires ValidDate(a) && ValidDate(b)
    requires Ordinal(a) <= Ordinal(b)
    ensures a.year <= b.year
  {
    OrdinalIsCalendarOrder(a, b);
  }

  /** One row of the score table: numeric columns (event scores, "AA") and rank
      columns, the latter as the text `str()` gives for them. */
  datatype Record = Record(
    gymnast: string, meet: string, date: Date,
    scores: map<string, real>, ranks: map<string, string>)

  /** The loaded table: its numeric and rank column names and its rows. */
  datatype Frame = Frame(numeric: set<string>, ranked: set<string>, rows: seq<Record>)

  ghost predicate Shaped(r: Record, numeric: set<string>, ranked: set<string>) {
    r.scores.Keys == numeric && r.ranks.Keys == ranked && ValidDate(r.date)
  }

  /** Every row has every column, and a column is either numeric or a rank. */
  ghost predicate ValidFrame(f: Frame) {
    f.numeric !! f.ranked && forall r :: r in f.rows ==> Shaped(r, f.numeric, f.ranked)
  }

  /** `row.get(c, 0)` for a numeric column. */
  function Score(r: Record, c: string): real {
    if c in r.scores then r.scores[c] else 0.0
  }

  function AA(r: Record): real {
    Score(r, "AA")
  }

  // ---------------------------------------------------------------------------
  // The athlete's rows and the meet menu
  // ---------------------------------------------------------------------------

  /** The row mask of the name filter. */
  function NameMask(name: string): Record -> bool {
    (r: Record) => ContainsIgnoreCase(r.gymnast, name)
  }

  /** The rows whose gymnast contains `name`, ignoring case, in table order. */
  function Subset(rows: seq<Record>, name: string): seq<Record> {
    Filter(rows, NameMask(name))
  }

  lemma SubsetRows(rows: seq<Record>, name: string)
    ensures forall r :: r in Subset(rows, name) <==> r in rows && ContainsIgnoreCase(r.gymnast, name)
    ensures forall r :: multiset(Subset(rows, name))[r] ==
                        (if ContainsIgnoreCase(r.gymnast, name) then multiset(rows)[r] else 0)
    ensures Subset(rows, name) == [] <==> forall r :: r in rows ==> !ContainsIgnoreCase(r.gymnast, name)
  {
    FilterCount(rows, NameMask(name));
    if Subset(rows, name) != [] {
      assert Subset(rows, name)[0] in Subset(rows, name);
    }
  }

  ghost predicate HasMeet(rows: seq<Record>, m: string) {
    exists i :: 0 <= i < |rows| && rows[i].meet == m
  }

  /** The latest date of meet `m` among `rows`; `None` if `m` does not occur. */
  function MeetDate(rows: seq<Record>, m: string): (d: Option<Date>)
    ensures d.None? <==> !HasMeet(rows, m)
    ensures d.Some? ==> exists i :: 0 <= i < |rows| && rows[i].meet == m && rows[i].date == d.value
    ensures d.Some? ==> forall i :: 0 <= i < |rows| && rows[i].meet == m ==> Ordinal(rows[i].date) <= Ordinal(d.value)
  {
    if rows == [] then None
    else
      var n := |rows| - 1;
      var before := MeetDate(rows[..n], m);
      assert forall i :: 0 <= i < n ==> rows[..n][i] == rows[i];
      if rows[n].meet != m then before
      else if before.None? || Ordinal(before.value) < Ordinal(rows[n].date) then Some(rows[n].date)
      else before
  }

  /** The sort key of a meet: more recent meets come first. */
  function MeetKey(rows: seq<Record>, m: string): int {
    match MeetDate(rows, m)
    case Some(d) => -Ordinal(d)
    case None => 0
  }

  function MeetsOf(rows: seq<Record>): (ms: seq<string>)
    ensures |ms| == |rows|
    ensures forall i :: 0 <= i < |rows| ==> ms[i] == rows[i].meet
  {
    seq(|rows|, i requires 0 <= i < |rows| => rows[i].meet)
  }

  /** The meet menu: each meet of `rows` once, most recent latest date first. */
  function AllMeets(rows: seq<Record>): (r: seq<string>)
    ensures multiset(r) == multiset(Unique(MeetsOf(rows)))
    ensures NoDups(r)
    ensures forall m :: m in r <==> HasMeet(rows, m)
    ensures Sorted(r, m => MeetKey(rows, m))
  {
    var ms := MeetsOf(rows);
    var r := SortByKey(Unique(ms), m => MeetKey(rows, m));
    forall m ensures m in r <==> m in ms {
      assert m in r <==> m in multiset(r);
      assert m in Unique(ms) <==> m in multiset(Unique(ms));
    }
    assert forall m :: m in ms ==> HasMeet(rows, m);
    assert forall m :: HasMeet(rows, m) ==> m in ms by {
      forall m | HasMeet(rows, m) ensures m in ms {
        var i :| 0 <= i < |rows| && rows[i].meet == m;
        assert ms[i] == m;
      }
    }
    r
  }

  /** The menu runs from the most recent meet to the oldest. */
  lemma {:induction false} AllMeetsNewestFirst(rows: seq<Record>, i: int, j: int)
    requires 0 <= i <= j < |AllMeets(rows)|
    ensures var ms := AllMeets(rows);
      MeetDate(rows, ms[i]).Some? && MeetDate(rows, ms[j]).Some? &&
      Ordinal(MeetDate(rows, ms[j]).value) <= Ordinal(MeetDate(rows, ms[i]).value)
  {
    var ms := AllMeets(rows);
    assert ms[i] in ms && ms[j] in ms;
    SortedPairwise(ms, m => MeetKey(rows, m), i, j);
  }

  /** The default choice (index 0) is the meet of the most recent row. */
  lemma DefaultMeetIsMostRecent(rows: seq<Record>)
    requires rows != []
    ensures AllMeets(rows) != []
    ensures var m := AllMeets(rows)[0];
      MeetDate(rows, m).Some? &&
      forall i :: 0 <= i < |rows| ==> Ordinal(rows[i].date) <= Ordinal(MeetDate(rows, m).value)
  {
    assert HasMeet(rows, rows[0].meet);
    var ms := AllMeets(rows);
    assert rows[0].meet in ms;
    forall i | 0 <= i < |rows|
      ensures Ordinal(rows[i].date) <= Ordinal(MeetDate(rows, ms[0]).value)
    {
      assert HasMeet(rows, rows[i].meet);
      var j :| 0 <= j < |ms| && ms[j] == rows[i].meet;
      AllMeetsNewestFirst(rows, 0, j);
    }
  }

  /** Position of the last row of meet `m` (`.iloc[-1]` of that meet's rows). */
  function LastIndex(rows: seq<Record>, m: string): (k: Option<nat>)
    ensures k.None? <==> !HasMeet(rows, m)
    ensures k.Some? ==> k.value < |rows| && rows[k.value].meet == m
    ensures k.Some? ==> forall j :: k.value < j < |rows| ==> rows[j].meet != m
  {
    if rows == [] then None
    else if rows[|rows| - 1].meet == m then Some(|rows| - 1)
    else
      var k := LastIndex(rows[..|rows| - 1], m);
      assert forall i :: 0 <= i < |rows| - 1 ==> rows[..|rows| - 1][i] == rows[i];
      k
  }
  /** `.iloc[-1]` of the chosen meet is the last row of the whole table, in table
      order, that matches the name and belongs to that meet. */
  lemma LatestIsLastInTable(rows: seq<Record>, name: string, m: string)
    requires HasMeet(Subset(rows, name), m)
    ensures var sub := Subset(rows, name);
      exists j :: 0 <= j < |rows| && rows[j] == sub[LastIndex(sub, m).value] &&
        ContainsIgnoreCase(rows[j].gymnast, name) && rows[j].meet == m &&
        forall j' :: j < j' < |rows| ==> !(ContainsIgnoreCase(rows[j'].gymnast, name) && rows[j'].meet == m)
  {
    var sub := Subset(rows, name);
    var k := LastIndex(sub, m).value;
    var inMeet := (r: Record) => r.meet == m;
    var j := FilterLastSource(rows, NameMask(name), inMeet, k);
    assert rows[j].meet == m;
  }


  // ---------------------------------------------------------------------------
  // The score table
  // ---------------------------------------------------------------------------

  /** The rows of one calendar year. */
  function YearRows(rows: seq<Record>, year: int): seq<Record> {
    Filter(rows, (r: Record) => r.date.year == year)
  }

  /** The largest value of column `c` (`year_data[c].max()`). */
  function ColumnMax(rows: seq<Record>, c: string): (m: real)
    requires rows != []
    requires forall r :: r in rows ==> c in r.scores
    ensures forall r :: r in rows ==> r.scores[c] <= m
    ensures exists r :: r in rows && r.scores[c] == m
  {
    if |rows| == 1 then rows[0].scores[c]
    else
      assert rows == [rows[0]] + rows[1..];
      var rest := ColumnMax(rows[1..], c);
      if rows[0].scores[c] > rest then rows[0].scores[c] else rest
  }

  /** The season best of column `c`, or 0 when the table has no such column. */
  function SeasonPB(yearRows: seq<Record>, numeric: set<string>, c: string): real
    requires c in numeric ==> yearRows != [] && forall r :: r in yearRows ==> c in r.scores
  {
    if c in numeric then ColumnMax(yearRows, c) else 0.0
  }

  /** The columns of the table: the events in order, then "AA". */
  function TableColumns(events: seq<string>): (cols: seq<string>)
    ensures |cols| == |events| + 1 && cols[..|events|] == events && cols[|events|] == "AA"
  {
    events + ["AA"]
  }

  /** The rank column of a score column. */
  function RankKey(c: string): string {
    if c != "AA" then c + "_Rank" else "Meet_Rank"
  }

  /** `str(row.get(RankKey(c), "-")).replace(".0", "")`. */
  function RankLabel(r: Record, c: string): string {
    var text := if RankKey(c) in r.ranks then r.ranks[RankKey(c)] else "-";
    RemoveAll(text, ".0")
  }

  /** A missing rank shows "-"; a rank printed as an integral float shows its digits. */
  lemma RankLabelCases(r: Record, c: string, digits: string)
    requires forall i :: 0 <= i < |digits| ==> IsDigit(digits[i])
    ensures RankKey(c) !in r.ranks ==> RankLabel(r, c) == "-"
    ensures RankKey(c) in r.ranks && r.ranks[RankKey(c)] == digits + ".0" ==> RankLabel(r, c) == digits
    ensures RankKey(c) in r.ranks && !Contains(r.ranks[RankKey(c)], ".0") ==> RankLabel(r, c) == r.ranks[RankKey(c)]
  {
    RemoveAllIntegralFloat(digits);
    RemoveAllAbsent("-", ".0");
    if RankKey(c) in r.ranks && !Contains(r.ranks[RankKey(c)], ".0") {
      RemoveAllAbsent(r.ranks[RankKey(c)], ".0");
    }
  }

  /** The three rows of the table for the current row and its season: entry `i` of
      each belongs to column `i`. */
  ghost predicate TableFor(latest: Record, yearRows: seq<Record>, numeric: set<string>, cols: seq<string>,
                           scoreRow: seq<real>, rankRow: seq<string>, pbRow: seq<real>)
  {
    && latest in yearRows
    && (forall r :: r in yearRows ==> r.scores.Keys == numeric)
    && |scoreRow| == |cols| && |rankRow| == |cols| && |pbRow| == |cols|
    && forall i :: 0 <= i < |cols| ==>
         && scoreRow[i] == Score(latest, cols[i])
         && rankRow[i] == RankLabel(latest, cols[i])
         && pbRow[i] == SeasonPB(yearRows, numeric, cols[i])
  }

  /** The loop that fills the three table rows, one entry per column. */
  method BuildTable(latest: Record, yearRows: seq<Record>, numeric: set<string>, cols: seq<string>)
    returns (scoreRow: seq<real>, rankRow: seq<string>, pbRow: seq<real>)
    requires latest in yearRows
    requires forall r :: r in yearRows ==> r.scores.Keys == numeric
    ensures TableFor(latest, yearRows, numeric, cols, scoreRow, rankRow, pbRow)
  {
    scoreRow, rankRow, pbRow := [], [], [];
    for i := 0 to |cols|
      invariant |scoreRow| == i && |rankRow| == i && |pbRow| == i
      invariant forall k :: 0 <= k < i ==>
        && scoreRow[k] == Score(latest, cols[k])
        && rankRow[k] == RankLabel(latest, cols[k])
        && pbRow[k] == SeasonPB(yearRows, numeric, cols[k])
    {
      var c := cols[i];
      var val := if c in latest.scores then latest.scores[c] else 0.0;
      var best := if c in numeric then ColumnMax(yearRows, c) else 0.0;
      var key := if c != "AA" then c + "_Rank" else "Meet_Rank";
      var rank := if key in latest.ranks then latest.ranks[key] else "-";
      scoreRow := scoreRow + [val];
      rankRow := rankRow + [RemoveAll(rank, ".0")];
      pbRow := pbRow + [best];
    }
  }

  /** The current score never exceeds the season best, which some row of the season attains. */
  lemma ScoreAtMostSeasonPB(latest: Record, yearRows: seq<Record>, numeric: set<string>, c: string)
    requires latest in yearRows
    requires forall r :: r in yearRows ==> r.scores.Keys == numeric
    ensures Score(latest, c) <= SeasonPB(yearRows, numeric, c)
    ensures c in numeric ==> exists r :: r in yearRows && Score(r, c) == SeasonPB(yearRows, numeric, c)
  {
  }

  /** Every score in the table is at most the season best below it. */
  lemma TableWithinSeasonPB(latest: Record, yearRows: seq<Record>, numeric: set<string>, cols: seq<string>,
                            scoreRow: seq<real>, rankRow: seq<string>, pbRow: seq<real>)
    requires TableFor(latest, yearRows, numeric, cols, scoreRow, rankRow, pbRow)
    ensures forall i :: 0 <= i < |cols| ==> scoreRow[i] <= pbRow[i]
  {
    forall i | 0 <= i < |cols| ensures scoreRow[i] <= pbRow[i] {
      ScoreAtMostSeasonPB(latest, yearRows, numeric, cols[i]);
    }
  }

  // ---------------------------------------------------------------------------
  // The trend chart
  // ---------------------------------------------------------------------------

  /** The y-axis range and the goal line of the season chart. */
  datatype TrendScale = TrendScale(yMin: int, yMax: int, threshold: int)

  function TrendScaleFor(name: string): TrendScale {
    if Contains(name, "Ansel") then TrendScale(47, 56, 52) else TrendScale(35, 40, 38)
  }

  /** The goal line lies strictly inside the y-axis range, and the boys' scale is chosen
      exactly when the judge cards use the boys' 7.0 floor. */
  lemma TrendScaleFits(name: string, row: AnalyticsView.ContextRow)
    ensures var s := TrendScaleFor(name); s.yMin < s.threshold < s.yMax
    ensures TrendScaleFor(name) == TrendScale(47, 56, 52) <==> AnalyticsView.ContextChart(row, name).xMin == 7.0
  {
    AnalyticsView.ContextChartGeometry(row, name);
  }

  predicate InSeasonMonths(r: Record) {
    1 <= r.date.month <= 4
  }

  /** The January-to-April rows in date order. */
  function ChartData(rows: seq<Record>): seq<Record> {
    SortByKey(Filter(rows, InSeasonMonths), (r: Record) => Ordinal(r.date))
  }

  lemma ChartDataRows(rows: seq<Record>)
    ensures forall r :: multiset(ChartData(rows))[r] == (if InSeasonMonths(r) then multiset(rows)[r] else 0)
    ensures forall r :: r in ChartData(rows) <==> r in rows && InSeasonMonths(r)
  {
    var f := Filter(rows, InSeasonMonths);
    FilterCount(rows, InSeasonMonths);
    assert multiset(ChartData(rows)) == multiset(f);
    forall r ensures r in ChartData(rows) <==> r in f {
      assert r in ChartData(rows) <==> r in multiset(ChartData(rows));
    }
  }

  lemma {:induction false} ChartDataOrdered(rows: seq<Record>, i: int, j: int)
    requires 0 <= i <= j < |ChartData(rows)|
    ensures Ordinal(ChartData(rows)[i].date) <= Ordinal(ChartData(rows)[j].date)
  {
    SortedPairwise(ChartData(rows), (r: Record) => Ordinal(r.date), i, j);
  }

  /** The chart rows whose AA reaches the goal line. */
  function Stars(chart: seq<Record>, threshold: int): (s: seq<Record>)
    ensures forall r :: r in s <==> r in chart && AA(r) >= threshold as real
    ensures forall r :: multiset(s)[r] == (if AA(r) >= threshold as real then multiset(chart)[r] else 0)
  {
    var reaches := (r: Record) => AA(r) >= threshold as real;
    FilterCount(chart, reaches);
    Filter(chart, reaches)
  }

  function YearsOf(chart: seq<Record>): (ys: seq<int>)
    ensures |ys| == |chart| && forall i :: 0 <= i < |chart| ==> ys[i] == chart[i].date.year
  {
    seq(|chart|, i requires 0 <= i < |chart| => chart[i].date.year)
  }

  /** The seasons of the chart, once each. */
  function Seasons(chart: seq<Record>): seq<int> {
    Unique(YearsOf(chart))
  }

  /** The distinct values of a non-decreasing sequence come out strictly increasing. */
  lemma {:induction false} UniqueOfNondecreasing(s: seq<int>)
    requires forall i, j :: 0 <= i <= j < |s| ==> s[i] <= s[j]
    ensures forall i, j :: 0 <= i < j < |Unique(s)| ==> Unique(s)[i] < Unique(s)[j]
  {
    if s != [] {
      var n := |s| - 1;
      var p := s[..n];
      assert forall i :: 0 <= i < n ==> p[i] == s[i];
      UniqueOfNondecreasing(p);
      var u := Unique(p);
      forall x | x in u ensures x <= s[n] {
        var i :| 0 <= i < n && p[i] == x;
      }
      assert Unique(s) == if s[n] in u then u else u + [s[n]];
      if s[n] !in u {
        var w := u + [s[n]];
        forall i, j | 0 <= i < j < |w| ensures w[i] < w[j] {
          if j == |u| {
            assert u[i] in u;
          }
        }
      }
    }
  }

  /** On chart data the seasons come out in increasing year order, the order of groupby keys. */
  lemma SeasonsIncreasing(rows: seq<Record>)
    requires forall r :: r in rows ==> ValidDate(r.date)
    ensures var ys := Seasons(ChartData(rows));
      forall i, j :: 0 <= i < j < |ys| ==> ys[i] < ys[j]
  {
    var chart := ChartData(rows);
    ChartDataRows(rows);
    var ys := YearsOf(chart);
    forall i, j | 0 <= i <= j < |ys| ensures ys[i] <= ys[j] {
      assert chart[i] in chart && chart[j] in chart;
      ChartDataOrdered(rows, i, j);
      OrdinalYear(chart[i].date, chart[j].date);
    }
    UniqueOfNondecreasing(ys);
  }

  ghost predicate HasYear(chart: seq<Record>, y: int) {
    exists i :: 0 <= i < |chart| && chart[i].date.year == y
  }

  /** The first chart row of year `y` with the largest AA of that year (`idxmax`). */
  function YearBest(chart: seq<Record>, y: int): (k: nat)
    requires HasYear(chart, y)
    ensures k < |chart| && chart[k].date.year == y
    ensures forall i :: 0 <= i < |chart| && chart[i].date.year == y ==> AA(chart[i]) <= AA(chart[k])
    ensures forall i :: 0 <= i < k && chart[i].date.year == y ==> AA(chart[i]) < AA(chart[k])
  {
    var n := |chart| - 1;
    var p := chart[..n];
    assert forall i :: 0 <= i < n ==> p[i] == chart[i];
    if !(exists i :: 0 <= i < n && p[i].date.year == y) then n
    else
      var k := YearBest(p, y);
      if chart[n].date.year == y && AA(chart[n]) > AA(chart[k]) then n else k
  }

  /** The season-best positions, one per season, in season order. */
  function SeasonBests(chart: seq<Record>): (best: seq<nat>)
    ensures |best| == |Seasons(chart)|
    ensures forall s :: 0 <= s < |best| ==>
      && best[s] < |chart| && chart[best[s]].date.year == Seasons(chart)[s]
      && forall i :: 0 <= i < |chart| && chart[i].date.year == Seasons(chart)[s] ==> AA(chart[i]) <= AA(chart[best[s]])
  {
    var ys := Seasons(chart);
    assert forall s :: 0 <= s < |ys| ==> HasYear(chart, ys[s]) by {
      forall s | 0 <= s < |ys| ensures HasYear(chart, ys[s]) {
        assert ys[s] in ys;
        var i :| 0 <= i < |chart| && YearsOf(chart)[i] == ys[s];
      }
    }
    seq(|ys|, s requires 0 <= s < |ys| => YearBest(chart, ys[s]))
  }

  /** Everything the chart is drawn from. */
  datatype TrendView = TrendView(scale: TrendScale, chart: seq<Record>, stars: seq<Record>, seasons: seq<int>, bests: seq<nat>)

  /** The trend section; `None` where the table has no "AA" column and pandas raises KeyError. */
  function Trend(rows: seq<Record>, numeric: set<string>, name: string): (t: Option<TrendView>)
    ensures t.None? <==> "AA" !in numeric
  {
    if "AA" !in numeric then None
    else
      var scale := TrendScaleFor(name);
      var chart := ChartData(rows);
      Some(TrendView(scale, chart, Stars(chart, scale.threshold), Seasons(chart), SeasonBests(chart)))
  }

  // ---------------------------------------------------------------------------
  // The tab
  // ---------------------------------------------------------------------------

  /** The menu, the chosen meet and the current row: the last row of that meet. */
  ghost predicate SelectionFor(sub: seq<Record>, pick: nat, meets: seq<string>, selected: string, latest: Record) {
    && meets == AllMeets(sub)
    && pick < |meets| && selected == meets[pick]
    && LastIndex(sub, selected).Some? && latest == sub[LastIndex(sub, selected).value]
  }

  /** The meet menu, the meet the menu returns, and `.iloc[-1]` of that meet's rows. */
  method SelectMeet(sub: seq<Record>, pick: nat) returns (meets: seq<string>, selected: string, latest: Record)
    requires sub != []
    requires pick == 0 || pick < |AllMeets(sub)|
    ensures SelectionFor(sub, pick, meets, selected, latest)
    ensures latest in sub
  {
    meets := AllMeets(sub);
    DefaultMeetIsMostRecent(sub);
    selected := meets[pick];
    assert selected in meets;
    var k := LastIndex(sub, selected).value;
    latest := sub[k];
  }

  /** The athlete's rows of one year have exactly the table's numeric columns. */
  lemma SeasonRowsShaped(f: Frame, name: string, year: int)
    requires ValidFrame(f)
    ensures forall r :: r in YearRows(Subset(f.rows, name), year) ==> r.scores.Keys == f.numeric
  {
  }

  /** What the tab shows for the athletes whose names contain `name`: the meet menu and
      its selection, the season table, the meet cards and the trend chart. Where the
      cards raise IndexError (a name with no word) the tab ends there, without a trend. */
  ghost predicate TabFor(
    f: Frame, name: string, events: seq<string>, pick: nat,
    ctx: seq<AnalyticsView.ContextRow>, stats: seq<AnalyticsView.JudgeRow>, v: TabView)
  {
    var sub := Subset(f.rows, name);
    && SelectionFor(sub, pick, v.meets, v.selected, v.latest)
    && v.columns == TableColumns(events)
    && TableFor(v.latest, YearRows(sub, v.latest.date.year), f.numeric, v.columns, v.scoreRow, v.rankRow, v.pbRow)
    && AnalyticsView.CardsFor(ctx, stats, name, v.selected, v.cards)
    && v.trend == (if v.cards.None? then None else Trend(sub, f.numeric, name))
  }

  /** The trend section is drawn exactly when the name has a first word (the cards did
      not raise) and the table has an "AA" column (the chart did not raise). */
  lemma TabTrendShown(
    f: Frame, name: string, events: seq<string>, pick: nat,
    ctx: seq<AnalyticsView.ContextRow>, stats: seq<AnalyticsView.JudgeRow>, v: TabView)
    requires TabFor(f, name, events, pick, ctx, stats, v)
    ensures v.cards.None? ==> v.trend.None?
    ensures v.trend.Some? <==> FirstToken(name).Some? && "AA" in f.numeric
  {
  }

  /** A blank name passes the name filter yet has no first word, so such a tab shows its
      table and then stops at the cards. */
  lemma BlankNameStopsAtCards()
    ensures ContainsIgnoreCase("Ansel Sheehy", " ")
    ensures FirstToken(" ").None?
  {
    assert LowerAll(" ") == " ";
    assert LowerAll("Ansel Sheehy")[5..] == " sheehy";
    assert IsPrefix(" ", " sheehy");
    assert OccursAt(LowerAll("Ansel Sheehy"), " ", 5);
    ContainsIffOccurs(LowerAll("Ansel Sheehy"), " ");
  }

  /** No score the tab shows for the selected meet exceeds the season best beside it. */
  lemma TabWithinSeasonPB(
    f: Frame, name: string, events: seq<string>, pick: nat,
    ctx: seq<AnalyticsView.ContextRow>, stats: seq<AnalyticsView.JudgeRow>, v: TabView)
    requires TabFor(f, name, events, pick, ctx, stats, v)
    ensures forall i :: 0 <= i < |v.columns| ==> v.scoreRow[i] <= v.pbRow[i]
  {
    var yearRows := YearRows(Subset(f.rows, name), v.latest.date.year);
    TableWithinSeasonPB(v.latest, yearRows, f.numeric, v.columns, v.scoreRow, v.rankRow, v.pbRow);
  }

  /** The score table (section C of `show_gymnast_tab`): the current row against its
      calendar year. */
  method ScoreTable(f: Frame, name: string, latest: Record, events: seq<string>)
    returns (cols: seq<string>, scoreRow: seq<real>, rankRow: seq<string>, pbRow: seq<real>)
    requires ValidFrame(f)
    requires latest in Subset(f.rows, name)
    ensures cols == TableColumns(events)
    ensures TableFor(latest, YearRows(Subset(f.rows, name), latest.date.year), f.numeric, cols, scoreRow, rankRow, pbRow)
    ensures forall i :: 0 <= i < |cols| ==> scoreRow[i] <= pbRow[i]
  {
    var yearRows := YearRows(Subset(f.rows, name), latest.date.year);
    assert latest in yearRows;
    SeasonRowsShaped(f, name, latest.date.year);
    cols := TableColumns(events);
    scoreRow, rankRow, pbRow := BuildTable(latest, yearRows, f.numeric, cols);
    TableWithinSeasonPB(latest, yearRows, f.numeric, cols, scoreRow, rankRow, pbRow);
  }

  datatype TabView = TabView(
    meets: seq<string>, selected: string, latest: Record,
    columns: seq<string>, scoreRow: seq<real>, rankRow: seq<string>, pbRow: seq<real>,
    cards: Option<seq<AnalyticsView.Card>>, trend: Option<TrendView>)

  /** `show_gymnast_tab`: the table is passed in, `pick` is the index the meet menu
      returns (0 until the user chooses), and the judge cards are built from the two
      analytics tables. `None` is the early return for a name that matches no row; a
      view without cards is a tab that stopped at the cards' IndexError. */
  method ShowGymnastTab(
    f: Frame, name: string, events: seq<string>, pick: nat,
    ctx: seq<AnalyticsView.ContextRow>, stats: seq<AnalyticsView.JudgeRow>)
    returns (view: Option<TabView>)
    requires ValidFrame(f)
    requires pick == 0 || pick < |AllMeets(Subset(f.rows, name))|
    ensures view.None? <==> Subset(f.rows, name) == []
    ensures view.Some? ==> TabFor(f, name, events, pick, ctx, stats, view.value)
  {
    var sub := Subset(f.rows, name);
    if sub == [] {
      return None;
    }
    var meets, selected, latest := SelectMeet(sub, pick);
    var cols, scoreRow, rankRow, pbRow := ScoreTable(f, name, latest, events);
    var cards := AnalyticsView.ShowAthleteHistory(ctx, stats, name, selected);
    if cards.None? {
      view := Some(TabView(meets, selected, latest, cols, scoreRow, rankRow, pbRow, None, None));
      return;
    }
    var trend := Trend(sub, f.numeric, name);
    view := Some(TabView(meets, selected, latest, cols, scoreRow, rankRow, pbRow, cards, trend));
  }
}
