/** The judge-analysis cards of the dashboard: the judge-profile classifier, the
    lookup of a judge statistic for one routine with its "Pending" fallback, the
    selection of the routines shown for a meet, and the numbers that place the
    nested level/division bars of each card's chart. */
module AnalyticsView {
  import opened Util
  import opened Text

  // ---------------------------------------------------------------------------
  // Judge profile
  // ---------------------------------------------------------------------------

  /** A JSI strictly below this is a strict panel. */
  const StrictBelow: real := -0.10
  /** A JSI strictly above this is a lenient panel. */
  const LenientAbove: real := 0.10
  /** An IQR at or above this is an erratic panel. */
  const ErraticFrom: real := 0.50

  const FairButTough := "Fair but Tough"
  const StrictUnpredictable := "Strict & Unpredictable"
  const GenerousPrecise := "Generous but Precise"
  const GenerousErratic := "Generous but Erratic"
  const TextbookJudging := "Textbook Judging"
  const AverageErratic := "Average but Erratic"

  const ProfileLabels: set<string> :=
    {FairButTough, StrictUnpredictable, GenerousPrecise, GenerousErratic, TextbookJudging, AverageErratic}

  /** The label of a judge panel from its scoring bias (JSI) and its spread (IQR).
      In Python a NaN JSI fails both comparisons and lands in the neutral band, and a
      NaN IQR fails `iqr < 0.50` and gives the erratic variant; NaN is not modelled. */
  function JudgeProfile(jsi: real, iqr: real): (r: string)
    ensures r in ProfileLabels
  {
    if jsi < StrictBelow then
      (if iqr < ErraticFrom then FairButTough else StrictUnpredictable)
    else if jsi > LenientAbove then
      (if iqr < ErraticFrom then GenerousPrecise else GenerousErratic)
    else
      (if iqr < ErraticFrom then TextbookJudging else AverageErratic)
  }

  /** The bias band, on its own: the first axis of the decision table. */
  datatype Band = Strict | Neutral | Lenient

  function BandOf(jsi: real): Band {
    if jsi < StrictBelow then Strict else if LenientAbove < jsi then Lenient else Neutral
  }

  function Mirror(b: Band): Band {
    match b
    case Strict => Lenient
    case Neutral => Neutral
    case Lenient => Strict
  }

  /** The decision table cell for a band and a consistency qualifier. */
  function ProfileLabel(b: Band, consistent: bool): string {
    match b
    case Strict => if consistent then FairButTough else StrictUnpredictable
    case Neutral => if consistent then TextbookJudging else AverageErratic
    case Lenient => if consistent then GenerousPrecise else GenerousErratic
  }

  /** Reads a label back into its table cell. */
  function ParseProfile(text: string): Option<(Band, bool)> {
    if text == FairButTough then Some((Strict, true))
    else if text == StrictUnpredictable then Some((Strict, false))
    else if text == TextbookJudging then Some((Neutral, true))
    else if text == AverageErratic then Some((Neutral, false))
    else if text == GenerousPrecise then Some((Lenient, true))
    else if text == GenerousErratic then Some((Lenient, false))
    else None
  }

  /** The classifier is the table indexed by the band of `jsi` and by `iqr < 0.50` alone. */
  lemma JudgeProfileByAxes(jsi: real, iqr: real)
    ensures JudgeProfile(jsi, iqr) == ProfileLabel(BandOf(jsi), iqr < ErraticFrom)
  {
  }

  /** The six cells carry six different labels: a label names its band and qualifier. */
  lemma ParseProfileLabel(b: Band, consistent: bool)
    ensures ParseProfile(ProfileLabel(b, consistent)) == Some((b, consistent))
  {
    assert FairButTough[0] == 'F' && StrictUnpredictable[0] == 'S' && TextbookJudging[0] == 'T';
    assert AverageErratic[0] == 'A' && GenerousPrecise[0] == 'G' && GenerousErratic[0] == 'G';
    assert GenerousPrecise[13] == 'P' && GenerousErratic[13] == 'E';
  }

  lemma ProfileLabelsCount()
    ensures |ProfileLabels| == 6
  {
    var cells := [(Strict, true), (Strict, false), (Neutral, true), (Neutral, false), (Lenient, true), (Lenient, false)];
    forall i | 0 <= i < 6 { ParseProfileLabel(cells[i].0, cells[i].1); }
    var a := {FairButTough};
    var b := a + {StrictUnpredictable};
    var c := b + {GenerousPrecise};
    var d := c + {GenerousErratic};
    var e := d + {TextbookJudging};
    assert |a| == 1;
    assert StrictUnpredictable !in a;
    assert GenerousPrecise !in b;
    assert GenerousErratic !in c;
    assert TextbookJudging !in d;
    assert AverageErratic !in e;
    assert ProfileLabels == e + {AverageErratic};
  }

  /** Equal labels mean the same band and the same side of 0.50. */
  lemma JudgeProfileDeterminesAxes(jsi1: real, iqr1: real, jsi2: real, iqr2: real)
    requires JudgeProfile(jsi1, iqr1) == JudgeProfile(jsi2, iqr2)
    ensures BandOf(jsi1) == BandOf(jsi2)
    ensures (iqr1 < ErraticFrom) == (iqr2 < ErraticFrom)
  {
    JudgeProfileByAxes(jsi1, iqr1);
    JudgeProfileByAxes(jsi2, iqr2);
    ParseProfileLabel(BandOf(jsi1), iqr1 < ErraticFrom);
    ParseProfileLabel(BandOf(jsi2), iqr2 < ErraticFrom);
  }

  /** Each label is produced exactly on its cell of the table. */
  lemma JudgeProfileTable(jsi: real, iqr: real)
    ensures JudgeProfile(jsi, iqr) == FairButTough <==> jsi < -0.10 && iqr < 0.50
    ensures JudgeProfile(jsi, iqr) == StrictUnpredictable <==> jsi < -0.10 && iqr >= 0.50
    ensures JudgeProfile(jsi, iqr) == TextbookJudging <==> -0.10 <= jsi <= 0.10 && iqr < 0.50
    ensures JudgeProfile(jsi, iqr) == AverageErratic <==> -0.10 <= jsi <= 0.10 && iqr >= 0.50
    ensures JudgeProfile(jsi, iqr) == GenerousPrecise <==> jsi > 0.10 && iqr < 0.50
    ensures JudgeProfile(jsi, iqr) == GenerousErratic <==> jsi > 0.10 && iqr >= 0.50
  {
    JudgeProfileByAxes(jsi, iqr);
    var b, c := BandOf(jsi), iqr < ErraticFrom;
    ParseProfileLabel(b, c);
    var cells := [(Strict, true), (Strict, false), (Neutral, true), (Neutral, false), (Lenient, true), (Lenient, false)];
    forall i | 0 <= i < 6 { ParseProfileLabel(cells[i].0, cells[i].1); }
  }

  /** Both thresholds of the JSI axis belong to the neutral band. */
  lemma JudgeProfileJsiBoundaries(iqr: real)
    ensures JudgeProfile(-0.10, iqr) == JudgeProfile(0.10, iqr)
    ensures JudgeProfile(0.10, iqr) == if iqr < 0.50 then TextbookJudging else AverageErratic
  {
  }

  /** An IQR of exactly 0.50 is erratic in every band. */
  lemma JudgeProfileIqrBoundary(jsi: real)
    ensures JudgeProfile(jsi, 0.50) == ProfileLabel(BandOf(jsi), false)
    ensures JudgeProfile(jsi, 0.50) in {StrictUnpredictable, AverageErratic, GenerousErratic}
  {
  }

  /** Only the side of 0.50 matters on the IQR axis. */
  lemma JudgeProfileSameSide(jsi: real, iqr1: real, iqr2: real)
    requires (iqr1 < 0.50) == (iqr2 < 0.50)
    ensures JudgeProfile(jsi, iqr1) == JudgeProfile(jsi, iqr2)
  {
  }

  /** Negating the JSI swaps strict and lenient and keeps the qualifier. */
  lemma JudgeProfileMirror(jsi: real, iqr: real)
    ensures JudgeProfile(-jsi, iqr) == ProfileLabel(Mirror(BandOf(jsi)), iqr < 0.50)
  {
  }

  /** Worked cases of the table, the two boundaries among them. */
  lemma JudgeProfileExamples()
    ensures JudgeProfile(-0.20, 0.30) == FairButTough
    ensures JudgeProfile(0.00, 0.60) == AverageErratic
    ensures JudgeProfile(0.25, 0.10) == GenerousPrecise
    ensures JudgeProfile(-0.10, 0.10) == TextbookJudging
    ensures JudgeProfile(0.20, 0.50) == GenerousErratic
  {
  }

  // ---------------------------------------------------------------------------
  // Judge statistics lookup
  // ---------------------------------------------------------------------------

  /** A competitive level as the context table holds it: a number (7) or a name ("Gold"). */
  datatype Level = Numbered(n: int) | Named(name: string)

  /** Python's `str(level)`. */
  function LevelText(l: Level): string {
    match l
    case Numbered(n) => IntText(n)
    case Named(s) => s
  }

  /** Numbered levels have distinct keys. */
  lemma LevelTextNumbered(a: int, b: int)
    requires LevelText(Numbered(a)) == LevelText(Numbered(b))
    ensures a == b
  {
    IntTextInjective(a, b);
  }

  /** The (Meet, Level, Event) key of the judge table; the level is compared as text. */
  datatype StatKey = StatKey(meet: string, level: string, event: string)

  /** One row of the judge table. */
  datatype JudgeRow = JudgeRow(meet: string, level: string, event: string, jsi: real, iqr: real) {
    function Key(): StatKey { StatKey(meet, level, event) }
  }

  /** One row of the session-context table: an athlete's routine with the population
      statistics of the whole level and of the age division. */
  datatype ContextRow = ContextRow(
    gymnast: string, meet: string, level: Level, event: string,
    score: real, levelMax: real, levelMedian: real, divMax: real,
    percentile: real, count: int)

  function RowKey(row: ContextRow): StatKey {
    StatKey(row.meet, LevelText(row.level), row.event)
  }

  ghost predicate IsFirstMatch(stats: seq<JudgeRow>, key: StatKey, k: int) {
    0 <= k < |stats| && stats[k].Key() == key && forall i :: 0 <= i < k ==> stats[i].Key() != key
  }

  /** Position of the first judge row with the given key (`iloc[0]` of the match). */
  function FirstMatch(stats: seq<JudgeRow>, key: StatKey): (k: Option<nat>)
    ensures k.None? <==> forall i :: 0 <= i < |stats| ==> stats[i].Key() != key
    ensures k.Some? ==> IsFirstMatch(stats, key, k.value)
  {
    if stats == [] then None
    else if stats[0].Key() == key then Some(0)
    else
      match FirstMatch(stats[1..], key)
      case None => None
      case Some(k) => Some(k + 1)
  }

  const PendingLabel := "Pending"

  /** What a card shows about the judges: label, JSI and IQR. */
  datatype Reading = Reading(profile: string, jsi: real, iqr: real)

  /** The judge reading for one key: from the first matching row, or the
      "Pending" sentinel with zero statistics when no row matches. */
  function JudgeLookup(stats: seq<JudgeRow>, key: StatKey): (r: Reading)
    ensures (forall i :: 0 <= i < |stats| ==> stats[i].Key() != key) ==> r == Reading(PendingLabel, 0.0, 0.0)
    ensures (exists i :: 0 <= i < |stats| && stats[i].Key() == key) ==>
      exists k :: IsFirstMatch(stats, key, k) &&
        r == Reading(JudgeProfile(stats[k].jsi, stats[k].iqr), stats[k].jsi, stats[k].iqr)
  {
    match FirstMatch(stats, key)
    case None => Reading(PendingLabel, 0.0, 0.0)
    case Some(k) => Reading(JudgeProfile(stats[k].jsi, stats[k].iqr), stats[k].jsi, stats[k].iqr)
  }

  /** "Pending" is shown exactly when the judge table has no row for the key. */
  lemma PendingIffNoMatch(stats: seq<JudgeRow>, key: StatKey)
    ensures JudgeLookup(stats, key).profile == PendingLabel <==>
      forall i :: 0 <= i < |stats| ==> stats[i].Key() != key
  {
    assert PendingLabel[0] == 'P';
    if k :| IsFirstMatch(stats, key, k) {
      var l := JudgeProfile(stats[k].jsi, stats[k].iqr);
      assert l[0] != 'P';
    }
  }

  // ---------------------------------------------------------------------------
  // Rows shown for a meet
  // ---------------------------------------------------------------------------

  /** A context row belongs on the page: its gymnast contains the first word of the
      name, ignoring case, it is from the selected meet, and it is not the all-around. */
  predicate Shown(row: ContextRow, token: string, meet: string) {
    ContainsIgnoreCase(row.gymnast, token) && row.meet == meet && row.event != "AA"
  }

  /** The row mask of the meet listing. */
  function ShownMask(token: string, meet: string): ContextRow -> bool {
    (x: ContextRow) => Shown(x, token, meet)
  }

  /** The routines listed for a meet, in table order; `None` where the name has no
      first word and `split()[0]` raises. */
  function MeetRows(ctx: seq<ContextRow>, gymnastName: string, meet: string): (r: Option<seq<ContextRow>>)
    ensures r.None? <==> FirstToken(gymnastName).None?
    ensures r.Some? ==> forall x :: x in r.value <==> x in ctx && Shown(x, FirstToken(gymnastName).value, meet)
    ensures r.Some? ==> forall x :: multiset(r.value)[x] ==
                          (if Shown(x, FirstToken(gymnastName).value, meet) then multiset(ctx)[x] else 0)
  {
    match FirstToken(gymnastName)
    case None => None
    case Some(token) =>
      FilterCount(ctx, ShownMask(token, meet));
      Some(Filter(ctx, ShownMask(token, meet)))
  }

  /** The listed routines keep the table's order: listing from two consecutive parts
      of the table is listing from each part and joining the results. */
  lemma MeetRowsInTableOrder(a: seq<ContextRow>, b: seq<ContextRow>, gymnastName: string, meet: string)
    requires FirstToken(gymnastName).Some?
    ensures MeetRows(a + b, gymnastName, meet).value ==
            MeetRows(a, gymnastName, meet).value + MeetRows(b, gymnastName, meet).value
  {
    FilterAppend(a, b, ShownMask(FirstToken(gymnastName).value, meet));
  }

  // ---------------------------------------------------------------------------
  // Context chart
  // ---------------------------------------------------------------------------

  /** Names whose charts use the boys' scale. */
  const BoyNames: seq<string> := ["Ansel"]

  /** `any(n in gymnast_name for n in BoyNames)`. */
  predicate IsBoy(gymnastName: string) {
    exists k :: 0 <= k < |BoyNames| && Contains(gymnastName, BoyNames[k])
  }

  /** A horizontal bar from `base` to `base + length`. */
  datatype Bar = Bar(base: real, length: real) {
    function End(): real { base + length }
  }

  /** The numbers that place a card's chart: the x-axis floor and ceiling, the two
      nested bars, the score star, the level-median tick, and the x-axis range. */
  datatype ChartGeometry = ChartGeometry(
    xMin: real, xMax: real, level: Bar, division: Bar,
    scoreMark: real, medianMark: real, axisLow: real, axisHigh: real)

  function ContextChart(row: ContextRow, gymnastName: string): ChartGeometry {
    var xMin := if IsBoy(gymnastName) then 7.0 else 8.0;
    var xMax := 10.0;
    ChartGeometry(xMin, xMax, Bar(xMin, row.levelMax - xMin), Bar(xMin, row.divMax - xMin),
                  row.score, row.levelMedian, xMin, xMax + 0.05)
  }

  /** The floor is 7.0 exactly for names containing "Ansel", otherwise 8.0; both bars
      and the axis start at the floor and each bar ends at its population's maximum. */
  lemma ContextChartGeometry(row: ContextRow, gymnastName: string)
    ensures var g := ContextChart(row, gymnastName);
      && g.xMin == (if Contains(gymnastName, "Ansel") then 7.0 else 8.0)
      && g.xMax == 10.0
      && g.level.base == g.division.base == g.axisLow == g.xMin
      && g.level.End() == row.levelMax
      && g.division.End() == row.divMax
      && g.axisHigh == g.xMax + 0.05
  {
    assert Contains(gymnastName, "Ansel") ==> IsBoy(gymnastName) by {
      assert BoyNames[0] == "Ansel";
    }
  }

  /** Since the division is part of the level, the division bar lies inside the level bar. */
  lemma DivisionBarInsideLevelBar(row: ContextRow, gymnastName: string)
    requires row.divMax <= row.levelMax
    ensures var g := ContextChart(row, gymnastName);
      g.division.base == g.level.base && g.division.End() <= g.level.End()
  {
  }

  // ---------------------------------------------------------------------------
  // The cards of a meet
  // ---------------------------------------------------------------------------

  /** Everything one card displays. */
  datatype Card = Card(row: ContextRow, chart: ChartGeometry, judge: Reading)

  function CardFor(stats: seq<JudgeRow>, row: ContextRow, gymnastName: string): Card {
    Card(row, ContextChart(row, gymnastName), JudgeLookup(stats, RowKey(row)))
  }

  /** One card per row, in the rows' order. */
  function Cards(stats: seq<JudgeRow>, rows: seq<ContextRow>, gymnastName: string): (r: seq<Card>)
    ensures |r| == |rows|
  {
    if rows == [] then []
    else Cards(stats, rows[..|rows| - 1], gymnastName) + [CardFor(stats, rows[|rows| - 1], gymnastName)]
  }

  /** Card `i` is the card of row `i`. */
  lemma {:induction false} CardsAt(stats: seq<JudgeRow>, rows: seq<ContextRow>, gymnastName: string, i: int)
    requires 0 <= i < |rows|
    ensures Cards(stats, rows, gymnastName)[i] == CardFor(stats, rows[i], gymnastName)
  {
    if i < |rows| - 1 {
      var init := rows[..|rows| - 1];
      CardsAt(stats, init, gymnastName, i);
      assert init[i] == rows[i];
    }
  }

  /** Extending the rows by one extends the cards by that row's card. */
  lemma CardsSnoc(stats: seq<JudgeRow>, rows: seq<ContextRow>, gymnastName: string, i: int)
    requires 0 <= i < |rows|
    ensures Cards(stats, rows[..i + 1], gymnastName) == Cards(stats, rows[..i], gymnastName) + [CardFor(stats, rows[i], gymnastName)]
  {
    assert rows[..i + 1][..i] == rows[..i];
  }

  /** The loop of `show_athlete_history_v2`: one card per row, in order. */
  method BuildCards(rows: seq<ContextRow>, stats: seq<JudgeRow>, gymnastName: string) returns (cards: seq<Card>)
    ensures cards == Cards(stats, rows, gymnastName)
  {
    cards := [];
    for i := 0 to |rows|
      invariant cards == Cards(stats, rows[..i], gymnastName)
    {
      var card := CardFor(stats, rows[i], gymnastName);
      CardsSnoc(stats, rows, gymnastName, i);
      cards := cards + [card];
    }
    assert rows[..|rows|] == rows;
  }

  /** The cards shown for a meet: `None` where the name has no first word, so that
      `split()[0]` raises IndexError before any card is drawn; otherwise one card per
      shown routine, in table order. */
  ghost predicate CardsFor(ctx: seq<ContextRow>, stats: seq<JudgeRow>, gymnastName: string, meet: string,
                           cards: Option<seq<Card>>)
  {
    && (cards.None? <==> FirstToken(gymnastName).None?)
    && (cards.Some? ==>
          cards.value == Cards(stats, MeetRows(ctx, gymnastName, meet).value, gymnastName))
  }

  /** `show_athlete_history_v2` with its two tables already loaded. */
  method ShowAthleteHistory(ctx: seq<ContextRow>, stats: seq<JudgeRow>, gymnastName: string, selectedMeet: string)
    returns (cards: Option<seq<Card>>)
    ensures CardsFor(ctx, stats, gymnastName, selectedMeet, cards)
  {
    var shown := MeetRows(ctx, gymnastName, selectedMeet);
    if shown.None? {
      return None;
    }
    var built := BuildCards(shown.value, stats, gymnastName);
    cards := Some(built);
  }
}
