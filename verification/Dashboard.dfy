/** The dashboard's daily usage series: stored buckets laid over a fixed grid of days. */
module Dashboard {
  import opened Wrappers
  import opened Numbers

  const I64_MIN := -0x8000_0000_0000_0000
  const I64_MAX := 0x7FFF_FFFF_FFFF_FFFF

  type I64 = n: int | -0x8000_0000_0000_0000 <= n <= 0x7FFF_FFFF_FFFF_FFFF

  datatype TokenUsage = TokenUsage(
    inputTokens: I64, cachedInputTokens: I64, outputTokens: I64, reasoningOutputTokens: I64, totalTokens: I64,
    requestCount: I64, successCount: I64, errorCount: I64)

  datatype DailyRollup = DailyRollup(dayStart: I64, dayEnd: I64, usage: TokenUsage)

  datatype Point = Point(dayStart: I64, dayEnd: I64, usage: TokenUsage)

  const NO_USAGE := TokenUsage(0, 0, 0, 0, 0, 0, 0, 0)

  function AtLeastZero(n: I64): I64 {
    if n < 0 then 0 else n
  }

  /** `dashboard_usage` */
  function DashboardUsage(u: TokenUsage): TokenUsage {
    TokenUsage(AtLeastZero(u.inputTokens), AtLeastZero(u.cachedInputTokens), AtLeastZero(u.outputTokens),
               AtLeastZero(u.reasoningOutputTokens), AtLeastZero(u.totalTokens), AtLeastZero(u.requestCount),
               AtLeastZero(u.successCount), AtLeastZero(u.errorCount))
  }

  function SaturatingAdd(a: I64, b: I64): I64 {
    if a + b > I64_MAX then I64_MAX else if a + b < I64_MIN then I64_MIN else a + b
  }

  /** Collecting into a `BTreeMap` keeps the last of the buckets that share a start. */
  function ByStart(items: seq<DailyRollup>): map<I64, DailyRollup> {
    if items == [] then map[]
    else ByStart(items[..|items| - 1])[items[|items| - 1].dayStart := items[|items| - 1]]
  }

  /** The stored bucket of a day: the last one that starts then. */
  function LastAt(items: seq<DailyRollup>, start: int): Option<DailyRollup> {
    if items == [] then None
    else if LastAt(items[1..], start).Some? then LastAt(items[1..], start)
    else if items[0].dayStart == start then Some(items[0])
    else None
  }

  /** The start of the `k`-th day: start, start + b, start + 2b, ... */
  function Position(start: int, b: int, k: nat): int {
    if k == 0 then start else Position(start, b, k - 1) + b
  }

  lemma {:induction false} PositionIsMultiple(start: int, b: int, k: nat)
    ensures Position(start, b, k) == start + k * b
  {
    if k > 0 { PositionIsMultiple(start, b, k - 1); }
  }

  lemma {:induction false} PositionsGrow(start: int, b: int, i: nat, j: nat)
    requires i <= j && b >= 1
    ensures Position(start, b, i) + (j - i) <= Position(start, b, j)
  {
    if i < j { PositionsGrow(start, b, i, j - 1); }
  }

  /** `n` days starting at `start` reach `end`, and fewer do not. */
  predicate Reaches(start: int, end: int, b: int, n: nat) {
    if start >= end then n == 0 else n > 0 && Position(start, b, n - 1) < end <= Position(start, b, n)
  }

  /** The `k`-th point of the series. */
  ghost predicate IsPoint(p: Point, items: seq<DailyRollup>, start: int, end: int, b: int, k: nat) {
    var from := Position(start, b, k);
    match LastAt(items, from)
    case Some(item) => p == Point(item.dayStart, item.dayEnd, DashboardUsage(item.usage))
    case None => p.dayStart == from && p.dayEnd == ProperEnd(from, end, b) && p.usage == NO_USAGE
  }

  ghost predicate ArePoints(points: seq<Point>, items: seq<DailyRollup>, start: int, end: int, b: int) {
    forall k | 0 <= k < |points| :: IsPoint(points[k], items, start, end, b, k)
  }

  function ProperEnd(from: int, end: int, b: int): int {
    if from + b < end then from + b else end
  }

  lemma {:induction false} MapHoldsLast(items: seq<DailyRollup>, start: I64)
    ensures start in ByStart(items) <==> LastAt(items, start).Some?
    ensures start in ByStart(items) ==> LastAt(items, start) == Some(ByStart(items)[start])
  {
    if items != [] {
      var init, last := items[..|items| - 1], items[|items| - 1];
      MapHoldsLast(init, start);
      LastAtAppend(init, last, start);
      assert items == init + [last];
    }
  }

  lemma {:induction false} LastAtAppend(items: seq<DailyRollup>, item: DailyRollup, start: int)
    ensures LastAt(items + [item], start) == if item.dayStart == start then Some(item) else LastAt(items, start)
  {
    if items == [] {
      assert ([] + [item])[1..] == [];
    } else {
      LastAtAppend(items[1..], item, start);
      assert (items + [item])[1..] == items[1..] + [item];
    }
  }

  lemma {:induction false} LastAtStarts(items: seq<DailyRollup>, start: int)
    ensures LastAt(items, start).Some? ==> LastAt(items, start).value.dayStart == start
  {
    if items != [] { LastAtStarts(items[1..], start); }
  }

  // ---- A point in terms of the buckets' columns

  /** Each number as stored, 0 if that is negative. */
  ghost predicate ShowsUsage(shown: TokenUsage, stored: TokenUsage) {
    && shown.inputTokens == (if stored.inputTokens >= 0 then stored.inputTokens else 0)
    && shown.cachedInputTokens == (if stored.cachedInputTokens >= 0 then stored.cachedInputTokens else 0)
    && shown.outputTokens == (if stored.outputTokens >= 0 then stored.outputTokens else 0)
    && shown.reasoningOutputTokens == (if stored.reasoningOutputTokens >= 0 then stored.reasoningOutputTokens else 0)
    && shown.totalTokens == (if stored.totalTokens >= 0 then stored.totalTokens else 0)
    && shown.requestCount == (if stored.requestCount >= 0 then stored.requestCount else 0)
    && shown.successCount == (if stored.successCount >= 0 then stored.successCount else 0)
    && shown.errorCount == (if stored.errorCount >= 0 then stored.errorCount else 0)
  }

  /** The `i`-th bucket is the last that starts at `from`, and the point shows it. */
  ghost predicate ShowsBucket(p: Point, items: seq<DailyRollup>, from: int, i: nat) {
    && i < |items| && items[i].dayStart == from
    && (forall j | i < j < |items| :: items[j].dayStart != from)
    && p.dayStart == from && p.dayEnd == items[i].dayEnd && ShowsUsage(p.usage, items[i].usage)
  }

  /** The day from `from` on: its last bucket as stored, or an empty day cut at the end if it has none. */
  ghost predicate ShowsDay(p: Point, items: seq<DailyRollup>, from: int, end: int, b: int) {
    || (exists i: nat :: ShowsBucket(p, items, from, i))
    || (&& (forall item | item in items :: item.dayStart != from)
        && p.dayStart == from && p.dayEnd == (if from + b < end then from + b else end)
        && p.usage == TokenUsage(0, 0, 0, 0, 0, 0, 0, 0))
  }

  lemma {:induction false} LastAtPosition(items: seq<DailyRollup>, from: int) returns (i: nat)
    requires LastAt(items, from).Some?
    ensures i < |items| && items[i].dayStart == from && LastAt(items, from) == Some(items[i])
    ensures forall j | i < j < |items| :: items[j].dayStart != from
  {
    i := 0;
    if LastAt(items[1..], from).Some? {
      var k := LastAtPosition(items[1..], from);
      i := k + 1;
      forall j | i < j < |items| ensures items[j].dayStart != from {
        assert items[j] == items[1..][j - 1];
      }
    } else {
      LastAtNone(items[1..], from);
    }
  }

  lemma PointsShowDays(points: seq<Point>, items: seq<DailyRollup>, start: int, end: int, b: int)
    requires ArePoints(points, items, start, end, b)
    ensures forall k | 0 <= k < |points| :: ShowsDay(points[k], items, start + k * b, end, b)
  {
    hide ShowsUsage;
    forall k | 0 <= k < |points| ensures ShowsDay(points[k], items, start + k * b, end, b) {
      var from := Position(start, b, k);
      PositionIsMultiple(start, b, k);
      assert IsPoint(points[k], items, start, end, b, k);
      if LastAt(items, from).Some? {
        var i := LastAtPosition(items, from);
        UsageIsShown(items[i].usage);
        assert ShowsBucket(points[k], items, from, i);
      } else {
        LastAtNone(items, from);
      }
    }
  }

  lemma UsageIsShown(u: TokenUsage)
    ensures ShowsUsage(DashboardUsage(u), u)
  {}

  /** One point a day, from the start, for as many days as it takes to reach the end. */
  method FillDailyUsage(start: I64, end: I64, bucketSeconds: I64, items: seq<DailyRollup>) returns (points: seq<Point>)
    ensures var b := if bucketSeconds < 1 then 1 else bucketSeconds;
            Reaches(start, end, b, |points|) && ArePoints(points, items, start, end, b)
    ensures start >= end ==> points == []
    ensures var b, n := if bucketSeconds < 1 then 1 else bucketSeconds, |points|;
            && (start < end ==> n > 0 && start + (n - 1) * b < end <= start + n * b)
            && forall k | 0 <= k < n :: ShowsDay(points[k], items, start + k * b, end, b)
  {
    hide ShowsDay;
    var b: I64 := if bucketSeconds < 1 then 1 else bucketSeconds;
    var byStart: map<I64, DailyRollup> := ByStart(items);
    var cursor := start;
    points := [];
    while cursor < end
      invariant cursor == if |points| == 0 then start else ProperEnd(Position(start, b, |points| - 1), end, b)
      invariant |points| > 0 ==> start < end && Position(start, b, |points| - 1) < end
      invariant Remains(byStart, items, cursor)
      invariant ArePoints(points, items, start, end, b)
      decreases end - cursor
    {
      assert cursor == Position(start, b, |points|);
      var next := Min(SaturatingAdd(cursor, b), end);
      MapHoldsLast(items, cursor);
      var point;
      if cursor in byStart {
        var item := byStart[cursor];
        byStart := byStart - {cursor};
        point := Point(item.dayStart, item.dayEnd, DashboardUsage(item.usage));
      } else {
        point := Point(cursor, next, NO_USAGE);
      }
      assert IsPoint(point, items, start, end, b, |points|);
      points := points + [point];
      cursor := next;
    }
    PointsShowDays(points, items, start, end, b);
    PositionIsMultiple(start, b, |points|);
    if points != [] { PositionIsMultiple(start, b, |points| - 1); }
  }

  /** The buckets not yet passed are all still in the map. */
  ghost predicate Remains(byStart: map<I64, DailyRollup>, items: seq<DailyRollup>, cursor: int) {
    forall ts: I64 | ts >= cursor ::
      (ts in byStart <==> ts in ByStart(items)) && (ts in byStart ==> byStart[ts] == ByStart(items)[ts])
  }

  /** Each point ends where the next one starts, the first starts at the start and the last ends at the end. */
  ghost predicate Tiles(points: seq<Point>, start: int, end: int) {
    && points != []
    && points[0].dayStart == start
    && forall k | 0 <= k < |points| :: MeetsNext(points, end, k)
  }

  ghost predicate MeetsNext(points: seq<Point>, end: int, k: nat)
    requires k < |points|
  {
    points[k].dayEnd == if k + 1 < |points| then points[k + 1].dayStart else end
  }

  /** A stored bucket that is used carries the end its grid position gives it. */
  ghost predicate HasProperEnd(items: seq<DailyRollup>, start: int, end: int, b: int, k: nat) {
    var from := Position(start, b, k);
    LastAt(items, from).Some? ==> LastAt(items, from).value.dayEnd == ProperEnd(from, end, b)
  }

  /** The series tiles the interval exactly when the stored buckets it uses carry their proper ends. */
  lemma TilesExactlyWithProperEnds(points: seq<Point>, items: seq<DailyRollup>, start: int, end: int, b: int)
    requires b >= 1 && points != [] && Reaches(start, end, b, |points|) && ArePoints(points, items, start, end, b)
    ensures Tiles(points, start, end) <==> forall k | 0 <= k < |points| :: HasProperEnd(items, start, end, b, k)
  {
    var n := |points|;
    forall k | 0 <= k < n ensures points[k].dayStart == Position(start, b, k) {
      assert IsPoint(points[k], items, start, end, b, k);
      LastAtStarts(items, Position(start, b, k));
    }
    forall k | 0 <= k < n ensures MeetsNext(points, end, k) <==> HasProperEnd(items, start, end, b, k) {
      assert IsPoint(points[k], items, start, end, b, k);
      assert Position(start, b, k + 1) == Position(start, b, k) + b;
      if k + 1 < n { PositionsGrow(start, b, k + 1, n - 1); }
    }
  }

  // ---- Totals

  function PointTotal(points: seq<Point>): int {
    if points == [] then 0 else PointTotal(points[..|points| - 1]) + points[|points| - 1].usage.totalTokens
  }

  /** A day of the series starts at `ts`. */
  predicate OnGrid(ts: int, start: int, end: int, b: int) {
    start <= ts < end && exists k: nat | k <= ts - start :: Position(start, b, k) == ts
  }

  /** The clamped tokens of the input buckets on the grid, each start counted for its last bucket only. */
  function GridTotal(items: seq<DailyRollup>, start: int, end: int, b: int): int {
    if items == [] then 0
    else
      (if OnGrid(items[0].dayStart, start, end, b) && (forall later | later in items[1..] :: later.dayStart != items[0].dayStart)
       then AtLeastZero(items[0].usage.totalTokens) else 0)
      + GridTotal(items[1..], start, end, b)
  }

  function TokensAt(items: seq<DailyRollup>, ts: int): int {
    match LastAt(items, ts)
    case Some(item) => AtLeastZero(item.usage.totalTokens)
    case None => 0
  }

  function SeriesTotal(items: seq<DailyRollup>, start: int, b: int, n: nat): int {
    if n == 0 then 0 else SeriesTotal(items, start, b, n - 1) + TokensAt(items, Position(start, b, n - 1))
  }

  lemma {:induction false} LastAtNone(items: seq<DailyRollup>, ts: int)
    ensures LastAt(items, ts).None? <==> forall item | item in items :: item.dayStart != ts
  {
    if items != [] {
      LastAtNone(items[1..], ts);
      assert items == [items[0]] + items[1..];
    }
  }

  /** Between two neighbouring positions only the first is on the grid. */
  lemma OneDayPerStep(ts: int, start: int, b: int, n: nat)
    requires b >= 1
    ensures OnGrid(ts, start, Position(start, b, n + 1), b) <==>
            OnGrid(ts, start, Position(start, b, n), b) || ts == Position(start, b, n)
  {
    PositionsGrow(start, b, 0, n);
    if OnGrid(ts, start, Position(start, b, n + 1), b) {
      var k: nat :| k <= ts - start && Position(start, b, k) == ts;
      if k > n { PositionsGrow(start, b, n + 1, k); }
      if k < n { PositionsGrow(start, b, k, n); }
    }
  }

  /** Putting one bucket in front changes the series only where that bucket is the last one of its start. */
  lemma {:induction false} SeriesCons(items: seq<DailyRollup>, start: int, b: int, n: nat)
    requires items != [] && b >= 1
    ensures var first := items[0];
            SeriesTotal(items, start, b, n) == SeriesTotal(items[1..], start, b, n) +
            (if OnGrid(first.dayStart, start, Position(start, b, n), b) && LastAt(items[1..], first.dayStart).None?
             then AtLeastZero(first.usage.totalTokens) else 0)
  {
    if n > 0 {
      SeriesCons(items, start, b, n - 1);
      OneDayPerStep(items[0].dayStart, start, b, n - 1);
    }
  }

  lemma {:induction false} SeriesIsGridTotal(items: seq<DailyRollup>, start: int, b: int, n: nat)
    requires b >= 1
    ensures SeriesTotal(items, start, b, n) == GridTotal(items, start, Position(start, b, n), b)
  {
    if items == [] {
      EmptySeries(start, b, n);
    } else {
      SeriesCons(items, start, b, n);
      SeriesIsGridTotal(items[1..], start, b, n);
      LastAtNone(items[1..], items[0].dayStart);
    }
  }

  lemma {:induction false} EmptySeries(start: int, b: int, n: nat)
    ensures SeriesTotal([], start, b, n) == 0
  {
    if n > 0 { EmptySeries(start, b, n - 1); }
  }

  lemma {:induction false} PointsAreSeries(points: seq<Point>, items: seq<DailyRollup>, start: int, end: int, b: int)
    requires ArePoints(points, items, start, end, b)
    ensures PointTotal(points) == SeriesTotal(items, start, b, |points|)
  {
    if points != [] {
      PointsAreSeries(points[..|points| - 1], items, start, end, b);
      assert IsPoint(points[|points| - 1], items, start, end, b, |points| - 1);
    }
  }

  /** Between the end and the last point's full width there is no grid position, so the grid may be cut at the end. */
  lemma {:induction false} GridEndsAtEnd(items: seq<DailyRollup>, start: int, end: int, b: int, n: nat)
    requires b >= 1 && n > 0 && Position(start, b, n - 1) < end <= Position(start, b, n)
    ensures GridTotal(items, start, Position(start, b, n), b) == GridTotal(items, start, end, b)
  {
    if items != [] {
      GridEndsAtEnd(items[1..], start, end, b, n);
      OneDayPerStep(items[0].dayStart, start, b, n - 1);
    }
  }

  /** The tokens shown add up to the tokens stored on the grid, each bucket used exactly once. */
  lemma SeriesConservesTokens(points: seq<Point>, items: seq<DailyRollup>, start: int, end: int, b: int)
    requires b >= 1 && Reaches(start, end, b, |points|) && ArePoints(points, items, start, end, b)
    ensures PointTotal(points) == GridTotal(items, start, end, b)
  {
    PointsAreSeries(points, items, start, end, b);
    SeriesIsGridTotal(items, start, b, |points|);
    if points != [] {
      GridEndsAtEnd(items, start, end, b, |points|);
    } else {
      NothingOnEmptyGrid(items, start, end, b);
      NothingOnEmptyGrid(items, start, start, b);
    }
  }

  lemma {:induction false} NothingOnEmptyGrid(items: seq<DailyRollup>, start: int, end: int, b: int)
    requires end <= start
    ensures GridTotal(items, start, end, b) == 0
  {
    if items != [] { NothingOnEmptyGrid(items[1..], start, end, b); }
  }
}
