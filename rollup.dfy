/**
 * The rollup engine: `current_portfolio` and its inner `past_data`, over the
 * rows the resolver returns with no upper bound on `days_ago`.
 */
module Rollup {
  import opened Wrappers
  import opened Numbers
  import opened Strings
  import opened Ledger
  import opened Resolver

  /** One row of a `past_data` frame: a platform and its summed amount. */
  datatype Holding = Holding(platform: string, amount: real)

  /** One row of a weightings frame: a platform and its share of the total. */
  datatype Weighting = Weighting(platform: string, weight: Float)

  /** The dictionary `current_portfolio` returns. */
  datatype Portfolio = Portfolio(
    holdingsToday: seq<Holding>, holdingsYesterday: seq<Holding>,
    weightingsToday: seq<Weighting>, weightingsYesterday: seq<Weighting>,
    total: int, yesterdayTotal: int,
    pctChange: Option<real>, weekOverWeek: Option<real>,
    monthOverMonth: Option<real>, yearOverYear: Option<real>)

  /** Row `x` belongs to the `(platform, account)` series and lies at least `n` days back. */
  predicate AtOrBeyond(x: Resolved, platform: string, account: string, n: int)
  {
    x.platform == platform && x.account == account && x.daysAgo >= n
  }

  /**
   * `filter(days_ago >= n).group_by(["platform", "account"]).agg(days_ago.min())`
   * for one series: the smallest lag at or beyond `n`, if the series has one.
   */
  function MinLag(data: seq<Resolved>, platform: string, account: string, n: int): (m: Option<int>)
    ensures m.None? <==> forall x | x in data :: !AtOrBeyond(x, platform, account, n)
    ensures m.Some? ==> exists x | x in data :: AtOrBeyond(x, platform, account, n) && x.daysAgo == m.value
    ensures m.Some? ==> forall x | x in data && AtOrBeyond(x, platform, account, n) :: m.value <= x.daysAgo
  {
    if data == [] then None
    else
      var rest := MinLag(data[1..], platform, account, n);
      if AtOrBeyond(data[0], platform, account, n) then
        if rest.Some? && rest.value < data[0].daysAgo then rest else Some(data[0].daysAgo)
      else rest
  }

  /** The rows of `rows` that the inner join with the per-series minimum keeps. */
  function NearestRows(data: seq<Resolved>, rows: seq<Resolved>, n: int): (sel: seq<Resolved>)
    ensures forall x :: x in sel <==> x in rows && MinLag(data, x.platform, x.account, n) == Some(x.daysAgo)
    ensures |sel| <= |rows| && multiset(sel) <= multiset(rows)
  {
    if rows == [] then []
    else
      assert rows == [rows[0]] + rows[1..];
      (if MinLag(data, rows[0].platform, rows[0].account, n) == Some(rows[0].daysAgo) then [rows[0]] else [])
      + NearestRows(data, rows[1..], n)
  }

  /** The rows `past_data(data, n)` sums: `.join(data, on=["platform", "account", "days_ago"])`. */
  function Selected(data: seq<Resolved>, n: int): seq<Resolved>
  {
    NearestRows(data, data, n)
  }

  /**
   * `past_data` picks, per series, the row with the smallest `days_ago` at or
   * beyond `n`; a series with no such row contributes nothing.
   */
  lemma SelectedIsNearest(data: seq<Resolved>, n: int, x: Resolved)
    ensures x in Selected(data, n) <==>
      x in data && x.daysAgo >= n &&
      forall y | y in data && AtOrBeyond(y, x.platform, x.account, n) :: x.daysAgo <= y.daysAgo
  {
    var m := MinLag(data, x.platform, x.account, n);
    assert x in Selected(data, n) <==> x in data && m == Some(x.daysAgo);
    if x in data && x.daysAgo >= n &&
       forall y | y in data && AtOrBeyond(y, x.platform, x.account, n) :: x.daysAgo <= y.daysAgo
    {
      assert AtOrBeyond(x, x.platform, x.account, n);
      var w :| w in data && AtOrBeyond(w, x.platform, x.account, n) && w.daysAgo == m.value;
      assert x.daysAgo <= w.daysAgo;
    }
    if x in data && m == Some(x.daysAgo) {
      var w :| w in data && AtOrBeyond(w, x.platform, x.account, n) && w.daysAgo == m.value;
      assert x.daysAgo >= n;
    }
  }

  /** A series with no row at or beyond `n` contributes no row. */
  lemma NoRowBeyondContributesNothing(data: seq<Resolved>, n: int, platform: string, account: string)
    requires forall y | y in data :: !AtOrBeyond(y, platform, account, n)
    ensures forall x | x in Selected(data, n) :: !(x.platform == platform && x.account == account)
  {
  }

  /** With one row per `(platform, account, days_ago)`, each series contributes at most one row. */
  lemma OneRowPerSeries(data: seq<Resolved>, n: int, x: Resolved, y: Resolved)
    requires OnePerLag(data)
    requires x in Selected(data, n) && y in Selected(data, n)
    requires x.platform == y.platform && x.account == y.account
    ensures x == y
  {
    var i :| 0 <= i < |data| && data[i] == x;
    var j :| 0 <= j < |data| && data[j] == y;
    assert i < j || j < i || i == j;
  }

  /** The set of contributing series only shrinks as the lag grows. */
  lemma {:induction false} ContributorsShrink(data: seq<Resolved>, n1: int, n2: int, platform: string, account: string)
    requires n1 <= n2
    requires exists x | x in Selected(data, n2) :: x.platform == platform && x.account == account
    ensures exists x | x in Selected(data, n1) :: x.platform == platform && x.account == account
  {
    var x :| x in Selected(data, n2) && x.platform == platform && x.account == account;
    assert AtOrBeyond(x, platform, account, n1);
    var m := MinLag(data, platform, account, n1);
    var w :| w in data && AtOrBeyond(w, platform, account, n1) && w.daysAgo == m.value;
    assert w in Selected(data, n1);
  }

  /** Snapshots 25 and 40 days back and a 30-day lag: the one 40 days back is picked. */
  lemma PicksFortyOverTwentyFive(platform: string, account: string, a25: real, a40: real)
    ensures var r25 := Resolved(platform, account, a25, 75, 25);
      var r40 := Resolved(platform, account, a40, 60, 40);
      Selected([r25, r40], 30) == [r40]
  {
    var r25 := Resolved(platform, account, a25, 75, 25);
    var r40 := Resolved(platform, account, a40, 60, 40);
    var data := [r25, r40];
    assert data[1..] == [r40] && [r40][1..] == [];
    assert MinLag([r40], platform, account, 30) == Some(40);
    assert MinLag(data, platform, account, 30) == Some(40);
    assert NearestRows(data, [r40], 30) == [r40];
    assert NearestRows(data, data, 30) == [] + NearestRows(data, [r40], 30);
  }

  /** Adds `p` to an ascending list of platforms (a `group_by` key set). */
  function InsertSorted(ps: seq<string>, p: string): (r: seq<string>)
    requires StrictlySorted(ps)
    ensures StrictlySorted(r)
    ensures forall q :: q in r <==> q in ps || q == p
  {
    if ps == [] then [p]
    else if p == ps[0] then ps
    else if Less(p, ps[0]) then
      assert forall j | 0 < j < |ps| :: Less(p, ps[j]) by {
        forall j | 0 < j < |ps| ensures Less(p, ps[j]) { LessTransitive(p, ps[0], ps[j]); }
      }
      [p] + ps
    else
      LessTotal(p, ps[0]);
      var rest := InsertSorted(ps[1..], p);
      assert forall j | 0 <= j < |rest| :: Less(ps[0], rest[j]) by {
        forall j | 0 <= j < |rest| ensures Less(ps[0], rest[j]) {
          if rest[j] != p {
            assert rest[j] in rest;
            var k :| 0 <= k < |ps[1..]| && ps[1..][k] == rest[j];
            assert ps[k + 1] == rest[j];
          }
        }
      }
      [ps[0]] + rest
  }

  /** The distinct platforms of `rows`, ascending: `group_by("platform")` then `sort(by="platform")`. */
  function Platforms(rows: seq<Resolved>): (ps: seq<string>)
    ensures StrictlySorted(ps)
    ensures forall q :: q in ps <==> exists x | x in rows :: x.platform == q
  {
    if rows == [] then []
    else InsertSorted(Platforms(rows[..|rows| - 1]), rows[|rows| - 1].platform)
  }

  /** The sum of the amounts of the rows of one platform (`agg(amount.sum())`). */
  function PlatformSum(rows: seq<Resolved>, platform: string): real
  {
    if rows == [] then 0.0
    else (if rows[0].platform == platform then rows[0].amount else 0.0) + PlatformSum(rows[1..], platform)
  }

  /** The `platform` column of a frame. */
  function PlatformColumn(hs: seq<Holding>): (ps: seq<string>)
    ensures |ps| == |hs| && forall i | 0 <= i < |hs| :: ps[i] == hs[i].platform
  {
    seq(|hs|, i requires 0 <= i < |hs| => hs[i].platform)
  }

  /** `past_data(data, n)`: one row per contributing platform, ascending by platform. */
  function PastData(data: seq<Resolved>, n: int, rounding: Rounding): (r: seq<Holding>)
    ensures StrictlySorted(PlatformColumn(r))
    ensures forall q :: q in PlatformColumn(r) <==> exists x | x in Selected(data, n) :: x.platform == q
    ensures forall i | 0 <= i < |r| :: r[i].amount == rounding.places(PlatformSum(Selected(data, n), r[i].platform), 2)
  {
    var sel := Selected(data, n);
    var ps := Platforms(sel);
    var r := seq(|ps|, i requires 0 <= i < |ps| => Holding(ps[i], rounding.places(PlatformSum(sel, ps[i]), 2)));
    assert PlatformColumn(r) == ps;
    r
  }

  /** A `past_data` frame is empty exactly when no resolved row lies `n` or more days back. */
  lemma PastDataEmpty(data: seq<Resolved>, n: int, rounding: Rounding)
    ensures PastData(data, n, rounding) == [] <==> forall x | x in data :: x.daysAgo < n
  {
    var r := PastData(data, n, rounding);
    if x :| x in data && x.daysAgo >= n {
      var m := MinLag(data, x.platform, x.account, n);
      assert AtOrBeyond(x, x.platform, x.account, n);
      var w :| w in data && AtOrBeyond(w, x.platform, x.account, n) && w.daysAgo == m.value;
      assert w in Selected(data, n);
      assert w.platform in PlatformColumn(r);
    }
    if r != [] {
      assert PlatformColumn(r)[0] in PlatformColumn(r);
    }
  }

  /** The sum of a frame's amounts (`frame["amount"].sum()`). */
  function HoldingsSum(hs: seq<Holding>): real
  {
    if hs == [] then 0.0 else hs[0].amount + HoldingsSum(hs[1..])
  }

  /** `frame.with_columns((amount / total).round(2))`: a division by a zero total is non-finite. */
  function Weights(hs: seq<Holding>, total: int, rounding: Rounding): (ws: seq<Weighting>)
    ensures |ws| == |hs|
    ensures forall i | 0 <= i < |ws| :: ws[i].platform == hs[i].platform
    ensures forall i | 0 <= i < |ws| :: ws[i].weight.NonFinite? <==> total == 0
    ensures forall i | 0 <= i < |ws| && total != 0 ::
      ws[i].weight == Finite(rounding.places(hs[i].amount / total as real, 2))
  {
    seq(|hs|, i requires 0 <= i < |hs| => Weighting(hs[i].platform, WeightOf(hs[i].amount, total, rounding)))
  }

  /** One cell of `(amount / total).round(2)`; rounding keeps a non-finite value non-finite. */
  function WeightOf(amount: real, total: int, rounding: Rounding): (w: Float)
    ensures w.NonFinite? <==> total == 0
    ensures total != 0 ==> w == Finite(rounding.places(amount / total as real, 2))
  {
    match Divide(amount, total as real)
    case Finite(v) => Finite(rounding.places(v, 2))
    case NonFinite => NonFinite
  }

  /**
   * A period-over-period change, `round(100 * total / denominator - 100, 1)`,
   * evaluated only when the period's frame has rows; a zero denominator
   * raises in Python.
   */
  function Change(total: int, frame: seq<Holding>, denominator: real, rounding: Rounding): (r: Result<Option<real>, QueryError>)
    ensures r == Ok(None) <==> frame == []
    ensures r.Err? <==> frame != [] && denominator == 0.0
    ensures r.Ok? && r.value.Some? ==>
      denominator != 0.0 && r.value.value == rounding.places(100.0 * total as real / denominator - 100.0, 1)
  {
    if frame == [] then Ok(None)
    else if denominator == 0.0 then Err(ZeroDivision)
    else Ok(Some(rounding.places(100.0 * total as real / denominator - 100.0, 1)))
  }

  /** The five `past_data` frames of `current_portfolio`, at lags 0, 1, 7, 30 and 365. */
  function Frames(data: seq<Resolved>, rounding: Rounding): (f: seq<seq<Holding>>)
    ensures |f| == 5
  {
    [PastData(data, 0, rounding), PastData(data, 1, rounding), PastData(data, 7, rounding),
     PastData(data, 30, rounding), PastData(data, 365, rounding)]
  }

  /** `current_portfolio()` at reference day `today`. */
  function CurrentPortfolio(ledger: seq<SavingsRow>, day: int -> int, today: int, rounding: Rounding): Result<Portfolio, QueryError>
  {
    var data := Resolve(ledger, day, today, None);
    if data == [] then Err(NoData)
    else
      var f := Frames(data, rounding);
      var total := rounding.whole(HoldingsSum(f[0]));
      var yesterdayTotal := rounding.whole(HoldingsSum(f[1]));
      var pct := Change(total, f[1], yesterdayTotal as real, rounding);
      var week := Change(total, f[2], HoldingsSum(f[2]), rounding);
      var month := Change(total, f[3], HoldingsSum(f[3]), rounding);
      var year := Change(total, f[4], HoldingsSum(f[4]), rounding);
      if pct.Err? || week.Err? || month.Err? || year.Err? then Err(ZeroDivision)
      else
        Ok(Portfolio(f[0], f[1], Weights(f[0], total, rounding), Weights(f[1], yesterdayTotal, rounding),
                     total, yesterdayTotal, pct.value, week.value, month.value, year.value))
  }

  /**
   * `current_portfolio` fails exactly when the ledger resolves to nothing, or
   * when a period frame has rows but its denominator is zero.
   */
  lemma PortfolioFails(ledger: seq<SavingsRow>, day: int -> int, today: int, rounding: Rounding)
    ensures var data := Resolve(ledger, day, today, None);
      var f := Frames(data, rounding);
      var result := CurrentPortfolio(ledger, day, today, rounding);
      && (result == Err(NoData) <==> data == [])
      && (result == Err(ZeroDivision) <==>
            data != [] &&
            ((f[1] != [] && rounding.whole(HoldingsSum(f[1])) == 0) ||
             (f[2] != [] && HoldingsSum(f[2]) == 0.0) ||
             (f[3] != [] && HoldingsSum(f[3]) == 0.0) ||
             (f[4] != [] && HoldingsSum(f[4]) == 0.0)))
      && (result.Ok? <==> result != Err(NoData) && result != Err(ZeroDivision))
  {
    var data := Resolve(ledger, day, today, None);
    if data != [] {
      var f := Frames(data, rounding);
      var total := rounding.whole(HoldingsSum(f[0]));
      var yesterdayTotal := rounding.whole(HoldingsSum(f[1]));
      var pct := Change(total, f[1], yesterdayTotal as real, rounding);
      var week := Change(total, f[2], HoldingsSum(f[2]), rounding);
      var month := Change(total, f[3], HoldingsSum(f[3]), rounding);
      var year := Change(total, f[4], HoldingsSum(f[4]), rounding);
      assert CurrentPortfolio(ledger, day, today, rounding).Err? <==> pct.Err? || week.Err? || month.Err? || year.Err?;
      assert CurrentPortfolio(ledger, day, today, rounding) != Err(NoData);
    }
  }

  /**
   * The figures of a successful `current_portfolio`: today's and yesterday's
   * holdings are the `past_data` frames at lags 0 and 1, and the totals are
   * their rounded sums.
   */
  lemma PortfolioFigures(ledger: seq<SavingsRow>, day: int -> int, today: int, rounding: Rounding, p: Portfolio)
    requires CurrentPortfolio(ledger, day, today, rounding) == Ok(p)
    ensures var data := Resolve(ledger, day, today, None);
      && p.holdingsToday == PastData(data, 0, rounding)
      && p.holdingsYesterday == PastData(data, 1, rounding)
      && p.total == rounding.whole(HoldingsSum(p.holdingsToday))
      && p.yesterdayTotal == rounding.whole(HoldingsSum(p.holdingsYesterday))
  {
    var data := Resolve(ledger, day, today, None);
    assert data != [];
    var f := Frames(data, rounding);
    var total := rounding.whole(HoldingsSum(f[0]));
    var yesterdayTotal := rounding.whole(HoldingsSum(f[1]));
    var pct := Change(total, f[1], yesterdayTotal as real, rounding);
    var week := Change(total, f[2], HoldingsSum(f[2]), rounding);
    var month := Change(total, f[3], HoldingsSum(f[3]), rounding);
    var year := Change(total, f[4], HoldingsSum(f[4]), rounding);
    assert p == Portfolio(f[0], f[1], Weights(f[0], total, rounding), Weights(f[1], yesterdayTotal, rounding),
                          total, yesterdayTotal, pct.value, week.value, month.value, year.value);
  }

  /** Each weighting of a `Weights` frame is `WeightOf` its holding. */
  lemma WeightsOf(hs: seq<Holding>, total: int, rounding: Rounding, ws: seq<Weighting>)
    requires ws == Weights(hs, total, rounding)
    ensures |ws| == |hs|
    ensures forall i | 0 <= i < |ws| :: ws[i].platform == hs[i].platform && ws[i].weight == WeightOf(hs[i].amount, total, rounding)
  {
  }

  /**
   * The weightings of a successful `current_portfolio`: each platform's share
   * of its day's total, today's and yesterday's, in the holdings' order.
   */
  lemma PortfolioWeightings(ledger: seq<SavingsRow>, day: int -> int, today: int, rounding: Rounding, p: Portfolio)
    requires CurrentPortfolio(ledger, day, today, rounding) == Ok(p)
    ensures |p.weightingsToday| == |p.holdingsToday|
    ensures forall i | 0 <= i < |p.weightingsToday| ::
      p.weightingsToday[i].platform == p.holdingsToday[i].platform &&
      p.weightingsToday[i].weight == WeightOf(p.holdingsToday[i].amount, p.total, rounding)
    ensures |p.weightingsYesterday| == |p.holdingsYesterday|
    ensures forall i | 0 <= i < |p.weightingsYesterday| ::
      p.weightingsYesterday[i].platform == p.holdingsYesterday[i].platform &&
      p.weightingsYesterday[i].weight == WeightOf(p.holdingsYesterday[i].amount, p.yesterdayTotal, rounding)
  {
    var data := Resolve(ledger, day, today, None);
    assert data != [];
    var f := Frames(data, rounding);
    var total := rounding.whole(HoldingsSum(f[0]));
    var yesterdayTotal := rounding.whole(HoldingsSum(f[1]));
    var pct := Change(total, f[1], yesterdayTotal as real, rounding);
    var week := Change(total, f[2], HoldingsSum(f[2]), rounding);
    var month := Change(total, f[3], HoldingsSum(f[3]), rounding);
    var year := Change(total, f[4], HoldingsSum(f[4]), rounding);
    assert p == Portfolio(f[0], f[1], Weights(f[0], total, rounding), Weights(f[1], yesterdayTotal, rounding),
                          total, yesterdayTotal, pct.value, week.value, month.value, year.value);
    WeightsOf(p.holdingsToday, p.total, rounding, p.weightingsToday);
    WeightsOf(p.holdingsYesterday, p.yesterdayTotal, rounding, p.weightingsYesterday);
  }

  /**
   * The changes of a successful `current_portfolio`: each compares today's
   * total with its period's frame, `pct_change` against yesterday's rounded
   * total and the others against their frame's unrounded sum.
   */
  lemma PortfolioChanges(ledger: seq<SavingsRow>, day: int -> int, today: int, rounding: Rounding, p: Portfolio)
    requires CurrentPortfolio(ledger, day, today, rounding) == Ok(p)
    ensures var data := Resolve(ledger, day, today, None);
      && Change(p.total, p.holdingsYesterday, p.yesterdayTotal as real, rounding) == Ok(p.pctChange)
      && Change(p.total, PastData(data, 7, rounding), HoldingsSum(PastData(data, 7, rounding)), rounding) == Ok(p.weekOverWeek)
      && Change(p.total, PastData(data, 30, rounding), HoldingsSum(PastData(data, 30, rounding)), rounding) == Ok(p.monthOverMonth)
      && Change(p.total, PastData(data, 365, rounding), HoldingsSum(PastData(data, 365, rounding)), rounding) == Ok(p.yearOverYear)
  {
    var data := Resolve(ledger, day, today, None);
    assert data != [];
    var f := Frames(data, rounding);
    var total := rounding.whole(HoldingsSum(f[0]));
    var yesterdayTotal := rounding.whole(HoldingsSum(f[1]));
    var pct := Change(total, f[1], yesterdayTotal as real, rounding);
    var week := Change(total, f[2], HoldingsSum(f[2]), rounding);
    var month := Change(total, f[3], HoldingsSum(f[3]), rounding);
    var year := Change(total, f[4], HoldingsSum(f[4]), rounding);
    assert p == Portfolio(f[0], f[1], Weights(f[0], total, rounding), Weights(f[1], yesterdayTotal, rounding),
                          total, yesterdayTotal, pct.value, week.value, month.value, year.value);
  }

  /** Some resolved row lies `n` or more days back exactly when some snapshot is dated that far back. */
  lemma ResolvedReachesLag(ledger: seq<SavingsRow>, day: int -> int, today: int, n: int)
    requires n >= 0
    ensures (exists x | x in Resolve(ledger, day, today, None) :: x.daysAgo >= n) <==>
      exists i | 0 <= i < |ledger| :: today - day(ledger[i].time) >= n
  {
    ResolvedInWindow(ledger, day, today, None);
    if i :| 0 <= i < |ledger| && today - day(ledger[i].time) >= n {
      ResolvedComplete(ledger, day, today, None, i);
    }
    if x :| x in Resolve(ledger, day, today, None) && x.daysAgo >= n {
      ResolvedMembers(ledger, day, today, None);
      var i :| 0 <= i < |ledger| && Kept(ledger, day, today, None, i) && x == DailyTotal(ledger[i], day, today);
      assert today - day(ledger[i].time) >= n;
    }
  }

  /**
   * Each period-over-period change is `None` exactly when the ledger holds
   * no snapshot dated that many days (1, 7, 30, 365) or more before today.
   */
  lemma ChangeAbsentIffNoOlderSnapshot(ledger: seq<SavingsRow>, day: int -> int, today: int, rounding: Rounding, p: Portfolio)
    requires CurrentPortfolio(ledger, day, today, rounding) == Ok(p)
    ensures p.pctChange.None? <==> forall i | 0 <= i < |ledger| :: today - day(ledger[i].time) < 1
    ensures p.weekOverWeek.None? <==> forall i | 0 <= i < |ledger| :: today - day(ledger[i].time) < 7
    ensures p.monthOverMonth.None? <==> forall i | 0 <= i < |ledger| :: today - day(ledger[i].time) < 30
    ensures p.yearOverYear.None? <==> forall i | 0 <= i < |ledger| :: today - day(ledger[i].time) < 365
  {
    var data := Resolve(ledger, day, today, None);
    PastDataEmpty(data, 1, rounding);
    PastDataEmpty(data, 7, rounding);
    PastDataEmpty(data, 30, rounding);
    PastDataEmpty(data, 365, rounding);
    ResolvedReachesLag(ledger, day, today, 1);
    ResolvedReachesLag(ledger, day, today, 7);
    ResolvedReachesLag(ledger, day, today, 30);
    ResolvedReachesLag(ledger, day, today, 365);
  }
}
