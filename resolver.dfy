/**
 * The daily resolver: the `latest_per_day` / `daily_totals` common table
 * expressions that both queries of `SavingsDB` run over the `savings` table.
 * Day bucketing in Pacific/Auckland time is the caller's `day` function and
 * the reference day (`%s::date` of the current NZ instant) is `today`.
 */
module Resolver {
  import opened Wrappers
  import opened Ledger

  /**
   * How a query fails: `pl.from_dicts([])` has no columns, so an empty
   * resolver result makes the next column access raise (`NoData`); Python
   * raises on a division by zero (`ZeroDivision`); a pivot that meets two
   * values for one cell raises (`DuplicateLabel`).
   */
  datatype QueryError = NoData | ZeroDivision | DuplicateLabel

  /** One row of `daily_totals` (`ResolvedDay`). */
  datatype Resolved = Resolved(platform: string, account: string, amount: real, nzDate: int, daysAgo: int)

  /** Both rows fall in the same `PARTITION BY account, platform, nz_date` group. */
  predicate SameDay(day: int -> int, r: SavingsRow, s: SavingsRow)
  {
    r.platform == s.platform && r.account == s.account && day(r.time) == day(s.time)
  }

  /**
   * Row `c` is numbered before row `k` under `ORDER BY time DESC`. The SQL
   * leaves the order of equal times open; the model numbers the row stored
   * first before the other.
   */
  predicate Precedes(ledger: seq<SavingsRow>, c: int, k: int)
    requires 0 <= c < |ledger| && 0 <= k < |ledger|
  {
    ledger[k].time < ledger[c].time || (ledger[k].time == ledger[c].time && c <= k)
  }

  /** Row `i` gets `rn = 1` in its group: it precedes every row of its group. */
  predicate LatestOfDay(ledger: seq<SavingsRow>, day: int -> int, i: int)
    requires 0 <= i < |ledger|
  {
    forall j | 0 <= j < |ledger| && SameDay(day, ledger[j], ledger[i]) :: Precedes(ledger, i, j)
  }

  /**
   * The final `WHERE`: `days_ago >= 0`, and `days_ago <= history_days` when
   * the history query supplies a bound.
   */
  predicate InWindow(daysAgo: int, maxLag: Option<int>)
  {
    0 <= daysAgo && (maxLag.Some? ==> daysAgo <= maxLag.value)
  }

  /** The `daily_totals` projection of a ledger row. */
  function DailyTotal(row: SavingsRow, day: int -> int, today: int): (r: Resolved)
    ensures r.platform == row.platform && r.account == row.account && r.amount == row.amount
    ensures r.nzDate == day(row.time) && r.daysAgo == today - r.nzDate
  {
    Resolved(row.platform, row.account, row.amount, day(row.time), today - day(row.time))
  }

  /** Row `i` survives both CTEs and the final filter. */
  predicate Kept(ledger: seq<SavingsRow>, day: int -> int, today: int, maxLag: Option<int>, i: int)
    requires 0 <= i < |ledger|
  {
    LatestOfDay(ledger, day, i) && InWindow(today - day(ledger[i].time), maxLag)
  }

  /** The kept rows among the first `n` ledger rows, in ledger order. */
  function ResolvePrefix(ledger: seq<SavingsRow>, day: int -> int, today: int, maxLag: Option<int>, n: nat): seq<Resolved>
    requires n <= |ledger|
  {
    if n == 0 then []
    else
      ResolvePrefix(ledger, day, today, maxLag, n - 1)
      + (if Kept(ledger, day, today, maxLag, n - 1) then [DailyTotal(ledger[n - 1], day, today)] else [])
  }

  /** The resolver query: every kept row of the ledger. */
  function Resolve(ledger: seq<SavingsRow>, day: int -> int, today: int, maxLag: Option<int>): seq<Resolved>
  {
    ResolvePrefix(ledger, day, today, maxLag, |ledger|)
  }

  /** A row is among the first `n` resolved exactly when some kept ledger row before `n` projects to it. */
  lemma {:induction false} PrefixMembers(ledger: seq<SavingsRow>, day: int -> int, today: int, maxLag: Option<int>, n: nat)
    requires n <= |ledger|
    ensures forall x :: x in ResolvePrefix(ledger, day, today, maxLag, n) <==>
      exists i | 0 <= i < n :: Kept(ledger, day, today, maxLag, i) && x == DailyTotal(ledger[i], day, today)
  {
    if n > 0 {
      PrefixMembers(ledger, day, today, maxLag, n - 1);
    }
  }

  /** The resolved rows are exactly the projections of the kept ledger rows. */
  lemma ResolvedMembers(ledger: seq<SavingsRow>, day: int -> int, today: int, maxLag: Option<int>)
    ensures forall x :: x in Resolve(ledger, day, today, maxLag) <==>
      exists i | 0 <= i < |ledger| :: Kept(ledger, day, today, maxLag, i) && x == DailyTotal(ledger[i], day, today)
  {
    PrefixMembers(ledger, day, today, maxLag, |ledger|);
  }

  /** Every resolved row is labelled with its lag and lies inside the window. */
  lemma ResolvedInWindow(ledger: seq<SavingsRow>, day: int -> int, today: int, maxLag: Option<int>)
    ensures forall x | x in Resolve(ledger, day, today, maxLag) ::
      x.daysAgo == today - x.nzDate && InWindow(x.daysAgo, maxLag)
  {
    ResolvedMembers(ledger, day, today, maxLag);
  }

  /** Two resolved rows for the same account on the same day. */
  predicate SameDayKey(x: Resolved, y: Resolved)
  {
    x.platform == y.platform && x.account == y.account && x.nzDate == y.nzDate
  }

  /** No two rows of `r` share `(platform, account, nz_date)`. */
  predicate OnePerDay(r: seq<Resolved>)
  {
    forall k1, k2 | 0 <= k1 < k2 < |r| :: !SameDayKey(r[k1], r[k2])
  }

  /** No two rows of `r` share `(platform, account, days_ago)`, the join key of both queries. */
  predicate OnePerLag(r: seq<Resolved>)
  {
    forall k1, k2 | 0 <= k1 < k2 < |r| ::
      !(r[k1].platform == r[k2].platform && r[k1].account == r[k2].account && r[k1].daysAgo == r[k2].daysAgo)
  }

  /** Two distinct rows that both get `rn = 1` belong to different groups. */
  lemma KeptApart(ledger: seq<SavingsRow>, day: int -> int, today: int, maxLag: Option<int>, i: nat, j: nat)
    requires i < j < |ledger|
    requires Kept(ledger, day, today, maxLag, i) && Kept(ledger, day, today, maxLag, j)
    ensures !SameDayKey(DailyTotal(ledger[i], day, today), DailyTotal(ledger[j], day, today))
  {
    if SameDay(day, ledger[j], ledger[i]) {
      assert Precedes(ledger, i, j) && SameDay(day, ledger[i], ledger[j]);
      assert false;
    }
  }

  /** Adding a row of a new group keeps one row per group. */
  lemma AppendOnePerDay(prev: seq<Resolved>, x: Resolved)
    requires OnePerDay(prev)
    requires forall y | y in prev :: !SameDayKey(y, x)
    ensures OnePerDay(prev + [x])
  {
    var r := prev + [x];
    forall k1, k2 | 0 <= k1 < k2 < |r|
      ensures !SameDayKey(r[k1], r[k2])
    {
      assert r[k1] == prev[k1];
      if k2 == |prev| {
        assert r[k1] in prev && r[k2] == x;
      } else {
        assert r[k2] == prev[k2];
      }
    }
  }

  /** The resolver keeps at most one row per `(platform, account, day)`. */
  lemma {:induction false} ResolvedUnique(ledger: seq<SavingsRow>, day: int -> int, today: int, maxLag: Option<int>, n: nat)
    requires n <= |ledger|
    ensures OnePerDay(ResolvePrefix(ledger, day, today, maxLag, n))
  {
    if n > 0 {
      ResolvedUnique(ledger, day, today, maxLag, n - 1);
      var prev := ResolvePrefix(ledger, day, today, maxLag, n - 1);
      PrefixMembers(ledger, day, today, maxLag, n - 1);
      if Kept(ledger, day, today, maxLag, n - 1) {
        var x := DailyTotal(ledger[n - 1], day, today);
        forall y | y in prev
          ensures !SameDayKey(y, x)
        {
          var i :| 0 <= i < n - 1 && Kept(ledger, day, today, maxLag, i) && y == DailyTotal(ledger[i], day, today);
          KeptApart(ledger, day, today, maxLag, i, n - 1);
        }
        AppendOnePerDay(prev, x);
      }
    }
  }

  /** One resolved row per key, stated for the whole ledger and both keys. */
  lemma ResolvedKeysUnique(ledger: seq<SavingsRow>, day: int -> int, today: int, maxLag: Option<int>)
    ensures OnePerDay(Resolve(ledger, day, today, maxLag))
    ensures OnePerLag(Resolve(ledger, day, today, maxLag))
  {
    ResolvedUnique(ledger, day, today, maxLag, |ledger|);
    ResolvedInWindow(ledger, day, today, maxLag);
    var r := Resolve(ledger, day, today, maxLag);
    forall k1, k2 | 0 <= k1 < k2 < |r|
      ensures !(r[k1].platform == r[k2].platform && r[k1].account == r[k2].account && r[k1].daysAgo == r[k2].daysAgo)
    {
      assert r[k1] in r && r[k2] in r;
      assert !SameDayKey(r[k1], r[k2]);
    }
  }

  /**
   * The row of `j`'s group that precedes all others among the first `n`
   * rows and row `j` itself: a witness that every group has an `rn = 1` row.
   */
  function PickLatest(ledger: seq<SavingsRow>, day: int -> int, j: nat, n: nat): (c: nat)
    requires j < |ledger| && n <= |ledger|
    ensures c < |ledger| && SameDay(day, ledger[c], ledger[j]) && Precedes(ledger, c, j)
    ensures forall k | 0 <= k < n && SameDay(day, ledger[k], ledger[j]) :: Precedes(ledger, c, k)
  {
    if n == 0 then j
    else
      var c := PickLatest(ledger, day, j, n - 1);
      if SameDay(day, ledger[n - 1], ledger[j]) && n - 1 != c && Precedes(ledger, n - 1, c) then n - 1 else c
  }

  /** Every ledger row inside the window has its day represented in the result. */
  lemma ResolvedComplete(ledger: seq<SavingsRow>, day: int -> int, today: int, maxLag: Option<int>, j: nat)
    requires j < |ledger| && InWindow(today - day(ledger[j].time), maxLag)
    ensures exists x | x in Resolve(ledger, day, today, maxLag) ::
      x.platform == ledger[j].platform && x.account == ledger[j].account && x.nzDate == day(ledger[j].time)
  {
    var c := PickLatest(ledger, day, j, |ledger|);
    ResolvedMembers(ledger, day, today, maxLag);
    assert Kept(ledger, day, today, maxLag, c);
    assert DailyTotal(ledger[c], day, today) in Resolve(ledger, day, today, maxLag);
  }

  /**
   * A row strictly later than every other row of its day is the one the
   * resolver keeps: for t1 < t2 < t3 on one day, the amount at t3 survives.
   */
  lemma LatestSurvives(ledger: seq<SavingsRow>, day: int -> int, today: int, maxLag: Option<int>, i: nat)
    requires i < |ledger| && InWindow(today - day(ledger[i].time), maxLag)
    requires forall j | 0 <= j < |ledger| && j != i && SameDay(day, ledger[j], ledger[i]) :: ledger[j].time < ledger[i].time
    ensures DailyTotal(ledger[i], day, today) in Resolve(ledger, day, today, maxLag)
    ensures forall x | x in Resolve(ledger, day, today, maxLag) ::
      x.platform == ledger[i].platform && x.account == ledger[i].account && x.nzDate == day(ledger[i].time)
      ==> x.amount == ledger[i].amount
  {
    ResolvedMembers(ledger, day, today, maxLag);
    assert Kept(ledger, day, today, maxLag, i);
    forall x | x in Resolve(ledger, day, today, maxLag) &&
      x.platform == ledger[i].platform && x.account == ledger[i].account && x.nzDate == day(ledger[i].time)
      ensures x.amount == ledger[i].amount
    {
      var k :| 0 <= k < |ledger| && Kept(ledger, day, today, maxLag, k) && x == DailyTotal(ledger[k], day, today);
      assert Precedes(ledger, k, i);
    }
  }

  /** Three snapshots of one account on one day, stored out of time order. */
  lemma ThreeSnapshotsOneDay(day: int -> int, today: int, r1: SavingsRow, r2: SavingsRow, r3: SavingsRow)
    requires SameDay(day, r1, r3) && SameDay(day, r2, r3) && InWindow(today - day(r3.time), None)
    requires r1.time < r2.time < r3.time
    ensures Resolve([r2, r3, r1], day, today, None) == [DailyTotal(r3, day, today)]
  {
    var ledger := [r2, r3, r1];
    assert !LatestOfDay(ledger, day, 0) by { assert !Precedes(ledger, 0, 1); }
    assert !LatestOfDay(ledger, day, 2) by { assert !Precedes(ledger, 2, 1); }
    assert LatestOfDay(ledger, day, 1);
    assert ResolvePrefix(ledger, day, today, None, 1) == [];
    assert ResolvePrefix(ledger, day, today, None, 2) == [DailyTotal(r3, day, today)];
  }

  /**
   * Appending a snapshot leaves the resolved rows of every other
   * `(platform, account, day)` as they were.
   */
  lemma {:induction false} AppendKeepsOtherDays(ledger: seq<SavingsRow>, day: int -> int, today: int, maxLag: Option<int>,
                                                 row: SavingsRow, y: Resolved)
    requires !(y.platform == row.platform && y.account == row.account && y.nzDate == day(row.time))
    ensures y in Resolve(ledger + [row], day, today, maxLag) <==> y in Resolve(ledger, day, today, maxLag)
  {
    var longer := ledger + [row];
    forall i | 0 <= i < |ledger| && !SameDay(day, ledger[i], row)
      ensures Kept(longer, day, today, maxLag, i) <==> Kept(ledger, day, today, maxLag, i)
    {
      assert longer[i] == ledger[i];
      if LatestOfDay(ledger, day, i) {
        forall j | 0 <= j < |longer| && SameDay(day, longer[j], longer[i])
          ensures Precedes(longer, i, j)
        {
          assert j < |ledger| && longer[j] == ledger[j] && Precedes(ledger, i, j);
        }
      }
      if LatestOfDay(longer, day, i) {
        forall j | 0 <= j < |ledger| && SameDay(day, ledger[j], ledger[i])
          ensures Precedes(ledger, i, j)
        {
          assert longer[j] == ledger[j] && Precedes(longer, i, j);
        }
      }
    }
    ResolvedMembers(ledger, day, today, maxLag);
    ResolvedMembers(longer, day, today, maxLag);
    if y in Resolve(longer, day, today, maxLag) {
      var i :| 0 <= i < |longer| && Kept(longer, day, today, maxLag, i) && y == DailyTotal(longer[i], day, today);
      assert i < |ledger| && longer[i] == ledger[i];
    }
    if y in Resolve(ledger, day, today, maxLag) {
      var i :| 0 <= i < |ledger| && Kept(ledger, day, today, maxLag, i) && y == DailyTotal(ledger[i], day, today);
      assert longer[i] == ledger[i];
    }
  }

  /**
   * Storing a copy of an existing row keeps or drops every old row as before,
   * and the copy itself loses its group to the row it copies.
   */
  lemma ReinsertKept(ledger: seq<SavingsRow>, day: int -> int, today: int, maxLag: Option<int>, j: nat)
    requires j < |ledger|
    ensures !Kept(ledger + [ledger[j]], day, today, maxLag, |ledger|)
    ensures forall i | 0 <= i < |ledger| ::
      Kept(ledger + [ledger[j]], day, today, maxLag, i) <==> Kept(ledger, day, today, maxLag, i)
  {
    var longer := ledger + [ledger[j]];
    assert longer[j] == ledger[j] && SameDay(day, longer[j], longer[|ledger|]) && !Precedes(longer, |ledger|, j);
    forall i | 0 <= i < |ledger|
      ensures LatestOfDay(longer, day, i) <==> LatestOfDay(ledger, day, i)
    {
      assert longer[i] == ledger[i];
      if LatestOfDay(ledger, day, i) {
        forall k | 0 <= k < |longer| && SameDay(day, longer[k], longer[i])
          ensures Precedes(longer, i, k)
        {
          if k < |ledger| {
            assert longer[k] == ledger[k] && Precedes(ledger, i, k);
          } else {
            assert Precedes(ledger, i, j);
          }
        }
      }
      if LatestOfDay(longer, day, i) {
        forall k | 0 <= k < |ledger| && SameDay(day, ledger[k], ledger[i])
          ensures Precedes(ledger, i, k)
        {
          assert longer[k] == ledger[k] && Precedes(longer, i, k);
        }
      }
    }
  }

  /** `ResolvePrefix` agrees on two ledgers that share a prefix and keep the same rows of it. */
  lemma {:induction false} SamePrefix(ledger: seq<SavingsRow>, longer: seq<SavingsRow>, day: int -> int, today: int,
                                      maxLag: Option<int>, n: nat)
    requires n <= |ledger| <= |longer| && ledger == longer[..|ledger|]
    requires forall i | 0 <= i < |ledger| :: Kept(longer, day, today, maxLag, i) <==> Kept(ledger, day, today, maxLag, i)
    ensures ResolvePrefix(longer, day, today, maxLag, n) == ResolvePrefix(ledger, day, today, maxLag, n)
  {
    if n > 0 {
      SamePrefix(ledger, longer, day, today, maxLag, n - 1);
      assert longer[n - 1] == ledger[n - 1];
    }
  }

  /** Storing a copy of a row that is already in the ledger leaves the resolver's result unchanged. */
  lemma ReinsertInvisible(ledger: seq<SavingsRow>, day: int -> int, today: int, maxLag: Option<int>, j: nat)
    requires j < |ledger|
    ensures Resolve(ledger + [ledger[j]], day, today, maxLag) == Resolve(ledger, day, today, maxLag)
  {
    var longer := ledger + [ledger[j]];
    ReinsertKept(ledger, day, today, maxLag, j);
    assert ledger == longer[..|ledger|];
    SamePrefix(ledger, longer, day, today, maxLag, |ledger|);
  }
}
