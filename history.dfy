/**
 * The history projector: `get_history(history_days)` builds a dense grid of
 * every resolved `(platform, account)` pair by every lag `0..history_days`,
 * right-joins the resolved rows onto it, forward-fills each pair from the
 * oldest date to the newest and pivots to one column per
 * `platform - account` label.
 */
module History {
  import opened Wrappers
  import opened Strings
  import opened Ledger
  import opened Resolver

  /** A pivoted frame: the `nz_date` column and one column per label, as long as `dates`. */
  datatype Frame<T> = Frame(dates: seq<int>, columns: map<string, seq<T>>)

  /** The query window of the `/history` route: `days + months * 30 + years * 365`. */
  function HistoryDays(days: int, months: int, years: int): (h: int)
    ensures months == 0 && years == 0 ==> h == days
    ensures months >= 0 && years >= 0 ==> h >= days
  {
    days + months * 30 + years * 365
  }

  /** `data[["platform", "account"]].unique()`. */
  function Pairs(data: seq<Resolved>): set<(string, string)>
  {
    set x | x in data :: (x.platform, x.account)
  }

  /** Row `x` is the one the right join matches to grid cell `(platform, account, k)`. */
  predicate Matches(x: Resolved, platform: string, account: string, k: int)
  {
    x.platform == platform && x.account == account && x.daysAgo == k
  }

  /** The amount the right join places in grid cell `(platform, account, k)`, or null. */
  function Observed(data: seq<Resolved>, platform: string, account: string, k: int): Option<real>
  {
    if data == [] then None
    else if Matches(data[0], platform, account, k) then Some(data[0].amount)
    else Observed(data[1..], platform, account, k)
  }

  /** The join finds a value exactly when some row matches the cell, and the value is that row's amount. */
  lemma {:induction false} ObservedSpec(data: seq<Resolved>, platform: string, account: string, k: int)
    ensures Observed(data, platform, account, k).None? <==> forall x | x in data :: !Matches(x, platform, account, k)
    ensures Observed(data, platform, account, k).Some? ==>
      exists x | x in data :: Matches(x, platform, account, k) && x.amount == Observed(data, platform, account, k).value
  {
    if data != [] && !Matches(data[0], platform, account, k) {
      ObservedSpec(data[1..], platform, account, k);
      assert forall x | x in data[1..] :: x in data;
      assert forall x | x in data && x != data[0] :: x in data[1..];
    }
  }

  /**
   * `amount.forward_fill().over(["platform", "account"])` with rows sorted by
   * `days_ago` descending: the value at lag `k` is the observation at `k`, or
   * else the filled value one day earlier (lag `k + 1`), down to lag `h`.
   */
  function Filled(data: seq<Resolved>, platform: string, account: string, k: int, h: int): Option<real>
    decreases h - k
  {
    if k > h then None
    else
      match Observed(data, platform, account, k)
      case Some(v) => Some(v)
      case None => Filled(data, platform, account, k + 1, h)
  }

  /** Two distinct pairs would land in one pivot column. */
  predicate LabelClash(pairs: set<(string, string)>)
  {
    exists p1, p2 | p1 in pairs && p2 in pairs && p1 != p2 :: Label(p1.0, p1.1) == Label(p2.0, p2.1)
  }

  /**
   * In `f` the column of pair `pr` is as long as the window and holds, at
   * date index `i`, the forward-filled value at lag `h - i`.
   */
  predicate ColumnOf(f: Frame<Option<real>>, data: seq<Resolved>, h: int, pr: (string, string))
  {
    && Label(pr.0, pr.1) in f.columns
    && |f.columns[Label(pr.0, pr.1)]| == h + 1
    && forall i | 0 <= i <= h :: f.columns[Label(pr.0, pr.1)][i] == Filled(data, pr.0, pr.1, h - i, h)
  }

  /** `f` holds exactly one column per pair of `data`, each as `ColumnOf` says. */
  predicate HasColumns(f: Frame<Option<real>>, data: seq<Resolved>, h: int)
  {
    && (forall l | l in f.columns :: exists pr | pr in Pairs(data) :: l == Label(pr.0, pr.1))
    && (forall pr | pr in Pairs(data) :: ColumnOf(f, data, h, pr))
  }

  /** The cell of pair `pr` at date index `i` of a pivot, read off `HasColumns`. */
  lemma CellOf(f: Frame<Option<real>>, data: seq<Resolved>, h: int, pr: (string, string), i: int)
    requires HasColumns(f, data, h) && pr in Pairs(data) && 0 <= i <= h
    ensures Label(pr.0, pr.1) in f.columns && |f.columns[Label(pr.0, pr.1)]| == h + 1
    ensures f.columns[Label(pr.0, pr.1)][i] == Filled(data, pr.0, pr.1, h - i, h)
  {
    assert ColumnOf(f, data, h, pr);
  }

  /**
   * `f` is the pivoted history of `data` over lags `0..h`: `h + 1` dates,
   * oldest first and ending at `today`, and exactly one column per pair.
   */
  predicate IsHistory(f: Frame<Option<real>>, data: seq<Resolved>, today: int, h: int)
  {
    && |f.dates| == h + 1
    && (forall i | 0 <= i < |f.dates| :: f.dates[i] == today - (h - i))
    && HasColumns(f, data, h)
  }

  /** The forward-filled column of every pair over lags `0..h`, keyed by label. */
  function Columns(data: seq<Resolved>, h: nat): (m: map<string, seq<Option<real>>>)
    requires !LabelClash(Pairs(data))
    ensures forall l | l in m :: exists pr | pr in Pairs(data) :: l == Label(pr.0, pr.1)
    ensures forall pr | pr in Pairs(data) :: Label(pr.0, pr.1) in m && m[Label(pr.0, pr.1)] == FilledColumn(data, pr, h)
  {
    map pr | pr in Pairs(data) :: Label(pr.0, pr.1) := FilledColumn(data, pr, h)
  }

  /** One pivot column: the filled value of `pr` at lag `h - i`, for `i` in `0..h`. */
  function FilledColumn(data: seq<Resolved>, pr: (string, string), h: nat): (c: seq<Option<real>>)
    ensures |c| == h + 1 && forall i | 0 <= i <= h :: c[i] == Filled(data, pr.0, pr.1, h - i, h)
  {
    seq(h + 1, i => Filled(data, pr.0, pr.1, h - i, h))
  }

  /**
   * The grid, right join, forward fill and pivot of the resolved rows `data`
   * over lags `0..h`, once no two pairs share a label.
   */
  function Pivot(data: seq<Resolved>, today: int, h: nat): (f: Frame<Option<real>>)
    requires !LabelClash(Pairs(data))
    ensures IsHistory(f, data, today, h)
  {
    var f := Frame(seq(h + 1, i => today - h + i), Columns(data, h));
    assert forall pr | pr in Pairs(data) :: ColumnOf(f, data, h, pr);
    f
  }

  /** A negative window keeps no row. */
  lemma {:induction false} NegativeWindowPrefix(ledger: seq<SavingsRow>, day: int -> int, today: int, h: int, n: nat)
    requires h < 0 && n <= |ledger|
    ensures ResolvePrefix(ledger, day, today, Some(h), n) == []
  {
    if n > 0 {
      NegativeWindowPrefix(ledger, day, today, h, n - 1);
      assert !InWindow(today - day(ledger[n - 1].time), Some(h));
    }
  }

  /** `get_history(h)` at reference day `today`. */
  function GetHistory(ledger: seq<SavingsRow>, day: int -> int, today: int, h: int): (r: Result<Frame<Option<real>>, QueryError>)
    ensures r == Err(NoData) <==> Resolve(ledger, day, today, Some(h)) == []
    ensures r == Err(DuplicateLabel) <==>
      Resolve(ledger, day, today, Some(h)) != [] && LabelClash(Pairs(Resolve(ledger, day, today, Some(h))))
    ensures r.Ok? <==> Resolve(ledger, day, today, Some(h)) != [] && !LabelClash(Pairs(Resolve(ledger, day, today, Some(h))))
    ensures r.Ok? ==> h >= 0 && IsHistory(r.value, Resolve(ledger, day, today, Some(h)), today, h)
  {
    var data := Resolve(ledger, day, today, Some(h));
    // a negative window keeps no row; the test on `h` only keeps the grid well-formed
    if h < 0 then NegativeWindowPrefix(ledger, day, today, h, |ledger|); Err(NoData)
    else if data == [] then Err(NoData)
    else if LabelClash(Pairs(data)) then Err(DuplicateLabel)
    else Ok(Pivot(data, today, h))
  }

  /** Forward fill leaves a cell null exactly when the pair has no observation at or before its date. */
  lemma {:induction false} FilledNone(data: seq<Resolved>, platform: string, account: string, k: int, h: int)
    ensures Filled(data, platform, account, k, h).None? <==>
      forall j | k <= j <= h :: Observed(data, platform, account, j).None?
    decreases h - k
  {
    if k <= h {
      if Observed(data, platform, account, k).None? {
        FilledNone(data, platform, account, k + 1, h);
        assert Filled(data, platform, account, k, h) == Filled(data, platform, account, k + 1, h);
      } else {
        assert Filled(data, platform, account, k, h) == Observed(data, platform, account, k);
      }
    }
  }

  /**
   * Forward fill carries the most recent observation: when lag `j` (the date
   * `today - j`) is the latest observation at or before the date of lag `k`,
   * the filled value at `k` is the one observed at `j`.
   */
  lemma {:induction false} FilledFromLatest(data: seq<Resolved>, platform: string, account: string, k: int, j: int, h: int)
    requires k <= j <= h
    requires Observed(data, platform, account, j).Some?
    requires forall m | k <= m < j :: Observed(data, platform, account, m).None?
    ensures Filled(data, platform, account, k, h) == Observed(data, platform, account, j)
    decreases j - k
  {
    if k < j {
      FilledFromLatest(data, platform, account, k + 1, j, h);
    }
  }

  /** The filled value at lag `k` depends only on observations at lags `k` and beyond. */
  lemma {:induction false} FilledDependsOnOlder(d1: seq<Resolved>, d2: seq<Resolved>, platform: string, account: string, k: int, h: int)
    requires forall j | k <= j <= h :: Observed(d1, platform, account, j) == Observed(d2, platform, account, j)
    ensures Filled(d1, platform, account, k, h) == Filled(d2, platform, account, k, h)
    decreases h - k
  {
    if k <= h {
      FilledDependsOnOlder(d1, d2, platform, account, k + 1, h);
    }
  }

  /** With one row per grid key, a row's presence decides the observation. */
  lemma ObservedUnique(data: seq<Resolved>, x: Resolved)
    requires OnePerLag(data) && x in data
    ensures Observed(data, x.platform, x.account, x.daysAgo) == Some(x.amount)
  {
    var v := Observed(data, x.platform, x.account, x.daysAgo);
    ObservedSpec(data, x.platform, x.account, x.daysAgo);
    assert Matches(x, x.platform, x.account, x.daysAgo);
    var y :| y in data && Matches(y, x.platform, x.account, x.daysAgo) && y.amount == v.value;
    var i :| 0 <= i < |data| && data[i] == x;
    var j :| 0 <= j < |data| && data[j] == y;
    assert i < j || j < i || i == j;
  }

  /**
   * Appending a snapshot dated `D` changes no observation except the one of its
   * own pair at the lag of `D`.
   */
  lemma AppendKeepsObservations(ledger: seq<SavingsRow>, day: int -> int, today: int, h: int, row: SavingsRow,
                                platform: string, account: string, k: int)
    requires !(platform == row.platform && account == row.account && k == today - day(row.time))
    ensures Observed(Resolve(ledger + [row], day, today, Some(h)), platform, account, k) ==
            Observed(Resolve(ledger, day, today, Some(h)), platform, account, k)
  {
    var d1 := Resolve(ledger, day, today, Some(h));
    var d2 := Resolve(ledger + [row], day, today, Some(h));
    ResolvedKeysUnique(ledger, day, today, Some(h));
    ResolvedKeysUnique(ledger + [row], day, today, Some(h));
    ResolvedInWindow(ledger, day, today, Some(h));
    ResolvedInWindow(ledger + [row], day, today, Some(h));
    forall x | Matches(x, platform, account, k) && x.nzDate == today - k
      ensures x in d2 <==> x in d1
    {
      AppendKeepsOtherDays(ledger, day, today, Some(h), row, x);
    }
    var o1 := Observed(d1, platform, account, k);
    var o2 := Observed(d2, platform, account, k);
    ObservedSpec(d1, platform, account, k);
    ObservedSpec(d2, platform, account, k);
    if o1.Some? {
      var x :| x in d1 && Matches(x, platform, account, k) && x.amount == o1.value;
      ObservedUnique(d2, x);
    }
  }



  /** Appending a snapshot never removes a pair from the resolved window. */
  lemma AppendKeepsPairs(ledger: seq<SavingsRow>, day: int -> int, today: int, h: int, row: SavingsRow)
    ensures Pairs(Resolve(ledger, day, today, Some(h))) <= Pairs(Resolve(ledger + [row], day, today, Some(h)))
  {
    var d1 := Resolve(ledger, day, today, Some(h));
    ResolvedMembers(ledger, day, today, Some(h));
    forall pr | pr in Pairs(d1) ensures pr in Pairs(Resolve(ledger + [row], day, today, Some(h))) {
      var x :| x in d1 && pr == (x.platform, x.account);
      var i :| 0 <= i < |ledger| && Kept(ledger, day, today, Some(h), i) && x == DailyTotal(ledger[i], day, today);
      assert (ledger + [row])[i] == ledger[i];
      ResolvedComplete(ledger + [row], day, today, Some(h), i);
    }
  }

  /** Appending a snapshot dated `D` leaves every filled value at a lag beyond `today - D` as it was. */
  lemma AppendKeepsFilled(ledger: seq<SavingsRow>, day: int -> int, today: int, h: int, row: SavingsRow,
                          platform: string, account: string, k: int)
    requires k > today - day(row.time)
    ensures Filled(Resolve(ledger + [row], day, today, Some(h)), platform, account, k, h) ==
            Filled(Resolve(ledger, day, today, Some(h)), platform, account, k, h)
  {
    var d1 := Resolve(ledger, day, today, Some(h));
    var d2 := Resolve(ledger + [row], day, today, Some(h));
    forall j | k <= j <= h
      ensures Observed(d2, platform, account, j) == Observed(d1, platform, account, j)
    {
      AppendKeepsObservations(ledger, day, today, h, row, platform, account, j);
    }
    FilledDependsOnOlder(d2, d1, platform, account, k, h);
  }

  /** A pair without a resolved row has a null filled value at every lag. */
  lemma AbsentPairIsNull(data: seq<Resolved>, platform: string, account: string, k: int, h: int)
    requires (platform, account) !in Pairs(data)
    ensures Filled(data, platform, account, k, h) == None
  {
    forall j | k <= j <= h
      ensures Observed(data, platform, account, j).None?
    {
      ObservedSpec(data, platform, account, j);
      forall x | x in data
        ensures !Matches(x, platform, account, j)
      {
        assert (x.platform, x.account) in Pairs(data);
      }
    }
    FilledNone(data, platform, account, k, h);
  }

  /** A column that existed before a snapshot dated `D` keeps its value at every date before `D`. */
  lemma AppendKeepsCell(ledger: seq<SavingsRow>, day: int -> int, today: int, h: int, row: SavingsRow,
                        f1: Frame<Option<real>>, f2: Frame<Option<real>>, i: int, l: string)
    requires HasColumns(f1, Resolve(ledger, day, today, Some(h)), h)
    requires HasColumns(f2, Resolve(ledger + [row], day, today, Some(h)), h)
    requires 0 <= i <= h && today - (h - i) < day(row.time) && l in f1.columns
    ensures l in f2.columns && |f2.columns[l]| == |f1.columns[l]| == h + 1 && f2.columns[l][i] == f1.columns[l][i]
  {
    var d1 := Resolve(ledger, day, today, Some(h));
    var d2 := Resolve(ledger + [row], day, today, Some(h));
    var pr :| pr in Pairs(d1) && l == Label(pr.0, pr.1);
    AppendKeepsPairs(ledger, day, today, h, row);
    CellOf(f1, d1, h, pr, i);
    CellOf(f2, d2, h, pr, i);
    AppendKeepsFilled(ledger, day, today, h, row, pr.0, pr.1, h - i);
  }

  /** A column that a snapshot dated `D` creates is null at every date before `D`. */
  lemma AppendNewCellNull(ledger: seq<SavingsRow>, day: int -> int, today: int, h: int, row: SavingsRow,
                          f1: Frame<Option<real>>, f2: Frame<Option<real>>, i: int, l: string)
    requires HasColumns(f1, Resolve(ledger, day, today, Some(h)), h)
    requires HasColumns(f2, Resolve(ledger + [row], day, today, Some(h)), h)
    requires 0 <= i <= h && today - (h - i) < day(row.time) && l in f2.columns && l !in f1.columns
    ensures |f2.columns[l]| == h + 1 && f2.columns[l][i].None?
  {
    var d1 := Resolve(ledger, day, today, Some(h));
    var d2 := Resolve(ledger + [row], day, today, Some(h));
    var pr :| pr in Pairs(d2) && l == Label(pr.0, pr.1);
    assert pr !in Pairs(d1) by {
      assert pr in Pairs(d1) ==> ColumnOf(f1, d1, h, pr);
    }
    AbsentPairIsNull(d1, pr.0, pr.1, h - i, h);
    AppendKeepsFilled(ledger, day, today, h, row, pr.0, pr.1, h - i);
    CellOf(f2, d2, h, pr, i);
  }

  /**
   * A snapshot dated `D` never changes the history of any date before `D`: the
   * columns that existed keep their values there, and a column the snapshot
   * creates is null there.
   */
  lemma AppendKeepsEarlierDates(ledger: seq<SavingsRow>, day: int -> int, today: int, h: int, row: SavingsRow,
                                f1: Frame<Option<real>>, f2: Frame<Option<real>>, i: int)
    requires GetHistory(ledger, day, today, h) == Ok(f1)
    requires GetHistory(ledger + [row], day, today, h) == Ok(f2)
    requires 0 <= i <= h && today - (h - i) < day(row.time)
    ensures f2.dates == f1.dates
    ensures forall l | l in f1.columns ::
      l in f2.columns && |f2.columns[l]| == |f1.columns[l]| == h + 1 && f2.columns[l][i] == f1.columns[l][i]
    ensures forall l | l in f2.columns && l !in f1.columns :: |f2.columns[l]| == h + 1 && f2.columns[l][i].None?
  {
    forall l | l in f1.columns
      ensures l in f2.columns && |f2.columns[l]| == |f1.columns[l]| == h + 1 && f2.columns[l][i] == f1.columns[l][i]
    {
      AppendKeepsCell(ledger, day, today, h, row, f1, f2, i, l);
    }
    forall l | l in f2.columns && l !in f1.columns
      ensures |f2.columns[l]| == h + 1 && f2.columns[l][i].None?
    {
      AppendNewCellNull(ledger, day, today, h, row, f1, f2, i, l);
    }
  }

  /**
   * The history cell of a pair at date index `i` carries the pair's latest
   * resolved row dated on or before that date.
   */
  lemma HistoryCellIsLatest(ledger: seq<SavingsRow>, day: int -> int, today: int, h: int,
                            f: Frame<Option<real>>, x: Resolved, i: int)
    requires GetHistory(ledger, day, today, h) == Ok(f)
    requires x in Resolve(ledger, day, today, Some(h)) && 0 <= i <= h && h - i <= x.daysAgo
    requires forall y | y in Resolve(ledger, day, today, Some(h)) && y.platform == x.platform && y.account == x.account ::
      !(h - i <= y.daysAgo < x.daysAgo)
    ensures Label(x.platform, x.account) in f.columns && |f.columns[Label(x.platform, x.account)]| == h + 1
    ensures f.columns[Label(x.platform, x.account)][i] == Some(x.amount)
  {
    var data := Resolve(ledger, day, today, Some(h));
    ResolvedKeysUnique(ledger, day, today, Some(h));
    ResolvedInWindow(ledger, day, today, Some(h));
    ObservedUnique(data, x);
    forall m | h - i <= m < x.daysAgo
      ensures Observed(data, x.platform, x.account, m).None?
    {
      ObservedSpec(data, x.platform, x.account, m);
    }
    FilledFromLatest(data, x.platform, x.account, h - i, x.daysAgo, h);
    assert (x.platform, x.account) in Pairs(data);
    CellOf(f, data, h, (x.platform, x.account), i);
  }

  /**
   * The history cell of a pair at date index `i` is null when the pair has no
   * resolved row dated on or before that date within the window.
   */
  lemma HistoryCellNull(ledger: seq<SavingsRow>, day: int -> int, today: int, h: int,
                        f: Frame<Option<real>>, platform: string, account: string, i: int)
    requires GetHistory(ledger, day, today, h) == Ok(f)
    requires (platform, account) in Pairs(Resolve(ledger, day, today, Some(h))) && 0 <= i <= h
    requires forall y | y in Resolve(ledger, day, today, Some(h)) && y.platform == platform && y.account == account ::
      y.daysAgo < h - i
    ensures Label(platform, account) in f.columns && |f.columns[Label(platform, account)]| == h + 1
    ensures f.columns[Label(platform, account)][i].None?
  {
    var data := Resolve(ledger, day, today, Some(h));
    forall j | h - i <= j <= h
      ensures Observed(data, platform, account, j).None?
    {
      ObservedSpec(data, platform, account, j);
    }
    FilledNone(data, platform, account, h - i, h);
    CellOf(f, data, h, (platform, account), i);
  }
}
