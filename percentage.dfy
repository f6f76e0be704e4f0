/**
 * `get_history_percentage`: the history frame joined to a copy of itself
 * lagged by one day, each investment column replaced by the running product
 * of its day-over-day ratios, and the lagged copies dropped again.
 */
module Percentage {
  import opened Wrappers
  import opened Numbers
  import opened Strings
  import opened Ledger
  import opened Resolver
  import opened History

  /** The name of the date column. */
  const DateColumn: string := "nz_date"

  /** The suffix the join gives to a right-hand column whose name is taken. */
  const Suffix: string := "_right"

  /** Every column of `f` runs over all of its dates. */
  predicate Shaped<T>(f: Frame<T>)
  {
    forall l | l in f.columns :: |f.columns[l]| == |f.dates|
  }

  /** Dates one day apart, oldest first. */
  predicate Consecutive(dates: seq<int>)
  {
    forall j | 0 <= j < |dates| :: dates[j] == dates[0] + j
  }

  /**
   * The row of the lagged copy that the left join puts beside date `d`: the
   * row whose `nz_date + 1 day` is `d`, if there is one.
   */
  function LagRow(dates: seq<int>, d: int): (r: Option<nat>)
    ensures r.Some? ==> r.value < |dates| && dates[r.value] + 1 == d
  {
    if dates == [] then None
    else if dates[0] + 1 == d then Some(0)
    else match LagRow(dates[1..], d)
      case None => None
      case Some(j) => Some(j + 1)
  }

  /** The join leaves date `d` without a partner only when no date is the day before `d`. */
  lemma {:induction false} LagRowNone(dates: seq<int>, d: int)
    requires LagRow(dates, d).None?
    ensures forall j | 0 <= j < |dates| :: dates[j] + 1 != d
  {
    if dates != [] {
      LagRowNone(dates[1..], d);
      assert forall j | 1 <= j < |dates| :: dates[j] == dates[1..][j - 1];
    }
  }

  /** On consecutive dates the lagged partner of row `i` is row `i - 1`, and the first row has none. */
  lemma LagRowIsPrevious(dates: seq<int>, i: int)
    requires Consecutive(dates) && 0 <= i < |dates|
    ensures LagRow(dates, dates[i]) == if i == 0 then None else Some(i - 1)
  {
    if LagRow(dates, dates[i]).None? {
      LagRowNone(dates, dates[i]);
    }
    if i > 0 {
      assert dates[i - 1] + 1 == dates[i];
    }
  }

  /** On consecutive dates the ratio at row `i` divides by row `i - 1`, and the first row has none. */
  lemma RatioAt(dates: seq<int>, col: seq<Option<real>>, i: int)
    requires |col| == |dates| && Consecutive(dates) && 0 <= i < |col|
    ensures Ratios(dates, col)[i] == if i == 0 then None else Ratio(col[i], col[i - 1])
  {
    LagRowIsPrevious(dates, i);
    assert Lagged(dates, col, i) == if i == 0 then None else col[i - 1];
  }

  /** Column `inv + "_right"` of the join at row `i`: the value of `col` on the previous date, null without one. */
  function Lagged(dates: seq<int>, col: seq<Option<real>>, i: int): Option<real>
    requires |col| == |dates| && 0 <= i < |dates|
  {
    match LagRow(dates, dates[i])
    case None => None
    case Some(j) => col[j]
  }

  /** `x / y` on two nullable float cells: null when either is null. */
  function Ratio(x: Option<real>, y: Option<real>): Option<Float>
  {
    if x.Some? && y.Some? then Some(Divide(x.value, y.value)) else None
  }

  /** `pl.col(inv) / pl.col(inv + "_right")`, row by row. */
  function Ratios(dates: seq<int>, col: seq<Option<real>>): (r: seq<Option<Float>>)
    requires |col| == |dates|
    ensures |r| == |col|
  {
    seq(|col|, i requires 0 <= i < |col| => Ratio(col[i], Lagged(dates, col, i)))
  }

  /** The product, in order, of the non-null entries of `s`; null when there is none. */
  function Product(s: seq<Option<Float>>): Option<Float>
  {
    if s == [] then None else Combine(Product(s[..|s| - 1]), s[|s| - 1])
  }

  /** One step of `Product`: a null entry leaves the product as it was. */
  function Combine(p: Option<Float>, x: Option<Float>): Option<Float>
  {
    if x.None? then p
    else if p.None? then x
    else Some(Times(p.value, x.value))
  }

  /** The product of a prefix one entry longer. */
  lemma ProductStep(s: seq<Option<Float>>, i: int)
    requires 0 <= i < |s|
    ensures Product(s[..i + 1]) == Combine(Product(s[..i]), s[i])
  {
    assert s[..i + 1][..i] == s[..i];
  }

  /** `cum_prod()`: a null stays null, any other entry becomes the product of the non-null entries up to it. */
  function CumProd(s: seq<Option<Float>>): (r: seq<Option<Float>>)
    ensures |r| == |s|
  {
    seq(|s|, i requires 0 <= i < |s| => if s[i].None? then None else Product(s[..i + 1]))
  }

  /** A float column of the history taken over unchanged. */
  function Raw(col: seq<Option<real>>): (r: seq<Option<Float>>)
    ensures |r| == |col|
  {
    seq(|col|, i requires 0 <= i < |col| => if col[i].Some? then Some(Finite(col[i].value)) else None)
  }

  /** The columns the loop converts: neither a date column nor a lagged copy. */
  predicate Investment(l: string)
  {
    !Contains(l, DateColumn) && !Contains(l, Suffix)
  }

  /**
   * The join cannot name the lagged copy of `l` as `l + "_right"`, because a
   * label of the history already has that name; polars refuses such a join.
   */
  predicate SuffixClash(labels: set<string>)
  {
    exists l | l in labels :: l + Suffix in labels
  }

  /** One output column: the running ratio product of an investment, any other kept column as it was. */
  function Converted(f: Frame<Option<real>>, l: string): (c: seq<Option<Float>>)
    requires Shaped(f) && l in f.columns
    ensures |c| == |f.dates|
  {
    if Investment(l) then CumProd(Ratios(f.dates, f.columns[l])) else Raw(f.columns[l])
  }

  /**
   * The frame `get_history_percentage` returns for the history `f`: the same
   * dates, and every column whose name has no `_right` in it, converted.
   */
  function PercentageOf(f: Frame<Option<real>>): (g: Frame<Option<Float>>)
    requires Shaped(f)
  {
    Frame(f.dates, map l | l in f.columns && !Contains(l, Suffix) :: Converted(f, l))
  }

  /** `get_history_percentage(h)` at reference day `today`. */
  method GetHistoryPercentage(ledger: seq<SavingsRow>, day: int -> int, today: int, h: int)
    returns (r: Result<Frame<Option<Float>>, QueryError>)
    ensures GetHistory(ledger, day, today, h).Err? ==> r == Err(GetHistory(ledger, day, today, h).error)
    ensures GetHistory(ledger, day, today, h).Ok? ==>
      var f := GetHistory(ledger, day, today, h).value;
      && Shaped(f)
      && (SuffixClash(f.columns.Keys) ==> r == Err(DuplicateLabel))
      && (!SuffixClash(f.columns.Keys) ==> r == Ok(PercentageOf(f)))
  {
    var history := GetHistory(ledger, day, today, h);
    if history.Err? {
      return Err(history.error);
    }
    var f := history.value;
    HistoryShaped(ledger, day, today, h, f);
    if SuffixClash(f.columns.Keys) {
      return Err(DuplicateLabel);
    }
    var g := ConvertColumns(f);
    r := Ok(g);
  }

  /**
   * The loop of `get_history_percentage` over the investment columns of the
   * history `f`, each replaced in turn by its running ratio product, and the
   * final selection that drops the lagged copies.
   */
  method ConvertColumns(f: Frame<Option<real>>) returns (g: Frame<Option<Float>>)
    requires Shaped(f)
    ensures g == PercentageOf(f)
  {
    // the left-hand side of the join; the lagged copies are read through `Lagged`
    var joined := map l | l in f.columns :: Raw(f.columns[l]);
    var investments := set l | l in f.columns && Investment(l);
    var todo := investments;
    while todo != {}
      invariant todo <= investments
      invariant joined.Keys == f.columns.Keys
      invariant forall l | l in joined ::
        joined[l] == if l in investments && l !in todo then Converted(f, l) else Raw(f.columns[l])
      decreases |todo|
    {
      var inv :| inv in todo;
      var column := CumProd(Ratios(f.dates, f.columns[inv]));
      assert column == Converted(f, inv);
      joined := joined[inv := column];
      todo := todo - {inv};
    }
    var kept := map l | l in joined && !Contains(l, Suffix) :: joined[l];
    SelectConverted(f, joined);
    g := Frame(f.dates, kept);
  }

  /** Once every column is converted, the selection without lagged copies is the percentage frame. */
  lemma SelectConverted(f: Frame<Option<real>>, joined: map<string, seq<Option<Float>>>)
    requires Shaped(f) && joined.Keys == f.columns.Keys
    requires forall l | l in joined :: joined[l] == Converted(f, l)
    ensures (map l | l in joined && !Contains(l, Suffix) :: joined[l]) == PercentageOf(f).columns
  {
  }

  /** Every column of a history runs over all of its dates, and the dates are consecutive. */
  lemma HistoryShaped(ledger: seq<SavingsRow>, day: int -> int, today: int, h: int, f: Frame<Option<real>>)
    requires GetHistory(ledger, day, today, h) == Ok(f)
    ensures Shaped(f) && Consecutive(f.dates) && |f.dates| == h + 1
  {
    PivotShaped(f, Resolve(ledger, day, today, Some(h)), today, h);
  }

  /** `HistoryShaped` for the pivot `f` of any resolved rows `data`. */
  lemma PivotShaped(f: Frame<Option<real>>, data: seq<Resolved>, today: int, h: int)
    requires IsHistory(f, data, today, h)
    ensures Shaped(f) && Consecutive(f.dates) && |f.dates| == h + 1
  {
    forall l | l in f.columns
      ensures |f.columns[l]| == |f.dates|
    {
      var pr :| pr in Pairs(data) && l == Label(pr.0, pr.1);
      assert ColumnOf(f, data, h, pr);
    }
  }

  /** The product of entries that are all null is null. */
  lemma {:induction false} ProductOfNulls(s: seq<Option<Float>>)
    requires forall m | 0 <= m < |s| :: s[m].None?
    ensures Product(s) == None
  {
    if s != [] {
      ProductOfNulls(s[..|s| - 1]);
    }
  }

  /** `a / b * (c / a) == c / b`, as a product of floats. */
  lemma QuotientChain(a: real, b: real, c: real)
    requires a != 0.0 && b != 0.0
    ensures Times(Finite(a / b), Finite(c / a)) == Finite(c / b)
  {
    calc {
      (a / b) * (c / a);
    ==
      (a * c) / (b * a);
    ==
      c / b;
    }
  }

  /**
   * The product of a sequence `t` that is null up to `s` and holds each
   * day-over-day quotient of `col` after it telescopes to the value at `i`
   * over the value at `s`, and so does the running product at `i`.
   */
  lemma {:induction false} QuotientsTelescope(t: seq<Option<Float>>, col: seq<Option<real>>, s: int, i: int)
    requires |t| == |col| && 0 <= s <= i < |t|
    requires forall m | s <= m <= i :: col[m].Some? && col[m].value != 0.0
    requires forall m | 0 <= m <= i :: m <= s ==> t[m].None?
    requires forall m | 0 <= m <= i :: s < m ==> t[m] == Some(Finite(col[m].value / col[m - 1].value))
    ensures Product(t[..i + 1]) == if i == s then None else Some(Finite(col[i].value / col[s].value))
    ensures CumProd(t)[i] == if i == s then None else Some(Finite(col[i].value / col[s].value))
  {
    if i == s {
      ProductOfNulls(t[..i + 1]);
    } else {
      QuotientsTelescope(t, col, s, i - 1);
      ProductStep(t, i);
      if i - 1 > s {
        QuotientChain(col[i - 1].value, col[s].value, col[i].value);
      }
    }
  }

  /** The percentage column of an investment is the running product of its ratios. */
  lemma PercentageColumn(f: Frame<Option<real>>, l: string)
    requires Shaped(f) && l in f.columns && Investment(l)
    ensures l in PercentageOf(f).columns && PercentageOf(f).columns[l] == CumProd(Ratios(f.dates, f.columns[l]))
  {
  }

  /**
   * The running product of day-over-day ratios telescopes: over a column that
   * is null before index `s` and non-zero from `s` to `i`, its entry at `i` is
   * the value at `i` over the value at `s` (null at `s` itself, which has no
   * linked predecessor).
   */
  lemma CumProdTelescopes(dates: seq<int>, col: seq<Option<real>>, s: int, i: int)
    requires |col| == |dates| && Consecutive(dates) && 0 <= s <= i < |col|
    requires forall m | 0 <= m < s :: col[m].None?
    requires forall m | s <= m <= i :: col[m].Some? && col[m].value != 0.0
    ensures CumProd(Ratios(dates, col))[i] ==
      if i == s then None else Some(Finite(col[i].value / col[s].value))
  {
    var r := Ratios(dates, col);
    forall m | 0 <= m <= i
      ensures m <= s ==> r[m].None?
      ensures s < m ==> r[m] == Some(Finite(col[m].value / col[m - 1].value))
    {
      RatioAt(dates, col, m);
    }
    QuotientsTelescope(r, col, s, i);
  }

  /** The first date has no predecessor, so every investment column starts null. */
  lemma FirstDateNull(f: Frame<Option<real>>, l: string)
    requires Shaped(f) && Consecutive(f.dates) && |f.dates| > 0
    requires l in f.columns && Investment(l)
    ensures l in PercentageOf(f).columns && PercentageOf(f).columns[l][0] == None
  {
    PercentageColumn(f, l);
    RatioAt(f.dates, f.columns[l], 0);
  }

  /**
   * An investment column of the percentage frame is the value on each date
   * over the value on the first date the column has one, as long as the
   * column stays non-zero in between.
   */
  lemma PercentageTelescopes(f: Frame<Option<real>>, l: string, s: int, i: int)
    requires Shaped(f) && Consecutive(f.dates) && l in f.columns && Investment(l)
    requires 0 <= s <= i < |f.dates|
    requires forall m | 0 <= m < s :: f.columns[l][m].None?
    requires forall m | s <= m <= i :: f.columns[l][m].Some? && f.columns[l][m].value != 0.0
    ensures l in PercentageOf(f).columns
    ensures PercentageOf(f).columns[l][i] ==
      if i == s then None else Some(Finite(f.columns[l][i].value / f.columns[l][s].value))
  {
    PercentageColumn(f, l);
    CumProdTelescopes(f.dates, f.columns[l], s, i);
  }

  /**
   * A zero balance on the day before `m` makes the ratio at `m` a division by
   * zero, and the running product non-finite from there on while the column
   * has values.
   */
  lemma ZeroMakesNonFinite(dates: seq<int>, col: seq<Option<real>>, m: int, i: int)
    requires |col| == |dates| && Consecutive(dates) && 1 <= m <= i < |col|
    requires col[m - 1] == Some(0.0)
    requires forall j | m <= j <= i :: col[j].Some?
    ensures CumProd(Ratios(dates, col))[i] == Some(NonFinite)
  {
    var r := Ratios(dates, col);
    RatioAt(dates, col, m);
    RatioAt(dates, col, i);
    assert r[m] == Some(NonFinite) && r[i].Some?;
    NonFiniteAbsorbs(r, m, i);
  }

  /** Once a non-finite entry is in, the product stays non-finite. */
  lemma {:induction false} NonFiniteAbsorbs(t: seq<Option<Float>>, m: int, i: int)
    requires 0 <= m <= i < |t| && t[m] == Some(NonFinite)
    ensures Product(t[..i + 1]) == Some(NonFinite)
  {
    ProductStep(t, i);
    if i > m {
      NonFiniteAbsorbs(t, m, i - 1);
    }
  }

  /** Forward fill never turns a present value back into null on a later date. */
  lemma {:induction false} FilledPersists(data: seq<Resolved>, platform: string, account: string, m: int, k: int, h: int)
    requires m <= k && Filled(data, platform, account, k, h).Some?
    ensures Filled(data, platform, account, m, h).Some?
    decreases k - m
  {
    if m < k {
      FilledPersists(data, platform, account, m + 1, k, h);
    }
  }

  /**
   * In the pivot `f` of `data`, the column of a pair is null before the first
   * date `s` with a value and present from there on.
   */
  lemma PivotColumnFromFirst(f: Frame<Option<real>>, data: seq<Resolved>, today: int, h: int,
                             platform: string, account: string, s: int, i: int)
    requires IsHistory(f, data, today, h) && (platform, account) in Pairs(data)
    requires 0 <= s <= i <= h
    requires Filled(data, platform, account, h - s, h).Some?
    requires s == 0 || Filled(data, platform, account, h - s + 1, h).None?
    requires forall k | h - i <= k <= h - s :: Filled(data, platform, account, k, h) != Some(0.0)
    ensures Label(platform, account) in f.columns && |f.columns[Label(platform, account)]| == h + 1
    ensures forall m | 0 <= m < s :: f.columns[Label(platform, account)][m].None?
    ensures forall m | s <= m <= i ::
      f.columns[Label(platform, account)][m] == Filled(data, platform, account, h - m, h) &&
      f.columns[Label(platform, account)][m].Some? && f.columns[Label(platform, account)][m].value != 0.0
  {
    var pr, l := (platform, account), Label(platform, account);
    CellOf(f, data, h, pr, 0);
    forall m | 0 <= m < s
      ensures f.columns[l][m].None?
    {
      CellOf(f, data, h, pr, m);
      if Filled(data, platform, account, h - m, h).Some? {
        FilledPersists(data, platform, account, h - s + 1, h - m, h);
      }
    }
    forall m | s <= m <= i
      ensures f.columns[l][m] == Filled(data, platform, account, h - m, h)
      ensures f.columns[l][m].Some? && f.columns[l][m].value != 0.0
    {
      CellOf(f, data, h, pr, m);
      FilledPersists(data, platform, account, h - m, h - s, h);
    }
  }

  /** `HistoryPercentageTelescopes` for the pivot `f` of any resolved rows `data`. */
  lemma PivotPercentageTelescopes(f: Frame<Option<real>>, data: seq<Resolved>, today: int, h: int,
                                  platform: string, account: string, s: int, i: int)
    requires IsHistory(f, data, today, h) && (platform, account) in Pairs(data) && Investment(Label(platform, account))
    requires 0 <= s <= i <= h
    requires Filled(data, platform, account, h - s, h).Some?
    requires s == 0 || Filled(data, platform, account, h - s + 1, h).None?
    requires forall k | h - i <= k <= h - s :: Filled(data, platform, account, k, h) != Some(0.0)
    ensures Shaped(f) && Label(platform, account) in PercentageOf(f).columns
    ensures Filled(data, platform, account, h - i, h).Some?
    ensures PercentageOf(f).columns[Label(platform, account)][i] ==
      if i == s then None
      else Some(Finite(Filled(data, platform, account, h - i, h).value / Filled(data, platform, account, h - s, h).value))
  {
    PivotShaped(f, data, today, h);
    PivotColumnFromFirst(f, data, today, h, platform, account, s, i);
    var l := Label(platform, account);
    assert f.columns[l][i] == Filled(data, platform, account, h - i, h);
    assert f.columns[l][s] == Filled(data, platform, account, h - s, h);
    PercentageTelescopes(f, l, s, i);
  }

  /**
   * On a history, the investment column of a pair in the percentage frame is
   * null up to the first date `s` the pair has a value, and from there on the
   * value on each date over the value on date `s`, while the balances stay
   * non-zero.
   */
  lemma HistoryPercentageTelescopes(ledger: seq<SavingsRow>, day: int -> int, today: int, h: int,
                                    f: Frame<Option<real>>, platform: string, account: string, s: int, i: int)
    requires GetHistory(ledger, day, today, h) == Ok(f) && Investment(Label(platform, account))
    requires (platform, account) in Pairs(Resolve(ledger, day, today, Some(h)))
    requires 0 <= s <= i <= h
    requires Filled(Resolve(ledger, day, today, Some(h)), platform, account, h - s, h).Some?
    requires s == 0 || Filled(Resolve(ledger, day, today, Some(h)), platform, account, h - s + 1, h).None?
    requires forall k | h - i <= k <= h - s :: Filled(Resolve(ledger, day, today, Some(h)), platform, account, k, h) != Some(0.0)
    ensures Shaped(f) && Label(platform, account) in PercentageOf(f).columns
    ensures Filled(Resolve(ledger, day, today, Some(h)), platform, account, h - i, h).Some?
    ensures PercentageOf(f).columns[Label(platform, account)][i] ==
      var data := Resolve(ledger, day, today, Some(h));
      if i == s then None
      else Some(Finite(Filled(data, platform, account, h - i, h).value / Filled(data, platform, account, h - s, h).value))
  {
    PivotPercentageTelescopes(f, Resolve(ledger, day, today, Some(h)), today, h, platform, account, s, i);
  }
}
