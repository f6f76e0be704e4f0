/**
 * `SavingsDB`: the `savings` table as the sequence of its rows in storage
 * order, the one statement that writes it, and the three queries that read
 * it. Connection handling is not modelled; the current NZ day and the
 * rounding functions come in as parameters.
 */
module Db {
  import opened Wrappers
  import opened Numbers
  import opened Ledger
  import opened Resolver
  import Rollup
  import History
  import Percentage

  class SavingsDB {
    /** The rows of the `savings` table, oldest insert first. */
    var rows: seq<SavingsRow>

    /** A handle on a database that already stores `stored`. */
    constructor(stored: seq<SavingsRow>)
      ensures rows == stored
    {
      rows := stored;
    }

    /**
     * `insert`: one `INSERT INTO savings`. Nothing is checked first, so a row
     * equal to a stored one is stored again, and no stored row changes.
     */
    method Insert(item: SavingsRow)
      modifies this
      ensures rows == old(rows) + [item]
      ensures |rows| == |old(rows)| + 1 && rows[..|old(rows)|] == old(rows) && rows[|rows| - 1] == item
    {
      rows := rows + [item];
    }

    /** `current_portfolio()` on the stored rows, at NZ day `today`. */
    method CurrentPortfolio(day: int -> int, today: int, rounding: Rounding)
      returns (r: Result<Rollup.Portfolio, QueryError>)
      ensures r == Rollup.CurrentPortfolio(rows, day, today, rounding)
    {
      r := Rollup.CurrentPortfolio(rows, day, today, rounding);
    }

    /** `get_history(history_days)` on the stored rows, at NZ day `today`. */
    method GetHistory(day: int -> int, today: int, historyDays: int)
      returns (r: Result<History.Frame<Option<real>>, QueryError>)
      ensures r == History.GetHistory(rows, day, today, historyDays)
    {
      r := History.GetHistory(rows, day, today, historyDays);
    }

    /** `get_history_percentage(history_days)` on the stored rows, at NZ day `today`. */
    method GetHistoryPercentage(day: int -> int, today: int, historyDays: int)
      returns (r: Result<History.Frame<Option<Float>>, QueryError>)
      ensures History.GetHistory(rows, day, today, historyDays).Err? ==>
        r == Err(History.GetHistory(rows, day, today, historyDays).error)
      ensures History.GetHistory(rows, day, today, historyDays).Ok? ==>
        var f := History.GetHistory(rows, day, today, historyDays).value;
        && Percentage.Shaped(f)
        && (Percentage.SuffixClash(f.columns.Keys) ==> r == Err(DuplicateLabel))
        && (!Percentage.SuffixClash(f.columns.Keys) ==> r == Ok(Percentage.PercentageOf(f)))
    {
      r := Percentage.GetHistoryPercentage(rows, day, today, historyDays);
    }
  }

  /**
   * Inserting a copy of a stored row changes the result of no query: the
   * copy loses its day to the row it copies.
   */
  lemma ReinsertChangesNoQuery(ledger: seq<SavingsRow>, day: int -> int, today: int, rounding: Rounding,
                               historyDays: int, j: nat)
    requires j < |ledger|
    ensures Rollup.CurrentPortfolio(ledger + [ledger[j]], day, today, rounding) ==
      Rollup.CurrentPortfolio(ledger, day, today, rounding)
    ensures History.GetHistory(ledger + [ledger[j]], day, today, historyDays) ==
      History.GetHistory(ledger, day, today, historyDays)
  {
    ReinsertInvisible(ledger, day, today, None, j);
    ReinsertInvisible(ledger, day, today, Some(historyDays), j);
  }
}
