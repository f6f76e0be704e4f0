/** The snapshot ledger: the `savings` table and the one row shape it holds. */
module Ledger {

  /**
   * One observed balance (`SavingsRow`): `time` is the observation instant,
   * an integer count of time units since an arbitrary epoch.
   */
  datatype SavingsRow = SavingsRow(time: int, platform: string, account: string, amount: real)
}
