/**
 * The interactive selector of ui.py (`select_table` behind `select_folder`,
 * `select_identity` and `select_password`), as an oracle: the user's answer
 * is a parameter.
 */
module Ui {
  import opened Wrappers

  /**
   * A table with one row returns that row without asking; with several rows the
   * prompt only accepts a listed line, so any answer `pick` stands for row
   * `pick % |rows|`; an empty table fails on `content[0]`.
   */
  function SelectTable<T>(rows: seq<T>, pick: nat): (r: Result<T>)
    ensures r.Failure? <==> rows == []
    ensures r.Success? ==> r.value in rows
    ensures |rows| == 1 ==> r == Success(rows[0])
  {
    if rows == [] then Failure("list index out of range")
    else if |rows| == 1 then Success(rows[0])
    else Success(rows[pick % |rows|])
  }

  /** Every row can be chosen. */
  lemma EveryRowSelectable<T>(rows: seq<T>, i: nat)
    requires i < |rows|
    ensures SelectTable(rows, i) == Success(rows[i])
  {
  }
}
