/**
 * A derived table in the database, seen as the sequence of its rows. The
 * analyses write it in two steps: `TRUNCATE TABLE` (committed on its own)
 * and then `to_sql(..., if_exists="append")`.
 */
module Tables {

  class Table<R> {
    var rows: seq<R>

    constructor (initial: seq<R>)
      ensures rows == initial
    {
      rows := initial;
    }

    /** `TRUNCATE TABLE`: every row goes. */
    method Truncate()
      modifies this
      ensures rows == []
    {
      rows := [];
    }

    /** `DataFrame.to_sql(..., if_exists="append")`: the batch follows the rows already there. */
    method Append(batch: seq<R>)
      modifies this
      ensures rows == old(rows) + batch
    {
      rows := rows + batch;
    }
  }
}
