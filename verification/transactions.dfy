/**
 Transaction records and the writes the proxy issues against the transaction
 table.
 */
module Transactions {
  import opened Dates

  datatype Option<T> = None | Some(value: T)

  /** Row identifiers assigned by storage. */
  type Id = nat

  /** A transaction row, or a draft of one when `id` is `None`. `kind` is the
      source's `type` column ("transfer" or another category name); `value` is
      the monetary amount, which the proxy only copies. */
  datatype Transaction = Transaction(
    id: Option<Id>,
    description: string,
    kind: string,
    value: int,
    date: CalendarDate,
    sourceAccountId: Option<Id>,
    destinationAccountId: Option<Id>,
    categoryId: Option<Id>,
    isMonthly: bool)

  /** One write of a plan: an insert of a new row, or an update of the row
      with the given id to the given values. */
  datatype Write = Insert(record: Transaction) | Update(id: Id, record: Transaction)

  /** Two records carry the same user-entered content: everything but the id,
      the date and the recurrence flag. */
  predicate SameContent(a: Transaction, b: Transaction) {
    a.description == b.description
    && a.kind == b.kind
    && a.value == b.value
    && a.sourceAccountId == b.sourceAccountId
    && a.destinationAccountId == b.destinationAccountId
    && a.categoryId == b.categoryId
  }

  /** The records a plan writes, in plan order. */
  function Records(plan: seq<Write>): (rows: seq<Transaction>) {
    seq(|plan|, i requires 0 <= i < |plan| => plan[i].record)
  }
}
