# Monthly recurrence in the transaction proxy of money-api

This project models the part of `TransactionProxy` (the data-access layer of a
personal budgeting API) that has behaviour of its own: the expansion of a
recurring ("monthly") transaction into one row per elapsed month, and the row
filters behind `findFrom`, `findMonthly` and `findFull`. It proves properties of
that model with Dafny.

- `dates.dfy` (module `Dates`): calendar dates, the one-month step, the
  occurrence list that `getRemainingMonths` builds, and the loop that builds it.
- `transactions.dfy` (module `Transactions`): the transaction record and the
  writes the proxy issues (`Insert(record)` or `Update(id, record)`).
- `queries.dfy` (module `Queries`): the three filters over an in-memory table.
- `recurrence.dfy` (module `Recurrence`): the write plans of `create`, `update`,
  `createMonthly`, `updateMonthly` and the four clone routines, the ids each call
  hands back, and the lemmas relating them.

Persistence is a sequence of writes: each create or update becomes a pure
function from the draft (plus the row id for an update) and the number of
elapsed months to the writes it issues. Every write carries a freshly built
record, so the draft is never shared between writes.

The whole-month count that the source gets from the clock
(`moment().diff(date, 'months')`) is a parameter, `monthsElapsed`.

The month step is a concrete assumption: go to the next calendar month and clamp
the day to that month's last day. This is the date library's documented rule for
adding one month; the library itself is not part of this model. Because the
source steps one running date, a clamped day stays clamped: 31 January gives
28 February, then 28 March (`Dates.DayDrift`).

An update clears the recurring flag of the edited row only when it expands. A
recurring draft with no elapsed month is written back unchanged, flag included
(`Recurrence.PlainUpdate`); the same holds for create (`Recurrence.PlainCreate`).

## Model

| member | source | states |
|---|---|---|
| `Dates.AddOneMonth` | src/app/infra/proxies/TransactionProxy.js:204 | one step moves to the next calendar month, never raises the day, keeps the day unless it is clamped to the month's last day, and yields a strictly later date |
| `Dates.StepMonths` | src/app/infra/proxies/TransactionProxy.js:203-206 | n steps from a date land exactly n calendar months later, on a day no later than the start day |
| `Dates.Occurrences` | src/app/infra/proxies/TransactionProxy.js:200-208 | the occurrence list has exactly `nbOfMonths` dates, and none when the month count is zero or negative |
| `Dates.GetRemainingMonths` | src/app/infra/proxies/TransactionProxy.js:197-209 | the loop over one running date returns `max(nbOfMonths, 0)` dates, date k being the anchor stepped k + 1 times, equal to the reference list |
| `Dates.OccurrenceAt` | src/app/infra/proxies/TransactionProxy.js:203-206 | element k of the list is the anchor stepped k + 1 times |
| `Dates.OccurrencesChain` | src/app/infra/proxies/TransactionProxy.js:203-206 | element 0 is one step from the anchor; element k is one step from element k - 1, not from the anchor |
| `Dates.OccurrenceMonths` | src/app/infra/proxies/TransactionProxy.js:203-206 | element k falls in the (k + 1)-th calendar month after the anchor's month: no month skipped or repeated |
| `Dates.OccurrencesIncreasing` | src/app/infra/proxies/TransactionProxy.js:203-206 | the list is strictly increasing and every element is later than the anchor |
| `Dates.StableDay` | src/app/infra/proxies/TransactionProxy.js:204 | an anchor on day 28 or earlier keeps its day in every step |
| `Dates.DayDrift` | src/app/infra/proxies/TransactionProxy.js:203-206 | from 31 January 2023, three months give 28 February, 28 March and 28 April |
| `Dates.MidMonthExample` | src/app/infra/proxies/TransactionProxy.js:200-208 | from 15 January 2023, three months give the 15th of February, March and April |
| `Queries.FindFrom` | src/app/infra/proxies/TransactionProxy.js:49-65 | selects exactly the rows whose source account is the given one, or whose destination is it on a "transfer", each with its full multiplicity |
| `Queries.FindMonthly` | src/app/infra/proxies/TransactionProxy.js:67-70 | selects exactly the rows with the recurring flag set, each with its full multiplicity |
| `Queries.FindFull` | src/app/infra/proxies/TransactionProxy.js:156-178 | selects exactly the rows whose id is among the requested ids; no ids select nothing |
| `Recurrence.OneOff` | src/app/infra/proxies/TransactionProxy.js:138 | the draft with the recurring flag cleared keeps its id, date and content |
| `Recurrence.CreateIn` | src/app/infra/proxies/TransactionProxy.js:191-195 | the written copy has no id, sits at the given date, and keeps the draft's content and flag |
| `Recurrence.CreateMonthlyIn` | src/app/infra/proxies/TransactionProxy.js:186-189 | as `createIn`, and the copy is flagged as recurring |
| `Recurrence.CloneInserts` | src/app/infra/proxies/TransactionProxy.js:147-152 | one id-less insert per date in order with the draft's content; every one but the last keeps the draft's flag, the last is recurring; so for a one-off draft only the last is recurring |
| `Recurrence.CreateAndCloneOnce` | src/app/infra/proxies/TransactionProxy.js:137-142 | two inserts: the draft as a one-off at its own date, then a recurring id-less copy at the given date |
| `Recurrence.CreateAndCloneManyTimes` | src/app/infra/proxies/TransactionProxy.js:144-154 | N + 1 inserts: the draft as a one-off at its own date, then one id-less copy per date in order, recurring only at the last |
| `Recurrence.UpdateAndCloneOnce` | src/app/infra/proxies/TransactionProxy.js:118-123 | an update of the given id to the draft as a one-off, then a recurring id-less insert at the given date |
| `Recurrence.UpdateAndCloneManyTimes` | src/app/infra/proxies/TransactionProxy.js:125-135 | an update of the given id to the draft as a one-off, then one id-less insert per date in order, recurring only at the last |
| `Recurrence.CreateMonthly` | src/app/infra/proxies/TransactionProxy.js:104-109 | N dates give N + 1 writes: an insert of the draft as a one-off at its own date, then one id-less insert per date in order, with the draft's content, recurring only at the last date |
| `Recurrence.UpdateMonthly` | src/app/infra/proxies/TransactionProxy.js:111-116 | N dates give N + 1 writes: an update of the given id to the draft as a one-off, then the same N inserts as on create |
| `Recurrence.CreateWrites` | src/app/infra/proxies/TransactionProxy.js:90-102 | create issues only inserts: N + 1 of them for a recurring draft with N ≥ 1 elapsed months, otherwise one |
| `Recurrence.UpdateWrites` | src/app/infra/proxies/TransactionProxy.js:72-88 | update first updates the given id, then issues only inserts: N + 1 writes when expanded, otherwise one |
| `Recurrence.PlainCreate` | src/app/infra/proxies/TransactionProxy.js:90-101 | a non-recurring draft, or one with no elapsed month, is inserted once exactly as given, flag included |
| `Recurrence.PlainUpdate` | src/app/infra/proxies/TransactionProxy.js:72-87 | a non-recurring draft, or one with no elapsed month, is one update of the given id exactly as given, flag included |
| `Recurrence.CreateExpansion` | src/app/infra/proxies/TransactionProxy.js:90-97 | an expanded create is a one-off insert at the anchor date followed by one insert per occurrence date |
| `Recurrence.UpdateExpansion` | src/app/infra/proxies/TransactionProxy.js:72-82 | an expanded update makes the given row a one-off at the anchor date, followed by one insert per occurrence date |
| `Recurrence.CloneOnceIsCloneManyTimes` | src/app/infra/proxies/TransactionProxy.js:118-154 | for one date, the clone-once routines write exactly what the clone-many-times routines write for a one-element list, on create and on update |
| `Recurrence.OneRecurringRecord` | src/app/infra/proxies/TransactionProxy.js:186-189 | when the first write is a one-off and the clones follow the dates, the recurring records written are exactly the last insert, at the last date |
| `Recurrence.CreateKeepsOneTemplate` | src/app/infra/proxies/TransactionProxy.js:144-154 | an expanded create writes exactly one recurring record, the last insert, at the anchor stepped N times |
| `Recurrence.UpdateKeepsOneTemplate` | src/app/infra/proxies/TransactionProxy.js:125-135 | an expanded update writes exactly one recurring record, the last insert, at the anchor stepped N times; the updated row is a one-off |
| `Recurrence.PlanInDateOrder` | src/app/infra/proxies/TransactionProxy.js:144-154 | a first write at the anchor followed by clones at increasing later dates writes its records in strictly increasing date order |
| `Recurrence.ExpansionChronological` | src/app/infra/proxies/TransactionProxy.js:125-154 | the records of an expanded create or update are in strictly increasing date order, so the recurring one is the latest |
| `Recurrence.ReturnedIds` | src/app/infra/proxies/TransactionProxy.js:76-81 | one returned id per write; an updated row is returned under the caller's id |
| `Recurrence.InsertsOnly` | src/app/infra/proxies/TransactionProxy.js:94-96 | for a plan of inserts only, the returned ids are the storage-assigned ids in write order |
| `Recurrence.CreateReturnsInsertedIds` | src/app/infra/proxies/TransactionProxy.js:94-100 | create returns the ids of all the rows it inserted, in order |
| `Recurrence.UpdateReturnsIds` | src/app/infra/proxies/TransactionProxy.js:76-81 | update returns the caller's id followed by the ids of the inserted rows: N + 1 ids when expanded, one otherwise |
| `Recurrence.Materialize` | src/app/infra/proxies/TransactionProxy.js:118-195 | one stored row per write, with the write's content, flag and date, under the caller's id for the update and the assigned id for each insert |
| `Recurrence.ReloadFindsEveryWrite` | src/app/infra/proxies/TransactionProxy.js:156-164 | in the table made of rows carrying none of the returned ids followed by the written rows in plan order, `findFull` on the returned ids returns exactly the written rows, in that order |
| `Recurrence.ReloadFindsExactlyTheWrites` | src/app/infra/proxies/TransactionProxy.js:156-164 | in any table holding the written rows plus rows carrying none of the returned ids, in any order, `findFull` on the returned ids returns exactly the written rows, each as often as it was written |

## Left out

- Clock and month difference: `moment()` and `diff(..., 'months')` are replaced by the parameter `monthsElapsed`. So "the last occurrence is not after now" is not modelled.
- Date library: the one-month step is the stated clamping rule, not the library's code. Dates carry no time of day or time zone, and an unparseable date (which yields no month count in the source) is not modelled.
- ORM and database: `findAllFull`, `findOneFull`, the eager loading of accounts and category, and the base proxy class are left out. The result of `create`/`update` is modelled by the ids handed to `findFull`, or, when not expanded, by the one id handed to `findOneFull`; it is not modelled as hydrated rows.
- `findOneFull` on an id with no row (an update of a missing id returns a one-element list holding nothing) is not modelled.
- Concurrency: the `Promise.all` fan-out and join are left out, as are partial failure and the lack of rollback. A plan is an ordered sequence, and nothing depends on completion order.
- Mutation of the caller's draft: after an expansion the source leaves the caller's object without an id, at the last date and flagged as recurring. Only the written records are modelled.
- `setNonMonthly` is unused and only wraps an ORM update.
- The recurring flag is a `bool`; the `isMonthly: 1` query value is read as "flag set".
- `Recurrence.Materialize`: an update write's row is taken to be the draft under the caller's id. What the database does when the draft carries a different `id` field is not modelled. Two consequences follow. First, the ORM's bulk update writes only the fields present in the draft, so with a partial draft the edited row keeps stored values that the clones do not get; the model gives the edited row the draft's values only. Second, an expanded update of a missing id changes no row, so the reload finds only the N inserts, not N + 1 rows; the model assumes the id exists.
- `Queries.FindFull`: an empty id list selects nothing. The source never issues one, and the SQL the ORM builds for it is not modelled.
- Duplicate lookup by description, amounts, accounts and date window is not part of this model: it is not in the transaction proxy file.
- Amounts are integers; the proxy only copies them, so their representation does not matter here.
