# Table-tennis coaching ledger: a Dafny model

This project models the bookkeeping core of a small coaching-school app. The app keeps three SQLite tables:

- `students`: name, phone and a cached class `balance`
- `coaches`: name and specialty
- `logs`: an append-only record of every balance change

Three routines write to these tables: `add_student`, `add_coach` and `update_balance`. The pages build two guarded transactions on `update_balance`: "consume one class" and "top-up". A history page shows the log joined with student and coach names, newest first.

The model has five modules:

- `Tables`: rows, the database value `Db` (three tables plus their AUTOINCREMENT counters), and lookups by id.
- `Ledger`: the writes as functions on `Db`, plus the ledger invariant. The invariant says that every cached balance equals the sum of `change_amount` over that student's log rows, and that every log row refers to an existing student.
- `Flows`: the class-deduction and top-up pages.
- `History`: the history query (LEFT JOIN, then ORDER BY timestamp DESC).
- `Store`: class `Database`, with the tables as `seq` fields and the counters as `int` fields. Its methods change the object in place. Each method's postcondition ties the new state to the matching `Ledger`/`Flows` function of the old state. `AddStudent`, `AddCoach` and `ConsumeClass` keep the ledger invariant and non-negative balances. `TopUp` keeps non-negative balances, and keeps the invariant when the id names a student. `UpdateBalance` keeps the invariant only when the id names a student, and promises nothing about signs, since its amount may be any integer. `ApplyDelta` keeps the invariant for every id.

Timestamps are an abstract `nat`, passed in by the caller. It stands for the `YYYY-MM-DD HH:MM:SS` text, whose string order is its time order.

The model follows the code as written:

- Names are never checked for emptiness.
- A zero amount is accepted.
- `update_balance` returns nothing and does not reject an unknown student id.
- The history is ordered by timestamp only, with no id tie-break.

Both pages call `update_balance` as written. Class deduction calls it only after its own lookup of the student has succeeded. The top-up page passes the id straight on, but it offers only ids taken from the students table. The corrected update `Ledger.ApplyDelta`, described under Findings, agrees with `update_balance` on such ids (`Ledger.ApplyDeltaAgrees`).

## Model

| member | source | states |
|---|---|---|
| Tables.FindStudent | test.py:120 | The row `WHERE id = sid` is returned if one exists. None is returned exactly when no row has that id. |
| Tables.FindCoach | test.py:186 | The coach with the id is returned if one exists. None is returned exactly when no coach has it. |
| Tables.FindStudentExact | test.py:15-16 | When student ids are distinct (PRIMARY KEY), looking up a row's id returns that very row. |
| Tables.FindCoachExact | test.py:23-24 | When coach ids are distinct, looking up a row's id returns that very row. |
| Ledger.InsertStudent | test.py:48-53 | The model of add_student. Its contract is stated by `Ledger.InsertStudentAppends` and `Ledger.InsertStudentPreservesInv`. |
| Ledger.InsertCoach | test.py:55-60 | The model of add_coach. Its contract is stated by `Ledger.InsertCoachAppends` and `Ledger.InsertCoachPreservesInv`. |
| Ledger.UpdateBalance | test.py:62-79 | The model of update_balance, with no check on the id. Its contract is stated by `Ledger.UpdateBalanceEffect`, `Ledger.UpdateBalancePreservesInv` and `Ledger.UpdateBalanceTwice`. |
| Ledger.LogSum | test.py:31-39 | The sum of `change_amount` over a student's log rows. `Ledger.LogSumAppend` and `Ledger.LogSumUnreferenced` state how it changes. |
| Ledger.Inv | test.py:15-39 | The ledger invariant: ids well formed, each cached balance equal to its log sum, each log row referring to a student. The `...PreservesInv` lemmas state which writes keep it. |
| Ledger.Empty | test.py:9-44 | A first run yields three empty tables, and the database is well formed. |
| Ledger.EmptyInv | test.py:9-44 | The empty database satisfies the ledger invariant and has no negative balance. |
| Ledger.InsertStudentAppends | test.py:48-53 | add_student appends exactly one row with the given name and phone, balance 0, and an id larger than every existing id. Coaches and logs are unchanged, and ids stay well formed. |
| Ledger.InsertStudentPreservesInv | test.py:15-20 | add_student keeps the ledger invariant, because no log row refers to the fresh id. It also keeps non-negative balances. |
| Ledger.InsertCoachAppends | test.py:55-60 | add_coach appends exactly one coach with a fresh, larger id. Students and logs are unchanged. |
| Ledger.InsertCoachPreservesInv | test.py:23-27 | add_coach keeps the ledger invariant and non-negative balances. |
| Ledger.AddToBalance | test.py:71 | The UPDATE adds `amount` to the balance of every row whose id is `sid`. All other balances, and all ids, names and phones, are unchanged. |
| Ledger.AddToBalanceFind | test.py:71 | With distinct ids, after the UPDATE for an existing student, looking up its id finds the same row with `amount` added. |
| Ledger.UpdateBalanceEffect | test.py:62-79 | update_balance changes only the balance of student `sid`, by exactly `amount`. It appends exactly one log row carrying `sid`, the coach, `amount` and the note, with an id larger than every existing log id. Existing log rows are unchanged. |
| Ledger.UpdateBalancePreservesInv | test.py:71-76 | For an existing student, update_balance keeps the invariant: every balance equals its log sum, and every log row refers to a student. |
| Ledger.UpdateBalanceTwice | test.py:62-79 | update_balance is not idempotent: the same call twice adds two distinct log rows and changes the balance by twice the amount. |
| Ledger.OrphanRowCorruptsNextStudent | test.py:71-76 | Start from an empty database and call update_balance for id 1. The result is consistent but leaves a dangling row. The next add_student gets id 1 with balance 0, while its log rows sum to 10, so the invariant fails. |
| Ledger.ApplyDelta | test.py:62-79 | update_balance with the foreign-key check. It is refused exactly when no student has the id. |
| Ledger.ApplyDeltaPreservesInv | test.py:62-79 | With the check, the invariant is kept for every id. The reported balance equals the student's new log sum. |
| Ledger.ApplyDeltaAgrees | test.py:148-152 | For the ids the pages offer (existing students), the checked update is exactly update_balance. |
| Flows.ConsumeClass | test.py:118-125 | The model of the deduction button. Its contract is stated by `Flows.ConsumeClassGuard`, `Flows.ConsumeClassKeepsNonNegative` and `Flows.ConsumeClassPreservesInv`. |
| Flows.ConsumeClassGuard | test.py:118-125 | A class is deducted exactly when the page has students and coaches and the selected student's balance is positive. The deduction is update_balance(sid, -1, note, coach). The reported remainder (current − 1) is the student's new balance. Otherwise nothing changes. |
| Flows.ConsumeClassKeepsNonNegative | test.py:120-122 | Starting from non-negative balances, consuming a class never makes a balance negative. |
| Flows.ConsumeClassPreservesInv | test.py:122 | Consuming a class keeps the ledger invariant. |
| Flows.TopUp | test.py:150-152 | The model of the top-up button: update_balance with the amount, no coach and the fixed note, on whatever id is passed. Its contract is stated by the three lemmas below and `Flows.TopUpPreservesInv`. |
| Flows.TopUpRecordsRow | test.py:152 | A top-up appends exactly one log row carrying the id, no coach, the amount and the top-up note. Earlier log rows are unchanged, and no other student's row changes. |
| Flows.TopUpIncreases | test.py:150-152 | With well-formed (ascending AUTOINCREMENT) ids, a top-up of an existing student raises that student's balance by exactly `amount`, so strictly, and leaves the rest of its row unchanged. |
| Flows.TopUpUnknownId | test.py:152 | A top-up for an id no student has changes no balance. The log row is appended all the same. |
| Flows.TopUpPreservesInv | test.py:146-152 | A top-up of an existing student, the only kind the page offers, keeps the ledger invariant. Every top-up keeps balances non-negative. |
| Flows.RegisterTopUp | test.py:139-152 | Add a student, then top up 10. The new student's row shows balance 10, ids stay well formed, and one +10 row with no coach is logged. |
| Flows.RegisterTopUpConsume | test.py:139-152 | Add a student, top up 10, then consume one class with a coach. The result is a balance of 9 and two new log rows, +10 with no coach, then −1 with that coach. |
| History.StudentName | test.py:185 | The LEFT JOIN yields NULL exactly when no student has the row's id. Otherwise it yields the name of a student with that id. |
| History.CoachName | test.py:186 | The coach name is NULL exactly when the row has no coach or no coach has that id. Otherwise it is the name of a coach with that id. |
| History.Join | test.py:183-186 | One log row with its student and coach names. `History.StudentName`, `History.CoachName` and `History.JoinShowsNames` state which names it shows. |
| History.JoinAll | test.py:183-186 | There is one joined row per log row, in log order. |
| History.InsertDescending | test.py:187 | Inserting into a descending list keeps it descending and adds exactly that one row. |
| History.SortDescending | test.py:187 | ORDER BY timestamp DESC: the result is ordered with timestamps non-increasing, and it is a permutation of its input. |
| History.History | test.py:182-188 | The history has one row per log row. It is ordered newest first, and as a multiset it equals the joined log rows. |
| History.HistoryMatchesLog | test.py:182-188 | Every log row appears in the history, and every history row comes from a log row. |
| History.JoinShowsNames | test.py:183-186 | With well-formed (ascending AUTOINCREMENT) ids, a row shows the name of its student and, when its coach exists, the name of its coach. |
| Store.Database.constructor | test.py:9-44 | init_db creates empty tables. These satisfy the ledger invariant. |
| Store.Database.AddStudent | test.py:48-53 | The new state is the old one with the student row appended. The invariant and non-negative balances are kept. |
| Store.Database.AddCoach | test.py:55-60 | The new state is the old one with the coach row appended. The invariant and non-negative balances are kept. |
| Store.Database.UpdateBalance | test.py:62-79 | The balance update and log insert happen as one step. The invariant is kept when `sid` exists. |
| Store.Database.ApplyDelta | test.py:62-79 | An unknown id leaves the state unchanged and reports None. Otherwise the method updates as update_balance does and returns the new balance. The invariant is always kept. |
| Store.Database.ConsumeClass | test.py:118-125 | The method behaves as the deduction page. After a deduction, the student's stored balance is the reported remainder. The invariant and non-negative balances are kept. |
| Store.Database.TopUp | test.py:150-152 | The method behaves as the top-up page: the new state is `Flows.TopUp` of the old one. Non-negative balances are kept. The invariant is kept when the id names a student. |
| Store.Database.StudentsTable | test.py:81-85 | get_data('students') gives every student row, each exactly once (as a multiset it equals the table), with strictly increasing ids. Each offered id selects exactly its own row. |
| Store.Database.CoachesTable | test.py:81-85 | get_data('coaches') gives every coach row, each exactly once (as a multiset it equals the table), with strictly increasing ids. Each offered id selects exactly its own row. |

## Left out

- Streamlit pages, widgets, layout, `st.rerun` and the success, error and warning messages: these are presentation only. A message is modelled only as the `Flows.Deduction` outcome it reports.
- Opening, committing and closing the SQLite connection, and pandas DataFrames: these are I/O. Each routine is one atomic step on in-memory state.
- The wall clock and `strftime`: the clock cannot be modelled. The timestamp is a caller-supplied `nat`.
- The f-string table name in `get_data` and the display labels built for the select boxes: these are string presentation.
- Check-then-act races between sessions (a balance read on one page render, acted on after another session's write): concurrency is out of scope. The model is sequential, so the balance read is the current one.
- `CREATE TABLE IF NOT EXISTS` on an existing database file: persistence across runs is not modelled. The constructor models a first run.
- SQLite's 64-bit INTEGER and rowid limits: ids and balances are unbounded integers.
- NULL phone or specialty values: the pages always pass text, so these are plain strings.
- History.SortDescending: the order among rows with equal timestamps is unspecified in SQL. The model fixes one order, but its contracts claim none.

## Findings

| source | as written | input that shows it | evidently intended | confidence | as-written member | corrected member |
|---|---|---|---|---|---|---|
| test.py:71-76 | update_balance inserts the log row even when no student has the id. SQLite does not enforce the FOREIGN KEY declared at test.py:38 by default. The dangling row is later inherited by the student that receives that id. | Empty database; update_balance(1, 10, note) then add_student("A", ""). Student 1 has balance 0, but its log rows sum to 10. | An unknown student id is refused and nothing is written. | Low, not executed: the pages offer only existing ids, so they never make this call. | Ledger.OrphanRowCorruptsNextStudent | Ledger.ApplyDeltaPreservesInv |
