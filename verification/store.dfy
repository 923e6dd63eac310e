/**
 * The database file as one object whose operations change it in place:
 * add_student, add_coach and update_balance, the two guarded transactions of
 * the pages, and the get_data reads the pages choose ids from.
 */
module Store {
  import opened Tables
  import Ledger
  import Flows

  class Database {
    var students: seq<Student>
    var coaches: seq<Coach>
    var logs: seq<LogRow>
    var nextStudentId: int
    var nextCoachId: int
    var nextLogId: int

    /** The tables and counters as one value. */
    function State(): Db
      reads this
    {
      Db(students, coaches, logs, nextStudentId, nextCoachId, nextLogId)
    }

    ghost predicate Valid()
      reads this
    {
      WellFormed(State())
    }

    /** init_db on a first run: the three tables, empty. */
    constructor ()
      ensures Valid() && State() == Ledger.Empty()
      ensures Ledger.Inv(State()) && Ledger.NonNegative(State())
    {
      students, coaches, logs := [], [], [];
      nextStudentId, nextCoachId, nextLogId := 1, 1, 1;
      Ledger.EmptyInv();
    }

    /** add_student: one new row with balance 0; the name is not checked. */
    method AddStudent(name: string, phone: string)
      requires Valid()
      modifies this
      ensures Valid()
      ensures State() == Ledger.InsertStudent(old(State()), name, phone)
      ensures old(Ledger.Inv(State())) ==> Ledger.Inv(State())
      ensures old(Ledger.NonNegative(State())) ==> Ledger.NonNegative(State())
    {
      ghost var before := State();
      Ledger.InsertStudentAppends(before, name, phone);
      if Ledger.Inv(before) {
        Ledger.InsertStudentPreservesInv(before, name, phone);
      }
      students := students + [Student(nextStudentId, name, phone, 0)];
      nextStudentId := nextStudentId + 1;
    }

    /** add_coach: one new row. */
    method AddCoach(name: string, specialty: string)
      requires Valid()
      modifies this
      ensures Valid()
      ensures State() == Ledger.InsertCoach(old(State()), name, specialty)
      ensures old(Ledger.Inv(State())) ==> Ledger.Inv(State())
      ensures old(Ledger.NonNegative(State())) ==> Ledger.NonNegative(State())
    {
      ghost var before := State();
      Ledger.InsertCoachAppends(before, name, specialty);
      if Ledger.Inv(before) {
        Ledger.InsertCoachPreservesInv(before, name, specialty);
      }
      coaches := coaches + [Coach(nextCoachId, name, specialty)];
      nextCoachId := nextCoachId + 1;
    }

    /**
     * update_balance: the UPDATE of the student's balance and the INSERT of the
     * log row, committed together as one step. The ledger invariant survives
     * when `sid` is an existing student.
     */
    method UpdateBalance(sid: int, amount: int, note: string, coachId: Option<int>, now: nat)
      requires Valid()
      modifies this
      ensures Valid()
      ensures State() == Ledger.UpdateBalance(old(State()), sid, amount, note, coachId, now)
      ensures old(Ledger.Inv(State())) && sid in old(StudentIds(students)) ==> Ledger.Inv(State())
    {
      ghost var before := State();
      Ledger.UpdateBalanceEffect(before, sid, amount, note, coachId, now);
      if Ledger.Inv(before) && sid in StudentIds(students) {
        Ledger.UpdateBalancePreservesInv(before, sid, amount, note, coachId, now);
      }
      students := Ledger.AddToBalance(students, sid, amount);
      logs := logs + [LogRow(nextLogId, now, sid, coachId, amount, note)];
      nextLogId := nextLogId + 1;
    }

    /**
     * update_balance that first looks the student up and refuses an unknown
     * id, changing nothing; otherwise it returns the new balance.
     */
    method ApplyDelta(sid: int, amount: int, note: string, coachId: Option<int>, now: nat)
      returns (newBalance: Option<int>)
      requires Valid()
      modifies this
      ensures Valid()
      ensures match Ledger.ApplyDelta(old(State()), sid, amount, note, coachId, now)
        case StudentNotFound => newBalance.None? && State() == old(State())
        case Applied(db, b) => newBalance == Some(b) && State() == db
      ensures old(Ledger.Inv(State())) ==> Ledger.Inv(State())
    {
      ghost var before := State();
      var found := FindStudent(students, sid);
      if found.None? {
        return None;
      }
      UpdateBalance(sid, amount, note, coachId, now);
      newBalance := Some(found.value.balance + amount);
      assert Ledger.ApplyDelta(before, sid, amount, note, coachId, now) == Ledger.Applied(State(), newBalance.value);
      if Ledger.Inv(before) {
        Ledger.ApplyDeltaPreservesInv(before, sid, amount, note, coachId, now);
      }
    }

    /**
     * The "consume one class" button: reads the selected student's balance and
     * deducts one class, recording the coach, only when it is positive.
     */
    method ConsumeClass(sid: int, coachId: int, note: string, now: nat) returns (out: Flows.Deduction)
      requires Valid()
      modifies this
      ensures Valid()
      ensures (State(), out) == Flows.ConsumeClass(old(State()), sid, coachId, note, now)
      ensures out.Deducted? ==> FindStudent(students, sid).Some? && FindStudent(students, sid).value.balance == out.remaining
      ensures old(Ledger.Inv(State())) ==> Ledger.Inv(State())
      ensures old(Ledger.NonNegative(State())) ==> Ledger.NonNegative(State())
    {
      ghost var before := State();
      if students == [] || coaches == [] {
        return Flows.NotSetUp;
      }
      var current := FindStudent(students, sid);
      if current.None? {
        return Flows.UnknownStudent;
      }
      if current.value.balance <= 0 {
        return Flows.InsufficientBalance;
      }
      UpdateBalance(sid, -1, note, Some(coachId), now);
      out := Flows.Deducted(current.value.balance - 1);
      assert (State(), out) == Flows.ConsumeClass(before, sid, coachId, note, now);
      Flows.ConsumeClassGuard(before, sid, coachId, note, now);
      if Ledger.NonNegative(before) {
        Flows.ConsumeClassKeepsNonNegative(before, sid, coachId, note, now);
      }
      if Ledger.Inv(before) {
        Flows.ConsumeClassPreservesInv(before, sid, coachId, note, now);
      }
    }

    /**
     * The "confirm top-up" button: update_balance with `amount` classes, at
     * least one, and no coach. The page offers only existing students, and for
     * those the ledger invariant is kept.
     */
    method TopUp(sid: int, amount: int, now: nat)
      requires Valid() && amount >= 1
      modifies this
      ensures Valid()
      ensures State() == Flows.TopUp(old(State()), sid, amount, now)
      ensures old(Ledger.Inv(State())) && sid in old(StudentIds(students)) ==> Ledger.Inv(State())
      ensures old(Ledger.NonNegative(State())) ==> Ledger.NonNegative(State())
    {
      ghost var before := State();
      UpdateBalance(sid, amount, Flows.TopUpNote, None, now);
      assert State() == Flows.TopUp(before, sid, amount, now);
      Flows.TopUpPreservesInv(before, sid, amount, now);
    }

    /**
     * get_data('students'): every row, in insertion order. Every id offered is
     * unique, so picking one from the list selects exactly its own row.
     */
    function StudentsTable(): (rows: seq<Student>)
      reads this
      requires Valid()
      ensures forall i, j :: 0 <= i < j < |rows| ==> rows[i].id < rows[j].id
      ensures forall i :: 0 <= i < |rows| ==> FindStudent(students, rows[i].id) == Some(rows[i])
      ensures multiset(rows) == multiset(students)
    {
      assert forall i :: 0 <= i < |students| ==> FindStudent(students, students[i].id) == Some(students[i]) by {
        forall i | 0 <= i < |students| {
          FindStudentExact(students, i);
        }
      }
      students
    }

    /** get_data('coaches'): every row, in insertion order, each id selecting its own row. */
    function CoachesTable(): (rows: seq<Coach>)
      reads this
      requires Valid()
      ensures forall i, j :: 0 <= i < j < |rows| ==> rows[i].id < rows[j].id
      ensures forall i :: 0 <= i < |rows| ==> FindCoach(coaches, rows[i].id) == Some(rows[i])
      ensures multiset(rows) == multiset(coaches)
    {
      assert forall i :: 0 <= i < |coaches| ==> FindCoach(coaches, coaches[i].id) == Some(coaches[i]) by {
        forall i | 0 <= i < |coaches| {
          FindCoachExact(coaches, i);
        }
      }
      coaches
    }
  }
}
