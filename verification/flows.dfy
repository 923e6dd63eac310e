/**
 * The two guarded transactions the pages build on update_balance: consuming
 * one class (only when the student's balance is positive) and a top-up of at
 * least one class.
 */
module Flows {
  import opened Tables
  import opened Ledger

  /** What the class-deduction page reports. */
  datatype Deduction =
    | Deducted(remaining: int)   // the balance left after the deduction
    | InsufficientBalance        // balance not positive: nothing written
    | NotSetUp                   // no student or no coach yet: the page shows only a warning
    | UnknownStudent             // the selected id has no row: the balance lookup fails

  /**
   * Pressing "consume one class" for student `sid` with coach `coachId`: the
   * balance shown on the page is read, and update_balance(sid, -1, note,
   * coachId) runs only when it is positive.
   */
  function ConsumeClass(db: Db, sid: int, coachId: int, note: string, now: nat): (Db, Deduction) {
    if db.students == [] || db.coaches == [] then (db, NotSetUp)
    else match FindStudent(db.students, sid)
      case None => (db, UnknownStudent)
      case Some(s) =>
        if s.balance > 0 then (UpdateBalance(db, sid, -1, note, Some(coachId), now), Deducted(s.balance - 1))
        else (db, InsufficientBalance)
  }

  /**
   * A class is deducted exactly when the page has data and the student's
   * current balance is positive; the deduction is update_balance with -1 and
   * the chosen coach, and the reported remainder is the balance the student
   * is left with. Otherwise nothing changes.
   */
  lemma ConsumeClassGuard(db: Db, sid: int, coachId: int, note: string, now: nat)
    requires WellFormed(db)
    ensures var (r, out) := ConsumeClass(db, sid, coachId, note, now);
      && (out.Deducted? <==>
            db.coaches != [] && FindStudent(db.students, sid).Some? && FindStudent(db.students, sid).value.balance > 0)
      && (out.Deducted? ==>
            && r == UpdateBalance(db, sid, -1, note, Some(coachId), now)
            && out.remaining == FindStudent(db.students, sid).value.balance - 1
            && FindStudent(r.students, sid) == Some(FindStudent(db.students, sid).value.(balance := out.remaining)))
      && (!out.Deducted? ==> r == db)
  {
    var (r, out) := ConsumeClass(db, sid, coachId, note, now);
    if out.Deducted? {
      AddToBalanceFind(db.students, sid, FindStudent(db.students, sid).value, -1);
    }
  }

  /** Starting from non-negative balances, consuming a class never makes one negative. */
  lemma ConsumeClassKeepsNonNegative(db: Db, sid: int, coachId: int, note: string, now: nat)
    requires WellFormed(db) && NonNegative(db)
    ensures NonNegative(ConsumeClass(db, sid, coachId, note, now).0)
  {
    var (r, out) := ConsumeClass(db, sid, coachId, note, now);
    if out.Deducted? {
      var s := FindStudent(db.students, sid).value;
      UpdateBalanceEffect(db, sid, -1, note, Some(coachId), now);
      forall i | 0 <= i < |r.students|
        ensures r.students[i].balance >= 0
      {
        if db.students[i].id == sid {
          FindStudentExact(db.students, i);
        }
      }
    }
  }

  /** Consuming a class keeps the ledger invariant. */
  lemma ConsumeClassPreservesInv(db: Db, sid: int, coachId: int, note: string, now: nat)
    requires Inv(db)
    ensures Inv(ConsumeClass(db, sid, coachId, note, now).0)
  {
    var (r, out) := ConsumeClass(db, sid, coachId, note, now);
    if out.Deducted? {
      var i :| 0 <= i < |db.students| && db.students[i] == FindStudent(db.students, sid).value;
      assert StudentIds(db.students)[i] == sid;
      UpdateBalancePreservesInv(db, sid, -1, note, Some(coachId), now);
    }
  }

  /** The note every top-up log row carries ("student bought classes"). */
  const TopUpNote: string := "學生購買課程"

  /**
   * Confirming a top-up of `amount` classes for student `sid`: update_balance
   * with no coach. The number field accepts only amounts of at least 1; the id
   * is not looked up first, so an unknown id is passed on to update_balance.
   */
  function TopUp(db: Db, sid: int, amount: int, now: nat): Db
    requires amount >= 1
  {
    UpdateBalance(db, sid, amount, TopUpNote, None, now)
  }

  /**
   * A top-up appends one log row for `sid` with no coach, the amount and the
   * top-up note, leaves the earlier rows as they were, and changes no other
   * student's row.
   */
  lemma TopUpRecordsRow(db: Db, sid: int, amount: int, now: nat)
    requires amount >= 1
    ensures var r := TopUp(db, sid, amount, now);
      && |r.logs| == |db.logs| + 1
      && r.logs[..|db.logs|] == db.logs
      && r.logs[|db.logs|].studentId == sid
      && r.logs[|db.logs|].coachId.None?
      && r.logs[|db.logs|].changeAmount == amount
      && r.logs[|db.logs|].note == TopUpNote
      && |r.students| == |db.students|
      && (forall i :: 0 <= i < |db.students| && db.students[i].id != sid ==> r.students[i] == db.students[i])
  {
    var r := TopUp(db, sid, amount, now);
    forall i | 0 <= i < |db.students| && db.students[i].id != sid
      ensures r.students[i] == db.students[i]
    {
    }
  }

  /** A top-up raises an existing student's balance by exactly `amount`, so strictly. */
  lemma TopUpIncreases(db: Db, sid: int, s: Student, amount: int, now: nat)
    requires amount >= 1 && WellFormed(db) && FindStudent(db.students, sid) == Some(s)
    ensures FindStudent(TopUp(db, sid, amount, now).students, sid) == Some(s.(balance := s.balance + amount))
    ensures FindStudent(TopUp(db, sid, amount, now).students, sid).value.balance > s.balance
  {
    AddToBalanceFind(db.students, sid, s, amount);
  }

  /**
   * A top-up for an id no student has changes no balance, but its log row
   * (TopUpRecordsRow) is appended all the same.
   */
  lemma TopUpUnknownId(db: Db, sid: int, amount: int, now: nat)
    requires amount >= 1 && WellFormed(db) && FindStudent(db.students, sid).None?
    ensures TopUp(db, sid, amount, now).students == db.students
    ensures |TopUp(db, sid, amount, now).logs| == |db.logs| + 1
  {
    UpdateBalanceEffect(db, sid, amount, TopUpNote, None, now);
  }

  /**
   * A top-up of an existing student keeps the ledger invariant (the page
   * offers only existing ids), and every top-up keeps balances non-negative.
   */
  lemma TopUpPreservesInv(db: Db, sid: int, amount: int, now: nat)
    requires amount >= 1
    ensures var r := TopUp(db, sid, amount, now);
      && (Inv(db) && sid in StudentIds(db.students) ==> Inv(r))
      && (NonNegative(db) ==> NonNegative(r))
  {
    if Inv(db) && sid in StudentIds(db.students) {
      UpdateBalancePreservesInv(db, sid, amount, TopUpNote, None, now);
    }
  }

  /** Registering a student and topping up 10 classes: its row shows 10 and one +10 row is logged. */
  lemma RegisterTopUp(db: Db, name: string, phone: string, t1: nat)
    requires WellFormed(db)
    ensures var id := db.nextStudentId;
      var up := TopUp(InsertStudent(db, name, phone), id, 10, t1);
      && WellFormed(up) && FindStudent(up.students, id) == Some(Student(id, name, phone, 10))
      && |up.logs| == |db.logs| + 1
      && up.logs[|db.logs|].changeAmount == 10 && up.logs[|db.logs|].coachId.None?
  {
    var id := db.nextStudentId;
    var db1 := InsertStudent(db, name, phone);
    InsertStudentAppends(db, name, phone);
    FindStudentExact(db1.students, |db.students|);
    TopUpIncreases(db1, id, db1.students[|db.students|], 10, t1);
    TopUpRecordsRow(db1, id, 10, t1);
    UpdateBalanceEffect(db1, id, 10, TopUpNote, None, t1);
  }

  /**
   * Registering a student, topping up 10 classes and consuming one with a
   * coach leaves a balance of 9 and two new log rows, +10 then -1.
   */
  lemma RegisterTopUpConsume(db: Db, name: string, phone: string, coachId: int, t1: nat, t2: nat)
    requires WellFormed(db) && db.coaches != []
    ensures var id := db.nextStudentId;
      var up := TopUp(InsertStudent(db, name, phone), id, 10, t1);
      && FindStudent(up.students, id).Some? && FindStudent(up.students, id).value.balance == 10
      && var (r, out) := ConsumeClass(up, id, coachId, "class", t2);
      && out == Deducted(9)
      && FindStudent(r.students, id).Some? && FindStudent(r.students, id).value.balance == 9
      && |r.logs| == |db.logs| + 2
      && r.logs[|db.logs|].changeAmount == 10 && r.logs[|db.logs|].coachId.None?
      && r.logs[|db.logs| + 1].changeAmount == -1 && r.logs[|db.logs| + 1].coachId == Some(coachId)
  {
    var id := db.nextStudentId;
    var up := TopUp(InsertStudent(db, name, phone), id, 10, t1);
    RegisterTopUp(db, name, phone, t1);
    ConsumeClassGuard(up, id, coachId, "class", t2);
  }
}
