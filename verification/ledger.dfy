/**
 * The ledger: the effect of add_student, add_coach and update_balance on the
 * database value, the invariant that ties each cached balance to the log, and
 * the proofs that the operations keep it.
 */
module Ledger {
  import opened Tables

  /** The database init_db creates on a first run: three empty tables. */
  function Empty(): (db: Db)
    ensures db.students == [] && db.coaches == [] && db.logs == []
    ensures WellFormed(db)
  {
    Db([], [], [], 1, 1, 1)
  }

  /** `INSERT INTO students (name, phone, balance) VALUES (?, ?, 0)`. */
  function InsertStudent(db: Db, name: string, phone: string): Db {
    db.(students := db.students + [Student(db.nextStudentId, name, phone, 0)],
        nextStudentId := db.nextStudentId + 1)
  }

  /** `INSERT INTO coaches (name, specialty) VALUES (?, ?)`. */
  function InsertCoach(db: Db, name: string, specialty: string): Db {
    db.(coaches := db.coaches + [Coach(db.nextCoachId, name, specialty)],
        nextCoachId := db.nextCoachId + 1)
  }

  /** `UPDATE students SET balance = balance + amount WHERE id = sid`. */
  function AddToBalance(ss: seq<Student>, sid: int, amount: int): (r: seq<Student>)
    ensures |r| == |ss|
    ensures forall i :: 0 <= i < |ss| ==>
      && r[i].id == ss[i].id && r[i].name == ss[i].name && r[i].phone == ss[i].phone
      && r[i].balance == ss[i].balance + (if ss[i].id == sid then amount else 0)
  {
    if ss == [] then []
    else
      var head := if ss[0].id == sid then ss[0].(balance := ss[0].balance + amount) else ss[0];
      [head] + AddToBalance(ss[1..], sid, amount)
  }

  /**
   * update_balance: the balance update and the log insert, committed together.
   * Nothing checks that `sid` names a student: for an unknown id the UPDATE
   * matches no row and the log row is inserted all the same.
   */
  function UpdateBalance(db: Db, sid: int, amount: int, note: string, coachId: Option<int>, now: nat): Db {
    db.(students := AddToBalance(db.students, sid, amount),
        logs := db.logs + [LogRow(db.nextLogId, now, sid, coachId, amount, note)],
        nextLogId := db.nextLogId + 1)
  }

  /** The sum of `change_amount` over the log rows of student `sid`. */
  function LogSum(logs: seq<LogRow>, sid: int): int {
    if logs == [] then 0
    else (if logs[0].studentId == sid then logs[0].changeAmount else 0) + LogSum(logs[1..], sid)
  }

  /** Every cached balance equals the sum of that student's log rows. */
  predicate Consistent(db: Db) {
    forall i :: 0 <= i < |db.students| ==> db.students[i].balance == LogSum(db.logs, db.students[i].id)
  }

  /** Every log row refers to an existing student (the FOREIGN KEY of `logs`). */
  predicate Referential(db: Db) {
    forall k :: 0 <= k < |db.logs| ==> db.logs[k].studentId in StudentIds(db.students)
  }

  /** The ledger invariant. */
  predicate Inv(db: Db) {
    WellFormed(db) && Consistent(db) && Referential(db)
  }

  predicate NonNegative(db: Db) {
    forall i :: 0 <= i < |db.students| ==> db.students[i].balance >= 0
  }

  lemma {:induction false} LogSumAppend(logs: seq<LogRow>, row: LogRow, sid: int)
    ensures LogSum(logs + [row], sid) == LogSum(logs, sid) + (if row.studentId == sid then row.changeAmount else 0)
  {
    if logs != [] {
      assert (logs + [row])[1..] == logs[1..] + [row];
      LogSumAppend(logs[1..], row, sid);
    }
  }

  /** A student no log row refers to has a log sum of zero. */
  lemma {:induction false} LogSumUnreferenced(logs: seq<LogRow>, sid: int)
    requires forall k :: 0 <= k < |logs| ==> logs[k].studentId != sid
    ensures LogSum(logs, sid) == 0
  {
    if logs != [] {
      LogSumUnreferenced(logs[1..], sid);
    }
  }

  lemma EmptyInv()
    ensures Inv(Empty()) && NonNegative(Empty())
  {
  }

  /**
   * add_student appends exactly one row, with balance 0 and an id larger than
   * every existing one; coaches and logs are untouched.
   */
  lemma InsertStudentAppends(db: Db, name: string, phone: string)
    requires WellFormed(db)
    ensures var r := InsertStudent(db, name, phone);
      && |r.students| == |db.students| + 1
      && r.students[..|db.students|] == db.students
      && var s := r.students[|db.students|];
      && s.name == name && s.phone == phone && s.balance == 0
      && (forall i :: 0 <= i < |db.students| ==> db.students[i].id < s.id)
      && r.coaches == db.coaches && r.logs == db.logs
      && WellFormed(r)
  {
  }

  lemma InsertStudentPreservesInv(db: Db, name: string, phone: string)
    requires Inv(db)
    ensures Inv(InsertStudent(db, name, phone))
    ensures NonNegative(db) ==> NonNegative(InsertStudent(db, name, phone))
  {
    var r := InsertStudent(db, name, phone);
    var n := |db.students|;
    forall k | 0 <= k < |db.logs|
      ensures db.logs[k].studentId != db.nextStudentId
    {
      assert db.logs[k].studentId in StudentIds(db.students);
      var j :| 0 <= j < n && StudentIds(db.students)[j] == db.logs[k].studentId;
    }
    LogSumUnreferenced(db.logs, db.nextStudentId);
    assert r.students[n].balance == LogSum(r.logs, r.students[n].id);
    forall k | 0 <= k < |r.logs|
      ensures r.logs[k].studentId in StudentIds(r.students)
    {
      assert db.logs[k].studentId in StudentIds(db.students);
      var j :| 0 <= j < n && StudentIds(db.students)[j] == db.logs[k].studentId;
      assert StudentIds(r.students)[j] == db.logs[k].studentId;
    }
  }

  /** add_coach appends exactly one coach with a fresh, larger id; students and logs are untouched. */
  lemma InsertCoachAppends(db: Db, name: string, specialty: string)
    requires WellFormed(db)
    ensures var r := InsertCoach(db, name, specialty);
      && |r.coaches| == |db.coaches| + 1
      && r.coaches[..|db.coaches|] == db.coaches
      && var c := r.coaches[|db.coaches|];
      && c.name == name && c.specialty == specialty
      && (forall i :: 0 <= i < |db.coaches| ==> db.coaches[i].id < c.id)
      && r.students == db.students && r.logs == db.logs
      && WellFormed(r)
  {
  }

  lemma InsertCoachPreservesInv(db: Db, name: string, specialty: string)
    requires Inv(db)
    ensures Inv(InsertCoach(db, name, specialty))
    ensures NonNegative(db) ==> NonNegative(InsertCoach(db, name, specialty))
  {
  }

  /**
   * update_balance changes only the balance of student `sid`, by exactly
   * `amount`, and appends exactly one log row carrying the call's arguments
   * and a fresh, larger id; the rows already in the log are unchanged. For an
   * id no student has, the students table is left as it was and the log row
   * is appended all the same.
   */
  lemma UpdateBalanceEffect(db: Db, sid: int, amount: int, note: string, coachId: Option<int>, now: nat)
    requires WellFormed(db)
    ensures var r := UpdateBalance(db, sid, amount, note, coachId, now);
      && |r.students| == |db.students|
      && (forall i :: 0 <= i < |db.students| ==>
            && r.students[i].id == db.students[i].id
            && r.students[i].name == db.students[i].name
            && r.students[i].phone == db.students[i].phone
            && r.students[i].balance == db.students[i].balance + (if db.students[i].id == sid then amount else 0))
      && |r.logs| == |db.logs| + 1
      && r.logs[..|db.logs|] == db.logs
      && var row := r.logs[|db.logs|];
      && row.studentId == sid && row.coachId == coachId && row.changeAmount == amount && row.note == note
      && (forall k :: 0 <= k < |db.logs| ==> db.logs[k].id < row.id)
      && r.coaches == db.coaches
      && ((forall i :: 0 <= i < |db.students| ==> db.students[i].id != sid) ==> r.students == db.students)
      && WellFormed(r)
  {
    var r := UpdateBalance(db, sid, amount, note, coachId, now);
    assert StudentIds(r.students) == StudentIds(db.students);
    if forall i :: 0 <= i < |db.students| ==> db.students[i].id != sid {
      assert forall i :: 0 <= i < |db.students| ==> r.students[i] == db.students[i];
    }
  }

  /** update_balance on an existing student keeps the ledger invariant. */
  lemma UpdateBalancePreservesInv(db: Db, sid: int, amount: int, note: string, coachId: Option<int>, now: nat)
    requires Inv(db) && sid in StudentIds(db.students)
    ensures Inv(UpdateBalance(db, sid, amount, note, coachId, now))
  {
    var r := UpdateBalance(db, sid, amount, note, coachId, now);
    var row := LogRow(db.nextLogId, now, sid, coachId, amount, note);
    UpdateBalanceEffect(db, sid, amount, note, coachId, now);
    assert StudentIds(r.students) == StudentIds(db.students);
    forall i | 0 <= i < |r.students|
      ensures r.students[i].balance == LogSum(r.logs, r.students[i].id)
    {
      LogSumAppend(db.logs, row, db.students[i].id);
    }
  }

  /**
   * With distinct ids, after the UPDATE for `sid`, the id of an existing row
   * `s`, looking `sid` up finds `s` with `amount` added to its balance.
   */
  lemma AddToBalanceFind(ss: seq<Student>, sid: int, s: Student, amount: int)
    requires forall a, b :: 0 <= a < b < |ss| ==> ss[a].id != ss[b].id
    requires s in ss && s.id == sid
    ensures FindStudent(AddToBalance(ss, sid, amount), sid) == Some(s.(balance := s.balance + amount))
  {
    var i :| 0 <= i < |ss| && ss[i] == s;
    var r := AddToBalance(ss, sid, amount);
    forall a, b | 0 <= a < b < |r|
      ensures r[a].id != r[b].id
    {
      assert r[a].id == ss[a].id && r[b].id == ss[b].id;
    }
    FindStudentExact(r, i);
    assert r[i] == s.(balance := s.balance + amount);
  }

  /**
   * update_balance is not idempotent: the same call twice leaves two distinct
   * log rows and changes the balance by twice the amount.
   */
  lemma UpdateBalanceTwice(db: Db, sid: int, amount: int, note: string, coachId: Option<int>, now: nat)
    requires WellFormed(db)
    ensures var r := UpdateBalance(UpdateBalance(db, sid, amount, note, coachId, now), sid, amount, note, coachId, now);
      && |r.logs| == |db.logs| + 2
      && r.logs[|db.logs|] != r.logs[|db.logs| + 1]
      && r.logs[|db.logs|].changeAmount == r.logs[|db.logs| + 1].changeAmount == amount
      && (forall i :: 0 <= i < |db.students| && db.students[i].id == sid ==>
            r.students[i].balance == db.students[i].balance + 2 * amount)
  {
    var r1 := UpdateBalance(db, sid, amount, note, coachId, now);
    UpdateBalanceEffect(db, sid, amount, note, coachId, now);
    UpdateBalanceEffect(r1, sid, amount, note, coachId, now);
  }

  /**
   * As written, update_balance accepts an id no student has. Starting from the
   * empty database, a 10-credit update for id 1 leaves a consistent but
   * dangling log row; the next add_student receives id 1 and starts at balance
   * 0 although its log rows sum to 10.
   */
  lemma OrphanRowCorruptsNextStudent()
    ensures var db1 := UpdateBalance(Empty(), 1, 10, "", None, 0);
      var db2 := InsertStudent(db1, "A", "");
      && Consistent(db1) && !Referential(db1)
      && db2.students[0].id == 1
      && db2.students[0].balance == 0
      && LogSum(db2.logs, 1) == 10
      && !Consistent(db2)
  {
    var db1 := UpdateBalance(Empty(), 1, 10, "", None, 0);
    assert db1.logs[0].studentId == 1;
    assert LogSum(db1.logs[1..], 1) == 0;
  }

  /** The outcome of ApplyDelta: the new database and balance, or an unknown student. */
  datatype Applied = Applied(db: Db, newBalance: int) | StudentNotFound

  /**
   * update_balance with the check its FOREIGN KEY intends: an unknown student
   * id is refused and changes nothing.
   */
  function ApplyDelta(db: Db, sid: int, amount: int, note: string, coachId: Option<int>, now: nat): (r: Applied)
    ensures r.StudentNotFound? <==> sid !in StudentIds(db.students)
  {
    match FindStudent(db.students, sid)
    case None => StudentNotFound
    case Some(s) => Applied(UpdateBalance(db, sid, amount, note, coachId, now), s.balance + amount)
  }

  /**
   * ApplyDelta keeps the ledger invariant whatever id it is given, and the
   * balance it reports is the student's new log sum.
   */
  lemma ApplyDeltaPreservesInv(db: Db, sid: int, amount: int, note: string, coachId: Option<int>, now: nat)
    requires Inv(db)
    ensures var r := ApplyDelta(db, sid, amount, note, coachId, now);
      r.Applied? ==> Inv(r.db) && r.newBalance == LogSum(r.db.logs, sid)
  {
    var r := ApplyDelta(db, sid, amount, note, coachId, now);
    if r.Applied? {
      UpdateBalancePreservesInv(db, sid, amount, note, coachId, now);
      var s := FindStudent(db.students, sid).value;
      var i :| 0 <= i < |db.students| && db.students[i] == s;
      LogSumAppend(db.logs, LogRow(db.nextLogId, now, sid, coachId, amount, note), sid);
    }
  }

  /** On the ids the pages offer (those of existing students) ApplyDelta is update_balance. */
  lemma ApplyDeltaAgrees(db: Db, sid: int, amount: int, note: string, coachId: Option<int>, now: nat)
    requires sid in StudentIds(db.students)
    ensures ApplyDelta(db, sid, amount, note, coachId, now).Applied?
    ensures ApplyDelta(db, sid, amount, note, coachId, now).db == UpdateBalance(db, sid, amount, note, coachId, now)
  {
  }
}
