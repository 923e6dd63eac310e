/**
 * The history page: every log row LEFT JOINed with the name of its student
 * and of its coach, ordered by timestamp, most recent first.
 */
module History {
  import opened Tables

  /** One row of the history table: time, student name, coach name, change, note. */
  datatype HistoryRow = HistoryRow(timestamp: nat, student: Option<string>, coach: Option<string>,
                                   change: int, note: string)

  /** `LEFT JOIN students ON logs.student_id = students.id`: the name, or NULL when no student matches. */
  function StudentName(ss: seq<Student>, sid: int): (r: Option<string>)
    ensures r.None? <==> forall i :: 0 <= i < |ss| ==> ss[i].id != sid
    ensures r.Some? ==> exists i :: 0 <= i < |ss| && ss[i].id == sid && ss[i].name == r.value
  {
    match FindStudent(ss, sid)
    case None => None
    case Some(s) => Some(s.name)
  }

  /**
   * `LEFT JOIN coaches ON logs.coach_id = coaches.id`: NULL when the row has no
   * coach or when no coach has that id.
   */
  function CoachName(cs: seq<Coach>, cid: Option<int>): (r: Option<string>)
    ensures r.None? <==> cid.None? || forall i :: 0 <= i < |cs| ==> cs[i].id != cid.value
    ensures r.Some? ==> exists i :: 0 <= i < |cs| && cs[i].id == cid.value && cs[i].name == r.value
  {
    match cid
    case None => None
    case Some(c) =>
      match FindCoach(cs, c)
      case None => None
      case Some(coach) => Some(coach.name)
  }

  function Join(db: Db, l: LogRow): HistoryRow {
    HistoryRow(l.timestamp, StudentName(db.students, l.studentId), CoachName(db.coaches, l.coachId),
               l.changeAmount, l.note)
  }

  /** The joined rows, in log order. */
  function JoinAll(db: Db, logs: seq<LogRow>): (r: seq<HistoryRow>)
    ensures |r| == |logs|
    ensures forall k :: 0 <= k < |logs| ==> r[k] == Join(db, logs[k])
  {
    if logs == [] then [] else [Join(db, logs[0])] + JoinAll(db, logs[1..])
  }

  /** `ORDER BY timestamp DESC`: each row at least as recent as every row after it. */
  predicate Descending(rows: seq<HistoryRow>) {
    forall i, j :: 0 <= i < j < |rows| ==> rows[i].timestamp >= rows[j].timestamp
  }

  /** Places `x` into rows already in descending order. */
  function InsertDescending(x: HistoryRow, rows: seq<HistoryRow>): (r: seq<HistoryRow>)
    requires Descending(rows)
    ensures |r| == |rows| + 1
    ensures r[0] == x || (rows != [] && r[0] == rows[0])
    ensures Descending(r)
    ensures multiset(r) == multiset(rows) + multiset{x}
  {
    if rows == [] || x.timestamp >= rows[0].timestamp then
      [x] + rows
    else
      var rest := InsertDescending(x, rows[1..]);
      assert rows == [rows[0]] + rows[1..];
      assert rest[0].timestamp <= rows[0].timestamp;
      [rows[0]] + rest
  }

  /** Sorts rows by timestamp, most recent first; the order among equal timestamps is not specified. */
  function SortDescending(rows: seq<HistoryRow>): (r: seq<HistoryRow>)
    ensures Descending(r)
    ensures multiset(r) == multiset(rows)
  {
    if rows == [] then []
    else
      assert rows == [rows[0]] + rows[1..];
      InsertDescending(rows[0], SortDescending(rows[1..]))
  }

  /**
   * The history query: one joined row for every log row, each exactly as often
   * as it occurs among the log's joined rows, most recent first.
   */
  function History(db: Db): (r: seq<HistoryRow>)
    ensures |r| == |db.logs|
    ensures Descending(r)
    ensures multiset(r) == multiset(JoinAll(db, db.logs))
  {
    var joined := JoinAll(db, db.logs);
    assert |multiset(joined)| == |joined|;
    SortDescending(joined)
  }

  /** Every log row shows up in the history, and every history row comes from a log row. */
  lemma HistoryMatchesLog(db: Db)
    ensures forall k :: 0 <= k < |db.logs| ==> Join(db, db.logs[k]) in History(db)
    ensures forall h :: h in History(db) ==> exists k :: 0 <= k < |db.logs| && h == Join(db, db.logs[k])
  {
    var joined := JoinAll(db, db.logs);
    forall k | 0 <= k < |db.logs|
      ensures Join(db, db.logs[k]) in History(db)
    {
      assert joined[k] in multiset(joined);
    }
    forall h | h in History(db)
      ensures exists k :: 0 <= k < |db.logs| && h == Join(db, db.logs[k])
    {
      assert h in multiset(History(db));
      var k :| 0 <= k < |joined| && joined[k] == h;
    }
  }

  /**
   * With well-formed (ascending) student and coach ids, a log row of an
   * existing student shows that student's name, and a row whose coach exists
   * shows the coach's name.
   */
  lemma JoinShowsNames(db: Db, l: LogRow, i: int)
    requires WellFormed(db)
    requires 0 <= i < |db.students| && db.students[i].id == l.studentId
    ensures Join(db, l).student == Some(db.students[i].name)
    ensures forall j :: 0 <= j < |db.coaches| && l.coachId == Some(db.coaches[j].id) ==>
      Join(db, l).coach == Some(db.coaches[j].name)
  {
    FindStudentExact(db.students, i);
    forall j | 0 <= j < |db.coaches| && l.coachId == Some(db.coaches[j].id)
      ensures Join(db, l).coach == Some(db.coaches[j].name)
    {
      FindCoachExact(db.coaches, j);
    }
  }
}
