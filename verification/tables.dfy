/**
 * The three tables that init_db creates (students, coaches, logs), as rows of
 * values, and the lookups by id that the history join and the class-deduction
 * page perform on them.
 */
module Tables {

  datatype Option<+T> = None | Some(value: T)

  /** A row of `students`. `balance` is a cached running total of this student's log rows. */
  datatype Student = Student(id: int, name: string, phone: string, balance: int)

  /** A row of `coaches`. */
  datatype Coach = Coach(id: int, name: string, specialty: string)

  /**
   * A row of `logs`. `timestamp` stands for the "YYYY-MM-DD HH:MM:SS" text, whose
   * string order is its time order; `coachId` is NULL (None) for a top-up.
   */
  datatype LogRow = LogRow(id: int, timestamp: nat, studentId: int, coachId: Option<int>,
                           changeAmount: int, note: string)

  /**
   * The whole database: the three tables in insertion (rowid) order and the
   * AUTOINCREMENT counter of each, i.e. the id the next inserted row receives.
   */
  datatype Db = Db(students: seq<Student>, coaches: seq<Coach>, logs: seq<LogRow>,
                   nextStudentId: int, nextCoachId: int, nextLogId: int)

  function StudentIds(ss: seq<Student>): (ids: seq<int>)
    ensures |ids| == |ss| && forall i :: 0 <= i < |ss| ==> ids[i] == ss[i].id
  {
    seq(|ss|, i requires 0 <= i < |ss| => ss[i].id)
  }

  function CoachIds(cs: seq<Coach>): (ids: seq<int>)
    ensures |ids| == |cs| && forall i :: 0 <= i < |cs| ==> ids[i] == cs[i].id
  {
    seq(|cs|, i requires 0 <= i < |cs| => cs[i].id)
  }

  function LogIds(ls: seq<LogRow>): (ids: seq<int>)
    ensures |ids| == |ls| && forall i :: 0 <= i < |ls| ==> ids[i] == ls[i].id
  {
    seq(|ls|, i requires 0 <= i < |ls| => ls[i].id)
  }

  /**
   * The ids of a table under AUTOINCREMENT with no deletions: positive, strictly
   * increasing in insertion order, and all below the counter.
   */
  predicate Allocated(ids: seq<int>, next: int) {
    && 1 <= next
    && (forall i, j :: 0 <= i < j < |ids| ==> ids[i] < ids[j])
    && (forall i :: 0 <= i < |ids| ==> 1 <= ids[i] < next)
  }

  predicate WellFormed(db: Db) {
    && Allocated(StudentIds(db.students), db.nextStudentId)
    && Allocated(CoachIds(db.coaches), db.nextCoachId)
    && Allocated(LogIds(db.logs), db.nextLogId)
  }

  /** The student row `WHERE id = sid`, if there is one (the first, should there be several). */
  function FindStudent(ss: seq<Student>, sid: int): (r: Option<Student>)
    ensures r.Some? ==> r.value in ss && r.value.id == sid
    ensures r.None? <==> forall i :: 0 <= i < |ss| ==> ss[i].id != sid
  {
    if ss == [] then None
    else if ss[0].id == sid then Some(ss[0])
    else FindStudent(ss[1..], sid)
  }

  /** The coach row `WHERE id = cid`, if there is one. */
  function FindCoach(cs: seq<Coach>, cid: int): (r: Option<Coach>)
    ensures r.Some? ==> r.value in cs && r.value.id == cid
    ensures r.None? <==> forall i :: 0 <= i < |cs| ==> cs[i].id != cid
  {
    if cs == [] then None
    else if cs[0].id == cid then Some(cs[0])
    else FindCoach(cs[1..], cid)
  }

  /** With distinct ids, the lookup returns exactly the row carrying that id. */
  lemma {:induction false} FindStudentExact(ss: seq<Student>, i: int)
    requires 0 <= i < |ss|
    requires forall a, b :: 0 <= a < b < |ss| ==> ss[a].id != ss[b].id
    ensures FindStudent(ss, ss[i].id) == Some(ss[i])
  {
    if i > 0 {
      assert ss[0].id != ss[i].id;
      FindStudentExact(ss[1..], i - 1);
    }
  }

  /** With distinct coach ids, the lookup returns exactly the row carrying that id. */
  lemma {:induction false} FindCoachExact(cs: seq<Coach>, i: int)
    requires 0 <= i < |cs|
    requires forall a, b :: 0 <= a < b < |cs| ==> cs[a].id != cs[b].id
    ensures FindCoach(cs, cs[i].id) == Some(cs[i])
  {
    if i > 0 {
      assert cs[0].id != cs[i].id;
      FindCoachExact(cs[1..], i - 1);
    }
  }
}
