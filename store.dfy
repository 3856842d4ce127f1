/** The relational store (src/db.rs): the tables `students`, `questions`,
    `scores` and `grading_sessions` held as maps keyed by their primary keys,
    with the validation helpers, the transactional batch upserts, the
    cross-join matrix completion, the composite-key score upsert, the
    once-only completion mark, the completion count and the student search. */
module Store {
  import opened Common

  datatype QuestionRow = QuestionRow(id: U32, name: string, fullScore: U32, weight: real, comment: string)

  datatype StudentRow = StudentRow(id: string, name: string)

  /** SQLite types column values dynamically: a TEXT column can end up
      holding a REAL. */
  datatype SqlValue = Text(text: string) | RealValue(r: real)

  /** The non-key columns of a `questions` row. */
  datatype QuestionRecord = QuestionRecord(name: string, fullScore: U32, weight: real, comment: SqlValue)

  /** A rejected batch, naming the offending row's id and the reason. */
  datatype DbError = InvalidQuestion(questionId: U32, reason: string) | InvalidStudent(studentId: string, reason: string)

  type StudentTable = map<string, string>
  type QuestionTable = map<U32, QuestionRecord>
  type ScoreTable = map<(string, U32), Option<U32>>
  /** `grading_sessions`: `student_id` is UNIQUE, mapped to `finished_at`. */
  type SessionTable = map<string, nat>

  // ---------------------------------------------------------------------------
  // Validation
  // ---------------------------------------------------------------------------

  /** A question row the store accepts: a non-blank name and a non-negative
      weight (a `u32` full score is never negative). */
  predicate QuestionValid(q: QuestionRow) {
    !IsBlank(q.name) && q.weight >= 0.0
  }

  /** A student row the store accepts: non-blank id and name. */
  predicate StudentValid(s: StudentRow) {
    !IsBlank(s.id) && !IsBlank(s.name)
  }

  /** `validate_question`: `None` when the row is acceptable, else the reason.
      The source tests `name.trim().is_empty()`, which is `IsBlank` by
      `Common.TrimEmptyIffBlank`. */
  function ValidateQuestion(q: QuestionRow): (r: Option<string>)
    ensures r.None? <==> QuestionValid(q)
    ensures IsBlank(q.name) ==> r == Some("question.name is empty")
  {
    if IsBlank(q.name) then Some("question.name is empty")
    else if q.weight < 0.0 then Some("question.weight < 0")
    else None
  }

  /** `validate_student`: the id and the name must not be blank. */
  function ValidateStudent(s: StudentRow): (r: Option<string>)
    ensures r.None? <==> StudentValid(s)
    ensures IsBlank(s.id) ==> r == Some("student.id is empty")
  {
    if IsBlank(s.id) then Some("student.id is empty")
    else if IsBlank(s.name) then Some("student.name is empty")
    else None
  }

  /** The index of the first row of a batch that fails validation. */
  function FirstInvalidStudent(batch: seq<StudentRow>, from: nat): (r: Option<nat>)
    requires from <= |batch|
    ensures r.Some? ==> from <= r.value < |batch| && !StudentValid(batch[r.value])
                        && forall j :: from <= j < r.value ==> StudentValid(batch[j])
    ensures r.None? ==> forall j :: from <= j < |batch| ==> StudentValid(batch[j])
    decreases |batch| - from
  {
    if from == |batch| then None
    else if !StudentValid(batch[from]) then Some(from)
    else FirstInvalidStudent(batch, from + 1)
  }

  function FirstInvalidQuestion(batch: seq<QuestionRow>, from: nat): (r: Option<nat>)
    requires from <= |batch|
    ensures r.Some? ==> from <= r.value < |batch| && !QuestionValid(batch[r.value])
                        && forall j :: from <= j < r.value ==> QuestionValid(batch[j])
    ensures r.None? ==> forall j :: from <= j < |batch| ==> QuestionValid(batch[j])
    decreases |batch| - from
  {
    if from == |batch| then None
    else if !QuestionValid(batch[from]) then Some(from)
    else FirstInvalidQuestion(batch, from + 1)
  }

  /** The error a batch of students is rejected with: the first invalid row. */
  function StudentBatchError(batch: seq<StudentRow>): (e: Option<DbError>)
    ensures e.Some? <==> exists i :: 0 <= i < |batch| && !StudentValid(batch[i])
  {
    match FirstInvalidStudent(batch, 0)
    case Some(i) => Some(InvalidStudent(batch[i].id, ValidateStudent(batch[i]).value))
    case None => None
  }

  lemma FirstInvalidStudentIs(batch: seq<StudentRow>, i: nat)
    requires i < |batch| && !StudentValid(batch[i])
    requires forall j :: 0 <= j < i ==> StudentValid(batch[j])
    ensures FirstInvalidStudent(batch, 0) == Some(i)
  {
  }

  lemma NoInvalidStudent(batch: seq<StudentRow>)
    requires forall j :: 0 <= j < |batch| ==> StudentValid(batch[j])
    ensures FirstInvalidStudent(batch, 0) == None
  {
  }

  /** The error a batch of questions is rejected with: the first invalid row. */
  function QuestionBatchError(batch: seq<QuestionRow>): (e: Option<DbError>)
    ensures e.Some? <==> exists i :: 0 <= i < |batch| && !QuestionValid(batch[i])
  {
    match FirstInvalidQuestion(batch, 0)
    case Some(i) => Some(InvalidQuestion(batch[i].id, ValidateQuestion(batch[i]).value))
    case None => None
  }

  lemma FirstInvalidQuestionIs(batch: seq<QuestionRow>, i: nat)
    requires i < |batch| && !QuestionValid(batch[i])
    requires forall j :: 0 <= j < i ==> QuestionValid(batch[j])
    ensures FirstInvalidQuestion(batch, 0) == Some(i)
  {
  }

  lemma NoInvalidQuestion(batch: seq<QuestionRow>)
    requires forall j :: 0 <= j < |batch| ==> QuestionValid(batch[j])
    ensures FirstInvalidQuestion(batch, 0) == None
  {
  }

  // ---------------------------------------------------------------------------
  // Matrix completion
  // ---------------------------------------------------------------------------

  function CellKeys(sids: set<string>, qids: set<U32>): set<(string, U32)> {
    set s, q | s in sids && q in qids :: (s, q)
  }

  /** `INSERT OR IGNORE INTO scores ... SELECT s.id, q.id, NULL FROM students
      CROSS JOIN questions`: every missing pair gets a NULL cell and no existing
      cell is touched. */
  function CompleteMatrix(scores: ScoreTable, sids: set<string>, qids: set<U32>): (r: ScoreTable)
    ensures forall s, q :: s in sids && q in qids ==> (s, q) in r
    ensures forall k :: k in scores ==> k in r && r[k] == scores[k]
    ensures forall k :: k in r && k !in scores ==> r[k] == None && k.0 in sids && k.1 in qids
  {
    map k | k in scores.Keys + CellKeys(sids, qids) :: if k in scores then scores[k] else None
  }

  /** Completing an already completed matrix changes nothing. */
  lemma CompleteMatrixIdempotent(scores: ScoreTable, sids: set<string>, qids: set<U32>)
    ensures CompleteMatrix(CompleteMatrix(scores, sids, qids), sids, qids) == CompleteMatrix(scores, sids, qids)
  {
    var once := CompleteMatrix(scores, sids, qids);
    var twice := CompleteMatrix(once, sids, qids);
    assert twice.Keys == once.Keys;
  }

  /** The completed matrix has exactly the old cells plus one per missing pair. */
  lemma CompleteMatrixKeys(scores: ScoreTable, sids: set<string>, qids: set<U32>)
    ensures CompleteMatrix(scores, sids, qids).Keys == scores.Keys + CellKeys(sids, qids)
  {
  }

  // ---------------------------------------------------------------------------
  // Batch upserts
  // ---------------------------------------------------------------------------

  /** The index of the last element equal to `k`. */
  function LastIndexOf<K(==)>(keys: seq<K>, k: K): (r: Option<nat>)
    ensures r.Some? ==> r.value < |keys| && keys[r.value] == k
                        && forall j :: r.value < j < |keys| ==> keys[j] != k
    ensures r.None? ==> forall j :: 0 <= j < |keys| ==> keys[j] != k
  {
    if keys == [] then None
    else if keys[|keys| - 1] == k then Some(|keys| - 1)
    else LastIndexOf(keys[..|keys| - 1], k)
  }

  function StudentIds(batch: seq<StudentRow>): (ids: seq<string>)
    ensures |ids| == |batch| && forall i :: 0 <= i < |batch| ==> ids[i] == batch[i].id
  {
    if batch == [] then [] else StudentIds(batch[..|batch| - 1]) + [batch[|batch| - 1].id]
  }

  function QuestionIds(batch: seq<QuestionRow>): (ids: seq<U32>)
    ensures |ids| == |batch| && forall i :: 0 <= i < |batch| ==> ids[i] == batch[i].id
  {
    if batch == [] then [] else QuestionIds(batch[..|batch| - 1]) + [batch[|batch| - 1].id]
  }

  /** The `students` table after `INSERT ... ON CONFLICT(id) DO UPDATE SET
      name = excluded.name` for each row of the batch in turn. */
  function StudentsAfterUpsert(t: StudentTable, batch: seq<StudentRow>): StudentTable {
    if batch == [] then t
    else
      var last := batch[|batch| - 1];
      StudentsAfterUpsert(t, batch[..|batch| - 1])[last.id := last.name]
  }

  /** After the batch, an id carries the name of the last incoming row with that
      id; an id the batch does not mention keeps its old row, and no other id
      appears. */
  lemma {:induction false} StudentsAfterUpsertAt(t: StudentTable, batch: seq<StudentRow>, id: string)
    ensures var after := StudentsAfterUpsert(t, batch);
            match LastIndexOf(StudentIds(batch), id)
            case Some(i) => id in after && after[id] == batch[i].name
            case None => (id in after <==> id in t) && (id in t ==> after[id] == t[id])
  {
    if batch != [] {
      var init := batch[..|batch| - 1];
      assert StudentIds(batch)[..|batch| - 1] == StudentIds(init);
      StudentsAfterUpsertAt(t, init, id);
    }
  }

  /** The record a question row is stored as. */
  function RecordOf(q: QuestionRow): QuestionRecord {
    QuestionRecord(q.name, q.fullScore, q.weight, Text(q.comment))
  }

  /** The upsert of one question as the statement in db.rs is written: on a
      conflict it assigns `comment = excluded.weight`. */
  function UpsertQuestionAsWritten(t: QuestionTable, q: QuestionRow): QuestionTable {
    if q.id in t then t[q.id := QuestionRecord(q.name, q.fullScore, q.weight, RealValue(q.weight))]
    else t[q.id := RecordOf(q)]
  }

  /** As written, re-importing an existing question replaces its comment by
      its weight, whatever comment the row carries. */
  lemma UpsertQuestionAsWrittenLosesComment(t: QuestionTable, q: QuestionRow)
    requires q.id in t
    ensures UpsertQuestionAsWritten(t, q)[q.id].comment == RealValue(q.weight)
    ensures UpsertQuestionAsWritten(t, q)[q.id].comment != Text(q.comment)
  {
  }

  /** The upsert of one question with the evidently intended
      `comment = excluded.comment`: insert and update store the same record. */
  function UpsertQuestion(t: QuestionTable, q: QuestionRow): (r: QuestionTable)
    ensures q.id in r && r[q.id].comment == Text(q.comment)
    ensures r[q.id] == RecordOf(q)
    ensures forall id :: id != q.id ==> (id in r <==> id in t) && (id in t ==> r[id] == t[id])
  {
    t[q.id := RecordOf(q)]
  }

  /** The `questions` table after upserting each row of the batch in turn. */
  function QuestionsAfterUpsert(t: QuestionTable, batch: seq<QuestionRow>): QuestionTable {
    if batch == [] then t
    else UpsertQuestion(QuestionsAfterUpsert(t, batch[..|batch| - 1]), batch[|batch| - 1])
  }

  /** After the batch an id holds the record of the last incoming row with that
      id (its comment included); an id the batch does not mention is unchanged. */
  lemma {:induction false} QuestionsAfterUpsertAt(t: QuestionTable, batch: seq<QuestionRow>, id: U32)
    ensures var after := QuestionsAfterUpsert(t, batch);
            match LastIndexOf(QuestionIds(batch), id)
            case Some(i) => id in after && after[id] == RecordOf(batch[i])
            case None => (id in after <==> id in t) && (id in t ==> after[id] == t[id])
  {
    if batch != [] {
      var init := batch[..|batch| - 1];
      assert QuestionIds(batch)[..|batch| - 1] == QuestionIds(init);
      QuestionsAfterUpsertAt(t, init, id);
    }
  }

  // ---------------------------------------------------------------------------
  // Completion sessions
  // ---------------------------------------------------------------------------

  /** `INSERT INTO grading_sessions(student_id) SELECT ?1 WHERE NOT EXISTS (...)`:
      a row is added only for a student that has none; an existing
      `finished_at` is never overwritten and no other row changes. */
  function MarkOnce(m: SessionTable, sid: string, now: nat): (r: SessionTable)
    ensures sid in r && r[sid] == (if sid in m then m[sid] else now)
    ensures forall k :: k != sid ==> (k in r <==> k in m) && (k in m ==> r[k] == m[k])
  {
    if sid in m then m else m[sid := now]
  }

  /** Marking the same student twice leaves the table as after the first mark:
      exactly one row for that student, with the first timestamp. */
  lemma MarkOnceIdempotent(m: SessionTable, sid: string, t1: nat, t2: nat)
    ensures MarkOnce(MarkOnce(m, sid, t1), sid, t2) == MarkOnce(m, sid, t1)
    ensures |MarkOnce(m, sid, t1)| == if sid in m then |m| else |m| + 1
  {
  }

  // ---------------------------------------------------------------------------
  // LIKE '%q%' and ORDER BY id
  // ---------------------------------------------------------------------------

  /** SQLite's default LIKE folds case for ASCII letters only. */
  function AsciiLower(c: char): char {
    if 'A' <= c <= 'Z' then (c as int + 32) as char else c
  }

  predicate FoldEqual(a: string, b: string) {
    |a| == |b| && forall i :: 0 <= i < |a| ==> AsciiLower(a[i]) == AsciiLower(b[i])
  }

  /** The query carries none of LIKE's special characters (`%`, `_`, and the
      escape character `\`), so `%q%` is a plain substring pattern. */
  predicate NoLikeWildcards(q: string) {
    forall i :: 0 <= i < |q| ==> q[i] != '%' && q[i] != '_' && q[i] != '\\'
  }

  /** `text LIKE '%q%'` for a query without wildcards. */
  predicate LikeContains(text: string, q: string) {
    exists i :: 0 <= i <= |text| - |q| && MatchesAt(text, q, i)
  }

  /** The pattern occurs, up to ASCII case, at offset `i` of `text`. */
  predicate MatchesAt(text: string, q: string, i: int) {
    0 <= i <= |text| - |q| && FoldEqual(text[i..i + |q|], q)
  }

  /** The WHERE clause of `search_students`. */
  predicate Matches(id: string, name: string, q: string) {
    LikeContains(id, q) || LikeContains(name, q)
  }

  /** The ids of the rows the WHERE clause selects. */
  function MatchingIds(table: StudentTable, q: string): (ids: set<string>)
    ensures ids <= table.Keys
  {
    set id | id in table && Matches(id, table[id], q)
  }

  /** SQLite's BINARY collation: lexicographic order of code points. */
  predicate StrLt(a: string, b: string) {
    if a == [] then b != []
    else if b == [] then false
    else a[0] < b[0] || (a[0] == b[0] && StrLt(a[1..], b[1..]))
  }

  lemma {:induction false} StrLtIrreflexive(a: string)
    ensures !StrLt(a, a)
  {
    if a != [] {
      StrLtIrreflexive(a[1..]);
    }
  }

  lemma {:induction false} StrLtTransitive(a: string, b: string, c: string)
    requires StrLt(a, b) && StrLt(b, c)
    ensures StrLt(a, c)
  {
    if a != [] && b != [] && c != [] && a[0] == b[0] && b[0] == c[0] {
      StrLtTransitive(a[1..], b[1..], c[1..]);
    }
  }

  lemma {:induction false} StrLtTotal(a: string, b: string)
    requires a != b
    ensures StrLt(a, b) || StrLt(b, a)
  {
    if a != [] && b != [] && a[0] == b[0] {
      assert a == [a[0]] + a[1..] && b == [b[0]] + b[1..];
      StrLtTotal(a[1..], b[1..]);
    }
  }

  predicate RowsHaveId(rows: seq<StudentRow>, id: string) {
    exists i :: 0 <= i < |rows| && rows[i].id == id
  }

  /** What `SELECT id, name FROM students WHERE id LIKE '%q%' OR name LIKE
      '%q%' ORDER BY id LIMIT limit` returns: matching rows of the table in
      ascending id order, at most `limit` of them, and no matching row is
      skipped unless the limit was reached before its id. */
  ghost predicate IsSearchResult(table: StudentTable, q: string, limit: nat, rows: seq<StudentRow>) {
    && |rows| <= limit
    && (forall i :: 0 <= i < |rows| ==>
          rows[i].id in MatchingIds(table, q) && table[rows[i].id] == rows[i].name)
    && (forall i, j :: 0 <= i < j < |rows| ==> StrLt(rows[i].id, rows[j].id))
    && (forall id :: id in MatchingIds(table, q) && !RowsHaveId(rows, id) ==>
          |rows| == limit && (limit > 0 ==> StrLt(rows[limit - 1].id, id)))
  }

  /** The least id of a non-empty set, in BINARY collation. */
  method MinId(s: set<string>) returns (m: string)
    requires s != {}
    ensures m in s
    ensures forall x :: x in s ==> x == m || StrLt(m, x)
  {
    m :| m in s;
    var rest := s - {m};
    while rest != {}
      invariant rest <= s && m in s && m !in rest
      invariant forall x :: x in s && x !in rest ==> x == m || StrLt(m, x)
      decreases |rest|
    {
      var x :| x in rest;
      if StrLt(x, m) {
        forall y | y in s && y !in rest && y != m
          ensures StrLt(x, y)
        {
          StrLtTransitive(x, m, y);
        }
        m := x;
      } else {
        StrLtTotal(x, m);
      }
      rest := rest - {x};
    }
  }

  // ---------------------------------------------------------------------------
  // The database
  // ---------------------------------------------------------------------------

  class Db {
    var students: StudentTable
    var questions: QuestionTable
    var scores: ScoreTable
    var sessions: SessionTable

    /** Matrix completeness: every (student, question) pair has a score cell. */
    ghost predicate Complete()
      reads this
    {
      forall s, q :: s in students && q in questions ==> (s, q) in scores
    }

    /** A freshly migrated database: all four tables empty. */
    constructor ()
      ensures students == map[] && questions == map[] && scores == map[] && sessions == map[]
      ensures Complete()
    {
      students, questions, scores, sessions := map[], map[], map[], map[];
    }

    /** `rebuild_score_matrix`. */
    method RebuildScoreMatrix()
      modifies this
      ensures scores == CompleteMatrix(old(scores), students.Keys, questions.Keys)
      ensures students == old(students) && questions == old(questions) && sessions == old(sessions)
      ensures Complete()
    {
      scores := CompleteMatrix(scores, students.Keys, questions.Keys);
    }

    /** `upsert_students`: validates and upserts row by row inside one
        transaction, then completes the matrix and commits. A row that fails
        validation drops the transaction, so nothing at all is written. */
    method UpsertStudents(batch: seq<StudentRow>) returns (r: Result<nat, DbError>)
      modifies this
      ensures r.Err? <==> StudentBatchError(batch).Some?
      ensures r.Err? ==> r.error == StudentBatchError(batch).value
      ensures r.Err? ==> students == old(students) && questions == old(questions)
                         && scores == old(scores) && sessions == old(sessions)
      ensures r.Ok? ==> r.value == |batch| && students == StudentsAfterUpsert(old(students), batch)
                        && questions == old(questions) && sessions == old(sessions)
                        && scores == CompleteMatrix(old(scores), students.Keys, questions.Keys)
      ensures r.Ok? ==> Complete()
    {
      var table := students;
      var affected := 0;
      var i := 0;
      while i < |batch|
        invariant 0 <= i <= |batch|
        invariant table == StudentsAfterUpsert(students, batch[..i])
        invariant affected == i
        invariant forall j :: 0 <= j < i ==> StudentValid(batch[j])
      {
        var invalid := ValidateStudent(batch[i]);
        if invalid.Some? {
          FirstInvalidStudentIs(batch, i);
          return Err(InvalidStudent(batch[i].id, invalid.value));
        }
        assert StudentValid(batch[i]);
        assert batch[..i + 1][..i] == batch[..i];
        table := table[batch[i].id := batch[i].name];
        affected := affected + 1;
        i := i + 1;
      }
      assert batch[..i] == batch;
      NoInvalidStudent(batch);
      students := table;
      scores := CompleteMatrix(scores, students.Keys, questions.Keys);
      r := Ok(affected);
    }

    /** `upsert_questions`, with each row stored by `UpsertQuestion`;
        all-or-nothing like `UpsertStudents`. */
    method UpsertQuestions(batch: seq<QuestionRow>) returns (r: Result<nat, DbError>)
      modifies this
      ensures r.Err? <==> QuestionBatchError(batch).Some?
      ensures r.Err? ==> r.error == QuestionBatchError(batch).value
      ensures r.Err? ==> students == old(students) && questions == old(questions)
                         && scores == old(scores) && sessions == old(sessions)
      ensures r.Ok? ==> r.value == |batch| && questions == QuestionsAfterUpsert(old(questions), batch)
                        && students == old(students) && sessions == old(sessions)
                        && scores == CompleteMatrix(old(scores), students.Keys, questions.Keys)
      ensures r.Ok? ==> Complete()
    {
      var table := questions;
      var affected := 0;
      var i := 0;
      while i < |batch|
        invariant 0 <= i <= |batch|
        invariant table == QuestionsAfterUpsert(questions, batch[..i])
        invariant affected == i
        invariant forall j :: 0 <= j < i ==> QuestionValid(batch[j])
      {
        var invalid := ValidateQuestion(batch[i]);
        if invalid.Some? {
          FirstInvalidQuestionIs(batch, i);
          return Err(InvalidQuestion(batch[i].id, invalid.value));
        }
        assert QuestionValid(batch[i]);
        assert batch[..i + 1][..i] == batch[..i];
        table := UpsertQuestion(table, batch[i]);
        affected := affected + 1;
        i := i + 1;
      }
      assert batch[..i] == batch;
      NoInvalidQuestion(batch);
      questions := table;
      scores := CompleteMatrix(scores, students.Keys, questions.Keys);
      r := Ok(affected);
    }

    /** `set_score`: upsert keyed by (student_id, question_id); only that cell
        changes. */
    method SetScore(sid: string, qid: U32, score: Option<U32>)
      modifies this
      ensures scores == old(scores)[(sid, qid) := score]
      ensures students == old(students) && questions == old(questions) && sessions == old(sessions)
    {
      scores := scores[(sid, qid) := score];
    }

    /** `mark_completed_once`, with the clock's reading as `now`. */
    method MarkCompletedOnce(sid: string, now: nat)
      modifies this
      ensures sessions == MarkOnce(old(sessions), sid, now)
      ensures students == old(students) && questions == old(questions) && scores == old(scores)
    {
      if sid !in sessions {
        sessions := sessions[sid := now];
      }
    }

    /** The students for whom no question has a missing or NULL score cell. */
    function CompletedStudents(): (done: set<string>)
      reads this
      ensures done <= students.Keys
      ensures forall s :: s in done <==>
        s in students && forall q :: q in questions ==> (s, q) in scores && scores[(s, q)].Some?
    {
      set s | s in students && forall q :: q in questions ==> (s, q) in scores && scores[(s, q)].Some?
    }

    /** `count_completed_students`: never more than the students, and every
        student counts when there is no question. */
    function CountCompletedStudents(): (n: nat)
      reads this
      ensures n == |CompletedStudents()|
      ensures n <= |students|
      ensures |questions| == 0 ==> n == |students|
    {
      var done := CompletedStudents();
      assert |questions| == 0 ==> done == students.Keys;
      CardinalityOfSubset(done, students.Keys);
      |done|
    }

    /** `count_total_students`. */
    function CountTotalStudents(): (n: nat)
      reads this
      ensures n == |students.Keys|
    {
      |students|
    }

    /** `search_students` for a query without LIKE wildcards. */
    method SearchStudents(q: string, limit: U32) returns (rows: seq<StudentRow>)
      requires NoLikeWildcards(q)
      ensures IsSearchResult(students, q, limit, rows)
    {
      var pending := MatchingIds(students, q);
      rows := [];
      while |rows| < limit && pending != {}
        invariant SearchProgress(students, q, limit, pending, rows)
        decreases limit - |rows|
      {
        var m := MinId(pending);
        SearchProgressStep(students, q, limit, pending, rows, m);
        rows := rows + [StudentRow(m, students[m])];
        pending := pending - {m};
      }
      SearchProgressDone(students, q, limit, pending, rows);
    }
  }

  /** The loop invariant of `SearchStudents`: `rows` holds matching rows in
      ascending id order, `pending` the matching ids not fetched yet, all
      above the last fetched one. */
  ghost predicate SearchProgress(table: StudentTable, q: string, limit: nat, pending: set<string>,
                                 rows: seq<StudentRow>) {
    var matching := MatchingIds(table, q);
    && |rows| <= limit
    && pending <= matching
    && (forall id :: id in matching ==> (id in pending <==> !RowsHaveId(rows, id)))
    && (forall i :: 0 <= i < |rows| ==> rows[i].id in matching && table[rows[i].id] == rows[i].name)
    && (forall i, j :: 0 <= i < j < |rows| ==> StrLt(rows[i].id, rows[j].id))
    && (forall id :: id in pending && |rows| > 0 ==> StrLt(rows[|rows| - 1].id, id))
  }

  /** Fetching the least pending id keeps the invariant. */
  lemma SearchProgressStep(table: StudentTable, q: string, limit: nat, pending: set<string>,
                           rows: seq<StudentRow>, m: string)
    requires SearchProgress(table, q, limit, pending, rows) && |rows| < limit
    requires m in pending && forall x :: x in pending ==> x == m || StrLt(m, x)
    ensures SearchProgress(table, q, limit, pending - {m}, rows + [StudentRow(m, table[m])])
  {
    var row := StudentRow(m, table[m]);
    StepKeepsOrder(rows, pending, row);
    StepKeepsCoverage(MatchingIds(table, q), pending, rows, row);
  }

  lemma StepKeepsOrder(rows: seq<StudentRow>, pending: set<string>, row: StudentRow)
    requires forall i, j :: 0 <= i < j < |rows| ==> StrLt(rows[i].id, rows[j].id)
    requires forall id :: id in pending && |rows| > 0 ==> StrLt(rows[|rows| - 1].id, id)
    requires row.id in pending && forall x :: x in pending ==> x == row.id || StrLt(row.id, x)
    ensures var next := rows + [row];
      forall i, j :: 0 <= i < j < |next| ==> StrLt(next[i].id, next[j].id)
    ensures forall id :: id in pending - {row.id} ==> StrLt(row.id, id)
  {
    forall i | 0 <= i < |rows| - 1
      ensures StrLt(rows[i].id, row.id)
    {
      StrLtTransitive(rows[i].id, rows[|rows| - 1].id, row.id);
    }
  }

  lemma StepKeepsCoverage(matching: set<string>, pending: set<string>, rows: seq<StudentRow>, row: StudentRow)
    requires forall id :: id in matching ==> (id in pending <==> !RowsHaveId(rows, id))
    requires row.id in pending
    ensures forall id :: id in matching ==> (id in pending - {row.id} <==> !RowsHaveId(rows + [row], id))
  {
    forall id
      ensures RowsHaveId(rows + [row], id) <==> RowsHaveId(rows, id) || id == row.id
    {
      RowsHaveIdAppend(rows, row, id);
    }
  }

  /** When the limit is reached or nothing is pending, the rows are the
      search result. */
  lemma SearchProgressDone(table: StudentTable, q: string, limit: nat, pending: set<string>,
                           rows: seq<StudentRow>)
    requires SearchProgress(table, q, limit, pending, rows)
    requires |rows| == limit || pending == {}
    ensures IsSearchResult(table, q, limit, rows)
  {
  }

  lemma {:induction false} CardinalityOfSubset<T>(a: set<T>, b: set<T>)
    requires a <= b
    ensures |a| <= |b|
  {
    if a != {} {
      var x :| x in a;
      CardinalityOfSubset(a - {x}, b - {x});
    }
  }

  lemma RowsHaveIdAppend(rows: seq<StudentRow>, row: StudentRow, id: string)
    ensures RowsHaveId(rows + [row], id) <==> RowsHaveId(rows, id) || id == row.id
  {
    var next := rows + [row];
    if RowsHaveId(next, id) {
      var i :| 0 <= i < |next| && next[i].id == id;
      if i < |rows| { assert rows[i].id == id; }
    }
    if RowsHaveId(rows, id) {
      var i :| 0 <= i < |rows| && rows[i].id == id;
      assert next[i].id == id;
    }
    if id == row.id { assert next[|rows|].id == id; }
  }

  /** The first row of a search result has the least matching id. */
  lemma SearchHeadIsLeast(table: StudentTable, q: string, limit: nat, r: seq<StudentRow>, id: string)
    requires IsSearchResult(table, q, limit, r) && r != []
    requires id in MatchingIds(table, q)
    ensures r[0].id == id || StrLt(r[0].id, id)
  {
    if !RowsHaveId(r, id) {
      if limit - 1 > 0 {
        StrLtTransitive(r[0].id, r[limit - 1].id, id);
      }
    }
  }

  /** When one search result is non-empty, so is any other for the same
      arguments. */
  lemma SearchNonEmpty(table: StudentTable, q: string, limit: nat, r1: seq<StudentRow>, r2: seq<StudentRow>)
    requires IsSearchResult(table, q, limit, r1) && IsSearchResult(table, q, limit, r2)
    requires r1 != []
    ensures r2 != []
  {
    var id := r1[0].id;
    assert id in MatchingIds(table, q);
    if !RowsHaveId(r2, id) {
      assert |r2| == limit;
    }
  }

  lemma SameHeadSameTail(r1: seq<StudentRow>, r2: seq<StudentRow>)
    requires r1 != [] && r2 != [] && r1[0] == r2[0] && r1[1..] == r2[1..]
    ensures r1 == r2
  {
    assert r1 == [r1[0]] + r1[1..] && r2 == [r2[0]] + r2[1..];
  }

  /** When either of two search results is empty, so is the other. */
  lemma SearchEmptyAgree(table: StudentTable, q: string, limit: nat, r1: seq<StudentRow>, r2: seq<StudentRow>)
    requires IsSearchResult(table, q, limit, r1) && IsSearchResult(table, q, limit, r2)
    requires r1 == [] || r2 == []
    ensures r1 == r2
  {
    if r1 != [] {
      SearchNonEmpty(table, q, limit, r1, r2);
    } else if r2 != [] {
      SearchNonEmpty(table, q, limit, r2, r1);
    }
  }

  /** Two search results for the same table, query and limit start with the
      same row. */
  lemma SearchHeadsAgree(table: StudentTable, q: string, limit: nat, r1: seq<StudentRow>, r2: seq<StudentRow>)
    requires IsSearchResult(table, q, limit, r1) && IsSearchResult(table, q, limit, r2)
    requires r1 != [] && r2 != []
    ensures r1[0] == r2[0]
  {
    var a, b := r1[0].id, r2[0].id;
    if a != b {
      SearchHeadIsLeast(table, q, limit, r1, b);
      SearchHeadIsLeast(table, q, limit, r2, a);
      StrLtTransitive(a, b, a);
      StrLtIrreflexive(a);
      assert false;
    }
  }

  /** The ordered search result is determined by the table, the query and the
      limit. */
  lemma {:induction false} SearchResultUnique(table: StudentTable, q: string, limit: nat,
                                              r1: seq<StudentRow>, r2: seq<StudentRow>)
    requires IsSearchResult(table, q, limit, r1) && IsSearchResult(table, q, limit, r2)
    ensures r1 == r2
    decreases |r1|, 2
  {
    if r1 == [] || r2 == [] {
      SearchEmptyAgree(table, q, limit, r1, r2);
    } else {
      SearchConsAgree(table, q, limit, r1, r2);
    }
  }

  /** Two non-empty search results agree: same head, and tails that are
      search results over the table without it. */
  lemma {:induction false} SearchConsAgree(table: StudentTable, q: string, limit: nat,
                                           r1: seq<StudentRow>, r2: seq<StudentRow>)
    requires IsSearchResult(table, q, limit, r1) && IsSearchResult(table, q, limit, r2)
    requires r1 != [] && r2 != []
    ensures r1 == r2
    decreases |r1|, 1
  {
    var t := table - {r1[0].id};
    SearchSplit(table, q, limit, r1, r2, t);
    SearchTailsAgree(t, q, limit - 1, r1, r2);
  }

  /** The tails of two search results over `t` agree, and so, with equal
      heads, do the results. */
  lemma {:induction false} SearchTailsAgree(t: StudentTable, q: string, limit: nat,
                                            r1: seq<StudentRow>, r2: seq<StudentRow>)
    requires r1 != [] && r2 != [] && r1[0] == r2[0]
    requires IsSearchResult(t, q, limit, r1[1..]) && IsSearchResult(t, q, limit, r2[1..])
    ensures r1 == r2
    decreases |r1|, 0
  {
    SearchResultUnique(t, q, limit, r1[1..], r2[1..]);
    SameHeadSameTail(r1, r2);
  }


  /** Two non-empty search results share their head, and their tails are
      search results over the table without it. */
  lemma SearchSplit(table: StudentTable, q: string, limit: nat, r1: seq<StudentRow>, r2: seq<StudentRow>,
                    t: StudentTable)
    requires IsSearchResult(table, q, limit, r1) && IsSearchResult(table, q, limit, r2)
    requires r1 != [] && r2 != [] && t == table - {r1[0].id}
    ensures r1[0] == r2[0]
    ensures IsSearchResult(t, q, limit - 1, r1[1..]) && IsSearchResult(t, q, limit - 1, r2[1..])
  {
    SearchHeadsAgree(table, q, limit, r1, r2);
    SearchTail(table, q, limit, r1, t);
    SearchTail(table, q, limit, r2, t);
  }

  /** Dropping the first row of a search result gives the search result over
      the table without that row's id, with one less to fetch. */
  lemma SearchTail(table: StudentTable, q: string, limit: nat, r: seq<StudentRow>, t: StudentTable)
    requires IsSearchResult(table, q, limit, r) && r != []
    requires t == table - {r[0].id}
    ensures IsSearchResult(t, q, limit - 1, r[1..])
  {
    var r' := r[1..];
    forall i | 0 <= i < |r'| ensures r'[i].id != r[0].id {
      StrLtIrreflexive(r[0].id);
    }
    assert MatchingIds(t, q) == MatchingIds(table, q) - {r[0].id};
    forall id | id in MatchingIds(t, q) && !RowsHaveId(r', id)
      ensures |r'| == limit - 1 && (limit - 1 > 0 ==> StrLt(r'[limit - 2].id, id))
    {
      forall i | 0 <= i < |r| ensures r[i].id != id {
        if i > 0 { assert r[i] == r'[i - 1]; }
      }
    }
  }
}
