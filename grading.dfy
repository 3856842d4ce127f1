/** The grading page (src/ui/grading.rs): the weighted final score, the
    completion test, the two coercions of a typed score (one for the database
    write, one for the results-table cache), student navigation with its
    completion mark, and the focus and hotkey handlers. */
module Grading {
  import opened Common
  import opened Store
  import opened Models
  import ScoreRow

  function Min(a: int, b: int): int {
    if a <= b then a else b
  }

  // ---------------------------------------------------------------------------
  // calc_final
  // ---------------------------------------------------------------------------

  /** One question's share of the numerator: a missing score counts as 0 and a
      full score of 0 as 1. */
  function Term(q: QuestionRow, s: Option<int>): real {
    var full := if q.fullScore < 1 then 1 else q.fullScore;
    (s.GetOr(0) as real / full as real) * q.weight
  }

  /** The numerator over the first `n` zipped pairs; questions whose weight is
      not positive are skipped. */
  function Num(qs: seq<QuestionRow>, ss: seq<Option<int>>, n: nat): real
    requires n <= |qs| && n <= |ss|
  {
    if n == 0 then 0.0
    else Num(qs, ss, n - 1) + (if qs[n - 1].weight <= 0.0 then 0.0 else Term(qs[n - 1], ss[n - 1]))
  }

  /** The denominator: the sum of the positive weights among the first `n`. */
  function Den(qs: seq<QuestionRow>, n: nat): real
    requires n <= |qs|
  {
    if n == 0 then 0.0
    else Den(qs, n - 1) + (if qs[n - 1].weight <= 0.0 then 0.0 else qs[n - 1].weight)
  }

  /** `calc_final`: Σ(score / full × weight) / Σ(weight) × 100 over the questions
      zipped with the scores, undefined without questions or without positive
      weight. */
  function FinalScore(qs: seq<QuestionRow>, ss: seq<Option<int>>): Option<real> {
    if |qs| == 0 then None
    else
      var n := Min(|qs|, |ss|);
      if Den(qs, n) == 0.0 then None else Some(Num(qs, ss, n) / Den(qs, n) * 100.0)
  }

  /** The loop of `calc_final`. */
  method CalcFinal(qs: seq<QuestionRow>, ss: seq<Option<int>>) returns (r: Option<real>)
    ensures r == FinalScore(qs, ss)
  {
    if |qs| == 0 {
      return None;
    }
    var num, den := 0.0, 0.0;
    var n := Min(|qs|, |ss|);
    var i := 0;
    while i < n
      invariant 0 <= i <= n
      invariant num == Num(qs, ss, i) && den == Den(qs, i)
    {
      if qs[i].weight <= 0.0 {
        i := i + 1;
        continue;
      }
      den := den + qs[i].weight;
      var sc := ss[i].GetOr(0) as real;
      var full := (if qs[i].fullScore < 1 then 1 else qs[i].fullScore) as real;
      num := num + (sc / full) * qs[i].weight;
      i := i + 1;
    }
    if den == 0.0 {
      r := None;
    } else {
      r := Some(num / den * 100.0);
    }
  }

  /** The denominator is never negative, and it is positive exactly when some
      counted question has positive weight. */
  lemma {:induction false} DenPositiveIff(qs: seq<QuestionRow>, n: nat)
    requires n <= |qs|
    ensures Den(qs, n) >= 0.0
    ensures Den(qs, n) > 0.0 <==> exists i :: 0 <= i < n && qs[i].weight > 0.0
  {
    if n > 0 {
      DenPositiveIff(qs, n - 1);
    }
  }

  /** `calc_final` is `None` exactly when there is no question or no zipped
      question has positive weight. */
  lemma FinalScoreNoneIff(qs: seq<QuestionRow>, ss: seq<Option<int>>)
    ensures FinalScore(qs, ss).None? <==>
      |qs| == 0 || forall i :: 0 <= i < Min(|qs|, |ss|) ==> qs[i].weight <= 0.0
  {
    DenPositiveIff(qs, Min(|qs|, |ss|));
  }

  /** A score that is absent or within 0..full. */
  predicate ScoreInRange(s: Option<int>, full: int) {
    s.None? || 0 <= s.value <= full
  }

  lemma TermBounds(q: QuestionRow, s: Option<int>)
    requires q.weight > 0.0 && ScoreInRange(s, q.fullScore)
    ensures 0.0 <= Term(q, s) <= q.weight
  {
    var f := (if q.fullScore < 1 then 1 else q.fullScore) as real;
    var sc := s.GetOr(0) as real;
    assert 0.0 <= sc <= f;
    var ratio := sc / f;
    RatioInUnit(sc, f, ratio);
    ScaledAtMost(ratio, q.weight);
    assert Term(q, s) == ratio * q.weight;
  }

  lemma {:induction false} NumBounds(qs: seq<QuestionRow>, ss: seq<Option<int>>, n: nat)
    requires n <= |qs| && n <= |ss|
    requires forall i :: 0 <= i < n ==> ScoreInRange(ss[i], qs[i].fullScore)
    ensures 0.0 <= Num(qs, ss, n) <= Den(qs, n)
  {
    if n > 0 {
      NumBounds(qs, ss, n - 1);
      if qs[n - 1].weight > 0.0 {
        TermBounds(qs[n - 1], ss[n - 1]);
      }
    }
  }

  /** With every score within its question's range, a defined final score is
      a percentage in 0..100. */
  lemma FinalScoreBounds(qs: seq<QuestionRow>, ss: seq<Option<int>>)
    requires forall i :: 0 <= i < Min(|qs|, |ss|) ==> ScoreInRange(ss[i], qs[i].fullScore)
    ensures FinalScore(qs, ss).Some? ==> 0.0 <= FinalScore(qs, ss).value <= 100.0
  {
    if |qs| > 0 {
      var n := Min(|qs|, |ss|);
      NumBounds(qs, ss, n);
      DenPositiveIff(qs, n);
      var num, den := Num(qs, ss, n), Den(qs, n);
      if den != 0.0 {
        var ratio := num / den;
        assert ratio * den == num;
        assert 0.0 <= ratio <= 1.0;
      }
    }
  }

  /** Two inputs with the same weights and the same counted terms have the
      same numerator and denominator. */
  lemma {:induction false} SumsCongruent(qs1: seq<QuestionRow>, ss1: seq<Option<int>>,
                                         qs2: seq<QuestionRow>, ss2: seq<Option<int>>, n: nat)
    requires n <= |qs1| && n <= |ss1| && n <= |qs2| && n <= |ss2|
    requires forall i :: 0 <= i < n ==> qs1[i].weight == qs2[i].weight
    requires forall i :: 0 <= i < n && qs1[i].weight > 0.0 ==> Term(qs1[i], ss1[i]) == Term(qs2[i], ss2[i])
    ensures Num(qs1, ss1, n) == Num(qs2, ss2, n) && Den(qs1, n) == Den(qs2, n)
  {
    if n > 0 {
      SumsCongruent(qs1, ss1, qs2, ss2, n - 1);
    }
  }

  /** The score of a question whose weight is not positive does not affect the
      final score, nor does its full score. */
  lemma UnweightedQuestionIgnored(qs: seq<QuestionRow>, ss: seq<Option<int>>, k: nat, v: Option<int>, full: U32)
    requires k < |qs| && k < |ss| && qs[k].weight <= 0.0
    ensures FinalScore(qs, ss[k := v]) == FinalScore(qs, ss)
    ensures FinalScore(qs[k := qs[k].(fullScore := full)], ss) == FinalScore(qs, ss)
  {
    var n := Min(|qs|, |ss|);
    SumsCongruent(qs, ss[k := v], qs, ss, n);
    SumsCongruent(qs[k := qs[k].(fullScore := full)], ss, qs, ss, n);
  }

  /** A missing score counts as 0. */
  lemma MissingScoreCountsAsZero(qs: seq<QuestionRow>, ss: seq<Option<int>>, k: nat)
    requires k < |ss|
    ensures FinalScore(qs, ss[k := None]) == FinalScore(qs, ss[k := Some(0)])
  {
    var n := Min(|qs|, |ss|);
    SumsCongruent(qs, ss[k := None], qs, ss[k := Some(0)], n);
  }

  /** A full score of 0 is treated as 1. */
  lemma ZeroFullScoreCountsAsOne(qs: seq<QuestionRow>, ss: seq<Option<int>>, k: nat)
    requires k < |qs|
    ensures FinalScore(qs[k := qs[k].(fullScore := 0)], ss) == FinalScore(qs[k := qs[k].(fullScore := 1)], ss)
  {
    var n := Min(|qs|, |ss|);
    SumsCongruent(qs[k := qs[k].(fullScore := 0)], ss, qs[k := qs[k].(fullScore := 1)], ss, n);
  }

  // ---------------------------------------------------------------------------
  // is_student_done
  // ---------------------------------------------------------------------------

  /** One input counts as answered: its trim parses as an i64 within 0..full. */
  predicate InputAccepted(s: string, full: int) {
    var t := Trim(s);
    t != [] && ParseI64(t).Some? && 0 <= ParseI64(t).value <= full
  }

  /** The completion rule: one accepted input per question. */
  predicate StudentDone(qs: seq<QuestionRow>, inputs: seq<string>) {
    && |qs| > 0
    && |inputs| == |qs|
    && forall i :: 0 <= i < |qs| ==> InputAccepted(inputs[i], qs[i].fullScore)
  }

  /** `is_student_done`, with its early returns. */
  method IsStudentDone(qs: seq<QuestionRow>, inputs: seq<string>) returns (done: bool)
    ensures done <==> StudentDone(qs, inputs)
  {
    if |qs| == 0 || |inputs| != |qs| {
      return false;
    }
    var i := 0;
    while i < |qs|
      invariant 0 <= i <= |qs|
      invariant forall j :: 0 <= j < i ==> InputAccepted(inputs[j], qs[j].fullScore)
    {
      var t := Trim(inputs[i]);
      var accepted := InputAccepted(inputs[i], qs[i].fullScore);
      if t == [] {
        assert !accepted;
        return false;
      }
      var n := ParseI64(t);
      if n.Some? {
        if n.value < 0 || n.value > qs[i].fullScore {
          assert !accepted;
          return false;
        }
      } else {
        assert !accepted;
        return false;
      }
      assert accepted;
      i := i + 1;
    }
    return true;
  }

  // ---------------------------------------------------------------------------
  // Score coercions in on_change
  // ---------------------------------------------------------------------------

  /** The value written to the database for a typed score: the digits of the
      input; blank gives `None`, a negative number 0, a number above the full
      score `None`, anything unparsable `None`. */
  function ScoreForDb(raw: string, full: U32): (r: Option<U32>)
    ensures AllDigits(ScoreRow.DigitFilter(raw))
    ensures r.Some? ==> r.value <= full
    ensures r.Some? <==> ScoreRow.DigitFilter(raw) != [] && DigitsValue(ScoreRow.DigitFilter(raw)) <= full
    ensures r.Some? ==> r.value == DigitsValue(ScoreRow.DigitFilter(raw))
  {
    var s := ScoreRow.DigitFilter(raw);
    ScoreRow.DigitFilterDigits(raw);
    TrimDigits(s);
    if Trim(s) == [] then None
    else match ParseI64(s)
      case Some(n) =>
        var m: int := if n < 0 then 0 else n;
        if n > full then None else Some(m)
      case None => None
  }

  /** The value the results-table cache derives from a cell: blank or
      unparsable gives `None`, a number is clamped into 0..full. */
  function CacheScore(s: string, full: U32): (r: Option<int>)
    ensures ScoreInRange(r, full)
    ensures AllDigits(s) ==> (r.Some? <==> s != [] && DigitsValue(s) <= I64_MAX)
    ensures AllDigits(s) && r.Some? ==> r.value == Min(DigitsValue(s), full)
  {
    var t := Trim(s);
    TrimDigits(s);
    if t == [] then None
    else match ParseI64(t)
      case Some(n) => Some(Clamp(n, 0, full))
      case None => None
  }

  /** A stored score and a cached one denote the same value. */
  predicate SameScore(stored: Option<U32>, cached: Option<int>) {
    stored.Some? == cached.Some? && (stored.Some? ==> stored.value == cached.value)
  }

  /** For a digit string the two coercions agree exactly when the number is not
      above the full score or is too large for i64; otherwise the database gets
      `None` while the cache shows the full score. */
  lemma DbAndCacheCoercions(s: string, full: U32)
    requires AllDigits(s)
    ensures SameScore(ScoreForDb(s, full), CacheScore(s, full)) <==>
      s == [] || DigitsValue(s) <= full || DigitsValue(s) > I64_MAX
    ensures s != [] && full < DigitsValue(s) <= I64_MAX ==>
      ScoreForDb(s, full) == None && CacheScore(s, full) == Some(full)
  {
    ScoreRow.DigitFilterOfDigits(s);
  }

  /** When the student counts as done and the inputs are digit strings (as the
      score row guarantees), the stored scores equal the cached ones. */
  lemma DoneStoresCachedScores(qs: seq<QuestionRow>, inputs: seq<string>)
    requires StudentDone(qs, inputs)
    requires forall i :: 0 <= i < |inputs| ==> AllDigits(inputs[i])
    ensures forall i :: 0 <= i < |qs| ==>
      ScoreForDb(inputs[i], qs[i].fullScore).Some?
      && SameScore(ScoreForDb(inputs[i], qs[i].fullScore), CacheScore(inputs[i], qs[i].fullScore))
  {
    forall i | 0 <= i < |qs|
      ensures ScoreForDb(inputs[i], qs[i].fullScore).Some?
      ensures SameScore(ScoreForDb(inputs[i], qs[i].fullScore), CacheScore(inputs[i], qs[i].fullScore))
    {
      TrimDigits(inputs[i]);
      DbAndCacheCoercions(inputs[i], qs[i].fullScore);
    }
  }

  /** The scores the cache update hands to `calc_final`: one per question, read
      from the row's cells (a missing cell reads as ""). */
  function CachedScores(qs: seq<QuestionRow>, cells: seq<string>): (ss: seq<Option<int>>)
    ensures |ss| == |qs|
    ensures forall j :: 0 <= j < |qs| ==> ScoreInRange(ss[j], qs[j].fullScore)
  {
    seq(|qs|, j requires 0 <= j < |qs| => CacheScore(if j < |cells| then cells[j] else "", qs[j].fullScore))
  }

  /** The loop building `scores_opt`. */
  method ParseCachedScores(qs: seq<QuestionRow>, cells: seq<string>) returns (ss: seq<Option<int>>)
    ensures ss == CachedScores(qs, cells)
  {
    ss := [];
    var j := 0;
    while j < |qs|
      invariant 0 <= j <= |qs| && |ss| == j
      invariant forall k :: 0 <= k < j ==> ss[k] == CacheScore(if k < |cells| then cells[k] else "", qs[k].fullScore)
    {
      var s := if j < |cells| then cells[j] else "";
      ss := ss + [CacheScore(s, qs[j].fullScore)];
      j := j + 1;
    }
  }

  /** The cached row after cell `i` is set to `text`: its cells and its
      recomputed final score. */
  function UpdatedRow(row: TableRow, qs: seq<QuestionRow>, i: nat, text: string): (r: TableRow)
    ensures r.studentId == row.studentId && r.studentName == row.studentName && |r.scores| == |row.scores|
    ensures r.finalDisplay.Some? ==> 0.0 <= r.finalDisplay.value <= 100.0
  {
    var cells := if i < |row.scores| then row.scores[i := text] else row.scores;
    var ss := CachedScores(qs, cells);
    FinalScoreBounds(qs, ss);
    row.(scores := cells, finalDisplay := FinalScore(qs, ss))
  }

  /** The closure passed to `table_rows.with_mut` once the row exists: set
      the cell, rebuild the scores and recompute the final. */
  method RecomputeRow(row: TableRow, qs: seq<QuestionRow>, i: nat, text: string) returns (r: TableRow)
    ensures r == UpdatedRow(row, qs, i, text)
  {
    var cells := row.scores;
    if i < |cells| {
      cells := cells[i := text];
    }
    var ss := ParseCachedScores(qs, cells);
    var final := CalcFinal(qs, ss);
    r := row.(scores := cells, finalDisplay := final);
  }

  // ---------------------------------------------------------------------------
  // Navigation and hotkeys
  // ---------------------------------------------------------------------------

  /** The page-level key bindings. */
  datatype Hotkey = OpenSearch | NextStudent | PrevStudent | Ignored

  /** F opens the search popup, L moves to the next student and J to the
      previous one, in either case; every other key is ignored. */
  function PageHotkey(k: ScoreRow.Key): (h: Hotkey)
    ensures h == OpenSearch <==> k == ScoreRow.Character("F") || k == ScoreRow.Character("f")
    ensures h == NextStudent <==> k == ScoreRow.Character("L") || k == ScoreRow.Character("l")
    ensures h == PrevStudent <==> k == ScoreRow.Character("J") || k == ScoreRow.Character("j")
  {
    if k == ScoreRow.Character("F") || k == ScoreRow.Character("f") then OpenSearch
    else if k == ScoreRow.Character("L") || k == ScoreRow.Character("l") then NextStudent
    else if k == ScoreRow.Character("J") || k == ScoreRow.Character("j") then PrevStudent
    else Ignored
  }

  /** The results table before any score is typed: one row per student with
      an empty cell per question and no final, and no rows at all while
      either list is empty. */
  function InitialRows(ss: seq<StudentRow>, qs: seq<QuestionRow>): (rows: seq<TableRow>)
    ensures ss == [] || qs == [] ==> rows == []
    ensures ss != [] && qs != [] ==> |rows| == |ss|
    ensures forall j :: 0 <= j < |rows| ==>
      rows[j].studentId == ss[j].id && rows[j].studentName == ss[j].name
      && |rows[j].scores| == |qs| && rows[j].finalDisplay.None?
      && forall c :: 0 <= c < |qs| ==> rows[j].scores[c] == ""
  {
    if ss == [] || qs == [] then []
    else seq(|ss|, j requires 0 <= j < |ss| => TableRow(ss[j].id, ss[j].name, seq(|qs|, _ => ""), None))
  }

  /** The guard under which leaving a student marks it completed. */
  predicate MarksCompletion(qs: seq<QuestionRow>, ss: seq<StudentRow>, inputs: seq<string>, oldIdx: nat) {
    oldIdx < |ss| && |qs| > 0 && |inputs| == |qs| && StudentDone(qs, inputs)
  }

  /** The page's state: the loaded master data, the results-table cache, the
      current student and question, the typed inputs, the progress counters
      and the popup flag, over the database it writes to. */
  class GradingPage {
    const db: Db
    var questions: seq<QuestionRow>
    var students: seq<StudentRow>
    var tableRows: seq<TableRow>
    var curStudentIdx: nat
    var scoreInputs: seq<string>
    var focusIdx: nat
    var totalStudents: nat
    var completedStudents: nat
    var searchOpen: bool

    constructor (db: Db, questions: seq<QuestionRow>, students: seq<StudentRow>)
      ensures this.db == db && this.questions == questions && this.students == students
      ensures tableRows == InitialRows(students, questions)
      ensures curStudentIdx == 0 && focusIdx == 0 && !searchOpen
      ensures scoreInputs == seq(|questions|, _ => "")
      ensures totalStudents == 0 && completedStudents == 0
    {
      this.db := db;
      this.questions := questions;
      this.students := students;
      tableRows := InitialRows(students, questions);
      curStudentIdx := 0;
      scoreInputs := seq(|questions|, _ => "");
      focusIdx := 0;
      totalStudents := 0;
      completedStudents := 0;
      searchOpen := false;
    }

    /** `on_change` for the input of question `i`: updates the typed input,
        writes the coerced score for the current student, and refreshes that
        student's cached row. */
    method OnChange(i: nat, newStr: string)
      requires i < |questions|
      modifies this, db
      ensures questions == old(questions) && students == old(students) && curStudentIdx == old(curStudentIdx)
      ensures scoreInputs == if i < |old(scoreInputs)| then old(scoreInputs)[i := newStr] else old(scoreInputs)
      ensures curStudentIdx < |students| ==>
        db.scores == old(db.scores)[(students[curStudentIdx].id, questions[i].id) := ScoreForDb(newStr, questions[i].fullScore)]
      ensures curStudentIdx >= |students| ==> db.scores == old(db.scores)
      ensures db.students == old(db.students) && db.questions == old(db.questions) && db.sessions == old(db.sessions)
      ensures tableRows == if curStudentIdx < |old(tableRows)|
        then old(tableRows)[curStudentIdx := UpdatedRow(old(tableRows)[curStudentIdx], questions, i, newStr)]
        else old(tableRows)
      ensures curStudentIdx < |tableRows| && tableRows[curStudentIdx].finalDisplay.Some? ==>
        0.0 <= tableRows[curStudentIdx].finalDisplay.value <= 100.0
      ensures focusIdx == old(focusIdx) && searchOpen == old(searchOpen)
      ensures totalStudents == old(totalStudents) && completedStudents == old(completedStudents)
    {
      // 1) the displayed value
      if i < |scoreInputs| {
        scoreInputs := scoreInputs[i := newStr];
      }
      // 2) the database write
      if curStudentIdx < |students| {
        db.SetScore(students[curStudentIdx].id, questions[i].id, ScoreForDb(newStr, questions[i].fullScore));
      }
      // 3) the cached row of the current student
      if curStudentIdx >= |tableRows| {
        return;
      }
      var row := RecomputeRow(tableRows[curStudentIdx], questions, i, newStr);
      tableRows := tableRows[curStudentIdx := row];
    }

    /** `refresh_progress`: reloads both counters from the database. */
    method RefreshProgress()
      modifies this
      ensures totalStudents == db.CountTotalStudents() && completedStudents == db.CountCompletedStudents()
      ensures completedStudents <= totalStudents
      ensures questions == old(questions) && students == old(students) && tableRows == old(tableRows)
      ensures curStudentIdx == old(curStudentIdx) && scoreInputs == old(scoreInputs)
      ensures focusIdx == old(focusIdx) && searchOpen == old(searchOpen)
    {
      totalStudents := db.CountTotalStudents();
      completedStudents := db.CountCompletedStudents();
    }

    /** `move_student`: clamps the new index into the list, marks the student
        being left as completed when its inputs are all accepted, restarts at
        the first question and refreshes the progress counters. `now` is the
        clock reading the database would stamp. */
    method MoveStudent(delta: int, now: nat)
      modifies this, db
      ensures questions == old(questions) && students == old(students) && tableRows == old(tableRows)
      ensures |old(students)| == 0 ==>
        curStudentIdx == old(curStudentIdx) && focusIdx == old(focusIdx)
        && totalStudents == old(totalStudents) && completedStudents == old(completedStudents)
        && db.sessions == old(db.sessions)
      ensures |old(students)| > 0 ==>
        curStudentIdx == Clamp(old(curStudentIdx) + delta, 0, |students| - 1) && focusIdx == 0
        && totalStudents == db.CountTotalStudents() && completedStudents == db.CountCompletedStudents()
      ensures curStudentIdx < |students| || curStudentIdx == old(curStudentIdx)
      ensures db.sessions == if |students| > 0 && MarksCompletion(questions, students, scoreInputs, old(curStudentIdx))
        then MarkOnce(old(db.sessions), students[old(curStudentIdx)].id, now)
        else old(db.sessions)
      ensures db.students == old(db.students) && db.questions == old(db.questions) && db.scores == old(db.scores)
      ensures scoreInputs == old(scoreInputs) && searchOpen == old(searchOpen)
    {
      if |students| == 0 {
        return;
      }
      var oldIdx := curStudentIdx;
      var newIdx := Clamp(oldIdx + delta, 0, |students| - 1);
      if oldIdx < |students| && |questions| > 0 && |scoreInputs| == |questions| {
        var done := IsStudentDone(questions, scoreInputs);
        if done {
          db.MarkCompletedOnce(students[oldIdx].id, now);
        }
      }
      curStudentIdx := newIdx;
      focusIdx := 0;
      RefreshProgress();
    }

    /** `move_to_next` for row `i`: the following row, or one past the last. */
    method MoveToNext(i: nat)
      modifies this
      ensures focusIdx == Min(i + 1, |questions|)
      ensures i + 1 <= |questions| ==> focusIdx == i + 1
      ensures questions == old(questions) && students == old(students) && tableRows == old(tableRows)
      ensures curStudentIdx == old(curStudentIdx) && scoreInputs == old(scoreInputs) && searchOpen == old(searchOpen)
      ensures totalStudents == old(totalStudents) && completedStudents == old(completedStudents)
    {
      focusIdx := Min(i + 1, |questions|);
    }

    /** `move_to_prev` for row `i`: the preceding row, staying at the first. */
    method MoveToPrev(i: nat)
      modifies this
      ensures i > 0 ==> focusIdx == i - 1
      ensures i == 0 ==> focusIdx == 0
      ensures questions == old(questions) && students == old(students) && tableRows == old(tableRows)
      ensures curStudentIdx == old(curStudentIdx) && scoreInputs == old(scoreInputs) && searchOpen == old(searchOpen)
      ensures totalStudents == old(totalStudents) && completedStudents == old(completedStudents)
    {
      focusIdx := if i == 0 then 0 else i - 1;
    }

    /** The page's `onkeydown`. */
    method OnKeyDown(k: ScoreRow.Key, now: nat)
      modifies this, db
      ensures questions == old(questions) && students == old(students) && tableRows == old(tableRows)
      ensures db.students == old(db.students) && db.questions == old(db.questions) && db.scores == old(db.scores)
      ensures scoreInputs == old(scoreInputs)
      // F opens the popup; other keys without a binding change nothing
      ensures PageHotkey(k) == OpenSearch ==> searchOpen
      ensures PageHotkey(k) == Ignored ==> searchOpen == old(searchOpen)
      ensures PageHotkey(k) == OpenSearch || PageHotkey(k) == Ignored ==>
        curStudentIdx == old(curStudentIdx) && focusIdx == old(focusIdx)
        && totalStudents == old(totalStudents) && completedStudents == old(completedStudents)
        && db.sessions == old(db.sessions)
      // L and J are `move_student` with delta +1 and -1
      ensures PageHotkey(k) == NextStudent || PageHotkey(k) == PrevStudent ==>
        var delta := if PageHotkey(k) == NextStudent then 1 else -1;
        searchOpen == old(searchOpen)
        && (|old(students)| == 0 ==>
          curStudentIdx == old(curStudentIdx) && focusIdx == old(focusIdx)
          && totalStudents == old(totalStudents) && completedStudents == old(completedStudents))
        && (|old(students)| > 0 ==>
          curStudentIdx == Clamp(old(curStudentIdx) + delta, 0, |students| - 1) && focusIdx == 0
          && totalStudents == db.CountTotalStudents() && completedStudents == db.CountCompletedStudents())
        && db.sessions == if |students| > 0 && MarksCompletion(questions, students, scoreInputs, old(curStudentIdx))
          then MarkOnce(old(db.sessions), students[old(curStudentIdx)].id, now)
          else old(db.sessions)
    {
      match PageHotkey(k)
      case OpenSearch => searchOpen := true;
      case NextStudent => MoveStudent(1, now);
      case PrevStudent => MoveStudent(-1, now);
      case Ignored =>
    }
  }
}
