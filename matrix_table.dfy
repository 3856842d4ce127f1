/** The results table (src/ui/matrix_table.rs): for every student one row with
    the score cell of each question, read from the first matching score
    entry, and the final percentage `sum(score * weight) / sum(full * weight)`
    shown only when every question has a score. */
module MatrixTable {
  import opened Common
  import opened Models
  import Ratings

  // ---------------------------------------------------------------------------
  // Score lookup
  // ---------------------------------------------------------------------------

  /** `scores.iter().find(|s| s.student_id == sid && s.question_id == qid)`. */
  function FindScore(scores: seq<Score>, sid: string, qid: U32): (r: Option<Score>)
    ensures r.None? <==> forall j :: 0 <= j < |scores| ==> !Ratings.IsEntry(scores[j], sid, qid)
    ensures r.Some? ==> Ratings.IsEntry(r.value, sid, qid)
  {
    match FirstIndex(scores, (s: Score) => Ratings.IsEntry(s, sid, qid))
    case None => None
    case Some(i) => Some(scores[i])
  }

  /** The lookup yields the first entry for the key. */
  lemma FindScoreIsFirstEntry(scores: seq<Score>, sid: string, qid: U32, i: nat)
    requires i < |scores| && Ratings.IsEntry(scores[i], sid, qid)
    requires forall k :: 0 <= k < i ==> !Ratings.IsEntry(scores[k], sid, qid)
    ensures FindScore(scores, sid, qid) == Some(scores[i])
  {
  }

  /** When every entry for a (student, question) key carries the same score,
      the table's first-entry lookup and the rating page's last-entry lookup
      see that score. */
  lemma FirstAndLastEntryAgree(scores: seq<Score>, sid: string, qid: U32)
    requires forall i, j :: (0 <= i < |scores| && 0 <= j < |scores| &&
      Ratings.IsEntry(scores[i], sid, qid) && Ratings.IsEntry(scores[j], sid, qid)) ==>
      scores[i].score == scores[j].score
    ensures FindScore(scores, sid, qid).None? <==> Ratings.LastScore(scores, sid, qid).None?
    ensures FindScore(scores, sid, qid).Some? ==>
      Ratings.LastScore(scores, sid, qid).value == FindScore(scores, sid, qid).value.score
  {
    if FindScore(scores, sid, qid).Some? {
      var i :| 0 <= i < |scores| && Ratings.IsEntry(scores[i], sid, qid);
      Ratings.LastScoreIsSomeEntry(scores, sid, qid);
    }
  }

  /** A score is present for the question: an entry exists and holds a value. */
  predicate Present(scores: seq<Score>, sid: string, q: Question) {
    var f := FindScore(scores, sid, q.id);
    f.Some? && f.value.score.Some?
  }

  /** The present score's value. */
  function ScoreOf(scores: seq<Score>, sid: string, q: Question): U32
    requires Present(scores, sid, q)
  {
    FindScore(scores, sid, q.id).value.score.value
  }

  // ---------------------------------------------------------------------------
  // One row, as a specification
  // ---------------------------------------------------------------------------

  /** The cell of one question: the score as a number, or "" when absent. */
  function Cell(scores: seq<Score>, sid: string, q: Question): string {
    if Present(scores, sid, q) then NatToString(ScoreOf(scores, sid, q)) else ""
  }

  /** What one question adds to `weighted_sum`: score times weight, or 0
      when the score is absent. */
  function SumTerm(scores: seq<Score>, sid: string, q: Question): real {
    if Present(scores, sid, q) then ScoreOf(scores, sid, q) as real * q.weight else 0.0
  }

  /** What one question adds to `weighted_full`: full score times weight. */
  function FullTerm(q: Question): real {
    q.fullScore as real * q.weight
  }

  /** The score cells of the first `n` questions. */
  function Cells(scores: seq<Score>, sid: string, qs: seq<Question>, n: nat): (r: seq<string>)
    requires n <= |qs|
    ensures |r| == n
  {
    if n == 0 then [] else Cells(scores, sid, qs, n - 1) + [Cell(scores, sid, qs[n - 1])]
  }

  /** Every cell is "" exactly when its score is absent; a non-empty cell
      parses back to the stored score. */
  lemma {:induction false} CellsMeaning(scores: seq<Score>, sid: string, qs: seq<Question>, n: nat, j: nat)
    requires j < n <= |qs|
    ensures Cells(scores, sid, qs, n)[j] == "" <==> !Present(scores, sid, qs[j])
    ensures Present(scores, sid, qs[j]) ==>
      ParseU32(Cells(scores, sid, qs, n)[j]) == Some(ScoreOf(scores, sid, qs[j]))
  {
    if j < n - 1 {
      CellsMeaning(scores, sid, qs, n - 1, j);
    } else if Present(scores, sid, qs[j]) {
      ParseU32OfNatToString(ScoreOf(scores, sid, qs[j]));
    }
  }

  /** `filled`: every one of the first `n` questions has a score. */
  predicate Filled(scores: seq<Score>, sid: string, qs: seq<Question>, n: nat)
    requires n <= |qs|
  {
    forall j :: 0 <= j < n ==> Present(scores, sid, qs[j])
  }

  /** `weighted_sum` over the first `n` questions: score times weight. */
  function WeightedSum(scores: seq<Score>, sid: string, qs: seq<Question>, n: nat): real
    requires n <= |qs|
  {
    if n == 0 then 0.0 else WeightedSum(scores, sid, qs, n - 1) + SumTerm(scores, sid, qs[n - 1])
  }

  /** `weighted_full` over the first `n` questions: full score times weight. */
  function WeightedFull(qs: seq<Question>, n: nat): real
    requires n <= |qs|
  {
    if n == 0 then 0.0 else WeightedFull(qs, n - 1) + FullTerm(qs[n - 1])
  }

  /** The final column: the weighted percentage when the weighted full score
      is positive and every score is present, otherwise empty. */
  function FinalDisplay(scores: seq<Score>, sid: string, qs: seq<Question>): Option<real> {
    var full := WeightedFull(qs, |qs|);
    if full > 0.0 && Filled(scores, sid, qs, |qs|) then Some(WeightedSum(scores, sid, qs, |qs|) / full * 100.0)
    else None
  }

  /** The row of one student. */
  function RowOf(cfg: Config, s: Student): (r: TableRow)
    ensures r.studentId == s.id && r.studentName == s.name && |r.scores| == |cfg.questions|
  {
    TableRow(s.id, s.name, Cells(cfg.scores, s.id, cfg.questions, |cfg.questions|),
             FinalDisplay(cfg.scores, s.id, cfg.questions))
  }

  /** The final column is shown exactly when no score cell is empty and the
      weighted full score is positive. */
  lemma FinalShownIffNoEmptyCell(cfg: Config, s: Student)
    ensures RowOf(cfg, s).finalDisplay.Some? <==>
      WeightedFull(cfg.questions, |cfg.questions|) > 0.0 &&
      forall j :: 0 <= j < |cfg.questions| ==> RowOf(cfg, s).scores[j] != ""
  {
    var qs := cfg.questions;
    forall j | 0 <= j < |qs|
      ensures RowOf(cfg, s).scores[j] == "" <==> !Present(cfg.scores, s.id, qs[j])
    {
      CellsMeaning(cfg.scores, s.id, qs, |qs|, j);
    }
  }

  /** With non-negative weights and no score above its full score, the
      weighted sum stays between 0 and the weighted full score. */
  lemma {:induction false} WeightedSumBounds(scores: seq<Score>, sid: string, qs: seq<Question>, n: nat)
    requires n <= |qs|
    requires forall j :: 0 <= j < n ==> qs[j].weight >= 0.0
    requires forall j :: 0 <= j < n && Present(scores, sid, qs[j]) ==> ScoreOf(scores, sid, qs[j]) <= qs[j].fullScore
    ensures 0.0 <= WeightedSum(scores, sid, qs, n) <= WeightedFull(qs, n)
  {
    if n > 0 {
      WeightedSumBounds(scores, sid, qs, n - 1);
      TermWithinFull(scores, sid, qs[n - 1]);
    }
  }

  /** One question's share of the weighted sum lies between 0 and its share
      of the weighted full score. */
  lemma TermWithinFull(scores: seq<Score>, sid: string, q: Question)
    requires q.weight >= 0.0
    requires Present(scores, sid, q) ==> ScoreOf(scores, sid, q) <= q.fullScore
    ensures 0.0 <= SumTerm(scores, sid, q) <= FullTerm(q)
  {
    var w := q.weight;
    var f := q.fullScore as real;
    ScaleMonotone(0.0, f, w);
    if Present(scores, sid, q) {
      var v := ScoreOf(scores, sid, q) as real;
      ScaleMonotone(v, f, w);
      assert SumTerm(scores, sid, q) == v * w;
    }
  }

  /** With non-negative weights and no score above its full score, the final
      column lies in 0..100. */
  lemma FinalDisplayAtMost100(scores: seq<Score>, sid: string, qs: seq<Question>)
    requires forall j :: 0 <= j < |qs| ==> qs[j].weight >= 0.0
    requires forall j :: 0 <= j < |qs| && Present(scores, sid, qs[j]) ==> ScoreOf(scores, sid, qs[j]) <= qs[j].fullScore
    ensures FinalDisplay(scores, sid, qs).Some? ==> 0.0 <= FinalDisplay(scores, sid, qs).value <= 100.0
  {
    WeightedSumBounds(scores, sid, qs, |qs|);
    var full := WeightedFull(qs, |qs|);
    if full > 0.0 {
      var sum := WeightedSum(scores, sid, qs, |qs|);
      var ratio := sum / full;
      RatioInUnit(sum, full, ratio);
    }
  }

  /** One more question: one more cell, and the sums and `filled` updated. */
  lemma RowStep(scores: seq<Score>, sid: string, qs: seq<Question>, j: nat)
    requires j < |qs|
    ensures Cells(scores, sid, qs, j + 1) == Cells(scores, sid, qs, j) + [Cell(scores, sid, qs[j])]
    ensures WeightedSum(scores, sid, qs, j + 1) == WeightedSum(scores, sid, qs, j) + SumTerm(scores, sid, qs[j])
    ensures WeightedFull(qs, j + 1) == WeightedFull(qs, j) + FullTerm(qs[j])
    ensures Filled(scores, sid, qs, j + 1) <==> Filled(scores, sid, qs, j) && Present(scores, sid, qs[j])
  {
  }

  // ---------------------------------------------------------------------------
  // The effect that builds the rows
  // ---------------------------------------------------------------------------

  /** The body of the inner loop for one question: the cell text, whether a
      score is present, and what it adds to the weighted sum. */
  method ScoreCell(scores: seq<Score>, sid: string, q: Question) returns (cell: string, present: bool, weighted: real)
    ensures present == Present(scores, sid, q)
    ensures cell == Cell(scores, sid, q)
    ensures present ==> weighted == SumTerm(scores, sid, q)
  {
    var found := FindScore(scores, sid, q.id);
    weighted := 0.0;
    if found.Some? {
      if found.value.score.Some? {
        var v := found.value.score.value;
        cell := NatToString(v);
        present := true;
        weighted := v as real * q.weight;
      } else {
        cell := "";
        present := false;
      }
    } else {
      cell := "";
      present := false;
    }
  }

  /** The inner loop: one student's cells, `filled`, and the two sums. */
  method ScanQuestions(scores: seq<Score>, sid: string, qs: seq<Question>)
    returns (cells: seq<string>, filled: bool, weightedSum: real, weightedFull: real)
    ensures cells == Cells(scores, sid, qs, |qs|)
    ensures filled <==> Filled(scores, sid, qs, |qs|)
    ensures weightedSum == WeightedSum(scores, sid, qs, |qs|)
    ensures weightedFull == WeightedFull(qs, |qs|)
  {
    filled := true;
    cells := [];
    weightedSum := 0.0;
    weightedFull := 0.0;
    var j := 0;
    while j < |qs|
      invariant 0 <= j <= |qs|
      invariant cells == Cells(scores, sid, qs, j)
      invariant weightedSum == WeightedSum(scores, sid, qs, j)
      invariant weightedFull == WeightedFull(qs, j)
      invariant filled <==> Filled(scores, sid, qs, j)
    {
      var q := qs[j];
      RowStep(scores, sid, qs, j);
      var cell, present, weighted := ScoreCell(scores, sid, q);
      cells := cells + [cell];
      if present {
        weightedSum := weightedSum + weighted;
      } else {
        filled := false;
      }
      weightedFull := weightedFull + FullTerm(q);
      j := j + 1;
    }
  }

  /** One row of the table: the scanned cells and the final column. */
  method BuildRow(cfg: Config, student: Student) returns (row: TableRow)
    ensures row == RowOf(cfg, student)
  {
    var cells, filled, weightedSum, weightedFull := ScanQuestions(cfg.scores, student.id, cfg.questions);
    var display: Option<real> := None;
    if weightedFull > 0.0 && filled {
      display := Some(weightedSum / weightedFull * 100.0);
    }
    row := TableRow(student.id, student.name, cells, display);
  }

  /** The outer loop: one row per student, in student order. */
  method BuildTableRows(cfg: Config) returns (rows: seq<TableRow>)
    ensures |rows| == |cfg.students|
    ensures forall i :: 0 <= i < |rows| ==> rows[i] == RowOf(cfg, cfg.students[i])
  {
    rows := [];
    var i := 0;
    while i < |cfg.students|
      invariant 0 <= i <= |cfg.students|
      invariant |rows| == i
      invariant forall k :: 0 <= k < i ==> rows[k] == RowOf(cfg, cfg.students[k])
    {
      var row := BuildRow(cfg, cfg.students[i]);
      rows := rows + [row];
      i := i + 1;
    }
  }
}
