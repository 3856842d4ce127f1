/** The comment panel (src/ui/comment_panel.rs): shows and edits the
    grading note of the question whose score field has the focus. */
module CommentPanel {
  import opened Common
  import opened Models

  /** The first index of a question with id `qid`. */
  function QuestionIndex(qs: seq<Question>, qid: U32): (r: Option<nat>)
    ensures r.Some? ==> r.value < |qs| && qs[r.value].id == qid
    ensures r.Some? ==> forall k :: 0 <= k < r.value ==> qs[k].id != qid
    ensures r.None? <==> forall k :: 0 <= k < |qs| ==> qs[k].id != qid
  {
    FirstIndex(qs, (q: Question) => q.id == qid)
  }

  /** `q_opt`: the first question with the focused id, if any. */
  function FocusedQuestion(qs: seq<Question>, focused: Option<U32>): (q: Option<Question>)
    ensures q.Some? <==> focused.Some? && QuestionIndex(qs, focused.value).Some?
    ensures q.Some? ==> q.value == qs[QuestionIndex(qs, focused.value).value]
  {
    if focused.None? then None
    else
      match QuestionIndex(qs, focused.value)
      case None => None
      case Some(i) => Some(qs[i])
  }

  /** `md_text`: the focused question's comment, or "" when no question is
      focused or none has the focused id. */
  function CommentText(qs: seq<Question>, focused: Option<U32>): (text: string)
    ensures FocusedQuestion(qs, focused).None? ==> text == ""
    ensures FocusedQuestion(qs, focused).Some? ==> text == FocusedQuestion(qs, focused).value.comment
  {
    match FocusedQuestion(qs, focused)
    case None => ""
    case Some(q) => q.comment
  }

  /** The questions after setting the comment of the first question with id
      `qid`; with no such question, the same questions. */
  function SetComment(qs: seq<Question>, qid: U32, text: string): (r: seq<Question>)
    ensures |r| == |qs|
    ensures QuestionIndex(qs, qid).None? ==> r == qs
    ensures QuestionIndex(qs, qid).Some? ==>
      var i := QuestionIndex(qs, qid).value;
      r[i] == qs[i].(comment := text) && forall k :: 0 <= k < |qs| && k != i ==> r[k] == qs[k]
  {
    match QuestionIndex(qs, qid)
    case None => qs
    case Some(i) => qs[i := qs[i].(comment := text)]
  }

  /** The lookup reads nothing but the ids. */
  lemma QuestionIndexByIds(a: seq<Question>, b: seq<Question>, qid: U32)
    requires |a| == |b|
    requires forall k :: 0 <= k < |a| ==> a[k].id == b[k].id
    ensures QuestionIndex(a, qid) == QuestionIndex(b, qid)
  {
  }

  /** Setting a comment keeps every id, so the same question stays focused. */
  lemma SetCommentKeepsIndex(qs: seq<Question>, qid: U32, text: string)
    ensures QuestionIndex(SetComment(qs, qid, text), qid) == QuestionIndex(qs, qid)
  {
    QuestionIndexByIds(SetComment(qs, qid, text), qs, qid);
  }

  /** Typing in the panel shows what was typed: after `SetComment`, the
      panel's text for the same focus is the new text, whenever a question
      has the focused id. */
  lemma CommentRoundTrip(qs: seq<Question>, qid: U32, text: string)
    requires QuestionIndex(qs, qid).Some?
    ensures CommentText(SetComment(qs, qid, text), Some(qid)) == text
  {
    SetCommentKeepsIndex(qs, qid, text);
  }

  /** `on_input`: with a focused question id, the first question with that
      id gets the new comment and nothing else changes; with no focus,
      nothing changes at all. */
  method OnInput(config: ConfigSignal, focused: Option<U32>, newText: string)
    modifies config
    ensures focused.None? ==> config.value == old(config.value)
    ensures focused.Some? ==> config.value == old(config.value).(questions :=
      SetComment(old(config.value.questions), focused.value, newText))
  {
    if focused.None? {
      return;
    }
    var qid := focused.value;
    var cfg := config.value;
    var qs := cfg.questions;
    var idx := QuestionIndex(qs, qid);
    if idx.Some? {
      var i := idx.value;
      qs := qs[i := qs[i].(comment := newText)];
    }
    config.value := cfg.(questions := qs);
  }
}
