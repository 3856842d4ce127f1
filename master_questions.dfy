/** The question master screen (src/ui/master_questions.rs): the id given to a
    new question, the per-field edits with their fallbacks, deletion,
    clearing, and importing the question list from a configuration file. */
module MasterQuestions {
  import opened Common
  import opened Models

  // ---------------------------------------------------------------------------
  // The next question id
  // ---------------------------------------------------------------------------

  /** `qs.iter().map(|q| q.id).max().unwrap_or(0)`. */
  function MaxQuestionId(qs: seq<Question>): (m: U32)
    ensures forall i :: 0 <= i < |qs| ==> qs[i].id <= m
    ensures qs == [] ==> m == 0
    ensures qs != [] ==> exists i :: 0 <= i < |qs| && qs[i].id == m
  {
    if qs == [] then 0
    else
      var rest := MaxQuestionId(qs[..|qs| - 1]);
      var last := qs[|qs| - 1].id;
      if qs[..|qs| - 1] == [] || last >= rest then last else rest
  }

  /** The id "Add row" gives a new question: the largest id plus one,
      saturating at `u32::MAX`. */
  function NextQuestionId(qs: seq<Question>): (r: U32)
    ensures qs == [] ==> r == 1
  {
    SaturatingAddU32(MaxQuestionId(qs), 1)
  }

  /** Below the saturation point the new id is larger than every existing id,
      so it is not already taken. */
  lemma NextQuestionIdFresh(qs: seq<Question>)
    requires MaxQuestionId(qs) < U32_MAX
    ensures forall i :: 0 <= i < |qs| ==> qs[i].id < NextQuestionId(qs)
  {
  }

  /** At the saturation point the new id repeats an existing one. */
  lemma NextQuestionIdSaturates(qs: seq<Question>)
    requires MaxQuestionId(qs) == U32_MAX
    ensures exists i :: 0 <= i < |qs| && qs[i].id == NextQuestionId(qs)
  {
    assert qs != [];
  }

  // ---------------------------------------------------------------------------
  // Field inputs
  // ---------------------------------------------------------------------------

  /** A numeric field's value: the text parsed as `u32`, 0 when it does not
      parse. */
  function NumberInput(text: string): (v: U32)
    ensures ParseU32(text).None? ==> v == 0
    ensures text != [] && AllDigits(text) && DigitsValue(text) <= U32_MAX ==> v == DigitsValue(text)
  {
    ParseU32(text).GetOr(0)
  }

  /** Typing the decimal form of a `u32` sets exactly that number. */
  lemma NumberInputOfNatToString(n: U32)
    ensures NumberInput(NatToString(n)) == n
  {
    ParseU32OfNatToString(n);
  }

  // ---------------------------------------------------------------------------
  // Handlers
  // ---------------------------------------------------------------------------

  /** "Add row": a question with the next id, an empty name and comment, a
      full score of 0 and a weight of 1. */
  method AddQuestion(config: ConfigSignal)
    modifies config
    ensures config.value == old(config.value).(questions :=
      old(config.value.questions) + [Question(NextQuestionId(old(config.value.questions)), "", 0, 1.0, "")])
  {
    var qs := config.value.questions;
    var nextId := NextQuestionId(qs);
    config.value := config.value.(questions := qs + [Question(nextId, "", 0, 1.0, "")]);
  }

  /** "Clear": removes every question. */
  method ClearQuestions(config: ConfigSignal)
    modifies config
    ensures config.value == old(config.value).(questions := [])
  {
    config.value := config.value.(questions := []);
  }

  /** The id field of row `idx`. */
  method EditQuestionId(config: ConfigSignal, idx: nat, text: string)
    requires idx < |config.value.questions|
    modifies config
    ensures config.value == old(config.value).(questions :=
      old(config.value.questions)[idx := old(config.value.questions)[idx].(id := NumberInput(text))])
  {
    var qs := config.value.questions;
    var v := NumberInput(text);
    config.value := config.value.(questions := qs[idx := qs[idx].(id := v)]);
  }

  /** The name field of row `idx`. */
  method EditQuestionName(config: ConfigSignal, idx: nat, text: string)
    requires idx < |config.value.questions|
    modifies config
    ensures config.value == old(config.value).(questions :=
      old(config.value.questions)[idx := old(config.value.questions)[idx].(name := text)])
  {
    var qs := config.value.questions;
    config.value := config.value.(questions := qs[idx := qs[idx].(name := text)]);
  }

  /** The full-score field of row `idx`. */
  method EditFullScore(config: ConfigSignal, idx: nat, text: string)
    requires idx < |config.value.questions|
    modifies config
    ensures config.value == old(config.value).(questions :=
      old(config.value.questions)[idx := old(config.value.questions)[idx].(fullScore := NumberInput(text))])
  {
    var qs := config.value.questions;
    var v := NumberInput(text);
    config.value := config.value.(questions := qs[idx := qs[idx].(fullScore := v)]);
  }

  /** The weight field of row `idx`; `parsed` is the outcome of parsing the
      text as `f32`, and a failed parse sets 0. */
  method EditWeight(config: ConfigSignal, idx: nat, parsed: Option<real>)
    requires idx < |config.value.questions|
    modifies config
    ensures config.value == old(config.value).(questions :=
      old(config.value.questions)[idx := old(config.value.questions)[idx].(weight := parsed.GetOr(0.0))])
  {
    var qs := config.value.questions;
    var v := parsed.GetOr(0.0);
    config.value := config.value.(questions := qs[idx := qs[idx].(weight := v)]);
  }

  /** The comment field of row `idx`. */
  method EditComment(config: ConfigSignal, idx: nat, text: string)
    requires idx < |config.value.questions|
    modifies config
    ensures config.value == old(config.value).(questions :=
      old(config.value.questions)[idx := old(config.value.questions)[idx].(comment := text)])
  {
    var qs := config.value.questions;
    config.value := config.value.(questions := qs[idx := qs[idx].(comment := text)]);
  }

  /** "Del" on row `idx`: removes that row when it still exists. */
  method DeleteQuestion(config: ConfigSignal, idx: nat)
    modifies config
    ensures idx < |old(config.value.questions)| ==>
      config.value == old(config.value).(questions :=
        old(config.value.questions)[..idx] + old(config.value.questions)[idx + 1..])
    ensures idx >= |old(config.value.questions)| ==> config.value == old(config.value)
  {
    var qs := config.value.questions;
    if idx < |qs| {
      config.value := config.value.(questions := qs[..idx] + qs[idx + 1..]);
    }
  }

  /** "Import JSON": `read` is the outcome of picking and reading the file,
      `parsed` the outcome of deserializing its text. Only a successfully
      parsed, non-blank text replaces the questions. */
  method ImportQuestions(config: ConfigSignal, read: Result<Option<string>, string>, parsed: Option<Config>)
    modifies config
    ensures (read.Ok? && read.value.Some? && !IsBlank(read.value.value) && parsed.Some?) ==>
      config.value == old(config.value).(questions := parsed.value.questions)
    ensures !(read.Ok? && read.value.Some? && !IsBlank(read.value.value) && parsed.Some?) ==>
      config.value == old(config.value)
  {
    if read.Err? || read.value.None? {
      return;
    }
    var txt := read.value.value;
    TrimEmptyIffBlank(txt);
    if Trim(txt) == [] {
      return;
    }
    if parsed.None? {
      return;
    }
    config.value := config.value.(questions := parsed.value.questions);
  }
}
