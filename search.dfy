/** The student search window (src/ui/search.rs): incremental search
    against the database as the query is typed, and jumping to the student
    a result names. */
module Search {
  import opened Common
  import opened Store

  /** The most rows one search asks for. */
  const ResultLimit: U32 := 30

  /** `iter().position(|x| x.id == id)`: the first index holding `id`. */
  function Position(students: seq<StudentRow>, id: string): (r: Option<nat>)
    ensures r.Some? ==> r.value < |students| && students[r.value].id == id
    ensures r.Some? ==> forall k :: 0 <= k < r.value ==> students[k].id != id
    ensures r.None? <==> forall k :: 0 <= k < |students| ==> students[k].id != id
  {
    FirstIndex(students, (s: StudentRow) => s.id == id)
  }

  /** The "no match" notice: a non-blank query with no results. */
  function NoMatchShown(query: string, results: seq<StudentRow>): (shown: bool)
    ensures shown <==> !IsBlank(query) && results == []
  {
    TrimEmptyIffBlank(query);
    Trim(query) != [] && results == []
  }

  /** The window's state, with the screen state it shares with the grading
      page: the message line, the current student and the focused field. */
  class Window {
    var query: string
    var results: seq<StudentRow>
    var open: bool
    var msg: string
    var curStudentIdx: nat
    var focusIdx: nat

    constructor (msg0: string, cur: nat, focus: nat)
      ensures query == [] && results == [] && open
      ensures msg == msg0 && curStudentIdx == cur && focusIdx == focus
    {
      query := [];
      results := [];
      open := true;
      msg := msg0;
      curStudentIdx := cur;
      focusIdx := focus;
    }

    /** Typing in the query box: a blank query clears the results without
        asking the database; otherwise at most `ResultLimit` matching rows
        replace them, or, when the query fails with `failure`, the message
        line reports it and the results stay. Queries containing LIKE
        wildcards are outside the model of the search. */
    method OnInput(db: Db, v: string, failure: Option<string>)
      requires NoLikeWildcards(v)
      modifies this
      ensures query == v
      ensures IsBlank(v) ==> results == [] && msg == old(msg)
      ensures !IsBlank(v) && failure.Some? ==>
        results == old(results) && msg == "search error: " + failure.value
      ensures !IsBlank(v) && failure.None? ==>
        IsSearchResult(db.students, v, ResultLimit, results) && msg == old(msg)
      ensures open == old(open) && curStudentIdx == old(curStudentIdx) && focusIdx == old(focusIdx)
    {
      query := v;
      TrimEmptyIffBlank(v);
      if Trim(v) == [] {
        results := [];
        return;
      }
      if failure.Some? {
        msg := "search error: " + failure.value;
        return;
      }
      var r := db.SearchStudents(v, ResultLimit);
      results := r;
    }

    /** Clicking the result row for `id`: the current student becomes the
        first one in `students` with that id (unchanged when none has it),
        the window closes and the focus returns to the first field. */
    method OnResultClick(students: seq<StudentRow>, id: string)
      modifies this
      ensures Position(students, id).Some? ==>
        curStudentIdx == Position(students, id).value && students[curStudentIdx].id == id
      ensures Position(students, id).None? ==> curStudentIdx == old(curStudentIdx)
      ensures !open && focusIdx == 0
      ensures query == old(query) && results == old(results) && msg == old(msg)
    {
      var pos := Position(students, id);
      if pos.Some? {
        curStudentIdx := pos.value;
      }
      open := false;
      focusIdx := 0;
    }

    /** The close button and a click outside the window. */
    method Close()
      modifies this
      ensures !open
      ensures query == old(query) && results == old(results) && msg == old(msg)
      ensures curStudentIdx == old(curStudentIdx) && focusIdx == old(focusIdx)
    {
      open := false;
    }
  }
}
