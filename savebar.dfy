/** The save bar (src/ui/savebar.rs): the message shown for a configuration
    file that fails to parse, and the guards of "Save", "Save as" and "Load".
    The file dialogs, the file system and the JSON parser are outside the
    model: their outcomes are parameters of the handlers. */
module SaveBar {
  import opened Common
  import opened Models

  // ---------------------------------------------------------------------------
  // Lines of a text
  // ---------------------------------------------------------------------------

  predicate NoNewline(s: string) {
    forall i :: 0 <= i < |s| ==> s[i] != '\n'
  }

  /** The index of the first '\n', or `|s|` when there is none. */
  function FirstNewline(s: string): (i: nat)
    ensures i <= |s|
    ensures i < |s| ==> s[i] == '\n'
  {
    if s == [] || s[0] == '\n' then 0 else 1 + FirstNewline(s[1..])
  }

  /** No '\n' comes before the first one. */
  lemma {:induction false} FirstNewlineIsFirst(s: string)
    ensures NoNewline(s[..FirstNewline(s)])
  {
    if s != [] && s[0] != '\n' {
      FirstNewlineIsFirst(s[1..]);
      assert s[..FirstNewline(s)] == [s[0]] + s[1..][..FirstNewline(s[1..])];
    }
  }

  /** A line ended by "\r\n" loses its '\r' as well. */
  function DropCr(line: string): (r: string)
    ensures NoNewline(line) ==> NoNewline(r)
  {
    if line != [] && line[|line| - 1] == '\r' then line[..|line| - 1] else line
  }

  /** `str::lines`: the text cut at each '\n' (a "\r\n" ending loses both
      characters), with no empty line after a final '\n' and none for the
      empty text. */
  function Lines(s: string): (ls: seq<string>)
    ensures forall k :: 0 <= k < |ls| ==> NoNewline(ls[k])
    decreases |s|
  {
    if s == [] then []
    else
      var i := FirstNewline(s);
      FirstNewlineIsFirst(s);
      if i == |s| then
        assert s[..i] == s;
        [s]
      else [DropCr(s[..i])] + Lines(s[i + 1..])
  }

  /** Lines written out, each followed by '\n'. */
  function Terminated(ls: seq<string>): string {
    if ls == [] then [] else ls[0] + "\n" + Terminated(ls[1..])
  }

  lemma FirstNewlineAfter(a: string, b: string)
    requires NoNewline(a)
    ensures FirstNewline(a + "\n" + b) == |a|
  {
    var s := a + "\n" + b;
    FirstNewlineIsFirst(s);
    assert s[|a|] == '\n';
    assert forall k :: 0 <= k < |a| ==> s[k] == a[k];
  }

  /** `lines` undoes writing lines out with a '\n' after each, provided no
      line holds a '\n' or ends in '\r'. */
  lemma {:induction false} LinesOfTerminated(ls: seq<string>)
    requires forall k :: 0 <= k < |ls| ==> NoNewline(ls[k])
    requires forall k :: 0 <= k < |ls| ==> ls[k] == [] || ls[k][|ls[k]| - 1] != '\r'
    ensures Lines(Terminated(ls)) == ls
  {
    if ls != [] {
      var a := ls[0];
      var rest := Terminated(ls[1..]);
      var s := a + "\n" + rest;
      FirstNewlineAfter(a, rest);
      assert s[..|a|] == a;
      assert s[|a| + 1..] == rest;
      LinesOfTerminated(ls[1..]);
      assert ls == [a] + ls[1..];
    }
  }

  /** `src.lines().nth(n).unwrap_or("")`. */
  function LineAt(src: string, n: nat): (r: string)
    ensures NoNewline(r)
    ensures n >= |Lines(src)| ==> r == ""
  {
    var ls := Lines(src);
    if n < |ls| then ls[n] else ""
  }

  /** `str::split('\n')`: every piece, including empty ones. */
  function SplitNewlines(s: string): (parts: seq<string>)
    ensures |parts| >= 1
    decreases |s|
  {
    var i := FirstNewline(s);
    if i == |s| then [s] else [s[..i]] + SplitNewlines(s[i + 1..])
  }

  lemma SplitNewlinesCons(a: string, b: string)
    requires NoNewline(a)
    ensures SplitNewlines(a + "\n" + b) == [a] + SplitNewlines(b)
  {
    var s := a + "\n" + b;
    FirstNewlineAfter(a, b);
    assert s[..|a|] == a;
    assert s[|a| + 1..] == b;
  }

  // ---------------------------------------------------------------------------
  // format_json_error
  // ---------------------------------------------------------------------------

  lemma NoNewlineConcat(a: string, b: string)
    requires NoNewline(a) && NoNewline(b)
    ensures NoNewline(a + b)
  {
    forall k | 0 <= k < |a + b| ensures (a + b)[k] != '\n' {
      if k >= |a| {
        assert (a + b)[k] == b[k - |a|];
      }
    }
  }

  /** The wording of each error category. */
  function Kind(c: JsonCategory): string {
    match c
    case Syntax => "JSON syntax error"
    case Data => "JSON structure/type mismatch"
    case Eof => "Unexpected end of file"
    case Io => "JSON parse error"
  }

  lemma KindNoNewline(c: JsonCategory)
    ensures NoNewline(Kind(c))
  {
    match c
    case Syntax => assert '\n' !in Kind(c);
    case Data => assert '\n' !in Kind(c);
    case Eof => assert '\n' !in Kind(c);
    case Io => assert '\n' !in Kind(c);
  }

  const DataHint: string := "Hint: field name misspelled? wrong type? missing field?"

  /** The closing hint: only a data error gets one. */
  function Hint(c: JsonCategory): (r: string)
    ensures r != "" <==> c == Data
  {
    if c == Data then DataHint else ""
  }

  /** The caret line: `col - 1` spaces (none for column 0), then '^', so the
      caret stands under the 1-based column `col`. */
  function Caret(col: nat): (r: string)
    ensures |r| == if col == 0 then 1 else col
    ensures r[|r| - 1] == '^'
    ensures forall k :: 0 <= k < |r| - 1 ==> r[k] == ' '
  {
    Repeat(' ', if col == 0 then 0 else col - 1) + "^"
  }

  /** The first line when the position is known. */
  function Header(e: JsonError): string
    requires e.line > 0
  {
    Kind(e.category) + " at line " + NatToString(e.line) + ", column " + NatToString(e.column) + ": " + e.display
  }

  /** Lines joined with '\n' between them. */
  function JoinLines(parts: seq<string>): string
    requires parts != []
  {
    if |parts| == 1 then parts[0] else parts[0] + "\n" + JoinLines(parts[1..])
  }

  lemma SplitStep(a: string, joined: string, init: seq<string>, tail: seq<string>)
    requires NoNewline(a)
    requires SplitNewlines(joined) == init + tail
    ensures SplitNewlines(a + "\n" + joined) == [a] + init + tail
  {
    SplitNewlinesCons(a, joined);
  }

  /** Splitting joined lines gives the lines back, the last one split in
      turn (it may itself hold '\n'). */
  lemma {:induction false} SplitJoinLines(parts: seq<string>)
    requires parts != []
    requires forall k :: 0 <= k < |parts| - 1 ==> NoNewline(parts[k])
    ensures SplitNewlines(JoinLines(parts)) == parts[..|parts| - 1] + SplitNewlines(parts[|parts| - 1])
  {
    if |parts| == 1 {
      assert parts[..0] == [];
    } else {
      var rest := parts[1..];
      SplitJoinLines(rest);
      var last := rest[|rest| - 1];
      SplitStep(parts[0], JoinLines(rest), rest[..|rest| - 1], SplitNewlines(last));
      assert last == parts[|parts| - 1];
      assert parts[..|parts| - 1] == [parts[0]] + rest[..|rest| - 1];
    }
  }

  /** The message shown when the loaded text does not parse as a
      configuration. */
  function FormatJsonError(src: string, e: JsonError): string {
    var hint := Hint(e.category);
    if e.line > 0 then
      JoinLines([Header(e), LineAt(src, e.line - 1), Caret(e.column), hint])
    else
      JoinLines([Kind(e.category) + ": " + e.display, hint])
  }

  lemma NatToStringNoNewline(n: nat)
    ensures NoNewline(NatToString(n))
  {
    var s := NatToString(n);
    forall k | 0 <= k < |s| ensures s[k] != '\n' {
      assert IsAsciiDigit(s[k]);
    }
  }

  lemma HeaderNoNewline(e: JsonError)
    requires e.line > 0 && NoNewline(e.display)
    ensures NoNewline(Header(e))
  {
    var k, l, c := Kind(e.category), NatToString(e.line), NatToString(e.column);
    KindNoNewline(e.category);
    NatToStringNoNewline(e.line);
    NatToStringNoNewline(e.column);
    assert NoNewline(" at line ") && NoNewline(", column ") && NoNewline(": ");
    NoNewlineConcat(k, " at line ");
    NoNewlineConcat(k + " at line ", l);
    NoNewlineConcat(k + " at line " + l, ", column ");
    NoNewlineConcat(k + " at line " + l + ", column ", c);
    NoNewlineConcat(k + " at line " + l + ", column " + c, ": ");
    NoNewlineConcat(k + " at line " + l + ", column " + c + ": ", e.display);
  }

  lemma CaretNoNewline(col: nat)
    ensures NoNewline(Caret(col))
  {
    var c := Caret(col);
    forall k | 0 <= k < |c| ensures c[k] != '\n' {
      if k < |c| - 1 {
        assert c[k] == ' ';
      }
    }
  }

  /** With a known position, the message starts with three lines: the header
      naming the kind, line and column, the offending source line (empty past
      the end of the text) and the caret under the column; the hint follows. */
  lemma FormatWithPosition(src: string, e: JsonError)
    requires e.line > 0 && NoNewline(e.display)
    ensures SplitNewlines(FormatJsonError(src, e)) ==
      [Header(e), LineAt(src, e.line - 1), Caret(e.column)] + SplitNewlines(Hint(e.category))
  {
    var parts := [Header(e), LineAt(src, e.line - 1), Caret(e.column), Hint(e.category)];
    HeaderNoNewline(e);
    CaretNoNewline(e.column);
    SplitJoinLines(parts);
    assert parts[..3] == [Header(e), LineAt(src, e.line - 1), Caret(e.column)];
  }

  lemma LineAtOfTerminated(ls: seq<string>, src: string, n: nat)
    requires forall k :: 0 <= k < |ls| ==> NoNewline(ls[k])
    requires forall k :: 0 <= k < |ls| ==> ls[k] == [] || ls[k][|ls[k]| - 1] != '\r'
    requires src == Terminated(ls) && n < |ls|
    ensures LineAt(src, n) == ls[n]
  {
    LinesOfTerminated(ls);
  }

  lemma SecondOf(x: seq<string>, a: string, b: string, c: string, rest: seq<string>)
    requires x == [a, b, c] + rest
    ensures |x| >= 2 && x[1] == b
  {
  }

  lemma ExcerptIsLineAt(src: string, e: JsonError)
    requires e.line > 0 && NoNewline(e.display)
    ensures |SplitNewlines(FormatJsonError(src, e))| >= 2
    ensures SplitNewlines(FormatJsonError(src, e))[1] == LineAt(src, e.line - 1)
  {
    FormatWithPosition(src, e);
    SecondOf(SplitNewlines(FormatJsonError(src, e)), Header(e), LineAt(src, e.line - 1), Caret(e.column),
             SplitNewlines(Hint(e.category)));
  }

  /** For a text made of whole lines, the excerpt is the reported line of
      that text. */
  lemma ExcerptIsReportedLine(ls: seq<string>, src: string, e: JsonError)
    requires forall k :: 0 <= k < |ls| ==> NoNewline(ls[k])
    requires forall k :: 0 <= k < |ls| ==> ls[k] == [] || ls[k][|ls[k]| - 1] != '\r'
    requires src == Terminated(ls)
    requires 0 < e.line <= |ls| && NoNewline(e.display)
    ensures |SplitNewlines(FormatJsonError(src, e))| >= 2
    ensures SplitNewlines(FormatJsonError(src, e))[1] == ls[e.line - 1]
  {
    LineAtOfTerminated(ls, src, e.line - 1);
    ExcerptIsLineAt(src, e);
  }

  /** Without a position, the message has the kind with the error's text on
      its first line, then the hint: no source excerpt and no caret. */
  lemma FormatWithoutPosition(src: string, e: JsonError)
    requires e.line == 0 && NoNewline(e.display)
    ensures SplitNewlines(FormatJsonError(src, e)) == [Kind(e.category) + ": " + e.display] + SplitNewlines(Hint(e.category))
  {
    var h := Kind(e.category) + ": " + e.display;
    KindNoNewline(e.category);
    assert NoNewline(": ");
    NoNewlineConcat(Kind(e.category), ": ");
    NoNewlineConcat(Kind(e.category) + ": ", e.display);
    SplitJoinLines([h, Hint(e.category)]);
  }

  // ---------------------------------------------------------------------------
  // The handlers
  // ---------------------------------------------------------------------------

  /** The outcome of writing the configuration to a file. */
  datatype WriteOutcome = Written | WriteFailed(reason: string)

  const NoPathMessage: string := "No save path. Use 'Save as' first."
  const SavedMessage: string := "Saved."
  const LoadedMessage: string := "Loaded."
  const EmptyFileMessage: string := "Empty file."

  /** The bar's message line. */
  class Bar {
    var msg: string

    constructor ()
      ensures msg == ""
    {
      msg := "";
    }

    /** "Save": writes to the remembered path, or only reports that there is
        none. `write` is the outcome of the write; the returned `target` is
        the path written to (`None`: nothing was written). The configuration
        itself never changes. */
    method OnSave(config: ConfigSignal, write: WriteOutcome) returns (target: Option<string>)
      modifies this
      ensures config.value.savePath.None? ==> target.None? && msg == NoPathMessage
      ensures config.value.savePath.Some? ==> target == config.value.savePath
      ensures config.value.savePath.Some? && write.Written? ==> msg == SavedMessage
      ensures config.value.savePath.Some? && write.WriteFailed? ==> msg == "Save failed: " + write.reason
    {
      var cfg := config.value;
      if cfg.savePath.None? {
        msg := NoPathMessage;
        return None;
      }
      target := cfg.savePath;
      match write
      case Written =>
        msg := SavedMessage;
      case WriteFailed(e) =>
        msg := "Save failed: " + e;
    }

    /** "Save as": `picked` is the path chosen in the dialog (`None` when it
        was cancelled), `write` the outcome of writing there. Only a
        successful write remembers the path. */
    method OnSaveAs(config: ConfigSignal, picked: Option<string>, write: WriteOutcome) returns (target: Option<string>)
      modifies this, config
      ensures target == picked
      ensures picked.None? ==> msg == old(msg) && config.value == old(config.value)
      ensures picked.Some? && write.Written? ==>
        config.value == old(config.value).(savePath := picked) && msg == SavedMessage
      ensures picked.Some? && write.WriteFailed? ==>
        config.value == old(config.value) && msg == "Save failed: " + write.reason
    {
      var cfg := config.value;
      if picked.None? {
        return None;
      }
      target := picked;
      match write
      case Written =>
        config.value := cfg.(savePath := picked);
        msg := SavedMessage;
      case WriteFailed(e) =>
        msg := "Save failed: " + e;
    }

    /** "Load": `picked` is the chosen path, `text` the outcome of decoding
        the file's bytes as UTF-8, `parsed` the outcome of deserializing that
        text. Only a parsed, non-blank text replaces the configuration, and
        it then remembers the path it came from. */
    method OnLoad(config: ConfigSignal, picked: Option<string>, text: Result<string, string>,
                  parsed: Result<Config, JsonError>)
      modifies this, config
      ensures picked.None? ==> msg == old(msg) && config.value == old(config.value)
      ensures picked.Some? && text.Err? ==>
        msg == "Invalid UTF-8: " + text.error && config.value == old(config.value)
      ensures picked.Some? && text.Ok? && IsBlank(text.value) ==>
        msg == EmptyFileMessage && config.value == old(config.value)
      ensures picked.Some? && text.Ok? && !IsBlank(text.value) && parsed.Err? ==>
        msg == FormatJsonError(text.value, parsed.error) && config.value == old(config.value)
      ensures picked.Some? && text.Ok? && !IsBlank(text.value) && parsed.Ok? ==>
        msg == LoadedMessage && config.value == parsed.value.(savePath := picked)
    {
      if picked.None? {
        return;
      }
      if text.Err? {
        msg := "Invalid UTF-8: " + text.error;
        return;
      }
      var txt := text.value;
      TrimEmptyIffBlank(txt);
      if Trim(txt) == [] {
        msg := EmptyFileMessage;
        return;
      }
      match parsed
      case Ok(cfg) =>
        config.value := cfg.(savePath := picked);
        msg := LoadedMessage;
      case Err(e) =>
        msg := FormatJsonError(txt, e);
    }
  }
}
