/** One score-entry row (src/ui/scorerow.rs): the digit filter applied to every
    edit and the key dispatch of the input field. */
module ScoreRow {
  import opened Common

  /** `s.retain(|c| c.is_ascii_digit())`, as a value. */
  function DigitFilter(s: string): string
  {
    if s == [] then []
    else if IsAsciiDigit(s[|s| - 1]) then DigitFilter(s[..|s| - 1]) + [s[|s| - 1]]
    else DigitFilter(s[..|s| - 1])
  }

  /** The filter keeps only ASCII digits and never lengthens the input. */
  lemma {:induction false} DigitFilterDigits(s: string)
    ensures AllDigits(DigitFilter(s))
    ensures |DigitFilter(s)| <= |s|
  {
    if s != [] {
      DigitFilterDigits(s[..|s| - 1]);
    }
  }

  /** Filtering distributes over concatenation, so the kept characters stay in
      their original order. */
  lemma {:induction false} DigitFilterAppend(a: string, b: string)
    ensures DigitFilter(a + b) == DigitFilter(a) + DigitFilter(b)
  {
    if b != [] {
      assert (a + b)[..|a + b| - 1] == a + b[..|b| - 1];
      DigitFilterAppend(a, b[..|b| - 1]);
    } else {
      assert a + b == a;
    }
  }

  /** A string of digits passes through unchanged. */
  lemma {:induction false} DigitFilterOfDigits(s: string)
    requires AllDigits(s)
    ensures DigitFilter(s) == s
  {
    if s != [] {
      DigitFilterOfDigits(s[..|s| - 1]);
    }
  }

  /** Filtering twice is filtering once. */
  lemma DigitFilterIdempotent(s: string)
    ensures DigitFilter(DigitFilter(s)) == DigitFilter(s)
  {
    DigitFilterDigits(s);
    DigitFilterOfDigits(DigitFilter(s));
  }

  /** Every digit of the input is kept: the filter drops exactly the non-digits. */
  lemma {:induction false} DigitFilterCount(s: string)
    ensures |DigitFilter(s)| == |set i | 0 <= i < |s| && IsAsciiDigit(s[i])|
  {
    var n := |s|;
    if s != [] {
      var p := s[..n - 1];
      DigitFilterCount(p);
      var sp := set i | 0 <= i < |p| && IsAsciiDigit(p[i]);
      var ss := set i | 0 <= i < n && IsAsciiDigit(s[i]);
      if IsAsciiDigit(s[n - 1]) {
        assert ss == sp + {n - 1};
      } else {
        assert ss == sp;
      }
    }
  }

  /** The keys the row reacts to. */
  datatype Key = Enter | ArrowDown | ArrowUp | Character(text: string) | OtherKey

  /** What a key press asks the parent to do. */
  datatype KeyAction = MoveToNext | MoveToPrev | NoAction

  /** The `onkeydown` match: Enter and ArrowDown move to the next question,
      ArrowUp to the previous one, every other key does nothing. */
  function OnKeyDown(k: Key): (a: KeyAction)
    ensures a == MoveToNext <==> k == Enter || k == ArrowDown
    ensures a == MoveToPrev <==> k == ArrowUp
  {
    match k
    case Enter => MoveToNext
    case ArrowDown => MoveToNext
    case ArrowUp => MoveToPrev
    case _ => NoAction
  }

  /** The `oninput` handler: the value handed to `on_change`. */
  function OnInput(raw: string): (v: string)
    ensures AllDigits(v)
    ensures AllDigits(raw) ==> v == raw
  {
    DigitFilterDigits(raw);
    if AllDigits(raw) then DigitFilterOfDigits(raw); DigitFilter(raw) else DigitFilter(raw)
  }
}
