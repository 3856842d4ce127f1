/** The student master screen (src/ui/master_students.rs): the id proposed for
    a new row, the row edits and deletion, clearing the list, and importing
    the student list from a configuration file. */
module MasterStudents {
  import opened Common
  import opened Models

  // ---------------------------------------------------------------------------
  // The next student id
  // ---------------------------------------------------------------------------

  predicate NoDigits(s: string) {
    forall i :: 0 <= i < |s| ==> !IsAsciiDigit(s[i])
  }

  /** `id.chars().take_while(|c| !c.is_ascii_digit())`: the text before the
      first digit. */
  function IdPrefix(id: string): (p: string)
    ensures |p| <= |id| && p == id[..|p|]
    ensures NoDigits(p)
    ensures |p| < |id| ==> IsAsciiDigit(id[|p|])
  {
    if id == [] || IsAsciiDigit(id[0]) then []
    else
      var p := [id[0]] + IdPrefix(id[1..]);
      assert id[..|p|] == [id[0]] + id[1..][..|p| - 1];
      p
  }

  /** `id.chars().skip_while(|c| !c.is_ascii_digit())`: everything from the
      first digit on. */
  function IdNumberPart(id: string): string
  {
    if id == [] || IsAsciiDigit(id[0]) then id else IdNumberPart(id[1..])
  }

  /** The two parts split the id: prefix, then number part. */
  lemma {:induction false} IdSplits(id: string)
    ensures IdPrefix(id) + IdNumberPart(id) == id
    ensures IdNumberPart(id) == [] || IsAsciiDigit(IdNumberPart(id)[0])
  {
    if id != [] && !IsAsciiDigit(id[0]) {
      IdSplits(id[1..]);
      assert id == [id[0]] + id[1..];
    }
  }

  /** A digit-free prefix followed by a part that starts with a digit splits
      back into exactly those two parts. */
  lemma {:induction false} IdPartsOf(p: string, d: string)
    requires NoDigits(p)
    requires d != [] && IsAsciiDigit(d[0])
    ensures IdPrefix(p + d) == p
    ensures IdNumberPart(p + d) == d
  {
    if p == [] {
      assert p + d == d;
    } else {
      assert (p + d)[1..] == p[1..] + d;
      assert NoDigits(p[1..]) by {
        forall i | 0 <= i < |p[1..]| ensures !IsAsciiDigit(p[1..][i]) {
          assert p[1..][i] == p[i + 1];
        }
      }
      IdPartsOf(p[1..], d);
      assert p == [p[0]] + p[1..];
    }
  }

  /** The number a new row continues from: the number part parsed as `u32`,
      0 when it does not parse. */
  function LastNumber(id: string): U32 {
    ParseU32(IdNumberPart(id)).GetOr(0)
  }

  /** The id the "Add row" button gives the new student: "S1" for an empty
      list, otherwise the last id's prefix followed by its number plus one,
      saturating at `u32::MAX`. */
  function NextStudentId(students: seq<Student>): (r: string)
    ensures students == [] ==> r == "S1"
    ensures students != [] ==> IdPrefix(r) == IdPrefix(students[|students| - 1].id)
  {
    if students == [] then "S1"
    else
      var last := students[|students| - 1].id;
      var n := SaturatingAddU32(LastNumber(last), 1);
      IdPartsOf(IdPrefix(last), NatToString(n));
      IdPrefix(last) + NatToString(n)
  }

  /** After an id `p` + `n` with a digit-free `p`, the next id is `p` + `n + 1`. */
  lemma NextIdIncrements(students: seq<Student>, p: string, n: nat)
    requires students != [] && students[|students| - 1].id == p + NatToString(n)
    requires NoDigits(p) && n < U32_MAX
    ensures NextStudentId(students) == p + NatToString(n + 1)
  {
    var s := NatToString(n);
    IdPartsOf(p, s);
    ParseU32OfNatToString(n);
  }

  /** The proposed id repeats the last one exactly when the last id ends in
      the number `u32::MAX` (written without leading zeros), where the
      saturating increment stops. */
  lemma NextIdRepeatsOnlyAtMax(students: seq<Student>)
    requires students != []
    ensures NextStudentId(students) == students[|students| - 1].id <==>
      IdNumberPart(students[|students| - 1].id) == NatToString(U32_MAX)
  {
    var last := students[|students| - 1].id;
    var p := IdPrefix(last);
    var num := IdNumberPart(last);
    var v := LastNumber(last);
    var k := SaturatingAddU32(v, 1);
    var d := NatToString(k);
    IdSplits(last);
    IdPartsOf(p, d);
    if NextStudentId(students) == last {
      assert p + d == p + num;
      assert d == (p + d)[|p|..] == (p + num)[|p|..] == num;
      ParseU32OfNatToString(k);
      assert v == k;
    }
    if num == NatToString(U32_MAX) {
      ParseU32OfNatToString(U32_MAX);
      assert v == U32_MAX;
    }
  }

  // ---------------------------------------------------------------------------
  // Handlers
  // ---------------------------------------------------------------------------

  /** "Add row": appends a student with the next id and an empty name. */
  method AddRow(config: ConfigSignal)
    modifies config
    ensures config.value == old(config.value).(students :=
      old(config.value.students) + [Student(NextStudentId(old(config.value.students)), "")])
  {
    var ss := config.value.students;
    var next := NextStudentId(ss);
    config.value := config.value.(students := ss + [Student(next, "")]);
  }

  /** "Clear": removes every student (scores and questions stay). */
  method ClearStudents(config: ConfigSignal)
    modifies config
    ensures config.value == old(config.value).(students := [])
  {
    config.value := config.value.(students := []);
  }

  /** The id field of row `idx`. */
  method EditId(config: ConfigSignal, idx: nat, v: string)
    requires idx < |config.value.students|
    modifies config
    ensures config.value == old(config.value).(students :=
      old(config.value.students)[idx := old(config.value.students)[idx].(id := v)])
  {
    var ss := config.value.students;
    config.value := config.value.(students := ss[idx := ss[idx].(id := v)]);
  }

  /** The name field of row `idx`. */
  method EditName(config: ConfigSignal, idx: nat, v: string)
    requires idx < |config.value.students|
    modifies config
    ensures config.value == old(config.value).(students :=
      old(config.value.students)[idx := old(config.value.students)[idx].(name := v)])
  {
    var ss := config.value.students;
    config.value := config.value.(students := ss[idx := ss[idx].(name := v)]);
  }

  /** "Del" on row `idx`: removes that row when it still exists. */
  method DeleteRow(config: ConfigSignal, idx: nat)
    modifies config
    ensures idx < |old(config.value.students)| ==>
      config.value == old(config.value).(students :=
        old(config.value.students)[..idx] + old(config.value.students)[idx + 1..])
    ensures idx >= |old(config.value.students)| ==> config.value == old(config.value)
  {
    var ss := config.value.students;
    if idx < |ss| {
      config.value := config.value.(students := ss[..idx] + ss[idx + 1..]);
    }
  }

  /** "Import JSON": `read` is the outcome of picking and reading the file
      (`Ok(None)` when nothing was picked or the file is blank), `parsed` the
      outcome of deserializing its text. Only a successfully parsed, non-blank
      text replaces the students; the rest of the configuration is kept. */
  method ImportStudents(config: ConfigSignal, read: Result<Option<string>, string>, parsed: Option<Config>)
    modifies config
    ensures (read.Ok? && read.value.Some? && !IsBlank(read.value.value) && parsed.Some?) ==>
      config.value == old(config.value).(students := parsed.value.students)
    ensures !(read.Ok? && read.value.Some? && !IsBlank(read.value.value) && parsed.Some?) ==>
      config.value == old(config.value)
  {
    if read.Err? || read.value.None? {
      return;
    }
    var txt := read.value.value;
    TrimEmptyIffBlank(txt);
    if Trim(txt) == [] {
      return;
    }
    if parsed.None? {
      return;
    }
    config.value := config.value.(students := parsed.value.students);
  }
}
