/**
 * readClassNames and the label lookup of CV_DNN_Application/Main.cpp: the
 * label file is read line by line with std::getline, every non-empty line
 * contributes name.substr(name.find(' ') + 1), and the winning class id is
 * looked up with classNames.at(classId).
 */
module LabelLoader {
  import opened Results
  import opened CppStd
  import opened LabelSpec

  /** The label file the program reads. */
  const LABEL_FILE: string := "synset_words.txt"

  /** The line that starts at start and ends at end, where a '\n' or the end of the text follows. */
  lemma LineAt(data: string, start: nat, end: nat)
    requires start <= end <= |data| && '\n' !in data[start..end]
    requires end == |data| || data[end] == '\n'
    ensures Lines(data[start..])[0] == data[start..end]
    ensures end == |data| <==> |Lines(data[start..])| == 1
    ensures end < |data| ==> Lines(data[end + 1..]) == Lines(data[start..])[1..]
  {
    var rest := data[start..];
    assert rest[..end - start] == data[start..end];
    LinesUntilNewline(rest, end - start);
    if end < |data| {
      assert rest[end - start + 1..] == data[end + 1..];
    }
  }

  /**
   * An opened std::ifstream over the file's text: the read position and the
   * eofbit and failbit of the stream state.
   */
  class LineStream {
    const data: string
    var pos: nat
    var eof: bool
    var fail: bool

    ghost predicate Valid()
      reads this
    {
      pos <= |data| && (eof ==> pos == |data|)
    }

    /** The text not yet extracted. */
    ghost function Rest(): string
      reads this
      requires Valid()
    {
      data[pos..]
    }

    /** A stream freshly opened on a file: positioned at its start, no state bit set. */
    constructor (contents: string)
      ensures Valid()
      ensures data == contents && pos == 0 && !eof && !fail
    {
      data := contents;
      pos := 0;
      eof := false;
      fail := false;
    }

    /**
     * std::getline(fp, name) into a fresh string: when the stream is not
     * good, nothing is extracted and failbit is set; otherwise characters are
     * extracted up to and including the next '\n', which is not stored, or up
     * to the end of the file, which sets eofbit; failbit is set too when not
     * a single character could be extracted.
     */
    method GetLine() returns (line: string)
      requires Valid()
      modifies this
      ensures Valid()
      ensures |line| <= |data| - old(pos)
      ensures old(eof || fail) ==> line == [] && fail && eof == old(eof) && pos == old(pos)
      ensures !old(eof || fail) ==>
        line == Lines(old(Rest()))[0] &&
        (eof <==> |Lines(old(Rest()))| == 1) &&
        (fail <==> old(pos) == |data|) &&
        (!eof ==> old(pos) < pos && Lines(Rest()) == Lines(old(Rest()))[1..])
    {
      line := [];
      if eof || fail {
        fail := true;
        return;
      }
      var start := pos;
      var i := pos;
      while i < |data| && data[i] != '\n'
        invariant start <= i <= |data|
        invariant '\n' !in data[start..i]
        invariant line == data[start..i]
        decreases |data| - i
      {
        assert data[start..i + 1] == data[start..i] + [data[i]];
        line := line + [data[i]];
        i := i + 1;
      }
      LineAt(data, start, i);
      if i == |data| {
        eof := true;
        fail := i == start;
        pos := i;
      } else {
        pos := i + 1;
      }
    }
  }

  /**
   * name.substr(name.find(' ') + 1) for one line read from the file. When
   * the line holds no space, find gives npos and npos + 1 wraps round to 0,
   * so the whole line is kept; substr never throws here.
   */
  function LabelOf(name: string): (r: Result<string>)
    requires |name| <= MAX_SIZE
    ensures r == Ok(Label(name))
  {
    var p := Find(name, ' ');
    assert p >= |name| ==> SizeAdd(p, 1) == 0;
    Substr(name, SizeAdd(p, 1))
  }

  /** One pass of the reading loop keeps the table read so far plus the table of the rest equal to the whole. */
  lemma ReadStep(total: seq<string>, done: seq<string>, before: seq<string>, after: seq<string>)
    requires |before| >= 1
    requires total == done + Labels(NonEmpty(before))
    requires after == done + (if before[0] == [] then [] else [Label(before[0])])
    ensures total == after + Labels(NonEmpty(before[1..]))
    ensures |before| == 1 ==> total == after
  {
    var head: seq<string> := if before[0] == [] then [] else [Label(before[0])];
    var tail := Labels(NonEmpty(before[1..]));
    ClassNamesStep(before);
    AppendAssoc(done, head, tail);
    if |before| == 1 {
      assert before[1..] == [];
      assert tail == [];
    }
  }

  /**
   * readClassNames: file is the label file's text, or None when it cannot be
   * opened, in which case the program reports the file name and exits.
   */
  method ReadClassNames(filename: string, file: Option<string>) returns (r: Result<seq<string>>)
    requires file.Some? ==> |file.value| <= MAX_SIZE
    ensures file.None? ==> r == Err(LabelFileNotFound(filename))
    ensures file.Some? ==> r == Ok(ClassNames(file.value))
  {
    if file.None? {
      return Err(LabelFileNotFound(filename));
    }
    var fp := new LineStream(file.value);
    var classNames: seq<string> := [];
    while !fp.eof
      invariant fp.Valid() && fp.data == file.value
      invariant fp.fail ==> fp.eof
      invariant !fp.eof ==> ClassNames(file.value) == classNames + Labels(NonEmpty(Lines(fp.Rest())))
      invariant fp.eof ==> ClassNames(file.value) == classNames
      decreases !fp.eof, |fp.data| - fp.pos
    {
      ghost var before := Lines(fp.Rest());
      var name := fp.GetLine();
      ghost var done := classNames;
      if |name| > 0 {
        var stripped := LabelOf(name);
        classNames := classNames + [stripped.value];
      }
      ReadStep(ClassNames(file.value), done, before, classNames);
    }
    return Ok(classNames);
  }

  /**
   * classNames.at(classId): the int class id is converted to size_t, so a
   * negative id becomes a huge index; the lookup succeeds exactly when
   * 0 <= classId < |classNames| and throws std::out_of_range otherwise.
   */
  function ClassNameAt(classNames: seq<string>, classId: int32): (r: Result<string>)
    requires |classNames| <= MAX_SIZE
    ensures r.Ok? <==> 0 <= classId as int < |classNames|
    ensures r.Ok? ==> r.value == classNames[classId as int]
    ensures r.Err? ==> r.error == OutOfRange
  {
    assert classId < 0 ==> ToSize(classId) == classId as int + SIZE_MODULUS;
    VectorAt(classNames, ToSize(classId))
  }

  /**
   * The end of doDnn: the label table is loaded, then the label of the best
   * class is taken from it; this is the name printed after "Best class: #".
   */
  method BestClassName(file: Option<string>, classId: int32) returns (r: Result<string>)
    requires file.Some? ==> |file.value| <= MAX_SIZE
    ensures file.None? ==> r == Err(LabelFileNotFound(LABEL_FILE))
    ensures file.Some? && 0 <= classId as int < |ClassNames(file.value)| ==>
      r == Ok(ClassNames(file.value)[classId])
    ensures file.Some? && !(0 <= classId as int < |ClassNames(file.value)|) ==> r == Err(OutOfRange)
  {
    var names := ReadClassNames(LABEL_FILE, file);
    if names.Err? {
      return Err(names.error);
    }
    ClassNamesBound(file.value);
    r := ClassNameAt(names.value, classId);
  }
}
