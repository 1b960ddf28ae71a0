/**
 * The meaning of a label file, independent of how it is read: the text is cut
 * into lines at every '\n', empty lines are dropped, and each remaining line
 * gives the part after its first space (the whole line when it has none).
 */
module LabelSpec {
  import opened Results

  // ---------------------------------------------------------------- sequences

  // Generic facts about sequences, proved where no other facts are in scope.

  lemma AppendAssoc<T>(a: seq<T>, b: seq<T>, c: seq<T>)
    ensures a + (b + c) == (a + b) + c
  {
  }

  lemma SplitFirst<T>(s: seq<T>)
    requires |s| > 0
    ensures s == [s[0]] + s[1..]
  {
  }

  lemma HeadTailAppend<T>(s: seq<T>, u: seq<T>)
    requires |s| > 0
    ensures (s + u)[0] == s[0] && (s + u)[1..] == s[1..] + u
  {
  }

  lemma SplitLast<T>(s: seq<T>)
    requires |s| > 0
    ensures s == s[..|s| - 1] + [s[|s| - 1]]
  {
  }

  // ---------------------------------------------------------------- lines

  /**
   * The lines std::getline delivers one after another: the pieces between the
   * '\n' characters, which are not kept. A text with n newlines has n + 1
   * pieces, the last one empty when the text ends with '\n'. A '\r' before the
   * '\n' stays part of its line.
   */
  function Lines(t: string): (ls: seq<string>)
    ensures |ls| >= 1
    ensures forall i :: 0 <= i < |ls| ==> '\n' !in ls[i]
    decreases |t|
  {
    if t == [] then [[]]
    else
      var rest := Lines(t[1..]);
      if t[0] == '\n' then [[]] + rest
      else [[t[0]] + rest[0]] + rest[1..]
  }

  /** A text with n newlines has n + 1 lines. */
  lemma {:induction false} LinesCount(t: string)
    ensures |Lines(t)| == multiset(t)['\n'] + 1
    decreases |t|
  {
    if t != [] {
      LinesCount(t[1..]);
      assert t == [t[0]] + t[1..];
      assert multiset(t) == multiset{t[0]} + multiset(t[1..]);
    }
  }

  /** The inverse of Lines: the pieces glued back together with '\n'. */
  function Join(ls: seq<string>): string
    requires |ls| >= 1
  {
    if |ls| == 1 then ls[0] else ls[0] + "\n" + Join(ls[1..])
  }

  /** Reading the lines loses nothing: gluing them back gives the text. */
  lemma {:induction false} JoinLines(t: string)
    ensures Join(Lines(t)) == t
    decreases |t|
  {
    if t != [] {
      JoinLines(t[1..]);
      var rest := Lines(t[1..]);
      if t[0] == '\n' {
        assert Lines(t) == [[]] + rest;
        assert Lines(t)[1..] == rest;
      } else {
        assert Lines(t) == [[t[0]] + rest[0]] + rest[1..];
        if |rest| > 1 {
          assert Join(rest) == rest[0] + "\n" + Join(rest[1..]);
          assert Lines(t)[1..] == rest[1..];
        }
      }
      assert t == [t[0]] + t[1..];
    }
  }

  /**
   * The first line of s is everything before the first '\n' (or all of s), and
   * the later lines are the lines of what follows that '\n'.
   */
  lemma {:induction false} LinesUntilNewline(s: string, k: nat)
    requires k <= |s| && '\n' !in s[..k]
    requires k == |s| || s[k] == '\n'
    ensures Lines(s)[0] == s[..k]
    ensures k == |s| <==> |Lines(s)| == 1
    ensures k < |s| ==> Lines(s)[1..] == Lines(s[k + 1..])
    decreases k
  {
    if k == 0 {
      if s != [] {
        assert Lines(s) == [[]] + Lines(s[1..]);
      }
    } else {
      assert s[0] in s[..k];
      assert s[1..][..k - 1] == s[1..k];
      assert s[1..k] == s[..k][1..];
      LinesUntilNewline(s[1..], k - 1);
      assert s[..k] == [s[0]] + s[1..][..k - 1];
      if k < |s| {
        assert s[1..][k..] == s[k + 1..];
      }
    }
  }

  /** A line that holds no '\n' is read as exactly one line. */
  lemma LinesOfLine(l: string)
    requires '\n' !in l
    ensures Lines(l) == [l]
  {
    assert l[..|l|] == l;
    LinesUntilNewline(l, |l|);
  }

  /** Two texts joined by a newline have the lines of the first followed by those of the second. */
  lemma {:induction false} LinesConcat(a: string, b: string)
    ensures Lines(a + "\n" + b) == Lines(a) + Lines(b)
    decreases |a|
  {
    var t := a + "\n" + b;
    var lb := Lines(b);
    if a == [] {
      assert t == ['\n'] + b;
      assert t[1..] == b;
      AppendAssoc([[]], [], lb);
    } else {
      assert t[0] == a[0];
      assert t[1..] == a[1..] + "\n" + b;
      LinesConcat(a[1..], b);
      var la := Lines(a[1..]);
      if a[0] == '\n' {
        AppendAssoc([[]], la, lb);
      } else {
        HeadTailAppend(la, lb);
        AppendAssoc([[a[0]] + la[0]], la[1..], lb);
      }
    }
  }

  /** Lines and Join are inverse on sequences of newline-free pieces. */
  lemma {:induction false} LinesJoin(ls: seq<string>)
    requires |ls| >= 1
    requires forall i :: 0 <= i < |ls| ==> '\n' !in ls[i]
    ensures Lines(Join(ls)) == ls
    decreases |ls|
  {
    if |ls| == 1 {
      LinesOfLine(ls[0]);
    } else {
      LinesJoin(ls[1..]);
      LinesOfLine(ls[0]);
      LinesConcat(ls[0], Join(ls[1..]));
      SplitFirst(ls);
    }
  }

  // ---------------------------------------------------------------- empty lines

  /** The lines that are kept: the non-empty ones, in their order. */
  function NonEmpty(ls: seq<string>): (r: seq<string>)
    ensures |r| <= |ls|
    ensures forall i :: 0 <= i < |r| ==> r[i] != [] && r[i] in ls
  {
    if ls == [] then []
    else (if ls[0] == [] then [] else [ls[0]]) + NonEmpty(ls[1..])
  }

  lemma {:induction false} NonEmptyConcat(a: seq<string>, b: seq<string>)
    ensures NonEmpty(a + b) == NonEmpty(a) + NonEmpty(b)
    decreases |a|
  {
    if a == [] {
      assert a + b == b;
    } else {
      assert (a + b)[0] == a[0];
      assert (a + b)[1..] == a[1..] + b;
      NonEmptyConcat(a[1..], b);
    }
  }

  /**
   * The positions of the non-empty lines, in increasing order: every position
   * it lists holds a non-empty line (and NonEmptyIndicesComplete: every
   * non-empty line is listed).
   */
  function NonEmptyIndices(ls: seq<string>): (idx: seq<nat>)
    ensures forall k :: 0 <= k < |idx| ==> idx[k] < |ls| && ls[idx[k]] != []
    ensures forall k, m :: 0 <= k < m < |idx| ==> idx[k] < idx[m]
  {
    if ls == [] then []
    else
      var n := |ls| - 1;
      var front := NonEmptyIndices(ls[..n]);
      assert forall j :: 0 <= j < n ==> ls[..n][j] == ls[j];
      front + (if ls[n] == [] then [] else [n])
  }

  lemma {:induction false} NonEmptyIndicesComplete(ls: seq<string>, j: nat)
    requires j < |ls| && ls[j] != []
    ensures j in NonEmptyIndices(ls)
    decreases |ls|
  {
    var n := |ls| - 1;
    if j < n {
      NonEmptyIndicesComplete(ls[..n], j);
    }
  }

  /** The k-th kept line is the line at the k-th non-empty position. */
  lemma {:induction false} NonEmptyAt(ls: seq<string>)
    ensures |NonEmpty(ls)| == |NonEmptyIndices(ls)|
    ensures forall k :: 0 <= k < |NonEmpty(ls)| ==> NonEmpty(ls)[k] == ls[NonEmptyIndices(ls)[k]]
    decreases |ls|
  {
    if ls != [] {
      var n := |ls| - 1;
      var front := ls[..n];
      NonEmptyAt(front);
      SplitLast(ls);
      NonEmptyConcat(front, [ls[n]]);
      var last: seq<string> := if ls[n] == [] then [] else [ls[n]];
      assert NonEmpty([ls[n]]) == last;
      var kept, idx := NonEmpty(ls), NonEmptyIndices(ls);
      assert kept == NonEmpty(front) + last;
      assert idx == NonEmptyIndices(front) + (if ls[n] == [] then [] else [n]);
      forall k | 0 <= k < |kept|
        ensures kept[k] == ls[idx[k]]
      {
        if k < |NonEmpty(front)| {
          assert kept[k] == front[NonEmptyIndices(front)[k]];
        }
      }
    }
  }

  // ---------------------------------------------------------------- one label

  /** The text after the first space, None when s has no space. */
  function AfterFirstSpace(s: string): (r: Option<string>)
    ensures r.None? <==> ' ' !in s
    ensures r.Some? ==>
      var k := |s| - |r.value| - 1;
      0 <= k && s[k] == ' ' && ' ' !in s[..k] && s[k + 1..] == r.value
  {
    if s == [] then None
    else if s[0] == ' ' then Some(s[1..])
    else
      assert s == [s[0]] + s[1..];
      var r := AfterFirstSpace(s[1..]);
      assert r.Some? ==> s[..|s| - |r.value| - 1] == [s[0]] + s[1..][..|s| - 1 - |r.value| - 1];
      r
  }

  /**
   * The label of one non-empty line: what follows its first space, or the
   * whole line when it has no space. It is always a suffix of the line, and
   * strictly shorter exactly when the line holds a space.
   */
  function Label(line: string): (r: string)
    ensures |r| <= |line| && r == line[|line| - |r|..]
    ensures ' ' in line <==> |r| < |line|
    ensures ' ' !in line ==> r == line
  {
    match AfterFirstSpace(line)
    case None => line
    case Some(rest) => rest
  }

  /** A line "token rest" with no space in the token gives rest, spaces and all. */
  lemma LabelAfterToken(token: string, rest: string)
    requires ' ' !in token
    ensures Label(token + " " + rest) == rest
  {
    var s := token + " " + rest;
    assert s[|token|] == ' ';
    assert s[..|token|] == token;
    assert s[|token| + 1..] == rest;
  }

  /** The label file format the program expects: "n04266014 space shuttle". */
  lemma SpaceShuttleLabel()
    ensures Label("n04266014 space shuttle") == "space shuttle"
  {
    assert "n04266014" + " " + "space shuttle" == "n04266014 space shuttle";
    LabelAfterToken("n04266014", "space shuttle");
  }

  /** The labels of a sequence of lines, one per line, in order. */
  function Labels(ls: seq<string>): (r: seq<string>)
    ensures |r| == |ls|
    ensures forall i :: 0 <= i < |ls| ==> r[i] == Label(ls[i])
  {
    if ls == [] then [] else [Label(ls[0])] + Labels(ls[1..])
  }

  lemma LabelsConcat(a: seq<string>, b: seq<string>)
    ensures Labels(a + b) == Labels(a) + Labels(b)
  {
    assert forall i :: 0 <= i < |a| + |b| ==> (a + b)[i] == if i < |a| then a[i] else b[i - |a|];
  }

  // ---------------------------------------------------------------- the table

  /** The class name table a label file gives. */
  function ClassNames(t: string): (r: seq<string>)
    ensures |r| == |NonEmpty(Lines(t))|
    ensures forall i :: 0 <= i < |r| ==> r[i] == Label(NonEmpty(Lines(t))[i])
  {
    Labels(NonEmpty(Lines(t)))
  }

  /**
   * What reading one line adds to the table: nothing for an empty line,
   * its label otherwise.
   */
  lemma ClassNamesStep(ls: seq<string>)
    requires |ls| >= 1
    ensures Labels(NonEmpty(ls)) == (if ls[0] == [] then [] else [Label(ls[0])]) + Labels(NonEmpty(ls[1..]))
  {
    var head: seq<string> := if ls[0] == [] then [] else [ls[0]];
    assert NonEmpty(ls) == head + NonEmpty(ls[1..]);
    LabelsConcat(head, NonEmpty(ls[1..]));
    assert Labels(head) == if ls[0] == [] then [] else [Label(ls[0])];
  }

  /**
   * The table has one entry per non-empty line, and the k-th entry is the
   * label of the k-th non-empty line.
   */
  lemma ClassNamesOrder(t: string)
    ensures |ClassNames(t)| == |NonEmptyIndices(Lines(t))|
    ensures forall k :: 0 <= k < |ClassNames(t)| ==>
      ClassNames(t)[k] == Label(Lines(t)[NonEmptyIndices(Lines(t))[k]])
  {
    NonEmptyAt(Lines(t));
  }

  /** The table of two texts joined by a newline is the first table followed by the second. */
  lemma ClassNamesConcat(a: string, b: string)
    ensures ClassNames(a + "\n" + b) == ClassNames(a) + ClassNames(b)
  {
    LinesConcat(a, b);
    NonEmptyConcat(Lines(a), Lines(b));
    LabelsConcat(NonEmpty(Lines(a)), NonEmpty(Lines(b)));
  }

  /** An empty line contributes nothing to the table. */
  lemma EmptyLineSkipped(a: string, b: string)
    ensures ClassNames(a + "\n\n" + b) == ClassNames(a + "\n" + b)
  {
    var e: string := [];
    var nb := e + "\n" + b;
    assert a + "\n\n" + b == a + "\n" + nb;
    ClassNamesConcat(a, nb);
    ClassNamesConcat(e, b);
    assert Lines(e) == [[]];
    assert ClassNames(e) == [];
    assert ClassNames(nb) == ClassNames(b);
    ClassNamesConcat(a, b);
    assert ClassNames(a + "\n" + nb) == ClassNames(a) + ClassNames(b);
  }

  /** A final newline changes nothing: the empty read after it is skipped. */
  lemma TrailingNewlineIgnored(t: string)
    ensures ClassNames(t + "\n") == ClassNames(t)
  {
    ClassNamesConcat(t, []);
    assert t + "\n" + [] == t + "\n";
  }

  /** A file of one non-empty line without newline gives one entry, that line's label. */
  lemma ClassNamesOfLine(l: string)
    requires l != [] && '\n' !in l
    ensures ClassNames(l) == [Label(l)]
  {
    LinesOfLine(l);
  }

  /** A line whose first space is its last character gives an empty label, which is still an entry. */
  lemma EmptyLabelCounted(token: string)
    requires ' ' !in token && '\n' !in token
    ensures ClassNames(token + " ") == [[]]
  {
    LabelAfterToken(token, []);
    assert token + " " + [] == token + " ";
    ClassNamesOfLine(token + " ");
  }

  /** The table is never longer than the text: every entry comes from at least one character. */
  lemma {:induction false} ClassNamesBound(t: string)
    ensures |ClassNames(t)| <= |t|
    decreases |t|
  {
    if t != [] {
      ClassNamesBound(t[1..]);
      var rest := Lines(t[1..]);
      if t[0] != '\n' {
        assert Lines(t) == [[t[0]] + rest[0]] + rest[1..];
        assert NonEmpty(Lines(t)) == [[t[0]] + rest[0]] + NonEmpty(rest[1..]);
        SplitFirst(rest);
        assert |NonEmpty(rest)| >= |NonEmpty(rest[1..])|;
      } else {
        assert Lines(t) == [[]] + rest;
        assert NonEmpty(Lines(t)) == NonEmpty(rest);
      }
    }
  }
}
