/**
 The line buffer of an interaction: the codepoints of the line being edited
 and a cursor offset into them, with the editing operations the readline
 functions apply to it. Word motions count only ASCII letters and digits as
 word characters; everything else, the underscore included, separates words.
 */
module LineBuffers {

  datatype LineBuffer = LineBuffer(text: seq<int>, cursor: nat) {
    /** The cursor never leaves the text: `0 <= cursor <= |text|`. */
    predicate Valid()
    {
      cursor <= |text|
    }
  }

  const Empty: LineBuffer := LineBuffer([], 0)

  /** Inserts `cp` at the cursor and moves the cursor past it. */
  function Insert(b: LineBuffer, cp: int): (r: LineBuffer)
    requires b.Valid()
    ensures r.Valid() && |r.text| == |b.text| + 1 && r.cursor == b.cursor + 1
    ensures r.text[b.cursor] == cp
    ensures r.text[..b.cursor] == b.text[..b.cursor] && r.text[b.cursor + 1..] == b.text[b.cursor..]
  {
    LineBuffer(b.text[..b.cursor] + [cp] + b.text[b.cursor..], b.cursor + 1)
  }

  /** Inserts several codepoints, one after the other. */
  function InsertAll(b: LineBuffer, cps: seq<int>): (r: LineBuffer)
    requires b.Valid()
    ensures r.Valid() && |r.text| == |b.text| + |cps| && r.cursor == b.cursor + |cps|
    decreases |cps|
  {
    if cps == [] then b else InsertAll(Insert(b, cps[0]), cps[1..])
  }

  /** Removes the codepoint before the cursor; nothing happens at the start. */
  function BackwardDeleteChar(b: LineBuffer): (r: LineBuffer)
    requires b.Valid()
    ensures r.Valid()
    ensures b.cursor == 0 ==> r == b
    ensures b.cursor > 0 ==> |r.text| == |b.text| - 1 && r.cursor == b.cursor - 1
  {
    if b.cursor == 0 then b
    else LineBuffer(b.text[..b.cursor - 1] + b.text[b.cursor..], b.cursor - 1)
  }

  /** Removes the codepoint under the cursor; nothing happens at the end. */
  function DeleteChar(b: LineBuffer): (r: LineBuffer)
    requires b.Valid()
    ensures r.Valid()
    ensures b.cursor == |b.text| ==> r == b
    ensures b.cursor < |b.text| ==> |r.text| == |b.text| - 1 && r.cursor == b.cursor
  {
    if b.cursor == |b.text| then b
    else LineBuffer(b.text[..b.cursor] + b.text[b.cursor + 1..], b.cursor)
  }

  function BackwardChar(b: LineBuffer): (r: LineBuffer)
    requires b.Valid()
    ensures r.Valid() && r.text == b.text
  {
    if b.cursor == 0 then b else b.(cursor := b.cursor - 1)
  }

  function ForwardChar(b: LineBuffer): (r: LineBuffer)
    requires b.Valid()
    ensures r.Valid() && r.text == b.text
  {
    if b.cursor == |b.text| then b else b.(cursor := b.cursor + 1)
  }

  function BeginningOfLine(b: LineBuffer): (r: LineBuffer)
    ensures r.Valid() && r.text == b.text
  {
    b.(cursor := 0)
  }

  function EndOfLine(b: LineBuffer): (r: LineBuffer)
    ensures r.Valid() && r.text == b.text
  {
    b.(cursor := |b.text|)
  }

  /** Deletes from the cursor to the end of the line, the cursor staying put. */
  function KillLine(b: LineBuffer): (r: LineBuffer)
    requires b.Valid()
    ensures r.Valid() && r.cursor == b.cursor && r.cursor == |r.text|
    ensures r.text == b.text[..b.cursor]
  {
    LineBuffer(b.text[..b.cursor], b.cursor)
  }

  // ------------------------------------------------------------------ words

  /** Word characters: ASCII letters and digits. */
  predicate IsWordChar(cp: int)
  {
    ('a' as int <= cp <= 'z' as int) || ('A' as int <= cp <= 'Z' as int) || ('0' as int <= cp <= '9' as int)
  }

  /** Moving left from `j` over the codepoints whose word-ness is `word`:
      the run crossed lies entirely in that class and the codepoint before
      where it stops, if any, does not. */
  function SkipBack(t: seq<int>, j: nat, word: bool): (r: nat)
    requires j <= |t|
    ensures r <= j
    ensures forall k :: r <= k < j ==> IsWordChar(t[k]) == word
    ensures r == 0 || IsWordChar(t[r - 1]) != word
    decreases j
  {
    if j > 0 && IsWordChar(t[j - 1]) == word then SkipBack(t, j - 1, word) else j
  }

  /** Moving right from `j` over the codepoints whose word-ness is `word`. */
  function SkipForward(t: seq<int>, j: nat, word: bool): (r: nat)
    requires j <= |t|
    ensures j <= r <= |t|
    ensures forall k :: j <= k < r ==> IsWordChar(t[k]) == word
    ensures r == |t| || IsWordChar(t[r]) != word
    decreases |t| - j
  {
    if j < |t| && IsWordChar(t[j]) == word then SkipForward(t, j + 1, word) else j
  }

  /** Where backward-word lands: over the separators before the cursor, then
      over the word before them. */
  function BackwardWordTarget(t: seq<int>, c: nat): nat
    requires c <= |t|
  {
    SkipBack(t, SkipBack(t, c, false), true)
  }

  /** Where forward-word lands: over the separators after the cursor, then
      over the word after them. */
  function ForwardWordTarget(t: seq<int>, c: nat): nat
    requires c <= |t|
  {
    SkipForward(t, SkipForward(t, c, false), true)
  }

  /** Between `lo` and `hi` lies a run of codepoints of one class up to `m`
      and a run of the other class from `m` on. */
  predicate TwoRuns(t: seq<int>, lo: nat, m: nat, hi: nat, firstIsWord: bool)
    requires lo <= m <= hi <= |t|
  {
    (forall k :: lo <= k < m ==> IsWordChar(t[k]) == firstIsWord) &&
    (forall k :: m <= k < hi ==> IsWordChar(t[k]) != firstIsWord)
  }

  /** The backward-word target is the start of a word, or the start of the
      line, with a word and then only separators between it and the cursor. */
  lemma BackwardWordLands(t: seq<int>, c: nat)
    requires c <= |t|
    ensures var r := BackwardWordTarget(t, c);
            r <= c && (r == 0 || !IsWordChar(t[r - 1])) &&
            exists m :: r <= m <= c && TwoRuns(t, r, m, c, true) && (m == 0 || IsWordChar(t[m - 1]))
  {
    var m := SkipBack(t, c, false);
    assert TwoRuns(t, BackwardWordTarget(t, c), m, c, true);
  }

  /** The forward-word target is the end of a word, or the end of the line,
      with only separators and then a word between the cursor and it. */
  lemma ForwardWordLands(t: seq<int>, c: nat)
    requires c <= |t|
    ensures var r := ForwardWordTarget(t, c);
            c <= r <= |t| && (r == |t| || !IsWordChar(t[r])) &&
            exists m :: c <= m <= r && TwoRuns(t, c, m, r, false) && (m == |t| || IsWordChar(t[m]))
  {
    var m := SkipForward(t, c, false);
    assert TwoRuns(t, c, m, ForwardWordTarget(t, c), false);
  }

  /** The backward-word loop: first over separators, then over word
      characters. */
  method FindBackwardWord(t: seq<int>, c: nat) returns (r: nat)
    requires c <= |t|
    ensures r == BackwardWordTarget(t, c)
  {
    r := c;
    while r > 0 && !IsWordChar(t[r - 1])
      invariant r <= c && SkipBack(t, r, false) == SkipBack(t, c, false)
    {
      r := r - 1;
    }
    ghost var m := r;
    while r > 0 && IsWordChar(t[r - 1])
      invariant r <= m && SkipBack(t, r, true) == SkipBack(t, m, true)
    {
      r := r - 1;
    }
  }

  /** The forward-word loop: first over separators, then over word
      characters. */
  method FindForwardWord(t: seq<int>, c: nat) returns (r: nat)
    requires c <= |t|
    ensures r == ForwardWordTarget(t, c)
  {
    r := c;
    while r < |t| && !IsWordChar(t[r])
      invariant c <= r <= |t| && SkipForward(t, r, false) == SkipForward(t, c, false)
    {
      r := r + 1;
    }
    ghost var m := r;
    while r < |t| && IsWordChar(t[r])
      invariant m <= r <= |t| && SkipForward(t, r, true) == SkipForward(t, m, true)
    {
      r := r + 1;
    }
  }

  function BackwardWord(b: LineBuffer): (r: LineBuffer)
    requires b.Valid()
    ensures r.Valid() && r.text == b.text && r.cursor <= b.cursor
  {
    b.(cursor := BackwardWordTarget(b.text, b.cursor))
  }

  function ForwardWord(b: LineBuffer): (r: LineBuffer)
    requires b.Valid()
    ensures r.Valid() && r.text == b.text && r.cursor >= b.cursor
  {
    b.(cursor := ForwardWordTarget(b.text, b.cursor))
  }

  /** Deletes the text backward-word would move over. */
  function BackwardKillWord(b: LineBuffer): (r: LineBuffer)
    requires b.Valid()
    ensures r.Valid()
  {
    var j := BackwardWordTarget(b.text, b.cursor);
    LineBuffer(b.text[..j] + b.text[b.cursor..], j)
  }

  // ----------------------------------------------------------------- lemmas

  /** Inserting several codepoints splices them in at the cursor, which ends
      up after them. */
  lemma {:induction false} InsertAllSplices(b: LineBuffer, cps: seq<int>)
    requires b.Valid()
    ensures InsertAll(b, cps) == LineBuffer(b.text[..b.cursor] + cps + b.text[b.cursor..], b.cursor + |cps|)
    decreases |cps|
  {
    if cps != [] {
      var b1 := Insert(b, cps[0]);
      InsertAllSplices(b1, cps[1..]);
      assert b1.text[..b1.cursor] == b.text[..b.cursor] + [cps[0]];
      assert [cps[0]] + cps[1..] == cps;
    }
  }

  /** At the edges the motions and deletions do nothing. */
  lemma EdgeOperationsAreNoOps(b: LineBuffer)
    requires b.Valid()
    ensures b.cursor == 0 ==> BackwardChar(b) == b && BackwardDeleteChar(b) == b && BackwardWord(b) == b
    ensures b.cursor == |b.text| ==> ForwardChar(b) == b && DeleteChar(b) == b && ForwardWord(b) == b
    ensures b.text == [] ==> BackwardDeleteChar(b) == b && DeleteChar(b) == b
  {
  }

  /** Backward-delete undoes an insertion. */
  lemma InsertThenBackwardDelete(b: LineBuffer, cp: int)
    requires b.Valid()
    ensures BackwardDeleteChar(Insert(b, cp)) == b
  {
    var r := Insert(b, cp);
    assert r.text[..b.cursor] + r.text[b.cursor + 1..] == b.text;
  }

  /** Deleting the codepoint under the cursor and inserting it back is the
      same as moving forward over it. */
  lemma DeleteCharThenInsert(b: LineBuffer)
    requires b.Valid() && b.cursor < |b.text|
    ensures Insert(DeleteChar(b), b.text[b.cursor]) == ForwardChar(b)
  {
    var c := b.cursor;
    assert b.text[..c] + [b.text[c]] + b.text[c + 1..] == b.text;
  }

  /** Backward-delete removes exactly the codepoint before the cursor. */
  lemma BackwardDeleteRemovesPrevious(b: LineBuffer)
    requires b.Valid() && b.cursor > 0
    ensures Insert(BackwardDeleteChar(b), b.text[b.cursor - 1]) == b
  {
    var c := b.cursor;
    assert b.text[..c - 1] + [b.text[c - 1]] + b.text[c..] == b.text;
  }

  /** Moving back one and forward again returns to the same place, and the
      other way round. */
  lemma BackwardForwardInverse(b: LineBuffer)
    requires b.Valid()
    ensures b.cursor > 0 ==> ForwardChar(BackwardChar(b)) == b
    ensures b.cursor < |b.text| ==> BackwardChar(ForwardChar(b)) == b
  {
  }

  /** Beginning- and end-of-line are idempotent, keep the text and put the
      cursor at the two ends. */
  lemma LineEndsIdempotent(b: LineBuffer)
    ensures BeginningOfLine(BeginningOfLine(b)) == BeginningOfLine(b) && BeginningOfLine(b).cursor == 0
    ensures EndOfLine(EndOfLine(b)) == EndOfLine(b) && EndOfLine(b).cursor == |b.text|
  {
  }

  /** Backward-kill-word deletes what backward-word moves over, and nothing
      else: the text before the target and from the cursor on is kept, and
      the cursor ends at the target. */
  lemma BackwardKillWordSpan(b: LineBuffer)
    requires b.Valid()
    ensures var j := BackwardWord(b).cursor;
            var r := BackwardKillWord(b);
            r.cursor == j && |r.text| == |b.text| - (b.cursor - j) &&
            r.text[..j] == b.text[..j] && r.text[j..] == b.text[b.cursor..]
  {
  }

  /** Kill-line is idempotent and leaves the cursor at the end of the line. */
  lemma KillLineIdempotent(b: LineBuffer)
    requires b.Valid()
    ensures KillLine(KillLine(b)) == KillLine(b)
    ensures EndOfLine(KillLine(b)) == KillLine(b)
  {
  }

  /** The editing operations of the line-editing invariant. */
  datatype Edit = InsertEdit(cp: int) | BackwardDeleteEdit | DeleteEdit | BackwardEdit | ForwardEdit | HomeEdit | EndEdit

  function ApplyEdit(b: LineBuffer, e: Edit): (r: LineBuffer)
    requires b.Valid()
    ensures r.Valid()
  {
    match e
    case InsertEdit(cp) => Insert(b, cp)
    case BackwardDeleteEdit => BackwardDeleteChar(b)
    case DeleteEdit => DeleteChar(b)
    case BackwardEdit => BackwardChar(b)
    case ForwardEdit => ForwardChar(b)
    case HomeEdit => BeginningOfLine(b)
    case EndEdit => EndOfLine(b)
  }

  /** How one edit changes the length: +1 for an insertion, -1 for a deletion
      that had something to delete, 0 otherwise. */
  function LengthChange(b: LineBuffer, e: Edit): int
  {
    match e
    case InsertEdit(_) => 1
    case BackwardDeleteEdit => if b.cursor > 0 then -1 else 0
    case DeleteEdit => if b.cursor < |b.text| then -1 else 0
    case _ => 0
  }

  /** Applies edits in order, and adds up the length changes they make. */
  function ApplyEdits(b: LineBuffer, es: seq<Edit>): (r: (LineBuffer, int))
    requires b.Valid()
    decreases |es|
  {
    if es == [] then (b, 0)
    else
      var next := ApplyEdit(b, es[0]);
      var rest := ApplyEdits(next, es[1..]);
      (rest.0, LengthChange(b, es[0]) + rest.1)
  }

  /** The line-editing invariant: after any sequence of edits the cursor is
      within the text and the length is the original length plus the
      insertions minus the deletions actually applied. */
  lemma {:induction false} EditsKeepInvariant(b: LineBuffer, es: seq<Edit>)
    requires b.Valid()
    ensures ApplyEdits(b, es).0.Valid()
    ensures |ApplyEdits(b, es).0.text| == |b.text| + ApplyEdits(b, es).1
    decreases |es|
  {
    if es != [] {
      EditsKeepInvariant(ApplyEdit(b, es[0]), es[1..]);
    }
  }

  /** The word tests on "a01 e9__5a", backward: from 9 backward-word
      visits 8, 4 and 0 and stays there. */
  lemma BackwardWordExamples()
    ensures var t := [97, 48, 49, 32, 101, 57, 95, 95, 53, 97];
            BackwardWordTarget(t, 9) == 8 && BackwardWordTarget(t, 8) == 4 &&
            BackwardWordTarget(t, 4) == 0 && BackwardWordTarget(t, 0) == 0
  {
    var t := [97, 48, 49, 32, 101, 57, 95, 95, 53, 97];
    assert SkipBack(t, 9, false) == 9;
    assert SkipBack(t, 8, false) == 6;
    assert SkipBack(t, 4, false) == 3;
  }

  /** Forward: from 1 forward-word visits 3, 6 and 10 and stays there. */
  lemma ForwardWordExamples()
    ensures var t := [97, 48, 49, 32, 101, 57, 95, 95, 53, 97];
            ForwardWordTarget(t, 1) == 3 && ForwardWordTarget(t, 3) == 6 &&
            ForwardWordTarget(t, 6) == 10 && ForwardWordTarget(t, 10) == 10
  {
    var t := [97, 48, 49, 32, 101, 57, 95, 95, 53, 97];
    assert SkipForward(t, 3, false) == 4;
    assert SkipForward(t, 6, false) == 8;
  }

  /** Killing: from 9 backward-kill-word leaves "a01 e9__a", then "a01 a",
      then "a", which it keeps. */
  lemma KillWordExamples()
    ensures var k1 := BackwardKillWord(LineBuffer([97, 48, 49, 32, 101, 57, 95, 95, 53, 97], 9));
            var k2 := BackwardKillWord(k1);
            var k3 := BackwardKillWord(k2);
            k1 == LineBuffer([97, 48, 49, 32, 101, 57, 95, 95, 97], 8) &&
            k2 == LineBuffer([97, 48, 49, 32, 97], 4) &&
            k3 == LineBuffer([97], 0) && BackwardKillWord(k3) == k3
  {
    var t := [97, 48, 49, 32, 101, 57, 95, 95, 53, 97];
    assert SkipBack(t, 9, false) == 9;
    var k1 := BackwardKillWord(LineBuffer(t, 9));
    assert k1.text == [97, 48, 49, 32, 101, 57, 95, 95, 97];
    assert SkipBack(k1.text, 8, false) == 6;
    var k2 := BackwardKillWord(k1);
    assert k2.text == [97, 48, 49, 32, 97];
    assert SkipBack(k2.text, 4, false) == 3;
  }
}
