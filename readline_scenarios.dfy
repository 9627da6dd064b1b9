/**
 The readline behaviours the unit tests pin down, each played on a fresh
 engine by calling its methods in the tests' order. Prompts are `% `; the
 keys that are escape sequences in a terminal arrive as key events named
 after the function the keymap binds them to. Beside each scenario a lemma
 works out, on the model, the states its steps go through.
 */
module ReadlineScenarios {
  import opened LineBuffers
  import opened LineStatus
  import opened Interactions
  import opened FunctionEvents
  import opened Readlines
  import Functions

  const Prompt: seq<int> := [37, 32]

  function BackwardKey(): Input { Keys(FunctionEvent(Functions.BackwardCharName, [27, 91, 68])) }
  function ForwardKey(): Input { Keys(FunctionEvent(Functions.ForwardCharName, [27, 91, 67])) }
  function UpKey(): Input { Keys(FunctionEvent(Functions.PreviousHistoryName, [27, 91, 65])) }
  function DownKey(): Input { Keys(FunctionEvent(Functions.NextHistoryName, [27, 91, 66])) }
  function BackwardWordSeq(): Input { Keys(FunctionEvent(Functions.BackwardWordName, [27, 98])) }
  function ForwardWordSeq(): Input { Keys(FunctionEvent(Functions.ForwardWordName, [27, 102])) }
  function MetaBackspace(): Input { Keys(FunctionEvent(Functions.BackwardKillWordName, [27, 127])) }
  const BackwardDeleteKey: Input := Code(127)
  const CtrlA: Input := Code(1)
  const CtrlC: Input := Code(3)
  const CtrlD: Input := Code(4)
  const CtrlE: Input := Code(5)
  const KillLineKey: Input := Code(11)
  const Tab: Input := Code(9)
  const EnterKey: Input := Code(13)

  // ------------------------------------------------------------ driving

  /** An interaction at prompt `% ` with no continuation and no browsing. */
  function Editing(text: seq<int>, cursor: nat, history: seq<seq<int>>): IState
  {
    IState(Prompt, [], LineBuffer(text, cursor), history, 0, [], false, false, [])
  }

  /** The engine with nothing queued. */
  function Engine(history: seq<seq<int>>, current: Option<IState>, screen: seq<seq<int>>, bells: nat, results: seq<Option<seq<int>>>): RState
  {
    RState(history, current, [], screen, bells, results)
  }

  /** The first read of a session, editing `text` with the cursor at `cursor`. */
  function Ed(text: seq<int>, cursor: nat): RState
  {
    Engine([], Some(Editing(text, cursor, [])), [], 0, [])
  }

  /** Codepoints typed at the end of the buffer are appended to it. */
  lemma Typed(t: seq<int>, cps: seq<int>)
    ensures InsertAll(LineBuffer(t, |t|), cps) == LineBuffer(t + cps, |t| + |cps|)
  {
    InsertAllSplices(LineBuffer(t, |t|), cps);
    assert t[..|t|] == t && t[|t|..] == [];
    assert t + cps + [] == t + cps;
  }

  /** A read in progress that takes the next key at once. */
  predicate Reading(s: RState)
  {
    s.Valid() && s.current.Some? && !s.current.value.paused && s.queue == []
  }

  /** A read request from idle with nothing queued. */
  method Begin(r: Readline, hasCompletionHandler: bool)
    requires r.Valid() && r.interaction == null && r.queue == []
    modifies r
    ensures r.Valid() && r.interaction != null && fresh(r.interaction)
    ensures r.State() == old(r.State()).(current := Some(Initial(Prompt, old(r.history), hasCompletionHandler)))
  {
    var ok := r.ReadLine(Prompt, hasCompletionHandler);
  }

  /** One key for a reading, unpaused interaction with nothing queued,
      leading from `prev` to `next`. */
  method Press(r: Readline, input: Input, ghost prev: RState, ghost next: RState)
    requires r.State() == prev && Reading(prev)
    requires Handle(prev, input) == next
    modifies r, r.interaction
    ensures r.State() == next
    ensures r.interaction == null || r.interaction == old(r.interaction)
  {
    DrainOne(r.State(), input);
    r.Read([input]);
  }

  /** The buffer with `cps` inserted at the cursor, in closed form. */
  function Spliced(b: LineBuffer, cps: seq<int>): LineBuffer
    requires b.Valid()
  {
    LineBuffer(b.text[..b.cursor] + cps + b.text[b.cursor..], b.cursor + |cps|)
  }

  lemma SpliceEmpty(t: seq<int>)
    ensures Spliced(Empty, t) == LineBuffer(t, |t|)
  {
    assert [] + t + [] == t;
  }

  /** Shorthand for the state after typing `cps`. */
  function Typing(s: RState, cps: seq<int>): RState
    requires s.Valid() && s.current.Some?
  {
    s.(current := Some(s.current.value.(buffer := Spliced(s.current.value.buffer, cps))))
  }

  /** Typing printable codepoints into a reading interaction splices them in
      at the cursor, and a key read after them is handled on the new line. */
  lemma TypingSpec(s: RState, cps: seq<int>, rest: seq<Input>)
    requires Reading(s) && Printable(cps)
    ensures ReadSpec(s, Codes(cps) + rest) == ReadSpec(Typing(s, cps), rest)
  {
    var it := s.current.value;
    ReadIdle(s, Codes(cps) + rest);
    TypingInserts(s, cps, rest);
    InsertAllSplices(it.buffer, cps);
    var b := InsertAll(it.buffer, cps);
    assert Spliced(it.buffer, cps) == b;
    assert Typing(s, cps) == s.(current := Some(it.(buffer := b)));
    ReadIdle(Typing(s, cps), rest);
  }

  /** A read with nothing queued drains exactly the new input. */
  lemma ReadIdle(s: RState, inputs: seq<Input>)
    requires s.Valid() && s.queue == []
    ensures ReadSpec(s, inputs) == Drain(s.(queue := inputs))
  {
    assert s.queue + inputs == inputs;
  }

  lemma TypingThenSpec(s: RState, cps: seq<int>, input: Input)
    requires Reading(s) && Printable(cps)
    ensures ReadSpec(s, Codes(cps) + [input]) == Handle(Typing(s, cps), input)
  {
    TypingSpec(s, cps, [input]);
    DrainOne(Typing(s, cps), input);
  }

  /** A text whose every codepoint is a printable ASCII one. */
  lemma PrintableText(t: seq<int>)
    requires forall x :: x in t ==> 32 <= x < 127
    ensures Printable(t)
  {
    forall i | 0 <= i < |t| ensures 32 <= t[i] < 127 {
      assert t[i] in t;
    }
  }

  /** Printable codepoints read in one go. */
  method Type(r: Readline, cps: seq<int>, ghost prev: RState, ghost next: RState)
    requires r.State() == prev && Reading(prev)
    requires Printable(cps) && next == Typing(prev, cps)
    modifies r, r.interaction
    ensures r.State() == next
    ensures r.interaction == null || r.interaction == old(r.interaction)
  {
    TypingSpec(prev, cps, []);
    assert Codes(cps) + [] == Codes(cps);
    assert next.queue + [] == next.queue;
    r.Read(Codes(cps));
  }

  /** Printable codepoints typed on the empty first line. */
  method TypeLine(r: Readline, t: seq<int>)
    requires r.State() == Ed([], 0) && forall x :: x in t ==> 32 <= x < 127
    modifies r, r.interaction
    ensures r.State() == Ed(t, |t|)
    ensures r.interaction == old(r.interaction)
  {
    PrintableText(t);
    SpliceEmpty(t);
    assert Typing(Ed([], 0), t) == Ed(t, |t|);
    Type(r, t, Ed([], 0), Ed(t, |t|));
  }

  /** Printable codepoints and one more input read in one go. */
  method TypeThen(r: Readline, cps: seq<int>, input: Input, ghost prev: RState, ghost mid: RState, ghost next: RState)
    requires r.State() == prev && Reading(prev)
    requires Printable(cps) && mid == Typing(prev, cps)
    requires Handle(mid, input) == next
    modifies r, r.interaction
    ensures r.State() == next
    ensures r.interaction == null || r.interaction == old(r.interaction)
  {
    TypingThenSpec(prev, cps, input);
    r.Read(Codes(cps) + [input]);
  }

  // ---------------------------------------------------------- scenarios

  /** testPrompt: the prompt is shown and the cursor follows it. */
  method PromptShown() returns (rows: seq<seq<int>>, at: (int, int))
    ensures rows == [[37, 32]] && at == (0, 2)
  {
    var r := new Readline();
    Begin(r, false);
    assert Row(Editing([], 0, [])) == [37, 32];
    rows, at := Display(r.State()), CursorAt(r.State());
  }

  lemma EnterOnEmptyLineSteps()
    ensures Handle(Ed([], 0), EnterKey) == Engine([[]], None, [[37, 32]], 0, [Some([])])
  {
    assert Logical(Editing([], 0, [])) == [];
    assert Scan(Start, []) == Start;
    assert Row(Editing([], 0, [])) == [37, 32];
  }

  /** testEnter: Enter on an empty line delivers it and moves to the next
      row. */
  method EnterOnEmptyLine() returns (line: seq<Option<seq<int>>>, rows: seq<seq<int>>, at: (int, int))
    ensures line == [Some([])] && rows == [[37, 32]] && at == (1, 0)
  {
    var r := new Readline();
    Begin(r, false);
    EnterOnEmptyLineSteps();
    Press(r, EnterKey, Ed([], 0), Engine([[]], None, [[37, 32]], 0, [Some([])]));
    line, rows, at := r.results, Display(r.State()), CursorAt(r.State());
  }

  /** cancel: false while idle, then true once for the pending read, which
      is delivered null, then false again. */
  method CancelTwice() returns (first: bool, second: bool, third: bool, line: seq<Option<seq<int>>>)
    ensures !first && second && !third && line == [None]
  {
    var r := new Readline();
    first := r.Cancel();
    var ok := r.ReadLine(Prompt, false);
    second := r.Cancel();
    third := r.Cancel();
    line := r.results;
  }

  lemma InsertCharSteps()
    ensures Handle(Ed([], 0), Code(65)) == Ed([65], 1)
    ensures Display(Ed([65], 1)) == [[37, 32, 65]] && CursorAt(Ed([65], 1)) == (0, 3)
    ensures Handle(Ed([65], 1), EnterKey) == Engine([[65]], None, [[37, 32, 65]], 0, [Some([65])])
  {
    Typed([], [65]);
    assert Row(Editing([65], 1, [])) == [37, 32, 65];
    assert Logical(Editing([65], 1, [])) == [65];
    ScanPlain(Start, [65]);
  }

  /** testInsertChar. */
  method InsertChar() returns (rows: seq<seq<int>>, at: (int, int))
    ensures rows == [[37, 32, 65]] && at == (0, 3)
  {
    var r := new Readline();
    Begin(r, false);
    InsertCharSteps();
    Press(r, Code(65), Ed([], 0), Ed([65], 1));
    rows, at := Display(r.State()), CursorAt(r.State());
  }

  /** testInsertCharEnter. */
  method InsertCharEnter() returns (line: seq<Option<seq<int>>>, rows: seq<seq<int>>, at: (int, int))
    ensures line == [Some([65])] && rows == [[37, 32, 65]] && at == (1, 0)
  {
    var r := new Readline();
    Begin(r, false);
    InsertCharSteps();
    Press(r, Code(65), Ed([], 0), Ed([65], 1));
    Press(r, EnterKey, Ed([65], 1), Engine([[65]], None, [[37, 32, 65]], 0, [Some([65])]));
    line, rows, at := r.results, Display(r.State()), CursorAt(r.State());
  }

  /** The line `\` on its first row, continued on an empty `> ` row. */
  function Escaped(): RState
  {
    Engine([], Some(Editing([], 0, []).(lines := [[92]])), [[37, 32, 92]], 0, [])
  }

  lemma EscapeEnterSteps()
    ensures Handle(Ed([], 0), Code(92)) == Ed([92], 1)
    ensures Display(Ed([92], 1)) == [[37, 32, 92]]
    ensures Handle(Ed([92], 1), EnterKey) == Escaped()
    ensures Display(Escaped()) == [[37, 32, 92], [62, 32]] && CursorAt(Escaped()) == (1, 2)
  {
    Typed([], [92]);
    assert Row(Editing([92], 1, [])) == [37, 32, 92];
    assert Logical(Editing([92], 1, [])) == [92];
    assert Continues([92]) by { LineStatus.EscapeExamples(); }
    var lines: seq<seq<int>> := [];
    assert lines + [[92]] == [[92]];
    assert Ed([92], 1).screen + [[37, 32, 92]] == [[37, 32, 92]];
    assert Row(Editing([], 0, []).(lines := [[92]])) == [62, 32];
  }

  /** testEscapeCR: a trailing backslash makes Enter continue on a `> `
      line. */
  method EscapeEnter() returns (line: seq<Option<seq<int>>>, rows1: seq<seq<int>>, rows2: seq<seq<int>>, at: (int, int))
    ensures line == [] && rows1 == [[37, 32, 92]]
    ensures rows2 == [[37, 32, 92], [62, 32]] && at == (1, 2)
  {
    var r := new Readline();
    Begin(r, false);
    EscapeEnterSteps();
    Press(r, Code(92), Ed([], 0), Ed([92], 1));
    rows1 := Display(r.State());
    Press(r, EnterKey, Ed([92], 1), Escaped());
    line, rows2, at := r.results, Display(r.State()), CursorAt(r.State());
  }

  lemma BackwardDeleteSteps(cp: int)
    requires cp == 65 || cp == 92
    ensures Handle(Ed([], 0), Code(cp)) == Ed([cp], 1)
    ensures Handle(Ed([cp], 1), BackwardDeleteKey) == Ed([], 0)
  {
    Typed([], [cp]);
    assert BackwardDeleteChar(LineBuffer([cp], 1)) == LineBuffer([], 0);
    BoundCodeApplies(Ed([cp], 1), 127);
  }

  lemma EmptyLineKeys()
    ensures Handle(Ed([], 0), BackwardDeleteKey) == Ed([], 0)
    ensures Handle(Ed([], 0), BackwardKey()) == Ed([], 0)
    ensures Handle(Ed([], 0), ForwardKey()) == Ed([], 0)
    ensures Display(Ed([], 0)) == [[37, 32]] && CursorAt(Ed([], 0)) == (0, 2)
  {
    BoundCodeApplies(Ed([], 0), 127);
    EditKeyApplies(Ed([], 0), Functions.BackwardCharName, [27, 91, 68]);
    EditKeyApplies(Ed([], 0), Functions.ForwardCharName, [27, 91, 67]);
    assert Row(Editing([], 0, [])) == [37, 32];
  }

  /** testBackwardDeleteChar and testBackwardDeleteEscape: the only
      codepoint is deleted. */
  method BackwardDeleteOnly(cp: int) returns (rows: seq<seq<int>>, at: (int, int))
    requires cp == 65 || cp == 92
    ensures rows == [[37, 32]] && at == (0, 2)
  {
    var r := new Readline();
    Begin(r, false);
    BackwardDeleteSteps(cp);
    EmptyLineKeys();
    Press(r, Code(cp), Ed([], 0), Ed([cp], 1));
    Press(r, BackwardDeleteKey, Ed([cp], 1), Ed([], 0));
    rows, at := Display(r.State()), CursorAt(r.State());
  }

  /** testBackwardDelete, testBackwardChar and testForwardChar: on an empty
      line these keys change nothing. */
  method EdgeKeysOnEmptyLine(key: Input) returns (rows: seq<seq<int>>, at: (int, int))
    requires key == BackwardDeleteKey || key == BackwardKey() || key == ForwardKey()
    ensures rows == [[37, 32]] && at == (0, 2)
  {
    var r := new Readline();
    Begin(r, false);
    EmptyLineKeys();
    Press(r, key, Ed([], 0), Ed([], 0));
    rows, at := Display(r.State()), CursorAt(r.State());
  }

  lemma TwoCharSteps()
    ensures Handle(Ed([], 0), Code(65)) == Ed([65], 1)
    ensures Handle(Ed([65], 1), Code(66)) == Ed([65, 66], 2)
  {
    Typed([], [65]);
    Typed([65], [66]);
    assert [65] + [66] == [65, 66];
  }

  lemma CtrlHSteps()
    ensures Handle(Ed([65, 66], 2), Code(8)) == Ed([65], 1)
    ensures Display(Ed([65], 1)) == [[37, 32, 65]] && CursorAt(Ed([65], 1)) == (0, 3)
  {
    BoundCodeApplies(Ed([65, 66], 2), 8);
    assert BackwardDeleteChar(LineBuffer([65, 66], 2)) == LineBuffer([65], 1);
    assert Row(Editing([65], 1, [])) == [37, 32, 65];
  }

  lemma TwoCharBackwardSteps()
    ensures Handle(Ed([65, 66], 2), BackwardKey()) == Ed([65, 66], 1)
    ensures Handle(Ed([65, 66], 1), BackwardDeleteKey) == Ed([66], 0)
    ensures Display(Ed([66], 0)) == [[37, 32, 66]] && CursorAt(Ed([66], 0)) == (0, 2)
  {
    EditKeyApplies(Ed([65, 66], 2), Functions.BackwardCharName, [27, 91, 68]);
    BoundCodeApplies(Ed([65, 66], 1), 127);
    assert BackwardDeleteChar(LineBuffer([65, 66], 1)) == LineBuffer([66], 0);
    assert Row(Editing([66], 0, [])) == [37, 32, 66];
  }

  /** testBackwardDeleteLastChar: codepoint 8 deletes backward too. */
  method BackwardDeleteLastChar() returns (rows: seq<seq<int>>, at: (int, int))
    ensures rows == [[37, 32, 65]] && at == (0, 3)
  {
    var r := new Readline();
    Begin(r, false);
    TwoCharSteps();
    CtrlHSteps();
    Press(r, Code(65), Ed([], 0), Ed([65], 1));
    Press(r, Code(66), Ed([65], 1), Ed([65, 66], 2));
    Press(r, Code(8), Ed([65, 66], 2), Ed([65], 1));
    rows, at := Display(r.State()), CursorAt(r.State());
  }

  /** testBackwardCharBackwardDeleteChar: "AB" with the cursor between the
      two becomes "B" with the cursor at its start. */
  method BackwardCharBackwardDeleteChar() returns (rows: seq<seq<int>>, at: (int, int))
    ensures rows == [[37, 32, 66]] && at == (0, 2)
  {
    var r := new Readline();
    Begin(r, false);
    TwoCharSteps();
    TwoCharBackwardSteps();
    Press(r, Code(65), Ed([], 0), Ed([65], 1));
    Press(r, Code(66), Ed([65], 1), Ed([65, 66], 2));
    Press(r, BackwardKey(), Ed([65, 66], 2), Ed([65, 66], 1));
    Press(r, BackwardDeleteKey, Ed([65, 66], 1), Ed([66], 0));
    rows, at := Display(r.State()), CursorAt(r.State());
  }

  lemma BackwardForwardSteps()
    ensures Handle(Ed([65], 1), BackwardKey()) == Ed([65], 0)
    ensures Handle(Ed([65], 0), ForwardKey()) == Ed([65], 1)
    ensures Display(Ed([65], 0)) == [[37, 32, 65]] && CursorAt(Ed([65], 0)) == (0, 2)
  {
    EditKeyApplies(Ed([65], 1), Functions.BackwardCharName, [27, 91, 68]);
    EditKeyApplies(Ed([65], 0), Functions.ForwardCharName, [27, 91, 67]);
    assert Row(Editing([65], 0, [])) == [37, 32, 65];
  }

  /** testInsertCharBackwardChar and testInsertCharForwardChar. */
  method InsertCharBackwardForward() returns (rows1: seq<seq<int>>, at1: (int, int), rows2: seq<seq<int>>, at2: (int, int))
    ensures rows1 == [[37, 32, 65]] && at1 == (0, 2)
    ensures rows2 == [[37, 32, 65]] && at2 == (0, 3)
  {
    var r := new Readline();
    Begin(r, false);
    InsertCharSteps();
    BackwardForwardSteps();
    Press(r, Code(65), Ed([], 0), Ed([65], 1));
    Press(r, BackwardKey(), Ed([65], 1), Ed([65], 0));
    rows1, at1 := Display(r.State()), CursorAt(r.State());
    Press(r, ForwardKey(), Ed([65], 0), Ed([65], 1));
    rows2, at2 := Display(r.State()), CursorAt(r.State());
  }
  // ------------------------------------------------- continued lines

  /** A first read whose logical line already holds `lines`. */
  function Cont(lines: seq<seq<int>>, text: seq<int>, cursor: nat, screen: seq<seq<int>>): RState
  {
    Engine([], Some(Editing(text, cursor, []).(lines := lines)), screen, 0, [])
  }

  lemma QuoteSteps1()
    ensures Handle(Ed([65], 1), Code(34)) == Ed([65, 34], 2)
    ensures Handle(Ed([65, 34], 2), EnterKey) == Cont([[65, 34]], [], 0, [[37, 32, 65, 34]])
    ensures Display(Cont([[65, 34]], [], 0, [[37, 32, 65, 34]])) == [[37, 32, 65, 34], [62, 32]]
  {
    Typed([65], [34]);
    assert [65] + [34] == [65, 34];
    assert Logical(Editing([65, 34], 2, [])) == [65, 34];
    assert Continues([65, 34]) by { LineStatus.OpenQuoteExamples(); }
    assert Row(Editing([65, 34], 2, [])) == [37, 32, 65, 34];
    var none: seq<seq<int>> := [];
    assert none + [[65, 34]] == [[65, 34]];
    assert none + [[37, 32, 65, 34]] == [[37, 32, 65, 34]];
    assert Row(Editing([], 0, []).(lines := [[65, 34]])) == [62, 32];
  }

  lemma QuoteSteps2()
    ensures Handle(Cont([[65, 34]], [], 0, [[37, 32, 65, 34]]), Code(66)) == Cont([[65, 34]], [66], 1, [[37, 32, 65, 34]])
    ensures Handle(Cont([[65, 34]], [66], 1, [[37, 32, 65, 34]]), EnterKey)
      == Cont([[65, 34], [66]], [], 0, [[37, 32, 65, 34], [62, 32, 66]])
    ensures Display(Cont([[65, 34], [66]], [], 0, [[37, 32, 65, 34], [62, 32, 66]]))
      == [[37, 32, 65, 34], [62, 32, 66], [62, 32]]
  {
    Typed([], [66]);
    var it := Editing([66], 1, []).(lines := [[65, 34]]);
    assert it.lines + [it.buffer.text] == [[65, 34], [66]];
    assert Continues(Logical(it)) by { LineStatus.OpenQuoteExamples(); }
    assert Row(it) == [62, 32, 66];
    assert Row(Editing([], 0, []).(lines := [[65, 34], [66]])) == [62, 32];
  }

  /** The logical line of the multi-line test. */
  const Quoted: seq<int> := [65, 34, 10, 66, 10, 67, 34]

  lemma QuoteSteps3()
    ensures Handle(Cont([[65, 34], [66]], [], 0, [[37, 32, 65, 34], [62, 32, 66]]), Code(67))
      == Cont([[65, 34], [66]], [67], 1, [[37, 32, 65, 34], [62, 32, 66]])
  {
    ContAppend([[65, 34], [66]], [], [[37, 32, 65, 34], [62, 32, 66]], 67);
    assert [] + [67] == [67];
  }

  lemma QuoteStepsClose()
    ensures Handle(Cont([[65, 34], [66]], [67], 1, [[37, 32, 65, 34], [62, 32, 66]]), Code(34))
      == Cont([[65, 34], [66]], [67, 34], 2, [[37, 32, 65, 34], [62, 32, 66]])
  {
    ContAppend([[65, 34], [66]], [67], [[37, 32, 65, 34], [62, 32, 66]], 34);
    assert [67] + [34] == [67, 34];
  }

  /** A printable key at the end of a continued line appends to it. */
  lemma ContAppend(lines: seq<seq<int>>, t: seq<int>, screen: seq<seq<int>>, cp: int)
    requires 32 <= cp && cp != 127
    ensures Handle(Cont(lines, t, |t|, screen), Code(cp)) == Cont(lines, t + [cp], |t| + 1, screen)
  {
    PrintableInserted(Cont(lines, t, |t|, screen), cp);
    assert t[..|t|] == t && t[|t|..] == [];
    assert Insert(LineBuffer(t, |t|), cp) == LineBuffer(t + [cp], |t| + 1);
  }

  lemma QuoteSteps4()
    ensures Handle(Cont([[65, 34], [66]], [67, 34], 2, [[37, 32, 65, 34], [62, 32, 66]]), EnterKey)
      == Engine([Quoted], None, [[37, 32, 65, 34], [62, 32, 66], [62, 32, 67, 34]], 0, [Some(Quoted)])
  {
    var s := Cont([[65, 34], [66]], [67, 34], 2, [[37, 32, 65, 34], [62, 32, 66]]);
    var it := s.current.value;
    assert it.lines + [it.buffer.text] == [[65, 34], [66], [67, 34]];
    assert Logical(it) == Quoted && !Continues(Quoted) by { LineStatus.ClosedQuoteExample(); }
    EnterResolves(s);
    assert Row(it) == [62, 32, 67, 34];
    var none: seq<seq<int>> := [];
    assert none + [Quoted] == [Quoted];
    assert s.screen + [Row(it)] == [[37, 32, 65, 34], [62, 32, 66], [62, 32, 67, 34]];
  }

  /** testQuotedMultiline: an open double quote carries the logical line
      over Enter until it is closed; the line is then delivered with LF
      between its visual lines. */
  method QuotedMultiline() returns (line1: seq<Option<seq<int>>>, rows1: seq<seq<int>>, rows2: seq<seq<int>>,
                                    line2: seq<Option<seq<int>>>, rows3: seq<seq<int>>, at: (int, int), line3: seq<Option<seq<int>>>)
    ensures line1 == [] && rows1 == [[37, 32, 65, 34], [62, 32]]
    ensures rows2 == [[37, 32, 65, 34], [62, 32, 66], [62, 32]] && line2 == []
    ensures rows3 == [[37, 32, 65, 34], [62, 32, 66], [62, 32, 67, 34]] && at == (3, 0)
    ensures line3 == [Some([65, 34, 10, 66, 10, 67, 34])]
  {
    var r := new Readline();
    Begin(r, false);
    InsertCharSteps();
    QuoteSteps1();
    Press(r, Code(65), Ed([], 0), Ed([65], 1));
    Press(r, Code(34), Ed([65], 1), Ed([65, 34], 2));
    Press(r, EnterKey, Ed([65, 34], 2), Cont([[65, 34]], [], 0, [[37, 32, 65, 34]]));
    line1, rows1 := r.results, Display(r.State());
    QuoteSteps2();
    Press(r, Code(66), Cont([[65, 34]], [], 0, [[37, 32, 65, 34]]), Cont([[65, 34]], [66], 1, [[37, 32, 65, 34]]));
    Press(r, EnterKey, Cont([[65, 34]], [66], 1, [[37, 32, 65, 34]]), Cont([[65, 34], [66]], [], 0, [[37, 32, 65, 34], [62, 32, 66]]));
    rows2, line2 := Display(r.State()), r.results;
    QuoteSteps3();
    QuoteStepsClose();
    QuoteSteps4();
    ghost var s2 := Cont([[65, 34], [66]], [], 0, [[37, 32, 65, 34], [62, 32, 66]]);
    Press(r, Code(67), s2, Cont([[65, 34], [66]], [67], 1, s2.screen));
    Press(r, Code(34), Cont([[65, 34], [66]], [67], 1, s2.screen), Cont([[65, 34], [66]], [67, 34], 2, s2.screen));
    Press(r, EnterKey, Cont([[65, 34], [66]], [67, 34], 2, s2.screen),
      Engine([Quoted], None, [[37, 32, 65, 34], [62, 32, 66], [62, 32, 67, 34]], 0, [Some(Quoted)]));
    rows3, at, line3 := Display(r.State()), CursorAt(r.State()), r.results;
  }

  // ------------------------------------------------------ motions

  const Abcd: seq<int> := [97, 98, 99, 100]

  lemma LineEndSteps()
    ensures Spliced(Empty, Abcd) == LineBuffer(Abcd, 4)
    ensures Handle(Ed(Abcd, 4), CtrlA) == Ed(Abcd, 0) && Handle(Ed(Abcd, 0), CtrlA) == Ed(Abcd, 0)
    ensures Handle(Ed(Abcd, 0), CtrlE) == Ed(Abcd, 4)
    ensures Display(Ed(Abcd, 0)) == [[37, 32, 97, 98, 99, 100]] && CursorAt(Ed(Abcd, 0)) == (0, 2)
    ensures Display(Ed(Abcd, 4)) == [[37, 32, 97, 98, 99, 100]] && CursorAt(Ed(Abcd, 4)) == (0, 6)
  {
    SpliceEmpty(Abcd);
    BoundCodeApplies(Ed(Abcd, 4), 1);
    BoundCodeApplies(Ed(Abcd, 0), 1);
    BoundCodeApplies(Ed(Abcd, 0), 5);
    assert Row(Editing(Abcd, 0, [])) == [37, 32, 97, 98, 99, 100];
  }

  lemma BackwardSteps(t: seq<int>, c: nat)
    requires 0 < c <= |t|
    ensures Handle(Ed(t, c), BackwardKey()) == Ed(t, c - 1)
    ensures Handle(Ed(t, c - 1), ForwardKey()) == Ed(t, c)
    ensures CursorAt(Ed(t, c)) == (0, c + 2)
  {
    EditKeyApplies(Ed(t, c), Functions.BackwardCharName, [27, 91, 68]);
    EditKeyApplies(Ed(t, c - 1), Functions.ForwardCharName, [27, 91, 67]);
  }

  /** The backward key pressed until the cursor is at `to`. */
  method BackTo(r: Readline, t: seq<int>, from: nat, to: nat)
    requires to <= from <= |t| && r.State() == Ed(t, from)
    modifies r, r.interaction
    ensures r.State() == Ed(t, to)
    ensures r.interaction == old(r.interaction)
  {
    var c := from;
    while c > to
      invariant to <= c <= from && r.State() == Ed(t, c)
      invariant r.interaction == old(r.interaction)
    {
      BackwardSteps(t, c);
      assert Reading(Ed(t, c));
      Press(r, BackwardKey(), Ed(t, c), Ed(t, c - 1));
      c := c - 1;
    }
  }

  /** testEndOfLine, which presses ctrl-A: the cursor goes to the start of
      the line and stays there. */
  method CtrlATwice() returns (rows1: seq<seq<int>>, at1: (int, int), rows2: seq<seq<int>>, at2: (int, int))
    ensures rows1 == [[37, 32, 97, 98, 99, 100]] && at1 == (0, 2)
    ensures rows2 == rows1 && at2 == (0, 2)
  {
    var r := new Readline();
    Begin(r, false);
    LineEndSteps();
    TypeLine(r, Abcd);
    Press(r, CtrlA, Ed(Abcd, 4), Ed(Abcd, 0));
    rows1, at1 := Display(r.State()), CursorAt(r.State());
    Press(r, CtrlA, Ed(Abcd, 0), Ed(Abcd, 0));
    rows2, at2 := Display(r.State()), CursorAt(r.State());
  }

  /** testBeginningOfLine, which presses ctrl-E: four steps back reach the
      start, and ctrl-E goes to the end. */
  method BackThenCtrlE() returns (rows1: seq<seq<int>>, at1: (int, int), rows2: seq<seq<int>>, at2: (int, int))
    ensures rows1 == [[37, 32, 97, 98, 99, 100]] && at1 == (0, 2)
    ensures rows2 == rows1 && at2 == (0, 6)
  {
    var r := new Readline();
    Begin(r, false);
    LineEndSteps();
    TypeLine(r, Abcd);
    BackTo(r, Abcd, 4, 0);
    rows1, at1 := Display(r.State()), CursorAt(r.State());
    Press(r, CtrlE, Ed(Abcd, 0), Ed(Abcd, 4));
    rows2, at2 := Display(r.State()), CursorAt(r.State());
  }

  // ------------------------------------------------------- interrupts

  /** After ctrl-C on the first read: the new prompt on the next row. */
  function Restarted(screen: seq<seq<int>>, text: seq<int>): RState
  {
    Engine([], Some(Editing(text, |text|, [])), screen, 0, [])
  }

  lemma AfterInterruptSteps(screen: seq<seq<int>>)
    ensures Handle(Restarted(screen, []), Code(101)) == Restarted(screen, [101])
    ensures Display(Restarted(screen, [101])) == screen + [[37, 32, 101]]
    ensures CursorAt(Restarted(screen, [101])) == (|screen|, 3)
    ensures Handle(Restarted(screen, [101]), EnterKey) == Engine([[101]], None, screen + [[37, 32, 101]], 0, [Some([101])])
  {
    Typed([], [101]);
    assert Row(Editing([101], 1, [])) == [37, 32, 101];
    assert Logical(Editing([101], 1, [])) == [101];
    ScanPlain(LineStatus.Start, [101]);
  }

  lemma Reset1Steps()
    ensures Handle(Ed(Abcd, 4), CtrlC) == Restarted([[37, 32, 97, 98, 99, 100]], [])
  {
    assert Row(Editing(Abcd, 4, [])) == [37, 32, 97, 98, 99, 100];
  }

  /** testResetDuringInteraction1: ctrl-C leaves "abcd" on its row and
      editing starts again on a new prompt. */
  method ResetDuringInteraction1() returns (rows: seq<seq<int>>, at: (int, int), line: seq<Option<seq<int>>>)
    ensures rows == [[37, 32, 97, 98, 99, 100], [37, 32, 101]] && at == (1, 3)
    ensures line == [Some([101])]
  {
    var r := new Readline();
    Begin(r, false);
    LineEndSteps();
    Reset1Steps();
    ghost var screen := [[37, 32, 97, 98, 99, 100]];
    AfterInterruptSteps(screen);
    TypeLine(r, Abcd);
    Press(r, CtrlC, Ed(Abcd, 4), Restarted(screen, []));
    Press(r, Code(101), Restarted(screen, []), Restarted(screen, [101]));
    rows, at := Display(r.State()), CursorAt(r.State());
    Press(r, EnterKey, Restarted(screen, [101]), Engine([[101]], None, screen + [[37, 32, 101]], 0, [Some([101])]));
    line := r.results;
  }

  const AbcdEscaped: seq<int> := [97, 98, 99, 100, 92]

  /** The rows left by the interrupted continued line. */
  const Reset2Screen: seq<seq<int>> := [[37, 32, 97, 98, 99, 100, 92], [62, 32]]

  /** Enter on a line that continues, in general. */
  lemma EnterContinues(s: RState)
    requires s.Valid() && s.current.Some? && Continues(Logical(s.current.value))
    ensures var it := s.current.value;
      Handle(s, EnterKey) == s.(screen := s.screen + [Row(it)], current := Some(it.(lines := it.lines + [it.buffer.text], buffer := Empty)))
  {
  }

  lemma Reset2Typed()
    ensures Spliced(Empty, AbcdEscaped) == LineBuffer(AbcdEscaped, 5)
  {
    SpliceEmpty(AbcdEscaped);
    assert [] + AbcdEscaped == AbcdEscaped;
  }

  lemma Reset2Continued() returns (s0: RState, s1: RState, s2: RState)
    ensures s0 == Ed([], 0) && s1 == Ed(AbcdEscaped, 5)
    ensures s1 == Typing(s0, AbcdEscaped)
    ensures Handle(s1, EnterKey) == s2 && s2 == Cont([AbcdEscaped], [], 0, [[37, 32, 97, 98, 99, 100, 92]])
  {
    s0, s1 := Ed([], 0), Ed(AbcdEscaped, 5);
    Reset2Typed();
    assert Logical(Editing(AbcdEscaped, 5, [])) == AbcdEscaped;
    assert Abcd + [92] == AbcdEscaped;
    TrailingBackslashContinues(Abcd);
    EnterContinues(s1);
    var none: seq<seq<int>> := [];
    assert none + [AbcdEscaped] == [AbcdEscaped];
    assert none + [[37, 32, 97, 98, 99, 100, 92]] == [[37, 32, 97, 98, 99, 100, 92]];
    assert Row(Editing(AbcdEscaped, 5, [])) == [37, 32, 97, 98, 99, 100, 92];
    s2 := Cont([AbcdEscaped], [], 0, [[37, 32, 97, 98, 99, 100, 92]]);
  }

  lemma Reset2Restarted(s2: RState) returns (s3: RState, s4: RState, s5: RState)
    requires s2 == Cont([AbcdEscaped], [], 0, [[37, 32, 97, 98, 99, 100, 92]])
    ensures Handle(s2, CtrlC) == s3 && s3 == Restarted(Reset2Screen, [])
    ensures Handle(s3, Code(101)) == s4 && s4 == Restarted(Reset2Screen, [101])
    ensures Display(s4) == [[37, 32, 97, 98, 99, 100, 92], [62, 32], [37, 32, 101]] && CursorAt(s4) == (2, 3)
    ensures Handle(s4, EnterKey) == s5 && s5.results == [Some([101])]
  {
    assert Row(Editing([], 0, []).(lines := [AbcdEscaped])) == [62, 32];
    s3 := Restarted(Reset2Screen, []);
    AfterInterruptSteps(Reset2Screen);
    s4 := Restarted(Reset2Screen, [101]);
    s5 := Handle(s4, EnterKey);
  }

  /** testResetDuringInteraction2: ctrl-C during a continued line drops the
      whole logical line. */
  method ResetDuringInteraction2() returns (rows: seq<seq<int>>, at: (int, int), line: seq<Option<seq<int>>>)
    ensures rows == [[37, 32, 97, 98, 99, 100, 92], [62, 32], [37, 32, 101]] && at == (2, 3)
    ensures line == [Some([101])]
  {
    var r := new Readline();
    Begin(r, false);
    ghost var s0, s1, s2 := Reset2Continued();
    ghost var s3, s4, s5 := Reset2Restarted(s2);
    PrintableText(AbcdEscaped);
    TypeThen(r, AbcdEscaped, EnterKey, s0, s1, s2);
    Press(r, CtrlC, s2, s3);
    Press(r, Code(101), s3, s4);
    rows, at := Display(r.State()), CursorAt(r.State());
    Press(r, EnterKey, s4, s5);
    line := r.results;
  }

  /** testEventHandler, without the handler: ctrl-C on an empty line and
      then Enter deliver the empty line. */
  method InterruptEmptyThenEnter() returns (line: seq<Option<seq<int>>>)
    ensures line == [Some([])]
  {
    var r := new Readline();
    Begin(r, false);
    ghost var screen := [[37, 32]];
    assert Row(Editing([], 0, [])) == [37, 32];
    assert Handle(Ed([], 0), CtrlC) == Restarted(screen, []);
    assert Logical(Editing([], 0, [])) == [] && Scan(LineStatus.Start, []) == LineStatus.Start;
    assert Handle(Restarted(screen, []), EnterKey) == Engine([[]], None, screen + [[37, 32]], 0, [Some([])]);
    Press(r, CtrlC, Ed([], 0), Restarted(screen, []));
    Press(r, EnterKey, Restarted(screen, []), Engine([[]], None, screen + [[37, 32]], 0, [Some([])]));
    line := r.results;
  }

  /** testEOF: ctrl-D on an empty line delivers null. */
  method EofOnEmpty() returns (line: seq<Option<seq<int>>>)
    ensures line == [None]
  {
    var r := new Readline();
    Begin(r, false);
    assert Row(Editing([], 0, [])) == [37, 32];
    assert Handle(Ed([], 0), CtrlD) == Engine([], None, [[37, 32]], 0, [None]);
    Press(r, CtrlD, Ed([], 0), Engine([], None, [[37, 32]], 0, [None]));
    line := r.results;
  }

  // ------------------------------------------------------- deletions

  const Abc: seq<int> := [97, 98, 99]

  lemma DeleteCharSteps()
    ensures Spliced(Empty, Abc) == LineBuffer(Abc, 3)
    ensures Handle(Ed(Abc, 3), CtrlD) == Ed(Abc, 3)
    ensures Display(Ed(Abc, 3)) == [[37, 32, 97, 98, 99]] && CursorAt(Ed(Abc, 3)) == (0, 5)
  {
    SpliceEmpty(Abc);
    BoundCodeApplies(Ed(Abc, 3), Eof);
    assert Row(Editing(Abc, 3, [])) == [37, 32, 97, 98, 99];
  }

  lemma DeleteCharInside()
    ensures Handle(Ed(Abc, 1), CtrlD) == Ed([97, 99], 1)
  {
    BoundCodeApplies(Ed(Abc, 1), Eof);
    assert DeleteChar(LineBuffer(Abc, 1)) == LineBuffer([97, 99], 1);
  }

  lemma DeleteCharEnter()
    ensures Display(Ed([97, 99], 1)) == [[37, 32, 97, 99]] && CursorAt(Ed([97, 99], 1)) == (0, 3)
    ensures Handle(Ed([97, 99], 1), EnterKey) == Engine([[97, 99]], None, [[37, 32, 97, 99]], 0, [Some([97, 99])])
  {
    assert Row(Editing([97, 99], 1, [])) == [37, 32, 97, 99];
    assert Logical(Editing([97, 99], 1, [])) == [97, 99];
    ScanPlain(LineStatus.Start, [97, 99]);
  }

  /** testDeleteChar: ctrl-D at the end of a line changes nothing; inside it
      deletes the codepoint under the cursor. */
  method DeleteCharScenario() returns (rows1: seq<seq<int>>, at1: (int, int), rows2: seq<seq<int>>, at2: (int, int), line: seq<Option<seq<int>>>)
    ensures rows1 == [[37, 32, 97, 98, 99]] && at1 == (0, 5)
    ensures rows2 == [[37, 32, 97, 99]] && at2 == (0, 3)
    ensures line == [Some([97, 99])]
  {
    var r := new Readline();
    Begin(r, false);
    DeleteCharSteps();
    TypeLine(r, Abc);
    ReadingEd(Abc, 3);
    Press(r, CtrlD, Ed(Abc, 3), Ed(Abc, 3));
    rows1, at1 := Display(r.State()), CursorAt(r.State());
    rows2, at2, line := DeleteInside(r);
  }

  /** The rest of testDeleteChar: ctrl-D on "b", then Enter. */
  method DeleteInside(r: Readline) returns (rows: seq<seq<int>>, at: (int, int), line: seq<Option<seq<int>>>)
    requires r.State() == Ed(Abc, 3)
    modifies r, r.interaction
    ensures rows == [[37, 32, 97, 99]] && at == (0, 3)
    ensures line == [Some([97, 99])]
  {
    DeleteCharInside();
    DeleteCharEnter();
    BackTo(r, Abc, 3, 1);
    ReadingEd(Abc, 1);
    Press(r, CtrlD, Ed(Abc, 1), Ed([97, 99], 1));
    rows, at := Display(r.State()), CursorAt(r.State());
    ReadingEd([97, 99], 1);
    Press(r, EnterKey, Ed([97, 99], 1), Engine([[97, 99]], None, [[37, 32, 97, 99]], 0, [Some([97, 99])]));
    line := r.results;
  }

  const Abcde: seq<int> := [97, 98, 99, 100, 101]

  lemma KillLineSteps()
    ensures Spliced(Empty, Abcde) == LineBuffer(Abcde, 5)
    ensures Handle(Ed(Abcde, 1), KillLineKey) == Ed([97], 1)
  {
    SpliceEmpty(Abcde);
    BoundCodeApplies(Ed(Abcde, 1), 11);
    assert KillLine(LineBuffer(Abcde, 1)) == LineBuffer([97], 1) by { assert Abcde[..1] == [97]; }
  }

  lemma KillLineEnter()
    ensures Display(Ed([97], 1)) == [[37, 32, 97]] && CursorAt(Ed([97], 1)) == (0, 3)
    ensures Handle(Ed([97], 1), EnterKey) == Engine([[97]], None, [[37, 32, 97]], 0, [Some([97])])
  {
    assert Row(Editing([97], 1, [])) == [37, 32, 97];
    assert Logical(Editing([97], 1, [])) == [97];
    ScanPlain(LineStatus.Start, [97]);
  }

  /** testKillLine, on a terminal wide enough for the line: ctrl-K deletes
      from the cursor to the end. */
  method KillLineScenario() returns (rows: seq<seq<int>>, at: (int, int), line: seq<Option<seq<int>>>)
    ensures rows == [[37, 32, 97]] && at == (0, 3)
    ensures line == [Some([97])]
  {
    var r := new Readline();
    Begin(r, false);
    KillLineSteps();
    TypeLine(r, Abcde);
    rows, at, line := KillTail(r);
  }

  /** The rest of testKillLine: back to after "a", ctrl-K, then Enter. */
  method KillTail(r: Readline) returns (rows: seq<seq<int>>, at: (int, int), line: seq<Option<seq<int>>>)
    requires r.State() == Ed(Abcde, 5)
    modifies r, r.interaction
    ensures rows == [[37, 32, 97]] && at == (0, 3)
    ensures line == [Some([97])]
  {
    KillLineSteps();
    KillLineEnter();
    BackTo(r, Abcde, 5, 1);
    ReadingEd(Abcde, 1);
    Press(r, KillLineKey, Ed(Abcde, 1), Ed([97], 1));
    rows, at := Display(r.State()), CursorAt(r.State());
    ReadingEd([97], 1);
    Press(r, EnterKey, Ed([97], 1), Engine([[97]], None, [[37, 32, 97]], 0, [Some([97])]));
    line := r.results;
  }
  // ------------------------------------------------ several reads

  /** Enter on a line that does not continue, in general. */
  lemma EnterResolves(s: RState)
    requires s.Valid() && s.current.Some? && !Continues(Logical(s.current.value))
    ensures var it := s.current.value;
      Handle(s, EnterKey) == s.(screen := s.screen + [Row(it)], current := None,
        results := s.results + [Some(Logical(it))], history := s.history + [Logical(it)])
  {
  }

  const Hello: seq<int> := [104, 101, 108, 108, 111]
  const Bye: seq<int> := [98, 121, 101]

  /** A first visual line of lower-case letters is the whole logical
      line, and Enter delivers it. */
  lemma LettersLine(t: seq<int>, c: nat, h: seq<seq<int>>)
    requires forall x :: x in t ==> 97 <= x <= 122
    ensures Logical(Editing(t, c, h)) == t && !Continues(t)
  {
    var none: seq<seq<int>> := [];
    assert none + [t] == [t];
    assert Plain(t) by {
      forall i | 0 <= i < |t| ensures 97 <= t[i] <= 122 {
        assert t[i] in t;
      }
    }
    ScanPlain(LineStatus.Start, t);
  }

  lemma HelloTyped()
    ensures Spliced(Empty, Hello) == LineBuffer(Hello, 5)
    ensures Logical(Editing(Hello, 5, [])) == Hello && !Continues(Hello)
  {
    SpliceEmpty(Hello);
    LettersLine(Hello, 5, []);
  }

  lemma ByeTyped()
    ensures Spliced(Empty, Bye) == LineBuffer(Bye, 3)
    ensures Logical(Editing(Bye, 3, [Hello])) == Bye && !Continues(Bye)
  {
    SpliceEmpty(Bye);
    LettersLine(Bye, 3, [Hello]);
  }

  /** The engine after the first line of the buffering test is delivered:
      the second line is still queued. */
  function AfterHello(): RState
  {
    RState([Hello], None, Codes(Bye) + [EnterKey], [[37, 32] + Hello], 0, [Some(Hello)])
  }

  lemma Regroup<T>(w: seq<T>, x: seq<T>, y: seq<T>, z: seq<T>)
    ensures w + x + y + z == w + (x + (y + z))
  {
  }

  /** A first read takes keys at once. */
  lemma ReadingEd(t: seq<int>, c: nat)
    requires c <= |t|
    ensures Reading(Ed(t, c))
  {
  }

  /** A line typed ahead of the rest of a read. */
  lemma TypedAhead(a: seq<int>, rest: seq<Input>)
    requires Printable(a)
    ensures ReadSpec(Ed([], 0), Codes(a) + rest) == Drain(Ed(a, |a|).(queue := rest))
  {
    ReadingEd([], 0);
    TypingSpec(Ed([], 0), a, rest);
    SpliceEmpty(a);
    assert Ed(a, |a|).queue + rest == rest;
  }

  lemma BufferingFirst()
    ensures ReadSpec(Ed([], 0), Codes(Hello) + [EnterKey] + Codes(Bye) + [EnterKey]) == AfterHello()
  {
    PrintableText(Hello);
    Regroup(Codes(Hello), [EnterKey], Codes(Bye), [EnterKey]);
    TypedAhead(Hello, [EnterKey] + (Codes(Bye) + [EnterKey]));
    HelloDrained();
  }

  lemma HelloDrained()
    ensures Drain(Ed(Hello, 5).(queue := [EnterKey] + (Codes(Bye) + [EnterKey]))) == AfterHello()
  {
    ReadingEd(Hello, 5);
    DrainFirst(Ed(Hello, 5), EnterKey, Codes(Bye) + [EnterKey]);
    HelloEntered();
  }

  lemma HelloEntered()
    ensures Handle(Ed(Hello, 5), EnterKey).(queue := Codes(Bye) + [EnterKey]) == AfterHello()
  {
    HelloTyped();
    EnterResolves(Ed(Hello, 5));
    assert Row(Editing(Hello, 5, [])) == [37, 32] + Hello;
    var none: seq<seq<int>> := [];
    assert none + [Hello] == [Hello];
    assert none + [[37, 32] + Hello] == [[37, 32] + Hello];
  }

  /** Both lines delivered. */
  function AfterBye(): RState
  {
    Engine([Hello, Bye], None, [[37, 32] + Hello, [37, 32] + Bye], 0, [Some(Hello), Some(Bye)])
  }

  lemma SecondTyped() returns (t: RState, u: RState)
    ensures t == AfterHello().(current := Some(Initial(Prompt, [Hello], false)))
    ensures u == Engine([Hello], Some(Editing(Bye, 3, [Hello])), [[37, 32] + Hello], 0, [Some(Hello)])
    ensures Drain(t) == Drain(u.(queue := [EnterKey]))
  {
    t := AfterHello().(current := Some(Initial(Prompt, [Hello], false)));
    u := Engine([Hello], Some(Editing(Bye, 3, [Hello])), [[37, 32] + Hello], 0, [Some(Hello)]);
    var t0 := t.(queue := []);
    ByeTyped();
    PrintableText(Bye);
    TypingSpec(t0, Bye, [EnterKey]);
    assert t0.queue + (Codes(Bye) + [EnterKey]) == t.queue;
    assert Typing(t0, Bye) == u;
    assert u.queue + [EnterKey] == [EnterKey];
  }

  lemma SecondEnter(u: RState)
    requires u == Engine([Hello], Some(Editing(Bye, 3, [Hello])), [[37, 32] + Hello], 0, [Some(Hello)])
    ensures Drain(u.(queue := [EnterKey])) == AfterBye()
  {
    ByeTyped();
    DrainFirst(u, EnterKey, []);
    assert u.(queue := [EnterKey] + []) == u.(queue := [EnterKey]);
    EnterResolves(u);
    assert Row(Editing(Bye, 3, [Hello])) == [37, 32] + Bye;
  }

  lemma BufferingSecond()
    ensures ReadLineSpec(AfterHello(), Prompt, false) == (true, AfterBye())
  {
    var t, u := SecondTyped();
    SecondEnter(u);
  }

  lemma BufferingShows()
    ensures AfterHello().results == [Some([104, 101, 108, 108, 111])]
    ensures Display(AfterHello()) == [[37, 32, 104, 101, 108, 108, 111]] && CursorAt(AfterHello()) == (1, 0)
    ensures AfterBye().results == [Some([104, 101, 108, 108, 111]), Some([98, 121, 101])]
    ensures Display(AfterBye()) == [[37, 32, 104, 101, 108, 108, 111], [37, 32, 98, 121, 101]]
    ensures CursorAt(AfterBye()) == (2, 0)
  {
    assert [37, 32] + Hello == [37, 32, 104, 101, 108, 108, 111];
    assert [37, 32] + Bye == [37, 32, 98, 121, 101];
  }

  /** testBuffering: two lines read at once; the second waits in the queue
      until the next read request takes it. */
  method Buffering() returns (line1: seq<Option<seq<int>>>, rows1: seq<seq<int>>, at1: (int, int),
                              line2: seq<Option<seq<int>>>, rows2: seq<seq<int>>, at2: (int, int))
    ensures line1 == [Some([104, 101, 108, 108, 111])]
    ensures rows1 == [[37, 32, 104, 101, 108, 108, 111]] && at1 == (1, 0)
    ensures line2 == [Some([104, 101, 108, 108, 111]), Some([98, 121, 101])]
    ensures rows2 == [[37, 32, 104, 101, 108, 108, 111], [37, 32, 98, 121, 101]] && at2 == (2, 0)
  {
    var r := new Readline();
    Begin(r, false);
    BufferingFirst();
    BufferingSecond();
    BufferingShows();
    r.Read(Codes(Hello) + [EnterKey] + Codes(Bye) + [EnterKey]);
    line1, rows1, at1 := r.results, Display(r.State()), CursorAt(r.State());
    var ok := r.ReadLine(Prompt, false);
    line2, rows2, at2 := r.results, Display(r.State()), CursorAt(r.State());
  }

  /** One input read ahead of the rest, on a line being edited. */
  lemma ReadStep(s: RState, input: Input, rest: seq<Input>, next: RState)
    requires s.Valid() && s.current.Some? && !s.current.value.paused && s.queue == []
    requires Handle(s, input) == next
    ensures ReadSpec(s, [input] + rest) == ReadSpec(next, rest)
  {
    ReadInChunks(s, [input], rest);
    DrainOne(s, input);
  }

  /** Four inputs read at once, each handled in turn. */
  lemma ReadFour(s0: RState, s1: RState, s2: RState, s3: RState, s4: RState, a: Input, b: Input, c: Input, d: Input)
    requires Reading(s0) && Reading(s1) && Reading(s2) && Reading(s3)
    requires Handle(s0, a) == s1 && Handle(s1, b) == s2 && Handle(s2, c) == s3 && Handle(s3, d) == s4
    ensures ReadSpec(s0, [a, b, c, d]) == s4
  {
    ReadStep(s0, a, [b, c, d], s1);
    ReadStep(s1, b, [c, d], s2);
    ReadStep(s2, c, [d], s3);
    DrainOne(s3, d);
    assert [a] + [b, c, d] == [a, b, c, d];
    assert [b] + [c, d] == [b, c, d];
    assert [c] + [d] == [c, d];
  }

  lemma IllegalTyped()
    ensures Handle(Ed([], 0), Code(97)) == Ed([97], 1)
  {
    AppendOne([], 97, 0);
    assert Ed([], 0).(bells := 0) == Ed([], 0);
    assert [] + [97] == [97];
  }

  lemma IllegalTypedAfterBell()
    ensures Handle(Ed([97], 1).(bells := 1), Code(98)) == Ed([97, 98], 2).(bells := 1)
  {
    AppendOne([97], 98, 1);
    assert [97] + [98] == [97, 98];
  }

  lemma IllegalBell()
    ensures Handle(Ed([97], 1), Code(6)) == Ed([97], 1).(bells := 1)
  {
    IllegalKeyRings(Ed([97], 1), 6);
  }

  /** A printable codepoint typed at the end of a first line. */
  lemma AppendOne(t: seq<int>, cp: int, bells: nat)
    requires 32 <= cp && cp != 127
    ensures Handle(Ed(t, |t|).(bells := bells), Code(cp)) == Ed(t + [cp], |t| + 1).(bells := bells)
  {
    PrintableInserted(Ed(t, |t|).(bells := bells), cp);
    assert t[..|t|] == t && t[|t|..] == [];
    assert Insert(LineBuffer(t, |t|), cp) == LineBuffer(t + [cp], |t| + 1);
  }

  lemma IllegalEnter()
    ensures Handle(Ed([97, 98], 2).(bells := 1), EnterKey) == Engine([[97, 98]], None, [[37, 32, 97, 98]], 1, [Some([97, 98])])
  {
    EnterResolves(Ed([97, 98], 2).(bells := 1));
    assert Logical(Editing([97, 98], 2, [])) == [97, 98];
    ScanPlain(LineStatus.Start, [97, 98]);
    assert Row(Editing([97, 98], 2, [])) == [37, 32, 97, 98];
  }

  lemma IllegalRead()
    ensures ReadSpec(Ed([], 0), [Code(97), Code(6), Code(98), EnterKey])
      == Engine([[97, 98]], None, [[37, 32, 97, 98]], 1, [Some([97, 98])])
  {
    IllegalTyped();
    IllegalTypedAfterBell();
    IllegalBell();
    IllegalEnter();
    ReadingEd([], 0);
    ReadingEd([97], 1);
    ReadingEd([97, 98], 2);
    ReadFour(Ed([], 0), Ed([97], 1), Ed([97], 1).(bells := 1), Ed([97, 98], 2).(bells := 1),
      Engine([[97, 98]], None, [[37, 32, 97, 98]], 1, [Some([97, 98])]), Code(97), Code(6), Code(98), EnterKey);
  }

  /** testIllegalChar: an unbound control codepoint rings the bell and is
      not inserted. */
  method IllegalChar() returns (bells0: nat, bells1: nat, line: seq<Option<seq<int>>>)
    ensures bells0 == 0 && bells1 == 1 && line == [Some([97, 98])]
  {
    var r := new Readline();
    Begin(r, false);
    bells0 := r.bells;
    IllegalRead();
    r.Read([Code(97), Code(6), Code(98), EnterKey]);
    bells1, line := r.bells, r.results;
  }

  // ------------------------------------------------------- history

  const H: seq<seq<int>> := [[48], [49], [50]]
  const HRows: seq<seq<int>> := [[37, 32, 48], [37, 32, 49], [37, 32, 50]]

  /** The fourth read of the history test, browsing at `index`. */
  function Browsing(text: seq<int>, cursor: nat, index: nat, saved: seq<int>): RState
  {
    Engine(H, Some(IState(Prompt, [], LineBuffer(text, cursor), H, index, saved, false, false, [])), HRows, 0,
      [Some([48]), Some([49]), Some([50])])
  }

  /** The row being edited, at the bottom of the screen. */
  function Bottom(s: RState): seq<int>
  {
    var d := Display(s);
    if d == [] then [] else d[|d| - 1]
  }

  lemma BrowsingShows(text: seq<int>, cursor: nat, index: nat, saved: seq<int>)
    ensures Display(Browsing(text, cursor, index, saved)) == HRows + [[37, 32] + text]
    ensures Bottom(Browsing(text, cursor, index, saved)) == [37, 32] + text
  {
  }

  /** The rows the history test shows at the bottom. */
  lemma BottomRows()
    ensures [37, 32] + [48] == [37, 32, 48] && [37, 32] + [49] == [37, 32, 49]
    ensures [37, 32] + [50] == [37, 32, 50] && [37, 32] + [51] == [37, 32, 51]
    ensures [37, 32] + [49, 95] == [37, 32, 49, 95]
  {
  }

  lemma RoundSteps(h: seq<seq<int>>, rows: seq<seq<int>>, res: seq<Option<seq<int>>>, cp: int)
    requires 48 <= cp <= 57
    ensures Spliced(Empty, [cp]) == LineBuffer([cp], 1)
    ensures Handle(Engine(h, Some(Editing([cp], 1, h)), rows, 0, res), EnterKey)
      == Engine(h + [[cp]], None, rows + [[37, 32, cp]], 0, res + [Some([cp])])
  {
    SpliceEmpty([cp]);
    assert Logical(Editing([cp], 1, h)) == [cp];
    ScanPlain(LineStatus.Start, [cp]);
    EnterResolves(Engine(h, Some(Editing([cp], 1, h)), rows, 0, res));
    assert Row(Editing([cp], 1, h)) == [37, 32, cp];
  }

  /** One read of the history test: a digit and Enter read at once. */
  method EnterRound(r: Readline, cp: int, ghost h: seq<seq<int>>, ghost rows: seq<seq<int>>, ghost res: seq<Option<seq<int>>>)
    requires 48 <= cp <= 57
    requires r.Valid() && r.State() == Engine(h, None, rows, 0, res)
    modifies r
    ensures r.Valid() && r.State() == Engine(h + [[cp]], None, rows + [[37, 32, cp]], 0, res + [Some([cp])])
  {
    Begin(r, false);
    RoundSteps(h, rows, res, cp);
    TypeThen(r, [cp], EnterKey, Engine(h, Some(Editing([], 0, h)), rows, 0, res), Engine(h, Some(Editing([cp], 1, h)), rows, 0, res),
      Engine(h + [[cp]], None, rows + [[37, 32, cp]], 0, res + [Some([cp])]));
  }

  lemma UpSteps()
    ensures Handle(Browsing([], 0, 0, []), Code(51)) == Browsing([51], 1, 0, [])
    ensures Handle(Browsing([51], 1, 0, []), UpKey()) == Browsing([50], 1, 1, [51])
  {
    Typed([], [51]);
    HistoryKeyApplies(Browsing([51], 1, 0, []), [27, 91, 65]);
  }

  lemma UpSteps2()
    ensures Handle(Browsing([50], 1, 1, [51]), UpKey()) == Browsing([49], 1, 2, [51])
    ensures Handle(Browsing([49], 1, 2, [51]), UpKey()) == Browsing([48], 1, 3, [51])
  {
    HistoryKeyApplies(Browsing([50], 1, 1, [51]), [27, 91, 65]);
    HistoryKeyApplies(Browsing([49], 1, 2, [51]), [27, 91, 65]);
  }

  lemma ClampSteps()
    ensures Handle(Browsing([48], 1, 3, [51]), UpKey()) == Browsing([48], 1, 3, [51])
    ensures Handle(Browsing([48], 1, 3, [51]), DownKey()) == Browsing([49], 1, 2, [51])
  {
    HistoryKeyApplies(Browsing([48], 1, 3, [51]), [27, 91, 65]);
    HistoryKeyApplies(Browsing([48], 1, 3, [51]), [27, 91, 66]);
  }

  lemma ClampAndEditSteps()
    ensures Handle(Browsing([49], 1, 2, [51]), Code(95)) == Browsing([49, 95], 2, 2, [51])
    ensures Handle(Browsing([49, 95], 2, 2, [51]), DownKey()) == Browsing([50], 1, 1, [51])
  {
    HistoryKeyApplies(Browsing([49, 95], 2, 2, [51]), [27, 91, 66]);
    Typed([49], [95]);
    assert [49] + [95] == [49, 95];
  }

  lemma DownSteps()
    ensures Handle(Browsing([50], 1, 1, [51]), UpKey()) == Browsing([49], 1, 2, [51])
    ensures Handle(Browsing([49], 1, 2, [51]), DownKey()) == Browsing([50], 1, 1, [51])
    ensures Handle(Browsing([50], 1, 1, [51]), DownKey()) == Browsing([51], 1, 0, [51])
    ensures Handle(Browsing([51], 1, 0, [51]), DownKey()) == Browsing([51], 1, 0, [51])
  {
    HistoryKeyApplies(Browsing([50], 1, 1, [51]), [27, 91, 65]);
    HistoryKeyApplies(Browsing([49], 1, 2, [51]), [27, 91, 66]);
    HistoryKeyApplies(Browsing([51], 1, 0, [51]), [27, 91, 66]);
  }

  /** The three reads that fill the history. */
  method EnterThree(r: Readline)
    requires r.Valid() && r.State() == Idle
    modifies r
    ensures r.Valid() && r.State() == Engine(H, None, HRows, 0, [Some([48]), Some([49]), Some([50])])
  {
    EnterRound(r, 48, [], [], []);
    EnterRound(r, 49, [[48]], [[37, 32, 48]], [Some([48])]);
    EnterRound(r, 50, [[48], [49]], [[37, 32, 48], [37, 32, 49]], [Some([48]), Some([49])]);
  }

  lemma BrowsingStarts()
    ensures Engine(H, None, HRows, 0, [Some([48]), Some([49]), Some([50])]).(current := Some(Initial(Prompt, H, false)))
      == Browsing([], 0, 0, [])
  {
  }

  /** "3" typed, then three steps back to the oldest entry. */
  method BrowseBack(r: Readline) returns (shown: seq<seq<int>>)
    requires r.Valid() && r.State() == Browsing([], 0, 0, [])
    modifies r, r.interaction
    ensures r.State() == Browsing([48], 1, 3, [51]) && r.interaction == old(r.interaction)
    ensures shown == [[37, 32, 51], [37, 32, 50], [37, 32, 49], [37, 32, 48]]
  {
    UpSteps();
    UpSteps2();
    BrowsingShows([51], 1, 0, []);
    BrowsingShows([50], 1, 1, [51]);
    BrowsingShows([49], 1, 2, [51]);
    BrowsingShows([48], 1, 3, [51]);
    Press(r, Code(51), Browsing([], 0, 0, []), Browsing([51], 1, 0, []));
    var b1 := Bottom(r.State());
    Press(r, UpKey(), Browsing([51], 1, 0, []), Browsing([50], 1, 1, [51]));
    var b2 := Bottom(r.State());
    Press(r, UpKey(), Browsing([50], 1, 1, [51]), Browsing([49], 1, 2, [51]));
    var b3 := Bottom(r.State());
    Press(r, UpKey(), Browsing([49], 1, 2, [51]), Browsing([48], 1, 3, [51]));
    var b4 := Bottom(r.State());
    BottomRows();
    shown := [b1, b2, b3, b4];
  }

  /** Up at the oldest entry, a step forward, an edit, another step. */
  method BrowseClampAndEdit(r: Readline) returns (shown: seq<seq<int>>)
    requires r.Valid() && r.State() == Browsing([48], 1, 3, [51])
    modifies r, r.interaction
    ensures r.State() == Browsing([50], 1, 1, [51]) && r.interaction == old(r.interaction)
    ensures shown == [[37, 32, 48], [37, 32, 49], [37, 32, 49, 95], [37, 32, 50]]
  {
    ClampSteps();
    ClampAndEditSteps();
    BrowsingShows([48], 1, 3, [51]);
    BrowsingShows([49], 1, 2, [51]);
    BrowsingShows([49, 95], 2, 2, [51]);
    BrowsingShows([50], 1, 1, [51]);
    Press(r, UpKey(), Browsing([48], 1, 3, [51]), Browsing([48], 1, 3, [51]));
    var b1 := Bottom(r.State());
    Press(r, DownKey(), Browsing([48], 1, 3, [51]), Browsing([49], 1, 2, [51]));
    var b2 := Bottom(r.State());
    Press(r, Code(95), Browsing([49], 1, 2, [51]), Browsing([49, 95], 2, 2, [51]));
    var b3 := Bottom(r.State());
    Press(r, DownKey(), Browsing([49, 95], 2, 2, [51]), Browsing([50], 1, 1, [51]));
    var b4 := Bottom(r.State());
    BottomRows();
    shown := [b1, b2, b3, b4];
  }

  /** Back once more, then forward past the newest entry to the typed line. */
  method BrowseForward(r: Readline) returns (shown: seq<seq<int>>)
    requires r.Valid() && r.State() == Browsing([50], 1, 1, [51])
    modifies r, r.interaction
    ensures r.State() == Browsing([51], 1, 0, [51])
    ensures shown == [[37, 32, 49], [37, 32, 50], [37, 32, 51], [37, 32, 51]]
  {
    DownSteps();
    BrowsingShows([49], 1, 2, [51]);
    BrowsingShows([50], 1, 1, [51]);
    BrowsingShows([51], 1, 0, [51]);
    Press(r, UpKey(), Browsing([50], 1, 1, [51]), Browsing([49], 1, 2, [51]));
    var b1 := Bottom(r.State());
    Press(r, DownKey(), Browsing([49], 1, 2, [51]), Browsing([50], 1, 1, [51]));
    var b2 := Bottom(r.State());
    Press(r, DownKey(), Browsing([50], 1, 1, [51]), Browsing([51], 1, 0, [51]));
    var b3 := Bottom(r.State());
    Press(r, DownKey(), Browsing([51], 1, 0, [51]), Browsing([51], 1, 0, [51]));
    var b4 := Bottom(r.State());
    BottomRows();
    shown := [b1, b2, b3, b4];
  }

  /** testHistory: three lines are entered; on the fourth read the up and
      down keys walk the history, stopping at its oldest entry, showing each
      entry afresh however an earlier copy was edited, and coming back to
      the line that was being typed. The rows above stay as they were. */
  method History() returns (rows: seq<seq<int>>, shown: seq<seq<int>>, above: seq<seq<int>>)
    ensures rows == [[37, 32, 48], [37, 32, 49], [37, 32, 50]]
    ensures shown == [[37, 32, 51], [37, 32, 50], [37, 32, 49], [37, 32, 48], [37, 32, 48], [37, 32, 49],
                      [37, 32, 49, 95], [37, 32, 50], [37, 32, 49], [37, 32, 50], [37, 32, 51], [37, 32, 51]]
    ensures above == rows
  {
    var r := new Readline();
    EnterThree(r);
    rows := Display(r.State());
    Begin(r, false);
    BrowsingStarts();
    shown, above := Browse(r);
  }

  /** The fourth read of testHistory. */
  method Browse(r: Readline) returns (shown: seq<seq<int>>, above: seq<seq<int>>)
    requires r.Valid() && r.State() == Browsing([], 0, 0, [])
    modifies r, r.interaction
    ensures shown == [[37, 32, 51], [37, 32, 50], [37, 32, 49], [37, 32, 48], [37, 32, 48], [37, 32, 49],
                      [37, 32, 49, 95], [37, 32, 50], [37, 32, 49], [37, 32, 50], [37, 32, 51], [37, 32, 51]]
    ensures above == HRows
  {
    var back := BrowseBack(r);
    var edit := BrowseClampAndEdit(r);
    var forward := BrowseForward(r);
    shown := back + edit + forward;
    above := r.screen;
  }
  // ---------------------------------------------------------- words

  /** The line of the word tests, "a01 e9__5a". */
  const Words: seq<int> := [97, 48, 49, 32, 101, 57, 95, 95, 53, 97]

  lemma WordsTyped()
    ensures Spliced(Empty, Words) == LineBuffer(Words, 10)
  {
    SpliceEmpty(Words);
    assert [] + Words == Words;
  }

  /** Types the line of the word tests into a fresh read. */
  method TypeWords(r: Readline)
    requires r.State() == Ed([], 0)
    modifies r, r.interaction
    ensures r.State() == Ed(Words, 10)
    ensures r.interaction == null || r.interaction == old(r.interaction)
  {
    WordsTyped();
    TypeLine(r, Words);
  }

  /** The word keys, in general. */
  lemma WordKeys(t: seq<int>, c: nat)
    requires c <= |t|
    ensures Handle(Ed(t, c), BackwardWordSeq()) == Ed(t, BackwardWordTarget(t, c))
    ensures Handle(Ed(t, c), ForwardWordSeq()) == Ed(t, ForwardWordTarget(t, c))
    ensures var k := BackwardKillWord(LineBuffer(t, c));
      Handle(Ed(t, c), MetaBackspace()) == Ed(k.text, k.cursor)
    ensures CursorAt(Ed(t, c)) == (0, c + 2)
  {
    EditKeyApplies(Ed(t, c), Functions.BackwardWordName, [27, 98]);
    EditKeyApplies(Ed(t, c), Functions.ForwardWordName, [27, 102]);
    EditKeyApplies(Ed(t, c), Functions.BackwardKillWordName, [27, 127]);
  }

  /** One key on a first line, from cursor `c` in `t` to cursor `c2` in
      `t2`; returns the cursor column and the rows shown after it. */
  method Step(r: Readline, input: Input, t: seq<int>, c: nat, t2: seq<int>, c2: nat) returns (column: int, rows: seq<seq<int>>)
    requires c <= |t| && r.State() == Ed(t, c) && Handle(Ed(t, c), input) == Ed(t2, c2)
    modifies r, r.interaction
    ensures r.State() == Ed(t2, c2) && r.interaction == old(r.interaction)
    ensures column == c2 + 2 && rows == [Prompt + t2]
  {
    Press(r, input, Ed(t, c), Ed(t2, c2));
    column, rows := CursorAt(r.State()).1, Display(r.State());
  }

  /** The backward key on a first line, in general. */
  method StepBack(r: Readline, t: seq<int>, c: nat) returns (column: int)
    requires 0 < c <= |t| && r.State() == Ed(t, c)
    modifies r, r.interaction
    ensures r.State() == Ed(t, c - 1) && r.interaction == old(r.interaction)
    ensures column == c + 1
  {
    BackwardSteps(t, c);
    var rows;
    column, rows := Step(r, BackwardKey(), t, c, t, c - 1);
  }

  /** The forward key on a first line, in general. */
  method StepForward(r: Readline, t: seq<int>, c: nat) returns (column: int)
    requires c < |t| && r.State() == Ed(t, c)
    modifies r, r.interaction
    ensures r.State() == Ed(t, c + 1) && r.interaction == old(r.interaction)
    ensures column == c + 3
  {
    BackwardSteps(t, c + 1);
    var rows;
    column, rows := Step(r, ForwardKey(), t, c, t, c + 1);
  }

  /** Ctrl-A on a first line, in general. */
  method Home(r: Readline, t: seq<int>, c: nat) returns (column: int)
    requires c <= |t| && r.State() == Ed(t, c)
    modifies r, r.interaction
    ensures r.State() == Ed(t, 0) && r.interaction == old(r.interaction)
    ensures column == 2
  {
    BoundCodeApplies(Ed(t, c), 1);
    var rows;
    column, rows := Step(r, CtrlA, t, c, t, 0);
  }

  /** The backward-word key on a first line, in general. */
  method WordBack(r: Readline, t: seq<int>, c: nat) returns (column: int)
    requires c <= |t| && r.State() == Ed(t, c)
    modifies r, r.interaction
    ensures r.State() == Ed(t, BackwardWordTarget(t, c)) && r.interaction == old(r.interaction)
    ensures column == BackwardWordTarget(t, c) + 2
  {
    WordKeys(t, c);
    var rows;
    column, rows := Step(r, BackwardWordSeq(), t, c, t, BackwardWordTarget(t, c));
  }

  /** The forward-word key on a first line, in general. */
  method WordForward(r: Readline, t: seq<int>, c: nat) returns (column: int)
    requires c <= |t| && r.State() == Ed(t, c)
    modifies r, r.interaction
    ensures r.State() == Ed(t, ForwardWordTarget(t, c)) && r.interaction == old(r.interaction)
    ensures column == ForwardWordTarget(t, c) + 2
  {
    WordKeys(t, c);
    var rows;
    column, rows := Step(r, ForwardWordSeq(), t, c, t, ForwardWordTarget(t, c));
  }

  /** Meta-backspace on a first line, in general. */
  method KillWordBack(r: Readline, t: seq<int>, c: nat) returns (column: int, rows: seq<seq<int>>)
    requires c <= |t| && r.State() == Ed(t, c)
    modifies r, r.interaction
    ensures var k := BackwardKillWord(LineBuffer(t, c));
      r.State() == Ed(k.text, k.cursor) && column == k.cursor + 2 && rows == [Prompt + k.text]
    ensures r.interaction == old(r.interaction)
  {
    WordKeys(t, c);
    var k := BackwardKillWord(LineBuffer(t, c));
    column, rows := Step(r, MetaBackspace(), t, c, k.text, k.cursor);
  }

  /** testBackwardWord: each step lands on the start of the previous word,
      `_` separating words like a space. */
  method BackwardWordScenario() returns (columns: seq<int>)
    ensures columns == [11, 10, 6, 2, 2]
  {
    var r := new Readline();
    Begin(r, false);
    TypeWords(r);
    BackwardWordExamples();
    columns := BackwardWordWalk(r, Words);
  }

  /** The backward walk over a line whose words end where those of
      `Words` do. */
  method BackwardWordWalk(r: Readline, t: seq<int>) returns (columns: seq<int>)
    requires |t| == 10 && r.State() == Ed(t, 10)
    requires BackwardWordTarget(t, 9) == 8 && BackwardWordTarget(t, 8) == 4
    requires BackwardWordTarget(t, 4) == 0 && BackwardWordTarget(t, 0) == 0
    modifies r, r.interaction
    ensures columns == [11, 10, 6, 2, 2]
  {
    var c1 := StepBack(r, t, 10);
    var c2 := WordBack(r, t, 9);
    var c3 := WordBack(r, t, 8);
    var c4 := WordBack(r, t, 4);
    var c5 := WordBack(r, t, 0);
    columns := [c1, c2, c3, c4, c5];
  }

  /** testForwardWord: from the start of the line, each step lands on the
      end of the next word. */
  method ForwardWordScenario() returns (columns: seq<int>)
    ensures columns == [2, 3, 5, 8, 12, 12]
  {
    var r := new Readline();
    Begin(r, false);
    TypeWords(r);
    ForwardWordExamples();
    columns := ForwardWordWalk(r, Words);
  }

  /** The forward walk over a line whose words end where those of `Words`
      do. */
  method ForwardWordWalk(r: Readline, t: seq<int>) returns (columns: seq<int>)
    requires |t| == 10 && r.State() == Ed(t, 10)
    requires ForwardWordTarget(t, 1) == 3 && ForwardWordTarget(t, 3) == 6
    requires ForwardWordTarget(t, 6) == 10 && ForwardWordTarget(t, 10) == 10
    modifies r, r.interaction
    ensures columns == [2, 3, 5, 8, 12, 12]
  {
    var c1 := Home(r, t, 10);
    var c2 := StepForward(r, t, 0);
    var c3 := WordForward(r, t, 1);
    var c4 := WordForward(r, t, 3);
    var c5 := WordForward(r, t, 6);
    var c6 := WordForward(r, t, 10);
    columns := [c1, c2, c3, c4, c5, c6];
  }

  const Kill1: seq<int> := [97, 48, 49, 32, 101, 57, 95, 95, 97]
  const Kill2: seq<int> := [97, 48, 49, 32, 97]

  lemma KillRows()
    ensures Prompt + Kill1 == [37, 32, 97, 48, 49, 32, 101, 57, 95, 95, 97]
    ensures Prompt + Kill2 == [37, 32, 97, 48, 49, 32, 97]
    ensures Prompt + [97] == [37, 32, 97]
  {
  }

  /** testBackwardKillWord: each step deletes back to the start of the
      previous word. */
  method BackwardKillWordScenario() returns (columns: seq<int>, rows: seq<seq<seq<int>>>)
    ensures columns == [11, 10, 6, 2, 2]
    ensures rows == [[[37, 32, 97, 48, 49, 32, 101, 57, 95, 95, 97]], [[37, 32, 97, 48, 49, 32, 97]], [[37, 32, 97]], [[37, 32, 97]]]
  {
    var r := new Readline();
    Begin(r, false);
    TypeWords(r);
    columns, rows := KillWordWalk(r);
  }

  method KillWordWalk(r: Readline) returns (columns: seq<int>, rows: seq<seq<seq<int>>>)
    requires r.State() == Ed(Words, 10)
    modifies r, r.interaction
    ensures columns == [11, 10, 6, 2, 2]
    ensures rows == [[[37, 32, 97, 48, 49, 32, 101, 57, 95, 95, 97]], [[37, 32, 97, 48, 49, 32, 97]], [[37, 32, 97]], [[37, 32, 97]]]
  {
    KillWordExamples();
    KillRows();
    var c1 := StepBack(r, Words, 10);
    var c2, r2 := KillWordBack(r, Words, 9);
    var c3, r3 := KillWordBack(r, Kill1, 8);
    var c4, r4 := KillWordBack(r, Kill2, 4);
    var c5, r5 := KillWordBack(r, [97], 0);
    columns, rows := [c1, c2, c3, c4, c5], [r2, r3, r4, r5];
  }

  // ----------------------------------------------------- completion

  /** A first read with a completion handler. */
  function Completing(text: seq<int>, cursor: nat, paused: bool, completions: seq<Completion>): RState
  {
    Engine([], Some(IState(Prompt, [], LineBuffer(text, cursor), [], 0, [], true, paused, completions)), [], 0, [])
  }

  lemma CompletionSteps()
    ensures Spliced(Empty, [97, 98]) == LineBuffer([97, 98], 2)
    ensures Handle(Completing([97, 98], 2, false, []), Tab) == Completing([97, 98], 2, true, [Completion([97, 98], 2)])
    ensures ReadSpec(Completing([97, 98], 2, true, [Completion([97, 98], 2)]), [Code(99)])
      == Completing([97, 98], 2, true, [Completion([97, 98], 2)]).(queue := [Code(99)])
  {
    SpliceEmpty([97, 98]);
    TabCompletes(Completing([97, 98], 2, false, []));
    var none: seq<Completion> := [];
    assert none + [Completion([97, 98], 2)] == [Completion([97, 98], 2)];
  }

  lemma CompletionEnds()
    ensures EndCompletionSpec(Completing([97, 98], 2, true, [Completion([97, 98], 2)]).(queue := [Code(99)]), [100])
      == Completing([97, 98, 100, 99], 4, false, [Completion([97, 98], 2)])
    ensures Display(Completing([97, 98, 100, 99], 4, false, [Completion([97, 98], 2)])) == [[37, 32, 97, 98, 100, 99]]
    ensures CursorAt(Completing([97, 98, 100, 99], 4, false, [Completion([97, 98], 2)])) == (0, 6)
  {
    var s := Completing([97, 98, 100], 3, false, [Completion([97, 98], 2)]);
    Typed([97, 98], [100]);
    assert [97, 98] + [100] == [97, 98, 100];
    DrainFirst(s, Code(99), []);
    assert s.(queue := [Code(99)] + []) == s.(queue := [Code(99)]);
    Typed([97, 98, 100], [99]);
    assert [97, 98, 100] + [99] == [97, 98, 100, 99];
    assert Row(Completing([97, 98, 100, 99], 4, false, [Completion([97, 98], 2)]).current.value) == [37, 32, 97, 98, 100, 99];
  }

  /** The complete function with a completion handler: Tab hands the line
      and cursor to the handler and the interaction waits; a key typed
      meanwhile stays queued; when the completion ends its text is inserted
      and the queued key follows. */
  method CompletionScenario() returns (calls: seq<Completion>, queued: seq<Input>, rows: seq<seq<int>>, at: (int, int))
    ensures calls == [Completion([97, 98], 2)] && queued == [Code(99)]
    ensures rows == [[37, 32, 97, 98, 100, 99]] && at == (0, 6)
  {
    var r := new Readline();
    Begin(r, true);
    CompletionSteps();
    CompletionEnds();
    PrintableText([97, 98]);
    Type(r, [97, 98], Completing([], 0, false, []), Completing([97, 98], 2, false, []));
    Press(r, Tab, Completing([97, 98], 2, false, []), Completing([97, 98], 2, true, [Completion([97, 98], 2)]));
    calls := r.interaction.completions;
    r.Read([Code(99)]);
    queued := r.queue;
    r.EndCompletion([100]);
    rows, at := Display(r.State()), CursorAt(r.State());
  }

  /** The complete function without a handler changes nothing. */
  method TabWithoutHandler() returns (rows: seq<seq<int>>, at: (int, int))
    ensures rows == [[37, 32, 65]] && at == (0, 3)
  {
    var r := new Readline();
    Begin(r, false);
    InsertCharSteps();
    assert Handle(Ed([65], 1), Tab) == Ed([65], 1);
    Press(r, Code(65), Ed([], 0), Ed([65], 1));
    Press(r, Tab, Ed([65], 1), Ed([65], 1));
    rows, at := Display(r.State()), CursorAt(r.State());
  }
}
