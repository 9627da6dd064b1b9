/**
 The readline engine of one connection. At most one interaction is in flight.
 Input that arrives while no interaction is reading, or while the current one
 is paused, waits in a queue and feeds the next read. Each input is a
 single codepoint or a key event the keymap recognised, naming a function.

 The screen is modelled as its rows: the rows already finished, then the row
 being edited, which shows the prompt (or `> ` on a continuation line) and the
 line buffer. The cursor is on the edited row at the prompt's width plus the
 buffer's cursor; when nothing is being read it is at the start of the next row.
 */
module Readlines {
  import opened LineBuffers
  import opened LineStatus
  import opened Interactions
  import opened FunctionEvents
  import Functions
  import Complete

  datatype Option<T> = None | Some(value: T)

  /** A codepoint read from the terminal, or a key sequence that the keymap
      bound to a function. */
  datatype Input = Code(cp: int) | Keys(event: FunctionEvent)

  const Intr: int := 3
  const Eof: int := 4
  const Enter: int := 13
  const AcceptLineName: string := "accept-line"

  /** The prompt of a continuation line. */
  const ContinuationPrompt: seq<int> := [62, 32]

  /** The single codepoints the default keymap binds to a function. */
  function Binding(cp: int): (r: Option<string>)
    ensures r.Some? ==> r.value == AcceptLineName || Functions.Known(r.value)
    ensures r.Some? <==> cp in {1, 5, 8, 9, 11, 13, 127}
  {
    if cp == 1 then Some(Functions.BeginningOfLineName)
    else if cp == 5 then Some(Functions.EndOfLineName)
    else if cp == 8 || cp == 127 then Some(Functions.BackwardDeleteCharName)
    else if cp == 9 then Some(Complete.Name)
    else if cp == 11 then Some(Functions.KillLineName)
    else if cp == 13 then Some(AcceptLineName)
    else None
  }

  /** The engine's state: the shared history, the interaction in flight, the
      queued input, the finished screen rows, how many times the bell rang,
      and every result delivered so far (`None` is the null result). */
  datatype RState = RState(
    history: seq<seq<int>>,
    current: Option<IState>,
    queue: seq<Input>,
    screen: seq<seq<int>>,
    bells: nat,
    results: seq<Option<seq<int>>>)
  {
    predicate Valid()
    {
      current.Some? ==> current.value.Valid() && current.value.history == history
    }
  }

  const Idle: RState := RState([], None, [], [], 0, [])

  /** The prompt shown on the edited row. */
  function ShownPrompt(it: IState): seq<int>
  {
    if it.lines == [] then it.prompt else ContinuationPrompt
  }

  function Row(it: IState): seq<int>
  {
    ShownPrompt(it) + it.buffer.text
  }

  /** Every row of the screen. */
  function Display(s: RState): (r: seq<seq<int>>)
    ensures s.current.None? ==> r == s.screen
    ensures s.current.Some? ==> r == s.screen + [Row(s.current.value)]
  {
    s.screen + if s.current.Some? then [Row(s.current.value)] else []
  }

  /** The cursor as (row, column). */
  function CursorAt(s: RState): (int, int)
  {
    if s.current.Some? then (|s.screen|, |ShownPrompt(s.current.value)| + s.current.value.buffer.cursor)
    else (|s.screen|, 0)
  }

  /** The text of the logical line being entered: the finished visual lines
      and the buffer, joined by line feeds. */
  function Logical(it: IState): seq<int>
  {
    Join(it.lines + [it.buffer.text])
  }

  /** The read is resolved with `r`: the edited row is finished and the
      engine is idle. */
  function Resolve(s: RState, r: Option<seq<int>>): RState
    requires s.current.Some?
  {
    s.(screen := s.screen + [Row(s.current.value)], current := None, results := s.results + [r])
  }

  /** Enter: a logical line that ends escaped or in an open quote goes on with
      a new visual line; any other is added to the history and delivered. */
  function AcceptLine(s: RState): RState
    requires s.Valid() && s.current.Some?
  {
    var it := s.current.value;
    if Continues(Logical(it)) then
      s.(screen := s.screen + [Row(it)], current := Some(it.(lines := it.lines + [it.buffer.text], buffer := Empty)))
    else
      Resolve(s, Some(Logical(it))).(history := s.history + [Logical(it)])
  }

  /** Ctrl-C: the edited row is left on the screen and the request starts
      again on a new prompt, dropping the buffer and any continuation. */
  function Interrupt(s: RState): RState
    requires s.current.Some?
  {
    var it := s.current.value;
    s.(screen := s.screen + [Row(it)],
       current := Some(it.(lines := [], buffer := Empty, historyIndex := 0, saved := [])))
  }

  /** Runs the function `name`; the interaction is paused while it runs, and
      the function decides whether it resumes. Unknown names are ignored. */
  function Dispatch(s: RState, name: string): RState
    requires s.Valid() && s.current.Some?
  {
    if name == AcceptLineName then AcceptLine(s)
    else if Functions.Known(name) then
      s.(current := Some(Functions.Effect(name, s.current.value.(paused := true))))
    else s
  }

  /** One input handled by the interaction in flight. */
  function Handle(s: RState, input: Input): (r: RState)
    requires s.Valid() && s.current.Some?
    ensures r.Valid() && r.queue == s.queue
    ensures |s.history| <= |r.history| && r.history[..|s.history|] == s.history
    ensures |s.results| <= |r.results| <= |s.results| + 1 && r.results[..|s.results|] == s.results
    ensures |r.results| == |s.results| + 1 <==> r.current.None?
  {
    var it := s.current.value;
    match input
    case Code(cp) =>
      if cp == Intr then Interrupt(s)
      else if cp == Eof && it.buffer.text == [] then Resolve(s, None)
      else if cp == Eof then Dispatch(s, Functions.DeleteCharName)
      else if Binding(cp).Some? then Dispatch(s, Binding(cp).value)
      else Unbound(s, cp)
    case Keys(e) => Dispatch(s, e.Name())
  }

  /** A codepoint without a binding: a control codepoint rings the bell,
      anything else is inserted at the cursor. */
  function Unbound(s: RState, cp: int): (r: RState)
    requires s.Valid() && s.current.Some?
    ensures r.Valid() && r.queue == s.queue && r.history == s.history && r.results == s.results
    ensures r.current.Some?
  {
    var it := s.current.value;
    if cp < 32 then s.(bells := s.bells + 1)
    else s.(current := Some(it.(buffer := Insert(it.buffer, cp))))
  }

  /** Whether the engine takes the next queued input. */
  predicate Ready(s: RState)
  {
    s.current.Some? && !s.current.value.paused && s.queue != []
  }

  /** Handles queued input until the queue is empty, the read resolves or the
      interaction pauses. */
  function Drain(s: RState): (r: RState)
    requires s.Valid()
    ensures r.Valid() && !Ready(r)
    decreases |s.queue|
  {
    if !Ready(s) then s else Drain(Handle(s.(queue := s.queue[1..]), s.queue[0]))
  }

  /** A read request: refused while another is pending; otherwise a new
      interaction starts, with the shared history, and takes queued input. */
  function ReadLineSpec(s: RState, prompt: seq<int>, hasCompletionHandler: bool): (r: (bool, RState))
    requires s.Valid()
    ensures r.1.Valid()
    ensures !r.0 <==> s.current.Some?
    ensures !r.0 ==> r.1 == s
  {
    if s.current.Some? then (false, s)
    else (true, Drain(s.(current := Some(Initial(prompt, s.history, hasCompletionHandler)))))
  }

  /** Input arriving from the terminal. */
  function ReadSpec(s: RState, inputs: seq<Input>): (r: RState)
    requires s.Valid()
    ensures r.Valid()
  {
    Drain(s.(queue := s.queue + inputs))
  }

  /** Cancels the pending read, which resolves with null; reports whether a
      read was pending. */
  function CancelSpec(s: RState): (r: (bool, RState))
    requires s.Valid()
    ensures r.1.Valid() && r.0 == s.current.Some?
    ensures !r.0 ==> r.1 == s
    ensures r.0 ==> r.1.current.None? && r.1.results == s.results + [None]
  {
    if s.current.None? then (false, s) else (true, Resolve(s, None))
  }

  /** A completion ends: its codepoints are inserted at the cursor and the
      paused interaction resumes and takes queued input. */
  function EndCompletionSpec(s: RState, inserted: seq<int>): (r: RState)
    requires s.Valid()
    ensures r.Valid()
  {
    if s.current.Some? && s.current.value.paused then
      var it := s.current.value;
      Drain(s.(current := Some(it.(buffer := InsertAll(it.buffer, inserted), paused := false))))
    else s
  }

  /** Ending the completion of a paused interaction with nothing queued
      splices the completed codepoints in at the cursor, moves the cursor
      past them and resumes; nothing else changes. */
  lemma EndCompletionInserts(s: RState, t: seq<int>)
    requires s.Valid() && s.current.Some? && s.current.value.paused && s.queue == []
    ensures var it := s.current.value;
            var b := it.buffer;
            EndCompletionSpec(s, t) ==
              s.(current := Some(it.(buffer := LineBuffer(b.text[..b.cursor] + t + b.text[b.cursor..], b.cursor + |t|),
                                     paused := false)))
  {
    InsertAllSplices(s.current.value.buffer, t);
  }

  /** Ending a completion when no interaction waits for one changes nothing. */
  lemma EndCompletionIdle(s: RState, t: seq<int>)
    requires s.Valid() && (s.current.None? || !s.current.value.paused)
    ensures EndCompletionSpec(s, t) == s
  {
  }

  // -------------------------------------------------------------- the class

  class Readline {
    var history: seq<seq<int>>
    var interaction: Interaction?
    var queue: seq<Input>
    var screen: seq<seq<int>>
    var bells: nat
    var results: seq<Option<seq<int>>>

    function State(): RState
      reads this, interaction
    {
      RState(history, if interaction == null then None else Some(interaction.State()), queue, screen, bells, results)
    }

    ghost predicate Valid()
      reads this, interaction
    {
      State().Valid()
    }

    constructor ()
      ensures Valid() && State() == Idle
    {
      history := [];
      interaction := null;
      queue := [];
      screen := [];
      bells := 0;
      results := [];
    }

    method ReadLine(prompt: seq<int>, hasCompletionHandler: bool) returns (ok: bool)
      requires Valid()
      modifies this, interaction
      ensures Valid()
      ensures (ok, State()) == ReadLineSpec(old(State()), prompt, hasCompletionHandler)
      ensures interaction == null || interaction == old(interaction) || fresh(interaction)
    {
      if interaction != null {
        return false;
      }
      interaction := new Interaction(prompt, history, hasCompletionHandler);
      Deliver();
      ok := true;
    }

    method Read(inputs: seq<Input>)
      requires Valid()
      modifies this, interaction
      ensures Valid()
      ensures State() == ReadSpec(old(State()), inputs)
      ensures interaction == null || interaction == old(interaction)
    {
      queue := queue + inputs;
      Deliver();
    }

    method Cancel() returns (ok: bool)
      requires Valid()
      modifies this
      ensures Valid()
      ensures (ok, State()) == CancelSpec(old(State()))
    {
      if interaction == null {
        return false;
      }
      Finish(None);
      ok := true;
    }

    method EndCompletion(inserted: seq<int>)
      requires Valid()
      modifies this, interaction
      ensures Valid()
      ensures State() == EndCompletionSpec(old(State()), inserted)
      ensures interaction == null || interaction == old(interaction)
    {
      if interaction != null && interaction.paused {
        interaction.SetBuffer(InsertAll(interaction.buffer, inserted));
        interaction.Resume();
        Deliver();
      }
    }

    /** The queued input loop. */
    method Deliver()
      requires Valid()
      modifies this, interaction
      ensures Valid() && State() == Drain(old(State()))
      ensures interaction == null || interaction == old(interaction)
    {
      ghost var target := Drain(State());
      ghost var it0 := interaction;
      while interaction != null && !interaction.paused && queue != []
        invariant Valid() && Drain(State()) == target
        invariant interaction == null || interaction == it0
        decreases |queue|
      {
        var input := queue[0];
        queue := queue[1..];
        HandleOne(input);
      }
    }

    /** The edited row being left on the screen. */
    method Finish(r: Option<seq<int>>)
      requires Valid() && interaction != null
      modifies this
      ensures Valid() && State() == Resolve(old(State()), r)
    {
      screen := screen + [Row(interaction.State())];
      results := results + [r];
      interaction := null;
    }

    method HandleOne(input: Input)
      requires Valid() && interaction != null
      modifies this, interaction
      ensures Valid() && State() == Handle(old(State()), input)
      ensures interaction == null || interaction == old(interaction)
    {
      var it := interaction;
      match input
      case Code(cp) =>
        if cp == Intr {
          screen := screen + [Row(it.State())];
          it.Reset();
        } else if cp == Eof && it.buffer.text == [] {
          Finish(None);
        } else if cp == Eof {
          DispatchOne(Functions.DeleteCharName);
        } else if Binding(cp).Some? {
          DispatchOne(Binding(cp).value);
        } else if cp < 32 {
          bells := bells + 1;
        } else {
          it.SetBuffer(Insert(it.buffer, cp));
        }
      case Keys(e) =>
        DispatchOne(e.Name());
    }

    method DispatchOne(name: string)
      requires Valid() && interaction != null
      modifies this, interaction
      ensures Valid() && State() == Dispatch(old(State()), name)
      ensures interaction == null || interaction == old(interaction)
    {
      var it := interaction;
      if name == AcceptLineName {
        var logical := Logical(it.State());
        if Continues(logical) {
          screen := screen + [Row(it.State())];
          it.ContinueLine();
        } else {
          Finish(Some(logical));
          history := history + [logical];
        }
      } else if Functions.Known(name) {
        it.Pause();
        Functions.Apply(name, it);
      }
    }
  }

  // ----------------------------------------------------------------- lemmas

  /** Draining never takes back a result or a history entry. */
  lemma {:induction false} DrainOnlyAppends(s: RState)
    requires s.Valid()
    ensures |s.results| <= |Drain(s).results| && Drain(s).results[..|s.results|] == s.results
    ensures |s.history| <= |Drain(s).history| && Drain(s).history[..|s.history|] == s.history
    decreases |s.queue|
  {
    if Ready(s) {
      var t := Handle(s.(queue := s.queue[1..]), s.queue[0]);
      DrainOnlyAppends(t);
      assert Drain(t).results[..|s.results|] == Drain(t).results[..|t.results|][..|s.results|];
      assert Drain(t).history[..|s.history|] == Drain(t).history[..|t.history|][..|s.history|];
    }
  }

  /** A read is resolved at most once: draining from a pending read adds at
      most one result, and the engine is idle exactly when it added one. */
  lemma {:induction false} DrainResolvesOnce(s: RState)
    requires s.Valid() && s.current.Some?
    ensures |Drain(s).results| <= |s.results| + 1
    ensures |Drain(s).results| == |s.results| + 1 <==> Drain(s).current.None?
    decreases |s.queue|
  {
    if Ready(s) {
      var t := Handle(s.(queue := s.queue[1..]), s.queue[0]);
      if t.current.Some? {
        DrainResolvesOnce(t);
      }
    }
  }

  /** Only one read may be pending, and cancel is observable: cancelling
      while idle fails, cancelling a pending read succeeds once, delivering
      null, and a second cancel fails. */
  lemma CancelOnce(s: RState, prompt: seq<int>, h: bool)
    requires s.Valid() && s.current.None?
    ensures !CancelSpec(s).0
    ensures var started := ReadLineSpec(s, prompt, h).1;
      started.current.Some? ==>
        !ReadLineSpec(started, prompt, h).0
        && CancelSpec(started).0 && CancelSpec(started).1.results == started.results + [None]
        && !CancelSpec(CancelSpec(started).1).0
  {
  }

  /** Ctrl-C resolves nothing: the request stays pending on a fresh prompt
      with an empty line and no continuation, the browsing is dropped, and
      what was shown stays on the screen. */
  lemma InterruptKeepsReading(s: RState)
    requires s.Valid() && s.current.Some?
    ensures var r := Handle(s, Code(Intr));
      && r.results == s.results && r.history == s.history && r.current.Some?
      && r.current.value.buffer == Empty && r.current.value.lines == []
      && r.current.value.historyIndex == 0
      && ShownPrompt(r.current.value) == s.current.value.prompt
      && Display(r) == Display(s) + [s.current.value.prompt]
  {
    assert s.current.value.prompt + [] == s.current.value.prompt;
  }

  /** After Ctrl-C, Enter delivers the empty line, not null. */
  lemma InterruptThenEnter(s: RState)
    requires s.Valid() && s.current.Some?
    ensures Handle(Handle(s, Code(Intr)), Code(Enter)).results == s.results + [Some([])]
  {
    var t := Handle(s, Code(Intr));
    assert Logical(t.current.value) == [];
    assert Scan(Start, []) == Start;
  }

  /** An unbound control codepoint rings the bell once and changes nothing
      else. */
  lemma IllegalKeyRings(s: RState, cp: int)
    requires s.Valid() && s.current.Some?
    requires 0 <= cp < 32 && cp != Intr && cp != Eof && Binding(cp).None?
    ensures Handle(s, Code(cp)) == s.(bells := s.bells + 1)
  {
  }

  /** Ctrl-D on an empty line is end of input and delivers null; on a
      non-empty one it deletes the codepoint under the cursor. */
  lemma EofOnEmptyLine(s: RState)
    requires s.Valid() && s.current.Some?
    ensures s.current.value.buffer.text == [] ==>
      Handle(s, Code(Eof)).results == s.results + [None] && Handle(s, Code(Eof)).current.None?
    ensures s.current.value.buffer.text != [] ==>
      Handle(s, Code(Eof)).current.Some?
      && Handle(s, Code(Eof)).current.value.buffer == DeleteChar(s.current.value.buffer)
      && Handle(s, Code(Eof)).results == s.results
  {
  }

  /** Enter resolves the read exactly when the logical line neither ends
      escaped nor in an open quote, and then delivers the visual lines joined
      by line feeds and adds them to the history; otherwise a continuation
      line with the `> ` prompt follows. */
  lemma EnterResolvesIff(s: RState)
    requires s.Valid() && s.current.Some?
    ensures var r := Handle(s, Code(Enter));
      r.current.None? <==> !Continues(Logical(s.current.value))
    ensures var r := Handle(s, Code(Enter));
      r.current.None? ==>
        r.results == s.results + [Some(Logical(s.current.value))]
        && r.history == s.history + [Logical(s.current.value)]
    ensures var r := Handle(s, Code(Enter));
      r.current.Some? ==>
        r.results == s.results && ShownPrompt(r.current.value) == ContinuationPrompt
        && r.current.value.buffer == Empty
        && Logical(r.current.value) == Logical(s.current.value) + [NewLine]
  {
    var it := s.current.value;
    var r := Handle(s, Code(Enter));
    if r.current.Some? {
      JoinSnoc(it.lines + [it.buffer.text], []);
    }
  }

  /** A printable codepoint is inserted at the cursor and nothing else
      changes. */
  lemma PrintableInserted(s: RState, cp: int)
    requires s.Valid() && s.current.Some?
    requires 32 <= cp && cp != 127
    ensures var r := Handle(s, Code(cp));
      r == s.(current := Some(s.current.value.(buffer := Insert(s.current.value.buffer, cp))))
    ensures CursorAt(Handle(s, Code(cp))).1 == CursorAt(s).1 + 1
  {
  }

  /** One queued input for a reading, unpaused interaction is handled; the
      queue is then empty. */
  lemma DrainOne(s: RState, input: Input)
    requires s.Valid() && s.current.Some? && !s.current.value.paused && s.queue == []
    ensures ReadSpec(s, [input]) == Handle(s, input)
  {
    var t := s.(queue := s.queue + [input]);
    assert t.queue == [input];
    assert t.(queue := t.queue[1..]) == s;
    var h := Handle(s, input);
    assert !Ready(h);
    assert Drain(t) == Drain(h);
  }

  /** A key event naming a line-buffer function applies it to the buffer
      and resumes; nothing else changes. */
  lemma EditKeyApplies(s: RState, name: string, codes: seq<int>)
    requires s.Valid() && s.current.Some? && !s.current.value.paused && Functions.IsEdit(name)
    ensures Handle(s, Keys(FunctionEvent(name, codes)))
      == s.(current := Some(s.current.value.(buffer := Functions.EditOf(name, s.current.value.buffer))))
  {
    Functions.EditsKeepBrowsing(name, s.current.value.(paused := true));
  }

  /** The control codepoints bound to line-buffer functions apply them the
      same way: 1 beginning-of-line, 5 end-of-line, 8 and 127
      backward-delete-char, 11 kill-line, and 4 delete-char on a non-empty
      line. */
  lemma BoundCodeApplies(s: RState, cp: int)
    requires s.Valid() && s.current.Some? && !s.current.value.paused
    requires cp in {1, 5, 8, 11, 127} || (cp == Eof && s.current.value.buffer.text != [])
    ensures var name := if cp == Eof then Functions.DeleteCharName else Binding(cp).value;
      Functions.IsEdit(name)
      && Handle(s, Code(cp)) == s.(current := Some(s.current.value.(buffer := Functions.EditOf(name, s.current.value.buffer))))
  {
    var name := if cp == Eof then Functions.DeleteCharName else Binding(cp).value;
    Functions.EditsKeepBrowsing(name, s.current.value.(paused := true));
  }

  /** Tab runs `complete` on the paused interaction. */
  lemma TabCompletes(s: RState)
    requires s.Valid() && s.current.Some? && !s.current.value.paused
    ensures Handle(s, Code(9)) == s.(current := Some(Complete.Effect(s.current.value.(paused := true))))
  {
    assert Binding(9) == Some(Complete.Name);
    assert Complete.Name != AcceptLineName && !Functions.IsEdit(Complete.Name);
    assert Complete.Name != Functions.PreviousHistoryName && Complete.Name != Functions.NextHistoryName;
  }

  /** The history keys browse and resume. */
  lemma HistoryKeyApplies(s: RState, codes: seq<int>)
    requires s.Valid() && s.current.Some? && !s.current.value.paused
    ensures Handle(s, Keys(FunctionEvent(Functions.PreviousHistoryName, codes)))
      == s.(current := Some(Functions.PreviousHistory(s.current.value)))
    ensures Handle(s, Keys(FunctionEvent(Functions.NextHistoryName, codes)))
      == s.(current := Some(Functions.NextHistory(s.current.value)))
  {
  }

  /** The inputs for a run of codepoints typed one after the other. */
  function Codes(cps: seq<int>): (r: seq<Input>)
    ensures |r| == |cps| && forall i :: 0 <= i < |cps| ==> r[i] == Code(cps[i])
  {
    if cps == [] then [] else [Code(cps[0])] + Codes(cps[1..])
  }

  /** Codepoints that are inserted rather than bound or refused. */
  predicate Printable(cps: seq<int>)
  {
    forall i :: 0 <= i < |cps| ==> 32 <= cps[i] && cps[i] != 127
  }

  /** Typed printable codepoints are inserted one by one at the cursor,
      before whatever input follows them is handled. */
  lemma {:induction false} TypingInserts(s: RState, cps: seq<int>, rest: seq<Input>)
    requires s.Valid() && s.current.Some? && !s.current.value.paused && Printable(cps)
    ensures Drain(s.(queue := Codes(cps) + rest))
      == Drain(s.(current := Some(s.current.value.(buffer := InsertAll(s.current.value.buffer, cps))), queue := rest))
    decreases |cps|
  {
    var it := s.current.value;
    if cps == [] {
      assert Codes(cps) + rest == rest;
      assert it.(buffer := InsertAll(it.buffer, cps)) == it;
    } else {
      var t := s.(queue := Codes(cps) + rest);
      assert t.queue[0] == Code(cps[0]);
      assert t.queue[1..] == Codes(cps[1..]) + rest;
      var s1 := s.(current := Some(it.(buffer := Insert(it.buffer, cps[0]))));
      PrintableInserted(s.(queue := t.queue[1..]), cps[0]);
      assert Handle(t.(queue := t.queue[1..]), t.queue[0]) == s1.(queue := Codes(cps[1..]) + rest);
      TypingInserts(s1, cps[1..], rest);
    }
  }

  /** The first of several queued inputs is handled before the others. */
  lemma DrainFirst(s: RState, input: Input, rest: seq<Input>)
    requires s.Valid() && s.current.Some? && !s.current.value.paused && s.queue == []
    ensures Drain(s.(queue := [input] + rest)) == Drain(Handle(s, input).(queue := rest))
  {
    var t := s.(queue := [input] + rest);
    assert t.queue[0] == input && t.queue[1..] == rest;
    assert t.(queue := rest) == s.(queue := rest);
    HandleIgnoresQueue(s, input, rest);
  }

  /** Handling an input never looks at what is still queued. */
  lemma HandleIgnoresQueue(s: RState, input: Input, q: seq<Input>)
    requires s.Valid() && s.current.Some?
    ensures Handle(s.(queue := q), input) == Handle(s, input).(queue := q)
  {
  }

  /** Queued input is taken in order: draining with more input behind the
      queue is draining the queue first and then the rest. */
  lemma {:induction false} DrainAppend(s: RState, b: seq<Input>)
    requires s.Valid()
    ensures Drain(s.(queue := s.queue + b)) == Drain(Drain(s).(queue := Drain(s).queue + b))
    decreases |s.queue|
  {
    var t := s.(queue := s.queue + b);
    if Ready(s) {
      assert t.queue[0] == s.queue[0] && t.queue[1..] == s.queue[1..] + b;
      var h := Handle(s.(queue := s.queue[1..]), s.queue[0]);
      HandleIgnoresQueue(s, s.queue[0], s.queue[1..]);
      HandleIgnoresQueue(s, s.queue[0], s.queue[1..] + b);
      assert Handle(t.(queue := t.queue[1..]), t.queue[0]) == h.(queue := h.queue + b);
      DrainAppend(h, b);
    } else if s.queue == [] {
      assert t == Drain(s).(queue := Drain(s).queue + b);
    }
  }

  /** Input delivered in two reads is handled exactly as when it is
      delivered in one. */
  lemma ReadInChunks(s: RState, a: seq<Input>, b: seq<Input>)
    requires s.Valid()
    ensures ReadSpec(ReadSpec(s, a), b) == ReadSpec(s, a + b)
  {
    DrainAppend(s.(queue := s.queue + a), b);
    assert s.queue + a + b == s.queue + (a + b);
  }
}
