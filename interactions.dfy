/**
 One in-flight request to read a line. The interaction owns the line buffer
 being edited, the visual lines already entered when the logical line
 continues, the browse position in the history, the text that was being typed
 before browsing started, and the completion handler of the request. It is
 paused while an editing function runs; the function resumes it when it is
 done.
 */
module Interactions {
  import opened LineBuffers

  /** What a completion handler is handed: the line and the cursor at the
      time `complete` was applied. */
  datatype Completion = Completion(text: seq<int>, cursor: nat)

  /** A snapshot of an interaction. `historyIndex` counts how far back the
      user is browsing: 0 means not browsing, `k > 0` shows the k-th newest
      entry. `completions` records, in order, every call of the completion
      handler. */
  datatype IState = IState(
    prompt: seq<int>,
    lines: seq<seq<int>>,
    buffer: LineBuffer,
    history: seq<seq<int>>,
    historyIndex: nat,
    saved: seq<int>,
    hasCompletionHandler: bool,
    paused: bool,
    completions: seq<Completion>)
  {
    predicate Valid()
    {
      buffer.Valid() && historyIndex <= |history|
    }
  }

  /** A new interaction: nothing typed, not browsing, not paused. */
  function Initial(prompt: seq<int>, history: seq<seq<int>>, hasCompletionHandler: bool): (s: IState)
    ensures s.Valid() && s.buffer == Empty && s.lines == [] && s.historyIndex == 0 && !s.paused
  {
    IState(prompt, [], Empty, history, 0, [], hasCompletionHandler, false, [])
  }

  class Interaction {
    const prompt: seq<int>
    var lines: seq<seq<int>>
    var buffer: LineBuffer
    const history: seq<seq<int>>
    var historyIndex: nat
    var saved: seq<int>
    const hasCompletionHandler: bool
    var paused: bool
    var completions: seq<Completion>

    function State(): IState
      reads this
    {
      IState(prompt, lines, buffer, history, historyIndex, saved, hasCompletionHandler, paused, completions)
    }

    ghost predicate Valid()
      reads this
    {
      State().Valid()
    }

    constructor (prompt: seq<int>, history: seq<seq<int>>, hasCompletionHandler: bool)
      ensures Valid()
      ensures State() == Initial(prompt, history, hasCompletionHandler)
    {
      this.prompt := prompt;
      this.history := history;
      this.hasCompletionHandler := hasCompletionHandler;
      lines := [];
      buffer := Empty;
      historyIndex := 0;
      saved := [];
      paused := false;
      completions := [];
    }

    /** Lets the engine hand the interaction the next key. */
    method Resume()
      modifies this
      ensures State() == old(State()).(paused := false)
    {
      paused := false;
    }

    /** Set by the engine while a function runs. */
    method Pause()
      modifies this
      ensures State() == old(State()).(paused := true)
    {
      paused := true;
    }

    method SetBuffer(b: LineBuffer)
      modifies this
      ensures State() == old(State()).(buffer := b)
    {
      buffer := b;
    }

    /** Moves the browse position and shows `b`, remembering `saved0` as the
        text typed before browsing. */
    method Browse(index: nat, saved0: seq<int>, b: LineBuffer)
      modifies this
      ensures State() == old(State()).(historyIndex := index, saved := saved0, buffer := b)
    {
      historyIndex := index;
      saved := saved0;
      buffer := b;
    }

    /** Calls the completion handler with the current line and cursor. */
    method RequestCompletion()
      modifies this
      ensures State() == old(State()).(completions := old(completions) + [Completion(buffer.text, buffer.cursor)])
    {
      completions := completions + [Completion(buffer.text, buffer.cursor)];
    }

    /** The logical line continues: the visual line is kept and editing
        starts again on an empty one. */
    method ContinueLine()
      modifies this
      ensures State() == old(State()).(lines := old(lines) + [old(buffer).text], buffer := Empty)
    {
      lines := lines + [buffer.text];
      buffer := Empty;
    }

    /** An interrupt: the logical line, the buffer and the browsing are
        dropped; the request stays pending. */
    method Reset()
      modifies this
      ensures State() == old(State()).(lines := [], buffer := Empty, historyIndex := 0, saved := [])
    {
      lines := [];
      buffer := Empty;
      historyIndex := 0;
      saved := [];
    }
  }
}
