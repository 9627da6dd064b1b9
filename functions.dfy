/**
 The editing functions the keymap binds by name. Each one changes the
 interaction's line buffer or history position and then resumes the
 interaction; `complete` is dispatched to its own module.

 History browsing: the history is kept oldest first. `previous-history` steps
 one entry older and stops at the oldest; `next-history` steps one entry newer,
 and one step past the newest entry shows again the text that was being typed
 when browsing started. A fetched entry is shown as a fresh copy with the
 cursor at its end, so editing it never changes the stored history.
 */
module Functions {
  import opened LineBuffers
  import opened Interactions
  import Complete

  const BackwardCharName: string := "backward-char"
  const ForwardCharName: string := "forward-char"
  const BeginningOfLineName: string := "beginning-of-line"
  const EndOfLineName: string := "end-of-line"
  const BackwardDeleteCharName: string := "backward-delete-char"
  const DeleteCharName: string := "delete-char"
  const BackwardWordName: string := "backward-word"
  const ForwardWordName: string := "forward-word"
  const BackwardKillWordName: string := "backward-kill-word"
  const KillLineName: string := "kill-line"
  const PreviousHistoryName: string := "previous-history"
  const NextHistoryName: string := "next-history"

  /** The line-buffer functions, each named by the keymap. */
  predicate IsEdit(name: string)
  {
    name == BackwardCharName || name == ForwardCharName || name == BeginningOfLineName
    || name == EndOfLineName || name == BackwardDeleteCharName || name == DeleteCharName
    || name == BackwardWordName || name == ForwardWordName || name == BackwardKillWordName
    || name == KillLineName
  }

  /** Every function the engine knows; any other name is ignored. */
  predicate Known(name: string)
  {
    IsEdit(name) || name == PreviousHistoryName || name == NextHistoryName || name == Complete.Name
  }

  /** What a line-buffer function does to the buffer. */
  function EditOf(name: string, b: LineBuffer): (r: LineBuffer)
    requires IsEdit(name) && b.Valid()
    ensures r.Valid()
  {
    if name == BackwardCharName then BackwardChar(b)
    else if name == ForwardCharName then ForwardChar(b)
    else if name == BeginningOfLineName then BeginningOfLine(b)
    else if name == EndOfLineName then EndOfLine(b)
    else if name == BackwardDeleteCharName then BackwardDeleteChar(b)
    else if name == DeleteCharName then DeleteChar(b)
    else if name == BackwardWordName then BackwardWord(b)
    else if name == ForwardWordName then ForwardWord(b)
    else if name == BackwardKillWordName then BackwardKillWord(b)
    else KillLine(b)
  }

  /** The k-th newest history entry, for `1 <= k <= |history|`. */
  function Entry(history: seq<seq<int>>, k: nat): seq<int>
    requires 1 <= k <= |history|
  {
    history[|history| - k]
  }

  /** A line shown with the cursor at its end. */
  function Show(text: seq<int>): (r: LineBuffer)
    ensures r.Valid() && r.text == text && r.cursor == |text|
  {
    LineBuffer(text, |text|)
  }

  function PreviousHistory(s: IState): (r: IState)
    requires s.Valid()
    ensures r.Valid()
  {
    if s.historyIndex == |s.history| then s.(paused := false)
    else
      var k := s.historyIndex + 1;
      var saved := if s.historyIndex == 0 then s.buffer.text else s.saved;
      s.(historyIndex := k, saved := saved, buffer := Show(Entry(s.history, k)), paused := false)
  }

  function NextHistory(s: IState): (r: IState)
    requires s.Valid()
    ensures r.Valid()
  {
    if s.historyIndex == 0 then s.(paused := false)
    else
      var k := s.historyIndex - 1;
      var text := if k == 0 then s.saved else Entry(s.history, k);
      s.(historyIndex := k, buffer := Show(text), paused := false)
  }

  /** The state after the function `name` is applied to `s`. */
  function Effect(name: string, s: IState): (r: IState)
    requires Known(name) && s.Valid()
    ensures r.Valid()
    ensures r.prompt == s.prompt && r.lines == s.lines && r.history == s.history
    ensures r.hasCompletionHandler == s.hasCompletionHandler
  {
    if IsEdit(name) then s.(buffer := EditOf(name, s.buffer), paused := false)
    else if name == PreviousHistoryName then PreviousHistory(s)
    else if name == NextHistoryName then NextHistory(s)
    else Complete.Effect(s)
  }

  /** Applies the function `name` to the interaction. The word motions find
      their target with a scan of the line. */
  method Apply(name: string, i: Interaction)
    requires Known(name) && i.Valid()
    modifies i
    ensures i.State() == Effect(name, old(i.State()))
  {
    var b := i.buffer;
    if name == BackwardWordName || name == BackwardKillWordName {
      var target := FindBackwardWord(b.text, b.cursor);
      if name == BackwardWordName {
        i.SetBuffer(LineBuffer(b.text, target));
      } else {
        i.SetBuffer(LineBuffer(b.text[..target] + b.text[b.cursor..], target));
      }
      i.Resume();
    } else if name == ForwardWordName {
      var target := FindForwardWord(b.text, b.cursor);
      i.SetBuffer(LineBuffer(b.text, target));
      i.Resume();
    } else if IsEdit(name) {
      i.SetBuffer(EditOf(name, b));
      i.Resume();
    } else if name == PreviousHistoryName {
      if i.historyIndex < |i.history| {
        var k := i.historyIndex + 1;
        var saved := if i.historyIndex == 0 then b.text else i.saved;
        i.Browse(k, saved, Show(Entry(i.history, k)));
      }
      i.Resume();
    } else if name == NextHistoryName {
      if i.historyIndex > 0 {
        var k := i.historyIndex - 1;
        var text := if k == 0 then i.saved else Entry(i.history, k);
        i.Browse(k, i.saved, Show(text));
      }
      i.Resume();
    } else {
      Complete.Apply(i);
    }
  }

  // ------------------------------------------------------------------ history

  /** `n` presses of `previous-history`. */
  function Ups(s: IState, n: nat): (r: IState)
    requires s.Valid()
    ensures r.Valid()
  {
    if n == 0 then s else PreviousHistory(Ups(s, n - 1))
  }

  /** `n` presses of `next-history`. */
  function Downs(s: IState, n: nat): (r: IState)
    requires s.Valid()
    ensures r.Valid()
  {
    if n == 0 then s else NextHistory(Downs(s, n - 1))
  }

  /** Browsing never changes the stored history, and fetching the entry at
      position k shows it with the cursor at its end. */
  lemma BrowsingKeepsHistory(s: IState)
    requires s.Valid()
    ensures PreviousHistory(s).history == s.history && NextHistory(s).history == s.history
    ensures s.historyIndex < |s.history| ==>
      PreviousHistory(s).historyIndex == s.historyIndex + 1
      && PreviousHistory(s).buffer == Show(Entry(s.history, s.historyIndex + 1))
    ensures 1 < s.historyIndex ==>
      NextHistory(s).historyIndex == s.historyIndex - 1
      && NextHistory(s).buffer == Show(Entry(s.history, s.historyIndex - 1))
  {
  }

  /** Both directions stop at their end: `previous-history` at the oldest
      entry and `next-history` when not browsing leave the line as it is. */
  lemma BrowsingClamps(s: IState)
    requires s.Valid()
    ensures s.historyIndex == |s.history| ==> PreviousHistory(s) == s.(paused := false)
    ensures s.historyIndex == 0 ==> NextHistory(s) == s.(paused := false)
  {
  }

  /** From the line being typed, `n` steps back (no more than the history
      holds) land on the n-th newest entry and remember the typed text. */
  lemma {:induction false} UpsReach(s: IState, n: nat)
    requires s.Valid() && s.historyIndex == 0 && 1 <= n <= |s.history|
    ensures Ups(s, n).historyIndex == n && Ups(s, n).saved == s.buffer.text
    ensures Ups(s, n).buffer == Show(Entry(s.history, n))
    ensures Ups(s, n).history == s.history && Ups(s, n).lines == s.lines
  {
    if n > 1 {
      UpsReach(s, n - 1);
    }
  }

  /** From position k, k steps forward restore the remembered text, whatever
      was done to the fetched entries in between, and then stay there. */
  lemma {:induction false} DownsRestore(s: IState, n: nat)
    requires s.Valid() && n <= s.historyIndex
    ensures Downs(s, n).historyIndex == s.historyIndex - n
    ensures Downs(s, n).saved == s.saved && Downs(s, n).history == s.history
    ensures 0 < n && n == s.historyIndex ==> Downs(s, n).buffer == Show(s.saved)
    ensures 0 < n < s.historyIndex ==> Downs(s, n).buffer == Show(Entry(s.history, s.historyIndex - n))
  {
    if n > 0 {
      DownsRestore(s, n - 1);
    }
  }

  /** Going back n entries and forward n again shows the text that was being
      typed, with the cursor at its end. */
  lemma UpsThenDownsRestore(s: IState, n: nat)
    requires s.Valid() && s.historyIndex == 0 && 1 <= n <= |s.history|
    ensures Downs(Ups(s, n), n).buffer == Show(s.buffer.text)
    ensures Downs(Ups(s, n), n).historyIndex == 0
  {
    UpsReach(s, n);
    DownsRestore(Ups(s, n), n);
  }

  /** A line-buffer function never touches the history position. */
  lemma EditsKeepBrowsing(name: string, s: IState)
    requires IsEdit(name) && s.Valid()
    ensures Effect(name, s).historyIndex == s.historyIndex && Effect(name, s).saved == s.saved
    ensures Effect(name, s).buffer == EditOf(name, s.buffer) && !Effect(name, s).paused
  {
  }
}
