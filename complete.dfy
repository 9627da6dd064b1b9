/**
 The `complete` editing function: with a completion handler the handler is
 called once with a completion wrapping the interaction, and the interaction
 stays paused until that completion ends; without one the interaction is
 resumed at once.
 */
module Complete {
  import opened Interactions

  /** The name the keymap binds. */
  const Name: string := "complete"

  /** The state after `complete` is applied to `s`. */
  function Effect(s: IState): IState
  {
    if s.hasCompletionHandler then
      s.(completions := s.completions + [Completion(s.buffer.text, s.buffer.cursor)])
    else
      s.(paused := false)
  }

  method Apply(i: Interaction)
    modifies i
    ensures i.State() == Effect(old(i.State()))
  {
    if i.hasCompletionHandler {
      i.RequestCompletion();
    } else {
      i.Resume();
    }
  }

  /** Exactly one of the two effects happens: either the handler is called
      once more, with the current line and cursor, and the pause is kept; or
      the handler is not called and the interaction resumes. The edited line,
      the history and the continuation are left alone in both cases. */
  lemma ExactlyOneEffect(s: IState)
    ensures var r := Effect(s);
      && r.buffer == s.buffer && r.lines == s.lines && r.prompt == s.prompt
      && r.history == s.history && r.historyIndex == s.historyIndex && r.saved == s.saved
      && r.hasCompletionHandler == s.hasCompletionHandler
    ensures var r := Effect(s);
      (|r.completions| == |s.completions| + 1 && r.paused == s.paused) <==> s.hasCompletionHandler
    ensures var r := Effect(s);
      (r.completions == s.completions && !r.paused) <== !s.hasCompletionHandler
    ensures var r := Effect(s);
      s.hasCompletionHandler ==>
        r.completions[..|s.completions|] == s.completions
        && r.completions[|s.completions|] == Completion(s.buffer.text, s.buffer.cursor)
  {
  }

  /** Applying `complete` keeps the interaction well formed. */
  lemma EffectValid(s: IState)
    requires s.Valid()
    ensures Effect(s).Valid()
  {
  }
}
