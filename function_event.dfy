/**
 A key event produced by the keymap when a codepoint sequence matches a named
 editing function: the function's name together with the codepoints that were
 matched. The event is an immutable value.
 */
module FunctionEvents {

  /** The two ways an index can be refused. `WrongIndex` is the explicit guard
      of the accessor; `ArrayIndexOutOfBounds` is the failure of the array
      access itself when an index slips past the guard. Both are
      `IndexOutOfBoundsException`s for the caller. */
  datatype IndexError = WrongIndex(index: int) | ArrayIndexOutOfBounds(index: int)

  datatype Result<T> = Ok(value: T) | Err(error: IndexError)

  datatype FunctionEvent = FunctionEvent(name: string, codePoints: seq<int>) {

    /** The name of the function to apply: the one given at construction. */
    function Name(): string
    {
      name
    }

    /** The number of codepoints the keymap matched. */
    function Length(): nat
    {
      |codePoints|
    }

    /** The accessor as written: the guard refuses negative indices and those
        strictly above the length, so `index == Length()` passes the guard and
        fails at the array access instead. */
    function GetCodePointAtAsWritten(index: int): (r: Result<int>)
      ensures r.Ok? <==> 0 <= index < Length()
      ensures r.Ok? ==> r.value == codePoints[index]
      ensures r.Err? && index >= 0 ==> (r.error == ArrayIndexOutOfBounds(index) <==> index == Length())
    {
      if index < 0 || index > |codePoints| then Err(WrongIndex(index))
      else if index == |codePoints| then Err(ArrayIndexOutOfBounds(index))
      else Ok(codePoints[index])
    }

    /** The accessor with the guard the code evidently intends: every index
        outside `[0, Length())` is refused by the guard itself. */
    function GetCodePointAt(index: int): (r: Result<int>)
      ensures r.Ok? <==> 0 <= index < Length()
      ensures r.Ok? ==> r.value == codePoints[index]
      ensures r.Err? ==> r.error == WrongIndex(index)
    {
      if index < 0 || index >= |codePoints| then Err(WrongIndex(index))
      else Ok(codePoints[index])
    }
  }

  /** The as-written guard lets `index == length` through to the array access:
      the event `("complete", [9])` read at index 1 fails with the array's own
      exception, not with the guard's. */
  lemma GuardLetsLengthThrough()
    ensures FunctionEvent("complete", [9]).GetCodePointAtAsWritten(1) == Err(ArrayIndexOutOfBounds(1))
    ensures FunctionEvent("complete", [9]).GetCodePointAt(1) == Err(WrongIndex(1))
  {
  }

  /** Reading every index of an event in order gives back the sequence it was
      constructed with. */
  function CodePointsOf(e: FunctionEvent, i: nat): (r: seq<int>)
    requires i <= e.Length()
    ensures r == e.codePoints[i..]
    decreases e.Length() - i
  {
    if i == e.Length() then []
    else [e.GetCodePointAt(i).value] + CodePointsOf(e, i + 1)
  }

  /** An event gives back what it was built from: its name, its length, and
      codepoint by codepoint the matched sequence. */
  lemma EventReadsBack(name: string, cps: seq<int>)
    ensures var e := FunctionEvent(name, cps);
            e.Name() == name && e.Length() == |cps| && CodePointsOf(e, 0) == cps
  {
    var e := FunctionEvent(name, cps);
    assert CodePointsOf(e, 0) == e.codePoints[0..];
    assert cps[0..] == cps;
  }
}
