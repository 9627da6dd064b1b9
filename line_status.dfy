/**
 Whether an accepted line is complete or continues on the next visual line:
 the logical line (the visual lines entered so far joined by line feeds) is
 scanned codepoint by codepoint, keeping track of a pending backslash escape
 and of an open quote. A line that ends escaped or inside a quote continues.
 */
module LineStatus {

  const Backslash: int := '\\' as int
  const DoubleQuote: int := '"' as int
  const SingleQuote: int := '\'' as int
  const NewLine: int := '\n' as int

  /** The scanner's state: a backslash waiting for the codepoint it escapes,
      and the quote codepoint currently open (0 for none). */
  datatype Status = Status(escaping: bool, quote: int)

  const Start: Status := Status(false, 0)

  /** One codepoint: an escaped codepoint is taken literally; a backslash
      escapes the next one; a quote opens when none is open and closes the
      quote of the same kind. */
  function Accept(st: Status, cp: int): (r: Status)
    ensures st.escaping ==> r == st.(escaping := false)
    ensures !st.escaping && cp != Backslash && cp != DoubleQuote && cp != SingleQuote ==> r == st
  {
    if st.escaping then st.(escaping := false)
    else if cp == Backslash then st.(escaping := true)
    else if st.quote == 0 && (cp == DoubleQuote || cp == SingleQuote) then st.(quote := cp)
    else if cp == st.quote && (cp == DoubleQuote || cp == SingleQuote) then st.(quote := 0)
    else st
  }

  function Scan(st: Status, s: seq<int>): Status
    decreases |s|
  {
    if s == [] then st else Scan(Accept(st, s[0]), s[1..])
  }

  /** A logical line continues when it ends with a pending escape or an open
      quote. */
  predicate Continues(s: seq<int>)
  {
    var st := Scan(Start, s);
    st.escaping || st.quote != 0
  }

  /** The visual lines of a logical line joined by line feeds. */
  function Join(lines: seq<seq<int>>): (r: seq<int>)
    ensures lines == [] ==> r == []
    ensures |lines| == 1 ==> r == lines[0]
    decreases |lines|
  {
    if lines == [] then []
    else if |lines| == 1 then lines[0]
    else lines[0] + [NewLine] + Join(lines[1..])
  }

  /** Joining one more line adds a line feed and the line. */
  lemma {:induction false} JoinSnoc(lines: seq<seq<int>>, l: seq<int>)
    requires lines != []
    ensures Join(lines + [l]) == Join(lines) + [NewLine] + l
    decreases |lines|
  {
    if |lines| == 1 {
      assert lines + [l] == [lines[0], l];
    } else {
      assert (lines + [l])[1..] == lines[1..] + [l];
      JoinSnoc(lines[1..], l);
    }
  }

  /** Scanning is a left fold: the text can be scanned in pieces. */
  lemma {:induction false} ScanAppend(st: Status, a: seq<int>, b: seq<int>)
    ensures Scan(st, a + b) == Scan(Scan(st, a), b)
    decreases |a|
  {
    if a == [] {
      assert a + b == b;
    } else {
      assert (a + b)[1..] == a[1..] + b;
      ScanAppend(Accept(st, a[0]), a[1..], b);
    }
  }

  /** The number of double quotes in `s`. */
  function CountQuotes(s: seq<int>): nat
  {
    if s == [] then 0 else (if s[0] == DoubleQuote then 1 else 0) + CountQuotes(s[1..])
  }

  /** Without backslashes and single quotes, a line is inside a double quote
      exactly when it holds an odd number of double quotes. */
  lemma {:induction false} QuoteParity(st: Status, s: seq<int>)
    requires !st.escaping && (st.quote == 0 || st.quote == DoubleQuote)
    requires forall i :: 0 <= i < |s| ==> s[i] != Backslash && s[i] != SingleQuote
    ensures !Scan(st, s).escaping
    ensures (Scan(st, s).quote == DoubleQuote) <==> ((st.quote == DoubleQuote) != (CountQuotes(s) % 2 == 1))
    ensures Scan(st, s).quote == 0 || Scan(st, s).quote == DoubleQuote
    decreases |s|
  {
    if s != [] {
      QuoteParity(Accept(st, s[0]), s[1..]);
    }
  }

  /** Codepoints that are neither backslashes nor quotes. */
  predicate Plain(s: seq<int>)
  {
    forall i :: 0 <= i < |s| ==> s[i] != Backslash && s[i] != DoubleQuote && s[i] != SingleQuote
  }

  /** Plain codepoints leave an unescaped status as it is. */
  lemma {:induction false} ScanPlain(st: Status, s: seq<int>)
    requires !st.escaping && Plain(s)
    ensures Scan(st, s) == st
    decreases |s|
  {
    if s != [] {
      assert Plain(s[1..]) by {
        forall i | 0 <= i < |s[1..]| ensures s[1..][i] == s[i + 1] { }
      }
      ScanPlain(st, s[1..]);
    }
  }

  /** A trailing backslash that is not itself escaped makes the line
      continue. */
  lemma TrailingBackslashContinues(s: seq<int>)
    requires !Scan(Start, s).escaping
    ensures Continues(s + [Backslash])
  {
    ScanAppend(Start, s, [Backslash]);
  }

  /** The continuation tests, first: a lone `\` continues; `A` and the
      empty line do not. */
  lemma EscapeExamples()
    ensures Continues([92])
    ensures !Continues([65]) && !Continues([])
  {
    assert Scan(Start, [92]) == Status(true, 0) by { assert [92][1..] == []; }
    ScanPlain(Start, [65]);
  }

  /** `A"` leaves the double quote open. */
  lemma OpenQuoteScan()
    ensures Scan(Start, [65, 34]) == Status(false, DoubleQuote)
  {
    ScanPlain(Start, [65]);
    assert Scan(Start, [34]) == Status(false, DoubleQuote) by { assert [34][1..] == []; }
    ScanAppend(Start, [65], [34]);
    assert [65] + [34] == [65, 34];
  }

  /** `A"` continues, and so does `A"` followed by `B`. */
  lemma OpenQuoteExamples()
    ensures Continues([65, 34])
    ensures Continues(Join([[65, 34], [66]]))
    ensures Scan(Start, [65, 34, 10, 66]) == Status(false, DoubleQuote)
  {
    OpenQuoteScan();
    assert [[65, 34], [66]][1..] == [[66]];
    ScanPlain(Status(false, DoubleQuote), [10, 66]);
    ScanAppend(Start, [65, 34], [10, 66]);
    assert [65, 34] + [10, 66] == [65, 34, 10, 66];
  }

  /** With `C"` the quote closes, and the logical line is `A"`, LF, `B`, LF,
      `C"`. */
  lemma ClosedQuoteExample()
    ensures Join([[65, 34], [66], [67, 34]]) == [65, 34, 10, 66, 10, 67, 34]
    ensures !Continues([65, 34, 10, 66, 10, 67, 34])
  {
    assert [[65, 34], [66], [67, 34]][1..] == [[66], [67, 34]];
    assert [[66], [67, 34]][1..] == [[67, 34]];
    OpenQuoteExamples();
    var q := Status(false, DoubleQuote);
    ScanPlain(q, [10, 67]);
    ScanAppend(Start, [65, 34, 10, 66], [10, 67]);
    assert [65, 34, 10, 66] + [10, 67] == [65, 34, 10, 66, 10, 67];
    assert Scan(q, [34]) == Start by { assert [34][1..] == []; }
    ScanAppend(Start, [65, 34, 10, 66, 10, 67], [34]);
    assert [65, 34, 10, 66, 10, 67] + [34] == [65, 34, 10, 66, 10, 67, 34];
  }
}
