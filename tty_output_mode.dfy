/**
 The output mode of a TTY: codepoints written by the application pass through
 unchanged except that every line feed is sent as carriage return + line feed
 (the behaviour of `stty onlcr`).
 */
module TtyOutputMode {

  const LF: int := 10
  const CR: int := 13

  /** Number of line feeds in `s`. */
  function CountLF(s: seq<int>): nat
  {
    if s == [] then 0 else (if s[0] == LF then 1 else 0) + CountLF(s[1..])
  }

  /** The output translation: each LF becomes CR LF, every other codepoint is
      copied. */
  function Translate(s: seq<int>): (r: seq<int>)
    ensures |r| == |s| + CountLF(s)
    ensures LF !in s ==> r == s
  {
    if s == [] then []
    else if s[0] == LF then [CR, LF] + Translate(s[1..])
    else [s[0]] + Translate(s[1..])
  }

  /** Reads translated output back: a CR directly followed by an LF stands for
      one LF, everything else is copied. */
  function Untranslate(r: seq<int>): seq<int>
    decreases |r|
  {
    if r == [] then []
    else if |r| >= 2 && r[0] == CR && r[1] == LF then [LF] + Untranslate(r[2..])
    else [r[0]] + Untranslate(r[1..])
  }

  /** Translation never starts with a bare LF: a leading LF of the input is
      preceded by its CR. */
  lemma {:induction false} TranslateHead(s: seq<int>)
    requires s != []
    ensures Translate(s)[0] != LF
  {
  }

  /** Every LF of the output is directly preceded by a CR. */
  lemma {:induction false} EveryLFHasCR(s: seq<int>, i: int)
    requires 0 <= i < |Translate(s)| && Translate(s)[i] == LF
    ensures i > 0 && Translate(s)[i - 1] == CR
    decreases |s|
  {
    if s[0] == LF {
      if i >= 2 {
        EveryLFHasCR(s[1..], i - 2);
      }
    } else {
      if i >= 1 {
        TranslateHead(s[1..]);
        EveryLFHasCR(s[1..], i - 1);
      }
    }
  }

  /** Translation is applied codepoint by codepoint: it distributes over
      concatenation, so a write split into chunks gives the same output. */
  lemma {:induction false} TranslateAppend(a: seq<int>, b: seq<int>)
    ensures Translate(a + b) == Translate(a) + Translate(b)
    decreases |a|
  {
    if a == [] {
      assert a + b == b;
    } else {
      assert (a + b)[1..] == a[1..] + b;
      TranslateAppend(a[1..], b);
    }
  }

  /** Nothing is lost or reordered: dropping the CR inserted before each LF
      gives back exactly the input. */
  lemma {:induction false} UntranslateTranslate(s: seq<int>)
    ensures Untranslate(Translate(s)) == s
    decreases |s|
  {
    if s != [] {
      UntranslateTranslate(s[1..]);
      if s[0] == LF {
        assert ([CR, LF] + Translate(s[1..]))[2..] == Translate(s[1..]);
      } else if s[1..] != [] {
        TranslateHead(s[1..]);
        assert ([s[0]] + Translate(s[1..]))[1..] == Translate(s[1..]);
      } else {
        assert ([s[0]] + Translate(s[1..]))[1..] == Translate(s[1..]);
      }
    }
  }

  /** The test cases: text without LF, a lone LF, LF at the end and at the
      start, and several LFs. */
  lemma Examples()
    ensures Translate([97]) == [97]
    ensures Translate([LF]) == [CR, LF]
    ensures Translate([97, LF]) == [97, CR, LF]
    ensures Translate([LF, 97]) == [CR, LF, 97]
    ensures Translate([97, LF, 98, LF, 99]) == [97, CR, LF, 98, CR, LF, 99]
  {
    assert [97, LF, 98, LF, 99] == [97, LF, 98] + [LF, 99];
    TranslateAppend([97, LF, 98], [LF, 99]);
  }
}
