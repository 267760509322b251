/**
 * `get_wrapped_text` of the receipt header: the words of `text.split()`
 * laid greedily onto lines, a word going onto the current line while the
 * font says the line stays within `line_length`, and otherwise starting a
 * new line. The font's `getlength` is an arbitrary `width` function.
 */
module Wrapping {
  import opened Text
  import opened SeqFacts

  /** One word of the loop: `line = f'{lines[-1]} {word}'.strip()`, kept if it fits, else a new line. */
  function WrapStep(lines: seq<string>, w: string, width: string -> nat, lineLength: int): (r: seq<string>)
    requires |lines| >= 1
    ensures |r| >= 1
  {
    var line := Strip(lines[|lines| - 1] + " " + w);
    if width(line) <= lineLength then lines[..|lines| - 1] + [line] else lines + [w]
  }

  /** The lines after the loop has seen `words`, starting from `['']`. */
  function Wrap(words: seq<string>, width: string -> nat, lineLength: int): (r: seq<string>)
    ensures |r| >= 1
  {
    if words == [] then [""]
    else WrapStep(Wrap(words[..|words| - 1], width, lineLength), words[|words| - 1], width, lineLength)
  }

  /** The words of the lines, line after line. */
  function WordsOf(lines: seq<string>): seq<string>
  {
    if lines == [] then [] else WordsOf(lines[..|lines| - 1]) + SplitWords(lines[|lines| - 1])
  }

  /** `get_wrapped_text(text, font, line_length)` */
  method GetWrappedText(text: string, width: string -> nat, lineLength: int) returns (r: string)
    ensures r == JoinOn(Wrap(SplitWords(text), width, lineLength), '\n')
  {
    var words := SplitWords(text);
    var lines := [""];
    var i := 0;
    while i < |words|
      invariant 0 <= i <= |words|
      invariant lines == Wrap(words[..i], width, lineLength)
    {
      var word := words[i];
      assert words[..i + 1][..i] == words[..i];
      assert Wrap(words[..i + 1], width, lineLength) == WrapStep(lines, word, width, lineLength);
      var line := Strip(lines[|lines| - 1] + " " + word);
      if width(line) <= lineLength {
        lines := lines[..|lines| - 1] + [line];
      } else {
        lines := lines + [word];
      }
      i := i + 1;
    }
    assert words[..i] == words;
    r := JoinOn(lines, '\n');
  }

  /**
   * What the lines of a wrap are: each is its words joined by single
   * spaces, and together they hold `words` in order; every line after the
   * first has a word; a line that the loop built by adding a word (the
   * first line once it has one, any line of two or more words) fits
   * within `lineLength`; and each later line starts with a word that did
   * not fit at the end of the line before it.
   */
  ghost predicate WrapOk(words: seq<string>, lines: seq<string>, width: string -> nat, lineLength: int)
  {
    && |lines| >= 1
    && WordsOf(lines) == words
    && (lines[0] != "" ==> width(lines[0]) <= lineLength)
    && (forall i :: 0 <= i < |lines| ==> LineOk(lines[i], width, lineLength))
    && (forall i :: 0 < i < |lines| ==> Broke(lines, i, width, lineLength))
  }

  /** A line is its words joined by single spaces, and fits if it has two or more. */
  ghost predicate LineOk(line: string, width: string -> nat, lineLength: int)
  {
    && line == JoinWords(SplitWords(line))
    && (|SplitWords(line)| >= 2 ==> width(line) <= lineLength)
  }

  /** Line `i` has a word, and its first word did not fit at the end of line `i - 1`. */
  ghost predicate Broke(lines: seq<string>, i: nat, width: string -> nat, lineLength: int)
    requires 0 < i < |lines|
  {
    SplitWords(lines[i]) != [] && width(Strip(lines[i - 1] + " " + SplitWords(lines[i])[0])) > lineLength
  }

  lemma WordsOfSnoc(lines: seq<string>, line: string)
    ensures WordsOf(lines + [line]) == WordsOf(lines) + SplitWords(line)
  {
    assert (lines + [line])[..|lines|] == lines;
  }

  lemma WordsOfWord(w: string)
    requires IsWord(w)
    ensures SplitWords(w) == [w] && w == JoinWords(SplitWords(w))
  {
    SplitJoinWords([w]);
  }

  /** `Strip(last + " " + w)` for the last line `last` of a wrap holds the line's words and then `w`. */
  lemma Extended(last: string, w: string)
    requires last == JoinWords(SplitWords(last)) && IsWord(w)
    ensures SplitWords(Strip(last + " " + w)) == SplitWords(last) + [w]
    ensures Strip(last + " " + w) == JoinWords(SplitWords(Strip(last + " " + w)))
  {
    var ws := SplitWords(last);
    AddWord(ws, w);
    var vs := ws + [w];
    assert forall i :: 0 <= i < |vs| ==> IsWord(vs[i]) by {
      forall i | 0 <= i < |vs| ensures IsWord(vs[i]) {
        if i < |ws| { assert vs[i] == ws[i]; } else { assert vs[i] == w; }
      }
    }
    SplitJoinWords(vs);
  }

  lemma BrokeAt(lines: seq<string>, i: nat, width: string -> nat, lineLength: int, prev: string, line: string)
    requires 0 < i < |lines| && lines[i - 1] == prev && lines[i] == line
    requires SplitWords(line) != [] && width(Strip(prev + " " + SplitWords(line)[0])) > lineLength
    ensures Broke(lines, i, width, lineLength)
  {
  }

  /** A word that fits is added to the last line, and the wrap stays `WrapOk`. */
  lemma WrapOkFits(words: seq<string>, lines: seq<string>, w: string, width: string -> nat, lineLength: int)
    requires WrapOk(words, lines, width, lineLength) && IsWord(w)
    requires width(Strip(lines[|lines| - 1] + " " + w)) <= lineLength
    ensures WrapOk(words + [w], lines[..|lines| - 1] + [Strip(lines[|lines| - 1] + " " + w)], width, lineLength)
  {
    var n := |lines| - 1;
    var line := Strip(lines[n] + " " + w);
    var next := lines[..n] + [line];
    assert LineOk(lines[n], width, lineLength);
    FitsKeepsWords(lines, w);
    FitsKeepsLines(lines, w, width, lineLength);
    FitsKeepsBreaks(lines, w, width, lineLength);
    assert next[0] == if n == 0 then line else lines[0];
  }

  /** Adding a word at the end of the last line adds it at the end of the words. */
  lemma FitsKeepsWords(lines: seq<string>, w: string)
    requires |lines| >= 1 && lines[|lines| - 1] == JoinWords(SplitWords(lines[|lines| - 1])) && IsWord(w)
    ensures WordsOf(lines[..|lines| - 1] + [Strip(lines[|lines| - 1] + " " + w)]) == WordsOf(lines) + [w]
  {
    var n := |lines| - 1;
    var last := lines[n];
    var line := Strip(last + " " + w);
    var pre, ws := WordsOf(lines[..n]), SplitWords(last);
    Extended(last, w);
    LastSplit(lines);
    WordsOfSnoc(lines[..n], last);
    assert WordsOf(lines) == pre + ws;
    WordsOfSnoc(lines[..n], line);
    assert WordsOf(lines[..n] + [line]) == pre + (ws + [w]);
    AppendAssoc(pre, ws, [w]);
  }

  /** Adding a word that fits at the end of the last line keeps every line `LineOk`. */
  lemma FitsKeepsLines(lines: seq<string>, w: string, width: string -> nat, lineLength: int)
    requires |lines| >= 1 && (forall i :: 0 <= i < |lines| ==> LineOk(lines[i], width, lineLength))
    requires IsWord(w) && width(Strip(lines[|lines| - 1] + " " + w)) <= lineLength
    ensures var next := lines[..|lines| - 1] + [Strip(lines[|lines| - 1] + " " + w)];
      forall i :: 0 <= i < |next| ==> LineOk(next[i], width, lineLength)
  {
    var n := |lines| - 1;
    var next := lines[..n] + [Strip(lines[n] + " " + w)];
    assert LineOk(lines[n], width, lineLength);
    Extended(lines[n], w);
    forall i | 0 <= i < |next|
      ensures LineOk(next[i], width, lineLength)
    {
      if i < n { assert next[i] == lines[i]; }
    }
  }

  /** Adding a word at the end of the last line keeps every line break where it was. */
  lemma FitsKeepsBreaks(lines: seq<string>, w: string, width: string -> nat, lineLength: int)
    requires |lines| >= 1 && (forall i :: 0 < i < |lines| ==> Broke(lines, i, width, lineLength))
    requires lines[|lines| - 1] == JoinWords(SplitWords(lines[|lines| - 1])) && IsWord(w)
    ensures var next := lines[..|lines| - 1] + [Strip(lines[|lines| - 1] + " " + w)];
      forall i :: 0 < i < |next| ==> Broke(next, i, width, lineLength)
  {
    var n := |lines| - 1;
    var last := lines[n];
    var line := Strip(last + " " + w);
    var next := lines[..n] + [line];
    Extended(last, w);
    forall i | 0 < i < |next|
      ensures Broke(next, i, width, lineLength)
    {
      assert Broke(lines, i, width, lineLength);
      if i < n {
        BrokeAt(next, i, width, lineLength, lines[i - 1], lines[i]);
      } else {
        assert SplitWords(line)[0] == SplitWords(last)[0];
        BrokeAt(next, i, width, lineLength, lines[i - 1], line);
      }
    }
  }

  /** A word that does not fit starts a new line, and the wrap stays `WrapOk`. */
  lemma WrapOkBreaks(words: seq<string>, lines: seq<string>, w: string, width: string -> nat, lineLength: int)
    requires WrapOk(words, lines, width, lineLength) && IsWord(w)
    requires width(Strip(lines[|lines| - 1] + " " + w)) > lineLength
    ensures WrapOk(words + [w], lines + [w], width, lineLength)
  {
    var next := lines + [w];
    WordsOfWord(w);
    WordsOfSnoc(lines, w);
    forall i | 0 <= i < |next|
      ensures LineOk(next[i], width, lineLength)
    {
      if i < |lines| { assert next[i] == lines[i]; }
    }
    forall i | 0 < i < |next|
      ensures Broke(next, i, width, lineLength)
    {
      if i < |lines| {
        assert Broke(lines, i, width, lineLength);
        BrokeAt(next, i, width, lineLength, lines[i - 1], lines[i]);
      } else {
        BrokeAt(next, i, width, lineLength, lines[|lines| - 1], w);
      }
    }
  }

  lemma WrapOkStart(width: string -> nat, lineLength: int)
    ensures WrapOk([], Wrap([], width, lineLength), width, lineLength)
  {
    assert WordsOf([""]) == WordsOf([]) + SplitWords("");
  }

  /** One more word keeps the wrap `WrapOk`. */
  lemma WrapOkStep(words: seq<string>, width: string -> nat, lineLength: int)
    requires words != [] && IsWord(words[|words| - 1])
    requires WrapOk(words[..|words| - 1], Wrap(words[..|words| - 1], width, lineLength), width, lineLength)
    ensures WrapOk(words, Wrap(words, width, lineLength), width, lineLength)
  {
    var ws, w := words[..|words| - 1], words[|words| - 1];
    var lines := Wrap(ws, width, lineLength);
    assert ws + [w] == words;
    var line := Strip(lines[|lines| - 1] + " " + w);
    assert Wrap(words, width, lineLength) == WrapStep(lines, w, width, lineLength);
    if width(line) <= lineLength {
      WrapOkFits(ws, lines, w, width, lineLength);
      assert Wrap(words, width, lineLength) == lines[..|lines| - 1] + [line];
    } else {
      WrapOkBreaks(ws, lines, w, width, lineLength);
      assert Wrap(words, width, lineLength) == lines + [w];
    }
  }

  /**
   * The wrap of the words of any text is `WrapOk`: it keeps the words of
   * `text.split()` in order, and only a line of a single word, one that
   * the loop put there because it did not fit after the line before, may
   * be wider than `lineLength`.
   */
  lemma {:induction false} WrapIsOk(words: seq<string>, width: string -> nat, lineLength: int)
    requires forall i :: 0 <= i < |words| ==> IsWord(words[i])
    ensures WrapOk(words, Wrap(words, width, lineLength), width, lineLength)
  {
    if words == [] {
      WrapOkStart(width, lineLength);
    } else {
      var n := |words| - 1;
      var ws := words[..n];
      assert forall i :: 0 <= i < |ws| ==> IsWord(ws[i]) by {
        forall i | 0 <= i < |ws| ensures IsWord(ws[i]) { assert ws[i] == words[i]; }
      }
      WrapIsOk(ws, width, lineLength);
      WrapOkStep(words, width, lineLength);
    }
  }

  lemma {:induction false} NoNewlineInJoinWords(ws: seq<string>)
    requires forall i :: 0 <= i < |ws| ==> IsWord(ws[i])
    ensures '\n' !in JoinWords(ws)
  {
    assert IsSpace('\n');
    if |ws| > 1 {
      NoNewlineInJoinWords(ws[1..]);
    }
  }

  /**
   * The wrapped text splits back into its lines at the newlines, so the
   * properties of `WrapOk` are properties of `get_wrapped_text`'s output.
   */
  lemma WrappedLines(text: string, width: string -> nat, lineLength: int)
    ensures var lines := SplitOn(JoinOn(Wrap(SplitWords(text), width, lineLength), '\n'), '\n');
      && lines == Wrap(SplitWords(text), width, lineLength)
      && WrapOk(SplitWords(text), lines, width, lineLength)
  {
    var lines := Wrap(SplitWords(text), width, lineLength);
    WrapIsOk(SplitWords(text), width, lineLength);
    forall i | 0 <= i < |lines| ensures '\n' !in lines[i] {
      NoNewlineInJoinWords(SplitWords(lines[i]));
    }
    SplitJoin(lines, '\n');
  }
}
