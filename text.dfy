/**
 * The handful of Python string operations the core relies on: the Unicode
 * whitespace test behind `str.isspace`, `\s`, `str.strip` and `str.split()`,
 * whitespace splitting, and splitting / joining on one separator character.
 */
module Text {

  /** Python's `str.isspace` for one character (also the class `\s` of `re` on `str`). */
  predicate IsSpace(c: char)
  {
    var n := c as int;
    || (0x09 <= n <= 0x0D) || (0x1C <= n <= 0x20) || n == 0x85 || n == 0xA0
    || n == 0x1680 || (0x2000 <= n <= 0x200A) || n == 0x2028 || n == 0x2029
    || n == 0x202F || n == 0x205F || n == 0x3000
  }

  predicate NoSpace(s: string)
  {
    forall i :: 0 <= i < |s| ==> !IsSpace(s[i])
  }

  /** A word as `str.split()` yields it: non-empty, without whitespace. */
  predicate IsWord(w: string)
  {
    |w| > 0 && NoSpace(w)
  }

  /** `str.lstrip()` */
  function StripLeft(s: string): (r: string)
    ensures |r| <= |s|
    ensures r == [] || !IsSpace(r[0])
  {
    if s != [] && IsSpace(s[0]) then StripLeft(s[1..]) else s
  }

  /** `str.rstrip()` */
  function StripRight(s: string): (r: string)
    ensures |r| <= |s|
    ensures r == [] || !IsSpace(r[|r| - 1])
  {
    if s != [] && IsSpace(s[|s| - 1]) then StripRight(s[..|s| - 1]) else s
  }

  /** `str.strip()` */
  function Strip(s: string): string
  {
    StripRight(StripLeft(s))
  }

  lemma StripOfNoSpace(s: string)
    requires NoSpace(s)
    ensures Strip(s) == s
  {
  }

  /** Length of the longest prefix of `s` without whitespace. */
  function WordLen(s: string): (k: nat)
    ensures k <= |s| && NoSpace(s[..k])
    ensures k == |s| || IsSpace(s[k])
  {
    if s == [] || IsSpace(s[0]) then 0 else 1 + WordLen(s[1..])
  }

  /** `str.split()` with no separator: the maximal runs of non-whitespace. */
  function SplitWords(s: string): (ws: seq<string>)
    ensures forall i :: 0 <= i < |ws| ==> IsWord(ws[i])
    decreases |s|
  {
    var t := StripLeft(s);
    if t == [] then []
    else
      var k := WordLen(t);
      [t[..k]] + SplitWords(t[k..])
  }

  /** The words of a list of words joined by single spaces: `" ".join(ws)`. */
  function JoinWords(ws: seq<string>): string
  {
    if ws == [] then ""
    else if |ws| == 1 then ws[0]
    else ws[0] + " " + JoinWords(ws[1..])
  }

  lemma {:induction false} WordLenOfWord(w: string, rest: string)
    requires NoSpace(w)
    requires rest == [] || IsSpace(rest[0])
    ensures WordLen(w + rest) == |w|
  {
    if w != [] {
      assert (w + rest)[1..] == w[1..] + rest;
      WordLenOfWord(w[1..], rest);
    }
  }

  lemma {:induction false} JoinWordsStartsWithWord(ws: seq<string>)
    requires ws != [] && forall i :: 0 <= i < |ws| ==> IsWord(ws[i])
    ensures JoinWords(ws) != [] && !IsSpace(JoinWords(ws)[0])
  {
    if |ws| > 1 {
      assert JoinWords(ws)[0] == ws[0][0];
    }
  }

  /** Splitting words that were joined by spaces gives the words back. */
  lemma {:induction false} SplitJoinWords(ws: seq<string>)
    requires forall i :: 0 <= i < |ws| ==> IsWord(ws[i])
    ensures SplitWords(JoinWords(ws)) == ws
  {
    if ws == [] {
    } else if |ws| == 1 {
      var w := ws[0];
      assert StripLeft(w) == w;
      WordLenOfWord(w, []);
      assert w + [] == w;
      assert w[|w|..] == [];
    } else {
      var w, j := ws[0], JoinWords(ws[1..]);
      var s := w + " " + j;
      assert s == w + (" " + j);
      assert StripLeft(s) == s;
      WordLenOfWord(w, " " + j);
      assert s[..|w|] == w;
      assert s[|w|..] == " " + j;
      JoinWordsStartsWithWord(ws[1..]);
      assert StripLeft(" " + j) == StripLeft(j) by { assert (" " + j)[1..] == j; }
      assert StripLeft(j) == j;
      SplitJoinWords(ws[1..]);
      assert SplitWords(s[|w|..]) == SplitWords(j) by {
        assert StripLeft(s[|w|..]) == StripLeft(j);
      }
    }
  }

  /** `s.split(sep)`: never empty; "" splits into [""]. */
  function SplitOn(s: string, sep: char): (r: seq<string>)
    ensures |r| >= 1
    ensures forall i :: 0 <= i < |r| ==> sep !in r[i]
  {
    if s == [] then [[]]
    else if s[0] == sep then [[]] + SplitOn(s[1..], sep)
    else
      var rest := SplitOn(s[1..], sep);
      [[s[0]] + rest[0]] + rest[1..]
  }

  /** `sep.join(parts)` */
  function JoinOn(parts: seq<string>, sep: char): string
  {
    if parts == [] then ""
    else if |parts| == 1 then parts[0]
    else parts[0] + [sep] + JoinOn(parts[1..], sep)
  }

  /** Joining the pieces of a split restores the string. */
  lemma {:induction false} JoinSplit(s: string, sep: char)
    ensures JoinOn(SplitOn(s, sep), sep) == s
  {
    if s == [] {
    } else if s[0] == sep {
      JoinSplit(s[1..], sep);
      assert SplitOn(s, sep)[1..] == SplitOn(s[1..], sep);
    } else {
      var rest := SplitOn(s[1..], sep);
      JoinSplit(s[1..], sep);
      if |rest| == 1 {
      } else {
        assert ([[s[0]] + rest[0]] + rest[1..])[1..] == rest[1..];
      }
    }
  }

  lemma {:induction false} SplitOnPiece(p: string, sep: char)
    requires sep !in p
    ensures SplitOn(p, sep) == [p]
  {
    if p != [] {
      SplitOnPiece(p[1..], sep);
      assert [p[0]] + p[1..] == p;
    }
  }

  lemma {:induction false} SplitOnFirst(p: string, sep: char, rest: string)
    requires sep !in p
    ensures SplitOn(p + [sep] + rest, sep) == [p] + SplitOn(rest, sep)
  {
    var s := p + [sep] + rest;
    if p == [] {
      assert s[1..] == rest;
    } else {
      assert s[1..] == p[1..] + [sep] + rest;
      SplitOnFirst(p[1..], sep, rest);
      assert [p[0]] + p[1..] == p;
    }
  }

  /** Splitting pieces joined by a separator they do not contain gives the pieces back. */
  lemma {:induction false} SplitJoin(parts: seq<string>, sep: char)
    requires |parts| >= 1
    requires forall i :: 0 <= i < |parts| ==> sep !in parts[i]
    ensures SplitOn(JoinOn(parts, sep), sep) == parts
  {
    if |parts| == 1 {
      SplitOnPiece(parts[0], sep);
    } else {
      SplitJoin(parts[1..], sep);
      SplitOnFirst(parts[0], sep, JoinOn(parts[1..], sep));
    }
  }

  lemma {:induction false} JoinWordsEndsWithWord(ws: seq<string>)
    requires ws != [] && forall i :: 0 <= i < |ws| ==> IsWord(ws[i])
    ensures JoinWords(ws) != [] && !IsSpace(JoinWords(ws)[|JoinWords(ws)| - 1])
  {
    if |ws| > 1 {
      JoinWordsEndsWithWord(ws[1..]);
      var j := JoinWords(ws[1..]);
      assert JoinWords(ws) == (ws[0] + " ") + j;
    }
  }

  lemma {:induction false} JoinWordsSnoc(ws: seq<string>, w: string)
    requires ws != []
    ensures JoinWords(ws + [w]) == JoinWords(ws) + " " + w
  {
    if |ws| == 1 {
      assert (ws + [w])[1..] == [w];
    } else {
      assert (ws + [w])[1..] == ws[1..] + [w];
      JoinWordsSnoc(ws[1..], w);
    }
  }

  /** Words joined by spaces have nothing for `str.strip()` to remove. */
  lemma StripJoined(ws: seq<string>)
    requires ws != [] && forall i :: 0 <= i < |ws| ==> IsWord(ws[i])
    ensures Strip(JoinWords(ws)) == JoinWords(ws)
  {
    JoinWordsStartsWithWord(ws);
    JoinWordsEndsWithWord(ws);
  }

  lemma StripSpaceWord(w: string)
    requires IsWord(w)
    ensures Strip(" " + w) == w
  {
    assert (" " + w)[1..] == w;
    assert StripLeft(" " + w) == StripLeft(w);
    assert StripLeft(w) == w;
    assert JoinWords([w]) == w;
    StripJoined([w]);
  }

  lemma AddWordToLine(ws: seq<string>, w: string)
    requires ws != [] && forall i :: 0 <= i < |ws| ==> IsWord(ws[i])
    requires IsWord(w)
    ensures Strip(JoinWords(ws) + " " + w) == JoinWords(ws + [w])
  {
    var vs := ws + [w];
    assert forall i :: 0 <= i < |vs| ==> IsWord(vs[i]) by {
      forall i | 0 <= i < |vs| ensures IsWord(vs[i]) {
        if i < |ws| { assert vs[i] == ws[i]; } else { assert vs[i] == w; }
      }
    }
    JoinWordsSnoc(ws, w);
    StripJoined(vs);
  }

  /** `f'{line} {word}'.strip()` on a line of single-spaced words puts the word at the end of the line. */
  lemma AddWord(ws: seq<string>, w: string)
    requires forall i :: 0 <= i < |ws| ==> IsWord(ws[i])
    requires IsWord(w)
    ensures Strip(JoinWords(ws) + " " + w) == JoinWords(ws + [w])
  {
    if ws == [] {
      var line := JoinWords(ws) + " " + w;
      assert line == " " + w by { assert JoinWords(ws) == ""; }
      assert ws + [w] == [w];
      StripSpaceWord(w);
    } else {
      AddWordToLine(ws, w);
    }
  }
}
