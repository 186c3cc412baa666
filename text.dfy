/**
  The string primitives the extraction relies on: splitting page text into
  lines (`text.split('\n')`), splitting a line into whitespace-free tokens
  (`line.split()`), the digit test (`char.isdigit()`) and joining tokens with
  single spaces (`" ".join(...)`).
*/
module Text {

  /** The characters Python's `str.split()` with no argument splits on
      (those for which `str.isspace()` holds). */
  predicate IsSpace(c: char) {
    || ('\U{9}' <= c <= '\U{D}')
    || ('\U{1C}' <= c <= '\U{20}')
    || c == '\U{85}' || c == '\U{A0}' || c == '\U{1680}'
    || ('\U{2000}' <= c <= '\U{200A}')
    || c == '\U{2028}' || c == '\U{2029}' || c == '\U{202F}'
    || c == '\U{205F}' || c == '\U{3000}'
  }

  /** A decimal digit (the ASCII digits only). */
  predicate IsDigit(c: char) {
    '0' <= c <= '9'
  }

  /** `any(char.isdigit() for char in line)` */
  predicate HasDigit(line: string) {
    exists k :: 0 <= k < |line| && IsDigit(line[k])
  }

  /** A token as `str.split()` produces it: non-empty and free of whitespace. */
  predicate IsToken(t: string) {
    |t| > 0 && forall k :: 0 <= k < |t| ==> !IsSpace(t[k])
  }

  // ---------------------------------------------------------------------
  // Lines: text.split('\n')
  // ---------------------------------------------------------------------

  /** `text.split('\n')`: the pieces between newlines, empty pieces included;
      there is always at least one piece. */
  function Lines(text: string): (lines: seq<string>)
    ensures |lines| >= 1
    ensures forall k :: 0 <= k < |lines| ==> '\n' !in lines[k]
    decreases |text|
  {
    if text == [] then [[]]
    else
      var rest := Lines(text[1..]);
      if text[0] == '\n' then [[]] + rest
      else [[text[0]] + rest[0]] + rest[1..]
  }

  /** `'\n'.join(lines)`, the inverse of Lines. */
  function JoinLines(lines: seq<string>): string {
    if |lines| == 0 then []
    else if |lines| == 1 then lines[0]
    else lines[0] + "\n" + JoinLines(lines[1..])
  }

  /** Joining the lines back with newlines gives the original text. */
  lemma {:induction false} JoinLinesOfLines(text: string)
    ensures JoinLines(Lines(text)) == text
    decreases |text|
  {
    if text != [] {
      var rest := Lines(text[1..]);
      JoinLinesOfLines(text[1..]);
      if text[0] == '\n' {
        assert Lines(text) == [[]] + rest;
      } else {
        var ls := Lines(text);
        assert ls == [[text[0]] + rest[0]] + rest[1..];
        if |rest| == 1 {
          assert JoinLines(ls) == [text[0]] + rest[0];
        } else {
          assert rest == [rest[0]] + rest[1..];
          assert JoinLines(rest) == rest[0] + "\n" + JoinLines(rest[1..]);
          assert ls[1..] == rest[1..];
          assert JoinLines(ls) == [text[0]] + rest[0] + "\n" + JoinLines(rest[1..]);
        }
      }
    }
  }

  /** A newline-free text is a single line. */
  lemma {:induction false} LinesOfLine(line: string)
    requires '\n' !in line
    ensures Lines(line) == [line]
    decreases |line|
  {
    if line != [] {
      assert '\n' !in line[1..] by {
        forall k | 0 <= k < |line[1..]| ensures line[1..][k] != '\n' {
          assert line[1..][k] == line[k + 1];
        }
      }
      LinesOfLine(line[1..]);
      assert [line[0]] + line[1..] == line;
    }
  }

  /** Splitting `line + "\n" + rest` yields `line` followed by the lines of `rest`. */
  lemma {:induction false} LinesOfNewline(line: string, rest: string)
    requires '\n' !in line
    ensures Lines(line + "\n" + rest) == [line] + Lines(rest)
    decreases |line|
  {
    var s := line + "\n" + rest;
    if line == [] {
      assert s == "\n" + rest;
      assert s[1..] == rest;
    } else {
      assert s[1..] == line[1..] + "\n" + rest;
      assert '\n' !in line[1..] by {
        forall k | 0 <= k < |line[1..]| ensures line[1..][k] != '\n' {
          assert line[1..][k] == line[k + 1];
        }
      }
      LinesOfNewline(line[1..], rest);
      assert [line[0]] + line[1..] == line;
    }
  }

  /** Splitting newline-joined, newline-free lines gives the lines back. */
  lemma {:induction false} LinesOfJoinLines(lines: seq<string>)
    requires |lines| >= 1
    requires forall k :: 0 <= k < |lines| ==> '\n' !in lines[k]
    ensures Lines(JoinLines(lines)) == lines
  {
    if |lines| == 1 {
      LinesOfLine(lines[0]);
    } else {
      LinesOfJoinLines(lines[1..]);
      LinesOfNewline(lines[0], JoinLines(lines[1..]));
      assert [lines[0]] + lines[1..] == lines;
    }
  }

  // ---------------------------------------------------------------------
  // Tokens: line.split()
  // ---------------------------------------------------------------------

  /** The length of the leading run of non-whitespace characters. */
  function WordLength(s: string): (n: nat)
    ensures n <= |s|
    ensures forall k :: 0 <= k < n ==> !IsSpace(s[k])
    ensures n < |s| ==> IsSpace(s[n])
  {
    if s == [] || IsSpace(s[0]) then 0 else 1 + WordLength(s[1..])
  }

  /** `s.split()`: the maximal runs of non-whitespace characters, in order. */
  function Tokens(s: string): (tokens: seq<string>)
    ensures forall k :: 0 <= k < |tokens| ==> IsToken(tokens[k])
    decreases |s|
  {
    if s == [] then []
    else if IsSpace(s[0]) then Tokens(s[1..])
    else
      var n := WordLength(s);
      [s[..n]] + Tokens(s[n..])
  }

  /** `" ".join(tokens)` */
  function JoinWords(tokens: seq<string>): string {
    if |tokens| == 0 then []
    else if |tokens| == 1 then tokens[0]
    else tokens[0] + " " + JoinWords(tokens[1..])
  }

  /** The characters of `s` that are not whitespace, in order. */
  function NonSpace(s: string): string {
    if s == [] then []
    else (if IsSpace(s[0]) then [] else [s[0]]) + NonSpace(s[1..])
  }

  /** The concatenation of several strings. */
  function Concat(ss: seq<string>): string {
    if ss == [] then [] else ss[0] + Concat(ss[1..])
  }

  lemma {:induction false} NonSpaceAppend(a: string, b: string)
    ensures NonSpace(a + b) == NonSpace(a) + NonSpace(b)
  {
    if a != [] {
      assert (a + b)[1..] == a[1..] + b;
      NonSpaceAppend(a[1..], b);
    } else {
      assert a + b == b;
    }
  }

  lemma {:induction false} NonSpaceOfWord(s: string)
    requires forall k :: 0 <= k < |s| ==> !IsSpace(s[k])
    ensures NonSpace(s) == s
  {
    if s != [] {
      NonSpaceOfWord(s[1..]);
      assert [s[0]] + s[1..] == s;
    }
  }

  /** Tokenising loses exactly the whitespace: the tokens, concatenated, are
      the non-whitespace characters of the line. */
  lemma {:induction false} TokensKeepNonSpace(s: string)
    ensures Concat(Tokens(s)) == NonSpace(s)
    decreases |s|
  {
    if s != [] {
      if IsSpace(s[0]) {
        TokensKeepNonSpace(s[1..]);
      } else {
        var n := WordLength(s);
        TokensKeepNonSpace(s[n..]);
        assert s == s[..n] + s[n..];
        NonSpaceAppend(s[..n], s[n..]);
        NonSpaceOfWord(s[..n]);
        var ts := Tokens(s);
        assert ts == [s[..n]] + Tokens(s[n..]);
        assert ts[1..] == Tokens(s[n..]);
      }
    }
  }

  lemma {:induction false} WordLengthOfToken(t: string, rest: string)
    requires IsToken(t)
    requires rest == [] || IsSpace(rest[0])
    ensures WordLength(t + rest) == |t|
    decreases |t|
  {
    var s := t + rest;
    assert s[1..] == t[1..] + rest;
    if |t| > 1 {
      assert IsToken(t[1..]) by {
        forall k | 0 <= k < |t[1..]| ensures !IsSpace(t[1..][k]) {
          assert t[1..][k] == t[k + 1];
        }
      }
      WordLengthOfToken(t[1..], rest);
    } else {
      assert t[1..] == [];
    }
  }

  /** `str.split()` undoes `" ".join(...)` on tokens. */
  lemma {:induction false} TokensOfJoinWords(tokens: seq<string>)
    requires forall k :: 0 <= k < |tokens| ==> IsToken(tokens[k])
    ensures Tokens(JoinWords(tokens)) == tokens
  {
    if |tokens| == 1 {
      var t := tokens[0];
      WordLengthOfToken(t, []);
      assert t + [] == t;
      assert t[..|t|] == t && t[|t|..] == [];
    } else if |tokens| > 1 {
      var t := tokens[0];
      var rest := JoinWords(tokens[1..]);
      var s := t + (" " + rest);
      assert JoinWords(tokens) == s;
      WordLengthOfToken(t, " " + rest);
      assert s[..|t|] == t;
      assert s[|t|..] == " " + rest;
      assert (" " + rest)[1..] == rest;
      TokensOfJoinWords(tokens[1..]);
      assert [t] + tokens[1..] == tokens;
    }
  }

  lemma {:induction false} TokensSkipSpaces(w: string, t: string)
    requires forall k :: 0 <= k < |w| ==> IsSpace(w[k])
    ensures Tokens(w + t) == Tokens(t)
    decreases |w|
  {
    if w != [] {
      assert (w + t)[0] == w[0];
      assert (w + t)[1..] == w[1..] + t;
      assert forall k :: 0 <= k < |w[1..]| ==> IsSpace(w[1..][k]) by {
        forall k | 0 <= k < |w[1..]| ensures IsSpace(w[1..][k]) {
          assert w[1..][k] == w[k + 1];
        }
      }
      TokensSkipSpaces(w[1..], t);
    } else {
      assert w + t == t;
    }
  }

  /** A token followed by whitespace, or by nothing, is the first token. */
  lemma TokensOfWordThen(word: string, rest: string)
    requires IsToken(word)
    requires rest == [] || IsSpace(rest[0])
    ensures Tokens(word + rest) == [word] + Tokens(rest)
  {
    var u := word + rest;
    WordLengthOfToken(word, rest);
    assert u[0] == word[0];
    assert u[..|word|] == word && u[|word|..] == rest;
  }

  /** A whitespace character in front gives no token. */
  lemma TokensOfSpaceThen(c: char, rest: string)
    requires IsSpace(c)
    ensures Tokens([c] + rest) == Tokens(rest)
  {
    assert ([c] + rest)[1..] == rest;
  }

  /** The step of TokensSplitAtSpace for a line starting with a word. */
  lemma TokensSplitAfterWord(word: string, m: string, c: char, t: string)
    requires IsToken(word) && IsSpace(c)
    requires m == [] || IsSpace(m[0])
    requires Tokens(m + [c] + t) == Tokens(m) + Tokens(t)
    ensures Tokens(word + m + [c] + t) == Tokens(word + m) + Tokens(t)
  {
    var rest := m + [c] + t;
    if m == [] {
      assert rest[0] == c;
    } else {
      assert rest[0] == m[0];
    }
    TokensOfWordThen(word, m);
    TokensOfWordThen(word, rest);
    calc {
      Tokens(word + m + [c] + t);
      { assert word + m + [c] + t == word + rest; }
      Tokens(word + rest);
      [word] + (Tokens(m) + Tokens(t));
      ([word] + Tokens(m)) + Tokens(t);
      Tokens(word + m) + Tokens(t);
    }
  }

  /** A whitespace character separates the tokens before it from those
      after it, whatever surrounds it. */
  lemma {:induction false} TokensSplitAtSpace(s: string, c: char, t: string)
    requires IsSpace(c)
    ensures Tokens(s + [c] + t) == Tokens(s) + Tokens(t)
    decreases |s|
  {
    if s == [] {
      assert s + [c] + t == [c] + t;
      TokensOfSpaceThen(c, t);
    } else if IsSpace(s[0]) {
      assert s + [c] + t == [s[0]] + (s[1..] + [c] + t);
      assert s == [s[0]] + s[1..];
      TokensOfSpaceThen(s[0], s[1..] + [c] + t);
      TokensOfSpaceThen(s[0], s[1..]);
      TokensSplitAtSpace(s[1..], c, t);
    } else {
      var n := WordLength(s);
      var word := s[..n];
      assert IsToken(word) by {
        forall k | 0 <= k < |word| ensures !IsSpace(word[k]) {
          assert word[k] == s[k];
        }
      }
      assert s == word + s[n..];
      TokensSplitAtSpace(s[n..], c, t);
      TokensSplitAfterWord(word, s[n..], c, t);
    }
  }

  /** Any non-empty run of whitespace separates tokens, so `split()` does not
      depend on how widely the tokens are spaced; with s or t empty, runs at
      either end of a line give no token. */
  lemma TokensSplitAtRun(s: string, w: string, t: string)
    requires |w| > 0 && forall k :: 0 <= k < |w| ==> IsSpace(w[k])
    ensures Tokens(s + w + t) == Tokens(s) + Tokens(t)
  {
    assert s + w + t == s + [w[0]] + (w[1..] + t);
    TokensSplitAtSpace(s, w[0], w[1..] + t);
    assert forall k :: 0 <= k < |w[1..]| ==> IsSpace(w[1..][k]) by {
      forall k | 0 <= k < |w[1..]| ensures IsSpace(w[1..][k]) {
        assert w[1..][k] == w[k + 1];
      }
    }
    TokensSkipSpaces(w[1..], t);
  }

  // ---------------------------------------------------------------------
  // Counting spaces, to tell two-word names from three-word ones
  // ---------------------------------------------------------------------

  /** The number of space characters in `s`. */
  function SpaceCount(s: string): nat {
    if s == [] then 0 else (if s[0] == ' ' then 1 else 0) + SpaceCount(s[1..])
  }

  lemma {:induction false} SpaceCountAppend(a: string, b: string)
    ensures SpaceCount(a + b) == SpaceCount(a) + SpaceCount(b)
  {
    if a != [] {
      assert (a + b)[1..] == a[1..] + b;
      SpaceCountAppend(a[1..], b);
    } else {
      assert a + b == b;
    }
  }

  lemma {:induction false} SpaceCountOfToken(t: string)
    requires forall k :: 0 <= k < |t| ==> !IsSpace(t[k])
    ensures SpaceCount(t) == 0
  {
    if t != [] {
      assert !IsSpace(t[0]);
      SpaceCountOfToken(t[1..]);
    }
  }

  /** Two tokens joined by a space contain exactly one space: no name of
      three or more words can equal the join of two tokens. */
  lemma TwoWordJoinHasOneSpace(a: string, b: string)
    requires IsToken(a) && IsToken(b)
    ensures SpaceCount(JoinWords([a, b])) == 1
  {
    assert JoinWords([a, b]) == a + " " + b by {
      assert [a, b][1..] == [b];
    }
    SpaceCountAppend(a + " ", b);
    SpaceCountAppend(a, " ");
    SpaceCountOfToken(a);
    SpaceCountOfToken(b);
  }

  lemma DigitAt(s: string, k: nat)
    requires k < |s| && IsDigit(s[k])
    ensures HasDigit(s)
  {
  }

  /** A digit in one of the tokens is a digit of the joined line. */
  lemma {:induction false} HasDigitJoinWords(tokens: seq<string>, j: nat)
    requires j < |tokens| && HasDigit(tokens[j])
    ensures HasDigit(JoinWords(tokens))
  {
    if |tokens| > 1 {
      var rest := JoinWords(tokens[1..]);
      var line := tokens[0] + " " + rest;
      assert JoinWords(tokens) == line;
      if j == 0 {
        var k :| 0 <= k < |tokens[0]| && IsDigit(tokens[0][k]);
        assert line[k] == tokens[0][k];
        DigitAt(line, k);
      } else {
        HasDigitJoinWords(tokens[1..], j - 1);
        var k :| 0 <= k < |rest| && IsDigit(rest[k]);
        assert line[|tokens[0]| + 1 + k] == rest[k];
        DigitAt(line, |tokens[0]| + 1 + k);
      }
    }
  }
}
