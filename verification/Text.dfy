/** Whitespace, words and lines, as the two ends of a client's pipes see them. */
module Text {

  predicate IsSpace(c: char) {
    c == ' ' || c == '\t' || c == '\n' || c == '\r' || c == '\U{000B}' || c == '\U{000C}'
  }

  predicate Blank(s: string) {
    forall i :: 0 <= i < |s| ==> IsSpace(s[i])
  }

  predicate Token(w: string) {
    w != "" && forall i :: 0 <= i < |w| ==> !IsSpace(w[i])
  }

  /** The length of the leading run of non-space characters. */
  function WordLen(s: string): (n: nat)
    ensures n <= |s| && (forall i :: 0 <= i < n ==> !IsSpace(s[i])) && (n < |s| ==> IsSpace(s[n]))
  {
    if s == "" || IsSpace(s[0]) then 0
    else
      var n := WordLen(s[1..]);
      assert forall i :: 1 <= i <= n ==> s[i] == s[1..][i - 1];
      1 + n
  }

  /** The whitespace-delimited words of a text. */
  function Words(s: string): seq<string> {
    if s == "" then []
    else if IsSpace(s[0]) then Words(s[1..])
    else [s[..WordLen(s)]] + Words(s[WordLen(s)..])
  }

  /** Any non-empty run of these characters, and nothing else, ends a word. */
  lemma {:induction false} AnySpacesSeparate(w: string, sep: string, rest: string)
    requires w != "" && forall i :: 0 <= i < |w| ==> w[i] !in [' ', '\t', '\n', '\r', '\U{000B}', '\U{000C}']
    requires sep != "" && forall i :: 0 <= i < |sep| ==> sep[i] in [' ', '\t', '\n', '\r', '\U{000B}', '\U{000C}']
    ensures Words(w + sep + rest) == [w] + Words(rest) && Words(w) == [w]
  {
    assert w + sep + rest == w + (sep + rest);
    WordsToken(w, sep + rest);
    WordsBlankPrefix(sep, rest);
    assert w[..|w|] == w && w[|w|..] == "";
    WordLenWhole(w);
  }

  lemma {:induction false} WordLenWhole(w: string)
    requires forall i :: 0 <= i < |w| ==> !IsSpace(w[i])
    ensures WordLen(w) == |w|
  {
  }

  /** Blank texts, and no others, have no words. */
  lemma {:induction false} NoWordsIffBlank(s: string)
    ensures Words(s) == [] <==> Blank(s)
  {
    if s == "" {
    } else if IsSpace(s[0]) {
      NoWordsIffBlank(s[1..]);
      assert forall i :: 1 <= i < |s| ==> s[i] == s[1..][i - 1];
    }
  }

  function TrimLeft(s: string): string {
    if s != "" && IsSpace(s[0]) then TrimLeft(s[1..]) else s
  }

  function TrimRight(s: string): string {
    if s != "" && IsSpace(s[|s| - 1]) then TrimRight(s[..|s| - 1]) else s
  }

  function Trim(s: string): string {
    TrimRight(TrimLeft(s))
  }

  /** The length of the first line, its newline included. */
  function LineLen(s: string): (n: nat)
    ensures n <= |s| && (s != "" ==> n > 0)
  {
    if s == "" then 0 else if s[0] == '\n' then 1 else 1 + LineLen(s[1..])
  }

  /** The text up to and including the first line that is not blank, and what follows it. */
  function NextLine(s: string): (r: (string, string))
    requires !Blank(s)
    ensures |r.1| < |s|
  {
    var n := LineLen(s);
    if !Blank(s[..n]) then (s[..n], s[n..])
    else
      BlankConcat(s[..n], s[n..]);
      assert s[..n] + s[n..] == s;
      var (buffer, rest) := NextLine(s[n..]);
      (s[..n] + buffer, rest)
  }

  lemma BlankConcat(a: string, b: string)
    ensures Blank(a + b) <==> Blank(a) && Blank(b)
  {
    if Blank(a + b) {
      assert forall i :: 0 <= i < |a| ==> a[i] == (a + b)[i];
      assert forall i :: 0 <= i < |b| ==> b[i] == (a + b)[|a| + i];
    }
  }

  // ---- Printed lines ----

  /** Words printed on one line with single spaces. */
  function LineOf(words: seq<string>): string {
    if words == [] then "\n"
    else if |words| == 1 then words[0] + "\n"
    else words[0] + " " + LineOf(words[1..])
  }

  lemma Line2(a: string, b: string)
    ensures LineOf([a, b]) == a + " " + b + "\n"
  {
    assert [a, b][1..] == [b];
    assert a + " " + (b + "\n") == a + " " + b + "\n";
  }

  lemma Line3(a: string, b: string, c: string)
    ensures LineOf([a, b, c]) == a + " " + b + " " + c + "\n"
  {
    Line2(b, c);
    assert [a, b, c][1..] == [b, c];
    assert a + " " + (b + " " + c + "\n") == a + " " + b + " " + c + "\n";
  }

  lemma Line4(a: string, b: string, c: string, d: string)
    ensures LineOf([a, b, c, d]) == a + " " + b + " " + c + " " + d + "\n"
  {
    Line3(b, c, d);
    assert [a, b, c, d][1..] == [b, c, d];
    assert a + " " + (b + " " + c + " " + d + "\n") == a + " " + b + " " + c + " " + d + "\n";
  }

  ghost predicate Tokens(words: seq<string>) {
    forall i :: 0 <= i < |words| ==> Token(words[i])
  }

  lemma {:induction false} WordLenToken(w: string, s: string)
    requires (forall i :: 0 <= i < |w| ==> !IsSpace(w[i])) && s != "" && IsSpace(s[0])
    ensures WordLen(w + s) == |w|
  {
    if w == "" {
    } else {
      assert (w + s)[1..] == w[1..] + s;
      WordLenToken(w[1..], s);
    }
  }

  lemma {:induction false} WordsToken(w: string, s: string)
    requires Token(w) && s != "" && IsSpace(s[0])
    ensures Words(w + s) == [w] + Words(s)
  {
    WordLenToken(w, s);
    assert (w + s)[..|w|] == w && (w + s)[|w|..] == s;
  }

  lemma {:induction false} WordsBlankPrefix(pad: string, s: string)
    requires Blank(pad)
    ensures Words(pad + s) == Words(s)
  {
    if pad == "" {
      assert pad + s == s;
    } else {
      assert (pad + s)[1..] == pad[1..] + s;
      WordsBlankPrefix(pad[1..], s);
    }
  }

  /** Splitting a printed line gives back the words. */
  lemma {:induction false} WordsOfLine(words: seq<string>)
    requires Tokens(words)
    ensures Words(LineOf(words)) == words
  {
    if |words| == 1 {
      WordsToken(words[0], "\n");
      WordsBlankPrefix("\n", "");
      assert "\n" + "" == "\n" && words == [words[0]];
    } else if |words| > 1 {
      var rest := LineOf(words[1..]);
      assert LineOf(words) == words[0] + (" " + rest);
      WordsToken(words[0], " " + rest);
      WordsBlankPrefix(" ", rest);
      WordsOfLine(words[1..]);
      assert words == [words[0]] + words[1..];
    } else {
      WordsBlankPrefix("\n", "");
      assert "\n" + "" == "\n";
    }
  }

  /** A text whose only newline is its last character. */
  ghost predicate OneLine(s: string) {
    s != "" && s[|s| - 1] == '\n' && forall i :: 0 <= i < |s| - 1 ==> s[i] != '\n'
  }

  lemma {:induction false} LineOfIsOneLine(words: seq<string>)
    requires Tokens(words)
    ensures OneLine(LineOf(words))
    ensures words != [] ==> !Blank(LineOf(words))
  {
    if |words| <= 1 {
    } else {
      LineOfIsOneLine(words[1..]);
    }
    if words != [] {
      assert !IsSpace(words[0][0]) && LineOf(words)[0] == words[0][0];
    }
  }

  lemma {:induction false} LineLenOneLine(line: string, tail: string)
    requires OneLine(line)
    ensures LineLen(line + tail) == |line|
  {
    assert (line + tail)[0] == line[0];
    if |line| <= 1 {
    } else {
      assert (line + tail)[1..] == line[1..] + tail;
      LineLenOneLine(line[1..], tail);
    }
  }

  /** Blank lines: nothing, or whitespace up to a newline. */
  ghost predicate Padding(s: string) {
    Blank(s) && (s == "" || s[|s| - 1] == '\n')
  }

  lemma {:induction false} LineLenPrefix(a: string, b: string)
    requires a != "" && a[|a| - 1] == '\n'
    ensures LineLen(a + b) == LineLen(a)
  {
    if a[0] == '\n' {
    } else {
      assert (a + b)[1..] == a[1..] + b;
      LineLenPrefix(a[1..], b);
    }
  }

  lemma {:induction false} NextLineSkips(first: string, s: string)
    requires first != "" && Blank(first) && LineLen(first + s) == |first| && !Blank(s)
    ensures !Blank(first + s)
    ensures NextLine(first + s) == (first + NextLine(s).0, NextLine(s).1)
  {
    BlankConcat(first, s);
    assert (first + s)[..|first|] == first && (first + s)[|first|..] == s;
  }

  lemma {:induction false} NextLineHere(line: string, tail: string)
    requires OneLine(line) && !Blank(line)
    ensures !Blank(line + tail)
    ensures NextLine(line + tail) == (line, tail)
  {
    BlankConcat(line, tail);
    LineLenOneLine(line, tail);
    assert (line + tail)[..|line|] == line && (line + tail)[|line|..] == tail;
  }

  lemma PaddingSplits(pad: string, n: nat)
    requires Padding(pad) && n <= |pad|
    ensures Blank(pad[..n]) && Padding(pad[n..])
  {
  }

  /** Blank lines before a line only pad the buffer it is read into. */
  lemma {:induction false} NextLinePadded(pad: string, line: string, tail: string)
    requires Padding(pad) && OneLine(line) && !Blank(line)
    ensures !Blank(pad + line + tail)
    ensures NextLine(pad + line + tail) == (pad + line, tail)
    decreases |pad|
  {
    hide Blank;
    hide OneLine;
    hide NextLine;
    if pad == "" {
      assert pad + line + tail == line + tail && pad + line == line;
      NextLineHere(line, tail);
    } else {
      var n := LineLen(pad);
      var first, rest := pad[..n], pad[n..];
      PaddingSplits(pad, n);
      NextLinePadded(rest, line, tail);
      LineLenPrefix(pad, line + tail);
      assert pad + line + tail == pad + (line + tail) == first + (rest + line + tail);
      NextLineSkips(first, rest + line + tail);
      assert first + (rest + line) == pad + line;
    }
  }

  // ---- Trimming ----

  lemma {:induction false} TrimLeftBlank(pad: string, s: string)
    requires Blank(pad)
    ensures TrimLeft(pad + s) == TrimLeft(s)
  {
    if pad == "" {
      assert pad + s == s;
    } else {
      assert (pad + s)[1..] == pad[1..] + s;
      TrimLeftBlank(pad[1..], s);
    }
  }

  lemma {:induction false} WordsTrimLeft(s: string)
    ensures Words(TrimLeft(s)) == Words(s)
  {
    if s == "" || !IsSpace(s[0]) {
    } else {
      WordsTrimLeft(s[1..]);
    }
  }

  lemma {:induction false} WordLenDropSpace(s: string)
    requires s != "" && IsSpace(s[|s| - 1])
    ensures WordLen(s[..|s| - 1]) == WordLen(s)
  {
    if IsSpace(s[0]) {
    } else {
      assert s[..|s| - 1][1..] == s[1..][..|s| - 2];
      WordLenDropSpace(s[1..]);
    }
  }

  lemma {:induction false} WordsDropSpace(s: string)
    requires s != "" && IsSpace(s[|s| - 1])
    ensures Words(s[..|s| - 1]) == Words(s)
    decreases |s|
  {
    var t := s[..|s| - 1];
    hide WordLen;
    if IsSpace(s[0]) {
      if |s| > 1 {
        assert t[1..] == s[1..][..|s| - 2];
        WordsDropSpace(s[1..]);
      } else {
        assert s[1..] == "";
      }
    } else {
      WordLenDropSpace(s);
      var n := WordLen(s);
      assert t[..n] == s[..n] && t[n..] == s[n..][..|s| - n - 1];
      WordsDropSpace(s[n..]);
    }
  }

  lemma {:induction false} WordsTrimRight(s: string)
    ensures Words(TrimRight(s)) == Words(s)
  {
    if s == "" || !IsSpace(s[|s| - 1]) {
    } else {
      WordsDropSpace(s);
      WordsTrimRight(s[..|s| - 1]);
    }
  }

  /** Trimming never changes the words of a text. */
  lemma {:induction false} WordsTrim(s: string)
    ensures Words(Trim(s)) == Words(s)
  {
    WordsTrimLeft(s);
    WordsTrimRight(TrimLeft(s));
  }
}
