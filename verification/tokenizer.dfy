/** `_tokenize` and `tokenize`: the maximal runs of `[A-Za-zА-Яа-я]` in a text,
    in order, with every other character acting as a separator. */
module Tokenizer {
  import opened Alphabet

  /** Length of the run of word characters at the front of `s`. */
  function RunLength(s: string): (n: nat)
    ensures n <= |s|
    ensures forall i :: 0 <= i < n ==> IsWordChar(s[i])
    ensures n < |s| ==> !IsWordChar(s[n])
  {
    if s == [] || !IsWordChar(s[0]) then 0 else 1 + RunLength(s[1..])
  }

  /** `re.finditer(r"[A-Za-zА-Яа-я]+", s)`, each match's `group(0)`. */
  function Tokenize(s: string): (tokens: seq<string>)
    ensures forall k :: 0 <= k < |tokens| ==> IsWord(tokens[k])
    decreases |s|
  {
    if s == [] then []
    else if !IsWordChar(s[0]) then Tokenize(s[1..])
    else [s[..RunLength(s)]] + Tokenize(s[RunLength(s)..])
  }

  /** A stretch of text without any word character. */
  predicate IsSeparator(sep: string) {
    forall i :: 0 <= i < |sep| ==> !IsWordChar(sep[i])
  }

  /** `seps[0] + tokens[0] + seps[1] + ... + tokens[n-1] + seps[n]` */
  function Weave(seps: seq<string>, tokens: seq<string>): string
    requires |seps| == |tokens| + 1
    decreases |tokens|
  {
    if tokens == [] then seps[0] else seps[0] + tokens[0] + Weave(seps[1..], tokens[1..])
  }

  /** Tokens separated by separators, where two neighbouring tokens are always
      apart (so that each token is a maximal run). */
  predicate WellSeparated(seps: seq<string>, tokens: seq<string>) {
    && |seps| == |tokens| + 1
    && (forall k :: 0 <= k < |tokens| ==> IsWord(tokens[k]))
    && (forall k :: 0 <= k < |seps| ==> IsSeparator(seps[k]))
    && (forall k :: 0 < k < |tokens| ==> seps[k] != [])
  }

  /** The separators that `Tokenize` skips: the text before the first token,
      between consecutive tokens, and after the last one. */
  function Separators(s: string): (seps: seq<string>)
    ensures |seps| == |Tokenize(s)| + 1
    ensures s != [] && !IsWordChar(s[0]) ==> seps[0] != []
    decreases |s|
  {
    if s == [] then [[]]
    else if !IsWordChar(s[0]) then
      var rest := Separators(s[1..]);
      [[s[0]] + rest[0]] + rest[1..]
    else [[]] + Separators(s[RunLength(s)..])
  }

  /** Putting a character in front of the first separator puts it in front of the text. */
  lemma WeaveExtendFirst(c: char, seps: seq<string>, tokens: seq<string>)
    requires |seps| == |tokens| + 1
    ensures Weave([[c] + seps[0]] + seps[1..], tokens) == [c] + Weave(seps, tokens)
  {
    var seps' := [[c] + seps[0]] + seps[1..];
    assert seps'[1..] == seps[1..];
  }

  /** Every text is its tokens interleaved with well-formed separators:
      nothing is lost, nothing but separators is dropped, and the order is kept. */
  lemma {:induction false} TokenizeWeaves(s: string)
    ensures WellSeparated(Separators(s), Tokenize(s))
    ensures Weave(Separators(s), Tokenize(s)) == s
    decreases |s|
  {
    if s == [] {
    } else if !IsWordChar(s[0]) {
      TokenizeWeaves(s[1..]);
      SeparatorStep(s, Separators(s[1..]), Tokenize(s[1..]));
    } else {
      var n := RunLength(s);
      TokenizeWeaves(s[n..]);
      TokenUnfold(s);
      TokenStep(s, n, Separators(s[n..]), Tokenize(s[n..]));
    }
  }

  /** A separator character in front of a woven remainder joins its first separator. */
  lemma SeparatorStep(s: string, rest: seq<string>, t: seq<string>)
    requires s != [] && !IsWordChar(s[0])
    requires WellSeparated(rest, t) && Weave(rest, t) == s[1..]
    ensures WellSeparated([[s[0]] + rest[0]] + rest[1..], t)
    ensures Weave([[s[0]] + rest[0]] + rest[1..], t) == s
  {
    var seps := [[s[0]] + rest[0]] + rest[1..];
    WeaveExtendFirst(s[0], rest, t);
    assert s == [s[0]] + s[1..];
    forall k | 0 <= k < |seps| ensures IsSeparator(seps[k]) {
      if k > 0 { assert seps[k] == rest[k]; }
    }
    forall k | 0 < k < |t| ensures seps[k] != [] {
      assert seps[k] == rest[k];
    }
  }

  /** A token in front of well-separated tokens, with an empty first separator. */
  lemma WellSeparatedCons(w: string, seps: seq<string>, tokens: seq<string>)
    requires IsWord(w)
    requires WellSeparated(seps, tokens)
    requires tokens != [] ==> seps[0] != []
    ensures WellSeparated([[]] + seps, [w] + tokens)
    ensures Weave([[]] + seps, [w] + tokens) == w + Weave(seps, tokens)
  {
    var seps', tokens' := [[]] + seps, [w] + tokens;
    assert seps'[1..] == seps && tokens'[1..] == tokens;
    forall k | 0 <= k < |seps'| ensures IsSeparator(seps'[k]) {
      if k > 0 { assert seps'[k] == seps[k - 1]; }
    }
    forall k | 0 <= k < |tokens'| ensures IsWord(tokens'[k]) {
      if k > 0 { assert tokens'[k] == tokens[k - 1]; }
    }
    forall k | 0 < k < |tokens'| ensures seps'[k] != [] {
      assert seps'[k] == seps[k - 1];
    }
  }

  /** A word taken off the front of `s`, followed by a woven remainder. */
  lemma TokenStep(s: string, n: nat, rest: seq<string>, t: seq<string>)
    requires n <= |s| && IsWord(s[..n])
    requires WellSeparated(rest, t) && Weave(rest, t) == s[n..]
    requires t != [] ==> rest[0] != []
    ensures WellSeparated([[]] + rest, [s[..n]] + t)
    ensures Weave([[]] + rest, [s[..n]] + t) == s
  {
    WellSeparatedCons(s[..n], rest, t);
    assert s == s[..n] + s[n..];
  }

  /** One step of `Tokenize` and `Separators` at a word character. */
  lemma TokenUnfold(s: string)
    requires s != [] && IsWordChar(s[0])
    ensures Separators(s) == [[]] + Separators(s[RunLength(s)..])
    ensures Tokenize(s) == [s[..RunLength(s)]] + Tokenize(s[RunLength(s)..])
    ensures Tokenize(s[RunLength(s)..]) != [] ==> Separators(s[RunLength(s)..])[0] != []
  {
    var n := RunLength(s);
    if Tokenize(s[n..]) != [] {
      assert s[n..] != [];
    }
  }

  /** Leading separator characters produce no token. */
  lemma {:induction false} SkipSeparator(sep: string, s: string)
    requires IsSeparator(sep)
    ensures Tokenize(sep + s) == Tokenize(s)
    decreases |sep|
  {
    if sep == [] {
      assert sep + s == s;
    } else {
      assert (sep + s)[0] == sep[0];
      assert Tokenize(sep + s) == Tokenize((sep + s)[1..]);
      assert (sep + s)[1..] == sep[1..] + s;
      SkipSeparator(sep[1..], s);
    }
  }

  /** A run of word characters ends where a separator or the text ends. */
  lemma {:induction false} RunLengthOfWord(t: string, rest: string)
    requires forall i :: 0 <= i < |t| ==> IsWordChar(t[i])
    requires rest == [] || !IsWordChar(rest[0])
    ensures RunLength(t + rest) == |t|
    decreases |t|
  {
    if t != [] {
      assert (t + rest)[0] == t[0];
      assert (t + rest)[1..] == t[1..] + rest;
      RunLengthOfWord(t[1..], rest);
    }
  }

  /** A word followed by a separator (or nothing) is one token. */
  lemma TakeToken(t: string, rest: string)
    requires IsWord(t)
    requires rest == [] || !IsWordChar(rest[0])
    ensures Tokenize(t + rest) == [t] + Tokenize(rest)
  {
    RunLengthOfWord(t, rest);
    assert (t + rest)[..|t|] == t && (t + rest)[|t|..] == rest;
  }

  /** Conversely, tokens woven with well-formed separators are exactly what
      `Tokenize` gives back: the tokenization is unique. */
  lemma {:induction false} WeaveTokenizes(seps: seq<string>, tokens: seq<string>)
    requires WellSeparated(seps, tokens)
    ensures Tokenize(Weave(seps, tokens)) == tokens
    decreases |tokens|
  {
    if tokens == [] {
      SkipSeparator(seps[0], []);
      assert seps[0] + [] == seps[0];
    } else {
      var rest := Weave(seps[1..], tokens[1..]);
      assert WellSeparated(seps[1..], tokens[1..]);
      WeaveTokenizes(seps[1..], tokens[1..]);
      if tokens[1..] != [] {
        assert seps[1] != [];
        assert rest == seps[1] + tokens[1] + Weave(seps[2..], tokens[2..]);
        assert rest[0] == seps[1][0];
      } else {
        assert rest == seps[1];
      }
      TakeToken(tokens[0], rest);
      SkipSeparator(seps[0], tokens[0] + rest);
      assert Weave(seps, tokens) == seps[0] + (tokens[0] + rest);
      assert [tokens[0]] + tokens[1..] == tokens;
    }
  }

  /** A text yields no token exactly when it holds no Latin or Cyrillic letter;
      in particular the empty text yields none. */
  lemma NoTokens(s: string)
    ensures Tokenize(s) == [] <==> IsSeparator(s)
  {
    if IsSeparator(s) {
      SkipSeparator(s, []);
      assert s + [] == s;
    }
    if Tokenize(s) == [] {
      TokenizeWeaves(s);
    }
  }

  /** Text that ends on a separator can be tokenized piecewise. */
  lemma {:induction false} TokenizeAppend(a: string, b: string)
    requires a == [] || !IsWordChar(a[|a| - 1])
    ensures Tokenize(a + b) == Tokenize(a) + Tokenize(b)
    decreases |a|
  {
    if a == [] {
      assert a + b == b;
    } else if !IsWordChar(a[0]) {
      assert (a + b)[1..] == a[1..] + b;
      TokenizeAppend(a[1..], b);
    } else {
      var n := RunLength(a);
      assert n < |a|;
      RunLengthOfWord(a[..n], a[n..] + b);
      assert a + b == a[..n] + (a[n..] + b);
      assert (a + b)[..n] == a[..n] && (a + b)[n..] == a[n..] + b;
      TokenizeAppend(a[n..], b);
    }
  }

  function Concat(lines: seq<string>): string {
    if lines == [] then [] else lines[0] + Concat(lines[1..])
  }

  /** Length of the first line of `text`, its `\n` included. */
  function LineLength(text: string): (n: nat)
    requires text != []
    ensures 1 <= n <= |text|
    ensures forall j :: 0 <= j < n - 1 ==> text[j] != '\n'
    ensures n < |text| ==> text[n - 1] == '\n'
  {
    if text[0] == '\n' || |text| == 1 then 1 else 1 + LineLength(text[1..])
  }

  /** Iterating over a text file: lines that each end just after a `\n`, except
      possibly the last; the empty file has no line. */
  function SplitLines(text: string): (lines: seq<string>)
    ensures Concat(lines) == text
    ensures forall k :: 0 <= k < |lines| ==> lines[k] != []
    ensures forall k :: 0 <= k < |lines| - 1 ==> |lines[k]| > 0 && lines[k][|lines[k]| - 1] == '\n'
    ensures forall k, j :: 0 <= k < |lines| && 0 <= j < |lines[k]| - 1 ==> lines[k][j] != '\n'
    decreases |text|
  {
    if text == [] then []
    else
      var n := LineLength(text);
      assert text[..n] + text[n..] == text;
      [text[..n]] + SplitLines(text[n..])
  }

  /** `itertools.chain.from_iterable(_tokenize(line) for line in lines)` */
  function TokenizeLines(lines: seq<string>): (tokens: seq<string>)
    ensures forall k :: 0 <= k < |tokens| ==> IsWord(tokens[k])
  {
    if lines == [] then [] else Tokenize(lines[0]) + TokenizeLines(lines[1..])
  }

  /** `tokenize`, once the file has been read into `text`. */
  function TokenizeText(text: string): (tokens: seq<string>)
    ensures forall k :: 0 <= k < |tokens| ==> IsWord(tokens[k])
  {
    TokenizeLines(SplitLines(text))
  }

  /** Chaining the tokens of lines that end on a separator is the same as
      tokenizing their concatenation. */
  lemma {:induction false} TokenizeLinesConcat(lines: seq<string>)
    requires forall k :: 0 <= k < |lines| - 1 ==> |lines[k]| > 0 && !IsWordChar(lines[k][|lines[k]| - 1])
    ensures TokenizeLines(lines) == Tokenize(Concat(lines))
  {
    if lines != [] {
      TokenizeLinesConcat(lines[1..]);
      if |lines| == 1 {
        assert Concat(lines) == lines[0] + [];
        assert lines[0] + [] == lines[0];
      } else {
        TokenizeAppend(lines[0], Concat(lines[1..]));
      }
    }
  }

  /** Reading line by line splits no token, since `\n` is a separator. */
  lemma TokenizeTextWhole(text: string)
    ensures TokenizeText(text) == Tokenize(text)
  {
    var lines := SplitLines(text);
    forall k | 0 <= k < |lines| - 1
      ensures |lines[k]| > 0 && !IsWordChar(lines[k][|lines[k]| - 1])
    {
    }
    TokenizeLinesConcat(lines);
  }
}
