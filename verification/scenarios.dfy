/** The repository's test cases, restated over the model. The language
    resources are left as parameters, so each result holds for every stemmer,
    stopword list and transliteration. */
module Scenarios {
  import opened Wrappers
  import opened Alphabet
  import opened Fraud
  import opened Tokenizer
  import opened Analyzer

  /** Words in one alphabet are not fraud. */
  lemma PlainWordsAreNotFraud()
    ensures !DetectFraud("привет")
    ensures !DetectFraud("hello")
  {
    assert !IsLatin("привет"[0]);
    assert !IsCyrillic("hello"[0]);
  }

  /** A word in one alphabet only is never fraud. */
  lemma SingleAlphabetIsNotFraud(w: string)
    requires (forall i :: 0 <= i < |w| ==> IsCyrillic(w[i])) || (forall i :: 0 <= i < |w| ==> IsLatin(w[i]))
    ensures !DetectFraud(w)
  {
  }

  /** `" ".join(words)` */
  function JoinSpaces(words: seq<string>): (text: string)
    ensures words == [] ==> text == []
  {
    if words == [] then []
    else if |words| == 1 then words[0]
    else words[0] + " " + JoinSpaces(words[1..])
  }

  /** A word, a space, then the rest: the word is one token before the rest's. */
  lemma WordSpaceStep(w: string, rest: string)
    requires IsWord(w)
    ensures Tokenize(w + " " + rest) == [w] + Tokenize(rest)
  {
    TakeToken(w, " " + rest);
    SkipSeparator(" ", rest);
    assert w + " " + rest == w + (" " + rest);
  }

  /** Words written one space apart are tokenized back into the same words. */
  lemma {:induction false} JoinSpacesTokenizes(words: seq<string>)
    requires forall k :: 0 <= k < |words| ==> IsWord(words[k])
    ensures Tokenize(JoinSpaces(words)) == words
  {
    if |words| == 1 {
      TakeToken(words[0], []);
      assert words[0] + [] == words[0];
    } else if |words| > 1 {
      JoinSpacesTokenizes(words[1..]);
      WordSpaceStep(words[0], JoinSpaces(words[1..]));
      assert words == [words[0]] + words[1..];
    }
  }

  const GoodMixed: seq<string> := ["техника", "bosch", "лучшая"]

  /** The same words with Latin look-alikes slipped in (e, x, a, o, c). */
  const BadMixed: seq<string> := ["т\U{65}\U{78}ник\U{61}", "b\U{43e}s\U{441}h", "лучш\U{61}я"]

  /** Each of the plain words is in one alphabet only. */
  lemma GoodMixedWord(k: nat)
    requires k < 3
    ensures IsWord(GoodMixed[k]) && !DetectFraud(GoodMixed[k])
  {
    var w := GoodMixed[k];
    if k == 0 {
      assert w == "техника";
    } else if k == 1 {
      assert w == "bosch";
    } else {
      assert w == "лучшая";
    }
    SingleAlphabetIsNotFraud(w);
  }

  /** The test's text is the three words one space apart. */
  lemma GoodMixedJoined()
    ensures JoinSpaces(GoodMixed) == "техника bosch лучшая"
  {
    var ws := GoodMixed;
    assert JoinSpaces(ws[2..]) == "лучшая";
    assert JoinSpaces(ws[1..]) == "bosch" + " " + "лучшая";
  }

  /** Cyrillic words next to a Latin brand name: three tokens, none of them fraud. */
  lemma GoodMixedText(text: string)
    requires text == "техника bosch лучшая"
    ensures Tokenize(text) == GoodMixed
    ensures forall k :: 0 <= k < 3 ==> !DetectFraud(GoodMixed[k])
  {
    forall k | 0 <= k < 3 ensures IsWord(GoodMixed[k]) && !DetectFraud(GoodMixed[k]) {
      GoodMixedWord(k);
    }
    JoinSpacesTokenizes(GoodMixed);
    GoodMixedJoined();
  }

  lemma BadMixedWords()
    ensures forall k :: 0 <= k < 3 ==> IsWord(BadMixed[k]) && DetectFraud(BadMixed[k])
  {
    assert IsWord(BadMixed[0]) && IsCyrillic(BadMixed[0][0]) && IsLatin(BadMixed[0][1]);
    assert IsWord(BadMixed[1]) && IsLatin(BadMixed[1][0]) && IsCyrillic(BadMixed[1][1]);
    assert IsWord(BadMixed[2]) && IsCyrillic(BadMixed[2][0]) && IsLatin(BadMixed[2][4]);
  }

  /** The test's text is the three look-alike words one space apart. */
  lemma BadMixedJoined()
    ensures JoinSpaces(BadMixed) == "т\U{65}\U{78}ник\U{61} b\U{43e}s\U{441}h лучш\U{61}я"
  {
    var ws := BadMixed;
    assert JoinSpaces(ws[2..]) == "лучш\U{61}я";
    assert JoinSpaces(ws[1..]) == "b\U{43e}s\U{441}h" + " " + "лучш\U{61}я";
  }

  /** With Latin look-alikes slipped in, every token is fraud. */
  lemma BadMixedText(text: string)
    requires text == "т\U{65}\U{78}ник\U{61} b\U{43e}s\U{441}h лучш\U{61}я"
    ensures Tokenize(text) == BadMixed
    ensures forall k :: 0 <= k < 3 ==> DetectFraud(BadMixed[k])
  {
    BadMixedWords();
    JoinSpacesTokenizes(BadMixed);
    BadMixedJoined();
  }

  /** The empty document: no token, no fraud word, and a rate of None, which
      the test reads as 0. */
  lemma EmptyDocument(lx: Linguistics, documentName: string)
    ensures Analyze(lx, documentName, Tokenize("")) == DocumentResult(documentName, None, {})
    ensures RateOrZero(Analyze(lx, documentName, Tokenize("")).rate) == 0.0
  {
    assert KeptStems(lx, []) == [];
  }

  const FiveWords: seq<string> := ["машина", "автомобиль", "автобус", "самолет", "паровоз"]

  const FiveWordsSeparators: seq<string> := ["\n        ▒▒▒▒ ", " ", " ", " ", " ", " ➔➔➔➔▒▒▒▒▒▒▒▒▒▒\n    "]

  /** The test's text, written piece by piece. */
  const FiveWordsText: string :=
    "\n        ▒▒▒▒ " + "машина" + " " + "автомобиль" + " " + "автобус" + " " + "самолет" + " " + "паровоз"
    + " ➔➔➔➔▒▒▒▒▒▒▒▒▒▒\n    "

  lemma FiveWordsAreCyrillic(k: nat)
    requires k < 5
    ensures IsWord(FiveWords[k])
    ensures forall i :: 0 <= i < |FiveWords[k]| ==> IsCyrillic(FiveWords[k][i])
  {
    var w := FiveWords[k];
    if k == 0 {
      assert w == "машина";
    } else if k == 1 {
      assert w == "автомобиль";
    } else if k == 2 {
      assert w == "автобус";
    } else if k == 3 {
      assert w == "самолет";
    } else {
      assert w == "паровоз";
    }
  }

  lemma FiveWordsSeparated()
    ensures WellSeparated(FiveWordsSeparators, FiveWords)
  {
    forall k | 0 <= k < 5 ensures IsWord(FiveWords[k]) {
      FiveWordsAreCyrillic(k);
    }
    assert IsSeparator(FiveWordsSeparators[0]);
    assert IsSeparator(FiveWordsSeparators[5]);
  }

  lemma FiveWordsWoven()
    ensures Weave(FiveWordsSeparators, FiveWords) == FiveWordsText
  {
    var seps, words := FiveWordsSeparators, FiveWords;
    assert Weave(seps[5..], words[5..]) == seps[5];
    assert Weave(seps[4..], words[4..]) == " " + "паровоз" + seps[5];
    assert Weave(seps[3..], words[3..]) == " " + "самолет" + " " + "паровоз" + seps[5];
    assert Weave(seps[2..], words[2..]) == " " + "автобус" + " " + "самолет" + " " + "паровоз" + seps[5];
    assert Weave(seps[1..], words[1..])
        == " " + "автомобиль" + " " + "автобус" + " " + "самолет" + " " + "паровоз" + seps[5];
  }

  /** Five different words between decorations: the five tokens, no fraud word,
      and a rate of exactly 100 as soon as one of the stems is not a stopword. */
  lemma FiveWordsDocument(lx: Linguistics, documentName: string)
    requires exists k :: 0 <= k < 5 && IsKept(lx, FiveWords[k])
    ensures Tokenize(FiveWordsText) == FiveWords
    ensures Analyze(lx, documentName, Tokenize(FiveWordsText)).rate == Some(100.0)
    ensures Analyze(lx, documentName, Tokenize(FiveWordsText)).fraudWords == {}
  {
    FiveWordsSeparated();
    FiveWordsWoven();
    WeaveTokenizes(FiveWordsSeparators, FiveWords);
    forall k | 0 <= k < 5 ensures !DetectFraud(FiveWords[k]) {
      FiveWordsAreCyrillic(k);
      SingleAlphabetIsNotFraud(FiveWords[k]);
    }
    NoMixedTokenNoFraudWord(FiveWords);
    RateNoneIffNothingCounted(lx, documentName, FiveWords);
    FewTokensFullRate(lx, documentName, FiveWords);
  }

  /** `'покупaй ' * 93`: the repeated word of the long test, with a Latin a. */
  const Buy: string := "покуп\U{61}й"

  /** The words of the long test after the repetition, as written. */
  const LongTail: seq<string> := ["н\U{61}ш", "т\U{6f}вар", "B\U{43e}sch", "по", "с\U{61}мым", "низ\U{6b}им", "цен\U{61}м", "т\U{6f}лько", "\U{63}ейчас", "и", "\U{63}егодня"]

  /** The tokens of the long test: the repeated word 93 times, then the tail. */
  const LongTokens: seq<string> := seq(93, k => Buy) + LongTail

  /** The fraud words the long test expects, in its order: `bоsch` (the
      lowered third tail word, see `BoschLower`), `сaмым`, `покупaй`, `нaш`,
      `ценaм`, `тoлько`, `cегодня`, `cейчас`, `низkим`, `тoвар`. */
  const LongFraudWords: set<string> := {Lower(LongTail[2]), LongTail[4], Buy, LongTail[0], LongTail[6], LongTail[7], LongTail[10], LongTail[8], LongTail[5], LongTail[1]}

  lemma BuyIsFraud()
    ensures DetectFraud(Buy) && Lower(Buy) == Buy
  {
    assert IsCyrillic(Buy[0]) && IsLatin(Buy[5]);
    LowerNoUpper(Buy);
  }

  /** The only upper-case letter of the test: `Bоsch` is lowered to `bоsch`. */
  lemma BoschLower()
    ensures Lower(LongTail[2]) == "b\U{43e}sch"
  {
    var w, r := LongTail[2], "b\U{43e}sch";
    assert w == "B\U{43e}sch";
    forall i | 0 <= i < 5 ensures Lower(w)[i] == r[i] {
    }
  }

  /** Each tail word mixes alphabets except `по` and `и`; only `Bоsch` changes when lowered. */
  lemma LongTailWord(k: nat)
    requires k < 11
    ensures DetectFraud(LongTail[k]) <==> k != 3 && k != 9
    ensures k != 2 ==> Lower(LongTail[k]) == LongTail[k]
  {
    var w := LongTail[k];
    if k == 3 || k == 9 {
      SingleAlphabetIsNotFraud(w);
    } else if k == 2 || k == 8 || k == 10 {
      assert IsLatin(w[0]) && IsCyrillic(w[1]);
    } else if k == 0 || k == 1 || k == 4 || k == 7 {
      assert IsCyrillic(w[0]) && IsLatin(w[1]);
    } else {
      assert IsCyrillic(w[0]) && IsLatin(w[3]);
    }
    if k != 2 {
      LowerNoUpper(w);
    }
  }

  /** The lower-cased form of every mixed tail word is one the test expects. */
  lemma LongTailFormExpected(k: nat)
    requires k < 11 && k != 3 && k != 9
    ensures Lower(LongTail[k]) in LongFraudWords
  {
    LongTailWord(k);
    if k == 2 {
      BoschLower();
    } else if k == 0 {
      assert LongTail[k] == "н\U{61}ш";
    } else if k == 1 {
      assert LongTail[k] == "т\U{6f}вар";
    } else if k == 4 {
      assert LongTail[k] == "с\U{61}мым";
    } else if k == 5 {
      assert LongTail[k] == "низ\U{6b}им";
    } else if k == 6 {
      assert LongTail[k] == "цен\U{61}м";
    } else if k == 7 {
      assert LongTail[k] == "т\U{6f}лько";
    } else if k == 8 {
      assert LongTail[k] == "\U{63}ейчас";
    } else {
      assert LongTail[k] == "\U{63}егодня";
    }
  }

  /** Every reported fraud word is one the test expects. */
  lemma LongFraudWordsExpected(ts: seq<string>)
    requires ts == LongTokens
    ensures FraudWords(ts) <= LongFraudWords
  {
    forall w | w in FraudWords(ts) ensures w in LongFraudWords {
      FraudWordsExactly(ts, w);
      var i :| 0 <= i < |ts| && DetectFraud(ts[i]) && Lower(ts[i]) == w;
      if i < 93 {
        assert ts[i] == Buy;
        BuyIsFraud();
      } else {
        assert ts[i] == LongTail[i - 93];
        LongTailWord(i - 93);
        LongTailFormExpected(i - 93);
      }
    }
  }

  /** A mixed tail word is reported, lower-cased. */
  lemma LongTailReported(ts: seq<string>, k: nat)
    requires ts == LongTokens && k < 11 && k != 3 && k != 9
    ensures Lower(LongTail[k]) in FraudWords(ts)
    ensures k != 2 ==> LongTail[k] in FraudWords(ts)
  {
    LongTailWord(k);
    assert ts[93 + k] == LongTail[k];
    FraudWordsExactly(ts, Lower(LongTail[k]));
  }

  /** `LongFraudWords` is the set the test spells out on its line 36. */
  lemma LongFraudWordsSpelled()
    ensures LongFraudWords == {"b\U{43e}sch", "с\U{61}мым", "покуп\U{61}й", "н\U{61}ш", "цен\U{61}м",
                               "т\U{6f}лько", "\U{63}егодня", "\U{63}ейчас", "низ\U{6b}им", "т\U{6f}вар"}
  {
    BoschLower();
  }

  /** Two sets that include each other are equal. */
  lemma BothWays<T>(a: set<T>, b: set<T>)
    requires a <= b && b <= a
    ensures a == b
  {
  }

  /** Three members of a set make a subset of it. */
  lemma ThreeIn<T>(a: T, b: T, c: T, s: set<T>)
    requires a in s && b in s && c in s
    ensures {a, b, c} <= s
  {
  }

  /** Four members of a set make a subset of it. */
  lemma FourIn<T>(a: T, b: T, c: T, d: T, s: set<T>)
    requires a in s && b in s && c in s && d in s
    ensures {a, b, c, d} <= s
  {
  }

  /** The first three expected fraud words are reported. */
  lemma LongReportedFirst(ts: seq<string>)
    requires ts == LongTokens
    ensures {Lower(LongTail[2]), LongTail[4], Buy} <= FraudWords(ts)
  {
    BuyIsFraud();
    assert ts[0] == Buy;
    FraudWordsExactly(ts, Buy);
    LongTailReported(ts, 2);
    LongTailReported(ts, 4);
    ThreeIn(Lower(LongTail[2]), LongTail[4], Buy, FraudWords(ts));
  }

  /** The next three expected fraud words are reported. */
  lemma LongReportedSecond(ts: seq<string>)
    requires ts == LongTokens
    ensures {LongTail[0], LongTail[6], LongTail[7]} <= FraudWords(ts)
  {
    LongTailReported(ts, 0);
    LongTailReported(ts, 6);
    LongTailReported(ts, 7);
    ThreeIn(LongTail[0], LongTail[6], LongTail[7], FraudWords(ts));
  }

  /** The last four expected fraud words are reported. */
  lemma LongReportedThird(ts: seq<string>)
    requires ts == LongTokens
    ensures {LongTail[10], LongTail[8], LongTail[5], LongTail[1]} <= FraudWords(ts)
  {
    LongTailReported(ts, 10);
    LongTailReported(ts, 8);
    LongTailReported(ts, 5);
    LongTailReported(ts, 1);
    FourIn(LongTail[10], LongTail[8], LongTail[5], LongTail[1], FraudWords(ts));
  }

  /** Every fraud word the test expects is reported. */
  lemma LongFraudWordsReported(ts: seq<string>)
    requires ts == LongTokens
    ensures LongFraudWords <= FraudWords(ts)
  {
    LongReportedFirst(ts);
    LongReportedSecond(ts);
    LongReportedThird(ts);
  }

  /** The long test's fraud words: each token that mixes alphabets,
      lower-cased, reported once however often it occurs. */
  lemma LongDocumentFraudWords(lx: Linguistics, documentName: string, ts: seq<string>)
    requires ts == LongTokens
    ensures Analyze(lx, documentName, ts).fraudWords == LongFraudWords
  {
    LongFraudWordsExpected(ts);
    LongFraudWordsReported(ts);
    BothWays(FraudWords(ts), LongFraudWords);
  }
}
