/** `process_document`: lower-case every token, set fraud words aside and
    transliterate them, stem, drop stopwords, count the stems, and rate the
    document by the share of its five most common stems. */
module Analyzer {
  import opened Wrappers
  import opened Alphabet
  import opened Fraud
  import opened Tokenizer
  import opened Counting
  import opened Selection

  /** The external language resources, fixed before any document is analyzed:
      the Russian Snowball stemmer, the NLTK Russian stopword list, and
      `transliterate.translit(_, 'ru')`. */
  datatype Linguistics = Linguistics(
    stem: string -> string,
    stopwordCorpus: seq<string>,
    translit: string -> string)

  /** `normalized_stopwords_set`: the stems of the stopword list. */
  function NormalizedStopwords(lx: Linguistics): (stops: set<string>)
    ensures forall k :: 0 <= k < |lx.stopwordCorpus| ==> lx.stem(lx.stopwordCorpus[k]) in stops
    ensures forall w :: w in stops ==> exists k :: 0 <= k < |lx.stopwordCorpus| && lx.stem(lx.stopwordCorpus[k]) == w
  {
    set w | w in lx.stopwordCorpus :: lx.stem(w)
  }

  /** One token after normalization: its lower-cased form (what is reported
      as a fraud word), whether it is fraud, and the stem that is counted. */
  datatype Normalized = Normalized(original: string, isFraud: bool, stemmed: string)

  /** Lower-case; transliterate only if fraud; stem. */
  function NormalizeWord(lx: Linguistics, token: string): (n: Normalized)
    ensures n.original == Lower(token)
    ensures n.isFraud <==> Uses(Latin, token) && Uses(Cyrillic, token)
    ensures n.isFraud ==> n.stemmed == lx.stem(lx.translit(Lower(token)))
    ensures !n.isFraud ==> n.stemmed == lx.stem(Lower(token))
  {
    var word := Lower(token);
    var fraud := DetectFraud(word);
    DetectFraudIgnoresCase(token);
    Normalized(word, fraud, lx.stem(if fraud then lx.translit(word) else word))
  }

  /** The stem of the token is counted (it is not a stopword). */
  predicate IsKept(lx: Linguistics, token: string) {
    NormalizeWord(lx, token).stemmed !in NormalizedStopwords(lx)
  }

  /** The tokens whose lower-cased form mixes alphabets; the fraud test
      needs no language resources, hence the empty context. */
  predicate IsFraudToken(ctx: (), token: string) {
    DetectFraud(Lower(token))
  }

  /** What a fraud token is reported as. */
  function FraudForm(ctx: (), token: string): string {
    Lower(token)
  }

  /** The stem a token contributes, whether or not it is a stopword. */
  function StemOf(lx: Linguistics, token: string): string {
    NormalizeWord(lx, token).stemmed
  }

  /** `fraud_word_list` once the loop has gone through `tokens`. */
  function FraudList(tokens: seq<string>): (fraud: seq<string>)
    ensures |fraud| <= |tokens|
    ensures forall k :: 0 <= k < |fraud| ==> DetectFraud(fraud[k]) && Lower(fraud[k]) == fraud[k]
  {
    var fraud := Select((), tokens, IsFraudToken, FraudForm);
    assert forall k :: 0 <= k < |fraud| ==> DetectFraud(fraud[k]) && Lower(fraud[k]) == fraud[k] by {
      SelectImages((), tokens, IsFraudToken, FraudForm);
      forall k | 0 <= k < |fraud| ensures DetectFraud(fraud[k]) && Lower(fraud[k]) == fraud[k] {
        assert fraud[k] in fraud;
        var i :| 0 <= i < |tokens| && IsFraudToken((), tokens[i]) && FraudForm((), tokens[i]) == fraud[k];
        LowerKeepsWord(tokens[i]);
      }
    }
    fraud
  }

  /** `normalized_word_list` once the loop has gone through `tokens`. */
  function KeptStems(lx: Linguistics, tokens: seq<string>): (kept: seq<string>)
    ensures |kept| <= |tokens|
    ensures forall k :: 0 <= k < |kept| ==> kept[k] !in NormalizedStopwords(lx)
  {
    var kept := Select(lx, tokens, IsKept, StemOf);
    assert forall k :: 0 <= k < |kept| ==> kept[k] !in NormalizedStopwords(lx) by {
      SelectImages(lx, tokens, IsKept, StemOf);
      forall k | 0 <= k < |kept| ensures kept[k] !in NormalizedStopwords(lx) {
        assert kept[k] in kept;
      }
    }
    kept
  }

  /** `set(fraud_word_list)` */
  function FraudWords(tokens: seq<string>): (words: set<string>)
    ensures forall w :: w in words ==> DetectFraud(w) && Lower(w) == w
  {
    set w | w in FraudList(tokens)
  }

  /** The total is positive exactly when some stem was counted (the `if total:`). */
  lemma PositiveTotal(c: Counter)
    requires c.Valid()
    ensures Sum(Values(c)) > 0 <==> c.keys != []
  {
    if c.keys != [] {
      SumPrefix(Values(c), 1);
    }
  }

  /** The nausea rate of a counter of stems: 100 times the summed counts of
      the five most common stems over the total, or None when nothing was
      counted. */
  function Rate(c: Counter): (rate: Option<real>)
    requires c.Valid()
    ensures rate.None? <==> c.keys == []
    ensures rate.Some? ==> 0.0 < rate.value <= 100.0
    ensures rate.Some? && |c.keys| <= 5 ==> rate.value == 100.0
  {
    var total := Sum(Values(c));
    PositiveTotal(c);
    if total > 0 then
      var top := TopSum(c, 5);
      TopSumCoversEachCount(c, 5, c.keys[0]);
      RateBounds(top, total);
      Some((100 * top) as real / total as real)
    else None
  }

  lemma RateBounds(top: nat, total: nat)
    requires 0 < top <= total
    ensures 0.0 < (100 * top) as real / total as real <= 100.0
    ensures top == total ==> (100 * top) as real / total as real == 100.0
  {
    var r := (100 * top) as real / total as real;
    assert r * total as real == (100 * top) as real;
  }

  /** The record `process_document` returns. */
  datatype DocumentResult = DocumentResult(documentName: string, rate: Option<real>, fraudWords: set<string>)

  /** What analyzing a token sequence produces. */
  function Analyze(lx: Linguistics, documentName: string, tokens: seq<string>): (result: DocumentResult)
    ensures result.documentName == documentName
    ensures result.rate.Some? ==> 0.0 < result.rate.value <= 100.0
    ensures forall w :: w in result.fraudWords ==> DetectFraud(w) && Lower(w) == w
  {
    DocumentResult(documentName, Rate(Count(KeptStems(lx, tokens))), FraudWords(tokens))
  }

  /** The loop of `process_document` over an already tokenized document:
      it builds `fraud_word_list` and `normalized_word_list`. */
  method BuildLists(lx: Linguistics, tokens: seq<string>)
    returns (fraudWordList: seq<string>, normalizedWordList: seq<string>)
    ensures fraudWordList == FraudList(tokens)
    ensures normalizedWordList == KeptStems(lx, tokens)
  {
    var stopwords := NormalizedStopwords(lx);
    fraudWordList, normalizedWordList := [], [];
    for i := 0 to |tokens|
      invariant fraudWordList == FraudList(tokens[..i])
      invariant normalizedWordList == KeptStems(lx, tokens[..i])
    {
      assert tokens[..i + 1][..i] == tokens[..i];
      var word := Lower(tokens[i]);
      if DetectFraud(word) {
        fraudWordList := fraudWordList + [word];
        word := lx.translit(word);
      }
      var normalizedWord := lx.stem(word);
      if normalizedWord !in stopwords {
        normalizedWordList := normalizedWordList + [normalizedWord];
      }
    }
    assert tokens[..|tokens|] == tokens;
  }

  /** `process_document` over an already tokenized document: the loop, then
      the counting and the rate. */
  method ProcessDocument(lx: Linguistics, documentName: string, tokens: seq<string>)
    returns (result: DocumentResult)
    ensures result == Analyze(lx, documentName, tokens)
  {
    var fraudWordList, normalizedWordList := BuildLists(lx, tokens);
    var rate := CountAndRate(normalizedWordList);
    result := DocumentResult(documentName, rate, set w | w in fraudWordList);
  }

  /** The tail of `process_document`: count the kept stems and rate them. */
  method CountAndRate(normalizedWordList: seq<string>) returns (rate: Option<real>)
    ensures rate.None? <==> normalizedWordList == []
    ensures rate.Some? ==>
      rate.value == (100 * TopSum(Count(normalizedWordList), 5)) as real / |normalizedWordList| as real
    ensures rate == Rate(Count(normalizedWordList))
  {
    var counter := Count(normalizedWordList);
    var total := Sum(Values(counter));
    if total > 0 {
      rate := Some((100 * TopSum(counter, 5)) as real / total as real);
    } else {
      rate := None;
    }
  }

  /** `process_document(path)` once the file has been read: the document's
      name (`os.path.basename(path)`) and its text, tokenized line by line. */
  method ProcessText(lx: Linguistics, documentName: string, text: string)
    returns (result: DocumentResult)
    ensures result == Analyze(lx, documentName, Tokenize(text))
  {
    TokenizeTextWhole(text);
    result := ProcessDocument(lx, documentName, TokenizeText(text));
  }

  // ---- what the result means ----

  /** The fraud words are exactly the lower-cased, untransliterated forms of
      the tokens that use both alphabets. */
  lemma FraudWordsExactly(tokens: seq<string>, w: string)
    ensures w in FraudWords(tokens) <==>
      exists i :: 0 <= i < |tokens| && DetectFraud(tokens[i]) && Lower(tokens[i]) == w
  {
    SelectMembers((), tokens, IsFraudToken, FraudForm, w);
    forall i | 0 <= i < |tokens| ensures IsFraudToken((), tokens[i]) <==> DetectFraud(tokens[i]) {
      DetectFraudIgnoresCase(tokens[i]);
    }
  }

  /** A document with no mixed-alphabet token has no fraud word. */
  lemma NoMixedTokenNoFraudWord(tokens: seq<string>)
    requires forall i :: 0 <= i < |tokens| ==> !DetectFraud(tokens[i])
    ensures FraudWords(tokens) == {}
  {
    forall w | w in FraudWords(tokens) ensures false {
      FraudWordsExactly(tokens, w);
    }
  }

  /** A stem is counted exactly when some token normalizes to it and it is not a stopword. */
  lemma KeptStemsMembers(lx: Linguistics, tokens: seq<string>, w: string)
    ensures w in KeptStems(lx, tokens) <==>
      w !in NormalizedStopwords(lx) && exists i :: 0 <= i < |tokens| && NormalizeWord(lx, tokens[i]).stemmed == w
  {
    SelectMembers(lx, tokens, IsKept, StemOf, w);
  }

  /** The positions of the tokens whose stem is counted. */
  function KeptPositions(lx: Linguistics, tokens: seq<string>): set<nat> {
    Positions(lx, tokens, IsKept)
  }

  /** `total` is the number of tokens whose stem is not a stopword. */
  lemma TotalCountsKeptTokens(lx: Linguistics, tokens: seq<string>)
    ensures Sum(Values(Count(KeptStems(lx, tokens)))) == |KeptPositions(lx, tokens)|
  {
    SelectLength(lx, tokens, IsKept, StemOf);
  }

  /** `counter[s]` is the number of tokens whose stem is `s` and is not a
      stopword; a stem no such token has is not a key at all. */
  lemma CounterCountsTokens(lx: Linguistics, tokens: seq<string>, s: string)
    ensures var c := Count(KeptStems(lx, tokens));
      var hits := set i: nat | i < |tokens| && IsKept(lx, tokens[i]) && StemOf(lx, tokens[i]) == s;
      && (s in c.counts ==> c.counts[s] == |hits|)
      && (s !in c.counts ==> hits == {})
  {
    SelectCount(lx, tokens, IsKept, StemOf, s);
    var hits := set i: nat | i < |tokens| && IsKept(lx, tokens[i]) && StemOf(lx, tokens[i]) == s;
    assert hits == Hits(lx, tokens, IsKept, StemOf, s);
  }

  /** The rate is None exactly when no token survives the stopword filter
      (in particular for an empty document), and lies in (0, 100] otherwise. */
  lemma RateNoneIffNothingCounted(lx: Linguistics, documentName: string, tokens: seq<string>)
    ensures var rate := Analyze(lx, documentName, tokens).rate;
      && (rate.None? <==> forall i :: 0 <= i < |tokens| ==> !IsKept(lx, tokens[i]))
      && (rate.Some? ==> 0.0 < rate.value <= 100.0)
  {
    var kept := KeptStems(lx, tokens);
    var c := Count(kept);
    if c.keys != [] {
      assert c.keys[0] in kept;
      KeptStemsMembers(lx, tokens, c.keys[0]);
    } else {
      forall i | 0 <= i < |tokens| ensures !IsKept(lx, tokens[i]) {
        if IsKept(lx, tokens[i]) {
          KeptStemsMembers(lx, tokens, NormalizeWord(lx, tokens[i]).stemmed);
          assert false;
        }
      }
    }
  }

  /** A document of at most five tokens, one of them counted, has rate 100. */
  lemma FewTokensFullRate(lx: Linguistics, documentName: string, tokens: seq<string>)
    requires |tokens| <= 5
    requires Analyze(lx, documentName, tokens).rate.Some?
    ensures Analyze(lx, documentName, tokens).rate == Some(100.0)
  {
    var kept := KeptStems(lx, tokens);
    DistinctAtMostLength(kept);
  }

  /** A counter has no more keys than words counted. */
  lemma DistinctAtMostLength(xs: seq<string>)
    ensures |Count(xs).keys| <= |xs|
  {
    KeysAtMostTotal(Count(xs));
  }

  /** Any single stem's share of the counted words is a lower bound for the
      rate: a document dominated by one repeated word is rated at least by
      that word's share. */
  lemma RateAtLeastShareOfEachStem(lx: Linguistics, documentName: string, tokens: seq<string>, w: string)
    requires w in KeptStems(lx, tokens)
    ensures var kept := KeptStems(lx, tokens);
      var rate := Analyze(lx, documentName, tokens).rate;
      rate.Some? && rate.value >= (100 * multiset(kept)[w]) as real / |kept| as real
  {
    var kept := KeptStems(lx, tokens);
    var c := Count(kept);
    assert w in c.counts;
    TopSumCoversEachCount(c, 5, w);
    ShareBound(multiset(kept)[w], TopSum(c, 5), |kept|);
  }

  lemma ShareBound(part: nat, top: nat, total: nat)
    requires part <= top && total > 0
    ensures (100 * part) as real / total as real <= (100 * top) as real / total as real
  {
    var x, y, t := (100 * part) as real / total as real, (100 * top) as real / total as real, total as real;
    assert x * t == (100 * part) as real;
    assert y * t == (100 * top) as real;
    assert (y - x) * t >= 0.0;
  }

  /** The rate with `None` read as 0, which is what the empty-document test expects. */
  function RateOrZero(rate: Option<real>): (r: real)
    ensures rate.None? ==> r == 0.0
    ensures rate.Some? ==> r == rate.value
  {
    match rate
    case None => 0.0
    case Some(v) => v
  }
}
