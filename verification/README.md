# academic_nausea, modelled in Dafny

academic_nausea rates how "nauseating" a Russian text is, in the sense of
academic nausea: how much the few most repeated words dominate it. It also
lists the words that mix the Latin and Cyrillic alphabets, a trick used to
fool plagiarism checkers. This project models the core of
`academic_nausea/main.py` and proves properties of it:

- `detect_fraud`: a word is fraud when both the Latin detector and the
  Cyrillic detector find a match in it (module `Fraud`).
- `_tokenize` and `tokenize`: the maximal runs of `[A-Za-zА-Яа-я]` in each
  line, chained over the lines of the file (module `Tokenizer`).
- `process_document`, as a method with the source's loop (module `Analyzer`):
  - lower-case each token;
  - set the fraud tokens aside and transliterate them;
  - stem each token and drop the stopwords;
  - count the stems with `collections.Counter` (module `Counting`);
  - compute the rate, 100 × (sum of the five largest counts) / total.

The Russian stemmer, the stopword list and `transliterate.translit` are
library code. They are fields of a `Linguistics` value, so every result holds
for any stemmer, any stopword list and any transliteration. The module
`Selection` holds the generic facts about the two lists the loop builds.
The module `Scenarios` restates the repository's test cases over the model.

Where the code and its description disagree, the model follows the code:

- The code makes the rate of a document with no counted word `None`, not 0.
  `Analyzer.Rate` returns `None` there. `Analyzer.RateOrZero` reads `None` as
  0, which is what the empty-document test compares against.
- `[А-Яа-я]` is the single range U+0410..U+044F, so Ё and ё are not word
  characters. They act as separators.

## Model

| member | source | states |
|---|---|---|
| Alphabet.IsLatin | academic_nausea/main.py:16 | the Latin detector's character class `[A-Za-z]` |
| Alphabet.IsCyrillic | academic_nausea/main.py:17 | the Cyrillic detector's character class `[А-Яа-я]`, the single range U+0410..U+044F |
| Alphabet.IsWordChar | academic_nausea/main.py:38 | the token character class `[A-Za-zА-Яа-я]`: a letter of either alphabet |
| Alphabet.LowerChar | academic_nausea/main.py:49 | lower-casing a letter of the token alphabet gives a non-upper-case character of the same alphabet; other characters are unchanged |
| Alphabet.Lower | academic_nausea/main.py:49 | lower-casing keeps the length of the word |
| Alphabet.LowerNoUpper | academic_nausea/main.py:49 | a word without an upper-case letter is its own lower-cased form |
| Alphabet.LowerKeepsScripts | academic_nausea/main.py:49-50 | a word uses an alphabet exactly when its lower-cased form does |
| Alphabet.LowerKeepsWord | academic_nausea/main.py:49 | a lower-cased token is still a token, and lower-casing is idempotent |
| Fraud.Search | academic_nausea/main.py:16-17 | a detector's search finds the first character of its alphabet, and finds nothing exactly when the string has none |
| Fraud.Detectors | academic_nausea/main.py:20 | the default detectors are two, one per alphabet, and every alphabet has one |
| Fraud.MatchCount | academic_nausea/main.py:27 | the number of detectors that match is at most their number; it equals their number exactly when all match, and is 0 exactly when none match |
| Fraud.DetectFraud | academic_nausea/main.py:20-27 | fraud if and only if the string holds both a Latin and a Cyrillic letter |
| Fraud.DetectFraudIgnoresCase | academic_nausea/main.py:49-50 | testing the lower-cased word gives the same verdict as testing the word as written |
| Tokenizer.RunLength | academic_nausea/main.py:38 | the leading run of word characters: all of it is made of word characters, and it is followed by a non-word character or the end |
| Tokenizer.Tokenize | academic_nausea/main.py:37-38 | every match of `[A-Za-zА-Яа-я]+` is a non-empty run of word characters |
| Tokenizer.Separators | academic_nausea/main.py:38 | there is one more gap between matches than there are matches, and a text starting with a separator has a non-empty first gap |
| Tokenizer.TokenizeWeaves | academic_nausea/main.py:38 | every text is its tokens interleaved with runs of non-word characters, nothing lost and order kept, with neighbouring tokens always apart |
| Tokenizer.WeaveTokenizes | academic_nausea/main.py:38 | conversely, words interleaved with such separators tokenize back to exactly those words, so the tokenization is unique |
| Tokenizer.SkipSeparator | academic_nausea/main.py:38 | leading non-word characters produce no token |
| Tokenizer.TakeToken | academic_nausea/main.py:38 | a word followed by a separator, or by nothing, is one whole token |
| Tokenizer.NoTokens | academic_nausea/main.py:38 | a text yields no token if and only if it holds no letter of either alphabet |
| Tokenizer.TokenizeAppend | academic_nausea/main.py:38 | a text that ends on a separator can be tokenized in two pieces |
| Tokenizer.SplitLines | academic_nausea/main.py:40-41 | iterating a file yields non-empty lines that concatenate back to the text; each line but the last ends with its only newline |
| Tokenizer.TokenizeLines | academic_nausea/main.py:41 | chaining the tokens of the lines gives only whole tokens, each a non-empty run of word characters |
| Tokenizer.TokenizeText | academic_nausea/main.py:30-41 | `tokenize` yields only non-empty runs of word characters |
| Tokenizer.TokenizeLinesConcat | academic_nausea/main.py:41 | chaining the tokens of lines that end on a separator equals tokenizing their concatenation |
| Tokenizer.TokenizeTextWhole | academic_nausea/main.py:40-41 | tokenizing line by line gives the same tokens as tokenizing the whole text |
| Selection.Select | academic_nausea/main.py:48-63 | an appended-to list never has more entries than the elements walked |
| Selection.SelectMembers | academic_nausea/main.py:58-63 | a value is in the list if and only if some element that passes the test maps to it |
| Selection.SelectLength | academic_nausea/main.py:62-63 | the list has one entry per element that passes the test |
| Selection.SelectImages | academic_nausea/main.py:58-63 | every entry of an appended-to list is the image of an element that passes the test |
| Selection.SelectCount | academic_nausea/main.py:62-65 | each value occurs in the list exactly as many times as there are elements that pass the test and map to it |
| Analyzer.NormalizedStopwords | academic_nausea/main.py:15 | the set holds the stem of every stopword and nothing else |
| Analyzer.NormalizeWord | academic_nausea/main.py:49-61 | the token is lower-cased; it is fraud if and only if it mixes alphabets; a fraud word's stem is taken after transliteration, any other word's stem directly |
| Analyzer.FraudList | academic_nausea/main.py:45-58 | `fraud_word_list` has at most one entry per token, and every entry is lower-case and mixes alphabets |
| Analyzer.KeptStems | academic_nausea/main.py:46-63 | `normalized_word_list` has at most one entry per token, and no entry is the stem of a stopword |
| Analyzer.FraudWords | academic_nausea/main.py:75 | every reported fraud word is lower-case and mixes alphabets |
| Analyzer.FraudWordsExactly | academic_nausea/main.py:49-75 | the fraud words are exactly the lower-cased forms of the tokens that mix alphabets, untransliterated |
| Analyzer.NoMixedTokenNoFraudWord | academic_nausea/main.py:50-75 | a document without mixed-alphabet tokens reports no fraud word |
| Analyzer.KeptStemsMembers | academic_nausea/main.py:61-63 | a stem is counted if and only if it is not the stem of a stopword (the set built at line 15) and some token normalizes to it |
| Analyzer.TotalCountsKeptTokens | academic_nausea/main.py:62-66 | `total` is the number of tokens whose stem is not a stopword |
| Analyzer.CounterCountsTokens | academic_nausea/main.py:61-65 | `counter[s]` is the number of tokens whose stem is `s` and not a stopword; a stem no such token has is not a key |
| Analyzer.PositiveTotal | academic_nausea/main.py:66-67 | the total is positive if and only if the counter has a key |
| Analyzer.Rate | academic_nausea/main.py:66-70 | the rate is None exactly when nothing was counted; otherwise it is in (0, 100], and exactly 100 when there are at most five distinct stems |
| Analyzer.RateBounds | academic_nausea/main.py:68 | for 0 < top <= total, 100·top/total lies in (0, 100], and equals 100 when top = total |
| Analyzer.Analyze | academic_nausea/main.py:44-77 | the result carries the document name unchanged, a rate that is None or in (0, 100], and only lower-case mixed-alphabet fraud words |
| Analyzer.BuildLists | academic_nausea/main.py:45-63 | the loop leaves `fraud_word_list` and `normalized_word_list` equal to the lists the token sequence defines: the lower-cased mixed-alphabet tokens, and the stems that are not stopword stems |
| Analyzer.ProcessDocument | academic_nausea/main.py:44-77 | the loop builds the fraud list and the list of kept stems; the result is the document name, the rate of their counter and the set of fraud words |
| Analyzer.CountAndRate | academic_nausea/main.py:65-70 | the rate is None exactly for an empty list of kept stems; otherwise it is 100 × the sum of the five largest counts / the length of the list, and it is the rate of the list's counter |
| Analyzer.ProcessText | academic_nausea/main.py:40-48 | processing a file's text line by line gives the analysis of the tokens of the whole text |
| Analyzer.RateNoneIffNothingCounted | academic_nausea/main.py:62-70 | the rate is None if and only if every token's stem is a stopword (an empty document included); otherwise it is in (0, 100] |
| Analyzer.FewTokensFullRate | academic_nausea/main.py:65-68 | a document of at most five tokens with a rate has rate 100 |
| Analyzer.DistinctAtMostLength | academic_nausea/main.py:65 | a counter never has more keys than words counted |
| Analyzer.RateAtLeastShareOfEachStem | academic_nausea/main.py:65-68 | the rate is at least the percentage share of any single counted stem |
| Analyzer.ShareBound | academic_nausea/main.py:68 | a smaller part of the same total gives a smaller percentage |
| Analyzer.RateOrZero | tests/test_rate_computing.py:5-11 | None reads as 0, a value as itself |
| Counting.Add | academic_nausea/main.py:65 | counting one more occurrence keeps the counter well-formed, adds one to that word's count only, and adds one to the total |
| Counting.Count | academic_nausea/main.py:65-66 | `Counter(xs)` maps exactly the words of `xs` to their numbers of occurrences, and its values sum to the length of `xs` |
| Counting.Values | academic_nausea/main.py:66 | one value per key |
| Counting.Items | academic_nausea/main.py:68 | one item per key |
| Counting.Insert | academic_nausea/main.py:68 | inserting an entry into a list sorted by decreasing count keeps it sorted, and adds exactly that entry and that count |
| Counting.SortByCount | academic_nausea/main.py:68 | sorting by count gives a permutation of the items, with the same counts and the same sum, in non-increasing order of count |
| Counting.MostCommon | academic_nausea/main.py:68 | `most_common(n)` has min(n, number of keys) entries |
| Counting.SumAppend | academic_nausea/main.py:66 | the sum of a concatenation is the sum of the parts |
| Counting.SumIncrement | academic_nausea/main.py:65-66 | adding one to one count adds one to the sum |
| Counting.SumPrefix | academic_nausea/main.py:68 | a prefix sums to at most the whole, and to at least its first element when it is not empty |
| Counting.KeysAtMostTotal | academic_nausea/main.py:65-66 | every key is counted at least once, so there are no more keys than counted words |
| Counting.DescendingHeadIsMax | academic_nausea/main.py:68 | the first count of a non-increasing list is its largest |
| Counting.DescendingUnique | academic_nausea/main.py:68 | two non-increasing lists with the same counts are equal |
| Counting.TopCounts | academic_nausea/main.py:68 | the counts of `most_common(n)` are the n largest counts, largest first |
| Counting.TopSumOrderIndependent | academic_nausea/main.py:68 | the top-n sum depends only on the multiset of counts, not on which word has which count nor on how ties are ordered |
| Counting.TopSum | academic_nausea/main.py:66-68 | the sum of the n largest counts is at most the total, and equals it when there are at most n distinct words |
| Counting.TopSumCoversEachCount | academic_nausea/main.py:68 | for n >= 1 the top-n sum is at least the count of every word |
| Scenarios.PlainWordsAreNotFraud | tests/test_fraud_detection.py:5-12 | "привет" and "hello" are not fraud |
| Scenarios.SingleAlphabetIsNotFraud | academic_nausea/main.py:27 | a word in a single alphabet is never fraud |
| Scenarios.JoinSpacesTokenizes | academic_nausea/main.py:38 | words written one space apart tokenize back into the same words |
| Scenarios.GoodMixedText | tests/test_fraud_detection.py:15-20 | "техника bosch лучшая" tokenizes to its three words, none of them fraud |
| Scenarios.BadMixedText | tests/test_fraud_detection.py:23-28 | the same text with Latin look-alikes inside tokenizes to three words, all of them fraud |
| Scenarios.EmptyDocument | tests/test_rate_computing.py:5-11 | the empty document has no fraud word and rate None, which reads as 0 |
| Scenarios.FiveWordsDocument | tests/test_rate_computing.py:14-23 | the five-word document tokenizes to its five words; it has no fraud word, and its rate is exactly 100 whenever one of the words is not a stopword |
| Scenarios.BuyIsFraud | tests/test_rate_computing.py:29 | the repeated word `покупaй` mixes alphabets and is already lower-case |
| Scenarios.BoschLower | tests/test_rate_computing.py:28-36 | the one upper-case tail word `Bоsch` is reported as `bоsch` |
| Scenarios.LongTailWord | tests/test_rate_computing.py:28 | of the eleven words after the repetition, all but `по` and `и` mix alphabets, and all but `Bоsch` are already lower-case |
| Scenarios.LongFraudWordsSpelled | tests/test_rate_computing.py:36 | the expected set, built from the words of line 28, is the set of ten literals the test spells out |
| Scenarios.LongDocumentFraudWords | tests/test_rate_computing.py:26-37 | for any stemmer, stopword list and transliteration, the tokens of the long document report exactly the ten expected fraud words, `Bоsch` lowered and `покупaй` once although it occurs 93 times |

## Left out

- `academic_nausea/table.py` and `calculate` are not part of this model. They hold the database storage and the multiprocessing pool.
- The `__main__` command line, `open`, and the universal-newline translation of text-mode files are left out. A file is its text, split into lines at `\n`.
- `os.path.basename` is left out. The document name is a parameter that is passed through unchanged.
- The Snowball stemmer, the NLTK stopword list and `transliterate.translit` are parameters (`Analyzer.Linguistics`), not models of those libraries.
- Alphabet.Lower: only the token alphabet is modelled (A–Z and А–Я). Python's `str.lower` on other characters is not, because tokens never contain any.
- The rate is an exact rational. Floating-point rounding and the `int(...)` truncation in the tests are not modelled.
- Counting.MostCommon: which of several equally counted words comes first is not modelled against CPython. The model uses a stable sort, and `Counting.TopSumOrderIndependent` shows that the rate does not depend on that order.
- The 97% rate of `test_long_nauseating_document` depends on the real stemmer and stopword list, so it is not restated. Its fraud words are restated over its tokens (93 times `покупaй`, then the eleven words of line 28), but the tokenization of that text is not. `tests/test_full_pipeline.py` needs files on disk and the database, so it is not restated either.
- The tests call `_tokenize` on a file object and call a `_process_document` that `main.py` does not define. The scenarios restate them over `Tokenizer.Tokenize` and `Analyzer.Analyze`.
