/** The two alphabets the analyzer recognises, as the character classes
    `[A-Za-z]` and `[А-Яа-я]`, and lower-casing on them. */
module Alphabet {

  /** `[A-Za-z]` */
  predicate IsLatin(c: char) {
    'A' <= c <= 'Z' || 'a' <= c <= 'z'
  }

  /** `[А-Яа-я]`: U+0410..U+042F followed by U+0430..U+044F, one contiguous range.
      Ё (U+0401) and ё (U+0451) lie outside it. */
  predicate IsCyrillic(c: char) {
    '\U{0410}' <= c <= '\U{044F}'
  }

  /** `[A-Za-zА-Яа-я]`, the characters a token is made of. */
  predicate IsWordChar(c: char) {
    IsLatin(c) || IsCyrillic(c)
  }

  /** A token: a non-empty run of word characters. */
  predicate IsWord(w: string) {
    |w| > 0 && forall i :: 0 <= i < |w| ==> IsWordChar(w[i])
  }

  predicate IsUpper(c: char) {
    'A' <= c <= 'Z' || '\U{0410}' <= c <= '\U{042F}'
  }

  /** The two alphabets, one per detector. */
  datatype Script = Latin | Cyrillic

  predicate InScript(a: Script, c: char) {
    match a
    case Latin => IsLatin(c)
    case Cyrillic => IsCyrillic(c)
  }

  /** Some character of `w` belongs to alphabet `a`. */
  predicate Uses(a: Script, w: string) {
    exists i :: 0 <= i < |w| && InScript(a, w[i])
  }

  /** `str.lower` on one character of the token alphabet: upper-case Latin and
      Cyrillic letters move 32 code points up; every other character is kept. */
  function LowerChar(c: char): (d: char)
    ensures !IsUpper(d)
    ensures forall a: Script :: InScript(a, d) <==> InScript(a, c)
    ensures !IsUpper(c) ==> d == c
  {
    if IsUpper(c) then (c as int + 32) as char else c
  }

  function Lower(w: string): (r: string)
    ensures |r| == |w|
  {
    seq(|w|, i requires 0 <= i < |w| => LowerChar(w[i]))
  }

  /** A word without upper-case letters is its own lower-cased form. */
  lemma LowerNoUpper(w: string)
    requires forall i :: 0 <= i < |w| ==> !IsUpper(w[i])
    ensures Lower(w) == w
  {
  }

  /** Lower-casing neither adds nor removes a letter of either alphabet. */
  lemma LowerKeepsScripts(a: Script, w: string)
    ensures Uses(a, Lower(w)) <==> Uses(a, w)
  {
    if Uses(a, w) {
      var i :| 0 <= i < |w| && InScript(a, w[i]);
      assert InScript(a, Lower(w)[i]);
    }
    if Uses(a, Lower(w)) {
      var i :| 0 <= i < |w| && InScript(a, Lower(w)[i]);
      assert InScript(a, w[i]);
    }
  }

  /** A token stays a token once lower-cased, and lower-casing twice changes nothing. */
  lemma LowerKeepsWord(w: string)
    ensures IsWord(w) ==> IsWord(Lower(w))
    ensures Lower(Lower(w)) == Lower(w)
  {
    if IsWord(w) {
      forall i | 0 <= i < |w| ensures IsWordChar(Lower(w)[i]) {
        assert InScript(Latin, w[i]) || InScript(Cyrillic, w[i]);
      }
    }
  }
}
