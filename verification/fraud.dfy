/** `detect_fraud`: a word is suspicious when both the Latin and the Cyrillic
    detector find a match in it. */
module Fraud {
  import opened Wrappers
  import opened Alphabet

  /** `re.search` with the detector `[A-Za-z]+` or `[А-Яа-я]+`: the position of
      the first match, or None. A match of the `+` pattern starts at the first
      character of the class, so its start is all that matters here. */
  function Search(a: Script, s: string): (r: Option<nat>)
    ensures r.Some? ==> r.value < |s| && InScript(a, s[r.value])
    ensures r.Some? ==> forall j :: 0 <= j < r.value ==> !InScript(a, s[j])
    ensures r.None? <==> !Uses(a, s)
  {
    if s == [] then None
    else if InScript(a, s[0]) then Some(0)
    else
      match Search(a, s[1..])
      case None => None
      case Some(i) => Some(i + 1)
  }

  /** The default `detectors` argument: the Latin detector, then the Cyrillic
      one; every alphabet has its detector, once. */
  function Detectors(): (ds: seq<Script>)
    ensures |ds| == 2 && Latin in ds && Cyrillic in ds
  {
    [Latin, Cyrillic]
  }

  /** `sum(d.search(string) is not None for d in detectors)` */
  function MatchCount(s: string, detectors: seq<Script>): (n: nat)
    ensures n <= |detectors|
    ensures n == |detectors| <==> forall k :: 0 <= k < |detectors| ==> Uses(detectors[k], s)
    ensures n == 0 <==> forall k :: 0 <= k < |detectors| ==> !Uses(detectors[k], s)
  {
    if detectors == [] then 0
    else (if Search(detectors[0], s).Some? then 1 else 0) + MatchCount(s, detectors[1..])
  }

  /** More than one alphabet is used in the same word. */
  function DetectFraud(s: string): (fraud: bool)
    ensures fraud <==> Uses(Latin, s) && Uses(Cyrillic, s)
  {
    MatchCount(s, Detectors()) > 1
  }

  /** The analyzer tests the lower-cased token; the verdict is the same as on the
      token as written. */
  lemma DetectFraudIgnoresCase(w: string)
    ensures DetectFraud(Lower(w)) == DetectFraud(w)
  {
    LowerKeepsScripts(Latin, w);
    LowerKeepsScripts(Cyrillic, w);
  }
}
