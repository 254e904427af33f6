/** Building a list by walking a sequence and appending, for every element
    that passes a test, some image of it: the shape of both lists
    `process_document` accumulates. The test and the image may depend on a
    fixed context `c` (the language resources). */
module Selection {

  /** The images under `f` of the elements of `xs` that pass `keep`, in order. */
  function Select<C, T, U>(c: C, xs: seq<T>, keep: (C, T) -> bool, f: (C, T) -> U): (ys: seq<U>)
    ensures |ys| <= |xs|
  {
    if xs == [] then []
    else
      var last := xs[|xs| - 1];
      Select(c, xs[..|xs| - 1], keep, f) + (if keep(c, last) then [f(c, last)] else [])
  }

  lemma MemberOfSnoc<U>(s: seq<U>, x: U, b: bool, w: U)
    ensures w in s + (if b then [x] else []) <==> w in s || (b && w == x)
  {
  }

  /** Every selected value is the image of some element that passes. */
  lemma {:induction false} SelectWitness<C, T, U>(c: C, xs: seq<T>, keep: (C, T) -> bool, f: (C, T) -> U, u: U) returns (i: nat)
    requires u in Select(c, xs, keep, f)
    ensures i < |xs| && keep(c, xs[i]) && f(c, xs[i]) == u
  {
    var n := |xs| - 1;
    MemberOfSnoc(Select(c, xs[..n], keep, f), f(c, xs[n]), keep(c, xs[n]), u);
    if u in Select(c, xs[..n], keep, f) {
      i := SelectWitness(c, xs[..n], keep, f, u);
      assert xs[i] == xs[..n][i];
    } else {
      i := n;
    }
  }

  /** The image of every element that passes is selected. */
  lemma {:induction false} SelectHas<C, T, U>(c: C, xs: seq<T>, keep: (C, T) -> bool, f: (C, T) -> U, i: nat)
    requires i < |xs| && keep(c, xs[i])
    ensures f(c, xs[i]) in Select(c, xs, keep, f)
  {
    var n := |xs| - 1;
    MemberOfSnoc(Select(c, xs[..n], keep, f), f(c, xs[n]), keep(c, xs[n]), f(c, xs[i]));
    if i < n {
      assert xs[i] == xs[..n][i];
      SelectHas(c, xs[..n], keep, f, i);
    }
  }

  /** Exactly the images of the elements that pass are selected. */
  lemma SelectMembers<C, T, U>(c: C, xs: seq<T>, keep: (C, T) -> bool, f: (C, T) -> U, u: U)
    ensures u in Select(c, xs, keep, f) <==> exists i :: 0 <= i < |xs| && keep(c, xs[i]) && f(c, xs[i]) == u
  {
    if u in Select(c, xs, keep, f) {
      var i := SelectWitness(c, xs, keep, f, u);
    }
    if exists i :: 0 <= i < |xs| && keep(c, xs[i]) && f(c, xs[i]) == u {
      var i :| 0 <= i < |xs| && keep(c, xs[i]) && f(c, xs[i]) == u;
      SelectHas(c, xs, keep, f, i);
    }
  }

  /** The positions of the elements that pass. */
  function Positions<C, T>(c: C, xs: seq<T>, keep: (C, T) -> bool): set<nat> {
    set i: nat | i < |xs| && keep(c, xs[i])
  }

  lemma PositionsSnoc<C, T>(c: C, xs: seq<T>, keep: (C, T) -> bool)
    requires xs != []
    ensures var n := |xs| - 1;
      Positions(c, xs, keep) == Positions(c, xs[..n], keep) + (if keep(c, xs[n]) then {n} else {})
  {
    var n := |xs| - 1;
    var before, after := Positions(c, xs[..n], keep), Positions(c, xs, keep);
    var last: set<nat> := if keep(c, xs[n]) then {n} else {};
    forall i: nat | i in after ensures i in before + last {
      if i < n {
        assert xs[..n][i] == xs[i];
      }
    }
    forall i: nat | i in before + last ensures i in after {
      if i < n {
        assert xs[..n][i] == xs[i];
      }
    }
  }

  /** One value is selected per element that passes. */
  lemma {:induction false} SelectLength<C, T, U>(c: C, xs: seq<T>, keep: (C, T) -> bool, f: (C, T) -> U)
    ensures |Select(c, xs, keep, f)| == |Positions(c, xs, keep)|
  {
    if xs != [] {
      var n := |xs| - 1;
      SelectLength(c, xs[..n], keep, f);
      PositionsSnoc(c, xs, keep);
      var before := Positions(c, xs[..n], keep);
      assert n !in before;
      if keep(c, xs[n]) {
        assert |before + {n}| == |before| + 1;
      } else {
        assert before + {} == before;
      }
    }
  }

  /** Every selected value is the image of an element that passes. */
  lemma SelectImages<C, T, U>(c: C, xs: seq<T>, keep: (C, T) -> bool, f: (C, T) -> U)
    ensures forall u :: u in Select(c, xs, keep, f) ==>
      exists i :: 0 <= i < |xs| && keep(c, xs[i]) && f(c, xs[i]) == u
  {
    forall u | u in Select(c, xs, keep, f)
      ensures exists i :: 0 <= i < |xs| && keep(c, xs[i]) && f(c, xs[i]) == u
    {
      var i := SelectWitness(c, xs, keep, f, u);
    }
  }

  /** The positions of the elements that pass and map to `u`. */
  ghost function Hits<C, T, U>(c: C, xs: seq<T>, keep: (C, T) -> bool, f: (C, T) -> U, u: U): set<nat> {
    set i: nat | i < |xs| && keep(c, xs[i]) && f(c, xs[i]) == u
  }

  lemma HitsSnoc<C, T, U>(c: C, xs: seq<T>, keep: (C, T) -> bool, f: (C, T) -> U, u: U)
    requires xs != []
    ensures var n := |xs| - 1;
      Hits(c, xs, keep, f, u)
        == Hits(c, xs[..n], keep, f, u) + (if keep(c, xs[n]) && f(c, xs[n]) == u then {n} else {})
  {
    var n := |xs| - 1;
    var before, after := Hits(c, xs[..n], keep, f, u), Hits(c, xs, keep, f, u);
    var last: set<nat> := if keep(c, xs[n]) && f(c, xs[n]) == u then {n} else {};
    forall i: nat | i in after ensures i in before + last {
      if i < n {
        assert xs[..n][i] == xs[i];
      }
    }
    forall i: nat | i in before + last ensures i in after {
      if i < n {
        assert xs[..n][i] == xs[i];
      }
    }
  }

  /** Each value occurs in the list once per element that passes and maps to it. */
  lemma {:induction false} SelectCount<C, T, U>(c: C, xs: seq<T>, keep: (C, T) -> bool, f: (C, T) -> U, u: U)
    ensures multiset(Select(c, xs, keep, f))[u] == |Hits(c, xs, keep, f, u)|
  {
    if xs == [] {
      assert Hits(c, xs, keep, f, u) == {};
    } else {
      var n := |xs| - 1;
      var init := Select(c, xs[..n], keep, f);
      var last := if keep(c, xs[n]) then [f(c, xs[n])] else [];
      SelectCount(c, xs[..n], keep, f, u);
      HitsSnoc(c, xs, keep, f, u);
      assert multiset(init + last) == multiset(init) + multiset(last);
      var before := Hits(c, xs[..n], keep, f, u);
      assert n !in before;
      if keep(c, xs[n]) && f(c, xs[n]) == u {
        assert |before + {n}| == |before| + 1;
      } else {
        assert before + {} == before;
      }
    }
  }
}
