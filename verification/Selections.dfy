/** Part of a sequence: some of its elements, in order, each where it stood. */
module Selections {

  predicate Increasing(js: seq<int>) {
    forall i, j :: 0 <= i < j < |js| ==> js[i] < js[j]
  }

  /** `part` is what stands at the positions `js` of `whole`. */
  predicate Picks<T(==)>(whole: seq<T>, js: seq<int>, part: seq<T>) {
    |part| == |js| && forall k :: 0 <= k < |js| ==> 0 <= js[k] < |whole| && part[k] == whole[js[k]]
  }

  /** The same, from left to right. */
  predicate Selects<T(==)>(whole: seq<T>, js: seq<int>, part: seq<T>) {
    Increasing(js) && Picks(whole, js, part)
  }

  /** One more position behind the others. */
  lemma OneMore(js: seq<int>, n: int)
    requires Increasing(js) && forall i :: i in js ==> i < n
    ensures Increasing(js + [n])
    ensures forall i :: i in js + [n] <==> i in js || i == n
  {
    assert forall k :: 0 <= k < |js| ==> js[k] in js;
  }

  lemma SelectsMore<T>(whole: seq<T>, js: seq<int>, part: seq<T>, last: T)
    requires Selects(whole, js, part)
    ensures Selects(whole + [last], js, part)
    ensures Selects(whole + [last], js + [|whole|], part + [last])
  {
  }

  // ---- All elements with a property ---------------------------------------------------------------

  /** The positions below `n` of the elements with a property. */
  ghost function PositionsBelow<T(!new)>(whole: seq<T>, property: T -> bool, n: nat): seq<int>
    requires n <= |whole|
  {
    if n == 0 then []
    else PositionsBelow(whole, property, n - 1) + if property(whole[n - 1]) then [n - 1] else []
  }

  ghost predicate AllBelow(js: seq<int>, n: int) {
    forall k :: 0 <= k < |js| ==> 0 <= js[k] < n
  }

  ghost predicate AllHave<T(!new)>(whole: seq<T>, property: T -> bool, js: seq<int>) {
    AllBelow(js, |whole|) && forall k :: 0 <= k < |js| ==> property(whole[js[k]])
  }

  ghost predicate NoneMissing<T(!new)>(whole: seq<T>, property: T -> bool, js: seq<int>, n: int) {
    forall i :: 0 <= i < n && i < |whole| && property(whole[i]) ==> i in js
  }

  /** The positions of the elements with this property, all of them, from left to right. */
  ghost predicate Positions<T(!new)>(whole: seq<T>, property: T -> bool, js: seq<int>) {
    Increasing(js) && AllHave(whole, property, js) && NoneMissing(whole, property, js, |whole|)
  }

  lemma {:induction false} PositionsRise<T(!new)>(whole: seq<T>, property: T -> bool, n: nat)
    requires n <= |whole|
    ensures Increasing(PositionsBelow(whole, property, n)) && AllBelow(PositionsBelow(whole, property, n), n)
  {
    if n > 0 {
      PositionsRise(whole, property, n - 1);
    }
  }

  lemma {:induction false} PositionsHave<T(!new)>(whole: seq<T>, property: T -> bool, n: nat)
    requires n <= |whole|
    ensures AllHave(whole, property, PositionsBelow(whole, property, n))
  {
    if n > 0 {
      PositionsHave(whole, property, n - 1);
    }
  }

  lemma {:induction false} PositionsMissNone<T(!new)>(whole: seq<T>, property: T -> bool, n: nat, i: nat)
    requires i < n <= |whole| && property(whole[i])
    ensures i in PositionsBelow(whole, property, n)
  {
    var front := PositionsBelow(whole, property, n - 1);
    if i < n - 1 {
      PositionsMissNone(whole, property, n - 1, i);
    } else {
      assert (front + [n - 1])[|front|] == i;
    }
  }

  lemma PositionsMean<T(!new)>(whole: seq<T>, property: T -> bool)
    ensures Positions(whole, property, PositionsBelow(whole, property, |whole|))
  {
    PositionsRise(whole, property, |whole|);
    PositionsHave(whole, property, |whole|);
    forall i | 0 <= i < |whole| && property(whole[i]) ensures i in PositionsBelow(whole, property, |whole|) {
      PositionsMissNone(whole, property, |whole|, i);
    }
  }

  /** `part` is made of the elements of `whole` with this property, all of them, in order. */
  ghost predicate SelectsThose<T(!new)>(whole: seq<T>, property: T -> bool, js: seq<int>, part: seq<T>) {
    Picks(whole, js, part) && Positions(whole, property, js)
  }

  lemma PicksNext<T(!new)>(whole: seq<T>, property: T -> bool, n: nat, part: seq<T>)
    requires n < |whole| && Picks(whole, PositionsBelow(whole, property, n), part)
    ensures Picks(whole, PositionsBelow(whole, property, n + 1), part + if property(whole[n]) then [whole[n]] else [])
  {
  }

  // ---- Cuts -----------------------------------------------------------------------------------------

  /** Cut points: from 0 to `n`, strictly rising. */
  predicate Cuts(cuts: seq<int>, n: nat) {
    && |cuts| > 0 && cuts[0] == 0 && cuts[|cuts| - 1] == n
    && Increasing(cuts)
  }
}
