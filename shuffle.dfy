/**
 * The `shuffle` helper of main.js (lines 76-84): Fisher-Yates, run in place
 * from the last position down. It is defined there but never called.
 */
module Shuffle {
  import opened Random

  /** Every draw is a value `Math.random()` may return. */
  predicate AllRandom(rands: seq<real>) {
    forall k :: 0 <= k < |rands| ==> IsRandom(rands[k])
  }

  /** Step `k` of a shuffle of `n` elements may pick any of the `n - k` positions still open. */
  predicate ValidPicks(picks: seq<nat>, n: nat) {
    |picks| == n && forall k :: 0 <= k < n ==> picks[k] < n - k
  }

  /** The positions the loop swaps with, one per step: `Math.floor(Math.random() * currentIndex)`. */
  function Picks(rands: seq<real>): (picks: seq<nat>)
    requires AllRandom(rands)
    ensures ValidPicks(picks, |rands|)
  {
    seq(|rands|, k requires 0 <= k < |rands| => PickIndex(rands[k], |rands| - k))
  }

  /** `s` with the elements at `i` and `j` exchanged. */
  function Swap<T>(s: seq<T>, i: nat, j: nat): (r: seq<T>)
    requires i < |s| && j < |s|
    ensures |r| == |s|
  {
    s[i := s[j]][j := s[i]]
  }

  /**
   * The rest of the shuffle once only the first `current` positions are still
   * open: the next step exchanges position `current - 1` with the position
   * `picks[|s| - current]`.
   */
  function ShuffleFrom<T>(s: seq<T>, picks: seq<nat>, current: nat): (r: seq<T>)
    requires current <= |s| && ValidPicks(picks, |s|)
    ensures |r| == |s|
    decreases current
  {
    if current == 0 then s
    else ShuffleFrom(Swap(s, current - 1, picks[|s| - current]), picks, current - 1)
  }

  /** A swap exchanges the two positions and leaves every other one alone. */
  lemma SwapExchanges<T>(s: seq<T>, i: nat, j: nat)
    requires i < |s| && j < |s|
    ensures Swap(s, i, j)[i] == s[j] && Swap(s, i, j)[j] == s[i]
    ensures forall k :: 0 <= k < |s| && k != i && k != j ==> Swap(s, i, j)[k] == s[k]
  {
  }

  /** A swap keeps the multiset of elements. */
  lemma SwapPermutes<T>(s: seq<T>, i: nat, j: nat)
    requires i < |s| && j < |s|
    ensures multiset(Swap(s, i, j)) == multiset(s)
  {
  }

  lemma ShuffleFromStep<T>(s: seq<T>, picks: seq<nat>, current: nat)
    requires 0 < current <= |s| && ValidPicks(picks, |s|)
    ensures ShuffleFrom(s, picks, current) == ShuffleFrom(Swap(s, current - 1, picks[|s| - current]), picks, current - 1)
  {
  }

  /** The shuffle is a permutation: it keeps every element, as often as it occurs. */
  lemma {:induction false} ShufflePermutes<T>(s: seq<T>, picks: seq<nat>, current: nat)
    requires current <= |s| && ValidPicks(picks, |s|)
    ensures multiset(ShuffleFrom(s, picks, current)) == multiset(s)
    decreases current
  {
    if current == 0 {
      return;
    }
    var t := Swap(s, current - 1, picks[|s| - current]);
    ShuffleFromStep(s, picks, current);
    ShufflePermutes(t, picks, current - 1);
    SwapPermutes(s, current - 1, picks[|s| - current]);
  }

  /** Positions already filled stay as they are for the rest of the shuffle. */
  lemma {:induction false} ShuffleKeepsPlaced<T>(s: seq<T>, picks: seq<nat>, current: nat, k: nat)
    requires current <= k < |s| && ValidPicks(picks, |s|)
    ensures ShuffleFrom(s, picks, current)[k] == s[k]
    decreases current
  {
    if current > 0 {
      var t := Swap(s, current - 1, picks[|s| - current]);
      ShuffleFromStep(s, picks, current);
      ShuffleKeepsPlaced(t, picks, current - 1, k);
      assert t[k] == s[k];
    }
  }

  /**
   * `shuffle(array)`, where the i-th call of `Math.random()` returned
   * `rands[i]`: the same array comes back, rearranged by those draws.
   */
  method Shuffle<T>(a: array<T>, rands: seq<real>) returns (r: array<T>)
    requires |rands| == a.Length && AllRandom(rands)
    modifies a
    ensures r == a
    ensures a[..] == ShuffleFrom(old(a[..]), Picks(rands), a.Length)
    ensures multiset(a[..]) == multiset(old(a[..]))
  {
    ghost var picks := Picks(rands);
    var currentIndex := a.Length;
    while currentIndex != 0
      invariant 0 <= currentIndex <= a.Length
      invariant ShuffleFrom(a[..], picks, currentIndex) == ShuffleFrom(old(a[..]), picks, a.Length)
    {
      var randomIndex := PickIndex(rands[a.Length - currentIndex], currentIndex);
      assert randomIndex == picks[a.Length - currentIndex];
      ghost var before := a[..];
      currentIndex := currentIndex - 1;
      a[currentIndex], a[randomIndex] := a[randomIndex], a[currentIndex];
      assert a[..] == Swap(before, currentIndex, randomIndex);
      ShuffleFromStep(before, picks, currentIndex + 1);
    }
    ShufflePermutes(old(a[..]), picks, a.Length);
    return a;
  }
}
