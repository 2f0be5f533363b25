/**
 * The letter selection policy of `generateLetter` (main.js:86-114) as a
 * function of the seen-letters map, the requested mood, that mood's pool and
 * the value `Math.random()` returned: no letter is repeated for a mood until
 * its whole pool has been shown, and then the mood's history restarts.
 */
module Selection {
  import opened Wrappers
  import opened Random
  import opened Sequences
  import opened Letters

  /** The `seenLetters` map: for each mood, the ids shown in its current cycle. */
  type Seen = map<MoodId, seq<LetterId>>

  /** What one call produces: the letter (or `null`) and the new map. */
  datatype Outcome = Outcome(choice: Option<Letter>, seen: Seen)

  /** `seenLetters[moodId] || []` (main.js:96). */
  function SeenFor(seen: Seen, moodId: MoodId): (seenForMood: seq<LetterId>)
    ensures moodId in seen ==> seenForMood == seen[moodId]
    ensures moodId !in seen ==> seenForMood == []
  {
    if moodId in seen then seen[moodId] else []
  }

  /** Some letter of the pool has not been shown in the mood's current cycle. */
  ghost predicate HasUnseen(seen: Seen, moodId: MoodId, pool: seq<Letter>) {
    exists l :: l in pool && l.id !in SeenFor(seen, moodId)
  }

  /**
   * One call of `generateLetter` for `moodId` whose pool is `pool`
   * (main.js:94-113). The intermediate write of `[]` at line 102 is
   * overwritten before anything reads it, so only the final map appears.
   */
  function Select(seen: Seen, moodId: MoodId, pool: seq<Letter>, rand: real): (o: Outcome)
    requires IsRandom(rand)
    // an empty pool yields `null` and leaves the map alone
    ensures pool == [] ==> o == Outcome(None, seen)
    // otherwise the pick is always a letter of the pool
    ensures pool != [] ==> o.choice.Some? && o.choice.value in pool && moodId in o.seen
    // only the requested mood's entry is written
    ensures o.seen - {moodId} == seen - {moodId}
    // normal branch: an unseen letter, whose id is appended to the mood's list
    ensures HasUnseen(seen, moodId, pool) ==>
              o.choice.Some? && o.choice.value.id !in SeenFor(seen, moodId) &&
              SeenFor(o.seen, moodId) == SeenFor(seen, moodId) + [o.choice.value.id]
    // exhaustion branch: any letter of the pool, and the list restarts with it
    ensures pool != [] && !HasUnseen(seen, moodId, pool) ==>
              SeenFor(o.seen, moodId) == [o.choice.value.id]
    // appending an unseen id keeps the list free of repeats
    ensures NoDuplicates(SeenFor(seen, moodId)) ==> NoDuplicates(SeenFor(o.seen, moodId))
  {
    if pool == [] then Outcome(None, seen)
    else
      var seenForMood := SeenFor(seen, moodId);
      var available := Unseen(pool, seenForMood);
      if available == [] then
        var choice := pool[PickIndex(rand, |pool|)];
        Outcome(Some(choice), seen[moodId := [choice.id]])
      else
        var choice := available[PickIndex(rand, |available|)];
        Outcome(Some(choice), seen[moodId := seenForMood + [choice.id]])
  }

  /** The mood's list holds distinct ids, each the id of some letter of the pool. */
  ghost predicate SeenWithinPool(seen: Seen, moodId: MoodId, pool: seq<Letter>) {
    NoDuplicates(SeenFor(seen, moodId)) &&
    forall id :: id in SeenFor(seen, moodId) ==> id in Ids(pool)
  }

  /** Every call keeps the mood's list within the pool, never longer than the pool. */
  lemma SelectKeepsSeenWithinPool(seen: Seen, moodId: MoodId, pool: seq<Letter>, rand: real)
    requires IsRandom(rand)
    requires SeenWithinPool(seen, moodId, pool)
    ensures SeenWithinPool(Select(seen, moodId, pool, rand).seen, moodId, pool)
    ensures |SeenFor(Select(seen, moodId, pool, rand).seen, moodId)| <= |pool|
  {
    var o := Select(seen, moodId, pool, rand);
    if pool != [] {
      var before, after, l := SeenFor(seen, moodId), SeenFor(o.seen, moodId), o.choice.value;
      assert after == before + [l.id] || after == [l.id];
      GrowWithinPool(before, after, l, pool);
    } else {
      var before := SeenFor(seen, moodId);
      forall id | id in before ensures id in Ids(pool) { }
      DistinctWithin(before, Ids(pool));
    }
  }

  /** The list after a pick is either the list before plus the pick's id, or just that id. */
  lemma GrowWithinPool(before: seq<LetterId>, after: seq<LetterId>, l: Letter, pool: seq<Letter>)
    requires l in pool
    requires forall id :: id in before ==> id in Ids(pool)
    requires after == before + [l.id] || after == [l.id]
    requires NoDuplicates(after)
    ensures forall id :: id in after ==> id in Ids(pool)
    ensures |after| <= |pool|
  {
    ChoiceIdInPool(l, pool);
    assert forall id :: id in after ==> id in Ids(pool) by {
      forall id | id in after ensures id in Ids(pool) {
        assert id in before || id == l.id;
      }
    }
    DistinctWithin(after, Ids(pool));
  }

  lemma ChoiceIdInPool(l: Letter, pool: seq<Letter>)
    requires l in pool
    ensures l.id in Ids(pool)
  {
    var i :| 0 <= i < |pool| && pool[i] == l;
    assert Ids(pool)[i] == l.id;
  }

  /** What a series of calls for one mood produces: the letters picked, in order, and the final map. */
  datatype Run = Run(picks: seq<Letter>, seen: Seen)

  /** Successive calls for `moodId`, the i-th of which sees `rands[i]` from `Math.random()`. */
  function Calls(seen: Seen, moodId: MoodId, pool: seq<Letter>, rands: seq<real>): (r: Run)
    requires pool != []
    requires forall i :: 0 <= i < |rands| ==> IsRandom(rands[i])
    ensures |r.picks| == |rands|
    ensures forall l :: l in r.picks ==> l in pool
    decreases |rands|
  {
    if rands == [] then Run([], seen)
    else
      var o := Select(seen, moodId, pool, rands[0]);
      var rest := Calls(o.seen, moodId, pool, rands[1..]);
      Run([o.choice.value] + rest.picks, rest.seen)
  }

  /**
   * While fewer calls are made than the pool has unseen letters, every call
   * takes the normal branch: each pick is new and is appended to the list.
   */
  lemma {:induction false} CallsAppendUnseen(seen: Seen, moodId: MoodId, pool: seq<Letter>, rands: seq<real>)
    requires pool != []
    requires forall i :: 0 <= i < |rands| ==> IsRandom(rands[i])
    requires NoDuplicates(Ids(pool))
    requires SeenWithinPool(seen, moodId, pool)
    requires |SeenFor(seen, moodId)| + |rands| <= |pool|
    ensures SeenFor(Calls(seen, moodId, pool, rands).seen, moodId) == SeenFor(seen, moodId) + Ids(Calls(seen, moodId, pool, rands).picks)
    ensures SeenWithinPool(Calls(seen, moodId, pool, rands).seen, moodId, pool)
    decreases |rands|
  {
    var r := Calls(seen, moodId, pool, rands);
    var before := SeenFor(seen, moodId);
    if rands == [] {
      assert Ids(r.picks) == [];
    } else {
      var o := Select(seen, moodId, pool, rands[0]);
      var l := o.choice.value;
      NextCallAppends(seen, moodId, pool, rands[0]);
      CallsAppendUnseen(o.seen, moodId, pool, rands[1..]);
      var rest := Calls(o.seen, moodId, pool, rands[1..]);
      assert r == Run([l] + rest.picks, rest.seen);
      IdsCons(l, rest.picks);
      AppendAssociative(before, [l.id], Ids(rest.picks));
    }
  }

  /** While the list is shorter than the pool, a call appends the id of the letter it picks. */
  lemma NextCallAppends(seen: Seen, moodId: MoodId, pool: seq<Letter>, rand: real)
    requires IsRandom(rand)
    requires NoDuplicates(Ids(pool))
    requires SeenWithinPool(seen, moodId, pool)
    requires |SeenFor(seen, moodId)| < |pool|
    ensures Select(seen, moodId, pool, rand).choice.Some?
    ensures SeenFor(Select(seen, moodId, pool, rand).seen, moodId)
         == SeenFor(seen, moodId) + [Select(seen, moodId, pool, rand).choice.value.id]
    ensures SeenWithinPool(Select(seen, moodId, pool, rand).seen, moodId, pool)
  {
    UnseenRemains(seen, moodId, pool);
    SelectKeepsSeenWithinPool(seen, moodId, pool, rand);
  }

  /** A list shorter than the pool, kept within it, leaves some letter unseen. */
  lemma UnseenRemains(seen: Seen, moodId: MoodId, pool: seq<Letter>)
    requires NoDuplicates(Ids(pool))
    requires SeenWithinPool(seen, moodId, pool)
    requires |SeenFor(seen, moodId)| < |pool|
    ensures HasUnseen(seen, moodId, pool)
  {
    var i := MissedIndex(SeenFor(seen, moodId), Ids(pool));
    UnseenAt(seen, moodId, pool, i);
  }

  lemma UnseenAt(seen: Seen, moodId: MoodId, pool: seq<Letter>, i: nat)
    requires i < |pool| && Ids(pool)[i] !in SeenFor(seen, moodId)
    ensures HasUnseen(seen, moodId, pool)
  {
    assert pool[i] in pool;
  }

  /**
   * No repeats until exhaustion, then a reset: starting from an empty list,
   * as many calls as the pool has letters return every letter's id exactly
   * once, and the call after that picks from the whole pool and restarts the
   * list with that one id.
   */
  lemma EveryLetterOnceThenReset(seen: Seen, moodId: MoodId, pool: seq<Letter>, rands: seq<real>, next: real)
    requires pool != []
    requires forall i :: 0 <= i < |rands| ==> IsRandom(rands[i])
    requires IsRandom(next)
    requires NoDuplicates(Ids(pool))
    requires SeenFor(seen, moodId) == []
    requires |rands| == |pool|
    ensures multiset(Ids(Calls(seen, moodId, pool, rands).picks)) == multiset(Ids(pool))
    ensures SeenFor(Calls(seen, moodId, pool, rands).seen, moodId) == Ids(Calls(seen, moodId, pool, rands).picks)
    ensures Select(Calls(seen, moodId, pool, rands).seen, moodId, pool, next).choice.Some?
    ensures Select(Calls(seen, moodId, pool, rands).seen, moodId, pool, next).choice.value in pool
    ensures SeenFor(Select(Calls(seen, moodId, pool, rands).seen, moodId, pool, next).seen, moodId)
         == [Select(Calls(seen, moodId, pool, rands).seen, moodId, pool, next).choice.value.id]
  {
    var r := Calls(seen, moodId, pool, rands);
    CallsAppendUnseen(seen, moodId, pool, rands);
    assert SeenFor(r.seen, moodId) == Ids(r.picks);
    SameValues(Ids(r.picks), Ids(pool));
    assert !HasUnseen(r.seen, moodId, pool) by {
      forall l | l in pool ensures l.id in Ids(r.picks) {
        ChoiceIdInPool(l, pool);
        assert l.id in multiset(Ids(pool));
      }
    }
  }
}
