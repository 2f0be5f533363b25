/**
 * The content the letter engine draws from (main.js, lines 7-11 and 86-97):
 * the mood letters, the separate surprise letters, and the pools and
 * candidate lists derived from them by filtering.
 */
module Letters {
  import opened Wrappers
  import opened Sequences

  type LetterId = int
  type MoodId = string

  /** The reserved mood that draws from the surprise collection. */
  const Surprise: MoodId := "surprise"

  /**
   * A letter as the page data supplies it. Surprise letters need not carry a
   * mood, so `moodId` is optional; `memory` is the optional annotation.
   */
  datatype Letter = Letter(id: LetterId, moodId: Option<MoodId>, text: string, memory: Option<string>)

  /** The ids of a list of letters, in order. */
  function Ids(pool: seq<Letter>): (ids: seq<LetterId>)
    ensures |ids| == |pool|
    ensures forall i :: 0 <= i < |pool| ==> ids[i] == pool[i].id
  {
    seq(|pool|, i requires 0 <= i < |pool| => pool[i].id)
  }

  lemma IdsCons(l: Letter, pool: seq<Letter>)
    ensures Ids([l] + pool) == [l.id] + Ids(pool)
  {
  }

  /** `letters.filter(l => l.moodId === moodId)` (main.js:91). */
  function MoodLetters(letters: seq<Letter>, moodId: MoodId): (pool: seq<Letter>)
    ensures forall l :: l in pool <==> l in letters && l.moodId == Some(moodId)
    ensures IsSubsequence(pool, letters)
  {
    if letters == [] then []
    else if letters[0].moodId == Some(moodId) then [letters[0]] + MoodLetters(letters[1..], moodId)
    else MoodLetters(letters[1..], moodId)
  }

  /** The pool for a mood: the surprise collection for the sentinel, the matching letters otherwise (main.js:87-92). */
  function PoolFor(letters: seq<Letter>, surprises: seq<Letter>, moodId: MoodId): (pool: seq<Letter>)
    ensures moodId == Surprise ==> pool == surprises
    ensures moodId != Surprise ==> forall l :: l in pool <==> l in letters && l.moodId == Some(moodId)
    ensures moodId != Surprise ==> IsSubsequence(pool, letters)
  {
    if moodId == Surprise then surprises else MoodLetters(letters, moodId)
  }

  /** `pool.filter(l => !seenForMood.includes(l.id))` (main.js:97). */
  function Unseen(pool: seq<Letter>, seenForMood: seq<LetterId>): (available: seq<Letter>)
    ensures forall l :: l in available <==> l in pool && l.id !in seenForMood
    ensures IsSubsequence(available, pool)
  {
    if pool == [] then []
    else if pool[0].id !in seenForMood then [pool[0]] + Unseen(pool[1..], seenForMood)
    else Unseen(pool[1..], seenForMood)
  }

  /** Filtering by mood keeps order: it distributes over concatenation and keeps exactly the matching letters. */
  lemma {:induction false} MoodLettersAppend(a: seq<Letter>, b: seq<Letter>, moodId: MoodId)
    ensures MoodLetters(a + b, moodId) == MoodLetters(a, moodId) + MoodLetters(b, moodId)
  {
    if a == [] {
      assert a + b == b;
    } else {
      assert (a + b)[1..] == a[1..] + b;
      MoodLettersAppend(a[1..], b, moodId);
    }
  }

  /** Removing the seen letters keeps order: it distributes over concatenation. */
  lemma {:induction false} UnseenAppend(a: seq<Letter>, b: seq<Letter>, seenForMood: seq<LetterId>)
    ensures Unseen(a + b, seenForMood) == Unseen(a, seenForMood) + Unseen(b, seenForMood)
  {
    if a == [] {
      assert a + b == b;
    } else {
      assert (a + b)[1..] == a[1..] + b;
      UnseenAppend(a[1..], b, seenForMood);
    }
  }
}
