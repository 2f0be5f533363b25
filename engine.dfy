/**
 * The letter half of the page script as the object it is at run time: the
 * letter collections read at start-up and the `seenLetters` map that
 * `generateLetter` rewrites on every call (main.js:7-11, 72-73, 86-114).
 */
module Engine {
  import opened Wrappers
  import opened Random
  import opened Letters
  import opened Selection

  class LetterEngine {
    const letters: seq<Letter>
    const surprises: seq<Letter>
    var seenLetters: Seen

    /**
     * Start-up: `JSON.parse(localStorage.getItem('seenLetters')) || {}`.
     * `stored` is what the store holds, `None` when it holds nothing.
     */
    constructor (letters: seq<Letter>, surprises: seq<Letter>, stored: Option<Seen>)
      ensures this.letters == letters && this.surprises == surprises
      ensures seenLetters == if stored.Some? then stored.value else map[]
    {
      this.letters := letters;
      this.surprises := surprises;
      seenLetters := if stored.Some? then stored.value else map[];
    }

    /**
     * `generateLetter(moodId)`, where `rand` is what `Math.random()`
     * returned. The returned letter and the new map are the ones the
     * selection policy prescribes for the old map.
     */
    method GenerateLetter(moodId: MoodId, rand: real) returns (choice: Option<Letter>)
      requires IsRandom(rand)
      modifies this
      ensures Outcome(choice, seenLetters) == Select(old(seenLetters), moodId, PoolFor(letters, surprises, moodId), rand)
    {
      var pool: seq<Letter>;
      if moodId == Surprise {
        pool := surprises;
      } else {
        pool := MoodLetters(letters, moodId);
      }
      if |pool| == 0 {
        return None;
      }
      var seenForMood := if moodId in seenLetters then seenLetters[moodId] else [];
      var available := Unseen(pool, seenForMood);
      var letter;
      if |available| == 0 {
        // reset, then pick from the whole pool and mark it seen at once
        seenLetters := seenLetters[moodId := []];
        letter := pool[PickIndex(rand, |pool|)];
        seenLetters := seenLetters[moodId := [letter.id]];
      } else {
        letter := available[PickIndex(rand, |available|)];
        seenLetters := seenLetters[moodId := seenForMood + [letter.id]];
      }
      choice := Some(letter);
    }
  }
}
