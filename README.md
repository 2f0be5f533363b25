# Letter selection engine of the commemorative page script

A Dafny model of the letter picker in `assets/js/main.js`, the script of a small personal commemorative web page. A visitor presses a mood button, and the page shows a letter for that mood. No letter of that mood repeats until every letter in its pool has been shown. Then the mood's history starts again. The ids already shown are kept per mood in the `seenLetters` map. The page saves this map in the browser's local storage, so it survives reloads.

The model covers:

- **Letters** (`letters.dfy`). The `Letter` record. The pool for a mood: the surprise collection for the reserved mood `"surprise"`, and otherwise the letters tagged with that mood, in their original order. The candidates a pool still offers, i.e. its letters whose id is not yet in the mood's seen list.
- **Selection** (`selection.dfy`). One call of `generateLetter` as a function of the old map, the mood, the pool and the number `Math.random()` returned. This function is `Select`. The file also proves what a series of calls does: with distinct ids and an empty start, as many calls as the pool has letters show each letter exactly once, and the next call picks from the whole pool and resets the list to that one id.
- **Engine** (`engine.dfy`). The running script as an object. It holds the loaded collections and the `seenLetters` map. Its `GenerateLetter` method updates the map in place and is proved to do exactly what `Select` prescribes.
- **Shuffle** (`shuffle.dfy`). The in-place Fisher–Yates `shuffle` helper, which the script defines but never calls. It is proved to return the same array, holding a permutation of its old contents.
- **Caption** (`caption.dfy`). The date/place line that the photo lightbox shows.
- **Random** (`random.dfy`). `Math.floor(Math.random() * n)`, the only way the script turns randomness into an index. The random number is a parameter `rand` with `0 <= rand < 1`, which is all that `Math.random()` promises. The index is the floor of `rand * n`, and it is proved to lie in `[0, n)` for every such `rand`. So every pick is a member of its intended candidate list, whatever the random source returns.

## Model

| member | source | states |
|---|---|---|
| `Random.PickIndex` | assets/js/main.js:104-108 | `Math.floor(Math.random() * n)` is a valid index into any non-empty candidate list of length `n` |
| `Letters.MoodLetters` | assets/js/main.js:91 | a letter is in the mood's pool exactly when it is one of the letters and its `moodId` equals the mood; the pool keeps the letters' original order |
| `Letters.MoodLettersAppend` | assets/js/main.js:91 | filtering by mood distributes over concatenation, so the pool lists the matching letters in their original order, with every occurrence kept |
| `Letters.PoolFor` | assets/js/main.js:87-92 | the pool for `"surprise"` is exactly the surprise collection; for any other mood it holds exactly the letters tagged with that mood, in order |
| `Letters.Unseen` | assets/js/main.js:97 | a letter is a candidate exactly when it is in the pool and its id is not in the mood's seen list; candidates keep pool order |
| `Letters.UnseenAppend` | assets/js/main.js:97 | removing seen letters distributes over concatenation, so the order of the pool is kept |
| `Selection.SeenFor` | assets/js/main.js:96 | the mood's list is its entry in the map, or the empty list when the map has no entry for the mood |
| `Selection.Select` | assets/js/main.js:94-113 | empty pool: `null`, map unchanged; otherwise the pick is a letter of the pool; only the mood's own entry changes; when a letter is unseen, the pick is unseen and its id is appended to the list; when all are seen, the list becomes just the pick's id; a duplicate-free list stays duplicate-free |
| `Selection.SelectKeepsSeenWithinPool` | assets/js/main.js:96-110 | if the mood's list is duplicate-free and holds only ids of the pool, it still does after a call, and it is never longer than the pool |
| `Selection.NextCallAppends` | assets/js/main.js:96-109 | while the list is shorter than a pool with distinct ids, a call always takes the normal branch and appends the picked id |
| `Selection.Calls` | assets/js/main.js:153-158 | a series of "next" presses yields one letter per press, each a letter of the pool |
| `Selection.CallsAppendUnseen` | assets/js/main.js:96-109 | as long as the calls do not outnumber the unseen letters, the list afterwards is the list before followed by the ids picked, and it stays duplicate-free and within the pool |
| `Selection.EveryLetterOnceThenReset` | assets/js/main.js:96-110 | from an empty list, `|pool|` calls pick every id of the pool exactly once (same multiset), the list then holds exactly those ids, and the next call picks a letter of the whole pool and resets the list to that one id |
| `Engine.LetterEngine.constructor` | assets/js/main.js:73 | the map starts as the stored one, or empty when nothing is stored |
| `Engine.LetterEngine.GenerateLetter` | assets/js/main.js:86-114 | the returned letter and the new `seenLetters` map are exactly those `Select` prescribes for the old map and the mood's pool |
| `Shuffle.Picks` | assets/js/main.js:79 | at step `k` of a shuffle of `n` elements, the random position is below `n - k`, so it is one of the positions still open |
| `Shuffle.Swap` | assets/js/main.js:81 | the destructuring swap keeps the length of the array |
| `Shuffle.SwapExchanges` | assets/js/main.js:81 | the destructuring swap exchanges the two positions and leaves every other position alone |
| `Shuffle.SwapPermutes` | assets/js/main.js:81 | the destructuring swap keeps the multiset of elements |
| `Shuffle.ShuffleFrom` | assets/js/main.js:78-82 | the `while` loop from the point where `current` positions are still open, one swap per step down to zero; the result has the input's length, and it is the reference the in-place `Shuffle` is proved equal to |
| `Shuffle.ShufflePermutes` | assets/js/main.js:76-84 | the shuffle keeps every element exactly as often as it occurs |
| `Shuffle.ShuffleKeepsPlaced` | assets/js/main.js:78-82 | once the loop has moved past a position, that position never changes again |
| `Shuffle.Shuffle` | assets/js/main.js:76-84 | returns the same array, whose contents are the draws' shuffle of the old contents and a permutation of them |
| `Caption.Present` | assets/js/main.js:36-37 | a date or place is truthy exactly when it is a string with at least one character |
| `Caption.MetaText` | assets/js/main.js:36-37 | the date alone when there is no place; the place alone when there is no date; the date, the separator and the place when both exist; empty exactly when neither exists |

## Left out

- The DOM work is not modelled: the lightbox, class toggles, scroll locking, `showLetter` rendering, the mood buttons' active state and the event wiring. Neither is the `currentMood` variable that the "next" button reads. This is presentation with nothing to state beyond the engine.
- `localStorage` and JSON are not modelled. The persisted state is the in-memory map. The write at line 103 of the intermediate `[]` is overwritten before anything reads it. Only the final map is modelled, although `GenerateLetter` performs both assignments.
- A malformed stored payload is not modelled. `JSON.parse` would throw at line 73, and the script has no guard for it. The model therefore claims no "corruption falls back to empty" behaviour. A stored `null` (nothing stored) does fall back to the empty map, and the constructor models that.
- The distribution of `Math.random()` is not modelled. Uniformity is left out; only the range `[0, 1)` is used.
- The novelty effects are not modelled: the "butt mode" emoji rain, the cursor trail and the click pop-ups. They are timers, animation and cosmetic randomness.
- Copying to the clipboard is not modelled. It is an asynchronous browser API.
- The random letter image in `showLetter` (line 129) is not modelled. It is cosmetic.
- The photo lookup `photos.find(p => p.id == id)` in `openModal` is not modelled. Only the caption text it leads to is.
- Letter ids are modelled as integers and moods as strings. A mood button without a `data-mood` attribute would pass `undefined` as the mood, and that case is not modelled.
- The caption's inputs are modelled as optional strings. A non-string `date` or `place` in the page data is not modelled.
- `Selection.EveryLetterOnceThenReset` requires distinct ids within the pool. With repeated ids, the script's no-repeat guarantee degrades, and the model states nothing about that case.
- `Random.PickIndex`: the product `rand * n` is taken in exact real arithmetic, while the script floors the rounded double product. For particular draws the two indexes can differ by one. For example, with `rand` = 6004799503160661·2^-53 and `n` = 3, the script gets 2 and the model gets 1. Only the range `[0, n)` is claimed, and it holds for both.
- `Caption.MetaText`: the separator at line 37 is modelled with the characters the script's text holds (U+00E2 U+20AC U+00A2, with a space on each side). These are a UTF-8 bullet read as Windows-1252. How the browser displays them depends on the encoding the page is served with, and that is not modelled.
- `Selection.SeenFor`: `seenLetters` is a plain JavaScript object, so a mood named after an inherited `Object.prototype` member (`"constructor"`, `"toString"`, `"valueOf"`, `"__proto__"`, …) with no entry of its own reads that member at line 96. `seenForMood.includes` at line 97 then throws, and `generateLetter` neither returns a letter nor writes the map. The model treats such a mood as having an empty list, so `Select` and `GenerateLetter` do not cover these moods.
