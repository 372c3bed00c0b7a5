# Quote wall — a Dafny model

The quote wall is a browser page that shows short quotes ("fortunes") as
pastel-coloured cards. A visitor can fetch a new fortune from a remote
service or delete a card. The fortunes are kept in the browser's storage
under the key `fortunes`, so they survive a page reload. This project
models the logic in `js/main.js`:

- `colors.dfy` (module `Colors`): `Color`, `Color.rgb()`, and
  `ColorUtils.generateRandomColor` / `generateRandomPastelColor`. Each
  `Math.random()` draw is an input: a real number in [0, 1).
- `decimal.dfy` (module `Decimal`): how a template literal writes a whole
  number, and a parser that reads it back. `Rgb` uses both.
- `text.dfy` (module `Text`): `Array.prototype.join` with a one-character
  separator, and `Split`, its partner.
- `fortunes.dfy` (module `Fortunes`): the `Fortune` record, the fallback
  message, and the fortune that a settled fetch produces.
- `store.dfy` (module `FortuneStore`): `FortuneStorage` as a class. Its
  field `fortunes` is the in-memory list. A separate `PersistedSlot` object
  stands for the storage entry, with the entry's JSON text abstracted to the
  list it encodes. `splice(index, 1)` follows section 22.1.3.25 of
  ECMAScript 2015, including negative indices and indices past the end.
- `wall.dfy` (module `QuoteWall`): `QuoteWallController`, reduced to the
  list of cards on the page and the store behind them. Its delete handler
  is modelled both as written and as evidently intended (see Findings).
- `wrappers.dfy` (module `Wrappers`): `Option`.

Three behaviours of the program are worth stating on their own:
- An index past the end is not an error for `deleteAtIndex`: `splice`
  removes nothing (js/main.js:93). A negative index counts back from the
  end.
- The success handler calls `.join` on the response's `fortune` field
  (js/main.js:148). A field that is a single string, missing, or not an
  array makes that call throw. `FetchOutcome.Success` therefore carries a
  list of fragments; such a response is modelled as `Failure` (see
  "## Left out").
- `load` passes the stored text to `JSON.parse` (js/main.js:84). Text that
  is not valid JSON makes it throw rather than load an empty list. Stored
  text is not modelled, so this case does not arise here.

## Model

| member | source | states |
|---|---|---|
| `Colors.Rgb` | js/main.js:10-12 | The CSS text starts with `rgb(` and ends with `)`. |
| `Colors.RgbRoundTrip` | js/main.js:10-12 | Parsing `rgb(r, g, b)` text gives back exactly the colour it was made from. |
| `Colors.RgbSplitsIntoFields` | js/main.js:10-12 | Between `rgb(` and `)`, the text splits at commas into the three channel texts. The second and third each carry the single space that follows the comma. |
| `Colors.RgbInjective` | js/main.js:10-12 | Two colours with the same CSS text are the same colour. |
| `Decimal.NatToString` | js/main.js:11 | A non-negative number is written as one or more digits, with no leading zero. |
| `Decimal.IntToString` | js/main.js:11 | A number's text starts with a minus sign exactly when the number is negative. Every other character is a digit, and the magnitude has no leading zero (the shortest form). |
| `Decimal.NatToStringValue` | js/main.js:11 | The digits written for `n` have decimal value `n`. |
| `Decimal.IntToStringRoundTrip` | js/main.js:11 | The text written for any integer parses back to that integer. |
| `Colors.RandomChannel` | js/main.js:18-20 | `floor(draw * 256)` lies in [0, 255] for every draw in [0, 1), and is the largest integer not above `draw * 256`. |
| `Colors.RandomChannelOnto` | js/main.js:18-20 | Every value in [0, 255] is produced by some draw. |
| `Colors.GenerateRandomColor` | js/main.js:17-23 | Every channel of a random colour lies in [0, 255]. |
| `Colors.Pastel` | js/main.js:26-31 | A pastel channel is the average of the base channel and 240, rounded down. For a base channel in [0, 255] it lies in [120, 247]. |
| `Colors.PastelOnto` | js/main.js:29-31 | Every value in [120, 247] is the pastel of some byte, so [120, 247] is exactly the range. |
| `Colors.GenerateRandomPastelColor` | js/main.js:25-34 | Each pastel channel is the rounded-down average of 240 and the random colour's channel, taken independently per channel. Every channel lies in [120, 247]. |
| `Text.Join` | js/main.js:148 | Joining no parts gives the empty string. A single part joins to itself. The result always starts with the first part. |
| `Text.SplitJoin` | js/main.js:148 | If no part contains the separator, splitting the joined string at the separator gives back the parts. |
| `Text.JoinSplit` | js/main.js:148 | Splitting any string at a separator and joining the pieces with it rebuilds the string. |
| `Fortunes.FortuneFor` | js/main.js:146-160 | A failed fetch gives exactly the fallback message. A successful one with a single fragment gives that fragment. One with no fragments gives the empty message. |
| `Fortunes.SuccessMessageSplitsBack` | js/main.js:148-149 | No fragment is lost: when no fragment contains a space, splitting the message at spaces gives back the fragments. |
| `Fortunes.SuccessTwoFragments` | js/main.js:148-149 | Two fragments are separated by exactly one space. |
| `Fortunes.StayCurious` | js/main.js:148-149 | The fragments `["Stay", "curious"]` give the message `Stay curious`. |
| `FortuneStore.SpliceStart` | js/main.js:93 | The splice position is the index when it lies in [0, length]. A negative index counts back from the end, clamped at 0. An index past the end is clamped to the length. |
| `FortuneStore.RemoveAt` | js/main.js:93 | When the splice position is inside the list, the result is one shorter. Elements before that position stay where they were, and elements after it move up by one. At the end of the list nothing changes. |
| `FortuneStore.RemoveAtDropsOne` | js/main.js:93 | Deleting index `i` of a list removes exactly one copy of the element at `i` and keeps every other element. |
| `FortuneStore.FortuneStorage.constructor` | js/main.js:74-85 | A new store holds the stored list, or the empty list when nothing is stored. |
| `FortuneStore.FortuneStorage.Load` | js/main.js:83-85 | The list becomes the stored list, or the empty list when nothing is stored. Afterwards the list matches storage exactly when something is stored. |
| `FortuneStore.FortuneStorage.Save` | js/main.js:97-99 | Storage then holds exactly the in-memory list. |
| `FortuneStore.FortuneStorage.Add` | js/main.js:87-90 | The list grows by one, the new fortune is last, and all earlier elements are unchanged. Storage then equals the list. |
| `FortuneStore.FortuneStorage.DeleteAtIndex` | js/main.js:92-95 | The list becomes the splice result. For an index inside the list that is the list with that one element cut out. Past the end, the list is unchanged. Storage then equals the list. |
| `FortuneStore.ReloadAfterChange` | js/main.js:74-99 | After an add and a delete, a store created on the same storage entry holds the same list. Loading it twice more still gives that list. |
| `FortuneStore.FirstVisit` | js/main.js:83-90 | With nothing stored the store starts empty. After one add, a reload gives exactly that fortune. |
| `QuoteWall.RenderAll` | js/main.js:188-191 | Rendering makes one displayed card per fortune, in list order. |
| `QuoteWall.LockstepShowsStore` | js/main.js:182-191 | When the cards and the list are in lockstep, the visitor sees exactly the stored list. |
| `QuoteWall.HideCard` | js/main.js:170-176 | As written, the clicked card stays on the page, hidden. Every other card is unchanged. |
| `QuoteWall.AsWrittenLaterDeleteMisses` | js/main.js:170-176 | As written: delete one card, then any card after it. The second card's fortune is still stored, one place up. |
| `QuoteWall.AsWrittenDeleteScenario` | js/main.js:170-176 | As written: with three cards, delete the middle one and then the last one. The visitor sees one fortune while the store still holds two. |
| `QuoteWall.DeleteKeepsLockstep` | js/main.js:170-176 | When the clicked card is really removed, the cards and the stored list stay in lockstep. |
| `QuoteWall.QuoteWallController.constructor` | js/main.js:128-141 | Loads the store and renders its list, so the cards start in lockstep with it. |
| `QuoteWall.QuoteWallController.OnFetchSettled` | js/main.js:143-163 | A successful or failed fetch adds exactly one fortune to the store and one card to the page. Both are the fortune built from the outcome. Storage and cards stay in step with the list. |
| `QuoteWall.QuoteWallController.OnDeleteClicked` | js/main.js:170-176 | Deleting the card at position `k` (as intended) removes element `k` from both the cards and the store, so the list is one shorter. Storage and cards stay in step. |
| `QuoteWall.FirstFetch` | js/main.js:128-163 | An empty store renders no cards. One settled fetch then shows exactly one card. |
| `QuoteWall.OverlappingFetches` | js/main.js:143-163 | Two fetches are stored in the order they settle, and a reload shows both. Overlap itself (two requests pending at once) is not modelled; the settle callbacks run one after the other. |

## Left out

- QuoteWall.QuoteWallController.OnFetchSettled: a response whose `fortune` field is missing or not an array is modelled as `Failure`, which is what jQuery 3 does: the exception thrown in the `.then` callback (js/main.js:146-154) rejects the promise that `.fail` (js/main.js:156) is attached to, so the fallback fortune is stored. With jQuery 1.x/2.x the exception escapes instead, nothing is stored and `.always` (js/main.js:162) never hides the overlay. The source does not fix the jQuery version, and that no-add outcome is not modelled.
- The AJAX call `FortuneAPI.fetch` (js/main.js:55-63), with its URL and 10-second timeout: network I/O. Its result is the input `FetchOutcome`.
- The JSON text behind `load`/`save` and the `localStorage` calls themselves (js/main.js:84, 98): browser I/O. `PersistedSlot` holds the decoded list.
- FortuneStore.FortuneStorage.Save: storage reads and writes are modelled as always succeeding, so `Add` and `DeleteAtIndex` always end with the entry equal to the list. In the source, `localStorage.setItem` (js/main.js:98) can throw: QuotaExceededError when the entry would exceed the quota, SecurityError when storage is blocked. That throw comes after `push` (js/main.js:88) or `splice` (js/main.js:93) and nothing catches it, so the in-memory list and the stored entry then differ. Under jQuery 3, a throw from `add` at js/main.js:152 also rejects the `.then` promise, so the `.fail` handler (js/main.js:156-160) adds the fallback fortune too: one fetch then adds two records to the in-memory list. When storage is blocked, `getItem` at js/main.js:84 throws as well, and the constructor (js/main.js:74-77) fails. None of these failures is modelled.
- `Math.random` (js/main.js:18-20): each draw is a parameter that ranges over every real number in [0, 1), not only the doubles `Math.random()` returns. Every property is stated for all such draws, so it holds for those doubles too; multiplying a double in [0, 1) by 256 is exact.
- `Decimal.IntToString`: does not model JavaScript's exponent notation for magnitudes of 10^21 and above. Colour channels never come near that.
- `FortuneView.createElement` and the card's random background colour, the fade animations, and `renderSingleFortune`'s placement before the button area (js/main.js:108-124, 182-191): DOM construction. A card is its fortune plus whether it is displayed. A new card is assumed to go after the existing cards.
- QuoteWall.QuoteWallController.OnDeleteClicked: the card is modelled as leaving the page at click time, and `HideCard` as hiding it at click time. In the source, js/main.js:174 only starts a fade-out (jQuery's default 400 ms), and the card is removed (as intended) or hidden (as written) when the fade ends. The store delete at js/main.js:175 happens at once. During those 400 ms the fading card still counts in `.find('.fortune')` at js/main.js:172. So a click on a later card sends an index one too high, and a second click on the fading card itself deletes the next fortune too. The lockstep invariant `Valid()` is promised only between fades; those clicks are not modelled.
- Handler registration and the loading overlay's show/hide (js/main.js:137-138, 162, 166): UI side effects.
- The DOM lookup of the clicked card's position (js/main.js:171-172): the position is the argument `k`. It is the card's place among all `.fortune` elements, hidden ones included, so it is never -1.
- The `window.QuoteWallApp` registry (js/main.js:39-45, 195-199): global wiring with no logic. Its `views` and `storage` entries have their classes swapped.
- In-place mutation of the `fortunes` array (`push`, `splice`): the field is a `seq` that the methods reassign. The controller's alias `this.fortunes` (js/main.js:132) is not modelled because nothing reads it after rendering.

## Findings

| source | as written | input that shows it | evidently intended | confidence | as-written member | corrected member |
|---|---|---|---|---|---|---|
| js/main.js:174 | The fade-out callback is an arrow function, so `$(this)` wraps the controller and `remove()` removes nothing. The deleted card stays on the page, hidden, and still counts in the `.fortune` index at js/main.js:172. | Cards `a, b, c`. Delete `b` (index 1), then `c`: its index is 2, which is past the end of the stored list `[a, c]`, so nothing is removed. The page shows `a` only, but the store keeps `[a, c]`, and `c` reappears on reload. | Remove the faded card from the page once its fade ends, so that between fades positions on the page equal positions in the store. Clicks during a fade are outside this (see `QuoteWall.QuoteWallController.OnDeleteClicked` under "## Left out"). | medium (not executed) | `QuoteWall.AsWrittenLaterDeleteMisses` | `QuoteWall.QuoteWallController.OnDeleteClicked` |
