# Portfolio script: typewriter, theme and navigation rules

A Dafny model of the behaviour in `script.js` of a personal portfolio site that is more than
wiring between the page and animation libraries:

- the **typewriter effect** in `initTypewriter`. A self-rescheduling `setTimeout` callback
  types a phrase one character at a time, deletes it again and moves on to the next phrase,
  forever. It works over four variables: `currentRole`, `currentChar`, `isDeleting` and
  `isWaiting`. Here one call of the callback is the pure function `Typewriter.Step`. It
  returns the new variables, the text written into the page (if any) and the delay in
  milliseconds before the next call. `TypewriterCycle` proves what many calls do: the
  typing and deleting phases, the full cycle of one phrase, and the rotation through all
  phrases.
- the **theme toggle** (`Theme`): the theme chosen on load, the dark/light flip on click,
  and the icon shown.
- the **navigation scroll listeners** (`Navigation`): hiding the navbar while scrolling
  down past 100 px, and marking the navigation link of the section in view as active.

`JsString.Substring` models JavaScript's `String.prototype.substring`: both indices are
clamped to `[0, length]` and swapped when out of order. The typewriter's rendering is
stated in terms of plain sequence prefixes, so the proofs show that the clamping never
comes into play on the states the callback can reach.

### Where the model follows the code rather than an idealised typewriter

- There is no separate "pause after typing" state. The typing call that completes the
  phrase sets `isDeleting` and schedules the next call after 1200 ms. The next call
  already deletes a character.
- After the last character is deleted there are **two** pauses. The deleting call sets
  `isWaiting` and waits 200 ms. The next call only clears the flag, renders nothing and
  waits 300 ms. So one phrase of length `n` takes `2n + 1` calls (`FullCycle`).
- There is no guard for an empty phrase list, and none for an empty phrase. With an empty
  list, `roles[0]` is `undefined` and the first call throws a `TypeError` at
  `current.substring` (script.js:314). An empty phrase is never completed:
  `EmptyPhraseNeverCompletes` shows its count growing without bound. So the cycle lemmas
  require `WellFormedRoles` (non-empty list, non-empty phrases). The page's own three
  phrases satisfy it (`PageRotation`).
- `Step` requires `currentRole` to index the list. Reading `roles[currentRole]` out of range
  only yields `undefined`, and the waiting branch never uses it, but the deleting and typing
  branches call `current.substring` and read `current.length`, which throw on `undefined`.
  From the initial state the role always stays in range (`Step`, `Run`).
- The first typing call renders one character immediately (prefix of length 1).
- A saved theme that is neither `"dark"` nor `"light"` is applied as is. The first click
  turns it into `"dark"`. A saved empty string falls back to `"dark"`, as `||` does in
  JavaScript.

## Model

| member | source | states |
|---|---|---|
| `JsString.Substring` | script.js:302-314 | `substring(start, end)` clamps each index into `[0, length]` (below 0 becomes 0, past the end becomes the length) and takes the slice between the clamped indices, swapping them when `end < start`; with indices in range it is the slice between them, and from index 0 it is always a prefix of the string, of length `end` when `end` is in range |
| `JsString.SubstringNormalises` | script.js:302-314 | swapping the two arguments gives the same string; a negative index behaves as 0 and an index past the end as the length, for either argument |
| `JsString.SubstringExamples` | script.js:302-314 | `"abc".substring(2, 0)` is `"ab"`, `"abc".substring(0, 9)` is `"abc"` and `"abc".substring(-4, 1)` is `"a"` |
| `Typewriter.WaitStep` | script.js:293-298 | a waiting call renders nothing, waits 300 ms, clears `isWaiting` and leaves role, count and deleting flag unchanged |
| `Typewriter.DeleteStep` | script.js:300-326 | a deleting call lowers the count by exactly 1 and renders the phrase's prefix of the new length; at zero it advances the role modulo the list length, clears deleting, sets waiting and waits 200 ms; otherwise it stays on the role, keeps deleting and waits 30 ms |
| `Typewriter.TypeStep` | script.js:312-326 | a typing call raises the count by exactly 1 and renders the phrase's prefix of the new length, role unchanged; on reaching the phrase length it switches to deleting and waits 1200 ms, otherwise it keeps typing and waits 60 ms |
| `Typewriter.Step` | script.js:290-327 | the role index stays in range; text is rendered exactly when the call is not a wait; on well-formed phrases the invariant is preserved: `0 <= currentChar <= length`, never deleting and waiting at once, count positive while deleting, below the length while typing, zero while waiting |
| `Typewriter.StepRendersPrefix` | script.js:300-315 | the text written is always a prefix of the current phrase; on states meeting the invariant it is exactly the prefix whose length is the new count |
| `Typewriter.Run` | script.js:290-330 | any number of consecutive calls keeps the role index in range and preserves the invariant |
| `TypewriterCycle.ReachableInv` | script.js:275-331 | on well-formed phrases the variables as first declared meet the invariant, and so does the state after any number of calls from them |
| `TypewriterCycle.TypingPhase` | script.js:313-321 | from the start of a phrase, `j` calls leave `j` characters typed and the role unchanged; after the last character the state is deleting with the full phrase shown |
| `TypewriterCycle.DeletingPhase` | script.js:300-311 | from a full phrase, `j` calls leave `length - j` characters; when none remain the role is `(role + 1) % length`, deleting is off and waiting is on |
| `TypewriterCycle.FullCycle` | script.js:293-326 | one phrase takes `2 * length + 1` calls, after which the callback is about to type the next phrase (wrapping around) |
| `TypewriterCycle.PartialRotation` | script.js:305-310 | after the cycles of phrases `0..m-1` the callback is about to type phrase `m`, or phrase 0 once every phrase has had its turn |
| `TypewriterCycle.Rotation` | script.js:290-330 | one pass through all phrases returns the four variables to their initial values |
| `TypewriterCycle.PhraseCallAt` | script.js:293-326 | call `j` of a phrase cycle renders and waits as `ExpectedRender` and `ExpectedDelay` say |
| `TypewriterCycle.PhraseTrace` | script.js:293-326 | the outputs of one phrase cycle are the prefixes of length 1..n with delays 60 then 1200, then the prefixes of length n-1..0 with delays 30 then 200, then one silent 300 ms wait |
| `TypewriterCycle.EveryPhraseShown` | script.js:279-326 | within one rotation every phrase is rendered in full by some call |
| `TypewriterCycle.EmptyPhraseNeverCompletes` | script.js:313-321 | on an empty phrase typing never reaches the phrase length: after `k` calls the count is `k` and deletion has not begun |
| `TypewriterCycle.PageRotation` | script.js:279-283 | the page's three phrases are non-empty and their rotation takes 131 calls |
| `TypewriterCycle.SinglePhraseScenario` | script.js:290-327 | with the one phrase "Hi" the callback renders "H", "Hi", "H", "", nothing, and is back at its initial state |
| `TypewriterCycle.TwoPhraseScenario` | script.js:305-310 | with phrases "A" and "BB" the role index is 1 after 3 calls and back to 0 (initial state) after 8 |
| `Theme.InitialTheme` | script.js:145 | the saved theme when one is saved and non-empty, otherwise "dark" |
| `Theme.ToggleSurvivesReload` | script.js:145-154 | the theme a click saves is the theme the next page load applies |
| `Theme.Toggle` | script.js:151 | "dark" becomes "light", every other value becomes "dark"; the result is always one of the two |
| `Theme.IconFor` | script.js:162 | the sun icon exactly when the theme is "dark", the moon otherwise |
| `Theme.ToggleTwice` | script.js:151 | on "dark" and "light", two clicks restore the theme |
| `Theme.ToggleTwiceNormalises` | script.js:151 | any other theme value becomes "light" after two clicks, so it is not restored |
| `Theme.ToggleSwapsIcon` | script.js:149-162 | every click changes the icon |
| `Theme.ToggleTimesParity` | script.js:149-156 | from "dark" or "light", an even number of clicks keeps the theme and an odd number flips it; after one or more clicks the theme is always "dark" or "light" |
| `Navigation.OnScroll` | script.js:57-73 | the navbar is hidden exactly when the position is past 100 and further down than the last one; the last position becomes the current one |
| `Navigation.PositionsFollowDirection` | script.js:57-73 | over a series of scroll events, each event hides the navbar exactly when past 100 and further down than the event before it |
| `Navigation.ScrollingUpShows` | script.js:64-70 | scroll events that never go down never hide the navbar |
| `Navigation.MarkActive` | script.js:87-92 | link hrefs are kept, and exactly the links whose href is `#id` end up active |
| `Navigation.LastCovering` | script.js:81-94 | finds the last section in document order covering the probed position, or reports that none does |
| `Navigation.Highlight` | script.js:78-95 | with a section covering `scrollY + 100`, exactly the links pointing at the last such section are active afterwards; with none, the links are unchanged; hrefs never change |

## Left out

- Animation and rendering libraries (GSAP, ScrollTrigger, Three.js starfield): external code, random numbers and floating-point geometry. The navbar decision is modelled as the target position only (`Shown` is `y: 0`, `Hidden` is `y: -100`).
- Timers: delays are returned as numbers instead of being scheduled. The 1500 ms start delay and `debounce` are event-loop timing.
- Scroll progress percentage and parallax offset: floating-point arithmetic.
- Storage and the document: reading and writing `localStorage`, setting `data-theme` and `className`, and the particle colour callback are I/O. The model keeps the decisions made on the strings.
- Mobile menu, Escape handling, smooth scrolling, console logging, stat counters, `IntersectionObserver` setup, and the export block: DOM- and library-bound event wiring (element lookups, key and click-target checks, `parseInt`), kept out of the model.
- Navigation.OnScroll: scroll positions and section geometry are whole numbers; browsers may report fractional pixels, which compare the same way but are not modelled.
- The early return when the page has no typewriter element is DOM lookup. The model starts from the variables' initial values.
- The code does not reject an empty phrase list or an empty phrase. The model states these missing guards as requirements (`WellFormedRoles`) instead of modelling an error.
- Typewriter.Step: phrase lengths and prefixes are counted per Dafny `char` (Unicode scalar value), while JavaScript's `length` and `substring` count UTF-16 code units. For a phrase with a character outside the Basic Multilingual Plane the program takes more calls and can render a lone surrogate; the two agree for the page's ASCII phrases, so `PageRotation` is unaffected, but `FullCycle`, `TypingPhase` and `PhraseTrace` describe the per-`char` count.
