# R10 2025 Wrapped — session state machine

A Dafny model of the `App` component of the "R10 2025 Wrapped" web app. A
visitor pastes an r10.net forum profile link into a form. The app checks the
link, asks a generative-AI service for a set of story slides about that
profile, and shows them as a swipeable full-screen slideshow with progress
bars, previous/next buttons and, on the last slide, a share card with a
restart button.

The model has four modules:

- `Types` (`types.dfy`): the records `WrappedInsight` and `UserData`, the
  phase enumeration `AppState`, and an `Option` for `UserData | null`.
- `Text` (`text.dfy`): the string operations the link check uses, which are
  `trim`, `toLowerCase` and `includes`, with their defining properties.
- `Slides` (`slides.dfy`): what the slideshow screen derives from
  `currentIndex` and the slide count. That covers the final-slide test, the
  previous-button test, `isActive` and the three-way progress bars. It also
  holds the index arithmetic of the next/previous buttons and the scroll
  listener.
- `App` (`app.dfy`): class `Session`. It has the component's six state
  fields (`appState`, `profileUrl`, `userData`, `currentIndex`, `error`,
  `loadingStep`) and one method per event that changes them. Its object
  invariant `Valid()` is kept by every event. The invariant says:
  - `loadingStep` stays in `[0, 8)`;
  - the caption ticker runs exactly in LOADING;
  - a fetch is pending exactly in LOADING;
  - data is held exactly in EXPERIENCE;
  - the link of a pending fetch passes the domain check;
  - the held data's `profileUrl` passes the domain check. This holds because
    `Session.Complete` requires the fetch service to echo the link it was
    called with;
  - the index is 0 or names an existing slide;
  - LOADING and EXPERIENCE carry no error message, and ERROR always carries one.

The `await` in `handleStart` splits submission into two events:
`Session.Submit` runs up to the fetch and returns its argument (or `None` when
no fetch starts), and `Session.Complete` delivers the outcome. The fetch
service is not modelled: its outcome is a parameter, either the `UserData` it
built or one opaque failure.

Behaviour of the component that the model keeps as it is:

- Nothing stops a second submission while LOADING. No guard exists, but the
  LOADING screen has no form (App.tsx:135-153). So `Submit` requires LANDING
  or ERROR, the only phases whose screen shows the form (App.tsx:91, 110).
- An empty slide list is accepted, not rejected as malformed. The model
  handles it. With no slides the next button targets index -1, and the
  browser clamps that scroll to 0. The final-slide test compares against -1,
  so the share card and its restart button never appear
  (`Slides.EmptySlideList`).
- The validation message is shown on the landing screen as well as on the
  error screen, so `error` is not tied to the ERROR phase alone.
- `loadingStep` is never reset. A second visit to LOADING starts from the
  caption where the first one stopped.

## Model

| member | source | states |
|---|---|---|
| `Text.LeadingBlanks` | App.tsx:40 | the length of the longest all-whitespace prefix: everything before it is whitespace and the next character is not |
| `Text.TrailingBlanksStart` | App.tsx:40 | where the all-whitespace suffix starts: everything from it on is whitespace and the character before it is not |
| `Text.Trim` | App.tsx:40 | the result is the input with its leading and trailing ECMAScript whitespace removed, and it neither starts nor ends with whitespace |
| `Text.TrimmedFormIsUnique` | App.tsx:40 | that description admits one string only, so it determines `trim` |
| `Text.TrimIdempotent` | App.tsx:40 | trimming a trimmed link changes nothing |
| `Text.ToLower` | App.tsx:41 | lower-casing keeps the length |
| `Text.ToLowerMeaning` | App.tsx:41 | after lower-casing no capital letter is left, each capital has become its small letter, and every other character is unchanged |
| `Text.ToLowerIdempotent` | App.tsx:41 | lower-casing twice is lower-casing once |
| `Text.LowerCharKeepsBlankness` | App.tsx:41 | lower-casing neither creates nor removes whitespace |
| `Text.Contains` | App.tsx:41 | the search answers true exactly when the pattern occurs at some index |
| `Text.OccursInSlice` | App.tsx:40-41 | an occurrence inside a slice is an occurrence in the whole string lying within the slice's bounds, and back |
| `Text.TrimKeepsOccurrences` | App.tsx:40-41 | a whitespace-free pattern occurs in the lower-cased trimmed input exactly when it occurs in the lower-cased raw input |
| `App.IsProfileUrl` | App.tsx:41 | the landing form's check: the lower-cased link contains `r10.net`. Its trimming behaviour is stated by `App.TrimmingKeepsVerdict` |
| `App.TrimmingKeepsVerdict` | App.tsx:40-44 | the domain check gives the same verdict on the trimmed link as on the raw input |
| `App.SampleLinkAccepted` | App.tsx:40-44 | `r10.net/profil/ahmet` is its own trimmed form and passes the check |
| `App.SampleLinkRefused` | App.tsx:40-44 | `not-a-url` is its own trimmed form and fails the check |
| `App.Session.constructor` | App.tsx:8-13 | a new session is in LANDING with an empty link, no data, index 0, no error and caption 0, and satisfies the invariant |
| `App.Session.Edit` | App.tsx:111-117 | typing, possible only on the landing and error screens, sets the link to exactly the typed text and keeps the invariant |
| `App.Session.Submit` | App.tsx:38-50 | a trimmed link that fails the case-insensitive `r10.net` check sets the fixed validation message, starts no fetch and leaves phase, data, index, link and caption alone. A link that passes clears the error, enters LOADING (starting the ticker) and starts the fetch with the trimmed link, not the raw input. The caption step is not reset. |
| `App.Session.Tick` | App.tsx:28-36 | a ticker firing, possible only while the ticker runs (exactly in LOADING), advances the caption by one modulo 8 and keeps it in range |
| `App.Session.LoadingMessage` | App.tsx:17-26 | the caption under the spinner is always one of the eight loading messages |
| `App.Session.Complete` | App.tsx:49-57 | from LOADING, success leads to EXPERIENCE with the fetched data on slide 0, and failure leads to ERROR with the fixed failure message and no data. No other phase follows, and the ticker and the pending fetch are gone. |
| `App.Session.OnScroll` | App.tsx:60-69 | the index becomes the slide nearest to the scroll position, a write happens exactly when that differs from the current index, and any position in the scrollable range keeps the index on an existing slide |
| `App.Session.NextSlide` | App.tsx:71-79 | next asks to scroll to `min(index + 1, count - 1)` widths, or nowhere without data. With slides, that offset is in range and its scroll report lands on that slide. |
| `App.Session.PrevSlide` | App.tsx:81-89 | previous asks to scroll to `max(index - 1, 0)` widths. With slides, that offset is in range and its scroll report lands on that slide. |
| `App.Session.ShowsShareOverlay` | App.tsx:207 | the share card with its restart button is on screen exactly on the final slide of the experience screen. `Slides.EmptySlideList` shows it never appears with no slides |
| `App.Session.Reload` | App.tsx:214-215 | the restart button, on screen only on the final slide, returns every field to its first-load value |
| `Slides.SlideCount` | App.tsx:199 | the number of slides is the length of the insight list, or 0 without data |
| `Slides.IsFinalSlide` | App.tsx:199 | the final-slide test compares the index with the slide count minus one. `Slides.NavigationTargets` proves next is a no-op exactly there |
| `Slides.PrevHidden` | App.tsx:187 | the previous button is hidden on slide 0. `Slides.NavigationTargets` proves previous is a no-op exactly there |
| `Slides.IsActive` | App.tsx:177 | a slide is active when its position equals the index. `Slides.ActiveSlides` proves exactly one slide is active on a valid index |
| `Slides.BarAt` | App.tsx:162 | a bar before the index is past, the one at it is current, and later ones are future. `Slides.ActiveIsCurrentBar` ties the current bar to the active slide |
| `Slides.NextTarget` | App.tsx:73 | the next target is the smaller of `index + 1` and `count - 1` |
| `Slides.PrevTarget` | App.tsx:83 | the previous target is the larger of `index - 1` and 0 |
| `Slides.NavigationTargets` | App.tsx:187-199 | from a valid index both targets are valid. Next is a no-op exactly on the final slide, where the next button is hidden. Previous is a no-op exactly on slide 0, where the previous button is hidden. |
| `Slides.RoundIndex` | App.tsx:64 | `round(scrollLeft / width)`: `k` is the slide whose left edge is nearest, with ties going right: `(2k - 1)·w ≤ 2p < (2k + 1)·w` |
| `Slides.RoundIndexAtSlideEdge` | App.tsx:64 | a report of exactly `k` widths gives index `k` |
| `Slides.RoundIndexInRange` | App.tsx:60-69 | a position in the scrollable range gives an index below the slide count (0 with no slides) |
| `Slides.ScrolledTo` | App.tsx:74-77 | a scroll request ends inside the scrollable range, and exactly at the request when it is in range |
| `Slides.ScrollLandsOnTarget` | App.tsx:71-89 | scrolling to `target` widths for a valid target is in range, and its report is `target` |
| `Slides.SettleOnTarget` | App.tsx:60-89 | a button press followed by its scroll report moves the index to the button's target, which is a valid index |
| `Slides.NavigateStaysInRange` | App.tsx:71-89 | any sequence of next/previous presses keeps the index on an existing slide |
| `Slides.RepeatedNext` | App.tsx:71-79 | pressing next `n` times moves `n` slides on, stopping at the last. With five slides, four presses from slide 0 reach the final slide. |
| `Slides.ProgressBars` | App.tsx:159-165 | there is one bar per slide |
| `Slides.ProgressBarsLayout` | App.tsx:159-165 | with a valid index the bars read `index` past bars, one current bar, then future bars |
| `Slides.BarCounts` | App.tsx:159-165 | exactly one bar is current, the number of past bars equals the index, and the rest are future |
| `Slides.ActiveSlides` | App.tsx:175-179 | the slides flagged `isActive` are exactly the one at the index, or none if the index is out of range |
| `Slides.ActiveIsCurrentBar` | App.tsx:159-179 | a slide is active exactly when its progress bar is the current one |
| `Slides.EmptySlideList` | App.tsx:199-207 | with no slides the final-slide test never holds (no share card, no restart), the next target is -1 and there are no bars |

## Left out

- services/geminiService.ts is not part of this model. Its prompt, response schema, network call and `JSON.parse` are outside it. Its result is the `FetchOutcome` parameter of `Session.Complete`. That method requires what the service guarantees: a summary carries the link it was called with (services/geminiService.ts:94).
- components/Slide.tsx is not part of this model. Its `animate` flag only copies `isActive`, and the rest is styling.
- JSX markup, class names, colours and animations are not modelled.
- Timing: the 2-second `setInterval` period is not modelled. Each firing is one `Session.Tick` event. React's render scheduling and state batching are not modelled.
- DOM scrolling: smooth scrolling, `offsetWidth` and `scrollLeft` are not modelled. The width and offset are natural numbers. The width must be positive (an `offsetWidth` of 0 would make the index `NaN`). Intermediate positions of a smooth scroll are arbitrary `Session.OnScroll` reports within the scrollable range.
- `Math.round` of a floating-point quotient is not modelled. `Slides.RoundIndex` uses exact integer arithmetic instead.
- A stale `currentIndex` seen by a listener before a re-render is not modelled.
- Text.ToLower: lower-cases ASCII letters only, because full Unicode case mapping is not modelled. This does not change the verdict of the `r10.net` check. Full `toLowerCase` leaves r, n, e, t, 1, 0 and '.' unchanged, and no other character lower-cases to one of them, so the domain occurs in the full lower-casing exactly when it occurs in the ASCII-only one.
- Text.Trim: operates on Unicode scalar values, not UTF-16 code units.
- `window.location.reload()` is modelled only as the return to the first-load state (`Session.Reload`). The page reload itself is not modelled.
