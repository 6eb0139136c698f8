# smart-prompter in Dafny

A model of the logic of the smart-prompter WeChat mini program, a
teleprompter: the anchor matcher that follows the reader's voice through the
script, the countdown and manual drag of the prompter page, the recent-script
history of the home page and the save logic of the script editor.

Modules, one per part of the program:

- `Wrappers` — `Option`, for the values the pages express with `null`.
- `Normalization` — the reduction of the script and of recognised speech to
  CJK ideographs U+4E00–U+9FA5, ASCII letters and ASCII digits.
- `AnchorMatching` — the anchor matcher as pure functions on its state
  (`Feed` is one call of `match`, `Replay` a sequence of calls), with the
  properties of the algorithm proved about them.
- `AnchorExamples` — two worked runs on a ten-character script.
- `PageControl` — the countdown, the start of the timed scroll and the manual
  drag as pure functions on the page state, with their properties.
- `Prompter` — the in-place code of the prompter page: the class
  `AnchorTextMatcher`, whose `Match` runs the descending suffix loop and is
  proved to produce exactly `AnchorMatching.Feed`, and the class
  `PrompterPage`, whose handlers are proved to step as `PageControl` says.
- `Home` — the input-height clamp, the blank-content guard and the history list.
- `Editor` — the class `EditorPage` with `loadScript` and the update-or-create
  `saveScript` on the stored scripts list.

Storage, the clock and layout measurement are parameters: stored lists come in
and the lists to store come out; ids, timestamps and formatted times are passed
in; the measured content height is given to the page.

The progress `lastIndex / scriptLength` is kept as an exact fraction
`Fraction(lastIndex, scriptLength)` instead of a floating-point number.

### Behaviour worth knowing

- On the script `"ABCDEFGHIJ"` the run `"ABC"`, `"DEF"`, `"GHI"` returns only
  6/10. A suffix with no CJK character is only tried from length 4 up
  (`miniprogram/pages/prompter/prompter.js:37`), so `"ABC"` returns null.
  `"ABCDEF"` is then found at the start and returns 6/10. After it, no suffix
  of `"ABCDEFGHI"` of length 4 or more starts in the window `"GHIJ"`, so the
  third call returns null too (`AnchorExamples.LatinRun`). The same run with
  ideographs returns 3/10, 6/10 and 9/10 (`AnchorExamples.CjkRun`).
- A two-character suffix without a CJK character is never tried. A
  two-character CJK suffix first found at distance 15 is accepted, because its
  limit is 10 × 1.5 = 15 (`miniprogram/pages/prompter/prompter.js:48-50`,
  `AnchorMatching.TwoCharSuffix`).
- The window is fixed at 150 characters
  (`miniprogram/pages/prompter/prompter.js:13`).

Facts about the code that the model makes explicit:

- The guard `newIndex > this.lastIndex` always holds, because an accepted
  suffix has at least 2 characters. Its `return null` branch cannot run.
- The initial `maxAllowedDist = 20` is always overwritten.
- For suffixes of 8 or more characters the distance limit never rejects
  anything, because the window has at most 150 characters
  (`AnchorMatching.LongSuffixNeverTooFar`).

## Model

| member | source | states |
|---|---|---|
| `Normalization.Clean` | miniprogram/pages/prompter/prompter.js:19 | the normalised text has only ideographs U+4E00–U+9FA5, ASCII letters and digits, and is no longer than the input |
| `Normalization.CleanKeepsExactlyAligned` | miniprogram/pages/prompter/prompter.js:19 | every character in the alphabet is kept exactly as often as it occurs, and every other character is dropped |
| `Normalization.CleanAppend` | miniprogram/pages/prompter/prompter.js:19 | normalising a concatenation concatenates the normalised parts, so the kept characters stay in order |
| `Normalization.CleanAligned` | miniprogram/pages/prompter/prompter.js:9 | text already in the alphabet is unchanged |
| `Normalization.CleanIdempotent` | miniprogram/pages/prompter/prompter.js:9 | normalising twice equals normalising once |
| `AnchorMatching.IndexOf` | miniprogram/pages/prompter/prompter.js:39 | a non-negative result is a position where the pattern occurs |
| `AnchorMatching.IndexOfFirst` | miniprogram/pages/prompter/prompter.js:39 | the result is -1 exactly when the pattern occurs nowhere; otherwise no occurrence starts earlier |
| `AnchorMatching.ContainsCjkExists` | miniprogram/pages/prompter/prompter.js:36 | the test `/[\u4e00-\u9fa5]/` on a suffix holds exactly when some character of it is in U+4E00–U+9FA5 |
| `AnchorMatching.MaxAllowedDistance` | miniprogram/pages/prompter/prompter.js:43-50 | the distance limit lies between 10 and 225 |
| `AnchorMatching.MaxAllowedDistanceMonotone` | miniprogram/pages/prompter/prompter.js:45-50 | longer suffixes may jump at least as far, and CJK suffixes at least as far as Latin ones |
| `AnchorMatching.Accept` | miniprogram/pages/prompter/prompter.js:33-52 | an accepted suffix has a CJK character or at least 4 characters, occurs at the returned distance, and lies within the limit for its length |
| `AnchorMatching.AcceptFirst` | miniprogram/pages/prompter/prompter.js:36-52 | an accepted occurrence is the first one in the window; a refused suffix is Latin text shorter than 4 or has no occurrence within the limit |
| `AnchorMatching.TwoCharSuffix` | miniprogram/pages/prompter/prompter.js:36-52 | a two-character suffix is accepted exactly when it has a CJK character and first occurs at distance 0 to 15 |
| `AnchorMatching.LongSuffixNeverTooFar` | miniprogram/pages/prompter/prompter.js:43-52 | in a window of at most 150 characters, a suffix of 8 or more characters is accepted exactly when it occurs |
| `AnchorMatching.Anchor` | miniprogram/pages/prompter/prompter.js:30-63 | a hit has a length between 2 and `len`, and its suffix is accepted at its distance |
| `AnchorMatching.AnchorLongest` | miniprogram/pages/prompter/prompter.js:32-63 | every suffix longer than the hit, up to `len`, is refused; with no hit every suffix of 2 to `len` characters is refused |
| `AnchorMatching.AnchorPassedOver` | miniprogram/pages/prompter/prompter.js:32-62 | a suffix length that the descending search went past was refused |
| `AnchorMatching.AnchorSkip` | miniprogram/pages/prompter/prompter.js:32-62 | lengths whose suffixes are all refused can be skipped without changing the result |
| `AnchorMatching.LongestIsAnchor` | miniprogram/pages/prompter/prompter.js:30-64 | conversely, the longest accepted suffix of at most `len` characters, or none when all are refused, is the result of the search |
| `AnchorMatching.Extend` | miniprogram/pages/prompter/prompter.js:22-24 | the buffer becomes the last min(60, old + new length) characters of the old buffer followed by the normalised fragment |
| `AnchorMatching.Window` | miniprogram/pages/prompter/prompter.js:26-27 | the window has at most 150 characters and ends at min(script length, lastIndex + 150) |
| `AnchorMatching.Search` | miniprogram/pages/prompter/prompter.js:26-63 | a hit of the search on the current window has a length of 2 to min(buffer length, 20); `SearchHit` and `SearchAcceptance` state where it lies |
| `AnchorMatching.Init` | miniprogram/pages/prompter/prompter.js:7-15 | a new matcher holds exactly the normalised script, starts at the given index, which lies within it, and has an empty buffer |
| `AnchorMatching.Reset` | miniprogram/pages/prompter/prompter.js:67-70 | reset keeps the script and sets lastIndex to 0 and the buffer to empty |
| `AnchorMatching.Feed` | miniprogram/pages/prompter/prompter.js:17-65 | one `match` call: a fragment that normalises to nothing changes nothing and returns null; otherwise the buffer is extended; lastIndex never decreases and stays within the script; a result is returned exactly when lastIndex moved, and it is lastIndex / scriptLength in (0, 1] |
| `AnchorMatching.Advance` | miniprogram/pages/prompter/prompter.js:53-56 | only lastIndex changes; it moves strictly forward exactly when a fraction in (0, 1] is returned |
| `AnchorMatching.SearchHit` | miniprogram/pages/prompter/prompter.js:26-52 | an accepted suffix has 2 to min(buffer length, 20) characters and first occurs in the window at the hit's distance |
| `AnchorMatching.SearchAcceptance` | miniprogram/pages/prompter/prompter.js:26-56 | an accepted search moves lastIndex strictly forward to at most min(script length, old lastIndex + 150); the accepted suffix occurs in the script just before the new lastIndex, and does not occur earlier from the old lastIndex on |
| `AnchorMatching.FirstInWindow` | miniprogram/pages/prompter/prompter.js:26-39 | the first occurrence in the window is the first occurrence in the script from lastIndex on, and it ends inside the window |
| `AnchorMatching.FeedAdvancesBySearch` | miniprogram/pages/prompter/prompter.js:22-64 | a fragment with normalised text extends the buffer; then lastIndex stays put when no suffix is accepted, and moves by exactly the hit's distance plus its length when one is |
| `AnchorMatching.Replay` | miniprogram/pages/prompter/prompter.js:17-65 | any sequence of `match` calls keeps the matcher state valid and the script unchanged |
| `AnchorMatching.ReplayNeverBacktracks` | miniprogram/pages/prompter/prompter.js:53-55 | across any sequence of fragments lastIndex never decreases |
| `AnchorMatching.ReplayBetween` | miniprogram/pages/prompter/prompter.js:53-56 | every returned fraction is over the script length, lies in (0, 1], and has a numerator above the start index and at most the final index |
| `AnchorMatching.ReplayIncreasing` | miniprogram/pages/prompter/prompter.js:53-56 | the fractions returned along any sequence of fragments strictly increase |
| `AnchorExamples.LatinStart` | miniprogram/pages/prompter/prompter.js:9-12 | a matcher on "ABCDEFGHIJ" from index 0 starts with that script and an empty buffer |
| `AnchorExamples.LatinFirst` | miniprogram/pages/prompter/prompter.js:37 | "ABC" on a fresh matcher returns null, because Latin suffixes shorter than 4 are skipped |
| `AnchorExamples.LatinSecond` | miniprogram/pages/prompter/prompter.js:32-56 | then "DEF" matches "ABCDEF" at the start and returns 6/10 |
| `AnchorExamples.LatinThird` | miniprogram/pages/prompter/prompter.js:32-64 | then "GHI" returns null and lastIndex stays at 6 |
| `AnchorExamples.LatinRun` | miniprogram/pages/prompter/prompter.js:17-65 | the run "ABC", "DEF", "GHI" on "ABCDEFGHIJ" returns only 6/10 |
| `AnchorExamples.CjkStart` | miniprogram/pages/prompter/prompter.js:9-12 | a matcher on "一二三四五六七八九十" from index 0 starts with that script and an empty buffer |
| `AnchorExamples.CjkFirst` | miniprogram/pages/prompter/prompter.js:32-56 | "一二三" on a fresh matcher returns 3/10 |
| `AnchorExamples.CjkSecond` | miniprogram/pages/prompter/prompter.js:32-56 | then "四五六" returns 6/10 through the three-character suffix |
| `AnchorExamples.CjkThird` | miniprogram/pages/prompter/prompter.js:32-56 | then "七八九" returns 9/10 |
| `AnchorExamples.CjkRun` | miniprogram/pages/prompter/prompter.js:17-65 | the run "一二三", "四五六", "七八九" returns 3/10, 6/10, 9/10 |
| `Prompter.AnchorTextMatcher.constructor` | miniprogram/pages/prompter/prompter.js:7-15 | the object's state is `Init` of the script and start index, with the window size 150 |
| `Prompter.AnchorTextMatcher.Match` | miniprogram/pages/prompter/prompter.js:17-65 | the in-place `match` leaves exactly the state and returns exactly the result of `AnchorMatching.Feed`; lastIndex never decreases, and a returned value is lastIndex / scriptLength in (0, 1] |
| `Prompter.AnchorTextMatcher.Reset` | miniprogram/pages/prompter/prompter.js:67-70 | the in-place `reset` leaves exactly the state of `AnchorMatching.Reset` |
| `Prompter.SearchFrom` | miniprogram/pages/prompter/prompter.js:26-63 | cutting the window and running the suffix loop gives exactly `AnchorMatching.Search` of the state |
| `Prompter.LongestAcceptedSuffix` | miniprogram/pages/prompter/prompter.js:30-64 | the descending loop returns a suffix length of 2 to min(buffer length, 20) that is accepted at the returned distance, with every longer suffix refused; it returns nothing only when every suffix is refused |
| `Prompter.TrySuffix` | miniprogram/pages/prompter/prompter.js:33-59 | one iteration of that loop yields exactly `Accept` of the suffix |
| `Prompter.RecognizedDelta` | miniprogram/pages/prompter/prompter.js:514-515 | the delta is what follows the already-seen prefix of the recognised text, or empty when nothing new was recognised |
| `Prompter.SafeProgress` | miniprogram/pages/prompter/prompter.js:493-499 | the progress read from the offset lies in [0, 1], and is 0 while the text height is not measured |
| `Prompter.ShareOf` | miniprogram/pages/prompter/prompter.js:502 | a share in [0, 1] of a length, rounded down, lies between 0 and the length |
| `Prompter.FollowStartIndex` | miniprogram/pages/prompter/prompter.js:493-502 | the start index handed to a new matcher lies between 0 and the normalised script length |
| `Prompter.PrompterPage.constructor` | miniprogram/pages/prompter/prompter.js:84-106 | the page starts with countdown 0, no interval, not running, offset 0 |
| `Prompter.PrompterPage.RunBasicScrollAnimation` | miniprogram/pages/prompter/prompter.js:415-431 | the fields step exactly as `PageControl.RunAnimation` |
| `Prompter.PrompterPage.StartBasicScroll` | miniprogram/pages/prompter/prompter.js:388-414 | with no measured height nothing changes; otherwise the fields step exactly as `PageControl.StartBasicScroll` |
| `Prompter.PrompterPage.CountdownTick` | miniprogram/pages/prompter/prompter.js:404-413 | the fields step exactly as `PageControl.Tick` |
| `Prompter.PrompterPage.StopAll` | miniprogram/pages/prompter/prompter.js:333-346 | the fields step exactly as `PageControl.StopAll` |
| `Prompter.PrompterPage.OnTouchStart` | miniprogram/pages/prompter/prompter.js:361-368 | the fields step exactly as `PageControl.TouchStart` |
| `Prompter.PrompterPage.OnTouchMove` | miniprogram/pages/prompter/prompter.js:370-381 | the fields step exactly as `PageControl.TouchMove` |
| `PageControl.RunAnimation` | miniprogram/pages/prompter/prompter.js:415-431 | a page already at `-contentHeight` is left alone; otherwise it runs with `-contentHeight` as its offset; the countdown, the finger position and the height are untouched |
| `PageControl.StartBasicScroll` | miniprogram/pages/prompter/prompter.js:396-403 | a duration of zero or less moves the text to its end position at once and leaves the countdown alone; a positive duration only sets the countdown to it and starts the interval |
| `PageControl.Tick` | miniprogram/pages/prompter/prompter.js:404-413 | above 1 only the countdown goes down by one; otherwise the interval is cleared, 0 is shown and the text heads to its end position; `CountdownTicks` states the whole countdown |
| `PageControl.Ticks` | miniprogram/pages/prompter/prompter.js:404-413 | a cleared interval fires no more; a countdown at 1 or below ends on the first tick; the finger position and the height never change |
| `PageControl.CountdownTicks` | miniprogram/pages/prompter/prompter.js:404-413 | a countdown showing c counts down by one per tick for c - 1 ticks; on tick c the interval is cleared, 0 is shown and the animation starts; then nothing more happens |
| `PageControl.ScrollStartsOnLastTick` | miniprogram/pages/prompter/prompter.js:396-413 | with a duration d of at least 1, after n < d ticks the countdown shows d - n and nothing else changed; from tick d on, the state is the started animation with 0 shown |
| `PageControl.ImmediateScroll` | miniprogram/pages/prompter/prompter.js:397-401 | a duration of zero or less starts the animation at once and sets no interval |
| `PageControl.StopAll` | miniprogram/pages/prompter/prompter.js:333-346 | stopping clears the interval, shows 0 if a countdown was running, and stops the page; offset and height are kept |
| `PageControl.TouchStart` | miniprogram/pages/prompter/prompter.js:361-368 | the finger position is recorded and the offset kept; a running page is stopped with its interval cleared; a page at rest changes nothing else |
| `PageControl.TouchMove` | miniprogram/pages/prompter/prompter.js:370-381 | the text moves by exactly the finger's movement since the last event, the new finger position is recorded, and nothing else changes; `DragFollowsFinger` states a whole sequence of moves |
| `PageControl.TouchMoves` | miniprogram/pages/prompter/prompter.js:370-381 | a sequence of moves changes only the offset and the recorded finger position, and an empty one changes nothing |
| `PageControl.DragFollowsFinger` | miniprogram/pages/prompter/prompter.js:370-381 | after any sequence of touch moves the offset has changed by exactly the last finger position minus the recorded one, and the recorded position is the last one |
| `PageControl.DragGesture` | miniprogram/pages/prompter/prompter.js:361-381 | a whole gesture moves the text by the finger's end position minus its start position |
| `Home.AdjustInputHeight` | miniprogram/pages/index/index.js:16-22 | the height is always in [200, 1200]; inside that range it is the old height plus the step, below it 200, above it 1200 |
| `Home.Trim` | miniprogram/pages/index/index.js:89 | `trim()` gives a string no longer than the input that is empty or begins and ends with a character other than ECMAScript white space or a line terminator |
| `Home.TrimEmptyIffBlank` | miniprogram/pages/index/index.js:106-109 | `content.trim()` is empty exactly when every character is white space or a line terminator, which is the guard `Home.IsBlank` tests |
| `Home.TrimIsInfix` | miniprogram/pages/index/index.js:89 | `trim()` is a contiguous piece of the input with only white space and line terminators before and after it, so it removes nothing else |
| `Home.WithoutContent` | miniprogram/pages/index/index.js:53 | the kept entries are exactly the old entries with another content, and they keep their old order |
| `Home.WithoutContentCounts` | miniprogram/pages/index/index.js:53 | every entry with another content is kept as often as it occurs, and every entry with that content is dropped |
| `Home.AddToHistory` | miniprogram/pages/index/index.js:50-69 | the new entry comes first, no other entry has its content, there are at most 10 entries, and the rest are old entries in their old order |
| `Home.AddToHistoryKeepsRecent` | miniprogram/pages/index/index.js:53-65 | the first nine old entries with another content all follow the new entry, in order |
| `Home.Submit` | miniprogram/pages/index/index.js:88-112 | `startPrompter` and `saveScript` refuse content whose trim is empty, leaving the history alone, and add any other content to the history |
| `Editor.FindIndex` | miniprogram/pages/editor/editor.js:44 | the first index with the id, or -1 exactly when no entry has it |
| `Editor.Find` | miniprogram/pages/editor/editor.js:18 | an entry is found exactly when some entry has the id, and it is the first one |
| `Editor.EditorPage.constructor` | miniprogram/pages/editor/editor.js:7-15 | with an id in the options the page takes it and shows the title and content of the first stored entry with that id |
| `Editor.EditorPage.LoadScript` | miniprogram/pages/editor/editor.js:16-25 | title and content become those of the first stored entry with the id; without such an entry they are unchanged |
| `Editor.EditorPage.SaveScript` | miniprogram/pages/editor/editor.js:32-62 | empty content stores nothing; with an id only the first entry with it is replaced, and the length and every other entry are kept; an unknown id leaves the list unchanged; without an id exactly one entry is appended at the end |
| `Editor.SaveThenLoadExisting` | miniprogram/pages/editor/editor.js:42-49 | after updating an existing entry, loading its id gives back the saved entry |
| `Editor.SaveThenLoadNew` | miniprogram/pages/editor/editor.js:50-58 | after appending an entry with a fresh id, loading that id gives back the new entry |

## Left out

- The speech-recognition plugin and its callbacks (`onRecognize`, `onStart`,
  `onStop`, `onError`, restart on stop). They are a foreign transport. Only
  the delta extraction is modelled (`Prompter.RecognizedDelta`).
- The turning of a returned fraction into a target offset, and the lerp loop
  that eases the offset towards it. These are floating-point animation steps.
- The CSS transition of the timed scroll and its duration
  `distance / (speed * 8 + 10)`. Only its target offset and the running flag
  are modelled.
- `PageControl.StopAll`: `stopAll` calls `freezeBasicScroll`, which reads the
  offset the scroll had reached back from the rendered transform matrix
  (`prompter.js:440-453`). The model keeps the offset it has, which during a
  scroll is the target `-contentHeight`. `PageControl.TouchStart` stops a
  running page through `StopAll` and has the same gap.
- Timers and frame scheduling: the one-second interval and the auto-hide
  timers. Each interval firing is one call of `CountdownTick`.
- Layout measurement and the retry 100 ms later when the height is still 0.
  The measured height is a constructor parameter. `StartBasicScroll` with a
  zero height leaves the state unchanged.
- `StartBasicScroll` while a countdown is already running overwrites the
  interval handle in `prompter.js`, and the old interval keeps firing. The model
  has a single interval. `PageControl.ScrollStartsOnLastTick` assumes no
  countdown is running.
- `stopAll` in follow mode (`stopSmartFollow`) and the mode switch. Only the
  basic-mode part of `stopAll` is modelled.
- Settings, status-bar colours, orientation, navigation, toasts and vibration.
  These are `wx` UI and storage calls.
- Date formatting of `displayTime` and `updatedAt`. The formatted time and the
  millisecond ids come in as parameters. The two `Date.now()` readings of a
  history entry are the separate parameters `id` and `timestamp`.
- `loadHistory` is defined twice in `index.js`, and the second definition
  wins. Called without an event it reads the stored history and formats its
  dates. Called from a tap on a history item it also copies that item's
  content into the input and vibrates (`index.js:73-76`), a plain field
  assignment. Neither definition is modelled.
- `Home.AdjustInputHeight`: the step comes from `parseInt` of a data
  attribute. A step that is not a number would make the height `NaN`; the
  model takes the step as an integer.
- `Home.AddToHistory`: `unshift` and `slice` act on the fresh array that
  `filter` returned, which nothing else references. The model therefore works
  on values.
- `Editor.EditorPage.SaveScript`: `editor.js` updates the stored entry objects
  in place. The model returns the new list, because nothing else holds
  references to the objects read from storage.
- The title and content input handlers of the editor, and the input and
  orientation handlers of the home page. They are plain field assignments.
- UTF-16: the JavaScript code measures strings in UTF-16 code units. Normalised text
  holds only characters from the Basic Multilingual Plane, so its lengths and
  indices agree with the model's.
- miniprogram/app.js: cloud SDK initialisation only.
