# Lesson playback engine of Easy PrepAI

Easy PrepAI shows a tutoring lesson on an animated whiteboard. A lesson is a
fixed sequence of steps fetched from a lesson service; each step either
*writes* content onto the board or *explains* it in a narration bubble. This
project models the playback engine in `App.tsx` and the data types of
`types.ts`:

- `LessonTypes` (`lesson_types.dfy`): `LessonStep`, `LessonData`,
  `BoardContent`, the `write`/`explain` action and the `top`/`center`/`below`
  position.
- `JsText` (`js_text.dfy`): the two JavaScript string operations the engine
  uses. One is `String.prototype.trim`, with ECMAScript's set of whitespace and
  line-terminator characters. The other is the decimal rendering of an index
  inside the template literal `step-${i}`.
- `Playback` (`playback.dfy`): `reconstructBoardState` as a loop method
  (`ReconstructBoard`). It is proved equal to a recursive fold over the step
  prefix (`Replay`), and the board and explanation properties are proved about
  that fold. The module also holds the auto-play arming rule and delay
  (`AutoPlayDelay`) and `isComplete` (`IsComplete`).
- `App` (`app.dfy`): the component's session state as a class `Session`.
  Its fields are the prompt text, the lesson, the cursor, the board, the
  explanation, the loading flag, the error, the auto-play flag and the
  attached files. Each handler is a method whose frame lists exactly the
  fields it sets. `Valid()` is the cursor invariant that every handler keeps.
- `Walkthrough` (`walkthrough.dfy`): a client that plays a four-step lesson
  from the start screen to the end of the session. It relies only on the
  handlers' contracts and on the reconstruction of that lesson at each step.

Modelling choices:

- `startLesson` awaits the lesson service, so it is split in two methods.
  `BeginLesson` is the part before the await and returns the request it would
  send. `FinishLesson` is the part after it and takes the service's outcome
  (a lesson or a failure) as a parameter. Other handlers may run between the
  two calls, as they can in the browser.
- The lesson service may return a lesson with no steps. `startLesson` then
  puts the cursor on index 0 of an empty lesson, and `reconstructBoardState(0)`
  reads a step that does not exist and throws before it sets any state. The
  model keeps this path: `ReconstructBoard` returns `None`, and
  `ReconstructBoardState` and `SyncBoard` return `ok == false` and leave the
  board alone. For the same reason `Valid()` bounds the cursor by the last step
  only for non-empty lessons.
- An armed auto-play timer that fires is a call to `HandleNext`.
- Three behaviours of the code to note. `onRestart` keeps the cursor
  (App.tsx:153). A failed fetch leaves `lessonData` as it was (App.tsx:109-110).
  The cursor can sit at 0 on an empty lesson (App.tsx:108, 117-121).

## Model

| member | source | states |
|---|---|---|
| `JsText.TrimStart` | App.tsx:93 | The result is the longest suffix of the text that does not start with whitespace; everything dropped is whitespace. |
| `JsText.TrimEnd` | App.tsx:93 | The result is the longest prefix of the text that does not end with whitespace; everything dropped is whitespace. |
| `JsText.TrimEmptyIffBlank` | App.tsx:93 | `trim()` yields the empty string exactly when every character of the prompt is whitespace. |
| `JsText.Decimal` | App.tsx:37 | The rendering of an index is a non-empty string of decimal digits with no leading zero (except for 0 itself). |
| `JsText.DecimalRoundTrip` | App.tsx:37 | Reading the decimal rendering of an index back gives the index again. |
| `JsText.DecimalInjective` | App.tsx:37 | Distinct indices render as distinct digit strings. |
| `Playback.StepIdInjective` | App.tsx:37 | Distinct steps get distinct ids `step-i`. |
| `Playback.Replay` | App.tsx:28-49 | Reconstruction to `t` yields at most `t + 1` entries, each stamped with a step index in `[0, t]`. |
| `Playback.ReconstructBoard` | App.tsx:30-46 | The loop's result equals the fold `Replay` over `steps[0..targetIndex]`. A target past the last step ends in the thrown error (`None`), and every target within the lesson succeeds. |
| `Playback.ReplayOnlyWrites` | App.tsx:33-41 | Every entry on the board for `t` is the entry of a write step `i` at or before `t`: id `step-i`, that step's content as text, timestamp `i`, and the step's position or `center`. |
| `Playback.ReplayInStepOrder` | App.tsx:33-41 | The entries on the board appear in strictly increasing step order, so no step contributes twice. |
| `Playback.ReplayHasEveryWrite` | App.tsx:33-41 | Every write step at or before `t` has its entry on the board. |
| `Playback.ReplayBoardExact` | App.tsx:33-41 | The board holds exactly one entry per write step in `steps[0..t]`, in step order (the three properties above together). |
| `Playback.ReplayIdsDistinct` | App.tsx:36-41 | No two entries on a reconstructed board share an id. |
| `Playback.ReplayStep` | App.tsx:33-46 | The board for `t + 1` is the board for `t` plus the entry of step `t + 1` when that step writes, and the same board when it explains. |
| `Playback.ReplayPrefix` | App.tsx:33-46 | The board for an earlier target is a prefix of the board for any later target. |
| `Playback.LastExplain` | App.tsx:42-44 | Gives the index of the last explain step at or before `t`, or -1 when there is none. |
| `Playback.ReplayExplanation` | App.tsx:31-48 | The explanation is the content of the last explain step at or before `t` when no write step follows it, and null otherwise. Equivalently, it is present exactly when step `t` explains, and then it is that step's content. |
| `Playback.AutoPlayDelay` | App.tsx:63-64 | A timer is armed exactly when auto-play is on, a lesson is loaded, the cursor is before the last step and nothing is loading. Its delay is 2500 when the next step explains and 1500 otherwise. |
| `Playback.ArmedIffNotComplete` | App.tsx:123 | A timer is armed exactly when auto-play is on, nothing is loading and the loaded lesson is not complete. |
| `App.IsEmptyRequest` | App.tsx:93 | The guard holds exactly when the prompt is all whitespace and no file is attached. |
| `App.FormatFiles` | App.tsx:101-103 | Each attached file becomes one request file with the same data and MIME type, in attachment order. |
| `App.Session.constructor` | App.tsx:14-22 | The initial session: no input, no lesson, cursor -1, empty board, no explanation, not loading, no error, auto-play off, no files. |
| `App.Session.HandleNext` | App.tsx:51-59 | With no lesson nothing changes. At or past the last step, auto-play goes off and the lesson is unloaded with the cursor kept. Otherwise the cursor moves forward by exactly one and stays within the lesson. An armed timer's firing always moves forward. |
| `App.Session.Previous` | App.tsx:152 | Auto-play always goes off. The cursor moves back by one only when it is above 0, so it never drops below 0. |
| `App.Session.Restart` | App.tsx:153 | Auto-play goes off and the lesson is unloaded. The cursor and everything else are untouched. |
| `App.Session.ToggleAutoPlay` | App.tsx:155 | Auto-play flips and nothing else changes. |
| `App.Session.DismissError` | App.tsx:142 | The error is cleared and nothing else changes. |
| `App.Session.SetUserInput` | App.tsx:171 | The input box holds the typed text and nothing else changes. |
| `App.Session.AttachFile` | App.tsx:83 | A read file is appended to the attached files and nothing else changes. |
| `App.Session.BeginLesson` | App.tsx:91-103 | A blank prompt with no files changes nothing and sends nothing. Otherwise loading starts, the error, board and explanation are cleared, the cursor goes to -1, and the request carries the chosen prompt and the formatted files. The lesson and auto-play are untouched. |
| `App.Session.FinishLesson` | App.tsx:105-114 | A fetched lesson is stored with the cursor at 0. A failure sets the fixed error message and keeps lesson and cursor. Either way loading ends and the attached files are cleared. |
| `App.Session.ReconstructBoardState` | App.tsx:28-49 | With no lesson nothing changes. Otherwise the board and explanation become `Replay` of the lesson up to the target. A target past the last step throws and changes nothing. |
| `App.Session.SyncBoard` | App.tsx:117-121 | With a lesson loaded and the cursor on a step, the board is rebuilt for the cursor. It fails only for a loaded lesson with no steps. Otherwise nothing changes. |
| `Walkthrough.SubstitutionReplays` | App.tsx:33-46 | On the four-step integration lesson, the board and explanation at each step are as expected: one entry and no explanation at step 0, one entry and the substitution hint at step 1, two entries at step 2, three at step 3. |

## Left out

- The lesson service client and the relay server (`services/geminiService.ts`, `server.js`): the network call, the prompt and schema constants and the JSON parsing of the reply. The call's result is the `FetchOutcome` parameter of `FinishLesson`. A reply that does not parse is one of its failures.
- A step whose `action` is neither `write` nor `explain` cannot occur in the model. The `Action` datatype has only those two values, as `types.ts` declares.
- The real `setTimeout`/`clearTimeout` lifecycle and React's effect, batching and closure semantics (App.tsx:62-71). Only the arming condition and the delay are modelled. The guarantee of at most one pending timer is not modelled.
- The thrown `TypeError` is modelled as a failed call that changes nothing. The model does not capture what React does after an effect throws (the component tree unmounts).
- Reading files with `FileReader` and splitting the data URL (App.tsx:73-89). Only the final append of a read file is modelled, as `AttachFile`.
- The whiteboard component (`components/Whiteboard.tsx`): rendering, scrolling and button enabling. The handlers do not check the buttons' enabled state themselves, so the model does not require it either.
- JSX markup, the preset buttons, styling and the "Step n / m" label.
- Two `startLesson` calls can overlap, for example a preset clicked while a lesson is loading. The model lets `BeginLesson` and `FinishLesson` calls interleave freely but does not pair each reply with its request.
