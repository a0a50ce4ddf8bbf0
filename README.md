# Lumos: voice-gated object summaries, modelled in Dafny

Lumos is an Android app with two screens:

- **Camera screen.** While *lumos* mode is on, each camera frame's object
  detections become a short spoken sentence, such as "2 person, 1 chair.". The
  sentence is also shown in the person view.
- **Audio screen.** It shows the last "on" or "off" command in a status view.

Each screen polls its own speech-command classifier on a timer. Only the
camera screen's commands switch the mode and recolour its person view; the
audio screen's commands only rewrite its status view.

This project models the repository's own logic around the TFLite models:

- **Detection summary.** The first label of each detection is filtered against
  a nine-label allow-list. The survivors are folded into `person`, `chair` and
  `vehicle` and counted in first-seen order. The counts are rendered into the
  sentence, or "Nothing detected." when nothing survives.
- **Audio command.** The first highest-scoring category of the first
  classification head is passed on if its label is "on" or "off"; otherwise
  the command is null.
- **Poller lifecycle.** `startInferencing` schedules a timer task only when
  none is held, `stopInferencing` cancels it, and each tick forwards the
  command to the one registered listener.
- **Handlers.** The camera screen's `onResults` drives the `lumos` flag and the
  person view's colours. The audio screen's `onResults` drives the status view,
  and its `onPause`/`onResume` stop and restart the poller.

Modules:

- `Wrappers`: `Option`, standing for Kotlin's nullable types.
- `Aggregation`: the detection summary, in `aggregation.dfy`.
  - It is pure functions.
  - The `forEachIndexed` loop that builds the sentence is the method
    `RenderSpeech`.
  - `ParseSpeech` reads a sentence back. The round-trip lemma shows the
    rendering loses nothing.
- `AudioInference`: `Inference` and the class `LumosClassifier`, in
  `lumos_classifier.dfy`.
  - The timer is the held task number, a count of scheduled tasks and the set
    of cancelled ones.
  - `Valid` says that the only task still scheduled and not cancelled is the
    one held. A timer whose thread has died of an exception is not modelled
    (see `AudioInference.LumosClassifier.Tick` under "Left out").
  - `Tick` is one run of the timer task's body.
- `ModeGate`: both `onResults` handlers as pure state machines over runs of
  commands, in `modegate.dfy`.
- `Fragment`: the classes `CameraFragment` and `AudioFragment`, with field
  updates and `modifies` frames, in `fragment.dfy`.
  - `Listener` stands for the `DetectorListener` interface.
  - `Poll` is one timer tick delivered to the screen that owns the poller.

## Behaviour of the code worth knowing

- **Score threshold.** The 0.7 score threshold is an option handed to the
  classifier library (`LumosClassifier.kt:41`). `inference` itself never
  compares a score with it, so the model treats the classifier output as
  already filtered.
- **Overlay while off.** When `lumos` is off, `onObjectDetectionResults` does
  nothing at all (`CameraFragment.kt:228`). The overlay is not updated either.
- **Null versus empty results.** A null result list shows "Nothing detected."
  without speaking. An empty, non-null list speaks "Nothing detected.".
- **Independent pollers.** Each screen creates its own `LumosClassifier`, and
  only the camera screen holds a `lumos` flag. The two screens agree only when
  they receive the same commands (`ModeGate.ScreensAgree`).
- **No error handling in the tick.** The timer task has no error handling
  (`LumosClassifier.kt:119-122`). An uncaught exception in a tick ends the
  timer's thread, and on Android the default uncaught-exception handler then
  terminates the app. The model has no such failure; see
  `AudioInference.LumosClassifier.Tick` under "Left out".
- **Camera poller never stops.** The camera screen has no `onPause`, so its
  poller is never stopped.

## Model

| member | source | states |
|---|---|---|
| Aggregation.FilterTargets | app/src/main/java/com/example/pj4test/fragment/CameraFragment.kt:238-259 | the kept labels are never more than the input labels and are all on the nine-label allow-list |
| Aggregation.FilterCounts | app/src/main/java/com/example/pj4test/fragment/CameraFragment.kt:259 | each allow-listed label occurs in the filtered list exactly as often as in the input; every other label does not occur |
| Aggregation.FilterKeepsTargets | app/src/main/java/com/example/pj4test/fragment/CameraFragment.kt:259 | a list made only of allow-listed labels passes the filter unchanged |
| Aggregation.FilterAppend | app/src/main/java/com/example/pj4test/fragment/CameraFragment.kt:259 | filtering distributes over concatenation, so order is kept |
| Aggregation.UnlistedLabelIgnored | app/src/main/java/com/example/pj4test/fragment/CameraFragment.kt:238-259 | a label off the allow-list, inserted anywhere, leaves the sentence unchanged, so it never shows in it |
| Aggregation.SpeechOfTargets | app/src/main/java/com/example/pj4test/fragment/CameraFragment.kt:259-290 | the sentence depends only on the allow-listed labels, in order |
| Aggregation.ToCategory | app/src/main/java/com/example/pj4test/fragment/CameraFragment.kt:263-273 | maps couch and bench to chair, the five vehicle labels to vehicle, and leaves every other label as it is; its properties on allow-listed labels are stated by `CategoryOfTarget` |
| Aggregation.MapCategories | app/src/main/java/com/example/pj4test/fragment/CameraFragment.kt:263 | the `map` step: one category per filtered label, in order; its counts are stated by `MapCategoriesCounts` and `MappedTargetsCounts` |
| Aggregation.CategoryOfTarget | app/src/main/java/com/example/pj4test/fragment/CameraFragment.kt:263-273 | every allow-listed label maps to person, chair or vehicle; person from person only, chair exactly from chair, couch and bench, vehicle exactly from the five vehicle labels |
| Aggregation.MapCategoriesCounts | app/src/main/java/com/example/pj4test/fragment/CameraFragment.kt:263-273 | after mapping, the person count is the person count, the chair count is chair plus couch plus bench, and the vehicle count is the sum over the vehicle labels |
| Aggregation.MappedTargets | app/src/main/java/com/example/pj4test/fragment/CameraFragment.kt:259-263 | the list handed to `groupingBy`: the filtered labels, each folded into its category; its length, categories and counts are stated by `MappedTargetsCounts` |
| Aggregation.MappedTargetsCounts | app/src/main/java/com/example/pj4test/fragment/CameraFragment.kt:259-273 | the mapped list is as long as the filtered one, holds only the three categories, and each category occurs as often as its source labels did |
| Aggregation.CategoryMultiplicity | app/src/main/java/com/example/pj4test/fragment/CameraFragment.kt:259-273 | for each of the three categories, its occurrences equal the summed occurrences of the labels mapped to it |
| Aggregation.Bump | app/src/main/java/com/example/pj4test/fragment/CameraFragment.kt:274-277 | one step of `groupingBy`/`eachCount`: the pair of an already-seen name is incremented in place, a new name gets a pair with count 1 at the end; stated by `BumpExisting` and `BumpNew` |
| Aggregation.EachCount | app/src/main/java/com/example/pj4test/fragment/CameraFragment.kt:274-277 | `groupingBy { it }.eachCount().toList()` over a list, as successive `Bump` steps; its properties are those of `EachCountSpec` |
| Aggregation.EachCountSpec | app/src/main/java/com/example/pj4test/fragment/CameraFragment.kt:274-277 | grouping and counting gives distinct names, exactly the names that occur, each with its number of occurrences, in order of first occurrence, with counts summing to the list length |
| Aggregation.AtMostThree | app/src/main/java/com/example/pj4test/fragment/CameraFragment.kt:256-258 | distinct names drawn from the three categories make at most three pairs |
| Aggregation.ObjectCounts | app/src/main/java/com/example/pj4test/fragment/CameraFragment.kt:263-277 | `objectCounts`: the category counts of the filtered, mapped labels; its properties are stated by `ObjectCountsSpec` |
| Aggregation.ObjectCountsSpec | app/src/main/java/com/example/pj4test/fragment/CameraFragment.kt:261-277 | each pair names one of the three categories with a count of at least 1; names are distinct; at most three pairs; a category appears exactly when some label maps to it, with that many occurrences; pairs are in first-seen order; the counts sum to `totalTargetCount` |
| Aggregation.NatToString | app/src/main/java/com/example/pj4test/fragment/CameraFragment.kt:285 | the decimal text of a count is non-empty, all digits, and has a leading zero only for zero |
| Aggregation.ParseNatToString | app/src/main/java/com/example/pj4test/fragment/CameraFragment.kt:285 | reading the decimal text back gives the count |
| Aggregation.ItemText | app/src/main/java/com/example/pj4test/fragment/CameraFragment.kt:285-287 | one item of the sentence, the count's decimal text, a space and the name; `ParseItemText` reads it back and `RenderSpeech` is proved to build the sentence from it |
| Aggregation.Render | app/src/main/java/com/example/pj4test/fragment/CameraFragment.kt:282-289 | the sentence of a list of pairs, "count name" each, joined by ", " and ended by "."; `RenderSpeech` is proved to compute it and `ParseRender` reads it back |
| Aggregation.RenderSpeech | app/src/main/java/com/example/pj4test/fragment/CameraFragment.kt:282-289 | the accumulating loop produces the sentence in which every pair but the last is followed by ", " and the last by "." |
| Aggregation.ParseRender | app/src/main/java/com/example/pj4test/fragment/CameraFragment.kt:282-289 | a non-empty list of pairs with well-formed names is read back from its sentence exactly |
| Aggregation.SpeechCases | app/src/main/java/com/example/pj4test/fragment/CameraFragment.kt:279-290 | the sentence is "Nothing detected." exactly when no label passes the filter; otherwise it is the rendered counts and ends with "." |
| Aggregation.SpeechOf | app/src/main/java/com/example/pj4test/fragment/CameraFragment.kt:250-290 | the `speech` of a frame with non-null results; its cases are stated by `SpeechCases` and its round trip by `SpeechRoundTrip` |
| Aggregation.SpeechRoundTrip | app/src/main/java/com/example/pj4test/fragment/CameraFragment.kt:250-290 | the shown sentence determines the category counts: parsing it gives back exactly the pairs computed from the labels |
| Aggregation.TwoPersonsOneChair | app/src/main/java/com/example/pj4test/fragment/CameraFragment.kt:256-290 | labels person, chair, person give "2 person, 1 chair." |
| AudioInference.MaxIndexFrom | app/src/main/java/com/example/pj4test/audioInference/LumosClassifier.kt:110 | the scan that replaces its candidate only on a strictly greater score ends at the first maximum |
| AudioInference.MaxIndex | app/src/main/java/com/example/pj4test/audioInference/LumosClassifier.kt:110 | `maxByOrNull` on a non-empty list picks a highest score with no equal score before it |
| AudioInference.FirstMaximumUnique | app/src/main/java/com/example/pj4test/audioInference/LumosClassifier.kt:110 | there is only one first maximum, so the selection is deterministic |
| AudioInference.IsCommandLabel | app/src/main/java/com/example/pj4test/audioInference/LumosClassifier.kt:113 | the test that the winning label is "on" or "off"; `Inference` states that only such labels are passed on |
| AudioInference.Inference | app/src/main/java/com/example/pj4test/audioInference/LumosClassifier.kt:101-114 | null for an empty output and for a head without categories; otherwise the first-maximum label if it is "on" or "off", else null; the result is never another label |
| AudioInference.TieGoesToFirst | app/src/main/java/com/example/pj4test/audioInference/LumosClassifier.kt:110-113 | when the first two categories tie for the top score the first one decides the command |
| AudioInference.LumosClassifier.constructor | app/src/main/java/com/example/pj4test/audioInference/LumosClassifier.kt:24-27 | a new classifier has no listener and no task |
| AudioInference.LumosClassifier.Initialize | app/src/main/java/com/example/pj4test/audioInference/LumosClassifier.kt:38-52 | initialisation ends by starting the poller, with the effect of `startInferencing` |
| AudioInference.LumosClassifier.StartInferencing | app/src/main/java/com/example/pj4test/audioInference/LumosClassifier.kt:117-124 | a held task is kept and nothing is scheduled; without one, exactly one new task is scheduled and held; either way exactly one task is live |
| AudioInference.LumosClassifier.StopInferencing | app/src/main/java/com/example/pj4test/audioInference/LumosClassifier.kt:126-129 | the held task, if any, is cancelled, no task is held or live, and the listener is kept |
| AudioInference.LumosClassifier.SetDetectorListener | app/src/main/java/com/example/pj4test/audioInference/LumosClassifier.kt:147-149 | the given listener becomes the only listener; the task state is unchanged |
| AudioInference.LumosClassifier.Tick | app/src/main/java/com/example/pj4test/audioInference/LumosClassifier.kt:119-122 | a tick delivers to the listener exactly when a task is held and a listener is set, and what it delivers is the inferred command, null included |
| AudioInference.AtMostOneLiveTask | app/src/main/java/com/example/pj4test/audioInference/LumosClassifier.kt:117-129 | in every valid state at most one timer task is ticking |
| ModeGate.NextLumos | app/src/main/java/com/example/pj4test/fragment/CameraFragment.kt:314-326 | `onResults` on the `lumos` flag; stated by `LumosCommands` and `LumosAfterLastDecisive` |
| ModeGate.NextPersonView | app/src/main/java/com/example/pj4test/fragment/CameraFragment.kt:314-326 | `onResults` on the person view's colours; stated by `PersonViewCommands` and `PersonViewKeepsText` |
| ModeGate.NextStatusView | app/src/main/java/com/example/pj4test/fragment/AudioFragment.kt:59-71 | `onResults` on the status view; stated by `StatusViewCommands` and `StatusAfterLastDecisive` |
| ModeGate.RunOfOthers | app/src/main/java/com/example/pj4test/fragment/CameraFragment.kt:314-326 | for a handler that ignores other commands, a run of commands none of which is "on" or "off" leaves the state as it was |
| ModeGate.RunLastDecisive | app/src/main/java/com/example/pj4test/fragment/CameraFragment.kt:314-326 | for such a handler the state after a run is what the last "on" or "off" made of the state before it |
| ModeGate.RunAppend | app/src/main/java/com/example/pj4test/fragment/CameraFragment.kt:314-326 | handling a + b is handling a, then b |
| ModeGate.TraceIsRun | app/src/main/java/com/example/pj4test/fragment/CameraFragment.kt:314-326 | the k-th state of a trace is the state after the first k + 1 commands |
| ModeGate.Stutter | app/src/main/java/com/example/pj4test/fragment/AudioFragment.kt:59-71 | for an idempotent handler, a command repeated back to back has the effect of one |
| ModeGate.LumosCommands | app/src/main/java/com/example/pj4test/fragment/CameraFragment.kt:314-326 | "on" sets `lumos`, "off" clears it, every other command including null leaves it, and handling a command twice equals once |
| ModeGate.LumosAfterLastDecisive | app/src/main/java/com/example/pj4test/fragment/CameraFragment.kt:314-326 | after any commands, `lumos` is set exactly when the last "on"/"off" was "on" |
| ModeGate.LumosTraceExample | app/src/main/java/com/example/pj4test/fragment/CameraFragment.kt:314-326 | [on, null, off, null, on] yields [T, T, F, F, T] from either start |
| ModeGate.PersonViewCommands | app/src/main/java/com/example/pj4test/fragment/CameraFragment.kt:314-326 | "on" gives the person view the active colours, "off" the idle ones, its text is kept, other commands change nothing, and a repeat changes nothing |
| ModeGate.PersonViewKeepsText | app/src/main/java/com/example/pj4test/fragment/CameraFragment.kt:314-326 | no run of commands changes the person view's text |
| ModeGate.CameraAgreementKept | app/src/main/java/com/example/pj4test/fragment/CameraFragment.kt:314-326 | the person view has the active background exactly when `lumos` is on, and every run of commands keeps that so |
| ModeGate.StatusViewCommands | app/src/main/java/com/example/pj4test/fragment/AudioFragment.kt:59-71 | "on" shows "Lumos ON" in the active colours and "off" shows "Lumos OFF" in the idle ones whatever was shown; other commands including null change nothing; a repeat changes nothing |
| ModeGate.StatusAfterLastDecisive | app/src/main/java/com/example/pj4test/fragment/AudioFragment.kt:59-71 | after any commands, the status view is the one set by the last "on"/"off", whatever it showed at the start |
| ModeGate.ScreensAgree | app/src/main/java/com/example/pj4test/fragment/AudioFragment.kt:59-71 | given the same commands with at least one "on"/"off", the audio screen says "Lumos ON" exactly when the camera screen's `lumos` is on |
| ModeGate.LastDecisive | app/src/main/java/com/example/pj4test/fragment/CameraFragment.kt:314-326 | (proof helper for `ScreensAgree`) the position of the last "on"/"off" in a run, at or after a known one |
| Fragment.FirstLabels | app/src/main/java/com/example/pj4test/fragment/CameraFragment.kt:252-254 | `results.map { it.categories[0].label }`: one label per detection, in order |
| Fragment.ShownText | app/src/main/java/com/example/pj4test/fragment/CameraFragment.kt:250-302 | the person view's text after a frame with detection on: "Nothing detected." for null results, otherwise the frame's sentence; `OnObjectDetectionResults` is proved to set it |
| Fragment.Dispatch | app/src/main/java/com/example/pj4test/audioInference/LumosClassifier.kt:121 | a delivery calls the `onResults` of the listener it names, with that screen's effect and no other |
| Fragment.CameraFragment.constructor | app/src/main/java/com/example/pj4test/fragment/CameraFragment.kt:96-134 | detection starts off, the person view is the layout's, a fresh poller is started with one live task, task 0 of one scheduled and none cancelled, and reports to this screen |
| Fragment.CameraFragment.OnObjectDetectionResults | app/src/main/java/com/example/pj4test/fragment/CameraFragment.kt:222-305 | with `lumos` off nothing changes. With it on: the overlay gets the results (empty for null) and is redrawn once; the person view's text becomes the frame's sentence, "Nothing detected." for null; a non-null result is spoken, and sets `timeToSpeak` to 1; a null one is not. The colours and `lumos` are untouched. |
| Fragment.CameraFragment.OnResults | app/src/main/java/com/example/pj4test/fragment/CameraFragment.kt:314-326 | `lumos` and the person view follow the mode gate; the overlay, speech log and `timeToSpeak` are untouched; the colour/mode agreement is kept |
| Fragment.CameraFragment.Poll | app/src/main/java/com/example/pj4test/audioInference/LumosClassifier.kt:119-122 | while the task is held, a tick applies the inferred command to `lumos` and the person view; otherwise nothing changes |
| Fragment.AudioFragment.constructor | app/src/main/java/com/example/pj4test/fragment/AudioFragment.kt:38-46 | the status view is the layout's and a fresh poller is started with one live task, task 0 of one scheduled and none cancelled, and reports to this screen |
| Fragment.AudioFragment.OnPause | app/src/main/java/com/example/pj4test/fragment/AudioFragment.kt:48-51 | the poller holds no task and no task is live; the task it held, if any, joins the cancelled ones and nothing else is cancelled |
| Fragment.AudioFragment.OnResume | app/src/main/java/com/example/pj4test/fragment/AudioFragment.kt:53-56 | exactly one task is live afterwards; resuming while one is held keeps it and schedules nothing; otherwise the next task number is scheduled and held; nothing is cancelled |
| Fragment.AudioFragment.OnResults | app/src/main/java/com/example/pj4test/fragment/AudioFragment.kt:59-71 | the status view follows the audio-screen state machine |
| Fragment.AudioFragment.Poll | app/src/main/java/com/example/pj4test/audioInference/LumosClassifier.kt:119-122 | while the task is held, a tick applies the inferred command to the status view; otherwise nothing changes |

## Left out

- TFLite inference (`classifier.classify`, `personClassifier.detect`) and model loading are foreign calls. The classifier output and the detections are inputs of `Inference`, `Tick`, `Poll` and `OnObjectDetectionResults`.
- Audio capture (`AudioRecord`, `TensorAudio.load`, starting and stopping the recording) is device I/O. It is not modelled.
- CameraX setup, binding, rotation, the keep-latest backpressure flag and the bitmap copy are library configuration and I/O, so they are not modelled.
- The 500 ms timer cadence and the timer thread are concurrency, reduced to a held or absent task plus an explicit tick. `runOnUiThread` and cross-thread visibility of `lumos` are concurrency too; each handler runs as one atomic step.
- Fragment.CameraFragment.OnObjectDetectionResults: with no activity attached, `activity?.runOnUiThread` (`CameraFragment.kt:229`) skips the whole update, even with `lumos` on. The model assumes the fragment is attached and always performs it.
- AudioInference.LumosClassifier.StopInferencing: a tick already running when `cancel` is called may still deliver in the source. In the model a tick is atomic and cannot overlap a stop.
- Scores are integers rather than floats. The 0.7 threshold is applied inside the library and is not modelled.
- Text-to-speech setup and voice output are not modelled. `speak` is an entry appended to the `spoken` log.
- Overlay drawing, the error toast of `onObjectDetectionError` and the actual colour values are not modelled. The overlay is the last results it was given plus a redraw count. Colours are opaque tokens.
- Bounding boxes and every detection field other than the category labels are not modelled.
- Fragment.CameraFragment.OnObjectDetectionResults requires, only while `lumos` is on and the results are non-null, that every detection carries a category: the source then reads `categories[0]` without a check (`CameraFragment.kt:252-254`). With `lumos` off the source reads nothing, and the model accepts any results.
- AudioInference.LumosClassifier.Tick: the model makes `classify` total and a tick always completes. In the source an uncaught exception in the tick escapes the `java.util.Timer` thread, and on Android the default uncaught-exception handler then terminates the app. The exception can come from `tensor.load`/`classifier.classify` (`LumosClassifier.kt:103-105`). It can also come from `CameraFragment.onResults` reading the `lateinit` `personView` (`CameraFragment.kt:318`, `:323`): the camera poller is started and given its listener at `CameraFragment.kt:99-101`, but `personView` is assigned only at `:133`, so an "on" or "off" in that window throws. The model's `CameraFragment` constructor assigns `personView` before starting the poller, so this window does not exist in the model.
- Aggregation.ObjectCountsSpec: counts are unbounded naturals, not Kotlin's 32-bit `Int`. In the model they cannot overflow.
- View inflation, the binding objects, `onDestroyView`, `onConfigurationChanged` and the camera executor's shutdown are Android lifecycle plumbing. They are not modelled.
