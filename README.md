# EditorCore and formatTime, modelled in Dafny

This project models the core of a browser video preview and frame-export widget:

- `EditorCore` (packages/editor-core/src/editor.ts) drives a hidden video element and an off-screen canvas. It mirrors play, pause, seek and source changes into an optional preview element, captures single frames with a seek-then-capture sequence, and keeps a timeline of clip records.
- `formatTime` (apps/web/components/video-editor/index.tsx) renders a position in seconds as `m:ss` for the player's "current / duration" label.

Files:

- `wrappers.dfy` (module `Wrappers`): `Option` and `Result`.
- `clips.dfy` (module `Clips`): the clip records, the `{ ...clip, id }` construction and the id filter that `removeClip` applies, with its order and multiplicity lemmas.
- `editor.dfy` (module `Editor`): the class `EditorCore`. Its fields are the source's fields except `context`, which has no counterpart (drawing is part of the `Image` abstraction). It adds five fields that are not in the source: `loadHandler`, `pendingLoad` and `pendingCapture` stand for the hidden element's `onloadedmetadata`, `onerror` and `onseeked` properties and the promises behind them, and `nextLoad` and `nextTicket` number those promises. Each video element is kept as its `src`, `currentTime` and paused flag. Browser events are explicit steps:
  - `FireLoadedMetadata` and `FireLoadError` stand for the handlers that `loadVideo` installs. Each load promise gets a number. `loadHandler` is the load whose handlers are installed, and `pendingLoad` is that load while its promise has not settled.
  - `FireSeeked` stands for the `onseeked` handler that `extractFrame` installs.
  - `FireTimeUpdate` and `FireEnded` stand for the listeners that the constructor registers, and `AdvancePlayback` for the browser moving the position while the video plays.
  - The `onseeked` handler is a single pending-capture slot. It holds the number of the promise `extractFrame` handed out and the requested timestamp.
  - `Valid()` is the object invariant: `isPlaying` and a waiting capture imply loaded metadata; loaded metadata has 30 fps; the canvas has the metadata's size; an unsettled load is the one whose handlers are installed.
  - The methods at the end of the module are client scenarios that use only the class's contracts.
- `time_format.dfy` (module `TimeFormat`): `formatTime` over exact real input. It writes out `Math.floor`, JavaScript's sign-of-dividend `%`, integer `toString` and `padStart`, and adds an `m:ss` reader for the round trip.

Browser and environment inputs are parameters:

- the object URL from `URL.createObjectURL` is the `url` argument of `LoadVideo`;
- the id from `crypto.randomUUID` is the `id` argument of `AddClip`;
- the duration and size the browser reports are the arguments of `FireLoadedMetadata`;
- the playback callback is an opaque `CallbackId`, and calling it is returned as a `Notification`;
- the pixels `getImageData` returns are abstracted as an `Image`: the position they were drawn at, and their width and height.

The code does less than some of its method names suggest; the model follows the code:

- `pause` has no metadata guard. It always clears `isPlaying` and pauses both elements. Only `play` is guarded, so `togglePlayPause` without metadata is a no-op only because `isPlaying` is then false.
- When `extractFrame` is called again before the seek settles, the new call replaces the `onseeked` handler. The earlier promise is then never resolved; it does not resolve with the later frame. The handler that does fire tags the frame with its own request's timestamp, but the picture is taken wherever the element is when the seek settles. `SeekDuringCapture` shows this.
- The captured image's size is read from `metadata` when the seek settles, not when `extractFrame` is called.
- `seekTo` moves the preview only when one is attached. `extractFrame` moves only the hidden element.
- A load error rejects the waiting load but keeps earlier metadata, so a core that loaded once stays "loaded".
- A second `loadVideo` before the first settles replaces the handlers, so the first promise never settles. `OverlappingLoads` shows this.
- `getImageData` throws `IndexSizeError` when the loaded width or height is 0. `getCurrentFrame` then throws, and the `onseeked` handler throws before it resolves, so that capture keeps waiting until a seek happens once a real size is loaded. `ZeroSizeCapture` shows this.

## Model

| member | source | states |
|---|---|---|
| `Clips.WithId` | packages/editor-core/src/editor.ts:164 | the stored record carries the generated id, and its other fields are exactly the draft's |
| `Clips.DraftWithId` | packages/editor-core/src/editor.ts:164 | a stored record is rebuilt by putting its own id back on its other fields, so `{ ...clip, id }` adds only the id |
| `Clips.RemoveId` | packages/editor-core/src/editor.ts:168-170 | the filtered timeline is no longer than before, and each record in it was on the timeline and has a different id |
| `Clips.RemoveIdMembers` | packages/editor-core/src/editor.ts:168-170 | a record is in the filtered timeline if and only if it was on the timeline and its id is not the removed one |
| `Clips.RemoveIdMultiplicity` | packages/editor-core/src/editor.ts:168-170 | every record with the removed id is dropped, and every other record keeps its number of occurrences |
| `Clips.RemoveIdAppend` | packages/editor-core/src/editor.ts:168-170 | filtering a concatenation is the concatenation of the filtered parts, so the kept records stay in their order |
| `Clips.RemoveIdAbsent` | packages/editor-core/src/editor.ts:168-170 | removing an id that no record carries leaves the timeline unchanged |
| `Clips.RemoveIdIdempotent` | packages/editor-core/src/editor.ts:168-170 | removing the same id twice is the same as removing it once |
| `Clips.AddThenRemove` | packages/editor-core/src/editor.ts:162-170 | appending a record under an id no earlier record has, then removing that id, restores the previous timeline |
| `Editor.EditorCore.constructor` | packages/editor-core/src/editor.ts:21-48 | starts with an empty hidden element, a 1x1 canvas, no preview, no metadata, not playing, no callback, an empty timeline, no load or capture handler and both counters at 0, and satisfies the invariant |
| `Editor.EditorCore.Valid` | packages/editor-core/src/editor.ts:26-111 | definition of the object invariant, kept by every method: playing and a waiting capture need metadata (`play` is guarded and metadata is never cleared), metadata has 30 fps and the canvas's size, an unsettled load is the installed one, and all numbers in use were handed out |
| `Editor.EditorCore.SetPreviewElement` | packages/editor-core/src/editor.ts:50-54 | the given element becomes the preview and gets the hidden element's source |
| `Editor.EditorCore.SetPlaybackCallback` | packages/editor-core/src/editor.ts:56-58 | the given callback becomes the only registered one, replacing any earlier one |
| `Editor.EditorCore.Play` | packages/editor-core/src/editor.ts:60-65 | without metadata nothing changes; with metadata the core is playing and both elements are unpaused, with nothing else changed |
| `Editor.EditorCore.Pause` | packages/editor-core/src/editor.ts:67-71 | whether or not metadata is loaded, the core is not playing and both elements are paused |
| `Editor.EditorCore.TogglePlayPause` | packages/editor-core/src/editor.ts:73-79 | with metadata the playing flag flips and both elements' paused flags follow it; without metadata the core is stopped and nothing changes |
| `Editor.EditorCore.GetIsPlaying` | packages/editor-core/src/editor.ts:81-83 | returns the playing flag, which implies that metadata is loaded |
| `Editor.EditorCore.GetDuration` | packages/editor-core/src/editor.ts:85-87 | returns the loaded duration, or 0 when no metadata is loaded |
| `Editor.EditorCore.GetCurrentTime` | packages/editor-core/src/editor.ts:89-91 | returns the hidden element's position |
| `Editor.EditorCore.LoadVideo` | packages/editor-core/src/editor.ts:93-118 | sets the URL as the source of the hidden element and of the preview if one is attached; the new load gets a fresh number, and its handlers, and only its handlers, are installed and waiting |
| `Editor.EditorCore.FireLoadedMetadata` | packages/editor-core/src/editor.ts:102-114 | with a handler installed, stores the reported duration, width and height at 30 fps and sizes the canvas to them, and resolves the latest load with them if it has not settled; with no handler installed, nothing changes |
| `Editor.EditorCore.FireLoadError` | packages/editor-core/src/editor.ts:116 | rejects the latest load, if it has not settled, and returns its number; the metadata is kept |
| `Editor.EditorCore.ExtractFrame` | packages/editor-core/src/editor.ts:120-125 | without metadata, fails with "No video loaded" and changes nothing; otherwise seeks the hidden element to the timestamp and makes this request the only pending capture, replacing any earlier one |
| `Editor.EditorCore.FireSeeked` | packages/editor-core/src/editor.ts:126-140 | with a real size, the pending capture resolves with its own timestamp and a picture taken at the element's current position, sized like the metadata, and the slot is emptied; with a zero side nothing resolves and the capture keeps waiting |
| `Editor.EditorCore.GetCurrentFrame` | packages/editor-core/src/editor.ts:176-186 | no picture without metadata; `IndexSizeError` when the metadata has a zero side; otherwise the picture at the current position, as large as the metadata and the canvas |
| `Editor.HasPixels` | packages/editor-core/src/editor.ts:128-133 | definition: the size `getImageData` accepts, with no zero side; `FireSeeked`, `GetCurrentFrame` and `ZeroSizeCapture` state what each side of it does |
| `Editor.EditorCore.SeekTo` | packages/editor-core/src/editor.ts:153-160 | moves the hidden element, and the preview if one is attached, to the timestamp; playing flag, metadata, timeline, pending capture and pending load are unchanged |
| `Editor.EditorCore.AddClip` | packages/editor-core/src/editor.ts:162-166 | appends exactly one record, the draft under the generated id, after the untouched earlier records, and returns that id |
| `Editor.EditorCore.RemoveClip` | packages/editor-core/src/editor.ts:168-170 | the timeline becomes the id-filtered old timeline (see the `Clips` lemmas) |
| `Editor.EditorCore.GetTimeline` | packages/editor-core/src/editor.ts:172-174 | returns a sequence equal to the stored timeline |
| `Editor.EditorCore.FireTimeUpdate` | packages/editor-core/src/editor.ts:39-41 | the registered callback, if any, is called with the hidden element's position; otherwise no call is made |
| `Editor.EditorCore.FireEnded` | packages/editor-core/src/editor.ts:43-47 | the core stops playing, the callback gets the final position and the preview is paused |
| `Editor.EditorCore.AdvancePlayback` | packages/editor-core/src/editor.ts:39-47 | the browser moves the hidden element's position, the one the `timeupdate` and `ended` listeners read, and nothing else |
| `Editor.WithPaused` | packages/editor-core/src/editor.ts:60-71 | definition: `element?.play()` and `element?.pause()` on the optional preview; `Play`, `Pause` and `FireEnded` state their effect with it |
| `Editor.WithTime` | packages/editor-core/src/editor.ts:156-158 | definition: the preview's position assignment guarded by `if (this.previewElement)`; `SeekTo` states its effect with it |
| `Editor.WithSrc` | packages/editor-core/src/editor.ts:98-100 | definition: the preview's source assignment guarded by `if (this.previewElement)`; `LoadVideo` states its effect with it |
| `Editor.Notify` | packages/editor-core/src/editor.ts:39-47 | definition: `playbackCallback?.(t)`, a call exactly when a callback is registered; `FireTimeUpdate` and `FireEnded` state their calls with it |
| `Editor.ToggleTwice` | packages/editor-core/src/editor.ts:73-79 | two toggles give back the playing flag, with metadata loaded or not |
| `Editor.CaptureScenario` | packages/editor-core/src/editor.ts:93-141 | loading a 10 s, 640x360 video and capturing at 5 s resolves the first capture with timestamp 5 and a 640x360 picture taken at 5 s, and the metadata is 10 s, 640x360, 30 fps |
| `Editor.CaptureBeforeLoad` | packages/editor-core/src/editor.ts:120-121 | capturing before any load fails with "No video loaded" and leaves nothing to resolve |
| `Editor.OverlappingCaptures` | packages/editor-core/src/editor.ts:120-141 | of two captures issued back to back, only the second promise is resolved, with the second timestamp; neither that seek nor the next one settles the first |
| `Editor.OverlappingLoads` | packages/editor-core/src/editor.ts:93-118 | of two loads issued back to back, the metadata event resolves only the second promise, and a later error has no promise left to reject; neither event settles the first |
| `Editor.ZeroSizeCapture` | packages/editor-core/src/editor.ts:120-186 | with a 0x0 video the capture is not resolved and the current frame fails with `IndexSizeError`; after a 640x360 load the next seek resolves that same capture at 640x360 |
| `Editor.SeekDuringCapture` | packages/editor-core/src/editor.ts:120-160 | a seek during a pending capture keeps the requested timestamp on the frame but moves the position its picture is taken at |
| `Editor.AddRemoveScenario` | packages/editor-core/src/editor.ts:162-174 | adding a clip to a new editor and removing the returned id leaves the timeline empty |
| `Editor.PlayWithoutVideo` | packages/editor-core/src/editor.ts:60-79 | without metadata, neither play nor toggle makes the core play |
| `Editor.PlaybackProgress` | packages/editor-core/src/editor.ts:39-47 | after the browser advances a playing video to 3 s the callback gets 3, and at the end it gets 10 s and the core has stopped |
| `TimeFormat.Trunc` | apps/web/components/video-editor/index.tsx:92 | definition: `seconds / 60` rounded toward zero, the whole minutes JavaScript's `%` takes off; `RemainderOfMinute` uses it, and `SecondsOfWholeSeconds` and `NegativeInput` state the results |
| `TimeFormat.RemainderOfMinute` | apps/web/components/video-editor/index.tsx:92 | definition: JavaScript's `seconds % 60`, which takes the sign of the dividend; `SecondsOfWholeSeconds` and `NegativeInput` state its results |
| `TimeFormat.MinutesField` | apps/web/components/video-editor/index.tsx:91 | definition of `Math.floor(seconds / 60)`; `MinutesOfWholeSeconds` and `FieldsRecombine` state its value |
| `TimeFormat.SecondsField` | apps/web/components/video-editor/index.tsx:92 | definition of `Math.floor(seconds % 60)`; `SecondsOfWholeSeconds` and `FieldsRecombine` state its value |
| `TimeFormat.IntToDecimal` | apps/web/components/video-editor/index.tsx:93 | definition: integer `toString`, a "-" before the digits of a negative number; `NegativeInput` shows the negative case |
| `TimeFormat.PadStart` | apps/web/components/video-editor/index.tsx:93 | definition of `padStart`; `PadStartSpec`, `PaddedSeconds` and `TwoDigitSeconds` state its results |
| `TimeFormat.Clock` | apps/web/components/video-editor/index.tsx:93 | definition of the template `${minutes}:${seconds padded to 2}` on whole numbers; `ClockChars`, `ClockShape` and `ParseClockOfClock` state its text |
| `TimeFormat.FormatTime` | apps/web/components/video-editor/index.tsx:90-94 | definition of `formatTime`; `FormatWholeSeconds`, `FormatTimeShape`, `FormatTimeRoundTrip`, `SameTextSameSecond` and `NegativeInput` state its output |
| `TimeFormat.TimeLabel` | apps/web/components/video-editor/index.tsx:127 | definition of the label `current / duration`; `MissingDurationShowsZero` states its text with no duration |
| `TimeFormat.NatToDecimal` | apps/web/components/video-editor/index.tsx:93 | the decimal text of a whole number is non-empty and all digits |
| `TimeFormat.NatToDecimalCanonical` | apps/web/components/video-editor/index.tsx:93 | the decimal text has exactly one digit when the number is below 10, and otherwise no leading zero |
| `TimeFormat.PadStartSpec` | apps/web/components/video-editor/index.tsx:93 | the padded text has the target length (or the input's length if that is longer), ends with the input, and is fill characters before it |
| `TimeFormat.DurationOrZero` | apps/web/components/video-editor/index.tsx:127 | definition: the duration shown, falling back to 0 when there is none; `MissingDurationShowsZero` states what a missing duration shows |
| `TimeFormat.MinutesOfWholeSeconds` | apps/web/components/video-editor/index.tsx:91 | for non-negative input, `floor(seconds / 60)` is non-negative and equals the whole seconds divided by 60 |
| `TimeFormat.SecondsOfWholeSeconds` | apps/web/components/video-editor/index.tsx:92 | for non-negative input, `floor(seconds % 60)` equals the whole seconds modulo 60, so it lies in 0..59 |
| `TimeFormat.FieldsRecombine` | apps/web/components/video-editor/index.tsx:91-92 | minutes times 60 plus the seconds field is `floor(seconds)` for non-negative input |
| `TimeFormat.FormatWholeSeconds` | apps/web/components/video-editor/index.tsx:90-94 | for non-negative input the text is the clock text of the whole seconds divided by 60 and modulo 60, so it depends only on `floor(seconds)` |
| `TimeFormat.ParseNatToDecimal` | apps/web/components/video-editor/index.tsx:93 | reading the decimal text of a natural number gives the number back |
| `TimeFormat.PaddedSeconds` | apps/web/components/video-editor/index.tsx:93 | a seconds field in 0..59, padded with "0" to length 2, is its tens digit followed by its units digit |
| `TimeFormat.TwoDigitSeconds` | apps/web/components/video-editor/index.tsx:93 | a seconds field in 0..59, padded with "0" to length 2, is exactly two digits that read back as the field |
| `TimeFormat.ClockChars` | apps/web/components/video-editor/index.tsx:93 | the template for whole minutes and seconds below 60 is the minutes' digits, ":", the tens digit and the units digit |
| `TimeFormat.ClockShape` | apps/web/components/video-editor/index.tsx:93 | the template text has the minutes' digits, exactly one ":" three places from the end, and two digits after it |
| `TimeFormat.ParseClockOfClock` | apps/web/components/video-editor/index.tsx:93 | reading the template text back gives minutes times 60 plus seconds |
| `TimeFormat.FormatTimeShape` | apps/web/components/video-editor/index.tsx:90-94 | for non-negative input, the text is the minutes' digits, exactly one ":", then two digits |
| `TimeFormat.FormatTimeRoundTrip` | apps/web/components/video-editor/index.tsx:90-94 | reading `m:ss` back from the text of a non-negative position gives its whole seconds |
| `TimeFormat.SameTextSameSecond` | apps/web/components/video-editor/index.tsx:90-94 | two non-negative positions have the same text if and only if they fall in the same whole second |
| `TimeFormat.MissingDurationShowsZero` | apps/web/components/video-editor/index.tsx:127 | a missing duration is shown as "0:00", so the label reads "current / 0:00" |
| `TimeFormat.NegativeInput` | apps/web/components/video-editor/index.tsx:90-94 | negative input is rendered as JavaScript renders it: -30 s becomes "-1:-30" |

## Left out

- Media decoding, real seeking, the timing of `timeupdate` and the promises `play()` returns are browser behaviour. Seeks, loads, time updates and the end of media are explicit steps that may happen at any time.
- The browser's own changes to an element are modelled only for playback progress on the hidden element (`AdvancePlayback`). Not modelled: resetting the position and paused flag when a new source is set, setting `paused` on the hidden element at the end of media, and the preview element's own progress. Apart from that, only what `EditorCore` itself writes is modelled.
- Pixel content from `drawImage` and `getImageData` is reduced to the position drawn at and the size.
- `exportFrame` is left out. Its canvas `putImageData` and PNG `convertToBlob` are foreign canvas and codec calls with no visible logic.
- `URL.createObjectURL` and `revokeObjectURL`, the download anchor and the `toFixed(2)` file name are browser I/O and float formatting.
- Uniqueness of `crypto.randomUUID` is not modelled. The id is an argument, and the code promises only that it returns what it appended. `AddThenRemove` assumes the id is new to the timeline.
- Asynchrony is not modelled. Event-loop scheduling and promise settlement are sequential steps, and a resolved or rejected promise is a method result.
- After a capture resolves, the `onseeked` handler stays installed. A later seek therefore calls `resolve` on a settled promise again, which has no effect. The model empties the slot instead. The exception is the zero-size case, where the handler throws before it resolves and the slot stays.
- The `onloadedmetadata` and `onerror` handlers also stay installed after a load settles, and the model keeps them (`loadHandler`). A second metadata event rewrites the metadata and settles nothing; a second error event does nothing.
- Aliasing is not modelled. The preview element is a value inside the core, so the component's own writes to that element (its `src` at line 51-54 of index.tsx) are not seen by the core's copy.
- Floating point is not modelled. Positions and durations are exact reals. Rounding in `seconds / 60`, NaN, infinities and -0 (for example `metadata?.duration || 0` turning NaN into 0) are not covered. `toString` uses plain decimal digits, not the exponent form JavaScript uses from 1e21 upward.
- The React component's state, effects, callbacks, the slider step `1 / fps` and rendering are left out, as are the presentational wrappers in packages/ui.
