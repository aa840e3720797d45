# React video player: playback-state model

This project models the playback coordinator of a React video player (`src/App.js`).
It covers the player state record and the handlers that rebuild it, the drag-seek
protocol, the idle hiding of the control overlay, the time display and its mode
toggle, the bookmark list, and the `format` clock formatter. All of it is proved in
Dafny.

Modules, leaves first:

- `Wrappers`: `Option`.
- `Decimal`: how JavaScript prints a non-negative integer and `padStart(2, "0")`, with a reader (`ValueOf`) that serves as their inverse.
- `JsNumber`: JavaScript numbers abstracted to exact reals plus NaN and the two infinities (`Num`). It also holds the `Reading` type. A reading is one of three things: a time reported by the player; the `null` that a mounted player reports before it is ready; or the `"00:00"` placeholder string that the component uses before the player has mounted.
- `TimeFormat`: `format`, following `Date` semantics. `seconds * 1000` goes through `TimeClip`: an infinite value, or one beyond 8.64e15 ms, is an invalid date, and the value is truncated toward zero to whole milliseconds. The label is then built from `getUTCHours`, `getUTCMinutes` and `getUTCSeconds`. `SecondOfDay` is an independent reference for the second of the UTC day, and `ParseClock` reads a label back.
- `PlaybackState`: the state record (`playing`, `muted`, `volume`, `playbackRate`, `played`, `seeking`, plus the keys that a progress report spreads into it). It has one pure function per handler. `Changed` names the fields that differ between two records, so each contract says which fields move.
- `ControlsOverlay`: the idle counter and the overlay's inline visibility, as an automaton with `Tick` (one progress report) and `MouseMove`.
- `Display`: the `"normal"`/`"remaining"` mode and the derived `elapsedTime`/`totalDuration` labels.
- `App`: class `Player`, which holds all mutable state: the record, the mode, the bookmark list, the counter, the visibility, and the argument of the last `seekTo` call. It has one method per event handler, and each method is proved against the pure functions above. Three client methods replay scenarios through the class contracts.

Behaviour as the code has it, where an idealised design would differ:

- A nonzero volume unmutes (`muted` is set to `newValue === 0`).
- Any playback rate is stored. Only the menu in the controls offers 0.5, 1, 1.5 and 2.
- Releasing the seek slider clears `seeking` and issues the seek. It does not write `played`.
- The overlay hides on the third progress tick after a mouse move. The counter must exceed 1 before the hide test runs.
- Before the first mouse move the inline visibility is empty, so ticks never count and the overlay is never hidden.
- A rewind or fast-forward target is not clamped, and a NaN time flows into `seekTo` unguarded.
- Capturing a bookmark cannot fail once the backend exposes its media element.
- A negative input to `format` wraps into the previous day (-1 gives "23:59:59"). Whole-second inputs are read modulo 86400, so 86400 gives "00:00".

## Model

| member | source | states |
|---|---|---|
| `Decimal.NatStr` | src/App.js:27-29 | the decimal numeral is non-empty, all digits, starts with '0' only for 0, and is one digit exactly below 10 |
| `Decimal.Pad2` | src/App.js:28-29 | `padStart(2, "0")` of a value below 100 is two digits that read back as the value; from 10 up it is the plain numeral |
| `Decimal.ValueOfNatStr` | src/App.js:27-29 | reading the printed numeral back gives the number (round trip) |
| `Decimal.NatStrInjective` | src/App.js:27-29 | different numbers print differently |
| `JsNumber.ToNumber` | src/App.js:163-169 | the `"00:00"` placeholder used before mount coerces to NaN, the `null` of a backend that is not ready coerces to 0, and a reported time is itself |
| `JsNumber.Sub` | src/App.js:174 | `duration - currentTime` is NaN exactly when an operand is NaN or both are the same infinity, and is the real difference on finite operands |
| `JsNumber.Offset` | src/App.js:66-72 | `currentTime ± 10` shifts a finite time by the constant and leaves NaN and the infinities as they are |
| `JsNumber.Trunc` | src/App.js:26 | time values are truncated toward zero, within one unit of the input on the side of zero |
| `TimeFormat.ToMillis` | src/App.js:26 | `seconds * 1000` scales a finite time by 1000 and leaves NaN and the infinities as they are |
| `TimeFormat.MakeDate` | src/App.js:26 | `new Date(ms)` is valid exactly for finite inputs within ±8.64e15 ms, and then holds the truncated milliseconds |
| `TimeFormat.UtcHours` | src/App.js:27 | `getUTCHours()` is the floor quotient of the millisecond count by 3600000, taken modulo 24 |
| `TimeFormat.UtcMinutes` | src/App.js:28 | `getUTCMinutes()` is the floor quotient of the millisecond count by 60000, taken modulo 60 |
| `TimeFormat.UtcSeconds` | src/App.js:29 | `getUTCSeconds()` is the floor quotient of the millisecond count by 1000, taken modulo 60 |
| `TimeFormat.Label` | src/App.js:31-35 | the label has five characters exactly when the hour is 0; otherwise it starts with the unpadded nonzero hour and two colon-separated two-digit fields follow |
| `TimeFormat.Format` | src/App.js:21-36 | every label has at least five characters and never starts with '-' |
| `TimeFormat.SecondOfDay` | src/App.js:26-29 | a clock reading exists exactly for finite in-range inputs, and it is a second of the day (below 86400) |
| `TimeFormat.LabelRoundTrip` | src/App.js:28-35 | parsing a label gives back its hours, minutes and seconds |
| `TimeFormat.UtcFieldsOfDay` | src/App.js:27-29 | the UTC hour, minute and second getters equal the split of the second of the day into h, m, s |
| `TimeFormat.FormatOfDay` | src/App.js:26-35 | a valid input's label is the label of its second of the day |
| `TimeFormat.FormatReadsBack` | src/App.js:21-36 | the label of a valid input parses back to the hours, minutes and seconds of its second of the day |
| `TimeFormat.LabelInjective` | src/App.js:31-35 | different fields give different labels |
| `TimeFormat.FormatSameIff` | src/App.js:26-35 | two valid inputs get the same label if and only if they fall on the same second of the day |
| `TimeFormat.WholeSecondOfDay` | src/App.js:26 | a whole number of seconds falls on that number modulo 86400 |
| `TimeFormat.FormatWholeSeconds` | src/App.js:26-35 | the label of a whole number of seconds is that of the number modulo 86400: hours wrap every 24 h |
| `TimeFormat.FormatWrapsDaily` | src/App.js:26-27 | a whole number of seconds and the same number plus 86400 get the same label |
| `TimeFormat.FractionalTimesDoNotWrapDaily` | src/App.js:26-29 | the daily wrap needs whole seconds: -0.0005 s truncates onto midnight ("00:00"), but 86399.9995 s falls on the last second of the day, so the two labels differ |
| `TimeFormat.FormatWithoutDate` | src/App.js:22-24 | NaN gives "00:00"; an infinite or out-of-range time gives "NaN:NaN" |
| `TimeFormat.LabelMidnight` | src/App.js:31-35 | midnight prints as "00:00" |
| `TimeFormat.FormatZeroIff` | src/App.js:21-36 | the label is "00:00" if and only if the input is NaN or falls on midnight |
| `TimeFormat.FormatExampleMinutes` | src/App.js:28-35 | 65 s gives "01:05" |
| `TimeFormat.FormatExampleHours` | src/App.js:31-32 | 3661 s gives "1:01:01" |
| `TimeFormat.FormatExamplesDegenerate` | src/App.js:21-36 | 86400 s and the placeholder give "00:00"; an infinite time gives "NaN:NaN" |
| `PlaybackState.PlayPause` | src/App.js:62-64 | play/pause flips `playing` and changes no other field |
| `PlaybackState.Mute` | src/App.js:74-76 | mute flips `muted` and changes no other field |
| `PlaybackState.Percent` | src/App.js:81 | `parseFloat(newValue / 100)`, which is also used at :88 and :118, and `newValue / 100` at :126: the fraction times 100 gives back the slider value |
| `PlaybackState.SetVolume` | src/App.js:78-91 | volume becomes `v/100`, and `muted` is true if and only if `v` is 0; nothing else changes |
| `PlaybackState.SetPlaybackRate` | src/App.js:93-95 | the given rate is stored as is; nothing else changes |
| `PlaybackState.Merge` | src/App.js:113 | the report's `played`, `playedSeconds`, `loaded` and `loadedSeconds` override the record's; nothing else changes |
| `PlaybackState.ApplyProgress` | src/App.js:112-114 | while seeking the record is unchanged; otherwise the report is merged |
| `PlaybackState.SeekChange` | src/App.js:117-119 | a drag sets `played` to `v/100` and changes nothing else |
| `PlaybackState.SeekMouseDown` | src/App.js:121-123 | pressing the slider sets `seeking` and changes nothing else |
| `PlaybackState.SeekMouseUp` | src/App.js:124-125 | releasing clears `seeking` and changes nothing else; `played` is untouched |
| `PlaybackState.TogglesAreInvolutions` | src/App.js:62-76 | play/pause twice and mute twice restore the record |
| `PlaybackState.ProgressWhileSeeking` | src/App.js:112-114 | while seeking, any number of progress reports leave the record unchanged |
| `PlaybackState.ProgressWhenNotSeeking` | src/App.js:112-114 | when not seeking, a run of reports leaves the last report merged into the original record |
| `PlaybackState.ReplayWhileSeeking` | src/App.js:112-119 | while seeking, interleaved drags and reports change only `played`, to the last dragged position |
| `PlaybackState.DragGesture` | src/App.js:117-127 | press, drags and reports, then release: `played` is the last dragged position, `seeking` is false, and every other field is as before |
| `ControlsOverlay.Tick` | src/App.js:104-110 | a tick hides the overlay and resets the count once the count exceeds 1, counts while visible, ignores a non-visible overlay, and keeps the reachable-state invariant |
| `ControlsOverlay.MouseMove` | src/App.js:135-138 | a mouse move gives a visible overlay with count 0 from any state |
| `ControlsOverlay.IdleTicks` | src/App.js:104-110 | an overlay that is not marked visible is unchanged by any number of ticks |
| `ControlsOverlay.TicksWhileVisible` | src/App.js:104-110 | a visible overlay with count c stays visible for 3 - c ticks, counting up, and is hidden with count 0 from then on |
| `ControlsOverlay.AfterMouseMove` | src/App.js:104-110 | after a mouse move the overlay is shown if and only if at most two ticks have passed; the third tick hides it |
| `ControlsOverlay.NeverHiddenBeforeMouseMove` | src/App.js:104-110 | before the first mouse move no number of ticks hides the overlay |
| `Display.ToggleMode` | src/App.js:129-133 | the toggle always switches the mode |
| `Display.ToggleTwice` | src/App.js:129-133 | toggling twice restores the mode |
| `Display.ElapsedLabel` | src/App.js:171-174 | the elapsed label starts with '-' if and only if the mode is remaining; in normal mode it is the formatted current time, and in remaining mode its tail is the formatted `duration - currentTime` |
| `Display.TotalLabel` | src/App.js:175 | the total label has at least five characters and is never negative-signed |
| `Display.LabelsBeforeMount` | src/App.js:163-175 | before mount the labels are "00:00", "-00:00" and "00:00" |
| `Display.LabelsBeforeReady` | src/App.js:163-175 | with `null` readings from a backend that is not ready, the labels are also "00:00", "-00:00" and "00:00" |
| `Display.SecondOfDuration` | src/App.js:26 | 125.4 s falls on second 125 |
| `Display.FormatOfRemaining` | src/App.js:174 | the 60.4 s left of the clip print as "01:00" |
| `Display.ElapsedScenario` | src/App.js:171-173 | a 125.4 s clip at 65 s shows "01:05" in normal mode |
| `Display.TotalScenario` | src/App.js:175 | its total label is "02:05" |
| `Display.RemainingScenario` | src/App.js:174 | in remaining mode it shows "-01:00" |
| `App.Player.constructor` | src/App.js:43-53 | initial record (playing, muted, volume 0.5, rate 1, played 0, not seeking), normal mode, no bookmarks, count 0, visibility unset, no seek issued |
| `App.Player.HandlePlayPause` | src/App.js:62-64 | the record becomes `PlayPause` of the old one; no other field of the component changes |
| `App.Player.HandleRewind` | src/App.js:66-68 | issues one seek to the reported time minus 10, unclamped (`null` counts as 0); nothing else changes |
| `App.Player.HandleFastForward` | src/App.js:70-72 | issues one seek to the reported time plus 10, unclamped (`null` counts as 0); nothing else changes |
| `App.Player.HandleMute` | src/App.js:74-76 | the record becomes `Mute` of the old one; nothing else changes |
| `App.Player.HandleVolumeChange` | src/App.js:78-84 | the record becomes `SetVolume` of the old one; nothing else changes |
| `App.Player.HandleVolumeSeekUp` | src/App.js:85-91 | the same update as a volume change |
| `App.Player.HandlePlaybackRateChange` | src/App.js:93-95 | the record becomes `SetPlaybackRate` of the old one; nothing else changes |
| `App.Player.HandleProgress` | src/App.js:101-115 | the overlay takes one `Tick` whatever `seeking` is, the record becomes `ApplyProgress` of the old one, and the overlay invariant is kept |
| `App.Player.HandleSeekChange` | src/App.js:117-119 | the record becomes `SeekChange` of the old one |
| `App.Player.HandleSeekMouseDown` | src/App.js:121-123 | the record becomes `SeekMouseDown` of the old one |
| `App.Player.HandleSeekMouseUp` | src/App.js:124-127 | the record becomes `SeekMouseUp` of the old one, and one seek to `v/100` is issued |
| `App.Player.HandleChangeDisplayFormat` | src/App.js:129-133 | the mode is toggled; nothing else changes |
| `App.Player.HandleMouseMove` | src/App.js:135-138 | the overlay becomes `MouseMove` of the old one; the record, mode and bookmarks are untouched |
| `App.Player.AddBookmark` | src/App.js:140-161 | the list grows by exactly one entry at the end, holding the current time, the elapsed label of the current mode and the image; earlier entries keep their order and content |
| `App.Player.SeekToBookmark` | src/App.js:240 | clicking a bookmark issues one seek to the time it recorded, passed on as stored (`null` stays `null`) |
| `App.IdleHideScenario` | src/App.js:101-138 | after a mouse move, three progress ticks leave the overlay shown, shown, then hidden, and the reports are merged |
| `App.VolumeScenario` | src/App.js:78-91 | volume 0 mutes; a later volume of 50 unmutes and stores 0.5 |
| `App.DragScenario` | src/App.js:101-127 | a report arriving during a drag is ignored; after release `played` is the dragged fraction, `seeking` is false, and the seek target is that fraction |

## Left out

- Floating point: numbers are exact reals, so rounding in `seconds * 1000`, `newValue / 100` and `duration - currentTime` is not modelled. `parseFloat` of a number is the identity.
- The player backend: reported times are method parameters. A `seekTo` call is recorded as its argument (`lastSeek`), so how the backend interprets that argument is not modelled. The `null` that a backend reports before it is ready is the reading `NotReady`. It coerces to 0 in labels and in the rewind and fast-forward targets. A bookmark stores it as is and seeks to it as is.
- Bookmark thumbnails: the canvas sizing, `getInternalPlayer`, the `drawImage` handler and `toDataURL` are browser graphics calls. The encoded image is a parameter. The code attaches `drawImage` to `onload` and encodes the canvas at once, so the image it passes carries no frame.
- A failed capture: `addBookmark` dereferences the result of `getInternalPlayer()`. When the backend has no media element yet, that throws before the append. The model has no such failure: `AddBookmark` always appends.
- `toggleFullScreen` (`screenfull.toggle`) and all rendering: app bar, controls layout, bookmark grid, canvas element.
- React details: `useState` batching, re-render timing and stale closures. Each handler is one atomic step on the current state.
- The module-level `count` is shared by every mounted `App`. The model has one player, and the counter is a field of it.
- `PlayerControls.js` as a whole. Its fixed rate menu is not a precondition, because the handler accepts any rate.
