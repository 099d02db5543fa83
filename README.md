# Pot-O Video Player: transport and playlist controller

This project is a Dafny model of the engine inside the player's `MainWindow`. It covers:

- **Playlist and transport.** `open` appends the chosen file and plays it. `next` and `previous` move through the playlist without wrapping. `previous` rewinds instead of going back once playback is past 5000 ms. Stop is idempotent.
- **Seek reconciliation.** A slider value in 0..1000 is mapped to milliseconds of the duration. When the reported position lands more than 100 ms from the target, the buffer reset is requested: the pipeline is asked for Null, then for Paused, and the 1000 ms delay timer that restarts playback is (re)armed. The model treats the pipeline as present (see `Player.MainWindow.ResetBuffer` under "## Left out").
- **Control and label rules.** The enable flags of the five transport actions, and the hh:mm:ss and m:ss labels.
- **MIME filter list.** It is built once, then TS, FLV, 3GP and the platform default are appended if absent.
- **Pad routing.** A new demultiplexer pad is classified by its caps name.

The Qt media player, the GStreamer pipeline and the `QTimer` are abstract state of the `Player.MainWindow` class:

- the media player is its transport state (`Stopped`, `Playing`, `Paused`), loaded media, position and duration, plus `commands`, the log of requests made of it;
- the pipeline is its last requested state plus `pipelineRequests`, the log of requested states;
- the timer is `Idle` or `Running(interval)`. Starting it again replaces the running timer, so restarts never stack.

Modules:

- `Wrappers`: `Option`.
- `MimeTypes`: the list helper and the filter step.
- `TimeText`: time decomposition and label text.
- `Transport`: transport state and enable rules.
- `Seek`: slider-to-millisecond mapping, tolerance and engine constants.
- `PadRouter`: caps-name classification.
- `Player`: the window as a class.

Three client methods check scenarios against the contracts alone:

- `Player.OpenThenNextScenario`: open one file, then next does nothing.
- `Player.PreviousScenario`: with three entries at index 1, previous rewinds at 6000 ms and goes back a track at 2000 ms.
- `Player.StallScenario`: with a 10 s duration, a seek that lands 150 ms off resets the buffer once; a later seek within tolerance adds nothing.

Python's `//`, `%` and `divmod` by a positive constant round toward minus infinity. Dafny's Euclidean `/` and `%` give the same results for every integer, so the time formatting is stated for all integers.

Behaviour of the code the model keeps:

- `set_position` rounds the target down (`int()` of a non-negative quotient).
- When the duration is not known (≤ 0), no seek is issued, but the 100 ms check still runs against a target of 0. So a position above 100 ms resets the buffer even without a seek.
- The delay timer is never made single-shot. Once started, it keeps firing and restarts playback on every timeout (`DelayTimerTimeout` leaves it running).
- Neither stop nor open cancels a running delay timer.
- Pad linking has no at-most-once guard. Only the classification is modelled.
- Stopping the media player resets its position to 0. So after a stop, `previous` goes back a track whenever there is an earlier entry.

## Model

| member | source | states |
|---|---|---|
| MimeTypes.GetSupportedMimeTypes | Pot-O_Video_Player_0.1.0.1.py:20-25 | the list is AVI, MP4, TS, FLV, 3GP in that order, followed by every backend type in the backend's order |
| MimeTypes.AppendIfAbsent | Pot-O_Video_Player_0.1.0.1.py:349-350 | afterwards the type is listed; existing entries keep their positions; the list grows by one exactly when the type was absent |
| MimeTypes.PlatformDefault | Pot-O_Video_Player_0.1.0.1.py:361 | the default filter: AVI on Windows, MP4 elsewhere; the same test picks the first type checked at lines 348-352 |
| MimeTypes.RequiredTypes | Pot-O_Video_Player_0.1.0.1.py:348-358 | the types the open action checks, in its order: the platform default, TS, FLV, 3GP |
| MimeTypes.FilterBase | Pot-O_Video_Player_0.1.0.1.py:346-347 | an empty filter list is rebuilt from the supported types; a non-empty one is kept |
| MimeTypes.AppendAllAbsent | Pot-O_Video_Player_0.1.0.1.py:349-358 | appends each type, in order, only when absent; its properties are the AppendAllAbsent lemmas below |
| MimeTypes.FilterStep | Pot-O_Video_Player_0.1.0.1.py:346-358 | the filter list after open: an empty list is rebuilt, then the platform default, TS, FLV and 3GP are appended if absent; its properties are the FilterStep lemmas below |
| MimeTypes.AppendAllAbsentContains | Pot-O_Video_Player_0.1.0.1.py:353-358 | every type checked for is listed afterwards |
| MimeTypes.AppendAllAbsentKeeps | Pot-O_Video_Player_0.1.0.1.py:353-358 | the list only grows at its end, earlier entries keep their order, at most one entry is added per type checked, and every added entry is one of those types |
| MimeTypes.AppendAllAbsentNoOp | Pot-O_Video_Player_0.1.0.1.py:353-358 | a list that already holds every checked type is unchanged |
| MimeTypes.AppendAllAbsentNoDuplicates | Pot-O_Video_Player_0.1.0.1.py:353-358 | appending only absent types never creates a duplicate |
| MimeTypes.AppendIfAbsentNoDuplicates | Pot-O_Video_Player_0.1.0.1.py:349-358 | appending if absent never creates a duplicate in a duplicate-free list |
| MimeTypes.FilterStepContainsRequired | Pot-O_Video_Player_0.1.0.1.py:346-364 | after the filter step, TS, FLV, 3GP and the platform default (AVI on Windows, MP4 otherwise) are all listed, so the default filter is always preselected |
| MimeTypes.FilterStepKeepsExisting | Pot-O_Video_Player_0.1.0.1.py:348-358 | a non-empty list keeps its entries and their order as a prefix; at most four types are added, each one the platform default, TS, FLV or 3GP |
| MimeTypes.FilterStepNoOpWhenPresent | Pot-O_Video_Player_0.1.0.1.py:348-358 | a non-empty list that already holds the required types is left exactly as it was |
| MimeTypes.FilterStepFromEmpty | Pot-O_Video_Player_0.1.0.1.py:346-358 | an empty list becomes the built-in types plus the backend types, and nothing more is appended |
| MimeTypes.FilterStepIdempotent | Pot-O_Video_Player_0.1.0.1.py:346-358 | a second open's filter step leaves the list unchanged |
| MimeTypes.FilterStepNoDuplicates | Pot-O_Video_Player_0.1.0.1.py:346-358 | the filter step never introduces a duplicate type |
| TimeText.HmsByDivmod | Pot-O_Video_Player_0.1.0.1.py:565-566 | hours*3600 + minutes*60 + seconds equals the whole seconds in the count, with minutes and seconds in [0,60) |
| TimeText.HmsByFloor | Pot-O_Video_Player_0.1.0.1.py:574-577 | the same reconstruction and bounds, for the `//`/`%` form of the elapsed label |
| TimeText.HmsUnique | Pot-O_Video_Player_0.1.0.1.py:565-577 | a second count has exactly one hours/minutes/seconds form with minutes and seconds below 60 |
| TimeText.HmsFormsAgree | Pot-O_Video_Player_0.1.0.1.py:563-577 | the divmod decomposition of the duration label and the floor/modulo decomposition of the elapsed label give the same triple for every count |
| TimeText.MinSecOf | Pot-O_Video_Player_0.1.0.1.py:598-605 | minutes*60000 + seconds*1000 ≤ ms < minutes*60000 + (seconds+1)*1000, with seconds in [0,60) |
| TimeText.MinSecMatchesHms | Pot-O_Video_Player_0.1.0.1.py:598-599 | the m:ss minutes are the h:mm:ss hours*60 + minutes, and the seconds agree |
| TimeText.NatText | Pot-O_Video_Player_0.1.0.1.py:600 | the printed number is a non-empty string of decimal digits with no leading zero; it starts with '0' only for 0 |
| TimeText.ParseNatText | Pot-O_Video_Player_0.1.0.1.py:600 | reading the printed digits back gives the number |
| TimeText.Pad2TwoDigits | Pot-O_Video_Player_0.1.0.1.py:567 | the `02d` field of a value below 100 is two decimal digits that read back as the value |
| TimeText.IntText | Pot-O_Video_Player_0.1.0.1.py:600 | Python's `str` of an integer: the digits of a non-negative value; for a negative value a minus sign followed by the digits of its magnitude |
| TimeText.Pad2 | Pot-O_Video_Player_0.1.0.1.py:567 | the `02d` field: single digits get a leading zero; proved two characters for 0..99 by Pad2TwoDigits |
| TimeText.HmsText | Pot-O_Video_Player_0.1.0.1.py:567 | the three `02d` fields joined by colons |
| TimeText.MinSecText | Pot-O_Video_Player_0.1.0.1.py:600 | the minutes as `str`, a colon, the seconds as `02d` |
| TimeText.TotalDurationLabel | Pot-O_Video_Player_0.1.0.1.py:563-567 | the duration label text; read back by HmsLabelReadsBack |
| TimeText.PlaybackTimeLabel | Pot-O_Video_Player_0.1.0.1.py:569-580 | the elapsed label text, "0:00:00" while stopped; related to the duration label by PlaybackLabelMatchesDurationLabel |
| TimeText.HmsLabelReadsBack | Pot-O_Video_Player_0.1.0.1.py:563-567 | below 100 hours the duration label is eight characters "hh:mm:ss"; each field is two decimal digits reading back as the hours, minutes and seconds of the divmod decomposition |
| TimeText.PlaybackLabelMatchesDurationLabel | Pot-O_Video_Player_0.1.0.1.py:569-583 | while stopped the elapsed label is "0:00:00"; otherwise it is the same text the duration label would show for that count |
| TimeText.MinSecLabelReadsBack | Pot-O_Video_Player_0.1.0.1.py:598-605 | for a non-negative count the "m:ss" label splits at a colon into decimal digits reading back as the minutes and exactly two decimal digits reading back as the seconds |
| Transport.ControlsFor | Pot-O_Video_Player_0.1.0.1.py:585-591 | the five enable flags of update_buttons; their consistency is ControlsConsistent |
| Transport.ControlsConsistent | Pot-O_Video_Player_0.1.0.1.py:585-591 | play and pause are never offered together; pause implies stop; with media queued, exactly one of play and pause is offered; an empty playlist offers neither play nor next |
| Transport.ControlsWhileStopped | Pot-O_Video_Player_0.1.0.1.py:585-591 | while stopped, pause and stop are disabled, and play is enabled iff the playlist is non-empty |
| Seek.SeekTarget | Pot-O_Video_Player_0.1.0.1.py:417-420 | with a known duration the target is the floor of v*duration/1000; with none it is 0 |
| Seek.SeekTargetRange | Pot-O_Video_Player_0.1.0.1.py:419-420 | for slider values in [0,1000] the target lies in [0, duration]; 0 maps to 0 and 1000 maps to the full duration exactly |
| Seek.SeekTargetMonotone | Pot-O_Video_Player_0.1.0.1.py:420 | a larger slider value never gives an earlier target |
| Seek.Mismatch | Pot-O_Video_Player_0.1.0.1.py:426 | the stall test: the reported position is more than 100 ms from the target, in either direction |
| PadRouter.RoutePad | Pot-O_Video_Player_0.1.0.1.py:407-413 | the queue a pad is linked to, video checked first; characterized by RoutePadSpec |
| PadRouter.Contains | Pot-O_Video_Player_0.1.0.1.py:410-412 | Python's substring `in`, scanning from the left; characterized by ContainsIffOccurs |
| PadRouter.ContainsIffOccurs | Pot-O_Video_Player_0.1.0.1.py:410-412 | the substring scan answers true exactly when the pattern occurs at some offset |
| PadRouter.RoutePadSpec | Pot-O_Video_Player_0.1.0.1.py:407-413 | a pad goes to the video queue iff "video" occurs in its caps name; to the audio queue iff "audio" occurs and "video" does not; to no queue otherwise |
| Player.StopIfRunning | Pot-O_Video_Player_0.1.0.1.py:378-380 | the requests a stop issues: one stop unless already stopped |
| Player.MainWindow.constructor | Pot-O_Video_Player_0.1.0.1.py:111-115 | the window starts with an empty playlist at index -1, an empty filter list, a stopped player, an idle timer and "0:00" labels |
| Player.MainWindow.LoadAndPlay | Pot-O_Video_Player_0.1.0.1.py:375-376 | the player is asked to load, then play; it is Playing the new media from position 0 |
| Player.MainWindow.PlayAction | Pot-O_Video_Player_0.1.0.1.py:136 | a play request is logged; with media loaded the player is Playing |
| Player.MainWindow.PauseAction | Pot-O_Video_Player_0.1.0.1.py:146 | a pause request is logged; with media loaded the player is Paused |
| Player.MainWindow.EnsureStopped | Pot-O_Video_Player_0.1.0.1.py:378-380 | the player ends Stopped; a stop request is issued only when it was not already stopped, and only then is the position reset to 0 |
| Player.StopTwice | Pot-O_Video_Player_0.1.0.1.py:378-380 | stopping twice in a row issues at most one stop request, and the position is as after a single stop |
| Player.MainWindow.AddIfAbsent | Pot-O_Video_Player_0.1.0.1.py:353-354 | the filter list gains the type at its end only when the type was not listed |
| Player.MainWindow.PrepareMimeFilters | Pot-O_Video_Player_0.1.0.1.py:346-364 | the filter list becomes the filter step of the old list, and the platform default is preselected |
| Player.MainWindow.Open | Pot-O_Video_Player_0.1.0.1.py:341-376 | stops first if not stopped and runs the filter step. A chosen file is appended, earlier entries are unchanged, the index is the new last entry, and it is loaded and Playing. A cancelled dialog leaves the playlist and index unchanged; the position is 0 when a stop was issued and unchanged otherwise. The index invariant is kept |
| Player.MainWindow.AppendAndPlay | Pot-O_Video_Player_0.1.0.1.py:373-376 | the chosen file is appended after the unchanged earlier entries; the index is the new last entry, which is loaded and Playing; the index invariant is kept |
| Player.MainWindow.PreviousClicked | Pot-O_Video_Player_0.1.0.1.py:382-388 | at or before 5000 ms with an earlier entry, the index drops by one (never below 0) and that entry plays; otherwise the index is unchanged and the player seeks to 0 |
| Player.MainWindow.NextClicked | Pot-O_Video_Player_0.1.0.1.py:390-394 | with a later entry, the index rises by one and that entry plays; at the last entry nothing changes; the index never passes the last entry |
| Player.MainWindow.StartMediaPlayback | Pot-O_Video_Player_0.1.0.1.py:274-277 | with a valid index the current entry is reloaded and playing; with an empty playlist (index -1) nothing happens |
| Player.MainWindow.DelayTimerTimeout | Pot-O_Video_Player_0.1.0.1.py:72-73 | a timeout reloads and plays the current entry from 0 with its duration unknown, or changes nothing with an empty playlist; the non-single-shot timer stays armed |
| Player.MainWindow.StartDelayTimer | Pot-O_Video_Player_0.1.0.1.py:431 | starting the timer replaces any running one with the new interval, so timers never stack |
| Player.MainWindow.ResetBuffer | Pot-O_Video_Player_0.1.0.1.py:454-459 | the pipeline is asked for Null, then Paused, and the 1000 ms timer is (re)armed |
| Player.MainWindow.SetPosition | Pot-O_Video_Player_0.1.0.1.py:415-431 | with a known duration the player seeks to the target and reports the landed position; with none no seek is made. A position more than 100 ms from the target resets the buffer once and arms the 1000 ms timer; otherwise the pipeline and timer are untouched |
| Player.MainWindow.UpdateTotalDuration | Pot-O_Video_Player_0.1.0.1.py:563-567 | the duration label shows the duration's hh:mm:ss text |
| Player.MainWindow.UpdatePlaybackTime | Pot-O_Video_Player_0.1.0.1.py:569-583 | the elapsed label is "0:00:00" while stopped and the position's hh:mm:ss text otherwise |
| Player.MainWindow.UpdateButtons | Pot-O_Video_Player_0.1.0.1.py:585-608 | the enable flags follow the playlist size, the given state and the position; both labels switch to m:ss |
| Player.MainWindow.PositionChanged | Pot-O_Video_Player_0.1.0.1.py:265 | a reported position becomes the player's position and refreshes the elapsed label |
| Player.MainWindow.DurationChanged | Pot-O_Video_Player_0.1.0.1.py:266 | a reported duration becomes the player's duration and refreshes the duration label |

## Left out

- Window and widget plumbing is not modelled, because it is Qt UI: `initUI` (beyond the initial playlist and labels), `toggle_fullscreen`, `show_controls_overlay`, `eventFilter`, `keyPressEvent`, `toggle_mute`, `create_action`, `show_status_message`, `closeEvent` and `reset_slider_position`.
- The open dialog, window title and URL handling in `open` (lines 343-345, 360-372) are UI and I/O. The chosen locator, or none when the dialog is cancelled, is a parameter of `Open`, and so is the platform test.
- `QMediaPlayer.supportedMimeTypes()` is a foreign call. Its result is the `backendTypes` parameter.
- `create_buffering_pipeline` (lines 279-339) is not modelled, because it consists of GStreamer element-factory and linking calls. Only the queue settings are kept, as the constants `Seek.QueueMaxSizeBuffers` and `Seek.QueueMaxSizeBytes`.
- The bus handlers `handle_eos`, `handle_error`, `on_error_message`, `on_warning_message` and `_player_error` are not modelled, because they print or parse foreign messages. Their pipeline-to-Null effect is not modelled either.
- The bus handler connections that `set_position` adds on every call (lines 434-435) are not modelled: they only register callbacks.
- `time_thread` is not modelled: it is concurrency, and its target does not exist.
- `set_volume`, the pixel-to-value arithmetic of `SeekSlider`, both `slider_mousePressEvent` definitions, `slider_pressed` and the screen geometry in `main` are not modelled, because they are floating point.
- Qt signal delivery is left to the caller: the model does not call `UpdateButtons` on state change or `PositionChanged` and `DurationChanged` on backend reports itself.
- The asynchronous landing of a seek is an input: `SetPosition` takes the position the player reports after the seek request.
- Seek.SeekTarget: float division followed by `int()` is modelled as integer floor division for non-negative slider values. The two agree while the product fits a double's 53-bit mantissa; this bound is not proved.
- Player.MainWindow.SetPosition: requires a non-negative slider value, the slider's range.
- PadRouter.RoutePad: only the classification is modelled. The link onto the queues (which are never assigned) and linking a pad at most once are not.
- Player.MainWindow.ResetBuffer: the source never assigns the window's pipeline attribute; it only reads it, at lines 399, 405, 455 and 456. So `reset_buffer` raises at line 455 as written, and neither the Paused request nor the timer start at lines 456 and 459, nor the timer start at line 431 in `set_position`, is reached. The model treats the pipeline as present, so the recovery goes through. The log message at line 427 is not modelled.
- Player.MainWindow.PlayAction: the backend's reaction is abstracted. Play and pause with no media loaded leave the state unchanged, and loading media resets the position and the unknown duration to 0.
