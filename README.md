# Clip editor timeline: a Dafny model

This project models the core of a desktop clip editor (`app.py`, class
`ClipEditorApp`). A video is loaded, and two handles on an 800-pixel time
track mark a start and an end. The track is locked until one of three clip
slots ("clip1", "clip2", "clip3") is selected. Each accepted drag converts
the handle's pixel to seconds (`x / 800 * total_frames / fps`). The truncated
times are stored in the selected slot and shown on its labels as `m:ss`.
Releasing a handle asks for the capture to be reopened at a position. A
playback loop then reads a frame, shows it, and skips frames according to
the speed slider.

The modules:

- `TimeFormat` (`time_format.dfy`): `format_time`, an independent reader
  `ParseClock` of its output, and the round trip between them.
- `DropPath` (`drop_path.dfy`): the path check of `on_drop`. It strips
  whitespace, removes one pair of braces and tests the extension without
  regard to case.
- `Timeline` (`timeline.dfy`): the editor's state as a value and one function
  per operation. The invariant covers handle ordering, times inside the
  handles' span, and ordered stored clips. Lemmas show that every operation
  keeps it, except a capture reopen that produces a duration the editor did
  not have or changes it. Every session without such a reopen keeps it too.
- `ClipEditor` (`clip_editor.dfy`): the class `ClipEditorApp`. Its fields are
  the state the handlers overwrite. Each handler is proved to produce exactly
  the `Timeline` function of the old state. Every handler except the reopen
  keeps the invariant. The reopen keeps it when its capture gives no
  duration or the duration the editor already had.
  The two seek handlers change nothing and return the `Timeline` seek
  targets.
- `Playback` (`playback.dfy`): a frame cursor standing for the capture, the
  playback loop, `frames_to_skip` with Python's half-to-even `round`, and
  the 30 fps fallback.
- `Wrappers` (`wrappers.dfy`): `Option`.

The decoder's answers are inputs to the model: whether the capture opened,
its frame count and its frame rate. A capture that failed to open reports
zero frames and zero fps. A frame rate of zero makes the program's
`total_frames / fps` raise, and the model returns an error outcome there:
`NoVideo` for a drag, `ZeroFps` for a load. Times are exact reals, and
Python's `int()` on them is truncation toward zero (`TimeFormat.Trunc`).

The ordering theorems rest on these assumptions about the decoder:

- The frame count is never negative (`VideoSource.totalFrames` is a `nat`).
- The frame rate is never negative (`fps >= 0.0` in the load, drop and
  reopen preconditions and in `EventWellFormed`). A negative duration would
  map the handles' pixel order to the reverse order of times.
- No reopen produces a duration the editor did not have just before it, or
  changes the one it had (`ReopensBringNoNewDuration`). A reopen that fails
  is allowed. So is a load after it. The program does not guarantee this.
  `reopen_video` (app.py:329-334) replaces the capture even when the new one
  does not open. A drag then moves its handle but raises before writing the
  time (app.py:254, 259-261). After a later successful reopen, the stored
  start can come after the stored end. That successful reopen is the one the
  assumption excludes. `Timeline.FailedReopenBreaksOrder` shows this for one
  session.

Behaviour that looks unintended is modelled as written:

- The end-handle clamp ("move the end handle to the start handle's right
  edge + 15 instead of rejecting") exists only in the first
  `update_end_handle` (app.py:121-123). A later definition with the same name
  replaces it in the class body, so only the rejecting check of
  `move_end_handle` is live.
- Loading a video resets the labels and the two times but not `clip_data` or
  the handle pixels.
- The start seek passes seconds where the end seek passes a frame number
  (see Findings).

## Model

| member | source | states |
|---|---|---|
| `TimeFormat.Trunc` | app.py:11 | `int()` of a time: for a non-negative value, the whole part t with t <= x < t + 1; for a negative one, truncation toward zero |
| `TimeFormat.TruncMonotone` | app.py:434-435 | truncation keeps the order of two times, so a stored start is never after its stored end |
| `TimeFormat.FormatTime` | app.py:9-14 | the text ends in a colon followed by exactly two digits |
| `TimeFormat.FormatTimeRoundTrip` | app.py:9-14 | reading the text back as minutes:seconds gives 60*m + ss == int(seconds), with ss two digits below 60 |
| `TimeFormat.ParseClockUnique` | app.py:9-14 | the reader accepts only minutes written as `str()` writes them, so no two texts read as the same number of seconds |
| `TimeFormat.FormatTimeOnlyReading` | app.py:9-14 | the only text that reads back as int(seconds) is the one format_time produces |
| `TimeFormat.FormatTimeExamples` | app.py:9-14 | 150 s shows "2:30", 300 s "5:00", 0 s "0:00", 59.99 s "0:59" |
| `DropPath.DroppedPath` | app.py:147-153 | an accepted path ends in .mp4, .mov or .avi in any case, and is a contiguous piece of the dropped text |
| `DropPath.StripSurrounded` | app.py:147 | `strip()` removes exactly the surrounding whitespace from a text whose ends are not whitespace |
| `DropPath.DroppedVideoPathAccepted` | app.py:147-155 | a video path is accepted unchanged whether it arrives bare or in braces, with any whitespace around it |
| `DropPath.OtherFileRejected` | app.py:151-153 | a path without a video extension is refused, bare or in braces |
| `Timeline.PixelToSeconds` | app.py:261 | the time for a pixel in [0, 800] lies in [0, duration] |
| `Timeline.PixelToSecondsMonotone` | app.py:261 | a pixel further right never gives an earlier time |
| `Timeline.InitialInv` | app.py:26-59 | the start-up state (locked, no slot, handles [0,15] and [785,800], all clips 0 to 0) satisfies the invariant |
| `Timeline.PositionsOrdered` | app.py:221 | under the invariant, with a video loaded: 0 <= start time <= end time <= duration |
| `Timeline.SelectClipUnlocks` | app.py:414-428 | selecting slot k sets the selection to k and unlocks, changes nothing else, and keeps the invariant |
| `Timeline.LockedDragsChangeNothing` | app.py:213-215 | while locked or with no slot selected, both drags are refused and change nothing |
| `Timeline.MoveStartSpec` | app.py:211-225 | a start drag is accepted iff unlocked and 0 <= x <= endLeft - 15; a refused one changes nothing; an accepted one sets the handle to [x, x+15] and the start time to x/800 of the duration, and keeps the end time, capture, lock, selection and path |
| `Timeline.MoveEndSpec` | app.py:228-242 | an end drag is accepted iff unlocked and startRight + 15 <= x <= 800; a refused one changes nothing; an accepted one sets the handle to [x-15, x] and the end time to x/800 of the duration, and keeps the start time, capture, lock, selection and path |
| `Timeline.DragTouchesSelectedSlotOnly` | app.py:430-445 | an accepted drag stores int(start) and int(end) in the selected slot and updates its labels; the other two slots are unchanged |
| `Timeline.UpdateWithoutSelection` | app.py:432 | committing with no slot selected changes nothing |
| `Timeline.MoveStartPreservesInv` | app.py:221-223 | a start drag keeps the handles ordered, the times inside the handles' span and the stored clips ordered |
| `Timeline.MoveEndPreservesInv` | app.py:238-240 | an end drag keeps the same invariant |
| `Timeline.LoadVideoSpec` | app.py:163-186 | a load succeeds iff the capture opened with non-zero fps; it then locks, clears the selection, sets the times to 0 and the duration and every slot's labels to "Inicio: 0:00" and "Final: " + format_time(duration); clip_data and handle pixels are never touched; a failed load only replaces the capture |
| `Timeline.LoadVideoPreservesInv` | app.py:172-186 | a load keeps the invariant |
| `Timeline.OnDropSpec` | app.py:145-156 | a refused drop changes nothing; an accepted one records the path and loads it |
| `Timeline.OnDropPreservesInv` | app.py:145-156 | a drop keeps the invariant |
| `Timeline.ReopenSpec` | app.py:329-334 | a reopen replaces only the capture; a duration exists afterwards iff the new capture opened with non-zero fps, and it is then frames / fps |
| `Timeline.ReopenKeepingDurationPreservesInv` | app.py:329-334 | a reopen whose capture gives the duration the editor already had keeps the invariant |
| `Timeline.ReopenWithoutDurationPreservesInv` | app.py:329-334 | a reopen whose capture gives no duration (not opened, or zero fps) keeps the invariant |
| `Timeline.RunPreservesInv` | app.py:211-242 | any sequence of selections, drags, loads, drops and reopens keeps the invariant, provided no reopen produces a new or different duration |
| `Timeline.SessionKeepsTimesOrdered` | app.py:158-283 | from start-up, after any session in which no reopen produces a new or different duration, the handles are ordered, the stored clips are ordered and, with a video loaded, 0 <= start time <= end time <= duration |
| `Timeline.HalfwayEndDragScenario` | app.py:234-242 | 300 s at 30 fps: all slots show 0:00 to 5:00; selecting clip2 and dragging the end to pixel 400 gives 150 s, "Final: 2:30", clip2 stored as 0 to 150, the others still 5:00 |
| `Timeline.FailedReopenBreaksOrder` | app.py:254-261 | load 300 s at 30 fps, select clip1, start to 400, failed reopen, start to 100 (handle moves, time stays 150 s), successful reopen, end to 130: clip1 stores 150 to 48 and the stored clips are no longer ordered |
| `Timeline.StartSeekPassesSeconds` | app.py:304-306 | with the start at 150 s of a 30 fps video the start seek is told position 150, while the frame at 150 s is 4500 |
| `Timeline.SeekFrameShowsTime` | app.py:313 | int(t * fps) is the frame on screen at time t: frame/fps <= t < (frame+1)/fps |
| `Timeline.IntendedStartSeekFrame` | app.py:313 | in a consistent state the corrected start seek lands on the frame showing the start time |
| `ClipEditor.ClipEditorApp.constructor` | app.py:26-59 | the fields start as the initial state, which satisfies the invariant |
| `ClipEditor.ClipEditorApp.SelectClip` | app.py:414-428 | the new state is the selection of the slot, with the timeline unlocked |
| `ClipEditor.ClipEditorApp.UpdateStartHandle` | app.py:245-263 | the start handle's coordinates become [x, x+15]; the start time becomes x/800 of the duration, unless computing the duration raises |
| `ClipEditor.ClipEditorApp.UpdateEndHandle` | app.py:265-283 | the end handle's coordinates become [x-15, x]; the end time becomes x/800 of the duration, unless computing the duration raises |
| `ClipEditor.ClipEditorApp.UpdateClipValues` | app.py:430-445 | the selected slot's stored range and labels are rewritten from the current times |
| `ClipEditor.ClipEditorApp.MoveStartHandle` | app.py:211-225 | the new state and outcome are those of `Timeline.MoveStart`, and the invariant is kept |
| `ClipEditor.ClipEditorApp.MoveEndHandle` | app.py:228-242 | the new state and outcome are those of `Timeline.MoveEnd`, and the invariant is kept |
| `ClipEditor.ClipEditorApp.ShowLoaded` | app.py:172-186 | after a successful open: the capture is the new one, the times are 0 and the duration, the timeline is locked with no selection, and every slot shows "Inicio: 0:00" and "Final: " + format_time(duration) |
| `ClipEditor.ClipEditorApp.ResetSlotLabels` | app.py:183-186 | the loop over the slot boxes gives every slot the same two labels |
| `ClipEditor.ClipEditorApp.LoadVideo` | app.py:158-189 | the new state and outcome are those of `Timeline.LoadVideo`, and the invariant is kept |
| `ClipEditor.ClipEditorApp.OnDrop` | app.py:145-156 | the new state and outcome are those of `Timeline.OnDrop`, and the invariant is kept |
| `ClipEditor.ClipEditorApp.ReopenVideo` | app.py:322-334 | the new state is `Timeline.ReopenCapture` of the old one, and the invariant is kept when the new capture gives no duration or the same one |
| `ClipEditor.ClipEditorApp.SyncVideoWithStart` | app.py:297-306 | a reopen position exists iff the timeline is unlocked with a slot selected; it is the start time in seconds, which is `Timeline.StartSeekTarget` of the state |
| `ClipEditor.ClipEditorApp.SyncVideoWithEnd` | app.py:308-313 | a reopen position exists iff there is a capture, with no lock check; it is int(end_pos * fps), which is `Timeline.EndSeekTarget` of the state |
| `Playback.Capture.Read` | app.py:357 | a read succeeds iff the capture is open and the cursor is inside the stream; it returns the frame at the cursor and advances it by one |
| `Playback.Capture.Grab` | app.py:366 | a grab advances the cursor by one while inside the stream |
| `Playback.RoundTenths` | app.py:352 | `round(speed)`: the nearest integer to tenths/10, with ties going to the even one |
| `Playback.FramesToSkip` | app.py:352 | frames_to_skip >= 1; it is 1 for speeds 0.5 to 1.4 and 2 for 1.5 to 2.0 |
| `Playback.EffectiveFps` | app.py:346-348 | the pacing rate is positive: a reported 0 becomes 30, any other rate is kept |
| `Playback.StridedFramesSpec` | app.py:356-366 | the i-th frame shown is start + i * frames_to_skip, every frame shown is inside the stream, and the read after the last falls past its end |
| `Playback.PlayVideo` | app.py:341-368 | while running on an open capture, the frames shown are exactly the strided frames from the cursor, and the cursor ends at the end of the stream; otherwise nothing is shown |

## Findings

| source | as written | input that shows it | evidently intended | confidence | as-written member | corrected member |
|---|---|---|---|---|---|---|
| app.py:306 | `sync_video_with_start` hands `start_pos`, a time in seconds, to `reopen_video`. `reopen_video` sets it as the capture's frame position (app.py:335). | start handle at pixel 400 of a 300-second, 30 fps video: the capture is positioned at frame 150 (5 s) instead of 4500 (150 s) | convert as `sync_video_with_end` does: `int(start_pos * fps)` (app.py:313) | high for the unit mismatch; not executed | ClipEditor.ClipEditorApp.SyncVideoWithStart, Timeline.StartSeekPassesSeconds | Timeline.IntendedStartSeekTarget, Timeline.IntendedStartSeekFrame |

The class method `ClipEditor.ClipEditorApp.SyncVideoWithStart` keeps the
as-written position, because the model reproduces what the program does.
`Timeline.IntendedStartSeekTarget` is the corrected target. It uses the same
conversion, `Timeline.SeekFrame`, as the end seek.

## Left out

- Widgets, styling, highlight colours, canvas y-coordinates and
  drag-and-drop registration (app.py:28-95, 135-143, 379-412). The selection
  highlight loop of `select_clip` (app.py:416-420) only recolours borders.
  The labels are kept as texts in the state.
- The first definitions of `update_start_handle` and `update_end_handle`
  (app.py:97-133). Python keeps the later definitions (app.py:245-283), so
  these never run, and their clamp (app.py:121-123) is dead code.
- OpenCV and PIL work: `display_frame`, `show_first_frame`, and opening and
  releasing `VideoCapture` (app.py:163-169, 189-209). These are foreign
  calls. The model takes their answers (opened, frame count, fps) as
  parameters, and a frame is represented by its number.
- Threads: the `threaded` decorator, `self.lock`, `join`,
  `stop_video_thread` and `start_video_thread` (app.py:16-23, 287-295,
  315-320, 325). Each handler is modelled as if it ran to completion
  immediately. `video_thread` is never assigned (app.py:36), so the program
  gives no stop-before-reopen ordering to prove.
- `reopen_video` (app.py:322-339): the replacement of the capture is
  modelled (`Timeline.ReopenCapture`, `ClipEditorApp.ReopenVideo`), with the
  decoder's report for the path as a parameter. Also modelled is the position
  it is given (`SyncVideoWithStart`, `SyncVideoWithEnd`). Not modelled:
  releasing the old capture, setting the new one's frame position and
  restarting playback, which are decoder and thread work. The playback model
  starts from a capture whose cursor is already set.
- Playback.PlayVideo: `running` stays fixed for the whole loop, because no
  other thread is modelled to clear it.
- Sleep-based pacing (app.py:351, 368) and the 50 ms `root.after` deferral of
  `select_clip` (app.py:428). The selection takes effect immediately.
- `on_speed_change` (app.py:374-377): it only prints. The speed is an input
  to `PlayVideo` in whole tenths from 5 to 20, the slider's range.
- Floating point: times are exact reals, not IEEE doubles, and the slider's
  rounding artefacts are not modelled.
- DropPath.DroppedPath: lower-cases ASCII letters only. Python's `lower()`
  maps a few other characters to ASCII letters. One is U+212A (Kelvin sign),
  which becomes "k", a letter none of the extensions contain. Another is
  U+0130 (capital I with dot), which becomes "i" followed by U+0307. A path
  ending in U+0130 therefore ends, after `lower()`, in U+0307 and not in
  ".avi". The model keeps U+0130 unchanged and rejects such a path too, so
  the outcome is the same.
- Printed messages and error dialogs: these become the outcome values
  (`DragOutcome`, `LoadOutcome`, `DropOutcome`).
- backup.py: it runs ffmpeg with fixed time ranges and writes a list file.
  This is external-tool and file I/O with no logic of its own.
