/**
 * ClipEditorApp as an object: its fields are the ones the event handlers
 * overwrite (the lock, the selected slot, the two times, clip_data, the slot
 * labels, the handles' pixel coordinates, the video path and the capture as
 * the editor reads it). Each handler is a method proved to leave the object
 * in the state the corresponding Timeline function describes, and to keep
 * the Timeline invariant (the reopen only when it brings no new duration).
 */
module ClipEditor {
  import opened Wrappers
  import opened TimeFormat
  import opened Timeline
  import DropPath

  class ClipEditorApp {
    var timelineLocked: bool
    var selectedClip: Option<SlotKey>
    var startPos: real
    var endPos: real
    var clipData: map<SlotKey, ClipRange>
    var labels: map<SlotKey, SlotLabels>
    var startLeft: int
    var startRight: int
    var endLeft: int
    var endRight: int
    var videoPath: Option<string>
    var source: Option<VideoSource>

    /** The object's fields as one value. */
    function State(): EditorState
      reads this
    {
      EditorState(timelineLocked, selectedClip, startPos, endPos, clipData, labels,
                  Handles(startLeft, startRight, endLeft, endRight), videoPath, source)
    }

    predicate Valid()
      reads this
    {
      Inv(State())
    }

    constructor ()
      ensures State() == Initial() && Valid()
    {
      timelineLocked := true;
      selectedClip := None;
      startPos, endPos := 0.0, 100.0;
      clipData := map[Clip1 := ClipRange(0, 0), Clip2 := ClipRange(0, 0), Clip3 := ClipRange(0, 0)];
      var blank := SlotLabels("Inicio: 0:00", "Final: 0:00");
      labels := map[Clip1 := blank, Clip2 := blank, Clip3 := blank];
      startLeft, startRight := 0, HandleWidth;
      endLeft, endRight := TrackWidth - HandleWidth, TrackWidth;
      videoPath := None;
      source := None;
      InitialInv();
    }

    method SelectClip(clipKey: SlotKey)
      requires Valid()
      modifies this
      ensures Valid() && State() == Timeline.SelectClip(old(State()), clipKey)
    {
      selectedClip := Some(clipKey);
      timelineLocked := false;
    }

    /** The live update_start_handle: coordinates first, then the time, which can raise. */
    method UpdateStartHandle(x: int) returns (ok: bool)
      modifies this
      ensures (State(), ok) == PlaceStart(old(State()), x)
    {
      startLeft, startRight := x, x + HandleWidth;
      var d := Duration(source);
      if d.None? {
        return false;
      }
      startPos := PixelToSeconds(x, d.value);
      ok := true;
    }

    /** The live update_end_handle. */
    method UpdateEndHandle(x: int) returns (ok: bool)
      modifies this
      ensures (State(), ok) == PlaceEnd(old(State()), x)
    {
      endLeft, endRight := x - HandleWidth, x;
      var d := Duration(source);
      if d.None? {
        return false;
      }
      endPos := PixelToSeconds(x, d.value);
      ok := true;
    }

    method UpdateClipValues()
      modifies this
      ensures State() == Timeline.UpdateClipValues(old(State()))
    {
      if selectedClip.Some? {
        var k := selectedClip.value;
        clipData := clipData[k := ClipRange(Trunc(startPos), Trunc(endPos))];
        labels := labels[k := SlotLabels("Inicio: " + FormatTime(startPos), "Final: " + FormatTime(endPos))];
      }
    }

    method MoveStartHandle(x: int) returns (outcome: DragOutcome)
      requires Valid()
      modifies this
      ensures Valid() && (State(), outcome) == MoveStart(old(State()), x)
    {
      MoveStartPreservesInv(State(), x);
      if timelineLocked || selectedClip.None? {
        return TimelineLocked;
      }
      if !(0 <= x <= endLeft - HandleWidth) {
        return OutOfRange;
      }
      var ok := UpdateStartHandle(x);
      if !ok {
        return NoVideo;
      }
      UpdateClipValues();
      outcome := Moved;
    }

    method MoveEndHandle(x: int) returns (outcome: DragOutcome)
      requires Valid()
      modifies this
      ensures Valid() && (State(), outcome) == MoveEnd(old(State()), x)
    {
      MoveEndPreservesInv(State(), x);
      if timelineLocked || selectedClip.None? {
        return TimelineLocked;
      }
      if !(startRight + HandleWidth <= x <= TrackWidth) {
        return OutOfRange;
      }
      var ok := UpdateEndHandle(x);
      if !ok {
        return NoVideo;
      }
      UpdateClipValues();
      outcome := Moved;
    }

    /** The loop of load_video over the slot boxes: every slot gets the same two labels. */
    method ResetSlotLabels(reset: SlotLabels)
      requires forall k: SlotKey :: k in labels
      modifies this`labels
      ensures labels == map k | k in AllSlots :: reset
    {
      var slots := [Clip1, Clip2, Clip3];
      for i := 0 to |slots|
        invariant forall k: SlotKey :: k in labels
        invariant forall j :: 0 <= j < i ==> labels[slots[j]] == reset
      {
        labels := labels[slots[i] := reset];
      }
      forall k: SlotKey ensures k in AllSlots && labels[k] == reset {
        SlotInAll(k);
        assert k == slots[0] || k == slots[1] || k == slots[2];
      }
    }

    /** load_video with what the decoder reports for the current path. */
    method LoadVideo(isOpen: bool, totalFrames: nat, fps: real) returns (outcome: LoadOutcome)
      requires Valid() && fps >= 0.0
      modifies this
      ensures Valid() && (State(), outcome) == Timeline.LoadVideo(old(State()), isOpen, totalFrames, fps)
    {
      LoadVideoPreservesInv(State(), isOpen, totalFrames, fps);
      if !isOpen {
        source := Some(VideoSource(false, 0, 0.0));
        return CannotOpen;
      }
      if fps == 0.0 {
        source := Some(VideoSource(true, totalFrames, 0.0));
        return ZeroFps;
      }
      ShowLoaded(totalFrames, fps);
      outcome := Loaded;
    }

    /** The successful end of load_video: new capture, times and labels reset, timeline locked. */
    method ShowLoaded(totalFrames: nat, fps: real)
      requires fps != 0.0 && forall k: SlotKey :: k in labels
      modifies this
      ensures var duration := totalFrames as real / fps;
        State() == old(State()).(source := Some(VideoSource(true, totalFrames, fps)),
                                 startPos := 0.0, endPos := duration,
                                 timelineLocked := true, selectedClip := None,
                                 labels := ResetLabels(duration))
    {
      source := Some(VideoSource(true, totalFrames, fps));
      var duration := totalFrames as real / fps;
      startPos, endPos := 0.0, duration;
      timelineLocked := true;
      selectedClip := None;
      ResetSlotLabels(SlotLabels("Inicio: 0:00", "Final: " + FormatTime(duration)));
    }

    /** on_drop: reject anything but a video path, otherwise remember it and load it. */
    method OnDrop(data: string, isOpen: bool, totalFrames: nat, fps: real) returns (outcome: DropOutcome)
      requires Valid() && fps >= 0.0
      modifies this
      ensures Valid() && (State(), outcome) == Timeline.OnDrop(old(State()), data, isOpen, totalFrames, fps)
    {
      var path := DropPath.DroppedPath(data);
      if path.None? {
        return InvalidFile;
      }
      videoPath := path;
      var loaded := LoadVideo(isOpen, totalFrames, fps);
      outcome := LoadAttempted(loaded);
    }

    /**
     * reopen_video as the fields see it: the capture is replaced by the one
     * the decoder reports for the video path, opened or not. The invariant
     * survives when the new capture gives no duration or the same one.
     */
    method ReopenVideo(isOpen: bool, totalFrames: nat, fps: real)
      requires Valid() && fps >= 0.0
      modifies this`source
      ensures State() == ReopenCapture(old(State()), isOpen, totalFrames, fps)
      ensures Duration(source).None? || Duration(source) == old(Duration(source)) ==> Valid()
    {
      if Duration(Some(ReopenedSource(isOpen, totalFrames, fps))).None? {
        ReopenWithoutDurationPreservesInv(State(), isOpen, totalFrames, fps);
      } else if Duration(Some(ReopenedSource(isOpen, totalFrames, fps))) == Duration(source) {
        ReopenKeepingDurationPreservesInv(State(), isOpen, totalFrames, fps);
      }
      source := Some(ReopenedSource(isOpen, totalFrames, fps));
    }

    /**
     * sync_video_with_start: nothing while the timeline is locked or no slot
     * is selected; otherwise the start time, in seconds, is the position the
     * capture is reopened at.
     */
    method SyncVideoWithStart() returns (position: Option<real>)
      ensures position.Some? <==> !timelineLocked && selectedClip.Some?
      ensures position.Some? ==> position.value == startPos
      ensures position == StartSeekTarget(State())
    {
      if timelineLocked || selectedClip.None? {
        return None;
      }
      position := Some(startPos);
    }

    /**
     * sync_video_with_end: no lock or selection guard; the end time is turned
     * into a frame number, int(end_pos * fps). Without a capture the fps
     * lookup raises and nothing is reopened.
     */
    method SyncVideoWithEnd() returns (position: Option<int>)
      ensures position.Some? <==> source.Some?
      ensures position.Some? ==> position.value == Trunc(endPos * source.value.fps)
      ensures position == EndSeekTarget(State())
    {
      if source.None? {
        return None;
      }
      position := Some(SeekFrame(endPos, source.value.fps));
    }
  }
}
