/**
 * The state of the clip editor as a value, and one function per operation
 * that changes it: selecting a slot, dragging either handle of the 800-pixel
 * track, committing the current selection into the selected slot, loading
 * a video, and replacing the capture when it is reopened. The class in
 * ClipEditor keeps the same state in fields and its methods are proved to
 * compute exactly these functions; the lemmas here state what the editor
 * promises about them.
 */
module Timeline {
  import opened Wrappers
  import opened TimeFormat
  import DropPath

  /** Width of the time track and of each handle, in pixels. */
  const TrackWidth: int := 800
  const HandleWidth: int := 15

  /** The three fixed clip slots ("clip1", "clip2", "clip3"). */
  datatype SlotKey = Clip1 | Clip2 | Clip3

  const AllSlots: set<SlotKey> := {Clip1, Clip2, Clip3}

  lemma SlotInAll(k: SlotKey)
    ensures k in AllSlots
  {
    match k
    case Clip1 =>
    case Clip2 =>
    case Clip3 =>
  }

  /** A map built over AllSlots has an entry for every slot. */
  lemma SlotMapTotal<V>(m: map<SlotKey, V>)
    requires m.Keys == AllSlots
    ensures forall k: SlotKey :: k in m
  {
    forall k: SlotKey ensures k in m {
      SlotInAll(k);
    }
  }

  /** What clip_data stores for one slot: whole seconds. */
  datatype ClipRange = ClipRange(start: int, end: int)

  /** The two label texts of one slot box. */
  datatype SlotLabels = SlotLabels(startText: string, endText: string)

  /**
   * What the editor reads from its decoder handle. A capture that failed to
   * open reports zero frames and zero frames per second.
   */
  datatype VideoSource = VideoSource(isOpen: bool, totalFrames: nat, fps: real)

  /** Left and right pixel edges of the start and the end handle. */
  datatype Handles = Handles(startLeft: int, startRight: int, endLeft: int, endRight: int)

  datatype EditorState = EditorState(
    timelineLocked: bool,
    selectedClip: Option<SlotKey>,
    startPos: real,
    endPos: real,
    clipData: map<SlotKey, ClipRange>,
    labels: map<SlotKey, SlotLabels>,
    handles: Handles,
    videoPath: Option<string>,
    source: Option<VideoSource>)

  datatype DragOutcome = Moved | TimelineLocked | OutOfRange | NoVideo
  datatype LoadOutcome = Loaded | CannotOpen | ZeroFps
  datatype DropOutcome = InvalidFile | LoadAttempted(load: LoadOutcome)

  /** The state the constructor sets up: locked, nothing selected, handles at both ends. */
  function Initial(): EditorState {
    EditorState(
      true, None, 0.0, 100.0,
      map k | k in AllSlots :: ClipRange(0, 0),
      map k | k in AllSlots :: SlotLabels("Inicio: 0:00", "Final: 0:00"),
      Handles(0, HandleWidth, TrackWidth - HandleWidth, TrackWidth),
      None, None)
  }

  /**
   * total_frames / fps as the handle code computes it; None when that
   * computation raises (no capture yet, or a capture reporting zero fps).
   */
  function Duration(src: Option<VideoSource>): Option<real> {
    if src.Some? && src.value.fps != 0.0 then Some(src.value.totalFrames as real / src.value.fps)
    else None
  }

  /** (x / 800) * duration: the time a pixel of the track stands for. */
  function PixelToSeconds(x: int, duration: real): (t: real)
    ensures 0 <= x && 0.0 <= duration ==> 0.0 <= t
    ensures x <= TrackWidth && 0.0 <= duration ==> t <= duration
  {
    (x as real / TrackWidth as real) * duration
  }

  lemma PixelToSecondsMonotone(x: int, y: int, duration: real)
    requires x <= y && 0.0 <= duration
    ensures PixelToSeconds(x, duration) <= PixelToSeconds(y, duration)
  {
    var a := x as real / TrackWidth as real;
    var b := y as real / TrackWidth as real;
    assert a <= b;
    assert b * duration - a * duration == (b - a) * duration;
    assert (b - a) * duration >= 0.0;
  }

  /** int(seconds * fps): the frame number a time in seconds corresponds to. */
  function SeekFrame(seconds: real, fps: real): int {
    Trunc(seconds * fps)
  }

  // ---------------------------------------------------------------------------
  // Guards

  /** The handles can be dragged only when the timeline is unlocked and a slot is selected. */
  predicate Unlocked(st: EditorState) {
    !st.timelineLocked && st.selectedClip.Some?
  }

  /** 0 <= x <= end handle's left edge - 15 */
  predicate StartMoveInRange(h: Handles, x: int) {
    0 <= x <= h.endLeft - HandleWidth
  }

  /** start handle's right edge + 15 <= x <= 800 */
  predicate EndMoveInRange(h: Handles, x: int) {
    h.startRight + HandleWidth <= x <= TrackWidth
  }

  // ---------------------------------------------------------------------------
  // Operations

  /** select_clip, with the 50 ms deferral taken as immediate. */
  function SelectClip(st: EditorState, k: SlotKey): EditorState {
    st.(selectedClip := Some(k), timelineLocked := false)
  }

  /**
   * update_start_handle (the later definition, which is the live one): the
   * handle's coordinates are written first, then the time is computed from
   * the capture; when that computation raises, the time is not written and
   * the flag is false.
   */
  function PlaceStart(st: EditorState, x: int): (EditorState, bool) {
    var placed := st.(handles := st.handles.(startLeft := x, startRight := x + HandleWidth));
    match Duration(st.source)
    case None => (placed, false)
    case Some(d) => (placed.(startPos := PixelToSeconds(x, d)), true)
  }

  /** update_end_handle (the later definition): end handle to [x - 15, x]. */
  function PlaceEnd(st: EditorState, x: int): (EditorState, bool) {
    var placed := st.(handles := st.handles.(endLeft := x - HandleWidth, endRight := x));
    match Duration(st.source)
    case None => (placed, false)
    case Some(d) => (placed.(endPos := PixelToSeconds(x, d)), true)
  }

  /**
   * update_clip_values: the truncated start and end go into the selected
   * slot's clip_data entry and its labels show them formatted.
   */
  function UpdateClipValues(st: EditorState): EditorState {
    match st.selectedClip
    case None => st
    case Some(k) =>
      st.(clipData := st.clipData[k := ClipRange(Trunc(st.startPos), Trunc(st.endPos))],
          labels := st.labels[k := SlotLabels("Inicio: " + FormatTime(st.startPos),
                                             "Final: " + FormatTime(st.endPos))])
  }

  /** move_start_handle with the event's x coordinate. */
  function MoveStart(st: EditorState, x: int): (EditorState, DragOutcome) {
    if !Unlocked(st) then (st, TimelineLocked)
    else if !StartMoveInRange(st.handles, x) then (st, OutOfRange)
    else
      var (placed, ok) := PlaceStart(st, x);
      if ok then (UpdateClipValues(placed), Moved) else (placed, NoVideo)
  }

  /** move_end_handle with the event's x coordinate. */
  function MoveEnd(st: EditorState, x: int): (EditorState, DragOutcome) {
    if !Unlocked(st) then (st, TimelineLocked)
    else if !EndMoveInRange(st.handles, x) then (st, OutOfRange)
    else
      var (placed, ok) := PlaceEnd(st, x);
      if ok then (UpdateClipValues(placed), Moved) else (placed, NoVideo)
  }

  /** The labels every slot shows after a video of the given duration loads. */
  function ResetLabels(duration: real): map<SlotKey, SlotLabels> {
    map k | k in AllSlots :: SlotLabels("Inicio: 0:00", "Final: " + FormatTime(duration))
  }

  /**
   * load_video, given what the decoder reports for the current path: whether
   * the capture opened, its frame count and its frame rate. The capture is
   * replaced before either failure; a zero frame rate raises at the division.
   */
  function LoadVideo(st: EditorState, isOpen: bool, totalFrames: nat, fps: real): (EditorState, LoadOutcome) {
    if !isOpen then (st.(source := Some(VideoSource(false, 0, 0.0))), CannotOpen)
    else if fps == 0.0 then (st.(source := Some(VideoSource(true, totalFrames, 0.0))), ZeroFps)
    else
      var duration := totalFrames as real / fps;
      (st.(source := Some(VideoSource(true, totalFrames, fps)),
           startPos := 0.0, endPos := duration,
           timelineLocked := true, selectedClip := None,
           labels := ResetLabels(duration)),
       Loaded)
  }

  /**
   * The capture reopen_video puts in place of the current one, from what the
   * decoder reports for the video path; a capture that did not open reports
   * zero frames and zero fps.
   */
  function ReopenedSource(isOpen: bool, totalFrames: nat, fps: real): VideoSource {
    if isOpen then VideoSource(true, totalFrames, fps) else VideoSource(false, 0, 0.0)
  }

  /**
   * reopen_video as the editor's state sees it: the capture is replaced,
   * whether or not the new one opens; the times, handles and slots are left
   * as they are.
   */
  function ReopenCapture(st: EditorState, isOpen: bool, totalFrames: nat, fps: real): EditorState {
    st.(source := Some(ReopenedSource(isOpen, totalFrames, fps)))
  }

  /** on_drop: the path check, then a load of the accepted path. */
  function OnDrop(st: EditorState, data: string, isOpen: bool, totalFrames: nat, fps: real): (EditorState, DropOutcome) {
    match DropPath.DroppedPath(data)
    case None => (st, InvalidFile)
    case Some(path) =>
      var (loaded, outcome) := LoadVideo(st.(videoPath := Some(path)), isOpen, totalFrames, fps);
      (loaded, LoadAttempted(outcome))
  }

  /**
   * sync_video_with_start: the position handed to the reopen, in the unit
   * the capture's frame-position property takes; None when the guard stops it.
   */
  function StartSeekTarget(st: EditorState): Option<real> {
    if Unlocked(st) then Some(st.startPos) else None
  }

  /** sync_video_with_end: no guard; None when there is no capture to ask for its fps. */
  function EndSeekTarget(st: EditorState): Option<int> {
    match st.source
    case None => None
    case Some(v) => Some(SeekFrame(st.endPos, v.fps))
  }

  /** The start seek converted the way the end seek is: int(start_pos * fps). */
  function IntendedStartSeekTarget(st: EditorState): Option<int> {
    if Unlocked(st) && st.source.Some? then Some(SeekFrame(st.startPos, st.source.value.fps)) else None
  }

  // ---------------------------------------------------------------------------
  // The invariant

  /** 0 <= startLeft, startRight = startLeft + 15 <= endLeft = endRight - 15, endRight <= 800 */
  predicate HandlesOrdered(h: Handles) {
    0 <= h.startLeft && h.startRight == h.startLeft + HandleWidth
    && h.startRight <= h.endLeft && h.endLeft == h.endRight - HandleWidth
    && h.endRight <= TrackWidth
  }

  /** A decoder never reports a negative rate, and an unopened capture reports zeros. */
  predicate SourceWellFormed(src: Option<VideoSource>) {
    src.Some? ==>
      src.value.fps >= 0.0
      && (!src.value.isOpen ==> src.value.totalFrames == 0 && src.value.fps == 0.0)
  }

  /**
   * The times lie inside the handles' span: the start time is at most the
   * start handle's left edge, the end time at least the end handle's right
   * edge, and both within [0, duration].
   */
  predicate PositionsWithinHandles(st: EditorState, duration: real) {
    0.0 <= st.startPos <= PixelToSeconds(st.handles.startLeft, duration)
    && PixelToSeconds(st.handles.endRight, duration) <= st.endPos <= duration
  }

  predicate AllSlotsPresent(st: EditorState) {
    forall k: SlotKey :: k in st.clipData && k in st.labels
  }

  /** Every stored clip is a non-negative range whose start is not after its end. */
  predicate ClipsOrdered(clips: map<SlotKey, ClipRange>) {
    forall k :: k in clips ==> 0 <= clips[k].start <= clips[k].end
  }

  predicate Inv(st: EditorState) {
    HandlesOrdered(st.handles)
    && SourceWellFormed(st.source)
    && AllSlotsPresent(st)
    && ClipsOrdered(st.clipData)
    && (Duration(st.source).Some? ==> PositionsWithinHandles(st, Duration(st.source).value))
  }

  lemma DurationNonNegative(src: Option<VideoSource>)
    requires SourceWellFormed(src) && Duration(src).Some?
    ensures Duration(src).value >= 0.0
  {
    var v := src.value;
    assert v.fps > 0.0;
    assert v.totalFrames as real / v.fps >= 0.0;
  }

  // ---------------------------------------------------------------------------
  // What the operations promise

  lemma InitialInv()
    ensures Inv(Initial())
  {
    SlotMapTotal(Initial().clipData);
    SlotMapTotal(Initial().labels);
  }

  /** The central ordering property: start time <= end time, both within the video. */
  lemma PositionsOrdered(st: EditorState)
    requires Inv(st) && Duration(st.source).Some?
    ensures 0.0 <= st.startPos <= st.endPos <= Duration(st.source).value
  {
    var d := Duration(st.source).value;
    DurationNonNegative(st.source);
    PixelToSecondsMonotone(st.handles.startLeft, st.handles.endRight, d);
  }

  /** select_clip picks the slot and unlocks the timeline, and changes nothing else. */
  lemma SelectClipUnlocks(st: EditorState, k: SlotKey)
    ensures var st' := SelectClip(st, k);
      Unlocked(st') && st'.selectedClip == Some(k)
      && st' == st.(selectedClip := Some(k), timelineLocked := false)
    ensures Inv(st) ==> Inv(SelectClip(st, k))
  {
  }

  /** While the timeline is locked or no slot is selected, neither drag changes anything. */
  lemma LockedDragsChangeNothing(st: EditorState, x: int)
    requires !Unlocked(st)
    ensures MoveStart(st, x) == (st, TimelineLocked)
    ensures MoveEnd(st, x) == (st, TimelineLocked)
  {
  }

  /**
   * A start drag is accepted exactly when the timeline is unlocked and
   * 0 <= x <= endLeft - 15; a rejected drag changes nothing; an accepted one
   * puts the start handle at [x, x + 15] and, when a video is loaded, sets the
   * start time to x / 800 of the duration and leaves the end alone.
   */
  lemma MoveStartSpec(st: EditorState, x: int)
    ensures var (st', outcome) := MoveStart(st, x);
      (outcome == TimelineLocked <==> !Unlocked(st))
      && (outcome == OutOfRange <==> Unlocked(st) && !StartMoveInRange(st.handles, x))
      && (outcome == TimelineLocked || outcome == OutOfRange ==> st' == st)
      && (outcome == Moved || outcome == NoVideo ==>
            st'.handles == st.handles.(startLeft := x, startRight := x + HandleWidth)
            && st'.endPos == st.endPos && st'.source == st.source
            && st'.timelineLocked == st.timelineLocked && st'.selectedClip == st.selectedClip
            && st'.videoPath == st.videoPath)
      && (outcome == Moved <==> Unlocked(st) && StartMoveInRange(st.handles, x) && Duration(st.source).Some?)
      && (outcome == Moved ==> st'.startPos == PixelToSeconds(x, Duration(st.source).value))
      && (outcome == NoVideo ==> st' == st.(handles := st'.handles))
  {
  }

  /** The mirror image for the end handle: accepted when startRight + 15 <= x <= 800. */
  lemma MoveEndSpec(st: EditorState, x: int)
    ensures var (st', outcome) := MoveEnd(st, x);
      (outcome == TimelineLocked <==> !Unlocked(st))
      && (outcome == OutOfRange <==> Unlocked(st) && !EndMoveInRange(st.handles, x))
      && (outcome == TimelineLocked || outcome == OutOfRange ==> st' == st)
      && (outcome == Moved || outcome == NoVideo ==>
            st'.handles == st.handles.(endLeft := x - HandleWidth, endRight := x)
            && st'.startPos == st.startPos && st'.source == st.source
            && st'.timelineLocked == st.timelineLocked && st'.selectedClip == st.selectedClip
            && st'.videoPath == st.videoPath)
      && (outcome == Moved <==> Unlocked(st) && EndMoveInRange(st.handles, x) && Duration(st.source).Some?)
      && (outcome == Moved ==> st'.endPos == PixelToSeconds(x, Duration(st.source).value))
      && (outcome == NoVideo ==> st' == st.(handles := st'.handles))
  {
  }

  /**
   * An accepted drag writes the truncated times into the selected slot only:
   * the other two slots keep their stored values and their labels.
   */
  lemma DragTouchesSelectedSlotOnly(st: EditorState, x: int, fromStart: bool)
    requires AllSlotsPresent(st)
    ensures var (st', outcome) := if fromStart then MoveStart(st, x) else MoveEnd(st, x);
      outcome == Moved ==>
        var k := st.selectedClip.value;
        st'.clipData[k] == ClipRange(Trunc(st'.startPos), Trunc(st'.endPos))
        && st'.labels[k] == SlotLabels("Inicio: " + FormatTime(st'.startPos), "Final: " + FormatTime(st'.endPos))
        && (forall j :: j != k ==> st'.clipData[j] == st.clipData[j] && st'.labels[j] == st.labels[j])
  {
  }

  /** update_clip_values does nothing when no slot is selected. */
  lemma UpdateWithoutSelection(st: EditorState)
    requires st.selectedClip.None?
    ensures UpdateClipValues(st) == st
  {
  }

  lemma MoveStartPreservesInv(st: EditorState, x: int)
    requires Inv(st)
    ensures Inv(MoveStart(st, x).0)
  {
    var (st', outcome) := MoveStart(st, x);
    if outcome == Moved {
      var d := Duration(st.source).value;
      DurationNonNegative(st.source);
      var placed := PlaceStart(st, x).0;
      assert PositionsWithinHandles(placed, d);
      PositionsOrdered(placed);
      TruncMonotone(placed.startPos, placed.endPos);
    }
  }

  lemma MoveEndPreservesInv(st: EditorState, x: int)
    requires Inv(st)
    ensures Inv(MoveEnd(st, x).0)
  {
    var (st', outcome) := MoveEnd(st, x);
    if outcome == Moved {
      var d := Duration(st.source).value;
      DurationNonNegative(st.source);
      var placed := PlaceEnd(st, x).0;
      assert PositionsWithinHandles(placed, d);
      PositionsOrdered(placed);
      TruncMonotone(placed.startPos, placed.endPos);
    }
  }

  /**
   * A successful load locks the timeline, clears the selection, sets the
   * times to 0 and the duration and every slot's labels to "Inicio: 0:00" and
   * "Final: " + the formatted duration, and leaves clip_data and the handle
   * coordinates as they were. A failed load only replaces the capture.
   */
  lemma LoadVideoSpec(st: EditorState, isOpen: bool, totalFrames: nat, fps: real)
    ensures var (st', outcome) := LoadVideo(st, isOpen, totalFrames, fps);
      (outcome == Loaded <==> isOpen && fps != 0.0)
      && st'.clipData == st.clipData && st'.handles == st.handles && st'.videoPath == st.videoPath
      && (outcome == Loaded ==>
            var d := totalFrames as real / fps;
            st'.timelineLocked && st'.selectedClip.None?
            && st'.startPos == 0.0 && st'.endPos == d && Duration(st'.source) == Some(d)
            && (forall k :: k in st'.labels && st'.labels[k] == SlotLabels("Inicio: 0:00", "Final: " + FormatTime(d))))
      && (outcome != Loaded ==> st' == st.(source := st'.source) && Duration(st'.source).None?)
  {
    var (st', outcome) := LoadVideo(st, isOpen, totalFrames, fps);
    if outcome == Loaded {
      SlotMapTotal(st'.labels);
    }
  }

  lemma LoadVideoPreservesInv(st: EditorState, isOpen: bool, totalFrames: nat, fps: real)
    requires Inv(st) && fps >= 0.0
    ensures Inv(LoadVideo(st, isOpen, totalFrames, fps).0)
  {
    var (st', outcome) := LoadVideo(st, isOpen, totalFrames, fps);
    if outcome == Loaded {
      DurationNonNegative(st'.source);
      SlotMapTotal(st'.labels);
    }
  }

  /** A drop that fails the path check changes nothing; an accepted one records the path and loads it. */
  lemma OnDropSpec(st: EditorState, data: string, isOpen: bool, totalFrames: nat, fps: real)
    ensures var (st', outcome) := OnDrop(st, data, isOpen, totalFrames, fps);
      (outcome == InvalidFile <==> DropPath.DroppedPath(data).None?)
      && (outcome == InvalidFile ==> st' == st)
      && (outcome != InvalidFile ==>
            var path := DropPath.DroppedPath(data).value;
            st'.videoPath == Some(path) && DropPath.HasVideoExtension(path)
            && (st', outcome.load) == LoadVideo(st.(videoPath := Some(path)), isOpen, totalFrames, fps))
  {
  }

  lemma OnDropPreservesInv(st: EditorState, data: string, isOpen: bool, totalFrames: nat, fps: real)
    requires Inv(st) && fps >= 0.0
    ensures Inv(OnDrop(st, data, isOpen, totalFrames, fps).0)
  {
    var p := DropPath.DroppedPath(data);
    if p.Some? {
      LoadVideoPreservesInv(st.(videoPath := p), isOpen, totalFrames, fps);
    }
  }

  /**
   * A reopen replaces only the capture: the duration becomes the new
   * capture's (none when it did not open or reports zero fps), and nothing
   * else changes.
   */
  lemma ReopenSpec(st: EditorState, isOpen: bool, totalFrames: nat, fps: real)
    ensures var st' := ReopenCapture(st, isOpen, totalFrames, fps);
      st' == st.(source := st'.source)
      && (Duration(st'.source).Some? <==> isOpen && fps != 0.0)
      && (isOpen && fps != 0.0 ==> Duration(st'.source) == Some(totalFrames as real / fps))
  {
  }

  /**
   * A reopen that reports the duration of the capture it replaces keeps the
   * invariant. One that brings a duration the editor did not have (a
   * successful reopen after a failed one, or one whose frames / fps differs
   * from the current duration) need not: see FailedReopenBreaksOrder.
   */
  lemma ReopenKeepingDurationPreservesInv(st: EditorState, isOpen: bool, totalFrames: nat, fps: real)
    requires Inv(st) && fps >= 0.0
    requires Duration(Some(ReopenedSource(isOpen, totalFrames, fps))) == Duration(st.source)
    ensures Inv(ReopenCapture(st, isOpen, totalFrames, fps))
  {
    var st' := ReopenCapture(st, isOpen, totalFrames, fps);
    assert Duration(st'.source) == Duration(st.source);
  }

  /**
   * A reopen whose capture gives no duration (it did not open, or reports
   * zero fps) keeps the invariant: the positions are only constrained while
   * a duration exists.
   */
  lemma ReopenWithoutDurationPreservesInv(st: EditorState, isOpen: bool, totalFrames: nat, fps: real)
    requires Inv(st)
    requires Duration(Some(ReopenedSource(isOpen, totalFrames, fps))).None?
    ensures Inv(ReopenCapture(st, isOpen, totalFrames, fps))
  {
  }

  // ---------------------------------------------------------------------------
  // Sessions: any sequence of user actions

  datatype Event =
    | Select(slot: SlotKey)
    | DragStart(x: int)
    | DragEnd(x: int)
    | Load(isOpen: bool, totalFrames: nat, fps: real)
    | Drop(data: string, dropIsOpen: bool, dropFrames: nat, dropFps: real)
    | Reopen(reopenIsOpen: bool, reopenFrames: nat, reopenFps: real)

  /** The decoder reports a non-negative frame rate. */
  predicate EventWellFormed(e: Event) {
    (e.Load? ==> e.fps >= 0.0) && (e.Drop? ==> e.dropFps >= 0.0) && (e.Reopen? ==> e.reopenFps >= 0.0)
  }

  /** A reopen in state st that leaves no duration, or the duration st already has. */
  predicate NoNewDuration(st: EditorState, e: Event) {
    e.Reopen? ==>
      var d := Duration(Some(ReopenedSource(e.reopenIsOpen, e.reopenFrames, e.reopenFps)));
      d.None? || d == Duration(st.source)
  }

  function Apply(st: EditorState, e: Event): EditorState {
    match e
    case Select(k) => SelectClip(st, k)
    case DragStart(x) => MoveStart(st, x).0
    case DragEnd(x) => MoveEnd(st, x).0
    case Load(isOpen, n, fps) => LoadVideo(st, isOpen, n, fps).0
    case Drop(data, isOpen, n, fps) => OnDrop(st, data, isOpen, n, fps).0
    case Reopen(isOpen, n, fps) => ReopenCapture(st, isOpen, n, fps)
  }

  function Run(st: EditorState, events: seq<Event>): EditorState
    decreases |events|
  {
    if events == [] then st else Run(Apply(st, events[0]), events[1..])
  }

  /** No reopen along the session brings a duration the editor did not have just before it. */
  predicate ReopensBringNoNewDuration(st: EditorState, events: seq<Event>)
    decreases |events|
  {
    events != [] ==> NoNewDuration(st, events[0]) && ReopensBringNoNewDuration(Apply(st, events[0]), events[1..])
  }

  lemma ApplyPreservesInv(st: EditorState, e: Event)
    requires Inv(st) && EventWellFormed(e) && NoNewDuration(st, e)
    ensures Inv(Apply(st, e))
  {
    match e
    case Select(k) =>
    case DragStart(x) => MoveStartPreservesInv(st, x);
    case DragEnd(x) => MoveEndPreservesInv(st, x);
    case Load(isOpen, n, fps) => LoadVideoPreservesInv(st, isOpen, n, fps);
    case Drop(data, isOpen, n, fps) => OnDropPreservesInv(st, data, isOpen, n, fps);
    case Reopen(isOpen, n, fps) =>
      if Duration(Some(ReopenedSource(isOpen, n, fps))).None? {
        ReopenWithoutDurationPreservesInv(st, isOpen, n, fps);
      } else {
        ReopenKeepingDurationPreservesInv(st, isOpen, n, fps);
      }
  }

  lemma {:induction false} RunPreservesInv(st: EditorState, events: seq<Event>)
    requires Inv(st)
    requires forall i :: 0 <= i < |events| ==> EventWellFormed(events[i])
    requires ReopensBringNoNewDuration(st, events)
    ensures Inv(Run(st, events))
    decreases |events|
  {
    if events != [] {
      ApplyPreservesInv(st, events[0]);
      RunPreservesInv(Apply(st, events[0]), events[1..]);
    }
  }

  /**
   * From start-up, after any sequence of selections, drags, loads, drops and
   * reopens in which no reopen brings a duration the editor did not have
   * just before it, whenever a video is loaded: 0 <= start time <= end
   * time <= duration, and every slot stores an ordered, non-negative range.
   */
  lemma SessionKeepsTimesOrdered(events: seq<Event>)
    requires forall i :: 0 <= i < |events| ==> EventWellFormed(events[i])
    requires ReopensBringNoNewDuration(Initial(), events)
    ensures var st := Run(Initial(), events);
      HandlesOrdered(st.handles) && ClipsOrdered(st.clipData)
      && (Duration(st.source).Some? ==> 0.0 <= st.startPos <= st.endPos <= Duration(st.source).value)
  {
    InitialInv();
    RunPreservesInv(Initial(), events);
    var st := Run(Initial(), events);
    if Duration(st.source).Some? {
      PositionsOrdered(st);
    }
  }

  // ---------------------------------------------------------------------------
  // A worked session

  /**
   * Load a 300-second video at 30 fps: every slot shows 0:00 to 5:00. Select
   * the second slot and drag the end handle to pixel 400: the end time is 150
   * seconds, the slot shows "Final: 2:30" and stores 0 to 150, and the other
   * slots still show 5:00.
   */
  lemma HalfwayEndDragScenario()
    ensures var loaded := LoadVideo(Initial(), true, 9000, 30.0).0;
      var selected := SelectClip(loaded, Clip2);
      var (st, outcome) := MoveEnd(selected, 400);
      loaded.labels[Clip1] == SlotLabels("Inicio: 0:00", "Final: 5:00")
      && loaded.labels[Clip2] == SlotLabels("Inicio: 0:00", "Final: 5:00")
      && loaded.labels[Clip3] == SlotLabels("Inicio: 0:00", "Final: 5:00")
      && outcome == Moved && st.endPos == 150.0
      && st.labels[Clip2] == SlotLabels("Inicio: 0:00", "Final: 2:30")
      && st.clipData[Clip2] == ClipRange(0, 150)
      && st.labels[Clip1] == SlotLabels("Inicio: 0:00", "Final: 5:00")
      && st.labels[Clip3] == SlotLabels("Inicio: 0:00", "Final: 5:00")
      && st.clipData[Clip1] == ClipRange(0, 0) && st.clipData[Clip3] == ClipRange(0, 0)
  {
    LoadThreeHundredSeconds();
    HalfwayEndDrag(LoadVideo(Initial(), true, 9000, 30.0).0);
  }

  /** Loading 9000 frames at 30 fps from start-up: 300 seconds, every slot 0 to 0 showing 0:00 to 5:00. */
  lemma LoadThreeHundredSeconds()
    ensures var loaded := LoadVideo(Initial(), true, 9000, 30.0).0;
      LoadedThreeHundred(loaded) && loaded.handles == Handles(0, 15, 785, 800)
  {
    var loaded := LoadVideo(Initial(), true, 9000, 30.0).0;
    LoadVideoSpec(Initial(), true, 9000, 30.0);
    SlotMapTotal(Initial().clipData);
    FormatTimeExamples();
  }

  predicate LoadedThreeHundred(st: EditorState) {
    st.source == Some(VideoSource(true, 9000, 30.0)) && st.startPos == 0.0
    && (forall k: SlotKey :: k in st.labels && st.labels[k] == SlotLabels("Inicio: 0:00", "Final: 5:00"))
    && (forall k: SlotKey :: k in st.clipData && st.clipData[k] == ClipRange(0, 0))
  }

  /** Selecting clip2 and dragging the end handle to the middle of the track. */
  lemma HalfwayEndDrag(loaded: EditorState)
    requires LoadedThreeHundred(loaded) && loaded.handles == Handles(0, 15, 785, 800)
    ensures var (st, outcome) := MoveEnd(SelectClip(loaded, Clip2), 400);
      outcome == Moved && st.endPos == 150.0
      && st.labels[Clip2] == SlotLabels("Inicio: 0:00", "Final: 2:30")
      && st.clipData[Clip2] == ClipRange(0, 150)
      && st.labels[Clip1] == SlotLabels("Inicio: 0:00", "Final: 5:00")
      && st.labels[Clip3] == SlotLabels("Inicio: 0:00", "Final: 5:00")
      && st.clipData[Clip1] == ClipRange(0, 0) && st.clipData[Clip3] == ClipRange(0, 0)
  {
    var selected := SelectClip(loaded, Clip2);
    assert Duration(selected.source) == Some(300.0);
    assert PixelToSeconds(400, 300.0) == 150.0;
    var placed := PlaceEnd(selected, 400).0;
    assert placed.startPos == 0.0 && placed.endPos == 150.0;
    var st := MoveEnd(selected, 400).0;
    assert st == UpdateClipValues(placed);
    FormatTimeExamples();
    assert Trunc(150.0) == 150 && Trunc(0.0) == 0;
    assert st.clipData == loaded.clipData[Clip2 := ClipRange(0, 150)];
    assert st.labels == loaded.labels[Clip2 := SlotLabels("Inicio: " + FormatTime(0.0), "Final: " + FormatTime(150.0))];
  }

  /**
   * Without the reopen hypothesis the ordering fails. Load a 300-second,
   * 30 fps video, select the first slot and drag the start handle to pixel
   * 400 (150 s). A reopen whose capture does not open makes the next start
   * drag, to pixel 100, move the handle but raise before the time is
   * written, so the start time stays at 150 s. After a reopen that succeeds,
   * an end drag to pixel 130 passes the guard (115 + 15 <= 130) and sets the
   * end time to 48.75 s: the slot stores a start after its end.
   */
  lemma FailedReopenBreaksOrder()
    ensures var events := [Load(true, 9000, 30.0), Select(Clip1), DragStart(400),
                           Reopen(false, 0, 0.0), DragStart(100), Reopen(true, 9000, 30.0), DragEnd(130)];
      var st := Run(Initial(), events);
      (forall i :: 0 <= i < |events| ==> EventWellFormed(events[i]))
      && Duration(st.source) == Some(300.0)
      && st.startPos == 150.0 && st.endPos == 48.75
      && Clip1 in st.clipData && st.clipData[Clip1] == ClipRange(150, 48)
      && !ClipsOrdered(st.clipData)
  {
    var events := [Load(true, 9000, 30.0), Select(Clip1), DragStart(400),
                   Reopen(false, 0, 0.0), DragStart(100), Reopen(true, 9000, 30.0), DragEnd(130)];
    RunSteps(Initial(), events);
    LoadThreeHundredSeconds();
    TraceAfterLoad(Apply(Initial(), events[0]));
  }

  /** The six events after the load, from any state the load leaves. */
  lemma TraceAfterLoad(s1: EditorState)
    requires LoadedThreeHundred(s1) && s1.handles == Handles(0, 15, 785, 800)
    ensures var s5 := Apply(Apply(Apply(Apply(s1, Select(Clip1)), DragStart(400)), Reopen(false, 0, 0.0)), DragStart(100));
      var st := Apply(Apply(s5, Reopen(true, 9000, 30.0)), DragEnd(130));
      Duration(st.source) == Some(300.0) && st.startPos == 150.0 && st.endPos == 48.75
      && Clip1 in st.clipData && st.clipData[Clip1] == ClipRange(150, 48) && !ClipsOrdered(st.clipData)
  {
    TraceStartDrags(s1);
    var s5 := Apply(Apply(Apply(Apply(s1, Select(Clip1)), DragStart(400)), Reopen(false, 0, 0.0)), DragStart(100));
    TraceEndDrag(s5);
  }

  /** The accepted start drag to 400, the failed reopen, and the start drag to 100 that raises. */
  lemma TraceStartDrags(s1: EditorState)
    requires LoadedThreeHundred(s1) && s1.handles == Handles(0, 15, 785, 800)
    ensures var s3 := MoveStart(SelectClip(s1, Clip1), 400).0;
      var s5 := MoveStart(ReopenCapture(s3, false, 0, 0.0), 100).0;
      s5.startPos == 150.0 && s5.handles == Handles(100, 115, 785, 800)
      && s5.selectedClip == Some(Clip1) && Unlocked(s5)
  {
    var s2 := SelectClip(s1, Clip1);
    MoveStartSpec(s2, 400);
    assert PixelToSeconds(400, 300.0) == 150.0;
    var s3 := MoveStart(s2, 400).0;
    var s4 := ReopenCapture(s3, false, 0, 0.0);
    MoveStartSpec(s4, 100);
  }

  /** The successful reopen and the end drag to 130 that stores a start after its end. */
  lemma TraceEndDrag(s5: EditorState)
    requires s5.startPos == 150.0 && s5.handles == Handles(100, 115, 785, 800)
    requires s5.selectedClip == Some(Clip1) && Unlocked(s5)
    ensures var s7 := MoveEnd(ReopenCapture(s5, true, 9000, 30.0), 130).0;
      Duration(s7.source) == Some(300.0) && s7.startPos == 150.0 && s7.endPos == 48.75
      && Clip1 in s7.clipData && s7.clipData[Clip1] == ClipRange(150, 48) && !ClipsOrdered(s7.clipData)
  {
    var s6 := ReopenCapture(s5, true, 9000, 30.0);
    MoveEndSpec(s6, 130);
    assert PixelToSeconds(130, 300.0) == 48.75;
    assert Trunc(150.0) == 150 && Trunc(48.75) == 48;
  }

  /** Run over a seven-event session, one Apply at a time. */
  lemma RunSteps(st: EditorState, e: seq<Event>)
    requires |e| == 7
    ensures Run(st, e) == Apply(Apply(Apply(Apply(Apply(Apply(Apply(st, e[0]), e[1]), e[2]), e[3]), e[4]), e[5]), e[6])
  {
    var s1 := Apply(st, e[0]);
    var s2 := Apply(s1, e[1]);
    var s3 := Apply(s2, e[2]);
    var s4 := Apply(s3, e[3]);
    var s5 := Apply(s4, e[4]);
    var s6 := Apply(s5, e[5]);
    var s7 := Apply(s6, e[6]);
    assert e[1..][1..] == e[2..] && e[2..][1..] == e[3..] && e[3..][1..] == e[4..];
    assert e[4..][1..] == e[5..] && e[5..][1..] == e[6..] && e[6..][1..] == [];
    assert Run(st, e) == Run(s1, e[1..]) == Run(s2, e[2..]) == Run(s3, e[3..]);
    assert Run(s3, e[3..]) == Run(s4, e[4..]) == Run(s5, e[5..]) == Run(s6, e[6..]) == s7;
  }

  // ---------------------------------------------------------------------------
  // The start seek

  /**
   * As written, releasing the start handle hands the start time in seconds to
   * the capture's frame-position property: with the start handle at pixel 400
   * of a 300-second, 30 fps video the reopen is told 150, although the frame
   * at 150 seconds is 4500, which is what the end handle's conversion gives.
   */
  lemma StartSeekPassesSeconds()
    ensures var loaded := LoadVideo(Initial(), true, 9000, 30.0).0;
      var st := MoveStart(SelectClip(loaded, Clip1), 400).0;
      StartSeekTarget(st) == Some(150.0)
      && IntendedStartSeekTarget(st) == Some(4500)
  {
    var loaded := LoadVideo(Initial(), true, 9000, 30.0).0;
    var selected := SelectClip(loaded, Clip1);
    assert PixelToSeconds(400, 300.0) == 150.0;
    var st := MoveStart(selected, 400).0;
    assert st.startPos == 150.0;
    assert Trunc(150.0 * 30.0) == 4500;
  }

  /**
   * The corrected conversion seeks to the frame on screen at the given time:
   * frame / fps <= seconds < (frame + 1) / fps.
   */
  lemma SeekFrameShowsTime(seconds: real, fps: real)
    requires 0.0 <= seconds && 0.0 < fps
    ensures var f := SeekFrame(seconds, fps);
      0 <= f && f as real / fps <= seconds < (f + 1) as real / fps
  {
    var f := SeekFrame(seconds, fps);
    assert f as real <= seconds * fps < (f + 1) as real;
    assert f as real / fps <= seconds by {
      assert (f as real / fps) * fps == f as real;
    }
    assert seconds < (f + 1) as real / fps by {
      assert ((f + 1) as real / fps) * fps == (f + 1) as real;
    }
  }

  /** In a consistent editor state the corrected start seek lands on the frame showing the start time. */
  lemma IntendedStartSeekFrame(st: EditorState)
    requires Inv(st) && IntendedStartSeekTarget(st).Some? && Duration(st.source).Some?
    ensures var f := IntendedStartSeekTarget(st).value;
      var fps := st.source.value.fps;
      0 <= f && f as real / fps <= st.startPos < (f + 1) as real / fps
  {
    PositionsOrdered(st);
    SeekFrameShowsTime(st.startPos, st.source.value.fps);
  }
}
