/**
 * The playback loop: from the capture's current frame, read and show one
 * frame, then skip frames_to_skip - 1 more with grab, until a read fails at
 * the end of the stream. The speed comes from a slider from 0.5 to 2.0 in
 * steps of 0.1, kept here as whole tenths so that Python's round (half to
 * even) can be stated exactly.
 */
module Playback {

  function Max(a: int, b: int): int {
    if a < b then b else a
  }

  /**
   * The decoder handle as the loop uses it: a frame cursor over a stream of
   * totalFrames frames. A read succeeds while the cursor is inside the stream
   * and returns the frame at the cursor; both read and grab advance it by one.
   */
  class Capture {
    const isOpen: bool
    const totalFrames: nat
    var pos: nat

    constructor (isOpen: bool, totalFrames: nat, pos: nat)
      ensures this.isOpen == isOpen && this.totalFrames == totalFrames && this.pos == pos
    {
      this.isOpen := isOpen;
      this.totalFrames := totalFrames;
      this.pos := pos;
    }

    /** cap.read(): the frame number stands for the decoded image. */
    method Read() returns (ok: bool, frame: nat)
      modifies this
      ensures ok == (isOpen && old(pos) < totalFrames)
      ensures ok ==> frame == old(pos) && pos == old(pos) + 1
      ensures !ok ==> pos == old(pos)
    {
      ok := isOpen && pos < totalFrames;
      frame := 0;
      if ok {
        frame := pos;
        pos := pos + 1;
      }
    }

    /** cap.grab(): advance without decoding. */
    method Grab()
      modifies this
      ensures pos == if isOpen && old(pos) < totalFrames then old(pos) + 1 else old(pos)
    {
      if isOpen && pos < totalFrames {
        pos := pos + 1;
      }
    }
  }

  /** Python's round() of tenths / 10: to the nearest integer, ties to the even one. */
  function RoundTenths(tenths: nat): (r: nat)
    ensures 10 * r - 5 <= tenths <= 10 * r + 5
    ensures tenths % 10 != 5 ==> 10 * r - 5 < tenths < 10 * r + 5
    ensures tenths % 10 == 5 ==> r % 2 == 0
  {
    var q := tenths / 10;
    var rem := tenths % 10;
    if rem < 5 then q
    else if rem > 5 then q + 1
    else if q % 2 == 0 then q
    else q + 1
  }

  /**
   * frames_to_skip = max(1, int(round(speed))): at least one, so the loop
   * always moves forward; 1 for speeds 0.5 to 1.4 and 2 for 1.5 to 2.0.
   */
  function FramesToSkip(speedTenths: int): (n: int)
    requires 5 <= speedTenths <= 20
    ensures n >= 1
    ensures n == if speedTenths < 15 then 1 else 2
  {
    Max(1, RoundTenths(speedTenths))
  }

  /** The frame rate the loop paces itself by: a reported 0 becomes 30. */
  function EffectiveFps(reported: real): (fps: real)
    requires reported >= 0.0
    ensures fps > 0.0
    ensures reported == 0.0 ==> fps == 30.0
    ensures reported > 0.0 ==> fps == reported
  {
    if reported == 0.0 then 30.0 else reported
  }

  /** The frames shown from cursor first on: first, first + step, ... while below total. */
  function StridedFrames(first: nat, total: nat, step: nat): seq<nat>
    requires step >= 1
    decreases if first < total then total - first else 0
  {
    if first >= total then [] else [first] + StridedFrames(first + step, total, step)
  }

  /**
   * The i-th frame shown is first + i * step, every frame shown is inside
   * the stream, and the read after the last one falls past its end.
   */
  lemma {:induction false} StridedFramesSpec(first: nat, total: nat, step: nat)
    requires step >= 1
    ensures var r := StridedFrames(first, total, step);
      (forall i :: 0 <= i < |r| ==> r[i] == first + i * step && r[i] < total)
      && first + |r| * step >= total
    decreases if first < total then total - first else 0
  {
    if first < total {
      var rest := StridedFrames(first + step, total, step);
      StridedFramesSpec(first + step, total, step);
      var r := StridedFrames(first, total, step);
      forall i | 0 <= i < |r|
        ensures r[i] == first + i * step && r[i] < total
      {
        if i > 0 {
          assert r[i] == rest[i - 1];
          assert first + step + (i - 1) * step == first + i * step;
        }
      }
      assert first + |r| * step == first + step + |rest| * step;
    }
  }

  /**
   * play_video's loop while running on an open capture: each iteration
   * shows the frame at the cursor and advances it by frames_to_skip; the
   * loop ends when a read fails at the end of the stream.
   */
  method PlayVideo(cap: Capture, running: bool, speedTenths: int) returns (shown: seq<nat>)
    requires 5 <= speedTenths <= 20
    modifies cap
    ensures running && cap.isOpen ==>
      shown == StridedFrames(old(cap.pos), cap.totalFrames, FramesToSkip(speedTenths))
      && cap.pos == Max(old(cap.pos), cap.totalFrames)
    ensures !(running && cap.isOpen) ==> shown == [] && cap.pos == old(cap.pos)
  {
    var skip := FramesToSkip(speedTenths);
    shown := [];
    while running && cap.isOpen
      invariant shown + StridedFrames(cap.pos, cap.totalFrames, skip)
                == StridedFrames(old(cap.pos), cap.totalFrames, skip)
      invariant cap.pos == old(cap.pos) || old(cap.pos) < cap.pos <= cap.totalFrames
      invariant !(running && cap.isOpen) ==> shown == [] && cap.pos == old(cap.pos)
      decreases if cap.pos < cap.totalFrames then cap.totalFrames - cap.pos else 0
    {
      var ok, frame := cap.Read();
      if !ok {
        break;
      }
      shown := shown + [frame];
      for i := 0 to skip - 1
        invariant cap.pos == if frame + 1 + i < cap.totalFrames then frame + 1 + i else cap.totalFrames
      {
        cap.Grab();
      }
      assert StridedFrames(frame, cap.totalFrames, skip)
             == [frame] + StridedFrames(cap.pos, cap.totalFrames, skip);
    }
  }
}
