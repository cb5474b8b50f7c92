/**
 * The desktop video player's frame state (`VideoPlayer`). Decoding is
 * abstracted to one fact: a frame can be read exactly when the capture was
 * opened and the frame number lies in `[0, frame count)`. The capture object
 * is kept after a failed open, as the player does, and it still counts as
 * "a video" for the checks the player makes (`if not self.cap`), so only
 * reading frames tells an opened capture from a failed one.
 */
module Player {
  import opened Wrappers
  import opened Config
  import opened TimeCodec

  /** `self.cap`: none yet, or the capture of the last file loaded. */
  datatype Capture = NoCapture | Capture(isOpen: bool, frameCount: int)

  /** Everything the player holds, as one value. */
  datatype PlayerState = PlayerState(cap: Capture, isPlaying: bool, totalFrames: int, fps: real,
                                     duration: real, currentFrame: int, wasPlaying: Option<bool>)

  /**
   * The player after `load_video` of a file whose probe is given: the new
   * capture always replaces the old one; only an opened one brings its
   * counts, rate and duration and moves to frame 0.
   */
  function LoadedState(s: PlayerState, probe: Probe): PlayerState {
    var s' := s.(cap := Capture(probe.opens, probe.frameCount));
    if probe.opens then
      s'.(totalFrames := probe.frameCount, fps := probe.fps, duration := DurationOf(probe), currentFrame := 0)
    else s'
  }

  /** Python's `int(x)` on a float: truncation toward zero. */
  function TruncReal(x: real): (r: int)
    ensures x >= 0.0 ==> r == x.Floor && r >= 0
    ensures x < 0.0 ==> r == -((-x).Floor) && r <= 0
    ensures r as real <= x + 1.0 && x - 1.0 <= r as real
  {
    if x >= 0.0 then x.Floor else -((-x).Floor)
  }

  /** `max(0, min(frame, total - 1))`. */
  function ClampFrame(frame: int, total: int): (r: int)
    ensures total >= 1 ==> 0 <= r < total
    ensures total <= 1 ==> r == 0
    ensures 0 <= frame < total ==> r == frame
    ensures frame < 0 ==> r == 0
    ensures frame >= total >= 1 ==> r == total - 1
  {
    if frame < 0 || total <= 1 then 0 else if frame > total - 1 then total - 1 else frame
  }

  /** The frame `seek_to_time` aims at for a time in seconds. */
  function SeekTarget(timeSec: real, fps: real, total: int): (r: int)
    ensures total >= 1 ==> 0 <= r < total
  {
    ClampFrame(TruncReal(timeSec * fps), total)
  }

  /** The time of a frame, as `get_current_time` reports it, seeks back to that frame. */
  lemma SeekToFrameTime(k: int, fps: real, total: int)
    requires fps > 0.0 && 0 <= k < total
    ensures SeekTarget(k as real / fps, fps, total) == k
  {
    assert (k as real / fps) * fps == k as real;
  }

  /** Seeking is idempotent: the frame a seek lands on is its own target. */
  lemma SeekTargetStable(timeSec: real, fps: real, total: int)
    requires fps > 0.0 && total >= 1
    ensures var k := SeekTarget(timeSec, fps, total);
      SeekTarget(k as real / fps, fps, total) == k
  {
    SeekToFrameTime(SeekTarget(timeSec, fps, total), fps, total);
  }

  class VideoPlayer {
    var cap: Capture
    var isPlaying: bool
    var totalFrames: int
    var fps: real
    var duration: real
    var currentFrame: int
    var wasPlaying: Option<bool>   // `was_playing`, absent until the slider is first pressed

    /**
     * The frame state stays coherent: the current frame is 0 or a frame before
     * the end, an opened capture has the recorded frame count, and without a
     * capture nothing plays and nothing is counted.
     */
    ghost predicate Valid()
      reads this
    {
      && 0 <= currentFrame
      && (currentFrame == 0 || currentFrame < totalFrames)
      && (cap.Capture? && cap.isOpen ==> cap.frameCount == totalFrames)
      && (cap.NoCapture? ==> !isPlaying && totalFrames == 0 && currentFrame == 0)
    }

    constructor()
      ensures cap == NoCapture && !isPlaying && wasPlaying == None
      ensures totalFrames == 0 && fps == 0.0 && duration == 0.0 && currentFrame == 0
      ensures Valid()
    {
      cap := NoCapture;
      isPlaying := false;
      totalFrames := 0;
      fps := 0.0;
      duration := 0.0;
      currentFrame := 0;
      wasPlaying := None;
    }

    function State(): PlayerState
      reads this
    {
      PlayerState(cap, isPlaying, totalFrames, fps, duration, currentFrame, wasPlaying)
    }

    /** Whether frame `n` can be read from the current capture. */
    predicate Readable(n: int)
      reads this
    {
      cap.Capture? && cap.isOpen && 0 <= n < cap.frameCount
    }

    /** `get_current_time`: the current frame over the frame rate, 0 without a positive rate. */
    function CurrentTime(): (t: real)
      reads this
      ensures fps > 0.0 ==> t * fps == currentFrame as real
      ensures fps <= 0.0 ==> t == 0.0
      ensures fps > 0.0 && currentFrame >= 0 ==> t >= 0.0
    {
      if fps > 0.0 then currentFrame as real / fps else 0.0
    }

    /** The current time in whole milliseconds, the value `format_time` writes for it. */
    function CurrentTimeMs(): (ms: int)
      reads this
      ensures CurrentTime() >= 0.0 ==> ms >= 0
    {
      (CurrentTime() * 1000.0).Floor
    }

    /** `show_frame`: the current frame moves to `n` only when frame `n` can be read. */
    method ShowFrame(n: int)
      requires Valid()
      modifies this
      ensures currentFrame == if old(Readable(n)) then n else old(currentFrame)
      ensures cap == old(cap) && isPlaying == old(isPlaying) && totalFrames == old(totalFrames)
      ensures fps == old(fps) && duration == old(duration) && wasPlaying == old(wasPlaying)
      ensures Valid()
    {
      if cap.NoCapture? {
        return;
      }
      if Readable(n) {
        currentFrame := n;
      }
    }

    /**
     * `load_video`: the new capture replaces the old one. When it opens, the
     * frame count, rate and duration come from it and the first frame is
     * shown; when it does not, the call reports failure and the counts,
     * rate, duration and position stay those of the previous video. The
     * playing flag is left as it was either way.
     */
    method Load(probe: Probe) returns (ok: bool)
      requires Valid()
      modifies this
      ensures ok == probe.opens
      ensures cap == Capture(probe.opens, probe.frameCount)
      ensures ok ==> totalFrames == probe.frameCount && fps == probe.fps && duration == DurationOf(probe) && currentFrame == 0
      ensures !ok ==> totalFrames == old(totalFrames) && fps == old(fps) && duration == old(duration) && currentFrame == old(currentFrame)
      ensures isPlaying == old(isPlaying) && wasPlaying == old(wasPlaying)
      ensures State() == LoadedState(old(State()), probe)
      ensures Valid()
    {
      cap := Capture(probe.opens, probe.frameCount);
      if !probe.opens {
        return false;
      }
      totalFrames := probe.frameCount;
      fps := probe.fps;
      duration := DurationOf(probe);
      currentFrame := 0;
      ShowFrame(0);
      ok := true;
    }

    /** `pause`. */
    method Pause()
      requires Valid()
      modifies this
      ensures !isPlaying
      ensures cap == old(cap) && totalFrames == old(totalFrames) && currentFrame == old(currentFrame)
      ensures fps == old(fps) && duration == old(duration) && wasPlaying == old(wasPlaying)
      ensures Valid()
    {
      isPlaying := false;
    }

    /** `play`: starts playing whenever there is a capture, opened or not. */
    method Play()
      requires Valid()
      modifies this
      ensures isPlaying == (old(isPlaying) || cap.Capture?)
      ensures cap == old(cap) && totalFrames == old(totalFrames) && currentFrame == old(currentFrame)
      ensures fps == old(fps) && duration == old(duration) && wasPlaying == old(wasPlaying)
      ensures Valid()
    {
      if cap.NoCapture? {
        return;
      }
      isPlaying := true;
    }

    /** `stop`: pause, then back to the first frame when it can be read. */
    method Stop()
      requires Valid()
      modifies this
      ensures !isPlaying
      ensures currentFrame == if old(Readable(0)) then 0 else old(currentFrame)
      ensures cap == old(cap) && totalFrames == old(totalFrames)
      ensures fps == old(fps) && duration == old(duration) && wasPlaying == old(wasPlaying)
      ensures Valid()
    {
      Pause();
      ShowFrame(0);
    }

    /** `toggle_play`: pauses when playing, otherwise plays (which needs a capture). */
    method TogglePlay()
      requires Valid()
      modifies this
      ensures isPlaying == (!old(isPlaying) && cap.Capture?)
      ensures cap == old(cap) && totalFrames == old(totalFrames) && currentFrame == old(currentFrame)
      ensures fps == old(fps) && duration == old(duration) && wasPlaying == old(wasPlaying)
      ensures Valid()
    {
      if isPlaying {
        Pause();
      } else {
        Play();
      }
    }

    /**
     * `update_frame`, the timer tick: nothing unless there is a capture and it
     * is playing; at the last frame it stops; otherwise it shows the next frame.
     */
    method UpdateFrame()
      requires Valid()
      modifies this
      ensures old(cap.NoCapture? || !isPlaying) ==> isPlaying == old(isPlaying) && currentFrame == old(currentFrame)
      ensures old(cap.Capture? && isPlaying && currentFrame + 1 >= totalFrames) ==>
        !isPlaying && currentFrame == (if old(Readable(0)) then 0 else old(currentFrame))
      ensures old(cap.Capture? && isPlaying && currentFrame + 1 < totalFrames) ==>
        isPlaying && currentFrame == (if old(Readable(currentFrame + 1)) then old(currentFrame) + 1 else old(currentFrame))
      ensures cap == old(cap) && totalFrames == old(totalFrames)
      ensures fps == old(fps) && duration == old(duration) && wasPlaying == old(wasPlaying)
      ensures Valid()
    {
      if cap.NoCapture? || !isPlaying {
        return;
      }
      var next := currentFrame + 1;
      if next >= totalFrames {
        Stop();
        return;
      }
      ShowFrame(next);
    }

    /** `on_slider_pressed`: remembers whether it was playing, and pauses if so. */
    method SliderPressed()
      requires Valid()
      modifies this
      ensures wasPlaying == Some(old(isPlaying)) && !isPlaying
      ensures cap == old(cap) && totalFrames == old(totalFrames) && currentFrame == old(currentFrame)
      ensures fps == old(fps) && duration == old(duration)
      ensures Valid()
    {
      if isPlaying {
        wasPlaying := Some(true);
        Pause();
      } else {
        wasPlaying := Some(false);
      }
    }

    /** `on_slider_released`: plays again exactly when it was playing at the last press. */
    method SliderReleased()
      requires Valid()
      modifies this
      ensures isPlaying == (old(isPlaying) || (wasPlaying == Some(true) && cap.Capture?))
      ensures wasPlaying == old(wasPlaying)
      ensures cap == old(cap) && totalFrames == old(totalFrames) && currentFrame == old(currentFrame)
      ensures fps == old(fps) && duration == old(duration)
      ensures Valid()
    {
      if wasPlaying == Some(true) {
        Play();
      }
    }

    /** `seek_to_time`: shows the clamped target frame, when there is a capture. */
    method SeekToTime(timeSec: real)
      requires Valid()
      modifies this
      ensures var target := SeekTarget(timeSec, fps, totalFrames);
        currentFrame == if old(cap.Capture? && Readable(target)) then target else old(currentFrame)
      ensures cap == old(cap) && isPlaying == old(isPlaying) && totalFrames == old(totalFrames)
      ensures fps == old(fps) && duration == old(duration) && wasPlaying == old(wasPlaying)
      ensures Valid()
    {
      if cap.NoCapture? {
        return;
      }
      var frame := SeekTarget(timeSec, fps, totalFrames);
      ShowFrame(frame);
    }
  }

  /** `format_time` of the player for a non-negative time, written through the shared codec in whole milliseconds. */
  function FormatSeconds(seconds: real): (text: string)
    requires seconds >= 0.0
    ensures ParseTime(text) == Some((seconds * 1000.0).Floor)
  {
    FormatThenParse((seconds * 1000.0).Floor);
    FormatTime((seconds * 1000.0).Floor)
  }
}
