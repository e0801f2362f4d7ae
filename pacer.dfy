/**
 * The frame pacer of cap.cpp (class FrameRunner) and the buffer logic of
 * cap_read.
 *
 * The capture backend calls onFrameAvailable for every frame it produces;
 * the reader thread takes frames with lock/release. The pacer keeps at
 * most one frame pending and admits a frame only when at least one frame
 * interval has passed since the last admitted one; every frame it drops
 * has to be taken from the backend and handed back (at once when no frame
 * is locked, after release otherwise).
 *
 * Each method runs under the runner's mutex and is modelled as one atomic
 * step. The backend is reduced to two counters: how many buffers were
 * acquired and how many released.
 */
module Pacer {
  import opened Wrappers
  import opened Packets
  import opened PacketSize

  /** 1000000000 / framerate: nanoseconds per frame. */
  const NANOS_PER_SECOND: int := 1_000_000_000

  /**
   * The pending count the drop loop of onFrameAvailable leaves, starting
   * from p pending frames, dt nanoseconds after the last admitted frame.
   */
  function Admitted(p: int, dt: int, delay: int): (r: int)
    requires p >= 0
    ensures 0 <= r <= p
    decreases p
  {
    if p > 1 || (p > 0 && dt < delay) then Admitted(p - 1, dt, delay) else p
  }

  /**
   * The drop loop keeps one frame exactly when a frame interval has passed
   * since the last admitted frame, and none otherwise.
   */
  lemma {:induction false} AdmittedFrame(p: int, dt: int, delay: int)
    requires p >= 1
    ensures Admitted(p, dt, delay) == if dt >= delay then 1 else 0
    decreases p
  {
    if p > 1 {
      AdmittedFrame(p - 1, dt, delay);
    }
  }

  class FrameRunner {
    const framerate: int
    var pendingFrames: int
    var pendingReleased: int
    var locked: bool
    const frameDelay: int
    var lastUpdated: int
    /** Backend calls: arpcap_acquire_frame_buffer and arpcap_release_frame_buffer. */
    ghost var acquires: nat
    ghost var releases: nat

    /** The pacer's counters: at most one frame pending, no negative count. */
    ghost predicate Valid()
      reads this
    {
      0 <= pendingFrames <= 1 && pendingReleased >= 0
    }

    /**
     * The backend ledger under the lock/release pairing: a buffer is held
     * exactly while a frame is locked, and deferred hand-backs exist only
     * while one is.
     */
    ghost predicate Balanced()
      reads this
    {
      acquires - releases == (if locked then 1 else 0) &&
      (!locked ==> pendingReleased == 0)
    }

    /** The constructor: nothing pending, unlocked, frame interval 10^9 / framerate (C division). */
    constructor (framerate: int)
      requires framerate != 0
      ensures Valid() && Balanced()
      ensures this.framerate == framerate
      ensures pendingFrames == 0 && pendingReleased == 0 && !locked && lastUpdated == 0
      ensures frameDelay == CDiv(NANOS_PER_SECOND, framerate)
      ensures framerate > 0 ==> frameDelay == NANOS_PER_SECOND / framerate
      ensures acquires == 0 && releases == 0
    {
      this.framerate := framerate;
      pendingFrames := 0;
      pendingReleased := 0;
      locked := false;
      frameDelay := CDiv(NANOS_PER_SECOND, framerate);
      lastUpdated := 0;
      acquires, releases := 0, 0;
    }

    /**
     * onFrameAvailable: count the new frame, then drop frames while more
     * than one is pending or the interval since the last admitted frame is
     * too short. A dropped frame is taken from the backend and handed back
     * at once when unlocked, and deferred (pendingReleased) when locked. An
     * admitted frame moves lastUpdated to its timestamp.
     */
    method OnFrameAvailable(timestamp: int)
      requires Valid()
      modifies this`pendingFrames, this`pendingReleased, this`lastUpdated, this`acquires, this`releases
      ensures Valid()
      ensures pendingFrames == Admitted(old(pendingFrames) + 1, timestamp - old(lastUpdated), frameDelay)
      ensures pendingFrames == if timestamp - old(lastUpdated) >= frameDelay then 1 else 0
      ensures lastUpdated == if pendingFrames > 0 then timestamp else old(lastUpdated)
      ensures var drops := old(pendingFrames) + 1 - pendingFrames;
        if locked then
          pendingReleased == old(pendingReleased) + drops &&
          acquires == old(acquires) && releases == old(releases)
        else
          pendingReleased == old(pendingReleased) &&
          acquires == old(acquires) + drops && releases == old(releases) + drops
      ensures old(Balanced()) ==> Balanced()
    {
      ghost var dt := timestamp - lastUpdated;
      pendingFrames := pendingFrames + 1;
      while pendingFrames > 1 || (pendingFrames > 0 && timestamp - lastUpdated < frameDelay)
        invariant 0 <= pendingFrames <= old(pendingFrames) + 1
        invariant lastUpdated == old(lastUpdated)
        invariant Admitted(pendingFrames, dt, frameDelay) == Admitted(old(pendingFrames) + 1, dt, frameDelay)
        invariant var drops := old(pendingFrames) + 1 - pendingFrames;
          if locked then
            pendingReleased == old(pendingReleased) + drops &&
            acquires == old(acquires) && releases == old(releases)
          else
            pendingReleased == old(pendingReleased) &&
            acquires == old(acquires) + drops && releases == old(releases) + drops
        decreases pendingFrames
      {
        if !locked {
          acquires := acquires + 1;
          releases := releases + 1;
        } else {
          pendingReleased := pendingReleased + 1;
        }
        pendingFrames := pendingFrames - 1;
      }
      AdmittedFrame(old(pendingFrames) + 1, dt, frameDelay);
      if pendingFrames > 0 {
        lastUpdated := timestamp;
      }
    }

    /**
     * lock: with a frame pending, lock it, acquire the backend buffer and
     * return the pending count before the decrement; otherwise return 0 and
     * change nothing. The 10 ms wait for a frame is an immediate check.
     */
    method Lock() returns (r: int)
      requires Valid()
      modifies this`pendingFrames, this`locked, this`acquires
      ensures Valid()
      ensures r == old(pendingFrames) && (r > 0 <==> old(pendingFrames) > 0)
      ensures r > 0 ==> locked && pendingFrames == old(pendingFrames) - 1 && acquires == old(acquires) + 1
      ensures r == 0 ==> locked == old(locked) && pendingFrames == old(pendingFrames) && acquires == old(acquires)
      ensures old(Balanced()) && !old(locked) ==> Balanced()
    {
      if pendingFrames > 0 {
        locked := true;
        acquires := acquires + 1;
        r := pendingFrames;
        pendingFrames := pendingFrames - 1;
      } else {
        r := 0;
      }
    }

    /**
     * release: when locked, hand back the locked buffer, then take and hand
     * back one buffer per deferred drop, and unlock. A no-op when unlocked.
     */
    method Release()
      requires Valid()
      modifies this`pendingReleased, this`locked, this`acquires, this`releases
      ensures Valid()
      ensures !locked
      ensures old(locked) ==>
        pendingReleased == 0 &&
        acquires == old(acquires) + old(pendingReleased) &&
        releases == old(releases) + 1 + old(pendingReleased)
      ensures !old(locked) ==>
        pendingReleased == old(pendingReleased) && acquires == old(acquires) && releases == old(releases)
      ensures old(Balanced()) ==> Balanced()
    {
      if locked {
        releases := releases + 1;
        while pendingReleased > 0
          invariant 0 <= pendingReleased <= old(pendingReleased)
          invariant acquires == old(acquires) + (old(pendingReleased) - pendingReleased)
          invariant releases == old(releases) + 1 + (old(pendingReleased) - pendingReleased)
          decreases pendingReleased
        {
          acquires := acquires + 1;
          releases := releases + 1;
          pendingReleased := pendingReleased - 1;
        }
        locked := false;
      }
    }
  }

  /** The frame buffer the backend hands out: dimensions and row stride in pixels. */
  datatype FrameBuffer = FrameBuffer(width: int, height: int, stride: int)

  /** The YUV420 layout of cap_read's buffer: size, plane offsets and line sizes. */
  datatype Layout = Layout(size: int, offsets: seq<int>, linesizes: seq<int>)

  /** The buffer layout cap_read derives from a w x h frame. */
  function PlaneLayout(w: int, h: int): (l: Layout)
    requires w >= 0 && h >= 0
    ensures |l.offsets| == 3 && |l.linesizes| == 3 && l.size >= 0
  {
    Layout(w * h * 3 / 2, [0, w * h, w * h + w * h / 4], [w, w / 2, w / 2])
  }

  /**
   * The planes lie in order inside the buffer: the luma plane takes w*h
   * bytes, each chroma plane w*h/4, and the last one ends within the
   * w*h*3/2 allocated bytes. For even dimensions the chroma planes are
   * (w/2) x (h/2) with line size w/2, and they fill the buffer exactly.
   */
  lemma PlanesFit(w: int, h: int)
    requires w >= 0 && h >= 0
    ensures var l := PlaneLayout(w, h);
      l.offsets[0] == 0 <= l.offsets[1] <= l.offsets[2] &&
      l.offsets[1] - l.offsets[0] == w * h &&
      l.offsets[2] - l.offsets[1] == w * h / 4 &&
      l.offsets[2] + w * h / 4 <= l.size
    ensures w % 2 == 0 && h % 2 == 0 ==>
      var l := PlaneLayout(w, h);
      w * h / 4 == l.linesizes[1] * (h / 2) && l.linesizes[1] == l.linesizes[2] &&
      l.offsets[2] + w * h / 4 == l.size
  {
    var a := w * h;
    assert a * 3 / 2 == a + a / 2;
    assert 2 * (a / 4) <= a / 2;
    if w % 2 == 0 && h % 2 == 0 {
      var w2, h2 := w / 2, h / 2;
      assert a == 4 * (w2 * h2) by {
        assert w == 2 * w2 && h == 2 * h2;
      }
      assert a / 4 == w2 * h2;
      assert a / 2 == 2 * (w2 * h2);
    }
  }

  /**
   * The capture context of cap_read: the runner it locks frames through,
   * the frame size fixed by the first read, and the lazily allocated
   * output buffer (cap->pkt) with its plane layout.
   */
  class Cap {
    const runner: FrameRunner
    var width: int
    var height: int
    var buffer: Option<seq<byte>>
    var layout: Layout

    /**
     * Between two reads: the runner's counters are in range, no frame is
     * locked and the backend ledger is balanced; once allocated, the buffer
     * has the layout of the fixed frame size.
     */
    ghost predicate Valid()
      reads this, runner
    {
      runner.Valid() && runner.Balanced() && !runner.locked &&
      (buffer.Some? ==>
        0 <= width <= INT32_MAX && 0 <= height <= INT32_MAX &&
        layout == PlaneLayout(width, height) && |buffer.value| == layout.size)
    }

    /** cap_open's result: a context without buffer. */
    constructor (runner: FrameRunner)
      requires runner.Valid() && runner.Balanced() && !runner.locked
      ensures Valid() && this.runner == runner && buffer.None?
      ensures width == 0 && height == 0
    {
      this.runner := runner;
      width, height := 0, 0;
      buffer := None;
      layout := Layout(0, [], []);
    }

    /** The lazy allocation of cap_read: fix the frame size and lay out the buffer. */
    method Allocate(fb: FrameBuffer)
      requires 0 <= fb.width <= INT32_MAX && 0 <= fb.height <= INT32_MAX
      modifies this`width, this`height, this`buffer, this`layout
      ensures width == fb.width && height == fb.height
      ensures layout == PlaneLayout(fb.width, fb.height)
      ensures buffer.Some? && |buffer.value| == layout.size
    {
      width, height := fb.width, fb.height;
      layout := PlaneLayout(width, height);
      buffer := Some(seq(layout.size, _ => 0 as byte));
    }

    /**
     * cap_read. `fb` is the buffer lock acquires, `convertRes` what the
     * pixel conversion returns and `image` the planar bytes it writes.
     * Without a pending frame: EAGAIN. On the first frame the size is fixed
     * to fb's and the buffer allocated with its layout; later frames reuse
     * them. A failed conversion gives -1. Both paths after a successful lock
     * call release exactly once. On success the packet refers to the
     * buffer, carries the video stream index and pos = PKT_MKSIZE(w, h).
     */
    method CapRead(pkt: Packet, fb: FrameBuffer, convertRes: int, image: seq<byte>)
      returns (ret: int, out: Packet)
      requires Valid()
      requires buffer.None? ==>
        0 <= fb.width <= INT32_MAX && 0 <= fb.height <= INT32_MAX &&
        |image| == PlaneLayout(fb.width, fb.height).size
      requires buffer.Some? ==> |image| == layout.size
      modifies this`width, this`height, this`buffer, this`layout, runner
      ensures Valid()
      ensures old(runner.pendingFrames) == 0 <==> ret == EAGAIN
      ensures ret == EAGAIN ==>
        out == pkt && buffer == old(buffer) && runner.acquires == old(runner.acquires) &&
        runner.releases == old(runner.releases)
      ensures ret == EAGAIN ==>
        runner.pendingFrames == old(runner.pendingFrames) && !runner.locked &&
        width == old(width) && height == old(height) && layout == old(layout)
      ensures ret != EAGAIN ==>
        runner.pendingFrames == old(runner.pendingFrames) - 1 &&
        runner.acquires == old(runner.acquires) + 1 && runner.releases == old(runner.releases) + 1
      ensures old(buffer).None? && ret != EAGAIN ==>
        width == fb.width && height == fb.height && layout == PlaneLayout(fb.width, fb.height)
      ensures old(buffer).Some? ==>
        width == old(width) && height == old(height) && layout == old(layout)
      ensures ret == EAGAIN || ret == -1 || ret == 0
      ensures ret != EAGAIN ==> (ret == -1 <==> convertRes < 0)
      ensures ret != EAGAIN && convertRes >= 0 ==> ret == 0
      ensures runner.lastUpdated == old(runner.lastUpdated) && runner.pendingReleased == 0
      ensures ret == -1 ==> out == pkt
      ensures ret == 0 ==>
        buffer == Some(image) &&
        out == Packet(Some(image), None, MkSize(width, height), NOPTS, 0, MEDIA_VIDEO)
    {
      var locked := runner.Lock();
      if locked == 0 {
        return EAGAIN, pkt;
      }
      if buffer.None? {
        Allocate(fb);
      }
      if convertRes < 0 {
        runner.Release();
        return -1, pkt;
      }
      buffer := Some(image);
      runner.Release();
      out := Packet(Some(image), None, -1, NOPTS, 0, 0);
      out := out.(streamIndex := MEDIA_VIDEO, pos := MkSize(width, height));
      ret := 0;
    }
  }
}
