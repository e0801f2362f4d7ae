/**
 * The capture stage (filters/cap.c): the chain's producer. It keeps the
 * capture handle cap_open returned and turns every tick into a cap_read.
 * How cap_open's arguments are derived from the stage parameters is not
 * modelled: the handle it returns is a parameter of Init.
 */
module CapStage {
  import opened Wrappers
  import opened Packets
  import opened PacketSize
  import Pacer
  import Chain

  class CapContext {
    var cap: Pacer.Cap?
    var closed: bool

    constructor ()
      ensures cap == null && !closed
    {
      cap, closed := null, false;
    }

    /** cap_init: an input stage of a video chain; keep the handle and return 0, even when it is NULL. */
    method Init(role: Chain.Role, streamType: int, handle: Pacer.Cap?) returns (ret: int)
      requires role == Chain.FtInput && streamType == ST_VIDEO
      modifies this`cap
      ensures ret == 0 && cap == handle
    {
      cap := handle;
      ret := 0;
    }

    /** cap_fini: close the handle and return 0. */
    method Fini() returns (ret: int)
      requires cap != null
      modifies this`closed
      ensures ret == 0 && closed
    {
      closed := true;
      ret := 0;
    }

    /**
     * cap_apply: on an empty packet, return what cap_read returns for this
     * tick, with the same effect on the capture context and the pacer.
     */
    method Apply(pkt: Packet, fb: Pacer.FrameBuffer, convertRes: int, image: seq<byte>)
      returns (ret: int, out: Packet)
      requires pkt.IsEmpty()
      requires cap != null && cap.Valid()
      requires cap.buffer.None? ==>
        0 <= fb.width <= INT32_MAX && 0 <= fb.height <= INT32_MAX &&
        |image| == Pacer.PlaneLayout(fb.width, fb.height).size
      requires cap.buffer.Some? ==> |image| == cap.layout.size
      modifies cap, cap.runner
      ensures cap.Valid()
      ensures ret == EAGAIN || ret == -1 || ret == 0
      ensures ret == EAGAIN <==> old(cap.runner.pendingFrames) == 0
      ensures ret == EAGAIN ==>
        cap.buffer == old(cap.buffer) && cap.runner.acquires == old(cap.runner.acquires) &&
        cap.runner.releases == old(cap.runner.releases)
      ensures ret == EAGAIN ==>
        cap.runner.pendingFrames == old(cap.runner.pendingFrames) && !cap.runner.locked &&
        cap.width == old(cap.width) && cap.height == old(cap.height) && cap.layout == old(cap.layout)
      ensures ret != EAGAIN ==>
        cap.runner.pendingFrames == old(cap.runner.pendingFrames) - 1 &&
        cap.runner.acquires == old(cap.runner.acquires) + 1 &&
        cap.runner.releases == old(cap.runner.releases) + 1
      ensures old(cap.buffer).None? && ret != EAGAIN ==>
        cap.width == fb.width && cap.height == fb.height &&
        cap.layout == Pacer.PlaneLayout(fb.width, fb.height)
      ensures old(cap.buffer).Some? ==>
        cap.width == old(cap.width) && cap.height == old(cap.height) && cap.layout == old(cap.layout)
      ensures ret == EAGAIN || ret == -1 ==> out == pkt
      ensures ret != EAGAIN ==> (ret == -1 <==> convertRes < 0)
      ensures ret != EAGAIN && convertRes >= 0 ==> ret == 0
      ensures ret == 0 ==>
        cap.buffer == Some(image) &&
        out == Packet(Some(image), None, MkSize(cap.width, cap.height), NOPTS, 0, MEDIA_VIDEO)
    {
      ret, out := cap.CapRead(pkt, fb, convertRes, image);
    }
  }
}
