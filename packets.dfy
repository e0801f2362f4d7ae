/**
 * The packet record that travels along a filter chain, the result codes
 * the stages exchange, and the C integer helpers the model needs.
 *
 * A packet is the part of an AVPacket the core looks at: the payload
 * (absent for an empty packet), the extradata side payload, `pos`,
 * `pts`, `duration` and the stream index.
 */
module Packets {
  import opened Wrappers

  newtype byte = x: int | 0 <= x < 256

  /** AVERROR(EAGAIN) on Linux: "nothing this tick", not an error. */
  const EAGAIN: int := -11

  /** AV_NOPTS_VALUE, the "no timestamp" marker (INT64_MIN). */
  const NOPTS: int := -0x8000_0000_0000_0000

  /** AVMEDIA_TYPE_VIDEO and AVMEDIA_TYPE_AUDIO, used as stream indices. */
  const MEDIA_VIDEO: int := 0
  const MEDIA_AUDIO: int := 1

  /** ST_VIDEO and ST_AUDIO, the stream type of a transcode context. */
  const ST_VIDEO: int := 0
  const ST_AUDIO: int := 1

  const INT32_MIN: int := -0x8000_0000
  const INT32_MAX: int := 0x7FFF_FFFF

  predicate IsInt32(x: int) { INT32_MIN <= x <= INT32_MAX }

  datatype Packet = Packet(
    data: Option<seq<byte>>,
    side: Option<seq<byte>>,
    pos: int,
    pts: int,
    duration: int,
    streamIndex: int)
  {
    /** An empty packet (pkt->data == NULL) is the "no data this tick" sentinel. */
    predicate IsEmpty() { data.None? }

    /** pkt->size */
    function Size(): nat { if data.Some? then |data.value| else 0 }
  }

  /**
   * The payloads an output stage writes for a non-empty packet, in order:
   * the extradata side payload when present, then the packet's data.
   */
  function Records(pkt: Packet): (rs: seq<seq<byte>>)
    requires !pkt.IsEmpty()
    ensures 1 <= |rs| <= 2 && rs[|rs| - 1] == pkt.data.value
    ensures |rs| == 2 <==> pkt.side.Some?
    ensures pkt.side.Some? ==> rs[0] == pkt.side.value
  {
    if pkt.side.Some? then [pkt.side.value, pkt.data.value] else [pkt.data.value]
  }

  /** The field values av_init_packet and av_packet_unref leave behind. */
  const Unreferenced: Packet := Packet(None, None, -1, NOPTS, 0, 0)

  /** av_packet_unref: drop the payload and side data, reset the properties. */
  function Unref(p: Packet): (r: Packet)
    ensures r.IsEmpty() && r.side.None? && r.Size() == 0
    ensures r.pts == NOPTS && r.streamIndex == 0 && r.duration == 0
  {
    Unreferenced
  }

  /** C integer division, which truncates toward zero (Dafny's `/` is Euclidean). */
  function CDiv(a: int, b: int): (q: int)
    requires b != 0
    ensures 0 <= a && 0 < b ==> q == a / b
    ensures Abs(a - b * q) < Abs(b)
    ensures a - b * q == 0 || (a - b * q < 0 <==> a < 0)
  {
    var q0 := Abs(a) / Abs(b);
    var q := if (a < 0) == (b < 0) then q0 else -q0;
    TruncatedRemainder(a, b, q0, q);
    q
  }

  lemma TruncatedRemainder(a: int, b: int, q0: int, q: int)
    requires b != 0 && q0 == Abs(a) / Abs(b)
    requires q == if (a < 0) == (b < 0) then q0 else -q0
    ensures a - b * q == if a < 0 then -(Abs(a) % Abs(b)) else Abs(a) % Abs(b)
  {
    var A, B := Abs(a), Abs(b);
    var r := A % B;
    assert A == B * q0 + r;
    if a < 0 && b < 0 {
      assert a - b * q == -A + B * q0;
    } else if a < 0 {
      assert a - b * q == -A + B * q0;
    } else if b < 0 {
      assert a - b * q == A - B * q0;
    } else {
      assert a - b * q == A - B * q0;
    }
  }

  function Abs(x: int): nat { if x < 0 then -x else x }
}
