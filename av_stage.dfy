/**
 * The encoder stage (filters/av.c): turn each non-empty packet into a
 * frame, hand it to the encoder with the next presentation timestamp, and
 * pass on what the encoder returns, labelled with the stream, the picture
 * size and, on the first packet, the codec's extradata.
 *
 * The encoder is an oracle: the results of avcodec_send_frame and
 * avcodec_receive_packet, the packet it produces and the extradata of the
 * opened codec are parameters.
 */
module AvStage {
  import opened Wrappers
  import opened Packets
  import opened PacketSize
  import opened PacketUtils

  /** enum CodecID */
  const CODEC_H264: int := 0
  const CODEC_AAC: int := 1

  /** The default duration av_apply assumes for a packet without one. */
  const DEFAULT_DURATION: int := 1000

  /** TranscodeParam */
  datatype Param = Param(
    width: int, height: int, codec: int, crf: int, bitrate: int, framerate: int, package: int)

  /** An AVRational as written, numerator over denominator. */
  datatype Rational = Rational(num: int, den: int)

  /**
   * The AVCodecContext fields open_h264_encoder sets. None marks a rate
   * control field or option left at the codec default.
   */
  datatype EncoderConfig = EncoderConfig(
    width: int,
    height: int,
    gopSize: int,
    maxBFrames: int,
    rcBufferSize: Option<int>,
    rcMaxRate: Option<int>,
    pixFmt: Format,
    framerate: Rational,
    timeBase: Rational,
    ticksPerFrame: int,
    globalHeader: bool,
    profile: string,
    level: string,
    preset: string,
    tune: string,
    crf: Option<int>)

  /**
   * open_h264_encoder: a w x h YUV420P encoder with GOP 100 (1 in fmp4
   * mode, which also asks for global headers), no B-frames, frame rate
   * 1/framerate (1/(framerate+1) in fmp4 mode), a time base 1000 times
   * finer, and 1000 ticks per frame; rate control is capped at bitrate*1000
   * only for a positive bitrate, and crf is set only when positive.
   */
  function OpenH264Encoder(width: int, height: int, param: Param, fmp4: bool): (c: EncoderConfig)
    ensures c.width == width && c.height == height && c.pixFmt == Yuv420p
    ensures c.gopSize == (if fmp4 then 1 else 100) && c.globalHeader == fmp4
    ensures c.maxBFrames == 0 && c.ticksPerFrame == 1000
    ensures param.bitrate > 0 ==> c.rcBufferSize == Some(param.bitrate * 1000) && c.rcMaxRate == c.rcBufferSize
    ensures param.bitrate <= 0 ==> c.rcBufferSize.None? && c.rcMaxRate.None?
    ensures c.framerate == Rational(1, if fmp4 then param.framerate + 1 else param.framerate)
    ensures c.timeBase == Rational(c.framerate.num, c.framerate.den * 1000)
    ensures c.crf == (if param.crf > 0 then Some(param.crf) else None)
    ensures c.profile == "high" && c.level == "5.2" && c.preset == "veryfast" && c.tune == "zerolatency"
  {
    var rate := if param.bitrate > 0 then Some(param.bitrate * 1000) else None;
    var fr := Rational(1, if fmp4 then param.framerate + 1 else param.framerate);
    EncoderConfig(
      width, height, if fmp4 then 1 else 100, 0, rate, rate, Yuv420p,
      fr, Rational(fr.num * 1, fr.den * 1000), 1000, fmp4,
      "high", "5.2", "veryfast", "zerolatency",
      if param.crf > 0 then Some(param.crf) else None)
  }

  /** open_encoder: an H.264 encoder for CODEC_H264, whatever the stream type; nothing otherwise. */
  function OpenEncoder(streamType: int, param: Param, width: int, height: int): (c: Option<EncoderConfig>)
    ensures c.Some? <==> param.codec == CODEC_H264
    ensures c.Some? ==> c.value == OpenH264Encoder(width, height, param, false)
  {
    if param.codec == CODEC_H264 then Some(OpenH264Encoder(width, height, param, false)) else None
  }

  /**
   * The encoder av_apply opens is never in fmp4 mode: GOP 100, no global
   * header, frame rate 1/framerate and time base 1/(1000*framerate).
   */
  lemma AvEncoderNotFmp4(streamType: int, param: Param, width: int, height: int)
    requires param.codec == CODEC_H264
    ensures var c := OpenEncoder(streamType, param, width, height).value;
      c.gopSize == 100 && !c.globalHeader &&
      c.framerate == Rational(1, param.framerate) && c.timeBase == Rational(1, param.framerate * 1000)
  {
  }

  /** The timestamp after a received packet: advance by its duration, or by 1000 when that is not positive. */
  function NextPts(pts: int, duration: int): (r: int)
    ensures r > pts
    ensures duration > 0 ==> r == pts + duration
    ensures duration <= 0 ==> r == pts + DEFAULT_DURATION
  {
    pts + (if duration > 0 then duration else DEFAULT_DURATION)
  }

  /** An input packet whose size av_apply can pack again: PKT_MKSIZE needs a non-negative width. */
  predicate PackableInput(pkt: Packet)
  {
    IsInt64(pkt.pos) && (pkt.streamIndex == MEDIA_VIDEO ==> pkt.pos >= 0)
  }

  lemma PackableSize(pkt: Packet)
    requires PackableInput(pkt)
    ensures var f := FrameMetadata(pkt);
      0 <= f.width <= INT32_MAX && 0 <= f.height <= INT32_MAX
  {
  }

  class AvContext {
    var codec: Option<EncoderConfig>
    var nextPts: int
    var closed: bool
    /** The frames handed to avcodec_send_frame, in order. */
    var sent: seq<Frame>

    constructor ()
      ensures codec.None? && nextPts == 0 && !closed && sent == []
    {
      codec, nextPts, closed, sent := None, 0, false, [];
    }

    predicate Valid()
      reads this
    {
      nextPts >= 0
    }

    /** av_fini: close the encoder if one was opened. */
    method Fini() returns (ret: int)
      modifies this`closed
      ensures ret == 0 && closed == (old(closed) || codec.Some?)
    {
      if codec.Some? {
        closed := true;
      }
      ret := 0;
    }

    /**
     * av_apply. An empty packet gives EAGAIN and touches nothing. Otherwise
     * the packet becomes a frame and is unreferenced; the first one opens
     * the encoder with the frame's size and restarts the timestamps at 0.
     * The frame is sent with pts = next_pts. If sending and receiving both
     * succeed, the received packet gets the stream type as stream index,
     * PKT_MKSIZE of the frame's size as pos, a duration of 1000 when it had
     * none and, while next_pts is 0, the codec's extradata; next_pts then
     * advances. The result is the first failing call's, or the receive's.
     */
    method Apply(streamType: int, param: Param, pkt: Packet,
                 sendRet: int, recvRet: int, encoded: Packet, extradata: seq<byte>)
      returns (ret: int, out: Packet)
      requires Valid()
      requires PackableInput(pkt)
      requires codec.None? && !pkt.IsEmpty() ==> param.codec == CODEC_H264
      modifies this`codec, this`nextPts, this`sent
      ensures Valid()
      ensures pkt.IsEmpty() ==>
        ret == EAGAIN && out == pkt && codec == old(codec) && nextPts == old(nextPts) && sent == old(sent)
      ensures !pkt.IsEmpty() ==>
        var f := FrameMetadata(pkt);
        var pts := if old(codec).None? then 0 else old(nextPts);
        codec == (if old(codec).None? then OpenEncoder(streamType, param, f.width, f.height) else old(codec)) &&
        sent == old(sent) + [f.(pts := pts)] &&
        ret == (if sendRet < 0 then sendRet else recvRet) &&
        (ret < 0 ==> out == Unref(pkt) && nextPts == pts) &&
        (ret >= 0 ==>
          out.data == encoded.data && out.pts == encoded.pts &&
          out.streamIndex == streamType && out.pos == MkSize(f.width, f.height) &&
          out.duration == (if encoded.duration == 0 then DEFAULT_DURATION else encoded.duration) &&
          out.side == (if pts == 0 && |extradata| > 0 then Some(extradata) else encoded.side) &&
          nextPts == NextPts(pts, out.duration))
    {
      if pkt.IsEmpty() {
        return EAGAIN, pkt;
      }
      var _, frame, unrefd := NewFrameFromPacket(pkt);
      PackableSize(pkt);
      if codec.None? {
        codec := OpenEncoder(streamType, param, frame.width, frame.height);
        nextPts := 0;
      }
      frame := frame.(pts := nextPts);
      sent := sent + [frame];
      ret, out := sendRet, unrefd;
      if ret >= 0 {
        ret := recvRet;
        if ret >= 0 {
          out := encoded.(streamIndex := streamType, pos := MkSize(frame.width, frame.height));
          if out.duration == 0 {
            out := out.(duration := DEFAULT_DURATION);
          }
          if nextPts == 0 && |extradata| > 0 {
            out := out.(side := Some(extradata));
          }
          nextPts := NextPts(nextPts, out.duration);
        }
      }
    }
  }

  /**
   * The next_pts values at which successive packets come back from the
   * encoder, starting from next_pts = pts, for the given durations.
   */
  function PtsRun(pts: int, durations: seq<int>): (r: seq<int>)
    ensures |r| == |durations|
    ensures r != [] ==> r[0] == pts
    decreases |durations|
  {
    if durations == [] then [] else [pts] + PtsRun(NextPts(pts, durations[0]), durations[1..])
  }

  /**
   * Timestamps only grow: each packet that comes back moves next_pts
   * strictly forward, so only the first one, at next_pts 0, carries the
   * extradata.
   */
  lemma {:induction false} ExtradataOnlyFirst(pts: int, durations: seq<int>)
    ensures var r := PtsRun(pts, durations);
      forall k :: 0 < k < |r| ==> r[k - 1] < r[k] && pts < r[k]
    ensures pts >= 0 ==> forall k :: 0 < k < |durations| ==> PtsRun(pts, durations)[k] != 0
    decreases |durations|
  {
    if durations != [] {
      var next := NextPts(pts, durations[0]);
      ExtradataOnlyFirst(next, durations[1..]);
      var r := PtsRun(pts, durations);
      assert r == [pts] + PtsRun(next, durations[1..]);
      forall k | 0 < k < |r| ensures r[k - 1] < r[k] && pts < r[k] {
        assert r[k] == PtsRun(next, durations[1..])[k - 1];
        if k > 1 {
          assert r[k - 1] == PtsRun(next, durations[1..])[k - 2];
        }
      }
    }
  }
}
