/**
 * The packet helpers of utils.c: copying raw bytes into a packet, and the
 * frame metadata a packet yields before it is handed to an encoder.
 *
 * The pixel and sample copies into the frame's own buffers are foreign
 * routines; a frame here is its metadata.
 */
module PacketUtils {
  import opened Wrappers
  import opened Packets
  import opened PacketSize

  /** AV_PIX_FMT_YUV420P, AV_SAMPLE_FMT_S16, and the "no format" of a fresh frame. */
  datatype Format = NoFormat | Yuv420p | S16

  const AUDIO_CHANNELS: int := 2
  const AUDIO_SAMPLE_RATE: int := 44100
  /** av_get_bytes_per_sample(AV_SAMPLE_FMT_S16) */
  const S16_BYTES: int := 2

  /** The AVFrame fields the core sets or reads (av_frame_alloc leaves zeros and no format). */
  datatype Frame = Frame(
    width: int,
    height: int,
    format: Format,
    channels: int,
    sampleRate: int,
    nbSamples: int,
    pts: int)

  const FreshFrame: Frame := Frame(0, 0, NoFormat, 0, 0, 0, NOPTS)

  /**
   * new_packet_from_data: the packet, which must be empty, gets a fresh
   * payload equal to data[0..size) and default properties; the result is
   * size.
   */
  method NewPacketFromData(pkt: Packet, data: seq<byte>, size: int) returns (ret: int, out: Packet)
    requires pkt.IsEmpty()
    requires 0 < size <= |data|
    ensures ret == size
    ensures out.data == Some(data[..size]) && out.Size() == size
    ensures out.side.None? && out.pts == NOPTS && out.pos == -1 && out.streamIndex == 0 && out.duration == 0
  {
    out := Unreferenced.(data := Some(data[..size]));
    ret := size;
  }

  /**
   * The metadata part of new_frame_from_packet: a video packet (stream
   * index AVMEDIA_TYPE_VIDEO) gives the width and height packed in pos and
   * the YUV420P format; any other packet is audio, with 2 channels of S16
   * samples at 44100 Hz and one sample per 4 payload bytes.
   */
  function FrameMetadata(pkt: Packet): (f: Frame)
    requires IsInt64(pkt.pos)
    ensures pkt.streamIndex == MEDIA_VIDEO ==>
      f.width == Width(pkt.pos) && f.height == Height(pkt.pos) && f.format == Yuv420p && f.nbSamples == 0
    ensures pkt.streamIndex != MEDIA_VIDEO ==>
      f.channels == AUDIO_CHANNELS && f.format == S16 && f.sampleRate == AUDIO_SAMPLE_RATE &&
      f.nbSamples * (S16_BYTES * AUDIO_CHANNELS) <= pkt.Size() < (f.nbSamples + 1) * (S16_BYTES * AUDIO_CHANNELS)
    ensures f.pts == NOPTS
  {
    if pkt.streamIndex == MEDIA_VIDEO then
      FreshFrame.(width := Width(pkt.pos), height := Height(pkt.pos), format := Yuv420p)
    else
      FreshFrame.(channels := AUDIO_CHANNELS, format := S16, sampleRate := AUDIO_SAMPLE_RATE,
                 nbSamples := CDiv(pkt.Size(), S16_BYTES * AUDIO_CHANNELS))
  }

  /**
   * new_frame_from_packet: fill the frame's metadata from the packet, copy
   * the payload into it, unreference the packet and return 0.
   */
  method NewFrameFromPacket(pkt: Packet) returns (ret: int, frame: Frame, out: Packet)
    requires IsInt64(pkt.pos)
    ensures ret == 0
    ensures frame == FrameMetadata(pkt)
    ensures out.IsEmpty() && out == Unref(pkt)
  {
    frame := FrameMetadata(pkt);
    out := Unref(pkt);
    ret := 0;
  }

  /** new_frame_from_data copies planes when nb_samples is 0 and samples otherwise. */
  predicate CopiedAsVideo(f: Frame) { f.nbSamples == 0 }

  /**
   * A frame is copied as video exactly when its packet was video or an
   * audio payload shorter than one sample frame of 4 bytes: such a short
   * audio packet is copied as a 0 x 0 picture.
   */
  lemma CopyPath(pkt: Packet)
    requires IsInt64(pkt.pos)
    ensures CopiedAsVideo(FrameMetadata(pkt)) <==>
      pkt.streamIndex == MEDIA_VIDEO || pkt.Size() < S16_BYTES * AUDIO_CHANNELS
    ensures pkt.streamIndex != MEDIA_VIDEO && pkt.Size() < S16_BYTES * AUDIO_CHANNELS ==>
      FrameMetadata(pkt).width == 0 && FrameMetadata(pkt).height == 0
  {
    var f := FrameMetadata(pkt);
    if pkt.streamIndex != MEDIA_VIDEO && pkt.Size() >= S16_BYTES * AUDIO_CHANNELS {
      assert f.nbSamples >= 1;
    }
  }
}
