/**
 * The TCP output stage (filters/tcp.c): parse "tcp://<ip>:<port>", connect,
 * and send every packet's records, each optionally preceded by a 4-byte
 * length. The socket calls are parameters: the descriptor socket() returns,
 * the result of connect(), and whether each write_fully call succeeds.
 * write_fully either sends all its bytes or fails, sending nothing.
 */
module Tcp {
  import opened Wrappers
  import opened Packets
  import opened Text
  import Chain

  const TWO32: int := 0x1_0000_0000

  /**
   * Writing `&nbyte` with length 4 sends the low four bytes of the size_t
   * in memory order; on a little-endian target that is the size modulo
   * 2^32, least significant byte first.
   */
  function LE32(n: int): (bs: seq<byte>)
    requires 0 <= n < TWO32
    ensures |bs| == 4
  {
    [(n % 256) as byte, (n / 256 % 256) as byte, (n / 65536 % 256) as byte, (n / 16777216) as byte]
  }

  /** The length a reader takes from a 4-byte little-endian prefix. */
  function ReadLE32(bs: seq<byte>): (n: int)
    requires |bs| >= 4
    ensures 0 <= n < TWO32
  {
    bs[0] as int + 256 * (bs[1] as int) + 65536 * (bs[2] as int) + 16777216 * (bs[3] as int)
  }

  lemma LE32RoundTrip(n: int)
    requires 0 <= n < TWO32
    ensures ReadLE32(LE32(n)) == n
  {
    var b := LE32(n);
    var q1, q2, q3 := n / 256, n / 65536, n / 16777216;
    assert n == 256 * q1 + n % 256;
    assert q1 == 256 * (q1 / 256) + q1 % 256;
    assert q1 / 256 == q2;
    assert q2 == 256 * (q2 / 256) + q2 % 256;
    assert q2 / 256 == q3;
    assert b[0] as int == n % 256 && b[1] as int == q1 % 256 && b[2] as int == q2 % 256 && b[3] as int == q3;
  }

  predicate Fits(rs: seq<seq<byte>>)
  {
    forall i :: 0 <= i < |rs| ==> |rs[i]| < TWO32
  }

  /** A stream of records, each preceded by its 4-byte length, as write_data sends them with `package` set. */
  function Frame(rs: seq<seq<byte>>): (s: seq<byte>)
    requires Fits(rs)
    ensures |s| >= 4 * |rs|
    ensures rs != [] ==> |s| >= 4 + |rs[0]| && ReadLE32(s) == |rs[0]| && s[4..4 + |rs[0]|] == rs[0]
  {
    if rs == [] then []
    else
      LE32RoundTrip(|rs[0]|);
      LE32(|rs[0]|) + rs[0] + Frame(rs[1..])
  }

  /**
   * The reader of such a stream: repeatedly take a 4-byte length and then
   * that many bytes. None when the stream ends inside a prefix or a record.
   */
  function Deframe(s: seq<byte>): (r: Option<seq<seq<byte>>>)
    ensures r.Some? ==> Fits(r.value)
    decreases |s|
  {
    if s == [] then Some([])
    else if |s| < 4 then None
    else
      var n := ReadLE32(s);
      if |s| - 4 < n then None
      else
        match Deframe(s[4 + n..])
        case None => None
        case Some(rest) => Some([s[4..4 + n]] + rest)
  }

  /** Framed records decode back to exactly those records. */
  lemma {:induction false} DeframeFrame(rs: seq<seq<byte>>)
    requires Fits(rs)
    ensures Deframe(Frame(rs)) == Some(rs)
  {
    if rs != [] {
      var r := rs[0];
      var s := Frame(rs);
      LE32RoundTrip(|r|);
      assert s == LE32(|r|) + r + Frame(rs[1..]);
      assert s[..4] == LE32(|r|);
      assert ReadLE32(s) == ReadLE32(s[..4]);
      assert s[4..4 + |r|] == r;
      assert s[4 + |r|..] == Frame(rs[1..]);
      DeframeFrame(rs[1..]);
      assert [r] + rs[1..] == rs;
    }
  }

  /** Framing is compositional: sending two runs of records sends their concatenation. */
  lemma {:induction false} FrameAppend(a: seq<seq<byte>>, b: seq<seq<byte>>)
    requires Fits(a) && Fits(b)
    ensures Fits(a + b) && Frame(a + b) == Frame(a) + Frame(b)
  {
    assert Fits(a + b) by {
      forall i | 0 <= i < |a + b| ensures |(a + b)[i]| < TWO32 {
        if i >= |a| { assert (a + b)[i] == b[i - |a|]; }
      }
    }
    if a != [] {
      assert (a + b)[0] == a[0];
      assert (a + b)[1..] == a[1..] + b;
      FrameAppend(a[1..], b);
    } else {
      assert a + b == b;
    }
  }

  /** The peer address strtok_r extracts: the first two ':'-tokens of the "%s" text. */
  datatype Address = Address(ip: string, port: string)

  /**
   * The address text of tcp_init: what "%s" stores after "tcp://". When
   * sscanf stores nothing the buffer stays as it was; the model reads it
   * as empty.
   */
  function AddressText(output: string): (t: string)
    ensures |t| > 0 <==> ScanString(output, "tcp://").Some?
    ensures forall i :: 0 <= i < |t| ==> !IsSpace(t[i])
  {
    match ScanString(output, "tcp://")
    case Some(t) => t
    case None => ""
  }

  /** tcp_init's parse: None exactly when the text has fewer than two non-empty ':'-tokens. */
  function ParseAddress(output: string): (a: Option<Address>)
    ensures a.None? <==> |Tokens(AddressText(output), ':')| < 2
    ensures a.Some? ==>
      [a.value.ip, a.value.port] == Tokens(AddressText(output), ':')[..2] &&
      |a.value.ip| > 0 && |a.value.port| > 0 && ':' !in a.value.ip && ':' !in a.value.port
  {
    var ts := Tokens(AddressText(output), ':');
    if |ts| < 2 then None
    else
      assert ts[0] in ts && ts[1] in ts;
      Some(Address(ts[0], ts[1]))
  }

  /** "tcp://10.0.0.1:9000" parses into ip "10.0.0.1" and port "9000"; "tcp://host" has no port. */
  lemma ParseAddressExample(ip: string, port: string)
    requires |ip| > 0 && |port| > 0 && ':' !in ip && ':' !in port
    ensures Tokens(ip + [':'] + port, ':') == [ip, port]
    ensures |Tokens(ip, ':')| < 2
  {
    TokensCons(ip, ':', port);
    TokensSingle(port, ':');
    TokensSingle(ip, ':');
  }

  /** Every write of a packet's records succeeds. */
  predicate AllSent(pkt: Packet, sideOk: (bool, bool), dataOk: (bool, bool))
  {
    (pkt.side.Some? ==> sideOk == (true, true)) && dataOk == (true, true)
  }

  /** Sending each record of a packet in turn sends the framing of its records. */
  lemma SentInOrder(pkt: Packet, s0: seq<byte>, s1: seq<byte>, s2: seq<byte>)
    requires !pkt.IsEmpty() && Fits(Records(pkt))
    requires pkt.side.Some? ==> s1 == s0 + Frame([pkt.side.value])
    requires pkt.side.None? ==> s1 == s0
    requires s2 == s1 + Frame([pkt.data.value])
    ensures s2 == s0 + Frame(Records(pkt))
  {
    assert Records(pkt)[|Records(pkt)| - 1] == pkt.data.value;
    if pkt.side.Some? {
      assert Records(pkt)[0] == pkt.side.value;
      FrameAppend([pkt.side.value], [pkt.data.value]);
      assert Records(pkt) == [pkt.side.value] + [pkt.data.value];
    }
  }

  /**
   * The bytes one write_data call puts on the socket: with packaging on,
   * nothing when the length prefix fails, else the prefix and then the
   * payload if that write succeeds; with packaging off, only the payload.
   * Fully sent and packaged, that is the record's frame.
   */
  function Sent(package: int, buf: seq<byte>, prefixOk: bool, payloadOk: bool): (bytes: seq<byte>)
    ensures package != 0 && prefixOk && payloadOk && |buf| < TWO32 ==> bytes == Frame([buf])
    ensures package == 0 ==> bytes == (if payloadOk then buf else [])
    ensures package != 0 && !prefixOk ==> bytes == []
  {
    if package != 0 && !prefixOk then []
    else if package == 0 then (if payloadOk then buf else [])
    else
      FrameOne(buf);
      LE32(|buf| % TWO32) + (if payloadOk then buf else [])
  }

  lemma FrameOne(buf: seq<byte>)
    ensures |buf| < TWO32 ==> Frame([buf]) == LE32(|buf| % TWO32) + buf
  {
    if |buf| < TWO32 {
      assert [buf][1..] == [];
    }
  }

  class TcpContext {
    var fd: int
    var package: int
    var address: Option<Address>
    var closed: bool
    /** The bytes sent on the socket. */
    var stream: seq<byte>

    constructor ()
      ensures fd == 0 && package == 0 && address.None? && !closed && stream == []
    {
      fd, package, address, closed, stream := 0, 0, None, false, [];
    }

    /**
     * tcp_init: copy `package`, then parse the address; without an ip or a
     * port return -1 before any socket exists. Otherwise keep the socket
     * (socket() must succeed) and return connect()'s result.
     */
    method Init(role: Chain.Role, output: string, package: int, sockFd: int, connectRet: int)
      returns (ret: int)
      requires role == Chain.FtOutput
      requires sockFd >= 0
      modifies this`fd, this`package, this`address
      ensures this.package == package && address == ParseAddress(output)
      ensures address.None? ==> ret == -1 && fd == old(fd)
      ensures address.Some? ==> ret == connectRet && fd == sockFd
    {
      this.package := package;
      address := ParseAddress(output);
      if address.None? {
        return -1;
      }
      fd := sockFd;
      ret := connectRet;
    }

    /** tcp_fini: close the socket. */
    method Fini() returns (ret: int)
      modifies this`closed
      ensures ret == 0 && closed
    {
      closed := true;
      ret := 0;
    }

    /**
     * write_data: with `package` set, first send the 4-byte length; if that
     * fails return -1 without sending the payload. Then send the payload
     * and return write_fully's result (negative on failure).
     */
    method WriteData(buf: seq<byte>, prefixOk: bool, payloadOk: bool) returns (r: int)
      modifies this`stream
      ensures package != 0 && !prefixOk ==> r == -1 && stream == old(stream)
      ensures package != 0 && prefixOk ==>
        stream == old(stream) + LE32(|buf| % TWO32) + (if payloadOk then buf else []) &&
        (r >= 0 <==> payloadOk)
      ensures package == 0 ==>
        stream == old(stream) + (if payloadOk then buf else []) && (r >= 0 <==> payloadOk)
      ensures package != 0 && prefixOk && payloadOk && |buf| < TWO32 ==>
        stream == old(stream) + Frame([buf])
      ensures stream == old(stream) + Sent(package, buf, prefixOk, payloadOk)
    {
      if package != 0 {
        if !prefixOk {
          return -1;
        }
        stream := stream + LE32(|buf| % TWO32);
      }
      if payloadOk {
        stream := stream + buf;
        r := 0;
      } else {
        r := -1;
      }
      FrameOne(buf);
    }

    /**
     * tcp_apply: a non-empty packet sends its extradata record, then its
     * data record, is unreferenced, and gives 0 whatever the writes did;
     * an empty packet gives EAGAIN and sends nothing. `sideOk` and `dataOk`
     * are the outcomes of the prefix and payload writes of each record.
     */
    method Apply(pkt: Packet, sideOk: (bool, bool), dataOk: (bool, bool)) returns (ret: int, out: Packet)
      modifies this`stream
      ensures pkt.IsEmpty() ==> ret == EAGAIN && out == pkt && stream == old(stream)
      ensures !pkt.IsEmpty() ==> ret == 0 && out == Unref(pkt)
      ensures !pkt.IsEmpty() && package != 0 && Fits(Records(pkt)) && AllSent(pkt, sideOk, dataOk) ==>
        stream == old(stream) + Frame(Records(pkt))
      ensures !pkt.IsEmpty() && package == 0 && (pkt.side.Some? ==> sideOk.1) && dataOk.1 ==>
        stream == old(stream) + (if pkt.side.Some? then pkt.side.value else []) + pkt.data.value
      ensures !pkt.IsEmpty() ==>
        stream == old(stream) + (if pkt.side.Some? then Sent(package, pkt.side.value, sideOk.0, sideOk.1) else []) +
          Sent(package, pkt.data.value, dataOk.0, dataOk.1)
    {
      if pkt.IsEmpty() {
        return EAGAIN, pkt;
      }
      ghost var s0 := stream;
      if pkt.side.Some? {
        var _ := WriteData(pkt.side.value, sideOk.0, sideOk.1);
      }
      ghost var s1 := stream;
      var _ := WriteData(pkt.data.value, dataOk.0, dataOk.1);
      if package != 0 && Fits(Records(pkt)) && AllSent(pkt, sideOk, dataOk) {
        SentInOrder(pkt, s0, s1, stream);
      }
      ret, out := 0, Unref(pkt);
    }
  }
}
