/**
 * The pipe output stage (filters/pipe.c): write every packet's records to
 * the file descriptor named by "pipe://<fd>". Its write_data and its
 * context type come from file.h, which is not part of this model: each
 * write_data call is recorded as the record it was given, in order.
 */
module PipeStage {
  import opened Wrappers
  import opened Packets
  import opened Text
  import Chain

  /** The descriptor pipe_init ends up with: the "%d" after "pipe://", or the zeroed default 0 when sscanf stores nothing. */
  function PipeFd(output: string, fd0: int): (fd: int)
    ensures ScanInt(output, "pipe://").Some? ==> fd == ScanInt(output, "pipe://").value
    ensures ScanInt(output, "pipe://").None? ==> fd == fd0
  {
    match ScanInt(output, "pipe://")
    case Some(v) => v
    case None => fd0
  }

  /**
   * "pipe://" followed by an optionally signed run of digits names the
   * descriptor with that decimal value, whatever follows the digits.
   */
  lemma PipeFdValue(output: string, sgn: string, ds: string, rest: string, fd0: int)
    requires output == "pipe://" + sgn + ds + rest
    requires IsSign(sgn)
    requires |ds| > 0 && forall i :: 0 <= i < |ds| ==> IsDigit(ds[i])
    requires rest == [] || !IsDigit(rest[0])
    ensures var v: int := DecimalValue(ds);
      PipeFd(output, fd0) == if sgn == ['-'] then -v else v
  {
    ScanIntDigits(output, "pipe://", sgn, ds, rest);
  }

  /** An output that does not start with "pipe://" leaves the descriptor as it was. */
  lemma PipeFdDefault(output: string, fd0: int)
    requires !(|"pipe://"| <= |output| && output[..|"pipe://"|] == "pipe://")
    ensures PipeFd(output, fd0) == fd0
  {
  }

  class PipeContext {
    var fd: int
    var package: int
    /** The records handed to write_data, in order. */
    var records: seq<seq<byte>>

    constructor ()
      ensures fd == 0 && package == 0 && records == []
    {
      fd, package, records := 0, 0, [];
    }

    /** pipe_init: read the descriptor, copy `package`, return 0. */
    method Init(role: Chain.Role, output: string, package: int) returns (ret: int)
      requires role == Chain.FtOutput
      modifies this`fd, this`package
      ensures ret == 0 && fd == PipeFd(output, old(fd)) && this.package == package
    {
      match ScanInt(output, "pipe://") {
        case Some(v) => fd := v;
        case None =>
      }
      this.package := package;
      ret := 0;
    }

    /**
     * pipe_apply: a non-empty packet writes its extradata record, if any,
     * then its data record, and is unreferenced; an empty one gives EAGAIN
     * and writes nothing.
     */
    method Apply(pkt: Packet) returns (ret: int, out: Packet)
      modifies this`records
      ensures !pkt.IsEmpty() ==> ret == 0 && out == Unref(pkt) && records == old(records) + Records(pkt)
      ensures pkt.IsEmpty() ==> ret == EAGAIN && out == pkt && records == old(records)
    {
      if pkt.IsEmpty() {
        return EAGAIN, pkt;
      }
      if pkt.side.Some? {
        records := records + [pkt.side.value];
      }
      records := records + [pkt.data.value];
      ret, out := 0, Unref(pkt);
    }
  }
}
