/**
 * The file output stage (filters/file.c). Every instance writes through one
 * process-wide handle, `file_ref`, opened by the first init and closed by
 * the last fini; the file's contents are the bytes written through it.
 * Each hook runs under `file_mutex` and is modelled as one atomic step.
 */
module FileStage {
  import opened Wrappers
  import opened Packets
  import opened Text
  import Chain

  /** The bytes a non-empty packet appends: its extradata, if any, then its payload, unframed. */
  function PacketBytes(pkt: Packet): (bs: seq<byte>)
    requires !pkt.IsEmpty()
    ensures pkt.side.None? ==> bs == pkt.data.value
    ensures pkt.side.Some? ==>
      |bs| == |pkt.side.value| + pkt.Size() &&
      bs[..|pkt.side.value|] == pkt.side.value && bs[|pkt.side.value|..] == pkt.data.value
  {
    if pkt.side.Some? then pkt.side.value + pkt.data.value else pkt.data.value
  }

  /**
   * The global `file_ref`: the shared handle (the path it was opened with,
   * or None for NULL), the number of instances using it, and what was
   * written since it was opened ("wb" truncates). The ghost counters count
   * fopen and fclose calls.
   */
  class FileRef {
    var fp: Option<Option<string>>
    var ref: int
    var contents: seq<byte>
    ghost var opens: nat
    ghost var closes: nat

    /**
     * Under matched init/fini calls: the handle is open exactly while some
     * instance uses it, and every open but the current one was closed.
     */
    ghost predicate Valid()
      reads this
    {
      ref >= 0 && (fp.Some? <==> ref > 0) && opens == closes + (if fp.Some? then 1 else 0)
    }

    /** The static initialiser `{ NULL, 0 }`. */
    constructor ()
      ensures Valid() && fp.None? && ref == 0 && contents == [] && opens == 0 && closes == 0
    {
      fp, ref, contents := None, 0, [];
      opens, closes := 0, 0;
    }
  }

  /** FileContext: the instance's copy of the handle. */
  class FileContext {
    var fp: Option<Option<string>>

    constructor ()
      ensures fp.None?
    {
      fp := None;
    }

    /**
     * file_init: the path is what "%s" reads after "file://" (None when
     * sscanf stores nothing). The file is opened only when the shared handle
     * is NULL; then the instance copies the handle and the count goes up.
     * Later instances share the first handle whatever their path.
     */
    method Init(shared: FileRef, role: Chain.Role, output: string) returns (ret: int)
      requires role == Chain.FtOutput
      requires shared.Valid()
      modifies this, shared
      ensures shared.Valid()
      ensures ret == 0 && shared.ref == old(shared.ref) + 1 && fp == shared.fp
      ensures old(shared.fp).None? ==>
        shared.fp == Some(ScanString(output, "file://")) && shared.contents == [] &&
        shared.opens == old(shared.opens) + 1
      ensures old(shared.fp).Some? ==>
        shared.fp == old(shared.fp) && shared.contents == old(shared.contents) &&
        shared.opens == old(shared.opens)
      ensures shared.closes == old(shared.closes)
    {
      var path := ScanString(output, "file://");
      if shared.fp.None? {
        shared.fp := Some(path);
        shared.contents := [];
        shared.opens := shared.opens + 1;
      }
      fp := shared.fp;
      shared.ref := shared.ref + 1;
      ret := 0;
    }

    /**
     * file_fini: drop the instance's handle and the count; the last one out
     * closes the shared handle and resets it to NULL.
     */
    method Fini(shared: FileRef) returns (ret: int)
      requires shared.Valid() && shared.ref > 0
      modifies this, shared
      ensures shared.Valid()
      ensures ret == 0 && fp.None? && shared.ref == old(shared.ref) - 1
      ensures shared.ref == 0 ==> shared.fp.None? && shared.closes == old(shared.closes) + 1
      ensures shared.ref > 0 ==> shared.fp == old(shared.fp) && shared.closes == old(shared.closes)
      ensures shared.opens == old(shared.opens) && shared.contents == old(shared.contents)
    {
      fp := None;
      shared.ref := shared.ref - 1;
      if shared.ref == 0 {
        shared.fp := None;
        shared.closes := shared.closes + 1;
      }
      ret := 0;
    }

    /**
     * file_apply: a non-empty packet appends its extradata and then its
     * payload to the shared file, without length prefixes, and is
     * unreferenced; an empty one gives EAGAIN and writes nothing.
     */
    method Apply(shared: FileRef, pkt: Packet) returns (ret: int, out: Packet)
      requires fp.Some? && fp == shared.fp
      modifies shared`contents
      ensures !pkt.IsEmpty() ==>
        ret == 0 && out == Unref(pkt) && shared.contents == old(shared.contents) + PacketBytes(pkt)
      ensures pkt.IsEmpty() ==> ret == EAGAIN && out == pkt && shared.contents == old(shared.contents)
    {
      if !pkt.IsEmpty() {
        if pkt.side.Some? {
          shared.contents := shared.contents + pkt.side.value;
        }
        shared.contents := shared.contents + pkt.data.value;
        ret, out := 0, Unref(pkt);
      } else {
        ret, out := EAGAIN, pkt;
      }
    }
  }
}
