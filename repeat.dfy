/**
 * The repeat stage (filters/repeat.c): keep a copy of the last packet that
 * came through and, on ticks without fresh input, re-emit it once an
 * interval has passed since the last emission. `now` is the value of
 * av_gettime() (microseconds) at the call.
 */
module Repeat {
  import opened Wrappers
  import opened Packets
  import Chain

  /** REPEAT_INTERVAL, in microseconds. */
  const REPEAT_INTERVAL: int := 80000

  /** The interval of repeat_init: twice the frame period in microseconds, and at least REPEAT_INTERVAL. */
  function Interval(framerate: int): (r: int)
    requires framerate != 0
    ensures r >= REPEAT_INTERVAL && r >= CDiv(1000000, framerate) * 2
    ensures r == REPEAT_INTERVAL || r == CDiv(1000000, framerate) * 2
  {
    var twice := CDiv(1000000, framerate) * 2;
    if twice > REPEAT_INTERVAL then twice else REPEAT_INTERVAL
  }

  /**
   * The times, among the ticks without fresh input at `times`, at which the
   * stored packet is re-emitted, starting from a last emission at `last`.
   */
  function Repeats(interval: int, last: int, times: seq<int>): (ts: seq<int>)
    ensures |ts| <= |times|
    ensures forall t :: t in ts ==> t in times
    decreases |times|
  {
    if times == [] then []
    else if times[0] - last >= interval then [times[0]] + Repeats(interval, times[0], times[1..])
    else Repeats(interval, last, times[1..])
  }

  /**
   * With no fresh input, consecutive re-emissions are at least `interval`
   * apart, and the first is at least `interval` after the last emission.
   */
  lemma {:induction false} RepeatsSpaced(interval: int, last: int, times: seq<int>)
    ensures var ts := Repeats(interval, last, times);
      (ts != [] ==> ts[0] - last >= interval) &&
      forall i :: 0 < i < |ts| ==> ts[i] - ts[i - 1] >= interval
    decreases |times|
  {
    if times != [] {
      if times[0] - last >= interval {
        RepeatsSpaced(interval, times[0], times[1..]);
      } else {
        RepeatsSpaced(interval, last, times[1..]);
      }
    }
  }

  /** RepeatContext in the zeroed private block the chain allocates. */
  class RepeatContext {
    var stored: Option<Packet>
    var interval: int
    var lastTs: int

    constructor ()
      ensures stored.None? && interval == 0 && lastTs == 0
    {
      stored, interval, lastTs := None, 0, 0;
    }

    /** repeat_init: set the interval from the frame rate; the role is ignored. */
    method Init(role: Chain.Role, framerate: int) returns (ret: int)
      requires framerate != 0
      modifies this`interval
      ensures ret == 0 && interval == Interval(framerate) && interval >= REPEAT_INTERVAL
    {
      interval := Interval(framerate);
      ret := 0;
    }

    /** repeat_fini: free the stored copy. */
    method Fini() returns (ret: int)
      modifies this`stored
      ensures ret == 0 && stored.None?
    {
      stored := None;
      ret := 0;
    }

    /**
     * repeat_apply. A non-empty packet replaces the stored copy, restarts
     * the interval and passes through untouched. An empty packet is filled
     * with the stored copy once the interval has passed since the last
     * emission (which restarts it); otherwise the result is EAGAIN and
     * nothing changes.
     */
    method Apply(pkt: Packet, now: int) returns (ret: int, out: Packet)
      modifies this`stored, this`lastTs
      ensures !pkt.IsEmpty() ==> ret == 0 && out == pkt && stored == Some(pkt) && lastTs == now
      ensures pkt.IsEmpty() ==> stored == old(stored)
      ensures pkt.IsEmpty() && old(stored).Some? && now - old(lastTs) >= interval ==>
        ret == 0 && out == old(stored).value && lastTs == now
      ensures pkt.IsEmpty() && (old(stored).None? || now - old(lastTs) < interval) ==>
        ret == EAGAIN && out == pkt && lastTs == old(lastTs)
      ensures pkt.IsEmpty() && old(stored).Some? ==>
        Repeats(interval, old(lastTs), [now]) == (if ret == 0 then [now] else []) &&
        lastTs == (if ret == 0 then now else old(lastTs))
    {
      if !pkt.IsEmpty() {
        stored := Some(pkt);
        lastTs := now;
        return 0, pkt;
      }
      if stored.Some? && now - lastTs >= interval {
        out := stored.value;
        lastTs := now;
        ret := 0;
      } else {
        ret, out := EAGAIN, pkt;
      }
    }
  }
}
