/**
 * The statistics stage (filters/stat.c): count the packets and bytes that
 * pass, give timestamps to packets without one, and report the totals at
 * most once per second and once more at teardown.
 *
 * The clock (av_gettime(), microseconds) is the parameter `now`, the
 * rescaling of a timestamp to microseconds (av_rescale_q) the parameter
 * `rescale`. A report is recorded by its integer fields; the bit rates and
 * the status line are left out.
 */
module StatStage {
  import opened Wrappers
  import opened Packets
  import Chain

  /** INFO_INTERVAL and AV_TIME_BASE, in microseconds. */
  const INFO_INTERVAL: int := 1000 * 1000
  const TIME_BASE: int := 1000000

  /** The playing time of a report: minutes and seconds modulo 60, and microseconds. */
  datatype Clock = Clock(mins: int, secs: int, us: int)

  /** The integer fields of a status line. */
  datatype Report = Report(frames: int, totalSize: int, clock: Clock)

  /** stat_info's time decomposition of a timestamp in microseconds. */
  function Decompose(pts: int): (c: Clock)
    ensures 0 <= c.us < TIME_BASE && 0 <= c.secs < 60 && 0 <= c.mins < 60
  {
    var a := Abs(pts);
    var secs := a / TIME_BASE;
    Clock((secs / 60) % 60, secs % 60, a % TIME_BASE)
  }

  /**
   * The decomposition is the time of |pts| within the hour: minutes,
   * seconds and microseconds add up to |pts| modulo one hour.
   */
  lemma DecomposeWithinHour(pts: int)
    ensures var c := Decompose(pts);
      c.us + TIME_BASE * (c.secs + 60 * c.mins) == Abs(pts) % (3600 * TIME_BASE)
  {
    var a := Abs(pts);
    var s := a / TIME_BASE;
    var m := s / 60;
    var c := Decompose(pts);
    assert a == TIME_BASE * s + a % TIME_BASE;
    assert s == 60 * m + s % 60;
    assert m == 60 * (m / 60) + m % 60;
    var h := m / 60;
    var rest := c.us + TIME_BASE * (c.secs + 60 * c.mins);
    assert a == 3600 * TIME_BASE * h + rest by {
      calc {
        a;
        TIME_BASE * s + c.us;
        TIME_BASE * (60 * m + c.secs) + c.us;
        TIME_BASE * (60 * (60 * h + c.mins) + c.secs) + c.us;
        3600 * TIME_BASE * h + rest;
      }
    }
    assert 0 <= rest < 3600 * TIME_BASE;
    ModOfDecomposition(a, 3600 * TIME_BASE, h, rest);
  }

  lemma ModOfDecomposition(a: int, n: int, q: int, r: int)
    requires n > 0 && 0 <= r < n && a == n * q + r
    ensures a % n == r
  {
    var d := q - a / n;
    assert a == n * (a / n) + a % n;
    assert n * d == a % n - r by {
      assert n * d == n * q - n * (a / n);
    }
  }

  class StatContext {
    var fps: int
    var frames: int
    var totalSize: int
    var iTotalSize: int
    var pts: int
    var last: int
    var clock: Clock
    /** The status lines printed, in order. */
    var reports: seq<Report>

    constructor ()
      ensures fps == 0 && frames == 0 && totalSize == 0 && iTotalSize == 0 && pts == 0 && last == 0
      ensures clock == Clock(0, 0, 0) && reports == []
    {
      fps, frames, totalSize, iTotalSize, pts, last := 0, 0, 0, 0, 0, 0;
      clock, reports := Clock(0, 0, 0), [];
    }

    /** stat_init: record the frame rate. */
    method Init(role: Chain.Role, framerate: int) returns (ret: int)
      requires role == Chain.FtFilter
      modifies this`fps
      ensures ret == 0 && fps == framerate
    {
      fps := framerate;
      ret := 0;
    }

    /**
     * stat_info. A packet bumps the frame count, adds its size to both the
     * total and the interval total, gets pts = frames*1000 when it has no
     * timestamp, and sets the current time. Then: the first call only starts
     * the clock; later calls report when called without a packet or a full
     * interval after the last report, and each report clears the interval
     * total and restarts the interval.
     */
    method Info(pkt: Option<Packet>, now: int, rescale: int -> int) returns (out: Option<Packet>)
      modifies this`frames, this`totalSize, this`iTotalSize, this`pts, this`last, this`clock, this`reports
      ensures out.Some? <==> pkt.Some?
      ensures pkt.Some? ==>
        frames == old(frames) + 1 && totalSize == old(totalSize) + pkt.value.Size() &&
        out.value == pkt.value.(pts := if pkt.value.pts == NOPTS then frames * 1000 else pkt.value.pts) &&
        pts == rescale(out.value.pts)
      ensures pkt.None? ==> frames == old(frames) && totalSize == old(totalSize) && pts == old(pts)
      ensures var reported := old(last) != 0 && (pkt.None? || now - old(last) >= INFO_INTERVAL);
        (old(last) == 0 ==> last == now && reports == old(reports)) &&
        (reported ==>
          last == now && iTotalSize == 0 && clock == Decompose(pts) &&
          reports == old(reports) + [Report(frames, totalSize, Decompose(pts))]) &&
        (!reported ==>
          clock == old(clock) && reports == old(reports) &&
          iTotalSize == old(iTotalSize) + (if pkt.Some? then pkt.value.Size() else 0)) &&
        (old(last) != 0 && !reported ==> last == old(last))
    {
      out := pkt;
      if pkt.Some? {
        var p := pkt.value;
        frames := frames + 1;
        totalSize := totalSize + p.Size();
        iTotalSize := iTotalSize + p.Size();
        if p.pts == NOPTS {
          p := p.(pts := frames * 1000);
        }
        pts := rescale(p.pts);
        out := Some(p);
      }
      if last == 0 {
        last := now;
      } else if pkt.None? || now - last >= INFO_INTERVAL {
        clock := Decompose(pts);
        reports := reports + [Report(frames, totalSize, clock)];
        iTotalSize := 0;
        last := now;
      }
    }

    /**
     * stat_apply: a non-empty packet goes through stat_info (counted, given
     * a timestamp, and reported on once an interval has passed) and is
     * passed on with 0; an empty one gives EAGAIN and changes nothing.
     */
    method Apply(pkt: Packet, now: int, rescale: int -> int) returns (ret: int, out: Packet)
      modifies this`frames, this`totalSize, this`iTotalSize, this`pts, this`last, this`clock, this`reports
      ensures pkt.IsEmpty() ==>
        ret == EAGAIN && out == pkt && frames == old(frames) && totalSize == old(totalSize) &&
        iTotalSize == old(iTotalSize) && pts == old(pts) && last == old(last) &&
        clock == old(clock) && reports == old(reports)
      ensures !pkt.IsEmpty() ==>
        ret == 0 && frames == old(frames) + 1 && totalSize == old(totalSize) + pkt.Size() &&
        out == pkt.(pts := if pkt.pts == NOPTS then frames * 1000 else pkt.pts) &&
        pts == rescale(out.pts)
      ensures !pkt.IsEmpty() ==>
        var reported := old(last) != 0 && now - old(last) >= INFO_INTERVAL;
        (old(last) == 0 ==> last == now) &&
        (reported ==>
          last == now && iTotalSize == 0 && clock == Decompose(pts) &&
          reports == old(reports) + [Report(frames, totalSize, Decompose(pts))]) &&
        (!reported ==>
          clock == old(clock) && reports == old(reports) && iTotalSize == old(iTotalSize) + pkt.Size()) &&
        (old(last) != 0 && !reported ==> last == old(last))
    {
      if pkt.IsEmpty() {
        return EAGAIN, pkt;
      }
      var o := Info(Some(pkt), now, rescale);
      ret, out := 0, o.value;
    }

    /** stat_fini: a final stat_info without a packet, which reports unless the clock never started. */
    method Fini(now: int, rescale: int -> int) returns (ret: int)
      modifies this`frames, this`totalSize, this`iTotalSize, this`pts, this`last, this`clock, this`reports
      ensures ret == 0
      ensures old(last) != 0 ==> reports == old(reports) + [Report(frames, totalSize, Decompose(pts))]
      ensures old(last) == 0 ==> reports == old(reports)
      ensures frames == old(frames) && totalSize == old(totalSize)
    {
      var _ := Info(None, now, rescale);
      ret := 0;
    }
  }
}
