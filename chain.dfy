/**
 * The chain builder and executor of arpcap.c.
 *
 * A transcode context holds up to MAX_FILTERS stages: a descriptor in
 * `filters[i]` and a private state block in `filter_data[i]`. Stage hooks
 * are reached through the descriptor; the stage currently being called
 * finds its state through the shared `priv_data` slot.
 *
 * The hooks themselves are modelled per stage in their own modules. Here
 * they are external calls: what an `init` returns and what an `apply` does
 * to the packet are inputs to the executor, and every call is recorded in
 * `calls` together with the state block `priv_data` held at the time of
 * the call. State blocks are identified by allocation number.
 */
module Chain {
  import opened Wrappers
  import opened Packets
  import opened Text
  import opened Registry

  const MAX_FILTERS: nat := 8

  /** FT_FILTER, FT_INPUT and FT_OUTPUT of filter.h. */
  datatype Role = FtFilter | FtInput | FtOutput

  /** A state block pointer: NULL or the block of the given allocation. */
  datatype Block = Null | Blk(id: nat)

  datatype HookCall =
    | InitCall(stage: nat, role: Role, data: Block)
    | FiniCall(stage: nat, data: Block)
    | ApplyCall(stage: nat, data: Block)

  /** The role filters_init gives the stage at index i of an n-stage chain. */
  function RoleAt(i: nat, n: nat): (r: Role)
    ensures r == FtInput <==> i == 0
    ensures r == FtOutput <==> i != 0 && i == n - 1
  {
    if i == 0 then FtInput else if i == n - 1 then FtOutput else FtFilter
  }

  /**
   * Roles are positional: the first stage is the input (also in a chain of
   * one), the last of a longer chain the output, every other one a filter.
   */
  lemma ChainRoles(n: nat)
    requires n >= 1
    ensures RoleAt(0, n) == FtInput
    ensures n >= 2 ==> RoleAt(n - 1, n) == FtOutput
    ensures forall i :: 0 < i < n - 1 ==> RoleAt(i, n) == FtFilter
    ensures forall i :: 0 <= i < n && RoleAt(i, n) == FtInput ==> i == 0
    ensures forall i :: 0 <= i < n && RoleAt(i, n) == FtOutput ==> i == n - 1 && n >= 2
  {
  }

  // ---------------------------------------------------------------------
  // Output address and graph string (main, parse_protocol_name)
  // ---------------------------------------------------------------------

  /** Number of leading `sep` characters of s. */
  function SepRun(s: string, sep: char): (k: nat)
    ensures k <= |s|
    ensures forall i :: 0 <= i < k ==> s[i] == sep
    ensures k < |s| ==> s[k] != sep
  {
    if s != [] && s[0] == sep then 1 + SepRun(s[1..], sep) else 0
  }

  /**
   * parse_protocol_name: the first strtok token of the address, i.e. the
   * text before the first ':' once leading colons are skipped; None (NULL)
   * when the address has no character other than ':'.
   */
  function ParseProtocolName(addr: string): (r: Option<string>)
    ensures r.None? <==> forall i :: 0 <= i < |addr| ==> addr[i] == ':'
    ensures r.Some? ==> |r.value| > 0 && ':' !in r.value
    ensures r.Some? ==>
      var k := SepRun(addr, ':');
      k + |r.value| <= |addr| && addr[k..k + |r.value|] == r.value &&
      (k + |r.value| == |addr| || addr[k + |r.value|] == ':')
  {
    var k := SepRun(addr, ':');
    if k == |addr| then None
    else
      var n := RunLength(addr[k..], ':');
      assert addr[k..][0] == addr[k];
      assert forall c :: c in addr[k..][..n] ==> c != ':';
      Some(addr[k..][..n])
  }

  /** parse_protocol_name is the first of the tokens strtok would return. */
  lemma {:induction false} ProtocolNameIsFirstToken(addr: string)
    ensures ParseProtocolName(addr) ==
      (if Tokens(addr, ':') == [] then None else Some(Tokens(addr, ':')[0]))
    decreases |addr|
  {
    if addr != [] && addr[0] == ':' {
      ProtocolNameIsFirstToken(addr[1..]);
      assert SepRun(addr, ':') == 1 + SepRun(addr[1..], ':');
      assert addr[1..][SepRun(addr[1..], ':')..] == addr[SepRun(addr, ':')..];
    }
  }

  /**
   * The filter graph main builds with "cap:repeat:av:%s:%s": cap, repeat,
   * av, then "stat" when verbose or nothing, then the output protocol.
   */
  function GraphString(verbose: bool, protocol: string): (g: string)
    ensures |g| == |"cap:repeat:av:"| + (if verbose then 4 else 0) + 1 + |protocol|
    ensures g[..|"cap:repeat:av:"|] == "cap:repeat:av:"
    ensures g[|g| - |protocol| - 1] == ':' && g[|g| - |protocol|..] == protocol
  {
    var stat := if verbose then "stat" else "";
    "cap" + [':'] + "repeat" + [':'] + "av" + [':'] + stat + [':'] + protocol
  }

  /**
   * The graph main builds has the stages cap, repeat, av, then stat when
   * verbose (the empty slot is skipped otherwise), then the output protocol.
   */
  lemma GraphStages(verbose: bool, protocol: string)
    requires |protocol| > 0 && ':' !in protocol
    ensures Tokens(GraphString(verbose, protocol), ':') ==
      ["cap", "repeat", "av"] + (if verbose then ["stat"] else []) + [protocol]
  {
    var stat := if verbose then "stat" else "";
    FourSlots("cap", "repeat", "av", stat, protocol);
    if verbose {
      TokensSingle("stat", ':');
    }
  }

  /** Tokens of "a:b:c:d:e" when a, b, c and e are single tokens. */
  lemma FourSlots(a: string, b: string, c: string, d: string, e: string)
    requires |a| > 0 && ':' !in a && |b| > 0 && ':' !in b
    requires |c| > 0 && ':' !in c && |e| > 0 && ':' !in e
    ensures Tokens(a + [':'] + b + [':'] + c + [':'] + d + [':'] + e, ':') ==
      [a, b, c] + Tokens(d, ':') + [e]
  {
    var ab := a + [':'] + b;
    TokensSplit(a, ':', b);
    TokensSingle(a, ':');
    TokensSingle(b, ':');
    assert Tokens(ab, ':') == [a, b];
    var abc := ab + [':'] + c;
    TokensSplit(ab, ':', c);
    TokensSingle(c, ':');
    assert Tokens(abc, ':') == [a, b, c];
    var abcd := abc + [':'] + d;
    TokensSplit(abc, ':', d);
    TokensSplit(abcd, ':', e);
    TokensSingle(e, ':');
  }

  // ---------------------------------------------------------------------
  // Specifications of the executor's call sequences
  // ---------------------------------------------------------------------

  predicate HasInit(f: Filter?) { f != null && f.hasInit }
  predicate HasFini(f: Filter?) { f != null && f.hasFini }

  /** At most one call per stage below hi, in increasing stage order. */
  predicate Ascending(calls: seq<HookCall>, hi: nat)
  {
    |calls| <= hi &&
    (forall k :: 0 <= k < |calls| ==> calls[k].stage < hi) &&
    (forall k, l :: 0 <= k < l < |calls| ==> calls[k].stage < calls[l].stage)
  }

  /** The init calls of stages 0..hi-1 of the chain fs, stage k using block b0 + k. */
  function InitCalls(fs: seq<Filter?>, b0: nat, hi: nat): (calls: seq<HookCall>)
    requires hi <= |fs|
    ensures |calls| <= hi
  {
    if hi == 0 then []
    else
      var step := if HasInit(fs[hi - 1]) then [InitCall(hi - 1, RoleAt(hi - 1, |fs|), Blk(b0 + hi - 1))] else [];
      InitCalls(fs, b0, hi - 1) + step
  }

  /**
   * The fini calls of the rollback after stage `failed` failed, as written:
   * each earlier stage's fini runs while priv_data holds `data`, the state
   * block of the stage that failed.
   */
  function RollbackCalls(fs: seq<Filter?>, data: Block, hi: nat): (calls: seq<HookCall>)
    requires hi <= |fs|
    ensures |calls| <= hi
  {
    if hi == 0 then []
    else
      var step := if HasFini(fs[hi - 1]) then [FiniCall(hi - 1, data)] else [];
      RollbackCalls(fs, data, hi - 1) + step
  }

  /** The fini calls of stages 0..hi-1, each on its own block. */
  function FiniCalls(fs: seq<Filter?>, blocks: seq<Block>, hi: nat): (calls: seq<HookCall>)
    requires hi <= |fs| && hi <= |blocks|
    ensures |calls| <= hi
  {
    if hi == 0 then []
    else
      var step := if HasFini(fs[hi - 1]) then [FiniCall(hi - 1, blocks[hi - 1])] else [];
      FiniCalls(fs, blocks, hi - 1) + step
  }

  /** The blocks filters_init allocates for the first n stages: Blk(b0), ..., Blk(b0 + n - 1). */
  function Allocated(b0: nat, n: nat): (bs: seq<Block>)
    ensures |bs| == n && forall k :: 0 <= k < n ==> bs[k] == Blk(b0 + k)
  {
    if n == 0 then [] else Allocated(b0, n - 1) + [Blk(b0 + n - 1)]
  }

  /** The first stage at or after i whose init is present and fails; |fs| if none. */
  function FirstFailure(fs: seq<Filter?>, initRet: nat -> int, i: nat): (k: nat)
    requires i <= |fs|
    ensures i <= k <= |fs|
    decreases |fs| - i
  {
    if i == |fs| then i
    else if HasInit(fs[i]) && initRet(i) < 0 then i
    else FirstFailure(fs, initRet, i + 1)
  }

  /**
   * FirstFailure is the first failing stage: every stage before it has no
   * init or an init that succeeds, and the stage it names has an init that
   * fails.
   */
  lemma {:induction false} FirstFailureIsFirst(fs: seq<Filter?>, initRet: nat -> int, i: nat)
    requires i <= |fs|
    ensures var k := FirstFailure(fs, initRet, i);
      (forall j :: i <= j < k ==> !HasInit(fs[j]) || initRet(j) >= 0) &&
      (k < |fs| ==> HasInit(fs[k]) && initRet(k) < 0)
    decreases |fs| - i
  {
    if i < |fs| && !(HasInit(fs[i]) && initRet(i) < 0) {
      FirstFailureIsFirst(fs, initRet, i + 1);
    }
  }

  /** What the init of stage k returns: its hook's result, or 0 without a hook. */
  function InitResult(fs: seq<Filter?>, initRet: nat -> int, k: nat): int
    requires k < |fs|
  {
    if HasInit(fs[k]) then initRet(k) else 0
  }

  /**
   * The rollback defect: once at least one earlier stage with a fini
   * exists, the rollback hands that stage the failed stage's block and
   * never its own.
   */
  lemma RollbackHandsFailedBlock(fs: seq<Filter?>, b0: nat, failed: nat, j: nat)
    requires j < failed < |fs| && HasFini(fs[j])
    ensures FiniCall(j, Blk(b0 + failed)) in RollbackCalls(fs, Blk(b0 + failed), failed)
    ensures FiniCall(j, Blk(b0 + j)) !in RollbackCalls(fs, Blk(b0 + failed), failed)
  {
    RollbackCallsShape(fs, Blk(b0 + failed), failed, j);
  }

  /**
   * filters_init's init calls: one per stage below hi that has an init, in
   * stage order, each with the stage's positional role and its own block.
   */
  lemma {:induction false} InitCallsShape(fs: seq<Filter?>, b0: nat, hi: nat)
    requires hi <= |fs|
    ensures Ascending(InitCalls(fs, b0, hi), hi)
    ensures forall c :: c in InitCalls(fs, b0, hi) ==>
      c.InitCall? && c.stage < hi && HasInit(fs[c.stage]) &&
      c.role == RoleAt(c.stage, |fs|) && c.data == Blk(b0 + c.stage)
    ensures forall j :: 0 <= j < hi && HasInit(fs[j]) ==> InitCall(j, RoleAt(j, |fs|), Blk(b0 + j)) in InitCalls(fs, b0, hi)
  {
    if hi > 0 {
      InitCallsShape(fs, b0, hi - 1);
    }
  }

  lemma {:induction false} RollbackCallsShape(fs: seq<Filter?>, data: Block, hi: nat, j: nat)
    requires hi <= |fs|
    ensures Ascending(RollbackCalls(fs, data, hi), hi)
    ensures forall c :: c in RollbackCalls(fs, data, hi) ==> c.FiniCall? && c.data == data && c.stage < hi
    ensures j < hi && HasFini(fs[j]) ==> FiniCall(j, data) in RollbackCalls(fs, data, hi)
  {
    if hi > 0 {
      RollbackCallsShape(fs, data, hi - 1, j);
    }
  }

  /** In the corrected rollback each fini runs on its own stage's block. */
  lemma {:induction false} FiniCallsOwnBlocks(fs: seq<Filter?>, blocks: seq<Block>, hi: nat)
    requires hi <= |fs| && hi <= |blocks|
    ensures Ascending(FiniCalls(fs, blocks, hi), hi)
    ensures forall c :: c in FiniCalls(fs, blocks, hi) ==>
      c.FiniCall? && c.stage < hi && c.data == blocks[c.stage] && HasFini(fs[c.stage])
    ensures forall j :: 0 <= j < hi && HasFini(fs[j]) ==> FiniCall(j, blocks[j]) in FiniCalls(fs, blocks, hi)
  {
    if hi > 0 {
      FiniCallsOwnBlocks(fs, blocks, hi - 1);
    }
  }

  // ---------------------------------------------------------------------
  // One tick (apply_filters) and the run loop (av_thread)
  // ---------------------------------------------------------------------

  /** What apply_filters returns: the result, the packet, and how many stages ran. */
  datatype TickOutcome = TickOutcome(ret: int, pkt: Packet, ran: nat)

  predicate Fatal(r: int) { r < 0 && r != EAGAIN }

  /**
   * apply_filters from stage i on, `last` being the result of the stage
   * before: run each stage on the packet the previous one left, go on past
   * EAGAIN, stop after the first other negative result.
   */
  function Tick(apply: (nat, Packet) -> (int, Packet), pkt: Packet, i: nat, n: nat, last: int): (o: TickOutcome)
    ensures i <= n ==> i <= o.ran <= n
    decreases n - i
  {
    if i >= n then TickOutcome(last, pkt, i)
    else
      var (r, p) := apply(i, pkt);
      if Fatal(r) then TickOutcome(r, p, i + 1) else Tick(apply, p, i + 1, n, r)
  }

  /** The packet stage k is handed in a tick that starts with pkt. */
  function StageInput(apply: (nat, Packet) -> (int, Packet), pkt: Packet, k: nat): Packet
  {
    if k == 0 then pkt else apply(k - 1, StageInput(apply, pkt, k - 1)).1
  }

  function StageResult(apply: (nat, Packet) -> (int, Packet), pkt: Packet, k: nat): int
  {
    apply(k, StageInput(apply, pkt, k)).0
  }

  /**
   * The per-tick rule. Every stage before the last one that ran gave a
   * result that is not fatal (non-negative, or EAGAIN), and each ran on the
   * packet its predecessor left; the tick stops early only on a fatal
   * result, one that is negative and not EAGAIN; the result is that of the
   * last stage that ran, or -1 for an empty chain.
   */
  lemma TickRule(apply: (nat, Packet) -> (int, Packet), pkt: Packet, n: nat)
    ensures var o := Tick(apply, pkt, 0, n, -1);
      o.ran <= n &&
      (n == 0 ==> o.ran == 0 && o.ret == -1 && o.pkt == pkt) &&
      (n > 0 ==> o.ran >= 1 && o.ret == StageResult(apply, pkt, o.ran - 1) &&
                 o.pkt == StageInput(apply, pkt, o.ran)) &&
      (forall k :: 0 <= k < o.ran - 1 ==> !Fatal(StageResult(apply, pkt, k))) &&
      (o.ran < n ==> Fatal(o.ret))
  {
    if n > 0 {
      TickFrom(apply, pkt, 0, n, -1);
    }
  }

  lemma {:induction false} TickFrom(apply: (nat, Packet) -> (int, Packet), pkt: Packet, i: nat, n: nat, last: int)
    requires i < n
    requires forall k :: 0 <= k < i ==> !Fatal(StageResult(apply, pkt, k))
    ensures var o := Tick(apply, StageInput(apply, pkt, i), i, n, last);
      i < o.ran <= n && o.ret == StageResult(apply, pkt, o.ran - 1) &&
      o.pkt == StageInput(apply, pkt, o.ran) &&
      (forall k :: 0 <= k < o.ran - 1 ==> !Fatal(StageResult(apply, pkt, k))) &&
      (o.ran < n ==> Fatal(o.ret))
    decreases n - i
  {
    var r := StageResult(apply, pkt, i);
    assert StageInput(apply, pkt, i + 1) == apply(i, StageInput(apply, pkt, i)).1;
    if !Fatal(r) && i + 1 < n {
      TickFrom(apply, pkt, i + 1, n, r);
    }
  }

  /** The apply calls of stages 0..hi-1 on their blocks. */
  function ApplyCalls(blocks: seq<Block>, hi: nat): seq<HookCall>
    requires hi <= |blocks|
  {
    if hi == 0 then [] else ApplyCalls(blocks, hi - 1) + [ApplyCall(hi - 1, blocks[hi - 1])]
  }

  /** The stage behaviour in tick t. */
  function AtTick(hooks: (nat, nat, Packet) -> (int, Packet), t: nat): (nat, Packet) -> (int, Packet)
  {
    (i: nat, p: Packet) => hooks(t, i, p)
  }

  /** What av_thread's loop leaves: ticks run, last tick result, packet, apply calls made. */
  datatype RunOutcome = RunOutcome(ticks: nat, ret: int, pkt: Packet, calls: seq<HookCall>)

  /**
   * av_thread's loop from tick t on, with `hooks(t, i, p)` the outcome of
   * stage i's apply in tick t and the abort flag observed set before tick
   * abortAt. A tick with a fatal result ends the loop; EAGAIN and success
   * go on to the next tick.
   */
  function Run(hooks: (nat, nat, Packet) -> (int, Packet), blocks: seq<Block>, n: nat,
               pkt: Packet, t: nat, abortAt: nat, ret: int, acc: seq<HookCall>): (o: RunOutcome)
    requires n <= |blocks|
    ensures t <= o.ticks
    ensures o.ticks <= abortAt || o.ticks == t
    decreases abortAt - t
  {
    if t >= abortAt then RunOutcome(t, ret, pkt, acc)
    else
      var o := Tick(AtTick(hooks, t), pkt, 0, n, -1);
      var acc' := acc + ApplyCalls(blocks, o.ran);
      if Fatal(o.ret) then RunOutcome(t + 1, o.ret, o.pkt, acc')
      else Run(hooks, blocks, n, o.pkt, t + 1, abortAt, o.ret, acc')
  }

  /** The packet tick u starts with, when tick t started with pkt. */
  function PacketAt(hooks: (nat, nat, Packet) -> (int, Packet), n: nat, pkt: Packet, t: nat, u: nat): Packet
    requires t <= u
    decreases u - t
  {
    if u == t then pkt else PacketAt(hooks, n, Tick(AtTick(hooks, t), pkt, 0, n, -1).pkt, t + 1, u)
  }

  /** What tick u does, when tick t started with pkt. */
  function TickAt(hooks: (nat, nat, Packet) -> (int, Packet), n: nat, pkt: Packet, t: nat, u: nat): TickOutcome
    requires t <= u
  {
    Tick(AtTick(hooks, u), PacketAt(hooks, n, pkt, t, u), 0, n, -1)
  }

  /**
   * The run loop ends either because the abort flag was seen (after exactly
   * abortAt ticks) or right after the first tick whose result was fatal:
   * every tick before the last one had a result that is not fatal, and the
   * loop's result is that of its last tick.
   */
  lemma {:induction false} RunEnds(hooks: (nat, nat, Packet) -> (int, Packet), blocks: seq<Block>, n: nat,
                                   pkt: Packet, t: nat, abortAt: nat, ret: int, acc: seq<HookCall>)
    requires n <= |blocks| && t <= abortAt
    ensures var o := Run(hooks, blocks, n, pkt, t, abortAt, ret, acc);
      o.ticks <= abortAt && (o.ticks < abortAt ==> Fatal(o.ret)) &&
      (t == abortAt ==> o.ret == ret && o.pkt == pkt && o.calls == acc) &&
      (forall u :: t <= u < o.ticks - 1 ==> !Fatal(TickAt(hooks, n, pkt, t, u).ret)) &&
      (t < o.ticks ==> o.ret == TickAt(hooks, n, pkt, t, o.ticks - 1).ret) &&
      |acc| <= |o.calls| && o.calls[..|acc|] == acc
    decreases abortAt - t
  {
    if t < abortAt {
      var o := Tick(AtTick(hooks, t), pkt, 0, n, -1);
      var acc' := acc + ApplyCalls(blocks, o.ran);
      assert TickAt(hooks, n, pkt, t, t) == o;
      if !Fatal(o.ret) {
        RunEnds(hooks, blocks, n, o.pkt, t + 1, abortAt, o.ret, acc');
        assert acc'[..|acc|] == acc;
        forall u | t < u
          ensures TickAt(hooks, n, pkt, t, u) == TickAt(hooks, n, o.pkt, t + 1, u)
        {
          assert PacketAt(hooks, n, pkt, t, u) == PacketAt(hooks, n, o.pkt, t + 1, u);
        }
      }
    }
  }

  // ---------------------------------------------------------------------
  // The transcode context
  // ---------------------------------------------------------------------

  /**
   * add_filter asserts that every name it is given is registered; it is
   * only given the first MAX_FILTERS names of the graph.
   */
  predicate FirstStagesRegistered(ns: seq<Filter>, names: seq<string>)
  {
    forall k :: 0 <= k < |names| && k < MAX_FILTERS ==> Lookup(ns, names[k]) != null
  }

  class TranscodeContext {
    /** ST_VIDEO or ST_AUDIO */
    const streamType: int
    var filterGraph: string
    const filters: array<Filter?>
    var nbFilters: nat
    const filterData: array<Block>
    var privData: Block
    /** Every hook call made so far, with the block priv_data held at the time. */
    var calls: seq<HookCall>
    /** The allocator: the number the next block gets, and every pointer handed to av_freep so far. */
    var nextBlock: nat
    var freed: seq<Block>
    /** The `aborted` flag; av_thread sets it when it ends. */
    var aborted: bool

    ghost predicate Valid()
      reads this, filters, filterData
    {
      filters.Length == MAX_FILTERS && filterData.Length == MAX_FILTERS &&
      nbFilters <= MAX_FILTERS &&
      forall k :: 0 <= k < nbFilters ==> filters[k] != null
    }

    /** The chain: the descriptors of the stages added so far. */
    ghost function Stages(): (fs: seq<Filter?>)
      reads this`nbFilters, filters
      requires filters.Length == MAX_FILTERS && nbFilters <= MAX_FILTERS
      ensures |fs| == nbFilters
    {
      filters[..nbFilters]
    }

    /** The context main sets up: stream type, graph string, all else zero. */
    constructor (streamType: int, filterGraph: string)
      ensures Valid() && fresh(filters) && fresh(filterData)
      ensures this.streamType == streamType && this.filterGraph == filterGraph
      ensures nbFilters == 0 && privData == Null && calls == [] && freed == [] && !aborted
      ensures forall k :: 0 <= k < MAX_FILTERS ==> filters[k] == null && filterData[k] == Null
    {
      this.streamType := streamType;
      this.filterGraph := filterGraph;
      filters := new Filter?[MAX_FILTERS](_ => null);
      filterData := new Block[MAX_FILTERS](_ => Null);
      nbFilters := 0;
      privData := Null;
      calls := [];
      nextBlock := 0;
      freed := [];
      aborted := false;
    }

    /**
     * add_filter: refuse (-1, nothing changed) when the chain is full;
     * otherwise append the descriptor registered under `name`. An unknown
     * name fails an assertion in the source, hence the precondition.
     */
    method AddFilter(reg: FilterList, name: string) returns (ret: int)
      requires Valid() && reg.Valid()
      requires nbFilters < MAX_FILTERS ==> Lookup(reg.nodes, name) != null
      modifies this`nbFilters, filters
      ensures Valid()
      ensures old(nbFilters) == MAX_FILTERS ==>
        ret == -1 && nbFilters == MAX_FILTERS && filters[..] == old(filters[..])
      ensures old(nbFilters) < MAX_FILTERS ==>
        ret == 0 && nbFilters == old(nbFilters) + 1 &&
        filters[..] == old(filters[..])[old(nbFilters) := Lookup(reg.nodes, name)]
    {
      if nbFilters == MAX_FILTERS {
        return -1;
      }
      var filter := reg.FindFilter(name);
      filters[nbFilters] := filter;
      nbFilters := nbFilters + 1;
      ret := 0;
    }

    /**
     * init_filters: clear the context, then add one stage per strtok token
     * of the graph string, stopping at the first add_filter failure. -1 when
     * there is no token or more than MAX_FILTERS of them.
     */
    method InitFilters(reg: FilterList) returns (ret: int)
      requires Valid() && reg.Valid()
      requires FirstStagesRegistered(reg.nodes, Tokens(filterGraph, ':'))
      modifies this`nbFilters, this`privData, filters, filterData
      ensures Valid()
      ensures var ts := Tokens(filterGraph, ':');
        nbFilters == (if |ts| < MAX_FILTERS then |ts| else MAX_FILTERS) &&
        (forall k :: 0 <= k < nbFilters ==> filters[k] == Lookup(reg.nodes, ts[k])) &&
        ret == (if |ts| == 0 || |ts| > MAX_FILTERS then -1 else 0)
      ensures forall k :: nbFilters <= k < MAX_FILTERS ==> filters[k] == null
      ensures forall k :: 0 <= k < MAX_FILTERS ==> filterData[k] == Null
      ensures privData == Null
    {
      var names := Tokens(filterGraph, ':');
      ret := -1;
      forall k | 0 <= k < MAX_FILTERS {
        filters[k] := null;
      }
      nbFilters := 0;
      forall k | 0 <= k < MAX_FILTERS {
        filterData[k] := Null;
      }
      privData := Null;

      var i := 0;
      while i < |names|
        invariant 0 <= i <= |names| && i <= MAX_FILTERS
        invariant Valid() && nbFilters == i
        invariant forall k :: 0 <= k < i ==> filters[k] == Lookup(reg.nodes, names[k])
        invariant forall k :: i <= k < MAX_FILTERS ==> filters[k] == null
        invariant forall k :: 0 <= k < MAX_FILTERS ==> filterData[k] == Null
        invariant i == 0 ==> ret == -1
        invariant i > 0 ==> ret == 0
        invariant privData == Null
        invariant FirstStagesRegistered(reg.nodes, names)
      {
        ret := AddFilter(reg, names[i]);
        if ret < 0 {
          break;
        }
        i := i + 1;
      }
    }

    /** av_mallocz for stage i: the next block number, stored in filter_data[i] and priv_data. */
    method Allocate(i: nat)
      requires Valid() && i < MAX_FILTERS
      modifies this`privData, this`nextBlock, filterData
      ensures Valid()
      ensures nextBlock == old(nextBlock) + 1 && privData == Blk(old(nextBlock))
      ensures forall k :: 0 <= k < MAX_FILTERS ==>
        filterData[k] == if k == i then Blk(old(nextBlock)) else old(filterData[k])
    {
      var blk := Blk(nextBlock);
      nextBlock := nextBlock + 1;
      filterData[i] := blk;
      privData := blk;
    }

    /** av_freep(filter_data + k): free the block, if any, and clear the slot. */
    method Free(k: nat)
      requires Valid() && k < MAX_FILTERS
      modifies this`freed, filterData
      ensures Valid()
      ensures forall j :: 0 <= j < MAX_FILTERS ==>
        filterData[j] == if j == k then Null else old(filterData[j])
      ensures freed == old(freed) + [old(filterData[k])]
    {
      freed := freed + [filterData[k]];
      filterData[k] := Null;
    }

    /**
     * One iteration of filters_init: allocate a zeroed block for stage i,
     * point priv_data at it, and call the stage's init with its role.
     */
    method InitStage(i: nat, initRet: nat -> int) returns (ret: int)
      requires Valid() && i < nbFilters
      modifies this`privData, this`calls, this`nextBlock, filterData
      ensures Valid()
      ensures nextBlock == old(nextBlock) + 1 && privData == Blk(old(nextBlock))
      ensures forall k :: 0 <= k < MAX_FILTERS ==>
        filterData[k] == if k == i then Blk(old(nextBlock)) else old(filterData[k])
      ensures ret == InitResult(Stages(), initRet, i)
      ensures calls == old(calls) +
        (if HasInit(Stages()[i]) then [InitCall(i, RoleAt(i, nbFilters), Blk(old(nextBlock)))] else [])
    {
      Allocate(i);
      var role := if i == 0 then FtInput else if i == nbFilters - 1 then FtOutput else FtFilter;
      var filter := filters[i];
      if filter.hasInit {
        calls := calls + [InitCall(i, role, privData)];
        ret := initRet(i);
      } else {
        ret := 0;
      }
    }

    /**
     * The init loop of filters_init: give stages 0, 1, ... fresh blocks and
     * call their inits until one fails (`failed` is its index) or every
     * stage is initialised (`failed` is the chain length).
     */
    method InitStages(initRet: nat -> int) returns (ret: int, failed: nat)
      requires Valid()
      modifies this`privData, this`calls, this`nextBlock, filterData
      ensures Valid()
      ensures failed == FirstFailure(Stages(), initRet, 0)
      ensures var n := if failed < nbFilters then failed + 1 else nbFilters;
        calls == old(calls) + InitCalls(Stages(), old(nextBlock), n) &&
        nextBlock == old(nextBlock) + n &&
        forall k :: 0 <= k < MAX_FILTERS ==>
          filterData[k] == if k < n then Blk(old(nextBlock) + k) else old(filterData[k])
      ensures nbFilters == 0 ==> ret == -1
      ensures failed < nbFilters ==> ret == initRet(failed) && ret < 0
      ensures 0 < nbFilters == failed ==> ret == InitResult(Stages(), initRet, nbFilters - 1) && ret >= 0
    {
      ret := -1;
      ghost var b0, fs, orig := nextBlock, Stages(), filterData[..];
      var i := 0;
      while i < nbFilters
        invariant 0 <= i <= nbFilters && Valid() && Stages() == fs
        invariant FirstFailure(fs, initRet, 0) == FirstFailure(fs, initRet, i)
        invariant i > 0 ==> ret == InitResult(fs, initRet, i - 1) && ret >= 0
        invariant i == 0 ==> ret == -1
        invariant calls == old(calls) + InitCalls(fs, b0, i)
        invariant nextBlock == b0 + i
        invariant forall k :: 0 <= k < MAX_FILTERS ==>
          filterData[k] == if k < i then Blk(b0 + k) else orig[k]
      {
        ret := InitStage(i, initRet);
        assert Stages()[i] == fs[i];
        if ret < 0 {
          return ret, i;
        }
        i := i + 1;
      }
      failed := i;
    }

    /**
     * The rollback of filters_init as written (arpcap.c:207-213): for every
     * stage j before the failed one, set priv_data to filter_data[failed]
     * (not filter_data[j]), call j's fini, then free filter_data[j].
     */
    method Rollback(failed: nat)
      requires Valid() && failed < nbFilters
      modifies this`privData, this`calls, this`freed, filterData
      ensures Valid()
      ensures calls == old(calls) + RollbackCalls(Stages(), old(filterData[failed]), failed)
      ensures forall k :: 0 <= k < MAX_FILTERS ==>
        filterData[k] == if k < failed then Null else old(filterData[k])
      ensures freed == old(freed) + old(filterData[..failed])
    {
      var j := 0;
      while j < failed
        invariant 0 <= j <= failed && Valid()
        invariant calls == old(calls) + RollbackCalls(Stages(), old(filterData[failed]), j)
        invariant forall k :: 0 <= k < MAX_FILTERS ==>
          filterData[k] == if k < j then Null else old(filterData[k])
        invariant freed == old(freed) + old(filterData[..j])
      {
        var filter := filters[j];
        privData := filterData[failed];
        if filter.hasFini {
          calls := calls + [FiniCall(j, privData)];
        }
        Free(j);
        assert old(filterData[..j + 1]) == old(filterData[..j]) + [old(filterData[j])];
        j := j + 1;
      }
    }

    /**
     * filters_init as written. For an empty chain -1. Otherwise the stages
     * are given fresh blocks and initialised in order with their positional
     * roles; at the first init that fails, the earlier stages are rolled back
     * (see Rollback: their fini receives the failed stage's block), their
     * blocks are freed and the failed stage's block is not. priv_data is
     * NULL afterwards.
     */
    method FiltersInit(initRet: nat -> int) returns (ret: int)
      requires Valid()
      modifies this`privData, this`calls, this`nextBlock, this`freed, filterData
      ensures Valid() && privData == Null
      ensures nbFilters == 0 ==>
        ret == -1 && calls == old(calls) && nextBlock == old(nextBlock) && freed == old(freed)
      ensures 0 < nbFilters && FirstFailure(Stages(), initRet, 0) == nbFilters ==>
        ret == InitResult(Stages(), initRet, nbFilters - 1) && ret >= 0 &&
        calls == old(calls) + InitCalls(Stages(), old(nextBlock), nbFilters) &&
        nextBlock == old(nextBlock) + nbFilters && freed == old(freed) &&
        filterData[..nbFilters] == Allocated(old(nextBlock), nbFilters)
      ensures var f := FirstFailure(Stages(), initRet, 0);
        f < nbFilters ==>
          ret == initRet(f) && ret < 0 &&
          calls == old(calls) + InitCalls(Stages(), old(nextBlock), f + 1) +
                   RollbackCalls(Stages(), Blk(old(nextBlock) + f), f) &&
          nextBlock == old(nextBlock) + f + 1 && freed == old(freed) + Allocated(old(nextBlock), f) &&
          (forall k :: 0 <= k < f ==> filterData[k] == Null) && filterData[f] == Blk(old(nextBlock) + f)
      ensures forall k :: nbFilters <= k < MAX_FILTERS ==> filterData[k] == old(filterData[k])
    {
      ghost var b0 := nextBlock;
      var failed;
      ret, failed := InitStages(initRet);
      ghost var fs := Stages();
      if failed < nbFilters {
        ghost var callsBefore := calls;
        assert filterData[..failed] == Allocated(b0, failed);
        assert filterData[failed] == Blk(b0 + failed);
        Rollback(failed);
        assert Stages() == fs;
        assert calls == callsBefore + RollbackCalls(fs, Blk(b0 + failed), failed);
      } else if 0 < nbFilters {
        assert filterData[..nbFilters] == Allocated(b0, nbFilters);
      }
      privData := Null;
    }

    /**
     * filters_init with the rollback corrected: each earlier stage's fini
     * runs on its own block, and the failed stage's block is freed as well,
     * so that nothing filters_init allocated outlives a failed call.
     */
    method FiltersInitCorrected(initRet: nat -> int) returns (ret: int)
      requires Valid()
      modifies this`privData, this`calls, this`nextBlock, this`freed, filterData
      ensures Valid() && privData == Null
      ensures nbFilters == 0 ==>
        ret == -1 && calls == old(calls) && nextBlock == old(nextBlock) && freed == old(freed)
      ensures 0 < nbFilters && FirstFailure(Stages(), initRet, 0) == nbFilters ==>
        ret == InitResult(Stages(), initRet, nbFilters - 1) && ret >= 0 &&
        calls == old(calls) + InitCalls(Stages(), old(nextBlock), nbFilters) &&
        nextBlock == old(nextBlock) + nbFilters && freed == old(freed) &&
        filterData[..nbFilters] == Allocated(old(nextBlock), nbFilters)
      ensures var f := FirstFailure(Stages(), initRet, 0);
        f < nbFilters ==>
          ret == initRet(f) && ret < 0 &&
          calls == old(calls) + InitCalls(Stages(), old(nextBlock), f + 1) +
                   FiniCalls(Stages(), Allocated(old(nextBlock), f + 1), f) &&
          nextBlock == old(nextBlock) + f + 1 && freed == old(freed) + Allocated(old(nextBlock), f + 1) &&
          forall k :: 0 <= k <= f ==> filterData[k] == Null
      ensures forall k :: nbFilters <= k < MAX_FILTERS ==> filterData[k] == old(filterData[k])
    {
      ghost var b0 := nextBlock;
      var failed;
      ret, failed := InitStages(initRet);
      ghost var fs := Stages();
      if failed < nbFilters {
        ghost var callsBefore := calls;
        assert filterData[..failed + 1] == Allocated(b0, failed + 1);
        assert filterData[..failed] == Allocated(b0, failed);
        FiniStages(failed + 1, failed);
        assert Stages() == fs;
      } else if 0 < nbFilters {
        assert filterData[..nbFilters] == Allocated(b0, nbFilters);
      }
      privData := Null;
    }

    /**
     * The loop of filters_fini over stages 0..n-1: priv_data is set to the
     * stage's block, its fini (if any) is called for stages below `finis`,
     * and the block is freed.
     */
    method FiniStages(n: nat, finis: nat)
      requires Valid() && finis <= n <= nbFilters
      modifies this`privData, this`calls, this`freed, filterData
      ensures Valid()
      ensures calls == old(calls) + FiniCalls(Stages(), old(filterData[..n]), finis)
      ensures forall k :: 0 <= k < MAX_FILTERS ==>
        filterData[k] == if k < n then Null else old(filterData[k])
      ensures freed == old(freed) + old(filterData[..n])
      ensures 0 < n ==> privData == old(filterData[n - 1])
      ensures n == 0 ==> privData == old(privData)
    {
      ghost var orig, fs := filterData[..], Stages();
      var i := 0;
      while i < n
        invariant 0 <= i <= n && Valid() && Stages() == fs
        invariant calls == old(calls) + FiniCalls(fs, orig[..n], if i < finis then i else finis)
        invariant forall k :: 0 <= k < MAX_FILTERS ==> filterData[k] == if k < i then Null else orig[k]
        invariant freed == old(freed) + orig[..i]
        invariant 0 < i ==> privData == orig[i - 1]
        invariant i == 0 ==> privData == old(privData)
      {
        var filter := filters[i];
        privData := filterData[i];
        if filter.hasFini && i < finis {
          calls := calls + [FiniCall(i, privData)];
        }
        if i < finis {
          assert FiniCalls(fs, orig[..n], i + 1) ==
            FiniCalls(fs, orig[..n], i) + (if HasFini(fs[i]) then [FiniCall(i, orig[..n][i])] else []);
        }
        Free(i);
        assert orig[..i + 1] == orig[..i] + [orig[i]];
        i := i + 1;
      }
    }

    /**
     * filters_fini: for every stage in order, point priv_data at its block,
     * call its fini if it has one, free the block. priv_data is left
     * pointing at the last stage's (freed) block.
     */
    method FiltersFini()
      requires Valid()
      modifies this`privData, this`calls, this`freed, filterData
      ensures Valid()
      ensures calls == old(calls) + FiniCalls(Stages(), old(filterData[..nbFilters]), nbFilters)
      ensures forall k :: 0 <= k < MAX_FILTERS ==>
        filterData[k] == if k < nbFilters then Null else old(filterData[k])
      ensures freed == old(freed) + old(filterData[..nbFilters])
      ensures 0 < nbFilters ==> privData == old(filterData[nbFilters - 1])
    {
      FiniStages(nbFilters, nbFilters);
    }

    /**
     * apply_filter: call stage `index`'s apply with priv_data pointing at
     * its block; priv_data is NULL again afterwards.
     */
    method ApplyFilter(index: nat, pkt: Packet, apply: (nat, Packet) -> (int, Packet))
      returns (ret: int, out: Packet)
      requires Valid() && index < nbFilters
      modifies this`privData, this`calls
      ensures (ret, out) == apply(index, pkt)
      ensures calls == old(calls) + [ApplyCall(index, filterData[index])]
      ensures privData == Null
    {
      privData := filterData[index];
      calls := calls + [ApplyCall(index, privData)];
      var r := apply(index, pkt);
      ret, out := r.0, r.1;
      privData := Null;
    }

    /**
     * apply_filters: one tick of the chain (see Tick and TickRule for what
     * it computes). The stages that ran were called in order, each on its
     * own block.
     */
    method ApplyFilters(pkt: Packet, apply: (nat, Packet) -> (int, Packet)) returns (ret: int, out: Packet)
      requires Valid()
      modifies this`privData, this`calls
      ensures var o := Tick(apply, pkt, 0, nbFilters, -1);
        ret == o.ret && out == o.pkt && o.ran <= nbFilters &&
        calls == old(calls) + ApplyCalls(filterData[..nbFilters], o.ran)
      ensures nbFilters > 0 ==> privData == Null
    {
      ret := -1;
      out := pkt;
      var i := 0;
      while i < nbFilters
        invariant 0 <= i <= nbFilters && Valid()
        invariant Tick(apply, pkt, 0, nbFilters, -1) == Tick(apply, out, i, nbFilters, ret)
        invariant calls == old(calls) + ApplyCalls(filterData[..nbFilters], i)
        invariant i > 0 ==> privData == Null
      {
        ret, out := ApplyFilter(i, out, apply);
        if Fatal(ret) {
          assert Tick(apply, pkt, 0, nbFilters, -1) == TickOutcome(ret, out, i + 1);
          return;
        }
        i := i + 1;
      }
    }

    /**
     * av_thread: initialise the chain (the source asserts this succeeds),
     * run ticks on one packet that persists from tick to tick until the
     * abort flag is seen (before tick abortAt) or a tick fails, then
     * finalise every stage and set the abort flag. `hooks(t, i, p)` is what
     * stage i's apply does to packet p in tick t.
     */
    method AvThread(initRet: nat -> int, hooks: (nat, nat, Packet) -> (int, Packet), abortAt: nat)
      returns (ghost run: RunOutcome)
      requires Valid() && 0 < nbFilters
      requires FirstFailure(Stages(), initRet, 0) == nbFilters
      modifies this`privData, this`calls, this`nextBlock, this`freed, this`aborted, filterData
      ensures Valid() && aborted
      ensures var b0 := old(nextBlock);
        var blocks := Allocated(b0, nbFilters);
        run == Run(hooks, blocks, nbFilters, Unreferenced, 0, abortAt, InitResult(Stages(), initRet, nbFilters - 1), []) &&
        calls == old(calls) + InitCalls(Stages(), b0, nbFilters) + run.calls +
                 FiniCalls(Stages(), blocks, nbFilters) &&
        nextBlock == b0 + nbFilters && freed == old(freed) + Allocated(b0, nbFilters)
    {
      ghost var b0 := nextBlock;
      var ret := FiltersInit(initRet);
      run := RunTicks(hooks, abortAt, ret);
      FiltersFini();
      aborted := true;
    }

    /**
     * The loop of av_thread: one packet, initially empty, carried from tick
     * to tick; a tick returning EAGAIN or success is followed by the next
     * one, a fatal tick ends the loop, and so does the abort flag, seen set
     * before tick abortAt.
     */
    method RunTicks(hooks: (nat, nat, Packet) -> (int, Packet), abortAt: nat, ret0: int)
      returns (ghost run: RunOutcome)
      requires Valid()
      modifies this`privData, this`calls
      ensures run == Run(hooks, filterData[..nbFilters], nbFilters, Unreferenced, 0, abortAt, ret0, [])
      ensures calls == old(calls) + run.calls
    {
      ghost var blocks := filterData[..nbFilters];
      var ret := ret0;
      var pkt := Unreferenced;
      var t := 0;
      ghost var acc: seq<HookCall> := [];
      while t < abortAt
        invariant t <= abortAt && Valid()
        invariant calls == old(calls) + acc
        invariant Run(hooks, blocks, nbFilters, Unreferenced, 0, abortAt, ret0, []) ==
                  Run(hooks, blocks, nbFilters, pkt, t, abortAt, ret, acc)
      {
        var apply := AtTick(hooks, t);
        ghost var o := Tick(apply, pkt, 0, nbFilters, -1);
        ret, pkt := ApplyFilters(pkt, apply);
        acc := acc + ApplyCalls(blocks, o.ran);
        t := t + 1;
        if Fatal(ret) {
          break;
        }
      }
      run := RunOutcome(t, ret, pkt, acc);
    }
  }
}
