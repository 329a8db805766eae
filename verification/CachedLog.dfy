/**
  The log on top of the buffer cache, with any number of processes: one state
  holds the processes and the log of LogSystem and the buffers of bio.c.  A step is
  a critical section of the cache, or an action of LogSystem together with what it
  does to the buffers that its process holds.
 */
module CachedLog {
  import opened Common
  import opened Blocks
  import opened BufferList
  import opened BufferCache
  import opened CommitBuffers
  import Core = LogCore
  import Log = LogSystem

  /** order: the buffers, most recently released first. */
  datatype State = State(sys: Log.Sys, bs: seq<Buf>, order: seq<nat>)

  /** The critical sections of bio.c, on buffer k; `at` is its place in the list. */
  datatype CacheOp = Get(k: nat, b: nat) | Lock(k: nat) | Load(k: nat) | Unlock(k: nat) | Drop(k: nat, at: nat)

  // ----------------------------------------------------------- cache steps

  /** The least recently released of the reusable buffers. */
  ghost predicate Victim(bs: seq<Buf>, order: seq<nat>, k: nat)
    requires |bs| == NBUF + 1 && Distinct(order)
  {
    k < NBUF && Reusable(bs[k])
    && exists i :: 0 <= i < |order| && order[i] == k && forall j | i < j < |order| :: !Reusable(bs[order[j]])
  }

  function Recycled(v: Buf, b: nat): Buf {
    v.(dev := 1, blockno := b, valid := false, dirty := false, refcnt := 1)
  }

  ghost predicate CacheStep(disk: seq<Block>, op: CacheOp, bs: seq<Buf>, order: seq<nat>, bs': seq<Buf>,
                            order': seq<nat>)
    requires |bs| == NBUF + 1 && Distinct(order)
  {
    match op
    case Get(k, b) =>
      && k < NBUF && b < |disk| && order' == order
      && if Names(bs[k], 1, b) then bs' == bs[k := bs[k].(refcnt := bs[k].refcnt + 1)]
         else !Named(bs, b) && Victim(bs, order, k) && bs' == bs[k := Recycled(bs[k], b)]
    case Lock(k) =>
      && k < NBUF && bs[k].refcnt > 0 && !bs[k].locked
      && bs' == bs[k := bs[k].(locked := true)] && order' == order
    case Load(k) =>
      && k < NBUF && bs[k].locked && bs[k].blockno < |disk| && order' == order
      && bs' == if bs[k].valid then bs else bs[k := bs[k].(valid := true, data := disk[bs[k].blockno])]
    case Unlock(k) => k < NBUF && bs[k].locked && bs' == bs[k := bs[k].(locked := false)] && order' == order
    case Drop(k, at) =>
      && k < NBUF && bs[k].refcnt > 0 && (bs[k].locked ==> bs[k].refcnt > 1) && at < |order| && order[at] == k
      && var v := bs[k := bs[k].(refcnt := bs[k].refcnt - 1)];
         if bs[k].refcnt > 1 then bs' == v && order' == order
         else Released(v, k, bs') && order' == [k] + Without(order, at)
  }

  /** brelse moves the buffer to the front of the list. */
  predicate Released(bs: seq<Buf>, k: nat, bs': seq<Buf>)
    requires |bs| == NBUF + 1 && k < NBUF
  {
    && bs[k].next <= NBUF && bs[k].prev <= NBUF && bs[k].prev != k && Unlink(bs, k)[HEAD].next <= NBUF
    && bs' == PushFront(Unlink(bs, k), k)
  }

  // ------------------------------------------------------------- log steps

  /** Some process has block b locked in buffer k, and loaded. */
  predicate Holding(bs: seq<Buf>, k: nat, b: nat)
    requires |bs| == NBUF + 1
  {
    k < NBUF && Names(bs[k], 1, b) && bs[k].locked && bs[k].valid
  }

  /** The block that a round of commit or recovery writes; the one it copies from, if it copies. */
  function WritesTo(L: Core.Layout, c: Core.Core): nat {
    match c.pc
    case WriteLog(t) => if t < |c.lh| then L.Slot(t) else L.start
    case Install(t) => if t < |c.lh| then c.lh[t] else L.start
    case _ => L.start
  }

  function CopiesFrom(L: Core.Layout, c: Core.Core): Option<nat> {
    match c.pc
    case WriteLog(t) => if t < |c.lh| then Some(c.lh[t]) else None
    case Install(t) => if t < |c.lh| then Some(L.Slot(t)) else None
    case _ => None
  }

  /** What the round puts into buffer k: a copy of buffer `from`, or the new header. */
  function NewData(L: Core.Layout, c: Core.Core, bs: seq<Buf>, k: nat, from: nat): Block
    requires Core.Sized(L, c) && |bs| == NBUF + 1 && k < NBUF && from < NBUF
  {
    if CopiesFrom(L, c).Some? then bs[from].data
    else if c.pc.WriteLog? then Core.PutEntries(bs[k].data, c.lh, |c.lh|)
    else Core.PutEntries(bs[k].data, [], 0)
  }

  /** The buffers after an action of the log: log_write pins, a disk write is a bwrite, a crash clears the cache. */
  ghost predicate LogEffect(L: Core.Layout, s: Log.Sys, a: Log.Action, k: nat, from: nat, bs: seq<Buf>, bs': seq<Buf>)
    requires Core.Sized(L, s.core) && |bs| == NBUF + 1
  {
    match a
    case DoWrite(_, b, data) => Holding(bs, k, b) && bs' == bs[k := bs[k].(data := data, dirty := true)]
    case DiskWrite(_) =>
      && Holding(bs, k, WritesTo(L, s.core)) && from < NBUF
      && (CopiesFrom(L, s.core).Some? ==> Holding(bs, from, CopiesFrom(L, s.core).value))
      && if s.core.pc.Boot? then bs' == bs
         else bs' == bs[k := bs[k].(data := NewData(L, s.core, bs, k, from), dirty := false)]
    case CrashNow => bs' == FreshCache()
    case _ => bs' == bs
  }

  /** binit: all buffers unused, in one circle. */
  function FreshCache(): (bs: seq<Buf>)
    ensures |bs| == NBUF + 1
  {
    seq(NBUF + 1, i requires 0 <= i <= NBUF =>
      if i == HEAD then Buf(0, 0, false, false, false, 0, ZeroBlock(), 0, NBUF - 1)
      else Buf(0, 0, false, false, false, 0, ZeroBlock(), i + 1, if i == 0 then HEAD else i - 1))
  }

  function FreshOrder(): (order: seq<nat>)
    ensures Distinct(order) && |order| == NBUF
  {
    seq(NBUF, i requires 0 <= i < NBUF => NBUF - 1 - i)
  }

  // ------------------------------------------------------------ the machine

  datatype Move = Cached(op: CacheOp) | Logged(a: Log.Action, k: nat, from: nat)

  ghost predicate Next(L: Core.Layout, st: State, x: Move, st': State)
    requires Core.Sized(L, st.sys.core) && |st.bs| == NBUF + 1 && Distinct(st.order)
  {
    match x
    case Cached(op) => st'.sys == st.sys && CacheStep(st.sys.core.disk, op, st.bs, st.order, st'.bs, st'.order)
    case Logged(a, k, from) =>
      && Log.Next(L, st.sys, a, st'.sys) && LogEffect(L, st.sys, a, k, from, st.bs, st'.bs)
      && st'.order == if a.CrashNow? then FreshOrder() else st.order
  }

  // ------------------------------------------------------------- invariant

  /** The cache is what the log takes it for: same disk, same contents, same pinned blocks. */
  ghost predicate CacheOk(c: Core.Core, bs: seq<Buf>, order: seq<nat>) {
    && Linked(bs, order) && |order| == NBUF && Unique(bs) && Coherent(bs, c.disk, {})
    && Contents(bs, c.disk) == c.mem && Tracks(bs, c.dirty)
  }

  /** The blocks of a transaction that are not yet installed. */
  function Rest(c: Core.Core): seq<nat> {
    if c.pc.Install? && c.pc.tail <= |c.lh| then c.lh[c.pc.tail..] else c.lh
  }

  /** A commit keeps them pinned; a recovery has pinned none. */
  ghost predicate RestPinned(s: Log.Sys) {
    s.committing ==> s.core.dirty == Core.Elems(Rest(s.core))
  }

  ghost predicate Inv(L: Core.Layout, st: State) {
    Log.SysInv(L, st.sys) && CacheOk(st.sys.core, st.bs, st.order) && RestPinned(st.sys)
  }

  lemma FreshOk(c: Core.Core)
    requires c.mem == c.disk && c.dirty == {}
    ensures CacheOk(c, FreshCache(), FreshOrder())
  {
    FreshLinked();
    NothingCached(FreshCache(), c.disk);
    NoneDirty(FreshCache());
  }

  lemma FreshLinked()
    ensures Linked(FreshCache(), FreshOrder())
  {
    var bs, order := FreshCache(), FreshOrder();
    forall i | 0 <= i <= NBUF
      ensures LinkedAt(bs, order, i)
    {
    }
  }

  lemma NoneDirty(bs: seq<Buf>)
    requires |bs| == NBUF + 1 && forall i | 0 <= i < NBUF :: !bs[i].dirty
    ensures Tracks(bs, {})
  {
  }

  // ----------------------------------------------------- cache steps keep it

  /** One buffer changes neither identity nor dirtiness nor links. */
  lemma QuietChange(c: Core.Core, bs: seq<Buf>, order: seq<nat>, k: nat, v: Buf)
    requires CacheOk(c, bs, order) && k < NBUF
    requires v == bs[k].(refcnt := v.refcnt, locked := v.locked) && BufOk(v, c.disk, false)
    ensures CacheOk(c, bs[k := v], order)
  {
    hide Contents;
    PayloadKeepsLinks(bs, order, k, v);
    SamePayload(bs, bs[k := v], c.disk);
    TracksSame(bs, bs[k := v], c.dirty);
    CoherentAt(bs, c.disk, k, v);
  }

  lemma CoherentAt(bs: seq<Buf>, disk: seq<Block>, k: nat, v: Buf)
    requires |bs| == NBUF + 1 && Coherent(bs, disk, {}) && k < NBUF && BufOk(v, disk, false)
    ensures Coherent(bs[k := v], disk, {})
  {
    var bs' := bs[k := v];
    forall i | 0 <= i < NBUF
      ensures BufOk(bs'[i], disk, i in {})
    {
      assert BufOk(bs[i], disk, i in {});
    }
  }

  lemma BufOkAt(bs: seq<Buf>, disk: seq<Block>, k: nat)
    requires |bs| == NBUF + 1 && Coherent(bs, disk, {}) && k < NBUF
    ensures BufOk(bs[k], disk, false)
  {
    assert BufOk(bs[k], disk, k in {});
  }

  lemma GetKeeps(c: Core.Core, bs: seq<Buf>, order: seq<nat>, k: nat, b: nat)
    requires CacheOk(c, bs, order) && k < NBUF && b < |c.disk| && Reusable(bs[k]) && !Named(bs, b)
    ensures CacheOk(c, bs[k := Recycled(bs[k], b)], order)
  {
    hide Contents;
    var v := Recycled(bs[k], b);
    BufOkAt(bs, c.disk, k);
    PayloadKeepsLinks(bs, order, k, v);
    assert forall i | 0 <= i < NBUF :: !Names(bs[i], 1, b);
    RecycleShowsNothing(bs, c.disk, {}, k, v);
    TracksSame(bs, bs[k := v], c.dirty);
    CoherentAt(bs, c.disk, k, v);
  }

  lemma LoadKeeps(c: Core.Core, bs: seq<Buf>, order: seq<nat>, k: nat)
    requires CacheOk(c, bs, order) && k < NBUF && bs[k].locked && !bs[k].valid && bs[k].blockno < |c.disk|
    ensures CacheOk(c, bs[k := bs[k].(valid := true, data := c.disk[bs[k].blockno])], order)
  {
    hide Contents;
    var v := bs[k].(valid := true, data := c.disk[bs[k].blockno]);
    BufOkAt(bs, c.disk, k);
    PayloadKeepsLinks(bs, order, k, v);
    ReadIn(bs, c.disk, {}, k, v);
    TracksSame(bs, bs[k := v], c.dirty);
    CoherentAt(bs, c.disk, k, v);
  }

  lemma ReleaseKeeps(c: Core.Core, bs: seq<Buf>, order: seq<nat>, k: nat, at: nat, bs': seq<Buf>)
    requires CacheOk(c, bs, order) && k < NBUF && at < |order| && order[at] == k && Released(bs, k, bs')
    ensures CacheOk(c, bs', [k] + Without(order, at)) && SameBut(bs, bs')
  {
    hide Contents, Unlink, PushFront;
    MoveToFront(bs, order, at);
    LinksShowNothing(bs, bs', c.disk, {});
    SameButTracks(bs, bs', c.dirty);
  }

  lemma SameButTracks(bs: seq<Buf>, bs': seq<Buf>, d: set<nat>)
    requires Tracks(bs, d) && SameBut(bs, bs')
    ensures Tracks(bs', d)
  {
    forall i | 0 <= i < NBUF
      ensures bs'[i].dirty == bs[i].dirty && Names(bs'[i], bs[i].dev, bs[i].blockno)
    {
      assert bs'[i].(next := 0, prev := 0) == bs[i].(next := 0, prev := 0);
    }
    TracksSame(bs, bs', d);
  }

  /** No critical section of the cache changes what the log relies on. */
  lemma CacheKeeps(c: Core.Core, op: CacheOp, bs: seq<Buf>, order: seq<nat>, bs': seq<Buf>, order': seq<nat>)
    requires CacheOk(c, bs, order) && CacheStep(c.disk, op, bs, order, bs', order')
    ensures CacheOk(c, bs', order')
  {
    hide CacheOk, Released, Named;
    CacheParts(c, bs, order);
    BufOkAt(bs, c.disk, op.k);
    match op
    case Get(k, b) =>
      if Names(bs[k], 1, b) {
        QuietChange(c, bs, order, k, bs[k].(refcnt := bs[k].refcnt + 1));
      } else {
        GetKeeps(c, bs, order, k, b);
      }
    case Lock(k) => QuietChange(c, bs, order, k, bs[k].(locked := true));
    case Load(k) => if !bs[k].valid { LoadKeeps(c, bs, order, k); }
    case Unlock(k) => QuietChange(c, bs, order, k, bs[k].(locked := false));
    case Drop(k, at) =>
      var v := bs[k].(refcnt := bs[k].refcnt - 1);
      QuietChange(c, bs, order, k, v);
      if bs[k].refcnt == 1 { ReleaseKeeps(c, bs[k := v], order, k, at, bs'); }
  }

  lemma CacheParts(c: Core.Core, bs: seq<Buf>, order: seq<nat>)
    requires CacheOk(c, bs, order)
    ensures |bs| == NBUF + 1 && Coherent(bs, c.disk, {}) && Unique(bs) && |order| == NBUF && Distinct(order)
    ensures Linked(bs, order) && Tracks(bs, c.dirty) && Contents(bs, c.disk) == c.mem
  {
  }

  // ------------------------------------------------------- log steps keep it

  /** A held buffer has the contents that the log takes its block to have. */
  lemma HeldData(c: Core.Core, bs: seq<Buf>, order: seq<nat>, k: nat, b: nat)
    requires CacheOk(c, bs, order) && Holding(bs, k, b)
    ensures b < |c.disk| == |c.mem| && bs[k].data == c.mem[b]
  {
    BufOkAt(bs, c.disk, k);
    ContentHeld(bs, c.disk, k, b);
  }

  lemma PinKeeps(L: Core.Layout, c: Core.Core, bs: seq<Buf>, order: seq<nat>, k: nat, b: nat, data: Block)
    requires Core.Sized(L, c) && L.Home(b) && CacheOk(c, bs, order) && Holding(bs, k, b)
    ensures CacheOk(Core.LogWrite(L, c, b, data), bs[k := bs[k].(data := data, dirty := true)], order)
  {
    hide Contents;
    var v := bs[k].(data := data, dirty := true);
    HeldData(c, bs, order, k, b);
    PayloadKeepsLinks(bs, order, k, v);
    StoreShows(bs, c.disk, c.disk, k, v);
    TracksPin(bs, k, b, data, c.dirty);
    BufOkAt(bs, c.disk, k);
    CoherentAt(bs, c.disk, k, v);
  }

  /** bwrite of new data: buffer, disk and the log's picture of both change alike. */
  lemma FlushKeeps(c: Core.Core, bs: seq<Buf>, order: seq<nat>, k: nat, b: nat, data: Block, c': Core.Core)
    requires CacheOk(c, bs, order) && Holding(bs, k, b) && b < |c.disk| == |c.mem|
    requires c'.disk == c.disk[b := data] && c'.mem == c.mem[b := data] && c'.dirty == c.dirty - {b}
    ensures CacheOk(c', bs[k := bs[k].(data := data, dirty := false)], order)
  {
    hide Contents;
    var v := bs[k].(data := data, dirty := false);
    PayloadKeepsLinks(bs, order, k, v);
    StoreShows(bs, c.disk, c'.disk, k, v);
    TracksFlush(bs, k, b, data, c.dirty);
    FlushCoherent(bs, c.disk, k, b, data);
  }

  lemma FlushCoherent(bs: seq<Buf>, disk: seq<Block>, k: nat, b: nat, data: Block)
    requires Unique(bs) && Coherent(bs, disk, {}) && Holding(bs, k, b) && b < |disk|
    ensures Coherent(bs[k := bs[k].(data := data, dirty := false)], disk[b := data], {})
  {
    var bs', disk' := bs[k := bs[k].(data := data, dirty := false)], disk[b := data];
    forall i: nat | i < NBUF
      ensures BufOk(bs'[i], disk', i in {})
    {
      BufOkAt(bs, disk, i);
      OnlyOne(bs, b, k, i);
    }
  }

  /** The data that the round computes from buffers is the data of LogCore's step. */
  lemma StepData(L: Core.Layout, c: Core.Core, c': Core.Core, bs: seq<Buf>, order: seq<nat>, k: nat, from: nat)
    requires Core.Sized(L, c) && Core.Step(L, c, c') && !c.pc.Boot? && CacheOk(c, bs, order)
    requires Holding(bs, k, WritesTo(L, c)) && from < NBUF
    requires CopiesFrom(L, c).Some? ==> Holding(bs, from, CopiesFrom(L, c).value)
    ensures var b, data := WritesTo(L, c), NewData(L, c, bs, k, from);
      && b < |c.disk| == |c.mem| && c'.disk == c.disk[b := data] && c'.mem == c.mem[b := data]
      && c'.dirty == c.dirty - {b}
  {
    hide CacheOk, Core.PutEntries;
    HeldData(c, bs, order, k, WritesTo(L, c));
    if CopiesFrom(L, c).Some? { HeldData(c, bs, order, from, CopiesFrom(L, c).value); }
  }

  lemma LogKeepsCache(L: Core.Layout, st: State, a: Log.Action, k: nat, from: nat, st': State)
    requires Inv(L, st) && Core.Sized(L, st.sys.core) && |st.bs| == NBUF + 1 && Distinct(st.order)
    requires Next(L, st, Logged(a, k, from), st')
    ensures CacheOk(st'.sys.core, st'.bs, st'.order)
  {
    hide CacheOk, Log.SysInv, Core.Sized, Core.Step, NewData;
    var c := st.sys.core;
    match a
    case DoWrite(p, b, data) => PinKeeps(L, c, st.bs, st.order, k, b, data);
    case DiskWrite(c') =>
      if c.pc.Boot? {
        ReadHeadSame(L, c, c');
        SameCore(c, c', st.bs, st.order);
      } else {
        StepData(L, c, c', st.bs, st.order, k, from);
        FlushKeeps(c, st.bs, st.order, k, WritesTo(L, c), NewData(L, c, st.bs, k, from), c');
      }
    case CrashNow => FreshOk(st'.sys.core);
    case _ => SameCore(c, st'.sys.core, st.bs, st.order);
  }

  lemma ReadHeadSame(L: Core.Layout, c: Core.Core, c': Core.Core)
    requires Core.Sized(L, c) && c.pc.Boot? && Core.Step(L, c, c')
    ensures c'.disk == c.disk && c'.mem == c.mem && c'.dirty == c.dirty
  {
    hide Core.HeaderOf;
  }

  lemma SameCore(c: Core.Core, c': Core.Core, bs: seq<Buf>, order: seq<nat>)
    requires CacheOk(c, bs, order) && c'.disk == c.disk && c'.mem == c.mem && c'.dirty == c.dirty
    ensures CacheOk(c', bs, order)
  {
  }

  /** While a transaction is served or copied to the log, its blocks are the pinned ones; then those not installed. */
  lemma RestKeeps(L: Core.Layout, s: Log.Sys, a: Log.Action, s': Log.Sys)
    requires Log.SysInv(L, s) && RestPinned(s) && Log.Next(L, s, a, s') && Log.SysInv(L, s')
    ensures RestPinned(s')
  {
    hide Log.ProcsOk, Log.ReservationOk, Core.HeaderOf, Core.HeaderFits, Core.PutEntries;
    if a.EndOp? { Log.OpMeansOutstanding(s, a.p); }
    if s'.committing && s'.core.pc.Install? && a.DiskWrite? {
      if s.core.pc.Install? {
        OneInstalled(L, s.core);
      } else {
        assert s.core.lh[0..] == s.core.lh && L.start !in s.core.lh;
      }
    }
  }

  lemma OneInstalled(L: Core.Layout, c: Core.Core)
    requires Core.Sized(L, c) && c.pc.Install? && c.pc.tail < |c.lh|
    ensures Core.Elems(c.lh[c.pc.tail + 1..]) == Core.Elems(c.lh[c.pc.tail..]) - {c.lh[c.pc.tail]}
  {
    var t := c.pc.tail;
    assert c.lh[t..] == [c.lh[t]] + c.lh[t + 1..];
    assert forall i | t < i < |c.lh| :: c.lh[i] != c.lh[t];
  }

  /** Every step of processes, log and cache together keeps them in agreement. */
  lemma NextKeeps(L: Core.Layout, st: State, x: Move, st': State)
    requires Inv(L, st) && Core.Sized(L, st.sys.core) && |st.bs| == NBUF + 1 && Distinct(st.order)
    requires Next(L, st, x, st') && Log.Contained(L, st'.sys)
    ensures Inv(L, st')
  {
    hide CacheOk, Log.SysInv, Core.Sized, Log.Next, RestPinned, LogEffect, CacheStep;
    match x
    case Cached(op) => CacheKeeps(st.sys.core, op, st.bs, st.order, st'.bs, st'.order);
    case Logged(a, k, from) =>
      Log.NextKeeps(L, st.sys, a, st'.sys);
      RestKeeps(L, st.sys, a, st'.sys);
      LogKeepsCache(L, st, a, k, from, st');
  }

  // ------------------------------------------------------------- whole runs

  /** Power-on: recovery is about to begin, and nothing is cached. */
  ghost predicate Init(L: Core.Layout, st: State) {
    Log.Init(L, st.sys) && st.bs == FreshCache() && st.order == FreshOrder()
  }

  ghost predicate CanMove(L: Core.Layout, st: State, x: Move, st': State) {
    Core.Sized(L, st.sys.core) && |st.bs| == NBUF + 1 && Distinct(st.order) && Next(L, st, x, st')
  }

  ghost predicate IsRun(L: Core.Layout, run: seq<State>, moves: seq<Move>) {
    && |run| == |moves| + 1 && Init(L, run[0])
    && forall i | 0 <= i < |moves| :: CanMove(L, run[i], moves[i], run[i + 1])
  }

  lemma InitInv(L: Core.Layout, st: State)
    requires Init(L, st)
    ensures Inv(L, st)
  {
    hide CacheOk, Core.HeaderOf, Core.HeaderFits;
    Log.InitInv(L, st.sys);
    FreshOk(st.sys.core);
  }

  /**
    In every state of every run the cache answers for each block what the log takes
    it to hold, the disks are the same, and the dirty buffers are those that the log
    counts as pinned; under the condition of LogSystem.RunInv.
   */
  lemma {:induction false} RunInv(L: Core.Layout, run: seq<State>, moves: seq<Move>, i: nat)
    requires IsRun(L, run, moves) && i < |run| && (L.size > Core.LOGSIZE || Log.Contained(L, run[i].sys))
    ensures Inv(L, run[i])
  {
    hide Inv, Next, Init, Core.Sized;
    if i == 0 {
      InitInv(L, run[0]);
    } else {
      var j := i - 1;
      assert CanMove(L, run[j], moves[j], run[j + 1]);
      SizedContained(L, run[j].sys);
      RunInv(L, run, moves, j);
      if L.size > Core.LOGSIZE { StaysContained(L, run[j], moves[j], run[j + 1]); }
      NextKeeps(L, run[j], moves[j], run[j + 1]);
    }
  }

  lemma SizedContained(L: Core.Layout, s: Log.Sys)
    requires Core.Sized(L, s.core)
    ensures Log.Contained(L, s)
  {
  }

  lemma StaysContained(L: Core.Layout, st: State, x: Move, st': State)
    requires Inv(L, st) && CanMove(L, st, x, st') && L.size > Core.LOGSIZE
    ensures Log.Contained(L, st'.sys)
  {
    hide CacheOk, Log.SysInv, Log.Next, LogEffect, CacheStep, RestPinned;
    match x
    case Cached(_) => SizedContained(L, st.sys);
    case Logged(a, _, _) => Log.NextContained(L, st.sys, a, st'.sys);
  }

  // ------------------------------------------------------ when commit panics

  lemma RestPins(L: Core.Layout, st: State)
    requires Inv(L, st) && !st.sys.booting
    ensures Pins(st.bs, Rest(st.sys.core))
    ensures forall i, j | 0 <= i < j < |Rest(st.sys.core)| :: Rest(st.sys.core)[i] != Rest(st.sys.core)[j]
  {
    hide Core.HeaderOf, Core.HeaderFits, Contents, Linked, Log.ProcsOk, Log.ReservationOk;
    TracksPins(st.bs, Rest(st.sys.core));
  }

  /** In every run, outside recovery, the dirty buffers are exactly those of the logged blocks not yet installed. */
  lemma PinnedThroughout(L: Core.Layout, run: seq<State>, moves: seq<Move>, i: nat)
    requires IsRun(L, run, moves) && i < |run| && (L.size > Core.LOGSIZE || Log.Contained(L, run[i].sys))
    requires !run[i].sys.booting
    ensures Pins(run[i].bs, Rest(run[i].sys.core))
  {
    hide Inv, IsRun, Pins;
    RunInv(L, run, moves, i);
    RestPins(L, run[i]);
  }

  /** The block that a round of commit reads first: a log block, or the header block. */
  function ReadsFirst(L: Core.Layout, c: Core.Core): nat {
    match c.pc
    case WriteLog(t) => if t < |c.lh| then L.Slot(t) else L.start
    case Install(t) => if t < |c.lh| then L.Slot(t) else L.start
    case _ => L.start
  }

  /** The blocks that a round reads are the ones between which it copies, or the header. */
  lemma ReadsWhatItUses(L: Core.Layout, c: Core.Core)
    requires c.pc.WriteLog? || c.pc.Install?
    ensures CopiesFrom(L, c).Some? <==> c.pc.tail < |c.lh|
    ensures c.pc.tail < |c.lh| ==>
        {ReadsFirst(L, c), c.lh[c.pc.tail]} == {WritesTo(L, c), CopiesFrom(L, c).value}
    ensures c.pc.tail >= |c.lh| ==> ReadsFirst(L, c) == WritesTo(L, c)
  {
  }

  /**
    Any read of a commit: the home block of a round is pinned and found; the read of
    a log block or the header panics if and only if that block has no buffer, and
    pinned and held buffers use up the cache.
   */
  lemma CommitReadIff(L: Core.Layout, st: State)
    requires Inv(L, st) && st.sys.committing && !st.sys.core.pc.Serving?
    ensures var b := ReadsFirst(L, st.sys.core);
      Panics(st.bs, b) <==> !Named(st.bs, b) && |Rest(st.sys.core)| + |Held(st.bs)| == NBUF
    ensures var c := st.sys.core; (c.pc.WriteLog? || c.pc.Install?) && c.pc.tail < |c.lh| ==>
        !Panics(st.bs, c.lh[c.pc.tail])
  {
    hide Core.HeaderOf, Core.HeaderFits, Contents, Linked, Coherent, Tracks, Core.RestClean;
    var c := st.sys.core;
    RestPins(L, st);
    BreadPanicsIff(st.bs, Rest(c), ReadsFirst(L, c));
    if (c.pc.WriteLog? || c.pc.Install?) && c.pc.tail < |c.lh| {
      assert c.lh[c.pc.tail] in Rest(c);
      BreadPanicsIff(st.bs, Rest(c), c.lh[c.pc.tail]);
    }
  }

  // ------------------------------------------------------------ whole commits

  /** At moment i the commit that was started by step d is still under way. */
  ghost predicate Committing(run: seq<State>, moves: seq<Move>, d: nat, i: nat) {
    && d < |moves| < |run| && moves[d].Logged? && moves[d].a.StartCommit? && d < i < |run|
    && forall j | d < j <= i :: run[j].sys.committing && !run[j].sys.core.pc.Serving?
  }

  /** The transaction does not change until the log is cleared. */
  lemma {:induction false} SameTransaction(L: Core.Layout, run: seq<State>, moves: seq<Move>, d: nat, i: nat)
    requires IsRun(L, run, moves) && Committing(run, moves, d, i)
    ensures run[i].sys.core.lh == run[d].sys.core.lh
  {
    hide LogEffect, CacheStep, Init, Inv, Core.HeaderOf, Core.PutEntries;
    var j := i - 1;
    assert CanMove(L, run[j], moves[j], run[j + 1]);
    if d < j {
      SameTransaction(L, run, moves, d, j);
      SizedContained(L, run[j].sys);
      RunInv(L, run, moves, j);
      StepKeepsList(L, run[j], moves[j], run[i]);
    }
  }

  lemma StepKeepsList(L: Core.Layout, st: State, x: Move, st': State)
    requires Inv(L, st) && CanMove(L, st, x, st') && st.sys.committing && !st.sys.core.pc.Serving?
    requires st'.sys.committing && !st'.sys.core.pc.Serving?
    ensures st'.sys.core.lh == st.sys.core.lh
  {
    hide LogEffect, CacheStep, CacheOk, Core.Inv, Core.HeaderOf, Core.PutEntries;
    if x.Logged? && x.a.DoWrite? { Log.OpMeansOutstanding(st.sys, x.a.p); }
  }

  /** Some read of the round that is due panics: of the log block or header, or then of the home block. */
  ghost predicate RoundPanics(L: Core.Layout, st: State)
    requires |st.bs| == NBUF + 1
  {
    var c := st.sys.core;
    || Panics(st.bs, ReadsFirst(L, c))
    || ((c.pc.WriteLog? || c.pc.Install?) && c.pc.tail < |c.lh| && Panics(st.bs, c.lh[c.pc.tail]))
  }

  /** However many buffers others hold, a round that finds a buffer left does not panic. */
  lemma RoomToCommit(L: Core.Layout, run: seq<State>, moves: seq<Move>, d: nat, i: nat)
    requires IsRun(L, run, moves) && Committing(run, moves, d, i)
    requires L.size > Core.LOGSIZE || Log.Contained(L, run[i].sys)
    ensures |run[i].bs| == NBUF + 1
    ensures |run[d].sys.core.lh| + |Held(run[i].bs)| < NBUF ==> !RoundPanics(L, run[i])
  {
    hide IsRun, Panics, Held;
    RunInv(L, run, moves, i);
    SameTransaction(L, run, moves, d, i);
    CacheParts(run[i].sys.core, run[i].bs, run[i].order);
    hide Inv;
    CommitReadIff(L, run[i]);
  }

  /**
    A whole commit, all its rounds of write_log, write_head and install_trans, while
    no other process holds buffers: no read panics, if and only if the transaction has
    fewer blocks than the cache has buffers.
   */
  lemma WholeCommitIff(L: Core.Layout, run: seq<State>, moves: seq<Move>, d: nat)
    requires IsRun(L, run, moves) && d < |moves| && moves[d].Logged? && moves[d].a.StartCommit?
    requires L.size > Core.LOGSIZE || forall i | 0 <= i < |run| :: Log.Contained(L, run[i].sys)
    requires |run[d].bs| == NBUF + 1 && Held(run[d].bs) == {}
    ensures |run[d].sys.core.lh| < NBUF <==>
        forall i: nat | Committing(run, moves, d, i) && |run[i].bs| == NBUF + 1 && Held(run[i].bs) == {} ::
          !RoundPanics(L, run[i])
  {
    hide CanMove, Init, Held, RoundPanics;
    if |run[d].sys.core.lh| < NBUF {
      forall i: nat | Committing(run, moves, d, i) && |run[i].bs| == NBUF + 1 && Held(run[i].bs) == {}
        ensures !RoundPanics(L, run[i])
      {
        RoomToCommit(L, run, moves, d, i);
      }
    } else {
      FirstReadPanics(L, run, moves, d);
    }
  }

  lemma FirstReadPanics(L: Core.Layout, run: seq<State>, moves: seq<Move>, d: nat)
    requires IsRun(L, run, moves) && d < |moves| && moves[d].Logged? && moves[d].a.StartCommit?
    requires L.size > Core.LOGSIZE || Log.Contained(L, run[d + 1].sys)
    requires |run[d].bs| == NBUF + 1 && Held(run[d].bs) == {} && |run[d].sys.core.lh| >= NBUF
    ensures Committing(run, moves, d, d + 1) && run[d + 1].bs == run[d].bs && RoundPanics(L, run[d + 1])
  {
    hide Inv, Init, Core.Step, Core.HeaderOf, Held, Panics;
    assert CanMove(L, run[d], moves[d], run[d + 1]);
    RunInv(L, run, moves, d + 1);
    CommitHasBegun(L, run[d], moves[d], run[d + 1]);
    FullPanics(L, run[d + 1]);
  }

  lemma CommitHasBegun(L: Core.Layout, st: State, x: Move, st': State)
    requires CanMove(L, st, x, st') && x.Logged? && x.a.StartCommit? && Inv(L, st')
    ensures st'.sys.committing && st'.sys.core == st.sys.core.(pc := Core.WriteLog(0)) && st'.bs == st.bs
  {
    hide CacheOk, Core.Inv;
    Log.CommitterMeansCommitting(st'.sys, x.a.p);
  }

  lemma FullPanics(L: Core.Layout, st: State)
    requires Inv(L, st) && st.sys.committing && st.sys.core.pc == Core.WriteLog(0)
    requires |st.bs| == NBUF + 1 && Held(st.bs) == {} && |st.sys.core.lh| >= NBUF
    ensures Panics(st.bs, L.Slot(0)) && RoundPanics(L, st)
  {
    hide Core.HeaderOf, Core.HeaderFits, Contents, Linked, Coherent, Tracks, Held;
    RestPins(L, st);
    CommitReadPanicsIff(L, st.sys.core, st.bs);
  }

  /** Whoever holds the buffers of a round, whichever they are, can take the round. */
  lemma RoundGoesOn(L: Core.Layout, st: State, k: nat, from: nat) returns (x: Move, st': State)
    requires Inv(L, st) && (st.sys.committing || st.sys.booting) && !st.sys.core.pc.Serving?
    requires |st.bs| == NBUF + 1 && Holding(st.bs, k, WritesTo(L, st.sys.core)) && from < NBUF
    requires CopiesFrom(L, st.sys.core).Some? ==> Holding(st.bs, from, CopiesFrom(L, st.sys.core).value)
    ensures CanMove(L, st, x, st') && x.Logged? && x.a.DiskWrite? && x.k == k && x.from == from
  {
    hide Core.Inv, Core.Step, Coherent, Tracks, Contents, Unique, NewData;
    var a, sys' := Log.SomethingDrives(L, st.sys);
    var c, bs := st.sys.core, st.bs;
    var bs' := if c.pc.Boot? then bs else bs[k := bs[k].(data := NewData(L, c, bs, k, from), dirty := false)];
    x, st' := Logged(a, k, from), State(sys', bs', st.order);
  }
}
