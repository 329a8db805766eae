/**
  A run of CachedLog, step by step, in which three operations fill a log of more
  than LOGSIZE blocks: every buffer is pinned when the commit starts, and its first
  read panics.
 */
module FullLog {
  import opened Common
  import opened Blocks
  import opened BufferList
  import opened BufferCache
  import opened CommitBuffers
  import opened CachedLog
  import Core = LogCore
  import Log = LogSystem

  datatype Trace = Trace(run: seq<State>, moves: seq<Move>) {
    function Add(x: Move, st: State): Trace {
      Trace(run + [st], moves + [x])
    }
  }

  /** A run that has come to st. */
  ghost predicate Reaches(L: Core.Layout, t: Trace, st: State) {
    IsRun(L, t.run, t.moves) && t.run[|t.moves|] == st && Inv(L, st)
  }

  lemma Extend(L: Core.Layout, t: Trace, st: State, x: Move, st': State)
    requires Reaches(L, t, st) && CanMove(L, st, x, st') && Log.Contained(L, st'.sys)
    ensures Reaches(L, t.Add(x, st'), st')
  {
    hide CanMove, Init, Inv;
    MoveKeeps(L, st, x, st');
    var t' := t.Add(x, st');
    forall i | 0 <= i < |t'.moves|
      ensures CanMove(L, t'.run[i], t'.moves[i], t'.run[i + 1])
    {
      if i < |t.moves| { assert CanMove(L, t.run[i], t.moves[i], t.run[i + 1]); }
    }
  }

  lemma MoveKeeps(L: Core.Layout, st: State, x: Move, st': State)
    requires Inv(L, st) && CanMove(L, st, x, st') && Log.Contained(L, st'.sys)
    ensures Inv(L, st')
  {
    hide Inv, Next;
    NextKeeps(L, st, x, st');
  }

  lemma Facts(L: Core.Layout, st: State)
    requires Inv(L, st)
    ensures Core.Sized(L, st.sys.core) && Log.Contained(L, st.sys) && |st.sys.core.disk| == L.nblocks
    ensures |st.bs| == NBUF + 1 && Distinct(st.order) && |st.order| == NBUF && Linked(st.bs, st.order)
    ensures forall i: nat | i < NBUF :: BufOk(st.bs[i], st.sys.core.disk, false)
  {
    forall i: nat | i < NBUF {
      BufOkAt(st.bs, st.sys.core.disk, i);
    }
  }

  // --------------------------------------------------------- bread, brelse

  /** The cache is as before, but for buffer k, which holds block b. */
  ghost predicate Acquired(st: State, k: nat, b: nat, st': State) {
    && |st.bs| == |st'.bs| == NBUF + 1 && st'.sys == st.sys && st'.order == st.order
    && Holding(st'.bs, k, b) && st'.bs[k].refcnt == 1
    && (forall i | 0 <= i < NBUF && i != k :: st'.bs[i] == st.bs[i])
    && st'.bs[k].dirty == (Names(st.bs[k], 1, b) && st.bs[k].dirty)
  }

  /** bget gives buffer k for block b. */
  ghost predicate Obtains(st: State, k: nat, b: nat) {
    && |st.bs| == NBUF + 1 && Distinct(st.order) && k < NBUF && st.bs[k].refcnt == 0 && !st.bs[k].locked
    && (Names(st.bs[k], 1, b) || (!Named(st.bs, b) && Victim(st.bs, st.order, k)))
  }

  /** bread: bget, the lock, and the read if the buffer is new. */
  lemma Acquire(L: Core.Layout, t: Trace, st: State, k: nat, b: nat) returns (t': Trace, st': State)
    requires Reaches(L, t, st) && Obtains(st, k, b) && b < L.nblocks
    ensures Reaches(L, t', st') && Acquired(st, k, b, st')
  {
    hide IsRun, Inv, Named, Victim;
    Facts(L, st);
    var v := if Names(st.bs[k], 1, b) then st.bs[k].(refcnt := 1) else Recycled(st.bs[k], b);
    var st1 := st.(bs := st.bs[k := v]);
    Extend(L, t, st, Cached(Get(k, b)), st1);
    var st2 := st1.(bs := st1.bs[k := v.(locked := true)]);
    Extend(L, t.Add(Cached(Get(k, b)), st1), st1, Cached(Lock(k)), st2);
    t' := t.Add(Cached(Get(k, b)), st1).Add(Cached(Lock(k)), st2);
    st' := st2;
    if !v.valid {
      st' := st2.(bs := st2.bs[k := v.(locked := true, valid := true, data := st.sys.core.disk[b])]);
      Extend(L, t', st2, Cached(Load(k)), st');
      t' := t'.Add(Cached(Load(k)), st');
    }
  }

  /** The cache is as before, but for buffer k, which is free and in front. */
  ghost predicate Freed(st: State, k: nat, at: nat, st': State) {
    && |st.bs| == |st'.bs| == NBUF + 1 && st'.sys == st.sys && k < NBUF && at < |st.order| && st.order[at] == k
    && st'.order == [k] + Without(st.order, at)
    && SameBut(st.bs[k := st.bs[k].(refcnt := 0, locked := false)], st'.bs)
  }

  /** brelse: the lock is released, then the reference. */
  lemma Release(L: Core.Layout, t: Trace, st: State, k: nat, at: nat) returns (t': Trace, st': State)
    requires Reaches(L, t, st) && |st.bs| == NBUF + 1 && k < NBUF && st.bs[k].locked && st.bs[k].refcnt == 1
    requires at < |st.order| && st.order[at] == k
    ensures Reaches(L, t', st') && Freed(st, k, at, st')
  {
    hide IsRun, Inv, Unlink, PushFront;
    Facts(L, st);
    var st1 := st.(bs := st.bs[k := st.bs[k].(locked := false)]);
    Extend(L, t, st, Cached(Unlock(k)), st1);
    t' := t.Add(Cached(Unlock(k)), st1);
    var v := st1.bs[k := st1.bs[k].(refcnt := 0)];
    PayloadKeepsLinks(st1.bs, st.order, k, v[k]) by { Facts(L, st1); }
    UnlinkLinks(v, st.order, at);
    MoveToFront(v, st.order, at);
    st' := State(st.sys, PushFront(Unlink(v, k), k), [k] + Without(st.order, at));
    Extend(L, t', st1, Cached(Drop(k, at)), st');
    t' := t'.Add(Cached(Drop(k, at)), st');
    assert v == st.bs[k := st.bs[k].(refcnt := 0, locked := false)];
  }

  // ------------------------------------------------------------------ boot

  /** Nobody holds a buffer; the first n of the list are dirty; only the header block is cached clean. */
  ghost predicate Tidy(L: Core.Layout, st: State, n: nat) {
    && |st.bs| == NBUF + 1 && Distinct(st.order) && |st.order| == NBUF && (forall i: nat | i < NBUF :: i in st.order)
    && (forall i | 0 <= i < NBUF :: st.bs[i].refcnt == 0 && !st.bs[i].locked)
    && (forall j | 0 <= j < NBUF :: st.bs[st.order[j]].dirty <==> j < n)
    && (forall i | 0 <= i < NBUF && !st.bs[i].dirty && st.bs[i].dev == 1 :: st.bs[i].blockno == L.start)
  }

  lemma BootState(L: Core.Layout) returns (st: State)
    requires L.Valid()
    ensures Init(L, st) && st.sys.procs == [Log.Out, Log.Out, Log.Out] && st.sys.core.lh == []
    ensures Core.HeaderFits(st.sys.core.mem[L.start]) && Core.HeaderOf(st.sys.core.mem[L.start]) == []
  {
    hide GetWord;
    var disk := seq(L.nblocks, _ => ZeroBlock());
    ZeroWords(0);
    Log.EmptyHeader(ZeroBlock());
    var sys := Log.Sys(Core.Core(disk, disk, {}, [], Core.Boot), [Log.Out, Log.Out, Log.Out], 0, false, true);
    st := State(sys, FreshCache(), FreshOrder());
  }

  /** recover_from_log on an empty log: the header block is read, and written as it is. */
  lemma BootUp(L: Core.Layout) returns (t: Trace, st: State)
    requires L.Valid()
    ensures Reaches(L, t, st) && Tidy(L, st, 0) && st.sys.core.lh == [] && st.sys.core.pc.Serving?
    ensures !st.sys.booting && st.sys.procs == [Log.Out, Log.Out, Log.Out]
  {
    hide IsRun, Inv, Init, Core.HeaderOf, Core.HeaderFits;
    var st0 := BootState(L);
    t := Trace([st0], []);
    StartReaches(L, st0);
    FreshObtains(L, st0);
    var st1;
    t, st1 := Acquire(L, t, st0, 0, L.start);
    Facts(L, st1);
    var st2;
    t, st2 := ReadHeader(L, t, st1);
    var st3;
    t, st3 := Release(L, t, st2, 0, NBUF - 1);
    StartCached(L, st0, st2, st3);
    var st4;
    t, st4 := Acquire(L, t, st3, 0, L.start);
    var st5;
    t, st5 := ClearHeader(L, t, st4);
    t, st := Release(L, t, st5, 0, 0);
    TidyAgain(L, st3, st5, st);
  }

  lemma StartReaches(L: Core.Layout, st: State)
    requires Init(L, st)
    ensures Reaches(L, Trace([st], []), st)
    ensures st.sys.core.pc.Boot? && st.sys.booting && !st.sys.committing && st.sys.outstanding == 0
    ensures st.bs == FreshCache() && st.order == FreshOrder()
  {
    hide Inv;
    InitInv(L, st);
  }

  lemma FreshObtains(L: Core.Layout, st: State)
    requires st.bs == FreshCache() && st.order == FreshOrder()
    ensures Obtains(st, 0, L.start) && st.order[NBUF - 1] == 0
  {
    assert st.order[NBUF - 1] == 0;
  }

  lemma ReadHeader(L: Core.Layout, t: Trace, st: State) returns (t': Trace, st': State)
    requires Reaches(L, t, st) && st.sys.core.pc.Boot? && st.sys.booting
    requires |st.bs| == NBUF + 1 && Holding(st.bs, 0, L.start) && L.Valid() && |st.sys.core.mem| == L.nblocks
    requires Core.HeaderFits(st.sys.core.mem[L.start]) && Core.HeaderOf(st.sys.core.mem[L.start]) == []
    ensures Reaches(L, t', st') && st'.bs == st.bs && st'.order == st.order
    ensures st'.sys == st.sys.(core := st.sys.core.(lh := [], pc := Core.Install(0)))
  {
    hide IsRun, Inv, Core.HeaderOf, Core.HeaderFits;
    Facts(L, st);
    var c := Core.ReadHeadStep(L, st.sys.core);
    st' := st.(sys := st.sys.(core := c));
    var x := Logged(Log.DiskWrite(c), 0, 0);
    Extend(L, t, st, x, st');
    t' := t.Add(x, st');
  }

  lemma ClearHeader(L: Core.Layout, t: Trace, st: State) returns (t': Trace, st': State)
    requires Reaches(L, t, st) && st.sys.core.pc == Core.Install(0) && st.sys.core.lh == [] && st.sys.booting
    requires |st.bs| == NBUF + 1 && Holding(st.bs, 0, L.start)
    ensures Reaches(L, t', st') && st'.order == st.order && st'.sys.core.lh == [] && st'.sys.core.pc.Serving?
    ensures !st'.sys.booting && st'.sys.procs == st.sys.procs
    ensures |st'.bs| == NBUF + 1
    ensures st'.bs == st.bs[0 := st.bs[0].(data := st'.bs[0].data, dirty := false)]
  {
    hide IsRun, Inv, Core.HeaderOf, Core.HeaderFits, Core.PutEntries;
    Facts(L, st);
    var c := Core.ClearStep(L, st.sys.core);
    var bs' := st.bs[0 := st.bs[0].(data := NewData(L, st.sys.core, st.bs, 0, 0), dirty := false)];
    st' := State(st.sys.(core := c, booting := false), bs', st.order);
    var x := Logged(Log.DiskWrite(c), 0, 0);
    Extend(L, t, st, x, st');
    t' := t.Add(x, st');
  }

  lemma StartCached(L: Core.Layout, st0: State, st2: State, st3: State)
    requires st0.bs == FreshCache() && st0.order == FreshOrder() && Freed(st2, 0, NBUF - 1, st3)
    requires st2.order == st0.order && |st2.bs| == NBUF + 1 && Names(st2.bs[0], 1, L.start) && !st2.bs[0].dirty
    requires forall i | 0 <= i < NBUF && i != 0 :: st2.bs[i] == st0.bs[i]
    ensures Obtains(st3, 0, L.start) && |st3.order| == NBUF && st3.order[0] == 0
    ensures forall i | 0 <= i < NBUF :: st3.bs[i].refcnt == 0 && !st3.bs[i].locked && !st3.bs[i].dirty
    ensures forall i | 0 < i < NBUF :: st3.bs[i].dev == 0
    ensures forall i: nat | i < NBUF :: i in st3.order
  {
    FreshHasAll();
    FrontHasAll(st0.order, NBUF - 1);
    WithoutDistinct(st0.order, NBUF - 1);
    var bs := st2.bs[0 := st2.bs[0].(refcnt := 0, locked := false)];
    assert forall i | 0 <= i < NBUF :: st3.bs[i].(next := 0, prev := 0) == bs[i].(next := 0, prev := 0);
  }

  lemma FreshHasAll()
    ensures forall i: nat | i < NBUF :: i in FreshOrder()
  {
    forall i: nat | i < NBUF
      ensures i in FreshOrder()
    {
      assert FreshOrder()[NBUF - 1 - i] == i;
    }
  }

  lemma FrontHasAll(order: seq<nat>, at: nat)
    requires at < |order| && forall i: nat | i < NBUF :: i in order
    ensures forall i: nat | i < NBUF :: i in [order[at]] + Without(order, at)
  {
    forall i: nat | i < NBUF
      ensures i in [order[at]] + Without(order, at)
    {
      MovedHasAll(order, at, i);
    }
  }

  lemma TidyAgain(L: Core.Layout, st3: State, st5: State, st: State)
    requires |st3.order| == NBUF && Distinct(st3.order) && st3.order[0] == 0 && Freed(st5, 0, 0, st)
    requires st5.order == st3.order && |st3.bs| == |st5.bs| == NBUF + 1
    requires Names(st5.bs[0], 1, L.start) && !st5.bs[0].dirty
    requires forall i | 0 < i < NBUF :: st5.bs[i] == st3.bs[i]
    requires forall i | 0 <= i < NBUF :: st3.bs[i].refcnt == 0 && !st3.bs[i].locked && !st3.bs[i].dirty
    requires forall i | 0 < i < NBUF :: st3.bs[i].dev == 0
    requires forall i: nat | i < NBUF :: i in st3.order
    ensures Tidy(L, st, 0)
  {
    FrontHasAll(st3.order, 0);
    WithoutDistinct(st3.order, 0);
    var bs := st5.bs[0 := st5.bs[0].(refcnt := 0, locked := false)];
    assert forall i | 0 <= i < NBUF :: st.bs[i].(next := 0, prev := 0) == bs[i].(next := 0, prev := 0);
  }

  // ------------------------------------------------------- three operations

  /** k different blocks are logged, by three operations in turn, and k buffers are pinned. */
  ghost predicate Filled(L: Core.Layout, st: State, k: nat) {
    && Tidy(L, st, k) && !st.sys.booting && st.sys.core.lh == Log.Homes(L, k)
    && st.sys.procs ==
       [Log.InOp(Log.Spent(k, 0), false), Log.InOp(Log.Spent(k, 1), false), Log.InOp(Log.Spent(k, 2), false)]
  }

  lemma LogMove(L: Core.Layout, t: Trace, st: State, a: Log.Action, sys': Log.Sys) returns (t': Trace, st': State)
    requires Reaches(L, t, st) && !(a.DoWrite? || a.DiskWrite? || a.CrashNow?)
    requires Core.Sized(L, st.sys.core) && Log.Next(L, st.sys, a, sys') && Log.Contained(L, sys')
    ensures Reaches(L, t', st') && st' == st.(sys := sys')
  {
    hide IsRun, Inv, Log.Next, Core.Sized;
    Facts(L, st);
    st' := st.(sys := sys');
    Extend(L, t, st, Logged(a, 0, 0), st');
    t' := t.Add(Logged(a, 0, 0), st');
  }

  lemma ThreeBegin(L: Core.Layout) returns (t: Trace, st: State)
    requires L.Valid()
    ensures Reaches(L, t, st) && Filled(L, st, 0)
  {
    hide Reaches, Tidy, Core.Sized;
    var st0;
    t, st0 := BootUp(L);
    NobodyIn(L, t, st0);
    var s1 := Log.Begin(st0.sys, 0);
    var s2 := Log.Begin(s1, 1);
    var s3 := Log.Begin(s2, 2);
    var st1, st2;
    t, st1 := LogMove(L, t, st0, Log.BeginOp(0), s1);
    t, st2 := LogMove(L, t, st1, Log.BeginOp(1), s2);
    t, st := LogMove(L, t, st2, Log.BeginOp(2), s3);
    assert Log.Homes(L, 0) == [];
    TidySame(L, st0, st, 0);
  }

  lemma TidySame(L: Core.Layout, st: State, st': State, n: nat)
    requires Tidy(L, st, n) && st'.bs == st.bs && st'.order == st.order
    ensures Tidy(L, st', n)
  {
  }

  lemma NobodyIn(L: Core.Layout, t: Trace, st: State)
    requires Reaches(L, t, st) && st.sys.core.pc.Serving? && !st.sys.booting
    requires st.sys.procs == [Log.Out, Log.Out, Log.Out]
    ensures st.sys.outstanding == 0 && !st.sys.committing && Core.Sized(L, st.sys.core)
    ensures Log.Contained(L, st.sys)
  {
    Facts(L, st);
    Log.SumZero(st.sys.procs, Log.IsOp);
    Log.SumZero(st.sys.procs, Log.IsCommitter);
  }

  lemma PinHeld(L: Core.Layout, t: Trace, st: State, p: nat, k: nat, b: nat) returns (t': Trace, st': State)
    requires Reaches(L, t, st) && |st.bs| == NBUF + 1 && Holding(st.bs, k, b)
    requires !st.sys.booting && p < |st.sys.procs| && st.sys.procs[p].InOp? && st.sys.procs[p].passed
    requires L.Home(b) && st.sys.procs[p].spent < Core.MAXOPBLOCKS && b !in st.sys.core.lh
    requires |st.sys.core.lh| + 1 < L.size
    ensures Reaches(L, t', st') && st'.order == st.order && !st'.sys.booting && |st'.bs| == NBUF + 1
    ensures st'.bs == st.bs[k := st.bs[k].(data := ZeroBlock(), dirty := true)]
    ensures st'.sys.core.lh == st.sys.core.lh + [b]
    ensures st'.sys.procs == st.sys.procs[p := Log.InOp(st.sys.procs[p].spent + 1, false)]
  {
    hide IsRun, Inv;
    Facts(L, st);
    var a := Log.DoWrite(p, b, ZeroBlock());
    st' := State(Log.Write(L, st.sys, p, b, ZeroBlock()),
                 st.bs[k := st.bs[k].(data := ZeroBlock(), dirty := true)], st.order);
    Extend(L, t, st, Logged(a, k, 0), st');
    t' := t.Add(Logged(a, k, 0), st');
  }

  lemma NextVictim(L: Core.Layout, st: State, k: nat, b: nat)
    requires Inv(L, st) && Filled(L, st, k) && k < NBUF && L.Home(b) && b !in st.sys.core.lh
    ensures st.order[NBUF - 1] < NBUF && Obtains(st, st.order[NBUF - 1], b) && !Names(st.bs[st.order[NBUF - 1]], 1, b)
  {
    hide Core.HeaderOf, Core.HeaderFits, Contents, Linked, Core.RestClean;
    Log.OpMeansOutstanding(st.sys, 0);
    var v := st.order[NBUF - 1];
    assert !st.bs[v].dirty;
    forall i: nat | i < NBUF
      ensures !Names(st.bs[i], 1, b)
    {
      NotCachedAt(L, st, i, b);
    }
  }

  lemma NotCachedAt(L: Core.Layout, st: State, i: nat, b: nat)
    requires Inv(L, st) && |st.bs| == NBUF + 1 && i < NBUF && L.Home(b) && b !in st.sys.core.lh
    requires !st.sys.booting && !st.sys.committing
    requires !st.bs[i].dirty && st.bs[i].dev == 1 ==> st.bs[i].blockno == L.start
    ensures !Names(st.bs[i], 1, b)
  {
    hide Core.HeaderOf, Core.HeaderFits, Contents, Linked, Core.RestClean;
  }

  /** One more write: the block is brought in, logged and released. */
  lemma LogOne(L: Core.Layout, t: Trace, st: State, k: nat) returns (t': Trace, st': State)
    requires L.Valid() && L.size > Core.LOGSIZE && L.nblocks >= L.size + Core.LOGSIZE
    requires Reaches(L, t, st) && Filled(L, st, k) && k < Core.LOGSIZE
    ensures Reaches(L, t', st') && Filled(L, st', k + 1)
  {
    hide Reaches, Log.Homes, Log.HomeAt, Tidy, Inv;
    var p, b, v := k % 3, Log.HomeAt(L, k), LastOf(L, st, k);
    Log.HomesDiffer(L, k, k);
    Log.HomesCount(L, k);
    ReachesInv(L, t, st);
    NextVictim(L, st, k, b);
    var st1, st2, st3;
    t', st1 := Acquire(L, t, st, v, b);
    ReachesInv(L, t', st1);
    Facts(L, st1);
    t', st2 := LogMove(L, t', st1, Log.TestSize(p), Log.Pass(st1.sys, p));
    t', st3 := PinHeld(L, t', st2, p, v, b);
    t', st' := Release(L, t', st3, v, NBUF - 1);
    OneMorePinned(L, st, st3, st', k, v, b);
  }

  function LastOf(L: Core.Layout, st: State, k: nat): (v: nat)
    requires Tidy(L, st, k)
    ensures v < NBUF && v == st.order[NBUF - 1]
  {
    st.order[NBUF - 1]
  }

  lemma ReachesInv(L: Core.Layout, t: Trace, st: State)
    requires Reaches(L, t, st)
    ensures Inv(L, st)
  {
  }

  lemma OneMorePinned(L: Core.Layout, st: State, st3: State, st': State, k: nat, v: nat, b: nat)
    requires Tidy(L, st, k) && k < NBUF && v == st.order[NBUF - 1] && Freed(st3, v, NBUF - 1, st')
    requires st3.order == st.order && st3.bs[v].dirty
    requires forall i | 0 <= i < NBUF && i != v :: st3.bs[i] == st.bs[i]
    ensures Tidy(L, st', k + 1)
  {
    WithoutDistinct(st.order, NBUF - 1);
    FrontHasAll(st.order, NBUF - 1);
    var bs := st3.bs[v := st3.bs[v].(refcnt := 0, locked := false)];
    assert forall i | 0 <= i < NBUF :: st'.bs[i].(next := 0, prev := 0) == bs[i].(next := 0, prev := 0);
    assert st'.order == [v] + st.order[..NBUF - 1];
    forall j | 0 <= j < NBUF
      ensures st'.bs[st'.order[j]].dirty <==> j < k + 1
    {
      if j > 0 { assert st'.order[j] == st.order[j - 1] && st.order[j - 1] != v; }
    }
  }

  // -------------------------------------------------------------- the commit

  /** All three operations end, and the last one starts the commit. */
  lemma AllEnd(L: Core.Layout, t: Trace, st: State) returns (t': Trace, st': State)
    requires L.Valid() && Reaches(L, t, st) && Filled(L, st, Core.LOGSIZE)
    ensures Reaches(L, t', st') && st'.bs == st.bs && st'.sys.committing
    ensures st'.sys.core == st.sys.core.(pc := Core.WriteLog(0))
  {
    hide Reaches, Tidy, Core.Sized, Log.Homes;
    ThreeIn(L, t, st);
    Log.HomesCount(L, Core.LOGSIZE);
    var s1 := Log.End(st.sys, 0);
    var s2 := Log.End(s1, 1);
    var s3 := Log.End(s2, 2);
    var s4 := s3.(core := s3.core.(pc := Core.WriteLog(0)));
    var st1, st2, st3;
    t', st1 := LogMove(L, t, st, Log.EndOp(0), s1);
    t', st2 := LogMove(L, t', st1, Log.EndOp(1), s2);
    t', st3 := LogMove(L, t', st2, Log.EndOp(2), s3);
    t', st' := LogMove(L, t', st3, Log.StartCommit(2), s4);
  }

  lemma ThreeIn(L: Core.Layout, t: Trace, st: State)
    requires Reaches(L, t, st) && Filled(L, st, Core.LOGSIZE)
    ensures st.sys.outstanding == 3 && st.sys.core.pc.Serving? && Core.Sized(L, st.sys.core)
    ensures Log.Contained(L, st.sys)
  {
    hide Tidy, Log.Homes;
    Facts(L, st);
    Log.SumAll(st.sys.procs);
    Log.OpMeansOutstanding(st.sys, 0);
  }

  /**
    With a log as large as the reservations of begin_op need, three operations can
    fill it: from a power-on, a run of processes, log and cache at whose end the commit
    has started, no process holds a buffer, and the commit's first read panics.
   */
  lemma FullTransactionPanics(L: Core.Layout) returns (t: Trace, st: State)
    requires L.Valid() && L.size > Core.LOGSIZE && L.nblocks >= L.size + Core.LOGSIZE
    ensures IsRun(L, t.run, t.moves) && t.run[|t.moves|] == st && |st.bs| == NBUF + 1
    ensures st.sys.committing && st.sys.core.pc == Core.WriteLog(0) && |st.sys.core.lh| == Core.LOGSIZE
    ensures Held(st.bs) == {} && (forall i | 0 <= i < NBUF :: st.bs[i].dirty) && Panics(st.bs, L.Slot(0))
  {
    hide Tidy, Log.Homes, Inv, IsRun, Panics;
    var st0;
    t, st0 := ThreeBegin(L);
    for k := 0 to Core.LOGSIZE
      invariant Reaches(L, t, st0) && Filled(L, st0, k)
    {
      t, st0 := LogOne(L, t, st0, k);
    }
    AllPinned(L, st0);
    t, st := AllEnd(L, t, st0);
    Log.HomesCount(L, Core.LOGSIZE);
    FullPanics(L, st);
  }

  lemma AllPinned(L: Core.Layout, st: State)
    requires Tidy(L, st, NBUF)
    ensures |st.bs| == NBUF + 1 && Held(st.bs) == {} && forall i | 0 <= i < NBUF :: st.bs[i].dirty
  {
    forall i: nat | i < NBUF
      ensures st.bs[i].dirty
    {
      assert i in st.order;
      var j :| 0 <= j < |st.order| && st.order[j] == i;
    }
  }
}
