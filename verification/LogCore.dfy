/**
  The redo log of log.c as a machine whose every step is one disk write.

  `disk` is what survives a crash, `mem` is what the buffer cache answers
  (cached copy, else disk).  A commit is a sequence of single-block writes;
  so is a recovery.  A crash may fall between any two of them.
 */
module LogCore {
  import opened Common
  import opened Blocks

  const MAXOPBLOCKS := 10
  const LOGSIZE := 3 * MAXOPBLOCKS

  /** Where the log lies: the header block, then the data slots. */
  datatype Layout = Layout(start: nat, size: nat, nblocks: nat) {
    predicate Valid() {
      0 < size && start + size <= nblocks <= UINT_LIMIT
    }

    /** How many blocks the in-memory header, and the slots after the header block, have room for. */
    function Cap(): nat {
      if size == 0 then 0 else if size - 1 < LOGSIZE then size - 1 else LOGSIZE
    }

    predicate Home(b: nat) {
      b < nblocks && !(start <= b < start + size)
    }

    function Slot(i: nat): nat {
      start + 1 + i
    }

    /** A list of block numbers that may stand in a header. */
    predicate Good(hs: seq<nat>) {
      && |hs| <= Cap()
      && (forall i | 0 <= i < |hs| :: Home(hs[i]))
      && (forall i, j | 0 <= i < j < |hs| :: hs[i] != hs[j])
    }
  }

  // ---------------------------------------------------------------- header

  predicate HeaderFits(b: Block) {
    GetWord(b, 0) <= LOGSIZE
  }

  function HeaderOf(b: Block): seq<nat>
    requires HeaderFits(b)
  {
    seq(GetWord(b, 0), i requires 0 <= i < GetWord(b, 0) => GetWord(b, i + 1))
  }

  predicate Storable(hs: seq<nat>) {
    |hs| <= LOGSIZE && forall i | 0 <= i < |hs| :: hs[i] < UINT_LIMIT
  }

  /** The header block after the count and the first k entries were stored. */
  function PutEntries(b: Block, hs: seq<nat>, k: nat): Block
    requires Storable(hs) && k <= |hs|
  {
    if k == 0 then PutWord(b, 0, |hs|) else PutWord(PutEntries(b, hs, k - 1), k, hs[k - 1])
  }

  lemma {:induction false} PutEntriesReads(b: Block, hs: seq<nat>, k: nat)
    requires Storable(hs) && k <= |hs|
    ensures GetWord(PutEntries(b, hs, k), 0) == |hs|
    ensures forall i | 0 <= i < k :: GetWord(PutEntries(b, hs, k), i + 1) == hs[i]
  {
    if k > 0 {
      PutEntriesReads(b, hs, k - 1);
    }
  }

  /** The encoded header decodes to the list it was written from. */
  lemma HeaderRoundTrip(b: Block, hs: seq<nat>)
    requires Storable(hs)
    ensures HeaderFits(PutEntries(b, hs, |hs|))
    ensures HeaderOf(PutEntries(b, hs, |hs|)) == hs
  {
    hide GetWord, PutWord, PutEntries;
    PutEntriesReads(b, hs, |hs|);
  }

  // ---------------------------------------------------------------- machine

  /** Boot: just after a crash.  WriteLog(t)/Install(t): t blocks are done. */
  datatype Pc = Serving | WriteLog(tail: nat) | Install(tail: nat) | Boot

  datatype Core = Core(disk: seq<Block>, mem: seq<Block>, dirty: set<nat>, lh: seq<nat>, pc: Pc) {
    /** bwrite: the cached copy goes to disk, which unpins the buffer. */
    function BWrite(b: nat): Core
      requires b < |disk| && b < |mem|
    {
      this.(disk := disk[b := mem[b]], dirty := dirty - {b})
    }

    function Fill(b: nat, data: Block): Core
      requires b < |mem|
    {
      this.(mem := mem[b := data])
    }
  }

  ghost predicate Sized(L: Layout, c: Core) {
    && L.Valid() && |c.disk| == |c.mem| == L.nblocks
    && L.Good(c.lh)
  }

  /** log_write on a buffer holding `data`: absorb or append, and pin. */
  function LogWrite(L: Layout, c: Core, b: nat, data: Block): Core
    requires Sized(L, c) && L.Home(b)
  {
    c.(mem := c.mem[b := data], dirty := c.dirty + {b}, lh := if b in c.lh then c.lh else c.lh + [b])
  }

  /** One round of the loop in write_log. */
  function WriteLogStep(L: Layout, c: Core): Core
    requires Sized(L, c) && c.pc.WriteLog? && c.pc.tail < |c.lh|
  {
    var t := c.pc.tail;
    c.Fill(L.Slot(t), c.mem[c.lh[t]]).BWrite(L.Slot(t)).(pc := WriteLog(t + 1))
  }

  /** write_head with the transaction in it: the commit point. */
  function CommitStep(L: Layout, c: Core): Core
    requires Sized(L, c) && c.pc == WriteLog(|c.lh|)
  {
    c.Fill(L.start, PutEntries(c.mem[L.start], c.lh, |c.lh|)).BWrite(L.start).(pc := Install(0))
  }

  /** One round of the loop in install_trans. */
  function InstallStep(L: Layout, c: Core): Core
    requires Sized(L, c) && c.pc.Install? && c.pc.tail < |c.lh|
  {
    var t := c.pc.tail;
    c.Fill(c.lh[t], c.mem[L.Slot(t)]).BWrite(c.lh[t]).(pc := Install(t + 1))
  }

  /** lh.n = 0, then write_head: the log is empty again. */
  function ClearStep(L: Layout, c: Core): Core
    requires Sized(L, c) && c.pc == Install(|c.lh|)
  {
    c.Fill(L.start, PutEntries(c.mem[L.start], [], 0)).BWrite(L.start).(lh := [], pc := Serving)
  }

  /** read_head at boot. */
  function ReadHeadStep(L: Layout, c: Core): Core
    requires Sized(L, c) && c.pc == Boot && HeaderFits(c.mem[L.start])
  {
    c.(lh := HeaderOf(c.mem[L.start]), pc := Install(0))
  }

  /** Power is lost: the cache is gone, the disk is not. */
  function Crash(c: Core): Core {
    Core(c.disk, c.disk, {}, [], Boot)
  }

  /** One step of commit() or of recover_from_log(). */
  ghost predicate Step(L: Layout, c: Core, c': Core)
    requires Sized(L, c)
  {
    || (c.pc.WriteLog? && c.pc.tail < |c.lh| && c' == WriteLogStep(L, c))
    || (c.pc == WriteLog(|c.lh|) && c' == CommitStep(L, c))
    || (c.pc.Install? && c.pc.tail < |c.lh| && c' == InstallStep(L, c))
    || (c.pc == Install(|c.lh|) && c' == ClearStep(L, c))
    || (c.pc == Boot && HeaderFits(c.mem[L.start]) && c' == ReadHeadStep(L, c))
  }

  // -------------------------------------------------------------- meanings

  ghost predicate DiskOk(L: Layout, d: seq<Block>) {
    L.Valid() && |d| == L.nblocks && HeaderFits(d[L.start]) && L.Good(HeaderOf(d[L.start]))
  }

  /** What the home blocks say once the log on disk `d` has been replayed. */
  ghost function Replayed(L: Layout, d: seq<Block>, b: nat): Block
    requires DiskOk(L, d) && b < L.nblocks
  {
    var hs := HeaderOf(d[L.start]);
    if b in hs then var i :| 0 <= i < |hs| && hs[i] == b; d[L.Slot(i)] else d[b]
  }

  type View = map<nat, Block>

  /** The file system a crash at this instant would leave. */
  ghost function Durable(L: Layout, c: Core): View
    requires DiskOk(L, c.disk)
  {
    map b | 0 <= b < L.nblocks && L.Home(b) :: Replayed(L, c.disk, b)
  }

  /** The file system as system calls see it (during recovery: as they will). */
  ghost function Current(L: Layout, c: Core): View
    requires Sized(L, c) && DiskOk(L, c.disk)
  {
    if c.pc.Serving? || c.pc.WriteLog? then map b | 0 <= b < L.nblocks && L.Home(b) :: c.mem[b]
    else Durable(L, c)
  }

  lemma ReplayedAt(L: Layout, d: seq<Block>, i: nat)
    requires DiskOk(L, d) && i < |HeaderOf(d[L.start])|
    ensures Replayed(L, d, HeaderOf(d[L.start])[i]) == d[L.Slot(i)]
  {
  }

  // ------------------------------------------------------------- invariant

  ghost predicate RestClean(L: Layout, c: Core)
    requires Sized(L, c)
  {
    forall b | 0 <= b < L.nblocks && b !in c.lh :: c.mem[b] == c.disk[b]
  }

  ghost predicate Inv(L: Layout, c: Core) {
    && Sized(L, c) && DiskOk(L, c.disk)
    && RestClean(L, c)
    && match c.pc
       case Serving => HeaderOf(c.disk[L.start]) == [] && c.dirty == Elems(c.lh)
       case WriteLog(t) =>
         && HeaderOf(c.disk[L.start]) == [] && t <= |c.lh| && c.dirty == Elems(c.lh)
         && forall i | 0 <= i < t :: c.disk[L.Slot(i)] == c.mem[c.lh[i]]
       case Install(t) =>
         && HeaderOf(c.disk[L.start]) == c.lh && t <= |c.lh| && c.dirty <= Elems(c.lh[t..])
         && forall i | 0 <= i < t :: c.mem[c.lh[i]] == c.disk[c.lh[i]] == c.disk[L.Slot(i)]
       case Boot => c.mem == c.disk && c.dirty == {} && c.lh == []
  }

  ghost function Elems(s: seq<nat>): set<nat> {
    set b | b in s
  }

  // ---------------------------------------------------- what each step does

  /** log_write changes what callers see at b, and nothing a crash would keep. */
  lemma LogWriteKeeps(L: Layout, c: Core, b: nat, data: Block)
    requires Inv(L, c) && c.pc.Serving? && L.Home(b)
    requires b in c.lh || |c.lh| < L.Cap()
    ensures var c' := LogWrite(L, c, b, data);
      && Inv(L, c') && Durable(L, c') == Durable(L, c) && Current(L, c') == Current(L, c)[b := data]
  {
    hide GetWord, HeaderOf, Replayed;
    var c' := LogWrite(L, c, b, data);
    assert Elems(c'.lh) == Elems(c.lh) + {b};
  }

  /** Copying a block to the log shows to nobody. */
  lemma WriteLogKeeps(L: Layout, c: Core)
    requires Inv(L, c) && c.pc.WriteLog? && c.pc.tail < |c.lh|
    ensures var c' := WriteLogStep(L, c);
      && Inv(L, c') && Durable(L, c') == Durable(L, c) && Current(L, c') == Current(L, c)
  {
    hide GetWord, HeaderOf, HeaderFits;
    var c' := WriteLogStep(L, c);
    assert c'.disk[L.start] == c.disk[L.start];
    assert L.Slot(c.pc.tail) !in c.lh;
  }

  lemma CommitInv(L: Layout, c: Core)
    requires Inv(L, c) && c.pc == WriteLog(|c.lh|)
    ensures var c' := CommitStep(L, c);
      Inv(L, c') && forall i | 0 <= i < |c.lh| :: c'.disk[L.Slot(i)] == c.mem[c.lh[i]]
  {
    hide GetWord, PutWord, PutEntries, HeaderOf, HeaderFits;
    HeaderRoundTrip(c.mem[L.start], c.lh);
    assert c.lh[0..] == c.lh;
  }

  lemma CommitReplays(L: Layout, c: Core, b: nat)
    requires Inv(L, c) && c.pc == WriteLog(|c.lh|) && L.Home(b)
    ensures DiskOk(L, CommitStep(L, c).disk) && Replayed(L, CommitStep(L, c).disk, b) == c.mem[b]
  {
    hide GetWord, PutWord, PutEntries, HeaderFits, HeaderOf, Elems;
    CommitInv(L, c);
    if b in c.lh {
      var i :| 0 <= i < |c.lh| && c.lh[i] == b;
      ReplayedAt(L, CommitStep(L, c).disk, i);
    }
  }

  /** The header write makes everything callers see durable, at once. */
  lemma CommitKeeps(L: Layout, c: Core)
    requires Inv(L, c) && c.pc == WriteLog(|c.lh|)
    ensures var c' := CommitStep(L, c);
      && Inv(L, c') && Durable(L, c') == Current(L, c) && Current(L, c') == Current(L, c)
  {
    hide GetWord, PutWord, PutEntries, HeaderFits, HeaderOf, Elems, Replayed;
    CommitInv(L, c);
    forall b | 0 <= b < L.nblocks && L.Home(b) {
      CommitReplays(L, c, b);
    }
  }

  lemma InstallInv(L: Layout, c: Core)
    requires Inv(L, c) && c.pc.Install? && c.pc.tail < |c.lh|
    ensures Inv(L, InstallStep(L, c))
  {
    hide GetWord, HeaderOf, HeaderFits;
    var t := c.pc.tail;
    assert c.mem[L.Slot(t)] == c.disk[L.Slot(t)];
    assert InstallStep(L, c).disk[L.start] == c.disk[L.start];
    assert Elems(c.lh[t..]) - {c.lh[t]} <= Elems(c.lh[t + 1..]);
  }

  lemma InstallReplays(L: Layout, c: Core, b: nat)
    requires Inv(L, c) && c.pc.Install? && c.pc.tail < |c.lh| && L.Home(b)
    ensures DiskOk(L, InstallStep(L, c).disk)
    ensures Replayed(L, InstallStep(L, c).disk, b) == Replayed(L, c.disk, b)
  {
    hide GetWord, HeaderOf, HeaderFits, Elems;
    var c' := InstallStep(L, c);
    assert c'.disk[L.start] == c.disk[L.start];
    if b in c.lh {
      var i :| 0 <= i < |c.lh| && c.lh[i] == b;
      ReplayedAt(L, c.disk, i);
      ReplayedAt(L, c'.disk, i);
    }
  }

  /** Installing a block again leaves the replayed contents as they are. */
  lemma InstallKeeps(L: Layout, c: Core)
    requires Inv(L, c) && c.pc.Install? && c.pc.tail < |c.lh|
    ensures var c' := InstallStep(L, c);
      && Inv(L, c') && Durable(L, c') == Durable(L, c)
  {
    hide GetWord, HeaderOf, HeaderFits, Elems, Replayed;
    InstallInv(L, c);
    forall b | 0 <= b < L.nblocks && L.Home(b) {
      InstallReplays(L, c, b);
    }
  }

  lemma InstalledReplays(L: Layout, c: Core, b: nat)
    requires Inv(L, c) && c.pc == Install(|c.lh|) && L.Home(b)
    ensures Replayed(L, c.disk, b) == c.mem[b] == c.disk[b]
  {
    hide GetWord, HeaderOf, HeaderFits, Elems;
    if b in c.lh {
      var i :| 0 <= i < |c.lh| && c.lh[i] == b;
      ReplayedAt(L, c.disk, i);
    }
  }

  /** Clearing the header: the home blocks by now hold the replayed contents. */
  lemma ClearKeeps(L: Layout, c: Core)
    requires Inv(L, c) && c.pc == Install(|c.lh|)
    ensures var c' := ClearStep(L, c);
      && Inv(L, c') && Durable(L, c') == Durable(L, c) && Current(L, c') == Durable(L, c)
  {
    hide GetWord, PutWord, PutEntries, HeaderOf, HeaderFits;
    HeaderRoundTrip(c.mem[L.start], []);
    forall b | 0 <= b < L.nblocks && L.Home(b) {
      InstalledReplays(L, c, b);
    }
  }

  lemma ReadHeadKeeps(L: Layout, c: Core)
    requires Inv(L, c) && c.pc == Boot
    ensures var c' := ReadHeadStep(L, c);
      && Inv(L, c') && Durable(L, c') == Durable(L, c)
  {
    hide GetWord, HeaderOf, HeaderFits;
    assert c.disk[L.start] == c.mem[L.start];
  }

  lemma CrashKeeps(L: Layout, c: Core)
    requires Inv(L, c)
    ensures Inv(L, Crash(c)) && Durable(L, Crash(c)) == Durable(L, c)
    ensures Current(L, Crash(c)) == Durable(L, c)
  {
    hide GetWord, HeaderOf, HeaderFits;
  }

  /**
    Every single disk write of commit or recovery keeps the invariant, and
    what a crash would keep moves only at the commit point, to what callers see.
   */
  lemma StepKeeps(L: Layout, c: Core, c': Core)
    requires Inv(L, c) && Step(L, c, c')
    ensures Inv(L, c') && Current(L, c') == Current(L, c)
    ensures Durable(L, c') == if c.pc == WriteLog(|c.lh|) then Current(L, c) else Durable(L, c)
  {
    hide GetWord, PutWord, PutEntries, HeaderOf, HeaderFits, Replayed, Elems;
    match c.pc
    case WriteLog(t) => if t < |c.lh| { WriteLogKeeps(L, c); } else { CommitKeeps(L, c); }
    case Install(t) => if t < |c.lh| { InstallKeeps(L, c); } else { ClearKeeps(L, c); }
    case Boot => ReadHeadKeeps(L, c);
  }
}
