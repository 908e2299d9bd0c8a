/**
 Whole runs of the memory process, every request of every process interleaved: what the paged,
 swapped, header-linked memory does is what a table of independent byte arrays would do.
 */
module Machine {
  import opened Bytes
  import opened Faults
  import opened Outcomes
  import opened Swap
  import opened Paging
  import opened FlatSpace
  import opened Spaces
  import opened HeapOps
  import opened HeapCalls
  import opened Changes
  import H = Heap
  import MemoryCalls
  import R = HeapRuns
  import Tlb

  datatype Request =
    | Init(pid: nat)
    | Close(pid: nat)
    | Memalloc(pid: nat, n: nat)
    | Memfree(pid: nat, at: nat)
    | Memread(pid: nat, at: nat, n: nat)
    | Memwrite(pid: nat, at: nat, data: seq<byte>)

  /** The int sent back, and the bytes of a read. */
  datatype Answer = Answer(code: int, bytes: seq<byte>)

  // ---- the memory as its users think of it -----------------------------------------------

  /** For each process, its live allocations by address. */
  type World = map<nat, map<nat, seq<byte>>>

  function Put(w: World, pid: nat, at: nat, bytes: seq<byte>): World
    requires pid in w
  {
    var blocks: map<nat, seq<byte>> := w[pid][at := bytes];
    w[pid := blocks]
  }

  /** What a request does to independent byte arrays; `end` is the address of the process's last header. */
  ghost predicate Meant(w: World, end: nat, q: Request, ans: Answer, w': World) {
    var p: nat := q.pid;
    if q.Init? then p !in w && ans.code == p && w' == w[p := map[]]
    else
      && p in w
      && match q
         case Close(_) => ans.code == 1 && w' == w - {p}
         case Memalloc(_, n) =>
           && ans.code >= 0 && p in w'
           && var a: nat := ans.code;
           && a !in w[p] && a in w'[p] && |w'[p][a]| >= n
           && w' == Put(w, p, a, w'[p][a])
         case Memfree(_, a) =>
           if a in w[p] then ans.code == 1 && w' == w[p := w[p] - {a}]
           else ans.code == (if a == end then 1 else FREE_FAULT) && w' == w
         case Memread(_, a, n) =>
           && w' == w
           && if a in w[p] then ans.code == 1 && n <= |w[p][a]| && ans.bytes == w[p][a][..n] else ans.code == READ_FAULT
         case Memwrite(_, a, data) =>
           if a in w[p] && 0 < |data| <= |w[p][a]| then
             ans.code == 1 && w' == Put(w, p, a, Patch(w[p][a], 0, data))
           else w' == w && ans.code == if a + H.HEADER >= end then WRITE_FAULT else 1
  }

  // ---- the memory as it is ------------------------------------------------------------------

  ghost predicate Formed(c: Settings, s: Mem, pid: nat) {
    pid in s.tables && exists ch :: H.Chain(HeapOf(c, s, pid), ch)
  }

  ghost function ChainOf(c: Settings, s: Mem, pid: nat): (ch: seq<nat>)
    requires Formed(c, s, pid)
    ensures H.Chain(HeapOf(c, s, pid), ch)
  {
    var ch :| H.Chain(HeapOf(c, s, pid), ch);
    ch
  }

  ghost function Blocks(c: Settings, s: Mem, pid: nat): map<nat, seq<byte>> {
    if Formed(c, s, pid) then H.Live(HeapOf(c, s, pid), ChainOf(c, s, pid)) else map[]
  }

  /** The allocations of the processes outside `lost`. */
  ghost function WorldOf(c: Settings, s: Mem, lost: set<nat>): World {
    map p | p in s.tables && p !in lost :: Blocks(c, s, p)
  }

  ghost predicate AllFormed(c: Settings, s: Mem, lost: set<nat>) {
    forall p :: p in s.tables && p !in lost ==> Formed(c, s, p)
  }

  function EndOf(s: Mem, pid: nat): nat {
    if pid in s.tables then s.tables[pid].lastHeap else 0
  }

  /** Swap has refused no save so far, and only processes in `lost` have lost a page. */
  predicate OnlyLost(s: Mem, lost: set<nat>) {
    s.refused == 0 && s.lost <= lost
  }

  lemma OnlyLostMeans(s: Mem, t: Mem, lost: set<nat>)
    requires Later(s, t) && OnlyLost(t, lost)
    ensures OnlyLost(s, lost) && forall p :: p !in lost ==> Sound(t, p)
  {
  }

  /** What the request leaves to its caller to get right, and the two heap branches that break the chain. */
  ghost predicate Permitted(c: Settings, s: Mem, q: Request) {
    && c.pageSize > 0
    && match q
       case Init(p) =>
         p !in s.tables && p != MARK && c.pageSize < H.ADDRESS_LIMIT && forall n :: Tlb.Lookup(s.tlb, p, n).None?
       case Close(p) => p in s.tables
       case Memalloc(p, n) =>
         && Formed(c, s, p)
         && H.RollBackTo(c.pageSize, s.tables[p].lastHeap, n) < MARK
         && H.NewLast(s.tables[p].lastHeap, n) + H.HEADER + c.pageSize < H.ADDRESS_LIMIT
         && NotSplit(HeapOf(c, s, p), ChainOf(c, s, p), n)
       case Memfree(p, a) =>
         && Formed(c, s, p)
         && (a < s.tables[p].lastHeap ==> a in Blocks(c, s, p) && KeepsPage(c.pageSize, HeapOf(c, s, p), a))
         && (a == s.tables[p].lastHeap ==> LastFreed(c.pageSize, HeapOf(c, s, p)))
       case Memread(p, a, n) =>
         Formed(c, s, p) && (a >= s.tables[p].lastHeap || (a in Blocks(c, s, p) && n <= |Blocks(c, s, p)[a]|))
       case Memwrite(p, a, data) =>
         && Formed(c, s, p)
         && (a + H.HEADER >= s.tables[p].lastHeap || (a in Blocks(c, s, p) && |data| <= |Blocks(c, s, p)[a]|))
  }

  /** memfree of the last header does no harm, and there are bytes behind it. */
  ghost predicate LastFreed(size: nat, h: H.Heap)
    requires size > 0
  {
    h.last + H.HEADER < |h.bytes| && H.LastIsHarmless(size, h)
  }

  /** memfree of block `a` does not give the last page back. */
  ghost predicate KeepsPage(size: nat, h: H.Heap, a: nat)
    requires size > 0
  {
    H.HasHeader(h.bytes, a) && H.HasHeader(h.bytes, H.Prev(h.bytes, a)) ==> !H.Releases(size, h, a)
  }

  ghost predicate NotSplit(h: H.Heap, ch: seq<nat>, n: nat)
    requires H.Chain(h, ch)
  {
    var k := R.Choice(h, ch, n);
    k < |ch| - 1 ==> !H.Splits(h.bytes, ch[k], n)
  }

  /** The request was answered: what the methods of Calls promise of each. */
  ghost predicate Served(c: Settings, s: Mem, q: Request, ans: Answer, t: Mem) {
    && Permitted(c, s, q) && Reaches(c, s, t)
    && var p: nat := q.pid;
    && match q
       case Init(_) => FreeFrame(c, s, 0) < c.frameCount && t == Created(c, s, p) && ans.code == p
       case Close(_) => t == Deleted(c, s, p) && ans.code == 1
       case Memalloc(_, n) => ans.code >= 0 && Allocated(c, s, t, p, ChainOf(c, s, p), n, ans.code)
       case Memfree(_, a) =>
         if a > s.tables[p].lastHeap then ans.code == FREE_FAULT && t == s
         else ans.code == 1 && exists k: nat :: FreedAt(c, s, t, p, a, k)
       case Memread(_, a, n) =>
         if a >= s.tables[p].lastHeap then ans.code == READ_FAULT && t == s
         else ans.code == 1 && Unseen(c, s, t) && ReadAt(c, s, t, p, a, n, ans.bytes)
       case Memwrite(_, a, data) =>
         if a + H.HEADER >= s.tables[p].lastHeap then ans.code == WRITE_FAULT && t == s
         else ans.code == 1 && StoredAt(c, s, t, p, a, data)
  }

  ghost predicate FreedAt(c: Settings, s: Mem, t: Mem, pid: nat, a: nat, k: nat)
    requires c.pageSize > 0 && Formed(c, s, pid)
  {
    var ch := ChainOf(c, s, pid);
    k < |ch| && ch[k] == a && BlockFreed(c, s, t, pid, ch, k)
  }

  ghost predicate ReadAt(c: Settings, s: Mem, t: Mem, pid: nat, a: nat, n: nat, bytes: seq<byte>) {
    && a + H.HEADER + n <= |Space(c, s, pid)|
    && (Sound(t, pid) ==> bytes == Space(c, s, pid)[a + H.HEADER..a + H.HEADER + n])
  }

  ghost predicate StoredAt(c: Settings, s: Mem, t: Mem, pid: nat, a: nat, data: seq<byte>)
    requires pid in s.tables
  {
    a + H.HEADER + |data| <= |Space(c, s, pid)| && Became(c, s, t, pid, H.Store(HeapOf(c, s, pid), a, data))
  }

  // ---- one request ------------------------------------------------------------------------------

  lemma BlocksAre(c: Settings, s: Mem, pid: nat, ch: seq<nat>)
    requires pid in s.tables && H.Chain(HeapOf(c, s, pid), ch)
    ensures Formed(c, s, pid) && ChainOf(c, s, pid) == ch && Blocks(c, s, pid) == H.Live(HeapOf(c, s, pid), ch)
  {
    H.ChainIsUnique(HeapOf(c, s, pid), ChainOf(c, s, pid), ch);
  }

  lemma IsThere(c: Settings, s: Mem, pid: nat)
    requires Formed(c, s, pid)
    ensures pid in s.tables
  {
  }

  /** A process whose bytes and heap end are as before has the same blocks. */
  lemma SameBlocks(c: Settings, s: Mem, t: Mem, pid: nat)
    requires pid in s.tables && pid in t.tables && HeapOf(c, t, pid) == HeapOf(c, s, pid)
    ensures Formed(c, t, pid) <==> Formed(c, s, pid)
    ensures Blocks(c, t, pid) == Blocks(c, s, pid)
  {
    if Formed(c, s, pid) {
      BlocksAre(c, t, pid, ChainOf(c, s, pid));
    }
  }

  /** What a request of `pid` leaves to the other processes outside `lost`. */
  lemma OthersKeep(c: Settings, s: Mem, t: Mem, pid: nat, lost: set<nat>)
    requires AllFormed(c, s, lost) && pid !in lost && pid in t.tables && OnlyLost(t, lost)
    requires t.tables.Keys == s.tables.Keys + {pid} && SameSpacesBut(c, s, t, pid)
    requires forall p :: p in s.tables && p != pid ==> t.tables[p].lastHeap == s.tables[p].lastHeap
    requires Formed(c, t, pid)
    ensures AllFormed(c, t, lost) && WorldOf(c, t, lost) == WorldOf(c, s, lost)[pid := Blocks(c, t, pid)]
  {
    hide Space, Formed, Blocks;
    forall p | p in s.tables && p != pid && p !in lost ensures Formed(c, t, p) && Blocks(c, t, p) == Blocks(c, s, p) {
      assert Sound(t, p);
      SameBlocks(c, s, t, p);
    }
  }

  /** What a request of a process in `lost` leaves to the processes outside. */
  lemma LostKeeps(c: Settings, s: Mem, t: Mem, pid: nat, lost: set<nat>)
    requires AllFormed(c, s, lost) && pid in lost && OnlyLost(t, lost)
    requires t.tables.Keys - {pid} == s.tables.Keys - {pid} && SameSpacesBut(c, s, t, pid)
    requires forall p :: p in s.tables && p in t.tables && p != pid ==> t.tables[p].lastHeap == s.tables[p].lastHeap
    ensures AllFormed(c, t, lost) && WorldOf(c, t, lost) == WorldOf(c, s, lost)
  {
    hide Space, Formed, Blocks;
    assert forall p :: p != pid ==> (p in t.tables <==> p in t.tables.Keys - {pid});
    assert forall p :: p != pid ==> (p in s.tables <==> p in s.tables.Keys - {pid});
    forall p | p in s.tables && p !in lost
      ensures p in t.tables && Formed(c, t, p) && Blocks(c, t, p) == Blocks(c, s, p)
    {
      assert Sound(t, p);
      SameBlocks(c, s, t, p);
    }
  }

  /** Whatever a request does to its own process, it leaves the processes outside `lost` alone. */
  lemma LostMeant(c: Settings, s: Mem, q: Request, ans: Answer, t: Mem, lost: set<nat>)
    requires Inv(c, s) && AllFormed(c, s, lost) && Served(c, s, q, ans, t) && OnlyLost(t, lost) && q.pid in lost
    ensures AllFormed(c, t, lost) && WorldOf(c, t, lost) == WorldOf(c, s, lost)
  {
    hide Space, Inv, H.Chain, H.Live, H.Free, H.Releases, H.Store, MallocDone, Formed, Blocks, AllFormed;
    if q.Init? { CreatedKeeps(c, s, q.pid); }
    if q.Close? { DeletedKeeps(c, s, q.pid); }
    LostKeeps(c, s, t, q.pid, lost);
  }

  lemma InitMeant(c: Settings, s: Mem, q: Request, ans: Answer, t: Mem, lost: set<nat>)
    requires Inv(c, s) && q.Init? && AllFormed(c, s, lost) && Served(c, s, q, ans, t) && OnlyLost(t, lost)
    requires q.pid !in lost
    ensures AllFormed(c, t, lost) && Meant(WorldOf(c, s, lost), EndOf(s, q.pid), q, ans, WorldOf(c, t, lost))
  {
    hide Space, Inv, H.Chain, H.Live, Formed, Blocks, AllFormed;
    CreatedKeeps(c, s, q.pid);
    BlocksAre(c, t, q.pid, [0]);
    OthersKeep(c, s, t, q.pid, lost);
  }

  lemma CloseMeant(c: Settings, s: Mem, q: Request, ans: Answer, t: Mem, lost: set<nat>)
    requires Inv(c, s) && q.Close? && AllFormed(c, s, lost) && Served(c, s, q, ans, t) && OnlyLost(t, lost)
    requires q.pid !in lost
    ensures AllFormed(c, t, lost) && Meant(WorldOf(c, s, lost), EndOf(s, q.pid), q, ans, WorldOf(c, t, lost))
  {
    hide Space, Inv, H.Chain, H.Live, Formed, Blocks;
    DeletedKeeps(c, s, q.pid);
    forall p | p in t.tables && p !in lost ensures Formed(c, t, p) && Blocks(c, t, p) == Blocks(c, s, p) {
      SameBlocks(c, s, t, p);
    }
  }

  lemma AllocMeant(c: Settings, s: Mem, q: Request, ans: Answer, t: Mem, lost: set<nat>)
    requires q.Memalloc? && AllFormed(c, s, lost) && Served(c, s, q, ans, t) && OnlyLost(t, lost) && q.pid !in lost
    ensures AllFormed(c, t, lost) && Meant(WorldOf(c, s, lost), EndOf(s, q.pid), q, ans, WorldOf(c, t, lost))
  {
    hide Space, Inv, MallocDone, H.Chain, H.Live, Formed, Blocks, AllFormed;
    IsThere(c, s, q.pid);
    var p, ch, a: nat := q.pid, ChainOf(c, s, q.pid), ans.code;
    assert Sound(t, p);
    var ch' := AllocatedMeans(c, s, t, p, ch, q.n, a);
    BlocksAre(c, s, p, ch);
    BlocksAre(c, t, p, ch');
    OthersKeep(c, s, t, p, lost);
  }

  lemma FreeMeant(c: Settings, s: Mem, q: Request, ans: Answer, t: Mem, lost: set<nat>)
    requires q.Memfree? && AllFormed(c, s, lost) && Served(c, s, q, ans, t) && OnlyLost(t, lost) && q.pid !in lost
    ensures AllFormed(c, t, lost) && Meant(WorldOf(c, s, lost), EndOf(s, q.pid), q, ans, WorldOf(c, t, lost))
  {
    hide Space, Inv, H.Chain, H.Live, H.Free, H.Releases, H.FreedChain, H.PrevIsFree, Formed, Blocks, AllFormed;
    IsThere(c, s, q.pid);
    var p, h, ch := q.pid, HeapOf(c, s, q.pid), ChainOf(c, s, q.pid);
    BlocksAre(c, s, p, ch);
    H.LastIsNoBlock(h, ch);
    if q.at <= s.tables[p].lastHeap {
      assert Sound(t, p);
      var k: nat :| FreedAt(c, s, t, p, q.at, k);
      BlockInside(c, s, p, ch, k);
      if k < |ch| - 1 {
        FreedMeans(c, s, t, p, ch, k);
        BlocksAre(c, t, p, H.FreedChain(h, ch, k));
      } else {
        FreedLastMeans(c, s, t, p, ch);
        BlocksAre(c, t, p, ch);
      }
      OthersKeep(c, s, t, p, lost);
      if q.at == s.tables[p].lastHeap { assert WorldOf(c, t, lost) == WorldOf(c, s, lost); }
    }
  }

  lemma ReadMeant(c: Settings, s: Mem, q: Request, ans: Answer, t: Mem, lost: set<nat>)
    requires q.Memread? && AllFormed(c, s, lost) && Served(c, s, q, ans, t) && OnlyLost(t, lost) && q.pid !in lost
    ensures AllFormed(c, t, lost) && Meant(WorldOf(c, s, lost), EndOf(s, q.pid), q, ans, WorldOf(c, t, lost))
  {
    hide Space, Inv, H.Chain, H.Live, Formed, Blocks, AllFormed;
    IsThere(c, s, q.pid);
    var p, h, ch := q.pid, HeapOf(c, s, q.pid), ChainOf(c, s, q.pid);
    assert Sound(t, p);
    BlocksAre(c, s, p, ch);
    H.LastIsNoBlock(h, ch);
    if q.at < s.tables[p].lastHeap {
      BlockSlice(h, ch, q.at, q.n);
      SameBlocks(c, s, t, p);
      OthersKeep(c, s, t, p, lost);
      assert WorldOf(c, s, lost)[p := Blocks(c, t, p)] == WorldOf(c, s, lost);
    }
  }

  /** The first bytes of a live block lie just past its header. */
  lemma BlockSlice(h: H.Heap, ch: seq<nat>, a: nat, n: nat)
    requires H.Chain(h, ch) && a in H.Live(h, ch) && n <= |H.Live(h, ch)[a]|
    ensures a + H.HEADER + |H.Live(h, ch)[a]| <= h.last && h.last + H.HEADER <= |h.bytes|
    ensures H.Live(h, ch)[a][..n] == h.bytes[a + H.HEADER..a + H.HEADER + n]
  {
    hide H.Chain, H.Live, H.Payload;
    H.LastIsNoBlock(h, ch);
    var k := H.BlockIndex(h, ch, a);
    H.LiveAt(h, ch, k);
    H.PayloadOf(h, ch, k);
    SliceOfSlice(h.bytes, a + H.HEADER, ch[k + 1] - a - H.HEADER, 0, n);
  }

  lemma WriteMeant(c: Settings, s: Mem, q: Request, ans: Answer, t: Mem, lost: set<nat>)
    requires q.Memwrite? && AllFormed(c, s, lost) && Served(c, s, q, ans, t) && OnlyLost(t, lost) && q.pid !in lost
    ensures AllFormed(c, t, lost) && Meant(WorldOf(c, s, lost), EndOf(s, q.pid), q, ans, WorldOf(c, t, lost))
  {
    hide Space, Inv, H.Chain, H.Live, H.Store, Formed, Blocks, AllFormed;
    IsThere(c, s, q.pid);
    var p, h, ch := q.pid, HeapOf(c, s, q.pid), ChainOf(c, s, q.pid);
    assert Sound(t, p);
    BlocksAre(c, s, p, ch);
    if q.at in H.Live(h, ch) { BlockSlice(h, ch, q.at, 0); }
    if q.at + H.HEADER < s.tables[p].lastHeap {
      StoredMeans(c, s, t, p, ch, q.at, q.data);
      BlocksAre(c, t, p, ch);
      OthersKeep(c, s, t, p, lost);
      if q.data == [] {
        PatchNothing(H.Live(h, ch)[q.at], 0);
        assert Blocks(c, t, p) == Blocks(c, s, p);
        assert WorldOf(c, t, lost) == WorldOf(c, s, lost);
      }
    }
  }

  /** A request of a process outside `lost` does what it means; the others are not noticed outside. */
  ghost predicate MeantOutside(lost: set<nat>, w: World, end: nat, q: Request, ans: Answer, w': World) {
    if q.pid in lost then w' == w else Meant(w, end, q, ans, w')
  }

  /**
   As long as no save was refused, every answered request means the same to all processes that have lost no
   page, and keeps their heaps well formed.
   */
  lemma ServedMeans(c: Settings, s: Mem, q: Request, ans: Answer, t: Mem, lost: set<nat>)
    requires Inv(c, s) && AllFormed(c, s, lost) && Served(c, s, q, ans, t) && OnlyLost(t, lost)
    ensures AllFormed(c, t, lost)
    ensures MeantOutside(lost, WorldOf(c, s, lost), EndOf(s, q.pid), q, ans, WorldOf(c, t, lost))
  {
    hide Inv, AllFormed, Served, Meant, OnlyLost;
    if q.pid in lost {
      LostMeant(c, s, q, ans, t, lost);
    } else {
      match q
      case Init(_) => InitMeant(c, s, q, ans, t, lost);
      case Close(_) => CloseMeant(c, s, q, ans, t, lost);
      case Memalloc(_, _) => AllocMeant(c, s, q, ans, t, lost);
      case Memfree(_, _) => FreeMeant(c, s, q, ans, t, lost);
      case Memread(_, _, _) => ReadMeant(c, s, q, ans, t, lost);
      case Memwrite(_, _, _) => WriteMeant(c, s, q, ans, t, lost);
    }
  }

  /** The end of a process takes its pages out of swap, whatever else is stored there. */
  lemma CloseTakesOut(c: Settings, s: Mem, q: Request, ans: Answer, t: Mem)
    requires Inv(c, s) && q.Close? && Served(c, s, q, ans, t)
    ensures q.pid !in t.tables && q.pid !in t.order && TakenOut(c.swap, s.swamp, t.swamp, q.pid)
  {
    hide Inv, TakenOut, Reaches, Tlb.Lookup;
    DeletedTakesOut(c, s, q.pid);
    DeletedUnlisted(c, s, q.pid);
  }

  lemma DeletedUnlisted(c: Settings, s: Mem, pid: nat)
    requires Inv(c, s) && pid in s.tables
    ensures pid !in Deleted(c, s, pid).order
  {
    hide Finish, DynamicOk, FramesExclusive, TlbAgrees, Backed;
    RemoveIs(s.order, pid);
  }

  // ---- the handler ------------------------------------------------------------------------------

  /** A block of a well-formed heap lies inside the address space, before the last header. */
  lemma BlockInSpace(c: Settings, s: Mem, pid: nat, a: nat, n: nat)
    requires Formed(c, s, pid) && a in Blocks(c, s, pid) && n <= |Blocks(c, s, pid)[a]|
    ensures pid in s.tables && a < s.tables[pid].lastHeap && a + H.HEADER + n < |Space(c, s, pid)|
  {
    hide Space, H.Chain, H.Live;
    BlockSlice(HeapOf(c, s, pid), ChainOf(c, s, pid), a, n);
  }

  /** The place of a header in the chain. */
  lemma PlaceOf(c: Settings, s: Mem, pid: nat, a: nat) returns (k: nat)
    requires Formed(c, s, pid) && (a >= s.tables[pid].lastHeap || a in Blocks(c, s, pid))
    ensures pid in s.tables
    ensures a <= s.tables[pid].lastHeap ==> k < |ChainOf(c, s, pid)| && ChainOf(c, s, pid)[k] == a
  {
    hide Space, H.Chain, H.Live;
    var h, ch := HeapOf(c, s, pid), ChainOf(c, s, pid);
    H.LastIsNoBlock(h, ch);
    k := |ch| - 1;
    if a in Blocks(c, s, pid) { k := H.BlockIndex(h, ch, a); }
  }

  /** How many page accesses a request may take. */
  ghost function Budget(c: Settings, s: Mem, q: Request): nat
    requires Permitted(c, s, q)
  {
    match q
    case Init(_) => 0
    case Close(_) => 0
    case Memalloc(pid, n) => 2 * |ChainOf(c, s, pid)| + H.RollBackTo(c.pageSize, s.tables[pid].lastHeap, n) + 4
    case Memfree(_, _) => 7
    case Memread(_, at, n) => Touches(c.pageSize, at + H.HEADER, n)
    case Memwrite(_, at, data) => Touches(c.pageSize, at + H.HEADER, |data|)
  }

  /**
   handler, on the decoded request: each answer is one that the request means. While its process is
   sound, the code is only stuck where a new process finds no free frame, or where page replacement is
   not sure to find a victim: under LRU for want of stamps, under Clock-M because some frame had no
   owner or a replacement of this request took two pages.
   */
  method Handle(calls: MemoryCalls.Calls, q: Request) returns (r: Outcome<Answer>)
    requires calls.Valid() && Permitted(calls.cfg, calls.State(), q)
    modifies calls.memory, calls.memory.memoria
    ensures calls.Valid() && Reaches(calls.cfg, old(calls.State()), calls.State())
    ensures r.Done? ==> Served(calls.cfg, old(calls.State()), q, r.value, calls.State())
    ensures r.Stuck? && Sound(calls.State(), q.pid) ==>
      if q.Init? then FreeFrame(calls.cfg, old(calls.State()), 0) == calls.cfg.frameCount
      else !Sure(calls.cfg, old(calls.State()), calls.State(), old(Budget(calls.cfg, calls.State(), q)))
  {
    hide Reaches, Space, H.Chain, H.Live, Inv, Blocks, KeepsPage, Unseen, Became, Allocated, BlockFreed, Sure, Touches;
    ghost var c, s := calls.cfg, calls.State();
    match q
    case Init(pid) =>
      var made := calls.CreateProcess(pid);
      if made.Done? { EnterReaches(c, s, pid); } else { ReachesItself(c, s); }
      r := if made.Done? then Done(Answer(pid, [])) else Stuck;
    case Close(pid) =>
      LeaveReaches(c, s, pid);
      calls.DeleteProcess(pid);
      r := Done(Answer(1, []));
    case Memalloc(pid, n) =>
      IsThere(c, s, pid);
      var at := calls.Memalloc(pid, n, ChainOf(c, s, pid));
      r := if at.Done? then Done(Answer(at.value, [])) else Stuck;
    case Memfree(pid, at) =>
      IsThere(c, s, pid);
      ghost var k := PlaceOf(c, s, pid, at);
      var code := calls.Memfree(pid, at, ChainOf(c, s, pid), k);
      assert code.Done? && at <= s.tables[pid].lastHeap ==> FreedAt(c, s, calls.State(), pid, at, k);
      r := if code.Done? then Done(Answer(code.value, [])) else Stuck;
    case Memread(pid, at, n) =>
      IsThere(c, s, pid);
      if at < s.tables[pid].lastHeap { BlockInSpace(c, s, pid, at, n); }
      var bytes := calls.Memread(pid, at, n);
      r := if bytes.Done? then Done(Answer(bytes.value.0, bytes.value.1)) else Stuck;
    case Memwrite(pid, at, data) =>
      IsThere(c, s, pid);
      if at + H.HEADER < s.tables[pid].lastHeap { BlockInSpace(c, s, pid, at, |data|); }
      var code := calls.Memwrite(pid, at, data);
      r := if code.Done? then Done(Answer(code.value, [])) else Stuck;
  }

  // ---- runs --------------------------------------------------------------------------------

  /** Requests answered one after another, from the state in which the memory process begins. */
  ghost predicate Run(c: Settings, ss: seq<Mem>, qs: seq<Request>, answers: seq<Answer>) {
    && |ss| == |qs| + 1 && |answers| == |qs| && Supported(c) && Begun(c, ss[0])
    && forall i :: 0 <= i < |qs| ==> Served(c, ss[i], qs[i], answers[i], ss[i + 1])
  }

  /** The states of a run are reached by elementary changes, one request after the other. */
  lemma {:induction false} RunReached(c: Settings, ss: seq<Mem>, qs: seq<Request>, answers: seq<Answer>, i: nat)
    requires Run(c, ss, qs, answers) && i <= |qs|
    ensures Reaches(c, ss[0], ss[i]) && Inv(c, ss[i])
  {
    hide Reaches, Inv, Begun, Permitted, Formed, ChainOf;
    BegunMeets(c, ss[0]);
    if i == 0 {
      ReachesItself(c, ss[0]);
    } else {
      RunReached(c, ss, qs, answers, i - 1);
      assert Served(c, ss[i - 1], qs[i - 1], answers[i - 1], ss[(i - 1) + 1]);
      ReachesTwice(c, ss[0], ss[i - 1], ss[i]);
    }
    ReachesKeeps(c, ss[0], ss[i]);
  }

  /**
   Whatever swap answers: at every point of a run no two pages share a frame, present pages have
   frames and absent ones the marker, pages are numbered by their place, every buffer entry names a
   present page and its frame, and stamps tell when each page was last accessed.
   */
  lemma RunStructure(c: Settings, ss: seq<Mem>, qs: seq<Request>, answers: seq<Answer>, i: nat)
    requires Run(c, ss, qs, answers) && i <= |qs|
    ensures FramesExclusive(c, ss[i]) && Numbered(ss[i]) && TlbAgrees(c, ss[i]) && StampsAreHistory(ss[i])
  {
    hide FramesExclusive, Numbered, TlbAgrees, StampsAreHistory, Begun, Reaches, Served;
    RunReached(c, ss, qs, answers, i);
    ReachedStructure(c, ss[0], ss[i]);
  }

  ghost predicate MeantAt(c: Settings, ss: seq<Mem>, qs: seq<Request>, answers: seq<Answer>, lost: set<nat>, i: nat)
    requires i < |qs| && i < |answers| && i + 1 < |ss|
  {
    MeantOutside(lost, WorldOf(c, ss[i], lost), EndOf(ss[i], qs[i].pid), qs[i], answers[i], WorldOf(c, ss[i + 1], lost))
  }

  lemma BegunFormed(c: Settings, s: Mem, lost: set<nat>)
    requires Begun(c, s)
    ensures AllFormed(c, s, lost)
  {
  }

  lemma ServedLater(c: Settings, s: Mem, q: Request, ans: Answer, t: Mem)
    requires Inv(c, s) && Served(c, s, q, ans, t)
    ensures Later(s, t)
  {
    hide Space, H.Chain, H.Live, H.Free, H.Releases, MallocDone, H.Store, ReadAt, Blocks, Inv;
    if q.Init? { CreatedKeeps(c, s, q.pid); }
  }

  lemma {:induction false} RunLater(c: Settings, ss: seq<Mem>, qs: seq<Request>, answers: seq<Answer>, i: nat, j: nat)
    requires Run(c, ss, qs, answers) && i <= j <= |qs|
    ensures Later(ss[i], ss[j])
  {
    hide Served, Begun;
    if i < j {
      RunLater(c, ss, qs, answers, i, j - 1);
      RunReached(c, ss, qs, answers, j - 1);
      assert Served(c, ss[j - 1], qs[j - 1], answers[j - 1], ss[(j - 1) + 1]);
      ServedLater(c, ss[j - 1], qs[j - 1], answers[j - 1], ss[j]);
    }
  }

  lemma {:induction false} RunFormed(
      c: Settings, ss: seq<Mem>, qs: seq<Request>, answers: seq<Answer>, lost: set<nat>, i: nat)
    requires Run(c, ss, qs, answers) && i <= |qs| && OnlyLost(ss[i], lost)
    ensures AllFormed(c, ss[i], lost)
  {
    hide Served, Inv, MeantOutside, AllFormed, Begun, OnlyLost;
    if i == 0 {
      BegunFormed(c, ss[0], lost);
    } else {
      RunReached(c, ss, qs, answers, i - 1);
      RunLater(c, ss, qs, answers, i - 1, i);
      OnlyLostMeans(ss[i - 1], ss[i], lost);
      RunFormed(c, ss, qs, answers, lost, i - 1);
      assert Served(c, ss[i - 1], qs[i - 1], answers[i - 1], ss[(i - 1) + 1]);
      ServedMeans(c, ss[i - 1], qs[i - 1], answers[i - 1], ss[i], lost);
    }
  }

  /**
   The refinement: up to any point of any run at which swap has refused no save, whatever pages come and go
   and whatever processes end, each request does to the allocations of all processes what it means - of all
   processes but those of which a page left memory without settling in swap, and whatever those ask for.
   */
  lemma RunRefines(c: Settings, ss: seq<Mem>, qs: seq<Request>, answers: seq<Answer>, lost: set<nat>, i: nat)
    requires Run(c, ss, qs, answers) && i < |qs| && OnlyLost(ss[i + 1], lost)
    ensures AllFormed(c, ss[i], lost) && AllFormed(c, ss[i + 1], lost) && MeantAt(c, ss, qs, answers, lost, i)
  {
    hide Served, OnlyLost, AllFormed, Inv, Begun, MeantOutside;
    RunReached(c, ss, qs, answers, i);
    RunLater(c, ss, qs, answers, i, i + 1);
    OnlyLostMeans(ss[i], ss[i + 1], lost);
    RunFormed(c, ss, qs, answers, lost, i);
    ServedMeans(c, ss[i], qs[i], answers[i], ss[i + 1], lost);
  }

  /** The request neither frees nor writes allocation `at` of process `pid`, nor ends the process. */
  predicate Spares(q: Request, pid: nat, at: nat) {
    q.pid == pid ==> !q.Close? && !(q.Memfree? && q.at == at) && !(q.Memwrite? && q.at == at)
  }

  /** Process `pid` has a well-formed heap, and `at` is live in it. */
  ghost predicate LiveAt(c: Settings, s: Mem, pid: nat, at: nat) {
    at in Blocks(c, s, pid)
  }

  lemma MeantSpares(
      c: Settings, s: Mem, q: Request, ans: Answer, t: Mem, lost: set<nat>, pid: nat, at: nat)
    requires MeantOutside(lost, WorldOf(c, s, lost), EndOf(s, q.pid), q, ans, WorldOf(c, t, lost)) && pid !in lost
    requires LiveAt(c, s, pid, at) && Spares(q, pid, at)
    ensures LiveAt(c, t, pid, at) && Blocks(c, t, pid)[at] == Blocks(c, s, pid)[at]
  {
    hide Blocks;
    InTables(c, s, pid, at);
    var w, w' := WorldOf(c, s, lost), WorldOf(c, t, lost);
    assert pid in w && w[pid] == Blocks(c, s, pid);
    assert pid in w' && at in w'[pid] && w'[pid][at] == w[pid][at];
  }

  lemma InTables(c: Settings, s: Mem, pid: nat, at: nat)
    requires LiveAt(c, s, pid, at)
    ensures pid in s.tables
  {
  }

  lemma SoundOnlyLost(s: Mem, pid: nat)
    requires Sound(s, pid)
    ensures OnlyLost(s, s.lost) && pid !in s.lost
  {
  }

  /**
   An allocation keeps its bytes through any requests of any processes that neither free nor write it, for as
   long as its process is sound.
   */
  lemma {:induction false} AllocationKeeps(
      c: Settings, ss: seq<Mem>, qs: seq<Request>, answers: seq<Answer>, i: nat, j: nat, pid: nat, at: nat)
    requires Run(c, ss, qs, answers) && i <= j <= |qs| && Sound(ss[j], pid)
    requires LiveAt(c, ss[i], pid, at) && forall x :: i <= x < j ==> Spares(qs[x], pid, at)
    ensures LiveAt(c, ss[j], pid, at) && Blocks(c, ss[j], pid)[at] == Blocks(c, ss[i], pid)[at]
    decreases j
  {
    hide Run, Sound, Spares, LiveAt, Blocks, MeantOutside;
    if i < j {
      RunLength(c, ss, qs, answers);
      RunLater(c, ss, qs, answers, j - 1, j);
      LaterSound(ss[j - 1], ss[j], pid);
      AllocationKeeps(c, ss, qs, answers, i, j - 1, pid, at);
      SoundOnlyLost(ss[j], pid);
      RunRefines(c, ss, qs, answers, ss[j].lost, j - 1);
      MeantSpares(c, ss[j - 1], qs[j - 1], answers[j - 1], ss[j], ss[j].lost, pid, at);
    }
  }

  lemma RunLength(c: Settings, ss: seq<Mem>, qs: seq<Request>, answers: seq<Answer>)
    requires Run(c, ss, qs, answers)
    ensures |ss| == |qs| + 1 && |answers| == |qs|
  {
  }

  /** The write of a live allocation, as its process sees it. */
  lemma WriteStores(c: Settings, s: Mem, q: Request, ans: Answer, t: Mem, lost: set<nat>)
    requires MeantOutside(lost, WorldOf(c, s, lost), EndOf(s, q.pid), q, ans, WorldOf(c, t, lost)) && q.pid !in lost
    requires q.Memwrite? && LiveAt(c, s, q.pid, q.at) && 0 < |q.data| <= |Blocks(c, s, q.pid)[q.at]|
    ensures LiveAt(c, t, q.pid, q.at) && Blocks(c, t, q.pid)[q.at] == Patch(Blocks(c, s, q.pid)[q.at], 0, q.data)
  {
    hide Blocks;
    InTables(c, s, q.pid, q.at);
    var w, w' := WorldOf(c, s, lost), WorldOf(c, t, lost);
    assert q.pid in w && w[q.pid] == Blocks(c, s, q.pid);
    assert q.pid in w' && w'[q.pid][q.at] == Patch(w[q.pid][q.at], 0, q.data);
  }

  lemma ReadGives(c: Settings, s: Mem, q: Request, ans: Answer, t: Mem, lost: set<nat>)
    requires MeantOutside(lost, WorldOf(c, s, lost), EndOf(s, q.pid), q, ans, WorldOf(c, t, lost)) && q.pid !in lost
    requires q.Memread? && LiveAt(c, s, q.pid, q.at)
    ensures ans.code == 1 && q.n <= |Blocks(c, s, q.pid)[q.at]| && ans.bytes == Blocks(c, s, q.pid)[q.at][..q.n]
  {
    hide Blocks;
    InTables(c, s, q.pid, q.at);
    var w := WorldOf(c, s, lost);
    assert q.pid in w && w[q.pid] == Blocks(c, s, q.pid);
  }

  /** A read gives back what was last written there, whatever was asked in between of other allocations. */
  lemma ReadsLastWrite(c: Settings, ss: seq<Mem>, qs: seq<Request>, answers: seq<Answer>, i: nat, j: nat)
    requires Run(c, ss, qs, answers) && i < j < |qs|
    requires qs[i].Memwrite? && qs[j].Memread? && qs[j].pid == qs[i].pid && qs[j].at == qs[i].at
    requires Sound(ss[j + 1], qs[i].pid) && LiveAt(c, ss[i], qs[i].pid, qs[i].at)
    requires 0 < |qs[i].data| <= |Blocks(c, ss[i], qs[i].pid)[qs[i].at]| && qs[j].n <= |qs[i].data|
    requires forall x :: i < x < j ==> Spares(qs[x], qs[i].pid, qs[i].at)
    ensures answers[j].code == 1 && answers[j].bytes == qs[i].data[..qs[j].n]
  {
    hide Run, Sound, Spares, Blocks, MeantOutside;
    RunLength(c, ss, qs, answers);
    var p, a, lost := qs[i].pid, qs[i].at, ss[j + 1].lost;
    SoundOnlyLost(ss[j + 1], p);
    RunLater(c, ss, qs, answers, i + 1, j + 1);
    OnlyLostMeans(ss[i + 1], ss[j + 1], lost);
    RunRefines(c, ss, qs, answers, lost, i);
    WriteStores(c, ss[i], qs[i], answers[i], ss[i + 1], lost);
    RunLater(c, ss, qs, answers, j, j + 1);
    LaterSound(ss[j], ss[j + 1], p);
    AllocationKeeps(c, ss, qs, answers, i + 1, j, p, a);
    RunRefines(c, ss, qs, answers, lost, j);
    ReadGives(c, ss[j], qs[j], answers[j], ss[j + 1], lost);
    var bytes := Patch(Blocks(c, ss[i], p)[a], 0, qs[i].data);
    assert bytes[..qs[j].n] == qs[i].data[..qs[j].n];
  }
}
