/**
 What the heap calls do to the paged memory: pages added at the end of a process, processes
 created and deleted, and a header that lies across two pages.
 */
module HeapOps {
  import opened Arith
  import opened Bytes
  import opened Options
  import opened Swap
  import opened Paging
  import opened Replacement
  import opened FlatSpace
  import opened Spaces
  import opened ClockProgress
  import H = Heap
  import Tlb

  /** The heap of a process, as its address space shows it. */
  function HeapOf(c: Settings, s: Mem, pid: nat): H.Heap
    requires pid in s.tables
  {
    H.Heap(Space(c, s, pid), s.tables[pid].lastHeap)
  }

  // ---- pages added at the end --------------------------------------------------------------------

  function FreshPage(c: Settings, s: Mem, n: nat, f: nat, modified: bool): Page {
    Page(n, f, true, true, modified, s.lruClock + 1)
  }

  /** One turn of the loop of agregarXPaginasPara, once there is a free frame. */
  ghost function AddedPage(c: Settings, s: Mem, pid: nat): Mem
    requires pid in s.tables
  {
    var n, table := |s.tables[pid].pages| + 1, s.tables[pid];
    s.(tables := s.tables[pid := table.(pages := table.pages + [FreshPage(c, s, n, FreeFrame(c, s, 0), false)])],
       lruClock := s.lruClock + 1, history := s.history + [Key(pid, n)])
  }

  /** inicializarUnProceso, once there is a free frame. */
  ghost function Created(c: Settings, s: Mem, pid: nat): Mem {
    var f := FreeFrame(c, s, 0);
    s.(order := s.order + [pid],
       tables := s.tables[pid := Table(0, [FreshPage(c, s, 1, f, true)])],
       frames := PutAt(s.frames, f, Overwrite(FrameAt(s, f), 0, H.Header(0, 0, H.FREE))),
       lruClock := s.lruClock + 1, history := s.history + [Key(pid, 1)])
  }

  function Remove(order: seq<nat>, pid: nat): (r: seq<nat>)
    ensures pid !in order ==> r == order
    ensures forall p :: p in r ==> p in order
  {
    if order == [] then [] else if order[0] == pid then order[1..] else [order[0]] + Remove(order[1..], pid)
  }

  /** delete_process: the buffer keeps its entries of the process. */
  function Deleted(c: Settings, s: Mem, pid: nat): Mem {
    s.(order := Remove(s.order, pid), tables := s.tables - {pid}, swamp := Finish(c.swap, s.swamp, pid))
  }

  /** `t` has the page `k` more than `s`, present in a frame no page had, stamped last. */
  ghost predicate OnePageMore(c: Settings, s: Mem, t: Mem, k: Key) {
    && Has(t, k) && !Has(s, k) && 1 <= k.page < MARK
    && (forall q :: Has(t, q) <==> Has(s, q) || q == k)
    && (forall q :: Has(s, q) ==> Has(t, q) && PageOf(t, q) == PageOf(s, q))
    && PageOf(t, k).num == k.page && PageOf(t, k).present && PageOf(t, k).stamp == s.lruClock + 1
    && PageOf(t, k).frame < c.frameCount && !Owned(s, PageOf(t, k).frame)
    && t.lruClock == s.lruClock + 1 && t.history == s.history + [k]
    && t.tlb == s.tlb && t.swamp == s.swamp && t.hand == s.hand && t.rollBack == s.rollBack
    && t.refused == s.refused && t.lost == s.lost && t.doubles == s.doubles
  }

  lemma MoreStamps(c: Settings, s: Mem, t: Mem, k: Key)
    requires StampsAreHistory(s) && OnePageMore(c, s, t, k)
    ensures StampsAreHistory(t)
  {
    forall q | Has(t, q)
      ensures var m := PageOf(t, q).stamp;
        1 <= m <= |t.history| && t.history[m - 1] == q && forall i :: m <= i < |t.history| ==> t.history[i] != q
    {
      assert q != k ==> Has(s, q) && PageOf(t, q) == PageOf(s, q);
    }
  }

  lemma MoreFrames(c: Settings, s: Mem, t: Mem, k: Key)
    requires FramesExclusive(c, s) && TlbAgrees(c, s) && OnePageMore(c, s, t, k)
    requires k.pid in s.tables || forall n :: Tlb.Lookup(s.tlb, k.pid, n).None?
    requires t.tables.Keys == s.tables.Keys + {k.pid}
    ensures FramesExclusive(c, t) && TlbAgrees(c, t)
  {
    forall q, l | Has(t, q) && Has(t, l) && SameFrame(PageOf(t, q), PageOf(t, l)) ensures q == l {
      assert q != k ==> Has(s, q);
      assert l != k ==> Has(s, l);
    }
    forall q: Key | q.pid in t.tables && q.page < MARK && Tlb.Lookup(t.tlb, q.pid, q.page).Some?
      ensures Has(t, q) && PageOf(t, q).present && Tlb.Lookup(t.tlb, q.pid, q.page) == Some(PageOf(t, q).frame)
    {
      assert q.pid in s.tables && Has(s, q);
    }
  }

  /** A page more keeps every invariant, and every other page keeps its bytes. */
  lemma MoreKeeps(c: Settings, s: Mem, t: Mem, k: Key)
    requires Inv(c, s) && OnePageMore(c, s, t, k) && Listed(t) && FramesSized(c, t) && k.pid != MARK
    requires k.pid in s.tables || forall n :: Tlb.Lookup(s.tlb, k.pid, n).None?
    requires t.tables.Keys == s.tables.Keys + {k.pid}
    requires forall f :: 0 <= f < c.frameCount && f != PageOf(t, k).frame ==> FrameAt(t, f) == FrameAt(s, f)
    ensures Inv(c, t) && Later(s, t)
    ensures forall q :: Has(s, q) ==> PageBytes(c, t, q) == PageBytes(c, s, q)
    ensures PageBytes(c, t, k) == FrameAt(t, PageOf(t, k).frame)
  {
    hide StampsAreHistory, FramesExclusive, TlbAgrees, PageBytes, FramesSized;
    MoreStamps(c, s, t, k);
    MoreFrames(c, s, t, k);
    MoreBytes(c, s, t, k);
  }

  lemma MoreBytes(c: Settings, s: Mem, t: Mem, k: Key)
    requires OnePageMore(c, s, t, k) && FramesExclusive(c, s)
    requires forall f :: 0 <= f < c.frameCount && f != PageOf(t, k).frame ==> FrameAt(t, f) == FrameAt(s, f)
    ensures forall q :: Has(s, q) ==> PageBytes(c, t, q) == PageBytes(c, s, q)
    ensures PageBytes(c, t, k) == FrameAt(t, PageOf(t, k).frame)
    ensures Backed(s) ==> Backed(t)
  {
  }

  /** What growing process `pid` by `n` pages does to the address spaces. */
  ghost predicate Grew(c: Settings, s: Mem, t: Mem, pid: nat, n: nat) {
    && t.order == s.order && t.tables.Keys == s.tables.Keys && pid in s.tables
    && (forall p :: p in s.tables ==>
         && t.tables[p].lastHeap == s.tables[p].lastHeap
         && |t.tables[p].pages| == |s.tables[p].pages| + if p == pid then n else 0)
    && Later(s, t) && SameSpacesBut(c, s, t, pid)
    && (Sound(t, pid) ==> Space(c, s, pid) <= Space(c, t, pid))
  }

  lemma GrewTwice(c: Settings, s: Mem, m: Mem, t: Mem, pid: nat, n: nat, k: nat)
    requires Grew(c, s, m, pid, n) && Grew(c, m, t, pid, k)
    ensures Grew(c, s, t, pid, n + k)
  {
    hide Space;
    SpacesTwice(c, s, m, t, pid);
    if Sound(t, pid) { LaterSound(m, t, pid); }
  }

  lemma KeptGrows(c: Settings, s: Mem, t: Mem, pid: nat)
    requires Kept(c, s, t) && pid in s.tables
    ensures Grew(c, s, t, pid, 0)
  {
    hide Inv, Space;
    forall p | p in s.tables && Sound(t, p) ensures Space(c, t, p) == Space(c, s, p) {
      SameBytesSameSpace(c, s, t, p);
    }
  }

  lemma AddedIsMore(c: Settings, s: Mem, pid: nat)
    requires Listed(s) && FramesSized(c, s) && pid in s.tables && FreeFrame(c, s, 0) < c.frameCount
    requires |s.tables[pid].pages| + 1 < MARK
    ensures var t, k := AddedPage(c, s, pid), Key(pid, |s.tables[pid].pages| + 1);
      && OnePageMore(c, s, t, k) && Listed(t) && FramesSized(c, t) && t.tables.Keys == s.tables.Keys
      && t.frames == s.frames
  {
    var t, k := AddedPage(c, s, pid), Key(pid, |s.tables[pid].pages| + 1);
    forall q ensures Has(t, q) <==> Has(s, q) || q == k {}
    forall q | Has(s, q) ensures Has(t, q) && PageOf(t, q) == PageOf(s, q) {}
  }

  /** The page added takes the first frame without owner. */
  lemma AddedOwns(c: Settings, m: Mem, pid: nat)
    requires pid in m.tables && FreeFrame(c, m, 0) < c.frameCount
    ensures forall f :: 0 <= f < c.frameCount ==>
      (Owned(AddedPage(c, m, pid), f) <==> Owned(m, f) || f == FreeFrame(c, m, 0))
  {
    var t, k := AddedPage(c, m, pid), Key(pid, |m.tables[pid].pages| + 1);
    forall q ensures Has(t, q) <==> Has(m, q) || q == k {}
    forall q | Has(m, q) ensures PageOf(t, q) == PageOf(m, q) {}
    forall f | 0 <= f < c.frameCount ensures Owned(t, f) <==> Owned(m, f) || f == FreeFrame(c, m, 0) {
      if q :| Has(m, q) && PageOf(m, q).frame == f { assert Has(t, q) && PageOf(t, q).frame == f; }
      if f == FreeFrame(c, m, 0) { assert Has(t, k) && PageOf(t, k).frame == f; }
    }
  }

  /** A page added, after a replacement if no frame was free, counts as one access. */
  lemma AddedCounts(c: Settings, s: Mem, who: nat, m: Mem, pid: nat)
    requires Inv(c, s) && Later(s, m) && m.lruClock == s.lruClock
    requires pid in m.tables && FreeFrame(c, m, 0) < c.frameCount && (m == s || Evicted(c, s, who, m))
    ensures Counted(c, s, AddedPage(c, m, pid), 1)
  {
    hide Inv, Evicted, FreeFrame, AllOwned;
    var t := AddedPage(c, m, pid);
    assert Landed(t, Key(pid, |m.tables[pid].pages| + 1));
    AddedOwns(c, m, pid);
    if m == s {
      FreeIsNotOwned(c, s);
    } else if AllOwned(c, s) && t.doubles == s.doubles {
      EvictedOwns(c, s, who, m);
      OneFreeFrame(c, m, t);
    }
  }

  lemma FreeIsNotOwned(c: Settings, s: Mem)
    requires FreeFrame(c, s, 0) < c.frameCount
    ensures !AllOwned(c, s)
  {
  }

  /**
   A page added lies behind the address space there was, in the first free frame, and shows what that held; no
   byte there was changes.
   */
  lemma AddedGrows(c: Settings, s: Mem, pid: nat)
    requires Inv(c, s) && pid in s.tables && FreeFrame(c, s, 0) < c.frameCount && |s.tables[pid].pages| + 1 < MARK
    ensures Inv(c, AddedPage(c, s, pid)) && Grew(c, s, AddedPage(c, s, pid), pid, 1)
    ensures var t, k := AddedPage(c, s, pid), Key(pid, |s.tables[pid].pages| + 1);
      Has(t, k) && IsFirstFree(c, s, PageOf(t, k).frame) && PageBytes(c, t, k) == FrameAt(s, PageOf(t, k).frame)
  {
    hide Space, PageBytes, StampsAreHistory, FramesExclusive, TlbAgrees, OnePageMore;
    var t, k := AddedPage(c, s, pid), Key(pid, |s.tables[pid].pages| + 1);
    AddedIsMore(c, s, pid);
    MoreKeeps(c, s, t, k);
    MoreSpaces(c, s, t, k);
  }

  lemma MoreSpaces(c: Settings, s: Mem, t: Mem, k: Key)
    requires Structure(c, s) && Structure(c, t) && k.pid in s.tables && t.tables.Keys == s.tables.Keys
    requires forall p :: p in s.tables ==> |t.tables[p].pages| == |s.tables[p].pages| + if p == k.pid then 1 else 0
    requires forall q :: Has(s, q) ==> Has(t, q) && PageBytes(c, t, q) == PageBytes(c, s, q)
    ensures SameSpacesBut(c, s, t, k.pid) && Space(c, s, k.pid) <= Space(c, t, k.pid)
  {
    hide PageBytes, Structure;
    forall p | p in s.tables ensures SamePrefix(PageList(c, s, p), PageList(c, t, p)) {
      forall j | 0 <= j < |s.tables[p].pages| ensures PageList(c, t, p)[j] == PageList(c, s, p)[j] {
        assert Has(s, Nth(p, j));
      }
    }
    forall p | p in s.tables && p != k.pid ensures Space(c, t, p) == Space(c, s, p) {
      assert PageList(c, t, p) == PageList(c, s, p);
    }
    ListSized(c, s, k.pid);
    ListSized(c, t, k.pid);
    StructureMeans(c, s);
    FlatPrefix(PageList(c, s, k.pid), PageList(c, t, k.pid), c.pageSize);
  }

  ghost predicate SamePrefix(a: seq<seq<byte>>, b: seq<seq<byte>>) {
    |a| <= |b| && forall j :: 0 <= j < |a| ==> b[j] == a[j]
  }

  // ---- processes created and deleted -------------------------------------------------------------

  lemma CreatedIsMore(c: Settings, s: Mem, pid: nat)
    requires Listed(s) && FramesSized(c, s) && c.pageSize >= 9 && pid !in s.tables && FreeFrame(c, s, 0) < c.frameCount
    ensures var t, k := Created(c, s, pid), Key(pid, 1);
      && OnePageMore(c, s, t, k) && Listed(t) && FramesSized(c, t) && t.tables.Keys == s.tables.Keys + {pid}
      && PageOf(t, k).frame == FreeFrame(c, s, 0)
      && (forall f :: 0 <= f < c.frameCount && f != PageOf(t, k).frame ==> FrameAt(t, f) == FrameAt(s, f))
      && FrameAt(t, PageOf(t, k).frame) == Patch(FrameAt(s, PageOf(t, k).frame), 0, H.Header(0, 0, H.FREE))
  {
    var t, k := Created(c, s, pid), Key(pid, 1);
    forall q ensures Has(t, q) <==> Has(s, q) || q == k {}
    forall q | Has(s, q) ensures Has(t, q) && PageOf(t, q) == PageOf(s, q) {}
    assert pid !in s.order;
  }

  /** A new process has the header of an empty heap in its only page; no other process sees a change. */
  lemma CreatedKeeps(c: Settings, s: Mem, pid: nat)
    requires Inv(c, s) && pid !in s.tables && pid != MARK && FreeFrame(c, s, 0) < c.frameCount
    requires forall n :: Tlb.Lookup(s.tlb, pid, n).None?
    ensures var t := Created(c, s, pid);
      && Inv(c, t) && Later(s, t) && pid in t.tables
      && (forall p :: p in s.tables ==> Space(c, t, p) == Space(c, s, p))
      && (c.pageSize < H.ADDRESS_LIMIT ==> H.Chain(HeapOf(c, t, pid), [0]) && H.Live(HeapOf(c, t, pid), [0]) == map[])
      && H.HasHeader(Space(c, t, pid), 0) && H.IsFree(Space(c, t, pid), 0)
      && Has(t, Key(pid, 1)) && IsFirstFree(c, s, PageOf(t, Key(pid, 1)).frame)
  {
    hide Space, PageBytes, StampsAreHistory, FramesExclusive, TlbAgrees, OnePageMore, PageList;
    var t, k := Created(c, s, pid), Key(pid, 1);
    CreatedIsMore(c, s, pid);
    MoreKeeps(c, s, t, k);
    forall p | p in s.tables ensures Space(c, t, p) == Space(c, s, p) {
      SamePagesSameSpace(c, s, t, p);
    }
    EmptyHeap(c, t, pid, FrameAt(s, FreeFrame(c, s, 0)));
  }

  lemma SamePagesSameSpace(c: Settings, s: Mem, t: Mem, p: nat)
    requires p in s.tables && p in t.tables && |t.tables[p].pages| == |s.tables[p].pages|
    requires forall q :: Has(s, q) && q.pid == p ==> Has(t, q) && PageBytes(c, t, q) == PageBytes(c, s, q)
    ensures Space(c, t, p) == Space(c, s, p)
  {
    assert PageList(c, t, p) == PageList(c, s, p) by {
      forall j | 0 <= j < |s.tables[p].pages| ensures PageList(c, t, p)[j] == PageList(c, s, p)[j] {
        assert Has(s, Nth(p, j));
      }
    }
  }

  lemma EmptyHeap(c: Settings, t: Mem, pid: nat, was: seq<byte>)
    requires Structure(c, t) && pid in t.tables && t.tables[pid].lastHeap == 0 && |t.tables[pid].pages| == 1
    requires |was| == c.pageSize && PageBytes(c, t, Key(pid, 1)) == Patch(was, 0, H.Header(0, 0, H.FREE))
    ensures c.pageSize < H.ADDRESS_LIMIT ==> H.Chain(HeapOf(c, t, pid), [0]) && H.Live(HeapOf(c, t, pid), [0]) == map[]
    ensures H.HasHeader(Space(c, t, pid), 0) && H.IsFree(Space(c, t, pid), 0)
  {
    hide PageBytes, Structure, Space;
    var b := Space(c, t, pid);
    StructureMeans(c, t);
    PageSlice(c, t, Key(pid, 1), 0, H.HEADER);
    assert Pages(c.pageSize, 1) == Pages(c.pageSize, 0) + c.pageSize;
    assert b[0..H.HEADER] == H.Header(0, 0, H.FREE);
    H.HeaderWritten(b, 0, 0, 0, H.FREE);
  }

  lemma {:induction false} RemoveIs(order: seq<nat>, pid: nat)
    requires forall i, j :: 0 <= i < j < |order| ==> order[i] != order[j]
    ensures pid !in Remove(order, pid)
    ensures forall p :: p in order && p != pid ==> p in Remove(order, pid)
    ensures forall i, j :: 0 <= i < j < |Remove(order, pid)| ==> Remove(order, pid)[i] != Remove(order, pid)[j]
  {
    if order != [] && order[0] != pid {
      RemoveIs(order[1..], pid);
      var rest := Remove(order[1..], pid);
      assert order[0] !in order[1..];
      forall i, j | 0 <= i < j < |rest| + 1 ensures ([order[0]] + rest)[i] != ([order[0]] + rest)[j] {
        assert i == 0 ==> rest[j - 1] in rest;
      }
    }
  }

  /** `t` has some of the pages of `s`, unchanged. */
  ghost predicate FewerPages(s: Mem, t: Mem) {
    && t.tables.Keys <= s.tables.Keys && (forall q :: Has(t, q) ==> Has(s, q) && PageOf(t, q) == PageOf(s, q))
    && t.history == s.history && t.lruClock == s.lruClock && t.frames == s.frames && t.hand == s.hand
  }

  lemma FewerKeep(c: Settings, s: Mem, t: Mem)
    requires Structure(c, s) && FewerPages(s, t) && Listed(t) && DynamicOk(c.swap, t.swamp)
    ensures Structure(c, t)
  {
    hide DynamicOk, Listed;
    assert FramesExclusive(c, t) && StampsAreHistory(t) && Numbered(t);
  }

  lemma DeletedStructure(c: Settings, s: Mem, pid: nat)
    requires Inv(c, s) && pid in s.tables
    ensures Inv(c, Deleted(c, s, pid)) && Deleted(c, s, pid).tables.Keys == s.tables.Keys - {pid}
  {
    hide Tlb.Lookup, Rowed, Backed, Finish, FramesExclusive, StampsAreHistory, Numbered;
    var t := Deleted(c, s, pid);
    RemoveIs(s.order, pid);
    NotMarked(s, pid);
    FinishKeepsRowed(c.swap, s.swamp, pid);
    forall q ensures Has(t, q) <==> Has(s, q) && q.pid != pid {}
    forall q | Has(t, q) ensures PageOf(t, q) == PageOf(s, q) {}
    FewerKeep(c, s, t);
    assert TlbAgrees(c, t);
    DeletedBacked(c, s, pid);
  }

  lemma NotMarked(s: Mem, pid: nat)
    requires Numbered(s) && pid in s.tables
    ensures pid != MARK
  {
  }

  /** Swap keeps the copies of every other process. */
  lemma DeletedBacked(c: Settings, s: Mem, pid: nat)
    requires Inv(c, s) && pid in s.tables
    ensures Backed(Deleted(c, s, pid))
  {
    hide FramesWhole, RowsOwned, RowsReal, Fetch, Finish;
    var t := Deleted(c, s, pid);
    forall k | Has(t, k) && !PageOf(t, k).present && Sound(t, k.pid) ensures Fetch(t.swamp, k.pid, k.page).Some? {
      assert Has(s, k) && PageOf(s, k) == PageOf(t, k) && Sound(s, k.pid);
      FinishIsExact(c.swap, s.swamp, pid, k.pid, k.page);
    }
  }

  /** The frames of a deleted process have no owner any more. */
  lemma DeletedFrames(c: Settings, s: Mem, pid: nat, k: Key)
    requires FramesExclusive(c, s) && Has(s, k) && k.pid == pid && PageOf(s, k).present
    ensures !Owned(Deleted(c, s, pid), PageOf(s, k).frame)
  {
    var t := Deleted(c, s, pid);
    forall l | Has(t, l) ensures PageOf(t, l).frame != PageOf(s, k).frame {
      assert Has(s, l) && !SameFrame(PageOf(s, l), PageOf(s, k));
    }
  }

  /** Deleting a process takes its pages out of swap, and nobody else's. */
  lemma DeletedTakesOut(c: Settings, s: Mem, pid: nat)
    requires Inv(c, s) && pid in s.tables
    ensures TakenOut(c.swap, s.swamp, Deleted(c, s, pid).swamp, pid)
  {
    hide Finish, FramesWhole, RowsReal, FramesExclusive, StampsAreHistory, TlbAgrees, TakenOut, Backed;
    NotMarked(s, pid);
    FinishTakesOut(c.swap, s.swamp, pid);
  }

  /** A process that is not registered yet can save as soon as some file holds only pages of the deleted one. */
  lemma DeletedMakesRoom(c: Settings, s: Mem, pid: nat, t: Mem, f: nat, q: int, n: int, content: seq<byte>)
    requires Inv(c, t) && TakenOut(c.swap, s.swamp, t.swamp, pid) && c.swap.frameCount > 0
    requires f < |s.swamp.files| && forall k :: 0 <= k < |s.swamp.files[f].rows| ==>
      s.swamp.files[f].rows[k].pid == pid || s.swamp.files[f].rows[k].pid == MARK
    requires q !in s.swamp.owner
    ensures Save(c.swap, t.swamp, q, n, content).0
  {
    hide Save, Rowed, Fetch;
    assert OnlyCleared(s.swamp.files[f], t.swamp.files[f], pid, Zeros(c.swap.pageSize));
    NoLiveRows(t.swamp.files[f].rows);
    DynamicSaveAccepted(c.swap, t.swamp, q, n, content);
  }

  /** Deleting a process keeps the structure, frees its frames, and no other process sees a change. */
  lemma DeletedKeeps(c: Settings, s: Mem, pid: nat)
    requires Inv(c, s) && pid in s.tables
    ensures var t := Deleted(c, s, pid);
      && Inv(c, t) && t.refused == s.refused && t.lost == s.lost && t.tables.Keys == s.tables.Keys - {pid}
      && (forall p :: p in t.tables ==> t.tables[p] == s.tables[p] && Space(c, t, p) == Space(c, s, p))
      && (forall q :: Has(s, q) && q.pid == pid && PageOf(s, q).present ==> !Owned(t, PageOf(s, q).frame))
  {
    hide Space, PageBytes, TlbAgrees, DynamicOk, Finish, Listed, FramesExclusive, StampsAreHistory, Numbered, Owned;
    var t := Deleted(c, s, pid);
    DeletedStructure(c, s, pid);
    forall p | p in t.tables ensures t.tables[p] == s.tables[p] && Space(c, t, p) == Space(c, s, p) {
      DeletedBytes(c, s, pid, p);
      SamePagesSameSpace(c, s, t, p);
    }
    forall q | Has(s, q) && q.pid == pid && PageOf(s, q).present ensures !Owned(t, PageOf(s, q).frame) {
      DeletedFrames(c, s, pid, q);
    }
  }

  lemma DeletedBytes(c: Settings, s: Mem, pid: nat, p: nat)
    requires Structure(c, s) && p in s.tables && p != pid
    ensures p in Deleted(c, s, pid).tables && Deleted(c, s, pid).tables[p] == s.tables[p]
    ensures forall q :: Has(s, q) && q.pid == p ==>
      Has(Deleted(c, s, pid), q) && PageBytes(c, Deleted(c, s, pid), q) == PageBytes(c, s, q)
  {
    forall q | Has(s, q) && q.pid == p
      ensures Has(Deleted(c, s, pid), q) && PageBytes(c, Deleted(c, s, pid), q) == PageBytes(c, s, q)
    {
      FinishIsExact(c.swap, s.swamp, pid, p, q.page);
    }
  }

  // ---- frames written behind the page's back --------------------------------------------------------

  /** memcpy into a frame, whoever owns it. */
  function SetFrame(s: Mem, f: nat, content: seq<byte>): Mem {
    s.(frames := PutAt(s.frames, f, content))
  }

  /** setPaginaAsModificado. */
  function Marked(s: Mem, k: Key): Mem
    requires Has(s, k)
  {
    SetPage(s, k, PageOf(s, k).(modified := true))
  }

  lemma SetFrameKeeps(c: Settings, s: Mem, f: nat, content: seq<byte>)
    requires Inv(c, s) && f < c.frameCount && |content| == c.pageSize
    ensures var t := SetFrame(s, f, content);
      && Inv(c, t) && t.tables == s.tables && t.order == s.order && Later(s, t)
      && forall q :: Has(s, q) ==>
           PageBytes(c, t, q) == if PageOf(s, q).present && PageOf(s, q).frame == f then content else PageBytes(c, s, q)
  {
    hide Tlb.Lookup, DynamicOk;
    var t := SetFrame(s, f, content);
    forall q ensures Has(t, q) <==> Has(s, q) {}
    forall q | Has(t, q) ensures PageOf(t, q) == PageOf(s, q) {}
    assert FramesExclusive(c, t) && StampsAreHistory(t) && Numbered(t) && TlbAgrees(c, t);
    assert Backed(t);
  }

  lemma MarkedKeeps(c: Settings, s: Mem, k: Key)
    requires Inv(c, s) && Has(s, k)
    ensures var t := Marked(s, k);
      && Inv(c, t) && DiffersAt(s, t, k) && PageOf(t, k) == PageOf(s, k).(modified := true) && Later(s, t)
      && t.frames == s.frames && SameBytes(c, s, t)
  {
    hide Tlb.Lookup, DynamicOk, StampsAreHistory;
    var t := Marked(s, k);
    forall q | Has(s, q) && q != k ensures !SameFrame(PageOf(s, q), PageOf(t, k)) {
      assert !SameFrame(PageOf(s, q), PageOf(s, k));
    }
    StructureKept(c, s, t, k);
    assert TlbAgrees(c, t);
    assert Backed(t);
  }

  // ---- a page stays in its frame while another is accessed -------------------------------------------

  /** Only page `k` may be in another frame than before. */
  ghost predicate OthersPut(s: Mem, t: Mem, k: Key) {
    forall q :: Has(s, q) && Has(t, q) && q != k && PageOf(t, q).present ==> SameFrame(PageOf(s, q), PageOf(t, q))
  }

  lemma FaultPuts(c: Settings, s: Mem, k: Key, e: Mem, t: Mem)
    requires Inv(c, s) && Has(s, k) && !PageOf(s, k).present && FaultedVia(c, Looked(c, s, k), k, e, t)
    ensures OthersPut(s, t, k)
  {
    hide Inv, Evicted, FreeFrame, SameBytes;
    var l := Looked(c, s, k);
    LookedKeeps(c, s, k);
    EvictedKeeps(c, l, k.pid, e);
    forall q | Has(s, q) && Has(t, q) && q != k && PageOf(t, q).present ensures SameFrame(PageOf(s, q), PageOf(t, q)) {
      assert Has(l, q) && Has(e, q);
    }
  }

  lemma AccessPuts(c: Settings, s: Mem, k: Key, t: Mem)
    requires Inv(c, s) && Has(s, k) && Accessed(c, s, k, t)
    ensures OthersPut(s, t, k)
    ensures PageOf(s, k).present ==> Has(t, k) && SameFrame(PageOf(s, k), PageOf(t, k))
  {
    hide Inv, FaultedVia;
    if !PageOf(s, k).present {
      var e :| FaultedVia(c, Looked(c, s, k), k, e, t);
      FaultPuts(c, s, k, e, t);
    }
  }
}
