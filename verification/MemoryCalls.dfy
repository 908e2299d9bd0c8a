/**
 The requests the memory process answers: creating and deleting processes, memalloc, memfree,
 memread and memwrite, step by step on the paged memory as the original takes them.
 */
module MemoryCalls {
  import opened Arith
  import opened Bytes
  import opened Faults
  import opened Outcomes
  import opened Options
  import opened Swap
  import opened Paging
  import opened Replacement
  import opened FlatSpace
  import opened Spaces
  import opened HeapOps
  import opened FreeFlag
  import opened HeapCalls
  import opened Changes
  import opened SwapTraffic
  import H = Heap
  import M = Memory
  import R = HeapRuns
  import Tlb

  class Calls {
    const memory: M.Memory

    ghost function State(): Mem
      requires memory.Fits()
      reads memory, memory.memoria
    {
      memory.State()
    }

    ghost predicate Valid()
      reads memory, memory.memoria
    {
      memory.Valid()
    }

    const cfg: Settings := memory.cfg

    constructor (m: M.Memory)
      requires m.Valid()
      ensures memory == m && Valid()
    {
      memory := m;
    }

    // ---- processes ------------------------------------------------------------------------------------

    /** inicializarUnProceso under dynamic assignment: a process with one page and an empty heap. */
    method CreateProcess(pid: nat) returns (r: Outcome<()>)
      requires Valid() && pid !in memory.tables && pid != MARK && forall n :: Tlb.Lookup(memory.tlb, pid, n).None?
      modifies memory`order, memory`tables, memory`lruClock, memory`history, memory.memoria
      ensures Valid()
      ensures r.Stuck? <==> FreeFrame(cfg, old(State()), 0) == cfg.frameCount
      ensures r.Stuck? ==> State() == old(State())
      ensures r.Done? ==> State() == Created(cfg, old(State()), pid)
      ensures r.Done? && cfg.pageSize < H.ADDRESS_LIMIT ==>
        && pid in memory.tables && H.Chain(HeapOf(cfg, State(), pid), [0])
        && H.Live(HeapOf(cfg, State(), pid), [0]) == map[]
      ensures r.Done? ==>
        pid in memory.tables && H.HasHeader(Space(cfg, State(), pid), 0) && H.IsFree(Space(cfg, State(), pid), 0)
    {
      hide H.Chain, H.Live, Inv, Created, Space;
      InvMeans(cfg, State());
      var f := memory.NewEmptyFrame();
      if f == cfg.frameCount {
        return Stuck;
      }
      CreatedKeeps(cfg, State(), pid);
      EnterProcess(pid, f);
      return Done(());
    }

    /** The first page of a new process, with the header of an empty heap, and its table. */
    method EnterProcess(pid: nat, f: nat)
      requires Valid() && f == FreeFrame(cfg, State(), 0) < cfg.frameCount && cfg.pageSize >= 9
      modifies memory`order, memory`tables, memory`lruClock, memory`history, memory.memoria
      ensures memory.Fits() && State() == Created(cfg, old(State()), pid)
    {
      hide Inv;
      memory.WriteFrame(f, 0, H.Header(0, 0, H.FREE));
      memory.lruClock := memory.lruClock + 1;
      memory.history := memory.history + [Key(pid, 1)];
      memory.order := memory.order + [pid];
      memory.tables := memory.tables[pid := Table(0, [Page(1, f, true, true, true, memory.lruClock)])];
    }

    /** delete_process. */
    method DeleteProcess(pid: nat)
      requires Valid() && pid in memory.tables
      modifies memory`order, memory`tables, memory`swamp
      ensures Valid() && State() == Deleted(cfg, old(State()), pid)
      ensures forall p :: p in memory.tables ==> Space(cfg, State(), p) == Space(cfg, old(State()), p)
      ensures TakenOut(cfg.swap, old(memory.swamp), memory.swamp, pid)
    {
      hide Inv, Space, TakenOut;
      DeletedKeeps(cfg, State(), pid);
      DeletedTakesOut(cfg, State(), pid);
      memory.swamp := Finish(cfg.swap, memory.swamp, pid);
      memory.order := Remove(memory.order, pid);
      memory.tables := memory.tables - {pid};
    }

    // ---- pages at the end of a process -------------------------------------------------------------------

    /** getLastPageDe: the highest page number. */
    method LastPage(pid: nat) returns (n: nat)
      requires Valid() && pid in memory.tables
      ensures n == |memory.tables[pid].pages|
    {
      n := 0;
      var i := 0;
      while i < |memory.tables[pid].pages|
        invariant i <= |memory.tables[pid].pages| && n == i
      {
        assert Has(State(), Key(pid, i + 1));
        if n < memory.tables[pid].pages[i].num {
          n := memory.tables[pid].pages[i].num;
        }
        i := i + 1;
      }
    }

    /** getNewEmptyFrame, and once more after a replacement if there was none. */
    method FrameFor(pid: nat) returns (r: Outcome<nat>)
      requires Valid() && pid in memory.tables
      modifies memory, memory.memoria
      ensures Valid() && Later(old(State()), State())
      ensures Reaches(cfg, old(State()), State())
      ensures r.Done? ==> State() == old(State()) || Evicted(cfg, old(State()), pid, State())
      ensures r.Done? ==>
        Grew(cfg, old(State()), State(), pid, 0) && r.value == FreeFrame(cfg, State(), 0) < cfg.frameCount
      ensures r.Done? ==> memory.lruClock == old(memory.lruClock) && Noted(old(State()), State())
      ensures r.Stuck? ==> !Sure(cfg, old(State()), State(), 1)
    {
      hide Reaches, Inv, Space, CanEvict, Evicted, Grew, Kept, Ready;
      ghost var s := State();
      KeptItself(cfg, s);
      KeptGrows(cfg, s, s, pid);
      ReachesItself(cfg, s);
      var f := memory.NewEmptyFrame();
      if f == cfg.frameCount {
        var room := memory.MakeRoom(pid);
        if room.Stuck? {
          if Sure(cfg, s, State(), 1) { SureVacates(cfg, s); }
          TurnReaches(cfg, s, State());
          return Stuck;
        }
        VacateReaches(cfg, s, pid, State());
        EvictedNoted(cfg, s, pid, State());
        EvictedKeeps(cfg, s, pid, State());
        ReplacedKept(cfg, s, State());
        KeptGrows(cfg, s, State(), pid);
        KeptLater(cfg, s, State());
        f := memory.NewEmptyFrame();
      }
      return Done(f);
    }

    /** The record of a new page. */
    method AppendPage(pid: nat, n: nat, f: nat)
      requires Valid() && pid in memory.tables && n == |memory.tables[pid].pages| && f == FreeFrame(cfg, State(), 0)
      modifies memory`tables, memory`lruClock, memory`history
      ensures memory.Fits() && State() == AddedPage(cfg, old(State()), pid)
    {
      memory.lruClock := memory.lruClock + 1;
      memory.history := memory.history + [Key(pid, n + 1)];
      var table, p := memory.tables[pid], Page(n + 1, f, true, true, false, memory.lruClock);
      memory.tables := memory.tables[pid := table.(pages := table.pages + [p])];
    }

    /** One turn of the loop of agregarXPaginasPara. */
    method AddPage(pid: nat) returns (r: Outcome<()>)
      requires Valid() && pid in memory.tables && |memory.tables[pid].pages| + 1 < MARK
      modifies memory, memory.memoria
      ensures Valid() && Later(old(State()), State())
      ensures Reaches(cfg, old(State()), State())
      ensures r.Done? ==> Grew(cfg, old(State()), State(), pid, 1) && Counted(cfg, old(State()), State(), 1)
      ensures r.Done? ==> Noted(old(State()), State())
      ensures r.Stuck? ==> !Sure(cfg, old(State()), State(), 1)
    {
      hide Reaches, Inv, Space, AddedPage, Sure, Counted, Evicted, FreeFrame;
      ghost var s := State();
      var n := LastPage(pid);
      var f := FrameFor(pid);
      if f.Stuck? {
        return Stuck;
      }
      ghost var m := State();
      AddedGrows(cfg, m, pid);
      AddedNoted(cfg, m, pid);
      NotedTwice(s, m, AddedPage(cfg, m, pid));
      AppendPage(pid, n, f.value);
      ReachesOne(cfg, s, m, Grow(pid), State());
      AddedCounts(cfg, s, pid, m, pid);
      GrewTwice(cfg, s, m, State(), pid, 0, 1);
      return Done(());
    }

    /** agregarXPaginasPara under dynamic assignment. */
    method AddPages(pid: nat, room: nat) returns (r: Outcome<()>)
      requires Valid() && pid in memory.tables && |memory.tables[pid].pages| + PageIndex(cfg.pageSize, room) + 1 < MARK
      modifies memory, memory.memoria
      ensures Valid()
      ensures Reaches(cfg, old(State()), State())
      ensures r.Done? ==> Grew(cfg, old(State()), State(), pid, PageIndex(cfg.pageSize, room) + 1)
      ensures r.Done? ==> Noted(old(State()), State())
      ensures cfg.pageSize > 0
      ensures r.Done? ==> Counted(cfg, old(State()), State(), PageIndex(cfg.pageSize, room) + 1)
      ensures r.Stuck? ==> !Sure(cfg, old(State()), State(), PageIndex(cfg.pageSize, room) + 1)
      ensures Later(old(State()), State())
    {
      hide Reaches, Inv, Space, Kept, Sure, Counted;
      ghost var s := State();
      KeptItself(cfg, s);
      KeptGrows(cfg, s, s, pid);
      CountedNone(cfg, s);
      ReachesItself(cfg, s);
      InvMeans(cfg, s);
      var left := PageIndex(cfg.pageSize, room) + 1;
      ghost var added := 0;
      while left != 0
        invariant Valid() && Grew(cfg, s, State(), pid, added) && Later(s, State()) && Counted(cfg, s, State(), added)
        invariant Reaches(cfg, s, State()) && Noted(s, State())
        invariant 0 <= left && added + left == PageIndex(cfg.pageSize, room) + 1
        decreases left
      {
        ghost var m := State();
        r := AddPage(pid);
        ReachesTwice(cfg, s, m, State());
        if r.Stuck? {
          NotSure(cfg, s, m, State(), added, 1, added + left);
          return;
        }
        CountedTwice(cfg, s, m, State(), added, 1);
        NotedTwice(s, m, State());
        GrewTwice(cfg, s, m, State(), pid, added, 1);
        added := added + 1;
        left := left - 1;
      }
      return Done(());
    }

    /** deletePagina: the page in place `i` of the list goes, and so does its buffer entry. */
    method DeletePage(pid: nat, n: nat, ghost i: nat)
      requires memory.Fits() && pid in memory.tables && i < |memory.tables[pid].pages|
      requires memory.tables[pid].pages[i].num == n
      requires forall j :: 0 <= j < i ==> memory.tables[pid].pages[j].num != n
      modifies memory`tables, memory`tlb
      ensures var table := old(memory.tables[pid]);
        memory.tables == old(memory.tables)[pid := table.(pages := table.pages[..i] + table.pages[i + 1..])]
      ensures memory.tlb == if cfg.tlbMax == 0 then old(memory.tlb)
                     else Tlb.Drop(Tlb.Used(old(memory.tlb), pid, n), pid, n, old(memory.tables[pid].pages)[i].frame)
    {
      if cfg.tlbMax > 0 {
        var hit := memory.TlbFetch(pid, n);
      }
      var pages := memory.tables[pid].pages;
      var k := 0;
      while pages[k].num != n
        invariant k <= i
        decreases i - k
      {
        k := k + 1;
      }
      memory.TlbDelete(pid, n, pages[k].frame);
      memory.tables := memory.tables[pid := memory.tables[pid].(pages := pages[..k] + pages[k + 1..])];
    }

    /** The roll-back loop of memalloc, deleting pages `k` + 1 to `last`: what is left is the first `k` pages. */
    method RollBack(pid: nat, k: nat, last: nat)
      requires Valid() && pid in memory.tables && k <= last == |memory.tables[pid].pages|
      modifies memory`tables, memory`tlb
      ensures Valid() && State() == CutBy(cfg, old(State()), pid, k) && CutTo(cfg, old(State()), State(), pid, k)
      ensures Reaches(cfg, old(State()), State())
    {
      hide Reaches, Inv, CutTo, Space, Tlb.Drop, Tlb.Used, DropPages;
      ghost var s := State();
      NumbersInOrder(cfg, s, pid);
      CutMeets(cfg, s, pid, k);
      DeletePages(pid, k, last);
    }

    method DeletePages(pid: nat, k: nat, last: nat)
      requires memory.Fits() && pid in memory.tables && k <= last == |memory.tables[pid].pages|
      requires forall i :: 0 <= i < last ==> memory.tables[pid].pages[i].num == i + 1
      modifies memory`tables, memory`tlb
      ensures var table := old(memory.tables[pid]);
        memory.tables == old(memory.tables)[pid := table.(pages := table.pages[..k])]
      ensures memory.tlb == DropPages(cfg, old(memory.tlb), pid, old(memory.tables[pid].pages), k, last)
    {
      hide Tlb.Drop, Tlb.Used, DropPages;
      ghost var tables, was, buffer := memory.tables, memory.tables[pid].pages, memory.tlb;
      assert was[..k] + was[k..] == was;
      DropsNone(cfg, buffer, pid, was, k);
      var n := k + 1;
      while n <= last
        invariant k + 1 <= n <= last + 1
        invariant memory.tables == tables[pid := tables[pid].(pages := was[..k] + was[n - 1..])]
        invariant memory.tlb == DropPages(cfg, buffer, pid, was, k, n - 1)
      {
        OneLess(was, k, n - 1);
        DropsNext(cfg, buffer, pid, was, k, n - 1);
        DeletePage(pid, n, k);
        n := n + 1;
      }
      assert was[..k] + was[n - 1..] == was[..k];
    }

    // ---- memalloc ------------------------------------------------------------------------------------------

    /** The nine bytes at `at`, read page by page. */
    method Look(pid: nat, at: nat, ghost s: Mem, ghost ch: seq<nat>, ghost k: nat, ghost n: nat)
      returns (r: Outcome<seq<byte>>)
      requires Valid() && pid in memory.tables && pid in s.tables && Unseen(cfg, s, State())
      requires H.Chain(HeapOf(cfg, s, pid), ch)
      requires H.HasHeader(Space(cfg, s, pid), at)
      modifies memory, memory.memoria
      ensures Valid() && SameShape(s, State())
      ensures Reaches(cfg, old(State()), State())
      ensures r.Done? ==> |r.value| == H.HEADER && Unseen(cfg, s, State())
      ensures Later(old(State()), State())
      ensures r.Done? && Sound(State(), pid) && k < |ch| && at == ch[k] && at < s.tables[pid].lastHeap ==>
        HeaderSeen(HeapOf(cfg, s, pid), ch, k, n, r.value)
      ensures r.Done? ==> Counted(cfg, old(State()), State(), 2)
      ensures r.Stuck? ==> !Sure(cfg, old(State()), State(), 2)
    {
      hide Reaches, Inv, Space, H.Chain, SameShape, HeaderSeen, SomePresent, Touches;
      InvMeans(cfg, State());
      TouchesFew(cfg.pageSize, at, H.HEADER);
      ghost var m := State();
      SameSize(cfg, s, m, pid);
      r := memory.Read(pid, at, H.HEADER);
      ShapeTwice(s, m, State());
      if r.Done? {
        ReadUnseen(cfg, m, State(), pid, at, r.value);
        UnseenTwice(cfg, s, m, State());
        if Sound(State(), pid) && k < |ch| && at == ch[k] && at < s.tables[pid].lastHeap {
          HeaderIsSeen(HeapOf(cfg, s, pid), ch, k, n, r.value);
        }
      }
    }

    /**
     entraEnElEspacioLibre: the first free block that holds `n` bytes. When reading leads out of
     the process's pages or does not move on, the original has no defined result.
     */
    method FindFit(pid: nat, n: nat, ghost ch: seq<nat>) returns (r: Outcome<Option<nat>>)
      requires Valid() && pid in memory.tables && H.Chain(HeapOf(cfg, State(), pid), ch)
      modifies memory, memory.memoria
      ensures Valid() && SameShape(old(State()), State())
      ensures Reaches(cfg, old(State()), State())
      ensures r.Done? ==> Unseen(cfg, old(State()), State())
      ensures r.Done? && r.value.Some? ==> H.HasHeader(Space(cfg, old(State()), pid), r.value.value)
      ensures r.Done? && Sound(State(), pid) ==>
        var k := R.Choice(HeapOf(cfg, old(State()), pid), ch, n);
        r.value == if k < |ch| - 1 then Some(ch[k]) else None
      ensures r.Done? && Sound(State(), pid) ==> Counted(cfg, old(State()), State(), 2 * |ch|)
      ensures r.Stuck? && Sound(State(), pid) ==> !Sure(cfg, old(State()), State(), 2 * |ch|)
    {
      hide Reaches, Inv, Space, H.Chain, SameShape, R.Choice, H.Fits, NoneFits, Sure, Counted, Unseen;
      ghost var s := State();
      ghost var h := HeapOf(cfg, s, pid);
      ghost var k := 0;
      UnseenItself(cfg, s);
      ReachesItself(cfg, s);
      FirstBlock(h, ch, n);
      CountedNone(cfg, s);
      CountedMore(cfg, s, s, 0, 2);
      SameShapeItself(s);
      var last := memory.tables[pid].lastHeap;
      var at := 0;
      if at < last {
        var hdr := Look(pid, at, s, ch, k, n);
        if hdr.Stuck? {
          NotSureMore(cfg, s, State(), 2, 2 * |ch|);
          return Stuck;
        }
        CountedMore(cfg, s, State(), 2, 2 * |ch|);
        if hdr.value[8] != H.BUSY && at + H.HEADER + n <= WordAt(hdr.value, 4) {
          if Sound(State(), pid) { FitFound(h, ch, n, k); }
          return Done(Some(at));
        }
      }
      while at < last
        invariant Valid() && Unseen(cfg, s, State()) && Reaches(cfg, s, State()) && H.HasHeader(h.bytes, at)
        invariant SameShape(s, State())
        invariant Sound(State(), pid) ==>
          k < |ch| && at == ch[k] && NoneFits(h.bytes, ch, n, k) && Counted(cfg, s, State(), 2 * k + 2)
        decreases last - at
      {
        SameSize(cfg, s, State(), pid);
        ghost var m := State();
        var hdr := Look(pid, at, s, ch, k, n);
        ReachesTwice(cfg, s, m, State());
        if hdr.Stuck? {
          if Sound(State(), pid) { NotSure(cfg, s, m, State(), 2 * k + 2, 2, 2 * |ch|); }
          return Stuck;
        }
        if Sound(State(), pid) {
          CountedTwice(cfg, s, m, State(), 2 * k + 2, 2);
          CountedMore(cfg, s, State(), 2 * k + 4, 2 * |ch|);
        }
        var next := WordAt(hdr.value, 4);
        if hdr.value[8] == H.FREE && at + H.HEADER + n <= next {
          if Sound(State(), pid) { FitFound(h, ch, n, k); }
          return Done(Some(at));
        }
        SameSize(cfg, s, State(), pid);
        if next <= at || next + H.HEADER > Pages(cfg.pageSize, |memory.tables[pid].pages|) {
          return Stuck;
        }
        if Sound(State(), pid) { NoneFitsNext(h, ch, n, k); }
        at := next;
        k := k + 1;
      }
      if Sound(State(), pid) {
        FitNone(h, ch, n, k, at);
        CountedMore(cfg, s, State(), 2 * k + 2, 2 * |ch|);
      }
      return Done(None);
    }

    /** The two edits of memalloc: close the old last header, write the new one. */
    method WriteHeaders(pid: nat, last: nat, n: nat) returns (r: Outcome<()>)
      requires Valid() && pid in memory.tables && H.HasHeader(Space(cfg, State(), pid), H.NewLast(last, n))
      requires H.NewLast(last, n) < WORD_LIMIT
      modifies memory, memory.memoria
      ensures Valid() && SameShape(old(State()), State())
      ensures Reaches(cfg, old(State()), State())
      ensures r.Done? ==>
        HeadersWritten(cfg, old(State()), State(), pid, last, n) && Counted(cfg, old(State()), State(), 4)
      ensures r.Done? ==> Noted(old(State()), State())
      ensures r.Stuck? ==> !Sure(cfg, old(State()), State(), 4)
      ensures Later(old(State()), State())
    {
      hide Reaches, Inv, SameShape, Written, SomePresent, Touches, Space, Closing, H.Header;
      InvMeans(cfg, State());
      TouchesFew(cfg.pageSize, last + 4, 5);
      TouchesFew(cfg.pageSize, H.NewLast(last, n), H.HEADER);
      ghost var g := State();
      r := memory.Edit(pid, last + 4, Closing(last, n));
      if r.Done? {
        ghost var e := State();
        ShapeSize(cfg, g, e, pid);
        r := memory.Edit(pid, H.NewLast(last, n), H.Header(last, 0, H.BUSY));
        if r.Done? { NotedTwice(g, e, State()); }
        ShapeTwice(g, e, State());
        ReachesTwice(cfg, g, e, State());
      }
    }

    method MoveLast(pid: nat, last: nat)
      requires memory.Fits() && pid in memory.tables
      modifies memory`tables
      ensures State() == SetLast(old(State()), pid, last)
    {
      memory.tables := memory.tables[pid := memory.tables[pid].(lastHeap := last)];
    }

    /** memalloc when the block fits behind the last header in the pages there are. */
    method AllocateInPlace(pid: nat, n: nat, ghost s: Mem, ghost ch: seq<nat>) returns (r: Outcome<nat>)
      requires Valid() && pid in s.tables && Unseen(cfg, s, State()) && H.Chain(HeapOf(cfg, s, pid), ch)
      requires Sound(State(), pid) ==> R.Choice(HeapOf(cfg, s, pid), ch, n) == |ch| - 1
      requires R.FitsBehind(HeapOf(cfg, s, pid), n)
      modifies memory, memory.memoria
      ensures Valid() && Later(old(State()), State())
      ensures Reaches(cfg, old(State()), State())
      ensures r.Done? ==> Allocated(cfg, s, State(), pid, ch, n, r.value)
      ensures r.Done? ==> pid in memory.tables && r.value == s.tables[pid].lastHeap
      ensures r.Done? ==> memory.tables[pid].lastHeap == H.NewLast(r.value, n)
      ensures r.Done? ==> Counted(cfg, old(State()), State(), 4)
      ensures r.Stuck? ==> !Sure(cfg, old(State()), State(), 4)
    {
      hide Reaches, Inv, Space, SameShape, H.Chain, Grew, R.Choice, Unseen, HeadersWritten, Allocated;
      ghost var m := State();
      InvMeans(cfg, m);
      SameSize(cfg, s, m, pid);
      H.LastIsNoBlock(HeapOf(cfg, s, pid), ch);
      UnseenGrows(cfg, s, m, pid);
      var last := memory.tables[pid].lastHeap;
      var written := WriteHeaders(pid, last, n);
      if written.Stuck? {
        return Stuck;
      }
      HeadersLater(cfg, m, State(), pid, last, n);
      EndAllocates(cfg, s, m, State(), pid, ch, n, 0);
      SetLastCounts(cfg, State(), pid, H.NewLast(last, n));
      MoveReaches(cfg, m, State(), pid, H.NewLast(last, n));
      MoveLast(pid, H.NewLast(last, n));
      return Done(last);
    }

    /** The growth of memalloc: exactly the pages up to the new last header. */
    method GrowFor(pid: nat, n: nat, ghost s: Mem, ghost ch: seq<nat>) returns (r: Outcome<nat>)
      requires Valid() && pid in s.tables && Unseen(cfg, s, State()) && H.Chain(HeapOf(cfg, s, pid), ch)
      requires !R.FitsBehind(HeapOf(cfg, s, pid), n) && RoomToGrow(s.tables[pid].lastHeap, n)
      modifies memory, memory.memoria
      ensures Valid()
      ensures Reaches(cfg, old(State()), State())
      ensures r.Done? ==> r.value == |s.tables[pid].pages| && GrownFor(cfg, s, State(), pid, n)
      ensures r.Done? ==> (memory.rollBack <==> memory.refused > old(memory.refused))
      ensures Later(old(State()), State())
      ensures r.Done? ==> Counted(cfg, old(State()), State(), H.RollBackTo(cfg.pageSize, s.tables[pid].lastHeap, n))
      ensures r.Stuck? ==> !Sure(cfg, old(State()), State(), H.RollBackTo(cfg.pageSize, s.tables[pid].lastHeap, n))
    {
      hide Reaches, Inv, Space, SameShape, H.Chain, Unseen, PageIndex, Pages;
      ghost var m := State();
      SameSize(cfg, s, m, pid);
      H.LastIsNoBlock(HeapOf(cfg, s, pid), ch);
      var last := memory.tables[pid].lastHeap;
      var top := LastPage(pid);
      var room := n + H.HEADER - (Pages(cfg.pageSize, top) - last - H.HEADER);
      H.GrowthIsExact(cfg.pageSize, top, last, n);
      ResetKeeps(cfg, m);
      ResetCounts(cfg, m);
      memory.rollBack := false;
      ghost var z := State();
      ReachesFirst(cfg, m, ForgetRefusal, z);
      var grown := AddPages(pid, room);
      ReachesTwice(cfg, m, z, State());
      if grown.Stuck? {
        return Stuck;
      }
      GrewFrom(cfg, s, m, z, State(), pid, PageIndex(cfg.pageSize, room) + 1);
      return Done(top);
    }

    /** The end of a growing memalloc: roll back if swap refused a save, and move lastHeap in any case. */
    method Settle(pid: nat, top: nat, n: nat, ghost s: Mem, ghost g: Mem, ghost ch: seq<nat>)
      requires Valid() && pid in s.tables && GrownFor(cfg, s, g, pid, n) && H.Chain(HeapOf(cfg, s, pid), ch)
      requires Sound(g, pid) ==> R.Choice(HeapOf(cfg, s, pid), ch, n) == |ch| - 1
      requires !R.FitsBehind(HeapOf(cfg, s, pid), n)
      requires top == |s.tables[pid].pages| && H.NewLast(s.tables[pid].lastHeap, n) < WORD_LIMIT
      requires HeadersWritten(cfg, g, State(), pid, s.tables[pid].lastHeap, n)
      modifies memory`tables, memory`tlb
      ensures Valid() && Allocated(cfg, s, State(), pid, ch, n, s.tables[pid].lastHeap)
      ensures Reaches(cfg, old(State()), State())
      ensures pid in memory.tables && cfg.pageSize > 0 && memory.rollBack == old(memory.rollBack)
      ensures memory.tables[pid].lastHeap == H.NewLast(s.tables[pid].lastHeap, n)
      ensures Later(old(State()), State()) && Later(State(), old(State()))
      ensures |memory.tables[pid].pages| ==
              if memory.rollBack then |s.tables[pid].pages| else H.RollBackTo(cfg.pageSize, s.tables[pid].lastHeap, n)
    {
      hide Reaches, Inv, Space, SameShape, H.Chain, R.Choice, R.FitsBehind, HeadersWritten, Allocated, PageIndex, Pages;
      ghost var f := State();
      InvMeans(cfg, f);
      ghost var last := s.tables[pid].lastHeap;
      HeadersLater(cfg, g, f, pid, last, n);
      ShapeSize(cfg, g, f, pid);
      var end := H.NewLast(memory.tables[pid].lastHeap, n);
      ghost var added := H.PagesToAdd(cfg.pageSize, |Space(cfg, s, pid)|, last, n);
      if memory.rollBack {
        RollBack(pid, top, H.RollBackTo(cfg.pageSize, memory.tables[pid].lastHeap, n));
        CutAllocates(cfg, s, g, f, State(), pid, ch, n, added, end);
      } else {
        ReachesItself(cfg, f);
        EndAllocates(cfg, s, g, f, pid, ch, n, added);
      }
      MoveReaches(cfg, f, State(), pid, end);
      MoveLast(pid, end);
    }

    /**
     memalloc when more pages are needed: exactly the pages up to the new last header are added,
     and if swap refused a save exactly those are deleted again.
     */
    method AllocateGrowing(pid: nat, n: nat, ghost s: Mem, ghost ch: seq<nat>) returns (r: Outcome<nat>)
      requires Valid() && pid in s.tables && Unseen(cfg, s, State()) && H.Chain(HeapOf(cfg, s, pid), ch)
      requires Sound(State(), pid) ==> R.Choice(HeapOf(cfg, s, pid), ch, n) == |ch| - 1
      requires !R.FitsBehind(HeapOf(cfg, s, pid), n)
      requires RoomToGrow(s.tables[pid].lastHeap, n)
      modifies memory, memory.memoria
      ensures Valid() && Later(old(State()), State())
      ensures Reaches(cfg, old(State()), State())
      ensures r.Done? ==> Allocated(cfg, s, State(), pid, ch, n, r.value)
      ensures r.Stuck? ==> !Sure(cfg, old(State()), State(), H.RollBackTo(cfg.pageSize, s.tables[pid].lastHeap, n) + 4)
      ensures r.Done? ==> pid in memory.tables && cfg.pageSize > 0
      ensures r.Done? ==> r.value == s.tables[pid].lastHeap && memory.tables[pid].lastHeap == H.NewLast(r.value, n)
      ensures r.Done? ==>
        |memory.tables[pid].pages| == if memory.refused > old(memory.refused) then |s.tables[pid].pages|
                                      else H.RollBackTo(cfg.pageSize, s.tables[pid].lastHeap, n)
    {
      hide Reaches, Inv, Space, H.Chain, R.Choice, R.FitsBehind, HeadersWritten, Allocated;
      ghost var b := State();
      var last := memory.tables[pid].lastHeap;
      var grown := GrowFor(pid, n, s, ch);
      if grown.Stuck? {
        return Stuck;
      }
      ghost var g := State();
      var written := WriteHeaders(pid, last, n);
      ghost var w := State();
      ReachesTwice(cfg, b, g, w);
      if written.Stuck? {
        return Stuck;
      }
      Settle(pid, grown.value, n, s, g, ch);
      ReachesTwice(cfg, b, w, State());
      return Done(last);
    }

    /** The sizes stay within page numbers below the markers and signed addresses. */
    predicate RoomToGrow(last: nat, n: nat) {
      && cfg.pageSize > 0 && H.RollBackTo(cfg.pageSize, last, n) < MARK
      && H.NewLast(last, n) + H.HEADER + cfg.pageSize < H.ADDRESS_LIMIT
    }

    /** memcpy into the frame of page `k` and setPaginaAsModificado. */
    method Poke(k: Key, f: nat, o: nat, data: seq<byte>)
      requires memory.Fits() && Has(State(), k) && f == PageOf(State(), k).frame < cfg.frameCount
      requires o + |data| <= cfg.pageSize
      modifies memory`tables, memory.memoria
      ensures State() == Write(old(State()), k, o, data)
    {
      memory.WriteFrame(f, o, data);
      memory.UpdatePage(k, memory.tables[k.pid].pages[k.page - 1].(modified := true));
    }

    /** getFrameDeUn, and what is left when it has no result. */
    method GetFrameAt(pid: nat, n: nat) returns (r: Outcome<nat>)
      requires Valid() && Has(State(), Key(pid, n))
      modifies memory, memory.memoria
      ensures memory.Fits() && Reaches(cfg, old(State()), State())
      ensures r.Stuck? ==>
        && Valid()
        && SameShape(old(State()), State())
        && !Sure(cfg, old(State()), State(), 1)
        && Later(old(State()), State())
      ensures r.Done? ==> memory.Fits() && Accessed(cfg, old(State()), Key(pid, n), State())
      ensures r.Done? ==> Has(State(), Key(pid, n)) && r.value == PageOf(State(), Key(pid, n)).frame
    {
      hide Reaches, Inv, Accessed, CanEvict, SameShape;
      ghost var s := State();
      r := memory.GetFrame(pid, n);
      if r.Done? {
        AccessReaches(cfg, s, Key(pid, n), State());
      } else {
        AttemptReaches(cfg, s, Key(pid, n), State());
        StuckKeeps(cfg, s, Key(pid, n), State());
        KeptLater(cfg, s, State());
        if Sure(cfg, s, State(), 1) { SureServes(cfg, s, State(), Key(pid, n)); }
      }
    }

    /** The first step of taking block `a` again: its flag becomes BUSY. */
    method SetBusy(pid: nat, a: nat) returns (r: Outcome<nat>)
      requires Valid() && pid in memory.tables && H.HasHeader(Space(cfg, State(), pid), a)
      modifies memory, memory.memoria
      ensures Valid() && SameShape(old(State()), State())
      ensures Reaches(cfg, old(State()), State())
      ensures r.Done? ==>
        r.value < cfg.frameCount && Written(cfg, old(State()), State(), pid, a + H.HEADER - 1, [H.BUSY])
      ensures Later(old(State()), State())
      ensures r.Done? ==> Counted(cfg, old(State()), State(), 1)
      ensures r.Stuck? ==> !Sure(cfg, old(State()), State(), 1)
    {
      hide Reaches, Inv, Accessed, Space, Written, SameShape, Sure, Counted, Address, Offset, PageIndex, Write;
      ghost var s := State();
      var at := a + H.HEADER - 1;
      InvMeans(cfg, s);
      AddressOnPage(cfg, s, pid, at);
      var k := PageAt(cfg, pid, at);
      var f := GetFrameAt(pid, k.page);
      if f.Done? {
        ghost var m := State();
        FlagTaken(cfg, s, k, m, Offset(cfg.pageSize, at));
        WriteReaches(cfg, s, k, m, Offset(cfg.pageSize, at), [H.BUSY]);
        TakenCounts(cfg, s, k, m, Offset(cfg.pageSize, at));
        Poke(k, f.value, Offset(cfg.pageSize, at), [H.BUSY]);
        WrittenLater(cfg, s, State(), pid, at, [H.BUSY]);
      }
      return f;
    }

    /** memalloc when a free block fits: the split branch (ReuseKeepsChain) is not taken by any step here. */
    method TakeBlock(pid: nat, a: nat, n: nat, ghost s: Mem, ghost ch: seq<nat>) returns (r: Outcome<nat>)
      requires Valid() && pid in s.tables && Unseen(cfg, s, State()) && H.Chain(HeapOf(cfg, s, pid), ch)
      requires H.HasHeader(Space(cfg, s, pid), a)
      requires Sound(State(), pid) ==> ToTake(HeapOf(cfg, s, pid), ch, n, a)
      modifies memory, memory.memoria
      ensures Valid() && Later(old(State()), State())
      ensures Reaches(cfg, old(State()), State())
      ensures r.Done? ==> Allocated(cfg, s, State(), pid, ch, n, r.value)
      ensures cfg.pageSize > 0 && (r.Done? ==> SentLast(cfg, State(), PageAt(cfg, pid, a + H.HEADER - 1)))
      ensures r.Stuck? && Sound(State(), pid) ==> !Sure(cfg, old(State()), State(), 3)
    {
      hide Reaches, Inv, Space, SameShape, H.Chain, Written, ReadBack, Landed, ToTake, Allocated, Sure, Counted,
           Touches;
      ghost var m := State();
      InvMeans(cfg, m);
      SameSize(cfg, s, m, pid);
      var busy := SetBusy(pid, a);
      if busy.Stuck? {
        NotSureMore(cfg, m, State(), 1, 3);
        return Stuck;
      }
      ghost var w := State();
      ShapeSize(cfg, m, w, pid);
      TouchesFew(cfg.pageSize, a, H.HEADER);
      var hdr := memory.Read(pid, a, H.HEADER);
      if hdr.Stuck? {
        NotSure(cfg, m, w, State(), 1, Touches(cfg.pageSize, a, H.HEADER), 3);
        ReachesTwice(cfg, m, w, State());
        return Stuck;
      }
      ghost var u := State();
      ReachesTwice(cfg, m, w, u);
      if Sound(u, pid) { NoSplitSeen(cfg, s, m, w, u, pid, ch, n, a, hdr.value); }
      if H.HEADER + n + H.HEADER + a < WordAt(hdr.value, 4) {
        return Stuck;
      }
      ReadUnseen(cfg, w, u, pid, a, hdr.value);
      var k := PageAt(cfg, pid, a + H.HEADER - 1);
      SendUnseen(cfg, u, k, busy.value);
      SendReaches(cfg, m, u, k, busy.value);
      memory.SendFrame(k, busy.value);
      assert SentLast(cfg, State(), k);
      UnseenTwice(cfg, w, u, State());
      TakenLater(cfg, m, w, State(), pid, a);
      TakenAllocates(cfg, s, m, w, State(), pid, ch, n, a);
      return Done(a);
    }

    /** memalloc, given the chain of the heap; a block that fits must not have room for another header. */
    method Memalloc(pid: nat, n: nat, ghost ch: seq<nat>) returns (r: Outcome<nat>)
      requires Valid() && pid in memory.tables && H.Chain(HeapOf(cfg, State(), pid), ch)
      requires RoomToGrow(memory.tables[pid].lastHeap, n)
      requires var h := HeapOf(cfg, State(), pid);
        var k := R.Choice(h, ch, n);
        k < |ch| - 1 ==> !H.Splits(h.bytes, ch[k], n)
      modifies memory, memory.memoria
      ensures Valid() && cfg.pageSize > 0
      ensures Reaches(cfg, old(State()), State())
      ensures r.Done? ==> Allocated(cfg, old(State()), State(), pid, ch, n, r.value)
      ensures r.Stuck? && Sound(State(), pid) ==>
        !Sure(cfg, old(State()), State(),
              2 * |ch| + H.RollBackTo(cfg.pageSize, old(memory.tables[pid].lastHeap), n) + 4)
    {
      hide Reaches, Inv, Space, SameShape, H.Chain, R.Choice, H.Splits, Allocated, Sure, Counted;
      ghost var budget := H.RollBackTo(cfg.pageSize, memory.tables[pid].lastHeap, n) + 4;
      ghost var s := State();
      ChoiceInRange(HeapOf(cfg, s, pid), ch, n);
      var fit := FindFit(pid, n, ch);
      if fit.Stuck? {
        if Sound(State(), pid) { NotSureMore(cfg, s, State(), 2 * |ch|, 2 * |ch| + budget); }
        return Stuck;
      }
      ghost var m := State();
      SameSize(cfg, s, State(), pid);
      if fit.value.Some? {
        ToTakeChoice(HeapOf(cfg, s, pid), ch, n);
        r := TakeBlock(pid, fit.value.value, n, s, ch);
        if r.Stuck? && Sound(State(), pid) { NotSureMore(cfg, m, State(), 3, budget); }
      } else if H.NewLast(memory.tables[pid].lastHeap, n) + H.HEADER <=
                Pages(cfg.pageSize, |memory.tables[pid].pages|) {
        r := AllocateInPlace(pid, n, s, ch);
        if r.Stuck? { NotSureMore(cfg, m, State(), 4, budget); }
      } else {
        r := AllocateGrowing(pid, n, s, ch);
      }
      ReachesTwice(cfg, s, m, State());
      if r.Stuck? && Sound(State(), pid) {
        LaterSound(m, State(), pid);
        NotSure(cfg, s, m, State(), 2 * |ch|, budget, 2 * |ch| + budget);
      }
    }

    // ---- memfree ---------------------------------------------------------------------------------------------

    /** A page copied back to a frame, setPaginaAsModificado, mandarPaginaAgonza. */
    method PutPage(k: Key, f: nat, content: seq<byte>)
      requires memory.Fits() && Has(State(), k) && f < cfg.frameCount && |content| == cfg.pageSize
      modifies memory`tables, memory`swamp, memory`rollBack, memory`refused, memory`lost, memory.memoria
      ensures State() == PutBack(cfg, old(State()), k, f, content)
    {
      PatchWhole(State().frames[f], content);
      memory.WriteFrame(f, 0, content);
      memory.UpdatePage(k, memory.tables[k.pid].pages[k.page - 1].(modified := true));
      memory.SendFrame(k, f);
    }

    /** memfree on a header that ends before its page does. */
    method FlagInPage(pid: nat, dir: nat) returns (r: Outcome<(nat, nat)>)
      requires Valid() && pid in memory.tables && dir + H.HEADER < |Space(cfg, State(), pid)| && cfg.pageSize > 0
      requires PageIndex(cfg.pageSize, dir) == PageIndex(cfg.pageSize, dir + H.HEADER)
      modifies memory, memory.memoria
      ensures Valid() && SameShape(old(State()), State()) && Later(old(State()), State())
      ensures Reaches(cfg, old(State()), State())
      ensures r.Done? ==> FlagFreed(cfg, old(State()), State(), pid, dir, r.value.0, r.value.1)
      ensures r.Done? ==> Counted(cfg, old(State()), State(), 2) && r.value.0 < WORD_LIMIT && r.value.1 < WORD_LIMIT
      ensures r.Stuck? ==> !Sure(cfg, old(State()), State(), 1)
    {
      hide Reaches, Inv, Accessed, Space, SameShape, Sure, Counted, Address, Offset, PageIndex, FlagFreed;
      ghost var s := State();
      AddressOnPage(cfg, s, pid, dir);
      SamePage(cfg.pageSize, dir, H.HEADER + 1);
      var k := PageAt(cfg, pid, dir);
      var o := Offset(cfg.pageSize, dir);
      var f := GetFrameAt(pid, k.page);
      if f.Stuck? {
        return Stuck;
      }
      ghost var m := State();
      FlagOnPage(cfg, s, k, m, o);
      OneCounts(cfg, s, k, m, f.value, Patch(FrameAt(m, f.value), o + H.HEADER - 1, [H.FREE]));
      memory.WriteFrame(f.value, o + H.HEADER - 1, [H.FREE]);
      PutReaches(cfg, s, m, f.value, Patch(FrameAt(m, f.value), o + H.HEADER - 1, [H.FREE]));
      FlagLater(cfg, s, State(), pid, dir, WordAt(FrameAt(m, f.value), o), WordAt(FrameAt(m, f.value), o + 4));
      var hdr := memory.ReadFrame(f.value, o, H.HEADER);
      WordsInFrame(FrameAt(m, f.value), o, hdr);
      return Done((WordAt(hdr, 0), WordAt(hdr, 4)));
    }

    /** Brings a page in and copies all of it. */
    method CopyPage(pid: nat, n: nat) returns (r: Outcome<(nat, seq<byte>)>)
      requires Valid() && Has(State(), Key(pid, n))
      modifies memory, memory.memoria
      ensures Valid() && SameShape(old(State()), State()) && Later(old(State()), State())
      ensures Reaches(cfg, old(State()), State())
      ensures r.Done? ==> Accessed(cfg, old(State()), Key(pid, n), State()) && Has(State(), Key(pid, n))
      ensures r.Done? ==>
        r.value.0 == PageOf(State(), Key(pid, n)).frame < cfg.frameCount && r.value.1 == FrameAt(State(), r.value.0)
      ensures r.Done? ==> |r.value.1| == cfg.pageSize && Counted(cfg, old(State()), State(), 1)
      ensures r.Stuck? ==> !Sure(cfg, old(State()), State(), 1)
    {
      hide Reaches, Inv, Accessed, SameShape, Sure, SomePresent, SameBytes;
      ghost var s := State();
      var f := GetFrameAt(pid, n);
      if f.Stuck? {
        return Stuck;
      }
      ghost var t := State();
      AccessIsInvisible(cfg, s, Key(pid, n), t);
      AccessCounts(cfg, s, Key(pid, n), t);
      FrameOnly(cfg, t, Key(pid, n));
      var content := memory.ReadFrame(f.value, 0, cfg.pageSize);
      assert content == FrameAt(t, f.value);
      return Done((f.value, content));
    }

    /** Pages `n` and `n` + 1 brought in and copied, in that order; `m` is the state in between. */
    method CopyBoth(pid: nat, n: nat) returns (r: Outcome<(nat, seq<byte>, nat, seq<byte>)>, ghost m: Mem)
      requires Valid() && Has(State(), Key(pid, n)) && Has(State(), Key(pid, n + 1))
      modifies memory, memory.memoria
      ensures Valid() && SameShape(old(State()), State()) && Later(old(State()), State())
      ensures Reaches(cfg, old(State()), State())
      ensures r.Done? ==>
        && TwoAccessed(cfg, old(State()), Key(pid, n), m, Key(pid, n + 1), State())
        && Counted(cfg, old(State()), State(), 2)
      ensures r.Done? ==>
        && Has(m, Key(pid, n))
        && r.value.0 == PageOf(m, Key(pid, n)).frame < cfg.frameCount
        && r.value.1 == FrameAt(m, r.value.0)
      ensures r.Done? ==>
        Has(State(), Key(pid, n + 1)) && r.value.2 == PageOf(State(), Key(pid, n + 1)).frame < cfg.frameCount
      ensures r.Done? ==> r.value.3 == FrameAt(State(), r.value.2) && |r.value.1| == |r.value.3| == cfg.pageSize
      ensures r.Stuck? ==> !Sure(cfg, old(State()), State(), 2)
    {
      hide Reaches, Inv, Accessed, SameShape, Sure, Counted;
      ghost var s := State();
      m := s;
      var first := CopyPage(pid, n);
      if first.Stuck? {
        NotSureMore(cfg, s, State(), 1, 2);
        r := Stuck;
        return;
      }
      m := State();
      ShapeHas(s, m, Key(pid, n + 1));
      var second := CopyPage(pid, n + 1);
      ShapeTwice(s, m, State());
      ReachesTwice(cfg, s, m, State());
      if second.Stuck? {
        NotSure(cfg, s, m, State(), 1, 1, 2);
        r := Stuck;
        return;
      }
      CountedTwice(cfg, s, m, State(), 1, 1);
      r := Done((first.value.0, first.value.1, second.value.0, second.value.1));
    }

    /** memfree on a header at the end of its page or across two, through a copy of both pages. */
    method FlagAcrossPages(pid: nat, dir: nat) returns (r: Outcome<(nat, nat)>)
      requires Valid() && pid in memory.tables && dir + H.HEADER < |Space(cfg, State(), pid)| && cfg.pageSize > 0
      requires PageIndex(cfg.pageSize, dir) != PageIndex(cfg.pageSize, dir + H.HEADER)
      modifies memory, memory.memoria
      ensures Valid() && SameShape(old(State()), State()) && Later(old(State()), State())
      ensures Reaches(cfg, old(State()), State())
      ensures r.Done? ==> FlagFreed(cfg, old(State()), State(), pid, dir, r.value.0, r.value.1)
      ensures r.Done? ==> Counted(cfg, old(State()), State(), 2) && r.value.0 < WORD_LIMIT && r.value.1 < WORD_LIMIT
      ensures r.Stuck? ==> !Sure(cfg, old(State()), State(), 2)
    {
      hide Reaches, Inv, TwoAccessed, Space, SameShape, Sure, Counted, Address, Offset, PageIndex, FlagFreed, PutBack,
           FrameAt, Patch, WordAt;
      ghost var s := State();
      InvMeans(cfg, s);
      NextPage(cfg, s, pid, dir);
      var k, o := PageAt(cfg, pid, dir), Offset(cfg.pageSize, dir);
      var l := Key(pid, k.page + 1);
      var copied;
      ghost var m;
      copied, m := CopyBoth(pid, k.page);
      if copied.Stuck? {
        return Stuck;
      }
      ghost var n := State();
      FlagAcross(cfg, s, k, m, l, n, o);
      var (f, a, g, b) := copied.value;
      var both := Patch(a + b, o + H.HEADER - 1, [H.FREE]);
      PutPage(k, f, both[..cfg.pageSize]);
      ghost var p := State();
      PutBackReaches(cfg, n, k, f, both[..cfg.pageSize]);
      ReachesTwice(cfg, s, n, p);
      PutPage(l, g, both[cfg.pageSize..]);
      PutBackReaches(cfg, p, l, g, both[cfg.pageSize..]);
      ReachesTwice(cfg, s, p, State());
      BothCount(cfg, s, n, p, k, l, f, g, both[..cfg.pageSize], both[cfg.pageSize..]);
      FlagLater(cfg, s, State(), pid, dir, WordAt(a + b, o), WordAt(a + b, o + 4));
      return Done((WordAt(a + b, o), WordAt(a + b, o + 4)));
    }

    /** The free flag of the block before, looked up unless the block is the first. */
    method LookBack(pid: nat, dir: nat, prev: nat) returns (r: Outcome<bool>)
      requires Valid() && pid in memory.tables
      modifies memory, memory.memoria
      ensures Valid() && SameShape(old(State()), State()) && Later(old(State()), State())
      ensures Reaches(cfg, old(State()), State())
      ensures r.Done? ==> Unseen(cfg, old(State()), State()) && Counted(cfg, old(State()), State(), 1)
      ensures r.Done? && dir != 0 ==>
        && H.HasHeader(Space(cfg, old(State()), pid), prev)
        && (Sound(State(), pid) ==> (r.value <==> H.IsFree(Space(cfg, old(State()), pid), prev)))
      ensures r.Done? && dir == 0 ==> !r.value
      ensures r.Stuck? ==>
        dir != 0 && (H.HasHeader(Space(cfg, old(State()), pid), prev) ==> !Sure(cfg, old(State()), State(), 1))
    {
      hide Reaches, Inv, SameShape, SomePresent, ReadBack, Space;
      ghost var s := State();
      UnseenItself(cfg, s);
      ReachesItself(cfg, s);
      SameSize(cfg, s, s, pid);
      InvMeans(cfg, s);
      if dir == 0 {
        return Done(false);
      }
      if prev + H.HEADER > Pages(cfg.pageSize, |memory.tables[pid].pages|) {
        return Stuck;
      }
      OneTouch(cfg.pageSize, prev + H.HEADER - 1);
      var flag := memory.Read(pid, prev + H.HEADER - 1, 1);
      if flag.Stuck? {
        return Stuck;
      }
      ReadUnseen(cfg, s, State(), pid, prev + H.HEADER - 1, flag.value);
      ByteRead(cfg, s, State(), pid, prev + H.HEADER - 1, flag.value);
      return Done(flag.value[0] == H.FREE);
    }

    /** The two edits that join a freed block to the free block before it. */
    method Join(pid: nat, prev: nat, next: nat, ghost s: Mem, ghost ch: seq<nat>, ghost k: nat) returns (r: Outcome<()>)
      requires Valid() && cfg.pageSize > 0 && Flagged(cfg, s, State(), pid, ch, k) && prev < WORD_LIMIT
      requires next < WORD_LIMIT
      requires H.HasHeader(Space(cfg, State(), pid), prev)
      requires Sound(State(), pid) ==>
        && prev == H.Prev(Space(cfg, s, pid), ch[k]) && next == H.Next(Space(cfg, s, pid), ch[k])
        && ch[k] != 0 && H.HasHeader(Space(cfg, s, pid), prev) && H.IsFree(Space(cfg, s, pid), prev)
      modifies memory, memory.memoria
      ensures Valid() && Later(old(State()), State())
      ensures Reaches(cfg, old(State()), State())
      ensures r.Done? ==> BlockFreed(cfg, s, State(), pid, ch, k)
      ensures r.Stuck? && Sound(State(), pid) ==> !Sure(cfg, old(State()), State(), 4)
    {
      hide Reaches, Inv, SameShape, Written, SomePresent, Touches, Space, Word, BlockFreed, Flagged;
      ghost var m := State();
      InvMeans(cfg, m);
      NextInRange(cfg, s, m, pid, ch, k);
      TouchesFew(cfg.pageSize, prev + 4, 4);
      TouchesFew(cfg.pageSize, next, 4);
      SpaceOfProcess(cfg, m, pid);
      ShapeSize(cfg, m, m, pid) by { SameShapeItself(m); }
      var joined := memory.Edit(pid, prev + 4, Word(next));
      if joined.Stuck? {
        return Stuck;
      }
      ghost var e := State();
      ShapeSize(cfg, m, e, pid);
      if next + 4 > Pages(cfg.pageSize, |memory.tables[pid].pages|) {
        return Stuck;
      }
      r := memory.Edit(pid, next, Word(prev));
      ReachesTwice(cfg, m, e, State());
      if r.Done? {
        WrittenLater(cfg, m, e, pid, prev + 4, Word(next));
        WrittenLater(cfg, e, State(), pid, next, Word(prev));
        FlaggedMerges(cfg, s, m, e, State(), pid, ch, k, prev, next);
      }
    }

    /** The last page deleted and lastHeap moved to the block before. */
    method GiveBack(pid: nat, last: nat, prev: nat, ghost s: Mem, ghost ch: seq<nat>, ghost k: nat)
      requires Valid() && cfg.pageSize > 0 && Flagged(cfg, s, State(), pid, ch, k)
      requires pid in memory.tables && 0 < last == |memory.tables[pid].pages|
      requires Sound(State(), pid) ==>
        && LooksBusy(cfg, s, pid, ch[k], prev) && PageIndex(cfg.pageSize, ch[k]) + 1 == last
        && H.Releases(cfg.pageSize, HeapOf(cfg, s, pid), ch[k])
      modifies memory`tables, memory`tlb
      ensures Valid() && Later(old(State()), State())
      ensures Reaches(cfg, old(State()), State())
      ensures BlockFreed(cfg, s, State(), pid, ch, k)
    {
      hide Reaches, Inv, Flagged, BlockFreed, Space, PageIndex, Pages, CutTo, H.Releases, H.IsFree, Counted;
      ghost var m := State();
      NumbersInOrder(cfg, m, pid);
      DeletePage(pid, last, last - 1);
      ghost var d := State();
      LastCut(cfg, m, d, pid);
      CutKeeps(cfg, m, d, pid, last - 1);
      FlaggedReleases(cfg, s, m, d, pid, ch, k, prev);
      CutReaches(cfg, m, pid, last - 1);
      MoveReaches(cfg, m, d, pid, prev);
      SetLastLater(d, pid, prev);
      MoveLast(pid, prev);
    }

    /** The end of memfree when the block before is busy: perhaps the last page is given back. */
    method Release(pid: nat, dir: nat, prev: nat, ghost s: Mem, ghost ch: seq<nat>, ghost k: nat)
      requires Valid() && cfg.pageSize > 0 && Flagged(cfg, s, State(), pid, ch, k) && ch[k] == dir
      requires Sound(State(), pid) ==> LooksBusy(cfg, s, pid, dir, prev)
      modifies memory`tables, memory`tlb
      ensures Valid() && Later(old(State()), State())
      ensures Reaches(cfg, old(State()), State())
      ensures BlockFreed(cfg, s, State(), pid, ch, k)
    {
      hide Reaches, Inv, Flagged, BlockFreed, Space, PageIndex, Pages, H.Releases;
      ghost var m := State();
      FlaggedShape(cfg, s, m, pid, ch, k);
      var page := PageIndex(cfg.pageSize, dir) + 1;
      var before := if dir == 0 then 0 else PageIndex(cfg.pageSize, prev + H.HEADER - 1) + 1;
      var last := LastPage(pid);
      if Sound(m, pid) { ReleaseGuard(cfg, s, m, pid, ch, k, prev); }
      if before + 1 == page && dir != 0 && page == last {
        GiveBack(pid, last, prev, s, ch, k);
      } else {
        ReachesItself(cfg, m);
        FlaggedStays(cfg, s, m, pid, ch, k);
      }
    }

    /** memfree's first step. */
    method SetFree(pid: nat, dir: nat) returns (r: Outcome<(nat, nat)>)
      requires Valid() && pid in memory.tables && dir + H.HEADER < |Space(cfg, State(), pid)|
      modifies memory, memory.memoria
      ensures Valid() && SameShape(old(State()), State()) && Later(old(State()), State()) && cfg.pageSize > 0
      ensures Reaches(cfg, old(State()), State())
      ensures r.Done? ==> FlagFreed(cfg, old(State()), State(), pid, dir, r.value.0, r.value.1)
      ensures r.Done? ==> Counted(cfg, old(State()), State(), 2) && r.value.0 < WORD_LIMIT && r.value.1 < WORD_LIMIT
      ensures r.Stuck? ==> !Sure(cfg, old(State()), State(), 2)
    {
      hide Reaches, Inv, Space, SameShape, Sure, Counted, PageIndex, FlagFreed;
      InvMeans(cfg, State());
      ghost var s := State();
      if PageIndex(cfg.pageSize, dir) == PageIndex(cfg.pageSize, dir + H.HEADER) {
        r := FlagInPage(pid, dir);
        if r.Stuck? { NotSureMore(cfg, s, State(), 1, 2); }
      } else {
        r := FlagAcrossPages(pid, dir);
      }
    }

    /**
     memfree of header `k` of the heap's chain, the last included unless its page ends with it; an address
     past the last header is a fault.
     */
    method Memfree(pid: nat, dir: nat, ghost ch: seq<nat>, ghost k: nat) returns (r: Outcome<int>)
      requires Valid() && pid in memory.tables && H.Chain(HeapOf(cfg, State(), pid), ch)
      requires dir <= memory.tables[pid].lastHeap ==> k < |ch| && ch[k] == dir
      requires dir == memory.tables[pid].lastHeap ==> dir + H.HEADER < |Space(cfg, State(), pid)|
      modifies memory, memory.memoria
      ensures Valid() && cfg.pageSize > 0
      ensures Reaches(cfg, old(State()), State())
      ensures dir > old(memory.tables[pid].lastHeap) ==> r == Done(FREE_FAULT) && State() == old(State())
      ensures dir <= old(memory.tables[pid].lastHeap) && r.Done? ==>
        r.value == 1 && BlockFreed(cfg, old(State()), State(), pid, ch, k)
      ensures r.Stuck? && Sound(State(), pid) ==> !Sure(cfg, old(State()), State(), 7)
    {
      hide Reaches, Inv, Space, H.Chain, SameShape, FlagFreed, Flagged, BlockFreed, Sure, Counted, Unseen;
      ghost var s := State();
      InvMeans(cfg, s);
      if dir > memory.tables[pid].lastHeap {
        ReachesItself(cfg, s);
        return Done(FREE_FAULT);
      }
      BlockInside(cfg, s, pid, ch, k);
      var links := SetFree(pid, dir);
      if links.Stuck? {
        NotSureMore(cfg, s, State(), 2, 7);
        return Stuck;
      }
      ghost var m := State();
      ShapeSize(cfg, s, m, pid);
      var (prev, next) := links.value;
      var back := LookBack(pid, dir, prev);
      ReachesTwice(cfg, s, m, State());
      if back.Stuck? {
        if Sound(State(), pid) {
          LaterSound(m, State(), pid);
          PrevInside(cfg, s, m, pid, ch, k, prev, next);
          NotSure(cfg, s, m, State(), 2, 1, 7);
        }
        return Stuck;
      }
      ghost var t := State();
      FlagSets(cfg, s, m, t, pid, ch, k, prev, next);
      CountedTwice(cfg, s, m, t, 2, 1);
      if Sound(t, pid) { BackMeans(cfg, s, m, t, pid, ch, k, prev, next, back.value); }
      if dir != 0 && back.value {
        PrevStays(cfg, m, t, pid, prev);
        var joined := Join(pid, prev, next, s, ch, k);
        if joined.Stuck? && Sound(State(), pid) { NotSure(cfg, s, t, State(), 3, 4, 7); }
        r := if joined.Done? then Done(1) else Stuck;
        ReachesTwice(cfg, s, t, State());
      } else {
        Release(pid, dir, prev, s, ch, k);
        ReachesTwice(cfg, s, t, State());
        r := Done(1);
      }
    }

    // ---- memread and memwrite -----------------------------------------------------------------------------------

    /** memread: the bytes just past the header at `dir`. */
    method Memread(pid: nat, dir: nat, n: nat) returns (r: Outcome<(int, seq<byte>)>)
      requires Valid() && pid in memory.tables
      requires dir < memory.tables[pid].lastHeap ==>
        dir + H.HEADER < |Space(cfg, State(), pid)| && dir + H.HEADER + n <= |Space(cfg, State(), pid)|
      modifies memory, memory.memoria
      ensures Valid() && cfg.pageSize > 0
      ensures Reaches(cfg, old(State()), State())
      ensures dir >= old(memory.tables[pid].lastHeap) ==> r == Done((READ_FAULT, [])) && State() == old(State())
      ensures dir < old(memory.tables[pid].lastHeap) && r.Done? ==>
        && Unseen(cfg, old(State()), State()) && r.value.0 == 1 && |r.value.1| == n
        && (Sound(State(), pid) ==> r.value.1 == Space(cfg, old(State()), pid)[dir + H.HEADER..dir + H.HEADER + n])
      ensures r.Stuck? ==> !Sure(cfg, old(State()), State(), Touches(cfg.pageSize, dir + H.HEADER, n))
    {
      hide Reaches, Inv, SameShape, Sure, Touches, ReadBack, Unseen, Space;
      InvMeans(cfg, State());
      if dir >= memory.tables[pid].lastHeap {
        ReachesItself(cfg, State());
        return Done((READ_FAULT, []));
      }
      ghost var s := State();
      var data := memory.Read(pid, dir + H.HEADER, n);
      if data.Stuck? {
        return Stuck;
      }
      ReadUnseen(cfg, s, State(), pid, dir + H.HEADER, data.value);
      ReadMeans(cfg, s, State(), pid, dir + H.HEADER, data.value);
      return Done((1, data.value));
    }

    /** memwrite: the bytes just past the header at `dir`. */
    method Memwrite(pid: nat, dir: nat, data: seq<byte>) returns (r: Outcome<int>)
      requires Valid() && pid in memory.tables
      requires dir + H.HEADER < memory.tables[pid].lastHeap ==>
        dir + H.HEADER < |Space(cfg, State(), pid)| && dir + H.HEADER + |data| <= |Space(cfg, State(), pid)|
      modifies memory, memory.memoria
      ensures Valid() && cfg.pageSize > 0
      ensures Reaches(cfg, old(State()), State())
      ensures dir + H.HEADER >= old(memory.tables[pid].lastHeap) ==> r == Done(WRITE_FAULT) && State() == old(State())
      ensures dir + H.HEADER < old(memory.tables[pid].lastHeap) && r.Done? ==>
        && r.value == 1 && dir + H.HEADER + |data| <= |Space(cfg, old(State()), pid)|
        && Became(cfg, old(State()), State(), pid, H.Store(HeapOf(cfg, old(State()), pid), dir, data))
      ensures r.Stuck? ==> !Sure(cfg, old(State()), State(), Touches(cfg.pageSize, dir + H.HEADER, |data|))
    {
      hide Reaches, Inv, SameShape, Sure, Touches, Written;
      InvMeans(cfg, State());
      if dir + H.HEADER >= memory.tables[pid].lastHeap {
        ReachesItself(cfg, State());
        return Done(WRITE_FAULT);
      }
      ghost var s := State();
      var written := memory.Edit(pid, dir + H.HEADER, data);
      if written.Stuck? {
        return Stuck;
      }
      WrittenStores(cfg, s, State(), pid, dir, data);
      return Done(1);
    }
  }
}
