/** memalloc, memfree, memread and memwrite as changes of the heap that a process's address space holds. */
module HeapCalls {
  import opened Arith
  import opened Bytes
  import opened Options
  import opened Swap
  import opened Paging
  import opened Replacement
  import opened FlatSpace
  import opened Spaces
  import opened HeapOps
  import opened FreeFlag
  import H = Heap
  import R = HeapRuns
  import Tlb

  /** No process that is sound sees a change. */
  ghost predicate Unseen(c: Settings, s: Mem, t: Mem) {
    SameShape(s, t) && Later(s, t) && forall p :: p in s.tables && Sound(t, p) ==> Space(c, t, p) == Space(c, s, p)
  }

  lemma ReadUnseen(c: Settings, s: Mem, t: Mem, pid: nat, at: nat, data: seq<byte>)
    requires ReadBack(c, s, t, pid, at, data)
    ensures Unseen(c, s, t)
  {
    hide Space;
    if Sound(t, pid) { SameSpace(c, s, t, pid, at); }
  }

  lemma ReadMeans(c: Settings, s: Mem, t: Mem, pid: nat, at: nat, data: seq<byte>)
    requires ReadBack(c, s, t, pid, at, data)
    ensures at + |data| <= |Space(c, s, pid)| && (Sound(t, pid) ==> data == Space(c, s, pid)[at..at + |data|])
  {
  }

  lemma WrittenNothingUnseen(c: Settings, s: Mem, t: Mem, pid: nat, at: nat)
    requires Written(c, s, t, pid, at, [])
    ensures Unseen(c, s, t)
  {
    hide Space;
    if Sound(t, pid) { SameSpace(c, s, t, pid, at); }
  }

  lemma UnseenItself(c: Settings, s: Mem)
    ensures Unseen(c, s, s)
  {
  }

  /** The address space of a process has as many bytes as its pages. */
  lemma SameSize(c: Settings, s: Mem, t: Mem, pid: nat)
    requires Unseen(c, s, t) && pid in s.tables
    ensures pid in t.tables && |Space(c, t, pid)| == |Space(c, s, pid)| == Pages(c.pageSize, |t.tables[pid].pages|)
    ensures |t.tables[pid].pages| == |s.tables[pid].pages|
    ensures SameShape(s, t) && t.tables[pid].lastHeap == s.tables[pid].lastHeap
  {
  }

  lemma UnseenTwice(c: Settings, s: Mem, m: Mem, t: Mem)
    requires Unseen(c, s, m) && Unseen(c, m, t)
    ensures Unseen(c, s, t)
  {
    hide Space;
    forall p | p in s.tables && Sound(t, p) ensures Space(c, t, p) == Space(c, s, p) {
      LaterSound(m, t, p);
    }
  }

  /** Same processes, with the same heap ends and numbers of pages but for `pid`. */
  ghost predicate SameOthers(s: Mem, t: Mem, pid: nat) {
    && t.order == s.order && t.tables.Keys == s.tables.Keys && pid in s.tables
    && forall p :: p in s.tables && p != pid ==>
         t.tables[p].lastHeap == s.tables[p].lastHeap && |t.tables[p].pages| == |s.tables[p].pages|
  }

  /** The heap of `pid` is now `h`, and no other process sees a change - for each process that is sound. */
  ghost predicate Became(c: Settings, s: Mem, t: Mem, pid: nat, h: H.Heap) {
    && SameOthers(s, t, pid) && Later(s, t) && SameSpacesBut(c, s, t, pid)
    && (Sound(t, pid) ==> HeapOf(c, t, pid) == h)
  }

  // ---- writing into a block -----------------------------------------------------------------------

  lemma WrittenStores(c: Settings, s: Mem, t: Mem, pid: nat, dir: nat, data: seq<byte>)
    requires Written(c, s, t, pid, dir + H.HEADER, data)
    ensures pid in s.tables && dir + H.HEADER + |data| <= |HeapOf(c, s, pid).bytes|
    ensures Became(c, s, t, pid, H.Store(HeapOf(c, s, pid), dir, data))
  {
    hide Space;
  }

  // ---- a block at the end ---------------------------------------------------------------------------

  function SetLast(s: Mem, pid: nat, last: nat): Mem
    requires pid in s.tables
  {
    s.(tables := s.tables[pid := s.tables[pid].(lastHeap := last)])
  }

  lemma SetLastKeeps(c: Settings, s: Mem, pid: nat, last: nat)
    requires Inv(c, s) && pid in s.tables
    ensures var t := SetLast(s, pid, last);
      && Inv(c, t) && SameOthers(s, t, pid) && Later(s, t) && Later(t, s)
      && (forall p :: p in s.tables ==> Space(c, t, p) == Space(c, s, p) && |t.tables[p].pages| == |s.tables[p].pages|)
  {
    hide Space, DynamicOk, Tlb.Lookup;
    var t := SetLast(s, pid, last);
    forall q ensures Has(t, q) <==> Has(s, q) {}
    forall q | Has(t, q) ensures PageOf(t, q) == PageOf(s, q) {}
    FewerKeep(c, s, t) by { assert Listed(t); }
    assert TlbAgrees(c, t);
    SetLastBytes(c, s, pid, last);
    forall p | p in s.tables ensures Space(c, t, p) == Space(c, s, p) {
      SamePagesSameSpace(c, s, t, p);
    }
  }

  lemma SetLastBytes(c: Settings, s: Mem, pid: nat, last: nat)
    requires pid in s.tables
    ensures var t := SetLast(s, pid, last);
      && (forall q :: Has(s, q) ==> Has(t, q) && PageBytes(c, t, q) == PageBytes(c, s, q))
      && (Backed(s) ==> Backed(t))
  {
  }

  /** The word and flag that close the old last header. */
  function Closing(last: nat, n: nat): (r: seq<byte>)
    requires H.NewLast(last, n) < WORD_LIMIT
    ensures |r| == 5
  {
    Word(H.NewLast(last, n)) + [H.BUSY]
  }

  lemma SizePositive(c: Settings)
    requires Supported(c)
    ensures c.pageSize > 0
  {
  }

  lemma OthersFrom(c: Settings, s: Mem, g: Mem, f: Mem, pid: nat, x: nat, last: nat)
    requires Grew(c, s, g, pid, x) && SameShape(g, f)
    ensures pid in f.tables && SameOthers(s, SetLast(f, pid, last), pid)
  {
    hide Space;
  }

  /** Pages added, the old last header closed, the new one written, lastHeap moved: the heap has a block appended. */
  lemma Appended(c: Settings, s: Mem, g: Mem, e: Mem, f: Mem, pid: nat, n: nat, x: nat)
    requires Grew(c, s, g, pid, x) && SameShape(g, e) && SameShape(e, f) && Inv(c, f)
    requires var last := s.tables[pid].lastHeap;
      && H.HasHeader(Space(c, g, pid), H.NewLast(last, n)) && |Space(c, g, pid)| < H.ADDRESS_LIMIT
      && Written(c, g, e, pid, last + 4, Closing(last, n))
      && Written(c, e, f, pid, H.NewLast(last, n), H.Header(last, 0, H.BUSY))
    ensures pid in f.tables
    ensures var last, t := s.tables[pid].lastHeap, SetLast(f, pid, H.NewLast(s.tables[pid].lastHeap, n));
      && Inv(c, t) && Became(c, s, t, pid, H.Append(Space(c, g, pid), last, n))
  {
    hide Space, Inv, Word;
    var last := s.tables[pid].lastHeap;
    ShapeTwice(g, e, f);
    OthersFrom(c, s, g, f, pid, x, H.NewLast(last, n));
    SetLastKeeps(c, f, pid, H.NewLast(last, n));
  }

  /** The old last header closed and the new last header written. */
  ghost predicate HeadersWritten(c: Settings, g: Mem, f: Mem, pid: nat, last: nat, n: nat)
    requires H.NewLast(last, n) < WORD_LIMIT
  {
    exists e :: && SameShape(g, e) && SameShape(e, f)
                && Written(c, g, e, pid, last + 4, Closing(last, n))
                && Written(c, e, f, pid, H.NewLast(last, n), H.Header(last, 0, H.BUSY))
  }

  lemma HeadersLater(c: Settings, g: Mem, f: Mem, pid: nat, last: nat, n: nat)
    requires H.NewLast(last, n) < WORD_LIMIT && HeadersWritten(c, g, f, pid, last, n)
    ensures SameShape(g, f) && Later(g, f)
  {
    hide Space;
    var e :| && SameShape(g, e) && SameShape(e, f)
             && Written(c, g, e, pid, last + 4, Closing(last, n))
             && Written(c, e, f, pid, H.NewLast(last, n), H.Header(last, 0, H.BUSY));
    ShapeTwice(g, e, f);
  }

  /** Forgetting that a save was refused changes nothing else. */
  lemma ResetKeeps(c: Settings, s: Mem)
    requires Inv(c, s)
    ensures Inv(c, s.(rollBack := false)) && Unseen(c, s, s.(rollBack := false))
  {
    var t := s.(rollBack := false);
    forall q ensures Has(t, q) <==> Has(s, q) {}
    forall q | Has(t, q) ensures PageOf(t, q) == PageOf(s, q) && PageBytes(c, t, q) == PageBytes(c, s, q) {}
    FewerKeep(c, s, t);
    assert TlbAgrees(c, t);
    forall p | p in s.tables ensures Space(c, t, p) == Space(c, s, p) {
      SamePagesSameSpace(c, s, t, p);
    }
  }

  lemma UnseenGrows(c: Settings, s: Mem, t: Mem, pid: nat)
    requires Unseen(c, s, t) && pid in s.tables
    ensures Grew(c, s, t, pid, 0)
  {
    hide Space;
  }

  lemma GrewFrom(c: Settings, s: Mem, m: Mem, z: Mem, g: Mem, pid: nat, x: nat)
    requires Unseen(c, s, m) && Unseen(c, m, z) && Grew(c, z, g, pid, x)
    ensures Grew(c, s, g, pid, x) && |Space(c, g, pid)| == Pages(c.pageSize, |s.tables[pid].pages| + x)
  {
    hide Space;
    UnseenTwice(c, s, m, z);
    UnseenGrows(c, s, z, pid);
    GrewTwice(c, s, z, g, pid, 0, x);
    ShapeSize(c, g, g, pid);
  }

  /** `g` has the pages memalloc adds for `n` bytes; the new last header fits. */
  ghost predicate GrownFor(c: Settings, s: Mem, g: Mem, pid: nat, n: nat) {
    && pid in s.tables && c.pageSize > 0
    && var last, mapped := s.tables[pid].lastHeap, |Space(c, s, pid)|;
    && last + H.HEADER <= mapped < H.NewLast(last, n) + H.HEADER
    && Grew(c, s, g, pid, H.PagesToAdd(c.pageSize, mapped, last, n))
    && |g.tables[pid].pages| == H.RollBackTo(c.pageSize, last, n)
    && H.HasHeader(Space(c, g, pid), H.NewLast(last, n)) && |Space(c, g, pid)| < H.ADDRESS_LIMIT
  }

  // ---- what memalloc promises -------------------------------------------------------------------------

  /** memalloc of `n` bytes returned `r`: the heap of a sound process changed as a whole run's Malloc does it. */
  ghost predicate Allocated(c: Settings, s: Mem, t: Mem, pid: nat, ch: seq<nat>, n: nat, r: nat) {
    && SameOthers(s, t, pid) && c.pageSize > 0 && Later(s, t) && SameSpacesBut(c, s, t, pid)
    && (Sound(t, pid) ==>
         && H.Chain(HeapOf(c, s, pid), ch)
         && exists more :: MallocDone(c, s, t, pid, ch, n, more, r))
  }

  ghost predicate MallocDone(c: Settings, s: Mem, t: Mem, pid: nat, ch: seq<nat>, n: nat, more: seq<byte>, r: nat)
    requires pid in s.tables && pid in t.tables && c.pageSize > 0 && H.Chain(HeapOf(c, s, pid), ch)
  {
    var h, op := HeapOf(c, s, pid), R.Malloc(n, more);
    && R.Allowed(c.pageSize, h, ch, op) && r == R.Target(h, ch, op)
    && exists ch' :: R.Done(c.pageSize, h, ch, op, HeapOf(c, t, pid), ch')
  }

  lemma HeapIsPaged(c: Settings, s: Mem, pid: nat)
    requires pid in s.tables
    ensures R.Paged(c.pageSize, HeapOf(c, s, pid))
  {
  }

  /** What the caller of memalloc gets: an address that was free, with at least `n` bytes, and nothing else changed. */
  lemma AllocatedMeans(c: Settings, s: Mem, t: Mem, pid: nat, ch: seq<nat>, n: nat, r: nat) returns (ch': seq<nat>)
    requires Allocated(c, s, t, pid, ch, n, r) && Sound(t, pid)
    ensures H.Chain(HeapOf(c, t, pid), ch')
    ensures var was, now := H.Live(HeapOf(c, s, pid), ch), H.Live(HeapOf(c, t, pid), ch');
      r !in was && r in now && |now[r]| >= n && now == was[r := now[r]]
  {
    hide H.Chain, H.Live, R.Allowed, R.Done, Space;
    var more :| MallocDone(c, s, t, pid, ch, n, more, r);
    var h, op := HeapOf(c, s, pid), R.Malloc(n, more);
    ch' :| R.Done(c.pageSize, h, ch, op, HeapOf(c, t, pid), ch');
    HeapIsPaged(c, s, pid);
    R.CallRefines(c.pageSize, h, ch, op, HeapOf(c, t, pid), ch');
  }

  /**
   memalloc takes the first free block with room. Only if there is none the block goes behind the last header, and
   only if it does not fit there the process grows, to less than a page more than it needs.
   */
  ghost predicate TakesFirst(size: nat, h: H.Heap, h': H.Heap, ch: seq<nat>, n: nat, r: nat) {
    if exists k: nat :: H.Room(h, ch, k, n) then
      && |h'.bytes| == |h.bytes| && h'.last == h.last
      && exists k: nat :: H.Room(h, ch, k, n) && r == ch[k] && forall i: nat :: i < k ==> !H.Room(h, ch, i, n)
    else
      && r == h.last && h'.last == r + H.HEADER + n
      && if h'.last + H.HEADER <= |h.bytes| then |h'.bytes| == |h.bytes|
         else h'.last + H.HEADER < |h'.bytes| <= h'.last + H.HEADER + size
  }

  lemma GrownExactly(size: nat, h: H.Heap, n: nat, more: seq<byte>)
    requires size > 0 && H.HasHeader(h.bytes, h.last) && R.Paged(size, h) && R.GrownBy(size, h, n, more)
    requires !R.FitsBehind(h, n)
    ensures H.NewLast(h.last, n) + H.HEADER < |h.bytes + more| <= H.NewLast(h.last, n) + H.HEADER + size
  {
    var k: nat :| |h.bytes| == Pages(size, k);
    H.GrowthIsExact(size, k, h.last, n);
    R.PagesSum(size, k, H.PagesToAdd(size, |h.bytes|, h.last, n));
  }

  lemma AllocatedFirst(c: Settings, s: Mem, t: Mem, pid: nat, ch: seq<nat>, n: nat, r: nat)
    requires Allocated(c, s, t, pid, ch, n, r) && Sound(t, pid)
    ensures TakesFirst(c.pageSize, HeapOf(c, s, pid), HeapOf(c, t, pid), ch, n, r)
  {
    hide H.Chain, Space, H.Room, H.Fits;
    var more :| MallocDone(c, s, t, pid, ch, n, more, r);
    var h, op := HeapOf(c, s, pid), R.Malloc(n, more);
    var ch' :| R.Done(c.pageSize, h, ch, op, HeapOf(c, t, pid), ch');
    ChoiceInRange(h, ch, n);
    var k := R.Choice(h, ch, n);
    forall i | 0 <= i < |ch| - 1 ensures H.Room(h, ch, i, n) <==> H.Fits(h.bytes, ch[i], n) {
      H.RoomFits(h, ch, i, n);
    }
    RoomInside(h, ch, n);
    if k < |ch| - 1 {
      assert H.Room(h, ch, k, n) && r == ch[k];
      H.FlagSameSize(h, ch[k], H.BUSY);
    } else {
      H.LastIsNoBlock(h, ch);
      HeapIsPaged(c, s, pid);
      if !R.FitsBehind(h, n) { GrownExactly(c.pageSize, h, n, more); }
    }
  }

  lemma RoomInside(h: H.Heap, ch: seq<nat>, n: nat)
    ensures forall k: nat :: H.Room(h, ch, k, n) ==> k < |ch| - 1
  {
  }

  /** A whole memalloc at the end of the heap, lastHeap not yet moved. */
  lemma EndAllocates(c: Settings, s: Mem, g: Mem, f: Mem, pid: nat, ch: seq<nat>, n: nat, x: nat)
    requires Supported(c) && pid in s.tables && Grew(c, s, g, pid, x) && H.Chain(HeapOf(c, s, pid), ch) && Inv(c, f)
    requires Sound(f, pid) ==> R.Choice(HeapOf(c, s, pid), ch, n) == |ch| - 1
    requires var h, last := HeapOf(c, s, pid), s.tables[pid].lastHeap;
      && H.HasHeader(Space(c, g, pid), H.NewLast(last, n)) && |Space(c, g, pid)| < H.ADDRESS_LIMIT
      && (if R.FitsBehind(h, n) then x == 0 else x == H.PagesToAdd(c.pageSize, |h.bytes|, last, n))
      && HeadersWritten(c, g, f, pid, last, n)
    ensures pid in f.tables
    ensures var t := SetLast(f, pid, H.NewLast(s.tables[pid].lastHeap, n));
      Inv(c, t) && Allocated(c, s, t, pid, ch, n, s.tables[pid].lastHeap)
  {
    hide H.Chain, Space, Supported, Inv, Grew, Became, Allocated, R.Choice, R.FitsBehind;
    var last := s.tables[pid].lastHeap;
    HeadersLater(c, g, f, pid, last, n);
    var e :| && SameShape(g, e) && SameShape(e, f)
             && Written(c, g, e, pid, last + 4, Closing(last, n))
             && Written(c, e, f, pid, H.NewLast(last, n), H.Header(last, 0, H.BUSY));
    Appended(c, s, g, e, f, pid, n, x);
    SetLastLater(f, pid, H.NewLast(last, n));
    AppendedAllocates(c, s, g, SetLast(f, pid, H.NewLast(last, n)), pid, ch, n, x);
  }

  /** A save was refused and the new pages are gone again: nothing is promised but the shape. */
  lemma CutAllocates(c: Settings, s: Mem, g: Mem, f: Mem, d: Mem, pid: nat, ch: seq<nat>, n: nat, x: nat, last: nat)
    requires Inv(c, f) && f.rollBack && pid in s.tables && Grew(c, s, g, pid, x) && SameShape(g, f) && Later(g, f)
    requires CutTo(c, f, d, pid, |s.tables[pid].pages|)
    ensures pid in d.tables
    ensures var t := SetLast(d, pid, last);
      && Inv(c, t) && Allocated(c, s, t, pid, ch, n, s.tables[pid].lastHeap)
      && |t.tables[pid].pages| == |s.tables[pid].pages|
  {
    hide Space, CutTo, Structure, TlbAgrees;
    assert c.pageSize > 0 by { InvMeans(c, f); }
    CutKeeps(c, f, d, pid, |s.tables[pid].pages|);
    SetLastKeeps(c, d, pid, last);
  }

  lemma SetLastCounts(c: Settings, s: Mem, pid: nat, last: nat)
    requires pid in s.tables
    ensures Counted(c, s, SetLast(s, pid, last), 0) && Later(SetLast(s, pid, last), s)
  {
    CountedInPlace(c, s, SetLast(s, pid, last));
  }

  lemma ResetCounts(c: Settings, s: Mem)
    ensures Counted(c, s, s.(rollBack := false), 0)
  {
    CountedInPlace(c, s, s.(rollBack := false));
  }

  lemma TakenCounts(c: Settings, s: Mem, k: Key, m: Mem, o: nat)
    requires Inv(c, s) && Has(s, k) && Accessed(c, s, k, m) && Has(m, k)
    requires Written(c, s, Write(m, k, o, [H.BUSY]), k.pid, Address(c, k) + o, [H.BUSY])
    ensures Counted(c, s, Write(m, k, o, [H.BUSY]), 1)
  {
    hide Accessed, Inv, Space, AllOwned;
    AccessCounts(c, s, k, m);
    AccessIsInvisible(c, s, k, m);
    WriteCounts(c, m, k, o, [H.BUSY]);
    CountedTwice(c, s, m, Write(m, k, o, [H.BUSY]), 1, 0);
  }

  /** While swap has refused nothing, the next address read back is the block's own, and it is not split. */
  lemma NoSplitSeen(c: Settings, s: Mem, m: Mem, w: Mem, u: Mem, pid: nat, ch: seq<nat>, n: nat, a: nat, hdr: seq<byte>)
    requires pid in s.tables && Unseen(c, s, m) && Sound(u, pid) && H.HasHeader(Space(c, s, pid), a)
    requires Written(c, m, w, pid, a + H.HEADER - 1, [H.BUSY]) && ReadBack(c, w, u, pid, a, hdr) && |hdr| == H.HEADER
    requires Sound(m, pid) ==> ToTake(HeapOf(c, s, pid), ch, n, a)
    ensures WordAt(hdr, 4) <= H.HEADER + n + H.HEADER + a
  {
    hide Space;
    var b := Space(c, s, pid);
    WordsKept(b, a, H.BUSY);
    WordsOfSlice(Patch(b, a + 8, [H.BUSY]), a, hdr, 0) by { assert hdr[0..H.HEADER] == hdr; }
  }

  lemma SetLastLater(s: Mem, pid: nat, last: nat)
    requires pid in s.tables
    ensures Later(s, SetLast(s, pid, last)) && Later(SetLast(s, pid, last), s)
  {
  }

  /**
   No block fits, and the pages added are as many as memalloc asks for: a block appended is what memalloc
   promises.
   */
  lemma AppendedAllocates(c: Settings, s: Mem, g: Mem, t: Mem, pid: nat, ch: seq<nat>, n: nat, x: nat)
    requires Supported(c) && pid in s.tables && Grew(c, s, g, pid, x) && H.Chain(HeapOf(c, s, pid), ch)
    requires Sound(t, pid) ==> R.Choice(HeapOf(c, s, pid), ch, n) == |ch| - 1
    requires var h, last := HeapOf(c, s, pid), s.tables[pid].lastHeap;
      && H.HasHeader(Space(c, g, pid), H.NewLast(last, n)) && |Space(c, g, pid)| < H.ADDRESS_LIMIT
      && (if R.FitsBehind(h, n) then x == 0 else x == H.PagesToAdd(c.pageSize, |h.bytes|, last, n))
      && Became(c, s, t, pid, H.Append(Space(c, g, pid), last, n)) && Later(g, t)
    ensures Allocated(c, s, t, pid, ch, n, s.tables[pid].lastHeap)
  {
    hide H.Chain, Space, Supported;
    var h, size, last := HeapOf(c, s, pid), c.pageSize, s.tables[pid].lastHeap;
    SizePositive(c);
    if Sound(t, pid) {
      LaterSound(g, t, pid);
      H.LastIsNoBlock(h, ch);
      GrewBytes(c, s, g, pid, x);
      var more := Space(c, g, pid)[|h.bytes|..];
      assert h.bytes + more == Space(c, g, pid);
      var op, ch' := R.Malloc(n, more), ch + [H.NewLast(last, n)];
      assert R.Done(size, h, ch, op, HeapOf(c, t, pid), ch');
      assert MallocDone(c, s, t, pid, ch, n, more, last);
    }
  }

  lemma GrewBytes(c: Settings, s: Mem, g: Mem, pid: nat, x: nat)
    requires Grew(c, s, g, pid, x)
    ensures |Space(c, g, pid)| == |Space(c, s, pid)| + Pages(c.pageSize, x)
  {
    R.PagesSum(c.pageSize, |s.tables[pid].pages|, x);
  }

  // ---- looking for a free block ------------------------------------------------------------------------

  ghost predicate NoneFits(b: seq<byte>, ch: seq<nat>, n: nat, k: nat) {
    k <= |ch| && forall i :: 0 <= i < k ==> !H.Fits(b, ch[i], n)
  }

  /** What the nine bytes read at block `k` say. */
  ghost predicate HeaderSeen(h: H.Heap, ch: seq<nat>, k: nat, n: nat, hdr: seq<byte>) {
    && k < |ch| - 1 && |hdr| == H.HEADER && hdr[8] in {H.BUSY, H.FREE}
    && WordAt(hdr, 4) == ch[k + 1] && ch[k] < ch[k + 1] && H.HasHeader(h.bytes, ch[k + 1])
    && (H.Fits(h.bytes, ch[k], n) <==> hdr[8] == H.FREE && ch[k] + H.HEADER + n <= WordAt(hdr, 4))
  }

  lemma HeaderIsSeen(h: H.Heap, ch: seq<nat>, k: nat, n: nat, hdr: seq<byte>)
    requires H.Chain(h, ch) && k < |ch| && ch[k] < h.last && H.HasHeader(h.bytes, ch[k])
    requires hdr == h.bytes[ch[k]..ch[k] + H.HEADER]
    ensures HeaderSeen(h, ch, k, n, hdr)
  {
    H.PayloadOf(h, ch, k);
    H.ChainInRange(h, ch, k + 1);
    WordsOfSlice(h.bytes, ch[k], hdr, 0) by { assert hdr[0..H.HEADER] == hdr; }
    assert H.Linked(h.bytes, ch[k], ch[k + 1]);
  }

  lemma FitFound(h: H.Heap, ch: seq<nat>, n: nat, k: nat)
    requires k < |ch| - 1 && NoneFits(h.bytes, ch, n, k) && H.Fits(h.bytes, ch[k], n)
    ensures R.Choice(h, ch, n) == k
  {
  }

  lemma NoneFitsNext(h: H.Heap, ch: seq<nat>, n: nat, k: nat)
    requires k < |ch| && NoneFits(h.bytes, ch, n, k) && !H.Fits(h.bytes, ch[k], n)
    ensures NoneFits(h.bytes, ch, n, k + 1)
  {
  }

  lemma FirstBlock(h: H.Heap, ch: seq<nat>, n: nat)
    requires H.Chain(h, ch)
    ensures |ch| > 0 && ch[0] == 0 && H.HasHeader(h.bytes, 0) && NoneFits(h.bytes, ch, n, 0) && ch[|ch| - 1] == h.last
  {
  }

  lemma FitNone(h: H.Heap, ch: seq<nat>, n: nat, k: nat, at: nat)
    requires H.Chain(h, ch) && k < |ch| && NoneFits(h.bytes, ch, n, k) && at == ch[k] && h.last <= at
    ensures R.Choice(h, ch, n) == |ch| - 1
  {
    if k < |ch| - 1 { H.ChainOrder(h, ch, k, |ch| - 1); }
  }

  // ---- a block taken again -----------------------------------------------------------------------------

  /** `a` is the block memalloc reuses, and it is not split. */
  ghost predicate ToTake(h: H.Heap, ch: seq<nat>, n: nat, a: nat) {
    ch != [] && var k := R.Choice(h, ch, n); k < |ch| - 1 && a == ch[k] && !H.Splits(h.bytes, a, n)
  }

  /** A page in memory accessed and its flag byte written. */
  lemma FlagTaken(c: Settings, s: Mem, k: Key, m: Mem, o: nat)
    requires Inv(c, s) && Has(s, k) && Accessed(c, s, k, m) && o < c.pageSize
    ensures Has(m, k) && PageOf(m, k).frame < c.frameCount
    ensures var w := Write(m, k, o, [H.BUSY]);
      Inv(c, w) && SameShape(s, w) && Written(c, s, w, k.pid, Address(c, k) + o, [H.BUSY])
  {
    hide Inv, Accessed, Space, PageBytes;
    AccessAt(c, s, k, m, o);
    WriteWrites(c, m, k, o, [H.BUSY]);
    WrittenTwice(c, s, m, Write(m, k, o, [H.BUSY]), k.pid, Address(c, k) + o, [], [H.BUSY]);
    assert [] + [H.BUSY] == [H.BUSY];
  }

  /** Sending any frame as a page that is in memory is seen by nobody. */
  lemma SendUnseen(c: Settings, s: Mem, k: Key, f: nat)
    requires Inv(c, s) && Landed(s, k) && f < c.frameCount
    ensures |FrameAt(s, f)| == c.pageSize
    ensures Inv(c, Saved(c, s, k, FrameAt(s, f))) && Unseen(c, s, Saved(c, s, k, FrameAt(s, f)))
  {
    hide Space, PageBytes, Saved;
    SendWritesNothing(c, s, k, FrameAt(s, f), 0);
    WrittenNothingUnseen(c, s, Saved(c, s, k, FrameAt(s, f)), k.pid, 0);
  }

  lemma ChoiceInRange(h: H.Heap, ch: seq<nat>, n: nat)
    requires H.Chain(h, ch)
    ensures ch != [] && R.Choice(h, ch, n) < |ch|
  {
  }

  lemma ToTakeChoice(h: H.Heap, ch: seq<nat>, n: nat)
    requires ch != [] && (R.Choice(h, ch, n) < |ch| - 1 ==> !H.Splits(h.bytes, ch[R.Choice(h, ch, n)], n))
    ensures R.Choice(h, ch, n) < |ch| - 1 ==> ToTake(h, ch, n, ch[R.Choice(h, ch, n)])
  {
  }

  lemma TakenLater(c: Settings, m: Mem, w: Mem, t: Mem, pid: nat, a: nat)
    requires Written(c, m, w, pid, a + H.HEADER - 1, [H.BUSY]) && Unseen(c, w, t)
    ensures Later(m, t)
  {
  }

  lemma UnseenSpaces(c: Settings, s: Mem, t: Mem, pid: nat)
    requires Unseen(c, s, t)
    ensures SameSpacesBut(c, s, t, pid) && Later(s, t) && t.tables.Keys == s.tables.Keys
  {
  }

  /** A busy flag written and nothing else seen: what memalloc promises when a block fits. */
  lemma TakenAllocates(c: Settings, s: Mem, m: Mem, w: Mem, t: Mem, pid: nat, ch: seq<nat>, n: nat, a: nat)
    requires Supported(c) && pid in s.tables && Unseen(c, s, m) && Unseen(c, w, t) && SameShape(m, w)
    requires H.Chain(HeapOf(c, s, pid), ch) && Written(c, m, w, pid, a + H.HEADER - 1, [H.BUSY])
    requires Sound(t, pid) ==> ToTake(HeapOf(c, s, pid), ch, n, a)
    ensures Allocated(c, s, t, pid, ch, n, a)
  {
    hide H.Chain, Space, Supported;
    var h, size := HeapOf(c, s, pid), c.pageSize;
    SizePositive(c);
    UnseenSpaces(c, s, m, pid);
    UnseenSpaces(c, w, t, pid);
    SpacesTwice(c, s, m, w, pid);
    SpacesTwice(c, s, w, t, pid);
    if Sound(t, pid) {
      LaterSound(w, t, pid);
      LaterSound(m, w, pid);
      var k := R.Choice(h, ch, n);
      H.PayloadOf(h, ch, k);
      assert HeapOf(c, t, pid) == H.SetFlag(h, a, H.BUSY);
      assert R.Done(size, h, ch, R.Malloc(n, []), HeapOf(c, t, pid), ch);
      assert MallocDone(c, s, t, pid, ch, n, [], a);
    }
  }

  // ---- memfree --------------------------------------------------------------------------------------------

  lemma WordsKept(b: seq<byte>, a: nat, flag: byte)
    requires H.HasHeader(b, a)
    ensures var b' := Patch(b, a + 8, [flag]); H.Prev(b', a) == H.Prev(b, a) && H.Next(b', a) == H.Next(b, a)
  {
  }

  /** The bytes after memfree's three writes are the merged heap's. */
  lemma MergeIsPatches(h: H.Heap, a: nat, prev: nat, next: nat)
    requires H.HasHeader(h.bytes, a) && H.HasHeader(h.bytes, prev) && H.HasHeader(h.bytes, next)
    requires prev == H.Prev(h.bytes, a) && next == H.Next(h.bytes, a)
    ensures var freed := H.SetFlag(h, a, H.FREE);
      && H.HasHeader(freed.bytes, a) && H.Prev(freed.bytes, a) == prev && H.Next(freed.bytes, a) == next
      && H.Merge(freed, a) ==
         h.(bytes := Patch(Patch(Patch(h.bytes, a + 8, [H.FREE]), prev + 4, Word(next)), next, Word(prev)))
  {
    WordsKept(h.bytes, a, H.FREE);
  }

  /** The state of a call that has set the flag of block `k` and looked at the flag of the block before. */
  ghost predicate Flagged(c: Settings, s: Mem, m: Mem, pid: nat, ch: seq<nat>, k: nat) {
    && pid in s.tables && H.Chain(HeapOf(c, s, pid), ch) && k < |ch| && SameShape(s, m)
    && H.HasHeader(Space(c, s, pid), ch[k])
    && Later(s, m) && SameSpacesBut(c, s, m, pid)
    && (Sound(m, pid) ==> HeapOf(c, m, pid) == H.SetFlag(HeapOf(c, s, pid), ch[k], H.FREE))
  }

  /** ... and memfree is done, in whichever way. */
  ghost predicate BlockFreed(c: Settings, s: Mem, t: Mem, pid: nat, ch: seq<nat>, k: nat)
    requires c.pageSize > 0
  {
    && pid in s.tables && H.Chain(HeapOf(c, s, pid), ch) && k < |ch| && SameOthers(s, t, pid)
    && var h := HeapOf(c, s, pid);
    && H.HasHeader(h.bytes, ch[k]) && H.HasHeader(h.bytes, H.Prev(h.bytes, ch[k]))
    && H.HasHeader(h.bytes, H.Next(h.bytes, ch[k]))
    && (H.Prev(h.bytes, ch[k]) + H.HEADER <= ch[k] || ch[k] == 0)
    && Later(s, t) && SameSpacesBut(c, s, t, pid)
    && (Sound(t, pid) ==> HeapOf(c, t, pid) == H.Free(c.pageSize, h, ch[k]))
  }

  lemma FlagSets(c: Settings, s: Mem, m: Mem, t: Mem, pid: nat, ch: seq<nat>, k: nat, prev: nat, next: nat)
    requires pid in s.tables && H.Chain(HeapOf(c, s, pid), ch) && k < |ch| && SameShape(s, m)
    requires FlagFreed(c, s, m, pid, ch[k], prev, next) && Unseen(c, m, t)
    ensures Flagged(c, s, t, pid, ch, k)
  {
    hide H.Chain, Space;
    ShapeTwice(s, m, t);
    UnseenSpaces(c, m, t, pid);
    SpacesTwice(c, s, m, t, pid);
    if Sound(t, pid) { LaterSound(m, t, pid); }
  }

  lemma FlaggedMerges(c: Settings, s: Mem, m: Mem, e: Mem, t: Mem, pid: nat, ch: seq<nat>, k: nat, prev: nat, next: nat)
    requires c.pageSize > 0 && Flagged(c, s, m, pid, ch, k) && SameShape(m, e) && SameShape(e, t)
    requires prev < WORD_LIMIT && next < WORD_LIMIT
    requires Written(c, m, e, pid, prev + 4, Word(next)) && Written(c, e, t, pid, next, Word(prev))
    requires Sound(t, pid) ==> prev == H.Prev(Space(c, s, pid), ch[k]) && next == H.Next(Space(c, s, pid), ch[k])
    requires Sound(t, pid) ==> ch[k] != 0 && H.HasHeader(Space(c, s, pid), prev) && H.IsFree(Space(c, s, pid), prev)
    ensures BlockFreed(c, s, t, pid, ch, k)
  {
    hide H.Chain, Space, Word, WordAt;
    var h := HeapOf(c, s, pid);
    H.LinksOf(h, ch, k);
    ShapeTwice(s, m, e);
    ShapeTwice(s, e, t);
    SpacesTwice(c, s, m, e, pid);
    SpacesTwice(c, s, e, t, pid);
    if Sound(t, pid) {
      LaterSound(e, t, pid);
      LaterSound(m, e, pid);
      MergeIsPatches(h, ch[k], prev, next);
    }
  }

  lemma FlaggedStays(c: Settings, s: Mem, t: Mem, pid: nat, ch: seq<nat>, k: nat)
    requires c.pageSize > 0 && Flagged(c, s, t, pid, ch, k)
    requires Sound(t, pid) ==>
      var h := HeapOf(c, s, pid);
      && H.HasHeader(h.bytes, H.Prev(h.bytes, ch[k]))
      && !H.PrevIsFree(h, ch[k]) && !H.Releases(c.pageSize, h, ch[k])
    ensures BlockFreed(c, s, t, pid, ch, k)
  {
    hide H.Chain, Space;
    H.LinksOf(HeapOf(c, s, pid), ch, k);
  }

  lemma OneCounts(c: Settings, s: Mem, k: Key, m: Mem, f: nat, content: seq<byte>)
    requires Inv(c, s) && Has(s, k) && Accessed(c, s, k, m)
    ensures Counted(c, s, SetFrame(m, f, content), 2)
  {
    hide Accessed, Inv, AllOwned;
    AccessCounts(c, s, k, m);
    AccessIsInvisible(c, s, k, m);
    SetFrameCounts(c, m, f, content);
    CountedTwice(c, s, m, SetFrame(m, f, content), 1, 0);
  }

  /** A header that reaches the next page has that page behind its own. */
  lemma NextPage(c: Settings, s: Mem, pid: nat, dir: nat)
    requires 0 < c.pageSize && pid in s.tables && dir + H.HEADER < |Space(c, s, pid)| && Inv(c, s)
    requires PageIndex(c.pageSize, dir) != PageIndex(c.pageSize, dir + H.HEADER)
    ensures var k := PageAt(c, pid, dir);
      && Has(s, k) && Has(s, Key(pid, k.page + 1)) && Address(c, k) + Offset(c.pageSize, dir) == dir
      && Offset(c.pageSize, dir) < c.pageSize <= Offset(c.pageSize, dir) + H.HEADER
  {
    hide Inv, Space, PageIndex, Offset, Pages;
    AddressOnPage(c, s, pid, dir);
    AddressOnPage(c, s, pid, dir + H.HEADER);
    PageIndexOrder(c.pageSize, dir, dir + H.HEADER);
    AddressSplit(c.pageSize, dir);
    var o := Offset(c.pageSize, dir);
    if o + H.HEADER < c.pageSize {
      AddressUnique(c.pageSize, PageIndex(c.pageSize, dir), o + H.HEADER, dir + H.HEADER);
    }
  }

  lemma ByteRead(c: Settings, s: Mem, t: Mem, pid: nat, at: nat, data: seq<byte>)
    requires ReadBack(c, s, t, pid, at, data) && |data| == 1
    ensures at < |Space(c, s, pid)| && (Sound(t, pid) ==> data[0] == Space(c, s, pid)[at])
  {
    hide Space;
  }

  lemma NextInRange(c: Settings, s: Mem, m: Mem, pid: nat, ch: seq<nat>, k: nat)
    requires Flagged(c, s, m, pid, ch, k)
    ensures H.HasHeader(Space(c, s, pid), ch[k]) && |Space(c, m, pid)| == |Space(c, s, pid)|
    ensures H.Next(Space(c, s, pid), ch[k]) + H.HEADER <= |Space(c, m, pid)|
  {
    hide H.Chain;
    H.LinksOf(HeapOf(c, s, pid), ch, k);
    ShapeSize(c, s, m, pid);
  }

  lemma FlaggedShape(c: Settings, s: Mem, m: Mem, pid: nat, ch: seq<nat>, k: nat)
    requires Flagged(c, s, m, pid, ch, k)
    ensures pid in m.tables && SameShape(s, m) && Later(s, m)
  {
  }

  /** A block ends its header before the last byte; the last header may not. */
  lemma BlockInside(c: Settings, s: Mem, pid: nat, ch: seq<nat>, k: nat)
    requires pid in s.tables && H.Chain(HeapOf(c, s, pid), ch) && k < |ch|
    ensures ch[k] <= s.tables[pid].lastHeap && (k == |ch| - 1 <==> ch[k] == s.tables[pid].lastHeap)
    ensures k < |ch| - 1 ==> ch[k] + H.HEADER < |Space(c, s, pid)|
  {
    if k < |ch| - 1 { H.PayloadOf(HeapOf(c, s, pid), ch, k); }
  }

  /** While swap has refused nothing, the link read back is the block's own, and in range. */
  lemma PrevInside(c: Settings, s: Mem, m: Mem, pid: nat, ch: seq<nat>, k: nat, prev: nat, next: nat)
    requires pid in s.tables && H.Chain(HeapOf(c, s, pid), ch) && k < |ch| && SameShape(s, m)
    requires FlagFreed(c, s, m, pid, ch[k], prev, next) && Sound(m, pid)
    ensures H.HasHeader(Space(c, m, pid), prev)
  {
    hide H.Chain;
    H.LinksOf(HeapOf(c, s, pid), ch, k);
    ShapeSize(c, s, m, pid);
  }

  /** The block before `dir` is busy, or `dir` is the first; `prev` is its link. */
  ghost predicate LooksBusy(c: Settings, s: Mem, pid: nat, dir: nat, prev: nat) {
    && pid in s.tables && H.HasHeader(Space(c, s, pid), dir) && prev == H.Prev(Space(c, s, pid), dir)
    && H.HasHeader(Space(c, s, pid), prev) && !H.PrevIsFree(HeapOf(c, s, pid), dir)
  }

  /** What looking back said about the heap memfree was called on. */
  lemma BackMeans(c: Settings, s: Mem, m: Mem, t: Mem, pid: nat, ch: seq<nat>, k: nat, prev: nat, next: nat, free: bool)
    requires pid in s.tables && H.Chain(HeapOf(c, s, pid), ch) && k < |ch| && SameShape(s, m)
    requires FlagFreed(c, s, m, pid, ch[k], prev, next) && Unseen(c, m, t) && Sound(t, pid)
    requires ch[k] != 0 ==> H.HasHeader(Space(c, m, pid), prev) && (free <==> H.IsFree(Space(c, m, pid), prev))
    requires ch[k] == 0 ==> !free
    ensures H.HasHeader(Space(c, s, pid), ch[k]) && prev == H.Prev(Space(c, s, pid), ch[k])
    ensures next == H.Next(Space(c, s, pid), ch[k])
    ensures H.HasHeader(Space(c, s, pid), prev)
    ensures if free then ch[k] != 0 && H.IsFree(Space(c, s, pid), prev) else LooksBusy(c, s, pid, ch[k], prev)
  {
    hide H.Chain, Space, WordAt;
    H.LinksOf(HeapOf(c, s, pid), ch, k);
  }

  lemma PrevStays(c: Settings, m: Mem, t: Mem, pid: nat, prev: nat)
    requires Unseen(c, m, t) && pid in m.tables && H.HasHeader(Space(c, m, pid), prev)
    ensures H.HasHeader(Space(c, t, pid), prev)
  {
    SameSize(c, m, t, pid);
  }

  /** The code's test for giving the last page back is the one on the heap. */
  lemma ReleaseGuard(c: Settings, s: Mem, m: Mem, pid: nat, ch: seq<nat>, k: nat, prev: nat)
    requires c.pageSize > 0 && Flagged(c, s, m, pid, ch, k) && LooksBusy(c, s, pid, ch[k], prev)
    ensures H.Releases(c.pageSize, HeapOf(c, s, pid), ch[k]) <==>
            && ch[k] != 0 && PageIndex(c.pageSize, prev + H.HEADER - 1) + 1 == PageIndex(c.pageSize, ch[k])
            && pid in m.tables && PageIndex(c.pageSize, ch[k]) + 1 == |m.tables[pid].pages|
  {
    hide H.Chain, Space, PageIndex, Pages, H.IsFree, SameShape, H.SetFlag;
    ShapeSize(c, s, m, pid);
    LastIndex(c, s, pid);
  }

  /** The index of the page behind the last one. */
  lemma LastIndex(c: Settings, s: Mem, pid: nat)
    requires c.pageSize > 0 && pid in s.tables
    ensures PageIndex(c.pageSize, |Space(c, s, pid)|) == |s.tables[pid].pages|
  {
    hide Space, PageIndex, Pages;
    SpaceLength(c, s, pid);
    AddressUnique(c.pageSize, |s.tables[pid].pages|, 0, |Space(c, s, pid)|);
  }

  lemma SpaceLength(c: Settings, s: Mem, pid: nat)
    requires pid in s.tables
    ensures |Space(c, s, pid)| == Pages(c.pageSize, |s.tables[pid].pages|)
  {
  }

  lemma NumbersInOrder(c: Settings, m: Mem, pid: nat)
    requires Inv(c, m) && pid in m.tables
    ensures forall j :: 0 <= j < |m.tables[pid].pages| ==> m.tables[pid].pages[j].num == j + 1
  {
    forall j | 0 <= j < |m.tables[pid].pages| ensures m.tables[pid].pages[j].num == j + 1 {
      PageNumber(c, m, Key(pid, j + 1));
    }
  }

  /** deletePagina of the last page. */
  lemma LastCut(c: Settings, m: Mem, d: Mem, pid: nat)
    requires Inv(c, m) && pid in m.tables && |m.tables[pid].pages| > 0
    requires var was := m.tables[pid].pages; var i := |was| - 1;
      && d == m.(tables := m.tables[pid := m.tables[pid].(pages := was[..i] + was[i + 1..])], tlb := d.tlb)
      && d.tlb == if c.tlbMax == 0 then m.tlb else Tlb.Drop(Tlb.Used(m.tlb, pid, i + 1), pid, i + 1, was[i].frame)
    ensures d == CutBy(c, m, pid, |m.tables[pid].pages| - 1) && CutTo(c, m, d, pid, |m.tables[pid].pages| - 1)
  {
    hide Inv, Tlb.Drop, Tlb.Used;
    var was := m.tables[pid].pages;
    var i := |was| - 1;
    CutByCuts(c, m, pid, i);
    assert was[..i] + was[i + 1..] == was[..i];
    assert DropPages(c, m.tlb, pid, was, i, i) == m.tlb;
  }

  /** The links are not disturbed by the flag. */
  lemma WordsInFrame(frame: seq<byte>, o: nat, hdr: seq<byte>)
    requires o + H.HEADER <= |frame| && hdr == Patch(frame, o + H.HEADER - 1, [H.FREE])[o..o + H.HEADER]
    ensures WordAt(hdr, 0) == WordAt(frame, o) && WordAt(hdr, 4) == WordAt(frame, o + 4)
  {
    var b := Patch(frame, o + H.HEADER - 1, [H.FREE]);
    assert WordAt(hdr, 0) == WordAt(b, o) && WordAt(hdr, 4) == WordAt(b, o + 4);
    WordsKept(frame, o, H.FREE);
  }

  // ---- pages taken away --------------------------------------------------------------------------------

  /** The process keeps its first `k` pages; the buffer forgets the others. */
  ghost predicate CutTo(c: Settings, s: Mem, t: Mem, pid: nat, k: nat) {
    && pid in s.tables && k <= |s.tables[pid].pages|
    && t == s.(tables := s.tables[pid := s.tables[pid].(pages := s.tables[pid].pages[..k])], tlb := t.tlb)
    && Forgot(c, s, t, pid, k, |s.tables[pid].pages|)
  }

  /** The buffer has lost exactly the pages of `pid` after `k`, up to `j`. */
  ghost predicate Forgot(c: Settings, s: Mem, t: Mem, pid: nat, k: nat, j: nat) {
    && Tlb.Ok(t.tlb, c.tlbMax)
    && forall q: Key :: q.page < MARK ==>
         Tlb.Lookup(t.tlb, q.pid, q.page) == if q.pid == pid && k < q.page <= j then None
                                             else Tlb.Lookup(s.tlb, q.pid, q.page)
  }

  lemma ForgotNone(c: Settings, s: Mem, pid: nat, k: nat)
    requires Inv(c, s)
    ensures Forgot(c, s, s, pid, k, k)
  {
  }

  /** deletePagina looks the page up and drops its entry. */
  lemma ForgotNext(c: Settings, s: Mem, t: Mem, u: Mem, pid: nat, k: nat, j: nat)
    requires Inv(c, s) && Has(s, Key(pid, j + 1)) && k <= j && Forgot(c, s, t, pid, k, j)
    requires u.tlb == if c.tlbMax == 0 then t.tlb
                      else Tlb.Drop(Tlb.Used(t.tlb, pid, j + 1), pid, j + 1, PageOf(s, Key(pid, j + 1)).frame)
    ensures Forgot(c, s, u, pid, k, j + 1)
  {
    hide Inv, Tlb.Lookup, Tlb.Used, Tlb.Drop, Tlb.UniqueKeys;
    PageNumber(c, s, Key(pid, j + 1));
    if c.tlbMax == 0 {
      NoBuffer(t.tlb, pid, j + 1);
    } else {
      ForgotOne(c, s, t, u, pid, k, j, Key(pid, j + 1));
      forall q: Key | q.page < MARK
        ensures Tlb.Lookup(u.tlb, q.pid, q.page) == if q == Key(pid, j + 1) then None
                                                    else Tlb.Lookup(t.tlb, q.pid, q.page)
      {
        ForgotOne(c, s, t, u, pid, k, j, q);
      }
    }
  }

  /** The buffer after deletePagina of pages `k` + 1 to `j`, one after the other. */
  function DropPages(c: Settings, b: Tlb.Buffer, pid: nat, pages: seq<Page>, k: nat, j: nat): Tlb.Buffer
    requires j <= |pages|
  {
    if j <= k || c.tlbMax == 0 then b
    else Tlb.Drop(Tlb.Used(DropPages(c, b, pid, pages, k, j - 1), pid, j), pid, j, pages[j - 1].frame)
  }

  /** The pages after the first `k` deleted. */
  function CutBy(c: Settings, s: Mem, pid: nat, k: nat): Mem
    requires pid in s.tables && k <= |s.tables[pid].pages|
  {
    var table := s.tables[pid];
    s.(tables := s.tables[pid := table.(pages := table.pages[..k])],
       tlb := DropPages(c, s.tlb, pid, table.pages, k, |table.pages|))
  }

  lemma {:induction false} DropsForget(c: Settings, s: Mem, pid: nat, k: nat, j: nat)
    requires Inv(c, s) && pid in s.tables && k <= j <= |s.tables[pid].pages|
    ensures Forgot(c, s, s.(tlb := DropPages(c, s.tlb, pid, s.tables[pid].pages, k, j)), pid, k, j)
  {
    hide Inv, Tlb.Lookup, Tlb.Used, Tlb.Drop, Forgot;
    if j == k {
      ForgotNone(c, s, pid, k);
    } else {
      DropsForget(c, s, pid, k, j - 1);
      var pages := s.tables[pid].pages;
      ForgotNext(c, s, s.(tlb := DropPages(c, s.tlb, pid, pages, k, j - 1)),
                 s.(tlb := DropPages(c, s.tlb, pid, pages, k, j)),
                 pid, k, j - 1);
    }
  }

  lemma CutByCuts(c: Settings, s: Mem, pid: nat, k: nat)
    requires Inv(c, s) && pid in s.tables && k <= |s.tables[pid].pages|
    ensures CutTo(c, s, CutBy(c, s, pid, k), pid, k)
  {
    hide Inv, DropPages;
    DropsForget(c, s, pid, k, |s.tables[pid].pages|);
  }

  lemma NoBuffer(t: Tlb.Buffer, pid: nat, n: nat)
    requires Tlb.Ok(t, 0)
    ensures Tlb.Lookup(t, pid, n).None?
  {
  }

  lemma ForgotOne(c: Settings, s: Mem, t: Mem, u: Mem, pid: nat, k: nat, j: nat, q: Key)
    requires Inv(c, s) && Has(s, Key(pid, j + 1)) && k <= j && Forgot(c, s, t, pid, k, j) && q.page < MARK
    requires u.tlb == Tlb.Drop(Tlb.Used(t.tlb, pid, j + 1), pid, j + 1, PageOf(s, Key(pid, j + 1)).frame)
    ensures Tlb.Ok(u.tlb, c.tlbMax)
    ensures Tlb.Lookup(u.tlb, q.pid, q.page) == if q == Key(pid, j + 1) then None else Tlb.Lookup(t.tlb, q.pid, q.page)
  {
    hide Structure, Tlb.Lookup, Tlb.Used, Tlb.Drop, Tlb.UniqueKeys;
    var f, used := PageOf(s, Key(pid, j + 1)).frame, Tlb.Used(t.tlb, pid, j + 1);
    PageNumber(c, s, Key(pid, j + 1));
    Tlb.UsedThenLookup(t.tlb, c.tlbMax, pid, j + 1, q.pid, q.page);
    Tlb.DropThenLookup(used, c.tlbMax, pid, j + 1, f, q.pid, q.page);
  }

  lemma CutKeeps(c: Settings, s: Mem, t: Mem, pid: nat, k: nat)
    requires Inv(c, s) && CutTo(c, s, t, pid, k)
    ensures Inv(c, t) && SameOthers(s, t, pid) && |t.tables[pid].pages| == k
    ensures t.tables[pid].lastHeap == s.tables[pid].lastHeap
    ensures Later(s, t) && Later(t, s) && SameSpacesBut(c, s, t, pid)
    ensures Pages(c.pageSize, k) <= |Space(c, s, pid)| && Space(c, t, pid) == Space(c, s, pid)[..Pages(c.pageSize, k)]
  {
    hide Space, DynamicOk, Tlb.Lookup, Tlb.Ok, PageBytes, FramesExclusive, StampsAreHistory, Numbered;
    forall q ensures Has(t, q) <==> Has(s, q) && (q.pid == pid ==> q.page <= k) {}
    forall q | Has(t, q) ensures PageOf(t, q) == PageOf(s, q) {}
    FewerKeep(c, s, t) by { assert Listed(t); }
    assert TlbAgrees(c, t);
    CutBytes(c, s, t, pid, k);
    forall p | p in s.tables && p != pid ensures Space(c, t, p) == Space(c, s, p) {
      SamePagesSameSpace(c, s, t, p);
    }
    CutSpace(c, s, t, pid, k);
  }

  lemma CutBytes(c: Settings, s: Mem, t: Mem, pid: nat, k: nat)
    requires CutTo(c, s, t, pid, k)
    ensures forall q :: Has(t, q) ==> Has(s, q) && PageBytes(c, t, q) == PageBytes(c, s, q)
    ensures forall q :: Has(s, q) && q.pid != pid ==> Has(t, q)
    ensures Backed(s) ==> Backed(t)
  {
  }

  lemma CutSpace(c: Settings, s: Mem, t: Mem, pid: nat, k: nat)
    requires Structure(c, s) && CutTo(c, s, t, pid, k)
    requires forall q :: Has(t, q) ==> Has(s, q) && PageBytes(c, t, q) == PageBytes(c, s, q)
    ensures Pages(c.pageSize, k) <= |Space(c, s, pid)| && Space(c, t, pid) == Space(c, s, pid)[..Pages(c.pageSize, k)]
  {
    hide PageBytes, Forgot;
    var a, b := PageList(c, t, pid), PageList(c, s, pid);
    ListSized(c, s, pid);
    forall j | 0 <= j < |a| ensures b[j] == a[j] {
      assert Has(t, Nth(pid, j));
    }
    assert Sized(a, c.pageSize);
    FlatPrefix(a, b, c.pageSize);
  }

  /** The last page given back and lastHeap moved to the block before. */
  lemma FlaggedReleases(c: Settings, s: Mem, m: Mem, d: Mem, pid: nat, ch: seq<nat>, k: nat, prev: nat)
    requires c.pageSize > 0 && Flagged(c, s, m, pid, ch, k) && Inv(c, m)
    requires |m.tables[pid].pages| > 0 && CutTo(c, m, d, pid, |m.tables[pid].pages| - 1)
    requires Sound(m, pid) ==>
      prev == H.Prev(Space(c, s, pid), ch[k]) && PageIndex(c.pageSize, ch[k]) + 1 == |m.tables[pid].pages|
    requires Sound(m, pid) ==>
      var h := HeapOf(c, s, pid);
      H.HasHeader(h.bytes, H.Prev(h.bytes, ch[k])) && !H.PrevIsFree(h, ch[k]) && H.Releases(c.pageSize, h, ch[k])
    ensures pid in d.tables && Inv(c, SetLast(d, pid, prev)) && BlockFreed(c, s, SetLast(d, pid, prev), pid, ch, k)
  {
    hide H.Chain, Space, Inv, CutTo;
    H.LinksOf(HeapOf(c, s, pid), ch, k);
    CutKeeps(c, m, d, pid, |m.tables[pid].pages| - 1);
    SetLastKeeps(c, d, pid, prev);
  }

  // ---- what the callers are promised ------------------------------------------------------------------------

  /** memfree ends the allocation and no other, unless it gives the last page back. */
  lemma FreedMeans(c: Settings, s: Mem, t: Mem, pid: nat, ch: seq<nat>, k: nat)
    requires c.pageSize > 0 && BlockFreed(c, s, t, pid, ch, k) && k < |ch| - 1 && Sound(t, pid)
    ensures var h := HeapOf(c, s, pid);
      !H.Releases(c.pageSize, h, ch[k]) ==>
        && H.Chain(HeapOf(c, t, pid), H.FreedChain(h, ch, k))
        && H.Live(HeapOf(c, t, pid), H.FreedChain(h, ch, k)) == H.Live(h, ch) - {ch[k]}
  {
    hide H.Chain, H.Live, H.Free, H.Releases, Space;
    H.FreeKeeps(c.pageSize, HeapOf(c, s, pid), ch, k);
  }

  /** memfree leaves the block free, joined to a free block before it, with room up to the next header. */
  lemma FreedJoins(c: Settings, s: Mem, t: Mem, pid: nat, ch: seq<nat>, k: nat)
    requires c.pageSize > 0 && BlockFreed(c, s, t, pid, ch, k) && k < |ch| - 1 && Sound(t, pid)
    requires !H.Releases(c.pageSize, HeapOf(c, s, pid), ch[k])
    ensures var h := HeapOf(c, s, pid);
      var j := if H.BehindFree(h, ch, k) then k - 1 else k;
      var d := if H.BehindFree(h, ch, k) then ch[..k] + ch[k + 1..] else ch;
      && H.Chain(HeapOf(c, t, pid), d) && d[j + 1] == ch[k + 1] && ch[j] + H.HEADER <= ch[k + 1]
      && H.Room(HeapOf(c, t, pid), d, j, ch[k + 1] - ch[j] - H.HEADER)
  {
    hide H.Chain, H.Free, H.Releases, H.BehindFree, H.Room, Space;
    H.FreeJoins(c.pageSize, HeapOf(c, s, pid), ch, k);
  }

  /** memfree of the last header keeps every allocation where the block before is busy and no page is given back. */
  lemma FreedLastMeans(c: Settings, s: Mem, t: Mem, pid: nat, ch: seq<nat>)
    requires c.pageSize > 0 && ch != [] && BlockFreed(c, s, t, pid, ch, |ch| - 1) && Sound(t, pid)
    requires H.LastIsHarmless(c.pageSize, HeapOf(c, s, pid))
    ensures H.Chain(HeapOf(c, t, pid), ch) && H.Live(HeapOf(c, t, pid), ch) == H.Live(HeapOf(c, s, pid), ch)
  {
    hide H.Chain, H.Live, H.Free, H.Releases, H.PrevIsFree, Space;
    H.LastIsNoBlock(HeapOf(c, s, pid), ch);
    H.FreeLastKeepsChain(c.pageSize, HeapOf(c, s, pid), ch);
  }

  /** memwrite into a live allocation changes its bytes and nothing else. */
  lemma StoredMeans(c: Settings, s: Mem, t: Mem, pid: nat, ch: seq<nat>, dir: nat, data: seq<byte>)
    requires pid in s.tables && H.Chain(HeapOf(c, s, pid), ch) && Sound(t, pid)
    requires dir in H.Live(HeapOf(c, s, pid), ch) && |data| <= |H.Live(HeapOf(c, s, pid), ch)[dir]|
    requires dir + H.HEADER + |data| <= |Space(c, s, pid)|
    requires Became(c, s, t, pid, H.Store(HeapOf(c, s, pid), dir, data))
    ensures var h := HeapOf(c, s, pid);
      && H.Chain(HeapOf(c, t, pid), ch)
      && H.Live(HeapOf(c, t, pid), ch) == H.Live(h, ch)[dir := Patch(H.Live(h, ch)[dir], 0, data)]
  {
    hide H.Chain, H.Live, Space, H.Store;
    H.StoreKeeps(HeapOf(c, s, pid), ch, dir, data);
  }

  /** memread after memwrite gives the data back, whatever faults lie between them. */
  lemma WriteThenRead(c: Settings, s: Mem, m: Mem, u: Mem, t: Mem, pid: nat, dir: nat, data: seq<byte>, out: seq<byte>)
    requires pid in s.tables && dir + H.HEADER + |data| <= |Space(c, s, pid)|
    requires Became(c, s, m, pid, H.Store(HeapOf(c, s, pid), dir, data)) && Unseen(c, m, u)
    requires ReadBack(c, u, t, pid, dir + H.HEADER, out) && |out| == |data| && Sound(t, pid)
    ensures out == data
  {
    hide Space;
    var b := Patch(Space(c, s, pid), dir + H.HEADER, data);
    assert b[dir + H.HEADER..dir + H.HEADER + |data|] == data;
  }
}
