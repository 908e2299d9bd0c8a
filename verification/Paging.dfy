/**
 The paged memory as a value: page tables, frames, translation buffer and the swap store
 it talks to, with the elementary state changes of the memory process under dynamic
 assignment, and what they do to the byte each process sees at each of its addresses.
 */
module Paging {
  import opened Bytes
  import opened Options
  import opened Swap
  import Tlb

  /** Stamps from this number on are never chosen as least recently used. */
  const STAMP_LIMIT := 99999

  datatype Settings = Settings(pageSize: nat, frameCount: nat, tlbMax: nat, tlbFifo: bool, lru: bool, swap: Swap.Config)

  /**
   A page holds at least one heap header; dynamic assignment on both sides; and, because LRU
   replacement drops the buffer entry of the wrong process (LruDropsWrongEntry), no
   translation buffer together with LRU.
   */
  predicate Supported(c: Settings) {
    && c.pageSize >= 9 && c.frameCount >= 1
    && c.swap.pageSize == c.pageSize && c.swap.mode.Dynamic?
    && (c.lru ==> c.tlbMax == 0)
  }

  datatype Page = Page(num: nat, frame: nat, present: bool, used: bool, modified: bool, stamp: nat)

  datatype Table = Table(lastHeap: nat, pages: seq<Page>)

  datatype Key = Key(pid: nat, page: nat)

  /**
   `order` lists the processes as todasLasTablasDePaginas does and `tables` holds their tables.
   `rollBack` is hayQueDegenerar. `refused` counts the saves swap turned down, `lost` has the processes
   of which a page left memory without settling in swap (DynamicComesBack), `doubles` counts the Clock-M
   replacements that took two pages and `history` has the accesses so far, oldest first: what the log shows.
   */
  datatype Mem = Mem(order: seq<nat>, tables: map<nat, Table>, frames: seq<seq<byte>>, tlb: Tlb.Buffer,
                     lruClock: nat, hand: nat, swamp: Store, rollBack: bool,
                     refused: nat, lost: set<nat>, doubles: nat, history: seq<Key>)

  predicate Has(s: Mem, k: Key) {
    k.pid in s.tables && 1 <= k.page <= |s.tables[k.pid].pages|
  }

  function PageOf(s: Mem, k: Key): Page
    requires Has(s, k)
  {
    s.tables[k.pid].pages[k.page - 1]
  }

  function SetPage(s: Mem, k: Key, p: Page): (t: Mem)
    requires Has(s, k)
    ensures forall q :: Has(t, q) <==> Has(s, q)
    ensures forall q :: Has(s, q) ==> PageOf(t, q) == if q == k then p else PageOf(s, q)
  {
    s.(tables := s.tables[k.pid := s.tables[k.pid].(pages := s.tables[k.pid].pages[k.page - 1 := p])])
  }

  /** Same processes with the same heap ends and the same number of pages. */
  ghost predicate SameShape(s: Mem, t: Mem) {
    && t.order == s.order && t.tables.Keys == s.tables.Keys
    && forall p :: p in s.tables ==>
         t.tables[p].lastHeap == s.tables[p].lastHeap && |t.tables[p].pages| == |s.tables[p].pages|
  }

  // ---- the address space of a process ------------------------------------------------

  function FrameAt(s: Mem, f: nat): seq<byte> {
    if f < |s.frames| then s.frames[f] else []
  }

  function PutAt(frames: seq<seq<byte>>, f: nat, content: seq<byte>): seq<seq<byte>> {
    if f < |frames| then frames[f := content] else frames
  }

  /** The bytes of a page: its frame when present, otherwise the copy swap holds. */
  function PageBytes(c: Settings, s: Mem, k: Key): seq<byte>
    requires Has(s, k)
  {
    var p := PageOf(s, k);
    if p.present then FrameAt(s, p.frame)
    else
      match Fetch(s.swamp, k.pid, k.page)
      case Some(content) => content
      case None => Zeros(c.pageSize)
  }

  /** Swap has refused no save so far, and process `p` has lost no page. */
  predicate Sound(s: Mem, p: nat) {
    s.refused == 0 && p !in s.lost
  }

  /** `t` comes after `s`: what was refused, lost or taken twice stays so. */
  predicate Later(s: Mem, t: Mem) {
    s.refused <= t.refused && s.lost <= t.lost && s.doubles <= t.doubles
  }

  lemma LaterSound(s: Mem, t: Mem, p: nat)
    requires Later(s, t) && Sound(t, p)
    ensures Sound(s, p)
  {
  }

  /** The processes that are still sound at `t` see the same bytes. */
  ghost predicate SameBytes(c: Settings, s: Mem, t: Mem) {
    forall k :: Has(s, k) && Has(t, k) && Sound(t, k.pid) ==> PageBytes(c, t, k) == PageBytes(c, s, k)
  }

  lemma BytesTwice(c: Settings, s: Mem, m: Mem, t: Mem)
    requires SameShape(s, m) && SameShape(m, t) && SameBytes(c, s, m) && SameBytes(c, m, t) && Later(m, t)
    ensures SameShape(s, t) && SameBytes(c, s, t)
  {
    forall q | Has(s, q) && Has(t, q) && Sound(t, q.pid) ensures PageBytes(c, t, q) == PageBytes(c, s, q) {
      assert Has(m, q);
      LaterSound(m, t, q.pid);
    }
  }

  lemma BytesAt(c: Settings, s: Mem, t: Mem, k: Key)
    requires SameBytes(c, s, t) && Has(s, k) && Has(t, k) && Sound(t, k.pid)
    ensures PageBytes(c, t, k) == PageBytes(c, s, k)
  {
  }

  // ---- what every run keeps --------------------------------------------------------------

  ghost predicate Listed(s: Mem) {
    && (forall i, j :: 0 <= i < j < |s.order| ==> s.order[i] != s.order[j])
    && (forall p :: p in s.order <==> p in s.tables)
  }

  ghost predicate FramesSized(c: Settings, s: Mem) {
    |s.frames| == c.frameCount && forall f :: 0 <= f < c.frameCount ==> |s.frames[f]| == c.pageSize
  }

  /** The i-th page of a process is numbered i+1 and stays clear of the markers of swap and of the buffer. */
  ghost predicate Numbered(s: Mem) {
    && (forall k :: Has(s, k) ==> PageOf(s, k).num == k.page && k.page < MARK)
    && (forall p :: p in s.tables ==> p != MARK)
  }

  predicate SameFrame(p: Page, q: Page) {
    p.present && q.present && p.frame == q.frame
  }

  /** A present page has a frame of its own; an absent one carries the out-of-range marker. */
  ghost predicate FramesExclusive(c: Settings, s: Mem) {
    && (forall k :: Has(s, k) ==>
         if PageOf(s, k).present then PageOf(s, k).frame < c.frameCount else PageOf(s, k).frame == c.frameCount + 1)
    && (forall k, l :: Has(s, k) && Has(s, l) && SameFrame(PageOf(s, k), PageOf(s, l)) ==> k == l)
  }

  /** A page's stamp is the position, from 1, of its last access. */
  ghost predicate StampsAreHistory(s: Mem) {
    && s.lruClock == |s.history|
    && forall k :: Has(s, k) ==>
         var m := PageOf(s, k).stamp;
         1 <= m <= |s.history| && s.history[m - 1] == k && forall i :: m <= i < |s.history| ==> s.history[i] != k
  }

  /** Every buffer entry of a process that exists names a present page of it and that page's frame. */
  ghost predicate TlbAgrees(c: Settings, s: Mem) {
    && Tlb.Ok(s.tlb, c.tlbMax)
    && forall k: Key :: k.pid in s.tables && k.page < MARK && Tlb.Lookup(s.tlb, k.pid, k.page).Some? ==>
         Has(s, k) && PageOf(s, k).present && Tlb.Lookup(s.tlb, k.pid, k.page) == Some(PageOf(s, k).frame)
  }

  /** Swap holds a copy of every absent page of the processes that are sound. */
  ghost predicate Backed(s: Mem) {
    forall k :: Has(s, k) && !PageOf(s, k).present && Sound(s, k.pid) ==> Fetch(s.swamp, k.pid, k.page).Some?
  }

  /** What holds whatever swap answered: everything but the contents of absent pages. */
  ghost predicate Structure(c: Settings, s: Mem) {
    && Supported(c) && Listed(s) && FramesSized(c, s) && Numbered(s) && FramesExclusive(c, s)
    && StampsAreHistory(s) && DynamicOk(c.swap, s.swamp) && s.hand <= c.frameCount
  }

  ghost predicate Inv(c: Settings, s: Mem) {
    Structure(c, s) && TlbAgrees(c, s) && Backed(s) && (s.rollBack ==> s.refused > 0)
  }

  /** The parts of the invariant a proof asks for by name. */
  lemma InvMeans(c: Settings, s: Mem)
    requires Inv(c, s)
    ensures Supported(c) && Structure(c, s) && c.pageSize >= 9
  {
  }

  lemma StructureMeans(c: Settings, s: Mem)
    requires Structure(c, s)
    ensures c.pageSize >= 9
  {
  }

  lemma PageNumber(c: Settings, s: Mem, k: Key)
    requires Inv(c, s) && Has(s, k)
    ensures PageOf(s, k).num == k.page < MARK
  {
  }

  /** A present page has a frame among the frames. */
  lemma PresentInRange(c: Settings, s: Mem, k: Key)
    requires FramesExclusive(c, s) && Has(s, k) && PageOf(s, k).present
    ensures PageOf(s, k).frame < c.frameCount
  {
  }

  // ---- elementary changes -------------------------------------------------------------

  /** The processes that have lost a page once page `k` is sent and its copy in swap is the only one. */
  function LostWith(c: Settings, s: Mem, k: Key): set<nat> {
    if Settles(c.swap, s.swamp, k.pid, k.page) then s.lost else s.lost + {k.pid}
  }

  /** mandarPaginaAgonza: the answer of swap to a save, and its store afterwards. */
  function Saved(c: Settings, s: Mem, k: Key, content: seq<byte>): Mem
    requires Has(s, k)
  {
    var (ok, swamp) := Save(c.swap, s.swamp, k.pid, k.page, content);
    s.(swamp := swamp, rollBack := s.rollBack || !ok, refused := if ok then s.refused else s.refused + 1,
       lost := if PageOf(s, k).present then s.lost else LostWith(c, s, k))
  }

  /**
   Sending a page to swap, dropping its buffer entry under process `who`, and liberarFrame.
   Clock-M passes the page's own process; LRU passes the process that needs the frame.
   */
  function Evict(c: Settings, s: Mem, k: Key, who: nat): Mem
    requires Has(s, k)
  {
    var p := PageOf(s, k);
    var m := Saved(c, s, k, FrameAt(s, p.frame));
    SetPage(m, k, p.(frame := c.frameCount + 1, present := false, modified := false))
    .(frames := PutAt(s.frames, p.frame, Zeros(c.pageSize)), lost := LostWith(c, s, k),
      tlb := if c.tlbMax == 0 then s.tlb else Tlb.Drop(s.tlb, who, k.page, p.frame))
  }

  ghost predicate Owned(s: Mem, f: nat) {
    exists k :: Has(s, k) && PageOf(s, k).frame == f
  }

  /** getNewEmptyFrame: the first frame from `f` on that no page has, or the number of frames. */
  ghost function FreeFrame(c: Settings, s: Mem, f: nat): (r: nat)
    requires f <= c.frameCount
    ensures f <= r <= c.frameCount
    ensures r < c.frameCount ==> !Owned(s, r)
    ensures forall g :: f <= g < r ==> Owned(s, g)
    decreases c.frameCount - f
  {
    if f == c.frameCount || !Owned(s, f) then f else FreeFrame(c, s, f + 1)
  }

  ghost predicate IsFirstFree(c: Settings, s: Mem, f: nat) {
    f < c.frameCount && !Owned(s, f) && forall g :: 0 <= g < f ==> Owned(s, g)
  }

  /** Bringing an absent page back from swap into the first free frame. */
  ghost function Load(c: Settings, s: Mem, k: Key): Mem
    requires Has(s, k)
  {
    var f := FreeFrame(c, s, 0);
    SetPage(s, k, PageOf(s, k).(frame := f, modified := false, present := true))
    .(frames := PutAt(s.frames, f,
                      match Fetch(s.swamp, k.pid, k.page) case Some(b) => b case None => Zeros(c.pageSize)))
  }

  /** Stamping a page as just used. */
  function Touch(s: Mem, k: Key): Mem
    requires Has(s, k)
  {
    SetPage(s, k, PageOf(s, k).(used := true, stamp := s.lruClock + 1))
    .(lruClock := s.lruClock + 1, history := s.history + [k])
  }

  function Remember(c: Settings, s: Mem, k: Key): Mem
    requires Has(s, k)
  {
    if c.tlbMax == 0 then s
    else s.(tlb := Tlb.Add(s.tlb, c.tlbMax, c.tlbFifo, k.pid, k.page, PageOf(s, k).frame))
  }

  /** memcpy into a frame, setPaginaAsModificado and, where the code does it, mandarPaginaAgonza. */
  function Write(s: Mem, k: Key, at: nat, data: seq<byte>): Mem
    requires Has(s, k)
  {
    var p := PageOf(s, k);
    SetPage(s, k, p.(modified := true)).(frames := PutAt(s.frames, p.frame, Overwrite(FrameAt(s, p.frame), at, data)))
  }

  // ---- each change keeps the invariant --------------------------------------------------

  /** Only the record of page `k` may differ. */
  ghost predicate DiffersAt(s: Mem, t: Mem, k: Key) {
    && SameShape(s, t) && Has(s, k)
    && forall q :: Has(s, q) && q != k ==> PageOf(t, q) == PageOf(s, q)
  }

  lemma ShapeTwice(s: Mem, m: Mem, t: Mem)
    requires SameShape(s, m) && SameShape(m, t)
    ensures SameShape(s, t)
  {
  }

  lemma SameShapeItself(s: Mem)
    ensures SameShape(s, s)
  {
  }

  lemma ShapeHas(s: Mem, t: Mem, k: Key)
    requires SameShape(s, t) && Has(s, k)
    ensures Has(t, k)
  {
  }

  lemma ListedKept(s: Mem, t: Mem)
    requires Listed(s) && SameShape(s, t)
    ensures Listed(t)
  {
  }

  lemma SameTables(c: Settings, s: Mem, t: Mem)
    requires Listed(s) && FramesExclusive(c, s) && FramesSized(c, s)
    requires t.tables == s.tables && t.order == s.order && t.frames == s.frames
    ensures Listed(t) && FramesExclusive(c, t) && FramesSized(c, t)
  {
    forall k ensures Has(t, k) <==> Has(s, k) {}
    forall k | Has(t, k) ensures PageOf(t, k) == PageOf(s, k) {}
  }

  lemma NumberedKept(s: Mem, t: Mem, k: Key)
    requires Numbered(s) && DiffersAt(s, t, k) && PageOf(t, k).num == PageOf(s, k).num
    ensures Numbered(t)
  {
    forall q | Has(t, q) ensures PageOf(t, q).num == q.page && q.page < MARK {
      assert Has(s, q);
    }
  }

  lemma ExclusiveKept(c: Settings, s: Mem, t: Mem, k: Key)
    requires FramesExclusive(c, s) && DiffersAt(s, t, k)
    requires if PageOf(t, k).present then PageOf(t, k).frame < c.frameCount else PageOf(t, k).frame == c.frameCount + 1
    requires forall q :: Has(s, q) && q != k ==> !SameFrame(PageOf(s, q), PageOf(t, k))
    ensures FramesExclusive(c, t)
  {
    forall q | Has(t, q)
      ensures if PageOf(t, q).present then PageOf(t, q).frame < c.frameCount else PageOf(t, q).frame == c.frameCount + 1
    {
      assert Has(s, q);
    }
    forall q, l | Has(t, q) && Has(t, l) && SameFrame(PageOf(t, q), PageOf(t, l)) ensures q == l {
      assert Has(s, q) && Has(s, l);
    }
  }

  lemma StampsKept(s: Mem, t: Mem, k: Key)
    requires StampsAreHistory(s) && DiffersAt(s, t, k) && PageOf(t, k).stamp == PageOf(s, k).stamp
    requires t.history == s.history && t.lruClock == s.lruClock
    ensures StampsAreHistory(t)
  {
    forall q | Has(t, q) ensures PageOf(t, q).stamp == PageOf(s, q).stamp && Has(s, q) {
      assert Has(s, q);
    }
  }

  lemma StructureKept(c: Settings, s: Mem, t: Mem, k: Key)
    requires Structure(c, s) && DiffersAt(s, t, k) && FramesSized(c, t) && DynamicOk(c.swap, t.swamp)
    requires t.hand <= c.frameCount
    requires PageOf(t, k).num == PageOf(s, k).num && PageOf(t, k).stamp == PageOf(s, k).stamp
    requires t.history == s.history && t.lruClock == s.lruClock
    requires if PageOf(t, k).present then PageOf(t, k).frame < c.frameCount else PageOf(t, k).frame == c.frameCount + 1
    requires forall q :: Has(s, q) && q != k ==> !SameFrame(PageOf(s, q), PageOf(t, k))
    ensures Structure(c, t)
  {
    ListedKept(s, t);
    NumberedKept(s, t, k);
    ExclusiveKept(c, s, t, k);
    StampsKept(s, t, k);
  }

  /** A save changes the stored copy of its page and of no other. */
  lemma SavedCopies(c: Settings, s: Mem, k: Key, content: seq<byte>)
    requires Structure(c, s) && Has(s, k) && |content| == c.pageSize
    ensures var t := Saved(c, s, k, content);
      && DynamicOk(c.swap, t.swamp) && Later(s, t)
      && (forall q :: Has(s, q) && q != k ==> Fetch(t.swamp, q.pid, q.page) == Fetch(s.swamp, q.pid, q.page))
      && (t.refused == 0 && k.pid !in LostWith(c, s, k) ==> Fetch(t.swamp, k.pid, k.page) == Some(content))
  {
    hide DynamicOk, Save, Fetch, Settles, StampsAreHistory, FramesExclusive;
    DynamicSaveThenFetch(c.swap, s.swamp, k.pid, k.page, content, k.pid, k.page);
    var t := Saved(c, s, k, content);
    forall q | Has(s, q) && q != k ensures Fetch(t.swamp, q.pid, q.page) == Fetch(s.swamp, q.pid, q.page) {
      DynamicSaveThenFetch(c.swap, s.swamp, k.pid, k.page, content, q.pid, q.page);
    }
  }

  /** mandarPaginaAgonza: sending a page changes what its process sees only if the page is absent. */
  lemma SendKeeps(c: Settings, s: Mem, k: Key, content: seq<byte>)
    requires Inv(c, s) && Has(s, k) && |content| == c.pageSize
    ensures var t := Saved(c, s, k, content);
      && Inv(c, t) && SameShape(s, t) && Later(s, t)
      && forall q :: Has(s, q) && Sound(t, q.pid) ==>
           PageBytes(c, t, q) == if q == k && !PageOf(s, k).present then content else PageBytes(c, s, q)
  {
    hide StampsAreHistory, Numbered, DynamicOk, Save, Tlb.Lookup;
    var t := Saved(c, s, k, content);
    SavedCopies(c, s, k, content);
    AloneInFrame(c, s, k);
    StructureKept(c, s, t, k);
    assert TlbAgrees(c, t);
  }

  lemma EvictStructure(c: Settings, s: Mem, k: Key, who: nat)
    requires Structure(c, s) && Has(s, k) && PageOf(s, k).present
    ensures Structure(c, Evict(c, s, k, who)) && DiffersAt(s, Evict(c, s, k, who), k)
  {
    hide DynamicOk, Save;
    SavedCopies(c, s, k, FrameAt(s, PageOf(s, k).frame));
    StructureKept(c, s, Evict(c, s, k, who), k);
  }

  lemma EvictTlb(c: Settings, s: Mem, k: Key, who: nat)
    requires Structure(c, s) && TlbAgrees(c, s) && Has(s, k) && PageOf(s, k).present && (c.tlbMax > 0 ==> who == k.pid)
    ensures TlbAgrees(c, Evict(c, s, k, who))
  {
    var t := Evict(c, s, k, who);
    if c.tlbMax > 0 {
      var f := PageOf(s, k).frame;
      Tlb.DropThenLookup(s.tlb, c.tlbMax, k.pid, k.page, f, k.pid, k.page);
      forall q: Key | q.page < MARK
        ensures Tlb.Lookup(t.tlb, q.pid, q.page) == if q == k then None else Tlb.Lookup(s.tlb, q.pid, q.page)
      {
        Tlb.DropThenLookup(s.tlb, c.tlbMax, k.pid, k.page, f, q.pid, q.page);
      }
    }
  }

  /** An eviction is invisible to every process that is sound afterwards. */
  lemma EvictKeeps(c: Settings, s: Mem, k: Key, who: nat)
    requires Inv(c, s) && Has(s, k) && PageOf(s, k).present && (c.tlbMax > 0 ==> who == k.pid)
    ensures var t := Evict(c, s, k, who);
      Inv(c, t) && DiffersAt(s, t, k) && Later(s, t) && SameBytes(c, s, t)
  {
    hide DynamicOk, Save, Fetch, Structure, TlbAgrees;
    EvictStructure(c, s, k, who);
    EvictTlb(c, s, k, who);
    EvictBytes(c, s, k, who);
    EvictFlags(c, s, k, who);
  }

  lemma EvictFlags(c: Settings, s: Mem, k: Key, who: nat)
    requires Has(s, k)
    ensures var t := Evict(c, s, k, who);
      Later(s, t) && (t.refused > s.refused || t.rollBack == s.rollBack)
  {
  }

  lemma EvictBytes(c: Settings, s: Mem, k: Key, who: nat)
    requires Inv(c, s) && Has(s, k) && PageOf(s, k).present
    ensures SameBytes(c, s, Evict(c, s, k, who)) && Backed(Evict(c, s, k, who))
  {
    hide DynamicOk, Save, Settles, StampsAreHistory, Numbered, TlbAgrees;
    var t, content := Evict(c, s, k, who), FrameAt(s, PageOf(s, k).frame);
    SavedCopies(c, s, k, content);
    forall q | Has(s, q) && Sound(t, q.pid)
      ensures PageBytes(c, t, q) == PageBytes(c, s, q)
      ensures !PageOf(t, q).present ==> Fetch(t.swamp, q.pid, q.page).Some?
    {
      assert q != k ==> !SameFrame(PageOf(s, q), PageOf(s, k));
      assert Sound(s, q.pid);
    }
  }

  lemma LoadStructure(c: Settings, s: Mem, k: Key)
    requires Structure(c, s) && Has(s, k) && !PageOf(s, k).present && FreeFrame(c, s, 0) < c.frameCount
    ensures Structure(c, Load(c, s, k)) && DiffersAt(s, Load(c, s, k), k)
  {
    var f := FreeFrame(c, s, 0);
    forall q | Has(s, q) ensures PageOf(s, q).frame != f {
    }
    StructureKept(c, s, Load(c, s, k), k);
  }

  /** Loading an absent page is invisible: what was in swap is now in a frame, the first that no page has. */
  lemma LoadKeeps(c: Settings, s: Mem, k: Key)
    requires Inv(c, s) && Has(s, k) && !PageOf(s, k).present && FreeFrame(c, s, 0) < c.frameCount
    ensures var t := Load(c, s, k);
      && Inv(c, t) && DiffersAt(s, t, k) && PageOf(t, k).present && Later(s, t) && SameBytes(c, s, t)
      && IsFirstFree(c, s, PageOf(t, k).frame)
  {
    hide PageBytes, StampsAreHistory, Numbered, Listed, FramesSized;
    LoadStructure(c, s, k);
    assert TlbAgrees(c, Load(c, s, k));
    LoadBytes(c, s, k);
  }

  lemma LoadBytes(c: Settings, s: Mem, k: Key)
    requires FramesSized(c, s) && Backed(s) && Has(s, k) && !PageOf(s, k).present && FreeFrame(c, s, 0) < c.frameCount
    ensures SameBytes(c, s, Load(c, s, k)) && Backed(Load(c, s, k))
  {
    var f := FreeFrame(c, s, 0);
    forall q | Has(s, q) ensures PageOf(s, q).frame != f {
    }
  }

  lemma UseBitKeeps(c: Settings, s: Mem, k: Key, used: bool)
    requires Inv(c, s) && Has(s, k)
    ensures Inv(c, SetPage(s, k, PageOf(s, k).(used := used)))
  {
    var t := SetPage(s, k, PageOf(s, k).(used := used));
    forall q | Has(s, q) && q != k ensures !SameFrame(PageOf(s, q), PageOf(t, k)) {
      assert !SameFrame(PageOf(s, q), PageOf(s, k));
    }
    StructureKept(c, s, t, k);
    assert TlbAgrees(c, t);
  }

  lemma TouchStamps(s: Mem, k: Key)
    requires StampsAreHistory(s) && Has(s, k)
    ensures StampsAreHistory(Touch(s, k))
  {
    var t := Touch(s, k);
    forall q | Has(t, q)
      ensures var m := PageOf(t, q).stamp;
        1 <= m <= |t.history| && t.history[m - 1] == q && forall i :: m <= i < |t.history| ==> t.history[i] != q
    {
      assert Has(s, q);
      assert q != k ==> PageOf(t, q) == PageOf(s, q);
    }
  }

  lemma TouchKeeps(c: Settings, s: Mem, k: Key)
    requires Inv(c, s) && Has(s, k)
    ensures Inv(c, Touch(s, k)) && DiffersAt(s, Touch(s, k), k) && SameBytes(c, s, Touch(s, k)) && Later(s, Touch(s, k))
  {
    hide PageBytes, Tlb.Lookup, StampsAreHistory;
    var t := Touch(s, k);
    ListedKept(s, t);
    NumberedKept(s, t, k);
    TouchStamps(s, k);
    TouchFrames(c, s, k);
    TouchBytes(c, s, k);
  }

  lemma TouchFrames(c: Settings, s: Mem, k: Key)
    requires FramesExclusive(c, s) && TlbAgrees(c, s) && Has(s, k)
    ensures FramesExclusive(c, Touch(s, k)) && TlbAgrees(c, Touch(s, k))
  {
    forall q, l | Has(s, q) && Has(s, l) && SameFrame(PageOf(Touch(s, k), q), PageOf(Touch(s, k), l)) ensures q == l {
      assert SameFrame(PageOf(s, q), PageOf(s, l));
    }
  }

  lemma TouchBytes(c: Settings, s: Mem, k: Key)
    requires Has(s, k)
    ensures SameBytes(c, s, Touch(s, k)) && (Backed(s) ==> Backed(Touch(s, k)))
  {
  }

  lemma RememberTlb(c: Settings, s: Mem, k: Key)
    requires TlbAgrees(c, s) && Has(s, k) && k.page < MARK && PageOf(s, k).present && c.tlbMax > 0
    ensures TlbAgrees(c, Remember(c, s, k))
    ensures Tlb.Lookup(Remember(c, s, k).tlb, k.pid, k.page) == Some(PageOf(s, k).frame)
  {
    var t := Remember(c, s, k);
    var f := PageOf(s, k).frame;
    Tlb.AddThenLookup(s.tlb, c.tlbMax, c.tlbFifo, k.pid, k.page, f, k.pid, k.page);
    forall q: Key | q.page < MARK
      ensures Tlb.Lookup(t.tlb, q.pid, q.page) in {None, Tlb.Lookup(s.tlb, q.pid, q.page)} || q == k
    {
      Tlb.AddThenLookup(s.tlb, c.tlbMax, c.tlbFifo, k.pid, k.page, f, q.pid, q.page);
    }
  }

  /** After a page is remembered the buffer knows its frame, and every entry still agrees. */
  lemma RememberKeeps(c: Settings, s: Mem, k: Key)
    requires Inv(c, s) && Has(s, k) && PageOf(s, k).present
    ensures Inv(c, Remember(c, s, k)) && DiffersAt(s, Remember(c, s, k), k) && SameBytes(c, s, Remember(c, s, k))
    ensures c.tlbMax > 0 ==> Tlb.Lookup(Remember(c, s, k).tlb, k.pid, k.page) == Some(PageOf(s, k).frame)
  {
    hide StampsAreHistory, Numbered, TlbAgrees, Tlb.Lookup;
    if c.tlbMax > 0 {
      PageNumber(c, s, k);
      RememberTlb(c, s, k);
      assert DiffersAt(s, Remember(c, s, k), k);
      AloneInFrame(c, s, k);
      StructureKept(c, s, Remember(c, s, k), k);
    }
  }

  lemma AloneInFrame(c: Settings, s: Mem, k: Key)
    requires FramesExclusive(c, s) && Has(s, k)
    ensures forall q :: Has(s, q) && q != k ==> !SameFrame(PageOf(s, q), PageOf(s, k))
    ensures if PageOf(s, k).present then PageOf(s, k).frame < c.frameCount else PageOf(s, k).frame == c.frameCount + 1
  {
  }

  lemma WriteStructure(c: Settings, s: Mem, k: Key, at: nat, data: seq<byte>)
    requires Structure(c, s) && Has(s, k) && PageOf(s, k).present && at + |data| <= c.pageSize
    ensures Structure(c, Write(s, k, at, data)) && DiffersAt(s, Write(s, k, at, data), k)
  {
    var t := Write(s, k, at, data);
    forall q | Has(s, q) && q != k ensures !SameFrame(PageOf(s, q), PageOf(t, k)) {
      assert !SameFrame(PageOf(s, q), PageOf(s, k));
    }
    StructureKept(c, s, t, k);
  }

  /** Writing into the frame of a present page changes that page's bytes and no other page's. */
  lemma WriteKeeps(c: Settings, s: Mem, k: Key, at: nat, data: seq<byte>)
    requires Inv(c, s) && Has(s, k) && PageOf(s, k).present && at + |data| <= c.pageSize
    ensures var t := Write(s, k, at, data);
      && Inv(c, t) && DiffersAt(s, t, k) && |PageBytes(c, s, k)| == c.pageSize
      && forall q :: Has(s, q) ==>
           PageBytes(c, t, q) == if q == k then Patch(PageBytes(c, s, k), at, data) else PageBytes(c, s, q)
  {
    hide StampsAreHistory, Numbered, DynamicOk, Tlb.Lookup;
    var t := Write(s, k, at, data);
    WriteStructure(c, s, k, at, data);
    AloneInFrame(c, s, k);
    assert TlbAgrees(c, t);
    assert Backed(t);
  }
}
