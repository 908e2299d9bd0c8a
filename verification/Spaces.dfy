/** How one request after another changes the address spaces: runs of bytes written, nothing else. */
module Spaces {
  import opened Arith
  import opened Bytes
  import opened Paging
  import opened Replacement
  import opened FlatSpace
  import opened ClockSteps
  import opened ClockProgress

  /**
   Between `s` and `t` process `pid` had `data` written at address `at`, and no other byte of
   any process changed - for each process that is sound at `t`.
   */
  ghost predicate Written(c: Settings, s: Mem, t: Mem, pid: nat, at: nat, data: seq<byte>) {
    && SameShape(s, t) && pid in s.tables
    && at + |data| <= |Space(c, s, pid)|
    && Later(s, t) && SameSpacesBut(c, s, t, pid)
    && (Sound(t, pid) ==> Space(c, t, pid) == Patch(Space(c, s, pid), at, data))
  }

  lemma KeptWritesNothing(c: Settings, s: Mem, t: Mem, pid: nat, at: nat)
    requires Inv(c, s) && Kept(c, s, t) && pid in s.tables && at <= |Space(c, s, pid)|
    ensures Written(c, s, t, pid, at, [])
  {
    forall p | p in s.tables && Sound(t, p) ensures Space(c, t, p) == Space(c, s, p) {
      SameBytesSameSpace(c, s, t, p);
    }
    PatchNothing(Space(c, s, pid), at);
  }

  /** Two writes side by side are one. */
  lemma WrittenTwice(c: Settings, s: Mem, m: Mem, t: Mem, pid: nat, at: nat, d: seq<byte>, e: seq<byte>)
    requires Written(c, s, m, pid, at, d) && Written(c, m, t, pid, at + |d|, e)
    ensures SameShape(s, t) && Written(c, s, t, pid, at, d + e)
    ensures pid in t.tables && |Space(c, t, pid)| == |Space(c, s, pid)|
  {
    hide Space, Patch;
    SpacesTwice(c, s, m, t, pid);
    if Sound(t, pid) {
      LaterSound(m, t, pid);
      PatchTwice(Space(c, s, pid), at, d, e);
    }
  }

  lemma AccessWritesNothing(c: Settings, s: Mem, k: Key, t: Mem, at: nat)
    requires Inv(c, s) && Has(s, k) && Accessed(c, s, k, t) && at <= |Space(c, s, k.pid)|
    ensures Inv(c, t) && Written(c, s, t, k.pid, at, []) && Has(t, k) && PageOf(t, k).present
    ensures PageOf(t, k).frame < c.frameCount
  {
    AccessIsInvisible(c, s, k, t);
    KeptWritesNothing(c, s, t, k.pid, at);
  }

  lemma AccessAt(c: Settings, s: Mem, k: Key, t: Mem, o: nat)
    requires Inv(c, s) && Has(s, k) && Accessed(c, s, k, t) && o <= c.pageSize
    ensures Inv(c, t) && Written(c, s, t, k.pid, Address(c, k) + o, [])
    ensures Has(t, k) && PageOf(t, k).present && PageOf(t, k).frame < c.frameCount
  {
    hide Inv, Accessed, Written, Space, PageBytes;
    AddressFits(c, s, k, o);
    AccessWritesNothing(c, s, k, t, Address(c, k) + o);
  }

  lemma WrittenStart(c: Settings, s: Mem, pid: nat, at: nat)
    requires pid in s.tables && at <= |Space(c, s, pid)|
    ensures SameShape(s, s) && Written(c, s, s, pid, at, [])
  {
    PatchNothing(Space(c, s, pid), at);
  }

  lemma NothingWritten(c: Settings, s: Mem, pid: nat, at: nat, data: seq<byte>)
    requires pid in s.tables && at <= |Space(c, s, pid)| && c.pageSize > 0
    requires at + |data| > 0 && PageIndex(c.pageSize, at + |data| - 1) < PageIndex(c.pageSize, at)
    ensures data == [] && Written(c, s, s, pid, at, data)
  {
    if data != [] { PageIndexOrder(c.pageSize, at, at + |data| - 1); }
    WrittenStart(c, s, pid, at);
  }

  lemma WrittenNext(c: Settings, s: Mem, m: Mem, t: Mem, pid: nat, at: nat, data: seq<byte>, offset: nat, length: nat)
    requires offset + length <= |data| && Written(c, s, m, pid, at, data[..offset])
    requires Written(c, m, t, pid, at + offset, data[offset..offset + length])
    ensures SameShape(s, t) && Written(c, s, t, pid, at, data[..offset + length])
    ensures pid in t.tables && |Space(c, t, pid)| == |Space(c, s, pid)|
  {
    hide Written, Space;
    assert data[..offset] + data[offset..offset + length] == data[..offset + length];
    WrittenTwice(c, s, m, t, pid, at, data[..offset], data[offset..offset + length]);
  }

  /** memcpy into the frame of a present page. */
  lemma WriteWrites(c: Settings, s: Mem, k: Key, o: nat, data: seq<byte>)
    requires Inv(c, s) && Has(s, k) && PageOf(s, k).present && o + |data| <= c.pageSize
    ensures Inv(c, Write(s, k, o, data))
    ensures Written(c, s, Write(s, k, o, data), k.pid, Address(c, k) + o, data)
  {
    var t := Write(s, k, o, data);
    WriteKeeps(c, s, k, o, data);
    assert OnlyPatched(c, s, t, k, o, data);
    PatchedIsWritten(c, s, t, k, o, data);
  }

  lemma PatchedIsWritten(c: Settings, s: Mem, t: Mem, k: Key, o: nat, data: seq<byte>)
    requires Later(s, t) && OnlyPatched(c, s, t, k, o, data)
    ensures Written(c, s, t, k.pid, Address(c, k) + o, data)
  {
    hide Structure, Space, PageBytes, OnlyPatched;
    PatchedShape(c, s, t, k, o, data);
    AddressFits(c, s, k, o + |data|);
    if Sound(t, k.pid) { PagePatched(c, s, t, k, o, data); }
    forall p | p in s.tables && p != k.pid && Sound(t, p) ensures Space(c, t, p) == Space(c, s, p) {
      PagePatchedElsewhere(c, s, t, k, o, data, p);
    }
  }

  lemma PatchedShape(c: Settings, s: Mem, t: Mem, k: Key, o: nat, data: seq<byte>)
    requires OnlyPatched(c, s, t, k, o, data)
    ensures SameShape(s, t) && Has(s, k) && o + |data| <= c.pageSize
  {
  }

  /** mandarPaginaAgonza of a page that is in memory. */
  lemma SendWritesNothing(c: Settings, s: Mem, k: Key, content: seq<byte>, at: nat)
    requires Inv(c, s) && Has(s, k) && PageOf(s, k).present && |content| == c.pageSize
    requires at <= |Space(c, s, k.pid)|
    ensures Inv(c, Saved(c, s, k, content)) && Written(c, s, Saved(c, s, k, content), k.pid, at, [])
  {
    SendKeeps(c, s, k, content);
    KeptWritesNothing(c, s, Saved(c, s, k, content), k.pid, at);
  }

  /** A page written and sent: the state editarAlgoEnMemoria leaves once the page is in memory. */
  function Edited(c: Settings, m: Mem, k: Key, o: nat, data: seq<byte>): Mem
    requires Has(m, k)
  {
    var w := Write(m, k, o, data);
    Saved(c, w, k, FrameAt(w, PageOf(m, k).frame))
  }

  lemma EmptySides(data: seq<byte>)
    ensures [] + data == data && data + [] == data
  {
  }

  /** One page of a write: access, copy, mark, send. */
  lemma EditedWrites(c: Settings, s: Mem, m: Mem, k: Key, o: nat, data: seq<byte>)
    requires Inv(c, s) && Has(s, k) && Accessed(c, s, k, m) && o + |data| <= c.pageSize
    ensures Has(m, k) && PageOf(m, k).frame < c.frameCount
    ensures Inv(c, Edited(c, m, k, o, data))
    ensures SameShape(s, Edited(c, m, k, o, data))
    ensures Written(c, s, Edited(c, m, k, o, data), k.pid, Address(c, k) + o, data)
  {
    hide Inv, Accessed, Written, Edited, SameShape;
    var a := Address(c, k) + o;
    AccessAt(c, s, k, m, o);
    EditedInPlace(c, m, k, o, data);
    WrittenTwice(c, s, m, Edited(c, m, k, o, data), k.pid, a, [], data);
    EmptySides(data);
  }

  lemma WriteSendable(c: Settings, m: Mem, k: Key, o: nat, data: seq<byte>)
    requires Inv(c, m) && Has(m, k) && PageOf(m, k).present && o + |data| <= c.pageSize
    ensures var w := Write(m, k, o, data);
      && Has(w, k) && PageOf(w, k).present && |FrameAt(w, PageOf(m, k).frame)| == c.pageSize
      && Address(c, k) + o + |data| <= |Space(c, w, k.pid)|
  {
    AddressFits(c, Write(m, k, o, data), k, o + |data|);
  }

  lemma EditedInPlace(c: Settings, m: Mem, k: Key, o: nat, data: seq<byte>)
    requires Inv(c, m) && Has(m, k) && PageOf(m, k).present && o + |data| <= c.pageSize
    ensures Inv(c, Edited(c, m, k, o, data))
    ensures Written(c, m, Edited(c, m, k, o, data), k.pid, Address(c, k) + o, data)
  {
    hide Inv, Written, Space, SameShape, Saved, Write;
    var a := Address(c, k) + o;
    WriteWrites(c, m, k, o, data);
    WriteSendable(c, m, k, o, data);
    var w := Write(m, k, o, data);
    SendWritesNothing(c, w, k, FrameAt(w, PageOf(m, k).frame), a + |data|);
    WrittenTwice(c, m, w, Edited(c, m, k, o, data), k.pid, a, data, []);
    EmptySides(data);
  }

  // ---- reading --------------------------------------------------------------------------------------

  /**
   Between `s` and `t` no byte of any process changed, and `data` is what process `pid` has at
   address `at` - for each process that is sound at `t`.
   */
  ghost predicate ReadBack(c: Settings, s: Mem, t: Mem, pid: nat, at: nat, data: seq<byte>) {
    && at + |data| <= |Space(c, s, pid)| && Written(c, s, t, pid, at, [])
    && (Sound(t, pid) ==> data == Space(c, s, pid)[at..at + |data|])
  }

  predicate Landed(s: Mem, k: Key) {
    Has(s, k) && PageOf(s, k).present
  }

  /** One page of a read: access, then copy out of the frame. */
  lemma AccessReads(c: Settings, s: Mem, k: Key, t: Mem, o: nat, n: nat)
    requires Inv(c, s) && Has(s, k) && Accessed(c, s, k, t) && o + n <= c.pageSize
    ensures Inv(c, t) && Has(t, k) && PageOf(t, k).frame < c.frameCount
    ensures |FrameAt(t, PageOf(t, k).frame)| == c.pageSize
    ensures SameShape(s, t) && Landed(t, k)
    ensures ReadBack(c, s, t, k.pid, Address(c, k) + o, FrameAt(t, PageOf(t, k).frame)[o..o + n])
  {
    hide Accessed, Space, Flat;
    AccessAt(c, s, k, t, o);
    AddressFits(c, s, k, o + n);
    PageSlice(c, t, k, o, n);
    if Sound(t, k.pid) {
      SameSpace(c, s, t, k.pid, Address(c, k) + o);
    }
  }

  lemma ReadLater(c: Settings, s: Mem, t: Mem, pid: nat, at: nat, data: seq<byte>)
    requires ReadBack(c, s, t, pid, at, data)
    ensures Later(s, t)
  {
  }

  lemma WrittenLater(c: Settings, s: Mem, t: Mem, pid: nat, at: nat, data: seq<byte>)
    requires Written(c, s, t, pid, at, data)
    ensures Later(s, t)
  {
  }

  lemma KeptLater(c: Settings, s: Mem, t: Mem)
    requires Kept(c, s, t)
    ensures Later(s, t)
  {
  }

  lemma SameSpace(c: Settings, s: Mem, t: Mem, pid: nat, at: nat)
    requires Written(c, s, t, pid, at, []) && Sound(t, pid)
    ensures Space(c, t, pid) == Space(c, s, pid)
  {
    PatchNothing(Space(c, s, pid), at);
  }

  lemma ReadNext(c: Settings, s: Mem, m: Mem, t: Mem, pid: nat, at: nat, d: seq<byte>, e: seq<byte>)
    requires ReadBack(c, s, m, pid, at, d) && ReadBack(c, m, t, pid, at + |d|, e)
    ensures SameShape(s, t) && pid in t.tables && |Space(c, t, pid)| == |Space(c, s, pid)|
    ensures ReadBack(c, s, t, pid, at, d + e)
  {
    hide Space, Patch;
    PatchNothing(Space(c, s, pid), at);
    SpacesTwice(c, s, m, t, pid);
    if Sound(t, pid) {
      LaterSound(m, t, pid);
      SameSpace(c, s, m, pid, at);
      SameSpace(c, m, t, pid, at + |d|);
      SlicesJoin(Space(c, s, pid), at, |d|, |e|);
    }
  }

  lemma ReadStart(c: Settings, s: Mem, pid: nat, at: nat)
    requires pid in s.tables && at <= |Space(c, s, pid)|
    ensures SameShape(s, s) && ReadBack(c, s, s, pid, at, [])
  {
    WrittenStart(c, s, pid, at);
  }

  /** The page an address is on. */
  function PageAt(c: Settings, pid: nat, at: nat): Key
    requires c.pageSize > 0
  {
    Key(pid, PageIndex(c.pageSize, at) + 1)
  }

  lemma AddressOnPage(c: Settings, s: Mem, pid: nat, at: nat)
    requires c.pageSize > 0 && pid in s.tables && at < |Space(c, s, pid)|
    ensures Has(s, PageAt(c, pid, at))
    ensures at == Address(c, PageAt(c, pid, at)) + Offset(c.pageSize, at)
  {
    PageIndexBelow(c.pageSize, at, |s.tables[pid].pages|);
    AddressSplit(c.pageSize, at);
  }

  /** While stamps are below the limit and some page is in memory, LRU always finds a victim. */
  lemma LruFinds(c: Settings, s: Mem, k: Key) returns (v: Key)
    requires StampsAreHistory(s) && s.lruClock < STAMP_LIMIT && Has(s, k) && PageOf(s, k).present
    ensures IsLru(s, v)
    decreases PageOf(s, k).stamp
  {
    if q :| Has(s, q) && PageOf(s, q).present && PageOf(s, q).stamp < PageOf(s, k).stamp {
      v := LruFinds(c, s, q);
    } else {
      v := k;
    }
  }

  // ---- accesses that cannot fail --------------------------------------------------------------------

  ghost predicate SomePresent(s: Mem) {
    exists k :: Landed(s, k)
  }

  /** LRU has stamps to spare for `n` accesses, and some page in memory. */
  ghost predicate Ready(c: Settings, s: Mem, n: nat) {
    c.lru && s.lruClock + n <= STAMP_LIMIT && SomePresent(s)
  }

  /**
   `n` accesses from `s` on are sure to succeed, up to `t`: under LRU there are stamps to spare, under
   Clock-M every frame had an owner and no replacement took two pages.
   */
  ghost predicate Sure(c: Settings, s: Mem, t: Mem, n: nat) {
    Ready(c, s, n) || (!c.lru && AllOwned(c, s) && t.doubles == s.doubles)
  }

  lemma LruServes(c: Settings, s: Mem, n: nat)
    requires Inv(c, s) && Ready(c, s, n) && n > 0
    ensures CanEvict(c, s) && forall k :: Looked(c, s, k) == s
  {
    var k :| Landed(s, k);
    var v := LruFinds(c, s, k);
  }

  /** Where an access is sure to succeed, there is a page to evict. */
  lemma SureServes(c: Settings, s: Mem, t: Mem, k: Key)
    requires Inv(c, s) && Has(s, k) && Sure(c, s, t, 1)
    ensures CanEvict(c, Looked(c, s, k))
  {
    hide Inv, CanEvict, AllOwned, Ready;
    if Ready(c, s, 1) { LruServes(c, s, 1); } else { ClockServes(c, s, k); }
  }

  /** A replacement for a page to be added is only made where no frame is free. */
  lemma SureVacates(c: Settings, s: Mem)
    requires Inv(c, s) && (Ready(c, s, 1) || (!c.lru && AllOwned(c, s)))
    ensures CanEvict(c, s)
  {
    hide Inv, AllOwned, MeetsFreeFrame;
    if Ready(c, s, 1) {
      LruServes(c, s, 1);
    } else {
      InvIsBasic(c, s);
      NoneFree(c, s);
    }
  }

  lemma AccessCounts(c: Settings, s: Mem, k: Key, t: Mem)
    requires Inv(c, s) && Has(s, k) && Accessed(c, s, k, t)
    ensures t.lruClock == s.lruClock + 1 && SomePresent(t) && StaysOwned(c, s, t)
  {
    hide Accessed, PageBytes;
    AccessIsInvisible(c, s, k, t);
    AccessStays(c, s, k, t);
    assert Landed(t, k);
  }

  /** How many pages a range is on, as the loops of the code count them. */
  function Touches(size: nat, start: nat, n: nat): nat
    requires size > 0
  {
    var first, last := PageIndex(size, start), if start + n == 0 then 0 else PageIndex(size, start + n - 1);
    if last < first then 0 else last - first + 1
  }

  /** At most `n` accesses lie between `s` and `t`, and nothing that keeps the next ones from being sure. */
  ghost predicate Counted(c: Settings, s: Mem, t: Mem, n: nat) {
    t.lruClock <= s.lruClock + n && (SomePresent(s) ==> SomePresent(t)) && StaysOwned(c, s, t) && Later(s, t)
  }

  lemma CountedTwice(c: Settings, s: Mem, m: Mem, t: Mem, a: nat, b: nat)
    requires Counted(c, s, m, a) && Counted(c, m, t, b)
    ensures Counted(c, s, t, a + b)
  {
    hide AllOwned;
  }

  lemma CountedNone(c: Settings, s: Mem)
    ensures Counted(c, s, s, 0)
  {
  }

  /** The pages stay where they are. */
  lemma CountedInPlace(c: Settings, s: Mem, t: Mem)
    requires t.lruClock == s.lruClock && Later(s, t)
    requires forall q :: Has(s, q) ==>
      Has(t, q) && PageOf(t, q).frame == PageOf(s, q).frame && PageOf(t, q).present == PageOf(s, q).present
    ensures Counted(c, s, t, 0)
  {
    hide PageOf, Has;
    StaysWithPages(c, s, t);
    if SomePresent(s) {
      var l :| Landed(s, l);
      assert Landed(t, l);
    }
  }

  /** What is not sure from a state on the way is not sure from `s` on. */
  lemma NotSure(c: Settings, s: Mem, m: Mem, t: Mem, a: nat, b: nat, n: nat)
    requires Counted(c, s, m, a) && Later(m, t) && !Sure(c, m, t, b) && a + b <= n
    ensures !Sure(c, s, t, n)
  {
    hide AllOwned;
  }

  lemma NotSureMore(c: Settings, s: Mem, t: Mem, b: nat, n: nat)
    requires !Sure(c, s, t, b) && b <= n
    ensures !Sure(c, s, t, n)
  {
  }

  lemma CountedMore(c: Settings, s: Mem, t: Mem, a: nat, n: nat)
    requires Counted(c, s, t, a) && a <= n
    ensures Counted(c, s, t, n)
  {
  }

  lemma OneTouch(size: nat, start: nat)
    requires size > 0
    ensures Touches(size, start, 1) == 1
  {
  }

  /** A header or less is on one page or two. */
  lemma TouchesFew(size: nat, start: nat, n: nat)
    requires size > 0 && 0 < n <= size
    ensures Touches(size, start, n) <= 2
  {
    AddressSplit(size, start);
    AddressSplit(size, start + n - 1);
    var p, q := PageIndex(size, start), PageIndex(size, start + n - 1);
    if p + 1 < q {
      PagesStep(size, p + 1, q);
    }
  }

  lemma WriteCounts(c: Settings, m: Mem, k: Key, o: nat, data: seq<byte>)
    requires Has(m, k)
    ensures Counted(c, m, Write(m, k, o, data), 0)
  {
    CountedInPlace(c, m, Write(m, k, o, data));
  }

  lemma EditedCounts(c: Settings, m: Mem, k: Key, o: nat, data: seq<byte>)
    requires Has(m, k)
    ensures Counted(c, m, Edited(c, m, k, o, data), 0) && Edited(c, m, k, o, data).lruClock == m.lruClock
  {
    CountedInPlace(c, m, Edited(c, m, k, o, data));
  }

  /** One page of a write is one access. */
  lemma EditedStays(c: Settings, s: Mem, k: Key, m: Mem, o: nat, data: seq<byte>)
    requires Inv(c, s) && Has(s, k) && Accessed(c, s, k, m) && Has(m, k)
    ensures var t := Edited(c, m, k, o, data);
      t.lruClock == s.lruClock + 1 && SomePresent(t) && StaysOwned(c, s, t)
  {
    hide Inv, Accessed, Edited, AllOwned;
    AccessCounts(c, s, k, m);
    AccessIsInvisible(c, s, k, m);
    EditedCounts(c, m, k, o, data);
    StaysTwice(c, s, m, Edited(c, m, k, o, data));
  }

  /** An empty range never reaches a later page than the one it starts on. */
  lemma EmptyRange(size: nat, start: nat)
    requires size > 0 && start > 0
    ensures PageIndex(size, start - 1) <= PageIndex(size, start)
  {
    PageIndexOrder(size, start - 1, start);
  }

  // ---- cutting a range into pages ----------------------------------------------------------------

  /** A range whose last byte is on the page of its first fits on that page. */
  lemma SamePage(size: nat, start: nat, n: nat)
    requires size > 0 && (start + n == 0 || PageIndex(size, start + n - 1) == PageIndex(size, start))
    ensures Offset(size, start) + n <= size
  {
    AddressSplit(size, start);
    if start + n > 0 { AddressSplit(size, start + n - 1); }
  }

  /** How much of the range [start, start + n) is on page `p`, and where on that page it begins. */
  function PieceOffset(size: nat, start: nat, p: nat): (o: nat)
    requires size > 0
    ensures o < size
  {
    if p == PageIndex(size, start) + 1 then Offset(size, start) else 0
  }

  function PieceLength(size: nat, start: nat, n: nat, p: nat): (m: nat)
    requires size > 0 && n > 0
  {
    if p == PageIndex(size, start) + 1 then size - Offset(size, start)
    else if p == PageIndex(size, start + n - 1) + 1 then Offset(size, start + n - 1) + 1
    else size
  }

  /** Page by page the pieces follow one another and end with the range. */
  lemma PieceFits(size: nat, start: nat, n: nat, p: nat, done: nat)
    requires size > 0 && n > 0 && PageIndex(size, start) < PageIndex(size, start + n - 1)
    requires PageIndex(size, start) + 1 <= p <= PageIndex(size, start + n - 1) + 1
    requires if p == PageIndex(size, start) + 1 then done == 0 else start + done == Pages(size, p - 1)
    ensures PieceOffset(size, start, p) + PieceLength(size, start, n, p) <= size && done < n
    ensures start + done == Pages(size, p - 1) + PieceOffset(size, start, p) && PageIndex(size, start + done) == p - 1
    ensures var next := done + PieceLength(size, start, n, p);
      if p == PageIndex(size, start + n - 1) + 1 then next == n else next < n && start + next == Pages(size, p)
  {
    var last := PageIndex(size, start + n - 1);
    AddressSplit(size, start);
    AddressSplit(size, start + n - 1);
    if p < last { PagesStep(size, p, last); }
    AddressUnique(size, p - 1, PieceOffset(size, start, p), start + done);
  }
}
