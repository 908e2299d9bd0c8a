/**
 memfree's first step on the paged memory: it sets the free flag of a header and reads the
 header's links. A header near the end of its page is handled through a copy of two pages,
 whose frames are written back even when bringing the second in has evicted the first.
 */
module FreeFlag {
  import opened Bytes
  import opened Paging
  import opened Replacement
  import opened FlatSpace
  import opened Spaces
  import opened HeapOps
  import H = Heap

  /** The flag of the header at `dir` is now FREE, and `prev` and `next` are its links. */
  ghost predicate FlagFreed(c: Settings, s: Mem, t: Mem, pid: nat, dir: nat, prev: nat, next: nat) {
    && Written(c, s, t, pid, dir + H.HEADER - 1, [H.FREE]) && H.HasHeader(Space(c, s, pid), dir)
    && (Sound(t, pid) ==> prev == H.Prev(Space(c, s, pid), dir) && next == H.Next(Space(c, s, pid), dir))
  }

  /** A page copied back to a frame, marked and sent. */
  function PutBack(c: Settings, s: Mem, k: Key, f: nat, content: seq<byte>): Mem
    requires Has(s, k)
  {
    Saved(c, Marked(SetFrame(s, f, content), k), k, content)
  }

  /** Frame `f` is page `k`'s if that is present, otherwise page `l`'s or nobody's. */
  ghost predicate Behind(s: Mem, f: nat, k: Key, l: Key) {
    && Has(s, k) && Has(s, l) && k != l
    && (PageOf(s, k).present ==> PageOf(s, k).frame == f)
    && forall q :: Has(s, q) && PageOf(s, q).present && PageOf(s, q).frame == f ==> q == k || q == l
  }

  /** Putting page `k` back gives it its new bytes, wherever it is; only page `l` may be disturbed. */
  lemma PutBackKeeps(c: Settings, s: Mem, k: Key, l: Key, f: nat, content: seq<byte>)
    requires Inv(c, s) && Behind(s, f, k, l) && f < c.frameCount && |content| == c.pageSize
    ensures var t := PutBack(c, s, k, f, content);
      && Inv(c, t) && SameShape(s, t) && Later(s, t)
      && (forall q :: Has(s, q) ==> Has(t, q) && SamePlace(PageOf(s, q), PageOf(t, q)))
      && forall q :: Has(s, q) && q != l && Sound(t, q.pid) ==>
           PageBytes(c, t, q) == if q == k then content else PageBytes(c, s, q)
  {
    hide Inv, PageBytes, SetFrame, Saved;
    var m := SetFrame(s, f, content);
    SetFrameKeeps(c, s, f, content);
    MarkedKeeps(c, m, k);
    SendKeeps(c, Marked(m, k), k, content);
    SavedPages(c, Marked(m, k), k, content);
  }

  predicate SamePlace(p: Page, q: Page) {
    q.present == p.present && q.frame == p.frame
  }

  lemma SavedPages(c: Settings, s: Mem, k: Key, content: seq<byte>)
    requires Has(s, k)
    ensures Saved(c, s, k, content).tables == s.tables
  {
  }

  /** Pages `k` and `l` now hold `a` and `b`; every other page is as before. */
  ghost predicate TwoPut(c: Settings, s: Mem, t: Mem, k: Key, l: Key, a: seq<byte>, b: seq<byte>) {
    && SameShape(s, t) && Later(s, t)
    && forall q :: Has(s, q) && Has(t, q) && Sound(t, q.pid) ==>
         PageBytes(c, t, q) == if q == k then a else if q == l then b else PageBytes(c, s, q)
  }

  /** Both pages put back one after the other, each into the frame it was copied from. */
  lemma BothPutBack(c: Settings, s: Mem, k: Key, l: Key, f: nat, a: seq<byte>, b: seq<byte>)
    requires Inv(c, s) && Behind(s, f, k, l) && f < c.frameCount && |a| == c.pageSize == |b| && PageOf(s, l).present
    ensures Has(PutBack(c, s, k, f, a), l) && PageOf(s, l).frame < c.frameCount
    ensures var t := PutBack(c, PutBack(c, s, k, f, a), l, PageOf(s, l).frame, b);
      Inv(c, t) && SameShape(s, t) && TwoPut(c, s, t, k, l, a, b)
  {
    hide Inv, PageBytes, PutBack;
    var m := PutBack(c, s, k, f, a);
    PutBackKeeps(c, s, k, l, f, a);
    var g := PageOf(s, l).frame;
    OwnFrame(c, s, m, k, l, g);
    OnlyOwner(c, m, l, k);
    PutBackKeeps(c, m, l, k, g, b);
    PutBackSpares(c, m, l, k, g, b);
    ShapeTwice(s, m, PutBack(c, m, l, g, b));
  }

  lemma OwnFrame(c: Settings, s: Mem, m: Mem, k: Key, l: Key, g: nat)
    requires Inv(c, s) && Has(s, l) && PageOf(s, l).present && g == PageOf(s, l).frame
    requires Inv(c, m) && Has(s, k) && k != l
    requires forall q :: Has(s, q) ==> Has(m, q) && SamePlace(PageOf(s, q), PageOf(m, q))
    ensures g < c.frameCount && Has(m, l) && PageOf(m, l).present && PageOf(m, l).frame == g && Has(m, k)
  {
  }

  lemma OnlyOwner(c: Settings, m: Mem, l: Key, k: Key)
    requires Inv(c, m) && Has(m, l) && PageOf(m, l).present && Has(m, k) && k != l
    ensures Behind(m, PageOf(m, l).frame, l, k)
    ensures !(PageOf(m, k).present && PageOf(m, k).frame == PageOf(m, l).frame)
  {
    forall q | Has(m, q) && PageOf(m, q).present && PageOf(m, q).frame == PageOf(m, l).frame ensures q == l {
      assert SameFrame(PageOf(m, q), PageOf(m, l));
    }
  }

  /** Putting a present page back into its own frame leaves the other page alone too. */
  lemma PutBackSpares(c: Settings, m: Mem, l: Key, k: Key, g: nat, b: seq<byte>)
    requires Inv(c, m) && Has(m, l) && Has(m, k) && k != l && g < c.frameCount && |b| == c.pageSize
    requires !(PageOf(m, k).present && PageOf(m, k).frame == g)
    ensures Has(PutBack(c, m, l, g, b), k)
    ensures Sound(PutBack(c, m, l, g, b), k.pid) ==> PageBytes(c, PutBack(c, m, l, g, b), k) == PageBytes(c, m, k)
  {
    hide Inv, PageBytes, SetFrame, Saved;
    var n := SetFrame(m, g, b);
    SetFrameKeeps(c, m, g, b);
    MarkedKeeps(c, n, l);
    SendKeeps(c, Marked(n, l), l, b);
  }

  lemma PutBackCounts(c: Settings, s: Mem, k: Key, f: nat, content: seq<byte>)
    requires Has(s, k)
    ensures Counted(c, s, PutBack(c, s, k, f, content), 0)
  {
    CountedInPlace(c, s, PutBack(c, s, k, f, content));
  }

  lemma BothCount(c: Settings, s: Mem, n: Mem, p: Mem, k: Key, l: Key, f: nat, g: nat, a: seq<byte>, b: seq<byte>)
    requires Counted(c, s, n, 2) && Has(n, k) && p == PutBack(c, n, k, f, a) && Has(p, l)
    ensures Counted(c, s, PutBack(c, p, l, g, b), 2)
  {
    hide PutBack, Counted;
    PutBackCounts(c, n, k, f, a);
    PutBackCounts(c, p, l, g, b);
    CountedTwice(c, s, n, p, 2, 0);
    CountedTwice(c, s, p, PutBack(c, p, l, g, b), 2, 0);
  }

  lemma SetFrameCounts(c: Settings, s: Mem, f: nat, content: seq<byte>)
    ensures Counted(c, s, SetFrame(s, f, content), 0)
  {
    CountedInPlace(c, s, SetFrame(s, f, content));
  }

  lemma FlagLater(c: Settings, s: Mem, t: Mem, pid: nat, dir: nat, prev: nat, next: nat)
    requires FlagFreed(c, s, t, pid, dir, prev, next)
    ensures Later(s, t)
  {
  }

  // ---- the header on one page -----------------------------------------------------------------------

  lemma FlagOnPage(c: Settings, s: Mem, k: Key, m: Mem, o: nat)
    requires Inv(c, s) && Has(s, k) && Accessed(c, s, k, m) && o + H.HEADER <= c.pageSize
    ensures Has(m, k) && PageOf(m, k).frame < c.frameCount && |FrameAt(m, PageOf(m, k).frame)| == c.pageSize
    ensures var frame := FrameAt(m, PageOf(m, k).frame);
      var t := SetFrame(m, PageOf(m, k).frame, Patch(frame, o + H.HEADER - 1, [H.FREE]));
      && Inv(c, t) && SameShape(s, t)
      && FlagFreed(c, s, t, k.pid, Address(c, k) + o, WordAt(frame, o), WordAt(frame, o + 4))
  {
    hide Inv, Accessed, Space, PageBytes, SameBytes;
    AccessAt(c, s, k, m, o + H.HEADER - 1);
    AccessReads(c, s, k, m, o, H.HEADER);
    var f := PageOf(m, k).frame;
    var frame := FrameAt(m, f);
    var t := SetFrame(m, f, Patch(frame, o + H.HEADER - 1, [H.FREE]));
    FlagPatched(c, m, k, o + H.HEADER - 1);
    var at := Address(c, k) + o;
    WrittenTwice(c, s, m, t, k.pid, at + H.HEADER - 1, [], [H.FREE]);
    assert [] + [H.FREE] == [H.FREE];
    if Sound(t, k.pid) {
      LaterSound(m, t, k.pid);
      WordsOfSlice(Space(c, s, k.pid), at, frame, o);
    }
  }

  lemma WordsOfSlice(s: seq<byte>, at: nat, frame: seq<byte>, o: nat)
    requires at + H.HEADER <= |s| && o + H.HEADER <= |frame| && s[at..at + H.HEADER] == frame[o..o + H.HEADER]
    ensures H.Prev(s, at) == WordAt(frame, o) && H.Next(s, at) == WordAt(frame, o + 4)
  {
    var x, y := s[at..at + H.HEADER], frame[o..o + H.HEADER];
    assert WordAt(x, 0) == WordAt(s, at) && WordAt(x, 4) == WordAt(s, at + 4);
    assert WordAt(y, 0) == WordAt(frame, o) && WordAt(y, 4) == WordAt(frame, o + 4);
  }

  lemma FlagPatched(c: Settings, m: Mem, k: Key, o: nat)
    requires Inv(c, m) && Has(m, k) && PageOf(m, k).present && o < c.pageSize
    requires |FrameAt(m, PageOf(m, k).frame)| == c.pageSize
    ensures var t := SetFrame(m, PageOf(m, k).frame, Patch(FrameAt(m, PageOf(m, k).frame), o, [H.FREE]));
      Inv(c, t) && SameShape(m, t) && Written(c, m, t, k.pid, Address(c, k) + o, [H.FREE])
  {
    var f := PageOf(m, k).frame;
    var t := SetFrame(m, f, Patch(FrameAt(m, f), o, [H.FREE]));
    PresentInRange(c, m, k);
    SetFrameKeeps(c, m, f, Patch(FrameAt(m, f), o, [H.FREE]));
    forall q | Has(m, q) && PageOf(m, q).present && PageOf(m, q).frame == f ensures q == k {
      assert SameFrame(PageOf(m, q), PageOf(m, k));
    }
    PatchedIsWritten(c, m, t, k, o, [H.FREE]);
  }

  // ---- the header near the end of its page ------------------------------------------------------------

  /** Both pages brought in, one after the other, and what the frames then hold. */
  ghost predicate TwoAccessed(c: Settings, s: Mem, k: Key, m: Mem, l: Key, n: Mem) {
    && Inv(c, s) && Has(s, k) && Has(s, l) && l == Key(k.pid, k.page + 1)
    && Accessed(c, s, k, m) && Has(m, l) && Accessed(c, m, l, n)
  }

  /** Neither access changes a byte; the second page is in its frame, and the first one's frame is nobody else's. */
  lemma TwoAccesses(c: Settings, s: Mem, k: Key, m: Mem, l: Key, n: Mem)
    requires TwoAccessed(c, s, k, m, l, n)
    ensures l == Key(k.pid, k.page + 1) && Has(s, k)
    ensures Inv(c, m) && Has(m, k) && PageOf(m, k).present && PageOf(m, k).frame < c.frameCount
    ensures Inv(c, n) && Has(n, k) && Has(n, l) && PageOf(n, l).present && Behind(n, PageOf(m, k).frame, k, l)
    ensures SameShape(s, n) && |FrameAt(m, PageOf(m, k).frame)| == c.pageSize
    ensures |FrameAt(n, PageOf(n, l).frame)| == c.pageSize
    ensures Later(s, n) && SameBytes(c, s, n)
    ensures Sound(n, k.pid) ==>
      PageBytes(c, n, k) == FrameAt(m, PageOf(m, k).frame) && PageBytes(c, n, l) == FrameAt(n, PageOf(n, l).frame)
  {
    hide Inv, Accessed, SameBytes;
    AccessIsInvisible(c, s, k, m);
    AccessIsInvisible(c, m, l, n);
    AccessPuts(c, m, l, n);
    FrameOnly(c, m, k);
    FrameOnly(c, n, l);
    ShapeTwice(s, m, n);
    BytesTwice(c, s, m, n);
    if Sound(n, k.pid) { BytesAt(c, m, n, k); }
  }

  lemma FrameOnly(c: Settings, m: Mem, k: Key)
    requires Inv(c, m) && Has(m, k) && PageOf(m, k).present
    ensures PageOf(m, k).frame < c.frameCount && |FrameAt(m, PageOf(m, k).frame)| == c.pageSize
    ensures forall q :: Has(m, q) && PageOf(m, q).present && PageOf(m, q).frame == PageOf(m, k).frame ==> q == k
  {
    forall q | Has(m, q) && PageOf(m, q).present && PageOf(m, q).frame == PageOf(m, k).frame ensures q == k {
      assert SameFrame(PageOf(m, q), PageOf(m, k));
    }
  }

  /** Setting one byte of two pages laid side by side sets it on one of them. */
  lemma PatchOneOfTwo(size: nat, a: seq<byte>, b: seq<byte>, at: nat, v: byte)
    requires |a| == |b| == size && at < 2 * size
    ensures var r := Patch(a + b, at, [v]);
      if at < size then r[..size] == Patch(a, at, [v]) && r[size..] == b
      else r[..size] == a && r[size..] == Patch(b, at - size, [v])
  {
  }

  /**
   The two-page case of memfree sets exactly the free flag and reads the right links, even
   when bringing in the second page evicted the first or reused its frame.
   */
  lemma FlagAcross(c: Settings, s: Mem, k: Key, m: Mem, l: Key, n: Mem, o: nat)
    requires TwoAccessed(c, s, k, m, l, n) && o < c.pageSize <= o + H.HEADER
    ensures Has(m, k) && Has(n, k) && Has(n, l)
    ensures var f, g := PageOf(m, k).frame, PageOf(n, l).frame;
      var a, b := FrameAt(m, f), FrameAt(n, g);
      && f < c.frameCount && g < c.frameCount && |a| == c.pageSize == |b|
      && var both := Patch(a + b, o + H.HEADER - 1, [H.FREE]);
         var t1 := PutBack(c, n, k, f, both[..c.pageSize]);
         Has(t1, l) &&
         var t := PutBack(c, t1, l, g, both[c.pageSize..]);
         && Inv(c, t) && SameShape(s, t)
         && FlagFreed(c, s, t, k.pid, Address(c, k) + o, WordAt(a + b, o), WordAt(a + b, o + 4))
  {
    hide Inv, TwoAccessed, Space, PageBytes, SameBytes, PutBack, FlagFreed, WordAt, Behind, FrameAt, TwoPut;
    TwoAccesses(c, s, k, m, l, n);
    assert c.pageSize >= 9 && Structure(c, n) by { InvMeans(c, n); }
    var f, g := PageOf(m, k).frame, PageOf(n, l).frame;
    var a, b := FrameAt(m, f), FrameAt(n, g);
    var both := Patch(a + b, o + H.HEADER - 1, [H.FREE]);
    FrameOnly(c, n, l);
    BothPutBack(c, n, k, l, f, both[..c.pageSize], both[c.pageSize..]);
    var t := PutBack(c, PutBack(c, n, k, f, both[..c.pageSize]), l, g, both[c.pageSize..]);
    ShapeTwice(s, n, t);
    FlagWritten(c, n, t, k, l, o + H.HEADER - 1, a, b);
    FlagSeenBefore(c, s, n, t, k, l, o, a, b);
  }

  lemma FlagSeenBefore(c: Settings, s: Mem, n: Mem, t: Mem, k: Key, l: Key, o: nat, a: seq<byte>, b: seq<byte>)
    requires Structure(c, n) && Has(n, k) && Has(n, l) && l == Key(k.pid, k.page + 1) && 9 <= c.pageSize
    requires o < c.pageSize
    requires SameShape(s, n) && Later(s, n) && SameBytes(c, s, n) && |a| == |b| == c.pageSize
    requires Sound(n, k.pid) ==> PageBytes(c, n, k) == a && PageBytes(c, n, l) == b
    requires Written(c, n, t, k.pid, Address(c, k) + o + H.HEADER - 1, [H.FREE])
    ensures FlagFreed(c, s, t, k.pid, Address(c, k) + o, WordAt(a + b, o), WordAt(a + b, o + 4))
  {
    hide PageBytes, Space, SameBytes, Structure;
    var at := Address(c, k) + o;
    SameAsBefore(c, s, n, t, k.pid, at + H.HEADER - 1, [H.FREE]);
    TwoPagesSlice(c, n, k, l, o);
    if Sound(t, k.pid) {
      WrittenLater(c, n, t, k.pid, at + H.HEADER - 1, [H.FREE]);
      LaterSound(n, t, k.pid);
      SameBytesSameSpace(c, s, n, k.pid);
      WordsOfSlice(Space(c, s, k.pid), at, a + b, o);
    }
  }

  /** One byte of the two pages set is one byte of the address space set. */
  lemma FlagWritten(c: Settings, n: Mem, t: Mem, k: Key, l: Key, at: nat, a: seq<byte>, b: seq<byte>)
    requires Structure(c, n) && Has(n, k) && Has(n, l) && l == Key(k.pid, k.page + 1)
    requires |a| == |b| == c.pageSize && at < 2 * c.pageSize
    requires Sound(n, k.pid) ==> PageBytes(c, n, k) == a && PageBytes(c, n, l) == b
    requires var both := Patch(a + b, at, [H.FREE]); TwoPut(c, n, t, k, l, both[..c.pageSize], both[c.pageSize..])
    ensures Written(c, n, t, k.pid, Address(c, k) + at, [H.FREE])
  {
    hide PageBytes, Space, Structure, Written;
    PatchOneOfTwo(c.pageSize, a, b, at, H.FREE);
    PageSized(c, n, k);
    PageSized(c, n, l);
    if Sound(t, k.pid) { LaterSound(n, t, k.pid); }
    if at < c.pageSize {
      PatchedIsWritten(c, n, t, k, at, [H.FREE]);
    } else {
      PatchedIsWritten(c, n, t, l, at - c.pageSize, [H.FREE]);
    }
  }

  /** A write seen from a state with the same bytes. */
  lemma SameAsBefore(c: Settings, s: Mem, n: Mem, t: Mem, pid: nat, at: nat, data: seq<byte>)
    requires SameShape(s, n) && Later(s, n) && SameBytes(c, s, n) && Written(c, n, t, pid, at, data)
    ensures Written(c, s, t, pid, at, data)
  {
    hide Space, SameBytes;
    ShapeTwice(s, n, t);
    assert |Space(c, n, pid)| == |Space(c, s, pid)|;
    forall p | p in s.tables && Sound(t, p) ensures Space(c, n, p) == Space(c, s, p) {
      LaterSound(n, t, p);
      SameBytesSameSpace(c, s, n, p);
    }
  }

  lemma TwoPagesSlice(c: Settings, n: Mem, k: Key, l: Key, o: nat)
    requires Structure(c, n) && Has(n, k) && Has(n, l) && l == Key(k.pid, k.page + 1) && c.pageSize >= 9
    requires o < c.pageSize
    ensures Address(c, k) + o + H.HEADER <= |Space(c, n, k.pid)|
    ensures |PageBytes(c, n, k)| == c.pageSize == |PageBytes(c, n, l)|
    ensures Space(c, n, k.pid)[Address(c, k) + o..Address(c, k) + o + H.HEADER] ==
            (PageBytes(c, n, k) + PageBytes(c, n, l))[o..o + H.HEADER]
  {
    hide Space, PageBytes, Structure;
    PageSlice(c, n, k, 0, c.pageSize);
    PageSlice(c, n, l, 0, c.pageSize);
    var v, at := Space(c, n, k.pid), Address(c, k);
    assert Address(c, l) == at + c.pageSize;
    var both := PageBytes(c, n, k) + PageBytes(c, n, l);
    SlicesJoin(v, at, c.pageSize, c.pageSize);
    assert v[at..at + 2 * c.pageSize] == both;
    SliceOfSlice(v, at, 2 * c.pageSize, o, H.HEADER);
  }
}
