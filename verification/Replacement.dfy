/**
 Choosing the page that gives up its frame, and the page fault as a whole: evict, load,
 stamp and remember. A fault never changes a byte that any process sees.
 */
module Replacement {
  import opened Bytes
  import opened Options
  import opened Swap
  import opened Paging
  import ClockM
  import Tlb

  // ---- least recently used -------------------------------------------------------------

  /** The page seleccionLRU picks: present, below the stamp limit, with the smallest stamp. */
  ghost predicate IsLru(s: Mem, v: Key) {
    && Has(s, v) && PageOf(s, v).present && PageOf(s, v).stamp < STAMP_LIMIT
    && forall q :: Has(s, q) && PageOf(s, q).present ==> PageOf(s, v).stamp <= PageOf(s, q).stamp
  }

  ghost predicate LruEvicted(c: Settings, s: Mem, who: nat, t: Mem) {
    exists v :: IsLru(s, v) && t == Evict(c, s, v, who)
  }

  /** Stamps tell pages apart and order them by their last access. */
  lemma StampsOrderPages(s: Mem, k: Key, l: Key)
    requires StampsAreHistory(s) && Has(s, k) && Has(s, l) && k != l
    ensures PageOf(s, k).stamp != PageOf(s, l).stamp
    ensures PageOf(s, k).stamp < PageOf(s, l).stamp <==>
            exists i :: PageOf(s, k).stamp <= i < |s.history| && s.history[i] == l
  {
    var m, n := PageOf(s, k).stamp, PageOf(s, l).stamp;
    assert s.history[m - 1] == k && s.history[n - 1] == l;
    if m < n {
      assert m <= n - 1 < |s.history| && s.history[n - 1] == l;
    }
  }

  /** The victim is least recently used: every other present page was accessed after it last was. */
  lemma LruIsLeastRecent(s: Mem, v: Key, q: Key)
    requires StampsAreHistory(s) && IsLru(s, v) && Has(s, q) && PageOf(s, q).present && q != v
    ensures exists i ::
              && 0 <= i < |s.history| && s.history[i] == q
              && forall j :: i <= j < |s.history| ==> s.history[j] != v
  {
    StampsOrderPages(s, v, q);
    var i :| PageOf(s, v).stamp <= i < |s.history| && s.history[i] == q;
    assert s.history[i] == q && forall j :: i <= j < |s.history| ==> s.history[j] != v;
  }

  lemma LruIsUnique(s: Mem, v: Key, w: Key)
    requires StampsAreHistory(s) && IsLru(s, v) && IsLru(s, w)
    ensures v == w
  {
    if v != w { StampsOrderPages(s, v, w); }
  }

  /**
   seleccionLRU drops the buffer entry under the process that asks for the frame. With a
   buffer switched on, the entries still agree with the page tables after an eviction exactly
   when the victim belongs to that process or had no entry.
   */
  lemma LruDropsWrongEntry(c: Settings, s: Mem, v: Key, who: nat)
    requires c.tlbMax > 0 && TlbAgrees(c, s) && Numbered(s) && FramesExclusive(c, s)
    requires Has(s, v) && PageOf(s, v).present
    ensures TlbAgrees(c, Evict(c, s, v, who)) <==> who == v.pid || Tlb.Lookup(s.tlb, v.pid, v.page).None?
  {
    var t := Evict(c, s, v, who);
    var f := PageOf(s, v).frame;
    Tlb.DropThenLookup(s.tlb, c.tlbMax, who, v.page, f, v.pid, v.page);
    assert Has(t, v) && !PageOf(t, v).present;
    forall q | Has(s, q) ensures Has(t, q) && (q != v ==> PageOf(t, q) == PageOf(s, q)) {}
    forall q: Key | q.page < MARK
      ensures Tlb.Lookup(t.tlb, q.pid, q.page) ==
              if (q.pid, q.page) == (who, v.page) && Tlb.Lookup(s.tlb, q.pid, q.page) == Some(f) then None
              else Tlb.Lookup(s.tlb, q.pid, q.page)
    {
      Tlb.DropThenLookup(s.tlb, c.tlbMax, who, v.page, f, q.pid, q.page);
    }
  }

  // ---- Clock-M ---------------------------------------------------------------------------

  ghost function OwnerOf(s: Mem, f: nat): (k: Key)
    requires Owned(s, f)
    ensures Has(s, k) && PageOf(s, k).frame == f
  {
    var k :| Has(s, k) && PageOf(s, k).frame == f;
    k
  }

  lemma OwnerIs(c: Settings, s: Mem, k: Key)
    requires FramesExclusive(c, s) && Has(s, k) && PageOf(s, k).frame < c.frameCount
    ensures Owned(s, PageOf(s, k).frame) && OwnerOf(s, PageOf(s, k).frame) == k
  {
    assert Owned(s, PageOf(s, k).frame);
    assert SameFrame(PageOf(s, OwnerOf(s, PageOf(s, k).frame)), PageOf(s, k));
  }

  /** The bits of each frame's page; a frame no page owns counts as used and modified. */
  ghost function BitsOf(c: Settings, s: Mem): (b: seq<ClockM.Bits>)
    ensures |b| == c.frameCount
  {
    seq(c.frameCount, f requires 0 <= f < c.frameCount =>
      if Owned(s, f) then ClockM.Bits(PageOf(s, OwnerOf(s, f)).used, PageOf(s, OwnerOf(s, f)).modified)
      else ClockM.Bits(true, true))
  }

  ghost predicate AllOwned(c: Settings, s: Mem) {
    forall f :: 0 <= f < c.frameCount ==> Owned(s, f)
  }

  /** `t` is `s` with the use bits cleared of the pages at the first `q` positions from the hand. */
  ghost predicate UseCleared(c: Settings, s: Mem, t: Mem, q: nat) {
    && s.hand <= c.frameCount && SameShape(s, t) && t == s.(tables := t.tables)
    && forall k :: Has(s, k) ==>
         PageOf(t, k) == PageOf(s, k).(used := PageOf(s, k).used && !(
           PageOf(s, k).frame < c.frameCount && ClockM.PositionOf(c.frameCount, s.hand, PageOf(s, k).frame) < q))
  }

  /** Evicting the page of a frame under its own process. */
  ghost function EvictFrame(c: Settings, s: Mem, f: nat): Mem
    requires Owned(s, f)
  {
    Evict(c, s, OwnerOf(s, f), OwnerOf(s, f).pid)
  }

  /** seleccionClockMejorado: clear use bits, evict the victim and perhaps a second page, move the hand. */
  ghost predicate ClockEvicted(c: Settings, s: Mem, t: Mem) {
    && Turnable(c, s)
    && var b := BitsOf(c, s);
       var choice := ClockM.Choose(b, s.hand);
       var v := ClockM.At(c.frameCount, s.hand, choice.position);
       exists m ::
         && UseCleared(c, s, m, ClockM.ClearedBelow(b, s.hand))
         && ClockVictimsEvicted(c, m, v, choice.second, t, ClockM.HandAfter(b, s.hand))
  }

  /** There are frames to go round, and the hand is on one of them or just past the last. */
  predicate Turnable(c: Settings, s: Mem) {
    c.frameCount > 0 && s.hand <= c.frameCount
  }

  ghost predicate ClockVictimsEvicted(c: Settings, m: Mem, v: nat, second: bool, t: Mem, hand: nat) {
    && Owned(m, v)
    && var e := EvictFrame(c, m, v);
       if second then Owned(e, m.hand) && t == EvictFrame(c, e, m.hand).(hand := hand, doubles := e.doubles + 1)
       else t == e.(hand := hand)
  }

  lemma UseClearedKeeps(c: Settings, s: Mem, m: Mem, q: nat)
    requires Inv(c, s) && UseCleared(c, s, m, q)
    ensures Inv(c, m) && SameBytes(c, s, m)
    ensures forall f :: Owned(m, f) <==> Owned(s, f)
  {
    hide PageBytes;
    ListedKept(s, m);
    UseClearedPages(c, s, m, q);
    assert Numbered(m) && FramesExclusive(c, m) && TlbAgrees(c, m);
    assert StampsAreHistory(m);
    UseClearedBytes(c, s, m, q);
  }

  lemma UseClearedPages(c: Settings, s: Mem, m: Mem, q: nat)
    requires UseCleared(c, s, m, q)
    ensures forall k :: Has(m, k) <==> Has(s, k)
    ensures forall k :: Has(m, k) ==> PageOf(m, k) == PageOf(s, k).(used := PageOf(m, k).used)
  {
  }

  lemma UseClearedBytes(c: Settings, s: Mem, m: Mem, q: nat)
    requires UseCleared(c, s, m, q)
    ensures SameBytes(c, s, m) && (Backed(s) ==> Backed(m))
    ensures forall f :: Owned(m, f) <==> Owned(s, f)
  {
    UseClearedPages(c, s, m, q);
    forall f ensures Owned(m, f) <==> Owned(s, f) {
      if Owned(s, f) { assert Has(m, OwnerOf(s, f)); }
      if Owned(m, f) { assert Has(s, OwnerOf(m, f)); }
    }
  }

  /** What every replacement does, whoever is chosen. */
  ghost predicate Replaced(c: Settings, s: Mem, t: Mem) {
    && Inv(c, t) && SameShape(s, t) && t.lruClock == s.lruClock && t.history == s.history
    && Later(s, t) && SameBytes(c, s, t)
    && StaysPut(s, t)
  }

  /** A page that is present now was present before, in the same frame. */
  ghost predicate StaysPut(s: Mem, t: Mem) {
    forall q :: Has(s, q) && Has(t, q) && PageOf(t, q).present ==> SameFrame(PageOf(s, q), PageOf(t, q))
  }

  /** Frame `f`, and it alone, lost its owner. */
  ghost predicate Freed(c: Settings, s: Mem, t: Mem, f: nat) {
    forall g :: 0 <= g < c.frameCount ==> (Owned(t, g) <==> Owned(s, g) && g != f)
  }

  ghost predicate SameOwned(c: Settings, s: Mem, t: Mem) {
    forall g :: 0 <= g < c.frameCount ==> (Owned(t, g) <==> Owned(s, g))
  }

  lemma EvictReplaces(c: Settings, s: Mem, v: Key, who: nat)
    requires Inv(c, s) && Has(s, v) && PageOf(s, v).present && (c.tlbMax > 0 ==> who == v.pid)
    ensures Replaced(c, s, Evict(c, s, v, who)) && Freed(c, s, Evict(c, s, v, who), PageOf(s, v).frame)
  {
    var t := Evict(c, s, v, who);
    EvictKeeps(c, s, v, who);
    forall k | Has(t, k) ensures PageOf(t, k).frame != PageOf(s, v).frame {
      assert Has(s, k);
      assert k != v ==> !SameFrame(PageOf(s, k), PageOf(s, v));
    }
    forall f | 0 <= f < c.frameCount && f != PageOf(s, v).frame ensures Owned(t, f) <==> Owned(s, f) {
      if Owned(s, f) { assert Has(t, OwnerOf(s, f)); }
      if Owned(t, f) { assert Has(s, OwnerOf(t, f)); }
    }
  }

  lemma FrameReplaced(c: Settings, s: Mem, f: nat)
    requires Inv(c, s) && Owned(s, f) && f < c.frameCount
    ensures Replaced(c, s, EvictFrame(c, s, f)) && Freed(c, s, EvictFrame(c, s, f), f)
    ensures EvictFrame(c, s, f).hand == s.hand && EvictFrame(c, s, f).doubles == s.doubles
  {
    EvictReplaces(c, s, OwnerOf(s, f), OwnerOf(s, f).pid);
  }

  lemma ReplacedTwice(c: Settings, s: Mem, m: Mem, t: Mem)
    requires Replaced(c, s, m) && Replaced(c, m, t)
    ensures Replaced(c, s, t)
  {
    hide Inv, SameBytes, StaysPut;
    ShapeTwice(s, m, t);
    PutTwice(s, m, t);
    BytesTwice(c, s, m, t);
  }

  lemma PutTwice(s: Mem, m: Mem, t: Mem)
    requires SameShape(s, m) && SameShape(m, t) && StaysPut(s, m) && StaysPut(m, t)
    ensures StaysPut(s, t)
  {
    forall q | Has(s, q) && Has(t, q) && PageOf(t, q).present ensures SameFrame(PageOf(s, q), PageOf(t, q)) {
      assert Has(m, q);
    }
  }

  /** The hand moved, and a second victim counted. */
  ghost predicate OnlyHand(c: Settings, m: Mem, t: Mem) {
    t == m.(hand := t.hand, doubles := t.doubles) && t.hand <= c.frameCount && m.doubles <= t.doubles
  }

  lemma HandInv(c: Settings, m: Mem, t: Mem)
    requires Inv(c, m) && OnlyHand(c, m, t)
    ensures Later(m, t) && Inv(c, t) && SameBytes(c, m, t) && SameShape(m, t) && StaysPut(m, t) && SameOwned(c, m, t)
  {
    hide PageBytes;
    SameTables(c, m, t);
    assert Numbered(t) && StampsAreHistory(t) && TlbAgrees(c, t);
    HandBytes(c, m, t);
  }

  lemma HandBytes(c: Settings, m: Mem, t: Mem)
    requires OnlyHand(c, m, t)
    ensures SameBytes(c, m, t) && SameOwned(c, m, t) && (Backed(m) ==> Backed(t))
  {
    forall f | 0 <= f < c.frameCount ensures Owned(t, f) <==> Owned(m, f) {
      if Owned(m, f) { assert Has(t, OwnerOf(m, f)); }
      if Owned(t, f) { assert Has(m, OwnerOf(t, f)); }
    }
  }

  lemma HandMoves(c: Settings, s: Mem, m: Mem, t: Mem)
    requires Replaced(c, s, m) && OnlyHand(c, m, t)
    ensures Replaced(c, s, t) && SameOwned(c, m, t)
  {
    hide Inv, SameBytes, StaysPut, SameOwned;
    HandInv(c, m, t);
    PutTwice(s, m, t);
    BytesTwice(c, s, m, t);
  }

  /** The victim's frame lost its owner, and so did the one under the hand if a second page went. */
  ghost predicate FreedBoth(c: Settings, s: Mem, t: Mem, v: nat, second: bool) {
    && Owned(s, v) && (second ==> Owned(s, s.hand)) && t.doubles == s.doubles + (if second then 1 else 0)
    && forall f :: 0 <= f < c.frameCount ==> (Owned(t, f) <==> Owned(s, f) && f != v && !(second && f == s.hand))
  }

  lemma HandKeeps(c: Settings, s: Mem, h: nat)
    requires Inv(c, s) && h <= c.frameCount
    ensures Inv(c, s.(hand := h))
  {
    HandInv(c, s, s.(hand := h));
  }

  lemma DoubleKeeps(c: Settings, s: Mem)
    requires Inv(c, s)
    ensures Inv(c, s.(doubles := s.doubles + 1))
  {
    HandInv(c, s, s.(doubles := s.doubles + 1));
  }

  lemma VictimsFreed(c: Settings, m: Mem, v: nat, second: bool, t: Mem, hand: nat)
    requires Inv(c, m) && ClockVictimsEvicted(c, m, v, second, t, hand) && hand <= c.frameCount
    requires v < c.frameCount && (second ==> v != m.hand && m.hand < c.frameCount)
    ensures Replaced(c, m, t) && FreedBoth(c, m, t, v, second)
  {
    hide Inv, SameBytes, StaysPut, SameShape, EvictFrame, Owned, Replaced;
    FrameReplaced(c, m, v);
    ReplacedInv(c, m, EvictFrame(c, m, v));
    var e := EvictFrame(c, m, v);
    if second {
      FrameReplaced(c, e, m.hand);
      ReplacedTwice(c, m, e, EvictFrame(c, e, m.hand));
      HandMoves(c, m, EvictFrame(c, e, m.hand), t);
    } else {
      HandMoves(c, m, e, t);
    }
  }

  lemma ReplacedInv(c: Settings, s: Mem, t: Mem)
    requires Replaced(c, s, t)
    ensures Inv(c, t)
  {
  }

  lemma UseClearedReplaces(c: Settings, s: Mem, m: Mem, q: nat)
    requires Inv(c, s) && UseCleared(c, s, m, q)
    ensures Replaced(c, s, m) && SameOwned(c, s, m)
  {
    UseClearedKeeps(c, s, m, q);
  }

  lemma ClockFreesVia(c: Settings, s: Mem, m: Mem, q: nat, v: nat, second: bool, t: Mem, hand: nat)
    requires Inv(c, s) && UseCleared(c, s, m, q) && ClockVictimsEvicted(c, m, v, second, t, hand)
    requires hand <= c.frameCount && v < c.frameCount && (second ==> v != s.hand && s.hand < c.frameCount)
    ensures Replaced(c, s, t) && FreedBoth(c, s, t, v, second)
  {
    UseClearedReplaces(c, s, m, q);
    VictimsFreed(c, m, v, second, t, hand);
    ReplacedTwice(c, s, m, t);
  }

  ghost function VictimFrame(c: Settings, s: Mem): (v: nat)
    requires Turnable(c, s)
    ensures v < c.frameCount
  {
    ClockM.At(c.frameCount, s.hand, ClockM.Choose(BitsOf(c, s), s.hand).position)
  }

  /**
   Clock-M frees the victim's frame, and the frame under the hand when a second page goes;
   every other frame keeps its owner. No process sees the difference.
   */
  lemma ClockFrees(c: Settings, s: Mem, t: Mem)
    requires Inv(c, s) && ClockEvicted(c, s, t)
    ensures Replaced(c, s, t)
    ensures FreedBoth(c, s, t, VictimFrame(c, s), ClockM.Choose(BitsOf(c, s), s.hand).second)
  {
    var b := BitsOf(c, s);
    var choice, q := ClockM.Choose(b, s.hand), ClockM.ClearedBelow(b, s.hand);
    var hand := ClockM.HandAfter(b, s.hand);
    var v := VictimFrame(c, s);
    var m :| UseCleared(c, s, m, q) && ClockVictimsEvicted(c, m, v, choice.second, t, hand);
    ClockM.SecondIsElsewhere(b, s.hand);
    ClockFreesVia(c, s, m, q, v, choice.second, t, hand);
  }

  /** The next replacement meets the frame just given up last, or last but one. */
  lemma ClockMovesOn(c: Settings, s: Mem, t: Mem)
    requires ClockEvicted(c, s, t)
    ensures var n, v := c.frameCount, VictimFrame(c, s);
      t.hand <= n && ClockM.PositionOf(n, t.hand, v) == if v + 1 == s.hand < n then n - 2 else n - 1
  {
    hide EvictFrame, UseCleared, Owned, BitsOf;
    ClockM.HandEnds(BitsOf(c, s), s.hand);
  }

  ghost function FreeFrames(c: Settings, s: Mem): set<int> {
    set f | 0 <= f < c.frameCount && !Owned(s, f)
  }

  lemma FreeFramesCount(c: Settings, s: Mem, t: Mem, v: nat, second: bool)
    requires AllOwned(c, s) && FreedBoth(c, s, t, v, second) && v < c.frameCount
    requires second ==> s.hand < c.frameCount && v != s.hand
    ensures |FreeFrames(c, t)| == if second then 2 else 1
  {
    assert FreeFrames(c, t) == if second then {v, s.hand} else {v};
  }

  /**
   With every frame owned, a Clock-M replacement leaves exactly one frame free, unless the
   hand stood on a used, unmodified page with an unused, modified one just behind it and
   every other page used: then it leaves two.
   */
  lemma ClockFreesOneOrTwo(c: Settings, s: Mem, t: Mem)
    requires Inv(c, s) && AllOwned(c, s) && ClockEvicted(c, s, t)
    ensures |FreeFrames(c, t)| == if ClockM.TwoVictims(BitsOf(c, s), s.hand) then 2 else 1
    ensures t.doubles == s.doubles + |FreeFrames(c, t)| - 1
  {
    var b := BitsOf(c, s);
    var second, v := ClockM.Choose(b, s.hand).second, VictimFrame(c, s);
    ClockFrees(c, s, t);
    ClockM.SecondIsElsewhere(b, s.hand);
    FreeFramesCount(c, s, t, v, second);
    ClockM.SecondVictim(b, s.hand);
  }

  // ---- the page fault --------------------------------------------------------------------

  /** utilizarAlgritmoDeAsignacion on behalf of process `who`. */
  ghost predicate Evicted(c: Settings, s: Mem, who: nat, t: Mem) {
    if c.lru then LruEvicted(c, s, who, t) else ClockEvicted(c, s, t)
  }

  lemma EvictedKeeps(c: Settings, s: Mem, who: nat, t: Mem)
    requires Inv(c, s) && Evicted(c, s, who, t)
    ensures Replaced(c, s, t) && FreeFrame(c, t, 0) < c.frameCount
  {
    if c.lru {
      LruEvictedKeeps(c, s, who, t);
    } else {
      ClockEvictedKeeps(c, s, t);
    }
  }

  lemma LruEvictedKeeps(c: Settings, s: Mem, who: nat, t: Mem)
    requires Inv(c, s) && c.lru && LruEvicted(c, s, who, t)
    ensures Replaced(c, s, t) && FreeFrame(c, t, 0) < c.frameCount
  {
    var v :| IsLru(s, v) && t == Evict(c, s, v, who);
    EvictReplaces(c, s, v, who);
    assert !Owned(t, PageOf(s, v).frame);
  }

  lemma ClockEvictedKeeps(c: Settings, s: Mem, t: Mem)
    requires Inv(c, s) && ClockEvicted(c, s, t)
    ensures Replaced(c, s, t) && FreeFrame(c, t, 0) < c.frameCount
  {
    ClockFrees(c, s, t);
    assert !Owned(t, VictimFrame(c, s));
  }

  /** The frames that lost their page hold zeros, and no other frame has changed. */
  ghost predicate VacatedZeroed(c: Settings, s: Mem, t: Mem) {
    forall g :: 0 <= g < c.frameCount ==>
      FrameAt(t, g) == if Owned(s, g) && !Owned(t, g) then Zeros(c.pageSize) else FrameAt(s, g)
  }

  lemma EvictFrames(c: Settings, s: Mem, k: Key, who: nat)
    requires Has(s, k)
    ensures Evict(c, s, k, who).frames == PutAt(s.frames, PageOf(s, k).frame, Zeros(c.pageSize))
  {
  }

  lemma VictimsFrames(c: Settings, m: Mem, v: nat, second: bool, t: Mem, hand: nat)
    requires ClockVictimsEvicted(c, m, v, second, t, hand)
    ensures t.frames == if second then PutAt(PutAt(m.frames, v, Zeros(c.pageSize)), m.hand, Zeros(c.pageSize))
                        else PutAt(m.frames, v, Zeros(c.pageSize))
  {
    hide Evict, Owned;
    EvictFrames(c, m, OwnerOf(m, v), OwnerOf(m, v).pid);
    if second {
      var e := EvictFrame(c, m, v);
      EvictFrames(c, e, OwnerOf(e, m.hand), OwnerOf(e, m.hand).pid);
    }
  }

  lemma ClockZeroes(c: Settings, s: Mem, t: Mem)
    requires Inv(c, s) && ClockEvicted(c, s, t)
    ensures VacatedZeroed(c, s, t)
  {
    hide BitsOf, ClockVictimsEvicted, Owned, Replaced, ClockM.Choose;
    ClockFrees(c, s, t);
    var b, v := BitsOf(c, s), VictimFrame(c, s);
    var q, second, hand := ClockM.ClearedBelow(b, s.hand), ClockM.Choose(b, s.hand).second, ClockM.HandAfter(b, s.hand);
    var m :| UseCleared(c, s, m, q) && ClockVictimsEvicted(c, m, v, second, t, hand);
    VictimsFrames(c, m, v, second, t, hand);
    assert m.frames == s.frames && m.hand == s.hand;
  }

  /** Every replacement fills the frames it empties with zeros and touches no other. */
  lemma EvictedZeroes(c: Settings, s: Mem, who: nat, t: Mem)
    requires Inv(c, s) && Evicted(c, s, who, t)
    ensures VacatedZeroed(c, s, t)
  {
    hide ClockEvicted, Evict, Owned;
    if c.lru {
      var v :| IsLru(s, v) && t == Evict(c, s, v, who);
      EvictReplaces(c, s, v, who);
      EvictFrames(c, s, v, who);
      OwnerIs(c, s, v);
    } else {
      ClockZeroes(c, s, t);
    }
  }

  /** What fetch_entrada_tlb leaves. */
  function Looked(c: Settings, s: Mem, k: Key): Mem {
    if c.tlbMax == 0 then s else s.(tlb := Tlb.Used(s.tlb, k.pid, k.page))
  }

  /** The fault of page `k`: some page evicted, giving `e`, then `k` loaded, stamped and remembered. */
  ghost predicate FaultedVia(c: Settings, l: Mem, k: Key, e: Mem, t: Mem) {
    && Evicted(c, l, k.pid, e) && Has(e, k) && t == Remember(c, Touch(Load(c, e, k), k), k)
  }

  /**
   getFrameDeUn: look the page up, bring it in if it is absent, stamp it and remember it.
   */
  ghost predicate Accessed(c: Settings, s: Mem, k: Key, t: Mem)
    requires Has(s, k)
  {
    var l := Looked(c, s, k);
    if PageOf(s, k).present then t == Remember(c, Touch(l, k), k)
    else exists e :: FaultedVia(c, l, k, e, t)
  }

  lemma LookedKeeps(c: Settings, s: Mem, k: Key)
    requires Inv(c, s) && Has(s, k)
    ensures Inv(c, Looked(c, s, k)) && SameBytes(c, s, Looked(c, s, k))
    ensures Looked(c, s, k) == s.(tlb := Looked(c, s, k).tlb)
  {
    hide StampsAreHistory, Numbered, DynamicOk, Tlb.Lookup, Tlb.Used;
    var t := Looked(c, s, k);
    if c.tlbMax > 0 {
      PageNumber(c, s, k);
      AloneInFrame(c, s, k);
      Tlb.UsedThenLookup(s.tlb, c.tlbMax, k.pid, k.page, k.pid, k.page);
      forall q: Key | q.page < MARK ensures Tlb.Lookup(t.tlb, q.pid, q.page) == Tlb.Lookup(s.tlb, q.pid, q.page) {
        Tlb.UsedThenLookup(s.tlb, c.tlbMax, k.pid, k.page, q.pid, q.page);
      }
      assert DiffersAt(s, t, k);
      StructureKept(c, s, t, k);
    }
  }

  /** Everything an access promises its caller. */
  ghost predicate Invisible(c: Settings, s: Mem, k: Key, t: Mem) {
    && Inv(c, t) && SameShape(s, t) && Has(t, k) && PageOf(t, k).present && PageOf(t, k).used
    && Later(s, t) && SameBytes(c, s, t)
    && t.history == s.history + [k]
    && (c.tlbMax > 0 ==> Tlb.Lookup(t.tlb, k.pid, k.page) == Some(PageOf(t, k).frame))
  }

  lemma LandedIsInvisible(c: Settings, s: Mem, k: Key, m: Mem)
    requires Inv(c, s) && Has(s, k) && Inv(c, m) && SameShape(s, m) && PageOf(m, k).present
    requires m.history == s.history && Later(s, m) && SameBytes(c, s, m)
    ensures Invisible(c, s, k, Remember(c, Touch(m, k), k))
  {
    hide Inv, SameBytes;
    var u := Touch(m, k);
    TouchKeeps(c, m, k);
    RememberKeeps(c, u, k);
    var t := Remember(c, u, k);
    BytesTwice(c, s, m, u);
    BytesTwice(c, s, u, t);
  }

  /**
   A page fault is invisible: after any access, hit or fault, every process sees the same
   bytes, the page asked for is present and used, and the buffer agrees with the page tables.
   */
  lemma AccessIsInvisible(c: Settings, s: Mem, k: Key, t: Mem)
    requires Inv(c, s) && Has(s, k) && Accessed(c, s, k, t)
    ensures Invisible(c, s, k, t)
  {
    var l := Looked(c, s, k);
    if PageOf(s, k).present {
      HitIsInvisible(c, s, k);
    } else {
      var e :| FaultedVia(c, l, k, e, t);
      FaultIsInvisible(c, s, k, e, t);
    }
  }

  lemma HitIsInvisible(c: Settings, s: Mem, k: Key)
    requires Inv(c, s) && Has(s, k) && PageOf(s, k).present
    ensures Has(Looked(c, s, k), k)
    ensures Invisible(c, s, k, Remember(c, Touch(Looked(c, s, k), k), k))
  {
    LookedKeeps(c, s, k);
    LandedIsInvisible(c, s, k, Looked(c, s, k));
  }

  lemma FaultIsInvisible(c: Settings, s: Mem, k: Key, e: Mem, t: Mem)
    requires Inv(c, s) && Has(s, k) && !PageOf(s, k).present
    requires FaultedVia(c, Looked(c, s, k), k, e, t)
    ensures Invisible(c, s, k, t)
  {
    LookedKeeps(c, s, k);
    FaultLands(c, s, k, Looked(c, s, k), e);
    LandedIsInvisible(c, s, k, Load(c, e, k));
  }

  lemma FaultLands(c: Settings, s: Mem, k: Key, l: Mem, e: Mem)
    requires Inv(c, s) && Has(s, k) && !PageOf(s, k).present && l == Looked(c, s, k)
    requires Inv(c, l) && SameBytes(c, s, l) && Evicted(c, l, k.pid, e)
    ensures Inv(c, e) && Has(e, k) && FreeFrame(c, e, 0) < c.frameCount
    ensures var m := Load(c, e, k);
      && Inv(c, m) && SameShape(s, m) && PageOf(m, k).present && m.history == s.history
      && Later(s, m) && SameBytes(c, s, m)
  {
    hide Inv, SameBytes, Evicted, FreeFrame;
    EvictedKeeps(c, l, k.pid, e);
    LoadKeeps(c, e, k);
    var m := Load(c, e, k);
    BytesTwice(c, s, l, e);
    BytesTwice(c, s, e, m);
  }

  /** After an access, hit or fault, the buffer holds the page as the one most recently used. */
  lemma AccessedIsNewest(c: Settings, s: Mem, k: Key, t: Mem)
    requires Inv(c, s) && Has(s, k) && c.tlbMax > 0 && Accessed(c, s, k, t)
    ensures Tlb.Newest(t.tlb, k.pid, k.page)
  {
    hide Evicted, Load, Touch, Tlb.Used, Tlb.Add, Tlb.Lookup, Tlb.Newest, SameBytes, DynamicOk, Backed;
    var l := Looked(c, s, k);
    LookedKeeps(c, s, k);
    PageNumber(c, s, k);
    if PageOf(s, k).present {
      var f := PageOf(s, k).frame;
      TouchSame(l, k);
      Tlb.UsedThenLookup(s.tlb, c.tlbMax, k.pid, k.page, k.pid, k.page);
      if Tlb.Lookup(s.tlb, k.pid, k.page).Some? {
        Tlb.UsedIsNewest(s.tlb, c.tlbMax, k.pid, k.page);
        Tlb.FoundIsNotAdded(l.tlb, c.tlbMax, c.tlbFifo, k.pid, k.page, f);
      } else {
        Tlb.AddedIsNewest(l.tlb, c.tlbMax, c.tlbFifo, k.pid, k.page, f);
      }
    } else {
      var e :| FaultedVia(c, l, k, e, t);
      EvictedKeeps(c, l, k.pid, e);
      AbsentNotFound(c, s, k, l, e);
      LoadSame(c, e, k);
      TouchSame(Load(c, e, k), k);
      Tlb.AddedIsNewest(e.tlb, c.tlbMax, c.tlbFifo, k.pid, k.page, PageOf(Load(c, e, k), k).frame);
    }
  }

  lemma TouchSame(s: Mem, k: Key)
    requires Has(s, k)
    ensures Has(Touch(s, k), k) && Touch(s, k).tlb == s.tlb && PageOf(Touch(s, k), k).frame == PageOf(s, k).frame
  {
  }

  lemma LoadSame(c: Settings, e: Mem, k: Key)
    requires Has(e, k)
    ensures Has(Load(c, e, k), k) && Load(c, e, k).tlb == e.tlb
  {
  }

  lemma AbsentNotFound(c: Settings, s: Mem, k: Key, l: Mem, e: Mem)
    requires Has(s, k) && !PageOf(s, k).present && l == Looked(c, s, k) && Has(e, k) && StaysPut(l, e)
    requires TlbAgrees(c, e) && k.page < MARK
    ensures Tlb.Lookup(e.tlb, k.pid, k.page).None?
  {
    hide Tlb.Lookup, Tlb.Used, Tlb.Ok;
    assert Has(l, k) && PageOf(l, k) == PageOf(s, k);
  }

  // ---- when a page can be evicted at all ----------------------------------------------------

  /** Clock-M reads a frame that no page owns before it finds its victim. */
  ghost predicate MeetsFreeFrame(c: Settings, s: Mem)
    requires Turnable(c, s)
  {
    var choice := ClockM.Choose(BitsOf(c, s), s.hand);
    exists k :: 0 <= k < c.frameCount && (choice.sweep == 1 ==> k < choice.position)
                && !Owned(s, ClockM.At(c.frameCount, s.hand, k))
  }

  /** The code's replacement is defined: LRU has a page to pick, Clock-M meets only owned frames. */
  ghost predicate CanEvict(c: Settings, s: Mem) {
    if c.lru then exists v :: IsLru(s, v) else Turnable(c, s) && !MeetsFreeFrame(c, s)
  }

  /** Nothing any process sees has changed. */
  ghost predicate Kept(c: Settings, s: Mem, t: Mem) {
    Inv(c, t) && SameShape(s, t) && Later(s, t) && SameBytes(c, s, t)
  }

  lemma ReplacedKept(c: Settings, s: Mem, t: Mem)
    requires Replaced(c, s, t)
    ensures Kept(c, s, t)
  {
  }

  lemma KeptItself(c: Settings, s: Mem)
    requires Inv(c, s)
    ensures Kept(c, s, s)
  {
  }

  /** What an access that could not evict leaves: at most the hand and a buffer counter moved. */
  lemma StuckKeeps(c: Settings, s: Mem, k: Key, t: Mem)
    requires Inv(c, s) && Has(s, k) && t == Looked(c, s, k).(hand := t.hand) && t.hand <= c.frameCount
    ensures Kept(c, s, t) && Inv(c, t) && SameShape(s, t)
  {
    var l := Looked(c, s, k);
    LookedKeeps(c, s, k);
    assert Replaced(c, l, l);
    HandMoves(c, l, l, t);
  }

  /** Remembering a page the buffer already knows changes nothing. */
  lemma RememberKnown(c: Settings, s: Mem, k: Key)
    requires Has(s, k) && Tlb.Lookup(s.tlb, k.pid, k.page) == Some(PageOf(s, k).frame)
    ensures Remember(c, s, k) == s
  {
    var e := Tlb.FindKey(s.tlb.entries, k.pid, k.page);
  }

  lemma LookedSamePages(c: Settings, s: Mem, k: Key)
    requires Has(s, k)
    ensures Has(Looked(c, s, k), k) && PageOf(Looked(c, s, k), k) == PageOf(s, k)
  {
  }

  /** On a hit the entry names the page's frame, and stamping the page leaves nothing to remember. */
  lemma HitKnown(c: Settings, l: Mem, k: Key, hit: Option<nat>)
    requires Inv(c, l) && Has(l, k) && PageOf(l, k).present && hit.Some?
    requires hit == if c.tlbMax == 0 then None else Tlb.Lookup(l.tlb, k.pid, k.page)
    ensures Has(Touch(l, k), k) && PageOf(Touch(l, k), k).frame == hit.value
    ensures Remember(c, Touch(l, k), k) == Touch(l, k)
  {
    RememberKnown(c, Touch(l, k), k);
  }
}
