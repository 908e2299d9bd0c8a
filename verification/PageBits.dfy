/**
 The use and modified bits of the pages over whole runs: what sets and what clears them, and
 what the improved clock, which goes by them, therefore does to the page last accessed.
 */
module PageBits {
  import opened Paging
  import opened Swap
  import opened Replacement
  import opened HeapOps
  import opened HeapCalls
  import opened Changes
  import ClockM
  import Tlb

  /** The page lies in a frame, and the clock passes it before it finds its victim, clearing its use bit on the way. */
  ghost predicate Passed(c: Settings, s: Mem, q: Key)
    requires Has(s, q)
  {
    && InFrame(c, s, q) && s.hand <= c.frameCount
    && (forall l :: Has(s, l) && InFrame(c, s, l) ==> PageOf(s, l).used || PageOf(s, l).modified)
    && forall l :: Has(s, l) && InFrame(c, s, l) && Position(c, s, l) <= Position(c, s, q) ==> PageOf(s, l).used
  }

  predicate InFrame(c: Settings, s: Mem, q: Key) {
    Has(s, q) && PageOf(s, q).frame < c.frameCount
  }

  /** The place of a page in the cyclic order from the hand. */
  function Position(c: Settings, s: Mem, q: Key): nat
    requires InFrame(c, s, q) && s.hand <= c.frameCount
  {
    ClockM.PositionOf(c.frameCount, s.hand, PageOf(s, q).frame)
  }

  /** The change makes the clock choose a victim. */
  predicate Replaces(c: Settings, s: Mem, x: Change) {
    !c.lru && (x.Vacate? || (x.Access? && Has(s, x.k) && !PageOf(s, x.k).present))
  }

  /** After a change a page is used if it has just been accessed, or was used and no clock passed it. */
  ghost predicate UsedAfter(c: Settings, s: Mem, x: Change, t: Mem, q: Key)
    requires Has(s, q) && Has(t, q)
  {
    PageOf(t, q).used <==> x == Access(q) || (PageOf(s, q).used && !(Replaces(c, s, x) && Passed(c, s, q)))
  }

  /** ... and modified if bytes were copied into it or it was marked, or it was and has not left its frame. */
  ghost predicate ModifiedAfter(c: Settings, s: Mem, x: Change, t: Mem, q: Key)
    requires Has(s, q) && Has(t, q)
  {
    PageOf(t, q).modified <==>
      (x.Copy? && x.k == q) || x == Mark(q)
      || (PageOf(s, q).modified && !(x == Access(q) && !PageOf(s, q).present)
          && (PageOf(s, q).present ==> PageOf(t, q).present))
  }

  // ---- replacements -------------------------------------------------------------------------------

  /** The bits of the pages in frames, as the clock reads them. */
  lemma BitIs(c: Settings, s: Mem, f: nat)
    requires f < c.frameCount && FramesExclusive(c, s)
    ensures forall l :: Has(s, l) && PageOf(s, l).frame == f ==>
              BitsOf(c, s)[f] == ClockM.Bits(PageOf(s, l).used, PageOf(s, l).modified)
    ensures !Owned(s, f) ==> BitsOf(c, s)[f] == ClockM.Bits(true, true)
  {
    forall l | Has(s, l) && PageOf(s, l).frame == f ensures Owned(s, f) && OwnerOf(s, f) == l {
      OwnerIs(c, s, l);
    }
  }

  lemma PassedIs(c: Settings, s: Mem, q: Key)
    requires Has(s, q) && InFrame(c, s, q) && FramesExclusive(c, s) && s.hand <= c.frameCount
    ensures Passed(c, s, q) <==> Position(c, s, q) < ClockM.ClearedBelow(BitsOf(c, s), s.hand)
  {
    hide BitsOf, FramesExclusive;
    var b, n, f := BitsOf(c, s), c.frameCount, PageOf(s, q).frame;
    ClockM.ClearedBelowIs(b, s.hand, f);
    forall g | 0 <= g < n
      ensures forall l :: Has(s, l) && PageOf(s, l).frame == g ==>
                b[g] == ClockM.Bits(PageOf(s, l).used, PageOf(s, l).modified)
      ensures !Owned(s, g) ==> b[g] == ClockM.Bits(true, true)
    {
      BitIs(c, s, g);
    }
    if Passed(c, s, q) {
      forall g | 0 <= g < n ensures b[g].used || b[g].modified {
        if Owned(s, g) { assert InFrame(c, s, OwnerOf(s, g)); }
      }
      forall g | 0 <= g < n && ClockM.PositionOf(n, s.hand, g) <= Position(c, s, q) ensures b[g].used {
        if Owned(s, g) {
          assert InFrame(c, s, OwnerOf(s, g)) && Position(c, s, OwnerOf(s, g)) <= Position(c, s, q);
        }
      }
    } else if Position(c, s, q) < ClockM.ClearedBelow(b, s.hand) {
      forall l | Has(s, l) && InFrame(c, s, l)
        ensures PageOf(s, l).used || PageOf(s, l).modified
        ensures Position(c, s, l) <= Position(c, s, q) ==> PageOf(s, l).used
      {
        assert b[PageOf(s, l).frame] == ClockM.Bits(PageOf(s, l).used, PageOf(s, l).modified);
      }
    }
  }

  /** What a replacement does to the bits: use bits go where the clock passes, modified bits with the page. */
  ghost predicate BitsReplaced(c: Settings, s: Mem, t: Mem) {
    forall q :: Has(s, q) && Has(t, q) ==>
      && (PageOf(t, q).used <==> PageOf(s, q).used && (c.lru || !Passed(c, s, q)))
      && (PageOf(t, q).modified <==> PageOf(s, q).modified && (PageOf(s, q).present ==> PageOf(t, q).present))
  }

  /** Evictions: use bits stay, modified bits go with the page. */
  ghost predicate BitsEvicted(s: Mem, t: Mem) {
    forall q :: Has(s, q) ==>
      && Has(t, q)
      && PageOf(t, q).used == PageOf(s, q).used
      && (PageOf(t, q).present ==> PageOf(s, q).present)
      && (PageOf(t, q).modified <==> PageOf(s, q).modified && (PageOf(s, q).present ==> PageOf(t, q).present))
  }

  lemma EvictBits(c: Settings, s: Mem, k: Key, who: nat)
    requires Has(s, k) && PageOf(s, k).present
    ensures BitsEvicted(s, Evict(c, s, k, who))
  {
  }

  lemma EvictTwiceBits(s: Mem, m: Mem, t: Mem)
    requires BitsEvicted(s, m) && BitsEvicted(m, t)
    ensures BitsEvicted(s, t)
  {
    forall q | Has(s, q)
      ensures Has(t, q) && PageOf(t, q).used == PageOf(s, q).used
      ensures PageOf(t, q).present ==> PageOf(s, q).present
      ensures PageOf(t, q).modified <==> PageOf(s, q).modified && (PageOf(s, q).present ==> PageOf(t, q).present)
    {
      assert Has(m, q) && Has(t, q);
    }
  }

  lemma EvictFrameBits(c: Settings, s: Mem, f: nat)
    requires Inv(c, s) && Owned(s, f) && f < c.frameCount
    ensures BitsEvicted(s, EvictFrame(c, s, f)) && Inv(c, EvictFrame(c, s, f))
  {
    hide Inv, Evict, Replaced;
    FrameReplaced(c, s, f);
    ReplacedInv(c, s, EvictFrame(c, s, f));
    OwnerPresent(c, s, f);
    EvictBits(c, s, OwnerOf(s, f), OwnerOf(s, f).pid);
  }

  lemma OwnerPresent(c: Settings, s: Mem, f: nat)
    requires Inv(c, s) && Owned(s, f) && f < c.frameCount
    ensures PageOf(s, OwnerOf(s, f)).present
  {
  }

  lemma VictimsBits(c: Settings, m: Mem, v: nat, second: bool, t: Mem, hand: nat)
    requires Inv(c, m) && v < c.frameCount && (second ==> m.hand < c.frameCount)
    requires ClockVictimsEvicted(c, m, v, second, t, hand)
    ensures BitsEvicted(m, t)
  {
    hide Inv, EvictFrame, Owned;
    EvictFrameBits(c, m, v);
    var e := EvictFrame(c, m, v);
    if second {
      EvictFrameBits(c, e, m.hand);
      var u := EvictFrame(c, e, m.hand);
      EvictTwiceBits(m, e, u);
      HandBits(m, u, t);
    } else {
      HandBits(m, e, t);
    }
  }

  lemma HandBits(m: Mem, e: Mem, t: Mem)
    requires BitsEvicted(m, e) && t == e.(hand := t.hand, doubles := t.doubles)
    ensures BitsEvicted(m, t)
  {
    forall q | Has(m, q) ensures Has(t, q) && PageOf(t, q) == PageOf(e, q) {
      assert Has(e, q);
    }
  }

  lemma ClockBits(c: Settings, s: Mem, t: Mem)
    requires Inv(c, s) && ClockEvicted(c, s, t) && !c.lru
    ensures BitsReplaced(c, s, t)
  {
    hide Inv, ClockVictimsEvicted, UseCleared, Passed, BitsOf;
    InvFrames(c, s);
    var b, v := BitsOf(c, s), VictimFrame(c, s);
    var q, second, hand := ClockM.ClearedBelow(b, s.hand), ClockM.Choose(b, s.hand).second, ClockM.HandAfter(b, s.hand);
    var m :| UseCleared(c, s, m, q) && ClockVictimsEvicted(c, m, v, second, t, hand);
    ClockM.SecondIsElsewhere(b, s.hand);
    UseClearedKeeps(c, s, m, q);
    HandStays(c, s, m, q);
    VictimsBits(c, m, v, second, t, hand);
    forall k | Has(s, k) && Has(t, k)
      ensures PageOf(t, k).used <==> PageOf(s, k).used && (c.lru || !Passed(c, s, k))
      ensures PageOf(t, k).modified <==> PageOf(s, k).modified && (PageOf(s, k).present ==> PageOf(t, k).present)
    {
      ClearedBit(c, s, m, k);
    }
  }

  lemma HandStays(c: Settings, s: Mem, m: Mem, q: nat)
    requires UseCleared(c, s, m, q)
    ensures m.hand == s.hand
  {
  }

  lemma InvFrames(c: Settings, s: Mem)
    requires Inv(c, s)
    ensures FramesExclusive(c, s) && s.hand <= c.frameCount && c.frameCount > 0
  {
  }

  lemma ClearedBit(c: Settings, s: Mem, m: Mem, k: Key)
    requires Turnable(c, s) && FramesExclusive(c, s) && Has(s, k)
    requires UseCleared(c, s, m, ClockM.ClearedBelow(BitsOf(c, s), s.hand))
    ensures Has(m, k) && PageOf(m, k) == PageOf(s, k).(used := PageOf(s, k).used && !Passed(c, s, k))
  {
    hide FramesExclusive, BitsOf;
    if InFrame(c, s, k) { PassedIs(c, s, k); }
  }

  lemma ReplacementBits(c: Settings, s: Mem, who: nat, t: Mem)
    requires Inv(c, s) && Evicted(c, s, who, t)
    ensures BitsReplaced(c, s, t)
  {
    hide Inv, ClockEvicted, Passed, Evict;
    if c.lru {
      var v :| IsLru(s, v) && t == Evict(c, s, v, who);
      EvictBits(c, s, v, who);
    } else {
      ClockBits(c, s, t);
    }
  }

  // ---- one change ---------------------------------------------------------------------------------

  /**
   Every change does to the bits of every page what was said above; a new page is used, and modified if it is
   the first.
   */
  ghost predicate BitsChanged(c: Settings, s: Mem, x: Change, t: Mem) {
    && (forall q :: Has(s, q) && Has(t, q) ==> UsedAfter(c, s, x, t, q) && ModifiedAfter(c, s, x, t, q))
    && forall q :: Has(t, q) && !Has(s, q) ==> PageOf(t, q).used && (PageOf(t, q).modified <==> x.Enter?)
  }

  lemma SamePassed(c: Settings, s: Mem, l: Mem, q: Key)
    requires l.tables == s.tables && l.hand == s.hand && Has(s, q)
    ensures Has(l, q) && (Passed(c, l, q) <==> Passed(c, s, q))
  {
    forall k ensures Has(l, k) <==> Has(s, k) {}
    forall k | Has(s, k) ensures PageOf(l, k) == PageOf(s, k) && InFrame(c, l, k) == InFrame(c, s, k) {}
    forall k | InFrame(c, s, k) && s.hand <= c.frameCount ensures Position(c, l, k) == Position(c, s, k) {}
  }

  lemma TouchBits(c: Settings, e: Mem, k: Key)
    requires Has(e, k)
    ensures var t := Remember(c, Touch(e, k), k);
      && (forall q :: Has(t, q) <==> Has(e, q))
      && PageOf(t, k) == PageOf(e, k).(used := true, stamp := e.lruClock + 1)
      && forall q :: Has(e, q) && q != k ==> PageOf(t, q) == PageOf(e, q)
  {
    var u := Touch(e, k);
    forall q ensures Has(Remember(c, u, k), q) <==> Has(u, q) {}
    forall q | Has(u, q) ensures PageOf(Remember(c, u, k), q) == PageOf(u, q) {}
  }

  lemma HitBits(c: Settings, s: Mem, k: Key)
    requires Has(s, k) && PageOf(s, k).present && Has(Looked(c, s, k), k)
    ensures BitsChanged(c, s, Access(k), Remember(c, Touch(Looked(c, s, k), k), k))
  {
    hide Tlb.Add, Tlb.Used, Touch, Remember, Passed;
    var l := Looked(c, s, k);
    forall q ensures Has(l, q) <==> Has(s, q) {}
    forall q | Has(s, q) ensures PageOf(l, q) == PageOf(s, q) {}
    TouchBits(c, l, k);
  }

  lemma FaultBits(c: Settings, s: Mem, k: Key, e: Mem, t: Mem)
    requires Inv(c, s) && Has(s, k) && !PageOf(s, k).present && FaultedVia(c, Looked(c, s, k), k, e, t)
    ensures BitsChanged(c, s, Access(k), t)
  {
    hide Inv, Evicted, Touch, Remember, Passed, FreeFrame, Tlb.Used;
    var l := Looked(c, s, k);
    LookedKeeps(c, s, k);
    ReplacementBits(c, l, k.pid, e);
    EvictedKeeps(c, l, k.pid, e);
    forall q | Has(s, q) ensures Has(l, q) && PageOf(l, q) == PageOf(s, q) && (Passed(c, l, q) <==> Passed(c, s, q)) {
      SamePassed(c, s, l, q);
    }
    var m := Load(c, e, k);
    forall q ensures Has(m, q) <==> Has(e, q) {}
    forall q | Has(e, q) && q != k ensures PageOf(m, q) == PageOf(e, q) {}
    TouchBits(c, m, k);
    SameHas(s, e);
    forall q | Has(s, q) && Has(t, q) ensures UsedAfter(c, s, Access(k), t, q) && ModifiedAfter(c, s, Access(k), t, q) {
      assert Has(l, q) && Has(e, q);
    }
  }

  lemma SameHas(s: Mem, t: Mem)
    requires SameShape(s, t)
    ensures forall q :: Has(t, q) <==> Has(s, q)
  {
  }

  lemma VacateBits(c: Settings, s: Mem, who: nat, t: Mem)
    requires Inv(c, s) && Evicted(c, s, who, t)
    ensures BitsChanged(c, s, Vacate(who), t)
  {
    hide Inv, Evicted, Passed;
    ReplacementBits(c, s, who, t);
    EvictedKeeps(c, s, who, t);
    SameHas(s, t);
  }

  /** Pages and their bits are untouched. */
  lemma SameBits(c: Settings, s: Mem, x: Change, t: Mem)
    requires t.tables == s.tables
    requires x.Attempt? || x.Put? || x.Send? || x.TurnHand? || x.ForgetRefusal?
    ensures BitsChanged(c, s, x, t)
  {
    hide Passed;
    forall q ensures Has(t, q) <==> Has(s, q) {}
    forall q | Has(s, q) ensures PageOf(t, q) == PageOf(s, q) {}
  }

  lemma SetBits(c: Settings, s: Mem, x: Change, k: Key, t: Mem)
    requires (x.Copy? && x.k == k) || x == Mark(k)
    requires Has(s, k) && t.tables == SetPage(s, k, PageOf(s, k).(modified := true)).tables
    ensures BitsChanged(c, s, x, t)
  {
    hide Passed;
    var m := SetPage(s, k, PageOf(s, k).(modified := true));
    forall q ensures Has(t, q) <==> Has(m, q) {}
    forall q | Has(m, q) ensures PageOf(t, q) == PageOf(m, q) {}
  }

  /** A page comes at the end of a process. */
  lemma GrowBits(c: Settings, s: Mem, x: Change, t: Mem)
    requires Changed(c, s, x, t) && x.Grow?
    ensures BitsChanged(c, s, x, t)
  {
    hide Passed, FreeFrame;
    forall q | Has(s, q) && Has(t, q) ensures PageOf(t, q) == PageOf(s, q) {}
    forall q | Has(t, q) && !Has(s, q) ensures PageOf(t, q).used && !PageOf(t, q).modified {}
  }

  /** ... or with a process. */
  lemma EnterBits(c: Settings, s: Mem, x: Change, t: Mem)
    requires Changed(c, s, x, t) && x.Enter?
    ensures BitsChanged(c, s, x, t)
  {
    hide Passed, FreeFrame, Tlb.Lookup;
    forall q | Has(s, q) && Has(t, q) ensures PageOf(t, q) == PageOf(s, q) {}
    forall q | Has(t, q) && !Has(s, q) ensures PageOf(t, q).used && PageOf(t, q).modified {}
  }

  /** Pages go, and the others are untouched. */
  lemma FewerBits(c: Settings, s: Mem, x: Change, t: Mem)
    requires Changed(c, s, x, t) && (x.Leave? || x.Cut? || x.MoveLast?)
    ensures BitsChanged(c, s, x, t)
  {
    hide Passed, DropPages, Finish;
    forall q | Has(t, q) ensures Has(s, q) && PageOf(t, q) == PageOf(s, q) {}
  }

  lemma ChangeBits(c: Settings, s: Mem, x: Change, t: Mem)
    requires Inv(c, s) && Changed(c, s, x, t)
    ensures BitsChanged(c, s, x, t)
  {
    hide Inv, Evicted, FreeFrame, Tlb.Lookup, AddedPage, Created, Deleted, CutBy, SetLast, BitsChanged, Save;
    match x
    case Access(k) =>
      if PageOf(s, k).present {
        HitBits(c, s, k);
      } else {
        var e :| FaultedVia(c, Looked(c, s, k), k, e, t);
        FaultBits(c, s, k, e, t);
      }
    case Vacate(who) => VacateBits(c, s, who, t);
    case Copy(k, o, data) => SetBits(c, s, x, k, t);
    case Mark(k) => SetBits(c, s, x, k, t);
    case Grow(_) => GrowBits(c, s, x, t);
    case Enter(_) => EnterBits(c, s, x, t);
    case Leave(_) => FewerBits(c, s, x, t);
    case Cut(_, _) => FewerBits(c, s, x, t);
    case MoveLast(_, _) => FewerBits(c, s, x, t);
    case _ => SameBits(c, s, x, t);
  }

  // ---- runs -----------------------------------------------------------------------------------------

  /** The states of the memory process from its beginning, one change after the other. */
  ghost predicate History(c: Settings, ms: seq<Mem>, xs: seq<Change>) {
    && |ms| == |xs| + 1 && Supported(c) && Begun(c, ms[0])
    && forall i :: 0 <= i < |xs| ==> Changed(c, ms[i], xs[i], ms[i + 1])
  }

  lemma {:induction false} HistoryKeeps(c: Settings, ms: seq<Mem>, xs: seq<Change>, i: nat)
    requires History(c, ms, xs) && i < |ms|
    ensures Inv(c, ms[i])
  {
    hide Inv, Changed, Begun;
    if i == 0 {
      BegunMeets(c, ms[0]);
    } else {
      HistoryKeeps(c, ms, xs, i - 1);
      assert Changed(c, ms[i - 1], xs[i - 1], ms[(i - 1) + 1]);
      ChangeKeeps(c, ms[i - 1], xs[i - 1], ms[i]);
    }
  }

  /** One of the first `i` changes did it, and none after that one undid it. */
  ghost predicate Since(did: nat -> bool, undid: nat -> bool, i: nat) {
    exists j :: 0 <= j < i && did(j) && forall l :: j < l < i ==> !undid(l)
  }

  lemma SinceBy(did: nat -> bool, undid: nat -> bool, j: nat, i: nat)
    requires j < i && did(j) && forall l :: j < l < i ==> !undid(l)
    ensures Since(did, undid, i)
  {
  }

  lemma SinceStep(did: nat -> bool, undid: nat -> bool, i: nat)
    ensures Since(did, undid, i + 1) <==> did(i) || (!undid(i) && Since(did, undid, i))
  {
    if j: nat :| j < i + 1 && did(j) && forall l :: j < l < i + 1 ==> !undid(l) {
      assert j < i ==> !undid(i) && forall l :: j < l < i ==> !undid(l);
    }
    if !undid(i) {
      if j: nat :| j < i && did(j) && forall l :: j < l < i ==> !undid(l) {
        assert did(j) && forall l :: j < l < i + 1 ==> !undid(l);
      }
    }
  }

  /** Change `j` added page `q` or accessed it. */
  ghost predicate Lights(ms: seq<Mem>, xs: seq<Change>, q: Key, j: nat) {
    && j < |xs| && |ms| == |xs| + 1
    && Has(ms[j + 1], q) && (xs[j] == Access(q) || !Has(ms[j], q))
  }

  /** Change `l` made the clock pass page `q`. */
  ghost predicate Sweeps(c: Settings, ms: seq<Mem>, xs: seq<Change>, q: Key, l: nat) {
    && l < |xs| && |ms| == |xs| + 1
    && Has(ms[l], q) && Replaces(c, ms[l], xs[l]) && Passed(c, ms[l], q)
  }

  /** Page `q` was not there before change `l`. */
  ghost predicate Missing(ms: seq<Mem>, q: Key, l: nat) {
    l < |ms| && !Has(ms[l], q)
  }

  /** Change `j` copied bytes into page `q`, marked it, or created it as the first page of a process. */
  ghost predicate Dirties(ms: seq<Mem>, xs: seq<Change>, q: Key, j: nat) {
    && j < |xs| && |ms| == |xs| + 1 && Has(ms[j + 1], q)
    && ((xs[j].Copy? && xs[j].k == q) || xs[j] == Mark(q) || (xs[j].Enter? && !Has(ms[j], q)))
  }

  /** Change `l` brought page `q` back from swap or evicted it. */
  ghost predicate Cleans(ms: seq<Mem>, xs: seq<Change>, q: Key, l: nat) {
    && l < |xs| && |ms| == |xs| + 1 && Has(ms[l], q) && Has(ms[l + 1], q)
    && if PageOf(ms[l], q).present then !PageOf(ms[l + 1], q).present else xs[l] == Access(q)
  }

  lemma NoPages(c: Settings, s: Mem)
    requires Begun(c, s)
    ensures forall q :: !Has(s, q)
  {
  }

  /**
   In every run a page is used exactly when a change added it or accessed it and since then no clock has
   passed it.
   */
  lemma {:induction false} UsedSince(c: Settings, ms: seq<Mem>, xs: seq<Change>, i: nat, q: Key)
    requires History(c, ms, xs) && i < |ms| && Has(ms[i], q)
    ensures PageOf(ms[i], q).used <==>
            Since((j: nat) => Lights(ms, xs, q, j), (l: nat) => Sweeps(c, ms, xs, q, l) || Missing(ms, q, l), i)
  {
    hide Inv, Changed, Passed, Begun, Since;
    NoPages(c, ms[0]);
    if i > 0 {
      var s, x, t := ms[i - 1], xs[i - 1], ms[i];
      HistoryKeeps(c, ms, xs, i - 1);
      assert Changed(c, s, x, ms[(i - 1) + 1]);
      ChangeBits(c, s, x, t);
      SinceStep((j: nat) => Lights(ms, xs, q, j), (l: nat) => Sweeps(c, ms, xs, q, l) || Missing(ms, q, l), i - 1);
      if Has(s, q) {
        UsedSince(c, ms, xs, i - 1, q);
        assert UsedAfter(c, s, x, t, q);
      }
    }
  }

  /**
   In every run a page is modified exactly when bytes were copied into it, it was marked or it came with its
   process, and since then it has neither been brought back from swap nor evicted.
   */
  lemma {:induction false} ModifiedSince(c: Settings, ms: seq<Mem>, xs: seq<Change>, i: nat, q: Key)
    requires History(c, ms, xs) && i < |ms| && Has(ms[i], q)
    ensures PageOf(ms[i], q).modified <==>
            Since((j: nat) => Dirties(ms, xs, q, j), (l: nat) => Cleans(ms, xs, q, l) || Missing(ms, q, l), i)
  {
    hide Inv, Changed, Begun, Since;
    NoPages(c, ms[0]);
    if i > 0 {
      var s, x, t := ms[i - 1], xs[i - 1], ms[i];
      HistoryKeeps(c, ms, xs, i - 1);
      assert Changed(c, s, x, ms[(i - 1) + 1]);
      ChangeBits(c, s, x, t);
      OnlyPagesDirtied(c, s, x, t);
      SinceStep((j: nat) => Dirties(ms, xs, q, j), (l: nat) => Cleans(ms, xs, q, l) || Missing(ms, q, l), i - 1);
      if Has(s, q) {
        ModifiedSince(c, ms, xs, i - 1, q);
        assert ModifiedAfter(c, s, x, t, q);
      }
    }
  }

  lemma OnlyPagesDirtied(c: Settings, s: Mem, x: Change, t: Mem)
    requires Changed(c, s, x, t)
    ensures x.Copy? || x.Mark? ==> Has(s, x.k)
  {
  }

  /** Every reached state is the end of such a run. */
  lemma {:induction false} ReachedByHistory(c: Settings, s: Mem, trace: Trace, t: Mem)
      returns (ms: seq<Mem>, xs: seq<Change>)
    requires Supported(c) && Begun(c, s) && Leads(c, s, trace, t)
    ensures History(c, ms, xs) && ms[0] == s && ms[|ms| - 1] == t
  {
    hide Changed, Begun;
    match trace
    case Start => ms, xs := [s], [];
    case Then(before, x) =>
      var m :| Leads(c, s, before, m) && Changed(c, m, x, t);
      ms, xs := ReachedByHistory(c, s, before, m);
      var ns, ys := ms + [t], xs + [x];
      forall i | 0 <= i < |ys| ensures Changed(c, ns[i], ys[i], ns[i + 1]) {
        if i < |xs| { assert Changed(c, ms[i], xs[i], ms[i + 1]); }
      }
      ms, xs := ns, ys;
  }

  // ---- the page last accessed -----------------------------------------------------------------------

  /** Page `k` was present and no longer is. */
  predicate Gone(s: Mem, t: Mem, k: Key) {
    Has(s, k) && PageOf(s, k).present && !(Has(t, k) && PageOf(t, k).present)
  }

  /**
   Clock-M takes a second page: the unmodified one under the hand, after the only unused page, a modified one,
   in the frame just behind it.
   */
  ghost predicate SecondGoes(c: Settings, s: Mem, k: Key) {
    && InFrame(c, s, k) && PageOf(s, k).frame == s.hand && !PageOf(s, k).modified
    && exists l ::
         && InFrame(c, s, l) && PageOf(s, l).frame + 1 == s.hand && !PageOf(s, l).used && PageOf(s, l).modified
         && forall q :: InFrame(c, s, q) && q != l ==> PageOf(s, q).used
  }

  ghost predicate AllUsed(s: Mem) {
    forall q :: Has(s, q) && PageOf(s, q).present ==> PageOf(s, q).used
  }

  lemma ClockTakesUsed(c: Settings, s: Mem, t: Mem, k: Key)
    requires Inv(c, s) && ClockEvicted(c, s, t) && Gone(s, t, k) && PageOf(s, k).used
    ensures AllUsed(s) || SecondGoes(c, s, k)
  {
    hide Inv, BitsOf, FramesExclusive, Replaced, ClockEvicted, ClockM.Choose, SecondGoes, ClockM.TwoVictims;
    InvFrames(c, s);
    ClockFrees(c, s, t);
    GoneFrees(c, s, t, k);
    BitIs(c, s, PageOf(s, k).frame);
    VictimUsed(c, s, PageOf(s, k).frame);
    if ClockM.TwoVictims(BitsOf(c, s), s.hand) && PageOf(s, k).frame == s.hand {
      SecondIs(c, s, k);
    } else {
      forall q | Has(s, q) && PageOf(s, q).present ensures PageOf(s, q).used {
        PresentInRange(c, s, q);
        BitIs(c, s, PageOf(s, q).frame);
      }
    }
  }

  lemma SecondIs(c: Settings, s: Mem, k: Key)
    requires FramesExclusive(c, s) && Has(s, k) && PageOf(s, k).frame == s.hand
    requires ClockM.TwoVictims(BitsOf(c, s), s.hand)
    ensures SecondGoes(c, s, k)
  {
    hide BitsOf;
    BitIs(c, s, s.hand);
    BitIs(c, s, s.hand - 1);
    var l := OwnerOf(s, s.hand - 1);
    forall q | InFrame(c, s, q) && q != l ensures PageOf(s, q).used {
      BitIs(c, s, PageOf(s, q).frame);
      OwnerIs(c, s, q);
    }
  }

  /** If the victim is used then every page is. */
  lemma VictimUsed(c: Settings, s: Mem, f: nat)
    requires Turnable(c, s) && f < c.frameCount && BitsOf(c, s)[f].used
    requires f == VictimFrame(c, s) || (ClockM.Choose(BitsOf(c, s), s.hand).second && f == s.hand)
    ensures (ClockM.TwoVictims(BitsOf(c, s), s.hand) && f == s.hand)
            || forall g :: 0 <= g < c.frameCount ==> BitsOf(c, s)[g].used
  {
    hide BitsOf;
    ClockM.ChooseByClass(BitsOf(c, s), s.hand);
    ClockM.SecondVictim(BitsOf(c, s), s.hand);
  }

  lemma GoneFrees(c: Settings, s: Mem, t: Mem, k: Key)
    requires Inv(c, s) && Replaced(c, s, t) && Gone(s, t, k)
    ensures PageOf(s, k).frame < c.frameCount && !Owned(t, PageOf(s, k).frame)
  {
    if Owned(t, PageOf(s, k).frame) {
      var q := OwnerOf(t, PageOf(s, k).frame);
      assert Has(s, q) && SameFrame(PageOf(s, q), PageOf(t, q));
      assert SameFrame(PageOf(s, q), PageOf(s, k));
    }
  }

  /** The clock ran on a state with these pages and this hand, and what it took stays gone. */
  lemma ReplacementOf(c: Settings, s: Mem, x: Change, t: Mem, k: Key) returns (l: Mem, e: Mem)
    requires Inv(c, s) && Changed(c, s, x, t) && Replaces(c, s, x) && Gone(s, t, k)
    ensures l.tables == s.tables && l.hand == s.hand && Inv(c, l) && ClockEvicted(c, l, e) && Gone(l, e, k)
  {
    hide Inv, ClockEvicted, Touch, Remember, FreeFrame, Tlb.Used;
    if x.Vacate? {
      l, e := s, t;
    } else {
      l := Looked(c, s, x.k);
      LookedKeeps(c, s, x.k);
      e :| FaultedVia(c, l, x.k, e, t);
      var m := Load(c, e, x.k);
      forall q ensures Has(m, q) <==> Has(e, q) {}
      forall q | Has(e, q) && q != x.k ensures PageOf(m, q) == PageOf(e, q) {}
      TouchBits(c, m, x.k);
    }
  }

  lemma SamePages(c: Settings, s: Mem, l: Mem, k: Key)
    requires l.tables == s.tables && l.hand == s.hand && Has(s, k)
    ensures Has(l, k) && PageOf(l, k) == PageOf(s, k) && (AllUsed(l) <==> AllUsed(s))
    ensures SecondGoes(c, l, k) <==> SecondGoes(c, s, k)
  {
    forall q ensures (Has(l, q) <==> Has(s, q)) && InFrame(c, l, q) == InFrame(c, s, q) {}
    forall q | Has(s, q) ensures PageOf(l, q) == PageOf(s, q) {}
  }

  lemma ReplacementTakes(c: Settings, s: Mem, x: Change, t: Mem, k: Key)
    requires Inv(c, s) && Changed(c, s, x, t) && Replaces(c, s, x) && Gone(s, t, k) && PageOf(s, k).used
    ensures AllUsed(s) || SecondGoes(c, s, k)
  {
    hide Inv, Changed, AllUsed, SecondGoes, ClockEvicted;
    var l, e := ReplacementOf(c, s, x, t, k);
    SamePages(c, s, l, k);
    ClockTakesUsed(c, l, e, k);
  }

  /** A page stays used from its access on, until the clock runs. */
  lemma StaysUsed(c: Settings, ms: seq<Mem>, xs: seq<Change>, i: nat, j: nat, k: Key)
    requires History(c, ms, xs) && i < j < |xs| && xs[i] == Access(k)
    requires forall l :: i < l <= j ==> Has(ms[l], k)
    requires forall l :: i < l < j ==> !Replaces(c, ms[l], xs[l])
    ensures PageOf(ms[j], k).used
  {
    hide Changed, Passed, Begun, Replaces, Since;
    UsedSince(c, ms, xs, j, k);
    SinceBy((j: nat) => Lights(ms, xs, k, j), (l: nat) => Sweeps(c, ms, xs, k, l) || Missing(ms, k, l), i, j);
  }

  /**
   In every run Clock-M takes the page last accessed, or any page accessed since the clock last ran, only if
   every page in memory is used, except as the second page of a double replacement.
   */
  lemma AccessedGoesLast(c: Settings, ms: seq<Mem>, xs: seq<Change>, i: nat, j: nat, k: Key)
    requires History(c, ms, xs) && i < j < |xs| && xs[i] == Access(k)
    requires forall l :: i < l <= j ==> Has(ms[l], k)
    requires forall l :: i < l < j ==> !Replaces(c, ms[l], xs[l])
    requires Replaces(c, ms[j], xs[j]) && Gone(ms[j], ms[j + 1], k)
    ensures AllUsed(ms[j]) || SecondGoes(c, ms[j], k)
  {
    hide Inv, Changed, Begun, AllUsed, SecondGoes, Gone, Replaces;
    HistoryKeeps(c, ms, xs, j);
    StaysUsed(c, ms, xs, i, j, k);
    ReplacementTakes(c, ms[j], xs[j], ms[j + 1], k);
  }

  // ---- the page that leaves under LRU --------------------------------------------------------------------

  lemma LruTakesOldest(c: Settings, s: Mem, who: nat, t: Mem, k: Key, q: Key)
    requires Inv(c, s) && LruEvicted(c, s, who, t) && Gone(s, t, k) && Has(s, q) && PageOf(s, q).present && q != k
    ensures !Gone(s, t, q) && AccessedAfter(s.history, q, k)
  {
    hide Inv, Save, Settles, Fetch;
    var v :| IsLru(s, v) && t == Evict(c, s, v, who);
    EvictBits(c, s, v, who);
    assert k == v by {
      forall l | Has(s, l) && l != v ensures Has(t, l) && PageOf(t, l) == PageOf(s, l) {}
    }
    StampsHold(c, s);
    LruIsLeastRecent(s, v, q);
  }

  lemma StampsHold(c: Settings, s: Mem)
    requires Inv(c, s)
    ensures StampsAreHistory(s)
  {
  }

  /** Page `q` was accessed after page `k` last was. */
  ghost predicate AccessedAfter(history: seq<Key>, q: Key, k: Key) {
    exists i :: 0 <= i < |history| && history[i] == q && forall j :: i <= j < |history| ==> history[j] != k
  }

  predicate ReplacesLru(c: Settings, s: Mem, x: Change) {
    c.lru && (x.Vacate? || (x.Access? && Has(s, x.k) && !PageOf(s, x.k).present))
  }

  /** LRU ran on a state with these pages and this history, and what it took stays gone. */
  lemma LruReplacementOf(c: Settings, s: Mem, x: Change, t: Mem, k: Key) returns (who: nat, l: Mem, e: Mem)
    requires Inv(c, s) && Changed(c, s, x, t) && ReplacesLru(c, s, x) && Gone(s, t, k)
    ensures l.tables == s.tables && l.history == s.history && Inv(c, l) && LruEvicted(c, l, who, e) && Gone(l, e, k)
    ensures forall q :: Gone(s, t, q) ==> Gone(l, e, q)
  {
    hide Inv, LruEvicted, Touch, Remember, FreeFrame, Tlb.Used;
    if x.Vacate? {
      who, l, e := x.who, s, t;
    } else {
      who, l := x.k.pid, Looked(c, s, x.k);
      LookedKeeps(c, s, x.k);
      e :| FaultedVia(c, l, x.k, e, t);
      var m := Load(c, e, x.k);
      forall q ensures Has(m, q) <==> Has(e, q) {}
      forall q | Has(e, q) && q != x.k ensures PageOf(m, q) == PageOf(e, q) {}
      TouchBits(c, m, x.k);
    }
  }

  /** In every run a replacement under LRU takes one page only, and every other page in memory was accessed since. */
  lemma OldestGoes(c: Settings, ms: seq<Mem>, xs: seq<Change>, j: nat, k: Key, q: Key)
    requires History(c, ms, xs) && j < |xs| && ReplacesLru(c, ms[j], xs[j]) && Gone(ms[j], ms[j + 1], k)
    requires Has(ms[j], q) && PageOf(ms[j], q).present && q != k
    ensures !Gone(ms[j], ms[j + 1], q) && AccessedAfter(ms[j].history, q, k)
  {
    hide Inv, Changed, Begun, AccessedAfter, LruEvicted;
    HistoryKeeps(c, ms, xs, j);
    var who, l, e := LruReplacementOf(c, ms[j], xs[j], ms[j + 1], k);
    SamePage(ms[j], l, q);
    LruTakesOldest(c, l, who, e, k, q);
  }

  lemma SamePage(s: Mem, l: Mem, q: Key)
    requires l.tables == s.tables && Has(s, q)
    ensures Has(l, q) && PageOf(l, q) == PageOf(s, q)
  {
  }
}
