/**
 The sweeps of Clock-M on the page tables: what clearing one more use bit does, what the
 bits look like after a whole sweep, and how the sweeps combine into the replacement.
 */
module ClockSteps {
  import opened Outcomes
  import opened Paging
  import opened Replacement
  import ClockM

  /** As much of the invariant as the sweeps need. */
  ghost predicate Basic(c: Settings, s: Mem) {
    && Turnable(c, s) && FramesExclusive(c, s)
  }

  lemma InvIsBasic(c: Settings, s: Mem)
    requires Inv(c, s)
    ensures Basic(c, s) && s.hand <= c.frameCount && c.frameCount > 0
  {
  }

  lemma BasicCleared(c: Settings, s: Mem, m: Mem, q: nat)
    requires Basic(c, s) && UseCleared(c, s, m, q)
    ensures Basic(c, m)
  {
    forall k | Has(m, k) ensures Has(s, k) && PageOf(m, k) == PageOf(s, k).(used := PageOf(m, k).used) {
      assert Has(s, k);
    }
  }

  lemma BitOf(c: Settings, s: Mem, f: nat)
    requires f < c.frameCount && Owned(s, f)
    ensures BitsOf(c, s)[f] == ClockM.Bits(PageOf(s, OwnerOf(s, f)).used, PageOf(s, OwnerOf(s, f)).modified)
  {
  }

  /** The page of a frame is the same one while use bits are cleared. */
  lemma OwnerAfterClear(c: Settings, s: Mem, m: Mem, q: nat, f: nat)
    requires FramesExclusive(c, s) && s.hand <= c.frameCount && UseCleared(c, s, m, q)
    requires f < c.frameCount && Owned(s, f)
    ensures Owned(m, f) && OwnerOf(m, f) == OwnerOf(s, f)
    ensures PageOf(m, OwnerOf(s, f)) ==
            var p := PageOf(s, OwnerOf(s, f));
            p.(used := p.used && !(ClockM.PositionOf(c.frameCount, s.hand, f) < q))
  {
    var k := OwnerOf(s, f);
    assert Has(m, k);
    assert Owned(m, f);
    var l := OwnerOf(m, f);
    assert Has(s, l) && SameFrame(PageOf(s, k), PageOf(s, l));
  }

  lemma ClearOneMore(c: Settings, s: Mem, m: Mem, k: nat)
    requires FramesExclusive(c, s) && s.hand <= c.frameCount && k < c.frameCount && UseCleared(c, s, m, k)
    requires Owned(s, ClockM.At(c.frameCount, s.hand, k))
    ensures var o := OwnerOf(s, ClockM.At(c.frameCount, s.hand, k));
      Has(m, o) && UseCleared(c, s, SetPage(m, o, PageOf(m, o).(used := false)), k + 1)
  {
    var f := ClockM.At(c.frameCount, s.hand, k);
    var o := OwnerOf(s, f);
    OwnerAfterClear(c, s, m, k, f);
    var t := SetPage(m, o, PageOf(m, o).(used := false));
    forall l | Has(s, l)
      ensures PageOf(t, l) == PageOf(s, l).(used := PageOf(s, l).used && !(
        PageOf(s, l).frame < c.frameCount && ClockM.PositionOf(c.frameCount, s.hand, PageOf(s, l).frame) < k + 1))
    {
      if l != o {
        assert !SameFrame(PageOf(s, l), PageOf(s, o));
        if PageOf(s, l).frame < c.frameCount {
          var p := ClockM.PositionOf(c.frameCount, s.hand, PageOf(s, l).frame);
          assert p != k;
        }
      }
    }
  }

  /** With every frame owned, clearing the use bits of a whole sweep leaves the modified bits. */
  lemma BitsAfterSweep(c: Settings, s: Mem, m: Mem)
    requires FramesExclusive(c, s) && s.hand <= c.frameCount && UseCleared(c, s, m, c.frameCount) && AllOwned(c, s)
    ensures AllOwned(c, m)
    ensures forall f :: 0 <= f < c.frameCount ==> BitsOf(c, m)[f] == ClockM.Bits(false, BitsOf(c, s)[f].modified)
  {
    forall f | 0 <= f < c.frameCount
      ensures Owned(m, f) && BitsOf(c, m)[f] == ClockM.Bits(false, BitsOf(c, s)[f].modified)
    {
      OwnerAfterClear(c, s, m, c.frameCount, f);
      BitOf(c, s, f);
      BitOf(c, m, f);
    }
  }

  /** Searching the cleared bits for a clean page is searching the old ones for an unmodified page. */
  lemma FirstAfterSweep(b: seq<ClockM.Bits>, b': seq<ClockM.Bits>, hand: nat, k: nat)
    requires |b| == |b'| && hand <= |b| && k <= |b|
    requires forall f :: 0 <= f < |b| ==> b'[f] == ClockM.Bits(false, b[f].modified)
    ensures ClockM.First(b', hand, k, true, true) == ClockM.First(b, hand, k, false, true)
    ensures k < |b| ==> ClockM.First(b', hand, k, true, false) == k
    decreases |b| - k
  {
  }

  lemma UseClearedNone(c: Settings, s: Mem)
    requires s.hand <= c.frameCount
    ensures UseCleared(c, s, s, 0)
  {
  }

  lemma UseClearedTwice(c: Settings, s: Mem, m: Mem, t: Mem)
    requires s.hand <= c.frameCount && UseCleared(c, s, m, c.frameCount) && UseCleared(c, m, t, 0)
    ensures UseCleared(c, s, t, c.frameCount)
  {
    forall k | Has(s, k) ensures PageOf(t, k) == PageOf(m, k) {
      assert Has(m, k);
    }
  }

  /** The hand plays no part in an eviction. */
  lemma EvictFrameHand(c: Settings, m: Mem, f: nat, h: nat)
    requires FramesExclusive(c, m) && Owned(m, f) && f < c.frameCount
    ensures Owned(m.(hand := h), f)
    ensures EvictFrame(c, m.(hand := h), f) == EvictFrame(c, m, f).(hand := h)
  {
    var n := m.(hand := h);
    var k := OwnerOf(m, f);
    assert Has(n, k);
    assert Owned(n, f);
    var l := OwnerOf(n, f);
    assert Has(m, l) && SameFrame(PageOf(m, k), PageOf(m, l));
  }

  /** The page of a frame, and its bits, do not depend on the hand. */
  lemma OwnerMoved(c: Settings, m: Mem, f: nat, h: nat)
    requires FramesExclusive(c, m) && Owned(m, f) && f < c.frameCount
    ensures Owned(m.(hand := h), f) && OwnerOf(m.(hand := h), f) == OwnerOf(m, f)
    ensures BitsOf(c, m.(hand := h))[f] == BitsOf(c, m)[f]
  {
    var n := m.(hand := h);
    assert Has(n, OwnerOf(m, f));
    assert Owned(n, f);
    assert Has(m, OwnerOf(n, f)) && SameFrame(PageOf(m, OwnerOf(m, f)), PageOf(m, OwnerOf(n, f)));
    BitOf(c, m, f);
    BitOf(c, n, f);
  }

  /** The victim's page gone and the hand just past its frame. */
  ghost function VictimGone(c: Settings, m: Mem, v: nat): Mem
    requires Owned(m, v)
  {
    EvictFrame(c, m, v).(hand := v + 1)
  }

  /** Every position of the cyclic order was met, so every frame was. */
  lemma AllMet(c: Settings, s: Mem)
    requires s.hand <= c.frameCount
    requires forall i :: 0 <= i < c.frameCount ==> Owned(s, ClockM.At(c.frameCount, s.hand, i))
    ensures AllOwned(c, s)
  {
    forall f | 0 <= f < c.frameCount ensures Owned(s, f) {
      assert ClockM.At(c.frameCount, s.hand, ClockM.PositionOf(c.frameCount, s.hand, f)) == f;
    }
  }

  // ---- one look at the frame under the hand ---------------------------------------------------------

  /** The body of the first loop takes `s` to `t`; `r` tells whether a page went. */
  ghost predicate CleanLook(c: Settings, s: Mem, r: Outcome<bool>, t: Mem)
    requires Basic(c, s)
  {
    var h := s.hand;
    if h >= c.frameCount then r == Done(false) && t == s.(hand := 0)
    else if !Owned(s, h) then r.Stuck? && t == s
    else r == Done(ClockM.Wanted(BitsOf(c, s)[h], true, true))
         && t == if r.value then VictimGone(c, s, h) else s.(hand := h + 1)
  }

  /** The body of the second loop. */
  ghost predicate UseLook(c: Settings, s: Mem, r: Outcome<bool>, t: Mem)
    requires Basic(c, s)
  {
    var h := s.hand;
    if h >= c.frameCount then r == Done(false) && t == s.(hand := 0)
    else if !Owned(s, h) then r.Stuck? && t == s
    else
      && r == Done(ClockM.Wanted(BitsOf(c, s)[h], true, false))
      && t == if r.value then VictimGone(c, s, h)
              else SetPage(s, OwnerOf(s, h), PageOf(s, OwnerOf(s, h)).(used := false)).(hand := h + 1)
  }

  lemma BitOfOwner(c: Settings, s: Mem, k: Key)
    requires Basic(c, s) && Has(s, k) && PageOf(s, k).frame < c.frameCount
    ensures var f := PageOf(s, k).frame;
      Owned(s, f) && OwnerOf(s, f) == k && BitsOf(c, s)[f] == ClockM.Bits(PageOf(s, k).used, PageOf(s, k).modified)
    ensures PageOf(s, k).present
  {
    OwnerIs(c, s, k);
    BitOf(c, s, PageOf(s, k).frame);
  }

  // ---- whole sweeps ---------------------------------------------------------------------------------

  /** Where the hand is after `k` frames of a sweep from `start`. */
  predicate Cursor(n: nat, start: nat, hand: nat, k: nat, first: bool) {
    && k <= n && hand <= n && start <= n && (hand == start + k || hand + n == start + k)
    && if first then k == 0 && hand == start else hand == start ==> k == n
  }

  /** The first `k` frames met have owners and hold no clean page. */
  ghost predicate PassedClean(c: Settings, s: Mem, k: nat)
    requires s.hand <= c.frameCount && k <= c.frameCount
  {
    forall i :: 0 <= i < k ==>
      var f := ClockM.At(c.frameCount, s.hand, i);
      Owned(s, f) && !ClockM.Wanted(BitsOf(c, s)[f], true, true)
  }

  ghost predicate MeetsHoleBefore(c: Settings, s: Mem, q: nat)
    requires s.hand <= c.frameCount
  {
    exists k :: 0 <= k < c.frameCount && k < q && !Owned(s, ClockM.At(c.frameCount, s.hand, k))
  }

  /** What the first loop does. */
  ghost predicate CleanSwept(c: Settings, s: Mem, r: Outcome<bool>, t: Mem)
    requires Basic(c, s)
  {
    var n := c.frameCount;
    var q := ClockM.First(BitsOf(c, s), s.hand, 0, true, true);
    && (r.Stuck? <==> MeetsHoleBefore(c, s, q))
    && (if r.Stuck? then t == s.(hand := t.hand) && t.hand <= n
        else if r.value then q < n && Owned(s, ClockM.At(n, s.hand, q))
                             && t == VictimGone(c, s, ClockM.At(n, s.hand, q))
        else q == n && AllOwned(c, s) && t == s)
  }

  lemma FirstIs(b: seq<ClockM.Bits>, hand: nat, k: nat, unused: bool, unmodified: bool)
    requires hand <= |b| && k <= |b|
    requires forall i :: 0 <= i < k ==> !ClockM.Wanted(b[ClockM.At(|b|, hand, i)], unused, unmodified)
    requires k < |b| ==> ClockM.Wanted(b[ClockM.At(|b|, hand, k)], unused, unmodified)
    ensures ClockM.First(b, hand, 0, unused, unmodified) == k
  {
  }

  lemma PassedNone(c: Settings, s: Mem)
    requires s.hand <= c.frameCount
    ensures PassedClean(c, s, 0) && PassedUsed(c, s, s, 0)
  {
    UseClearedNone(c, s);
  }

  lemma CleanLookMoved(c: Settings, s: Mem, hand: nat, k: nat, r: Outcome<bool>, t: Mem)
    requires Basic(c, s) && hand <= c.frameCount && Basic(c, s.(hand := hand)) && CleanLook(c, s.(hand := hand), r, t)
    requires k <= c.frameCount && PassedClean(c, s, k)
    requires hand < c.frameCount ==> k < c.frameCount && ClockM.At(c.frameCount, s.hand, k) == hand
    ensures r.Stuck? || r.value ==> CleanSwept(c, s, r, t)
    ensures r == Done(false) ==> t == s.(hand := t.hand)
    ensures r == Done(false) ==>
      if hand < c.frameCount then t.hand == hand + 1 && PassedClean(c, s, k + 1) else t.hand == 0
  {
    if hand < c.frameCount {
      OwnedMoved(c, s, hand, hand);
      if Owned(s, hand) {
        OwnerMoved(c, s, hand, hand);
        EvictFrameHand(c, s, hand, hand);
        if r.value { FirstIs(BitsOf(c, s), s.hand, k, true, true); }
      } else {
        HoleMet(c, s, k);
      }
    }
  }

  lemma OwnedMoved(c: Settings, s: Mem, f: nat, h: nat)
    ensures Owned(s.(hand := h), f) <==> Owned(s, f)
  {
    var n := s.(hand := h);
    if Owned(s, f) { assert Has(n, OwnerOf(s, f)); }
    if Owned(n, f) { assert Has(s, OwnerOf(n, f)); }
  }

  lemma HoleMet(c: Settings, s: Mem, k: nat)
    requires s.hand <= c.frameCount && k < c.frameCount && PassedClean(c, s, k)
    requires !Owned(s, ClockM.At(c.frameCount, s.hand, k))
    ensures MeetsHoleBefore(c, s, ClockM.First(BitsOf(c, s), s.hand, 0, true, true))
  {
    var b := BitsOf(c, s);
    var q := ClockM.First(b, s.hand, 0, true, true);
    assert b[ClockM.At(c.frameCount, s.hand, k)] == ClockM.Bits(true, true);
    assert k < q;
  }

  lemma CleanSweptInVain(c: Settings, s: Mem, k: nat)
    requires Basic(c, s) && k == c.frameCount && PassedClean(c, s, k)
    ensures CleanSwept(c, s, Done(false), s)
  {
    FirstIs(BitsOf(c, s), s.hand, k, true, true);
    AllMet(c, s);
  }

  /** The first `k` frames met held used pages, whose use bits are now clear. */
  ghost predicate PassedUsed(c: Settings, s: Mem, m: Mem, k: nat)
    requires s.hand <= c.frameCount && k <= c.frameCount
  {
    && UseCleared(c, s, m, k)
    && forall i :: 0 <= i < k ==> !ClockM.Wanted(BitsOf(c, s)[ClockM.At(c.frameCount, s.hand, i)], true, false)
  }

  /** What the second loop does; `m` is the state when the victim goes. */
  ghost predicate UseSwept(c: Settings, s: Mem, found: bool, m: Mem, t: Mem)
    requires Basic(c, s)
  {
    var n := c.frameCount;
    var q := ClockM.First(BitsOf(c, s), s.hand, 0, true, false);
    && UseCleared(c, s, m, q) && (found <==> q < n)
    && (if found then Owned(m, ClockM.At(n, s.hand, q)) && t == VictimGone(c, m, ClockM.At(n, s.hand, q)) else t == m)
  }

  ghost function NextCleared(c: Settings, s: Mem, m: Mem, k: nat): Mem
    requires s.hand <= c.frameCount && k < c.frameCount && Owned(m, ClockM.At(c.frameCount, s.hand, k))
  {
    var o := OwnerOf(m, ClockM.At(c.frameCount, s.hand, k));
    SetPage(m, o, PageOf(m, o).(used := false))
  }

  /** The same look, the hand set aside. */
  lemma UseLookAt(c: Settings, m: Mem, hand: nat, r: Outcome<bool>, t: Mem)
    requires Basic(c, m) && hand < c.frameCount && Owned(m, hand)
    requires Basic(c, m.(hand := hand)) && UseLook(c, m.(hand := hand), r, t)
    ensures r == Done(ClockM.Wanted(BitsOf(c, m)[hand], true, false))
    ensures t == if r.value then VictimGone(c, m, hand)
                 else SetPage(m, OwnerOf(m, hand), PageOf(m, OwnerOf(m, hand)).(used := false)).(hand := hand + 1)
  {
    OwnerMoved(c, m, hand, hand);
    EvictFrameHand(c, m, hand, hand);
  }

  lemma UseLookMoved(c: Settings, s: Mem, m: Mem, hand: nat, k: nat, r: Outcome<bool>, t: Mem)
    requires Basic(c, s) && Basic(c, m) && AllOwned(c, s) && hand <= c.frameCount
    requires Basic(c, m.(hand := hand)) && UseLook(c, m.(hand := hand), r, t)
    requires k <= c.frameCount && PassedUsed(c, s, m, k)
    requires hand < c.frameCount ==> k < c.frameCount && ClockM.At(c.frameCount, s.hand, k) == hand
    ensures r.Done?
    ensures r.value ==> UseSwept(c, s, true, m, t)
    ensures !r.value && hand < c.frameCount ==>
      && Owned(m, hand) && t == NextCleared(c, s, m, k).(hand := hand + 1)
      && PassedUsed(c, s, NextCleared(c, s, m, k), k + 1)
    ensures !r.value && hand >= c.frameCount ==> t == m.(hand := 0)
  {
    if hand < c.frameCount {
      OwnerAfterClear(c, s, m, k, hand);
      BitOf(c, s, hand);
      BitOf(c, m, hand);
      UseLookAt(c, m, hand, r, t);
      if r.value {
        FirstIs(BitsOf(c, s), s.hand, k, true, false);
      } else {
        ClearOneMore(c, s, m, k);
      }
    }
  }

  lemma UseSweptInVain(c: Settings, s: Mem, m: Mem, k: nat)
    requires Basic(c, s) && k == c.frameCount && PassedUsed(c, s, m, k)
    ensures UseSwept(c, s, false, m, m)
  {
    FirstIs(BitsOf(c, s), s.hand, k, true, false);
  }

  // ---- the whole replacement --------------------------------------------------------------------------

  /** The first victim has gone: `m` is the state when it was chosen. */
  ghost predicate FirstVictim(c: Settings, s: Mem, m: Mem, t: Mem)
    requires Basic(c, s)
  {
    && UseCleared(c, s, m, ClockM.ClearedBelow(BitsOf(c, s), s.hand))
    && Owned(m, VictimFrame(c, s)) && t == VictimGone(c, m, VictimFrame(c, s))
    && !MeetsFreeFrame(c, s)
  }

  /** After a first round in vain every frame is owned, every page was used, and no use bit is left. */
  ghost predicate AllCleared(c: Settings, s: Mem, m: Mem)
    requires Basic(c, s)
  {
    AllOwned(c, s) && UseCleared(c, s, m, c.frameCount) && ClockM.Choose(BitsOf(c, s), s.hand).sweep >= 3
  }

  lemma VictimInFirstSweep(c: Settings, s: Mem, t: Mem)
    requires Basic(c, s) && CleanSwept(c, s, Done(true), t)
    ensures FirstVictim(c, s, s, t)
  {
    UseClearedNone(c, s);
  }

  lemma StuckMeetsFreeFrame(c: Settings, s: Mem, t: Mem)
    requires Basic(c, s) && CleanSwept(c, s, Stuck, t)
    ensures MeetsFreeFrame(c, s) && t == s.(hand := t.hand) && t.hand <= c.frameCount
  {
    var q := ClockM.First(BitsOf(c, s), s.hand, 0, true, true);
    var k :| 0 <= k < c.frameCount && k < q && !Owned(s, ClockM.At(c.frameCount, s.hand, k));
  }

  lemma VictimInSecondSweep(c: Settings, s: Mem, found: bool, m: Mem, t: Mem)
    requires Basic(c, s) && CleanSwept(c, s, Done(false), s) && UseSwept(c, s, found, m, t)
    ensures if found then FirstVictim(c, s, m, t) else AllCleared(c, s, t)
  {
  }

  lemma AllClearedBits(c: Settings, s: Mem, m: Mem)
    requires Basic(c, s) && AllCleared(c, s, m)
    ensures Basic(c, m) && m.hand == s.hand && AllOwned(c, m)
    ensures ClockM.First(BitsOf(c, m), m.hand, 0, true, true) == ClockM.First(BitsOf(c, s), s.hand, 0, false, true)
    ensures ClockM.First(BitsOf(c, m), m.hand, 0, true, false) == 0
  {
    BasicCleared(c, s, m, c.frameCount);
    BitsAfterSweep(c, s, m);
    FirstAfterSweep(BitsOf(c, s), BitsOf(c, m), s.hand, 0);
  }

  /** A first round in vain has cleared some use bit. */
  lemma AllClearedDiffers(c: Settings, s: Mem, m: Mem)
    requires Basic(c, s) && AllCleared(c, s, m)
    ensures m != s
  {
    ClockM.ChooseByClass(BitsOf(c, s), s.hand);
    BitOf(c, s, 0);
    OwnerAfterClear(c, s, m, c.frameCount, 0);
  }

  lemma VictimInThirdSweep(c: Settings, s: Mem, m: Mem, r: Outcome<bool>, t: Mem)
    requires Basic(c, s) && AllCleared(c, s, m) && Basic(c, m) && CleanSwept(c, m, r, t)
    ensures r.Done? && (r.value ==> FirstVictim(c, s, m, t))
  {
    AllClearedBits(c, s, m);
  }

  lemma FourthSweepFinds(c: Settings, s: Mem, m: Mem, found: bool, m': Mem, t: Mem)
    requires Basic(c, s) && AllCleared(c, s, m) && Basic(c, m)
    requires CleanSwept(c, m, Done(false), m) && UseSwept(c, m, found, m', t)
    ensures found && UseCleared(c, m, m', 0) && ClockM.Choose(BitsOf(c, s), s.hand) == ClockM.Choice(0, 4, false)
    ensures Owned(m', VictimFrame(c, s)) && t == VictimGone(c, m', VictimFrame(c, s))
  {
    AllClearedBits(c, s, m);
  }

  lemma VictimInFourthSweep(c: Settings, s: Mem, m: Mem, found: bool, m': Mem, t: Mem)
    requires Basic(c, s) && AllCleared(c, s, m) && Basic(c, m)
    requires CleanSwept(c, m, Done(false), m) && UseSwept(c, m, found, m', t)
    ensures found && FirstVictim(c, s, m', t)
  {
    hide UseSwept, CleanSwept, UseCleared, VictimGone, VictimFrame, BitsOf, MeetsFreeFrame;
    FourthSweepFinds(c, s, m, found, m', t);
    UseClearedTwice(c, s, m, m');
    NoneFree(c, s);
  }

  lemma NoneFree(c: Settings, s: Mem)
    requires Basic(c, s) && AllOwned(c, s)
    ensures !MeetsFreeFrame(c, s)
  {
  }

  /** The hand has moved on from where it began: nothing more is looked at. */
  lemma DoneAfterFirst(c: Settings, s: Mem, m: Mem, t: Mem)
    requires Basic(c, s) && FirstVictim(c, s, m, t) && t.hand != s.hand
    ensures ClockEvicted(c, s, t) && !MeetsFreeFrame(c, s)
  {
    var b := BitsOf(c, s);
    SecondNeedsHand(b, s.hand);
    assert ClockVictimsEvicted(c, m, VictimFrame(c, s), false, t, ClockM.HandAfter(b, s.hand));
  }

  lemma SecondNeedsHand(b: seq<ClockM.Bits>, hand: nat)
    requires b != [] && hand <= |b|
    ensures ClockM.Choose(b, hand).second ==> ClockM.At(|b|, hand, ClockM.Choose(b, hand).position) + 1 == hand
  {
  }

  lemma ClearedHand(c: Settings, s: Mem, m: Mem, q: nat)
    requires UseCleared(c, s, m, q)
    ensures m.hand == s.hand
  {
  }

  lemma EvictFrameMoves(c: Settings, m: Mem, f: nat)
    requires Owned(m, f)
    ensures EvictFrame(c, m, f).hand == m.hand && EvictFrame(c, m, f).doubles == m.doubles
  {
  }

  /** The look at the frame where the hand began, after the victim just behind it has gone. */
  lemma HeadLook(c: Settings, s: Mem, m: Mem, t: Mem, r: Outcome<bool>, v: Mem)
    requires Basic(c, s) && FirstVictim(c, s, m, t) && t.hand == s.hand
    requires Basic(c, t) && CleanLook(c, t, r, v)
    ensures VictimFrame(c, s) + 1 == s.hand
    ensures r == Done(ClockM.Choose(BitsOf(c, s), s.hand).second)
    ensures r.value ==> s.hand < c.frameCount && Owned(t, s.hand)
    ensures v == if r.value then VictimGone(c, t, s.hand)
                 else t.(hand := if s.hand < c.frameCount then s.hand + 1 else 0)
  {
    var b, h := BitsOf(c, s), s.hand;
    BasicCleared(c, s, m, ClockM.ClearedBelow(b, h));
    SecondNeedsHand(b, h);
    if h < c.frameCount {
      HeadStillOwned(c, s, m, t);
      HeadBit(c, s, m, t);
    }
  }

  /** The victim was just behind where the hand began: the frame where it began is looked at once more. */
  lemma LookedAgain(c: Settings, s: Mem, m: Mem, t: Mem, r: Outcome<bool>, v: Mem)
    requires Basic(c, s) && FirstVictim(c, s, m, t) && t.hand == s.hand
    requires Basic(c, t) && CleanLook(c, t, r, v)
    ensures r.Done? && v.hand != s.hand && !MeetsFreeFrame(c, s)
    ensures ClockEvicted(c, s, if r.value then v.(doubles := v.doubles + 1) else v)
  {
    hide CleanLook, UseCleared, BitsOf, MeetsFreeFrame, FramesExclusive, Owned, EvictFrame, OwnerOf;
    HeadLook(c, s, m, t, r, v);
    ClearedHand(c, s, m, ClockM.ClearedBelow(BitsOf(c, s), s.hand));
    var u := if r.value then v.(doubles := v.doubles + 1) else v;
    var f := VictimFrame(c, s);
    EvictFrameMoves(c, m, f);
    assert t == EvictFrame(c, m, f);
    if r.value { EvictFrameMoves(c, t, s.hand); }
    assert ClockVictimsEvicted(c, m, f, r.value, u, ClockM.HandAfter(BitsOf(c, s), s.hand));
  }

  /** The frame just behind the hand comes last in cyclic order. */
  lemma LastPosition(b: seq<ClockM.Bits>, hand: nat)
    requires b != [] && hand < |b| && ClockM.At(|b|, hand, ClockM.Choose(b, hand).position) + 1 == hand
    ensures ClockM.Choose(b, hand).position == |b| - 1 && |b| > 1 && ClockM.At(|b|, hand, 0) == hand
    ensures ClockM.Choose(b, hand).sweep != 4
  {
  }

  lemma HeadStillOwned(c: Settings, s: Mem, m: Mem, t: Mem)
    requires Basic(c, s) && Basic(c, m) && FirstVictim(c, s, m, t) && s.hand < c.frameCount
    requires VictimFrame(c, s) + 1 == s.hand
    ensures Owned(s, s.hand) && Owned(m, s.hand) && Owned(t, s.hand) && OwnerOf(t, s.hand) == OwnerOf(s, s.hand)
    ensures PageOf(t, OwnerOf(s, s.hand)) == PageOf(m, OwnerOf(s, s.hand))
  {
    var b, h := BitsOf(c, s), s.hand;
    LastPosition(b, h);
    assert Owned(s, ClockM.At(c.frameCount, h, 0));
    OwnerAfterClear(c, s, m, ClockM.ClearedBelow(b, h), h);
    var o := OwnerOf(s, h);
    var v := VictimFrame(c, s);
    assert o != OwnerOf(m, v);
    assert Has(t, o) && PageOf(t, o) == PageOf(m, o);
    assert Owned(t, h);
    var l := OwnerOf(t, h);
    assert Has(m, l) && l != OwnerOf(m, v);
    assert SameFrame(PageOf(m, l), PageOf(m, o));
  }

  lemma HeadBit(c: Settings, s: Mem, m: Mem, t: Mem)
    requires Basic(c, s) && Basic(c, m) && FirstVictim(c, s, m, t) && s.hand < c.frameCount
    requires VictimFrame(c, s) + 1 == s.hand
    ensures ClockM.Wanted(BitsOf(c, t)[s.hand], true, true) <==> ClockM.Choose(BitsOf(c, s), s.hand).second
  {
    hide UseCleared, VictimGone, BitsOf, MeetsFreeFrame;
    var b, h := BitsOf(c, s), s.hand;
    HeadStillOwned(c, s, m, t);
    LastPosition(b, h);
    OwnerAfterClear(c, s, m, ClockM.ClearedBelow(b, h), h);
    BitOf(c, s, h);
    BitOf(c, t, h);
    HeadChoice(b, h);
  }

  /** When the victim is just behind the hand, the frame under the hand goes too if it is not modified. */
  lemma HeadChoice(b: seq<ClockM.Bits>, hand: nat)
    requires b != [] && hand < |b| && ClockM.At(|b|, hand, ClockM.Choose(b, hand).position) + 1 == hand
    ensures ClockM.PositionOf(|b|, hand, hand) == 0 && ClockM.Choose(b, hand).position == |b| - 1 > 0
    ensures ClockM.Choose(b, hand).second <==> ClockM.Choose(b, hand).sweep == 2 && !b[hand].modified
    ensures ClockM.Choose(b, hand).sweep == 1 ==> !ClockM.Wanted(b[hand], true, true)
    ensures ClockM.Choose(b, hand).sweep == 3 ==> b[hand].modified
    ensures ClockM.ClearedBelow(b, hand) == if ClockM.Choose(b, hand).sweep == 1 then 0
                                            else if ClockM.Choose(b, hand).sweep == 2 then |b| - 1 else |b|
  {
    LastPosition(b, hand);
    assert ClockM.At(|b|, hand, 0) == hand;
  }
}
