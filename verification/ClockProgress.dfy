/**
 Progress under Clock-M: while every frame is owned a page access always succeeds, and it leaves
 every frame owned unless replacement takes a second page. So no request that meets no such
 replacement is ever stuck.
 */
module ClockProgress {
  import opened Paging
  import opened Replacement
  import opened ClockSteps
  import ClockM

  lemma LookedOwns(c: Settings, s: Mem, k: Key)
    ensures forall q :: Has(Looked(c, s, k), q) <==> Has(s, q)
    ensures forall q :: Has(s, q) ==> PageOf(Looked(c, s, k), q) == PageOf(s, q)
    ensures AllOwned(c, Looked(c, s, k)) <==> AllOwned(c, s)
  {
    forall f ensures Owned(Looked(c, s, k), f) <==> Owned(s, f) {
      forall q ensures Has(Looked(c, s, k), q) <==> Has(s, q) {}
      if q :| Has(s, q) && PageOf(s, q).frame == f { assert Has(Looked(c, s, k), q); }
      if q :| Has(Looked(c, s, k), q) && PageOf(Looked(c, s, k), q).frame == f { assert Has(s, q); }
    }
  }

  /** With every frame owned no access is stuck: getFrameDeUn always has a victim. */
  lemma ClockServes(c: Settings, s: Mem, k: Key)
    requires Inv(c, s) && !c.lru && AllOwned(c, s) && Has(s, k)
    ensures CanEvict(c, Looked(c, s, k))
  {
    hide Inv, AllOwned, MeetsFreeFrame, Looked;
    LookedOwns(c, s, k);
    LookedKeeps(c, s, k);
    InvIsBasic(c, Looked(c, s, k));
    NoneFree(c, Looked(c, s, k));
    StructureTurns(c, Looked(c, s, k));
  }

  lemma StructureTurns(c: Settings, s: Mem)
    requires Inv(c, s)
    ensures Turnable(c, s)
  {
  }

  /** The page loaded takes the first frame without owner; stamping and remembering take none. */
  lemma LoadedOwns(c: Settings, e: Mem, k: Key)
    requires Inv(c, e) && Has(e, k) && !PageOf(e, k).present && FreeFrame(c, e, 0) < c.frameCount
    ensures Has(Load(c, e, k), k)
    ensures var t := Remember(c, Touch(Load(c, e, k), k), k);
      forall f :: 0 <= f < c.frameCount ==> (Owned(t, f) <==> Owned(e, f) || f == FreeFrame(c, e, 0))
  {
    hide TlbAgrees, StampsAreHistory, Numbered;
    var m, g := Load(c, e, k), FreeFrame(c, e, 0);
    var t := Remember(c, Touch(m, k), k);
    forall q ensures Has(t, q) <==> Has(e, q) {}
    forall q | Has(e, q) ensures PageOf(t, q).frame == if q == k then g else PageOf(e, q).frame {}
    AloneInFrame(c, e, k);
    forall f | 0 <= f < c.frameCount ensures Owned(t, f) <==> Owned(e, f) || f == g {
      if q :| Has(e, q) && PageOf(e, q).frame == f { assert Has(t, q) && PageOf(t, q).frame == f; }
      if f == g { assert Has(t, k); }
    }
  }

  /**
   An access with every frame owned leaves every frame owned exactly when the page was present or
   replacement took one page only.
   */
  lemma AccessOwns(c: Settings, s: Mem, k: Key, t: Mem)
    requires Inv(c, s) && !c.lru && AllOwned(c, s) && Has(s, k) && Accessed(c, s, k, t)
    ensures 0 < |BitsOf(c, Looked(c, s, k))| && Looked(c, s, k).hand <= |BitsOf(c, Looked(c, s, k))|
    ensures AllOwned(c, t) <==>
      PageOf(s, k).present || !ClockM.TwoVictims(BitsOf(c, Looked(c, s, k)), Looked(c, s, k).hand)
  {
    hide Inv, ClockEvicted, BitsOf, FreeFrame;
    var l := Looked(c, s, k);
    LookedOwns(c, s, k);
    LookedKeeps(c, s, k);
    StructureTurns(c, l);
    if PageOf(s, k).present {
      HitOwns(c, l, k);
    } else {
      var e :| FaultedVia(c, l, k, e, t);
      EvictedKeeps(c, l, k.pid, e);
      ClockFreesOneOrTwo(c, l, e);
      LoadedOwns(c, e, k);
      OneFreeFrame(c, e, t);
    }
  }

  lemma HitOwns(c: Settings, s: Mem, k: Key)
    requires Has(s, k)
    ensures AllOwned(c, Remember(c, Touch(s, k), k)) <==> AllOwned(c, s)
  {
    var t := Remember(c, Touch(s, k), k);
    forall q ensures Has(t, q) <==> Has(s, q) {}
    forall q | Has(s, q) ensures PageOf(t, q).frame == PageOf(s, q).frame {}
    forall f ensures Owned(t, f) <==> Owned(s, f) {
      if q :| Has(s, q) && PageOf(s, q).frame == f { assert Has(t, q); }
    }
  }

  lemma OneFreeFrame(c: Settings, e: Mem, t: Mem)
    requires FreeFrame(c, e, 0) < c.frameCount && |FreeFrames(c, e)| in {1, 2}
    requires forall f :: 0 <= f < c.frameCount ==> (Owned(t, f) <==> Owned(e, f) || f == FreeFrame(c, e, 0))
    ensures AllOwned(c, t) <==> |FreeFrames(c, e)| == 1
  {
    var g := FreeFrame(c, e, 0);
    var rest := FreeFrames(c, e) - {g};
    assert FreeFrames(c, e) == rest + {g};
    if AllOwned(c, t) {
      forall f | f in FreeFrames(c, e) ensures f == g {
        assert Owned(t, f) <==> Owned(e, f) || f == g;
      }
      assert rest == {};
    } else {
      var f :| 0 <= f < c.frameCount && !Owned(t, f);
      assert Owned(t, f) <==> Owned(e, f) || f == g;
      assert f in FreeFrames(c, e) && f != g;
      assert f in rest;
    }
  }

  // ---- whole requests ---------------------------------------------------------------------------

  /** Unless a replacement in between took two pages, frames that all had owners still do. */
  ghost predicate StaysOwned(c: Settings, s: Mem, t: Mem) {
    AllOwned(c, s) && t.doubles == s.doubles ==> AllOwned(c, t)
  }

  lemma StaysTwice(c: Settings, s: Mem, m: Mem, t: Mem)
    requires StaysOwned(c, s, m) && StaysOwned(c, m, t) && Later(s, m) && Later(m, t)
    ensures StaysOwned(c, s, t)
  {
  }

  /** The pages of `s` are still there with their frames. */
  lemma StaysWithPages(c: Settings, s: Mem, t: Mem)
    requires forall q :: Has(s, q) ==> Has(t, q) && PageOf(t, q).frame == PageOf(s, q).frame
    ensures StaysOwned(c, s, t)
  {
    if AllOwned(c, s) {
      forall f | 0 <= f < c.frameCount ensures Owned(t, f) {
        assert Owned(s, f);
        var q :| Has(s, q) && PageOf(s, q).frame == f;
        assert Has(t, q);
      }
    }
  }

  /** With every frame owned, a replacement that takes one page leaves one frame free. */
  lemma EvictedOwns(c: Settings, s: Mem, who: nat, t: Mem)
    requires Inv(c, s) && AllOwned(c, s) && Evicted(c, s, who, t) && t.doubles == s.doubles
    ensures |FreeFrames(c, t)| == 1
  {
    if c.lru {
      var v :| IsLru(s, v) && t == Evict(c, s, v, who);
      LruOwns(c, s, v, who);
    } else {
      ClockFreesOneOrTwo(c, s, t);
    }
  }

  lemma LruOwns(c: Settings, s: Mem, v: Key, who: nat)
    requires Inv(c, s) && AllOwned(c, s) && c.lru && IsLru(s, v)
    ensures |FreeFrames(c, Evict(c, s, v, who))| == 1
  {
    hide Inv, Evict, Owned, Replaced;
    var f := PageOf(s, v).frame;
    VictimInRange(c, s, v);
    EvictReplaces(c, s, v, who);
    assert FreeFrames(c, Evict(c, s, v, who)) == {f};
  }

  lemma VictimInRange(c: Settings, s: Mem, v: Key)
    requires Inv(c, s) && Has(s, v) && PageOf(s, v).present
    ensures PageOf(s, v).frame < c.frameCount && (c.lru ==> c.tlbMax == 0)
  {
  }

  /** So does an access, under either algorithm. */
  lemma AccessStays(c: Settings, s: Mem, k: Key, t: Mem)
    requires Inv(c, s) && Has(s, k) && Accessed(c, s, k, t)
    ensures StaysOwned(c, s, t)
  {
    hide Inv, Evicted, FreeFrame, Remember, Load, Touch, AllOwned;
    var l := Looked(c, s, k);
    LookedOwns(c, s, k);
    LookedKeeps(c, s, k);
    if PageOf(s, k).present {
      HitOwns(c, l, k);
    } else if AllOwned(c, s) && t.doubles == s.doubles {
      var e :| FaultedVia(c, l, k, e, t);
      EvictedKeeps(c, l, k.pid, e);
      LoadedOwns(c, e, k);
      LandedDoubles(c, e, k);
      EvictedOwns(c, l, k.pid, e);
      OneFreeFrame(c, e, t);
    }
  }

  lemma LandedDoubles(c: Settings, e: Mem, k: Key)
    requires Has(e, k)
    ensures Remember(c, Touch(Load(c, e, k), k), k).doubles == e.doubles
  {
  }
}
