/** What the memory process leaves in swap, and what it makes of swap turning a page down. */
module SwapTraffic {
  import opened Bytes
  import opened Options
  import opened Paging
  import opened Swap
  import opened Replacement
  import opened Spaces
  import opened HeapOps
  import opened HeapCalls
  import opened Changes
  import opened PageBits
  import ClockM
  import Tlb

  // ---- written pages -----------------------------------------------------------------------------------

  /** A page written is stored in swap too, with what is now in its frame, unless swap refuses it or has no place. */
  lemma EditedIsStored(c: Settings, m: Mem, k: Key, o: nat, data: seq<byte>)
    requires Inv(c, m) && Has(m, k) && PageOf(m, k).present && o + |data| <= c.pageSize
    ensures var t := Edited(c, m, k, o, data);
      && Has(t, k) && PageOf(t, k).present && PageOf(t, k).modified
      && (t.refused == m.refused && Settles(c.swap, m.swamp, k.pid, k.page) ==>
           Fetch(t.swamp, k.pid, k.page) == Some(FrameAt(t, PageOf(t, k).frame)))
  {
    hide DynamicOk, Save, Fetch, Settles, StampsAreHistory, FramesExclusive, TlbAgrees, Backed, Overwrite;
    var w := Write(m, k, o, data);
    var content := FrameAt(w, PageOf(m, k).frame);
    WriteSendable(c, m, k, o, data);
    PageNumber(c, m, k);
    assert k.pid != MARK;
    DynamicSaveThenFetch(c.swap, w.swamp, k.pid, k.page, content, k.pid, k.page);
  }

  /** The last thing done was to send what is in some frame as page `k`. */
  ghost predicate SentLast(c: Settings, t: Mem, k: Key) {
    exists u: Mem, f: nat :: Has(u, k) && f < |u.frames| && t == Saved(c, u, k, u.frames[f])
  }

  // ---- refused pages ------------------------------------------------------------------------------------

  /** The flag is up after a change if it was up before or the change had a save refused, unless it is put down. */
  ghost predicate RefusalNoted(s: Mem, x: Change, t: Mem) {
    && s.refused <= t.refused
    && (t.rollBack <==> !x.ForgetRefusal? && (s.rollBack || s.refused < t.refused))
  }

  /** The same where the flag is not put down. */
  ghost predicate Noted(s: Mem, t: Mem) {
    s.refused <= t.refused && (t.rollBack <==> s.rollBack || s.refused < t.refused)
  }

  lemma NotedTwice(s: Mem, m: Mem, t: Mem)
    requires Noted(s, m) && Noted(m, t)
    ensures Noted(s, t)
  {
  }

  lemma NotedItself(s: Mem)
    ensures Noted(s, s)
  {
  }

  lemma SavedNoted(c: Settings, s: Mem, k: Key, content: seq<byte>)
    requires Has(s, k)
    ensures Noted(s, Saved(c, s, k, content))
    ensures var t := Saved(c, s, k, content);
      t.refused > s.refused <==> !Save(c.swap, s.swamp, k.pid, k.page, content).0
  {
  }

  lemma EvictNoted(c: Settings, s: Mem, k: Key, who: nat)
    requires Has(s, k)
    ensures Noted(s, Evict(c, s, k, who))
  {
    hide Save;
    SavedNoted(c, s, k, FrameAt(s, PageOf(s, k).frame));
  }

  lemma EvictedNoted(c: Settings, s: Mem, who: nat, t: Mem)
    requires Evicted(c, s, who, t)
    ensures Noted(s, t)
  {
    hide Evict, BitsOf, Owned;
    forall m: Mem, k: Key, w | Has(m, k) ensures Noted(m, Evict(c, m, k, w)) {
      EvictNoted(c, m, k, w);
    }
  }

  lemma AccessNoted(c: Settings, s: Mem, k: Key, t: Mem)
    requires Has(s, k) && Accessed(c, s, k, t)
    ensures Noted(s, t)
  {
    hide Evicted, Load, Touch, Remember, Tlb.Used;
    var l := Looked(c, s, k);
    LandingNotes(c, l, k);
    if !PageOf(s, k).present {
      var e :| FaultedVia(c, l, k, e, t);
      EvictedNoted(c, l, k.pid, e);
      LoadNotes(c, e, k);
      LandingNotes(c, Load(c, e, k), k);
    }
  }

  lemma LandingNotes(c: Settings, s: Mem, k: Key)
    requires Has(s, k)
    ensures var t := Remember(c, Touch(s, k), k); t.refused == s.refused && t.rollBack == s.rollBack
  {
    hide Tlb.Add;
  }

  lemma LoadNotes(c: Settings, e: Mem, k: Key)
    requires Has(e, k)
    ensures var t := Load(c, e, k); Has(t, k) && t.refused == e.refused && t.rollBack == e.rollBack
  {
    hide FreeFrame;
  }

  lemma EditNoted(c: Settings, s: Mem, k: Key, m: Mem, o: nat, data: seq<byte>)
    requires Has(s, k) && Accessed(c, s, k, m) && Has(m, k)
    ensures Noted(s, Edited(c, m, k, o, data))
  {
    hide Accessed, Saved;
    AccessNoted(c, s, k, m);
    var w := Write(m, k, o, data);
    SavedNoted(c, w, k, FrameAt(w, PageOf(m, k).frame));
  }

  lemma AddedNoted(c: Settings, s: Mem, pid: nat)
    requires pid in s.tables
    ensures Noted(s, AddedPage(c, s, pid))
  {
  }

  lemma ChangeNoted(c: Settings, s: Mem, x: Change, t: Mem)
    requires Changed(c, s, x, t)
    ensures RefusalNoted(s, x, t)
  {
    hide Accessed, Evicted, Saved, FreeFrame, DropPages, Tlb.Lookup, Finish;
    match x
    case Access(k) => AccessNoted(c, s, k, t);
    case Vacate(who) => EvictedNoted(c, s, who, t);
    case Send(k, content) => SavedNoted(c, s, k, content);
    case _ =>
  }

  /** Change `j` had a save refused. */
  ghost predicate Refuses(ms: seq<Mem>, j: nat) {
    j + 1 < |ms| && ms[j].refused < ms[j + 1].refused
  }

  predicate Forgets(xs: seq<Change>, l: nat) {
    l < |xs| && xs[l].ForgetRefusal?
  }

  /** In every run memalloc's flag is up exactly when swap has refused a save since it was last put down. */
  lemma {:induction false} RefusedSince(c: Settings, ms: seq<Mem>, xs: seq<Change>, i: nat)
    requires History(c, ms, xs) && i < |ms|
    ensures ms[i].rollBack <==> Since((j: nat) => Refuses(ms, j), (l: nat) => Forgets(xs, l), i)
  {
    hide Changed, Begun, Since;
    if i == 0 {
      FlagDown(c, ms[0]);
      NeverSince((j: nat) => Refuses(ms, j), (l: nat) => Forgets(xs, l));
    } else {
      RefusedSince(c, ms, xs, i - 1);
      assert Changed(c, ms[i - 1], xs[i - 1], ms[(i - 1) + 1]);
      ChangeNoted(c, ms[i - 1], xs[i - 1], ms[i]);
      SinceStep((j: nat) => Refuses(ms, j), (l: nat) => Forgets(xs, l), i - 1);
      if xs[i - 1].ForgetRefusal? { ForgettingRefusesNothing(c, ms[i - 1], xs[i - 1], ms[i]); }
    }
  }

  lemma FlagDown(c: Settings, s: Mem)
    requires Begun(c, s)
    ensures !s.rollBack
  {
  }

  lemma NeverSince(did: nat -> bool, undid: nat -> bool)
    ensures !Since(did, undid, 0)
  {
  }

  lemma ForgettingRefusesNothing(c: Settings, s: Mem, x: Change, t: Mem)
    requires Changed(c, s, x, t) && x.ForgetRefusal?
    ensures t.refused == s.refused
  {
  }
}
