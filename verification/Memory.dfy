/**
 The memory process: the malloc'ed block `memoria`, the page tables, the translation buffer
 and the replacement pointers, changed in place by the original's functions. Each method is
 proved against the state changes of Paging and Replacement.
 */
module Memory {
  import opened Arith
  import opened Bytes
  import opened Outcomes
  import opened Options
  import opened Swap
  import opened Paging
  import opened Replacement
  import opened FlatSpace
  import opened Spaces
  import opened ClockSteps
  import opened ClockProgress
  import opened Changes
  import opened SwapTraffic
  import ClockM
  import Tlb

  ghost function FrameBytes(block: seq<byte>, size: nat, n: nat, f: nat): (r: seq<byte>)
    requires Pages(size, n) <= |block| && f < n
    ensures |r| == size
  {
    PagesStep(size, f, n);
    block[Pages(size, f)..Pages(size, f) + size]
  }

  /** The block cut into frames. */
  ghost function Frames(block: seq<byte>, size: nat, n: nat): (r: seq<seq<byte>>)
    requires Pages(size, n) <= |block|
    ensures |r| == n && Sized(r, size)
  {
    seq(n, f requires 0 <= f < n => FrameBytes(block, size, n, f))
  }

  lemma FramesPatched(block: seq<byte>, size: nat, n: nat, f: nat, at: nat, data: seq<byte>)
    requires Pages(size, n) <= |block| && f < n && at + |data| <= size
    ensures Pages(size, f) + at + |data| <= |block|
    ensures Frames(Patch(block, Pages(size, f) + at, data), size, n) ==
            Frames(block, size, n)[f := Patch(Frames(block, size, n)[f], at, data)]
  {
    hide Pages, FrameBytes;
    PagesStep(size, f, n);
    var a := Frames(Patch(block, Pages(size, f) + at, data), size, n);
    var b := Frames(block, size, n)[f := Patch(Frames(block, size, n)[f], at, data)];
    forall g | 0 <= g < n ensures a[g] == b[g] {
      FramePatched(block, size, n, f, at, data, g);
    }
  }

  lemma FramePatched(block: seq<byte>, size: nat, n: nat, f: nat, at: nat, data: seq<byte>, g: nat)
    requires Pages(size, n) <= |block| && f < n && at + |data| <= size && g < n && Pages(size, f) + size <= |block|
    ensures var b := FrameBytes(block, size, n, g);
      FrameBytes(Patch(block, Pages(size, f) + at, data), size, n, g) == if g == f then Patch(b, at, data) else b
  {
    hide Pages;
    PagesStep(size, g, n);
    if g < f { PagesStep(size, g, f); } else if f < g { PagesStep(size, f, g); }
  }

  // ---- scans of the translation buffer ------------------------------------------------------

  method ScanKey(es: seq<Tlb.Entry>, pid: nat, page: nat) returns (k: nat)
    ensures k == Tlb.FindKey(es, pid, page)
  {
    k := 0;
    while k < |es| && !(es[k].pid == pid && es[k].page == page)
      invariant k <= |es|
      invariant forall i :: 0 <= i < k ==> !(es[i].pid == pid && es[i].page == page)
    {
      k := k + 1;
    }
  }

  method ScanExact(es: seq<Tlb.Entry>, pid: nat, page: nat, frame: nat) returns (k: nat)
    ensures k == Tlb.FindExact(es, pid, page, frame)
  {
    k := 0;
    while k < |es| && !(es[k].pid == pid && es[k].page == page && es[k].frame == frame)
      invariant k <= |es|
      invariant forall i :: 0 <= i < k ==> !(es[i].pid == pid && es[i].page == page && es[i].frame == frame)
    {
      k := k + 1;
    }
  }

  method ScanBlank(es: seq<Tlb.Entry>) returns (k: nat)
    ensures k == Tlb.FindBlank(es)
  {
    k := 0;
    while k < |es| && !Tlb.Blank(es[k])
      invariant k <= |es|
      invariant forall i :: 0 <= i < k ==> !Tlb.Blank(es[i])
    {
      k := k + 1;
    }
  }

  /** list_get_minimum with get_minimum_fifo_tlb or get_minimum_lru_tlb. */
  method ScanOldest(es: seq<Tlb.Entry>, byFifo: bool) returns (k: nat)
    requires es != []
    ensures k == Tlb.Oldest(es, byFifo)
  {
    k := 0;
    var i := 1;
    while i < |es|
      invariant 1 <= i <= |es|
      invariant k == Tlb.Oldest(es[..i], byFifo)
    {
      assert es[..i + 1][..i] == es[..i];
      if !(Tlb.Age(es[k], byFifo) < Tlb.Age(es[i], byFifo)) {
        k := i;
      }
      i := i + 1;
    }
    assert es[..|es|] == es;
  }

  class Memory {
    const cfg: Settings
    const memoria: array<byte>
    var order: seq<nat>
    var tables: map<nat, Table>
    var tlb: Tlb.Buffer
    var lruClock: nat
    var hand: nat
    /** The swap process, reached by messages; SwapServer answers them. */
    var swamp: Store
    var rollBack: bool
    ghost var refused: nat
    ghost var lost: set<nat>
    ghost var doubles: nat
    ghost var history: seq<Key>

    ghost predicate Fits() {
      Pages(cfg.pageSize, cfg.frameCount) <= memoria.Length
    }

    ghost function State(): Mem
      requires Fits()
      reads this, memoria
    {
      Mem(order, tables, Frames(memoria[..], cfg.pageSize, cfg.frameCount), tlb, lruClock, hand, swamp, rollBack,
          refused, lost, doubles, history)
    }

    ghost predicate Valid()
      reads this, memoria
    {
      Fits() && Inv(cfg, State())
    }

    /** initPaginacion. */
    constructor (settings: Settings, size: nat, files: nat)
      requires Supported(settings) && Pages(settings.pageSize, settings.frameCount) <= size
      ensures Valid() && fresh(memoria) && cfg == settings && Begun(settings, State())
    {
      cfg := settings;
      memoria := new byte[size];
      order, tables := [], map[];
      tlb := Tlb.Buffer([], 0, 0);
      lruClock, hand := 0, 0;
      swamp := Empty(settings.swap, files);
      rollBack := false;
      refused, lost, doubles, history := 0, {}, 0, [];
      new;
      BegunMeets(settings, State());
    }

    // ---- the block -----------------------------------------------------------------------

    /** memcpy into a frame. */
    method WriteFrame(f: nat, at: nat, data: seq<byte>)
      requires Fits() && f < cfg.frameCount && at + |data| <= cfg.pageSize
      modifies memoria
      ensures State() == old(State()).(frames := old(State()).frames[f := Patch(old(State()).frames[f], at, data)])
    {
      FramesPatched(memoria[..], cfg.pageSize, cfg.frameCount, f, at, data);
      var base := Pages(cfg.pageSize, f) + at;
      forall i | 0 <= i < |data| {
        memoria[base + i] := data[i];
      }
      assert memoria[..] == Patch(old(memoria[..]), base, data);
    }

    /** memcpy out of a frame. */
    method ReadFrame(f: nat, at: nat, n: nat) returns (data: seq<byte>)
      requires Fits() && f < cfg.frameCount && at + n <= cfg.pageSize
      ensures data == State().frames[f][at..at + n]
    {
      PagesStep(cfg.pageSize, f, cfg.frameCount);
      var base := Pages(cfg.pageSize, f) + at;
      data := memoria[base..base + n];
      assert State().frames[f] == FrameBytes(memoria[..], cfg.pageSize, cfg.frameCount, f);
      SliceOfSlice(memoria[..], Pages(cfg.pageSize, f), cfg.pageSize, at, n);
    }

    // ---- scans of the page tables -----------------------------------------------------------

    /** getMarcoDe, getProcessIdby, estaOcupadoUn and frameAsignado all make this scan for a frame. */
    method FindOwner(f: nat) returns (r: Option<Key>)
      requires Valid()
      ensures r.Some? ==> Has(State(), r.value) && PageOf(State(), r.value).frame == f
      ensures r.None? ==> !Owned(State(), f)
    {
      var i := 0;
      while i < |order|
        invariant i <= |order|
        invariant forall k :: Has(State(), k) && k.pid in order[..i] ==> PageOf(State(), k).frame != f
      {
        var pid := order[i];
        var pages := tables[pid].pages;
        var j := 0;
        while j < |pages|
          invariant j <= |pages|
          invariant forall k :: Has(State(), k) && k.pid == pid && k.page <= j ==> PageOf(State(), k).frame != f
        {
          if pages[j].frame == f {
            return Some(Key(pid, j + 1));
          }
          j := j + 1;
        }
        assert order[..i + 1] == order[..i] + [pid];
        i := i + 1;
      }
      assert order[..i] == order;
      return None;
    }

    /** getNewEmptyFrame under dynamic assignment; the number of frames stands for -1. */
    method NewEmptyFrame() returns (f: nat)
      requires Valid()
      ensures f == FreeFrame(cfg, State(), 0)
    {
      f := 0;
      while f < cfg.frameCount
        invariant f <= cfg.frameCount
        invariant forall g :: 0 <= g < f ==> Owned(State(), g)
      {
        var k := FindOwner(f);
        if k.None? {
          return;
        }
        f := f + 1;
      }
    }

    // ---- the translation buffer ---------------------------------------------------------------

    /** fetch_entrada_tlb. */
    method TlbFetch(pid: nat, page: nat) returns (r: Option<nat>)
      modifies this`tlb
      ensures r == Tlb.Lookup(old(tlb), pid, page) && tlb == Tlb.Used(old(tlb), pid, page)
    {
      var k := ScanKey(tlb.entries, pid, page);
      if k == |tlb.entries| {
        return None;
      }
      var e := tlb.entries[k];
      tlb := tlb.(entries := tlb.entries[k := e.(lru := tlb.lruClock)], lruClock := tlb.lruClock + 1);
      return Some(e.frame);
    }

    /** add_entrada_tlb. */
    method TlbAdd(pid: nat, page: nat, frame: nat)
      requires cfg.tlbMax > 0
      modifies this`tlb
      ensures tlb == Tlb.Add(old(tlb), cfg.tlbMax, cfg.tlbFifo, pid, page, frame)
    {
      var k := ScanExact(tlb.entries, pid, page, frame);
      if k < |tlb.entries| {
        return;
      }
      var e := Tlb.Entry(pid, page, frame, tlb.fifoClock, tlb.lruClock);
      k := ScanBlank(tlb.entries);
      if k < |tlb.entries| {
        tlb := tlb.(entries := tlb.entries[k := e]);
      } else if |tlb.entries| < cfg.tlbMax {
        tlb := tlb.(entries := tlb.entries + [e]);
      } else {
        k := ScanOldest(tlb.entries, cfg.tlbFifo);
        tlb := tlb.(entries := tlb.entries[k := e]);
      }
      tlb := tlb.(fifoClock := tlb.fifoClock + 1, lruClock := tlb.lruClock + 1);
    }

    /** delete_entrada_tlb. */
    method TlbDelete(pid: nat, page: nat, frame: nat)
      modifies this`tlb
      ensures tlb == if cfg.tlbMax == 0 then old(tlb) else Tlb.Drop(old(tlb), pid, page, frame)
    {
      if cfg.tlbMax == 0 {
        return;
      }
      var k := ScanExact(tlb.entries, pid, page, frame);
      if k < |tlb.entries| {
        tlb := tlb.(entries := tlb.entries[k := Tlb.BLANK]);
      }
    }

    // ---- evicting a page ------------------------------------------------------------------------

    /** The save request to swap and its answer. */
    method Send(k: Key, content: seq<byte>)
      requires Fits() && Has(State(), k)
      modifies this`swamp, this`rollBack, this`refused, this`lost
      ensures State() == Saved(cfg, old(State()), k, content)
    {
      if !PageOf(State(), k).present {
        lost := LostWith(cfg, State(), k);
      }
      var (ok, store) := Save(cfg.swap, swamp, k.pid, k.page, content);
      swamp := store;
      if !ok {
        rollBack := true;
        refused := refused + 1;
      }
    }

    /** mandarPaginaAgonza: save the contents of a frame as page `k`. */
    method SendFrame(k: Key, f: nat)
      requires Fits() && f < cfg.frameCount && Has(State(), k)
      modifies this`swamp, this`rollBack, this`refused, this`lost
      ensures State() == Saved(cfg, old(State()), k, old(State()).frames[f])
    {
      var content := ReadFrame(f, 0, cfg.pageSize);
      assert content == State().frames[f];
      Send(k, content);
    }

    /** setPaginaAsModificado and the other updates of one page record. */
    method UpdatePage(k: Key, p: Page)
      requires Fits() && Has(State(), k)
      modifies this`tables
      ensures State() == SetPage(old(State()), k, p)
    {
      tables := tables[k.pid := tables[k.pid].(pages := tables[k.pid].pages[k.page - 1 := p])];
    }

    /** liberarFrame: every page with this frame loses it, and its bytes become zero. */
    method FreeFrameOf(f: nat, ghost k: Key)
      requires Fits() && Listed(State()) && FramesExclusive(cfg, State()) && FramesSized(cfg, State())
      requires Has(State(), k) && PageOf(State(), k).frame == f < cfg.frameCount
      modifies this`tables, memoria
      ensures State() == SetPage(old(State()), k,
                           PageOf(old(State()), k).(frame := cfg.frameCount + 1, present := false, modified := false))
                         .(frames := old(State()).frames[f := Zeros(cfg.pageSize)])
    {
      ghost var was := tables;
      ghost var freed := PageOf(State(), k).(frame := cfg.frameCount + 1, present := false, modified := false);
      ghost var now := tables[k.pid := tables[k.pid].(pages := tables[k.pid].pages[k.page - 1 := freed])];
      ghost var s := State();
      var i := 0;
      while i < |order|
        invariant i <= |order|
        invariant tables == if k.pid in order[..i] then now else was
        invariant memoria[..] == old(memoria[..])
      {
        var pid := order[i];
        assert order[..i + 1] == order[..i] + [pid];
        var j := 0;
        while j < |tables[pid].pages|
          invariant j <= |was[pid].pages|
          invariant tables == if k.pid in order[..i] || (k.pid == pid && k.page <= j) then now else was
          invariant |tables[pid].pages| == |was[pid].pages|
          invariant memoria[..] == old(memoria[..])
        {
          var p := tables[pid].pages[j];
          if p.frame == f {
            assert SameFrame(PageOf(s, k), PageOf(s, Key(pid, j + 1)));
            var without := p.(frame := cfg.frameCount + 1, present := false, modified := false);
            tables := tables[pid := tables[pid].(pages := tables[pid].pages[j := without])];
          }
          j := j + 1;
        }
        i := i + 1;
      }
      assert order[..i] == order;
      PatchWhole(s.frames[f], Zeros(cfg.pageSize));
      WriteFrame(f, 0, Zeros(cfg.pageSize));
    }

    /** Sends frame `f` to swap as page `k`, for good, and drops the buffer entry of that page under `who`. */
    method Detach(k: Key, f: nat, who: nat)
      requires Fits() && f < cfg.frameCount && Has(State(), k)
      modifies this`swamp, this`rollBack, this`refused, this`lost, this`tlb
      ensures State() == Saved(cfg, old(State()), k, FrameAt(old(State()), f))
                         .(lost := LostWith(cfg, old(State()), k),
                           tlb := if cfg.tlbMax == 0 then old(tlb) else Tlb.Drop(old(tlb), who, k.page, f))
      ensures order == old(order) && State().frames == old(State()).frames
    {
      ghost var gone := LostWith(cfg, State(), k);
      SendFrame(k, f);
      lost := gone;
      TlbDelete(who, k.page, f);
    }

    /** Send a page to swap, drop its buffer entry under `who`, free its frame. */
    method EvictPage(k: Key, who: nat)
      requires Fits() && Listed(State()) && FramesExclusive(cfg, State()) && FramesSized(cfg, State())
      requires Has(State(), k) && PageOf(State(), k).present
      modifies this`tables, this`swamp, this`rollBack, this`refused, this`lost, this`tlb, memoria
      ensures State() == Evict(cfg, old(State()), k, who)
    {
      hide Listed, FramesExclusive, FramesSized;
      ghost var s := State();
      PresentInRange(cfg, s, k);
      var f := tables[k.pid].pages[k.page - 1].frame;
      Detach(k, f, who);
      SameTables(cfg, s, State());
      FreeFrameOf(f, k);
    }

    /** seleccionLRU on behalf of process `who`. */
    method SelectLru(who: nat) returns (r: Outcome<()>)
      requires Valid() && cfg.lru
      modifies this`tables, this`swamp, this`rollBack, this`refused, this`lost, this`tlb, memoria
      ensures r.Done? <==> exists v :: IsLru(old(State()), v)
      ensures r.Done? ==> LruEvicted(cfg, old(State()), who, State())
      ensures r.Stuck? ==> State() == old(State())
    {
      var best := STAMP_LIMIT;
      var victim := Key(0, 0);
      var i := 0;
      while i < |order|
        invariant i <= |order| && best <= STAMP_LIMIT
        invariant best < STAMP_LIMIT ==>
          Has(State(), victim) && PageOf(State(), victim).present && PageOf(State(), victim).stamp == best
        invariant forall k :: Has(State(), k) && k.pid in order[..i] && PageOf(State(), k).present ==>
          best <= PageOf(State(), k).stamp
      {
        var pid := order[i];
        var pages := tables[pid].pages;
        var j := 0;
        while j < |pages|
          invariant j <= |pages| && best <= STAMP_LIMIT
          invariant best < STAMP_LIMIT ==>
            Has(State(), victim) && PageOf(State(), victim).present && PageOf(State(), victim).stamp == best
          invariant forall k :: Has(State(), k) && k.pid in order[..i] && PageOf(State(), k).present ==>
            best <= PageOf(State(), k).stamp
          invariant forall k :: Has(State(), k) && k.pid == pid && k.page <= j && PageOf(State(), k).present ==>
            best <= PageOf(State(), k).stamp
        {
          if pages[j].stamp < best && pages[j].present {
            best := pages[j].stamp;
            victim := Key(pid, j + 1);
          }
          j := j + 1;
        }
        assert order[..i + 1] == order[..i] + [pid];
        i := i + 1;
      }
      assert order[..i] == order;
      if best == STAMP_LIMIT {
        return Stuck;
      }
      assert IsLru(State(), victim);
      EvictPage(victim, who);
      return Done(());
    }

    // ---- Clock-M -----------------------------------------------------------------------------------

    method EvictUnderHand(k: Key)
      requires Valid() && Has(State(), k) && PageOf(State(), k).frame == hand < cfg.frameCount
      modifies this`tables, this`swamp, this`rollBack, this`refused, this`lost, this`tlb, this`hand, memoria
      ensures Owned(old(State()), old(hand)) && Valid() && State() == VictimGone(cfg, old(State()), old(hand))
    {
      hide Inv, Evict, Freed, SameShape, SameBytes, StaysPut, StampsAreHistory, Numbered, DynamicOk;
      ghost var s := State();
      InvMeans(cfg, s);
      InvIsBasic(cfg, s);
      BitOfOwner(cfg, s, k);
      FrameReplaced(cfg, s, hand);
      HandKeeps(cfg, EvictFrame(cfg, s, hand), hand + 1);
      EvictPage(k, k.pid);
      hand := hand + 1;
    }

    /** Steps the hand past the frame under it, or back to the first frame. */
    method StepHand()
      requires Valid()
      modifies this`hand
      ensures Valid() && State() == old(State()).(hand := if old(hand) >= cfg.frameCount then 0 else old(hand) + 1)
    {
      hide Inv;
      InvIsBasic(cfg, State());
      HandKeeps(cfg, State(), if hand >= cfg.frameCount then 0 else hand + 1);
      hand := if hand >= cfg.frameCount then 0 else hand + 1;
    }

    /** One pass through the first loop's body: evict the page under the hand if it is neither used nor modified. */
    method InspectClean() returns (r: Outcome<bool>)
      requires Valid()
      modifies this`tables, this`swamp, this`rollBack, this`refused, this`lost, this`tlb, this`hand, memoria
      ensures Valid() && CleanLook(cfg, old(State()), r, State())
    {
      r := Done(false);
      var o := FindOwner(hand);
      if hand >= cfg.frameCount {
        StepHand();
      } else if o.None? {
        r := Stuck;
      } else {
        BitOfOwner(cfg, State(), o.value);
        var p := tables[o.value.pid].pages[o.value.page - 1];
        if !p.modified && !p.used {
          EvictUnderHand(o.value);
          r := Done(true);
        } else {
          StepHand();
        }
      }
    }

    /** Clears the use bit of the page under the hand and steps past it. */
    method PassOver(k: Key)
      requires Valid() && Has(State(), k)
      modifies this`tables, this`hand
      ensures Valid() && Has(old(State()), k)
      ensures State() == SetPage(old(State()), k, PageOf(old(State()), k).(used := false))
                         .(hand := if old(hand) >= cfg.frameCount then 0 else old(hand) + 1)
    {
      UseBitKeeps(cfg, State(), k, false);
      UpdatePage(k, tables[k.pid].pages[k.page - 1].(used := false));
      StepHand();
    }

    /** One pass through the second loop's body: evict an unused page, otherwise clear its use bit. */
    method InspectUse() returns (r: Outcome<bool>)
      requires Valid()
      modifies this`tables, this`swamp, this`rollBack, this`refused, this`lost, this`tlb, this`hand, memoria
      ensures Valid() && UseLook(cfg, old(State()), r, State())
    {
      r := Done(false);
      var o := FindOwner(hand);
      if hand >= cfg.frameCount {
        StepHand();
      } else if o.None? {
        r := Stuck;
      } else {
        BitOfOwner(cfg, State(), o.value);
        if !tables[o.value.pid].pages[o.value.page - 1].used {
          EvictUnderHand(o.value);
          r := Done(true);
        } else {
          PassOver(o.value);
        }
      }
    }

    /** The first loop, from the frame under the hand all the way round. */
    method CleanSweep() returns (r: Outcome<bool>)
      requires Valid()
      modifies this`tables, this`swamp, this`rollBack, this`refused, this`lost, this`tlb, this`hand, memoria
      ensures Valid() && CleanSwept(cfg, old(State()), r, State())
    {
      hide Inv, Basic, CleanSwept, PassedClean, CleanLook;
      ghost var s := State();
      InvIsBasic(cfg, s);
      PassedNone(cfg, s);
      var start := hand;
      ghost var k := 0;
      var first := true;
      while first || hand != start
        invariant State() == s.(hand := hand) && Valid()
        invariant Cursor(cfg.frameCount, start, hand, k, first) && PassedClean(cfg, s, k)
        decreases cfg.frameCount - k, hand, first
      {
        first := false;
        ghost var before := hand;
        InvIsBasic(cfg, State());
        r := InspectClean();
        CleanLookMoved(cfg, s, before, k, r, State());
        if r.Stuck? || r.value {
          return;
        }
        if before < cfg.frameCount { k := k + 1; }
      }
      CleanSweptInVain(cfg, s, k);
      return Done(false);
    }

    /** One step of a second sweep of `s` that stands at `m` after `k` frames. */
    method UseStep(ghost s: Mem, ghost m: Mem, ghost k: nat) returns (found: bool, ghost m': Mem)
      requires Valid() && Inv(cfg, s) && AllOwned(cfg, s)
      requires k <= cfg.frameCount && PassedUsed(cfg, s, m, k) && State() == m.(hand := hand)
      requires hand < cfg.frameCount ==> k < cfg.frameCount && ClockM.At(cfg.frameCount, s.hand, k) == hand
      modifies this`tables, this`swamp, this`rollBack, this`refused, this`lost, this`tlb, this`hand, memoria
      ensures Valid()
      ensures found ==> UseSwept(cfg, s, true, m, State())
      ensures !found ==>
        && State() == m'.(hand := hand) && (old(hand) < cfg.frameCount ==> k < cfg.frameCount)
        && PassedUsed(cfg, s, m', if old(hand) < cfg.frameCount then k + 1 else k)
        && hand == if old(hand) < cfg.frameCount then old(hand) + 1 else 0
    {
      hide Inv, UseSwept, UseLook;
      ghost var before := hand;
      InvIsBasic(cfg, State());
      InvIsBasic(cfg, s);
      UseClearedKeeps(cfg, s, m, k);
      InvIsBasic(cfg, m);
      var r := InspectUse();
      UseLookMoved(cfg, s, m, before, k, r, State());
      found := r.value;
      m' := m;
      if !found && before < cfg.frameCount {
        m' := NextCleared(cfg, s, m, k);
      }
    }

    /** The second loop, once the first has gone round in vain; `m` is the state when the victim goes. */
    method UseSweep() returns (found: bool, ghost m: Mem)
      requires Valid() && AllOwned(cfg, State())
      modifies this`tables, this`swamp, this`rollBack, this`refused, this`lost, this`tlb, this`hand, memoria
      ensures Valid() && UseSwept(cfg, old(State()), found, m, State())
    {
      hide Inv, Basic, UseSwept;
      ghost var s := State();
      InvIsBasic(cfg, s);
      var start := hand;
      ghost var k := 0;
      var first := true;
      m := s;
      PassedNone(cfg, s);
      while first || hand != start
        invariant State() == m.(hand := hand) && Valid()
        invariant Cursor(cfg.frameCount, start, hand, k, first) && PassedUsed(cfg, s, m, k)
        decreases cfg.frameCount - k, hand, first
      {
        first := false;
        ghost var before, was := hand, m;
        found, m := UseStep(s, m, k);
        if found {
          m := was;
          return;
        }
        if before < cfg.frameCount { k := k + 1; }
      }
      UseSweptInVain(cfg, s, m, k);
      found := false;
    }

    /** Both loops once, from state `s` or from `s` with every use bit cleared. */
    method Round(ghost s: Mem) returns (r: Outcome<bool>, ghost m: Mem, sweeps: nat)
      requires Valid() && Basic(cfg, s) && (State() == s || AllCleared(cfg, s, State()))
      modifies this`tables, this`swamp, this`rollBack, this`refused, this`lost, this`tlb, this`hand, memoria
      ensures Valid() && sweeps <= 2
      ensures r.Stuck? ==> old(State()) == s && MeetsFreeFrame(cfg, s) && State() == s.(hand := hand)
      ensures r.Done? && r.value ==> FirstVictim(cfg, s, m, State())
      ensures r.Done? && !r.value ==> old(State()) == s && AllCleared(cfg, s, State()) && hand == s.hand
    {
      ghost var before := State();
      sweeps := 1;
      m := before;
      r := CleanSweep();
      if before != s {
        VictimInThirdSweep(cfg, s, before, r, State());
      } else if r.Stuck? {
        StuckMeetsFreeFrame(cfg, s, State());
      } else if r.value {
        VictimInFirstSweep(cfg, s, State());
      }
      if r == Done(false) {
        var found;
        found, m := UseSweep();
        sweeps := 2;
        r := Done(found);
        if before != s {
          VictimInFourthSweep(cfg, s, before, found, m, State());
        } else {
          VictimInSecondSweep(cfg, s, found, m, State());
        }
      }
    }

    /** seleccionClockMejorado: at most four sweeps. */
    method SelectClock() returns (r: Outcome<nat>)
      requires Valid()
      modifies this`tables, this`swamp, this`rollBack, this`refused, this`lost, this`tlb, this`hand, this`doubles,
               memoria
      ensures Valid()
      ensures r.Stuck? <==> MeetsFreeFrame(cfg, old(State()))
      ensures r.Stuck? ==> State() == old(State()).(hand := hand)
      ensures r.Done? ==> ClockEvicted(cfg, old(State()), State()) && r.value <= 4
    {
      hide Inv, Basic, ClockEvicted, FirstVictim, AllCleared, MeetsFreeFrame, CleanLook;
      ghost var s := State();
      InvIsBasic(cfg, s);
      var start := hand;
      var found, again := false, true;
      var sweeps := 0;
      ghost var m := s;
      while again
        invariant Valid() && sweeps <= 4 && (again ==> hand == start)
        invariant if !again then ClockEvicted(cfg, s, State()) && !MeetsFreeFrame(cfg, s)
                  else if found then FirstVictim(cfg, s, m, State())
                  else (State() == s && sweeps == 0) || (AllCleared(cfg, s, State()) && sweeps <= 2 && State() != s)
        decreases again, !found, State() == s
      {
        ghost var before := State();
        InvIsBasic(cfg, before);
        if found {
          var look := InspectClean();
          LookedAgain(cfg, s, m, before, look, State());
          if look.value {
            DoubleKeeps(cfg, State());
            doubles := doubles + 1;
          }
        } else {
          var round, n;
          round, m, n := Round(s);
          sweeps := sweeps + n;
          if round.Stuck? {
            return Stuck;
          }
          found := round.value;
          if !found {
            AllClearedDiffers(cfg, s, State());
          } else if hand != start {
            DoneAfterFirst(cfg, s, m, State());
          }
        }
        again := hand == start;
      }
      return Done(sweeps);
    }

    // ---- access to a page -----------------------------------------------------------------------

    /** utilizarAlgritmoDeAsignacion on behalf of process `who`. */
    method MakeRoom(who: nat) returns (r: Outcome<()>)
      requires Valid()
      modifies this`tables, this`swamp, this`rollBack, this`refused, this`lost, this`tlb, this`hand, this`doubles,
               memoria
      ensures Valid()
      ensures r.Done? <==> CanEvict(cfg, old(State()))
      ensures r.Done? ==> Evicted(cfg, old(State()), who, State())
      ensures r.Stuck? ==> State() == old(State()).(hand := hand)
    {
      if cfg.lru {
        ghost var s := State();
        r := SelectLru(who);
        if r.Done? {
          EvictedKeeps(cfg, s, who, State());
        }
      } else {
        var sweeps := SelectClock();
        r := if sweeps.Done? then Done(()) else Stuck;
      }
    }

    /** Asks swap for page `k` and puts it in frame `f`, the first free one. */
    method LoadPage(k: Key, f: nat)
      requires Fits() && DynamicOk(cfg.swap, swamp) && cfg.swap.pageSize == cfg.pageSize && Has(State(), k)
      requires f == FreeFrame(cfg, State(), 0) < cfg.frameCount
      modifies this`tables, memoria
      ensures State() == Load(cfg, old(State()), k)
    {
      var content := match Fetch(swamp, k.pid, k.page) case Some(b) => b case None => Zeros(cfg.pageSize);
      PatchWhole(State().frames[f], content);
      WriteFrame(f, 0, content);
      UpdatePage(k, tables[k.pid].pages[k.page - 1].(frame := f, modified := false, present := true));
    }

    /** Sets the use bit and the LRU stamp of a page. */
    method StampPage(k: Key)
      requires Fits() && Has(State(), k)
      modifies this`tables, this`lruClock, this`history
      ensures State() == Touch(old(State()), k)
    {
      lruClock := lruClock + 1;
      history := history + [k];
      UpdatePage(k, tables[k.pid].pages[k.page - 1].(used := true, stamp := lruClock));
    }

    /** Stamps page `k` and enters it in the buffer. */
    method Land(k: Key)
      requires Fits() && Has(State(), k)
      modifies this`tables, this`lruClock, this`history, this`tlb
      ensures Has(Touch(old(State()), k), k) && State() == Remember(cfg, Touch(old(State()), k), k)
    {
      StampPage(k);
      if cfg.tlbMax > 0 {
        TlbAdd(k.pid, k.page, tables[k.pid].pages[k.page - 1].frame);
      }
    }

    /** The fetch_entrada_tlb that opens getFrameDeUn. */
    method LookUp(k: Key) returns (hit: Option<nat>)
      requires Valid() && Has(State(), k)
      modifies this`tlb
      ensures Valid() && State() == Looked(cfg, old(State()), k)
      ensures hit == if cfg.tlbMax == 0 then None else Tlb.Lookup(State().tlb, k.pid, k.page)
    {
      LookedKeeps(cfg, State(), k);
      hit := None;
      if cfg.tlbMax > 0 {
        Tlb.UsedThenLookup(tlb, cfg.tlbMax, k.pid, k.page, k.pid, k.page);
        hit := TlbFetch(k.pid, k.page);
      }
    }

    method LoadAndLand(k: Key)
      requires Valid() && Has(State(), k) && FreeFrame(cfg, State(), 0) < cfg.frameCount
      modifies this`tables, this`tlb, this`lruClock, this`history, memoria
      ensures Has(Touch(Load(cfg, old(State()), k), k), k)
      ensures State() == Remember(cfg, Touch(Load(cfg, old(State()), k), k), k)
    {
      var f := NewEmptyFrame();
      LoadPage(k, f);
      Land(k);
    }

    /** Brings the absent page `k` in. */
    method BringIn(k: Key) returns (r: Outcome<()>)
      requires Valid() && Has(State(), k) && !PageOf(State(), k).present
      modifies this`tables, this`swamp, this`rollBack, this`refused, this`lost, this`tlb, this`hand, this`lruClock,
               this`doubles, this`history, memoria
      ensures r.Done? <==> CanEvict(cfg, old(State()))
      ensures r.Done? ==> Has(State(), k) && exists e :: FaultedVia(cfg, old(State()), k, e, State())
      ensures r.Stuck? ==> State() == old(State()).(hand := hand) && hand <= cfg.frameCount
    {
      ghost var l := State();
      r := MakeRoom(k.pid);
      if r.Done? {
        ghost var e := State();
        EvictedKeeps(cfg, l, k.pid, e);
        LoadAndLand(k);
        assert FaultedVia(cfg, l, k, e, State());
      }
    }

    /** getFrameDeUn: the frame of page `n`, brought in if it is absent. */
    method GetFrame(pid: nat, n: nat) returns (r: Outcome<nat>)
      requires Valid() && Has(State(), Key(pid, n))
      modifies this`tables, this`swamp, this`rollBack, this`refused, this`lost, this`tlb, this`hand, this`lruClock,
               this`doubles, this`history, memoria
      ensures r.Stuck? <==>
        !PageOf(old(State()), Key(pid, n)).present && !CanEvict(cfg, Looked(cfg, old(State()), Key(pid, n)))
      ensures r.Stuck? ==> State() == Looked(cfg, old(State()), Key(pid, n)).(hand := hand) && hand <= cfg.frameCount
      ensures r.Done? ==> Accessed(cfg, old(State()), Key(pid, n), State())
      ensures r.Done? ==> Has(State(), Key(pid, n)) && r.value == PageOf(State(), Key(pid, n)).frame
      ensures r.Done? ==> PageOf(State(), Key(pid, n)).used && PageOf(State(), Key(pid, n)).present
    {
      hide Inv, FaultedVia, Evicted, CanEvict, Touch, Looked, SameBytes;
      var k := Key(pid, n);
      ghost var s := State();
      var hit := LookUp(k);
      LookedSamePages(cfg, old(State()), k);
      var present := tables[pid].pages[n - 1].present;
      if hit.Some? && present {
        HitKnown(cfg, State(), k, hit);
        StampPage(k);
        r := Done(hit.value);
      } else if present {
        Land(k);
        r := Done(tables[pid].pages[n - 1].frame);
      } else {
        var brought := BringIn(k);
        r := if brought.Done? then Done(tables[pid].pages[n - 1].frame) else Stuck;
      }
      if r.Done? { AccessIsInvisible(cfg, s, k, State()); }
    }

    // ---- reading and writing a range of addresses -------------------------------------------------

    /** memcpy into the frame of a present page, then setPaginaAsModificado and mandarPaginaAgonza. */
    method WriteAndSend(k: Key, o: nat, data: seq<byte>)
      requires Fits() && Has(State(), k) && PageOf(State(), k).frame < cfg.frameCount && o + |data| <= cfg.pageSize
      modifies this`tables, this`swamp, this`rollBack, this`refused, this`lost, memoria
      ensures State() == Edited(cfg, old(State()), k, o, data)
    {
      var f := tables[k.pid].pages[k.page - 1].frame;
      WriteFrame(f, o, data);
      UpdatePage(k, tables[k.pid].pages[k.page - 1].(modified := true));
      SendFrame(k, f);
    }

    /** One page of editarAlgoEnMemoria. */
    method EditPage(k: Key, o: nat, data: seq<byte>) returns (r: Outcome<()>)
      requires Valid() && Has(State(), k) && o + |data| <= cfg.pageSize
      modifies this`tables, this`swamp, this`rollBack, this`refused, this`lost, this`tlb, this`hand, this`lruClock,
               this`doubles, this`history, memoria
      ensures Valid() && SameShape(old(State()), State()) && Later(old(State()), State())
      ensures Reaches(cfg, old(State()), State())
      ensures r.Done? ==> Written(cfg, old(State()), State(), k.pid, Address(cfg, k) + o, data)
      ensures r.Done? ==>
        lruClock == old(lruClock) + 1 && SomePresent(State()) && StaysOwned(cfg, old(State()), State())
      ensures r.Done? ==> Noted(old(State()), State())
      ensures r.Stuck? ==> !Sure(cfg, old(State()), State(), 1)
    {
      hide Reaches, Inv, Accessed, Written, SameShape, CanEvict, Edited, Kept, Sure, SomePresent, AllOwned;
      ghost var s := State();
      var f := GetFrame(k.pid, k.page);
      if f.Done? {
        EditNoted(cfg, s, k, State(), o, data);
        EditedStays(cfg, s, k, State(), o, data);
        EditedWrites(cfg, s, State(), k, o, data);
        WrittenLater(cfg, s, Edited(cfg, State(), k, o, data), k.pid, Address(cfg, k) + o, data);
        EditReaches(cfg, s, k, State(), o, data);
        WriteAndSend(k, o, data);
        r := Done(());
      } else {
        AttemptReaches(cfg, s, k, State());
        StuckKeeps(cfg, s, k, State());
        KeptLater(cfg, s, State());
        if Sure(cfg, s, State(), 1) { SureServes(cfg, s, State(), k); }
        r := Stuck;
      }
    }

    /**
     editarAlgoEnMemoria: exactly the bytes from `start` on become `data`, even when bringing
     a later page in evicts one already written.
     */
    method Edit(pid: nat, start: nat, data: seq<byte>) returns (r: Outcome<()>)
      requires Valid() && start < |Space(cfg, State(), pid)| && start + |data| <= |Space(cfg, State(), pid)|
      modifies this`tables, this`swamp, this`rollBack, this`refused, this`lost, this`tlb, this`hand, this`lruClock,
               this`doubles, this`history, memoria
      ensures Valid() && SameShape(old(State()), State()) && Later(old(State()), State())
      ensures Reaches(cfg, old(State()), State())
      ensures r.Done? ==> Written(cfg, old(State()), State(), pid, start, data) && Noted(old(State()), State())
      ensures cfg.pageSize > 0
      ensures r.Done? ==> lruClock == old(lruClock) + Touches(cfg.pageSize, start, |data|)
      ensures r.Done? && SomePresent(old(State())) ==> SomePresent(State())
      ensures r.Done? ==> StaysOwned(cfg, old(State()), State())
      ensures r.Stuck? ==> !Sure(cfg, old(State()), State(), Touches(cfg.pageSize, start, |data|))
    {
      hide Reaches, Inv, Accessed, CanEvict, Edited, Kept, Written, SameShape, SomePresent, Space, AllOwned;
      SpaceOfProcess(cfg, State(), pid);
      InvMeans(cfg, State());
      var size := cfg.pageSize;
      var first := PageIndex(size, start) + 1;
      // In C (-1) / size is 0, so an empty write at address 0 is on page 1.
      var last := if start + |data| == 0 then 1 else PageIndex(size, start + |data| - 1) + 1;
      if first == last {
        SamePage(size, start, |data|);
        AddressSplit(size, start);
        r := EditPiece(pid, first, start, Offset(size, start), data);
      } else if last < first {
        ReachesItself(cfg, State());
        WrittenStart(cfg, State(), pid, start);
        NotedItself(State());
        NothingWritten(cfg, State(), pid, start, data);
        r := Done(());
      } else {
        if data == [] { EmptyRange(size, start); }
        r := EditPages(pid, start, data);
      }
    }

    /** The loop of editarAlgoEnMemoria over the pages of a range on more than one page. */
    method EditPages(pid: nat, start: nat, data: seq<byte>) returns (r: Outcome<()>)
      requires Valid() && cfg.pageSize > 0 && pid in tables && data != []
      requires start + |data| <= |Space(cfg, State(), pid)|
      requires PageIndex(cfg.pageSize, start) < PageIndex(cfg.pageSize, start + |data| - 1)
      modifies this`tables, this`swamp, this`rollBack, this`refused, this`lost, this`tlb, this`hand, this`lruClock,
               this`doubles, this`history, memoria
      ensures Valid() && SameShape(old(State()), State()) && Later(old(State()), State())
      ensures Reaches(cfg, old(State()), State())
      ensures r.Done? ==> Written(cfg, old(State()), State(), pid, start, data) && Noted(old(State()), State())
      ensures r.Done? ==> lruClock == old(lruClock) + Touches(cfg.pageSize, start, |data|) && SomePresent(State())
      ensures r.Done? ==> StaysOwned(cfg, old(State()), State())
      ensures r.Stuck? ==> !Sure(cfg, old(State()), State(), Touches(cfg.pageSize, start, |data|))
    {
      hide Reaches, Inv, Accessed, CanEvict, Edited, Kept, Written, SameShape, SomePresent, Space, AllOwned, Sure,
           Pages, PageIndex, PieceLength, PieceOffset;
      ghost var s := State();
      InvMeans(cfg, s);
      var size := cfg.pageSize;
      var first, last := PageIndex(size, start) + 1, PageIndex(size, start + |data| - 1) + 1;
      ReachesItself(cfg, s);
      WrittenStart(cfg, s, pid, start);
      NotedItself(s);
      r := Done(());
      var n := first;
      var offset := 0;
      while n <= last
        invariant first <= n <= last + 1 && 0 <= offset <= |data| && r.Done?
        invariant Valid() && SameShape(s, State()) && Written(cfg, s, State(), pid, start, data[..offset])
        invariant Later(s, State()) && StaysOwned(cfg, s, State()) && Reaches(cfg, s, State()) && Noted(s, State())
        invariant lruClock == s.lruClock + n - first && (n > first || SomePresent(s) ==> SomePresent(State()))
        invariant pid in tables && |Space(cfg, State(), pid)| == |Space(cfg, s, pid)|
        invariant if n == first then offset == 0 else if n <= last then start + offset == Pages(size, n - 1)
                  else offset == |data|
      {
        var length := PieceLength(size, start, |data|, n);
        PieceFits(size, start, |data|, n, offset);
        ghost var m := State();
        r := EditPiece(pid, n, start + offset, PieceOffset(size, start, n), data[offset..offset + length]);
        ShapeTwice(s, m, State());
        ReachesTwice(cfg, s, m, State());
        if r.Stuck? {
          NotSure(cfg, s, m, State(), n - first, 1, Touches(size, start, |data|));
          return;
        }
        StaysTwice(cfg, s, m, State());
        NotedTwice(s, m, State());
        WrittenNext(cfg, s, m, State(), pid, start, data, offset, length);
        offset := offset + length;
        n := n + 1;
      }
      assert data[..offset] == data;
    }

    /** The part of a range that is on page `n`. */
    method EditPiece(pid: nat, n: nat, at: nat, o: nat, piece: seq<byte>) returns (r: Outcome<()>)
      requires Valid() && pid in tables && at < |Space(cfg, State(), pid)|
      requires n >= 1 && at == Pages(cfg.pageSize, n - 1) + o && o + |piece| <= cfg.pageSize && o < cfg.pageSize
      modifies this`tables, this`swamp, this`rollBack, this`refused, this`lost, this`tlb, this`hand, this`lruClock,
               this`doubles, this`history, memoria
      ensures Valid() && SameShape(old(State()), State()) && Later(old(State()), State())
      ensures Reaches(cfg, old(State()), State())
      ensures r.Done? ==> Written(cfg, old(State()), State(), pid, at, piece) && Noted(old(State()), State())
      ensures r.Done? ==>
        lruClock == old(lruClock) + 1 && SomePresent(State()) && StaysOwned(cfg, old(State()), State())
      ensures r.Stuck? ==> !Sure(cfg, old(State()), State(), 1)
    {
      hide Reaches, Inv, Accessed, CanEvict, Edited, Kept, Written, SameShape, Sure, SomePresent, AllOwned;
      InvMeans(cfg, State());
      AddressOnPage(cfg, State(), pid, at);
      AddressUnique(cfg.pageSize, n - 1, o, at);
      r := EditPage(Key(pid, n), o, piece);
    }

    /** One page of read_from_memory. */
    method ReadPiece(pid: nat, n: nat, at: nat, o: nat, length: nat) returns (r: Outcome<seq<byte>>)
      requires Valid() && pid in tables && at < |Space(cfg, State(), pid)|
      requires n >= 1 && at == Pages(cfg.pageSize, n - 1) + o && o + length <= cfg.pageSize && o < cfg.pageSize
      modifies this`tables, this`swamp, this`rollBack, this`refused, this`lost, this`tlb, this`hand, this`lruClock,
               this`doubles, this`history, memoria
      ensures Valid() && SameShape(old(State()), State()) && Later(old(State()), State())
      ensures Reaches(cfg, old(State()), State())
      ensures r.Done? ==> |r.value| == length && ReadBack(cfg, old(State()), State(), pid, at, r.value)
      ensures r.Done? ==> Landed(State(), Key(pid, n)) && SomePresent(State()) && lruClock == old(lruClock) + 1
      ensures r.Done? ==> StaysOwned(cfg, old(State()), State())
      ensures r.Stuck? ==> !Sure(cfg, old(State()), State(), 1)
    {
      hide Reaches, Inv, Accessed, CanEvict, Kept, SameShape, ReadBack, Space, Sure, SomePresent, AllOwned;
      ghost var s := State();
      var k := Key(pid, n);
      InvMeans(cfg, s);
      AddressOnPage(cfg, s, pid, at);
      AddressUnique(cfg.pageSize, n - 1, o, at);
      var f := GetFrame(pid, n);
      if f.Done? {
        AccessCounts(cfg, s, k, State());
        AccessReaches(cfg, s, k, State());
        AccessReads(cfg, s, k, State(), o, length);
        ReadLater(cfg, s, State(), pid, at, FrameAt(State(), PageOf(State(), k).frame)[o..o + length]);
        var d := ReadFrame(f.value, o, length);
        r := Done(d);
      } else {
        AttemptReaches(cfg, s, k, State());
        StuckKeeps(cfg, s, k, State());
        KeptLater(cfg, s, State());
        if Sure(cfg, s, State(), 1) { SureServes(cfg, s, State(), k); }
        r := Stuck;
      }
    }

    /** read_from_memory: exactly the bytes the process has there, and nothing changes. */
    method Read(pid: nat, start: nat, length: nat) returns (r: Outcome<seq<byte>>)
      requires Valid() && start < |Space(cfg, State(), pid)| && start + length <= |Space(cfg, State(), pid)|
      modifies this`tables, this`swamp, this`rollBack, this`refused, this`lost, this`tlb, this`hand, this`lruClock,
               this`doubles, this`history, memoria
      ensures Valid() && SameShape(old(State()), State()) && Later(old(State()), State())
      ensures Reaches(cfg, old(State()), State())
      ensures r.Done? ==> |r.value| == length && ReadBack(cfg, old(State()), State(), pid, start, r.value)
      ensures cfg.pageSize > 0
      ensures r.Done? && length > 0 ==> Landed(State(), PageAt(cfg, pid, start + length - 1))
      ensures r.Done? ==> lruClock == old(lruClock) + Touches(cfg.pageSize, start, length)
      ensures r.Done? && SomePresent(old(State())) ==> SomePresent(State())
      ensures r.Done? ==> StaysOwned(cfg, old(State()), State())
      ensures r.Stuck? ==> !Sure(cfg, old(State()), State(), Touches(cfg.pageSize, start, length))
    {
      hide Reaches, Inv, Accessed, CanEvict, Kept, SameShape, ReadBack, Landed, SomePresent, Space, AllOwned;
      SpaceOfProcess(cfg, State(), pid);
      InvMeans(cfg, State());
      var size := cfg.pageSize;
      var first := PageIndex(size, start) + 1;
      var last := if start + length == 0 then 1 else PageIndex(size, start + length - 1) + 1;
      if first == last {
        SamePage(size, start, length);
        AddressSplit(size, start);
        r := ReadPiece(pid, first, start, Offset(size, start), length);
      } else if last < first {
        if length > 0 { PageIndexOrder(size, start, start + length - 1); }
        ReachesItself(cfg, State());
        ReadStart(cfg, State(), pid, start);
        r := Done([]);
      } else {
        if length == 0 { EmptyRange(size, start); }
        r := ReadPages(pid, start, length);
      }
    }

    /** The loop of read_from_memory over the pages of a range on more than one page. */
    method ReadPages(pid: nat, start: nat, length: nat) returns (r: Outcome<seq<byte>>)
      requires Valid() && cfg.pageSize > 0 && pid in tables && length > 0
      requires start + length <= |Space(cfg, State(), pid)|
      requires PageIndex(cfg.pageSize, start) < PageIndex(cfg.pageSize, start + length - 1)
      modifies this`tables, this`swamp, this`rollBack, this`refused, this`lost, this`tlb, this`hand, this`lruClock,
               this`doubles, this`history, memoria
      ensures Valid() && SameShape(old(State()), State()) && Later(old(State()), State())
      ensures Reaches(cfg, old(State()), State())
      ensures r.Done? ==> |r.value| == length && ReadBack(cfg, old(State()), State(), pid, start, r.value)
      ensures r.Done? ==> Landed(State(), PageAt(cfg, pid, start + length - 1)) && SomePresent(State())
      ensures r.Done? ==> StaysOwned(cfg, old(State()), State())
      ensures r.Done? ==> lruClock == old(lruClock) + Touches(cfg.pageSize, start, length)
      ensures r.Stuck? ==> !Sure(cfg, old(State()), State(), Touches(cfg.pageSize, start, length))
    {
      hide Reaches, Inv, Accessed, CanEvict, Kept, SameShape, ReadBack, Landed, SomePresent, Space, AllOwned, Sure,
           Pages, PageIndex, PieceLength, PieceOffset;
      ghost var s := State();
      InvMeans(cfg, s);
      var size := cfg.pageSize;
      var first, last := PageIndex(size, start) + 1, PageIndex(size, start + length - 1) + 1;
      ReachesItself(cfg, s);
      ReadStart(cfg, s, pid, start);
      var read: seq<byte> := [];
      var n := first;
      while n <= last
        invariant first <= n <= last + 1 && |read| <= length
        invariant Valid() && SameShape(s, State()) && ReadBack(cfg, s, State(), pid, start, read)
        invariant Later(s, State()) && StaysOwned(cfg, s, State()) && Reaches(cfg, s, State())
        invariant pid in tables && |Space(cfg, State(), pid)| == |Space(cfg, s, pid)|
        invariant if n == first then read == [] else if n <= last then start + |read| == Pages(size, n - 1)
                  else |read| == length
        invariant n == last + 1 ==> Landed(State(), Key(pid, last))
        invariant lruClock == s.lruClock + n - first && (n > first || SomePresent(s) ==> SomePresent(State()))
      {
        var piece := PieceLength(size, start, length, n);
        PieceFits(size, start, length, n, |read|);
        ghost var m := State();
        r := ReadPiece(pid, n, start + |read|, PieceOffset(size, start, n), piece);
        ShapeTwice(s, m, State());
        ReachesTwice(cfg, s, m, State());
        if r.Stuck? {
          NotSure(cfg, s, m, State(), n - first, 1, Touches(size, start, length));
          return;
        }
        StaysTwice(cfg, s, m, State());
        ReadNext(cfg, s, m, State(), pid, start, read, r.value);
        read := read + r.value;
        n := n + 1;
      }
      r := Done(read);
    }
  }
}
