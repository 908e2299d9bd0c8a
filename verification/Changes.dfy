/**
 Every state of the memory process comes about by elementary changes: a page accessed, bytes
 copied into a frame, a page sent, a page or a process added or taken away. Each of them keeps
 the invariant, so whatever the requests made of them do keeps it too.
 */
module Changes {
  import opened Bytes
  import opened Paging
  import opened Replacement
  import opened FlatSpace
  import opened Spaces
  import opened HeapOps
  import opened FreeFlag
  import opened HeapCalls
  import opened Swap
  import Tlb

  datatype Change =
    | Access(k: Key)
    | Attempt(k: Key, hand: nat)
    | Copy(k: Key, o: nat, data: seq<byte>)
    | Send(k: Key, content: seq<byte>)
    | Put(f: nat, content: seq<byte>)
    | Mark(k: Key)
    | Vacate(who: nat)
    | TurnHand(hand: nat)
    | Grow(pid: nat)
    | Enter(pid: nat)
    | Leave(pid: nat)
    | Cut(pid: nat, n: nat)
    | MoveLast(pid: nat, last: nat)
    | ForgetRefusal

  /** The change `x` takes `s` to `t`. */
  ghost predicate Changed(c: Settings, s: Mem, x: Change, t: Mem) {
    match x
    // getFrameDeUn, and what it leaves where replacement has no victim
    case Access(k) => Has(s, k) && Accessed(c, s, k, t)
    case Attempt(k, hand) => Has(s, k) && hand <= c.frameCount && t == Looked(c, s, k).(hand := hand)
    // memcpy into a page's frame and setPaginaAsModificado, or into any frame
    case Copy(k, o, data) => Has(s, k) && PageOf(s, k).present && o + |data| <= c.pageSize && t == Write(s, k, o, data)
    case Put(f, content) => f < c.frameCount && |content| == c.pageSize && t == SetFrame(s, f, content)
    case Mark(k) => Has(s, k) && t == Marked(s, k)
    case Send(k, content) => Has(s, k) && |content| == c.pageSize && t == Saved(c, s, k, content)
    // a replacement on behalf of a page to be added
    case Vacate(who) => Evicted(c, s, who, t)
    case TurnHand(hand) => hand <= c.frameCount && t == s.(hand := hand)
    // pages and processes that come and go
    case Grow(pid) =>
      && pid in s.tables && FreeFrame(c, s, 0) < c.frameCount && |s.tables[pid].pages| + 1 < MARK
      && t == AddedPage(c, s, pid)
    case Enter(pid) =>
      && pid !in s.tables && pid != MARK && FreeFrame(c, s, 0) < c.frameCount
      && (forall n :: Tlb.Lookup(s.tlb, pid, n).None?) && t == Created(c, s, pid)
    case Leave(pid) => pid in s.tables && t == Deleted(c, s, pid)
    case Cut(pid, n) => pid in s.tables && n <= |s.tables[pid].pages| && t == CutBy(c, s, pid, n)
    // bookkeeping
    case MoveLast(pid, last) => pid in s.tables && t == SetLast(s, pid, last)
    case ForgetRefusal => t == s.(rollBack := false)
  }

  datatype Trace = Start | Then(before: Trace, last: Change)

  /** One change after the other takes `s` to `t`. */
  ghost predicate Leads(c: Settings, s: Mem, xs: Trace, t: Mem) {
    match xs
    case Start => t == s
    case Then(before, x) => exists m :: Leads(c, s, before, m) && Changed(c, m, x, t)
  }

  ghost predicate Reaches(c: Settings, s: Mem, t: Mem) {
    exists xs :: Leads(c, s, xs, t)
  }

  // ---- the invariant -----------------------------------------------------------------------

  /** Each elementary change keeps the invariant. */
  lemma ChangeKeeps(c: Settings, s: Mem, x: Change, t: Mem)
    requires Inv(c, s) && Changed(c, s, x, t)
    ensures Inv(c, t)
  {
    hide Inv, Accessed, Evicted, FreeFrame, Tlb.Lookup, Looked, Write, SetFrame, Saved, AddedPage, Created, Deleted,
         CutBy, SetLast, Marked;
    match x
    case Access(k) => AccessIsInvisible(c, s, k, t);
    case Attempt(k, hand) => StuckKeeps(c, s, k, t);
    case Copy(k, o, data) => WriteKeeps(c, s, k, o, data);
    case Put(f, content) => SetFrameKeeps(c, s, f, content);
    case Mark(k) => MarkedKeeps(c, s, k);
    case Send(k, content) => SendKeeps(c, s, k, content);
    case Vacate(who) => EvictedKeeps(c, s, who, t);
    case TurnHand(hand) => HandKeeps(c, s, hand);
    case Grow(pid) => AddedGrows(c, s, pid);
    case Enter(pid) => CreatedKeeps(c, s, pid);
    case Leave(pid) => DeletedKeeps(c, s, pid);
    case Cut(pid, n) =>
      CutByCuts(c, s, pid, n);
      CutKeeps(c, s, t, pid, n);
    case MoveLast(pid, last) => SetLastKeeps(c, s, pid, last);
    case ForgetRefusal => ResetKeeps(c, s);
  }

  lemma {:induction false} LeadsKeeps(c: Settings, s: Mem, xs: Trace, t: Mem)
    requires Inv(c, s) && Leads(c, s, xs, t)
    ensures Inv(c, t)
  {
    hide Inv, Changed;
    match xs
    case Start =>
    case Then(before, x) =>
      var m :| Leads(c, s, before, m) && Changed(c, m, x, t);
      LeadsKeeps(c, s, before, m);
      ChangeKeeps(c, m, x, t);
  }

  /** Whatever is reached from a state that meets the invariant meets it. */
  lemma ReachesKeeps(c: Settings, s: Mem, t: Mem)
    requires Inv(c, s) && Reaches(c, s, t)
    ensures Inv(c, t)
  {
    hide Inv;
    var xs :| Leads(c, s, xs, t);
    LeadsKeeps(c, s, xs, t);
  }

  /** The state in which the memory process begins, next to a swap process that begins with empty files. */
  ghost predicate Begun(c: Settings, s: Mem) {
    && s == Mem([], map[], s.frames, Tlb.Buffer([], 0, 0), 0, 0, s.swamp, false, 0, {}, 0, [])
    && |s.frames| == c.frameCount && (forall f :: 0 <= f < c.frameCount ==> |s.frames[f]| == c.pageSize)
    && exists files: nat :: s.swamp == Empty(c.swap, files)
  }

  lemma BegunMeets(c: Settings, s: Mem)
    requires Supported(c) && Begun(c, s)
    ensures Inv(c, s) && forall p :: Sound(s, p)
  {
    var files: nat :| s.swamp == Empty(c.swap, files);
    EmptyIsRowed(c.swap, files);
  }

  /**
   In every state the memory process can get to, whatever swap answers: no two pages share a frame,
   present pages have frames and absent ones the marker, pages are numbered by their place, every
   buffer entry names a present page and its frame, and stamps tell when each page was last accessed.
   */
  lemma ReachedStructure(c: Settings, s: Mem, t: Mem)
    requires Supported(c) && Begun(c, s) && Reaches(c, s, t)
    ensures FramesExclusive(c, t) && Numbered(t) && TlbAgrees(c, t) && StampsAreHistory(t)
  {
    hide Reaches, FramesExclusive, Numbered, TlbAgrees, StampsAreHistory, Begun;
    BegunMeets(c, s);
    ReachesKeeps(c, s, t);
  }

  // ---- composing changes ----------------------------------------------------------------

  lemma ReachesItself(c: Settings, s: Mem)
    ensures Reaches(c, s, s)
  {
    assert Leads(c, s, Start, s);
  }

  lemma ReachesOne(c: Settings, s: Mem, m: Mem, x: Change, t: Mem)
    requires Reaches(c, s, m) && Changed(c, m, x, t)
    ensures Reaches(c, s, t)
  {
    hide Changed;
    var xs :| Leads(c, s, xs, m);
    assert Leads(c, s, Then(xs, x), t);
  }

  lemma ReachesFirst(c: Settings, s: Mem, x: Change, t: Mem)
    requires Changed(c, s, x, t)
    ensures Reaches(c, s, t)
  {
    hide Changed;
    ReachesItself(c, s);
    ReachesOne(c, s, s, x, t);
  }

  lemma {:induction false} LeadsTwice(c: Settings, s: Mem, m: Mem, ys: Trace, t: Mem)
    requires Reaches(c, s, m) && Leads(c, m, ys, t)
    ensures Reaches(c, s, t)
  {
    hide Changed, Reaches;
    match ys
    case Start =>
    case Then(before, x) =>
      var n :| Leads(c, m, before, n) && Changed(c, n, x, t);
      LeadsTwice(c, s, m, before, n);
      ReachesOne(c, s, n, x, t);
  }

  lemma ReachesTwice(c: Settings, s: Mem, m: Mem, t: Mem)
    requires Reaches(c, s, m) && Reaches(c, m, t)
    ensures Reaches(c, s, t)
  {
    hide Leads;
    var ys :| Leads(c, m, ys, t);
    LeadsTwice(c, s, m, ys, t);
  }

  // ---- the changes the calls are made of -----------------------------------------------------

  lemma AccessReaches(c: Settings, s: Mem, k: Key, t: Mem)
    requires Has(s, k) && Accessed(c, s, k, t)
    ensures Reaches(c, s, t)
  {
    hide Accessed, Reaches;
    ReachesFirst(c, s, Access(k), t);
  }

  lemma AttemptReaches(c: Settings, s: Mem, k: Key, t: Mem)
    requires Has(s, k) && t == Looked(c, s, k).(hand := t.hand) && t.hand <= c.frameCount
    ensures Reaches(c, s, t)
  {
    hide Reaches;
    ReachesFirst(c, s, Attempt(k, t.hand), t);
  }

  /** An access, then bytes copied into the page. */
  lemma WriteReaches(c: Settings, s: Mem, k: Key, m: Mem, o: nat, data: seq<byte>)
    requires Inv(c, s) && Has(s, k) && Accessed(c, s, k, m) && o + |data| <= c.pageSize
    ensures Has(m, k) && Reaches(c, s, Write(m, k, o, data)) && Inv(c, Write(m, k, o, data))
  {
    hide Inv, Accessed, Reaches, Write, SameBytes;
    AccessIsInvisible(c, s, k, m);
    AccessReaches(c, s, k, m);
    ReachesOne(c, s, m, Copy(k, o, data), Write(m, k, o, data));
    WriteKeeps(c, m, k, o, data);
  }

  /** ... and the page sent. */
  lemma EditReaches(c: Settings, s: Mem, k: Key, m: Mem, o: nat, data: seq<byte>)
    requires Inv(c, s) && Has(s, k) && Accessed(c, s, k, m) && o + |data| <= c.pageSize
    ensures Has(m, k) && Reaches(c, s, Edited(c, m, k, o, data))
  {
    hide Inv, Accessed, Reaches, Saved, SameBytes;
    WriteReaches(c, s, k, m, o, data);
    AccessIsInvisible(c, s, k, m);
    var w := Write(m, k, o, data);
    FrameSized(c, w, k, m, o, data);
    ReachesOne(c, s, w, Send(k, FrameAt(w, PageOf(m, k).frame)), Edited(c, m, k, o, data));
  }

  lemma FrameSized(c: Settings, w: Mem, k: Key, m: Mem, o: nat, data: seq<byte>)
    requires Inv(c, w) && Has(m, k) && w == Write(m, k, o, data) && PageOf(m, k).present
    ensures |FrameAt(w, PageOf(m, k).frame)| == c.pageSize
  {
    hide StampsAreHistory, TlbAgrees, DynamicOk;
    assert PageOf(w, k).present && PageOf(w, k).frame == PageOf(m, k).frame;
  }

  /** A page copied back to a frame, marked and sent. */
  lemma PutBackReaches(c: Settings, s: Mem, k: Key, f: nat, content: seq<byte>)
    requires Has(s, k) && f < c.frameCount && |content| == c.pageSize
    ensures Reaches(c, s, PutBack(c, s, k, f, content))
  {
    hide Reaches, Saved;
    var m := SetFrame(s, f, content);
    ReachesFirst(c, s, Put(f, content), m);
    ReachesOne(c, s, m, Mark(k), Marked(m, k));
    ReachesOne(c, s, Marked(m, k), Send(k, content), PutBack(c, s, k, f, content));
  }

  lemma CutReaches(c: Settings, s: Mem, pid: nat, n: nat)
    requires pid in s.tables && n <= |s.tables[pid].pages|
    ensures Reaches(c, s, CutBy(c, s, pid, n))
  {
    hide Reaches;
    ReachesFirst(c, s, Cut(pid, n), CutBy(c, s, pid, n));
  }

  lemma CutMeets(c: Settings, s: Mem, pid: nat, n: nat)
    requires Inv(c, s) && pid in s.tables && n <= |s.tables[pid].pages|
    ensures var t := CutBy(c, s, pid, n); Inv(c, t) && CutTo(c, s, t, pid, n) && Reaches(c, s, t)
  {
    hide Inv, CutTo, CutBy, Reaches, Space, SameOthers;
    CutByCuts(c, s, pid, n);
    CutKeeps(c, s, CutBy(c, s, pid, n), pid, n);
    CutReaches(c, s, pid, n);
  }

  /** One page taken out of a list whose pages between are gone already. */
  lemma OneLess(pages: seq<Page>, k: nat, n: nat)
    requires k <= n < |pages| && forall i :: 0 <= i < |pages| ==> pages[i].num == i + 1
    ensures var now := pages[..k] + pages[n..];
      && now[k] == pages[n] && now[k].num == n + 1 && now[..k] + now[k + 1..] == pages[..k] + pages[n + 1..]
      && forall j :: 0 <= j < k ==> now[j].num != n + 1
  {
  }

  lemma DropsNone(c: Settings, b: Tlb.Buffer, pid: nat, pages: seq<Page>, k: nat)
    requires k <= |pages|
    ensures DropPages(c, b, pid, pages, k, k) == b
  {
  }

  lemma DropsNext(c: Settings, b: Tlb.Buffer, pid: nat, pages: seq<Page>, k: nat, n: nat)
    requires k <= n < |pages|
    ensures DropPages(c, b, pid, pages, k, n + 1) ==
            if c.tlbMax == 0 then b
            else Tlb.Drop(Tlb.Used(DropPages(c, b, pid, pages, k, n), pid, n + 1), pid, n + 1, pages[n].frame)
    ensures c.tlbMax == 0 ==> DropPages(c, b, pid, pages, k, n) == b
  {
  }

  lemma MoveReaches(c: Settings, s: Mem, m: Mem, pid: nat, last: nat)
    requires Reaches(c, s, m) && pid in m.tables
    ensures Reaches(c, s, SetLast(m, pid, last))
  {
    hide Reaches;
    ReachesOne(c, s, m, MoveLast(pid, last), SetLast(m, pid, last));
  }

  /** A page in memory sent, from whichever frame. */
  lemma SendReaches(c: Settings, s: Mem, m: Mem, k: Key, f: nat)
    requires Reaches(c, s, m) && Landed(m, k) && |FrameAt(m, f)| == c.pageSize
    ensures Has(m, k) && Reaches(c, s, Saved(c, m, k, FrameAt(m, f)))
  {
    hide Reaches, Saved;
    ReachesOne(c, s, m, Send(k, FrameAt(m, f)), Saved(c, m, k, FrameAt(m, f)));
  }

  /** A frame overwritten behind its page's back. */
  lemma PutReaches(c: Settings, s: Mem, m: Mem, f: nat, content: seq<byte>)
    requires Reaches(c, s, m) && f < c.frameCount && |content| == c.pageSize
    ensures Reaches(c, s, SetFrame(m, f, content))
  {
    hide Reaches;
    ReachesOne(c, s, m, Put(f, content), SetFrame(m, f, content));
  }

  lemma VacateReaches(c: Settings, s: Mem, who: nat, t: Mem)
    requires Evicted(c, s, who, t)
    ensures Reaches(c, s, t)
  {
    hide Reaches, Evicted;
    ReachesFirst(c, s, Vacate(who), t);
  }

  lemma TurnReaches(c: Settings, s: Mem, t: Mem)
    requires Inv(c, t) && t == s.(hand := t.hand)
    ensures Reaches(c, s, t)
  {
    hide Reaches;
    ReachesFirst(c, s, TurnHand(t.hand), t);
  }

  lemma EnterReaches(c: Settings, s: Mem, pid: nat)
    requires pid !in s.tables && pid != MARK && FreeFrame(c, s, 0) < c.frameCount
    requires forall n :: Tlb.Lookup(s.tlb, pid, n).None?
    ensures Reaches(c, s, Created(c, s, pid))
  {
    hide Reaches;
    ReachesFirst(c, s, Enter(pid), Created(c, s, pid));
  }

  lemma LeaveReaches(c: Settings, s: Mem, pid: nat)
    requires pid in s.tables
    ensures Reaches(c, s, Deleted(c, s, pid))
  {
    hide Reaches;
    ReachesFirst(c, s, Leave(pid), Deleted(c, s, pid));
  }
}
