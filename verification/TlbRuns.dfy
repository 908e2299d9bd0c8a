/** Which entry the translation buffer gives up: by its counters in one addition, by age over whole runs. */
module TlbRuns {
  import opened Options
  import opened Tlb

  ghost predicate Full(t: Buffer, max: nat) {
    |t.entries| >= max && forall i :: 0 <= i < |t.entries| ==> !Blank(t.entries[i])
  }

  /** The page at `k` is lost and every other page but the one added is found as before. */
  ghost predicate OnlyLost(t: Buffer, t': Buffer, k: nat, pid: nat, page: nat)
    requires k < |t.entries|
  {
    forall q: nat, n: nat :: n != EMPTY && (q, n) != (pid, page) ==>
      Lookup(t', q, n) == if (q, n) == (t.entries[k].pid, t.entries[k].page) then None else Lookup(t, q, n)
  }

  ghost predicate NoneLost(t: Buffer, t': Buffer, pid: nat, page: nat) {
    forall q: nat, n: nat :: n != EMPTY && (q, n) != (pid, page) ==> Lookup(t', q, n) == Lookup(t, q, n)
  }

  /** The entry's counter for the algorithm, by arrival or by use, is smaller than any other's. */
  ghost predicate Least(t: Buffer, byFifo: bool, k: nat)
    requires k < |t.entries|
  {
    forall i :: 0 <= i < |t.entries| ==>
      if byFifo then t.entries[k].fifo <= t.entries[i].fifo else t.entries[k].lru <= t.entries[i].lru
  }

  /**
   An addition to a full buffer costs exactly one page, one with the smallest counter; any other addition costs
   none. A page found already changes nothing.
   */
  lemma AddLosesLeast(t: Buffer, max: nat, byFifo: bool, pid: nat, page: nat, frame: nat)
    requires max > 0 && Ok(t, max) && page != EMPTY && Lookup(t, pid, page) in {None, Some(frame)}
    ensures var t' := Add(t, max, byFifo, pid, page, frame);
      if Lookup(t, pid, page).Some? then t' == t
      else if Full(t, max) then exists k :: 0 <= k < |t.entries| && Least(t, byFifo, k) && OnlyLost(t, t', k, pid, page)
      else NoneLost(t, t', pid, page)
  {
    var t' := Add(t, max, byFifo, pid, page, frame);
    if Lookup(t, pid, page).None? {
      var k := Slot(t.entries, max, byFifo);
      AddThenLookup(t, max, byFifo, pid, page, frame, pid, page);
      assert FindExact(t.entries, pid, page, frame) == |t.entries|;
      forall q: nat, n: nat | n != EMPTY && (q, n) != (pid, page)
        ensures Lookup(t', q, n) ==
                if k < |t.entries| && (q, n) == (t.entries[k].pid, t.entries[k].page) then None else Lookup(t, q, n)
      {
        LookupElsewhere(t.entries, t'.entries, k, q, n);
        if k < |t.entries| && (q, n) == (t.entries[k].pid, t.entries[k].page) {
          FindKeyIs(t.entries, q, n, k);
        }
      }
      if Full(t, max) {
        assert Least(t, byFifo, k) && OnlyLost(t, t', k, pid, page);
      } else if k < |t.entries| {
        assert t.entries[k].page == EMPTY;
      }
    }
  }

  // ---- runs ---------------------------------------------------------------------------------------------

  datatype Op =
    | Adds(pid: nat, page: nat, frame: nat)
    | Looks(pid: nat, page: nat)
    | Drops(pid: nat, page: nat, frame: nat)

  function Step(t: Buffer, max: nat, byFifo: bool, op: Op): Buffer
    requires max > 0
  {
    match op
    case Adds(pid, page, frame) => Add(t, max, byFifo, pid, page, frame)
    case Looks(pid, page) => Used(t, pid, page)
    case Drops(pid, page, frame) => Drop(t, pid, page, frame)
  }

  /** A page is never added with another frame than it is found in. */
  predicate Legal(t: Buffer, op: Op) {
    op.page != EMPTY && (op.Adds? ==> Lookup(t, op.pid, op.page) in {None, Some(op.frame)})
  }

  ghost predicate BufferRun(max: nat, byFifo: bool, ts: seq<Buffer>, ops: seq<Op>) {
    && max > 0 && |ts| == |ops| + 1 && ts[0] == Buffer([], 0, 0)
    && forall i :: 0 <= i < |ops| ==> Legal(ts[i], ops[i]) && ts[i + 1] == Step(ts[i], max, byFifo, ops[i])
  }

  /** When the page last came into the buffer: the number of the operation, from 1. */
  function Arrival(ts: seq<Buffer>, ops: seq<Op>, i: nat, q: nat, n: nat): (a: nat)
    requires i < |ts| && |ts| == |ops| + 1
    ensures a <= i
  {
    if i == 0 then 0
    else if ops[i - 1].Adds? && ops[i - 1].pid == q && ops[i - 1].page == n && Lookup(ts[i - 1], q, n).None? then i
    else Arrival(ts, ops, i - 1, q, n)
  }

  /** When the page last came into the buffer or was found there. */
  function LastUse(ts: seq<Buffer>, ops: seq<Op>, i: nat, q: nat, n: nat): (a: nat)
    requires i < |ts| && |ts| == |ops| + 1
    ensures a <= i
  {
    if i == 0 then 0
    else if ops[i - 1].pid == q && ops[i - 1].page == n
            && (if ops[i - 1].Adds? then Lookup(ts[i - 1], q, n).None?
                else ops[i - 1].Looks? && Lookup(ts[i - 1], q, n).Some?) then i
    else LastUse(ts, ops, i - 1, q, n)
  }

  function Since(ts: seq<Buffer>, ops: seq<Op>, i: nat, byFifo: bool, e: Entry): nat
    requires i < |ts| && |ts| == |ops| + 1
  {
    if byFifo then Arrival(ts, ops, i, e.pid, e.page) else LastUse(ts, ops, i, e.pid, e.page)
  }

  ghost predicate PairAged(ts: seq<Buffer>, ops: seq<Op>, i: nat, byFifo: bool, j: nat, l: nat)
    requires i < |ts| && |ts| == |ops| + 1 && j < |ts[i].entries| && l < |ts[i].entries|
  {
    var e, f := ts[i].entries[j], ts[i].entries[l];
    j != l && e.page != EMPTY && f.page != EMPTY ==>
      && Since(ts, ops, i, byFifo, e) != Since(ts, ops, i, byFifo, f)
      && (Age(e, byFifo) < Age(f, byFifo) <==> Since(ts, ops, i, byFifo, e) < Since(ts, ops, i, byFifo, f))
  }

  /** Counters order the entries as their arrivals and last uses do. */
  ghost predicate Aged(ts: seq<Buffer>, ops: seq<Op>, i: nat, byFifo: bool)
    requires i < |ts| && |ts| == |ops| + 1
  {
    forall j, l :: 0 <= j < |ts[i].entries| && 0 <= l < |ts[i].entries| ==> PairAged(ts, ops, i, byFifo, j, l)
  }

  lemma StepOk(t: Buffer, max: nat, byFifo: bool, op: Op)
    requires max > 0 && Ok(t, max) && Legal(t, op)
    ensures Ok(Step(t, max, byFifo, op), max)
  {
    match op
    case Adds(pid, page, frame) => AddThenLookup(t, max, byFifo, pid, page, frame, pid, page);
    case Looks(pid, page) => UsedThenLookup(t, max, pid, page, pid, page);
    case Drops(pid, page, frame) => DropThenLookup(t, max, pid, page, frame, pid, page);
  }

  /** An entry after a step is new or just used, with the clock's counter, or is as old as it was. */
  lemma EntryAfter(ts: seq<Buffer>, ops: seq<Op>, i: nat, max: nat, alg: bool, byFifo: bool, l: nat)
    requires BufferRun(max, alg, ts, ops) && i < |ops| && Ok(ts[i], max)
    requires l < |ts[i + 1].entries| && ts[i + 1].entries[l].page != EMPTY
    ensures var e := ts[i + 1].entries[l];
      || (Since(ts, ops, i + 1, byFifo, e) == i + 1 && e.pid == ops[i].pid && e.page == ops[i].page
          && Age(e, byFifo) == (if byFifo then ts[i].fifoClock else ts[i].lruClock))
      || (l < |ts[i].entries|
          && Since(ts, ops, i + 1, byFifo, e) == Since(ts, ops, i, byFifo, ts[i].entries[l])
          && Age(e, byFifo) == Age(ts[i].entries[l], byFifo) && ts[i].entries[l].page != EMPTY)
  {
    var t, e, op := ts[i], ts[i + 1].entries[l], ops[i];
    assert ts[i + 1] == Step(t, max, alg, op);
    if l < |t.entries| {
      if e.pid == op.pid && e.page == op.page && t.entries[l].pid == op.pid && t.entries[l].page == op.page {
        FindKeyIs(t.entries, op.pid, op.page, l);
      }
    }
    if op.Adds? && Lookup(t, op.pid, op.page).Some? {
      assert FindExact(t.entries, op.pid, op.page, op.frame) < |t.entries|;
    }
  }

  lemma AgedStep(ts: seq<Buffer>, ops: seq<Op>, i: nat, max: nat, alg: bool, byFifo: bool)
    requires BufferRun(max, alg, ts, ops) && i < |ops| && Ok(ts[i], max) && Ok(ts[i + 1], max)
    requires Aged(ts, ops, i, byFifo)
    ensures Aged(ts, ops, i + 1, byFifo)
  {
    hide PairAged, Ok, Step;
    var n := i + 1;
    forall j, l | 0 <= j < |ts[n].entries| && 0 <= l < |ts[n].entries| ensures PairAged(ts, ops, n, byFifo, j, l) {
      PairStep(ts, ops, i, max, alg, byFifo, j, l);
    }
  }

  lemma PairStep(ts: seq<Buffer>, ops: seq<Op>, i: nat, max: nat, alg: bool, byFifo: bool, j: nat, l: nat)
    requires BufferRun(max, alg, ts, ops) && i < |ops| && |ts| == |ops| + 1 && Ok(ts[i], max) && Ok(ts[i + 1], max)
    requires Aged(ts, ops, i, byFifo) && j < |ts[i + 1].entries| && l < |ts[i + 1].entries|
    ensures PairAged(ts, ops, i + 1, byFifo, j, l)
  {
    hide BufferRun, Since, Age;
    var e, f := ts[i + 1].entries[j], ts[i + 1].entries[l];
    if j != l && e.page != EMPTY && f.page != EMPTY {
      EntryAfter(ts, ops, i, max, alg, byFifo, j);
      EntryAfter(ts, ops, i, max, alg, byFifo, l);
      SinceBefore(ts, ops, i, byFifo, j);
      SinceBefore(ts, ops, i, byFifo, l);
      if j < |ts[i].entries| && l < |ts[i].entries| { assert PairAged(ts, ops, i, byFifo, j, l); }
    }
  }

  lemma SinceBefore(ts: seq<Buffer>, ops: seq<Op>, i: nat, byFifo: bool, l: nat)
    requires i < |ts| && |ts| == |ops| + 1 && ClocksAhead(ts[i])
    ensures l < |ts[i].entries| && ts[i].entries[l].page != EMPTY ==>
      && Since(ts, ops, i, byFifo, ts[i].entries[l]) <= i
      && Age(ts[i].entries[l], byFifo) < if byFifo then ts[i].fifoClock else ts[i].lruClock
  {
  }

  lemma {:induction false} RunAged(ts: seq<Buffer>, ops: seq<Op>, i: nat, max: nat, alg: bool, byFifo: bool)
    requires BufferRun(max, alg, ts, ops) && i < |ts|
    ensures Ok(ts[i], max) && Aged(ts, ops, i, byFifo)
  {
    hide Ok, Aged, Step;
    if i == 0 {
      NothingAged(ts, ops, max, byFifo);
    } else {
      RunAged(ts, ops, i - 1, max, alg, byFifo);
      assert ts[(i - 1) + 1] == Step(ts[i - 1], max, alg, ops[i - 1]);
      StepOk(ts[i - 1], max, alg, ops[i - 1]);
      AgedStep(ts, ops, i - 1, max, alg, byFifo);
    }
  }

  lemma NothingAged(ts: seq<Buffer>, ops: seq<Op>, max: nat, byFifo: bool)
    requires |ts| == |ops| + 1 && ts[0] == Buffer([], 0, 0)
    ensures Ok(ts[0], max) && Aged(ts, ops, 0, byFifo)
  {
  }

  /**
   In every run of additions, lookups and deletions, an addition to a full buffer costs exactly one page:
   under FIFO the one that came in longest ago, under LRU the one longest neither come in nor found.
   */
  lemma RunLosesOldest(ts: seq<Buffer>, ops: seq<Op>, i: nat, max: nat, byFifo: bool)
    requires BufferRun(max, byFifo, ts, ops) && i < |ops| && ops[i].Adds?
    requires Full(ts[i], max) && Lookup(ts[i], ops[i].pid, ops[i].page).None?
    ensures exists k ::
      && 0 <= k < |ts[i].entries| && OnlyLost(ts[i], ts[i + 1], k, ops[i].pid, ops[i].page)
      && forall l :: 0 <= l < |ts[i].entries| && l != k && ts[i].entries[l].page != EMPTY ==>
           var v, e := ts[i].entries[k], ts[i].entries[l];
           if byFifo then Arrival(ts, ops, i, v.pid, v.page) < Arrival(ts, ops, i, e.pid, e.page)
           else LastUse(ts, ops, i, v.pid, v.page) < LastUse(ts, ops, i, e.pid, e.page)
  {
    hide OnlyLost, PairAged, UniqueKeys, Step;
    var t, op := ts[i], ops[i];
    RunAged(ts, ops, i, max, byFifo, byFifo);
    assert ts[i + 1] == Step(t, max, byFifo, op) && Legal(t, op);
    StepIsAdd(t, max, byFifo, op);
    AddLosesLeast(t, max, byFifo, op.pid, op.page, op.frame);
    var k :| 0 <= k < |t.entries| && Least(t, byFifo, k) && OnlyLost(t, ts[i + 1], k, op.pid, op.page);
    forall l | 0 <= l < |t.entries| && l != k && t.entries[l].page != EMPTY
      ensures var v, e := t.entries[k], t.entries[l];
        if byFifo then Arrival(ts, ops, i, v.pid, v.page) < Arrival(ts, ops, i, e.pid, e.page)
        else LastUse(ts, ops, i, v.pid, v.page) < LastUse(ts, ops, i, e.pid, e.page)
    {
      assert PairAged(ts, ops, i, byFifo, l, k);
      LeastIsFirst(ts, ops, i, byFifo, k, l);
    }
  }

  lemma StepIsAdd(t: Buffer, max: nat, byFifo: bool, op: Op)
    requires max > 0 && op.Adds?
    ensures Step(t, max, byFifo, op) == Add(t, max, byFifo, op.pid, op.page, op.frame)
  {
  }

  lemma LeastIsFirst(ts: seq<Buffer>, ops: seq<Op>, i: nat, byFifo: bool, k: nat, l: nat)
    requires i < |ts| && |ts| == |ops| + 1 && k < |ts[i].entries| && l < |ts[i].entries| && l != k
    requires PairAged(ts, ops, i, byFifo, l, k) && Least(ts[i], byFifo, k) && ClocksAhead(ts[i])
    requires !Blank(ts[i].entries[k]) && ts[i].entries[l].page != EMPTY
    ensures Since(ts, ops, i, byFifo, ts[i].entries[k]) < Since(ts, ops, i, byFifo, ts[i].entries[l])
  {
  }
}
