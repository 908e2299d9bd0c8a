/**
 The translation buffer: a short list of (process, page, frame) entries with the counters
 that FIFO and LRU replacement compare. An entry dropped stays in the list with every
 field at the largest 32-bit number and is used again by the next addition.
 */
module Tlb {
  import opened Options

  const EMPTY := 0xFFFF_FFFF

  datatype Entry = Entry(pid: nat, page: nat, frame: nat, fifo: nat, lru: nat)

  datatype Buffer = Buffer(entries: seq<Entry>, fifoClock: nat, lruClock: nat)

  predicate Blank(e: Entry) {
    e.pid == EMPTY && e.page == EMPTY && e.frame == EMPTY
  }

  const BLANK := Entry(EMPTY, EMPTY, EMPTY, EMPTY, EMPTY)

  /** The first entry of a page, or the length of the list. */
  function FindKey(es: seq<Entry>, pid: nat, page: nat): (k: nat)
    ensures k <= |es|
    ensures forall i :: 0 <= i < k ==> !(es[i].pid == pid && es[i].page == page)
    ensures k < |es| ==> es[k].pid == pid && es[k].page == page
  {
    if es == [] || (es[0].pid == pid && es[0].page == page) then 0 else 1 + FindKey(es[1..], pid, page)
  }

  function FindExact(es: seq<Entry>, pid: nat, page: nat, frame: nat): (k: nat)
    ensures k <= |es|
    ensures forall i :: 0 <= i < k ==> !(es[i].pid == pid && es[i].page == page && es[i].frame == frame)
    ensures k < |es| ==> es[k].pid == pid && es[k].page == page && es[k].frame == frame
  {
    if es == [] || (es[0].pid == pid && es[0].page == page && es[0].frame == frame) then 0
    else 1 + FindExact(es[1..], pid, page, frame)
  }

  function FindBlank(es: seq<Entry>): (k: nat)
    ensures k <= |es|
    ensures forall i :: 0 <= i < k ==> !Blank(es[i])
    ensures k < |es| ==> Blank(es[k])
  {
    if es == [] || Blank(es[0]) then 0 else 1 + FindBlank(es[1..])
  }

  function Age(e: Entry, byFifo: bool): nat {
    if byFifo then e.fifo else e.lru
  }

  /** The entry with the smallest counter, the last of them where several tie. */
  function Oldest(es: seq<Entry>, byFifo: bool): (k: nat)
    requires es != []
    ensures k < |es|
    ensures forall i :: 0 <= i < |es| ==> Age(es[k], byFifo) <= Age(es[i], byFifo)
    ensures forall i :: k < i < |es| ==> Age(es[k], byFifo) < Age(es[i], byFifo)
  {
    var n := |es| - 1;
    if n == 0 then 0
    else
      var k := Oldest(es[..n], byFifo);
      if Age(es[k], byFifo) < Age(es[n], byFifo) then k else n
  }

  /** Where an addition goes: a blank entry, the end of the list, or the oldest entry. */
  function Slot(es: seq<Entry>, max: nat, byFifo: bool): (k: nat)
    requires max > 0
    ensures k <= |es| && (k == |es| ==> |es| < max)
  {
    var b := FindBlank(es);
    if b < |es| then b else if |es| < max then |es| else Oldest(es, byFifo)
  }

  /** add_entrada_tlb. */
  function Add(t: Buffer, max: nat, byFifo: bool, pid: nat, page: nat, frame: nat): Buffer
    requires max > 0
  {
    if FindExact(t.entries, pid, page, frame) < |t.entries| then t
    else
      var e := Entry(pid, page, frame, t.fifoClock, t.lruClock);
      var k := Slot(t.entries, max, byFifo);
      Buffer(if k < |t.entries| then t.entries[k := e] else t.entries + [e], t.fifoClock + 1, t.lruClock + 1)
  }

  /** delete_entrada_tlb. */
  function Drop(t: Buffer, pid: nat, page: nat, frame: nat): Buffer {
    var k := FindExact(t.entries, pid, page, frame);
    if k < |t.entries| then t.(entries := t.entries[k := BLANK]) else t
  }

  /** What fetch_entrada_tlb changes when it finds the page. */
  function Used(t: Buffer, pid: nat, page: nat): Buffer {
    var k := FindKey(t.entries, pid, page);
    if k < |t.entries| then t.(entries := t.entries[k := t.entries[k].(lru := t.lruClock)], lruClock := t.lruClock + 1)
    else t
  }

  function Lookup(t: Buffer, pid: nat, page: nat): Option<nat> {
    var k := FindKey(t.entries, pid, page);
    if k < |t.entries| then Some(t.entries[k].frame) else None
  }

  ghost predicate UniqueKeys(es: seq<Entry>) {
    forall i, j :: 0 <= i < j < |es| && es[i].pid == es[j].pid && es[i].page == es[j].page ==> es[i].page == EMPTY
  }

  /** An entry is blank or has counters that the clocks are ahead of. */
  ghost predicate ClocksAhead(t: Buffer) {
    forall i :: 0 <= i < |t.entries| ==>
      var e := t.entries[i];
      if e.page == EMPTY then e == BLANK else e.fifo < t.fifoClock && e.lru < t.lruClock
  }

  ghost predicate Ok(t: Buffer, max: nat) {
    |t.entries| <= max && UniqueKeys(t.entries) && ClocksAhead(t)
  }

  lemma FindKeyIs(es: seq<Entry>, pid: nat, page: nat, k: nat)
    requires UniqueKeys(es) && page != EMPTY && k < |es| && es[k].pid == pid && es[k].page == page
    ensures FindKey(es, pid, page) == k
  {
  }

  /** Rewriting one entry changes the lookup only of the page it held and the page it holds. */
  lemma LookupElsewhere(es: seq<Entry>, es': seq<Entry>, k: nat, q: nat, n: nat)
    requires UniqueKeys(es) && UniqueKeys(es') && n != EMPTY && k < |es'| && |es| <= |es'|
    requires forall i :: 0 <= i < |es| && i != k ==> es'[i] == es[i]
    requires |es'| == |es| || (k == |es| && |es'| == k + 1)
    requires es'[k].pid != q || es'[k].page != n
    ensures var a, b := FindKey(es', q, n), FindKey(es, q, n);
      if b < |es| && b != k then a == b else a == |es'|
  {
    var b := FindKey(es, q, n);
    if b < |es| && b != k {
      FindKeyIs(es', q, n, b);
    }
  }

  /**
   An addition never makes the buffer exceed its size or hold a page twice, makes its page
   found at once, and loses at most one other page.
   */
  lemma AddThenLookup(t: Buffer, max: nat, byFifo: bool, pid: nat, page: nat, frame: nat, q: nat, n: nat)
    requires max > 0 && Ok(t, max) && page != EMPTY && n != EMPTY
    requires Lookup(t, pid, page) in {None, Some(frame)}
    ensures var t' := Add(t, max, byFifo, pid, page, frame);
      && Ok(t', max)
      && Lookup(t', pid, page) == Some(frame)
      && (Lookup(t', q, n) in {None, Lookup(t, q, n)} || (q, n) == (pid, page))
  {
    var t' := Add(t, max, byFifo, pid, page, frame);
    var e := FindExact(t.entries, pid, page, frame);
    if e < |t.entries| {
      FindKeyIs(t.entries, pid, page, e);
    } else {
      assert FindKey(t.entries, pid, page) == |t.entries|;
      var k := Slot(t.entries, max, byFifo);
      FindKeyIs(t'.entries, pid, page, k);
      if (q, n) != (pid, page) {
        LookupElsewhere(t.entries, t'.entries, k, q, n);
      }
    }
  }

  lemma DropThenLookup(t: Buffer, max: nat, pid: nat, page: nat, frame: nat, q: nat, n: nat)
    requires Ok(t, max) && page != EMPTY && n != EMPTY
    ensures var t' := Drop(t, pid, page, frame);
      && Ok(t', max)
      && Lookup(t', q, n) == if (q, n) == (pid, page) && Lookup(t, q, n) == Some(frame) then None else Lookup(t, q, n)
  {
    var k := FindExact(t.entries, pid, page, frame);
    if k < |t.entries| {
      FindKeyIs(t.entries, pid, page, k);
      LookupElsewhere(t.entries, t.entries[k := BLANK], k, q, n);
    }
  }

  lemma UsedThenLookup(t: Buffer, max: nat, pid: nat, page: nat, q: nat, n: nat)
    requires Ok(t, max) && page != EMPTY && n != EMPTY
    ensures Ok(Used(t, pid, page), max) && Lookup(Used(t, pid, page), q, n) == Lookup(t, q, n)
  {
    var k := FindKey(t.entries, pid, page);
    if k < |t.entries| {
      if (q, n) == (pid, page) {
        FindKeyIs(Used(t, pid, page).entries, pid, page, k);
      } else {
        LookupElsewhere(t.entries, Used(t, pid, page).entries, k, q, n);
      }
    }
  }

  /** The page has an entry, used more recently than any other. */
  ghost predicate Newest(t: Buffer, pid: nat, page: nat) {
    exists k ::
      && 0 <= k < |t.entries| && t.entries[k].pid == pid && t.entries[k].page == page
      && forall i :: 0 <= i < |t.entries| && i != k && t.entries[i].page != EMPTY ==>
           t.entries[i].lru < t.entries[k].lru
  }

  lemma UsedIsNewest(t: Buffer, max: nat, pid: nat, page: nat)
    requires Ok(t, max) && page != EMPTY && Lookup(t, pid, page).Some?
    ensures Newest(Used(t, pid, page), pid, page)
  {
    var k, u := FindKey(t.entries, pid, page), Used(t, pid, page);
    assert u.entries[k].pid == pid && u.entries[k].page == page;
  }

  lemma AddedIsNewest(t: Buffer, max: nat, byFifo: bool, pid: nat, page: nat, frame: nat)
    requires max > 0 && Ok(t, max) && page != EMPTY && Lookup(t, pid, page).None?
    ensures Newest(Add(t, max, byFifo, pid, page, frame), pid, page)
  {
    var k, u := Slot(t.entries, max, byFifo), Add(t, max, byFifo, pid, page, frame);
    assert FindExact(t.entries, pid, page, frame) == |t.entries|;
    assert u.entries[k].pid == pid && u.entries[k].page == page;
  }

  lemma FoundIsNotAdded(t: Buffer, max: nat, byFifo: bool, pid: nat, page: nat, frame: nat)
    requires max > 0 && Lookup(t, pid, page) == Some(frame)
    ensures Add(t, max, byFifo, pid, page, frame) == t
  {
  }
}
