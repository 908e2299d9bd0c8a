/**
 Whole runs of memalloc, memfree and memwrite on one heap, against what they promise their
 caller: a map from addresses to byte arrays that only the calls on an address change.
 */
module HeapRuns {
  import opened Arith
  import opened Bytes
  import opened Heap

  /** `more` is what the pages added by a growing memalloc hold. */
  datatype Op =
    | Malloc(n: nat, more: seq<byte>)
    | Mfree(a: nat)
    | Mwrite(a: nat, data: seq<byte>)

  /** The new block fits behind the last header in the pages there are. */
  predicate FitsBehind(h: Heap, n: nat) {
    NewLast(h.last, n) + HEADER <= |h.bytes|
  }

  /** The block memalloc reuses, or the last header. */
  function Choice(h: Heap, c: seq<nat>, n: nat): nat
    requires c != []
  {
    FirstFit(h.bytes, c, n, 0)
  }

  /** Growth brings exactly the pages memalloc asks for, within the address range. */
  predicate GrownBy(size: nat, h: Heap, n: nat, more: seq<byte>)
    requires size > 0 && HasHeader(h.bytes, h.last)
  {
    if FitsBehind(h, n) then more == []
    else |more| == Pages(size, PagesToAdd(size, |h.bytes|, h.last, n)) && |h.bytes| + |more| < ADDRESS_LIMIT
  }

  /** The heap is a whole number of pages. */
  ghost predicate Paged(size: nat, h: Heap) {
    exists k: nat :: |h.bytes| == Pages(size, k)
  }

  /**
   Calls on live allocations, outside the two branches that break the chain
   (ReuseKeepsChain, FreeKeepsChain).
   */
  ghost predicate Allowed(size: nat, h: Heap, c: seq<nat>, op: Op)
    requires size > 0 && Chain(h, c)
  {
    match op
    case Malloc(n, more) =>
      var k := Choice(h, c, n);
      if k < |c| - 1 then more == [] && !Splits(h.bytes, c[k], n) else GrownBy(size, h, n, more)
    case Mfree(a) =>
      a in Live(h, c) && HasHeader(h.bytes, Prev(h.bytes, a)) && !Releases(size, h, a)
    case Mwrite(a, data) =>
      a in Live(h, c) && |data| <= |Live(h, c)[a]|
  }

  /** What a call does to the heap, as the memory process does it on the bytes. */
  ghost predicate Done(size: nat, h: Heap, c: seq<nat>, op: Op, h': Heap, c': seq<nat>)
    requires size > 0 && Chain(h, c) && Allowed(size, h, c, op)
  {
    match op
    case Malloc(n, more) =>
      var k := Choice(h, c, n);
      if k < |c| - 1 then c' == c && HasHeader(h.bytes, c[k]) && h' == SetFlag(h, c[k], BUSY)
      else c' == c + [NewLast(h.last, n)] && HasHeader(h.bytes + more, NewLast(h.last, n)) &&
           |h.bytes + more| < ADDRESS_LIMIT && h' == Append(h.bytes + more, h.last, n)
    case Mfree(a) =>
      && HasHeader(h.bytes, Next(h.bytes, a)) && (Prev(h.bytes, a) + HEADER <= a || a == 0)
      && h' == Free(size, h, a) && c' == if PrevIsFree(h, a) then RemoveFirst(c, a) else c
    case Mwrite(a, data) =>
      c' == c && a + HEADER + |data| <= |h.bytes| && h' == Store(h, a, data)
  }

  function RemoveFirst(c: seq<nat>, a: nat): seq<nat> {
    if c == [] then [] else if c[0] == a then c[1..] else [c[0]] + RemoveFirst(c[1..], a)
  }

  /** The address a call returns or works on. */
  function Target(h: Heap, c: seq<nat>, op: Op): nat
    requires c != []
  {
    match op
    case Malloc(n, _) => c[Choice(h, c, n)]
    case Mfree(a) => a
    case Mwrite(a, _) => a
  }

  /** What the caller is promised of each call, where `t` is the address returned by memalloc. */
  ghost predicate Promised(m: map<nat, seq<byte>>, op: Op, t: nat, m': map<nat, seq<byte>>) {
    match op
    case Malloc(n, _) => t !in m && t in m' && |m'[t]| >= n && m' == m[t := m'[t]]
    case Mfree(a) => a in m && m' == m - {a}
    case Mwrite(a, data) => a in m && |data| <= |m[a]| && m' == m[a := Patch(m[a], 0, data)]
  }

  lemma {:induction false} RemoveIs(c: seq<nat>, k: nat)
    requires k < |c| && forall i :: 0 <= i < k ==> c[i] != c[k]
    ensures RemoveFirst(c, c[k]) == Without(c, k)
  {
    if k > 0 {
      RemoveIs(c[1..], k - 1);
      assert Without(c, k) == [c[0]] + Without(c[1..], k - 1);
    }
  }

  lemma ReuseRefines(h: Heap, c: seq<nat>, k: nat, n: nat)
    requires Chain(h, c) && k < |c| - 1 && HasHeader(h.bytes, c[k]) && Fits(h.bytes, c[k], n)
    ensures Chain(SetFlag(h, c[k], BUSY), c)
    ensures c[k] !in Live(h, c) && |Payload(h.bytes, c[k])| >= n
    ensures Live(SetFlag(h, c[k], BUSY), c) == Live(h, c)[c[k] := Payload(h.bytes, c[k])]
  {
    hide Chain, Live;
    FlagKeeps(h, c, k, BUSY);
    LiveAt(h, c, k);
    PayloadOf(h, c, k);
    ChainInRange(h, c, k + 1);
  }

  lemma AppendRefines(size: nat, h: Heap, c: seq<nat>, n: nat, more: seq<byte>)
    requires size > 0 && Chain(h, c) && Paged(size, h) && GrownBy(size, h, n, more)
    ensures var g, end := h.bytes + more, NewLast(h.last, n);
      && HasHeader(g, end) && |g| < ADDRESS_LIMIT && Chain(Append(g, h.last, n), c + [end])
      && h.last !in Live(h, c) && |g[h.last + HEADER..end]| == n
      && Live(Append(g, h.last, n), c + [end]) == Live(h, c)[h.last := g[h.last + HEADER..end]]
      && Paged(size, Append(g, h.last, n))
  {
    hide Chain, Live;
    LastIsNoBlock(h, c);
    var k: nat :| |h.bytes| == Pages(size, k);
    var g := h.bytes + more;
    if !FitsBehind(h, n) {
      GrowthIsExact(size, k, h.last, n);
      PagesSum(size, k, PagesToAdd(size, |h.bytes|, h.last, n));
      assert |g| == Pages(size, k + PagesToAdd(size, |h.bytes|, h.last, n));
    }
    AppendKeeps(h, c, g, n);
  }

  lemma {:induction false} PagesSum(size: nat, k: nat, n: nat)
    ensures Pages(size, k + n) == Pages(size, k) + Pages(size, n)
  {
    if n > 0 {
      PagesSum(size, k, n - 1);
    }
  }

  lemma FreeRefines(size: nat, h: Heap, c: seq<nat>, a: nat)
    requires size > 0 && Chain(h, c) && a in Live(h, c)
    requires HasHeader(h.bytes, Prev(h.bytes, a)) && !Releases(size, h, a)
    ensures HasHeader(h.bytes, Next(h.bytes, a)) && (Prev(h.bytes, a) + HEADER <= a || a == 0)
    ensures var c' := if PrevIsFree(h, a) then RemoveFirst(c, a) else c;
      && Chain(Free(size, h, a), c') && Live(Free(size, h, a), c') == Live(h, c) - {a}
      && |Free(size, h, a).bytes| == |h.bytes|
  {
    hide Chain;
    var k := BlockIndex(h, c, a);
    forall i | 0 <= i < k ensures c[i] != c[k] {
      ChainOrder(h, c, i, k);
    }
    RemoveIs(c, k);
    FreeKeeps(size, h, c, k);
  }

  /** Every call keeps the heap well formed and does to the live allocations exactly what it promises. */
  lemma CallRefines(size: nat, h: Heap, c: seq<nat>, op: Op, h': Heap, c': seq<nat>)
    requires size > 0 && Chain(h, c) && Paged(size, h) && Allowed(size, h, c, op) && Done(size, h, c, op, h', c')
    ensures c != [] && Chain(h', c') && Paged(size, h') && Promised(Live(h, c), op, Target(h, c, op), Live(h', c'))
  {
    hide Chain, Live, Free, Append, Releases;
    LastIsNoBlock(h, c);
    match op
    case Malloc(n, more) =>
      var k := Choice(h, c, n);
      if k < |c| - 1 {
        ReuseRefines(h, c, k, n);
      } else {
        AppendRefines(size, h, c, n, more);
      }
    case Mfree(a) =>
      FreeRefines(size, h, c, a);
    case Mwrite(a, data) =>
      StoreKeeps(h, c, a, data);
  }

  // ---- runs ---------------------------------------------------------------------------------------

  datatype Point = Point(h: Heap, c: seq<nat>)

  /** One call after another, each allowed where it is made. */
  ghost predicate Run(size: nat, ps: seq<Point>, ops: seq<Op>) {
    && size > 0 && |ps| == |ops| + 1 && Chain(ps[0].h, ps[0].c) && Paged(size, ps[0].h)
    && forall i :: 0 <= i < |ops| ==> Called(size, ps[i], ops[i], ps[i + 1])
  }

  ghost predicate Called(size: nat, p: Point, op: Op, q: Point)
    requires size > 0
  {
    Chain(p.h, p.c) ==> Allowed(size, p.h, p.c, op) && Done(size, p.h, p.c, op, q.h, q.c)
  }

  lemma {:induction false} RunKeeps(size: nat, ps: seq<Point>, ops: seq<Op>, i: nat)
    requires Run(size, ps, ops) && i < |ps|
    ensures Chain(ps[i].h, ps[i].c) && Paged(size, ps[i].h)
    ensures i > 0 ==>
      && i <= |ops| && ps[i - 1].c != []
      && Promised(Live(ps[i - 1].h, ps[i - 1].c), ops[i - 1], Target(ps[i - 1].h, ps[i - 1].c, ops[i - 1]),
                  Live(ps[i].h, ps[i].c))
  {
    hide Chain, Live, Paged, Promised, Allowed, Done;
    if i > 0 {
      RunKeeps(size, ps, ops, i - 1);
      assert Called(size, ps[i - 1], ops[i - 1], ps[(i - 1) + 1]);
      CallRefines(size, ps[i - 1].h, ps[i - 1].c, ops[i - 1], ps[i].h, ps[i].c);
    }
  }

  /** The call is made on allocation `a`. */
  predicate On(op: Op, a: nat) {
    match op
    case Malloc(_, _) => false
    case Mfree(b) => b == a
    case Mwrite(b, _) => b == a
  }

  /** Allocations are independent: whatever is called on others, an allocation keeps its bytes. */
  lemma {:induction false} OthersKeepBytes(size: nat, ps: seq<Point>, ops: seq<Op>, i: nat, j: nat, a: nat)
    requires Run(size, ps, ops) && i <= j < |ps| && a in Live(ps[i].h, ps[i].c)
    requires forall x :: i <= x < j ==> !On(ops[x], a)
    ensures a in Live(ps[j].h, ps[j].c) && Live(ps[j].h, ps[j].c)[a] == Live(ps[i].h, ps[i].c)[a]
    decreases j
  {
    hide Run, Live;
    if i < j {
      OthersKeepBytes(size, ps, ops, i, j - 1, a);
      RunKeeps(size, ps, ops, j);
      assert !On(ops[j - 1], a);
    }
  }

  /** Live allocations do not overlap, headers included. */
  lemma LiveApart(h: Heap, c: seq<nat>, a: nat, b: nat)
    requires Chain(h, c) && a in Live(h, c) && b in Live(h, c) && a < b
    ensures a + HEADER + |Live(h, c)[a]| <= b
  {
    var i := BlockIndex(h, c, a);
    var j := BlockIndex(h, c, b);
    if j <= i {
      if j < i { ChainOrder(h, c, j, i); }
    } else {
      PayloadOf(h, c, i);
      if i + 1 < j { ChainOrder(h, c, i + 1, j); }
    }
  }
}
