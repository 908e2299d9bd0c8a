/**
 The heap of one process on its flat address space: 9-byte headers (previous header, next
 header, free flag) in a chain from address 0 to `last`, each followed by its block's bytes.
 */
module Heap {
  import opened Arith
  import opened Bytes

  const HEADER := 9
  const BUSY := 0
  const FREE := 1

  /** C addresses are ints. */
  const ADDRESS_LIMIT := 0x8000_0000

  datatype Heap = Heap(bytes: seq<byte>, last: nat)

  predicate HasHeader(b: seq<byte>, a: nat) {
    a + HEADER <= |b|
  }

  function Prev(b: seq<byte>, a: nat): nat
    requires HasHeader(b, a)
  {
    WordAt(b, a)
  }

  function Next(b: seq<byte>, a: nat): nat
    requires HasHeader(b, a)
  {
    WordAt(b, a + 4)
  }

  predicate IsFree(b: seq<byte>, a: nat)
    requires HasHeader(b, a)
  {
    b[a + 8] == FREE
  }

  lemma FlagMeans(b: seq<byte>, a: nat)
    requires HasHeader(b, a)
    ensures IsFree(b, a) <==> b[a + 8] == FREE
  {
  }

  /** The image of a header. */
  function Header(prev: nat, next: nat, flag: byte): (r: seq<byte>)
    requires prev < WORD_LIMIT && next < WORD_LIMIT
    ensures |r| == HEADER
  {
    Word(prev) + Word(next) + [flag]
  }

  // ---- the chain ---------------------------------------------------------------------------------

  /** Consecutive headers at least a header apart, linked both ways. */
  ghost predicate Linked(b: seq<byte>, a: nat, next: nat) {
    && a + HEADER <= next && HasHeader(b, next)
    && Next(b, a) == next && Prev(b, next) == a && b[a + 8] in {BUSY, FREE}
  }

  /** `c` lists the headers of `h`, from 0 to `last`. */
  ghost predicate Chain(h: Heap, c: seq<nat>) {
    && c != [] && c[0] == 0 && c[|c| - 1] == h.last
    && HasHeader(h.bytes, h.last) && |h.bytes| < ADDRESS_LIMIT
    && Prev(h.bytes, 0) == 0 && Next(h.bytes, h.last) == 0
    && forall k :: 0 <= k < |c| - 1 ==> Linked(h.bytes, c[k], c[k + 1])
  }

  lemma {:induction false} ChainOrder(h: Heap, c: seq<nat>, i: nat, j: nat)
    requires Chain(h, c) && i < j < |c|
    ensures c[i] + HEADER <= c[j]
    decreases j
  {
    assert Linked(h.bytes, c[j - 1], c[(j - 1) + 1]);
    if i < j - 1 {
      ChainOrder(h, c, i, j - 1);
    }
  }

  lemma ChainInRange(h: Heap, c: seq<nat>, k: nat)
    requires Chain(h, c) && k < |c|
    ensures c[k] <= h.last && HasHeader(h.bytes, c[k])
  {
    if k < |c| - 1 {
      ChainOrder(h, c, k, |c| - 1);
    }
  }

  /** A heap has one chain only. */
  lemma {:induction false} ChainPrefix(h: Heap, c: seq<nat>, d: seq<nat>, k: nat)
    requires Chain(h, c) && Chain(h, d) && k < |c|
    ensures k < |d| && c[k] == d[k]
  {
    if k > 0 {
      ChainPrefix(h, c, d, k - 1);
      assert Linked(h.bytes, c[k - 1], c[(k - 1) + 1]);
      if k - 1 < |d| - 1 {
        assert Linked(h.bytes, d[k - 1], d[(k - 1) + 1]);
      }
    }
  }

  lemma ChainIsUnique(h: Heap, c: seq<nat>, d: seq<nat>)
    requires Chain(h, c) && Chain(h, d)
    ensures c == d
  {
    ChainPrefix(h, c, d, |c| - 1);
    ChainPrefix(h, d, c, |d| - 1);
    forall k | 0 <= k < |c| ensures c[k] == d[k] {
      ChainPrefix(h, c, d, k);
    }
  }

  /** Headers keep their meaning when their bytes do not change. */
  lemma HeaderKept(b: seq<byte>, b': seq<byte>, a: nat)
    requires HasHeader(b, a) && HasHeader(b', a)
    requires forall i :: a <= i < a + HEADER ==> b'[i] == b[i]
    ensures Prev(b', a) == Prev(b, a) && Next(b', a) == Next(b, a) && IsFree(b', a) == IsFree(b, a)
  {
  }

  // ---- what the processes own ---------------------------------------------------------------------

  function Payload(b: seq<byte>, a: nat): seq<byte> {
    if HasHeader(b, a) && a + HEADER <= Next(b, a) <= |b| then b[a + HEADER..Next(b, a)] else []
  }

  predicate Busy(h: Heap, a: nat) {
    a != h.last && HasHeader(h.bytes, a) && !IsFree(h.bytes, a)
  }

  /** The live allocations: the address memalloc returned, and the bytes there. */
  function Live(h: Heap, c: seq<nat>): map<nat, seq<byte>> {
    map a | a in c && Busy(h, a) :: Payload(h.bytes, a)
  }

  lemma PayloadOf(h: Heap, c: seq<nat>, k: nat)
    requires Chain(h, c) && k < |c| - 1
    ensures c[k] + HEADER <= c[k + 1] <= h.last && c[k] != h.last && HasHeader(h.bytes, c[k])
    ensures Next(h.bytes, c[k]) == c[k + 1]
    ensures Payload(h.bytes, c[k]) == h.bytes[c[k] + HEADER..c[k + 1]]
  {
    assert Linked(h.bytes, c[k], c[k + 1]);
    ChainInRange(h, c, k + 1);
  }

  /** A block is a header of the chain other than the last. */
  lemma BlockIndex(h: Heap, c: seq<nat>, a: nat) returns (k: nat)
    requires Chain(h, c) && a in c && a != h.last
    ensures k < |c| - 1 && c[k] == a
  {
    k :| 0 <= k < |c| && c[k] == a;
  }

  // ---- writing into a block -----------------------------------------------------------------------

  /** memwrite at a block: bytes from just past its header. */
  function Store(h: Heap, a: nat, data: seq<byte>): Heap
    requires a + HEADER + |data| <= |h.bytes|
  {
    h.(bytes := Patch(h.bytes, a + HEADER, data))
  }

  /** Changing bytes of one block beyond its header leaves every header and every other block alone. */
  lemma PayloadOnly(h: Heap, h': Heap, c: seq<nat>, k: nat)
    requires Chain(h, c) && k < |c| - 1 && h'.last == h.last && |h'.bytes| == |h.bytes|
    requires forall i :: 0 <= i < |h.bytes| && !(c[k] + HEADER <= i < c[k + 1]) ==> h'.bytes[i] == h.bytes[i]
    ensures forall i :: 0 <= i < |c| ==>
      && HasHeader(h.bytes, c[i]) && Prev(h'.bytes, c[i]) == Prev(h.bytes, c[i])
      && Next(h'.bytes, c[i]) == Next(h.bytes, c[i])
      && IsFree(h'.bytes, c[i]) == IsFree(h.bytes, c[i]) && h'.bytes[c[i] + 8] == h.bytes[c[i] + 8]
      && (i != k && i < |c| - 1 ==> Payload(h'.bytes, c[i]) == Payload(h.bytes, c[i]))
    ensures Chain(h', c)
  {
    PayloadOf(h, c, k);
    forall i | 0 <= i < |c|
      ensures HasHeader(h.bytes, c[i]) && Prev(h'.bytes, c[i]) == Prev(h.bytes, c[i])
      ensures Next(h'.bytes, c[i]) == Next(h.bytes, c[i])
      ensures IsFree(h'.bytes, c[i]) == IsFree(h.bytes, c[i]) && h'.bytes[c[i] + 8] == h.bytes[c[i] + 8]
      ensures i != k && i < |c| - 1 ==> Payload(h'.bytes, c[i]) == Payload(h.bytes, c[i])
    {
      ChainInRange(h, c, i);
      if i < k { ChainOrder(h, c, i, k); } else if k + 1 < i { ChainOrder(h, c, k + 1, i); }
      HeaderKept(h.bytes, h'.bytes, c[i]);
      if i < |c| - 1 {
        PayloadOf(h, c, i);
        if i < k && i + 1 < k { ChainOrder(h, c, i + 1, k); }
      }
    }
    forall i | 0 <= i < |c| - 1 ensures Linked(h'.bytes, c[i], c[i + 1]) {
      assert Linked(h.bytes, c[i], c[i + 1]);
    }
  }

  /** Live allocations are told apart by their blocks. */
  lemma LiveIs(h: Heap, c: seq<nat>, m: map<nat, seq<byte>>)
    requires Chain(h, c)
    requires forall k :: 0 <= k < |c| - 1 ==>
      && HasHeader(h.bytes, c[k]) && (c[k] in m <==> !IsFree(h.bytes, c[k]))
      && (c[k] in m ==> m[c[k]] == Payload(h.bytes, c[k]))
    requires forall a :: a in m ==> a in c && a != h.last
    ensures Live(h, c) == m
  {
    forall a | a in c && a != h.last ensures a in Live(h, c) <==> a in m {
      var k := BlockIndex(h, c, a);
    }
    forall a | a in m ensures a in Live(h, c) && Live(h, c)[a] == m[a] {
      var k := BlockIndex(h, c, a);
    }
  }

  lemma LiveAt(h: Heap, c: seq<nat>, k: nat)
    requires Chain(h, c) && k < |c| - 1
    ensures HasHeader(h.bytes, c[k]) && c[k] != h.last && (c[k] in Live(h, c) <==> !IsFree(h.bytes, c[k]))
    ensures c[k] in Live(h, c) ==> Live(h, c)[c[k]] == Payload(h.bytes, c[k])
  {
    PayloadOf(h, c, k);
  }

  /** A write of at most its size into a live block changes that block's bytes and nothing else. */
  lemma StoreKeeps(h: Heap, c: seq<nat>, a: nat, data: seq<byte>)
    requires Chain(h, c) && a in Live(h, c) && |data| <= |Live(h, c)[a]|
    ensures a + HEADER + |data| <= |h.bytes| && Chain(Store(h, a, data), c)
    ensures Live(Store(h, a, data), c) == Live(h, c)[a := Patch(Live(h, c)[a], 0, data)]
  {
    hide Linked;
    var k := BlockIndex(h, c, a);
    PayloadOf(h, c, k);
    var h' := Store(h, a, data);
    PayloadOnly(h, h', c, k);
    PayloadOf(h', c, k);
    StoredPayload(h, c, k, data);
    var m := Live(h, c)[a := Patch(Live(h, c)[a], 0, data)];
    forall i | 0 <= i < |c| - 1
      ensures HasHeader(h'.bytes, c[i]) && (c[i] in m <==> !IsFree(h'.bytes, c[i]))
      ensures c[i] in m ==> m[c[i]] == Payload(h'.bytes, c[i])
    {
      LiveAt(h, c, i);
      if i < k { ChainOrder(h, c, i, k); } else if k < i { ChainOrder(h, c, k, i); }
    }
    LiveIs(h', c, m);
  }

  lemma StoredPayload(h: Heap, c: seq<nat>, k: nat, data: seq<byte>)
    requires Chain(h, c) && k < |c| - 1 && c[k] + HEADER + |data| <= c[k + 1] <= |h.bytes|
    requires HasHeader(h.bytes, c[k]) && Next(Store(h, c[k], data).bytes, c[k]) == Next(h.bytes, c[k]) == c[k + 1]
    ensures Payload(Store(h, c[k], data).bytes, c[k]) == Patch(Payload(h.bytes, c[k]), 0, data)
  {
    var a := c[k];
    var x, y := Payload(Store(h, a, data).bytes, a), Patch(Payload(h.bytes, a), 0, data);
    forall i | 0 <= i < |y| ensures x[i] == y[i] {
    }
  }

  // ---- a new block at the end ----------------------------------------------------------------------

  /** Where the header after a new block of `n` bytes goes. */
  function NewLast(last: nat, n: nat): nat {
    last + HEADER + n
  }

  /** The last header is closed and a new one written after `n` bytes; the space may have grown. */
  function Append(grown: seq<byte>, last: nat, n: nat): Heap
    requires HasHeader(grown, NewLast(last, n)) && |grown| < ADDRESS_LIMIT
  {
    var b := Patch(grown, last + 4, Word(NewLast(last, n)) + [BUSY]);
    Heap(Patch(b, NewLast(last, n), Header(last, 0, BUSY)), NewLast(last, n))
  }

  lemma HeaderWritten(b: seq<byte>, a: nat, prev: nat, next: nat, flag: byte)
    requires HasHeader(b, a) && prev < WORD_LIMIT && next < WORD_LIMIT
    requires b[a..a + HEADER] == Header(prev, next, flag)
    ensures Prev(b, a) == prev && Next(b, a) == next && b[a + 8] == flag
  {
    var w := Header(prev, next, flag);
    assert w[..4] == Word(prev) && w[4..8] == Word(next) && w[8] == flag;
    SliceOfSlice(b, a, HEADER, 0, 4);
    SliceOfSlice(b, a, HEADER, 4, 4);
    assert b[a + 8] == b[a..a + HEADER][8];
    WordRoundTrip(b, a, prev);
    WordRoundTrip(b, a + 4, next);
  }

  lemma AppendBytes(h: Heap, grown: seq<byte>, n: nat)
    requires HasHeader(h.bytes, h.last) && |h.bytes| <= |grown| < ADDRESS_LIMIT && grown[..|h.bytes|] == h.bytes
    requires HasHeader(grown, NewLast(h.last, n))
    ensures var b, last, end := Append(grown, h.last, n).bytes, h.last, NewLast(h.last, n);
      && Append(grown, h.last, n).last == end && |b| == |grown|
      && (forall i :: 0 <= i < last + 4 ==> b[i] == h.bytes[i])
      && Prev(b, last) == Prev(h.bytes, last) && Next(b, last) == end && b[last + 8] == BUSY
      && Prev(b, end) == last && Next(b, end) == 0 && b[end + 8] == BUSY
      && b[last + HEADER..end] == grown[last + HEADER..end]
  {
    var b, last, end := Append(grown, h.last, n).bytes, h.last, NewLast(h.last, n);
    forall i | 0 <= i < |h.bytes| ensures grown[i] == h.bytes[i] {
      assert grown[..|h.bytes|][i] == h.bytes[i];
    }
    assert b[end..end + HEADER] == Header(last, 0, BUSY);
    HeaderWritten(b, end, last, 0, BUSY);
    assert b[last + 4..last + 8] == Word(end);
    WordRoundTrip(b, last + 4, end);
  }

  /**
   A block appended at the end: the chain gains the new last header, and the only live
   allocation that is new or different is the one at the old last header, of exactly `n` bytes.
   */
  lemma AppendKeeps(h: Heap, c: seq<nat>, grown: seq<byte>, n: nat)
    requires Chain(h, c) && |h.bytes| <= |grown| < ADDRESS_LIMIT && grown[..|h.bytes|] == h.bytes
    requires HasHeader(grown, NewLast(h.last, n))
    ensures Chain(Append(grown, h.last, n), c + [NewLast(h.last, n)])
    ensures h.last !in Live(h, c)
    ensures Live(Append(grown, h.last, n), c + [NewLast(h.last, n)]) ==
            Live(h, c)[h.last := grown[h.last + HEADER..NewLast(h.last, n)]]
  {
    hide Append, Linked, Payload, Word, Chain, Live, IsFree;
    LastIsNoBlock(h, c);
    AppendBytes(h, grown, n);
    var h', d, last := Append(grown, h.last, n), c + [NewLast(h.last, n)], h.last;
    AppendLinks(h, h', c, n);
    var m := Live(h, c)[last := grown[last + HEADER..NewLast(last, n)]];
    forall i | 0 <= i < |d| - 1
      ensures HasHeader(h'.bytes, d[i]) && (d[i] in m <==> !IsFree(h'.bytes, d[i]))
      ensures d[i] in m ==> m[d[i]] == Payload(h'.bytes, d[i])
    {
      if i < |c| - 1 {
        AppendOldBlock(h, h', c, n, i);
      } else {
        PayloadOf(h', d, i);
        FlagMeans(h'.bytes, last);
      }
    }
    LiveIs(h', d, m);
  }

  /** A block before the last header is live, or not, with the same bytes as before. */
  lemma AppendOldBlock(h: Heap, h': Heap, c: seq<nat>, n: nat, i: nat)
    requires Chain(h, c) && Chain(h', c + [h'.last]) && i < |c| - 1
    requires h.last + 4 <= |h.bytes| <= |h'.bytes| && forall j :: 0 <= j < h.last + 4 ==> h'.bytes[j] == h.bytes[j]
    ensures HasHeader(h'.bytes, c[i]) && c[i] != h.last && (c[i] in Live(h, c) <==> !IsFree(h'.bytes, c[i]))
    ensures c[i] in Live(h, c) ==> Live(h, c)[c[i]] == Payload(h'.bytes, c[i])
  {
    hide Chain, Linked, Payload, Live;
    LiveAt(h, c, i);
    PayloadOf(h, c, i);
    LastIsNoBlock(h, c);
    SamePayload(h, h', c, c + [h'.last], i);
  }

  /** No live allocation is at the last header. */
  lemma LastIsNoBlock(h: Heap, c: seq<nat>)
    requires Chain(h, c)
    ensures c != [] && c[|c| - 1] == h.last && h.last !in Live(h, c)
    ensures forall a :: a in Live(h, c) ==> a in c && a < h.last
    ensures HasHeader(h.bytes, h.last) && |h.bytes| < ADDRESS_LIMIT
  {
    forall a | a in Live(h, c) ensures a < h.last {
      var k := BlockIndex(h, c, a);
      ChainInRange(h, c, k);
    }
  }

  /** The bytes of a block of two chains are the same when they are in the two heaps. */
  lemma SamePayload(h: Heap, h': Heap, c: seq<nat>, d: seq<nat>, i: nat)
    requires Chain(h, c) && Chain(h', d) && i < |c| - 1 && i < |d| - 1 && d[i] == c[i] && d[i + 1] == c[i + 1]
    requires c[i + 1] <= |h.bytes| <= |h'.bytes|
    requires forall j :: c[i] + HEADER <= j < c[i + 1] ==> h'.bytes[j] == h.bytes[j]
    ensures Payload(h'.bytes, c[i]) == Payload(h.bytes, c[i])
  {
    hide Payload, Linked;
    PayloadOf(h, c, i);
    PayloadOf(h', d, i);
  }

  lemma AppendLinks(h: Heap, h': Heap, c: seq<nat>, n: nat)
    requires Chain(h, c) && h'.last == NewLast(h.last, n) && HasHeader(h'.bytes, h'.last) && |h'.bytes| < ADDRESS_LIMIT
    requires |h.bytes| <= |h'.bytes| && forall i :: 0 <= i < h.last + 4 ==> h'.bytes[i] == h.bytes[i]
    requires Next(h'.bytes, h.last) == h'.last && h'.bytes[h.last + 8] == BUSY
    requires Prev(h'.bytes, h'.last) == h.last && Next(h'.bytes, h'.last) == 0
    ensures Chain(h', c + [h'.last])
    ensures forall i :: 0 <= i < |c| - 1 ==>
      HasHeader(h.bytes, c[i]) && IsFree(h'.bytes, c[i]) == IsFree(h.bytes, c[i])
  {
    var d := c + [h'.last];
    forall i | 0 <= i < |c| - 1
      ensures Linked(h'.bytes, d[i], d[i + 1]) && HasHeader(h.bytes, c[i])
      ensures IsFree(h'.bytes, c[i]) == IsFree(h.bytes, c[i])
    {
      assert Linked(h.bytes, c[i], c[i + 1]);
      ChainInRange(h, c, i + 1);
      HeaderKept(h.bytes, h'.bytes, c[i]);
    }
    assert Prev(h'.bytes, 0) == 0;
  }

  // ---- taking a free block again -------------------------------------------------------------------

  function SetFlag(h: Heap, a: nat, flag: byte): Heap
    requires HasHeader(h.bytes, a)
  {
    h.(bytes := Patch(h.bytes, a + 8, [flag]))
  }

  /** Flipping the free flag of block `k` changes whether that block is live, and nothing else. */
  lemma FlagKeeps(h: Heap, c: seq<nat>, k: nat, flag: byte)
    requires Chain(h, c) && k < |c| - 1 && flag in {BUSY, FREE} && HasHeader(h.bytes, c[k])
    ensures Chain(SetFlag(h, c[k], flag), c)
    ensures Live(SetFlag(h, c[k], flag), c) ==
            if flag == BUSY then Live(h, c)[c[k] := Payload(h.bytes, c[k])] else Live(h, c) - {c[k]}
  {
    hide Linked;
    var h' := SetFlag(h, c[k], flag);
    FlagLinks(h, c, k, flag);
    var m := if flag == BUSY then Live(h, c)[c[k] := Payload(h.bytes, c[k])] else Live(h, c) - {c[k]};
    forall i | 0 <= i < |c| - 1
      ensures HasHeader(h'.bytes, c[i]) && (c[i] in m <==> !IsFree(h'.bytes, c[i]))
      ensures c[i] in m ==> m[c[i]] == Payload(h'.bytes, c[i])
    {
      LiveAt(h, c, i);
      if i < k { ChainOrder(h, c, i, k); } else if k < i { ChainOrder(h, c, k, i); }
    }
    PayloadOf(h, c, k);
    LiveIs(h', c, m);
  }

  lemma FlagSameSize(h: Heap, a: nat, flag: byte)
    requires HasHeader(h.bytes, a)
    ensures |SetFlag(h, a, flag).bytes| == |h.bytes| && SetFlag(h, a, flag).last == h.last
  {
  }

  lemma FlagHeader(h: Heap, c: seq<nat>, k: nat, flag: byte, i: nat)
    requires Chain(h, c) && k < |c| - 1 && HasHeader(h.bytes, c[k]) && i < |c|
    ensures var h' := SetFlag(h, c[k], flag);
      && HasHeader(h.bytes, c[i]) && Prev(h'.bytes, c[i]) == Prev(h.bytes, c[i])
      && Next(h'.bytes, c[i]) == Next(h.bytes, c[i])
      && h'.bytes[c[i] + 8] == if i == k then flag else h.bytes[c[i] + 8]
  {
    hide Linked;
    ChainInRange(h, c, i);
    if i < k { ChainOrder(h, c, i, k); } else if k < i { ChainOrder(h, c, k, i); }
  }

  lemma FlagPayload(h: Heap, c: seq<nat>, k: nat, flag: byte, i: nat)
    requires Chain(h, c) && k < |c| - 1 && HasHeader(h.bytes, c[k]) && i < |c| - 1
    ensures Payload(SetFlag(h, c[k], flag).bytes, c[i]) == Payload(h.bytes, c[i])
  {
    hide Linked;
    PayloadOf(h, c, i);
    FlagHeader(h, c, k, flag, i);
    if i < k {
      ChainOrder(h, c, i, k);
      if i + 1 < k { ChainOrder(h, c, i + 1, k); }
    } else if k < i {
      ChainOrder(h, c, k, i);
    }
  }

  lemma FlagLinks(h: Heap, c: seq<nat>, k: nat, flag: byte)
    requires Chain(h, c) && k < |c| - 1 && flag in {BUSY, FREE} && HasHeader(h.bytes, c[k])
    ensures Chain(SetFlag(h, c[k], flag), c)
    ensures forall i :: 0 <= i < |c| - 1 ==>
      && HasHeader(h.bytes, c[i]) && Payload(SetFlag(h, c[k], flag).bytes, c[i]) == Payload(h.bytes, c[i])
      && IsFree(SetFlag(h, c[k], flag).bytes, c[i]) == if i == k then flag == FREE else IsFree(h.bytes, c[i])
  {
    hide Payload, SetFlag;
    var h' := SetFlag(h, c[k], flag);
    FlagSameSize(h, c[k], flag);
    forall i | 0 <= i < |c| - 1
      ensures HasHeader(h.bytes, c[i]) && Linked(h'.bytes, c[i], c[i + 1])
      ensures Payload(h'.bytes, c[i]) == Payload(h.bytes, c[i])
      ensures IsFree(h'.bytes, c[i]) == if i == k then flag == FREE else IsFree(h.bytes, c[i])
    {
      assert Linked(h.bytes, c[i], c[i + 1]);
      FlagHeader(h, c, k, flag, i);
      FlagHeader(h, c, k, flag, i + 1);
      FlagPayload(h, c, k, flag, i);
    }
    FlagHeader(h, c, k, flag, |c| - 1);
    FlagHeader(h, c, k, flag, 0);
  }

  // ---- looking for a free block ---------------------------------------------------------------------

  /** Block `a` is free and holds `n` bytes. */
  predicate Fits(b: seq<byte>, a: nat, n: nat) {
    HasHeader(b, a) && IsFree(b, a) && a + HEADER + n <= Next(b, a)
  }

  /** entraEnElEspacioLibre from block `k` on: the first block that fits, or the last header. */
  function FirstFit(b: seq<byte>, c: seq<nat>, n: nat, k: nat): (r: nat)
    requires k < |c|
    ensures k <= r < |c|
    ensures r < |c| - 1 ==> Fits(b, c[r], n)
    ensures forall i :: k <= i < r ==> !Fits(b, c[i], n)
    decreases |c| - k
  {
    if k == |c| - 1 || Fits(b, c[k], n) then k else FirstFit(b, c, n, k + 1)
  }

  /** The block has room for another header behind the `n` bytes asked for. */
  predicate Splits(b: seq<byte>, a: nat, n: nat) {
    HasHeader(b, a) && a + HEADER + n + HEADER < Next(b, a)
  }

  /**
   What memalloc does to a free block it reuses. When the block is split, the header of the
   second part is written four bytes past the address recorded for it. This is the case where
   the whole block is on the pages its header is on; the code copies back pages it never
   loaded when it is not.
   */
  function Reuse(h: Heap, a: nat, n: nat): Heap
    requires HasHeader(h.bytes, a) && HasHeader(h.bytes, Next(h.bytes, a)) && |h.bytes| < ADDRESS_LIMIT
  {
    var taken := SetFlag(h, a, BUSY);
    if Splits(h.bytes, a, n) then
      var middle, next := a + HEADER + n, Next(h.bytes, a);
      var b := Patch(taken.bytes, a + 4, Word(middle));
      var b := Patch(b, middle + 4, Header(a, next, FREE));
      taken.(bytes := Patch(b, next, Word(middle)))
    else taken
  }

  /** A split heap has no chain: the header recorded for the second part says its next is the first. */
  lemma SplitBreaks(h: Heap, c: seq<nat>, k: nat, n: nat, d: seq<nat>)
    requires Chain(h, c) && k < |c| - 1 && HasHeader(h.bytes, c[k]) && HasHeader(h.bytes, c[k + 1])
    requires |h.bytes| < ADDRESS_LIMIT
    requires Next(h.bytes, c[k]) == c[k + 1] && Splits(h.bytes, c[k], n)
    ensures !Chain(Reuse(h, c[k], n), d)
  {
    hide Reuse, Linked, Word;
    var h' := Reuse(h, c[k], n);
    var middle := c[k] + HEADER + n;
    SplitHeaders(h, c[k], n);
    if Chain(h', d) {
      SplitPrefix(h, h', c, d, k, k);
      ChainInRange(h, c, k + 1);
      NotBack(h', d, k, middle);
    }
  }

  /** In a chain the block after the next one is not the first of the three again. */
  lemma NotBack(h: Heap, d: seq<nat>, k: nat, next: nat)
    requires Chain(h, d) && k < |d| - 1 && HasHeader(h.bytes, d[k]) && Next(h.bytes, d[k]) == next && next != h.last
    ensures HasHeader(h.bytes, next) && Next(h.bytes, next) != d[k]
  {
    PayloadOf(h, d, k);
    PayloadOf(h, d, k + 1);
  }

  lemma SplitHeaders(h: Heap, a: nat, n: nat)
    requires HasHeader(h.bytes, a) && HasHeader(h.bytes, Next(h.bytes, a)) && |h.bytes| < ADDRESS_LIMIT
    requires Splits(h.bytes, a, n)
    ensures Reuse(h, a, n).last == h.last
    ensures var b, middle := Reuse(h, a, n).bytes, a + HEADER + n;
      && |b| == |h.bytes| && (forall i :: 0 <= i < a ==> b[i] == h.bytes[i])
      && HasHeader(b, a) && HasHeader(b, middle) && Next(b, a) == middle && Next(b, middle) == a
  {
    hide Word, WordAt;
    var middle, next := a + HEADER + n, Next(h.bytes, a);
    var b := SetFlag(h, a, BUSY).bytes;
    var linked := Patch(b, a + 4, Word(middle));
    WordPatched(b, a + 4, middle);
    var header := Header(a, next, FREE);
    var split := Patch(linked, middle + 4, header);
    WordOutsidePatch(linked, middle + 4, header, a + 4);
    HeaderWritten(split, middle + 4, a, next, FREE);
    WordOutsidePatch(split, next, Word(middle), a + 4);
    WordOutsidePatch(split, next, Word(middle), middle + 4);
  }

  /** Heaps with the same bytes before block `k` have the same chain up to there. */
  lemma {:induction false} SplitPrefix(h: Heap, h': Heap, c: seq<nat>, d: seq<nat>, k: nat, i: nat)
    requires Chain(h, c) && Chain(h', d) && k < |c| - 1 && h'.last == h.last && |h'.bytes| == |h.bytes|
    requires i <= k && c[k] <= |h.bytes| && forall j :: 0 <= j < c[k] ==> h'.bytes[j] == h.bytes[j]
    ensures i < |d| - 1 && d[i] == c[i]
  {
    ChainOrder(h, c, i, |c| - 1);
    if i > 0 {
      SplitPrefix(h, h', c, d, k, i - 1);
      assert Linked(h.bytes, c[i - 1], c[(i - 1) + 1]) && Linked(h'.bytes, d[i - 1], d[(i - 1) + 1]);
      ChainOrder(h, c, i - 1, k);
    }
  }

  /** Taking a free block again keeps the heap's chain exactly when the block is not split. */
  lemma ReuseKeepsChain(h: Heap, c: seq<nat>, k: nat, n: nat)
    requires Chain(h, c) && k < |c| - 1
    ensures HasHeader(h.bytes, c[k]) && HasHeader(h.bytes, Next(h.bytes, c[k])) && |h.bytes| < ADDRESS_LIMIT
    ensures (exists d :: Chain(Reuse(h, c[k], n), d)) <==> !Splits(h.bytes, c[k], n)
  {
    PayloadOf(h, c, k);
    ChainInRange(h, c, k + 1);
    if Splits(h.bytes, c[k], n) {
      forall d ensures !Chain(Reuse(h, c[k], n), d) {
        SplitBreaks(h, c, k, n, d);
      }
    } else {
      FlagKeeps(h, c, k, BUSY);
      assert Chain(Reuse(h, c[k], n), c);
    }
  }

  // ---- growing -------------------------------------------------------------------------------------

  /** How many pages memalloc asks for when `n` bytes and a header do not fit behind the last header. */
  function PagesToAdd(size: nat, mapped: nat, last: nat, n: nat): nat
    requires size > 0 && last + HEADER <= mapped < NewLast(last, n) + HEADER
  {
    PageIndex(size, n + HEADER - (mapped - last - HEADER)) + 1
  }

  /** The last page the roll-back loop of memalloc deletes. */
  function RollBackTo(size: nat, last: nat, n: nat): nat
    requires size > 0
  {
    PageIndex(size, HEADER + NewLast(last, n)) + 1
  }

  lemma {:induction false} PageIndexShift(size: nat, k: nat, x: nat)
    requires size > 0
    ensures PageIndex(size, x + Pages(size, k)) == PageIndex(size, x) + k
  {
    if k > 0 {
      PageIndexShift(size, k - 1, x);
    }
  }

  /**
   Growth is exact: the new pages reach just past the new last header, with between one byte
   and one page to spare, and rolling back deletes exactly the pages that were added.
   */
  lemma GrowthIsExact(size: nat, k: nat, last: nat, n: nat)
    requires size > 0 && last + HEADER <= Pages(size, k) < NewLast(last, n) + HEADER
    ensures var more := PagesToAdd(size, Pages(size, k), last, n);
      && k + more == RollBackTo(size, last, n)
      && NewLast(last, n) + HEADER < Pages(size, k + more) <= NewLast(last, n) + HEADER + size
  {
    var x := n + HEADER - (Pages(size, k) - last - HEADER);
    PageIndexShift(size, k, x);
    AddressSplit(size, x + Pages(size, k));
  }

  // ---- freeing a block -------------------------------------------------------------------------------

  /** The block before `a` takes over its bytes. */
  function Merge(h: Heap, a: nat): Heap
    requires HasHeader(h.bytes, a) && HasHeader(h.bytes, Prev(h.bytes, a)) && HasHeader(h.bytes, Next(h.bytes, a))
  {
    var prev, next := Prev(h.bytes, a), Next(h.bytes, a);
    h.(bytes := Patch(Patch(h.bytes, prev + 4, Word(next)), next, Word(prev)))
  }

  /**
   memfree gives the last page back: block `a` is on it and the busy block before ends its header on the page
   before.
   */
  predicate Releases(size: nat, h: Heap, a: nat)
    requires size > 0 && HasHeader(h.bytes, a) && HasHeader(h.bytes, Prev(h.bytes, a))
  {
    var prev := Prev(h.bytes, a);
    && a != 0 && !IsFree(h.bytes, prev)
    && PageIndex(size, prev + HEADER - 1) + 1 == PageIndex(size, a)
    && PageIndex(size, a) + 1 == PageIndex(size, |h.bytes|)
  }

  predicate PrevIsFree(h: Heap, a: nat)
    requires HasHeader(h.bytes, a) && HasHeader(h.bytes, Prev(h.bytes, a))
  {
    a != 0 && IsFree(h.bytes, Prev(h.bytes, a))
  }

  /** memfree of a block. */
  function Free(size: nat, h: Heap, a: nat): Heap
    requires size > 0 && HasHeader(h.bytes, a) && HasHeader(h.bytes, Prev(h.bytes, a))
    requires HasHeader(h.bytes, Next(h.bytes, a))
    requires Prev(h.bytes, a) + HEADER <= a || a == 0
  {
    var freed := SetFlag(h, a, FREE);
    if PrevIsFree(h, a) then Merge(freed, a)
    else if Releases(size, h, a) then Heap(freed.bytes[..Least(|h.bytes|, Pages(size, PageIndex(size, a)))],
                                           Prev(h.bytes, a))
    else freed
  }

  function Least(a: nat, b: nat): nat {
    if a < b then a else b
  }

  function Without(c: seq<nat>, k: nat): seq<nat>
    requires k < |c|
  {
    c[..k] + c[k + 1..]
  }

  /** The chain after block `k` is freed. */
  function FreedChain(h: Heap, c: seq<nat>, k: nat): seq<nat>
    requires k < |c| && HasHeader(h.bytes, c[k]) && HasHeader(h.bytes, Prev(h.bytes, c[k]))
  {
    if PrevIsFree(h, c[k]) then Without(c, k) else c
  }

  lemma NeighboursOf(h: Heap, c: seq<nat>, k: nat)
    requires Chain(h, c) && k < |c| - 1
    ensures HasHeader(h.bytes, c[k]) && HasHeader(h.bytes, Next(h.bytes, c[k])) && Next(h.bytes, c[k]) == c[k + 1]
    ensures c[k] + HEADER <= c[k + 1] < WORD_LIMIT
    ensures HasHeader(h.bytes, Prev(h.bytes, c[k])) && c[k] != h.last && |h.bytes| < ADDRESS_LIMIT
    ensures if k == 0 then c[k] == 0 else c[k] != 0 && Prev(h.bytes, c[k]) == c[k - 1] && c[k - 1] + HEADER <= c[k]
    ensures Prev(h.bytes, c[k]) + HEADER <= c[k] || c[k] == 0
  {
    PayloadOf(h, c, k);
    ChainInRange(h, c, k + 1);
    if k > 0 {
      ChainInRange(h, c, k - 1);
      assert Linked(h.bytes, c[k - 1], c[(k - 1) + 1]);
    }
  }

  /** Merging rewrites one word before the block and one behind it. */
  lemma MergeHeader(h: Heap, c: seq<nat>, k: nat, i: nat)
    requires Chain(h, c) && 0 < k < |c| - 1 && i < |c| && i != k
    ensures HasHeader(h.bytes, c[k]) && HasHeader(h.bytes, Prev(h.bytes, c[k]))
    ensures HasHeader(h.bytes, Next(h.bytes, c[k]))
    ensures var b := Merge(h, c[k]).bytes;
      && HasHeader(h.bytes, c[i]) && b[c[i] + 8] == h.bytes[c[i] + 8]
      && Prev(b, c[i]) == (if i == k + 1 then c[k - 1] else Prev(h.bytes, c[i]))
      && Next(b, c[i]) == (if i == k - 1 then c[k + 1] else Next(h.bytes, c[i]))
  {
    hide Linked, Word, WordAt;
    NeighboursOf(h, c, k);
    ChainInRange(h, c, i);
    if i < k - 1 { ChainOrder(h, c, i, k - 1); } else if k + 1 < i { ChainOrder(h, c, k + 1, i); }
    MergeWords(h.bytes, c[k - 1], c[k + 1], c[i]);
  }

  lemma MergeWords(b: seq<byte>, prev: nat, next: nat, a: nat)
    requires HasHeader(b, prev) && HasHeader(b, next) && HasHeader(b, a) && prev + 2 * HEADER <= next < WORD_LIMIT
    requires a + HEADER <= prev || a == prev || a == next || next + HEADER <= a
    ensures var b' := Patch(Patch(b, prev + 4, Word(next)), next, Word(prev));
      && b'[a + 8] == b[a + 8]
      && Prev(b', a) == (if a == next then prev else Prev(b, a))
      && Next(b', a) == (if a == prev then next else Next(b, a))
  {
    var b' := Patch(Patch(b, prev + 4, Word(next)), next, Word(prev));
    if a == next {
      assert b'[a..a + 4] == Word(prev);
      WordRoundTrip(b', a, prev);
    }
    if a == prev {
      assert b'[a + 4..a + 8] == Word(next);
      WordRoundTrip(b', a + 4, next);
    }
  }

  lemma MergeLink(h: Heap, c: seq<nat>, k: nat, i: nat, n: nat)
    requires Chain(h, c) && 0 < k < |c| - 1 && i < |c| - 1 && i != k && n == if i == k - 1 then k + 1 else i + 1
    ensures HasHeader(h.bytes, c[k]) && HasHeader(h.bytes, Prev(h.bytes, c[k]))
    ensures HasHeader(h.bytes, Next(h.bytes, c[k]))
    ensures Linked(Merge(h, c[k]).bytes, c[i], c[n])
  {
    hide Merge, Chain, Prev, Next;
    MergeHeader(h, c, k, i);
    MergeHeader(h, c, k, n);
    NeighboursOf(h, c, k);
    LinkAt(h, c, i);
    if i == k - 1 { LinkAt(h, c, k); }
    MergeSameSize(h, c[k]);
  }

  lemma LinkAt(h: Heap, c: seq<nat>, i: nat)
    requires Chain(h, c) && i < |c| - 1
    ensures Linked(h.bytes, c[i], c[i + 1])
  {
  }

  lemma MergeSameSize(h: Heap, a: nat)
    requires HasHeader(h.bytes, a) && HasHeader(h.bytes, Prev(h.bytes, a)) && HasHeader(h.bytes, Next(h.bytes, a))
    ensures |Merge(h, a).bytes| == |h.bytes| && Merge(h, a).last == h.last
  {
  }

  lemma MergeLinks(h: Heap, c: seq<nat>, k: nat)
    requires Chain(h, c) && 0 < k < |c| - 1
    ensures HasHeader(h.bytes, c[k]) && HasHeader(h.bytes, Prev(h.bytes, c[k]))
    ensures HasHeader(h.bytes, Next(h.bytes, c[k]))
    ensures Chain(Merge(h, c[k]), Without(c, k))
  {
    hide Merge, Linked, Prev, Next;
    NeighboursOf(h, c, k);
    var h', d := Merge(h, c[k]), Without(c, k);
    forall j | 0 <= j < |d| - 1 ensures Linked(h'.bytes, d[j], d[j + 1]) {
      var i := if j < k then j else j + 1;
      MergeLink(h, c, k, i, if i == k - 1 then k + 1 else i + 1);
    }
    MergeHeader(h, c, k, 0);
    MergeHeader(h, c, k, |c| - 1);
    MergeSameSize(h, c[k]);
  }

  lemma MergeElsewhere(h: Heap, a: nat, from: nat, to: nat)
    requires HasHeader(h.bytes, a) && HasHeader(h.bytes, Prev(h.bytes, a)) && HasHeader(h.bytes, Next(h.bytes, a))
    requires from <= to <= |h.bytes|
    requires to <= Prev(h.bytes, a) + 4 || Prev(h.bytes, a) + 8 <= from
    requires to <= Next(h.bytes, a) || Next(h.bytes, a) + 4 <= from
    ensures |Merge(h, a).bytes| == |h.bytes| && Merge(h, a).bytes[from..to] == h.bytes[from..to]
  {
  }

  lemma MergedBlock(h: Heap, c: seq<nat>, k: nat, i: nat)
    requires Chain(h, c) && 0 < k < |c| - 1 && i < |c| - 1 && i != k && i != k - 1
    ensures HasHeader(h.bytes, c[k]) && HasHeader(h.bytes, Prev(h.bytes, c[k]))
    ensures HasHeader(h.bytes, Next(h.bytes, c[k]))
    ensures HasHeader(h.bytes, c[i]) && Payload(Merge(h, c[k]).bytes, c[i]) == Payload(h.bytes, c[i])
    ensures IsFree(Merge(h, c[k]).bytes, c[i]) == IsFree(h.bytes, c[i])
  {
    hide Chain, Prev, Next, Linked, Merge;
    NeighboursOf(h, c, k);
    MergeHeader(h, c, k, i);
    PayloadOf(h, c, i);
    ChainInRange(h, c, i + 1);
    if i < k {
      if i + 1 < k - 1 { ChainOrder(h, c, i + 1, k - 1); }
    } else {
      if k + 1 < i { ChainOrder(h, c, k + 1, i); }
    }
    MergeElsewhere(h, c[k], c[i] + HEADER, c[i + 1]);
  }

  /** Merging a free block into the free block before it changes no live allocation. */
  lemma MergeKeeps(h: Heap, c: seq<nat>, k: nat)
    requires Chain(h, c) && 0 < k < |c| - 1
    requires HasHeader(h.bytes, c[k]) && HasHeader(h.bytes, c[k - 1]) && IsFree(h.bytes, c[k])
    requires IsFree(h.bytes, c[k - 1])
    ensures HasHeader(h.bytes, Prev(h.bytes, c[k])) && HasHeader(h.bytes, Next(h.bytes, c[k]))
    ensures Chain(Merge(h, c[k]), Without(c, k)) && Live(Merge(h, c[k]), Without(c, k)) == Live(h, c)
  {
    hide Merge, Chain, Linked, Prev, Next, Live, Payload, IsFree;
    NeighboursOf(h, c, k);
    MergeLinks(h, c, k);
    MergeSameSize(h, c[k]);
    LastIsNoBlock(h, c);
    var h', d := Merge(h, c[k]), Without(c, k);
    var m := Live(h, c);
    forall j | 0 <= j < |d| - 1
      ensures HasHeader(h'.bytes, d[j]) && (d[j] in m <==> !IsFree(h'.bytes, d[j]))
      ensures d[j] in m ==> m[d[j]] == Payload(h'.bytes, d[j])
    {
      LiveAt(h, c, if j < k then j else j + 1);
      if j == k - 1 {
        MergeHeader(h, c, k, j);
        FlagMeans(h.bytes, c[j]);
        FlagMeans(h'.bytes, c[j]);
      } else {
        MergedBlock(h, c, k, if j < k then j else j + 1);
      }
    }
    LiveAt(h, c, k);
    forall a | a in m ensures a in d && a != h'.last {
      var i := BlockIndex(h, c, a);
      assert i != k;
      assert d[if i < k then i else i - 1] == a;
    }
    LiveIs(h', d, m);
  }

  /**
   Freeing a block ends that allocation and no other: its block joins a free block before it,
   and both directions of the chain stay intact.
   */
  lemma FreeKeeps(size: nat, h: Heap, c: seq<nat>, k: nat)
    requires size > 0 && Chain(h, c) && k < |c| - 1
    ensures HasHeader(h.bytes, c[k]) && HasHeader(h.bytes, Prev(h.bytes, c[k]))
    ensures HasHeader(h.bytes, Next(h.bytes, c[k]))
    ensures Prev(h.bytes, c[k]) + HEADER <= c[k] || c[k] == 0
    ensures !Releases(size, h, c[k]) ==>
      && Chain(Free(size, h, c[k]), FreedChain(h, c, k))
      && Live(Free(size, h, c[k]), FreedChain(h, c, k)) == Live(h, c) - {c[k]}
  {
    hide Merge, Chain, Linked, Prev, Next, Live, Payload, SetFlag;
    NeighboursOf(h, c, k);
    FlagKeeps(h, c, k, FREE);
    var freed := SetFlag(h, c[k], FREE);
    FlagHeader(h, c, k, FREE, k);
    if PrevIsFree(h, c[k]) {
      FlagHeader(h, c, k, FREE, k - 1);
      NeighboursOf(freed, c, k);
      MergeKeeps(freed, c, k);
    }
  }

  /** Block `k` is free and has room for `n` bytes. */
  ghost predicate Room(h: Heap, c: seq<nat>, k: nat, n: nat) {
    k < |c| - 1 && HasHeader(h.bytes, c[k]) && IsFree(h.bytes, c[k]) && c[k] + HEADER + n <= c[k + 1]
  }

  lemma RoomFits(h: Heap, c: seq<nat>, k: nat, n: nat)
    requires Chain(h, c) && k < |c| - 1
    ensures Room(h, c, k, n) <==> Fits(h.bytes, c[k], n)
  {
    PayloadOf(h, c, k);
  }

  lemma FlaggedRoom(h: Heap, c: seq<nat>, k: nat)
    requires Chain(h, c) && k < |c| - 1 && HasHeader(h.bytes, c[k]) && c[k] + HEADER <= c[k + 1]
    ensures Room(SetFlag(h, c[k], FREE), c, k, c[k + 1] - c[k] - HEADER)
  {
    hide Chain, SetFlag;
    FlagHeader(h, c, k, FREE, k);
    FlagSameSize(h, c[k], FREE);
  }

  lemma MergedRoom(h: Heap, c: seq<nat>, k: nat)
    requires Chain(h, c) && 0 < k < |c| - 1 && HasHeader(h.bytes, c[k - 1]) && IsFree(h.bytes, c[k - 1])
    ensures HasHeader(h.bytes, c[k]) && HasHeader(h.bytes, Prev(h.bytes, c[k]))
    ensures HasHeader(h.bytes, Next(h.bytes, c[k])) && c[k - 1] + HEADER <= c[k + 1]
    ensures Room(Merge(h, c[k]), Without(c, k), k - 1, c[k + 1] - c[k - 1] - HEADER)
  {
    hide Chain, Merge, Prev, Next;
    NeighboursOf(h, c, k);
    MergeHeader(h, c, k, k - 1);
    MergeSameSize(h, c[k]);
  }

  /** The block before block `k` is free. */
  ghost predicate BehindFree(h: Heap, c: seq<nat>, k: nat) {
    0 < k < |c| && HasHeader(h.bytes, c[k - 1]) && IsFree(h.bytes, c[k - 1])
  }

  lemma BehindIsPrev(h: Heap, c: seq<nat>, k: nat)
    requires Chain(h, c) && k < |c| - 1 && HasHeader(h.bytes, c[k]) && HasHeader(h.bytes, Prev(h.bytes, c[k]))
    ensures BehindFree(h, c, k) <==> PrevIsFree(h, c[k])
  {
    hide Chain, Prev;
    NeighboursOf(h, c, k);
  }

  /**
   A freed block joins a free block before it, of whose two headers the first remains: one free block reaches
   from there to the next header, with room for all the bytes; otherwise it becomes a free block itself.
   */
  lemma FreeJoins(size: nat, h: Heap, c: seq<nat>, k: nat)
    requires size > 0 && Chain(h, c) && k < |c| - 1
    ensures HasHeader(h.bytes, c[k]) && HasHeader(h.bytes, Prev(h.bytes, c[k]))
    ensures HasHeader(h.bytes, Next(h.bytes, c[k]))
    ensures Prev(h.bytes, c[k]) + HEADER <= c[k] || c[k] == 0
    ensures !Releases(size, h, c[k]) ==>
      var j := if BehindFree(h, c, k) then k - 1 else k;
      var d := if BehindFree(h, c, k) then c[..k] + c[k + 1..] else c;
      && Chain(Free(size, h, c[k]), d) && d[j + 1] == c[k + 1] && c[j] + HEADER <= c[k + 1]
      && Room(Free(size, h, c[k]), d, j, c[k + 1] - c[j] - HEADER)
  {
    hide Merge, Chain, Linked, Prev, Next, Live, Payload, SetFlag, IsFree, Room, Releases;
    FreeKeeps(size, h, c, k);
    NeighboursOf(h, c, k);
    BehindIsPrev(h, c, k);
    if PrevIsFree(h, c[k]) {
      FreedMerges(h, c, k);
    } else {
      FlaggedRoom(h, c, k);
    }
  }

  lemma FreedMerges(h: Heap, c: seq<nat>, k: nat)
    requires Chain(h, c) && k < |c| - 1 && BehindFree(h, c, k) && HasHeader(h.bytes, c[k])
    ensures var freed := SetFlag(h, c[k], FREE);
      && HasHeader(freed.bytes, c[k]) && HasHeader(freed.bytes, Prev(freed.bytes, c[k]))
      && HasHeader(freed.bytes, Next(freed.bytes, c[k])) && c[k - 1] + HEADER <= c[k + 1]
      && Room(Merge(freed, c[k]), Without(c, k), k - 1, c[k + 1] - c[k - 1] - HEADER)
  {
    hide Chain, Merge, Room, SetFlag;
    var freed := SetFlag(h, c[k], FREE);
    FlagKeeps(h, c, k, FREE);
    FlagSameSize(h, c[k], FREE);
    FlagHeader(h, c, k, FREE, k - 1);
    MergedRoom(freed, c, k);
  }

  /** Giving the last page back leaves no chain: the header that becomes the last one has a next. */
  lemma ReleaseBreaks(size: nat, h: Heap, c: seq<nat>, k: nat, d: seq<nat>)
    requires size > 0 && Chain(h, c) && k < |c| - 1
    requires HasHeader(h.bytes, c[k]) && HasHeader(h.bytes, Prev(h.bytes, c[k]))
    requires HasHeader(h.bytes, Next(h.bytes, c[k]))
    requires (Prev(h.bytes, c[k]) + HEADER <= c[k] || c[k] == 0) && Releases(size, h, c[k])
    ensures !Chain(Free(size, h, c[k]), d)
  {
    hide Linked, WordAt;
    NeighboursOf(h, c, k);
    var a, prev := c[k], c[k - 1];
    AddressSplit(size, a);
    AddressSplit(size, prev + HEADER - 1);
    FlagHeader(h, c, k, FREE, k - 1);
    NeighboursOf(h, c, k - 1);
    assert Pages(size, PageIndex(size, a)) == Pages(size, PageIndex(size, prev + HEADER - 1)) + size;
    var freed, h' := SetFlag(h, a, FREE), Free(size, h, a);
    HeaderKept(freed.bytes, h'.bytes, prev);
  }

  /** memfree of a block keeps the chain exactly when it does not give the last page back. */
  lemma FreeKeepsChain(size: nat, h: Heap, c: seq<nat>, k: nat)
    requires size > 0 && Chain(h, c) && k < |c| - 1
    ensures HasHeader(h.bytes, c[k]) && HasHeader(h.bytes, Prev(h.bytes, c[k]))
    ensures HasHeader(h.bytes, Next(h.bytes, c[k]))
    ensures Prev(h.bytes, c[k]) + HEADER <= c[k] || c[k] == 0
    ensures (exists d :: Chain(Free(size, h, c[k]), d)) <==> !Releases(size, h, c[k])
  {
    hide Chain, Free, Releases;
    FreeKeeps(size, h, c, k);
    if Releases(size, h, c[k]) {
      forall d ensures !Chain(Free(size, h, c[k]), d) {
        ReleaseBreaks(size, h, c, k, d);
      }
    }
  }

  // ---- memfree of the last header ------------------------------------------------------------------

  lemma LastNeighbours(h: Heap, c: seq<nat>)
    requires Chain(h, c)
    ensures HasHeader(h.bytes, h.last) && HasHeader(h.bytes, Prev(h.bytes, h.last)) && Next(h.bytes, h.last) == 0
    ensures HasHeader(h.bytes, 0)
    ensures Prev(h.bytes, h.last) + HEADER <= h.last || (h.last == 0 && c == [0])
    ensures h.last != 0 ==> |c| > 1 && Prev(h.bytes, h.last) == c[|c| - 2] && Next(h.bytes, c[|c| - 2]) == h.last
    ensures Prev(h.bytes, 0) == 0 && |h.bytes| < ADDRESS_LIMIT && h.last < WORD_LIMIT
  {
    var n := |c| - 1;
    if n > 0 {
      assert Linked(h.bytes, c[n - 1], c[(n - 1) + 1]);
      ChainOrder(h, c, 0, n);
    }
  }

  /** The links of a header, the last one included, lead to headers. */
  lemma LinksOf(h: Heap, c: seq<nat>, k: nat)
    requires Chain(h, c) && k < |c|
    ensures HasHeader(h.bytes, c[k]) && HasHeader(h.bytes, Prev(h.bytes, c[k]))
    ensures HasHeader(h.bytes, Next(h.bytes, c[k]))
    ensures Prev(h.bytes, c[k]) + HEADER <= c[k] || c[k] == 0
    ensures c[k] <= h.last && Next(h.bytes, c[k]) < WORD_LIMIT && |h.bytes| < ADDRESS_LIMIT
  {
    hide Linked;
    if k < |c| - 1 {
      NeighboursOf(h, c, k);
      PayloadOf(h, c, k);
    } else {
      LastNeighbours(h, c);
    }
  }

  lemma LastFlagKeeps(h: Heap, c: seq<nat>, flag: byte)
    requires Chain(h, c)
    ensures HasHeader(h.bytes, h.last) && Chain(SetFlag(h, h.last, flag), c)
  {
    hide WordAt;
    var h' := SetFlag(h, h.last, flag);
    forall i | 0 <= i < |c| - 1 ensures Linked(h'.bytes, c[i], c[i + 1]) {
      assert Linked(h.bytes, c[i], c[i + 1]);
      ChainOrder(h, c, i, |c| - 1);
      ChainInRange(h, c, i + 1);
      WordOutsidePatch(h.bytes, h.last + 8, [flag], c[i] + 4);
      WordOutsidePatch(h.bytes, h.last + 8, [flag], c[i + 1]);
    }
    WordOutsidePatch(h.bytes, h.last + 8, [flag], 0);
    WordOutsidePatch(h.bytes, h.last + 8, [flag], h.last + 4);
  }

  /** Joining the last header to a free block before it overwrites the first header, or cuts it off. */
  lemma LastMergeBreaks(h: Heap, c: seq<nat>, d: seq<nat>)
    requires Chain(h, c) && h.last != 0
    requires HasHeader(h.bytes, h.last) && HasHeader(h.bytes, Prev(h.bytes, h.last))
    requires HasHeader(h.bytes, Next(h.bytes, h.last))
    ensures !Chain(Merge(h, h.last), d)
  {
    hide WordAt;
    LastNeighbours(h, c);
    var b, prev := h.bytes, Prev(h.bytes, h.last);
    var b' := Merge(h, h.last).bytes;
    assert b'[0..4] == Word(prev);
    WordRoundTrip(b', 0, prev);
    if prev == 0 {
      assert b'[4..8] == Patch(b, 4, Word(0))[4..8] == Word(0);
      WordRoundTrip(b', 4, 0);
      assert forall x: nat :: !Linked(b', 0, x);
      assert |d| > 1 && d[0] == 0 ==> !Linked(b', d[0], d[0 + 1]);
    }
  }

  lemma LastReleaseBreaks(size: nat, h: Heap, c: seq<nat>, d: seq<nat>)
    requires size > 0 && Chain(h, c) && h.last != 0
    requires HasHeader(h.bytes, h.last) && HasHeader(h.bytes, Prev(h.bytes, h.last))
    requires HasHeader(h.bytes, Next(h.bytes, h.last))
    requires Prev(h.bytes, h.last) + HEADER <= h.last && Releases(size, h, h.last)
    ensures !Chain(Free(size, h, h.last), d)
  {
    hide Linked, WordAt;
    LastNeighbours(h, c);
    var a, prev := h.last, Prev(h.bytes, h.last);
    AddressSplit(size, a);
    AddressSplit(size, prev + HEADER - 1);
    assert Pages(size, PageIndex(size, a)) == Pages(size, PageIndex(size, prev + HEADER - 1)) + size;
    var freed, h' := SetFlag(h, a, FREE), Free(size, h, a);
    WordOutsidePatch(h.bytes, a + 8, [FREE], prev + 4);
    HeaderKept(freed.bytes, h'.bytes, prev);
  }

  /** The block before the last header is busy and no page goes with it. */
  predicate LastIsHarmless(size: nat, h: Heap)
    requires size > 0
  {
    HasHeader(h.bytes, h.last) && HasHeader(h.bytes, Prev(h.bytes, h.last)) ==>
      !PrevIsFree(h, h.last) && !Releases(size, h, h.last)
  }

  /**
   memfree of the last header, which the code accepts, keeps a chain exactly when the block before is
   busy and its page is not given back; then it changes no allocation.
   */
  lemma FreeLastKeepsChain(size: nat, h: Heap, c: seq<nat>)
    requires size > 0 && Chain(h, c)
    ensures HasHeader(h.bytes, h.last) && HasHeader(h.bytes, Prev(h.bytes, h.last))
    ensures HasHeader(h.bytes, Next(h.bytes, h.last))
    ensures Prev(h.bytes, h.last) + HEADER <= h.last || h.last == 0
    ensures (exists d :: Chain(Free(size, h, h.last), d)) <==> LastIsHarmless(size, h)
    ensures LastIsHarmless(size, h) ==>
      Chain(Free(size, h, h.last), c) && Live(Free(size, h, h.last), c) == Live(h, c)
  {
    hide Chain, Live, Releases, Merge, IsFree, Free;
    LastNeighbours(h, c);
    if PrevIsFree(h, h.last) {
      forall d ensures !Chain(Free(size, h, h.last), d) {
        FreeLastMerges(size, h, c, d);
      }
    } else if Releases(size, h, h.last) {
      ReleasesNotFirst(size, h, h.last);
      forall d ensures !Chain(Free(size, h, h.last), d) {
        LastReleaseBreaks(size, h, c, d);
      }
    } else {
      FreeLastStays(size, h, c);
    }
  }

  lemma FreeLastMerges(size: nat, h: Heap, c: seq<nat>, d: seq<nat>)
    requires size > 0 && Chain(h, c)
    requires HasHeader(h.bytes, h.last) && HasHeader(h.bytes, Prev(h.bytes, h.last))
    requires HasHeader(h.bytes, Next(h.bytes, h.last))
    requires (Prev(h.bytes, h.last) + HEADER <= h.last || h.last == 0) && PrevIsFree(h, h.last)
    ensures !Chain(Free(size, h, h.last), d)
  {
    hide Chain, Releases, Merge, IsFree;
    LastFlagKeeps(h, c, FREE);
    LastFlagSame(h, FREE);
    LastMergeBreaks(SetFlag(h, h.last, FREE), c, d);
  }

  lemma FreeLastStays(size: nat, h: Heap, c: seq<nat>)
    requires size > 0 && Chain(h, c)
    requires HasHeader(h.bytes, h.last) && HasHeader(h.bytes, Prev(h.bytes, h.last))
    requires HasHeader(h.bytes, Next(h.bytes, h.last))
    requires (Prev(h.bytes, h.last) + HEADER <= h.last || h.last == 0) && !PrevIsFree(h, h.last)
    requires !Releases(size, h, h.last)
    ensures Chain(Free(size, h, h.last), c) && Live(Free(size, h, h.last), c) == Live(h, c)
  {
    hide Chain, Live, Releases, IsFree;
    LastFlagKeeps(h, c, FREE);
    LastFlagLive(h, c, FREE);
  }

  lemma LastFlagLive(h: Heap, c: seq<nat>, flag: byte)
    requires Chain(h, c) && HasHeader(h.bytes, h.last) && Chain(SetFlag(h, h.last, flag), c)
    ensures Live(SetFlag(h, h.last, flag), c) == Live(h, c)
  {
    hide Linked, Payload, IsFree, Live;
    var h' := SetFlag(h, h.last, flag);
    var m := Live(h, c);
    forall i | 0 <= i < |c| - 1
      ensures HasHeader(h'.bytes, c[i]) && (c[i] in m <==> !IsFree(h'.bytes, c[i]))
      ensures c[i] in m ==> m[c[i]] == Payload(h'.bytes, c[i])
    {
      PayloadOf(h, c, i);
      LiveAt(h, c, i);
      HeaderKept(h.bytes, h'.bytes, c[i]);
      SamePayload(h, h', c, c, i);
    }
    LastIsNoBlock(h, c);
    LiveIs(h', c, m);
  }

  lemma ReleasesNotFirst(size: nat, h: Heap, a: nat)
    requires size > 0 && HasHeader(h.bytes, a) && HasHeader(h.bytes, Prev(h.bytes, a)) && Releases(size, h, a)
    ensures a != 0
  {
  }

  lemma LastFlagSame(h: Heap, flag: byte)
    requires HasHeader(h.bytes, h.last)
    ensures var t := SetFlag(h, h.last, flag);
      && t.last == h.last && |t.bytes| == |h.bytes| && Prev(t.bytes, h.last) == Prev(h.bytes, h.last)
      && Next(t.bytes, h.last) == Next(h.bytes, h.last)
  {
    WordOutsidePatch(h.bytes, h.last + 8, [flag], h.last);
    WordOutsidePatch(h.bytes, h.last + 8, [flag], h.last + 4);
  }
}
