/**
 The address space of a process as one byte string: its pages one after the other. Reading
 and writing a page at an offset is reading and writing the string at page * size + offset.
 */
module FlatSpace {
  import opened Arith
  import opened Bytes
  import opened Paging

  ghost predicate Sized(pages: seq<seq<byte>>, size: nat) {
    forall j :: 0 <= j < |pages| ==> |pages[j]| == size
  }

  function ByteAt(pages: seq<seq<byte>>, size: nat, k: nat): byte {
    if size > 0 && PageIndex(size, k) < |pages| && Offset(size, k) < |pages[PageIndex(size, k)]|
    then pages[PageIndex(size, k)][Offset(size, k)] else 0
  }

  function Flat(pages: seq<seq<byte>>, size: nat): (r: seq<byte>)
    ensures |r| == Pages(size, |pages|)
  {
    seq(Pages(size, |pages|), k requires 0 <= k => ByteAt(pages, size, k))
  }

  lemma FlatAt(pages: seq<seq<byte>>, size: nat, j: nat, o: nat)
    requires Sized(pages, size) && j < |pages| && o < size
    ensures Pages(size, j) + o < Pages(size, |pages|) && Flat(pages, size)[Pages(size, j) + o] == pages[j][o]
  {
    PagesStep(size, j, |pages|);
    AddressUnique(size, j, o, Pages(size, j) + o);
  }

  /** `s` has each byte of each page where that page lies. */
  ghost predicate LaidOut(pages: seq<seq<byte>>, size: nat, s: seq<byte>) {
    forall j: nat, o: nat :: j < |pages| && o < size ==> LaidAt(pages, size, s, j, o)
  }

  predicate LaidAt(pages: seq<seq<byte>>, size: nat, s: seq<byte>, j: nat, o: nat) {
    && j < |pages| && o < |pages[j]| && Pages(size, j) + o < |s|
    && s[Pages(size, j) + o] == pages[j][o]
  }

  /** Two strings of pages agree when they agree at every offset of every page. */
  lemma FlatEqual(pages: seq<seq<byte>>, size: nat, s: seq<byte>)
    requires size > 0 && Sized(pages, size) && |s| == Pages(size, |pages|) && LaidOut(pages, size, s)
    ensures s == Flat(pages, size)
  {
    var f := Flat(pages, size);
    forall k | 0 <= k < |s| ensures s[k] == f[k] {
      AddressSplit(size, k);
      PageIndexBelow(size, k, |pages|);
      assert LaidAt(pages, size, s, PageIndex(size, k), Offset(size, k));
    }
  }

  /** Patching one page patches the string. */
  lemma FlatPatch(pages: seq<seq<byte>>, size: nat, j: nat, o: nat, data: seq<byte>)
    requires size > 0 && Sized(pages, size) && j < |pages| && o + |data| <= size
    ensures Pages(size, j) + o + |data| <= Pages(size, |pages|)
    ensures Sized(pages[j := Patch(pages[j], o, data)], size)
    ensures Flat(pages[j := Patch(pages[j], o, data)], size) == Patch(Flat(pages, size), Pages(size, j) + o, data)
  {
    PagesStep(size, j, |pages|);
    var now := pages[j := Patch(pages[j], o, data)];
    var s := Patch(Flat(pages, size), Pages(size, j) + o, data);
    PatchLaidOut(pages, size, j, o, data, now, s);
    FlatEqual(now, size, s);
  }

  ghost predicate PagesPatched(
      pages: seq<seq<byte>>, size: nat, j: nat, o: nat, data: seq<byte>, now: seq<seq<byte>>, s: seq<byte>)
  {
    && size > 0 && Sized(pages, size) && Sized(now, size) && j < |pages| == |now| && o + |data| <= size
    && now[j] == Patch(pages[j], o, data) && (forall i :: 0 <= i < |pages| && i != j ==> now[i] == pages[i])
    && Pages(size, j) + o + |data| <= Pages(size, |pages|) && s == Patch(Flat(pages, size), Pages(size, j) + o, data)
  }

  lemma PatchedAt(
      pages: seq<seq<byte>>, size: nat, j: nat, o: nat, data: seq<byte>, now: seq<seq<byte>>, s: seq<byte>, i: nat,
      q: nat)
    requires PagesPatched(pages, size, j, o, data, now, s) && i < |now| && q < size
    ensures LaidAt(now, size, s, i, q)
  {
    hide Flat, Pages;
    FlatAt(pages, size, i, q);
    if i < j { PagesStep(size, i, j); }
    if j < i { PagesStep(size, j, i); }
  }

  lemma PatchLaidOut(
      pages: seq<seq<byte>>, size: nat, j: nat, o: nat, data: seq<byte>, now: seq<seq<byte>>, s: seq<byte>)
    requires PagesPatched(pages, size, j, o, data, now, s)
    ensures |s| == Pages(size, |now|) && LaidOut(now, size, s)
  {
    forall i: nat, q: nat | i < |now| && q < size ensures LaidAt(now, size, s, i, q) {
      PatchedAt(pages, size, j, o, data, now, s, i, q);
    }
  }

  /** A piece of one page is a piece of the string. */
  lemma FlatSlice(pages: seq<seq<byte>>, size: nat, j: nat, o: nat, n: nat)
    requires Sized(pages, size) && j < |pages| && o + n <= size
    ensures Pages(size, j) + o + n <= Pages(size, |pages|)
    ensures Flat(pages, size)[Pages(size, j) + o..Pages(size, j) + o + n] == pages[j][o..o + n]
  {
    PagesStep(size, j, |pages|);
    var a, b := Flat(pages, size)[Pages(size, j) + o..Pages(size, j) + o + n], pages[j][o..o + n];
    forall i | 0 <= i < n ensures a[i] == b[i] {
      FlatAt(pages, size, j, o + i);
    }
  }

  /** More pages at the end leave the addresses before them as they were. */
  lemma FlatPrefix(pages: seq<seq<byte>>, more: seq<seq<byte>>, size: nat)
    requires size > 0 && Sized(pages, size) && Sized(more, size) && |pages| <= |more|
    requires forall i :: 0 <= i < |pages| ==> more[i] == pages[i]
    ensures Pages(size, |pages|) <= Pages(size, |more|)
    ensures Flat(more, size)[..Pages(size, |pages|)] == Flat(pages, size)
  {
    if |pages| < |more| { PagesStep(size, |pages|, |more|); }
    var a, b := Flat(more, size)[..Pages(size, |pages|)], Flat(pages, size);
    forall k | 0 <= k < Pages(size, |pages|) ensures a[k] == b[k] {
      PageIndexBelow(size, k, |pages|);
    }
  }

  // ---- the address space of a process -------------------------------------------------------

  /** The address of the first byte of a page. */
  function Address(c: Settings, k: Key): nat
    requires k.page >= 1
  {
    Pages(c.pageSize, k.page - 1)
  }

  lemma PageSized(c: Settings, s: Mem, k: Key)
    requires Structure(c, s) && Has(s, k)
    ensures |PageBytes(c, s, k)| == c.pageSize
  {
  }

  /** The page at position `j` of a process's list. */
  function Nth(pid: nat, j: nat): Key {
    Key(pid, j + 1)
  }

  function PageList(c: Settings, s: Mem, pid: nat): (r: seq<seq<byte>>)
    requires pid in s.tables
    ensures |r| == |s.tables[pid].pages|
    ensures forall j :: 0 <= j < |r| ==> Has(s, Nth(pid, j)) && r[j] == PageBytes(c, s, Nth(pid, j))
  {
    seq(|s.tables[pid].pages|, j requires 0 <= j < |s.tables[pid].pages| => PageBytes(c, s, Nth(pid, j)))
  }

  lemma ListSized(c: Settings, s: Mem, pid: nat)
    requires Structure(c, s) && pid in s.tables
    ensures Sized(PageList(c, s, pid), c.pageSize)
  {
    forall j | 0 <= j < |s.tables[pid].pages| ensures |PageList(c, s, pid)[j]| == c.pageSize {
      PageSized(c, s, Nth(pid, j));
    }
  }

  /** V(pid): every byte a process can address, in order. */
  function Space(c: Settings, s: Mem, pid: nat): (r: seq<byte>)
    ensures pid in s.tables ==> |r| == Pages(c.pageSize, |s.tables[pid].pages|)
  {
    if pid in s.tables then Flat(PageList(c, s, pid), c.pageSize) else []
  }

  lemma SpaceOfProcess(c: Settings, s: Mem, pid: nat)
    requires |Space(c, s, pid)| > 0
    ensures pid in s.tables
  {
  }

  lemma ShapeSize(c: Settings, s: Mem, t: Mem, pid: nat)
    requires SameShape(s, t) && pid in s.tables
    ensures pid in t.tables && |Space(c, t, pid)| == |Space(c, s, pid)| == Pages(c.pageSize, |t.tables[pid].pages|)
    ensures t.tables[pid].lastHeap == s.tables[pid].lastHeap && |t.tables[pid].pages| == |s.tables[pid].pages|
  {
  }

  /** Same address spaces for every process that is sound, but possibly `pid`. */
  ghost predicate SameSpacesBut(c: Settings, s: Mem, t: Mem, pid: nat) {
    forall p :: p in s.tables && p != pid && Sound(t, p) ==> Space(c, t, p) == Space(c, s, p)
  }

  lemma SpacesTwice(c: Settings, s: Mem, m: Mem, t: Mem, pid: nat)
    requires SameSpacesBut(c, s, m, pid) && SameSpacesBut(c, m, t, pid) && Later(m, t)
    requires s.tables.Keys <= m.tables.Keys
    ensures SameSpacesBut(c, s, t, pid)
  {
    hide Space;
    forall p | p in s.tables && p != pid && Sound(t, p) ensures Space(c, t, p) == Space(c, s, p) {
      LaterSound(m, t, p);
      assert p in m.tables;
    }
  }

  lemma SameBytesSameSpace(c: Settings, s: Mem, t: Mem, p: nat)
    requires SameShape(s, t) && SameBytes(c, s, t) && p in s.tables && Sound(t, p)
    ensures Space(c, t, p) == Space(c, s, p)
  {
    assert PageList(c, t, p) == PageList(c, s, p) by {
      forall j | 0 <= j < |s.tables[p].pages| ensures PageBytes(c, t, Nth(p, j)) == PageBytes(c, s, Nth(p, j)) {
        assert Has(s, Nth(p, j)) && Has(t, Nth(p, j));
      }
    }
  }

  /** Of the processes that are sound at `t` only page `k` changed, at `at`. */
  ghost predicate OnlyPatched(c: Settings, s: Mem, t: Mem, k: Key, at: nat, data: seq<byte>) {
    && Structure(c, s) && SameShape(s, t) && Has(s, k)
    && |PageBytes(c, s, k)| == c.pageSize && at + |data| <= c.pageSize
    && forall q :: Has(s, q) && Sound(t, q.pid) ==>
         PageBytes(c, t, q) == if q == k then Patch(PageBytes(c, s, k), at, data) else PageBytes(c, s, q)
  }

  /** Then the string of its process is patched there ... */
  lemma PagePatched(c: Settings, s: Mem, t: Mem, k: Key, at: nat, data: seq<byte>)
    requires OnlyPatched(c, s, t, k, at, data) && Sound(t, k.pid)
    ensures Address(c, k) + at + |data| <= |Space(c, s, k.pid)|
    ensures Space(c, t, k.pid) == Patch(Space(c, s, k.pid), Address(c, k) + at, data)
  {
    var a, j := PageList(c, s, k.pid), k.page - 1;
    ListPatched(c, s, t, k, at, data, k.pid);
    PatchedSpace(c, s, t, k, at, data);
  }

  lemma PatchedSpace(c: Settings, s: Mem, t: Mem, k: Key, at: nat, data: seq<byte>)
    requires k.pid in s.tables && k.pid in t.tables && 1 <= k.page <= |s.tables[k.pid].pages|
    requires at + |data| <= c.pageSize && c.pageSize > 0
    requires Sized(PageList(c, s, k.pid), c.pageSize)
    requires var a, j := PageList(c, s, k.pid), k.page - 1; PageList(c, t, k.pid) == a[j := Patch(a[j], at, data)]
    ensures Address(c, k) + at + |data| <= |Space(c, s, k.pid)|
    ensures Space(c, t, k.pid) == Patch(Space(c, s, k.pid), Address(c, k) + at, data)
  {
    FlatPatch(PageList(c, s, k.pid), c.pageSize, k.page - 1, at, data);
  }

  /** ... and every other string is as before. */
  lemma PagePatchedElsewhere(c: Settings, s: Mem, t: Mem, k: Key, at: nat, data: seq<byte>, p: nat)
    requires OnlyPatched(c, s, t, k, at, data) && p in s.tables && p != k.pid && Sound(t, p)
    ensures Space(c, t, p) == Space(c, s, p)
  {
    ListPatched(c, s, t, k, at, data, p);
  }

  lemma ListPatched(c: Settings, s: Mem, t: Mem, k: Key, at: nat, data: seq<byte>, p: nat)
    requires OnlyPatched(c, s, t, k, at, data) && p in s.tables && Sound(t, p)
    ensures var a, j := PageList(c, s, p), k.page - 1;
      if p == k.pid then j < |a| && Sized(a, c.pageSize) && PageList(c, t, p) == a[j := Patch(a[j], at, data)]
      else PageList(c, t, p) == a
  {
    var a, b := PageList(c, s, p), PageList(c, t, p);
    ListSized(c, s, p);
    forall i | 0 <= i < |a|
      ensures b[i] == if Nth(p, i) == k then Patch(PageBytes(c, s, k), at, data) else a[i]
    {
      assert Has(s, Nth(p, i)) && Has(t, Nth(p, i));
    }
    assert p == k.pid ==> Nth(p, k.page - 1) == k;
  }

  lemma AddressFits(c: Settings, s: Mem, k: Key, o: nat)
    requires Has(s, k) && o <= c.pageSize
    ensures Address(c, k) + o <= |Space(c, s, k.pid)|
  {
    PagesStep(c.pageSize, k.page - 1, |s.tables[k.pid].pages|);
  }

  /** A piece of a page is the piece of the address space it lies at. */
  lemma PageSlice(c: Settings, s: Mem, k: Key, at: nat, n: nat)
    requires Structure(c, s) && Has(s, k) && at + n <= c.pageSize
    ensures |PageBytes(c, s, k)| == c.pageSize
    ensures Address(c, k) + at + n <= |Space(c, s, k.pid)|
    ensures Space(c, s, k.pid)[Address(c, k) + at..Address(c, k) + at + n] ==
            PageBytes(c, s, k)[at..at + n]
  {
    PageSized(c, s, k);
    assert PageList(c, s, k.pid)[k.page - 1] == PageBytes(c, s, k) by { assert Nth(k.pid, k.page - 1) == k; }
    ListSized(c, s, k.pid);
    FlatSlice(PageList(c, s, k.pid), c.pageSize, k.page - 1, at, n);
  }
}
