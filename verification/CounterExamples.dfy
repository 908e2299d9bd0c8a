/**
 One input for each place where the code does not do what it is for, reached from a beginning; the
 lemmas named in the headings say exactly when.
 */
module CounterExamples {
  import opened Arith
  import opened Bytes
  import opened Changes
  import opened HeapOps
  import opened Options
  import opened Paging
  import opened Swap
  import H = Heap
  import Rep = Replacement
  import Runs = SwapRuns
  import Tlb

  // ---- dynamic swap (DynamicComesBack) -----------------------------------------------------

  const DYNAMIC := Config(Dynamic, 4, 1, 0)

  const A := Row(1, 1)
  const B := Row(2, 1)
  const B2 := Row(2, 2)

  function Holds(rows: seq<Row>, frames: seq<seq<byte>>, owner: map<int, nat>): Store {
    Store([File(rows, frames)], owner)
  }

  /** Processes 1 and 2 save a page each. */
  function TwoSaved(): Store {
    Holds([A, B], [[7], [8], [0], [0]], map[1 := 0, 2 := 0])
  }

  /** Process 1 then finishes: its row is a tombstone. */
  function OneFinished(): Store {
    Holds([TOMBSTONE, B], [[0], [8], [0], [0]], map[2 := 0])
  }

  lemma NoRows()
    ensures LiveRows([]) == 0
  {
  }

  lemma LiveRowsOne(row: Row)
    ensures LiveRows([row]) == if row.pid != MARK then 1 else 0
  {
    assert [row][..0] == [];
  }

  lemma LiveRowsMore(rows: seq<Row>, row: Row)
    ensures LiveRows(rows + [row]) == LiveRows(rows) + if row.pid != MARK then 1 else 0
  {
    assert (rows + [row])[..|rows|] == rows;
  }

  lemma FirstTarget(cfg: Config, file: File)
    ensures LeastUsed(cfg, [file], 1) == (0, if FreeFrames(cfg, file) > 0 then FreeFrames(cfg, file) else 0)
  {
    assert LeastUsed(cfg, [file], 0) == (0, 0);
  }

  lemma EmptyFile(cfg: Config, frames: seq<seq<byte>>)
    requires cfg.pageSize == 1 && |frames| == cfg.frameCount && forall f :: 0 <= f < |frames| ==> frames[f] == [0]
    ensures Empty(cfg, 1) == Holds([], frames, map[])
  {
    assert Zeros(1) == [0];
    assert seq(cfg.frameCount, _ => Zeros(cfg.pageSize)) == frames;
  }

  lemma IsHeld(s: Store, rows: seq<Row>, frames: seq<seq<byte>>, owner: map<int, nat>)
    requires |s.files| == 1 && s.files[0].rows == rows && s.files[0].frames == frames && s.owner == owner
    ensures s == Holds(rows, frames, owner)
  {
    assert s.files == [File(rows, frames)];
  }

  lemma FirstSave()
    ensures Save(DYNAMIC, Empty(DYNAMIC, 1), 1, 1, [7]) == (true, Holds([A], [[7], [0], [0], [0]], map[1 := 0]))
  {
    var e := [[0], [0], [0], [0]];
    EmptyFile(DYNAMIC, e);
    FirstTarget(DYNAMIC, File([], e));
    NoRows();
    assert [] + [A] == [A] && e[0 := [7]] == [[7], [0], [0], [0]];
    IsHeld(Save(DYNAMIC, Empty(DYNAMIC, 1), 1, 1, [7]).1, [A], [[7], [0], [0], [0]], map[1 := 0]);
  }

  lemma SecondSave()
    ensures Save(DYNAMIC, Holds([A], [[7], [0], [0], [0]], map[1 := 0]), 2, 1, [8]) == (true, TwoSaved())
  {
    FirstTarget(DYNAMIC, File([A], [[7], [0], [0], [0]]));
    LiveRowsOne(A);
    assert [A][1..] == [] && [A] + [B] == [A, B];
    assert FirstFree([A], 2) == 1;
    assert [[7], [0], [0], [0]][1 := [8]] == [[7], [8], [0], [0]];
    IsHeld(Save(DYNAMIC, Holds([A], [[7], [0], [0], [0]], map[1 := 0]), 2, 1, [8]).1, [A, B], [[7], [8], [0], [0]],
           map[1 := 0, 2 := 0]);
  }

  lemma FirstFinishes()
    ensures Finish(DYNAMIC, TwoSaved(), 1) == OneFinished()
  {
    assert Zeros(1) == [0];
    var file := Cleared(TwoSaved().files[0], 1, Zeros(1));
    assert file.rows == [TOMBSTONE, B] && file.frames == [[0], [8], [0], [0]];
  }

  lemma FinishedLives()
    ensures LiveRows([TOMBSTONE, B]) == 1 && HasTombstone([TOMBSTONE, B])
  {
    LiveRowsOne(TOMBSTONE);
    LiveRowsMore([TOMBSTONE], B);
    assert [TOMBSTONE] + [B] == [TOMBSTONE, B];
    assert [TOMBSTONE, B][0].pid == MARK;
  }

  lemma RegisteredSave()
    ensures var (ok, t) := Save(DYNAMIC, OneFinished(), 2, 2, [9]); ok && Fetch(t, 2, 2) == Some([0])
    ensures !Settles(DYNAMIC, OneFinished(), 2, 2)
  {
    FinishedLives();
    var s := OneFinished();
    assert B2 !in s.files[0].rows && Row(2, MARK) !in s.files[0].rows;
    DynamicNewPage(DYNAMIC, s, 2, 2, [9]);
  }

  lemma NewcomerSave()
    ensures var (ok, t) := Save(DYNAMIC, OneFinished(), 3, 1, [9]); ok && Fetch(t, 3, 1) == Some([0])
    ensures !Settles(DYNAMIC, OneFinished(), 3, 1)
  {
    FinishedLives();
    var s := OneFinished();
    FirstTarget(DYNAMIC, s.files[0]);
    DynamicNewPage(DYNAMIC, s, 3, 1, [9]);
  }

  /** The run up to the finish, and one save more. */
  lemma RunAfterFinish(q: Runs.Request) returns (ss: seq<Store>, qs: seq<Runs.Request>, answers: seq<bool>)
    requires q.SavePage? && RealKey(q.pid, q.page) && |q.content| == 1
    ensures var (ok, t) := Save(DYNAMIC, OneFinished(), q.pid, q.page, q.content);
      && Runs.Run(DYNAMIC, 1, ss, qs, answers) && |qs| == 4 && |answers| == 4 && |ss| == 5
      && qs[3] == q && answers[3] == ok && ss[3] == OneFinished() && ss[4] == t
  {
    hide Save, Finish, TwoSaved, OneFinished;
    FirstSave();
    SecondSave();
    FirstFinishes();
    var (ok, t) := Save(DYNAMIC, OneFinished(), q.pid, q.page, q.content);
    var s1 := Holds([A], [[7], [0], [0], [0]], map[1 := 0]);
    ss := [Empty(DYNAMIC, 1), s1, TwoSaved(), OneFinished(), t];
    qs := [Runs.SavePage(1, 1, [7]), Runs.SavePage(2, 1, [8]), Runs.FinishProcess(1), q];
    answers := [true, true, true, ok];
    forall i | 0 <= i < 4 ensures Runs.Stepped(DYNAMIC, ss[i], qs[i], answers[i], ss[i + 1]) {
      assert i == 0 || i == 1 || i == 2 || i == 3;
    }
  }

  lemma LostNow(cfg: Config, ss: seq<Store>, qs: seq<Runs.Request>, answers: seq<bool>, k: nat)
    requires k < |qs| && |answers| == |qs| && |ss| == |qs| + 1 && qs[k].SavePage? && answers[k]
    requires !Runs.Lands(cfg, ss[k], qs[k].pid, qs[k].page)
    ensures Row(qs[k].pid, qs[k].page) in Runs.Wanted(cfg, ss, qs, answers, k + 1).lost
  {
  }

  /** A registered process saves its second page after another has finished: accepted, and fetched back as zeros. */
  lemma RegisteredPageLost() returns (ss: seq<Store>, qs: seq<Runs.Request>, answers: seq<bool>)
    ensures Runs.Run(DYNAMIC, 1, ss, qs, answers) && |qs| == 4 && |answers| == 4 && |ss| == 5
    ensures qs[3] == Runs.SavePage(2, 2, [9]) && answers[3] && Fetch(ss[4], 2, 2) == Some([0])
    ensures B2 in Runs.Wanted(DYNAMIC, ss, qs, answers, 4).lost
  {
    hide Runs.Run, Runs.Wanted, Save, Fetch, OneFinished, Settles;
    ss, qs, answers := RunAfterFinish(Runs.SavePage(2, 2, [9]));
    RegisteredSave();
    LostNow(DYNAMIC, ss, qs, answers, 3);
  }

  /** So does a new process with its first page. */
  lemma FirstPageLost() returns (ss: seq<Store>, qs: seq<Runs.Request>, answers: seq<bool>)
    ensures Runs.Run(DYNAMIC, 1, ss, qs, answers) && |qs| == 4 && |answers| == 4 && |ss| == 5
    ensures qs[3] == Runs.SavePage(3, 1, [9]) && answers[3] && Fetch(ss[4], 3, 1) == Some([0])
    ensures Row(3, 1) in Runs.Wanted(DYNAMIC, ss, qs, answers, 4).lost
  {
    hide Runs.Run, Runs.Wanted, Save, Fetch, OneFinished, Settles;
    ss, qs, answers := RunAfterFinish(Runs.SavePage(3, 1, [9]));
    NewcomerSave();
    LostNow(DYNAMIC, ss, qs, answers, 3);
  }

  /** Processes 1 and 2 have saved three pages before process 1 finishes. */
  function ThreeSaved(): Store {
    Holds([A, B, B2], [[7], [8], [9], [0]], map[1 := 0, 2 := 0])
  }

  function TwoLeft(): Store {
    Holds([TOMBSTONE, B, B2], [[0], [8], [9], [0]], map[2 := 0])
  }

  lemma ThirdSave()
    ensures Save(DYNAMIC, TwoSaved(), 2, 2, [9]) == (true, ThreeSaved())
  {
    LiveRowsOne(A);
    LiveRowsMore([A], B);
    assert [A] + [B] == [A, B];
    assert FrameNumber([A, B], B2) == 2 && FirstFree([A, B], 2) == 2;
    assert [A, B] + [B2] == [A, B, B2];
    assert [[7], [8], [0], [0]][2 := [9]] == [[7], [8], [9], [0]];
    IsHeld(Save(DYNAMIC, TwoSaved(), 2, 2, [9]).1, [A, B, B2], [[7], [8], [9], [0]], map[1 := 0, 2 := 0]);
  }

  lemma FirstLeaves()
    ensures Finish(DYNAMIC, ThreeSaved(), 1) == TwoLeft()
  {
    assert Zeros(1) == [0];
    var file := Cleared(ThreeSaved().files[0], 1, Zeros(1));
    assert file.rows == [TOMBSTONE, B, B2] && file.frames == [[0], [8], [9], [0]];
  }

  lemma KeptSave()
    ensures var (ok, t) := Save(DYNAMIC, TwoLeft(), 3, 1, [5]); ok && Fetch(t, 3, 1) == Some([5])
  {
    var s := TwoLeft();
    LiveRowsOne(TOMBSTONE);
    LiveRowsMore([TOMBSTONE], B);
    LiveRowsMore([TOMBSTONE] + [B], B2);
    assert [TOMBSTONE] + [B] + [B2] == [TOMBSTONE, B, B2];
    FirstTarget(DYNAMIC, s.files[0]);
    DynamicNewPage(DYNAMIC, s, 3, 1, [5]);
  }

  /** With two live rows behind the tombstone the new process takes its place and gets its page back. */
  lemma FirstPageKept() returns (ss: seq<Store>, qs: seq<Runs.Request>, answers: seq<bool>)
    ensures Runs.Run(DYNAMIC, 1, ss, qs, answers) && |qs| == 5 && |answers| == 5 && |ss| == 6
    ensures qs[4] == Runs.SavePage(3, 1, [5]) && answers[4] && Fetch(ss[5], 3, 1) == Some([5])
  {
    hide Save, Finish, Fetch, TwoSaved, ThreeSaved, TwoLeft;
    FirstSave();
    SecondSave();
    ThirdSave();
    FirstLeaves();
    KeptSave();
    var s1, t := Holds([A], [[7], [0], [0], [0]], map[1 := 0]), Save(DYNAMIC, TwoLeft(), 3, 1, [5]).1;
    ss := [Empty(DYNAMIC, 1), s1, TwoSaved(), ThreeSaved(), TwoLeft(), t];
    qs := [Runs.SavePage(1, 1, [7]), Runs.SavePage(2, 1, [8]), Runs.SavePage(2, 2, [9]), Runs.FinishProcess(1),
           Runs.SavePage(3, 1, [5])];
    answers := [true, true, true, true, true];
    forall i | 0 <= i < 5 ensures Runs.Stepped(DYNAMIC, ss[i], qs[i], answers[i], ss[i + 1]) {
      assert i == 0 || i == 1 || i == 2 || i == 3 || i == 4;
    }
  }

  // ---- fixed swap past the quota (FixedOverQuota) ----------------------------------------

  const FIXED := Config(Fixed, 6, 1, 2)

  /** Process 1 has saved its two pages; process 2, with one page, has come and gone. */
  function QuotaUsed(): Store {
    Holds([A, Row(1, 2), TOMBSTONE, TOMBSTONE], [[7], [8], [0], [0], [0], [0]], map[1 := 0])
  }

  function FirstOfTwo(): Store {
    Holds([A, Row(1, MARK)], [[7], [0], [0], [0], [0], [0]], map[1 := 0])
  }

  function BothOfTwo(): Store {
    Holds([A, Row(1, 2)], [[7], [8], [0], [0], [0], [0]], map[1 := 0])
  }

  function NextComes(): Store {
    Holds([A, Row(1, 2), B, Row(2, MARK)], [[7], [8], [9], [0], [0], [0]], map[1 := 0, 2 := 0])
  }

  lemma FixedFirst()
    ensures Save(FIXED, Empty(FIXED, 1), 1, 1, [7]) == (true, FirstOfTwo())
  {
    var e := [[0], [0], [0], [0], [0], [0]];
    EmptyFile(FIXED, e);
    FirstTarget(FIXED, File([], e));
    NoRows();
    assert Block(FIXED, 1, 1) == [A, Row(1, MARK)];
    assert [] + Block(FIXED, 1, 1) == [A, Row(1, MARK)];
    assert e[0 := [7]] == [[7], [0], [0], [0], [0], [0]];
    IsHeld(Save(FIXED, Empty(FIXED, 1), 1, 1, [7]).1, [A, Row(1, MARK)], [[7], [0], [0], [0], [0], [0]], map[1 := 0]);
  }

  lemma FixedSecond()
    ensures Save(FIXED, FirstOfTwo(), 1, 2, [8]) == (true, BothOfTwo())
  {
    var rows := [A, Row(1, MARK)];
    LiveRowsOne(A);
    LiveRowsMore([A], Row(1, MARK));
    assert [A] + [Row(1, MARK)] == rows;
    FrameNumberIs(rows, Row(1, MARK), 1);
    assert FrameNumber(rows, Row(1, 2)) == 2;
    assert rows[1 := Row(1, 2)] == [A, Row(1, 2)];
    assert [[7], [0], [0], [0], [0], [0]][1 := [8]] == [[7], [8], [0], [0], [0], [0]];
    IsHeld(Save(FIXED, FirstOfTwo(), 1, 2, [8]).1, [A, Row(1, 2)], [[7], [8], [0], [0], [0], [0]], map[1 := 0]);
  }

  lemma FixedThird()
    ensures Save(FIXED, BothOfTwo(), 2, 1, [9]) == (true, NextComes())
  {
    var rows := [A, Row(1, 2)];
    LiveRowsOne(A);
    LiveRowsMore([A], Row(1, 2));
    assert [A] + [Row(1, 2)] == rows;
    FirstTarget(FIXED, File(rows, [[7], [8], [0], [0], [0], [0]]));
    assert FirstFree(rows, 2) == 2;
    assert Block(FIXED, 2, 1) == [B, Row(2, MARK)];
    assert rows + Block(FIXED, 2, 1) == [A, Row(1, 2), B, Row(2, MARK)];
    assert [[7], [8], [0], [0], [0], [0]][2 := [9]] == [[7], [8], [9], [0], [0], [0]];
    IsHeld(Save(FIXED, BothOfTwo(), 2, 1, [9]).1, [A, Row(1, 2), B, Row(2, MARK)], [[7], [8], [9], [0], [0], [0]],
           map[1 := 0, 2 := 0]);
  }

  lemma FixedFinishes()
    ensures Finish(FIXED, NextComes(), 2) == QuotaUsed()
  {
    assert Zeros(1) == [0];
    var file := Cleared(NextComes().files[0], 2, Zeros(1));
    assert file.rows == QuotaUsed().files[0].rows && file.frames == QuotaUsed().files[0].frames;
  }

  lemma OverQuotaSave()
    ensures var (ok, t) := Save(FIXED, QuotaUsed(), 1, 3, [5]); ok && Fetch(t, 1, 3) == None
    ensures !WithinQuota(QuotaUsed(), 1, 3)
  {
    var rows := QuotaUsed().files[0].rows;
    assert FrameNumber(rows, Row(1, 3)) == 4 && FrameNumber(rows, Row(1, MARK)) == 4;
    assert rows[2].pid == MARK;
    LiveRowsFull(rows);
  }

  /** A third page under a quota of two is reported saved and cannot be fetched. */
  lemma OverQuotaAccepted() returns (ss: seq<Store>, qs: seq<Runs.Request>, answers: seq<bool>)
    ensures Runs.Run(FIXED, 1, ss, qs, answers) && |qs| == 5 && |answers| == 5 && |ss| == 6
    ensures qs[4] == Runs.SavePage(1, 3, [5]) && answers[4] && Fetch(ss[5], 1, 3) == None
    ensures Row(1, 3) in Runs.Wanted(FIXED, ss, qs, answers, 5).lost
  {
    hide Runs.Wanted, Save, Finish, Fetch, FirstOfTwo, BothOfTwo, NextComes, WithinQuota;
    FixedFirst();
    FixedSecond();
    FixedThird();
    FixedFinishes();
    OverQuotaSave();
    var t := Save(FIXED, QuotaUsed(), 1, 3, [5]).1;
    ss := [Empty(FIXED, 1), FirstOfTwo(), BothOfTwo(), NextComes(), QuotaUsed(), t];
    qs := [Runs.SavePage(1, 1, [7]), Runs.SavePage(1, 2, [8]), Runs.SavePage(2, 1, [9]), Runs.FinishProcess(2),
           Runs.SavePage(1, 3, [5])];
    answers := [true, true, true, true, true];
    forall i | 0 <= i < 5 ensures Runs.Stepped(FIXED, ss[i], qs[i], answers[i], ss[i + 1]) {
      assert i == 0 || i == 1 || i == 2 || i == 3 || i == 4;
    }
    LostNow(FIXED, ss, qs, answers, 4);
  }

  // ---- fixed swap with a quota of one page (SmallQuotaComesBack) -------------------------------

  const SINGLE := Config(Fixed, 2, 1, 1)

  lemma SingleFirst()
    ensures Save(SINGLE, Empty(SINGLE, 1), 1, 1, [7]) == (true, Holds([A], [[7], [0]], map[1 := 0]))
  {
    var e := [[0], [0]];
    EmptyFile(SINGLE, e);
    FirstTarget(SINGLE, File([], e));
    NoRows();
    assert Block(SINGLE, 1, 1) == [A] && [] + [A] == [A] && e[0 := [7]] == [[7], [0]];
    IsHeld(Save(SINGLE, Empty(SINGLE, 1), 1, 1, [7]).1, [A], [[7], [0]], map[1 := 0]);
  }

  lemma SingleFinishes()
    ensures Finish(SINGLE, Holds([A], [[7], [0]], map[1 := 0]), 1) == Holds([TOMBSTONE], [[0], [0]], map[])
  {
    assert Zeros(1) == [0];
    var file := Cleared(File([A], [[7], [0]]), 1, Zeros(1));
    assert file.rows == [TOMBSTONE] && file.frames == [[0], [0]];
    assert map[1 := 0] - {1} == map[];
  }

  lemma SingleSave()
    ensures var s := Holds([TOMBSTONE], [[0], [0]], map[]);
      var (ok, t) := Save(SINGLE, s, 2, 1, [9]);
      ok && Fetch(t, 2, 1) == Some([0]) && !SmallQuotaLands(SINGLE, s, 2, 1)
  {
    var s := Holds([TOMBSTONE], [[0], [0]], map[]);
    LiveRowsOne(TOMBSTONE);
    FirstTarget(SINGLE, s.files[0]);
    assert FirstFree([TOMBSTONE], 2) == 0;
    assert Block(SINGLE, 2, 1) == [B] && [TOMBSTONE] + [B] == [TOMBSTONE, B];
    FrameNumberIs([TOMBSTONE, B], B, 1);
    assert [[0], [0]][0 := [9]] == [[9], [0]];
    IsHeld(Save(SINGLE, s, 2, 1, [9]).1, [TOMBSTONE, B], [[9], [0]], map[2 := 0]);
  }

  /** One process comes and goes; the next saves its page, accepted, and is given zeros for it. */
  lemma SingleQuotaLost() returns (ss: seq<Store>, qs: seq<Runs.Request>, answers: seq<bool>)
    ensures Runs.Run(SINGLE, 1, ss, qs, answers) && |qs| == 3 && |answers| == 3 && |ss| == 4
    ensures qs[2] == Runs.SavePage(2, 1, [9]) && answers[2] && Fetch(ss[3], 2, 1) == Some([0])
    ensures B in Runs.Wanted(SINGLE, ss, qs, answers, 3).lost
  {
    hide Runs.Wanted, Save, Finish, Fetch, SmallQuotaLands;
    SingleFirst();
    SingleFinishes();
    SingleSave();
    var s1, s2 := Holds([A], [[7], [0]], map[1 := 0]), Holds([TOMBSTONE], [[0], [0]], map[]);
    ss := [Empty(SINGLE, 1), s1, s2, Save(SINGLE, s2, 2, 1, [9]).1];
    qs := [Runs.SavePage(1, 1, [7]), Runs.FinishProcess(1), Runs.SavePage(2, 1, [9])];
    answers := [true, true, true];
    forall i | 0 <= i < 3 ensures Runs.Stepped(SINGLE, ss[i], qs[i], answers[i], ss[i + 1]) {
      assert i == 0 || i == 1 || i == 2;
    }
    LostNow(SINGLE, ss, qs, answers, 2);
  }

  // ---- the heap (ReuseKeepsChain, FreeKeepsChain) --------------------------------------------

  /** A new heap of `n` bytes. */
  function NewHeap(n: nat): H.Heap {
    H.Heap(H.Header(0, 0, H.FREE) + Zeros(n), 0)
  }

  lemma NewHeapIsChain(n: nat)
    requires n + H.HEADER < H.ADDRESS_LIMIT
    ensures H.Chain(NewHeap(n), [0])
  {
    var b := NewHeap(n).bytes;
    assert b[0..H.HEADER] == H.Header(0, 0, H.FREE);
    H.HeaderWritten(b, 0, 0, 0, H.FREE);
  }

  /** A block of 41 bytes allocated and freed again; one byte asked for then splits it, and no chain is left. */
  lemma SplitLosesChain() returns (h: H.Heap, c: seq<nat>)
    ensures H.Chain(h, c) && |c| == 2 && c[0] == 0 && H.Splits(h.bytes, 0, 1)
    ensures H.HasHeader(h.bytes, 0) && H.HasHeader(h.bytes, H.Next(h.bytes, 0)) && |h.bytes| < H.ADDRESS_LIMIT
    ensures !exists d :: H.Chain(H.Reuse(h, 0, 1), d)
  {
    hide H.Chain, H.Live, H.Append, H.Reuse, H.SetFlag;
    var e := NewHeap(64);
    NewHeapIsChain(64);
    H.AppendKeeps(e, [0], e.bytes, 41);
    var a := H.Append(e.bytes, 0, 41);
    c := [0] + [50];
    H.LinkAt(a, c, 0);
    h := H.SetFlag(a, c[0], H.FREE);
    H.FlagKeeps(a, c, 0, H.FREE);
    H.LinkAt(h, c, 0);
    H.ReuseKeepsChain(h, c, 0, 1);
  }

  /** Two blocks, the second on the last page: freeing it gives the page back, and no chain is left. */
  lemma ReleaseLosesChain() returns (h: H.Heap, c: seq<nat>)
    ensures H.Chain(h, c) && |c| == 3 && c[1] == 32
    ensures H.HasHeader(h.bytes, 32) && H.HasHeader(h.bytes, H.Prev(h.bytes, 32))
    ensures H.HasHeader(h.bytes, H.Next(h.bytes, 32))
    ensures H.Prev(h.bytes, 32) + H.HEADER <= 32
    ensures H.Releases(32, h, 32) && !exists d :: H.Chain(H.Free(32, h, 32), d)
  {
    hide H.Chain, H.Live, H.Append, H.Free, H.IsFree;
    var e := NewHeap(55);
    NewHeapIsChain(55);
    H.AppendKeeps(e, [0], e.bytes, 23);
    var a := H.Append(e.bytes, 0, 23);
    H.AppendBytes(e, e.bytes, 23);
    H.AppendKeeps(a, [0] + [32], a.bytes, 1);
    h := H.Append(a.bytes, 32, 1);
    c := [0] + [32] + [42];
    H.AppendBytes(a, a.bytes, 1);
    H.FlagMeans(h.bytes, 0);
    H.LinkAt(h, c, 0);
    PageIndexIsQuotient(32, 8);
    PageIndexIsQuotient(32, 32);
    PageIndexIsQuotient(32, |h.bytes|);
    H.FreeKeepsChain(32, h, c, 1);
  }

  // ---- LRU and the buffer (LruDropsWrongEntry) ----------------------------------------------

  const WITH_BUFFER := Settings(9, 2, 2, true, true, Config(Dynamic, 4, 9, 0))

  const K1 := Key(1, 1)
  const K2 := Key(2, 1)

  /** One page in the first frame, with its stamp; one in each frame. */
  function OnePage(a: nat): map<nat, Table> {
    map[1 := Table(0, [Page(1, 0, true, true, true, a)])]
  }

  function TwoPages(a: nat, b: nat): map<nat, Table> {
    map[1 := Table(0, [Page(1, 0, true, true, true, a)]), 2 := Table(0, [Page(1, 1, true, true, true, b)])]
  }

  lemma TwoPagesHas(s: Mem, a: nat, b: nat)
    requires s.tables == TwoPages(a, b)
    ensures forall k :: Has(s, k) <==> k == K1 || k == K2
    ensures PageOf(s, K1) == Page(1, 0, true, true, true, a) && PageOf(s, K2) == Page(1, 1, true, true, true, b)
  {
  }

  lemma TouchedPages(s: Mem, a: nat, b: nat)
    requires s.tables == TwoPages(a, b)
    ensures Has(s, K1) && Touch(s, K1).tables == TwoPages(s.lruClock + 1, b)
    ensures Has(s, K2) && Touch(s, K2).tables == TwoPages(a, s.lruClock + 1)
  {
    var n := s.lruClock + 1;
    assert [Page(1, 0, true, true, true, a)][0 := Page(1, 0, true, true, true, n)] == [Page(1, 0, true, true, true, n)];
    assert [Page(1, 1, true, true, true, b)][0 := Page(1, 1, true, true, true, n)] == [Page(1, 1, true, true, true, n)];
    assert Touch(s, K1).tables == TwoPages(n, b);
    assert Touch(s, K2).tables == TwoPages(a, n);
  }

  /** Two processes are created, one in each frame. */
  lemma BothEnter(s: Mem)
    requires Begun(WITH_BUFFER, s)
    ensures var m := Created(WITH_BUFFER, s, 1);
      && Changed(WITH_BUFFER, s, Enter(1), m)
      && var t := Created(WITH_BUFFER, m, 2);
         && Changed(WITH_BUFFER, m, Enter(2), t)
         && t.tables == TwoPages(1, 2) && t.tlb == Tlb.Buffer([], 0, 0) && t.lruClock == 2
  {
    var m := Created(WITH_BUFFER, s, 1);
    assert forall k :: !Has(s, k);
    assert !Owned(s, 0) && FreeFrame(WITH_BUFFER, s, 0) == 0;
    assert m.tables == OnePage(1);
    assert Has(m, K1) && PageOf(m, K1).frame == 0;
    assert Owned(m, 0);
    assert forall k :: Has(m, k) <==> k == K1;
    assert !Owned(m, 1) && FreeFrame(WITH_BUFFER, m, 1) == 1 && FreeFrame(WITH_BUFFER, m, 0) == 1;
    var t := Created(WITH_BUFFER, m, 2);
    assert t.tables == TwoPages(1, 2);
  }

  function Entered(b: Tlb.Buffer, k: Key, f: nat): Tlb.Buffer {
    Tlb.Buffer(b.entries + [Tlb.Entry(k.pid, k.page, f, b.fifoClock, b.lruClock)], b.fifoClock + 1, b.lruClock + 1)
  }

  /** A present page is accessed that the buffer does not know, and there is room in the buffer. */
  lemma AccessEnters(s: Mem, k: Key) returns (t: Mem)
    requires Has(s, k) && PageOf(s, k).present && |s.tlb.entries| < 2
    requires forall i :: 0 <= i < |s.tlb.entries| ==> s.tlb.entries[i].pid != k.pid && s.tlb.entries[i].pid != Tlb.EMPTY
    ensures Rep.Accessed(WITH_BUFFER, s, k, t)
    ensures t.tables == Touch(s, k).tables && t.lruClock == s.lruClock + 1
    ensures t.tlb == Entered(s.tlb, k, PageOf(s, k).frame)
  {
    t := Remember(WITH_BUFFER, Touch(Rep.Looked(WITH_BUFFER, s, k), k), k);
    assert Tlb.FindKey(s.tlb.entries, k.pid, k.page) == |s.tlb.entries|;
    assert Tlb.FindExact(s.tlb.entries, k.pid, k.page, PageOf(s, k).frame) == |s.tlb.entries|;
    assert Tlb.FindBlank(s.tlb.entries) == |s.tlb.entries|;
  }

  lemma EntriesFound(b: Tlb.Buffer, k: Key)
    requires b == Tlb.Buffer([Tlb.Entry(1, 1, 0, 0, 0), Tlb.Entry(2, 1, 1, 1, 1)], 2, 2)
    ensures Tlb.Lookup(b, k.pid, k.page) == if k == K1 then Some(0) else if k == K2 then Some(1) else None
    ensures Tlb.Ok(b, 2)
  {
    var es := b.entries;
    var i := Tlb.FindKey(es, k.pid, k.page);
    assert es[0] == Tlb.Entry(1, 1, 0, 0, 0) && es[1] == Tlb.Entry(2, 1, 1, 1, 1);
    assert i == 0 || i == 1 || i == 2;
  }

  /** Both pages accessed: the tables and the buffer agree, and the page of process 1 is least recently used. */
  lemma BothAccessed(s: Mem)
    requires s.tables == TwoPages(3, 4)
    requires s.tlb == Tlb.Buffer([Tlb.Entry(1, 1, 0, 0, 0), Tlb.Entry(2, 1, 1, 1, 1)], 2, 2)
    ensures Numbered(s) && FramesExclusive(WITH_BUFFER, s) && TlbAgrees(WITH_BUFFER, s) && Rep.IsLru(s, K1)
    ensures Tlb.Lookup(s.tlb, 1, 1) == Some(0)
  {
    hide Has, PageOf, Tlb.Lookup, Tlb.Ok;
    TwoPagesHas(s, 3, 4);
    forall k: Key
      ensures Tlb.Lookup(s.tlb, k.pid, k.page) == if k == K1 then Some(0) else if k == K2 then Some(1) else None
    {
      EntriesFound(s.tlb, k);
    }
    EntriesFound(s.tlb, K1);
  }

  /**
   Two frames, two processes, each page accessed once after it was made. Process 2 then needs a frame, and
   the page of process 1 goes while its buffer entry stays.
   */
  lemma EntrySurvivesItsPage(s: Mem) returns (m: Mem, t: Mem)
    requires Begun(WITH_BUFFER, s)
    ensures Reaches(WITH_BUFFER, s, m) && TlbAgrees(WITH_BUFFER, m)
    ensures Changed(WITH_BUFFER, m, Vacate(2), t) && Rep.IsLru(m, K1) && t == Evict(WITH_BUFFER, m, K1, 2)
    ensures Reaches(WITH_BUFFER, s, t) && !TlbAgrees(WITH_BUFFER, t)
  {
    hide Changed, Created, Reaches, Evict, TlbAgrees, Numbered, FramesExclusive, Rep.Accessed, Rep.IsLru;
    BothEnter(s);
    var s1 := Created(WITH_BUFFER, s, 1);
    var s2 := Created(WITH_BUFFER, s1, 2);
    ReachesFirst(WITH_BUFFER, s, Enter(1), s1);
    ReachesOne(WITH_BUFFER, s, s1, Enter(2), s2);
    TwoPagesHas(s2, 1, 2);
    TouchedPages(s2, 1, 2);
    var s3 := AccessEnters(s2, K1);
    AccessReaches(WITH_BUFFER, s2, K1, s3);
    ReachesTwice(WITH_BUFFER, s, s2, s3);
    TwoPagesHas(s3, 3, 2);
    TouchedPages(s3, 3, 2);
    m := AccessEnters(s3, K2);
    AccessReaches(WITH_BUFFER, s3, K2, m);
    ReachesTwice(WITH_BUFFER, s, s3, m);
    TwoPagesHas(m, 3, 4);
    BothAccessed(m);
    t := Evict(WITH_BUFFER, m, K1, 2);
    VacatesLru(m, K1, 2);
    ReachesOne(WITH_BUFFER, s, m, Vacate(2), t);
    Rep.LruDropsWrongEntry(WITH_BUFFER, m, K1, 2);
  }

  lemma VacatesLru(m: Mem, v: Key, who: nat)
    requires Rep.IsLru(m, v) && Has(m, v)
    ensures Changed(WITH_BUFFER, m, Vacate(who), Evict(WITH_BUFFER, m, v, who))
  {
  }
}
