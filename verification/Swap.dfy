/**
 The swap process: one inverted page table per swap file, in which the row index of a
 page is the frame of the file that holds it, and a dictionary from processes to files.
 This module is the store as a value, with the state change of each request; SwapServer
 holds the same state in fields and answers the requests with the original's loops.
 */
module Swap {
  import opened Arith
  import opened Bytes
  import opened Options

  /** The number that marks a row, or a page of a row, as holding nothing. */
  const MARK := 9999

  datatype Row = Row(pid: int, page: int)

  const TOMBSTONE := Row(MARK, MARK)

  datatype File = File(rows: seq<Row>, frames: seq<seq<byte>>)

  datatype Store = Store(files: seq<File>, owner: map<int, nat>)

  datatype Mode = Fixed | Dynamic

  /** `frameCount` is swap_file_size / swap_page_size; `quota` is marcos_por_carpincho. */
  datatype Config = Config(mode: Mode, frameCount: nat, pageSize: nat, quota: nat)

  // ---- lookups -------------------------------------------------------------------------

  /** tabla_paginas_size: rows that are not tombstones. */
  function LiveRows(rows: seq<Row>): (n: nat)
    ensures n <= |rows|
  {
    if rows == [] then 0
    else LiveRows(rows[..|rows| - 1]) + if rows[|rows| - 1].pid != MARK then 1 else 0
  }

  /** get_frame_number: the first row holding exactly this page, or the length of the table. */
  function FrameNumber(rows: seq<Row>, row: Row): (k: nat)
    ensures k <= |rows|
    ensures forall i :: 0 <= i < k ==> rows[i] != row
    ensures k < |rows| ==> rows[k] == row
  {
    if rows == [] || rows[0] == row then 0 else 1 + FrameNumber(rows[1..], row)
  }

  predicate FreeFor(row: Row, pid: int) {
    row.pid == MARK || row == Row(pid, MARK)
  }

  /** get_first_free_frame_number: the first tombstone or row reserved for `pid`, or the length of the table. */
  function FirstFree(rows: seq<Row>, pid: int): (k: nat)
    ensures k <= |rows|
    ensures forall i :: 0 <= i < k ==> !FreeFor(rows[i], pid)
    ensures k < |rows| ==> FreeFor(rows[k], pid)
  {
    if rows == [] || FreeFor(rows[0], pid) then 0 else 1 + FirstFree(rows[1..], pid)
  }

  function FreeFrames(cfg: Config, file: File): int {
    cfg.frameCount - LiveRows(file.rows)
  }

  /** swap_file_menos_ocupado over the first `n` files: the earliest file with most free frames, if it has any. */
  function LeastUsed(cfg: Config, files: seq<File>, n: nat): (r: (nat, int))
    requires n <= |files|
    ensures r.1 >= 0
    ensures forall i :: 0 <= i < n ==> FreeFrames(cfg, files[i]) <= r.1
    ensures r.1 > 0 ==> r.0 < n && FreeFrames(cfg, files[r.0]) == r.1
    ensures r.1 > 0 ==> forall i :: 0 <= i < r.0 ==> FreeFrames(cfg, files[i]) < r.1
  {
    if n == 0 then (0, 0)
    else
      var best := LeastUsed(cfg, files, n - 1);
      if FreeFrames(cfg, files[n - 1]) > best.1 then (n - 1, FreeFrames(cfg, files[n - 1])) else best
  }

  // ---- requests ------------------------------------------------------------------------

  /** memcpy of a page into the mapped file, or list_replace of a row; past the end nothing changes. */
  function PutIn<T>(xs: seq<T>, k: nat, x: T): (r: seq<T>)
    ensures |r| == |xs|
  {
    if k < |xs| then xs[k := x] else xs
  }

  /** The rows a process reserves with its first fixed-assignment page, that page first. */
  function Block(cfg: Config, pid: int, page: int): (r: seq<Row>)
    ensures |r| == if cfg.quota == 0 then 1 else cfg.quota
  {
    [Row(pid, page)] + seq(if cfg.quota == 0 then 0 else cfg.quota - 1, _ => Row(pid, MARK))
  }

  /** Overwrites rows from `k` on, as the replacement loop does one row at a time. */
  function PutRows(rows: seq<Row>, k: nat, block: seq<Row>): (r: seq<Row>)
    ensures |r| == |rows|
    ensures forall i :: 0 <= i < |r| ==> r[i] == if k <= i < k + |block| then block[i - k] else rows[i]
  {
    seq(|rows|, i requires 0 <= i < |rows| => if k <= i < k + |block| then block[i - k] else rows[i])
  }

  function FirstRowsFixed(cfg: Config, rows: seq<Row>, pid: int, page: int): seq<Row> {
    var k := FirstFree(rows, pid);
    if |rows| - 1 > k then PutRows(rows, k, Block(cfg, pid, page)) else rows + Block(cfg, pid, page)
  }

  function SaveFirstFixed(cfg: Config, s: Store, pid: int, page: int, content: seq<byte>): (bool, Store) {
    var (f, free) := LeastUsed(cfg, s.files, |s.files|);
    if free == 0 || cfg.quota > free then (false, s)
    else
      var file := s.files[f];
      var k := FirstFree(file.rows, pid);
      (true, Store(s.files[f := File(FirstRowsFixed(cfg, file.rows, pid, page), PutIn(file.frames, k, content))],
                   s.owner[pid := f]))
  }

  function SaveFirstDynamic(cfg: Config, s: Store, pid: int, page: int, content: seq<byte>): (bool, Store) {
    var (f, free) := LeastUsed(cfg, s.files, |s.files|);
    if free == 0 then (false, s)
    else
      var file := s.files[f];
      var k := FirstFree(file.rows, pid);
      var rows := if LiveRows(file.rows) - 1 > k then PutIn(file.rows, k, Row(pid, page))
                  else file.rows + [Row(pid, page)];
      (true, Store(s.files[f := File(rows, PutIn(file.frames, k, content))], s.owner[pid := f]))
  }

  function SaveNewFixed(s: Store, pid: int, page: int, content: seq<byte>): (bool, Store)
    requires pid in s.owner && s.owner[pid] < |s.files|
  {
    var f := s.owner[pid];
    var file := s.files[f];
    var k := FrameNumber(file.rows, Row(pid, MARK));
    if k == LiveRows(file.rows) then (false, s)
    else (true, s.(files := s.files[f := File(PutIn(file.rows, k, Row(pid, page)), PutIn(file.frames, k, content))]))
  }

  function SaveNewDynamic(cfg: Config, s: Store, pid: int, page: int, content: seq<byte>): (bool, Store)
    requires pid in s.owner && s.owner[pid] < |s.files|
  {
    var f := s.owner[pid];
    var file := s.files[f];
    if LiveRows(file.rows) >= cfg.frameCount then (false, s)
    else
      var k := FirstFree(file.rows, pid);
      (true, s.(files := s.files[f := File(file.rows + [Row(pid, page)], PutIn(file.frames, k, content))]))
  }

  predicate OwnersInRange(s: Store) {
    forall p :: p in s.owner ==> s.owner[p] < |s.files|
  }

  /** guardar_pagina: the answer sent back (1 or 0) and the store afterwards. */
  function Save(cfg: Config, s: Store, pid: int, page: int, content: seq<byte>): (bool, Store) {
    if pid !in s.owner then
      if cfg.mode.Fixed? then SaveFirstFixed(cfg, s, pid, page, content)
      else SaveFirstDynamic(cfg, s, pid, page, content)
    else if s.owner[pid] >= |s.files| then (false, s)
    else
      var f := s.owner[pid];
      var file := s.files[f];
      var k := FrameNumber(file.rows, Row(pid, page));
      if k < |file.rows| then
        (true, s.(files := s.files[f := file.(frames := PutIn(file.frames, k, content))]))
      else if cfg.mode.Fixed? then SaveNewFixed(s, pid, page, content)
      else SaveNewDynamic(cfg, s, pid, page, content)
  }

  /** The stored copy of a page: the frame its row stands for. */
  function Fetch(s: Store, pid: int, page: int): Option<seq<byte>> {
    if pid !in s.owner || s.owner[pid] >= |s.files| then None
    else
      var file := s.files[s.owner[pid]];
      var k := FrameNumber(file.rows, Row(pid, page));
      if k < |file.rows| && k < |file.frames| then Some(file.frames[k]) else None
  }

  /**
   obtener_pagina: the frame at the place of the page's row, which for a page without one is the
   place behind the table. None where the original returns a freed buffer or reads past the file.
   */
  function Obtained(s: Store, pid: int, page: int): (r: Option<seq<byte>>)
    ensures Fetch(s, pid, page).Some? ==> r == Fetch(s, pid, page)
    ensures pid in s.owner && s.owner[pid] < |s.files| && Row(pid, page) !in s.files[s.owner[pid]].rows ==>
      var file := s.files[s.owner[pid]];
      r == if |file.rows| < |file.frames| then Some(file.frames[|file.rows|]) else None
  {
    if pid !in s.owner || s.owner[pid] >= |s.files| then None
    else
      var file := s.files[s.owner[pid]];
      var k := FrameNumber(file.rows, Row(pid, page));
      if k < |file.frames| then Some(file.frames[k]) else None
  }

  /** finalizar_proceso on one file. */
  function Cleared(file: File, pid: int, zero: seq<byte>): File {
    File(seq(|file.rows|,
             k requires 0 <= k < |file.rows| => if file.rows[k].pid == pid then TOMBSTONE else file.rows[k]),
         seq(|file.frames|, k requires 0 <= k < |file.frames| =>
           if k < |file.rows| && file.rows[k].pid == pid then zero else file.frames[k]))
  }

  function Finish(cfg: Config, s: Store, pid: int): Store {
    if pid !in s.owner || s.owner[pid] >= |s.files| then s
    else
      var f := s.owner[pid];
      Store(s.files[f := Cleared(s.files[f], pid, Zeros(cfg.pageSize))], s.owner - {pid})
  }

  // ---- what every mode keeps -----------------------------------------------------------

  /** Real processes and pages never carry the marker's number. */
  predicate RealKey(pid: int, page: int) {
    pid != MARK && page != MARK
  }

  /** Registered files exist and every stored page has the size of a page. */
  ghost predicate Sane(cfg: Config, s: Store) {
    && OwnersInRange(s)
    && forall f, k :: 0 <= f < |s.files| && 0 <= k < |s.files[f].frames| ==> |s.files[f].frames[k]| == cfg.pageSize
  }

  lemma SaveKeepsSane(cfg: Config, s: Store, pid: int, page: int, content: seq<byte>)
    requires Sane(cfg, s) && |content| == cfg.pageSize
    ensures Sane(cfg, Save(cfg, s, pid, page, content).1)
  {
    hide LiveRows, FirstFree, FrameNumber, FirstRowsFixed, LeastUsed, FreeFrames;
    forall f: nat, k: nat | f < |s.files| ensures SizedAll(cfg, PutIn(s.files[f].frames, k, content)) {
    }
    var t := Save(cfg, s, pid, page, content).1;
    assert |t.files| == |s.files| && OwnersInRange(t);
    forall f: nat | f < |t.files| ensures SizedAll(cfg, t.files[f].frames) {
      assert || t.files[f].frames == s.files[f].frames
             || exists k: nat :: t.files[f].frames == PutIn(s.files[f].frames, k, content);
    }
  }

  ghost predicate SizedAll(cfg: Config, frames: seq<seq<byte>>) {
    forall k :: 0 <= k < |frames| ==> |frames[k]| == cfg.pageSize
  }

  lemma FinishKeepsSane(cfg: Config, s: Store, pid: int)
    requires Sane(cfg, s)
    ensures Sane(cfg, Finish(cfg, s, pid))
  {
  }

  /** Every file has all its frames, each of the size of a page. */
  ghost predicate FramesWhole(cfg: Config, s: Store) {
    forall f :: 0 <= f < |s.files| ==>
      && |s.files[f].frames| == cfg.frameCount
      && forall k :: 0 <= k < cfg.frameCount ==> |s.files[f].frames[k]| == cfg.pageSize
  }

  /** No table has more rows than its file has frames. */
  ghost predicate RowsFit(cfg: Config, s: Store) {
    forall f :: 0 <= f < |s.files| ==> |s.files[f].rows| <= cfg.frameCount
  }

  ghost predicate FilesSized(cfg: Config, s: Store) {
    FramesWhole(cfg, s) && RowsFit(cfg, s)
  }

  /** No page has two rows; reserved rows and tombstones may repeat. */
  ghost predicate NoRepeats(rows: seq<Row>) {
    forall k, m :: 0 <= k < m < |rows| && rows[k].page != MARK ==> rows[k] != rows[m]
  }

  /** A live row stands in the file its process is registered in. */
  ghost predicate RowsOwned(s: Store) {
    && (forall f, k :: 0 <= f < |s.files| && 0 <= k < |s.files[f].rows| && s.files[f].rows[k].pid != MARK ==>
         s.files[f].rows[k].pid in s.owner && s.owner[s.files[f].rows[k].pid] == f)
    && (forall f :: 0 <= f < |s.files| ==> NoRepeats(s.files[f].rows))
  }

  lemma FrameNumberIs(rows: seq<Row>, row: Row, k: nat)
    requires k < |rows| && rows[k] == row
    requires forall i :: 0 <= i < |rows| && rows[i] == row ==> i == k
    ensures FrameNumber(rows, row) == k
  {
  }

  /** The answer of a lookup depends only on the rows equal to the one looked for. */
  lemma FrameNumberSame(rows: seq<Row>, rows': seq<Row>, row: Row)
    requires |rows| <= |rows'|
    requires forall i :: 0 <= i < |rows| ==> (rows[i] == row <==> rows'[i] == row)
    requires forall i :: |rows| <= i < |rows'| ==> rows'[i] != row
    ensures FrameNumber(rows, row) < |rows| ==> FrameNumber(rows', row) == FrameNumber(rows, row)
    ensures FrameNumber(rows, row) == |rows| ==> FrameNumber(rows', row) == |rows'|
  {
  }

  // ---- finishing a process -------------------------------------------------------------

  /**
   finalizar_proceso zeroes exactly the frames of the process, turns exactly its rows into
   tombstones, and every page of every other process is fetched as before.
   */
  lemma FinishIsExact(cfg: Config, s: Store, pid: int, other: int, page: int)
    requires OwnersInRange(s) && RealKey(other, page) && pid != other
    ensures OwnersInRange(Finish(cfg, s, pid))
    ensures Fetch(Finish(cfg, s, pid), other, page) == Fetch(s, other, page)
    ensures Fetch(Finish(cfg, s, pid), pid, page) == None
    ensures pid in s.owner ==>
      var f := s.owner[pid];
      var was, now := s.files[f], Finish(cfg, s, pid).files[f];
      && |now.rows| == |was.rows| && |now.frames| == |was.frames|
      && (forall k :: 0 <= k < |was.rows| ==> now.rows[k] == if was.rows[k].pid == pid then TOMBSTONE else was.rows[k])
      && (forall k :: 0 <= k < |was.frames| ==>
           now.frames[k] == if k < |was.rows| && was.rows[k].pid == pid then Zeros(cfg.pageSize) else was.frames[k])
  {
    if pid in s.owner && other in s.owner && s.owner[other] == s.owner[pid] {
      var was := s.files[s.owner[pid]];
      FrameNumberSame(was.rows, Cleared(was, pid, Zeros(cfg.pageSize)).rows, Row(other, page));
    }
  }

  /**
   Process `pid` is registered nowhere and nothing of it is fetched; its rows are tombstones and its frames zeros,
   in whichever file; every other row, frame and page is as before.
   */
  ghost predicate TakenOut(cfg: Config, s: Store, t: Store, pid: int) {
    && t.owner == s.owner - {pid} && |t.files| == |s.files|
    && (forall n :: Fetch(t, pid, n) == None)
    && (forall p, n :: p != pid && RealKey(p, n) ==> Fetch(t, p, n) == Fetch(s, p, n))
    && forall f :: 0 <= f < |s.files| ==> OnlyCleared(s.files[f], t.files[f], pid, Zeros(cfg.pageSize))
  }

  ghost predicate OnlyCleared(was: File, now: File, pid: int, zero: seq<byte>) {
    && |now.rows| == |was.rows| && |now.frames| == |was.frames|
    && (forall k :: 0 <= k < |was.rows| ==> now.rows[k] == if was.rows[k].pid == pid then TOMBSTONE else was.rows[k])
    && forall k :: 0 <= k < |was.frames| ==>
         now.frames[k] == if k < |was.rows| && was.rows[k].pid == pid then zero else was.frames[k]
  }

  lemma FinishTakesOut(cfg: Config, s: Store, pid: int)
    requires OwnersInRange(s) && RowsOwned(s) && pid != MARK
    ensures TakenOut(cfg, s, Finish(cfg, s, pid), pid)
  {
    hide Fetch, NoRepeats;
    var t := Finish(cfg, s, pid);
    forall p, n | p != pid && RealKey(p, n) ensures Fetch(t, p, n) == Fetch(s, p, n) {
      FinishIsExact(cfg, s, pid, p, n);
    }
    forall n ensures Fetch(t, pid, n) == None {
      NotRegistered(t, pid, n);
    }
  }

  lemma NotRegistered(s: Store, pid: int, n: int)
    requires pid !in s.owner
    ensures Fetch(s, pid, n) == None
  {
  }

  // ---- dynamic assignment --------------------------------------------------------------

  /** Some row was left by a finished process. */
  predicate HasTombstone(rows: seq<Row>) {
    exists k :: 0 <= k < |rows| && rows[k].pid == MARK
  }

  /** Every row is a tombstone or a real page of a real process. */
  ghost predicate RowsReal(s: Store) {
    forall f, k :: 0 <= f < |s.files| && 0 <= k < |s.files[f].rows| ==> RowReal(s.files[f].rows[k])
  }

  predicate RowReal(row: Row) {
    row == TOMBSTONE || RealKey(row.pid, row.page)
  }

  /** What swap keeps where rows are handed out one at a time: whole files, and one owned row for each page. */
  ghost predicate Rowed(cfg: Config, s: Store) {
    OwnersInRange(s) && FramesWhole(cfg, s) && RowsOwned(s) && RowsReal(s)
  }

  ghost predicate DynamicOk(cfg: Config, s: Store) {
    cfg.mode.Dynamic? && Rowed(cfg, s)
  }

  /** The file a save goes to: the one of the process or, for a process without one, the least used. */
  function TargetFile(cfg: Config, s: Store, pid: int): nat {
    if pid in s.owner then s.owner[pid] else LeastUsed(cfg, s.files, |s.files|).0
  }

  /**
   The row of the page stands, or comes to stand, where its content goes: it stands at a frame of
   the file already, or the file has no tombstone, or the page is the first of its process and its
   row takes a tombstone's place.
   */
  predicate Settles(cfg: Config, s: Store, pid: int, page: int) {
    var f := TargetFile(cfg, s, pid);
    f < |s.files| ==>
      var rows := s.files[f].rows;
      var k := FrameNumber(rows, Row(pid, page));
      if pid in s.owner && k < |rows| then k < cfg.frameCount
      else !HasTombstone(rows) || (pid !in s.owner && LiveRows(rows) - 1 > FirstFree(rows, pid))
  }

  /** inicializar_swap_files: `n` empty files of zeros. */
  function Empty(cfg: Config, n: nat): Store {
    Store(seq(n, _ => File([], seq(cfg.frameCount, _ => Zeros(cfg.pageSize)))), map[])
  }

  lemma EmptyIsRowed(cfg: Config, n: nat)
    ensures Rowed(cfg, Empty(cfg, n))
  {
  }

  lemma {:induction false} AllLive(rows: seq<Row>)
    requires forall k :: 0 <= k < |rows| ==> rows[k].pid != MARK
    ensures LiveRows(rows) == |rows|
  {
    if rows != [] {
      AllLive(rows[..|rows| - 1]);
    }
  }

  /** Where a page without a row is written: on the first tombstone, or behind the end. */
  lemma FreeIsTombstone(rows: seq<Row>, pid: int)
    requires Row(pid, MARK) !in rows
    ensures FirstFree(rows, pid) < |rows| <==> HasTombstone(rows)
    ensures !HasTombstone(rows) ==> LiveRows(rows) == |rows|
    ensures FirstFree(rows, pid) < |rows| ==> rows[FirstFree(rows, pid)].pid == MARK
  {
    if !HasTombstone(rows) {
      AllLive(rows);
    }
  }

  /** The row was there at `k`, or it is new, at the end or on a tombstone, or no row is written at all. */
  ghost predicate RowPut(was: seq<Row>, now: seq<Row>, k: nat, row: Row) {
    || (now == was && k < |was| && was[k] == row)
    || (row !in was && now == was + [row] && (k == |was| || (k < |was| && was[k] == TOMBSTONE)))
    || (row !in was && k < |was| && was[k] == TOMBSTONE && now == was[k := row])
    || (row !in was && k == |was| && now == was)
  }

  /** Content put at place `k` of the file of the process, and its row there or elsewhere. */
  ghost predicate PutInFile(s: Store, t: Store, f: nat, k: nat, pid: int, page: int, content: seq<byte>) {
    && f < |s.files| == |t.files|
    && t.owner == s.owner[pid := f] && (pid in s.owner ==> s.owner[pid] == f)
    && t.files == s.files[f := File(t.files[f].rows, PutIn(s.files[f].frames, k, content))]
    && RowPut(s.files[f].rows, t.files[f].rows, k, Row(pid, page))
  }

  /** The row of the page stands at a frame of the file, where its content was put. */
  ghost predicate StandsAt(cfg: Config, t: Store, f: nat, k: nat, row: Row)
    requires f < |t.files|
  {
    k < cfg.frameCount && k < |t.files[f].rows| && t.files[f].rows[k] == row
  }

  /** An accepted save, seen from one file. */
  lemma DynamicSaveShape(cfg: Config, s: Store, pid: int, page: int, content: seq<byte>) returns (f: nat, k: nat)
    requires DynamicOk(cfg, s) && RealKey(pid, page) && Save(cfg, s, pid, page, content).0
    ensures var t := Save(cfg, s, pid, page, content).1;
      && f == TargetFile(cfg, s, pid) && PutInFile(s, t, f, k, pid, page, content)
      && (Settles(cfg, s, pid, page) <==> StandsAt(cfg, t, f, k, Row(pid, page)))
  {
    f := TargetFile(cfg, s, pid);
    var rows := s.files[f].rows;
    assert Row(pid, MARK) !in rows;
    FreeIsTombstone(rows, pid);
    k := FrameNumber(rows, Row(pid, page));
    if pid !in s.owner { NoRowOf(s, f, pid, page); }
    if k == |rows| { k := FirstFree(rows, pid); }
  }

  lemma PutWhole(cfg: Config, s: Store, t: Store, f: nat, k: nat, pid: int, page: int, content: seq<byte>)
    requires FramesWhole(cfg, s) && PutInFile(s, t, f, k, pid, page, content) && |content| == cfg.pageSize
    ensures FramesWhole(cfg, t)
  {
    forall g | 0 <= g < |t.files|
      ensures |t.files[g].frames| == cfg.frameCount
      ensures forall i :: 0 <= i < cfg.frameCount ==> |t.files[g].frames[i]| == cfg.pageSize
    {
      assert g != f ==> t.files[g] == s.files[g];
    }
  }

  lemma PutOwned(s: Store, t: Store, f: nat, k: nat, pid: int, page: int, content: seq<byte>)
    requires RowsOwned(s) && PutInFile(s, t, f, k, pid, page, content) && RealKey(pid, page)
    ensures RowsOwned(t)
  {
    forall g | 0 <= g < |t.files| ensures NoRepeats(t.files[g].rows) {
      assert NoRepeats(s.files[g].rows);
    }
  }

  lemma PutReal(s: Store, t: Store, f: nat, k: nat, pid: int, page: int, content: seq<byte>)
    requires RowsReal(s) && PutInFile(s, t, f, k, pid, page, content) && RealKey(pid, page)
    ensures RowsReal(t)
  {
  }

  lemma PutKeeps(cfg: Config, s: Store, t: Store, f: nat, k: nat, pid: int, page: int, content: seq<byte>)
    requires Rowed(cfg, s) && PutInFile(s, t, f, k, pid, page, content) && RealKey(pid, page)
    requires |content| == cfg.pageSize
    ensures Rowed(cfg, t)
  {
    hide FramesWhole, RowsOwned, RowsReal, RowPut;
    PutWhole(cfg, s, t, f, k, pid, page, content);
    PutOwned(s, t, f, k, pid, page, content);
    PutReal(s, t, f, k, pid, page, content);
  }

  /** A row put at `k` is found there if it stands there, and every other lookup answers as before, elsewhere. */
  lemma LookupAfterRow(was: seq<Row>, now: seq<Row>, k: nat, row: Row, other: Row)
    requires NoRepeats(was) && RowPut(was, now, k, row) && row.page != MARK && other.page != MARK
    ensures |was| <= |now| && (k < |now| && now[k] == row ==> FrameNumber(now, row) == k)
    ensures other != row ==>
      if FrameNumber(was, other) < |was| then FrameNumber(now, other) == FrameNumber(was, other)
                                              && FrameNumber(was, other) != k
      else FrameNumber(now, other) == |now|
  {
    if k < |now| && now[k] == row { FrameNumberIs(now, row, k); }
    if other != row { FrameNumberSame(was, now, other); }
  }

  /** What is put where its row stands is fetched back; whatever is put disturbs no other page. */
  lemma PutThenFetch(
      cfg: Config, s: Store, t: Store, f: nat, k: nat, pid: int, page: int, content: seq<byte>, q: int, n: int)
    requires Rowed(cfg, s) && PutInFile(s, t, f, k, pid, page, content) && RealKey(pid, page) && RealKey(q, n)
    ensures (q, n) != (pid, page) ==> Fetch(t, q, n) == Fetch(s, q, n)
    ensures StandsAt(cfg, t, f, k, Row(pid, page)) ==> Fetch(t, pid, page) == Some(content)
  {
    hide RowPut, NoRepeats, FrameNumber;
    assert NoRepeats(s.files[f].rows);
    LookupAfterRow(s.files[f].rows, t.files[f].rows, k, Row(pid, page), Row(q, n));
    if q !in s.owner { NoRowOf(s, f, q, n); }
  }

  lemma NoRowOf(s: Store, f: nat, q: int, n: int)
    requires RowsOwned(s) && f < |s.files| && q !in s.owner && q != MARK
    ensures FrameNumber(s.files[f].rows, Row(q, n)) == |s.files[f].rows|
  {
  }

  /**
   Dynamic swap, whichever processes have finished: a save disturbs no other page of any process,
   and an accepted save of a page that settles is fetched back.
   */
  lemma DynamicSaveThenFetch(cfg: Config, s: Store, pid: int, page: int, content: seq<byte>, q: int, n: int)
    requires DynamicOk(cfg, s) && RealKey(pid, page) && RealKey(q, n) && |content| == cfg.pageSize
    ensures DynamicOk(cfg, Save(cfg, s, pid, page, content).1)
    ensures (q, n) != (pid, page) ==> Fetch(Save(cfg, s, pid, page, content).1, q, n) == Fetch(s, q, n)
    ensures Save(cfg, s, pid, page, content).0 && Settles(cfg, s, pid, page) ==>
      Fetch(Save(cfg, s, pid, page, content).1, pid, page) == Some(content)
  {
    hide Rowed, Settles, Fetch, Save, PutInFile, StandsAt;
    if Save(cfg, s, pid, page, content).0 {
      var t := Save(cfg, s, pid, page, content).1;
      var f, k := DynamicSaveShape(cfg, s, pid, page, content);
      PutKeeps(cfg, s, t, f, k, pid, page, content);
      PutThenFetch(cfg, s, t, f, k, pid, page, content, q, n);
    } else {
      DynamicSaveAccepted(cfg, s, pid, page, content);
    }
  }

  ghost predicate NoTombstones(s: Store) {
    forall f :: 0 <= f < |s.files| ==> !HasTombstone(s.files[f].rows)
  }

  /** Until a process finishes every page settles. */
  lemma SettlesUntilFinish(cfg: Config, s: Store, pid: int, page: int, content: seq<byte>)
    requires DynamicOk(cfg, s) && RealKey(pid, page) && NoTombstones(s) && RowsFit(cfg, s)
    ensures var t := Save(cfg, s, pid, page, content).1;
      Settles(cfg, s, pid, page) && NoTombstones(t) && RowsFit(cfg, t)
  {
    if Save(cfg, s, pid, page, content).0 {
      var f, k := DynamicSaveShape(cfg, s, pid, page, content);
      assert !HasTombstone(s.files[f].rows);
    } else {
      DynamicSaveAccepted(cfg, s, pid, page, content);
    }
  }

  /** A stored page can always be saved again, and only files full of live rows refuse. */
  lemma DynamicSaveAccepted(cfg: Config, s: Store, pid: int, page: int, content: seq<byte>)
    requires DynamicOk(cfg, s)
    ensures Fetch(s, pid, page).Some? ==> Save(cfg, s, pid, page, content).0 && Settles(cfg, s, pid, page)
    ensures pid in s.owner && Row(pid, page) !in s.files[s.owner[pid]].rows ==>
      (Save(cfg, s, pid, page, content).0 <==> LiveRows(s.files[s.owner[pid]].rows) < cfg.frameCount)
    ensures pid !in s.owner ==>
      (Save(cfg, s, pid, page, content).0 <==>
       exists f :: 0 <= f < |s.files| && LiveRows(s.files[f].rows) < cfg.frameCount)
    ensures !Save(cfg, s, pid, page, content).0 ==> Save(cfg, s, pid, page, content).1 == s
  {
    var (b, free) := LeastUsed(cfg, s.files, |s.files|);
    assert forall f :: 0 <= f < |s.files| ==> FreeFrames(cfg, s.files[f]) == cfg.frameCount - LiveRows(s.files[f].rows);
  }

  /** File `f` has the most frames that hold no live row, and no file before it as many. */
  ghost predicate Emptiest(cfg: Config, s: Store, f: nat) {
    && f < |s.files|
    && (forall g :: 0 <= g < |s.files| ==> LiveRows(s.files[f].rows) <= LiveRows(s.files[g].rows))
    && forall g :: 0 <= g < f ==> LiveRows(s.files[f].rows) < LiveRows(s.files[g].rows)
  }

  /** Under either assignment the first page of a process goes to the emptiest file, and to no other. */
  lemma FirstGoesToEmptiest(cfg: Config, s: Store, pid: int, page: int, content: seq<byte>)
    requires pid !in s.owner && Save(cfg, s, pid, page, content).0
    ensures var t := Save(cfg, s, pid, page, content).1;
      && pid in t.owner && t.owner == s.owner[pid := t.owner[pid]] && Emptiest(cfg, s, t.owner[pid])
      && |t.files| == |s.files|
      && forall g :: 0 <= g < |s.files| && g != t.owner[pid] ==> t.files[g] == s.files[g]
  {
    hide FirstRowsFixed, LiveRows, FirstFree;
    var (f, free) := LeastUsed(cfg, s.files, |s.files|);
    forall g | 0 <= g < |s.files| ensures FreeFrames(cfg, s.files[g]) == cfg.frameCount - LiveRows(s.files[g].rows) {}
  }

  /** Finishing a process keeps every stored page of the others where its row says. */
  lemma FinishKeepsRowed(cfg: Config, s: Store, pid: int)
    requires Rowed(cfg, s) && pid != MARK
    ensures Rowed(cfg, Finish(cfg, s, pid))
  {
    if pid in s.owner {
      var f, t := s.owner[pid], Finish(cfg, s, pid);
      assert NoRepeats(s.files[f].rows);
      ClearedNoRepeats(s.files[f], pid, Zeros(cfg.pageSize));
      forall g | 0 <= g < |t.files| ensures NoRepeats(t.files[g].rows) {
        assert NoRepeats(s.files[g].rows);
      }
      assert FramesWhole(cfg, t);
    }
  }

  lemma ClearedNoRepeats(file: File, pid: int, zero: seq<byte>)
    requires NoRepeats(file.rows)
    ensures NoRepeats(Cleared(file, pid, zero).rows)
  {
  }

  /**
   A page stored for the first time, registered process or not, settled or not. Where it does not
   settle, its content goes to the first tombstone's frame and its row to the end of the table, and
   the fetch returns whatever the frame of that last row held, or has no frame to read.
   */
  lemma DynamicNewPage(cfg: Config, s: Store, pid: int, page: int, content: seq<byte>)
    requires cfg.mode.Dynamic? && OwnersInRange(s) && RealKey(pid, page)
    requires var f := TargetFile(cfg, s, pid);
      f < |s.files| ==>
        && Row(pid, page) !in s.files[f].rows && Row(pid, MARK) !in s.files[f].rows
        && |s.files[f].frames| == cfg.frameCount
    requires Save(cfg, s, pid, page, content).0
    ensures TargetFile(cfg, s, pid) < |s.files|
    ensures var file := s.files[TargetFile(cfg, s, pid)];
      Fetch(Save(cfg, s, pid, page, content).1, pid, page) ==
        if Settles(cfg, s, pid, page) then Some(content)
        else if |file.rows| < cfg.frameCount then Some(file.frames[|file.rows|])
        else None
  {
    hide Save, LeastUsed, LiveRows, FirstFree;
    var f := TargetFile(cfg, s, pid);
    NewPageShape(cfg, s, pid, page, content);
    var rows, k, row := s.files[f].rows, FirstFree(s.files[f].rows, pid), Row(pid, page);
    FreeIsTombstone(rows, pid);
    FrameNumberIs(rows + [row], row, |rows|);
    if k < |rows| { FrameNumberIs(rows[k := row], row, k); }
  }

  /** The first page of a process takes the place of a tombstone that is not behind all live rows. */
  predicate TakesTombstone(s: Store, f: nat, pid: int)
    requires f < |s.files|
  {
    pid !in s.owner && LiveRows(s.files[f].rows) - 1 > FirstFree(s.files[f].rows, pid)
  }

  lemma NewPageShape(cfg: Config, s: Store, pid: int, page: int, content: seq<byte>)
    requires cfg.mode.Dynamic? && OwnersInRange(s)
    requires var f := TargetFile(cfg, s, pid); f < |s.files| ==> Row(pid, page) !in s.files[f].rows
    requires Save(cfg, s, pid, page, content).0
    ensures var f, t := TargetFile(cfg, s, pid), Save(cfg, s, pid, page, content).1;
      && f < |s.files| && pid in t.owner && t.owner[pid] == f && |t.files| == |s.files|
      && LiveRows(s.files[f].rows) < cfg.frameCount
      && var rows, k := s.files[f].rows, FirstFree(s.files[f].rows, pid);
      && (TakesTombstone(s, f, pid) ==> k < |rows|)
      && t.files[f].frames == PutIn(s.files[f].frames, k, content)
      && t.files[f].rows ==
         if TakesTombstone(s, f, pid) then PutIn(rows, k, Row(pid, page)) else rows + [Row(pid, page)]
  {
    var f := TargetFile(cfg, s, pid);
    assert pid in s.owner ==> FrameNumber(s.files[f].rows, Row(pid, page)) == |s.files[f].rows|;
  }

  /** So a page whose save is accepted comes back, whatever its content, exactly when it settles. */
  lemma DynamicComesBack(cfg: Config, s: Store, pid: int, page: int)
    requires DynamicOk(cfg, s) && RealKey(pid, page) && cfg.pageSize > 0
    requires Save(cfg, s, pid, page, Zeros(cfg.pageSize)).0
    ensures Settles(cfg, s, pid, page) <==> AlwaysBack(cfg, s, pid, page)
  {
    hide Save, Settles, DynamicOk, GivesBack;
    var a, b := Zeros(cfg.pageSize), seq(cfg.pageSize, _ => 1);
    AnswerIgnoresContent(cfg, s, pid, page, b, a);
    if Settles(cfg, s, pid, page) {
      forall content: seq<byte> | |content| == cfg.pageSize ensures GivesBack(cfg, s, pid, page, content) {
        AnswerIgnoresContent(cfg, s, pid, page, content, a);
        DynamicSaveThenFetch(cfg, s, pid, page, content, pid, page);
        IsGivenBack(cfg, s, pid, page, content);
      }
    } else {
      FetchIgnoresContent(cfg, s, pid, page, a, b);
      assert a[0] != b[0];
      NotAlwaysBack(cfg, s, pid, page, a, b);
    }
  }

  /** Whatever is saved of the page is what the fetch then gives. */
  ghost predicate AlwaysBack(cfg: Config, s: Store, pid: int, page: int) {
    forall content: seq<byte> :: |content| == cfg.pageSize ==> GivesBack(cfg, s, pid, page, content)
  }

  lemma IsGivenBack(cfg: Config, s: Store, pid: int, page: int, content: seq<byte>)
    requires Fetch(Save(cfg, s, pid, page, content).1, pid, page) == Some(content)
    ensures GivesBack(cfg, s, pid, page, content)
  {
  }

  lemma NotAlwaysBack(cfg: Config, s: Store, pid: int, page: int, a: seq<byte>, b: seq<byte>)
    requires a != b && |a| == |b| == cfg.pageSize
    requires Fetch(Save(cfg, s, pid, page, a).1, pid, page) == Fetch(Save(cfg, s, pid, page, b).1, pid, page)
    ensures !AlwaysBack(cfg, s, pid, page)
  {
    hide Save, Fetch;
    assert !GivesBack(cfg, s, pid, page, a) || !GivesBack(cfg, s, pid, page, b);
  }

  /** Where a page does not settle, what is fetched does not depend on what was saved. */
  lemma FetchIgnoresContent(cfg: Config, s: Store, pid: int, page: int, a: seq<byte>, b: seq<byte>)
    requires DynamicOk(cfg, s) && RealKey(pid, page) && !Settles(cfg, s, pid, page)
    requires Save(cfg, s, pid, page, a).0 && Save(cfg, s, pid, page, b).0
    ensures Fetch(Save(cfg, s, pid, page, a).1, pid, page) == Fetch(Save(cfg, s, pid, page, b).1, pid, page)
  {
    var f := TargetFile(cfg, s, pid);
    if f < |s.files| && Row(pid, page) !in s.files[f].rows {
      assert Row(pid, MARK) !in s.files[f].rows;
      DynamicNewPage(cfg, s, pid, page, a);
      DynamicNewPage(cfg, s, pid, page, b);
    }
  }

  ghost predicate GivesBack(cfg: Config, s: Store, pid: int, page: int, content: seq<byte>) {
    Fetch(Save(cfg, s, pid, page, content).1, pid, page) == Some(content)
  }

  lemma AnswerIgnoresContent(cfg: Config, s: Store, pid: int, page: int, content: seq<byte>, other: seq<byte>)
    ensures Save(cfg, s, pid, page, content).0 == Save(cfg, s, pid, page, other).0
  {
  }

  // ---- fixed assignment ----------------------------------------------------------------

  /** The first row of the block of `m` rows that row `k` is in. */
  function Base(k: nat, m: nat): (b: nat)
    requires m > 0
    ensures b <= k < b + m
  {
    k - k % m
  }

  lemma BaseWithin(b: nat, k: nat, m: nat)
    requires m > 0 && b % m == 0 && b <= k < b + m
    ensures Base(k, m) == b
  {
    assert k == m * (b / m) + (k - b);
    DivUnique(m, b / m, k - b, k);
  }

  lemma BaseIsAligned(k: nat, m: nat)
    requires m > 0
    ensures Base(k, m) % m == 0 && Base(Base(k, m), m) == Base(k, m)
  {
    assert Base(k, m) == m * (k / m) + 0;
    DivUnique(m, k / m, 0, Base(k, m));
  }

  lemma AddBlock(b: nat, m: nat)
    requires m > 0
    ensures (b + m) % m == b % m
  {
    DivShift(m, b, 1);
  }

  /**
   The table is made of whole blocks of `m` rows, each either tombstones only or one
   process's only, with a real page in its first row; a process has one block.
   */
  ghost predicate Blocks(m: nat, rows: seq<Row>)
    requires m > 0
  {
    && |rows| % m == 0
    && SameOwner(m, rows)
    && (forall k :: 0 <= k < |rows| && rows[k].pid == MARK ==> rows[k] == TOMBSTONE)
    && (forall k :: 0 <= k < |rows| && rows[k].pid != MARK && Base(k, m) == k ==> rows[k].page != MARK)
    && (forall k, l :: 0 <= k < |rows| && 0 <= l < |rows| && rows[k].pid == rows[l].pid != MARK ==>
         Base(k, m) == Base(l, m))
  }

  ghost predicate SameOwner(m: nat, rows: seq<Row>)
    requires m > 0
  {
    forall k, l :: 0 <= k < |rows| && 0 <= l < |rows| && Base(k, m) == Base(l, m) ==> rows[k].pid == rows[l].pid
  }

  ghost predicate HasRow(s: Store, pid: int)
    requires pid in s.owner && s.owner[pid] < |s.files|
  {
    exists k :: 0 <= k < |s.files[s.owner[pid]].rows| && s.files[s.owner[pid]].rows[k].pid == pid
  }

  ghost predicate FixedOk(cfg: Config, s: Store) {
    && cfg.mode.Fixed? && cfg.quota >= 2 && OwnersInRange(s) && FilesSized(cfg, s) && RowsOwned(s)
    && (forall f :: 0 <= f < |s.files| ==> Blocks(cfg.quota, s.files[f].rows))
    && (forall p :: p in s.owner ==> p != MARK && HasRow(s, p))
  }

  lemma {:induction false} LiveRowsAppend(rows: seq<Row>, more: seq<Row>)
    ensures LiveRows(rows + more) == LiveRows(rows) + LiveRows(more)
  {
    if more == [] {
      assert rows + more == rows;
    } else {
      var n := |more| - 1;
      assert (rows + more)[..|rows + more| - 1] == rows + more[..n];
      LiveRowsAppend(rows, more[..n]);
    }
  }

  lemma {:induction false} NoneLive(rows: seq<Row>)
    requires forall k :: 0 <= k < |rows| ==> rows[k].pid == MARK
    ensures LiveRows(rows) == 0
  {
    if rows != [] {
      NoneLive(rows[..|rows| - 1]);
    }
  }

  /** A table of whole blocks holds a whole number of quotas of live rows. */
  lemma {:induction false} LiveRowsAligned(m: nat, rows: seq<Row>)
    requires m > 0 && |rows| % m == 0
    requires SameOwner(m, rows)
    ensures LiveRows(rows) % m == 0
    decreases |rows|
  {
    if rows != [] {
      BaseWithin(0, |rows| % m, m);
      assert |rows| >= m by { if |rows| < m { BaseWithin(0, |rows|, m); } }
      var n := |rows| - m;
      AddBlock(n, m);
      var head, tail := rows[..n], rows[n..];
      assert rows == head + tail;
      LiveRowsAppend(head, tail);
      LiveRowsAligned(m, head);
      forall k | 0 <= k < m ensures tail[k].pid == tail[0].pid {
        BaseWithin(n, n + k, m);
      }
      if tail[0].pid == MARK {
        NoneLive(tail);
      } else {
        AllLive(tail);
        AddBlock(LiveRows(head), m);
      }
    }
  }

  /** `now` is `was` with the block of `m` rows at `k`, free or behind the end, reserved for `pid` with `page` first. */
  ghost predicate BlockTaken(m: nat, was: seq<Row>, now: seq<Row>, k: nat, pid: int, page: int)
    requires m > 0
  {
    && k % m == 0 && k + m <= |now| && |now| == (if k == |was| then |was| + m else |was|)
    && (forall i :: 0 <= i < |now| ==>
         if k <= i < k + m then now[i] == Row(pid, if i == k then page else MARK)
         else i < |was| && now[i] == was[i])
    && (forall i :: k <= i < k + m && i < |was| ==> was[i] == TOMBSTONE)
  }

  /** A first page takes the first block of tombstones, or a new block at the end. */
  lemma FirstRowsShape(cfg: Config, rows: seq<Row>, pid: int, page: int)
    requires cfg.quota >= 2 && Blocks(cfg.quota, rows) && RealKey(pid, page)
    requires forall i :: 0 <= i < |rows| ==> rows[i].pid != pid
    ensures BlockTaken(cfg.quota, rows, FirstRowsFixed(cfg, rows, pid, page), FirstFree(rows, pid), pid, page)
  {
    var m := cfg.quota;
    var k := FirstFree(rows, pid);
    if k < |rows| {
      assert rows[k].pid == MARK;
      BaseIsAligned(k, m);
      assert rows[Base(k, m)].pid == MARK;
      WholeBlock(m, |rows|, k);
      forall i | k <= i < k + m ensures rows[i] == TOMBSTONE {
        BaseWithin(k, i, m);
        BaseWithin(k, k, m);
      }
    }
  }

  /** A block that starts inside a whole number of blocks ends inside it. */
  lemma WholeBlock(m: nat, n: nat, k: nat)
    requires m > 0 && n % m == 0 && k % m == 0 && k < n
    ensures k + m <= n
  {
    if n < k + m {
      BaseWithin(k, n, m);
    }
  }

  lemma BaseAvoids(k: nat, i: nat, m: nat)
    requires m > 0 && k % m == 0
    ensures if k <= i < k + m then Base(i, m) == k else !(k <= Base(i, m) < k + m)
  {
    BaseIsAligned(i, m);
    if k <= i < k + m {
      BaseWithin(k, i, m);
    } else if k <= Base(i, m) < k + m {
      BaseWithin(k, Base(i, m), m);
    }
  }

  lemma BlocksAfterTaking(m: nat, was: seq<Row>, now: seq<Row>, k: nat, pid: int, page: int)
    requires m >= 2 && Blocks(m, was) && RealKey(pid, page) && BlockTaken(m, was, now, k, pid, page)
    requires forall i :: 0 <= i < |was| ==> was[i].pid != pid
    ensures Blocks(m, now)
  {
    AddBlock(|was|, m);
    forall i | 0 <= i < |now|
      ensures if k <= i < k + m then Base(i, m) == k else !(k <= Base(i, m) < k + m)
    {
      BaseAvoids(k, i, m);
    }
  }

  lemma NoRepeatsAfterTaking(m: nat, was: seq<Row>, now: seq<Row>, k: nat, pid: int, page: int)
    requires m >= 2 && NoRepeats(was) && BlockTaken(m, was, now, k, pid, page)
    requires forall i :: 0 <= i < |was| ==> was[i].pid != pid
    ensures NoRepeats(now)
  {
  }

  lemma BlocksAfterFirstSave(cfg: Config, was: seq<Row>, pid: int, page: int)
    requires cfg.quota >= 2 && Blocks(cfg.quota, was) && NoRepeats(was) && RealKey(pid, page)
    requires forall i :: 0 <= i < |was| ==> was[i].pid != pid
    ensures Blocks(cfg.quota, FirstRowsFixed(cfg, was, pid, page))
    ensures NoRepeats(FirstRowsFixed(cfg, was, pid, page))
  {
    hide Blocks, NoRepeats, BlockTaken, FirstRowsFixed, FirstFree;
    FirstRowsShape(cfg, was, pid, page);
    BlocksAfterTaking(cfg.quota, was, FirstRowsFixed(cfg, was, pid, page), FirstFree(was, pid), pid, page);
    NoRepeatsAfterTaking(cfg.quota, was, FirstRowsFixed(cfg, was, pid, page), FirstFree(was, pid), pid, page);
  }

  /** `t` is `s` with one file of process `pid` given new rows and one frame overwritten. */
  ghost predicate FileReplaced(s: Store, t: Store, f: nat, pid: int, k: nat, content: seq<byte>) {
    && f < |s.files| && |t.files| == |s.files|
    && (pid in s.owner ==> s.owner[pid] == f) && t.owner == s.owner[pid := f]
    && (forall g :: 0 <= g < |s.files| && g != f ==> t.files[g] == s.files[g])
    && k < |s.files[f].frames| && t.files[f].frames == s.files[f].frames[k := content]
  }

  /** Rows of other processes stay where they are; new ones all belong to `pid`. */
  ghost predicate RowsTakenBy(was: seq<Row>, now: seq<Row>, pid: int, k: nat) {
    && |was| <= |now| && k < |now| && now[k].pid == pid
    && (forall i :: 0 <= i < |was| ==> now[i].pid == was[i].pid || (was[i].pid == MARK && now[i].pid == pid))
    && (forall i :: |was| <= i < |now| ==> now[i].pid == pid)
  }

  lemma RowsOwnedReplaced(s: Store, t: Store, f: nat, pid: int, k: nat, content: seq<byte>)
    requires RowsOwned(s) && FileReplaced(s, t, f, pid, k, content) && pid != MARK
    requires RowsTakenBy(s.files[f].rows, t.files[f].rows, pid, k) && NoRepeats(t.files[f].rows)
    ensures RowsOwned(t)
  {
  }

  lemma HasRowReplaced(s: Store, t: Store, f: nat, pid: int, k: nat, content: seq<byte>, p: int)
    requires OwnersInRange(s) && FileReplaced(s, t, f, pid, k, content) && p in t.owner && p != MARK
    requires RowsTakenBy(s.files[f].rows, t.files[f].rows, pid, k)
    requires p in s.owner ==> HasRow(s, p)
    ensures HasRow(t, p)
  {
    var g := t.owner[p];
    if p == pid {
      assert t.files[g].rows[k].pid == p;
    } else {
      var i :| 0 <= i < |s.files[g].rows| && s.files[g].rows[i].pid == p;
      assert t.files[g].rows[i].pid == p;
    }
  }

  lemma FixedFileReplaced(cfg: Config, s: Store, t: Store, f: nat, pid: int, k: nat, content: seq<byte>)
    requires FixedOk(cfg, s) && FileReplaced(s, t, f, pid, k, content) && |content| == cfg.pageSize && pid != MARK
    requires var now := t.files[f].rows;
      |now| <= cfg.frameCount && Blocks(cfg.quota, now) && NoRepeats(now) && RowsTakenBy(s.files[f].rows, now, pid, k)
    ensures FixedOk(cfg, t)
  {
    assert FilesSized(cfg, t);
    RowsOwnedReplaced(s, t, f, pid, k, content);
    forall p | p in t.owner ensures HasRow(t, p) {
      HasRowReplaced(s, t, f, pid, k, content, p);
    }
  }

  lemma FetchFileReplaced(s: Store, t: Store, f: nat, pid: int, page: int, k: nat, content: seq<byte>, q: int, n: int)
    requires OwnersInRange(s) && OwnersInRange(t) && FileReplaced(s, t, f, pid, k, content) && RealKey(q, n)
    requires RowsOwned(s)
    requires var was, now := s.files[f].rows, t.files[f].rows;
      && |was| <= |now| && k < |now| && now[k] == Row(pid, page)
      && (forall i :: 0 <= i < |now| && i != k ==> now[i] != Row(pid, page))
      && (forall i :: 0 <= i < |was| && (q, n) != (pid, page) ==> (was[i] == Row(q, n) <==> now[i] == Row(q, n)))
      && (forall i :: |was| <= i < |now| && (q, n) != (pid, page) ==> now[i] != Row(q, n))
    ensures Fetch(t, q, n) == if (q, n) == (pid, page) then Some(content) else Fetch(s, q, n)
  {
    var was, now := s.files[f].rows, t.files[f].rows;
    if (q, n) == (pid, page) {
      FrameNumberIs(now, Row(pid, page), k);
    } else if q in t.owner && t.owner[q] == f {
      FrameNumberSame(was, now, Row(q, n));
      assert q !in s.owner ==> FrameNumber(was, Row(q, n)) == |was|;
    }
  }

  /** The file a first save goes to, and what it leaves there. */
  lemma FixedFirstSaveShape(cfg: Config, s: Store, pid: int, page: int, content: seq<byte>) returns (f: nat, k: nat)
    requires FixedOk(cfg, s) && RealKey(pid, page) && pid !in s.owner
    requires Save(cfg, s, pid, page, content).0
    ensures var t := Save(cfg, s, pid, page, content).1;
      && FileReplaced(s, t, f, pid, k, content)
      && t.files[f].rows == FirstRowsFixed(cfg, s.files[f].rows, pid, page) && |t.files[f].rows| <= cfg.frameCount
      && k == FirstFree(s.files[f].rows, pid)
      && (forall i :: 0 <= i < |s.files[f].rows| ==> s.files[f].rows[i].pid != pid)
  {
    f := LeastUsed(cfg, s.files, |s.files|).0;
    var rows := s.files[f].rows;
    k := FirstFree(rows, pid);
    assert FreeFrames(cfg, s.files[f]) >= cfg.quota;
    FirstRowsShape(cfg, rows, pid, page);
    if k == |rows| {
      AllLive(rows);
    }
  }

  lemma FixedFirstSave(cfg: Config, s: Store, pid: int, page: int, content: seq<byte>, q: int, n: int)
    requires FixedOk(cfg, s) && RealKey(pid, page) && RealKey(q, n) && pid !in s.owner && |content| == cfg.pageSize
    requires Save(cfg, s, pid, page, content).0
    ensures FixedOk(cfg, Save(cfg, s, pid, page, content).1)
    ensures Fetch(Save(cfg, s, pid, page, content).1, q, n) ==
            if (q, n) == (pid, page) then Some(content) else Fetch(s, q, n)
  {
    var f, k := FixedFirstSaveShape(cfg, s, pid, page, content);
    var t := Save(cfg, s, pid, page, content).1;
    var was := s.files[f].rows;
    FirstRowsShape(cfg, was, pid, page);
    BlocksAfterFirstSave(cfg, was, pid, page);
    assert t.files[f].rows[k].pid == pid;
    FixedFileReplaced(cfg, s, t, f, pid, k, content);
    FixedFirstSaveFetch(cfg, s, t, f, k, pid, page, content, q, n);
  }

  lemma FixedFirstSaveFetch(
      cfg: Config, s: Store, t: Store, f: nat, k: nat, pid: int, page: int, content: seq<byte>, q: int, n: int)
    requires FixedOk(cfg, s) && OwnersInRange(t) && RealKey(pid, page) && RealKey(q, n) && pid !in s.owner
    requires FileReplaced(s, t, f, pid, k, content) && k == FirstFree(s.files[f].rows, pid)
    requires t.files[f].rows == FirstRowsFixed(cfg, s.files[f].rows, pid, page)
    ensures Fetch(t, q, n) == if (q, n) == (pid, page) then Some(content) else Fetch(s, q, n)
  {
    FirstRowsShape(cfg, s.files[f].rows, pid, page);
    if q == pid && n != page {
      assert FrameNumber(t.files[f].rows, Row(q, n)) == |t.files[f].rows|;
    } else {
      FetchFileReplaced(s, t, f, pid, page, k, content, q, n);
    }
  }

  /** The process can still store this page: it has stored it before, or has a reserved row left. */
  ghost predicate WithinQuota(s: Store, pid: int, page: int)
    requires pid in s.owner && s.owner[pid] < |s.files|
  {
    var rows := s.files[s.owner[pid]].rows;
    Row(pid, page) in rows || Row(pid, MARK) in rows
  }

  /** The reserved row found is never the one whose number equals the count of live rows. */
  lemma ReservedIsNotLiveCount(m: nat, rows: seq<Row>, pid: int)
    requires m > 0 && Blocks(m, rows) && pid != MARK && Row(pid, MARK) in rows
    ensures FrameNumber(rows, Row(pid, MARK)) < |rows|
    ensures FrameNumber(rows, Row(pid, MARK)) != LiveRows(rows)
  {
    var r := FrameNumber(rows, Row(pid, MARK));
    LiveRowsAligned(m, rows);
    if r == LiveRows(rows) {
      BaseWithin(r, r, m);
      assert false;
    }
  }

  /** The row a later save goes to: the page's own, or the first reserved one. */
  lemma FixedLaterSaveShape(cfg: Config, s: Store, pid: int, page: int, content: seq<byte>) returns (k: nat)
    requires FixedOk(cfg, s) && RealKey(pid, page) && pid in s.owner
    requires WithinQuota(s, pid, page)
    ensures Save(cfg, s, pid, page, content).0
    ensures var t, was := Save(cfg, s, pid, page, content).1, s.files[s.owner[pid]].rows;
      && FileReplaced(s, t, s.owner[pid], pid, k, content)
      && k < |was| && was[k] in {Row(pid, page), Row(pid, MARK)}
      && (was[k] != Row(pid, page) ==> Row(pid, page) !in was)
      && t.files[s.owner[pid]].rows == was[k := Row(pid, page)]
  {
    var was := s.files[s.owner[pid]].rows;
    k := FrameNumber(was, Row(pid, page));
    if k == |was| {
      ReservedIsNotLiveCount(cfg.quota, was, pid);
      k := FrameNumber(was, Row(pid, MARK));
    }
  }

  lemma BlocksAfterLaterSave(m: nat, was: seq<Row>, k: nat, pid: int, page: int)
    requires m > 0 && Blocks(m, was) && NoRepeats(was) && RealKey(pid, page)
    requires k < |was| && was[k].pid == pid && (was[k].page != page ==> Row(pid, page) !in was)
    ensures Blocks(m, was[k := Row(pid, page)]) && NoRepeats(was[k := Row(pid, page)])
  {
    var now := was[k := Row(pid, page)];
    assert forall i :: 0 <= i < |was| ==> now[i].pid == was[i].pid;
  }

  lemma FixedLaterSave(cfg: Config, s: Store, pid: int, page: int, content: seq<byte>, q: int, n: int)
    requires FixedOk(cfg, s) && RealKey(pid, page) && RealKey(q, n) && pid in s.owner && |content| == cfg.pageSize
    requires WithinQuota(s, pid, page)
    ensures Save(cfg, s, pid, page, content).0
    ensures FixedOk(cfg, Save(cfg, s, pid, page, content).1)
    ensures Fetch(Save(cfg, s, pid, page, content).1, q, n) ==
            if (q, n) == (pid, page) then Some(content) else Fetch(s, q, n)
  {
    var k := FixedLaterSaveShape(cfg, s, pid, page, content);
    var f, t := s.owner[pid], Save(cfg, s, pid, page, content).1;
    var was := s.files[f].rows;
    BlocksAfterLaterSave(cfg.quota, was, k, pid, page);
    assert t.files[f].rows[k].pid == pid;
    FixedFileReplaced(cfg, s, t, f, pid, k, content);
    assert NoRepeats(t.files[f].rows);
    FetchFileReplaced(s, t, f, pid, page, k, content, q, n);
  }

  /**
   Fixed assignment: a process that stays within its quota gets back what it last saved,
   and its saves disturb no other page of any process.
   */
  lemma FixedSaveThenFetch(cfg: Config, s: Store, pid: int, page: int, content: seq<byte>, q: int, n: int)
    requires FixedOk(cfg, s) && RealKey(pid, page) && RealKey(q, n) && |content| == cfg.pageSize
    requires if pid in s.owner then WithinQuota(s, pid, page) else Save(cfg, s, pid, page, content).0
    ensures Save(cfg, s, pid, page, content).0
    ensures FixedOk(cfg, Save(cfg, s, pid, page, content).1)
    ensures Fetch(Save(cfg, s, pid, page, content).1, q, n) ==
            if (q, n) == (pid, page) then Some(content) else Fetch(s, q, n)
  {
    if pid in s.owner {
      FixedLaterSave(cfg, s, pid, page, content, q, n);
    } else {
      FixedFirstSave(cfg, s, pid, page, content, q, n);
    }
  }

  /** The real pages a process has in its file. */
  ghost function StoredPages(rows: seq<Row>, pid: int): (r: set<int>)
    ensures forall n :: n in r <==> n != MARK && Row(pid, n) in rows
  {
    set k | 0 <= k < |rows| && rows[k].pid == pid && rows[k].page != MARK :: rows[k].page
  }

  lemma {:induction false} DistinctCount(rows: seq<Row>, pid: int, b: nat, n: nat)
    requires b + n <= |rows| && NoRepeats(rows)
    requires forall k :: b <= k < b + n ==> rows[k].pid == pid && rows[k].page != MARK
    ensures |set k | b <= k < b + n :: rows[k].page| == n
  {
    var all := set k | b <= k < b + n :: rows[k].page;
    if n > 0 {
      DistinctCount(rows, pid, b, n - 1);
      var fewer := set k | b <= k < b + n - 1 :: rows[k].page;
      assert all == fewer + {rows[b + n - 1].page};
    }
  }

  /** A process with fewer stored pages than its quota has a reserved row left. */
  lemma FewerPagesThanQuota(cfg: Config, s: Store, pid: int, page: int)
    requires FixedOk(cfg, s) && pid in s.owner && RealKey(pid, page)
    requires |StoredPages(s.files[s.owner[pid]].rows, pid)| < cfg.quota
    ensures WithinQuota(s, pid, page)
  {
    var m, rows := cfg.quota, s.files[s.owner[pid]].rows;
    assert HasRow(s, pid);
    var i :| 0 <= i < |rows| && rows[i].pid == pid;
    var b := Base(i, m);
    BaseIsAligned(i, m);
    WholeBlock(m, |rows|, b);
    if Row(pid, MARK) !in rows {
      forall k | b <= k < b + m ensures rows[k].pid == pid && rows[k].page != MARK {
        BaseWithin(b, k, m);
        BaseWithin(b, b, m);
        assert rows[k] in rows;
      }
      assert NoRepeats(rows);
      DistinctCount(rows, pid, b, m);
      var block := set k | b <= k < b + m :: rows[k].page;
      forall n | n in block ensures n in StoredPages(rows, pid) {
        var k :| b <= k < b + m && rows[k].page == n;
        assert rows[k] == Row(pid, n);
      }
      SubsetSize(block, StoredPages(rows, pid));
    }
  }

  lemma SubsetSize(a: set<int>, b: set<int>)
    requires a <= b
    ensures |a| <= |b|
  {
    assert b == a + (b - a);
  }

  /**
   Past its quota a process is refused only while its file has no tombstone: the code
   compares a row number with the count of live rows, so after any finish in that file the
   save is reported accepted although no row was written for it. Either way the blocks stay as
   they are, the page is not stored, and every other page of every process is fetched as before.
   */
  lemma FixedOverQuota(cfg: Config, s: Store, pid: int, page: int, content: seq<byte>, q: int, n: int)
    requires FixedOk(cfg, s) && RealKey(pid, page) && RealKey(q, n) && |content| == cfg.pageSize
    requires pid in s.owner && !WithinQuota(s, pid, page)
    ensures var rows := s.files[s.owner[pid]].rows;
      !Save(cfg, s, pid, page, content).0 <==> forall k :: 0 <= k < |rows| ==> rows[k].pid != MARK
    ensures FixedOk(cfg, Save(cfg, s, pid, page, content).1)
    ensures Fetch(Save(cfg, s, pid, page, content).1, q, n) == Fetch(s, q, n)
    ensures Fetch(Save(cfg, s, pid, page, content).1, pid, page) == None
  {
    var f, t := s.owner[pid], Save(cfg, s, pid, page, content).1;
    var rows := s.files[f].rows;
    assert FrameNumber(rows, Row(pid, page)) == |rows| && FrameNumber(rows, Row(pid, MARK)) == |rows|;
    LiveRowsFull(rows);
    BehindRows(cfg, s, t, f, content);
  }

  /** Content put behind the rows of a file is seen by no page. */
  lemma BehindRows(cfg: Config, s: Store, t: Store, f: nat, content: seq<byte>)
    requires FixedOk(cfg, s) && f < |s.files| && |content| == cfg.pageSize && t.owner == s.owner
    requires || t.files == s.files
             || t.files == s.files[f := s.files[f].(frames := PutIn(s.files[f].frames, |s.files[f].rows|, content))]
    ensures FixedOk(cfg, t)
    ensures forall q, n :: Fetch(t, q, n) == Fetch(s, q, n)
  {
    hide Blocks, NoRepeats;
    assert forall g :: 0 <= g < |s.files| ==> t.files[g].rows == s.files[g].rows;
    assert FilesSized(cfg, t);
    forall p | p in t.owner ensures HasRow(t, p) {
      assert HasRow(s, p);
    }
    assert RowsOwned(t) by {
      forall g | 0 <= g < |t.files| ensures NoRepeats(t.files[g].rows) {
        assert NoRepeats(s.files[g].rows);
      }
    }
  }

  lemma {:induction false} NoLiveRows(rows: seq<Row>)
    requires forall k :: 0 <= k < |rows| ==> rows[k].pid == MARK
    ensures LiveRows(rows) == 0
  {
    if rows != [] {
      NoLiveRows(rows[..|rows| - 1]);
    }
  }

  lemma {:induction false} LiveRowsFull(rows: seq<Row>)
    ensures LiveRows(rows) == |rows| <==> forall k :: 0 <= k < |rows| ==> rows[k].pid != MARK
  {
    if rows != [] {
      LiveRowsFull(rows[..|rows| - 1]);
    }
  }

  /** A first save is refused exactly when no file has a whole quota of free frames. */
  lemma FixedFirstSaveAccepted(cfg: Config, s: Store, pid: int, page: int, content: seq<byte>)
    requires FixedOk(cfg, s) && pid !in s.owner
    ensures Save(cfg, s, pid, page, content).0 <==>
            exists f :: 0 <= f < |s.files| && FreeFrames(cfg, s.files[f]) >= cfg.quota
    ensures !Save(cfg, s, pid, page, content).0 ==> Save(cfg, s, pid, page, content).1 == s
  {
  }

  /** The live rows are at least those before the first tombstone. */
  lemma LiveBefore(rows: seq<Row>, k: nat)
    requires k <= |rows| && forall i :: 0 <= i < k ==> rows[i].pid != MARK
    ensures k <= LiveRows(rows)
  {
    AllLive(rows[..k]);
    LiveRowsAppend(rows[..k], rows[k..]);
    assert rows[..k] + rows[k..] == rows;
  }

  /**
   With a quota of one page or none: a page that has its row at a frame of the file lands there, and
   the first page of a process lands unless the only place left for it is the last row, a tombstone.
   There the code puts the content on the tombstone and the row behind it.
   */
  predicate SmallQuotaLands(cfg: Config, s: Store, pid: int, page: int) {
    var f := TargetFile(cfg, s, pid);
    f < |s.files| ==>
      var rows := s.files[f].rows;
      if pid in s.owner then FrameNumber(rows, Row(pid, page)) < |rows|
                             && FrameNumber(rows, Row(pid, page)) < cfg.frameCount
      else FirstFree(rows, pid) + 1 != |rows|
  }

  lemma SmallQuotaShape(cfg: Config, s: Store, pid: int, page: int, content: seq<byte>) returns (f: nat, k: nat)
    requires cfg.mode.Fixed? && cfg.quota <= 1 && Rowed(cfg, s) && RealKey(pid, page)
    requires Save(cfg, s, pid, page, content).0
    ensures var t := Save(cfg, s, pid, page, content).1;
      && f == TargetFile(cfg, s, pid) && PutInFile(s, t, f, k, pid, page, content)
      && (SmallQuotaLands(cfg, s, pid, page) <==> StandsAt(cfg, t, f, k, Row(pid, page)))
  {
    f := TargetFile(cfg, s, pid);
    var rows := s.files[f].rows;
    assert Row(pid, MARK) !in rows;
    assert Block(cfg, pid, page) == [Row(pid, page)];
    if pid in s.owner {
      k := FrameNumber(rows, Row(pid, page));
    } else {
      k := FirstFree(rows, pid);
      NoRowOf(s, f, pid, page);
      LiveBefore(rows, k);
      assert k < |rows| ==> PutRows(rows, k, [Row(pid, page)]) == rows[k := Row(pid, page)];
    }
  }

  /** With so small a quota swap keeps every other page, and an accepted save that lands is fetched back. */
  lemma SmallQuotaSaveThenFetch(cfg: Config, s: Store, pid: int, page: int, content: seq<byte>, q: int, n: int)
    requires cfg.mode.Fixed? && cfg.quota <= 1 && Rowed(cfg, s)
    requires RealKey(pid, page) && RealKey(q, n) && |content| == cfg.pageSize
    ensures Rowed(cfg, Save(cfg, s, pid, page, content).1)
    ensures (q, n) != (pid, page) ==> Fetch(Save(cfg, s, pid, page, content).1, q, n) == Fetch(s, q, n)
    ensures Save(cfg, s, pid, page, content).0 && SmallQuotaLands(cfg, s, pid, page) ==>
      Fetch(Save(cfg, s, pid, page, content).1, pid, page) == Some(content)
  {
    hide Rowed, SmallQuotaLands, Fetch, PutInFile, StandsAt;
    var t := Save(cfg, s, pid, page, content).1;
    if Save(cfg, s, pid, page, content).0 {
      var f, k := SmallQuotaShape(cfg, s, pid, page, content);
      PutKeeps(cfg, s, t, f, k, pid, page, content);
      PutThenFetch(cfg, s, t, f, k, pid, page, content, q, n);
    } else {
      RefusedChangesNothing(cfg, s, pid, page, content);
    }
  }

  /** So with so small a quota a page whose save is accepted comes back, whatever its content, exactly when it lands. */
  lemma SmallQuotaComesBack(cfg: Config, s: Store, pid: int, page: int)
    requires cfg.mode.Fixed? && cfg.quota <= 1 && Rowed(cfg, s) && RealKey(pid, page) && cfg.pageSize > 0
    requires Save(cfg, s, pid, page, Zeros(cfg.pageSize)).0
    ensures SmallQuotaLands(cfg, s, pid, page) <==> AlwaysBack(cfg, s, pid, page)
  {
    hide Save, SmallQuotaLands, Rowed, GivesBack;
    var a, b := Zeros(cfg.pageSize), seq(cfg.pageSize, _ => 1);
    AnswerIgnoresContent(cfg, s, pid, page, b, a);
    if SmallQuotaLands(cfg, s, pid, page) {
      forall content: seq<byte> | |content| == cfg.pageSize ensures GivesBack(cfg, s, pid, page, content) {
        AnswerIgnoresContent(cfg, s, pid, page, content, a);
        SmallQuotaSaveThenFetch(cfg, s, pid, page, content, pid, page);
        IsGivenBack(cfg, s, pid, page, content);
      }
    } else {
      SmallQuotaLoses(cfg, s, pid, page, a);
      SmallQuotaLoses(cfg, s, pid, page, b);
      assert a[0] != b[0];
      NotAlwaysBack(cfg, s, pid, page, a, b);
    }
  }

  /** What is fetched of a page that was reported saved and did not land. */
  lemma SmallQuotaLoses(cfg: Config, s: Store, pid: int, page: int, content: seq<byte>)
    requires cfg.mode.Fixed? && cfg.quota <= 1 && Rowed(cfg, s) && RealKey(pid, page)
    requires Save(cfg, s, pid, page, content).0 && !SmallQuotaLands(cfg, s, pid, page)
    ensures TargetFile(cfg, s, pid) < |s.files|
    ensures var file := s.files[TargetFile(cfg, s, pid)];
      Fetch(Save(cfg, s, pid, page, content).1, pid, page) ==
        if pid !in s.owner && |file.rows| < cfg.frameCount then Some(file.frames[|file.rows|]) else None
  {
    var f := TargetFile(cfg, s, pid);
    var rows, row := s.files[f].rows, Row(pid, page);
    assert Block(cfg, pid, page) == [row];
    if pid in s.owner {
      assert Row(pid, MARK) !in rows;
    } else {
      NoRowOf(s, f, pid, page);
      FrameNumberIs(rows + [row], row, |rows|);
    }
  }

  lemma RefusedChangesNothing(cfg: Config, s: Store, pid: int, page: int, content: seq<byte>)
    requires !Save(cfg, s, pid, page, content).0
    ensures Save(cfg, s, pid, page, content).1 == s
  {
  }

  lemma BlocksAfterFinish(m: nat, file: File, pid: int, zero: seq<byte>)
    requires m > 0 && Blocks(m, file.rows) && NoRepeats(file.rows)
    ensures Blocks(m, Cleared(file, pid, zero).rows) && NoRepeats(Cleared(file, pid, zero).rows)
  {
  }

  /** Finishing a process keeps the blocks aligned, so its block can be handed out whole again. */
  lemma FixedFinishKeeps(cfg: Config, s: Store, pid: int)
    requires FixedOk(cfg, s) && pid != MARK
    ensures FixedOk(cfg, Finish(cfg, s, pid))
  {
    if pid in s.owner {
      FinishKeepsRows(cfg, s, pid);
      FinishKeepsFiles(cfg, s, pid);
    }
  }

  lemma FinishKeepsFiles(cfg: Config, s: Store, pid: int)
    requires FixedOk(cfg, s) && pid != MARK && pid in s.owner
    ensures var t := Finish(cfg, s, pid);
      && OwnersInRange(t) && FilesSized(cfg, t) && RowsOwned(t)
      && forall f :: 0 <= f < |t.files| ==> Blocks(cfg.quota, t.files[f].rows)
  {
    hide HasRow, Blocks, NoRepeats;
    var f, t := s.owner[pid], Finish(cfg, s, pid);
    assert NoRepeats(s.files[f].rows);
    BlocksAfterFinish(cfg.quota, s.files[f], pid, Zeros(cfg.pageSize));
    forall g | 0 <= g < |t.files| ensures Blocks(cfg.quota, t.files[g].rows) && NoRepeats(t.files[g].rows) {
      assert NoRepeats(s.files[g].rows);
    }
    assert FilesSized(cfg, t);
  }

  lemma FinishKeepsRows(cfg: Config, s: Store, pid: int)
    requires FixedOk(cfg, s) && pid != MARK && pid in s.owner
    ensures var t := Finish(cfg, s, pid); OwnersInRange(t) && forall p :: p in t.owner ==> p != MARK && HasRow(t, p)
  {
    hide FilesSized, RowsOwned, Blocks;
    var t := Finish(cfg, s, pid);
    forall p | p in t.owner ensures p != MARK && HasRow(t, p) {
      assert HasRow(s, p);
      var g := s.owner[p];
      var i :| 0 <= i < |s.files[g].rows| && s.files[g].rows[i].pid == p;
      assert t.files[g].rows[i].pid == p;
    }
  }
}
