/**
 The swap process: the inverted page tables, the mapped files and the dictionary, changed in
 place with the original's loops. Each request is proved against the store of module Swap.
 */
module SwapServer {
  import opened Bytes
  import opened Options
  import opened Swap

  // ---- scans of one table --------------------------------------------------------------------

  /** tabla_paginas_size. */
  method TableSize(rows: seq<Row>) returns (size: nat)
    ensures size == LiveRows(rows)
  {
    size := 0;
    var i := 0;
    while i < |rows|
      invariant i <= |rows| && size == LiveRows(rows[..i])
    {
      assert rows[..i + 1][..i] == rows[..i];
      if rows[i].pid != MARK {
        size := size + 1;
      }
      i := i + 1;
    }
    assert rows[..i] == rows;
  }

  /** get_first_free_frame_number. */
  method FirstFreeFrame(rows: seq<Row>, pid: int) returns (i: nat)
    ensures i == FirstFree(rows, pid)
  {
    i := 0;
    while i < |rows|
      invariant i <= |rows| && forall k :: 0 <= k < i ==> !FreeFor(rows[k], pid)
    {
      if rows[i].pid == MARK {
        break;
      } else if rows[i].pid != pid {
        i := i + 1;
      } else {
        if rows[i].page == MARK {
          break;
        }
        i := i + 1;
      }
    }
  }

  /** get_frame_number. */
  method FindFrame(rows: seq<Row>, row: Row) returns (i: nat)
    ensures i == FrameNumber(rows, row)
  {
    i := 0;
    while i < |rows|
      invariant i <= |rows| && forall k :: 0 <= k < i ==> rows[k] != row
    {
      if rows[i].pid != row.pid {
        i := i + 1;
      } else {
        if rows[i].page != row.page {
          i := i + 1;
        } else {
          break;
        }
      }
    }
  }

  /** pagina_esta_en_swap. */
  method IsStored(rows: seq<Row>, pid: int, page: int) returns (found: bool)
    ensures found <==> FrameNumber(rows, Row(pid, page)) < |rows|
  {
    found := false;
    var i := 0;
    while i < |rows|
      invariant i <= |rows| && !found && forall k :: 0 <= k < i ==> rows[k] != Row(pid, page)
    {
      if rows[i].pid == pid && rows[i].page == page {
        found := true;
        break;
      }
      i := i + 1;
    }
  }

  ghost function Files(tables: seq<seq<Row>>, disks: seq<seq<seq<byte>>>): (r: seq<File>)
    requires |disks| == |tables|
    ensures |r| == |tables| && forall f :: 0 <= f < |r| ==> r[f] == File(tables[f], disks[f])
  {
    seq(|tables|, f requires 0 <= f < |tables| => File(tables[f], disks[f]))
  }

  lemma NoFileYet(cfg: Config, files: seq<File>)
    ensures LeastUsed(cfg, files, 0) == (0, 0)
  {
  }

  lemma NextFile(cfg: Config, files: seq<File>, n: nat)
    requires n < |files|
    ensures var best, free := LeastUsed(cfg, files, n), cfg.frameCount - LiveRows(files[n].rows);
      LeastUsed(cfg, files, n + 1) == if free > best.1 then (n, free) else best
  {
  }

  class Server {
    const cfg: Config
    /** The table and the mapped bytes, frame by frame, of each swap file. */
    var tables: seq<seq<Row>>
    var disks: seq<seq<seq<byte>>>
    var dict: map<int, nat>

    ghost predicate Valid()
      reads this
    {
      |disks| == |tables| && Sane(cfg, State())
    }

    ghost function State(): Store
      requires |disks| == |tables|
      reads this
    {
      Store(Files(tables, disks), dict)
    }

    /** inicializar_swap_files: `n` empty files of zeros. */
    constructor (settings: Config, n: nat)
      ensures Valid() && cfg == settings
      ensures State() == Empty(settings, n)
    {
      cfg := settings;
      tables := seq(n, _ => []);
      disks := seq(n, _ => seq(settings.frameCount, _ => Zeros(settings.pageSize)));
      dict := map[];
    }

    /** swap_file_menos_ocupado: the file, or None when no file has a free frame. */
    method LeastUsedFile() returns (f: Option<nat>, free: int)
      requires Valid()
      ensures var best := LeastUsed(cfg, State().files, |tables|);
        free == best.1 && f == if best.1 == 0 then None else Some(best.0)
      ensures f.Some? ==> f.value < |tables|
    {
      hide Sane, LeastUsed, LiveRows;
      free := 0;
      f := None;
      var i := 0;
      ghost var files := State().files;
      NoFileYet(cfg, files);
      while i < |tables|
        invariant i <= |tables|
        invariant var best := LeastUsed(cfg, files, i);
          free == best.1 && f == if best.1 == 0 then None else Some(best.0)
      {
        NextFile(cfg, files, i);
        assert files[i].rows == tables[i];
        var used := TableSize(tables[i]);
        if cfg.frameCount - used > free {
          f := Some(i);
          free := cfg.frameCount - used;
        }
        i := i + 1;
      }
    }

    /** memcpy of a page into the mapped file. */
    method WriteDisk(f: nat, k: nat, content: seq<byte>)
      requires |disks| == |tables| && f < |tables|
      modifies this`disks
      ensures |disks| == |tables|
      ensures var s := old(State());
        State() == s.(files := s.files[f := s.files[f].(frames := PutIn(old(disks[f]), k, content))])
    {
      if k < |disks[f]| {
        disks := disks[f := disks[f][k := content]];
      }
    }

    method SetRows(f: nat, rows: seq<Row>)
      requires |disks| == |tables| && f < |tables|
      modifies this`tables
      ensures |disks| == |tables|
      ensures State() == old(State()).(files := old(State()).files[f := old(State()).files[f].(rows := rows)])
    {
      tables := tables[f := rows];
    }

    /** The rows of a first fixed-assignment page: a block of tombstones replaced, or a block added. */
    method ReserveBlock(rows: seq<Row>, k: nat, pid: int, page: int) returns (r: seq<Row>)
      requires k == FirstFree(rows, pid)
      ensures r == FirstRowsFixed(cfg, rows, pid, page)
    {
      r := rows;
      var block := Block(cfg, pid, page);
      if |rows| - 1 > k {
        r := PutIn(r, k, Row(pid, page));
        var i := 1;
        while i < |block|
          invariant 1 <= i <= |block| && r == PutRows(rows, k, block[..i])
        {
          r := PutIn(r, k + i, Row(pid, MARK));
          i := i + 1;
        }
        assert block[..i] == block;
      } else {
        r := r + [Row(pid, page)];
        var i := 1;
        while i < |block|
          invariant 1 <= i <= |block| && r == rows + block[..i]
        {
          r := r + [Row(pid, MARK)];
          i := i + 1;
        }
        assert block[..i] == block;
      }
    }

    /** guardar_pagina_asignacion_fija, first page of a process. */
    method SaveFirstPageFixed(pid: int, page: int, content: seq<byte>) returns (ok: bool)
      requires Valid() && pid !in dict && |content| == cfg.pageSize
      modifies this
      ensures |disks| == |tables| && (ok, State()) == SaveFirstFixed(cfg, old(State()), pid, page, content)
    {
      var f, free := LeastUsedFile();
      if f.None? || cfg.quota > free {
        return false;
      }
      dict := dict[pid := f.value];
      var k := FirstFreeFrame(tables[f.value], pid);
      WriteDisk(f.value, k, content);
      var rows := ReserveBlock(tables[f.value], k, pid, page);
      SetRows(f.value, rows);
      assert State().files == SaveFirstFixed(cfg, old(State()), pid, page, content).1.files;
      return true;
    }

    /** guardar_pagina_asignacion_dinamica, first page of a process. */
    method SaveFirstPageDynamic(pid: int, page: int, content: seq<byte>) returns (ok: bool)
      requires Valid() && pid !in dict && |content| == cfg.pageSize
      modifies this
      ensures |disks| == |tables| && (ok, State()) == SaveFirstDynamic(cfg, old(State()), pid, page, content)
    {
      var f, free := LeastUsedFile();
      if f.None? {
        return false;
      }
      dict := dict[pid := f.value];
      var k := FirstFreeFrame(tables[f.value], pid);
      var live := TableSize(tables[f.value]);
      if live > k + 1 {
        SetRows(f.value, PutIn(tables[f.value], k, Row(pid, page)));
      } else {
        SetRows(f.value, tables[f.value] + [Row(pid, page)]);
      }
      WriteDisk(f.value, k, content);
      assert State().files == SaveFirstDynamic(cfg, old(State()), pid, page, content).1.files;
      return true;
    }

    /** A page the table of the process does not hold yet, under fixed assignment. */
    method SaveNewPageFixed(pid: int, page: int, content: seq<byte>) returns (ok: bool)
      requires Valid() && pid in dict && |content| == cfg.pageSize
      modifies this
      ensures |disks| == |tables| && (ok, State()) == SaveNewFixed(old(State()), pid, page, content)
    {
      var f := dict[pid];
      var k := FindFrame(tables[f], Row(pid, MARK));
      var live := TableSize(tables[f]);
      if k == live {
        return false;
      }
      WriteDisk(f, k, content);
      SetRows(f, PutIn(tables[f], k, Row(pid, page)));
      assert State().files == SaveNewFixed(old(State()), pid, page, content).1.files;
      return true;
    }

    /** ... and under dynamic assignment. */
    method SaveNewPageDynamic(pid: int, page: int, content: seq<byte>) returns (ok: bool)
      requires Valid() && pid in dict && |content| == cfg.pageSize
      modifies this
      ensures |disks| == |tables| && (ok, State()) == SaveNewDynamic(cfg, old(State()), pid, page, content)
    {
      var f := dict[pid];
      var live := TableSize(tables[f]);
      if live >= cfg.frameCount {
        return false;
      }
      var k := FirstFreeFrame(tables[f], pid);
      SetRows(f, tables[f] + [Row(pid, page)]);
      WriteDisk(f, k, content);
      assert State().files == SaveNewDynamic(cfg, old(State()), pid, page, content).1.files;
      return true;
    }

    /** guardar_pagina: the answer is 1 or 0. */
    method SavePage(pid: int, page: int, content: seq<byte>) returns (ok: bool)
      requires Valid() && |content| == cfg.pageSize
      modifies this
      ensures Valid() && (ok, State()) == Save(cfg, old(State()), pid, page, content)
    {
      SaveKeepsSane(cfg, State(), pid, page, content);
      if pid !in dict {
        if cfg.mode.Fixed? {
          ok := SaveFirstPageFixed(pid, page, content);
        } else {
          ok := SaveFirstPageDynamic(pid, page, content);
        }
      } else {
        var f := dict[pid];
        var stored := IsStored(tables[f], pid, page);
        if stored {
          var k := FindFrame(tables[f], Row(pid, page));
          WriteDisk(f, k, content);
          ok := true;
        } else if cfg.mode.Fixed? {
          ok := SaveNewPageFixed(pid, page, content);
        } else {
          ok := SaveNewPageDynamic(pid, page, content);
        }
      }
    }

    /** obtener_pagina: the stored copy where there is one. */
    method FetchPage(pid: int, page: int) returns (content: Option<seq<byte>>)
      requires Valid()
      ensures content == Obtained(State(), pid, page)
      ensures Fetch(State(), pid, page).Some? ==> content == Fetch(State(), pid, page)
    {
      if pid !in dict {
        return None;
      }
      var f := dict[pid];
      var k := FindFrame(tables[f], Row(pid, page));
      if k < |disks[f]| {
        return Some(disks[f][k]);
      }
      return None;
    }

    /** finalizar_proceso. */
    method FinishProcess(pid: int)
      requires Valid() && pid != MARK
      modifies this
      ensures Valid() && State() == Finish(cfg, old(State()), pid)
    {
      FinishKeepsSane(cfg, State(), pid);
      if pid in dict {
        var f := dict[pid];
        ClearRows(f, pid);
        dict := dict - {pid};
      }
    }

    /** The loop of finalizar_proceso: each row's frame is looked up again by its contents. */
    method ClearRows(f: nat, pid: int)
      requires Valid() && f < |tables| && pid != MARK
      modifies this`tables, this`disks
      ensures |disks| == |tables|
      ensures var s := old(State());
        State() == s.(files := s.files[f := Cleared(s.files[f], pid, Zeros(cfg.pageSize))])
    {
      hide Sane, LiveRows, FirstFree, ClearedRows, ClearedFrames, FrameNumber;
      ghost var rows, frames, zero := tables[f], disks[f], Zeros(cfg.pageSize);
      ClearedEnds(rows, frames, pid, zero);
      var i := 0;
      while i < |tables[f]|
        invariant |disks| == |tables| && i <= |rows|
        invariant tables == old(tables)[f := ClearedRows(rows, pid, i)]
        invariant disks == old(disks)[f := ClearedFrames(rows, frames, pid, zero, i)]
      {
        ClearedNext(rows, frames, pid, zero, i);
        if tables[f][i].pid == pid {
          var k := FindFrame(tables[f], tables[f][i]);
          if k < |disks[f]| {
            disks := disks[f := disks[f][k := Zeros(cfg.pageSize)]];
          }
          tables := tables[f := tables[f][i := TOMBSTONE]];
        }
        i := i + 1;
      }
    }
  }

  ghost function ClearedRows(rows: seq<Row>, pid: int, n: nat): (r: seq<Row>)
    ensures |r| == |rows|
    ensures forall k :: 0 <= k < |r| ==> r[k] == if k < n && rows[k].pid == pid then TOMBSTONE else rows[k]
  {
    seq(|rows|, k requires 0 <= k < |rows| => if k < n && rows[k].pid == pid then TOMBSTONE else rows[k])
  }

  ghost function ClearedFrames(
      rows: seq<Row>, frames: seq<seq<byte>>, pid: int, zero: seq<byte>, n: nat): (r: seq<seq<byte>>)
    ensures |r| == |frames|
    ensures forall k :: 0 <= k < |r| ==> r[k] == if k < n && k < |rows| && rows[k].pid == pid then zero else frames[k]
  {
    seq(|frames|, k requires 0 <= k < |frames| => if k < n && k < |rows| && rows[k].pid == pid then zero else frames[k])
  }

  /** One turn of the loop; the row looked up is the one the loop stands at. */
  lemma ClearedNext(rows: seq<Row>, frames: seq<seq<byte>>, pid: int, zero: seq<byte>, i: nat)
    requires i < |rows| && pid != MARK
    ensures var now, disk := ClearedRows(rows, pid, i), ClearedFrames(rows, frames, pid, zero, i);
      && now[i] == rows[i]
      && (rows[i].pid == pid ==> FrameNumber(now, rows[i]) == i)
      && ClearedRows(rows, pid, i + 1) == (if rows[i].pid == pid then now[i := TOMBSTONE] else now)
      && ClearedFrames(rows, frames, pid, zero, i + 1) == if rows[i].pid == pid && i < |disk| then disk[i := zero]
                                                          else disk
  {
    var k := FrameNumber(ClearedRows(rows, pid, i), rows[i]);
    assert rows[i].pid == pid ==> k == i;
  }

  lemma ClearedEnds(rows: seq<Row>, frames: seq<seq<byte>>, pid: int, zero: seq<byte>)
    ensures ClearedRows(rows, pid, 0) == rows && ClearedFrames(rows, frames, pid, zero, 0) == frames
    ensures Cleared(File(rows, frames), pid, zero) == File(ClearedRows(rows, pid, |rows|),
                                                           ClearedFrames(rows, frames, pid, zero, |rows|))
  {
  }
}
