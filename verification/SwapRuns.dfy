/** Runs of the swap process: what is fetched is what was last saved. */
module SwapRuns {
  import opened Bytes
  import opened Options
  import opened Swap

  datatype Request =
    | SavePage(pid: int, page: int, content: seq<byte>)
    | FinishProcess(pid: int)

  /** What swap should hold, and the pages whose last accepted save has no row where its content went. */
  datatype Ledger = Ledger(held: map<Row, seq<byte>>, lost: set<Row>)

  /**
   An accepted save of this page will be fetched back. Under dynamic assignment the page settles; under
   fixed assignment it is the first of its process or within its quota, or, where the quota is one page,
   it does not have to be put on a tombstone in the last row.
   */
  ghost predicate Lands(cfg: Config, s: Store, pid: int, page: int) {
    if cfg.mode.Dynamic? then Settles(cfg, s, pid, page)
    else if cfg.quota <= 1 then SmallQuotaLands(cfg, s, pid, page)
    else pid in s.owner && s.owner[pid] < |s.files| ==> WithinQuota(s, pid, page)
  }

  ghost function Noted(cfg: Config, s: Store, q: Request, answer: bool, b: Ledger): Ledger {
    match q
    case SavePage(p, n, content) =>
      if !answer then b
      else if Lands(cfg, s, p, n) then Ledger(b.held[Row(p, n) := content], b.lost - {Row(p, n)})
      else Ledger(b.held - {Row(p, n)}, b.lost + {Row(p, n)})
    case FinishProcess(p) =>
      Ledger(map row | row in b.held && row.pid != p :: b.held[row], set row | row in b.lost && row.pid != p)
  }

  /** The ledger after the requests so far: accepted saves of processes that have not finished since. */
  ghost function Wanted(cfg: Config, ss: seq<Store>, qs: seq<Request>, answers: seq<bool>, i: nat): Ledger
    requires i <= |qs| && |answers| == |qs| && |ss| == |qs| + 1
  {
    if i == 0 then Ledger(map[], {})
    else Noted(cfg, ss[i - 1], qs[i - 1], answers[i - 1], Wanted(cfg, ss, qs, answers, i - 1))
  }

  function Held(m: map<Row, seq<byte>>, row: Row): Option<seq<byte>> {
    if row in m then Some(m[row]) else None
  }

  ghost predicate Ok(cfg: Config, s: Store) {
    if cfg.mode.Fixed? && cfg.quota >= 2 then FixedOk(cfg, s) else Rowed(cfg, s)
  }

  /** Real processes save whole pages. */
  ghost predicate Proper(cfg: Config, q: Request) {
    match q
    case SavePage(p, n, content) => RealKey(p, n) && |content| == cfg.pageSize
    case FinishProcess(p) => p != MARK
  }

  ghost predicate Answered(cfg: Config, s: Store, q: Request, answer: bool, t: Store) {
    match q
    case SavePage(p, n, content) => (answer, t) == Save(cfg, s, p, n, content)
    case FinishProcess(p) => t == Finish(cfg, s, p)
  }

  ghost predicate Stepped(cfg: Config, s: Store, q: Request, answer: bool, t: Store) {
    Proper(cfg, q) && Answered(cfg, s, q, answer, t)
  }

  /** Any saves and finishes of any processes, one after another, from empty files. */
  ghost predicate Run(cfg: Config, files: nat, ss: seq<Store>, qs: seq<Request>, answers: seq<bool>) {
    && |ss| == |qs| + 1 && |answers| == |qs| && ss[0] == Empty(cfg, files)
    && forall i :: 0 <= i < |qs| ==> Stepped(cfg, ss[i], qs[i], answers[i], ss[i + 1])
  }

  lemma EmptyIsOk(cfg: Config, n: nat)
    ensures Ok(cfg, Empty(cfg, n))
  {
    EmptyIsRowed(cfg, n);
    assert cfg.mode.Fixed? && cfg.quota >= 2 ==> 0 % cfg.quota == 0;
  }

  lemma OkOwners(cfg: Config, s: Store)
    requires Ok(cfg, s)
    ensures OwnersInRange(s)
  {
  }

  // ---- one request -------------------------------------------------------------------------

  /** A save disturbs no other page, and an accepted one that lands is fetched back, under any configuration. */
  lemma SaveThenFetch(cfg: Config, s: Store, pid: int, page: int, content: seq<byte>, p: int, n: int)
    requires Ok(cfg, s) && RealKey(pid, page) && RealKey(p, n) && |content| == cfg.pageSize
    ensures Ok(cfg, Save(cfg, s, pid, page, content).1)
    ensures (p, n) != (pid, page) ==> Fetch(Save(cfg, s, pid, page, content).1, p, n) == Fetch(s, p, n)
    ensures Save(cfg, s, pid, page, content).0 && Lands(cfg, s, pid, page) ==>
      Fetch(Save(cfg, s, pid, page, content).1, pid, page) == Some(content)
    ensures !Save(cfg, s, pid, page, content).0 ==> Save(cfg, s, pid, page, content).1 == s
  {
    hide FixedOk, Rowed, Save, Fetch, Settles, SmallQuotaLands, WithinQuota;
    OkOwners(cfg, s);
    if !Save(cfg, s, pid, page, content).0 {
      RefusedChangesNothing(cfg, s, pid, page, content);
    } else if cfg.mode.Dynamic? {
      DynamicSaveThenFetch(cfg, s, pid, page, content, p, n);
    } else if cfg.quota <= 1 {
      SmallQuotaSaveThenFetch(cfg, s, pid, page, content, p, n);
    } else if pid in s.owner && !WithinQuota(s, pid, page) {
      FixedOverQuota(cfg, s, pid, page, content, p, n);
    } else {
      FixedSaveThenFetch(cfg, s, pid, page, content, p, n);
      FixedSaveThenFetch(cfg, s, pid, page, content, pid, page);
    }
  }

  lemma FinishThenFetch(cfg: Config, s: Store, pid: int, p: int, n: int)
    requires Ok(cfg, s) && pid != MARK && RealKey(p, n)
    ensures Ok(cfg, Finish(cfg, s, pid))
    ensures Fetch(Finish(cfg, s, pid), p, n) == if p == pid then None else Fetch(s, p, n)
  {
    hide FixedOk, Rowed, Finish, Fetch;
    OkOwners(cfg, s);
    if cfg.mode.Fixed? && cfg.quota >= 2 { FixedFinishKeeps(cfg, s, pid); } else { FinishKeepsRowed(cfg, s, pid); }
    if p != pid { FinishIsExact(cfg, s, pid, p, n); } else { FetchAfterFinish(cfg, s, pid, n); }
  }

  lemma FetchAfterFinish(cfg: Config, s: Store, pid: int, page: int)
    requires OwnersInRange(s)
    ensures Fetch(Finish(cfg, s, pid), pid, page) == None
  {
  }

  /** The page is fetched as the ledger has it, unless its last save was lost. */
  ghost predicate FetchedAs(s: Store, b: Ledger, row: Row) {
    row !in b.lost ==> Fetch(s, row.pid, row.page) == Held(b.held, row)
  }

  lemma StepNoted(cfg: Config, s: Store, q: Request, answer: bool, t: Store, b: Ledger, p: int, n: int)
    requires Ok(cfg, s) && Stepped(cfg, s, q, answer, t) && RealKey(p, n) && FetchedAs(s, b, Row(p, n))
    ensures Ok(cfg, t) && FetchedAs(t, Noted(cfg, s, q, answer, b), Row(p, n))
  {
    hide Ok, Save, Finish, Fetch, Lands;
    match q
    case SavePage(pid, page, content) => SaveThenFetch(cfg, s, pid, page, content, p, n);
    case FinishProcess(pid) => FinishThenFetch(cfg, s, pid, p, n);
  }

  // ---- whole runs ---------------------------------------------------------------------------

  lemma {:induction false} RunNoted(
      cfg: Config, files: nat, ss: seq<Store>, qs: seq<Request>, answers: seq<bool>, i: nat, p: int, n: int)
    requires Run(cfg, files, ss, qs, answers) && i <= |qs| && RealKey(p, n)
    ensures Ok(cfg, ss[i]) && FetchedAs(ss[i], Wanted(cfg, ss, qs, answers, i), Row(p, n))
  {
    hide Ok, Stepped, FetchedAs, Noted;
    if i == 0 {
      EmptyIsOk(cfg, files);
      NothingFetched(cfg, files, Row(p, n));
    } else {
      var k := i - 1;
      RunNoted(cfg, files, ss, qs, answers, k, p, n);
      assert Stepped(cfg, ss[k], qs[k], answers[k], ss[k + 1]);
      StepNoted(cfg, ss[k], qs[k], answers[k], ss[i], Wanted(cfg, ss, qs, answers, k), p, n);
    }
  }

  lemma NothingFetched(cfg: Config, files: nat, row: Row)
    ensures FetchedAs(Empty(cfg, files), Ledger(map[], {}), row)
  {
  }

  /**
   In every run, whatever the processes ask for: a page is fetched with exactly the content last saved and
   accepted, and with none if there is none since its process began - unless that save did not land.
   */
  lemma FetchGivesLastSave(
      cfg: Config, files: nat, ss: seq<Store>, qs: seq<Request>, answers: seq<bool>, i: nat, p: int, n: int)
    requires Run(cfg, files, ss, qs, answers) && i <= |qs| && RealKey(p, n)
    requires Row(p, n) !in Wanted(cfg, ss, qs, answers, i).lost
    ensures Fetch(ss[i], p, n) == Held(Wanted(cfg, ss, qs, answers, i).held, Row(p, n))
  {
    hide Run, Fetch, Wanted, Ok;
    RunLength(cfg, files, ss, qs, answers);
    RunNoted(cfg, files, ss, qs, answers, i, p, n);
  }

  lemma RunLength(cfg: Config, files: nat, ss: seq<Store>, qs: seq<Request>, answers: seq<bool>)
    requires Run(cfg, files, ss, qs, answers)
    ensures |ss| == |qs| + 1 && |answers| == |qs|
  {
  }

  /** Under dynamic assignment nothing is lost until a process finishes. */
  lemma {:induction false} NothingLostUntilFinish(
      cfg: Config, files: nat, ss: seq<Store>, qs: seq<Request>, answers: seq<bool>, i: nat)
    requires Run(cfg, files, ss, qs, answers) && i <= |qs| && cfg.mode.Dynamic?
    requires forall j :: 0 <= j < i ==> qs[j].SavePage?
    ensures Wanted(cfg, ss, qs, answers, i).lost == {}
    ensures NoTombstones(ss[i]) && RowsFit(cfg, ss[i])
  {
    hide Save, Settles, Fetch, Rowed;
    if i > 0 {
      var k := i - 1;
      NothingLostUntilFinish(cfg, files, ss, qs, answers, k);
      RunNoted(cfg, files, ss, qs, answers, k, 0, 0);
      assert Stepped(cfg, ss[k], qs[k], answers[k], ss[k + 1]);
      SettlesUntilFinish(cfg, ss[k], qs[k].pid, qs[k].page, qs[k].content);
    }
  }

  /** Under fixed assignment nothing is lost of a process that stays within a quota of two or more. */
  lemma {:induction false} NothingLostWithinQuota(
      cfg: Config, files: nat, ss: seq<Store>, qs: seq<Request>, answers: seq<bool>, i: nat, p: int)
    requires Run(cfg, files, ss, qs, answers) && i <= |qs| && cfg.mode.Fixed? && cfg.quota >= 2
    requires forall j :: 0 <= j < i && qs[j].SavePage? && qs[j].pid == p ==> Lands(cfg, ss[j], p, qs[j].page)
    ensures forall row :: row in Wanted(cfg, ss, qs, answers, i).lost ==> row.pid != p
  {
    hide Lands, Stepped;
    if i > 0 {
      NothingLostWithinQuota(cfg, files, ss, qs, answers, i - 1, p);
    }
  }
}
