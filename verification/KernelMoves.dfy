/** Where each step takes a process, told on the queues and on the records, for every step of every run. */
module KernelMoves {
  import opened Options
  import opened Kernel
  import opened KernelRuns

  /** A step takes at most one process somewhere. */
  datatype Move = Nowhere | Arrives | Goes(p: nat, to: Status) | Leaves(p: nat)

  /** `r` is `q` with one entry of `p` taken out and the rest in its order. */
  ghost predicate Loses(q: seq<nat>, r: seq<nat>, p: nat) {
    exists k :: 0 <= k < |q| && q[k] == p && r == q[..k] + q[k + 1..]
  }

  /** `t` has the processes and queues of `s`, with one process arrived at, gone to the end of or gone from a queue. */
  ghost predicate Moves(s: State, t: State, move: Move) {
    match move
    case Nowhere => SameQueues(s, t)
    case Arrives =>
      && s.nextId !in s.processes && t.processes == s.processes[s.nextId := Process(New, 9999, Nothing, 0)]
      && forall x :: Queue(t, x) == if x == New then Queue(s, New) + [s.nextId] else Queue(s, x)
    case Goes(p, to) =>
      && p in s.processes && s.processes[p].status != to && t.processes.Keys == s.processes.Keys
      && (forall q :: q in s.processes ==> t.processes[q].status == if q == p then to else s.processes[q].status)
      && Queue(t, to) == Queue(s, to) + [p]
      && Loses(Queue(s, s.processes[p].status), Queue(t, s.processes[p].status), p)
      && forall x :: x != to && x != s.processes[p].status ==> Queue(t, x) == Queue(s, x)
    case Leaves(p) =>
      && p in s.processes && t.processes == s.processes - {p}
      && Loses(Queue(s, s.processes[p].status), Queue(t, s.processes[p].status), p)
      && forall x :: x != s.processes[p].status ==> Queue(t, x) == Queue(s, x)
  }

  /** `q` is the waiter a post meets alive: the head, or in a post by a process the next behind a dead head. */
  ghost predicate LetsThrough(s: State, name: string, byProcess: bool, q: nat) {
    && name in s.sems && s.sems[name].value + 1 >= 0 && q in s.processes
    && var w := s.sems[name].queue;
      (w != [] && w[0] == q) || (byProcess && |w| > 1 && w[0] !in s.processes && w[1] == q)
  }

  /** A woken process goes to READY, or to SUSPENDED-READY if it was suspended. */
  function Wakes(s: State, q: nat): Move {
    Goes(q, if q in s.blocked then Ready else SuspendedReady)
  }

  ghost function PostTakes(s: State, name: string, byProcess: bool): Move {
    if exists q :: LetsThrough(s, name, byProcess, q) then
      var q :| LetsThrough(s, name, byProcess, q);
      Wakes(s, q)
    else Nowhere
  }

  /** The process a step takes somewhere, and where. */
  ghost function MoveOf(s: State, step: Step): Move {
    match step
    case Init(accepted) => if accepted then Arrives else Nowhere
    case Admit =>
      if s.suspendedReady != [] then Goes(s.suspendedReady[0], Ready)
      else if s.newcomers != [] then Goes(s.newcomers[0], Ready)
      else Nowhere
    case Dispatch(p) => Goes(p, Exec)
    case Wait(p, name) => if name in s.sems && s.sems[name].value <= 0 then Goes(p, Blocked) else Nowhere
    case Post(_, name) => PostTakes(s, name, true)
    case PostDeadlocked(name) => PostTakes(s, name, false)
    case CallIo(p) => Goes(p, Blocked)
    case IoDone(p) => Wakes(s, p)
    case Suspend =>
      if (s.newcomers != [] || s.suspendedReady != []) && s.ready == [] && s.blocked != []
      then Goes(s.blocked[|s.blocked| - 1], SuspendedBlocked)
      else Nowhere
    case Close(p) => Leaves(p)
    case CloseDeadlocked(p) => Leaves(p)
    case _ => Nowhere
  }

  function CpuAfter(s: State, step: Step, p: nat): nat
    requires p in s.processes
  {
    if step == Dispatch(p) && s.freeCpus != [] then s.freeCpus[0] else s.processes[p].cpu
  }

  /** A process waits from its block on a semaphore or a device until it wakes. */
  ghost function WaitingAfter(s: State, step: Step, p: nat): Waiting
    requires p in s.processes
  {
    match MoveOf(s, step)
    case Goes(q, to) =>
      if q != p then s.processes[p].waiting
      else if to == Ready || to == SuspendedReady then Nothing
      else if step == CallIo(p) then Io
      else if step.Wait? && step.name in s.sems then Semaphore(s.sems[step.name].id)
      else s.processes[p].waiting
    case _ => s.processes[p].waiting
  }

  /** A wait let through at once makes the process hold the semaphore; a post that wakes somebody makes it hold none. */
  ghost function HeldAfter(s: State, step: Step, p: nat): nat
    requires p in s.processes
  {
    match step
    case Wait(q, name) =>
      if q == p && name in s.sems && s.sems[name].value > 0 then s.sems[name].id else s.processes[p].held
    case Post(q, name) => if q == p && MoveOf(s, step).Goes? then 0 else s.processes[p].held
    case _ => s.processes[p].held
  }

  /** The records of the processes that stay alive. */
  ghost predicate Records(s: State, step: Step, t: State) {
    forall p :: p in s.processes && p in t.processes ==>
      && t.processes[p].cpu == CpuAfter(s, step, p)
      && t.processes[p].waiting == WaitingAfter(s, step, p)
      && t.processes[p].held == HeldAfter(s, step, p)
  }

  // ---- proofs ----------------------------------------------------------------------------------------

  lemma {:induction false} LosesOne(q: seq<nat>, p: nat)
    requires p in q
    ensures Loses(q, Without(q, p), p)
  {
    if q[0] == p {
      assert q[0] == p && Without(q, p) == q[..0] + q[0 + 1..];
    } else {
      LosesOne(q[1..], p);
      var k :| 0 <= k < |q[1..]| && q[1..][k] == p && Without(q[1..], p) == q[1..][..k] + q[1..][k + 1..];
      assert q[k + 1] == p && Without(q, p) == q[..k + 1] + q[k + 1 + 1..];
    }
  }

  lemma ShiftedMoves(s: State, t: State, p: nat, st: Status, to: Status, r: Process)
    requires Queued(s) && Shifted(s, t, p, st, to, r)
    ensures Moves(s, t, Goes(p, to))
  {
    hide Queue;
    assert p in Queue(s, st);
    LosesOne(Queue(s, st), p);
  }

  /** What happens to semaphores and records of `u` before the move does not matter. */
  lemma MovesFrom(s: State, u: State, t: State, move: Move)
    requires SameQueues(s, u) && Moves(u, t, move) && move.Goes?
    ensures Moves(s, t, move)
  {
    hide Queue, Loses;
  }

  lemma GoneMoves(s: State, t: State, p: nat, st: Status)
    requires Queued(s) && p in s.processes && s.processes[p].status == st
    requires t.processes == Gone(s, p, st).processes && forall x :: Queue(t, x) == Queue(Gone(s, p, st), x)
    ensures Moves(s, t, Leaves(p))
  {
    hide Queue, Gone;
    GoneQueues(s, p, st);
    assert p in Queue(s, st);
    LosesOne(Queue(s, st), p);
  }

  lemma AdmitMoves(cfg: Settings, s: State)
    requires Inv(cfg, s) && Enabled(s, Admit)
    ensures Moves(s, Admitted(s), MoveOf(s, Admit)) && Records(s, Admit, Admitted(s))
  {
    hide Queue, Inv, Admitted, Without, Shifted, Moves;
    AdmitStarts(cfg, s);
    var st := if s.suspendedReady != [] then SuspendedReady else New;
    QueueNames(s);
    AdmitShifts(cfg, s, st);
    var p := Queue(s, st)[0];
    ShiftedMoves(s, Admitted(s), p, st, Ready, s.processes[p].(status := Ready));
    AdmitRecords(cfg, s, p);
  }

  lemma AdmitShifts(cfg: Settings, s: State, st: Status)
    requires Inv(cfg, s) && Enabled(s, Admit) && st == if s.suspendedReady != [] then SuspendedReady else New
    ensures Queued(s) && Queue(s, st) != []
    ensures var p := Queue(s, st)[0];
      && p in s.processes && s.processes[p].waiting == Nothing
      && Shifted(s, Admitted(s), p, st, Ready, s.processes[p].(status := Ready))
      && Admitted(s).processes == s.processes[p := s.processes[p].(status := Ready)]
  {
    hide Queue, Moved, Queued, SemsAgree, Exclusive;
    AdmittedHead(cfg, s);
    var p, t := Queue(s, st)[0], Admitted(s);
    AwakeStays(s, p);
    OtherTokens(Moved(s, p, st, Ready), t);
    MovedShifts(s, p, st, Ready, t);
  }

  lemma AdmitRecords(cfg: Settings, s: State, p: nat)
    requires Enabled(s, Admit) && MoveOf(s, Admit) == Goes(p, Ready) && p in s.processes
    requires s.processes[p].waiting == Nothing
    requires Admitted(s).processes == s.processes[p := s.processes[p].(status := Ready)]
    ensures Records(s, Admit, Admitted(s))
  {
  }

  lemma DispatchMoves(cfg: Settings, s: State, p: nat)
    requires Inv(cfg, s) && Enabled(s, Dispatch(p))
    ensures var t := Apply(cfg, s, Dispatch(p)); Moves(s, t, MoveOf(s, Dispatch(p))) && Records(s, Dispatch(p), t)
  {
    hide Queue, Queued, SemsAgree, Exclusive, Counted, WaitingAgrees, Dispatched, Moves;
    DispatchStarts(cfg, s, p);
    ReadyIsReady(s, p);
    var i := s.freeCpus[0];
    DispatchShifts(s, p, i, Dispatched(s, p));
    ShiftedMoves(s, Dispatched(s, p), p, Ready, Exec, s.processes[p].(cpu := i, status := Exec));
  }

  /** Everything a block on `w` does to queues and records, from a state `u` with the queues of `s`. */
  lemma BlockMoves(s: State, p: nat, w: Waiting)
    requires Queued(s) && Executing(s, p)
    ensures var t := BlockedOn(s, p, w);
      && Moves(s, t, Goes(p, Blocked))
      && t.processes == s.processes[p := s.processes[p].(waiting := w, status := Blocked)]
  {
    hide Queue, Queued, BlockedOn, Moves;
    BlockShifts(s, p, w);
    ShiftedMoves(s, BlockedOn(s, p, w), p, Exec, Blocked, s.processes[p].(waiting := w, status := Blocked));
  }

  lemma CallIoMoves(cfg: Settings, s: State, p: nat)
    requires Inv(cfg, s) && Executing(s, p)
    ensures var t := BlockedOn(s, p, Io); Moves(s, t, MoveOf(s, CallIo(p))) && Records(s, CallIo(p), t)
  {
    hide Queue, Queued, SemsAgree, Exclusive, Counted, WaitingAgrees, BlockedOn, Moves;
    BlockMoves(s, p, Io);
  }

  lemma WaitMoves(cfg: Settings, s: State, p: nat, name: string)
    requires Inv(cfg, s) && Executing(s, p)
    ensures var t := Waited(s, p, name); Moves(s, t, MoveOf(s, Wait(p, name))) && Records(s, Wait(p, name), t)
  {
    hide Queue, Queued, SemsAgree, Exclusive, Counted, WaitingAgrees, BlockedOn, Moves;
    var t := Waited(s, p, name);
    if name in s.sems && s.sems[name].value <= 0 {
      var sem := s.sems[name];
      var u := s.(sems := s.sems[name := sem.(value := sem.value - 1, queue := sem.queue + [p])]);
      OtherTokens(s, u);
      SameQueued(s, u);
      BlockMoves(u, p, Semaphore(sem.id));
      MovesFrom(s, u, t, Goes(p, Blocked));
    } else {
      OtherTokens(s, t);
      NowhereMoves(s, t);
    }
  }

  lemma NowhereMoves(s: State, t: State)
    requires SameQueues(s, t)
    ensures Moves(s, t, Nowhere)
  {
  }

  /** Everything a wake-up does to queues and records. */
  lemma WakeMoves(s: State, q: nat)
    requires Queued(s) && WaitingAgrees(s) && q in s.processes && s.processes[q].waiting != Nothing
    ensures var t := Woken(s, q);
      && Moves(s, t, Wakes(s, q))
      && t.processes == s.processes[q := t.processes[q]]
      && t.processes[q].cpu == s.processes[q].cpu && t.processes[q].held == s.processes[q].held
      && t.processes[q].waiting == Nothing
  {
    hide Queue, Queued, WaitingAgrees, Woken, Moves;
    AwakeStays(s, q);
    var st := s.processes[q].status;
    WokenShifts(s, q);
    BlockedHere(s, q);
    var to := if st == Blocked then Ready else SuspendedReady;
    ShiftedMoves(s, Woken(s, q), q, st, to, s.processes[q].(waiting := Nothing, status := to));
  }

  lemma BlockedHere(s: State, q: nat)
    requires Queued(s) && q in s.processes
    ensures q in s.blocked <==> s.processes[q].status == Blocked
  {
    assert q in Queue(s, Blocked) <==> q in s.blocked;
  }

  lemma IoDoneMoves(cfg: Settings, s: State, p: nat)
    requires Inv(cfg, s) && Enabled(s, IoDone(p))
    ensures Moves(s, Woken(s, p), MoveOf(s, IoDone(p))) && Records(s, IoDone(p), Woken(s, p))
  {
    hide Queue, Queued, SemsAgree, Exclusive, Counted, WaitingAgrees, Woken, Moves;
    WakeMoves(s, p);
  }

  /** The process a post lets through is the one of the model's function. */
  lemma PostTakesWoken(cfg: Settings, s: State, name: string, byProcess: bool)
    requires Inv(cfg, s) && name in s.sems
    ensures var w := Posted(s.sems[name], s.processes.Keys, byProcess).1;
      PostTakes(s, name, byProcess) == if w.Some? then Wakes(s, w.value) else Nowhere
  {
    hide Inv;
    var w := Posted(s.sems[name], s.processes.Keys, byProcess).1;
    assert w.Some? ==> LetsThrough(s, name, byProcess, w.value);
    forall q: nat | LetsThrough(s, name, byProcess, q) ensures w == Some(q) {}
  }

  lemma PostMoves(cfg: Settings, s: State, p: nat, name: string)
    requires Inv(cfg, s) && Executing(s, p)
    ensures var t := PostedBy(s, p, name); Moves(s, t, MoveOf(s, Post(p, name))) && Records(s, Post(p, name), t)
  {
    hide Queue, Queued, SemsAgree, SemAgrees, Exclusive, Counted, WaitingAgrees, Woken, Moves, Posted, LetsThrough;
    var t := PostedBy(s, p, name);
    if name in s.sems {
      var (sem, woken) := Posted(s.sems[name], s.processes.Keys, true);
      PostTakesWoken(cfg, s, name, true);
      SemHere(s, name);
      PostedAgrees(s, s.sems[name], true);
      if woken.Some? {
        var u := s.(sems := s.sems[name := sem], processes := s.processes[p := s.processes[p].(held := 0)]);
        OtherTokens(s, u);
        SameQueued(s, u);
        HeldWaits(s, u, p);
        WakeMoves(u, woken.value);
        MovesFrom(s, u, t, Wakes(s, woken.value));
      } else {
        OtherTokens(s, t);
        NowhereMoves(s, t);
      }
    } else {
      NobodyLetThrough(s, name, true);
      NowhereMoves(s, t);
    }
  }

  lemma HeldWaits(s: State, u: State, p: nat)
    requires WaitingAgrees(s) && p in s.processes && u.nextId == s.nextId
    requires u.processes == s.processes[p := s.processes[p].(held := 0)]
    ensures WaitingAgrees(u)
  {
  }

  lemma NobodyLetThrough(s: State, name: string, byProcess: bool)
    requires name !in s.sems
    ensures PostTakes(s, name, byProcess) == Nowhere
  {
  }

  lemma PostForDeadMoves(cfg: Settings, s: State, name: string)
    requires Inv(cfg, s) && name in s.sems
    ensures var t := PostedForDead(s, name);
      Moves(s, t, MoveOf(s, PostDeadlocked(name))) && Records(s, PostDeadlocked(name), t)
  {
    hide Queue, Queued, SemsAgree, SemAgrees, Exclusive, Counted, WaitingAgrees, Woken, Moves, Posted, LetsThrough;
    var t := PostedForDead(s, name);
    var (sem, woken) := Posted(s.sems[name], s.processes.Keys, false);
    PostTakesWoken(cfg, s, name, false);
    SemHere(s, name);
    PostedAgrees(s, s.sems[name], false);
    var u := s.(sems := s.sems[name := sem]);
    OtherTokens(s, u);
    SameQueued(s, u);
    if woken.Some? {
      SameWaiting(s, u);
      WakeMoves(u, woken.value);
      MovesFrom(s, u, t, Wakes(s, woken.value));
    } else {
      NowhereMoves(s, t);
    }
  }

  lemma SuspendMoves(cfg: Settings, s: State)
    requires Inv(cfg, s) && Enabled(s, Suspend)
    ensures Moves(s, Suspended(cfg, s), MoveOf(s, Suspend)) && Records(s, Suspend, Suspended(cfg, s))
  {
    hide Queue, Queued, SemsAgree, Exclusive, Counted, WaitingAgrees, Suspended, Moves;
    if MustSuspend(s) {
      SuspendShifts(cfg, s);
      var p := s.blocked[|s.blocked| - 1];
      ShiftedMoves(s, Suspended(cfg, s), p, Blocked, SuspendedBlocked, s.processes[p].(status := SuspendedBlocked));
    } else {
      NothingSuspended(cfg, s);
      OtherTokens(s, Suspended(cfg, s));
      NowhereMoves(s, Suspended(cfg, s));
    }
  }

  lemma CloseMoves(cfg: Settings, s: State, p: nat)
    requires Inv(cfg, s) && Executing(s, p)
    ensures Moves(s, Closed(s, p), Leaves(p)) && Records(s, Close(p), Closed(s, p))
  {
    hide Queue, Queued, SemsAgree, Exclusive, Counted, WaitingAgrees, Gone, Moves;
    var g := Gone(s, p, Exec);
    GoneQueues(s, p, Exec);
    OtherTokens(g, Closed(s, p));
    GoneMoves(s, Closed(s, p), p, Exec);
  }

  lemma CloseDeadlockedMoves(cfg: Settings, s: State, p: nat)
    requires Inv(cfg, s) && Enabled(s, CloseDeadlocked(p))
    ensures Moves(s, ClosedDeadlocked(s, p), Leaves(p)) && Records(s, CloseDeadlocked(p), ClosedDeadlocked(s, p))
  {
    hide Queue, Queued, SemsAgree, Exclusive, Counted, WaitingAgrees, Gone, Moves;
    AwakeStays(s, p);
    var st := s.processes[p].status;
    GoneQueues(s, p, st);
    OtherTokens(Gone(s, p, st), ClosedDeadlocked(s, p));
    GoneMoves(s, ClosedDeadlocked(s, p), p, st);
  }

  lemma InitMoves(cfg: Settings, s: State, accepted: bool)
    requires Inv(cfg, s)
    ensures var t, step := Created(s, accepted), Init(accepted); Moves(s, t, MoveOf(s, step)) && Records(s, step, t)
  {
    hide Queued, SemsAgree, Exclusive, Counted;
    OtherTokens(s, Created(s, false));
  }

  /** The steps of the CPU threads and of semaphores coming and going take nobody anywhere. */
  lemma OthersMove(cfg: Settings, s: State, step: Step)
    requires Enabled(s, step) && (step.TakeCpu? || step.ReleaseCpu? || step.SemInit? || step.SemDestroy?)
    ensures Moves(s, Apply(cfg, s, step), MoveOf(s, step)) && Records(s, step, Apply(cfg, s, step))
  {
    OtherTokens(s, Apply(cfg, s, step));
  }

  /** Every step takes the process the table says where it says, and keeps everybody else's place and record. */
  lemma StepMoves(cfg: Settings, s: State, step: Step)
    requires Inv(cfg, s) && Enabled(s, step)
    ensures Moves(s, Apply(cfg, s, step), MoveOf(s, step)) && Records(s, step, Apply(cfg, s, step))
  {
    hide Inv, Created, Admitted, Dispatched, Taken, Released, Waited, PostedBy, PostedForDead, BlockedOn, Woken,
         Suspended, Closed, ClosedDeadlocked, WithSem, Moves, Records;
    match step
    case Init(accepted) => InitMoves(cfg, s, accepted);
    case Admit => AdmitMoves(cfg, s);
    case Dispatch(p) => DispatchMoves(cfg, s, p);
    case Wait(p, name) => WaitMoves(cfg, s, p, name);
    case Post(p, name) => PostMoves(cfg, s, p, name);
    case CallIo(p) => CallIoMoves(cfg, s, p);
    case IoDone(p) => IoDoneMoves(cfg, s, p);
    case Suspend => SuspendMoves(cfg, s);
    case Close(p) => CloseMoves(cfg, s, p);
    case CloseDeadlocked(p) => CloseDeadlockedMoves(cfg, s, p);
    case PostDeadlocked(name) => PostForDeadMoves(cfg, s, name);
    case _ => OthersMove(cfg, s, step);
  }

  // ---- the CPUs and the token of the suspender -----------------------------------------------------------

  /** The step gives CPU `j` back: a block, a close or, with the post of the suspender, a suspension. */
  ghost predicate GivesBack(cfg: Settings, s: State, step: Step, j: nat) {
    match MoveOf(s, step)
    case Goes(p, to) =>
      && p in s.processes && s.processes[p].cpu == j && (to == Blocked || (to == SuspendedBlocked && cfg.repost))
    case Leaves(p) => step.Close? && p in s.processes && s.processes[p].cpu == j
    case _ => false
  }

  function One(b: bool): nat {
    if b then 1 else 0
  }

  /**
   A dispatch uses the first free CPU and, without a free slot, posts the suspender's token; the CPU's thread
   takes it and, once it is given back, frees it behind the others. Every mate_init uses up an id.
   */
  ghost predicate Hands(cfg: Settings, s: State, step: Step, t: State) {
    && |t.cpus| == |s.cpus|
    && (forall j :: 0 <= j < |s.cpus| ==>
          && t.cpus[j].use == s.cpus[j].use + One(step.Dispatch? && s.freeCpus != [] && s.freeCpus[0] == j)
                              - One(step == TakeCpu(j))
          && t.cpus[j].free == s.cpus[j].free + One(step == ReleaseCpu(j)) - One(step == TakeCpu(j))
          && t.cpus[j].release == s.cpus[j].release + One(GivesBack(cfg, s, step, j)) - One(step == ReleaseCpu(j))
          && t.cpus[j].held == (step == TakeCpu(j) || (s.cpus[j].held && step != ReleaseCpu(j))))
    && t.freeCpus == (if step.Dispatch? && s.freeCpus != [] then s.freeCpus[1..]
                      else if step.ReleaseCpu? then s.freeCpus + [step.i] else s.freeCpus)
    && t.full == s.full + One(step.Dispatch? && s.slots == 0) - One(step.Suspend?)
    && t.nextId == s.nextId + One(step.Init?)
  }

  lemma WokenHands(s: State, p: nat)
    requires p in s.processes
    ensures var t := Woken(s, p);
      t.cpus == s.cpus && t.freeCpus == s.freeCpus && t.full == s.full && t.nextId == s.nextId
  {
    if s.processes[p].status == Blocked { WokenBlockedIs(s, p); } else { WokenSuspendedIs(s, p); }
  }

  lemma BlockedOnHands(s: State, p: nat, w: Waiting)
    requires p in s.processes
    ensures var t, i := BlockedOn(s, p, w), s.processes[p].cpu;
      && t.freeCpus == s.freeCpus && t.full == s.full && t.nextId == s.nextId
      && t.cpus == if i < |s.cpus| then s.cpus[i := s.cpus[i].(release := s.cpus[i].release + 1)] else s.cpus
  {
    hide BlockedOn;
    BlockedOnIs(s, p, w);
  }

  lemma PostHands(cfg: Settings, s: State, step: Step)
    requires Enabled(s, step) && (step.Post? || step.PostDeadlocked?)
    ensures var t := Apply(cfg, s, step);
      t.cpus == s.cpus && t.freeCpus == s.freeCpus && t.full == s.full && t.nextId == s.nextId
  {
    hide Posted, Woken;
    if step.name in s.sems {
      var (sem, woken) := Posted(s.sems[step.name], s.processes.Keys, step.Post?);
      if woken.Some? && woken.value in s.processes {
        var m := s.(sems := s.sems[step.name := sem]);
        WokenHands(m, woken.value);
        if step.Post? {
          WokenHands(m.(processes := s.processes[step.p := s.processes[step.p].(held := 0)]), woken.value);
        }
      }
    }
  }

  lemma WaitHands(cfg: Settings, s: State, p: nat, name: string)
    requires Executing(s, p)
    ensures Hands(cfg, s, Wait(p, name), Waited(s, p, name))
  {
    hide BlockedOn;
    if name in s.sems && s.sems[name].value <= 0 {
      var was := s.sems[name];
      BlockedOnHands(s.(sems := s.sems[name := was.(value := was.value - 1, queue := was.queue + [p])]), p,
                     Semaphore(was.id));
    }
  }

  lemma SuspendHands(cfg: Settings, s: State)
    requires Inv(cfg, s) && s.full > 0
    ensures Hands(cfg, s, Suspend, Suspended(cfg, s))
  {
    hide Inv, Suspended;
    SuspendStarts(cfg, s);
    if MustSuspend(s) {
      var p := s.blocked[|s.blocked| - 1];
      SuspendedIs(cfg, s, p, s.processes[p].cpu);
    } else {
      NothingSuspended(cfg, s);
    }
  }

  lemma AdmitHands(cfg: Settings, s: State)
    requires Inv(cfg, s) && Enabled(s, Admit)
    ensures Hands(cfg, s, Admit, Admitted(s))
  {
    hide Inv, Admitted;
    AdmitStarts(cfg, s);
    if s.suspendedReady != [] {
      AdmittedSuspendedIs(s, s.suspendedReady[0]);
    } else {
      AdmittedNewIs(s, s.newcomers[0]);
    }
  }

  lemma CloseDeadlockedHands(s: State, p: nat)
    requires p in s.processes
    ensures var t := ClosedDeadlocked(s, p);
      t.cpus == s.cpus && t.freeCpus == s.freeCpus && t.full == s.full && t.nextId == s.nextId
  {
    hide ClosedDeadlocked, Without;
    if s.processes[p].status == Blocked { ClosedBlockedIs(s, p); } else { ClosedSuspendedIs(s, p); }
  }

  /** Steps that touch neither a CPU nor the free list. */
  lemma SameHands(cfg: Settings, s: State, step: Step, t: State)
    requires t.cpus == s.cpus && t.freeCpus == s.freeCpus && t.full == s.full
    requires t.nextId == s.nextId + One(step.Init?)
    requires step.Init? || step.Post? || step.PostDeadlocked? || step.IoDone? || step.CloseDeadlocked?
             || step.SemInit? || step.SemDestroy?
    ensures Hands(cfg, s, step, t)
  {
    forall j ensures !GivesBack(cfg, s, step, j) {}
  }

  lemma DispatchHands(cfg: Settings, s: State, p: nat)
    requires Inv(cfg, s) && Enabled(s, Dispatch(p))
    ensures Hands(cfg, s, Dispatch(p), Apply(cfg, s, Dispatch(p)))
  {
    hide Inv, Dispatched, Without;
    DispatchStarts(cfg, s, p);
    DispatchedIs(s, p);
  }

  lemma CallIoHands(cfg: Settings, s: State, p: nat)
    requires Executing(s, p)
    ensures Hands(cfg, s, CallIo(p), BlockedOn(s, p, Io))
  {
    hide BlockedOn;
    BlockedOnHands(s, p, Io);
  }

  lemma CloseHands(cfg: Settings, s: State, p: nat)
    requires Executing(s, p)
    ensures Hands(cfg, s, Close(p), Closed(s, p))
  {
    hide Closed, Without;
    ClosedIs(s, p);
  }

  lemma ThreadHands(cfg: Settings, s: State, step: Step)
    requires Enabled(s, step) && (step.TakeCpu? || step.ReleaseCpu?)
    ensures Hands(cfg, s, step, Apply(cfg, s, step))
  {
  }

  /** What every step does to the CPUs, the list of free ones and the suspender's token. */
  lemma StepHands(cfg: Settings, s: State, step: Step)
    requires Inv(cfg, s) && Enabled(s, step)
    ensures Hands(cfg, s, step, Apply(cfg, s, step))
  {
    hide Inv, Admitted, Dispatched, Taken, Released, Waited, PostedBy, PostedForDead, BlockedOn, Woken, Suspended,
         Closed, ClosedDeadlocked, Hands, MoveOf;
    match step
    case Admit => AdmitHands(cfg, s);
    case Dispatch(p) => DispatchHands(cfg, s, p);
    case TakeCpu(i) => ThreadHands(cfg, s, step);
    case ReleaseCpu(i) => ThreadHands(cfg, s, step);
    case Wait(p, name) => WaitHands(cfg, s, p, name);
    case CallIo(p) => CallIoHands(cfg, s, p);
    case Suspend => SuspendHands(cfg, s);
    case Close(p) => CloseHands(cfg, s, p);
    case _ =>
      match step {
        case Post(_, _) => PostHands(cfg, s, step);
        case PostDeadlocked(_) => PostHands(cfg, s, step);
        case IoDone(p) => WokenHands(s, p);
        case CloseDeadlocked(p) => CloseDeadlockedHands(s, p);
        case _ =>
      }
      SameHands(cfg, s, step, Apply(cfg, s, step));
  }
}
