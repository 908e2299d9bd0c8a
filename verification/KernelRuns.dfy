/** What every run of the kernel keeps. */
module KernelRuns {
  import opened Options
  import opened Kernel

  // ---- queues ------------------------------------------------------------------------------------

  /** Each live process is in exactly one queue, once: the one of its status. */
  ghost predicate Queued(s: State) {
    && (forall st :: Distinct(Queue(s, st)))
    && (forall p, st :: p in Queue(s, st) <==> p in s.processes && s.processes[p].status == st)
  }

  ghost predicate SameQueues(s: State, t: State) {
    && (forall st :: Queue(t, st) == Queue(s, st))
    && t.processes.Keys == s.processes.Keys
    && forall p :: p in s.processes ==> t.processes[p].status == s.processes[p].status
  }

  lemma SameQueued(s: State, t: State)
    requires Queued(s) && SameQueues(s, t)
    ensures Queued(t)
  {
  }

  lemma AppendDistinct(q: seq<nat>, p: nat)
    requires Distinct(q) && p !in q
    ensures Distinct(q + [p])
  {
  }

  lemma StatusQueues(s: State, p: nat, st: Status)
    requires p in s.processes
    ensures forall x :: Queue(SetStatus(s, p, st), x) == Queue(s, x)
  {
  }

  lemma MovedQueues(s: State, p: nat, st: Status, to: Status)
    requires p in s.processes && st != to
    ensures forall x :: Queue(Moved(s, p, st, to), x) ==
                        if x == st then Without(Queue(s, st), p) else if x == to then Queue(s, to) + [p]
                        else Queue(s, x)
  {
    hide Queue, SetQueue;
    StatusQueues(SetQueue(SetQueue(s, to, Queue(s, to) + [p]), st, Without(Queue(s, st), p)), p, to);
  }

  lemma MovedProcesses(s: State, p: nat, st: Status, to: Status)
    requires p in s.processes
    ensures Moved(s, p, st, to).processes == s.processes[p := s.processes[p].(status := to)]
  {
  }

  lemma GoneQueues(s: State, p: nat, st: Status)
    ensures forall x :: Queue(Gone(s, p, st), x) == if x == st then Without(Queue(s, st), p) else Queue(s, x)
    ensures Gone(s, p, st).processes == s.processes - {p}
  {
    var a := SetQueue(s, st, Without(Queue(s, st), p));
    assert forall x :: Queue(Gone(s, p, st), x) == Queue(a, x);
  }

  lemma GoneQueued(s: State, p: nat, st: Status)
    requires Queued(s) && p in s.processes && s.processes[p].status == st
    ensures Queued(Gone(s, p, st))
    ensures |Queue(s, st)| > 0 && |Queue(Gone(s, p, st), st)| == |Queue(s, st)| - 1
    ensures forall x :: x != st ==> Queue(Gone(s, p, st), x) == Queue(s, x)
  {
    hide Gone, Queue;
    GoneQueues(s, p, st);
    assert p in Queue(s, st);
    WithoutDistinct(Queue(s, st), p);
  }

  // ---- tokens and slots ---------------------------------------------------------------------------

  /** The planners' tokens count their queues; slots are free or held by a process in memory. */
  ghost predicate Counted(cfg: Settings, s: State) {
    && s.arrivals == |s.newcomers| + |s.suspendedReady|
    && s.readyTokens == |s.ready|
    && s.slots + |s.ready| + |s.running| + |s.blocked| == cfg.slots + s.overReturned
    && s.cpuTokens == |s.freeCpus| && |s.cpus| == cfg.cpus
    && forall i :: i in s.freeCpus ==> i < |s.cpus|
  }

  // ---- waiting ---------------------------------------------------------------------------------------

  ghost predicate WaitingAgrees(s: State) {
    && s.nextId >= 1 && (forall p :: p in s.processes ==> 1 <= p < s.nextId)
    && forall p :: p in s.processes ==>
      (s.processes[p].waiting != Nothing <==> s.processes[p].status in {Blocked, SuspendedBlocked})
  }

  /**
   A semaphore never owes more waiters than it has queued, and never let through more waits
   than its initial value and the posts allow; its live waiters are blocked on it.
   */
  ghost predicate SemAgrees(s: State, sem: Sem) {
    && sem.value + |sem.queue| >= 0 && sem.passed + sem.value + |sem.queue| <= sem.initial + sem.posts
    && sem.id < s.nextSem && Distinct(sem.queue)
    && forall q :: q in sem.queue ==> q < s.nextId && (q in s.processes ==> s.processes[q].waiting == Semaphore(sem.id))
  }

  ghost predicate SemsAgree(s: State) {
    && (forall n :: n in s.sems ==> SemAgrees(s, s.sems[n]))
    && forall m, n :: m in s.sems && n in s.sems && s.sems[m].id == s.sems[n].id ==> m == n
  }

  // ---- CPUs -----------------------------------------------------------------------------------------

  ghost predicate RunsOn(s: State, p: nat, i: nat) {
    p in s.running && p in s.processes && s.processes[p].cpu == i
  }

  /** A CPU is free, or held by one executing process, or being released. */
  ghost predicate CpuAgrees(s: State, i: nat)
    requires i < |s.cpus|
  {
    var c := s.cpus[i];
    && c.free == (if c.held then 0 else 1)
    && (if i in s.freeCpus then c.use == 0 && c.release == 0 && !c.held && forall p :: !RunsOn(s, p, i)
        else
          && c.use + (if c.held then 1 else 0) == 1 && c.release <= 1
          && (c.release == 0 <==> exists p :: RunsOn(s, p, i)))
  }

  ghost predicate Exclusive(s: State) {
    && Distinct(s.freeCpus)
    && (forall i :: 0 <= i < |s.cpus| ==> CpuAgrees(s, i))
    && (forall p :: p in s.running && p in s.processes ==> s.processes[p].cpu < |s.cpus|)
    && forall p, q, i :: RunsOn(s, p, i) && RunsOn(s, q, i) ==> p == q
  }

  ghost predicate Inv(cfg: Settings, s: State) {
    && Queued(s) && Counted(cfg, s) && WaitingAgrees(s) && SemsAgree(s)
    && (s.extraPosts == 0 ==> Exclusive(s)) && (!cfg.repost ==> s.extraPosts == 0)
  }

  lemma InitialKeeps(cfg: Settings)
    ensures Inv(cfg, Initial(cfg))
  {
    var s := Initial(cfg);
    forall i | 0 <= i < |s.cpus| ensures CpuAgrees(s, i) {
      assert s.freeCpus[i] == i;
    }
  }

  // ---- frames --------------------------------------------------------------------------------------------

  /** The executing processes, their CPUs and the CPUs are as before. */
  lemma SameExclusive(s: State, t: State)
    requires Exclusive(s) && t.cpus == s.cpus && t.freeCpus == s.freeCpus
    requires forall p, i :: RunsOn(t, p, i) <==> RunsOn(s, p, i)
    ensures Exclusive(t)
  {
    forall i | 0 <= i < |t.cpus| ensures CpuAgrees(t, i) {
      assert CpuAgrees(s, i);
    }
    forall p | p in t.running && p in t.processes ensures t.processes[p].cpu < |t.cpus| {
      assert RunsOn(t, p, t.processes[p].cpu);
    }
  }

  /** Semaphores untouched, and nobody waiting on one has changed. */
  lemma SameSems(s: State, t: State)
    requires SemsAgree(s) && t.sems == s.sems && t.nextSem == s.nextSem && t.nextId >= s.nextId
    requires forall p :: p in t.processes && p < s.nextId ==>
      p in s.processes && (s.processes[p].waiting.Semaphore? ==> t.processes[p].waiting == s.processes[p].waiting)
    ensures SemsAgree(t)
  {
    forall n | n in t.sems ensures SemAgrees(t, t.sems[n]) {
      assert SemAgrees(s, s.sems[n]);
    }
  }

  /** Tokens are not part of any queue. */
  lemma OtherTokens(s: State, t: State)
    requires t.newcomers == s.newcomers && t.ready == s.ready && t.running == s.running && t.blocked == s.blocked
    requires t.suspendedBlocked == s.suspendedBlocked && t.suspendedReady == s.suspendedReady
    ensures forall x :: Queue(t, x) == Queue(s, x)
  {
  }

  /** What belongs to neither a queue nor a process. */
  ghost predicate SameRest(s: State, t: State) {
    && t.nextId == s.nextId && t.arrivals == s.arrivals && t.readyTokens == s.readyTokens && t.slots == s.slots
    && t.cpuTokens == s.cpuTokens && t.cpus == s.cpus && t.freeCpus == s.freeCpus
    && t.sems == s.sems && t.nextSem == s.nextSem && t.extraPosts == s.extraPosts && t.overReturned == s.overReturned
  }

  lemma SetQueueRest(s: State, st: Status, q: seq<nat>)
    ensures SameRest(s, SetQueue(s, st, q))
  {
    match st
    case New =>
    case Ready =>
    case Exec =>
    case Blocked =>
    case SuspendedBlocked =>
    case SuspendedReady =>
  }

  lemma MovedRest(s: State, p: nat, st: Status, to: Status)
    requires p in s.processes
    ensures SameRest(s, Moved(s, p, st, to))
  {
    hide SetQueue, Queue;
    var a := SetQueue(s, to, Queue(s, to) + [p]);
    SetQueueRest(s, to, Queue(s, to) + [p]);
    SetQueueRest(a, st, Without(Queue(s, st), p));
  }

  lemma GoneRest(s: State, p: nat, st: Status)
    ensures SameRest(s, Gone(s, p, st))
  {
    hide SetQueue, Queue;
    SetQueueRest(s, st, Without(Queue(s, st), p));
  }

  /** The six queues, by name. */
  lemma QueueNames(s: State)
    ensures Queue(s, New) == s.newcomers && Queue(s, Ready) == s.ready && Queue(s, Exec) == s.running
    ensures Queue(s, Blocked) == s.blocked && Queue(s, SuspendedBlocked) == s.suspendedBlocked
    ensures Queue(s, SuspendedReady) == s.suspendedReady
  {
  }

  // ---- one step after another -------------------------------------------------------------------------------

  /** `t` has `p` moved from one queue to another, with the record `r`. */
  ghost predicate Shifted(s: State, t: State, p: nat, st: Status, to: Status, r: Process) {
    && p in s.processes && s.processes[p].status == st && st != to && r.status == to
    && t.processes == s.processes[p := r]
    && forall x :: Queue(t, x) ==
         if x == st then Without(Queue(s, st), p) else if x == to then Queue(s, to) + [p] else Queue(s, x)
  }

  lemma ShiftedQueued(s: State, t: State, p: nat, st: Status, to: Status, r: Process)
    requires Queued(s) && Shifted(s, t, p, st, to, r)
    ensures Queued(t) && p in Queue(s, st)
    ensures |Queue(t, st)| == |Queue(s, st)| - 1 && |Queue(t, to)| == |Queue(s, to)| + 1
    ensures forall x :: x != st && x != to ==> |Queue(t, x)| == |Queue(s, x)|
  {
    hide Queue;
    assert p in Queue(s, st) && p !in Queue(s, to);
    WithoutDistinct(Queue(s, st), p);
    AppendDistinct(Queue(s, to), p);
  }

  /** A process that neither starts nor stops executing leaves the CPUs as they are. */
  lemma ShiftedExclusive(s: State, t: State, p: nat, st: Status, to: Status, r: Process)
    requires Queued(s) && Exclusive(s) && Shifted(s, t, p, st, to, r) && st != Exec && to != Exec
    requires t.cpus == s.cpus && t.freeCpus == s.freeCpus
    ensures Exclusive(t)
  {
    hide Exclusive;
    QueueNames(s);
    QueueNames(t);
    assert p !in Queue(s, Exec);
    SameExclusive(s, t);
  }

  /** ... and, if it wakes, is no longer anybody's waiter. */
  lemma ShiftedWaiting(s: State, t: State, p: nat, st: Status, to: Status, r: Process)
    requires WaitingAgrees(s) && Shifted(s, t, p, st, to, r) && t.nextId == s.nextId
    requires r.waiting != Nothing <==> to in {Blocked, SuspendedBlocked}
    ensures WaitingAgrees(t)
  {
  }

  lemma MovedShifts(s: State, p: nat, st: Status, to: Status, t: State)
    requires p in s.processes && s.processes[p].status == st && st != to
    requires t.processes == Moved(s, p, st, to).processes && forall x :: Queue(t, x) == Queue(Moved(s, p, st, to), x)
    ensures Shifted(s, t, p, st, to, s.processes[p].(status := to))
  {
    hide Queue, Moved;
    MovedQueues(s, p, st, to);
    MovedProcesses(s, p, st, to);
  }

  lemma CreatedQueued(s: State)
    requires Queued(s) && WaitingAgrees(s)
    ensures Queued(Created(s, true)) && s.nextId !in s.processes
  {
    var t, p := Created(s, true), s.nextId;
    QueueNames(s);
    assert p !in s.processes;
    assert p in Queue(s, New) <==> false;
    AppendDistinct(s.newcomers, p);
    forall q, st ensures q in Queue(t, st) <==> q in t.processes && t.processes[q].status == st {
      assert q in Queue(s, st) <==> q in s.processes && s.processes[q].status == st;
    }
    assert forall st :: st != New ==> Queue(t, st) == Queue(s, st);
  }

  lemma CreatedKeeps(cfg: Settings, s: State, accepted: bool)
    requires Inv(cfg, s)
    ensures Inv(cfg, Created(s, accepted))
  {
    hide SemsAgree, Exclusive, Queued;
    var t := Created(s, accepted);
    SameSems(s, t);
    CreatedQueued(s);
    NotRunning(s, s.nextId);
    if s.extraPosts == 0 { SameExclusive(s, t); }
    if !accepted {
      OtherTokens(s, t);
      SameQueued(s, t);
    }
  }

  lemma NotRunning(s: State, p: nat)
    requires Queued(s) && (p in s.processes ==> s.processes[p].status != Exec)
    ensures p !in s.running
  {
    assert p in Queue(s, Exec) <==> p in s.running;
  }

  lemma AdmittedHead(cfg: Settings, s: State)
    requires Queued(s) && Counted(cfg, s) && s.arrivals > 0
    ensures var st := if s.suspendedReady != [] then SuspendedReady else New;
      Queue(s, st) != [] && Queue(s, st)[0] in s.processes && s.processes[Queue(s, st)[0]].status == st
  {
    var st := if s.suspendedReady != [] then SuspendedReady else New;
    assert Queue(s, st)[0] in Queue(s, st);
  }

  lemma AdmittedKeeps(cfg: Settings, s: State)
    requires Inv(cfg, s) && s.arrivals > 0 && s.slots > 0
    ensures Inv(cfg, Admitted(s))
  {
    hide Moved, Queue, SemsAgree, Exclusive, Queued, WaitingAgrees, Shifted;
    var t, st := Admitted(s), if s.suspendedReady != [] then SuspendedReady else New;
    AdmittedHead(cfg, s);
    var p := Queue(s, st)[0];
    var m := Moved(s, p, st, Ready);
    MovedRest(s, p, st, Ready);
    OtherTokens(m, t);
    MovedShifts(s, p, st, Ready, t);
    var r := s.processes[p].(status := Ready);
    ShiftedQueued(s, t, p, st, Ready, r);
    AwakeStays(s, p);
    ShiftedWaiting(s, t, p, st, Ready, r);
    ShiftedSems(s, t, p, st, Ready, r);
    if s.extraPosts == 0 { ShiftedExclusive(s, t, p, st, Ready, r); }
    QueueNames(s);
    QueueNames(t);
  }

  /** A process that is not blocked waits for nothing. */
  lemma AwakeStays(s: State, p: nat)
    requires WaitingAgrees(s) && p in s.processes
    ensures s.processes[p].waiting == Nothing <==> s.processes[p].status !in {Blocked, SuspendedBlocked}
  {
  }

  lemma ShiftedSems(s: State, t: State, p: nat, st: Status, to: Status, r: Process)
    requires SemsAgree(s) && Shifted(s, t, p, st, to, r) && t.sems == s.sems && t.nextSem == s.nextSem
    requires t.nextId >= s.nextId
    requires s.processes[p].waiting.Semaphore? ==> r.waiting == s.processes[p].waiting
    ensures SemsAgree(t)
  {
    hide SemsAgree, Queue;
    SameSems(s, t);
  }

  lemma TakenKeeps(cfg: Settings, s: State, i: nat)
    requires Inv(cfg, s) && i < |s.cpus| && !s.cpus[i].held && s.cpus[i].use > 0 && s.cpus[i].free > 0
    ensures Inv(cfg, Taken(s, i))
  {
    hide SemsAgree;
    var t := Taken(s, i);
    OtherTokens(s, t);
    SameQueued(s, t);
    SameSems(s, t);
    if s.extraPosts == 0 {
      forall j | 0 <= j < |t.cpus| ensures CpuAgrees(t, j) {
        assert CpuAgrees(s, j);
        assert forall p :: RunsOn(t, p, j) <==> RunsOn(s, p, j);
      }
      assert forall p, j :: RunsOn(t, p, j) <==> RunsOn(s, p, j);
    }
  }

  lemma ReleasedKeeps(cfg: Settings, s: State, i: nat)
    requires Inv(cfg, s) && i < |s.cpus| && s.cpus[i].held && s.cpus[i].release > 0
    ensures Inv(cfg, Released(s, i))
  {
    hide SemsAgree;
    var t := Released(s, i);
    OtherTokens(s, t);
    SameQueued(s, t);
    SameSems(s, t);
    if s.extraPosts == 0 {
      assert CpuAgrees(s, i) && i !in s.freeCpus;
      AppendDistinct(s.freeCpus, i);
      assert forall p, j :: RunsOn(t, p, j) <==> RunsOn(s, p, j);
      forall j | 0 <= j < |t.cpus| ensures CpuAgrees(t, j) {
        assert CpuAgrees(s, j);
      }
    }
  }

  // ---- CPUs handed out and given back -------------------------------------------------------------------

  /** The first free CPU handed to `p`. */
  lemma HandedOut(s: State, t: State, p: nat, i: nat)
    requires Exclusive(s) && s.freeCpus != [] && i == s.freeCpus[0] && i < |s.cpus| && p !in s.running
    requires t.cpus == s.cpus[i := s.cpus[i].(use := s.cpus[i].use + 1)] && t.freeCpus == s.freeCpus[1..]
    requires forall q, j :: RunsOn(t, q, j) <==> RunsOn(s, q, j) || (q == p && j == i)
    ensures Exclusive(t)
  {
    assert i in s.freeCpus && CpuAgrees(s, i);
    forall q | q in t.running && q in t.processes ensures t.processes[q].cpu < |t.cpus| {
      assert RunsOn(t, q, t.processes[q].cpu);
    }
    forall j | 0 <= j < |t.cpus| ensures CpuAgrees(t, j) {
      assert CpuAgrees(s, j);
      assert j in t.freeCpus <==> j in s.freeCpus && j != i;
      if j == i { assert RunsOn(t, p, i); }
    }
    assert forall q :: !RunsOn(s, q, i);
  }

  /** `p` stops executing and its CPU is told to be released. */
  lemma GivenBack(s: State, t: State, p: nat, i: nat)
    requires Exclusive(s) && RunsOn(s, p, i)
    requires i < |s.cpus| ==> t.cpus == s.cpus[i := s.cpus[i].(release := s.cpus[i].release + 1)]
    requires t.freeCpus == s.freeCpus && forall q, j :: RunsOn(t, q, j) <==> RunsOn(s, q, j) && q != p
    ensures i < |s.cpus| && Exclusive(t)
  {
    assert CpuAgrees(s, i);
    forall j | 0 <= j < |t.cpus| ensures CpuAgrees(t, j) {
      assert CpuAgrees(s, j);
      if j != i && s.cpus[j].release == 0 && j !in s.freeCpus {
        var q :| RunsOn(s, q, j);
        assert RunsOn(t, q, j);
      }
    }
    forall q | q in t.running && q in t.processes ensures t.processes[q].cpu < |t.cpus| {
      assert RunsOn(t, q, t.processes[q].cpu);
    }
  }

  lemma DispatchedKeeps(cfg: Settings, s: State, p: nat)
    requires Inv(cfg, s) && s.readyTokens > 0 && s.cpuTokens > 0 && p in s.ready
    ensures p in s.processes && s.freeCpus != [] && Inv(cfg, Dispatched(s, p))
  {
    hide Moved, Queue, SemsAgree, Exclusive, Queued, WaitingAgrees, Shifted, Dispatched;
    ReadyIsReady(s, p);
    var i := s.freeCpus[0];
    assert i in s.freeCpus;
    var t := Dispatched(s, p);
    DispatchShifts(s, p, i, t);
    var r := s.processes[p].(cpu := i, status := Exec);
    ShiftedQueued(s, t, p, Ready, Exec, r);
    AwakeStays(s, p);
    ShiftedWaiting(s, t, p, Ready, Exec, r);
    ShiftedSems(s, t, p, Ready, Exec, r);
    forall j | j in t.freeCpus ensures j < |t.cpus| {
      assert j in s.freeCpus;
    }
    if s.extraPosts == 0 {
      DispatchRuns(s, t, p, i);
      HandedOut(s, t, p, i);
    }
    QueueNames(s);
    QueueNames(t);
  }

  lemma ReadyIsReady(s: State, p: nat)
    requires Queued(s) && p in s.ready
    ensures p in s.processes && s.processes[p].status == Ready && p !in s.running
  {
    assert p in Queue(s, Ready);
    NotRunning(s, p);
  }

  lemma DispatchShifts(s: State, p: nat, i: nat, t: State)
    requires p in s.processes && s.processes[p].status == Ready && s.readyTokens > 0 && s.cpuTokens > 0
    requires s.freeCpus != []
    requires i == s.freeCpus[0] && i < |s.cpus| && t == Dispatched(s, p)
    ensures Shifted(s, t, p, Ready, Exec, s.processes[p].(cpu := i, status := Exec))
    ensures t.cpus == s.cpus[i := s.cpus[i].(use := s.cpus[i].use + 1)] && t.freeCpus == s.freeCpus[1..]
    ensures t.cpuTokens == s.cpuTokens - 1 && t.readyTokens == s.readyTokens - 1 && t.slots == s.slots
    ensures t.arrivals == s.arrivals
    ensures t.sems == s.sems && t.nextSem == s.nextSem && t.nextId == s.nextId && t.extraPosts == s.extraPosts
    ensures t.overReturned == s.overReturned
  {
    hide Moved, Queue;
    var m := s.(readyTokens := s.readyTokens - 1, cpuTokens := s.cpuTokens - 1, freeCpus := s.freeCpus[1..],
                processes := s.processes[p := s.processes[p].(cpu := i)],
                full := if s.slots == 0 then s.full + 1 else s.full);
    var u := SetCpu(m, i, s.cpus[i].(use := s.cpus[i].use + 1));
    OtherTokens(s, u);
    MovedRest(u, p, Ready, Exec);
    MovedQueues(u, p, Ready, Exec);
    MovedProcesses(u, p, Ready, Exec);
  }

  lemma DispatchRuns(s: State, t: State, p: nat, i: nat)
    requires Queued(s) && p in s.processes && p !in s.running
    requires Shifted(s, t, p, Ready, Exec, s.processes[p].(cpu := i, status := Exec))
    ensures forall q, j :: RunsOn(t, q, j) <==> RunsOn(s, q, j) || (q == p && j == i)
  {
    QueueNames(s);
    QueueNames(t);
    assert Queue(t, Exec) == Queue(s, Exec) + [p];
  }

  // ---- blocking ---------------------------------------------------------------------------------------------

  lemma BlockShifts(s: State, p: nat, w: Waiting)
    requires p in s.processes && s.processes[p].status == Exec
    ensures var t, i := BlockedOn(s, p, w), s.processes[p].cpu;
      && Shifted(s, t, p, Exec, Blocked, s.processes[p].(waiting := w, status := Blocked))
      && (if i < |s.cpus| then t.cpus == s.cpus[i := s.cpus[i].(release := s.cpus[i].release + 1)]
          else t.cpus == s.cpus)
      && SameRest(s.(cpus := t.cpus), t)
  {
    hide Moved, Queue;
    var m := s.(processes := s.processes[p := s.processes[p].(waiting := w)]);
    var u := Moved(m, p, Exec, Blocked);
    OtherTokens(s, m);
    MovedRest(m, p, Exec, Blocked);
    MovedQueues(m, p, Exec, Blocked);
    MovedProcesses(m, p, Exec, Blocked);
    OtherTokens(u, PostRelease(u, s.processes[p].cpu));
  }

  lemma StopRuns(s: State, t: State, p: nat, r: Process)
    requires Queued(s) && Shifted(s, t, p, Exec, Blocked, r)
    ensures RunsOn(s, p, s.processes[p].cpu)
    ensures forall q, j :: RunsOn(t, q, j) <==> RunsOn(s, q, j) && q != p
  {
    QueueNames(s);
    QueueNames(t);
    assert p in Queue(s, Exec);
    WithoutDistinct(Queue(s, Exec), p);
  }

  /** Everything but the semaphores, when a process blocks. */
  lemma BlockedKeeps(cfg: Settings, s: State, p: nat, w: Waiting)
    requires Queued(s) && Counted(cfg, s) && WaitingAgrees(s) && (s.extraPosts == 0 ==> Exclusive(s))
    requires Executing(s, p) && w != Nothing
    ensures var t := BlockedOn(s, p, w);
      && Queued(t) && Counted(cfg, t) && WaitingAgrees(t) && (t.extraPosts == 0 ==> Exclusive(t))
      && t.extraPosts == s.extraPosts
      && t.sems == s.sems && t.nextSem == s.nextSem && t.nextId == s.nextId
      && t.processes == s.processes[p := s.processes[p].(waiting := w, status := Blocked)]
  {
    hide Queue, Exclusive, Queued, WaitingAgrees, BlockedOn;
    var t, r := BlockedOn(s, p, w), s.processes[p].(waiting := w, status := Blocked);
    BlockShifts(s, p, w);
    ShiftedQueued(s, t, p, Exec, Blocked, r);
    ShiftedWaiting(s, t, p, Exec, Blocked, r);
    if s.extraPosts == 0 {
      StopRuns(s, t, p, r);
      GivenBack(s, t, p, s.processes[p].cpu);
    }
    QueueNames(s);
    QueueNames(t);
  }

  lemma CallIoKeeps(cfg: Settings, s: State, p: nat)
    requires Inv(cfg, s) && Executing(s, p)
    ensures Inv(cfg, BlockedOn(s, p, Io))
  {
    hide Queue, Exclusive, Queued, BlockedOn, Counted, SemsAgree;
    BlockedKeeps(cfg, s, p, Io);
    AwakeStays(s, p);
    SameSems(s, BlockedOn(s, p, Io));
  }

  // ---- waking ------------------------------------------------------------------------------------------------

  lemma WokenShifts(s: State, p: nat)
    requires p in s.processes && s.processes[p].status in {Blocked, SuspendedBlocked}
    ensures var t, st := Woken(s, p), s.processes[p].status;
      var to := if st == Blocked then Ready else SuspendedReady;
      && Shifted(s, t, p, st, to, s.processes[p].(waiting := Nothing, status := to))
      && SameRest(s, t.(arrivals := s.arrivals, readyTokens := s.readyTokens))
      && t.readyTokens == (if st == Blocked then s.readyTokens + 1 else s.readyTokens)
      && t.arrivals == (if st == Blocked then s.arrivals else s.arrivals + 1)
  {
    hide Moved, Queue;
    var st := s.processes[p].status;
    var to := if st == Blocked then Ready else SuspendedReady;
    var m := s.(processes := s.processes[p := s.processes[p].(waiting := Nothing)]);
    var u := Moved(m, p, st, to);
    OtherTokens(s, m);
    MovedRest(m, p, st, to);
    MovedQueues(m, p, st, to);
    MovedProcesses(m, p, st, to);
    OtherTokens(u, Woken(s, p));
  }

  /** Everything but the semaphores, when a blocked process wakes. */
  lemma WokenKeeps(cfg: Settings, s: State, p: nat)
    requires Queued(s) && Counted(cfg, s) && WaitingAgrees(s) && (s.extraPosts == 0 ==> Exclusive(s))
    requires p in s.processes && s.processes[p].waiting != Nothing
    ensures var t := Woken(s, p);
      && Queued(t) && Counted(cfg, t) && WaitingAgrees(t) && (t.extraPosts == 0 ==> Exclusive(t))
      && t.extraPosts == s.extraPosts
      && t.sems == s.sems && t.nextSem == s.nextSem && t.nextId == s.nextId
      && t.processes == s.processes[p := t.processes[p]] && t.processes[p].waiting == Nothing
  {
    hide Queue, Exclusive, Queued, WaitingAgrees, Woken;
    AwakeStays(s, p);
    var t, st := Woken(s, p), s.processes[p].status;
    var to := if st == Blocked then Ready else SuspendedReady;
    var r := s.processes[p].(waiting := Nothing, status := to);
    WokenShifts(s, p);
    ShiftedQueued(s, t, p, st, to, r);
    ShiftedWaiting(s, t, p, st, to, r);
    if s.extraPosts == 0 { ShiftedExclusive(s, t, p, st, to, r); }
    QueueNames(s);
    QueueNames(t);
  }

  lemma IoDoneKeeps(cfg: Settings, s: State, p: nat)
    requires Inv(cfg, s) && p in s.processes && s.processes[p].waiting == Io
    ensures Inv(cfg, Woken(s, p))
  {
    hide Queue, Exclusive, Queued, Woken, Counted, SemsAgree;
    WokenKeeps(cfg, s, p);
    SameSems(s, Woken(s, p));
  }

  // ---- semaphores of the processes -----------------------------------------------------------------------------

  /** `t` has the semaphore `name` changed to `sem`, keeping its identity, and nothing else. */
  ghost predicate SemSet(s: State, t: State, name: string, sem: Sem) {
    && name in s.sems && sem.id == s.sems[name].id && t.sems == s.sems[name := sem]
    && t.nextSem == s.nextSem && t.nextId == s.nextId
  }

  /** No process, wherever it waits, is in the queue of two semaphores or twice in one. */
  lemma WaitsOnce(s: State, p: nat, m: string, n: string)
    requires SemsAgree(s) && m in s.sems && n in s.sems && p in s.processes && p in s.sems[m].queue
    requires p in s.sems[n].queue
    ensures m == n
  {
    assert SemAgrees(s, s.sems[m]) && SemAgrees(s, s.sems[n]);
  }

  /** A wait, let through or queued. */
  lemma WaitedSems(s: State, t: State, p: nat, name: string, sem: Sem)
    requires SemsAgree(s) && SemSet(s, t, name, sem) && p in s.processes && s.processes[p].waiting == Nothing
    requires p < s.nextId
    requires t.processes.Keys == s.processes.Keys
    requires forall q :: q in s.processes && q != p ==> t.processes[q].waiting == s.processes[q].waiting
    requires var was := s.sems[name];
      if was.value <= 0 then sem == was.(value := was.value - 1, queue := was.queue + [p])
                             && t.processes[p].waiting == Semaphore(was.id)
      else sem == was.(value := was.value - 1, passed := was.passed + 1) && t.processes[p].waiting == Nothing
    ensures SemsAgree(t)
  {
    forall n | n in t.sems ensures SemAgrees(t, t.sems[n]) {
      assert SemAgrees(s, s.sems[n]);
      assert p !in s.sems[n].queue;
      if n == name && s.sems[name].value <= 0 { AppendDistinct(s.sems[name].queue, p); }
    }
  }

  lemma WaitedKeeps(cfg: Settings, s: State, p: nat, name: string)
    requires Inv(cfg, s) && Executing(s, p)
    ensures Inv(cfg, Waited(s, p, name))
  {
    hide Queue, Exclusive, Queued, BlockedOn, Counted, SemsAgree;
    AwakeStays(s, p);
    if name in s.sems {
      var sem, t := s.sems[name], Waited(s, p, name);
      if sem.value - 1 < 0 {
        var m := s.(sems := s.sems[name := sem.(value := sem.value - 1, queue := sem.queue + [p])]);
        SemsAside(cfg, s, m);
        BlockedKeeps(cfg, m, p, Semaphore(sem.id));
        WaitedSems(s, t, p, name, sem.(value := sem.value - 1, queue := sem.queue + [p]));
      } else {
        HeldAside(cfg, s, t, p, sem.id);
        WaitedSems(s, t, p, name, sem.(value := sem.value - 1, passed := sem.passed + 1));
      }
    }
  }

  /** Semaphores have no part in the other invariants. */
  lemma SemsAside(cfg: Settings, s: State, t: State)
    requires Queued(s) && Counted(cfg, s) && WaitingAgrees(s) && (s.extraPosts == 0 ==> Exclusive(s))
    requires t == s.(sems := t.sems, nextSem := t.nextSem)
    ensures Queued(t) && Counted(cfg, t) && WaitingAgrees(t) && (t.extraPosts == 0 ==> Exclusive(t))
  {
    hide Exclusive, Queued;
    OtherTokens(s, t);
    SameQueued(s, t);
    if s.extraPosts == 0 { SameExclusive(s, t); }
  }

  /** Nor has the semaphore a process holds. */
  lemma HeldAside(cfg: Settings, s: State, t: State, p: nat, held: nat)
    requires Queued(s) && Counted(cfg, s) && WaitingAgrees(s) && (s.extraPosts == 0 ==> Exclusive(s))
    requires p in s.processes
    requires t == s.(sems := t.sems, processes := s.processes[p := s.processes[p].(held := held)])
    ensures Queued(t) && Counted(cfg, t) && WaitingAgrees(t) && (t.extraPosts == 0 ==> Exclusive(t))
  {
    hide Exclusive, Queued;
    OtherTokens(s, t);
    SameQueued(s, t);
    if s.extraPosts == 0 { SameExclusive(s, t); }
  }

  /**
   A post lets through at most one process: the first live waiter, once the value is no longer
   negative. Only dead waiters before it leave the queue with it.
   */
  lemma PostIsFifo(sem: Sem, alive: set<nat>, tryNext: bool)
    ensures var (r, woken) := Posted(sem, alive, tryNext);
      && r.id == sem.id && r.value == sem.value + 1 && r.posts == sem.posts + 1 && r.initial == sem.initial
      && match woken
         case Some(p) =>
           && r.value >= 0 && r.passed == sem.passed + 1 && p in alive
           && exists k :: 0 <= k < |sem.queue| && sem.queue[k] == p && r.queue == sem.queue[k + 1..]
                          && forall i :: 0 <= i < k ==> sem.queue[i] !in alive
         case None =>
           && r.passed == sem.passed
           && (r.queue == sem.queue
               || (r.value >= 0 && sem.queue != [] && sem.queue[0] !in alive && r.queue == sem.queue[1..]))
  {
    var up := sem.(value := sem.value + 1, posts := sem.posts + 1);
    if sem.queue != [] && up.value >= 0 {
      if sem.queue[0] in alive {
        assert sem.queue[0] == sem.queue[0] && Posted(sem, alive, tryNext).0.queue == sem.queue[0 + 1..];
      } else if tryNext && |sem.queue| > 1 && sem.queue[1] in alive {
        assert Posted(sem, alive, tryNext).0.queue == sem.queue[1 + 1..];
      }
    }
  }

  lemma SuffixDistinct(q: seq<nat>, k: nat)
    requires Distinct(q) && k < |q|
    ensures Distinct(q[k + 1..]) && q[k] !in q[k + 1..]
  {
  }

  /** The semaphore after a post, before its process wakes. */
  lemma PostedAgrees(s: State, sem: Sem, tryNext: bool)
    requires SemAgrees(s, sem)
    ensures var (r, woken) := Posted(sem, s.processes.Keys, tryNext);
      && SemAgrees(s, r) && r.id == sem.id && (forall q :: q in r.queue ==> q in sem.queue)
      && (woken.Some? ==> woken.value in s.processes && woken.value in sem.queue && woken.value !in r.queue
                          && s.processes[woken.value].waiting == Semaphore(sem.id))
  {
    PostIsFifo(sem, s.processes.Keys, tryNext);
    var (r, woken) := Posted(sem, s.processes.Keys, tryNext);
    if woken.Some? {
      var k :| 0 <= k < |sem.queue| && sem.queue[k] == woken.value && r.queue == sem.queue[k + 1..];
      SuffixDistinct(sem.queue, k);
    } else if r.queue != sem.queue {
      SuffixDistinct(sem.queue, 0);
    }
    forall q | q in r.queue ensures q in sem.queue {}
  }

  /** ... and once it has woken. */
  lemma PostedSems(s: State, t: State, name: string, tryNext: bool)
    requires SemsAgree(s) && name in s.sems
    requires var (r, woken) := Posted(s.sems[name], s.processes.Keys, tryNext);
      && SemSet(s, t, name, r) && t.processes.Keys == s.processes.Keys
      && (forall q :: q in s.processes && woken != Some(q) ==> t.processes[q].waiting == s.processes[q].waiting)
    ensures SemsAgree(t)
  {
    hide Posted;
    var (r, woken) := Posted(s.sems[name], s.processes.Keys, tryNext);
    PostedAgrees(s, s.sems[name], tryNext);
    forall n | n in t.sems ensures SemAgrees(t, t.sems[n]) {
      assert SemAgrees(s, s.sems[n]);
      forall q | q in t.sems[n].queue && q in t.processes ensures t.processes[q].waiting == Semaphore(t.sems[n].id) {
        if woken == Some(q) { WaitsOnce(s, q, n, name); }
      }
    }
  }

  lemma PostedForDeadKeeps(cfg: Settings, s: State, name: string)
    requires Inv(cfg, s) && name in s.sems
    ensures Inv(cfg, PostedForDead(s, name))
  {
    hide Queue, Exclusive, Queued, Woken, Posted, Counted, SemsAgree, SemAgrees;
    var (r, woken) := Posted(s.sems[name], s.processes.Keys, false);
    SemHere(s, name);
    PostedAgrees(s, s.sems[name], false);
    var m := s.(sems := s.sems[name := r]);
    SemsAside(cfg, s, m);
    if woken.Some? { WokenKeeps(cfg, m, woken.value); }
    PostedSems(s, PostedForDead(s, name), name, false);
  }

  lemma SemHere(s: State, name: string)
    requires SemsAgree(s) && name in s.sems
    ensures SemAgrees(s, s.sems[name])
  {
  }

  lemma PostedByKeeps(cfg: Settings, s: State, p: nat, name: string)
    requires Inv(cfg, s) && Executing(s, p)
    ensures Inv(cfg, PostedBy(s, p, name))
  {
    hide Queue, Exclusive, Queued, Woken, Posted, Counted, SemsAgree, SemAgrees;
    if name in s.sems {
      var (r, woken) := Posted(s.sems[name], s.processes.Keys, true);
      SemHere(s, name);
      PostedAgrees(s, s.sems[name], true);
      var m := s.(sems := s.sems[name := r]);
      SemsAside(cfg, s, m);
      AwakeStays(s, p);
      if woken.Some? {
        var u := m.(processes := s.processes[p := s.processes[p].(held := 0)]);
        HeldAside(cfg, m, u, p, 0);
        WokenKeeps(cfg, u, woken.value);
      }
      PostedSems(s, PostedBy(s, p, name), name, true);
    }
  }

  lemma WithSemKeeps(cfg: Settings, s: State, name: string, value: nat)
    requires Inv(cfg, s)
    ensures Inv(cfg, WithSem(s, name, value))
  {
    hide Queue, Exclusive, Queued, Counted;
    var t := WithSem(s, name, value);
    SemsAside(cfg, s, t);
    forall n | n in t.sems ensures SemAgrees(t, t.sems[n]) {
      assert n in s.sems ==> SemAgrees(s, s.sems[n]);
    }
  }

  lemma DestroyKeeps(cfg: Settings, s: State, name: string)
    requires Inv(cfg, s)
    ensures Inv(cfg, s.(sems := s.sems - {name}))
  {
    hide Queue, Exclusive, Queued, Counted;
    var t := s.(sems := s.sems - {name});
    SemsAside(cfg, s, t);
    forall n | n in t.sems ensures SemAgrees(t, t.sems[n]) {
      assert SemAgrees(s, s.sems[n]);
    }
  }

  // ---- suspending and closing ------------------------------------------------------------------------------------

  lemma {:induction false} WithoutLast(q: seq<nat>)
    requires q != [] && Distinct(q)
    ensures Without(q, q[|q| - 1]) == q[..|q| - 1]
  {
    if |q| > 1 {
      WithoutLast(q[1..]);
      assert q[1..][..|q| - 2] == q[1..|q| - 1];
    }
  }

  /** The queues after a suspension, with the CPUs set aside. */
  lemma SuspendShifts(cfg: Settings, s: State)
    requires Queued(s) && s.full > 0 && MustSuspend(s)
    ensures var p, t := s.blocked[|s.blocked| - 1], Suspended(cfg, s);
      && p in s.processes && s.processes[p].status == Blocked
      && Shifted(s, t, p, Blocked, SuspendedBlocked, s.processes[p].(status := SuspendedBlocked))
      && t.slots == s.slots + 1 && t.extraPosts == (if cfg.repost then s.extraPosts + 1 else s.extraPosts)
      && SameRest(s.(slots := t.slots, cpus := t.cpus, extraPosts := t.extraPosts), t)
      && |t.cpus| == |s.cpus| && (!cfg.repost ==> t.cpus == s.cpus)
  {
    hide Suspended, Queue, Queued, Without;
    LastBlocked(s);
    var p, t := s.blocked[|s.blocked| - 1], Suspended(cfg, s);
    SuspendedIs(cfg, s, p, s.processes[p].cpu);
    QueueNames(s);
    QueueNames(t);
  }

  lemma LastBlocked(s: State)
    requires Queued(s) && s.blocked != []
    ensures var p := s.blocked[|s.blocked| - 1];
      p in s.processes && s.processes[p].status == Blocked && Without(s.blocked, p) == s.blocked[..|s.blocked| - 1]
  {
    assert s.blocked[|s.blocked| - 1] in Queue(s, Blocked);
    assert Distinct(Queue(s, Blocked));
    WithoutLast(s.blocked);
  }

  lemma SuspendedKeeps(cfg: Settings, s: State)
    requires Inv(cfg, s) && s.full > 0
    ensures Inv(cfg, Suspended(cfg, s))
  {
    hide Queue, Exclusive, Queued, WaitingAgrees, SemsAgree, Shifted, Suspended;
    var t := Suspended(cfg, s);
    if MustSuspend(s) {
      SuspendShifts(cfg, s);
      var p := s.blocked[|s.blocked| - 1];
      var r := s.processes[p].(status := SuspendedBlocked);
      AwakeStays(s, p);
      ShiftedQueued(s, t, p, Blocked, SuspendedBlocked, r);
      ShiftedWaiting(s, t, p, Blocked, SuspendedBlocked, r);
      ShiftedSems(s, t, p, Blocked, SuspendedBlocked, r);
      if t.extraPosts == 0 { ShiftedExclusive(s, t, p, Blocked, SuspendedBlocked, r); }
      QueueNames(s);
      QueueNames(t);
    } else {
      NothingSuspended(cfg, s);
      OtherTokens(s, t);
      SameQueued(s, t);
      SameWaiting(s, t);
      SameSems(s, t);
      if s.extraPosts == 0 { SameExclusive(s, t); }
    }
  }

  lemma NothingSuspended(cfg: Settings, s: State)
    requires s.full > 0 && !MustSuspend(s)
    ensures Suspended(cfg, s) == s.(full := s.full - 1)
  {
  }

  lemma SameWaiting(s: State, t: State)
    requires WaitingAgrees(s) && t.processes == s.processes && t.nextId == s.nextId
    ensures WaitingAgrees(t)
  {
  }

  lemma FewerWaiting(s: State, t: State, p: nat)
    requires WaitingAgrees(s) && t.processes == s.processes - {p} && t.nextId == s.nextId
    ensures WaitingAgrees(t)
  {
  }

  lemma ClosedKeeps(cfg: Settings, s: State, p: nat)
    requires Inv(cfg, s) && Executing(s, p)
    ensures Inv(cfg, Closed(s, p))
  {
    hide Queue, Exclusive, Queued, WaitingAgrees, SemsAgree, Gone;
    var t, g, i := Closed(s, p), Gone(s, p, Exec), s.processes[p].cpu;
    GoneQueued(s, p, Exec);
    GoneQueues(s, p, Exec);
    GoneRest(s, p, Exec);
    OtherTokens(g, t);
    SameQueued(g, t);
    FewerWaiting(s, t, p);
    SameSems(s, t);
    QueueNames(s);
    QueueNames(t);
    if s.extraPosts == 0 {
      StoppedRuns(s, t, p);
      GivenBack(s, t, p, i);
    }
  }

  lemma StoppedRuns(s: State, t: State, p: nat)
    requires Queued(s) && Executing(s, p) && t.running == Without(s.running, p) && t.processes == s.processes - {p}
    ensures RunsOn(s, p, s.processes[p].cpu)
    ensures forall q, j :: RunsOn(t, q, j) <==> RunsOn(s, q, j) && q != p
  {
    QueueNames(s);
    assert p in Queue(s, Exec);
    WithoutDistinct(s.running, p);
  }

  lemma ClosedDeadlockedKeeps(cfg: Settings, s: State, p: nat)
    requires Inv(cfg, s) && p in s.processes && s.processes[p].waiting.Semaphore?
    ensures Inv(cfg, ClosedDeadlocked(s, p))
  {
    hide Queue, Exclusive, Queued, WaitingAgrees, SemsAgree, Gone;
    AwakeStays(s, p);
    var st := s.processes[p].status;
    var t, g := ClosedDeadlocked(s, p), Gone(s, p, st);
    GoneQueued(s, p, st);
    GoneQueues(s, p, st);
    GoneRest(s, p, st);
    OtherTokens(g, t);
    SameQueued(g, t);
    FewerWaiting(s, t, p);
    SameSems(s, t);
    QueueNames(s);
    QueueNames(t);
    NotRunning(s, p);
    if s.extraPosts == 0 { SameExclusive(s, t); }
  }

  // ---- the steps, field by field ---------------------------------------------------------------------------

  /** A state with the queues, processes and other fields that moving `p` gives is that state. */
  lemma MovedIs(s: State, p: nat, st: Status, to: Status, t: State)
    requires p in s.processes && st != to
    requires t == s.(processes := t.processes, newcomers := t.newcomers, ready := t.ready, running := t.running,
                     blocked := t.blocked, suspendedBlocked := t.suspendedBlocked, suspendedReady := t.suspendedReady)
    requires t.processes == s.processes[p := s.processes[p].(status := to)]
    requires Queue(t, st) == Without(Queue(s, st), p) && Queue(t, to) == Queue(s, to) + [p]
    requires forall x :: x != st && x != to ==> Queue(t, x) == Queue(s, x)
    ensures Moved(s, p, st, to) == t
  {
    hide Moved, Queue;
    var m := Moved(s, p, st, to);
    MovedQueues(s, p, st, to);
    MovedProcesses(s, p, st, to);
    MovedRest(s, p, st, to);
    MovedFull(s, p, st, to);
    QueueNames(m);
    QueueNames(t);
  }

  lemma MovedFull(s: State, p: nat, st: Status, to: Status)
    requires p in s.processes
    ensures Moved(s, p, st, to).full == s.full
  {
  }

  /** ... and a process taken out of one queue. */
  lemma GoneIs(s: State, p: nat, st: Status, t: State)
    requires t == s.(processes := s.processes - {p}, newcomers := t.newcomers, ready := t.ready,
                     running := t.running, blocked := t.blocked, suspendedBlocked := t.suspendedBlocked,
                     suspendedReady := t.suspendedReady)
    requires Queue(t, st) == Without(Queue(s, st), p) && forall x :: x != st ==> Queue(t, x) == Queue(s, x)
    ensures Gone(s, p, st) == t
  {
    hide Gone, Queue;
    var m := Gone(s, p, st);
    GoneQueues(s, p, st);
    GoneRest(s, p, st);
    GoneFull(s, p, st);
    QueueNames(m);
    QueueNames(t);
  }

  lemma GoneFull(s: State, p: nat, st: Status)
    ensures Gone(s, p, st).full == s.full
  {
  }

  lemma AdmittedSuspendedIs(s: State, p: nat)
    requires s.arrivals > 0 && s.slots > 0 && p in s.processes && s.suspendedReady != [] && s.suspendedReady[0] == p
    ensures Admitted(s) == s.(processes := s.processes[p := s.processes[p].(status := Ready)],
                              ready := s.ready + [p], suspendedReady := s.suspendedReady[1..],
                              arrivals := s.arrivals - 1, readyTokens := s.readyTokens + 1, slots := s.slots - 1)
  {
    hide Moved;
    MovedIs(s, p, SuspendedReady, Ready,
            s.(processes := s.processes[p := s.processes[p].(status := Ready)], ready := s.ready + [p],
               suspendedReady := s.suspendedReady[1..]));
  }

  lemma AdmittedNewIs(s: State, p: nat)
    requires s.arrivals > 0 && s.slots > 0 && p in s.processes && s.suspendedReady == [] && s.newcomers != []
    requires s.newcomers[0] == p
    ensures Admitted(s) == s.(processes := s.processes[p := s.processes[p].(status := Ready)],
                              newcomers := s.newcomers[1..], ready := s.ready + [p], arrivals := s.arrivals - 1,
                              readyTokens := s.readyTokens + 1, slots := s.slots - 1)
  {
    hide Moved;
    MovedIs(s, p, New, Ready,
            s.(processes := s.processes[p := s.processes[p].(status := Ready)], ready := s.ready + [p],
               newcomers := s.newcomers[1..]));
  }

  lemma DispatchedIs(s: State, p: nat)
    requires p in s.processes && s.readyTokens > 0 && s.cpuTokens > 0 && s.freeCpus != [] && s.freeCpus[0] < |s.cpus|
    ensures var i := s.freeCpus[0];
      Dispatched(s, p) == s.(processes := s.processes[p := s.processes[p].(cpu := i, status := Exec)],
                             ready := Without(s.ready, p), running := s.running + [p],
                             readyTokens := s.readyTokens - 1, cpuTokens := s.cpuTokens - 1,
                             full := if s.slots == 0 then s.full + 1 else s.full,
                             cpus := s.cpus[i := s.cpus[i].(use := s.cpus[i].use + 1)], freeCpus := s.freeCpus[1..])
  {
    hide Moved, Without;
    var i := s.freeCpus[0];
    var u := s.(processes := s.processes[p := s.processes[p].(cpu := i)], readyTokens := s.readyTokens - 1,
                cpuTokens := s.cpuTokens - 1, full := if s.slots == 0 then s.full + 1 else s.full,
                cpus := s.cpus[i := s.cpus[i].(use := s.cpus[i].use + 1)], freeCpus := s.freeCpus[1..]);
    DispatchMoves(s, p, u);
    MovedIs(u, p, Ready, Exec,
        u.(processes := u.processes[p := u.processes[p].(status := Exec)], ready := Without(s.ready, p),
           running := s.running + [p]));
    assert u.processes[p := u.processes[p].(status := Exec)] ==
           s.processes[p := s.processes[p].(cpu := i, status := Exec)];
  }

  lemma DispatchMoves(s: State, p: nat, u: State)
    requires p in s.processes && s.readyTokens > 0 && s.cpuTokens > 0 && s.freeCpus != [] && s.freeCpus[0] < |s.cpus|
    requires u == s.(processes := s.processes[p := s.processes[p].(cpu := s.freeCpus[0])],
                     readyTokens := s.readyTokens - 1, cpuTokens := s.cpuTokens - 1,
                     full := if s.slots == 0 then s.full + 1 else s.full,
                     cpus := s.cpus[s.freeCpus[0] := s.cpus[s.freeCpus[0]].(use := s.cpus[s.freeCpus[0]].use + 1)],
                     freeCpus := s.freeCpus[1..])
    ensures Dispatched(s, p) == Moved(u, p, Ready, Exec)
  {
    hide Moved;
  }

  lemma BlockedOnIs(s: State, p: nat, w: Waiting)
    requires p in s.processes
    ensures BlockedOn(s, p, w) == PostRelease(
      s.(processes := s.processes[p := s.processes[p].(waiting := w, status := Blocked)],
         running := Without(s.running, p), blocked := s.blocked + [p]), s.processes[p].cpu)
  {
    hide Moved, Without, PostRelease;
    var m := s.(processes := s.processes[p := s.processes[p].(waiting := w)]);
    MovedIs(m, p, Exec, Blocked, m.(processes := m.processes[p := m.processes[p].(status := Blocked)],
                                    running := Without(s.running, p), blocked := s.blocked + [p]));
    assert m.processes[p := m.processes[p].(status := Blocked)] ==
           s.processes[p := s.processes[p].(waiting := w, status := Blocked)];
  }

  lemma WokenBlockedIs(s: State, p: nat)
    requires p in s.processes && s.processes[p].status == Blocked
    ensures Woken(s, p) == s.(processes := s.processes[p := s.processes[p].(waiting := Nothing, status := Ready)],
                              ready := s.ready + [p], blocked := Without(s.blocked, p),
                              readyTokens := s.readyTokens + 1)
  {
    hide Moved, Without;
    var m := s.(processes := s.processes[p := s.processes[p].(waiting := Nothing)]);
    MovedIs(m, p, Blocked, Ready, m.(processes := m.processes[p := m.processes[p].(status := Ready)],
                                     ready := s.ready + [p], blocked := Without(s.blocked, p)));
    assert m.processes[p := m.processes[p].(status := Ready)] ==
           s.processes[p := s.processes[p].(waiting := Nothing, status := Ready)];
  }

  lemma WokenSuspendedIs(s: State, p: nat)
    requires p in s.processes && s.processes[p].status != Blocked
    ensures Woken(s, p) ==
            s.(processes := s.processes[p := s.processes[p].(waiting := Nothing, status := SuspendedReady)],
               suspendedBlocked := Without(s.suspendedBlocked, p),
               suspendedReady := s.suspendedReady + [p], arrivals := s.arrivals + 1)
  {
    hide Moved, Without;
    var m := s.(processes := s.processes[p := s.processes[p].(waiting := Nothing)]);
    MovedIs(m, p, SuspendedBlocked, SuspendedReady,
            m.(processes := m.processes[p := m.processes[p].(status := SuspendedReady)],
      suspendedReady := s.suspendedReady + [p], suspendedBlocked := Without(s.suspendedBlocked, p)));
    assert m.processes[p := m.processes[p].(status := SuspendedReady)] ==
           s.processes[p := s.processes[p].(waiting := Nothing, status := SuspendedReady)];
  }

  lemma SuspendedIs(cfg: Settings, s: State, p: nat, i: nat)
    requires s.full > 0 && MustSuspend(s) && s.blocked[|s.blocked| - 1] == p && p in s.processes
    requires i == s.processes[p].cpu
    ensures Suspended(cfg, s) == s.(processes := s.processes[p := s.processes[p].(status := SuspendedBlocked)],
                                    blocked := s.blocked[..|s.blocked| - 1],
                                    suspendedBlocked := s.suspendedBlocked + [p], slots := s.slots + 1,
                                    full := s.full - 1,
                                    cpus := if cfg.repost && i < |s.cpus|
                                            then s.cpus[i := s.cpus[i].(release := s.cpus[i].release + 1)]
                                            else s.cpus,
                                    extraPosts := if cfg.repost then s.extraPosts + 1 else s.extraPosts)
  {
  }

  lemma ClosedIs(s: State, p: nat)
    requires p in s.processes
    ensures Closed(s, p) == PostRelease(s.(processes := s.processes - {p}, running := Without(s.running, p)),
                                        s.processes[p].cpu).(slots := s.slots + 1)
  {
    hide Gone, Without, PostRelease;
    GoneIs(s, p, Exec, s.(processes := s.processes - {p}, running := Without(s.running, p)));
  }

  lemma ClosedBlockedIs(s: State, p: nat)
    requires p in s.processes && s.processes[p].status == Blocked
    ensures ClosedDeadlocked(s, p) == s.(processes := s.processes - {p}, blocked := Without(s.blocked, p),
                                         slots := s.slots + 1)
  {
    hide Gone, Without;
    GoneIs(s, p, Blocked, s.(processes := s.processes - {p}, blocked := Without(s.blocked, p)));
  }

  lemma ClosedSuspendedIs(s: State, p: nat)
    requires p in s.processes && s.processes[p].status != Blocked
    ensures ClosedDeadlocked(s, p) == s.(processes := s.processes - {p},
                                         suspendedBlocked := Without(s.suspendedBlocked, p), slots := s.slots + 1,
                                         overReturned := s.overReturned + 1)
  {
    hide Gone, Without;
    GoneIs(s, p, SuspendedBlocked,
           s.(processes := s.processes - {p}, suspendedBlocked := Without(s.suspendedBlocked, p)));
  }

  // ---- what the planners rely on when their semaphores open -----------------------------------------

  lemma AdmitStarts(cfg: Settings, s: State)
    requires Inv(cfg, s) && s.arrivals > 0
    ensures var q := if s.suspendedReady != [] then s.suspendedReady else s.newcomers;
      q != [] && q[0] in s.processes && Without(q, q[0]) == q[1..]
  {
    AdmittedHead(cfg, s);
    QueueNames(s);
  }

  lemma DispatchStarts(cfg: Settings, s: State, p: nat)
    requires Inv(cfg, s) && p in s.ready && s.cpuTokens > 0
    ensures p in s.processes && s.freeCpus != [] && s.freeCpus[0] < |s.cpus|
  {
    ReadyIsReady(s, p);
    assert s.freeCpus[0] in s.freeCpus;
  }

  lemma {:induction false} WithoutAt(q: seq<nat>, p: nat, i: nat)
    requires i < |q| && q[i] == p && forall k :: 0 <= k < i ==> q[k] != p
    ensures Without(q, p) == q[..i] + q[i + 1..]
  {
    if i > 0 {
      WithoutAt(q[1..], p, i - 1);
      assert q[1..][i..] == q[i + 1..] && [q[0]] + q[1..][..i - 1] == q[..i];
    }
  }

  lemma SuspendStarts(cfg: Settings, s: State)
    requires Inv(cfg, s)
    ensures s.blocked != [] ==> s.blocked[|s.blocked| - 1] in s.processes
  {
    if s.blocked != [] {
      assert s.blocked[|s.blocked| - 1] in Queue(s, Blocked);
    }
  }

  // ---- whole runs --------------------------------------------------------------------------------------------------

  /** Every step keeps the invariant. */
  lemma StepKeeps(cfg: Settings, s: State, step: Step)
    requires Inv(cfg, s) && Enabled(s, step)
    ensures Inv(cfg, Apply(cfg, s, step))
  {
    hide Inv, Created, Admitted, Dispatched, Taken, Released, Waited, PostedBy, PostedForDead, BlockedOn, Woken,
         Suspended, Closed, ClosedDeadlocked, WithSem;
    match step
    case Init(accepted) => CreatedKeeps(cfg, s, accepted);
    case Admit => AdmittedKeeps(cfg, s);
    case Dispatch(p) => DispatchedKeeps(cfg, s, p);
    case TakeCpu(i) => TakenKeeps(cfg, s, i);
    case ReleaseCpu(i) => ReleasedKeeps(cfg, s, i);
    case Wait(p, name) => WaitedKeeps(cfg, s, p, name);
    case Post(p, name) => PostedByKeeps(cfg, s, p, name);
    case CallIo(p) => CallIoKeeps(cfg, s, p);
    case IoDone(p) => IoDoneKeeps(cfg, s, p);
    case Suspend => SuspendedKeeps(cfg, s);
    case Close(p) => ClosedKeeps(cfg, s, p);
    case CloseDeadlocked(p) => ClosedDeadlockedKeeps(cfg, s, p);
    case PostDeadlocked(name) => PostedForDeadKeeps(cfg, s, name);
    case SemInit(name, value) => WithSemKeeps(cfg, s, name, value);
    case SemDestroy(name) => DestroyKeeps(cfg, s, name);
  }

  ghost predicate Run(cfg: Settings, ss: seq<State>, steps: seq<Step>) {
    && |ss| == |steps| + 1 && ss[0] == Initial(cfg)
    && forall i :: 0 <= i < |steps| ==> Enabled(ss[i], steps[i]) && ss[i + 1] == Apply(cfg, ss[i], steps[i])
  }

  lemma {:induction false} RunKeeps(cfg: Settings, ss: seq<State>, steps: seq<Step>, i: nat)
    requires Run(cfg, ss, steps) && i < |ss|
    ensures Inv(cfg, ss[i])
  {
    hide Inv, Initial, Apply, Enabled;
    if i == 0 {
      InitialKeeps(cfg);
    } else {
      RunKeeps(cfg, ss, steps, i - 1);
      assert ss[(i - 1) + 1] == Apply(cfg, ss[i - 1], steps[i - 1]);
      StepKeeps(cfg, ss[i - 1], steps[i - 1]);
    }
  }

  // ---- what the runs are safe from -------------------------------------------------------------------

  /** Each live process is in exactly one of the six queues, once; each queue holds live processes only. */
  lemma RunQueues(cfg: Settings, ss: seq<State>, steps: seq<Step>, i: nat, p: nat, st: Status)
    requires Run(cfg, ss, steps) && i < |ss|
    ensures p in Queue(ss[i], st) <==> p in ss[i].processes && ss[i].processes[p].status == st
    ensures forall j, k :: 0 <= j < k < |Queue(ss[i], st)| ==> Queue(ss[i], st)[j] != Queue(ss[i], st)[k]
  {
    hide Run;
    RunKeeps(cfg, ss, steps, i);
    assert Distinct(Queue(ss[i], st));
  }

  /** The two counts of what is given back too often are as before. */
  ghost predicate SameCounts(s: State, t: State) {
    t.extraPosts == s.extraPosts && t.overReturned == s.overReturned
  }

  lemma AdmittedCounts(s: State)
    requires s.arrivals > 0 && s.slots > 0
    ensures SameCounts(s, Admitted(s))
  {
    hide Moved, Queue;
    var st := if s.suspendedReady != [] then SuspendedReady else New;
    if Queue(s, st) != [] && Queue(s, st)[0] in s.processes { MovedRest(s, Queue(s, st)[0], st, Ready); }
  }

  lemma DispatchedCounts(s: State, p: nat)
    requires p in s.processes && s.readyTokens > 0 && s.cpuTokens > 0 && s.freeCpus != []
    ensures SameCounts(s, Dispatched(s, p))
  {
    hide Moved;
    forall u: State | p in u.processes ensures SameRest(u, Moved(u, p, Ready, Exec)) {
      MovedRest(u, p, Ready, Exec);
    }
  }

  lemma WokenCounts(s: State, p: nat)
    requires p in s.processes
    ensures SameCounts(s, Woken(s, p))
  {
    hide Woken, Without;
    if s.processes[p].status == Blocked { WokenBlockedIs(s, p); } else { WokenSuspendedIs(s, p); }
  }

  lemma BlockedOnCounts(s: State, p: nat, w: Waiting)
    requires p in s.processes
    ensures SameCounts(s, BlockedOn(s, p, w))
  {
    hide BlockedOn, Without;
    BlockedOnIs(s, p, w);
  }

  lemma WaitedCounts(s: State, p: nat, name: string)
    requires p in s.processes
    ensures SameCounts(s, Waited(s, p, name))
  {
    hide BlockedOn;
    if name in s.sems && s.sems[name].value - 1 < 0 {
      var sem := s.sems[name];
      BlockedOnCounts(s.(sems := s.sems[name := sem.(value := sem.value - 1, queue := sem.queue + [p])]), p,
                      Semaphore(sem.id));
    }
  }

  lemma PostedByCounts(s: State, p: nat, name: string)
    requires p in s.processes
    ensures SameCounts(s, PostedBy(s, p, name))
  {
    hide Posted, Woken;
    if name in s.sems {
      var (sem, woken) := Posted(s.sems[name], s.processes.Keys, true);
      if woken.Some? && woken.value in s.processes {
        WokenCounts(s.(sems := s.sems[name := sem], processes := s.processes[p := s.processes[p].(held := 0)]),
                    woken.value);
      }
    }
  }

  lemma PostedForDeadCounts(s: State, name: string)
    ensures SameCounts(s, PostedForDead(s, name))
  {
    hide Posted, Woken;
    if name in s.sems {
      var (sem, woken) := Posted(s.sems[name], s.processes.Keys, false);
      if woken.Some? && woken.value in s.processes { WokenCounts(s.(sems := s.sems[name := sem]), woken.value); }
    }
  }

  lemma ClosedCounts(s: State, p: nat)
    requires p in s.processes
    ensures SameCounts(s, Closed(s, p))
  {
    hide Closed, Without;
    ClosedIs(s, p);
  }

  lemma ClosedDeadlockedCounts(s: State, p: nat)
    requires p in s.processes
    ensures var t := ClosedDeadlocked(s, p);
      && t.extraPosts == s.extraPosts
      && t.overReturned == s.overReturned + if s.processes[p].status == Blocked then 0 else 1
  {
    hide ClosedDeadlocked, Without;
    if s.processes[p].status == Blocked { ClosedBlockedIs(s, p); } else { ClosedSuspendedIs(s, p); }
  }

  lemma SuspendedCounts(cfg: Settings, s: State)
    requires s.full > 0
    ensures var t, p := Suspended(cfg, s), if s.blocked == [] then 0 else s.blocked[|s.blocked| - 1];
      && t.overReturned == s.overReturned
      && t.extraPosts == s.extraPosts + if cfg.repost && MustSuspend(s) && p in s.processes then 1 else 0
  {
  }

  /** What a step adds to the two counts. */
  lemma StepCounts(cfg: Settings, s: State, step: Step)
    requires Enabled(s, step)
    ensures Apply(cfg, s, step).overReturned == s.overReturned + if GivesTwice(s, step) then 1 else 0
    ensures Apply(cfg, s, step).extraPosts == s.extraPosts + if PostsAgain(cfg, s, step) then 1 else 0
  {
    hide Created, Admitted, Dispatched, Taken, Released, Waited, PostedBy, PostedForDead, BlockedOn, Woken,
         Suspended, Closed, ClosedDeadlocked;
    match step
    case Init(accepted) => CreatedCounts(s, accepted);
    case Admit => AdmittedCounts(s);
    case Dispatch(p) => if p in s.processes && s.freeCpus != [] { DispatchedCounts(s, p); }
    case TakeCpu(i) => TakenCounts(s, i);
    case ReleaseCpu(i) => ReleasedCounts(s, i);
    case Wait(p, name) => WaitedCounts(s, p, name);
    case Post(p, name) => PostedByCounts(s, p, name);
    case CallIo(p) => BlockedOnCounts(s, p, Io);
    case IoDone(p) => WokenCounts(s, p);
    case Suspend => SuspendedCounts(cfg, s);
    case Close(p) => ClosedCounts(s, p);
    case CloseDeadlocked(p) => ClosedDeadlockedCounts(s, p);
    case PostDeadlocked(name) => PostedForDeadCounts(s, name);
    case _ =>
  }

  lemma CreatedCounts(s: State, accepted: bool)
    ensures SameCounts(s, Created(s, accepted))
  {
  }

  lemma TakenCounts(s: State, i: nat)
    requires Enabled(s, TakeCpu(i))
    ensures SameCounts(s, Taken(s, i))
  {
  }

  lemma ReleasedCounts(s: State, i: nat)
    requires Enabled(s, ReleaseCpu(i))
    ensures SameCounts(s, Released(s, i))
  {
  }

  /** Closing a deadlocked process while it is suspended gives back a slot it no longer had. */
  predicate GivesTwice(s: State, step: Step) {
    step.CloseDeadlocked? && step.p in s.processes && s.processes[step.p].status != Blocked
  }

  function OverReturned(ss: seq<State>, steps: seq<Step>, i: nat): nat
    requires i <= |steps| && |ss| == |steps| + 1
  {
    if i == 0 then 0 else OverReturned(ss, steps, i - 1) + if GivesTwice(ss[i - 1], steps[i - 1]) then 1 else 0
  }

  lemma {:induction false} OverReturnedIs(cfg: Settings, ss: seq<State>, steps: seq<Step>, i: nat)
    requires Run(cfg, ss, steps) && i < |ss|
    ensures ss[i].overReturned == OverReturned(ss, steps, i)
  {
    hide Initial, Apply, Enabled;
    if i == 0 {
      assert Initial(cfg).overReturned == 0 by { InitialTokens(cfg); }
    } else {
      OverReturnedIs(cfg, ss, steps, i - 1);
      assert ss[(i - 1) + 1] == Apply(cfg, ss[i - 1], steps[i - 1]);
      StepCounts(cfg, ss[i - 1], steps[i - 1]);
    }
  }

  lemma InitialTokens(cfg: Settings)
    ensures Initial(cfg).overReturned == 0 && Initial(cfg).extraPosts == 0
  {
  }

  /**
   The tokens count their queues in every run. Free slots and processes in memory add up to
   the degree of multiprogramming, plus one slot for every deadlocked process that was closed
   while suspended: the sum is the degree exactly in the runs without such a close.
   */
  lemma RunSlots(cfg: Settings, ss: seq<State>, steps: seq<Step>, i: nat)
    requires Run(cfg, ss, steps) && i < |ss|
    ensures var s := ss[i];
      && s.arrivals == |s.newcomers| + |s.suspendedReady| && s.readyTokens == |s.ready|
      && s.slots + |s.ready| + |s.running| + |s.blocked| == cfg.slots + OverReturned(ss, steps, i)
    ensures var s := ss[i];
      s.slots + |s.ready| + |s.running| + |s.blocked| == cfg.slots <==>
        forall j :: 0 <= j < i ==> !GivesTwice(ss[j], steps[j])
  {
    hide Run;
    RunKeeps(cfg, ss, steps, i);
    OverReturnedIs(cfg, ss, steps, i);
    RunLength(cfg, ss, steps);
    NeverTwice(ss, steps, i);
  }

  lemma RunLength(cfg: Settings, ss: seq<State>, steps: seq<Step>)
    requires Run(cfg, ss, steps)
    ensures |ss| == |steps| + 1
  {
  }

  lemma {:induction false} NeverTwice(ss: seq<State>, steps: seq<Step>, i: nat)
    requires |ss| == |steps| + 1 && i <= |steps|
    ensures OverReturned(ss, steps, i) == 0 <==> forall j :: 0 <= j < i ==> !GivesTwice(ss[j], steps[j])
  {
    if i > 0 {
      NeverTwice(ss, steps, i - 1);
    }
  }

  // ---- CPUs ---------------------------------------------------------------------------------------------------------

  lemma {:induction false} DistinctBounded(q: seq<nat>, n: nat)
    requires Distinct(q) && forall x :: x in q ==> x < n
    ensures |q| <= n
    decreases n
  {
    if q != [] {
      assert q[0] in q;
      var r := Without(q, n - 1);
      WithoutDistinct(q, n - 1);
      forall x | x in r ensures x < n - 1 {
        assert x in q && x != n - 1;
      }
      DistinctBounded(r, n - 1);
    }
  }

  function CpuOf(s: State, p: nat): nat {
    if p in s.processes then s.processes[p].cpu else 0
  }

  /** Executing processes hold different CPUs, none of them free: at most as many as there are CPUs. */
  lemma ExclusiveBounds(s: State)
    requires Queued(s) && Exclusive(s) && forall i :: i in s.freeCpus ==> i < |s.cpus|
    ensures |s.running| + |s.freeCpus| <= |s.cpus|
  {
    QueueNames(s);
    var held := seq(|s.running|, j requires 0 <= j < |s.running| => CpuOf(s, s.running[j]));
    forall j | 0 <= j < |s.running|
      ensures s.running[j] in s.processes && held[j] < |s.cpus| && held[j] !in s.freeCpus
    {
      assert s.running[j] in Queue(s, Exec);
      assert RunsOn(s, s.running[j], held[j]);
      assert CpuAgrees(s, held[j]);
    }
    assert Distinct(Queue(s, Exec));
    forall j, k | 0 <= j < k < |held| ensures held[j] != held[k] {
      assert RunsOn(s, s.running[j], held[j]) && RunsOn(s, s.running[k], held[k]);
    }
    var all := held + s.freeCpus;
    forall j, k | 0 <= j < k < |all| ensures all[j] != all[k] {
      if j < |held| <= k { assert all[k] in s.freeCpus; }
    }
    forall x | x in all ensures x < |s.cpus| {
      assert x in held || x in s.freeCpus;
    }
    DistinctBounded(all, |s.cpus|);
  }

  /** The suspender posted liberar_CPU for a process that had given its CPU back when it blocked. */
  predicate PostsAgain(cfg: Settings, s: State, step: Step) {
    cfg.repost && step.Suspend? && MustSuspend(s) && s.blocked[|s.blocked| - 1] in s.processes
  }

  lemma {:induction false} NoExtraPosts(cfg: Settings, ss: seq<State>, steps: seq<Step>, i: nat)
    requires Run(cfg, ss, steps) && i < |ss| && forall j :: 0 <= j < i ==> !PostsAgain(cfg, ss[j], steps[j])
    ensures ss[i].extraPosts == 0
  {
    hide Initial, Apply, Enabled;
    if i == 0 {
      InitialTokens(cfg);
    } else {
      NoExtraPosts(cfg, ss, steps, i - 1);
      assert ss[(i - 1) + 1] == Apply(cfg, ss[i - 1], steps[i - 1]);
      StepCounts(cfg, ss[i - 1], steps[i - 1]);
    }
  }

  ghost predicate FreeHeldOrReleased(s: State, c: nat)
    requires c < |s.cpus|
  {
    var release, held := s.cpus[c].release, exists p :: RunsOn(s, p, c);
    if c in s.freeCpus then release == 0 && !held else if held then release == 0 else release == 1
  }

  /**
   The hand-out is exclusive: no CPU is on the free list twice, no two executing processes share one,
   and each CPU is either free, or held by one executing process, or being released.
   */
  ghost predicate HandOutExclusive(s: State) {
    && Distinct(s.freeCpus)
    && (forall p, q, i :: RunsOn(s, p, i) && RunsOn(s, q, i) ==> p == q)
    && forall i :: 0 <= i < |s.cpus| ==> FreeHeldOrReleased(s, i)
  }

  /** In every run in which the suspender has not posted liberar_CPU again the hand-out is exclusive. */
  lemma ExclusiveWithoutReposts(cfg: Settings, ss: seq<State>, steps: seq<Step>, i: nat)
    requires Run(cfg, ss, steps) && i < |ss| && forall j :: 0 <= j < i ==> !PostsAgain(cfg, ss[j], steps[j])
    ensures |ss[i].cpus| == cfg.cpus && |ss[i].running| <= cfg.cpus && HandOutExclusive(ss[i])
  {
    hide Run;
    RunKeeps(cfg, ss, steps, i);
    NoExtraPosts(cfg, ss, steps, i);
    var s := ss[i];
    ExclusiveBounds(s);
    forall c | 0 <= c < |s.cpus| ensures FreeHeldOrReleased(s, c) {
      assert CpuAgrees(s, c);
    }
  }

  // ---- semaphores -------------------------------------------------------------------------------------

  /**
   In every run: waiters never fall behind a negative value, and waits let through never exceed the initial value
   plus the posts.
   */
  lemma RunSemaphores(cfg: Settings, ss: seq<State>, steps: seq<Step>, i: nat, name: string)
    requires Run(cfg, ss, steps) && i < |ss| && name in ss[i].sems
    ensures var sem := ss[i].sems[name];
      && |sem.queue| >= -sem.value && sem.passed <= sem.initial + sem.posts
      && forall q :: q in sem.queue && q in ss[i].processes ==> ss[i].processes[q].status in {Blocked, SuspendedBlocked}
  {
    hide Run, Queue;
    RunKeeps(cfg, ss, steps, i);
    assert SemAgrees(ss[i], ss[i].sems[name]);
  }
}
