/**
 How many CPUs are handed out, in every run: the balance of free CPUs, executing processes and
 pending posts of liberar_CPU, and how far the suspender's own posts tip it.
 */
module KernelCpus {
  import opened Kernel
  import opened KernelRuns

  /** The posts of liberar_CPU that no CPU thread has taken yet. */
  function Pending(cpus: seq<Cpu>): nat {
    if cpus == [] then 0 else cpus[0].release + Pending(cpus[1..])
  }

  lemma {:induction false} PendingAfter(cpus: seq<Cpu>, i: nat, c: Cpu)
    requires i < |cpus|
    ensures Pending(cpus[i := c]) + cpus[i].release == Pending(cpus) + c.release
  {
    if i > 0 {
      PendingAfter(cpus[1..], i - 1, c);
      assert cpus[i := c][1..] == cpus[1..][i - 1 := c];
    } else {
      assert cpus[i := c][1..] == cpus[1..];
    }
  }

  lemma {:induction false} NonePending(cpus: seq<Cpu>)
    requires forall i :: 0 <= i < |cpus| ==> cpus[i].release == 0
    ensures Pending(cpus) == 0
  {
    if cpus != [] {
      NonePending(cpus[1..]);
    }
  }

  /** A process that executes, or is blocked after executing, has the number of a CPU. */
  ghost predicate OnCpus(s: State) {
    forall p :: p in s.processes && s.processes[p].status in {Exec, Blocked} ==> s.processes[p].cpu < |s.cpus|
  }

  ghost predicate Balanced(cfg: Settings, s: State) {
    OnCpus(s) && |s.freeCpus| + |s.running| + Pending(s.cpus) == cfg.cpus + s.extraPosts
  }

  lemma InitialBalanced(cfg: Settings)
    ensures Balanced(cfg, Initial(cfg))
  {
    NonePending(Initial(cfg).cpus);
  }

  lemma RunningIs(s: State, p: nat)
    requires Queued(s) && Executing(s, p)
    ensures p in s.running
  {
    assert p in Queue(s, Exec);
  }

  lemma AdmitBalanced(cfg: Settings, s: State)
    requires Inv(cfg, s) && Balanced(cfg, s) && Enabled(s, Admit)
    ensures Balanced(cfg, Admitted(s))
  {
    hide Inv, Moved, Admitted, Pending;
    AdmitStarts(cfg, s);
    if s.suspendedReady != [] {
      AdmittedSuspendedIs(s, s.suspendedReady[0]);
    } else {
      AdmittedNewIs(s, s.newcomers[0]);
    }
  }

  lemma DispatchBalanced(cfg: Settings, s: State, p: nat)
    requires Inv(cfg, s) && Balanced(cfg, s) && Enabled(s, Dispatch(p))
    ensures Balanced(cfg, Apply(cfg, s, Dispatch(p)))
  {
    hide Inv, Dispatched, Pending, Without;
    DispatchStarts(cfg, s, p);
    DispatchedIs(s, p);
    var i := s.freeCpus[0];
    PendingAfter(s.cpus, i, s.cpus[i].(use := s.cpus[i].use + 1));
  }

  /** Giving a CPU back: one executing process less, one post more. */
  lemma BlockBalanced(cfg: Settings, s: State, p: nat, w: Waiting)
    requires Balanced(cfg, s) && p in s.processes && s.processes[p].status == Exec && p in s.running
    ensures Balanced(cfg, BlockedOn(s, p, w))
  {
    hide BlockedOn, Pending;
    BlockedOnIs(s, p, w);
    var i := s.processes[p].cpu;
    PendingAfter(s.cpus, i, s.cpus[i].(release := s.cpus[i].release + 1));
  }

  lemma CloseBalanced(cfg: Settings, s: State, p: nat)
    requires Balanced(cfg, s) && p in s.processes && s.processes[p].status == Exec && p in s.running
    ensures Balanced(cfg, Closed(s, p))
  {
    hide Closed, Pending;
    ClosedIs(s, p);
    var i := s.processes[p].cpu;
    PendingAfter(s.cpus, i, s.cpus[i].(release := s.cpus[i].release + 1));
  }

  lemma WakeBalanced(cfg: Settings, s: State, p: nat)
    requires Balanced(cfg, s) && p in s.processes
    ensures Balanced(cfg, Woken(s, p))
  {
    hide Woken, Pending, Without;
    if s.processes[p].status == Blocked { WokenBlockedIs(s, p); } else { WokenSuspendedIs(s, p); }
  }

  lemma CloseDeadlockedBalanced(cfg: Settings, s: State, p: nat)
    requires Balanced(cfg, s) && p in s.processes
    ensures Balanced(cfg, ClosedDeadlocked(s, p))
  {
    hide ClosedDeadlocked, Pending, Without;
    if s.processes[p].status == Blocked { ClosedBlockedIs(s, p); } else { ClosedSuspendedIs(s, p); }
  }

  lemma SuspendBalanced(cfg: Settings, s: State)
    requires Inv(cfg, s) && Balanced(cfg, s) && s.full > 0
    ensures Balanced(cfg, Suspended(cfg, s))
  {
    hide Inv, Suspended, Pending;
    SuspendStarts(cfg, s);
    if MustSuspend(s) {
      var p := s.blocked[|s.blocked| - 1];
      var i := s.processes[p].cpu;
      BlockedIs(cfg, s, p);
      SuspendedIs(cfg, s, p, i);
      PendingAfter(s.cpus, i, s.cpus[i].(release := s.cpus[i].release + 1));
    } else {
      NothingSuspended(cfg, s);
    }
  }

  lemma BlockedIs(cfg: Settings, s: State, p: nat)
    requires Inv(cfg, s) && p in s.blocked
    ensures p in s.processes && s.processes[p].status == Blocked
  {
    assert p in Queue(s, Blocked);
  }

  lemma TakeBalanced(cfg: Settings, s: State, i: nat)
    requires Balanced(cfg, s) && Enabled(s, TakeCpu(i))
    ensures Balanced(cfg, Taken(s, i))
  {
    PendingAfter(s.cpus, i, s.cpus[i].(use := s.cpus[i].use - 1, free := s.cpus[i].free - 1, held := true));
  }

  /** The CPU thread takes one post and puts its CPU on the free list. */
  lemma ReleaseBalanced(cfg: Settings, s: State, i: nat)
    requires Balanced(cfg, s) && Enabled(s, ReleaseCpu(i))
    ensures Balanced(cfg, Released(s, i))
  {
    PendingAfter(s.cpus, i, s.cpus[i].(release := s.cpus[i].release - 1, free := s.cpus[i].free + 1, held := false));
  }

  lemma PostBalanced(cfg: Settings, s: State, p: nat, name: string)
    requires Balanced(cfg, s) && p in s.processes
    ensures Balanced(cfg, PostedBy(s, p, name))
  {
    hide Woken, Pending, Posted;
    if name in s.sems {
      var (sem, woken) := Posted(s.sems[name], s.processes.Keys, true);
      if woken.Some? && woken.value in s.processes {
        WakeBalanced(cfg, s.(sems := s.sems[name := sem], processes := s.processes[p := s.processes[p].(held := 0)]),
                     woken.value);
      }
    }
  }

  lemma PostForDeadBalanced(cfg: Settings, s: State, name: string)
    requires Balanced(cfg, s)
    ensures Balanced(cfg, PostedForDead(s, name))
  {
    hide Woken, Pending, Posted;
    if name in s.sems {
      var (sem, woken) := Posted(s.sems[name], s.processes.Keys, false);
      if woken.Some? && woken.value in s.processes {
        WakeBalanced(cfg, s.(sems := s.sems[name := sem]), woken.value);
      }
    }
  }

  lemma WaitBalanced(cfg: Settings, s: State, p: nat, name: string)
    requires Balanced(cfg, s) && Executing(s, p) && p in s.running
    ensures Balanced(cfg, Waited(s, p, name))
  {
    hide BlockedOn, Pending;
    if name in s.sems && s.sems[name].value - 1 < 0 {
      var sem := s.sems[name];
      BlockBalanced(cfg, s.(sems := s.sems[name := sem.(value := sem.value - 1, queue := sem.queue + [p])]), p,
                    Semaphore(sem.id));
    }
  }

  lemma StepBalanced(cfg: Settings, s: State, step: Step)
    requires Inv(cfg, s) && Balanced(cfg, s) && Enabled(s, step)
    ensures Balanced(cfg, Apply(cfg, s, step))
  {
    hide Admitted, Dispatched, Taken, Released, Waited, PostedBy, PostedForDead, BlockedOn, Woken,
         Suspended, Closed, ClosedDeadlocked, Counted, SemsAgree, WaitingAgrees, Exclusive, Pending, Queued;
    match step
    case Init(_) =>
    case Admit => AdmitBalanced(cfg, s);
    case Dispatch(p) => DispatchBalanced(cfg, s, p);
    case TakeCpu(i) => TakeBalanced(cfg, s, i);
    case ReleaseCpu(i) => ReleaseBalanced(cfg, s, i);
    case Wait(p, name) => RunningIs(s, p); WaitBalanced(cfg, s, p, name);
    case Post(p, name) => PostBalanced(cfg, s, p, name);
    case CallIo(p) => RunningIs(s, p); BlockBalanced(cfg, s, p, Io);
    case IoDone(p) => WakeBalanced(cfg, s, p);
    case Suspend => SuspendBalanced(cfg, s);
    case Close(p) => RunningIs(s, p); CloseBalanced(cfg, s, p);
    case CloseDeadlocked(p) => CloseDeadlockedBalanced(cfg, s, p);
    case PostDeadlocked(name) => PostForDeadBalanced(cfg, s, name);
    case SemInit(_, _) =>
    case SemDestroy(_) =>
  }

  function ExtraPosts(cfg: Settings, ss: seq<State>, steps: seq<Step>, i: nat): nat
    requires i <= |steps| && |ss| == |steps| + 1
  {
    if i == 0 then 0 else ExtraPosts(cfg, ss, steps, i - 1) + if PostsAgain(cfg, ss[i - 1], steps[i - 1]) then 1 else 0
  }

  lemma {:induction false} RunBalanced(cfg: Settings, ss: seq<State>, steps: seq<Step>, i: nat)
    requires Run(cfg, ss, steps) && i < |ss|
    ensures |ss| == |steps| + 1 && Balanced(cfg, ss[i]) && ss[i].extraPosts == ExtraPosts(cfg, ss, steps, i)
    ensures ExtraPosts(cfg, ss, steps, i) == 0 <==> forall j :: 0 <= j < i ==> !PostsAgain(cfg, ss[j], steps[j])
  {
    hide Initial, Apply, Enabled, Balanced, Inv;
    if i == 0 {
      InitialBalanced(cfg);
      InitialTokens(cfg);
    } else {
      RunBalanced(cfg, ss, steps, i - 1);
      RunKeeps(cfg, ss, steps, i - 1);
      assert ss[(i - 1) + 1] == Apply(cfg, ss[i - 1], steps[i - 1]);
      StepBalanced(cfg, ss[i - 1], steps[i - 1]);
      StepCounts(cfg, ss[i - 1], steps[i - 1]);
    }
  }

  /**
   Free CPUs, executing processes and pending releases add up to the number of CPUs plus one for
   every post by the suspender, so to the number of CPUs exactly in the runs without such a post.
   */
  lemma RunCpuBalance(cfg: Settings, ss: seq<State>, steps: seq<Step>, i: nat)
    requires Run(cfg, ss, steps) && i < |ss|
    ensures |ss| == |steps| + 1
    ensures var s := ss[i]; |s.freeCpus| + |s.running| + Pending(s.cpus) == cfg.cpus + ExtraPosts(cfg, ss, steps, i)
    ensures var s := ss[i];
      |s.freeCpus| + |s.running| + Pending(s.cpus) == cfg.cpus <==>
        forall j :: 0 <= j < i ==> !PostsAgain(cfg, ss[j], steps[j])
  {
    RunBalanced(cfg, ss, steps, i);
  }

  // ---- exclusive hand-out ------------------------------------------------------------------

  /** The CPUs with a post pending, when none has more than one. */
  ghost function Releasing(cpus: seq<Cpu>): set<nat> {
    set i: nat | i < |cpus| && cpus[i].release == 1
  }

  lemma {:induction false} PendingCounts(cpus: seq<Cpu>)
    requires forall i :: 0 <= i < |cpus| ==> cpus[i].release <= 1
    ensures Pending(cpus) == |Releasing(cpus)|
    decreases |cpus|
  {
    if cpus != [] {
      var n := |cpus| - 1;
      var rest := cpus[..n];
      PendingCounts(rest);
      PendingAppend(rest, cpus[n]);
      assert rest + [cpus[n]] == cpus;
      assert forall i: nat :: i < n ==> rest[i] == cpus[i];
      assert Releasing(cpus) == Releasing(rest) + if cpus[n].release == 1 then {n} else {};
    }
  }

  lemma {:induction false} PendingAppend(cpus: seq<Cpu>, c: Cpu)
    ensures Pending(cpus + [c]) == Pending(cpus) + c.release
  {
    if cpus == [] {
      assert cpus + [c] == [c];
    } else {
      PendingAppend(cpus[1..], c);
      assert (cpus + [c])[1..] == cpus[1..] + [c];
    }
  }

  ghost function Elements(q: seq<nat>): (r: set<nat>)
    ensures forall x :: x in r <==> x in q
  {
    set x | x in q
  }

  lemma {:induction false} DistinctSize(q: seq<nat>)
    requires Distinct(q)
    ensures |Elements(q)| == |q|
  {
    if q != [] {
      var n := |q| - 1;
      DistinctSize(q[..n]);
      assert q == q[..n] + [q[n]] && q[n] !in Elements(q[..n]);
      assert Elements(q) == Elements(q[..n]) + {q[n]};
    }
  }

  ghost function Below(n: nat): (r: set<nat>)
    ensures |r| == n && forall i: nat :: i in r <==> i < n
  {
    if n == 0 then {} else Below(n - 1) + {n - 1}
  }

  lemma ThreeParts(n: nat, f: set<nat>, h: set<nat>, r: set<nat>)
    requires forall i: nat :: i < n <==> i in f || i in h || i in r
    requires forall i: nat :: i < n ==> !(i in f && i in h) && !(i in f && i in r) && !(i in h && i in r)
    ensures |f| + |h| + |r| == n
  {
    assert Below(n) == f + h + r;
    assert |f + h + r| == |f + h| + |r| && |f + h| == |f| + |h|;
  }

  /** A CPU in exactly one of the three places. */
  lemma OnePlace(s: State, held: seq<nat>, i: nat)
    requires i < |s.cpus| && FreeHeldOrReleased(s, i) && (i in held <==> exists p :: RunsOn(s, p, i))
    ensures s.cpus[i].release <= 1 && (i in s.freeCpus || i in held || s.cpus[i].release == 1)
    ensures !(i in s.freeCpus && i in held) && !(i in s.freeCpus && s.cpus[i].release == 1)
    ensures !(i in held && s.cpus[i].release == 1)
  {
  }

  /** Where each CPU is in exactly one of the three places, the three add up to the CPUs. */
  lemma ExclusiveAddsUp(cfg: Settings, s: State)
    requires Inv(cfg, s) && OnCpus(s) && HandOutExclusive(s)
    ensures |s.freeCpus| + |s.running| + Pending(s.cpus) == cfg.cpus
  {
    hide Pending, SemsAgree, WaitingAgrees, Exclusive, FreeHeldOrReleased, RunsOn, CpuOf, Elements, Queued;
    var n := |s.cpus|;
    var held := seq(|s.running|, j requires 0 <= j < |s.running| => CpuOf(s, s.running[j]));
    HeldCpus(cfg, s, held);
    forall i | 0 <= i < n
      ensures s.cpus[i].release <= 1 && (i in s.freeCpus || i in held || s.cpus[i].release == 1)
      ensures !(i in s.freeCpus && i in held) && !(i in s.freeCpus && s.cpus[i].release == 1)
      ensures !(i in held && s.cpus[i].release == 1)
    {
      OnePlace(s, held, i);
    }
    PendingCounts(s.cpus);
    DistinctSize(s.freeCpus);
    DistinctSize(held);
    ThreeParts(n, Elements(s.freeCpus), Elements(held), Releasing(s.cpus));
  }

  /** The CPUs of the executing processes, one each. */
  lemma HeldCpus(cfg: Settings, s: State, held: seq<nat>)
    requires Inv(cfg, s) && OnCpus(s) && HandOutExclusive(s)
    requires |held| == |s.running| && forall j :: 0 <= j < |held| ==> held[j] == CpuOf(s, s.running[j])
    ensures Distinct(held)
    ensures forall i: nat :: i in held <==> exists p :: RunsOn(s, p, i)
    ensures forall i: nat :: i in held ==> i < |s.cpus|
  {
    hide SemsAgree, WaitingAgrees, Exclusive, Counted, FreeHeldOrReleased;
    forall j | 0 <= j < |held|
      ensures s.running[j] in s.processes && RunsOn(s, s.running[j], held[j]) && held[j] < |s.cpus|
    {
      RunningProcess(s, s.running[j]);
    }
    RunningDistinct(s);
    forall j, k | 0 <= j < k < |held| ensures held[j] != held[k] {
      assert RunsOn(s, s.running[j], held[j]) && RunsOn(s, s.running[k], held[k]);
    }
    forall i: nat ensures i in held <==> exists p :: RunsOn(s, p, i) {
      if p :| RunsOn(s, p, i) {
        var j :| 0 <= j < |s.running| && s.running[j] == p;
        assert held[j] == i;
      }
    }
  }

  lemma RunningProcess(s: State, p: nat)
    requires Queued(s) && p in s.running
    ensures p in s.processes && s.processes[p].status == Exec
  {
    assert p in Queue(s, Exec);
  }

  lemma RunningDistinct(s: State)
    requires Queued(s)
    ensures Distinct(s.running)
  {
    assert Distinct(Queue(s, Exec));
  }

  /**
   At a point of a run the hand-out of CPUs is exclusive exactly when the suspender has not posted
   liberar_CPU again before it; and then no more processes execute than there are CPUs.
   */
  lemma RunCpus(cfg: Settings, ss: seq<State>, steps: seq<Step>, i: nat)
    requires Run(cfg, ss, steps) && i < |ss|
    ensures |ss| == |steps| + 1 && |ss[i].cpus| == cfg.cpus
    ensures HandOutExclusive(ss[i]) <==> forall j :: 0 <= j < i ==> !PostsAgain(cfg, ss[j], steps[j])
    ensures HandOutExclusive(ss[i]) ==> |ss[i].running| <= cfg.cpus
  {
    hide Run, HandOutExclusive;
    RunBalanced(cfg, ss, steps, i);
    RunKeeps(cfg, ss, steps, i);
    if HandOutExclusive(ss[i]) {
      ExclusiveAddsUp(cfg, ss[i]);
    }
    if ExtraPosts(cfg, ss, steps, i) == 0 {
      ExclusiveWithoutReposts(cfg, ss, steps, i);
    }
  }
}
