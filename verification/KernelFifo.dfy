/** Waiters of a semaphore are let through in the order in which they were queued, in every run. */
module KernelFifo {
  import opened Kernel
  import opened KernelRuns

  /** `p` stands before `r`. */
  ghost predicate Ahead(q: seq<nat>, p: nat, r: nat) {
    exists i, j :: 0 <= i < j < |q| && q[i] == p && q[j] == r
  }

  lemma AheadInTail(q: seq<nat>, k: nat, p: nat, r: nat)
    requires Distinct(q) && Ahead(q, p, r) && k <= |q| && p in q[k..]
    ensures Ahead(q[k..], p, r)
  {
    var i, j :| 0 <= i < j < |q| && q[i] == p && q[j] == r;
    var m :| 0 <= m < |q[k..]| && q[k..][m] == p;
    assert i == k + m;
    assert q[k..][j - k] == r;
  }

  /** A post takes live waiters from the front only. */
  lemma PostedAhead(sem: Sem, alive: set<nat>, tryNext: bool, p: nat, r: nat)
    requires Distinct(sem.queue) && Ahead(sem.queue, p, r) && p in alive
    requires p in Posted(sem, alive, tryNext).0.queue
    ensures Ahead(Posted(sem, alive, tryNext).0.queue, p, r)
  {
    hide Distinct, Ahead;
    var q := Posted(sem, alive, tryNext).0.queue;
    var k := |sem.queue| - |q|;
    assert q == sem.queue[k..];
    AheadInTail(sem.queue, k, p, r);
  }

  lemma AheadLonger(q: seq<nat>, x: nat, p: nat, r: nat)
    requires Ahead(q, p, r)
    ensures Ahead(q + [x], p, r)
  {
    var i, j :| 0 <= i < j < |q| && q[i] == p && q[j] == r;
    assert (q + [x])[i] == p && (q + [x])[j] == r;
  }

  /** What one step can do to a semaphore: nothing, queue a waiter, let a wait through, or a post. */
  ghost predicate SemStep(s: Sem, t: Sem, alive: set<nat>) {
    || t == s
    || (s.value <= 0 && exists x :: t == s.(value := s.value - 1, queue := s.queue + [x]))
    || (s.value > 0 && t == s.(value := s.value - 1, passed := s.passed + 1))
    || (exists tryNext :: t == Posted(s, alive, tryNext).0)
  }

  /**
   A step lets at most one wait through, and none while it leaves the value negative; it counts one
   post or one wait at most.
   */
  lemma OneAtATime(s: Sem, t: Sem, alive: set<nat>)
    requires SemStep(s, t, alive)
    ensures t.id == s.id && t.initial == s.initial
    ensures t.passed == s.passed || (t.passed == s.passed + 1 && t.value >= 0)
    ensures t.posts == s.posts || (t.posts == s.posts + 1 && t.value == s.value + 1)
  {
    if tryNext :| t == Posted(s, alive, tryNext).0 {
      PostIsFifo(s, alive, tryNext);
    }
  }

  lemma WokenSems(s: State, p: nat)
    requires p in s.processes
    ensures Woken(s, p).sems == s.sems
  {
    if s.processes[p].status == Blocked { WokenBlockedIs(s, p); } else { WokenSuspendedIs(s, p); }
  }

  lemma BlockedOnSems(s: State, p: nat, w: Waiting)
    requires p in s.processes
    ensures BlockedOn(s, p, w).sems == s.sems
  {
    BlockedOnIs(s, p, w);
  }

  lemma MovedSems(s: State, p: nat, st: Status, to: Status)
    requires p in s.processes
    ensures Moved(s, p, st, to).sems == s.sems
  {
    MovedRest(s, p, st, to);
  }

  lemma GoneSems(s: State, p: nat, st: Status)
    ensures Gone(s, p, st).sems == s.sems
  {
    GoneRest(s, p, st);
  }

  lemma PostedBySems(s: State, p: nat, post: string, name: string)
    requires p in s.processes && name in s.sems
    ensures name in PostedBy(s, p, post).sems
    ensures SemStep(s.sems[name], PostedBy(s, p, post).sems[name], s.processes.Keys)
  {
    hide Posted, Woken;
    if post in s.sems {
      var (sem, woken) := Posted(s.sems[post], s.processes.Keys, true);
      if woken.Some? && woken.value in s.processes {
        WokenSems(s.(sems := s.sems[post := sem], processes := s.processes[p := s.processes[p].(held := 0)]),
                  woken.value);
      }
    }
  }

  lemma PostedForDeadSems(s: State, post: string, name: string)
    requires name in s.sems
    ensures name in PostedForDead(s, post).sems
    ensures SemStep(s.sems[name], PostedForDead(s, post).sems[name], s.processes.Keys)
  {
    hide Posted, Woken;
    if post in s.sems {
      var (sem, woken) := Posted(s.sems[post], s.processes.Keys, false);
      if woken.Some? && woken.value in s.processes {
        WokenSems(s.(sems := s.sems[post := sem]), woken.value);
      }
    }
  }

  lemma WaitedSems(s: State, p: nat, wait: string, name: string)
    requires p in s.processes && name in s.sems
    ensures name in Waited(s, p, wait).sems
    ensures SemStep(s.sems[name], Waited(s, p, wait).sems[name], s.processes.Keys)
  {
    hide BlockedOn, Posted;
    if wait in s.sems && s.sems[wait].value - 1 < 0 {
      var sem := s.sems[wait];
      BlockedOnSems(s.(sems := s.sems[wait := sem.(value := sem.value - 1, queue := sem.queue + [p])]), p,
                    Semaphore(sem.id));
    }
  }

  /** Each step does one of these to each semaphore. */
  lemma StepSems(cfg: Settings, s: State, step: Step, name: string)
    requires Enabled(s, step) && name in s.sems && name in Apply(cfg, s, step).sems
    ensures SemStep(s.sems[name], Apply(cfg, s, step).sems[name], s.processes.Keys)
  {
    hide PostedBy, PostedForDead, Waited, Moved, Gone, Woken, BlockedOn, Posted;
    forall p, st, to | p in s.processes ensures Moved(s, p, st, to).sems == s.sems {
      MovedSems(s, p, st, to);
    }
    forall p, st ensures Gone(s, p, st).sems == s.sems {
      GoneSems(s, p, st);
    }
    match step
    case Post(p, post) => PostedBySems(s, p, post, name);
    case PostDeadlocked(post) => PostedForDeadSems(s, post, name);
    case Wait(p, wait) => WaitedSems(s, p, wait, name);
    case IoDone(p) => WokenSems(s, p);
    case CallIo(p) => BlockedOnSems(s, p, Io);
    case Dispatch(p) => DispatchedSems(s, p);
    case _ =>
  }

  lemma DispatchedSems(s: State, p: nat)
    requires s.readyTokens > 0 && s.cpuTokens > 0
    ensures p in s.processes && s.freeCpus != [] ==> Dispatched(s, p).sems == s.sems
  {
    hide Moved;
    forall u: State, st, to | p in u.processes ensures Moved(u, p, st, to).sems == u.sems {
      MovedSems(u, p, st, to);
    }
  }

  /** The semaphore is still the one it was in `s`, and `p` is alive and in its queue. */
  ghost predicate StillWaits(s: State, t: State, name: string, p: nat) {
    && name in s.sems && name in t.sems && t.sems[name].id == s.sems[name].id
    && p in t.processes && p in t.sems[name].queue
  }

  /**
   For as long as a live process is queued on a semaphore, whoever was queued after it stays queued
   behind it: of two waiters the later one is never let through first.
   */
  lemma {:induction false} RunIsFifo(
      cfg: Settings, ss: seq<State>, steps: seq<Step>, i: nat, j: nat, name: string, p: nat, r: nat)
    requires Run(cfg, ss, steps) && i <= j < |ss|
    requires forall k :: i <= k <= j ==> StillWaits(ss[i], ss[k], name, p)
    requires name in ss[i].sems && Ahead(ss[i].sems[name].queue, p, r)
    ensures name in ss[j].sems && Ahead(ss[j].sems[name].queue, p, r)
    decreases j
  {
    hide Ahead, Apply, Enabled, Posted, Inv, Initial;
    assert StillWaits(ss[i], ss[j], name, p);
    if i < j {
      RunIsFifo(cfg, ss, steps, i, j - 1, name, p, r);
      assert StillWaits(ss[i], ss[j - 1], name, p);
      RunKeeps(cfg, ss, steps, j - 1);
      assert ss[(j - 1) + 1] == Apply(cfg, ss[j - 1], steps[j - 1]);
      StepSems(cfg, ss[j - 1], steps[j - 1], name);
      QueueOrder(cfg, ss[j - 1], ss[j], name, p, r);
    }
  }

  lemma QueueOrder(cfg: Settings, s: State, t: State, name: string, p: nat, r: nat)
    requires Inv(cfg, s) && name in s.sems && name in t.sems && p in s.processes && p in t.sems[name].queue
    requires SemStep(s.sems[name], t.sems[name], s.processes.Keys) && Ahead(s.sems[name].queue, p, r)
    ensures Ahead(t.sems[name].queue, p, r)
  {
    hide Ahead, Posted, Counted, Queued, Exclusive, WaitingAgrees;
    var q, now := s.sems[name], t.sems[name].queue;
    assert SemAgrees(s, q);
    if now != q.queue {
      if x :| now == q.queue + [x] {
        AheadLonger(q.queue, x, p, r);
      } else {
        var tryNext :| t.sems[name] == Posted(q, s.processes.Keys, tryNext).0;
        PostedAhead(q, s.processes.Keys, tryNext, p, r);
      }
    }
  }

  /** In every run, step by step: at most one wait goes through at a time, and never past a negative value. */
  lemma RunLetsOneThrough(cfg: Settings, ss: seq<State>, steps: seq<Step>, i: nat, name: string)
    requires Run(cfg, ss, steps) && i < |steps| && name in ss[i].sems && i + 1 < |ss| && name in ss[i + 1].sems
    ensures var s, t := ss[i].sems[name], ss[i + 1].sems[name];
      && t.id == s.id
      && (t.passed == s.passed || (t.passed == s.passed + 1 && t.value >= 0))
  {
    hide Apply, Enabled, SemStep, Initial;
    assert ss[i + 1] == Apply(cfg, ss[i], steps[i]);
    StepSems(cfg, ss[i], steps[i], name);
    OneAtATime(ss[i].sems[name], ss[i + 1].sems[name], ss[i].processes.Keys);
  }
}
