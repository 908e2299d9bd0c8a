/** The semaphores of the processes: who waits on them, who is woken, and what their counters count, over runs. */
module KernelSems {
  import opened Kernel
  import opened KernelFifo
  import opened KernelMoves
  import opened KernelRuns

  predicate PostsOn(step: Step, name: string) {
    (step.Post? && step.name == name) || (step.PostDeadlocked? && step.name == name)
  }

  predicate WaitsOn(step: Step, name: string) {
    step.Wait? && step.name == name
  }

  // ---- one step ------------------------------------------------------------------------------------------

  /** A post drops the waiter it lets through and who stood before it, or a dead head nobody of whom it lets through. */
  ghost predicate QueueAfterPost(s: State, name: string, byProcess: bool, q: seq<nat>)
    requires name in s.sems
  {
    var was := s.sems[name];
    if was.value + 1 < 0 || was.queue == [] then q == was.queue
    else
      var k := if byProcess && |was.queue| > 1 && was.queue[0] !in s.processes && was.queue[1] in s.processes
               then 2 else 1;
      q == was.queue[k..]
  }

  ghost predicate SemAfter(s: State, step: Step, name: string, r: Sem)
    requires name in s.sems
  {
    var was := s.sems[name];
    && r.id == was.id && r.initial == was.initial
    && r.value == was.value + (if PostsOn(step, name) then 1 else 0) - (if WaitsOn(step, name) then 1 else 0)
    && r.posts == was.posts + (if PostsOn(step, name) then 1 else 0)
    && r.passed == was.passed + (if LetsOneThrough(s, step, name) then 1 else 0)
    && (if PostsOn(step, name) then QueueAfterPost(s, name, step.Post?, r.queue)
        else r.queue == if WaitsOn(step, name) && was.value <= 0 then was.queue + [step.p] else was.queue)
  }

  /** A wait on a positive value goes through; a post lets the waiter through that it meets alive. */
  ghost predicate LetsOneThrough(s: State, step: Step, name: string)
    requires name in s.sems
  {
    || (WaitsOn(step, name) && s.sems[name].value > 0)
    || (PostsOn(step, name) && PostTakes(s, name, step.Post?).Goes?)
  }

  lemma PostedAfter(s: State, step: Step, name: string)
    requires name in s.sems && PostsOn(step, name)
    ensures SemAfter(s, step, name, Posted(s.sems[name], s.processes.Keys, step.Post?).0)
  {
    var (r, w) := Posted(s.sems[name], s.processes.Keys, step.Post?);
    assert w.Some? ==> LetsThrough(s, name, step.Post?, w.value);
    forall q: nat | LetsThrough(s, name, step.Post?, q) ensures w.Some? {}
  }

  lemma PostSems(cfg: Settings, s: State, step: Step)
    requires Enabled(s, step) && (step.Post? || step.PostDeadlocked?)
    ensures Apply(cfg, s, step).sems ==
      if step.name in s.sems
      then s.sems[step.name := Posted(s.sems[step.name], s.processes.Keys, step.Post?).0] else s.sems
    ensures Apply(cfg, s, step).nextSem == s.nextSem
  {
    hide Posted, Woken;
    if step.name in s.sems {
      var (sem, woken) := Posted(s.sems[step.name], s.processes.Keys, step.Post?);
      if woken.Some? && woken.value in s.processes {
        var m := s.(sems := s.sems[step.name := sem]);
        WokenSems(m, woken.value);
        WokenNextSem(m, woken.value);
        if step.Post? {
          var u := m.(processes := s.processes[step.p := s.processes[step.p].(held := 0)]);
          WokenSems(u, woken.value);
          WokenNextSem(u, woken.value);
        }
      }
    }
  }

  lemma WaitSems(s: State, p: nat, name: string)
    requires p in s.processes
    ensures Waited(s, p, name).sems ==
      if name !in s.sems then s.sems
      else
        var was := s.sems[name];
        s.sems[name := if was.value <= 0 then was.(value := was.value - 1, queue := was.queue + [p])
                       else was.(value := was.value - 1, passed := was.passed + 1)]
    ensures Waited(s, p, name).nextSem == s.nextSem
  {
    hide BlockedOn;
    if name in s.sems && s.sems[name].value <= 0 {
      var was := s.sems[name];
      var m := s.(sems := s.sems[name := was.(value := was.value - 1, queue := was.queue + [p])]);
      BlockedOnSems(m, p, Semaphore(was.id));
      BlockedOnNextSem(m, p, Semaphore(was.id));
    }
  }

  /** Steps other than waits and posts leave every semaphore alone, except to create one or to destroy it. */
  lemma OtherSems(cfg: Settings, s: State, step: Step)
    requires Enabled(s, step)
    requires !step.Wait? && !step.Post? && !step.PostDeadlocked? && !step.SemInit? && !step.SemDestroy?
    ensures Apply(cfg, s, step).sems == s.sems && Apply(cfg, s, step).nextSem == s.nextSem
  {
    hide Moved, Gone, Woken, BlockedOn;
    forall u: State, p, st, to | p in u.processes ensures SameRest(u, Moved(u, p, st, to)) {
      MovedRest(u, p, st, to);
    }
    forall p, st ensures SameRest(s, Gone(s, p, st)) {
      GoneRest(s, p, st);
    }
    match step
    case IoDone(p) => WokenSems(s, p); WokenNextSem(s, p);
    case CallIo(p) => BlockedOnSems(s, p, Io); BlockedOnNextSem(s, p, Io);
    case _ =>
  }

  lemma WokenNextSem(s: State, p: nat)
    requires p in s.processes
    ensures Woken(s, p).nextSem == s.nextSem
  {
    if s.processes[p].status == Blocked { WokenBlockedIs(s, p); } else { WokenSuspendedIs(s, p); }
  }

  lemma BlockedOnNextSem(s: State, p: nat, w: Waiting)
    requires p in s.processes
    ensures BlockedOn(s, p, w).nextSem == s.nextSem
  {
    BlockedOnIs(s, p, w);
  }

  /** What each step does to each semaphore: in particular a new one has the value it is given. */
  lemma StepSem(cfg: Settings, s: State, step: Step, name: string)
    requires Enabled(s, step)
    ensures var t := Apply(cfg, s, step);
      if name in s.sems && step != SemDestroy(name) then name in t.sems && SemAfter(s, step, name, t.sems[name])
      else if name !in s.sems && step.SemInit? && step.name == name then
        name in t.sems && t.sems[name] == Sem(s.nextSem, step.value, [], step.value, 0, 0)
      else name !in t.sems
  {
    hide Posted, QueueAfterPost, Waited, PostedBy, PostedForDead, Admitted, Dispatched, Taken, Released, BlockedOn,
         Woken, Suspended, Closed, ClosedDeadlocked;
    match step
    case SemInit(_, _) =>
    case SemDestroy(_) =>
    case Wait(p, n) => WaitSems(s, p, n);
    case Post(_, n) =>
      PostSems(cfg, s, step);
      if n in s.sems { PostedAfter(s, step, n); }
    case PostDeadlocked(n) =>
      PostSems(cfg, s, step);
      PostedAfter(s, step, n);
    case _ => OtherSems(cfg, s, step);
  }

  // ---- who is woken ------------------------------------------------------------------------------------

  /** `q` is last in READY or SUSPENDED-READY, by where it was, with the token posted; nobody else has moved. */
  ghost predicate WokePlaces(s: State, t: State, q: nat) {
    && q in t.processes && q !in t.blocked && q !in t.suspendedBlocked
    && (if q in s.blocked then
          t.ready == s.ready + [q] && t.readyTokens == s.readyTokens + 1
          && t.suspendedReady == s.suspendedReady && t.arrivals == s.arrivals
        else
          t.suspendedReady == s.suspendedReady + [q] && t.arrivals == s.arrivals + 1
          && t.ready == s.ready && t.readyTokens == s.readyTokens)
    && forall p :: p in s.processes && p != q ==> p in t.processes && t.processes[p].status == s.processes[p].status
  }

  /** `q` waits for nothing, and everybody else for what it did. */
  ghost predicate WokeWaits(s: State, t: State, q: nat) {
    && q in t.processes && t.processes[q].waiting == Nothing
    && forall p :: p in s.processes && p in t.processes && p != q ==> t.processes[p].waiting == s.processes[p].waiting
  }

  ghost predicate Woke(s: State, t: State, q: nat) {
    WokePlaces(s, t, q) && WokeWaits(s, t, q)
  }

  lemma PlacesOf(cfg: Settings, s: State, t: State, q: nat)
    requires Inv(cfg, s) && Inv(cfg, t) && Moves(s, t, Wakes(s, q))
    requires q in s.processes && s.processes[q].waiting != Nothing
    ensures WokePlaces(s, t, q)
  {
    hide SemsAgree, Exclusive, Loses, Queue;
    QueueNames(s);
    QueueNames(t);
    BlockedHere(s, q);
    BlockedHere(t, q);
    AwakeStays(s, q);
    assert q in Queue(t, SuspendedBlocked) <==> q in t.processes && t.processes[q].status == SuspendedBlocked;
  }

  lemma WaitsOf(s: State, step: Step, t: State, q: nat)
    requires Records(s, step, t) && MoveOf(s, step) == Wakes(s, q) && q in s.processes && q in t.processes
    ensures WokeWaits(s, t, q)
  {
    hide MoveOf, HeldAfter;
  }

  /**
   The waiter a post meets alive once the value is no longer negative is woken: it waits for nothing, is
   off the semaphore's queue and last in READY or, if it was suspended, in SUSPENDED-READY, whose token is posted.
   */
  lemma PostWakes(cfg: Settings, s: State, step: Step, name: string, q: nat)
    requires Inv(cfg, s) && Enabled(s, step) && PostsOn(step, name) && LetsThrough(s, name, step.Post?, q)
    ensures var t := Apply(cfg, s, step); Woke(s, t, q) && name in t.sems && q !in t.sems[name].queue
  {
    hide Apply, LetsThrough, Queued, Exclusive, Counted, WaitingAgrees, Moves, Records, WokePlaces, MoveOf;
    var t := Apply(cfg, s, step);
    StepMoves(cfg, s, step);
    StepKeeps(cfg, s, step);
    StepSem(cfg, s, step, name);
    OneLetThrough(s, name, step.Post?, q);
    PostMoveOf(s, step, name);
    assert SemAgrees(s, s.sems[name]);
    PlacesOf(cfg, s, t, q);
    StillAlive(s, t, q);
    WaitsOf(s, step, t, q);
    assert SemAgrees(t, t.sems[name]);
  }

  lemma PostMoveOf(s: State, step: Step, name: string)
    requires PostsOn(step, name)
    ensures MoveOf(s, step) == PostTakes(s, name, step.Post?)
  {
  }

  lemma StillAlive(s: State, t: State, q: nat)
    requires WokePlaces(s, t, q)
    ensures q in t.processes
  {
  }

  lemma OneLetThrough(s: State, name: string, byProcess: bool, q: nat)
    requires LetsThrough(s, name, byProcess, q)
    ensures PostTakes(s, name, byProcess) == Wakes(s, q)
    ensures name in s.sems && q in s.processes && q in s.sems[name].queue
  {
  }

  /** A post that meets no live waiter, or leaves the value negative, changes no queue of processes. */
  lemma PostWakesNobody(cfg: Settings, s: State, step: Step, name: string)
    requires Inv(cfg, s) && Enabled(s, step) && PostsOn(step, name)
    requires forall q :: !LetsThrough(s, name, step.Post?, q)
    ensures SameQueues(s, Apply(cfg, s, step))
  {
    hide Apply, Inv, LetsThrough, SameQueues, Records;
    StepMoves(cfg, s, step);
  }

  // ---- who waits ---------------------------------------------------------------------------------------

  /** A live process that waits for a semaphore is in its queue for as long as that semaphore exists. */
  ghost predicate WaitersQueued(s: State) {
    forall p :: p in s.processes && s.processes[p].waiting.Semaphore? ==>
      && s.processes[p].waiting.id < s.nextSem
      && forall n :: n in s.sems && s.sems[n].id == s.processes[p].waiting.id ==> p in s.sems[n].queue
  }

  lemma NextSemGrows(cfg: Settings, s: State, step: Step)
    requires Enabled(s, step)
    ensures Apply(cfg, s, step).nextSem == if step.SemInit? && step.name !in s.sems then s.nextSem + 1 else s.nextSem
  {
    hide PostedBy, PostedForDead, Waited, Woken, BlockedOn, Admitted, Dispatched, Suspended, Closed, ClosedDeadlocked;
    match step
    case Wait(p, n) => WaitSems(s, p, n);
    case Post(_, _) => PostSems(cfg, s, step);
    case PostDeadlocked(_) => PostSems(cfg, s, step);
    case SemInit(_, _) =>
    case SemDestroy(_) =>
    case _ => OtherSems(cfg, s, step);
  }

  /** A live waiter leaves the queue only when it is let through. */
  lemma StaysQueued(s: State, step: Step, n: string, r: Sem, p: nat)
    requires n in s.sems && SemAfter(s, step, n, r) && p in s.sems[n].queue && p in s.processes
    requires PostsOn(step, n) ==> !LetsThrough(s, n, step.Post?, p)
    ensures p in r.queue
  {
    var q := s.sems[n].queue;
    var j :| 0 <= j < |q| && q[j] == p;
    if PostsOn(step, n) && r.queue != q {
      var k := |q| - |r.queue|;
      assert j >= k && r.queue[j - k] == p;
    }
  }

  /** A process waits for a semaphore after a step if it did before, or if the step is its wait. */
  lemma WaitsAlready(s: State, step: Step, t: State, p: nat)
    requires Moves(s, t, MoveOf(s, step)) && Records(s, step, t)
    requires p in t.processes && t.processes[p].waiting.Semaphore?
    ensures p in s.processes
    ensures if step.Wait? && step.p == p && step.name in s.sems && s.sems[step.name].value <= 0
            then t.processes[p].waiting == Semaphore(s.sems[step.name].id)
            else t.processes[p].waiting == s.processes[p].waiting
    ensures forall n :: n in s.sems && PostsOn(step, n) ==> !LetsThrough(s, n, step.Post?, p)
  {
    forall n | n in s.sems && PostsOn(step, n) && LetsThrough(s, n, step.Post?, p) ensures false {
      OneLetThrough(s, n, step.Post?, p);
    }
  }

  lemma StepWaiter(cfg: Settings, s: State, step: Step, p: nat, n: string)
    requires Inv(cfg, s) && Enabled(s, step) && WaitersQueued(s)
    requires var t := Apply(cfg, s, step);
      p in t.processes && t.processes[p].waiting.Semaphore? && n in t.sems && t.sems[n].id == t.processes[p].waiting.id
    ensures p in Apply(cfg, s, step).sems[n].queue
  {
    hide Apply, Queued, Exclusive, Counted, WaitingAgrees, Moves, Records, LetsThrough, SemAfter, SemAgrees;
    var t := Apply(cfg, s, step);
    StepMoves(cfg, s, step);
    WaitsAlready(s, step, t, p);
    StepSem(cfg, s, step, n);
    if n in s.sems {
      SameSemaphore(s, step, n, t.sems[n]);
      if step.Wait? && step.p == p && step.name in s.sems && s.sems[step.name].value <= 0 {
        JoinsQueue(s, step, n, t.sems[n]);
      } else {
        StaysQueued(s, step, n, t.sems[n], p);
      }
    } else {
      SemIdsBelow(s, step);
    }
  }

  lemma SameSemaphore(s: State, step: Step, n: string, r: Sem)
    requires n in s.sems && SemAfter(s, step, n, r)
    ensures r.id == s.sems[n].id
  {
  }

  lemma JoinsQueue(s: State, step: Step, n: string, r: Sem)
    requires n in s.sems && SemAfter(s, step, n, r) && WaitsOn(step, n) && s.sems[n].value <= 0
    ensures step.p in r.queue
  {
  }

  lemma SemIdsBelow(s: State, step: Step)
    requires SemsAgree(s) && step.Wait? && step.name in s.sems
    ensures s.sems[step.name].id < s.nextSem
  {
    assert SemAgrees(s, s.sems[step.name]);
  }

  lemma StepWaiters(cfg: Settings, s: State, step: Step)
    requires Inv(cfg, s) && Enabled(s, step) && WaitersQueued(s)
    ensures WaitersQueued(Apply(cfg, s, step))
  {
    hide Apply, Queued, Exclusive, Counted, WaitingAgrees, Moves, Records, LetsThrough, SemAgrees;
    var t := Apply(cfg, s, step);
    NextSemGrows(cfg, s, step);
    StepMoves(cfg, s, step);
    forall p | p in t.processes && t.processes[p].waiting.Semaphore?
      ensures t.processes[p].waiting.id < t.nextSem
      ensures forall n :: n in t.sems && t.sems[n].id == t.processes[p].waiting.id ==> p in t.sems[n].queue
    {
      WaitsAlready(s, step, t, p);
      if step.Wait? && step.name in s.sems { SemIdsBelow(s, step); }
      forall n | n in t.sems && t.sems[n].id == t.processes[p].waiting.id ensures p in t.sems[n].queue {
        StepWaiter(cfg, s, step, p, n);
      }
    }
  }

  lemma {:induction false} WaitersReached(cfg: Settings, ss: seq<State>, steps: seq<Step>, i: nat)
    requires Run(cfg, ss, steps) && i < |ss|
    ensures WaitersQueued(ss[i])
  {
    hide Inv, Apply, Enabled, Initial, WaitersQueued;
    if i == 0 {
      NobodyWaits(cfg);
    } else {
      WaitersReached(cfg, ss, steps, i - 1);
      RunKeeps(cfg, ss, steps, i - 1);
      assert ss[(i - 1) + 1] == Apply(cfg, ss[i - 1], steps[i - 1]);
      StepWaiters(cfg, ss[i - 1], steps[i - 1]);
    }
  }

  lemma NobodyWaits(cfg: Settings)
    ensures WaitersQueued(Initial(cfg))
  {
  }

  /** 0, which stands for no semaphore, is nobody's number. */
  lemma {:induction false} NumbersFromOne(cfg: Settings, ss: seq<State>, steps: seq<Step>, i: nat)
    requires Run(cfg, ss, steps) && i < |ss|
    ensures 1 <= ss[i].nextSem && forall n :: n in ss[i].sems ==> 1 <= ss[i].sems[n].id
  {
    hide Apply, Enabled;
    if i > 0 {
      var s, step := ss[i - 1], steps[i - 1];
      NumbersFromOne(cfg, ss, steps, i - 1);
      assert ss[(i - 1) + 1] == Apply(cfg, s, step);
      NextSemGrows(cfg, s, step);
      forall n | n in ss[i].sems ensures 1 <= ss[i].sems[n].id {
        StepSem(cfg, s, step, n);
      }
    }
  }

  /** In every run the live waiters of a semaphore are exactly the processes in its queue that are still alive. */
  lemma RunWaiters(cfg: Settings, ss: seq<State>, steps: seq<Step>, i: nat, name: string, p: nat)
    requires Run(cfg, ss, steps) && i < |ss| && name in ss[i].sems && p in ss[i].processes
    ensures p in ss[i].sems[name].queue <==> ss[i].processes[p].waiting == Semaphore(ss[i].sems[name].id)
  {
    hide Run, Queued, Counted, Exclusive, WaitingAgrees;
    RunKeeps(cfg, ss, steps, i);
    WaitersReached(cfg, ss, steps, i);
    assert SemAgrees(ss[i], ss[i].sems[name]);
  }

  // ---- what the counters count -----------------------------------------------------------------------

  /** Waits and posts of a semaphore since it came to be, the waits let through, and the dead waiters dropped. */
  datatype Tally = Tally(waits: nat, posts: nat, through: nat, dropped: nat)

  /** A post meets a dead head once the value is no longer negative. */
  ghost predicate DropsDead(s: State, step: Step, name: string)
    requires name in s.sems
  {
    && PostsOn(step, name) && s.sems[name].value + 1 >= 0
    && s.sems[name].queue != [] && s.sems[name].queue[0] !in s.processes
  }

  ghost function TallyOf(ss: seq<State>, steps: seq<Step>, i: nat, name: string): Tally
    requires i < |ss| && |ss| == |steps| + 1
  {
    if i == 0 || name !in ss[i - 1].sems then Tally(0, 0, 0, 0)
    else
      var (s, step, was) := (ss[i - 1], steps[i - 1], TallyOf(ss, steps, i - 1, name));
      Tally(was.waits + if WaitsOn(step, name) then 1 else 0,
            was.posts + if PostsOn(step, name) then 1 else 0,
            was.through + if LetsOneThrough(s, step, name) then 1 else 0,
            was.dropped + if DropsDead(s, step, name) then 1 else 0)
  }

  ghost predicate Tallied(sem: Sem, n: Tally) {
    && sem.value == sem.initial + n.posts - n.waits && sem.posts == n.posts && sem.passed == n.through
    && |sem.queue| + n.through + n.dropped == n.waits
  }

  lemma TallyStep(s: State, step: Step, name: string, r: Sem, n: Tally)
    requires name in s.sems && SemAfter(s, step, name, r) && Tallied(s.sems[name], n)
    ensures Tallied(r, Tally(n.waits + if WaitsOn(step, name) then 1 else 0,
                             n.posts + if PostsOn(step, name) then 1 else 0,
                             n.through + if LetsOneThrough(s, step, name) then 1 else 0,
                             n.dropped + if DropsDead(s, step, name) then 1 else 0))
  {
    if PostsOn(step, name) {
      var w := s.sems[name].queue;
      forall q | LetsThrough(s, name, step.Post?, q) ensures PostTakes(s, name, step.Post?).Goes? {
        OneLetThrough(s, name, step.Post?, q);
      }
      if w != [] && s.sems[name].value + 1 >= 0 {
        assert w[0] in s.processes ==> LetsThrough(s, name, step.Post?, w[0]);
        assert step.Post? && |w| > 1 && w[0] !in s.processes && w[1] in s.processes ==>
            LetsThrough(s, name, true, w[1]);
      }
    }
  }

  /** The step that made a semaphore. */
  ghost predicate MadeBy(ss: seq<State>, steps: seq<Step>, j: nat, name: string, sem: Sem) {
    && j < |steps| && j < |ss| && name !in ss[j].sems && sem.id == ss[j].nextSem
    && steps[j].SemInit? && steps[j].name == name && steps[j].value == sem.initial
  }

  /**
   In every run, of every semaphore: its value is the one it was made with plus its posts minus its waits; each
   wait has been let through, is queued, or belonged to a process that was dead when a post met it.
   */
  lemma {:induction false} RunTally(cfg: Settings, ss: seq<State>, steps: seq<Step>, i: nat, name: string)
    requires Run(cfg, ss, steps) && i < |ss| && name in ss[i].sems
    ensures exists j :: 0 <= j < i && MadeBy(ss, steps, j, name, ss[i].sems[name])
    ensures Tallied(ss[i].sems[name], TallyOf(ss, steps, i, name))
  {
    hide Apply, Enabled, Inv, SemAfter, Tallied, LetsOneThrough, DropsDead;
    if i > 0 {
      var s, step := ss[i - 1], steps[i - 1];
      assert ss[(i - 1) + 1] == Apply(cfg, s, step);
      StepSem(cfg, s, step, name);
      if name in s.sems {
        RunTally(cfg, ss, steps, i - 1, name);
        TallyStep(s, step, name, ss[i].sems[name], TallyOf(ss, steps, i - 1, name));
        SameMaker(s, step, name, ss[i].sems[name]);
        var j: nat :| j < i - 1 && MadeBy(ss, steps, j, name, s.sems[name]);
        assert MadeBy(ss, steps, j, name, ss[i].sems[name]);
      } else {
        NewTally(ss[i].sems[name]);
        assert MadeBy(ss, steps, i - 1, name, ss[i].sems[name]);
      }
    }
  }

  lemma SameMaker(s: State, step: Step, name: string, r: Sem)
    requires name in s.sems && SemAfter(s, step, name, r)
    ensures r.id == s.sems[name].id && r.initial == s.sems[name].initial
  {
  }

  lemma NewTally(sem: Sem)
    requires sem.queue == [] && sem.value == sem.initial && sem.posts == 0 && sem.passed == 0
    ensures Tallied(sem, Tally(0, 0, 0, 0))
  {
  }
}
