/** A run in which the suspender's post of liberar_CPU lets two processes execute on one CPU. */
module KernelSuspension {
  import opened Kernel
  import opened KernelRuns

  const CFG := Settings(2, 1, true)

  const STEPS: seq<Step> := [
    Init(true), Init(true), Init(true), SemInit("s", 0), Admit, Admit, Dispatch(1), TakeCpu(0),
    Wait(1, "s"), ReleaseCpu(0), Dispatch(2), TakeCpu(0), Suspend, ReleaseCpu(0), Admit, Dispatch(3)]

  const N := Process(New, 9999, Nothing, 0)
  const R := Process(Ready, 9999, Nothing, 0)
  const E := Process(Exec, 0, Nothing, 0)
  const B := Process(Blocked, 0, Semaphore(1), 0)
  const Z := Process(SuspendedBlocked, 0, Semaphore(1), 0)
  const IDLE := Cpu(0, 1, 0, false)
  const ASSIGNED := Cpu(1, 1, 0, false)
  const HELD := Cpu(0, 0, 0, true)
  const RELEASING := Cpu(0, 0, 1, true)
  const OPEN := Sem(1, 0, [], 0, 0, 0)
  const WAITED := Sem(1, -1, [1], 0, 0, 0)

  /** The states of the run: the first process blocks and is suspended while the second executes. */
  function At(k: nat): State {
    match k
    case 0 => State(map[], 1, [], [], [], [], [], [], 0, 0, 2, 1, 0, [IDLE], [0], map[], 1, 0, 0)
    case 1 => State(map[1 := N], 2, [1], [], [], [], [], [], 1, 0, 2, 1, 0, [IDLE], [0], map[], 1, 0, 0)
    case 2 => State(map[1 := N, 2 := N], 3, [1, 2], [], [], [], [], [], 2, 0, 2, 1, 0, [IDLE], [0], map[], 1, 0, 0)
    case 3 =>
      State(map[1 := N, 2 := N, 3 := N], 4, [1, 2, 3], [], [], [], [], [], 3, 0, 2, 1, 0, [IDLE], [0], map[], 1, 0, 0)
    case 4 =>
      State(map[1 := N, 2 := N, 3 := N], 4, [1, 2, 3], [], [], [], [], [], 3, 0, 2, 1, 0, [IDLE], [0],
            map["s" := OPEN], 2, 0, 0)
    case 5 =>
      State(map[1 := R, 2 := N, 3 := N], 4, [2, 3], [1], [], [], [], [], 2, 1, 1, 1, 0, [IDLE], [0], map["s" := OPEN],
            2, 0, 0)
    case 6 =>
      State(map[1 := R, 2 := R, 3 := N], 4, [3], [1, 2], [], [], [], [], 1, 2, 0, 1, 0, [IDLE], [0], map["s" := OPEN],
            2, 0, 0)
    case 7 =>
      State(map[1 := E, 2 := R, 3 := N], 4, [3], [2], [1], [], [], [], 1, 1, 0, 0, 1, [ASSIGNED], [],
            map["s" := OPEN], 2, 0, 0)
    case 8 =>
      State(map[1 := E, 2 := R, 3 := N], 4, [3], [2], [1], [], [], [], 1, 1, 0, 0, 1, [HELD], [], map["s" := OPEN], 2,
            0, 0)
    case 9 =>
      State(map[1 := B, 2 := R, 3 := N], 4, [3], [2], [], [1], [], [], 1, 1, 0, 0, 1, [RELEASING], [],
            map["s" := WAITED], 2, 0, 0)
    case 10 =>
      State(map[1 := B, 2 := R, 3 := N], 4, [3], [2], [], [1], [], [], 1, 1, 0, 1, 1, [IDLE], [0], map["s" := WAITED],
            2, 0, 0)
    case 11 =>
      State(map[1 := B, 2 := E, 3 := N], 4, [3], [], [2], [1], [], [], 1, 0, 0, 0, 2, [ASSIGNED], [],
            map["s" := WAITED], 2, 0, 0)
    case 12 =>
      State(map[1 := B, 2 := E, 3 := N], 4, [3], [], [2], [1], [], [], 1, 0, 0, 0, 2, [HELD], [], map["s" := WAITED],
            2, 0, 0)
    case 13 =>
      State(map[1 := Z, 2 := E, 3 := N], 4, [3], [], [2], [], [1], [], 1, 0, 1, 0, 1, [RELEASING], [],
            map["s" := WAITED], 2, 1, 0)
    case 14 =>
      State(map[1 := Z, 2 := E, 3 := N], 4, [3], [], [2], [], [1], [], 1, 0, 1, 1, 1, [IDLE], [0], map["s" := WAITED],
            2, 1, 0)
    case 15 =>
      State(map[1 := Z, 2 := E, 3 := R], 4, [], [3], [2], [], [1], [], 0, 1, 0, 1, 1, [IDLE], [0], map["s" := WAITED],
            2, 1, 0)
    case _ =>
      State(map[1 := Z, 2 := E, 3 := E], 4, [], [], [2, 3], [], [1], [], 0, 0, 0, 0, 2, [ASSIGNED], [],
            map["s" := WAITED], 2, 1, 0)
  }

  predicate Leads(k: nat)
    requires k < 16
  {
    Enabled(At(k), STEPS[k]) && Apply(CFG, At(k), STEPS[k]) == At(k + 1)
  }

  lemma Arriving()
    ensures Initial(CFG) == At(0) && Leads(0) && Leads(1) && Leads(2) && Leads(3)
  {
  }

  lemma Admitting()
    ensures Leads(4)
  {
    hide Admitted;
    AdmittedNewIs(At(4), 1);
  }

  lemma AdmittingNext()
    ensures Leads(5)
  {
    hide Admitted;
    AdmittedNewIs(At(5), 2);
  }

  lemma Dispatching()
    ensures Leads(6)
  {
    hide Dispatched;
    DispatchedIs(At(6), 1);
  }

  lemma Taking()
    ensures Leads(7) && Leads(11)
  {
  }

  lemma Blocking()
    ensures Leads(8)
  {
    hide BlockedOn, Without;
    var s := At(8);
    var m := s.(sems := map["s" := WAITED]);
    assert s.sems["s"].queue + [1] == [1] && s.sems["s" := WAITED] == m.sems;
    assert Waited(s, 1, "s") == BlockedOn(m, 1, Semaphore(1));
    BlocksOnly(m);
    assert s.processes[1 := B] == At(9).processes;
  }

  /** The only executing process blocks. */
  lemma BlocksOnly(m: State)
    requires 1 in m.processes && m.processes[1] == E && m.running == [1] && m.blocked == [] && m.cpus == [HELD]
    ensures BlockedOn(m, 1, Semaphore(1)) ==
            m.(processes := m.processes[1 := B], running := [], blocked := [1], cpus := [RELEASING])
  {
    BlockedOnIs(m, 1, Semaphore(1));
    assert Without([1], 1) == [] && m.cpus[0 := RELEASING] == [RELEASING];
  }

  lemma Releasing()
    ensures Leads(9) && Leads(13)
  {
  }

  lemma DispatchingNext()
    ensures Leads(10)
  {
    hide Dispatched;
    DispatchedIs(At(10), 2);
  }

  lemma Suspending()
    ensures Leads(12)
  {
    hide Suspended;
    SuspendedIs(CFG, At(12), 1, 0);
    assert At(12).blocked[..0] == [] && At(12).cpus[0 := RELEASING] == [RELEASING];
    assert At(12).processes[1 := Z] == At(13).processes;
  }

  lemma AdmittingThird()
    ensures Leads(14)
  {
    hide Admitted;
    AdmittedNewIs(At(14), 3);
  }

  lemma DispatchingThird()
    ensures Leads(15)
  {
    hide Dispatched;
    DispatchedIs(At(15), 3);
  }

  /** With one CPU two processes end up executing on it. */
  lemma SuspensionSharesCpu() returns (ss: seq<State>)
    ensures Run(CFG, ss, STEPS) && |STEPS| == 16
    ensures RunsOn(ss[16], 2, 0) && RunsOn(ss[16], 3, 0) && |ss[16].running| > CFG.cpus
  {
    hide Apply, Enabled, Initial;
    ss := seq(17, k requires 0 <= k => At(k));
    Arriving();
    Admitting();
    AdmittingNext();
    Dispatching();
    Taking();
    Blocking();
    Releasing();
    DispatchingNext();
    Suspending();
    AdmittingThird();
    DispatchingThird();
  }

  // ---- a slot too many --------------------------------------------------------------------

  /** The same run until the first process is suspended, which is then closed to end a deadlock. */
  const CLOSING: seq<Step> := STEPS[..13] + [CloseDeadlocked(1)]

  lemma Closing()
    ensures Enabled(At(13), CloseDeadlocked(1)) && GivesTwice(At(13), CloseDeadlocked(1))
    ensures var t := Apply(CFG, At(13),
                           CloseDeadlocked(1)); t.slots == 2 && t.running == [2] && t.ready == [] && t.blocked == []
  {
    hide ClosedDeadlocked;
    ClosedSuspendedIs(At(13), 1);
  }

  /** With two slots, two are free while a process executes. */
  lemma CloseGivesSlotTwice() returns (ss: seq<State>)
    ensures Run(CFG, ss, CLOSING) && |CLOSING| == 14 && |ss| == 15
    ensures var s := ss[14]; s.slots + |s.ready| + |s.running| + |s.blocked| == CFG.slots + 1
  {
    hide Apply, Enabled, Initial;
    Closing();
    ss := seq(14, k requires 0 <= k => At(k)) + [Apply(CFG, At(13), CloseDeadlocked(1))];
    Arriving();
    Admitting();
    AdmittingNext();
    Dispatching();
    Taking();
    Blocking();
    Releasing();
    DispatchingNext();
    Suspending();
  }
}
