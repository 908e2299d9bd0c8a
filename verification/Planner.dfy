/**
 The kernel process: the queues, tokens, CPUs and semaphores as fields, changed by the
 original's planner loops and request handlers. Each is proved to be a step of module Kernel.
 */
module Planner {
  import opened Options
  import opened Kernel
  import opened KernelMoves
  import opened KernelRuns
  import opened KernelSems

  /** list_remove_by_condition on an id. */
  method RemoveFirst(q: seq<nat>, p: nat) returns (r: seq<nat>)
    ensures r == Without(q, p)
  {
    var i := 0;
    while i < |q| && q[i] != p
      invariant i <= |q| && forall k :: 0 <= k < i ==> q[k] != p
    {
      i := i + 1;
    }
    if i < |q| {
      WithoutAt(q, p, i);
      return q[..i] + q[i + 1..];
    }
    return q;
  }

  class Planner {
    const cfg: Settings
    var processes: map<nat, Process>
    var nextId: nat
    var newcomers: seq<nat>
    var ready: seq<nat>
    var running: seq<nat>
    var blocked: seq<nat>
    var suspendedBlocked: seq<nat>
    var suspendedReady: seq<nat>
    var arrivals: nat
    var readyTokens: nat
    var slots: nat
    var cpuTokens: nat
    var full: nat
    var cpus: seq<Cpu>
    var freeCpus: seq<nat>
    var sems: map<string, Sem>
    var nextSem: nat
    ghost var extraPosts: nat
    ghost var overReturned: nat

    ghost function Now(): State
      reads this
    {
      State(processes, nextId, newcomers, ready, running, blocked, suspendedBlocked, suspendedReady,
            arrivals, readyTokens, slots, cpuTokens, full, cpus, freeCpus, sems, nextSem, extraPosts, overReturned)
    }

    ghost predicate Valid()
      reads this
    {
      Inv(cfg, Now())
    }

    /** inicializar_colas, inicializar_semaforos and crear_hilos_CPU. */
    constructor (settings: Settings)
      ensures cfg == settings && Now() == Initial(settings) && Valid()
    {
      cfg := settings;
      processes, nextId := map[], 1;
      newcomers, ready, running, blocked, suspendedBlocked, suspendedReady := [], [], [], [], [], [];
      arrivals, readyTokens, slots, cpuTokens, full := 0, 0, settings.slots, settings.cpus, 0;
      cpus, freeCpus := seq(settings.cpus, _ => Cpu(0, 1, 0, false)), seq(settings.cpus, i requires 0 <= i => i);
      sems, nextSem := map[], 1;
      extraPosts, overReturned := 0, 0;
      new;
      InitialKeeps(settings);
    }

    /** mate_init; `accepted` is the answer of memory. */
    method MateInit(accepted: bool)
      requires Valid()
      modifies this
      ensures Valid() && Now() == Created(old(Now()), accepted)
    {
      hide Inv;
      CreatedKeeps(cfg, Now(), accepted);
      var id := nextId;
      nextId := nextId + 1;
      if accepted {
        processes := processes[id := Process(New, 9999, Nothing, 0)];
        newcomers := newcomers + [id];
        arrivals := arrivals + 1;
      }
    }

    /** One turn of entrantes_a_ready, its two semaphores open. */
    method AdmitOne()
      requires Valid() && Enabled(Now(), Admit)
      modifies this
      ensures Valid() && Now() == Admitted(old(Now()))
    {
      hide Inv, Admitted;
      AdmitStarts(cfg, Now());
      AdmittedKeeps(cfg, Now());
      if suspendedReady != [] {
        AdmittedSuspendedIs(Now(), suspendedReady[0]);
        AdmitSuspended();
      } else {
        AdmittedNewIs(Now(), newcomers[0]);
        AdmitNew();
      }
    }

    /** SUSPENDED-READY to READY. */
    method AdmitSuspended()
      requires arrivals > 0 && slots > 0 && suspendedReady != [] && suspendedReady[0] in processes
      modifies this`arrivals, this`slots, this`ready, this`suspendedReady, this`processes, this`readyTokens
      ensures arrivals == old(arrivals) - 1 && slots == old(slots) - 1 && readyTokens == old(readyTokens) + 1
      ensures ready == old(ready) + [old(suspendedReady)[0]] && suspendedReady == old(suspendedReady)[1..]
      ensures var p := old(suspendedReady)[0]; processes == old(processes)[p := old(processes)[p].(status := Ready)]
    {
      var p := suspendedReady[0];
      arrivals := arrivals - 1;
      slots := slots - 1;
      ready := ready + [p];
      suspendedReady := suspendedReady[1..];
      processes := processes[p := processes[p].(status := Ready)];
      readyTokens := readyTokens + 1;
    }

    /** NEW to READY. */
    method AdmitNew()
      requires arrivals > 0 && slots > 0 && newcomers != [] && newcomers[0] in processes
      modifies this`arrivals, this`slots, this`ready, this`newcomers, this`processes, this`readyTokens
      ensures arrivals == old(arrivals) - 1 && slots == old(slots) - 1 && readyTokens == old(readyTokens) + 1
      ensures ready == old(ready) + [old(newcomers)[0]] && newcomers == old(newcomers)[1..]
      ensures var p := old(newcomers)[0]; processes == old(processes)[p := old(processes)[p].(status := Ready)]
    {
      var p := newcomers[0];
      arrivals := arrivals - 1;
      slots := slots - 1;
      ready := ready + [p];
      newcomers := newcomers[1..];
      processes := processes[p := processes[p].(status := Ready)];
      readyTokens := readyTokens + 1;
    }

    /** asignar_hilo_CPU. */
    method AssignCpu(p: nat)
      requires p in processes && freeCpus != [] && freeCpus[0] < |cpus|
      modifies this`processes, this`freeCpus, this`cpus
      ensures freeCpus == old(freeCpus)[1..]
      ensures var i := old(freeCpus)[0];
        && processes == old(processes)[p := old(processes)[p].(cpu := i)]
        && cpus == old(cpus)[i := old(cpus)[i].(use := old(cpus)[i].use + 1)]
    {
      var i := freeCpus[0];
      freeCpus := freeCpus[1..];
      processes := processes[p := processes[p].(cpu := i)];
      cpus := cpus[i := cpus[i].(use := cpus[i].use + 1)];
    }

    /** One turn of ready_a_exec with the process that SJF or HRRN picked. */
    method DispatchOne(p: nat)
      requires Valid() && Enabled(Now(), Dispatch(p))
      modifies this
      ensures p in old(processes) && old(freeCpus) != [] && Valid() && Now() == Dispatched(old(Now()), p)
    {
      hide Inv, Dispatched, Without;
      DispatchStarts(cfg, Now(), p);
      DispatchedKeeps(cfg, Now(), p);
      DispatchedIs(Now(), p);
      StartExec(p);
    }

    /** READY to EXEC. */
    method StartExec(p: nat)
      requires p in processes && readyTokens > 0 && cpuTokens > 0 && freeCpus != [] && freeCpus[0] < |cpus|
      modifies this`readyTokens, this`cpuTokens, this`processes, this`freeCpus, this`cpus, this`running, this`ready,
               this`full
      ensures readyTokens == old(readyTokens) - 1 && cpuTokens == old(cpuTokens) - 1 && freeCpus == old(freeCpus)[1..]
      ensures running == old(running) + [p] && ready == Without(old(ready), p)
      ensures full == if slots == 0 then old(full) + 1 else old(full)
      ensures var i := old(freeCpus)[0];
        && processes == old(processes)[p := old(processes)[p].(cpu := i, status := Exec)]
        && cpus == old(cpus)[i := old(cpus)[i].(use := old(cpus)[i].use + 1)]
    {
      hide Without;
      readyTokens := readyTokens - 1;
      cpuTokens := cpuTokens - 1;
      AssignCpu(p);
      running := running + [p];
      ready := RemoveFirst(ready, p);
      processes := processes[p := processes[p].(status := Exec)];
      assert processes == old(processes)[p := old(processes)[p].(cpu := old(freeCpus)[0], status := Exec)];
      if slots == 0 {
        full := full + 1;
      }
    }

    /** ejecuta, from usar_CPU to its wait on liberar_CPU. */
    method TakeCpuOne(i: nat)
      requires Valid() && Enabled(Now(), TakeCpu(i))
      modifies this
      ensures Valid() && Now() == Taken(old(Now()), i)
    {
      hide Inv;
      TakenKeeps(cfg, Now(), i);
      cpus := cpus[i := cpus[i].(use := cpus[i].use - 1, free := cpus[i].free - 1, held := true)];
    }

    /** ejecuta, once liberar_CPU is posted. */
    method ReleaseCpuOne(i: nat)
      requires Valid() && Enabled(Now(), ReleaseCpu(i))
      modifies this
      ensures Valid() && Now() == Released(old(Now()), i)
    {
      hide Inv;
      ReleasedKeeps(cfg, Now(), i);
      freeCpus := freeCpus + [i];
      cpus := cpus[i := cpus[i].(release := cpus[i].release - 1, free := cpus[i].free + 1, held := false)];
      cpuTokens := cpuTokens + 1;
    }

    /** sem_post(&liberar_CPU[i]). */
    method PostReleaseOf(i: nat)
      modifies this`cpus
      ensures Now() == PostRelease(old(Now()), i)
    {
      if i < |cpus| {
        cpus := cpus[i := cpus[i].(release := cpus[i].release + 1)];
      }
    }

    /** exec_a_block. */
    method ExecToBlock(p: nat, w: Waiting)
      requires p in processes
      modifies this
      ensures Now() == BlockedOn(old(Now()), p, w)
    {
      hide BlockedOn, Without;
      BlockedOnIs(Now(), p, w);
      blocked := blocked + [p];
      running := RemoveFirst(running, p);
      processes := processes[p := processes[p].(waiting := w, status := Blocked)];
      PostReleaseOf(processes[p].cpu);
    }

    /** block_a_ready and suspended_blocked_a_suspended_ready, by where the process is. */
    method Wake(p: nat)
      requires p in processes
      modifies this
      ensures Now() == Woken(old(Now()), p)
    {
      hide Woken, Without;
      if processes[p].status == Blocked {
        WokenBlockedIs(Now(), p);
        ready := ready + [p];
        blocked := RemoveFirst(blocked, p);
        processes := processes[p := processes[p].(waiting := Nothing, status := Ready)];
        readyTokens := readyTokens + 1;
      } else {
        WokenSuspendedIs(Now(), p);
        suspendedReady := suspendedReady + [p];
        suspendedBlocked := RemoveFirst(suspendedBlocked, p);
        processes := processes[p := processes[p].(waiting := Nothing, status := SuspendedReady)];
        arrivals := arrivals + 1;
      }
    }

    /** mate_sem_wait: 0 is answered at once, nothing while the process is blocked, -1 without such a semaphore. */
    method SemWait(p: nat, name: string) returns (answer: Option<int>)
      requires Valid() && Enabled(Now(), Wait(p, name))
      modifies this
      ensures Valid() && Now() == Waited(old(Now()), p, name)
      ensures answer == if name !in old(sems) then Some(-1) else if old(sems)[name].value <= 0 then None else Some(0)
    {
      hide Inv, BlockedOn;
      WaitedKeeps(cfg, Now(), p, name);
      if name !in sems {
        return Some(-1);
      }
      var sem := sems[name].(value := sems[name].value - 1);
      if sem.value < 0 {
        sems := sems[name := sem.(queue := sem.queue + [p])];
        ExecToBlock(p, Semaphore(sem.id));
        return None;
      }
      sems := sems[name := sem.(passed := sem.passed + 1)];
      processes := processes[p := processes[p].(held := sem.id)];
      return Some(0);
    }

    /** The part of mate_sem_post that picks who is let through. */
    method PickWaiter(name: string, tryNext: bool) returns (woken: Option<nat>)
      requires name in sems
      modifies this`sems
      ensures var (sem, w) := Posted(old(sems)[name], processes.Keys, tryNext);
        woken == w && Now() == old(Now()).(sems := old(sems)[name := sem])
    {
      var sem := sems[name];
      sem := sem.(value := sem.value + 1, posts := sem.posts + 1);
      woken := None;
      if sem.queue != [] && sem.value >= 0 {
        if sem.queue[0] in processes {
          woken := Some(sem.queue[0]);
          sem := sem.(queue := sem.queue[1..], passed := sem.passed + 1);
        } else {
          sem := sem.(queue := sem.queue[1..]);
          if tryNext && sem.queue != [] && sem.queue[0] in processes {
            woken := Some(sem.queue[0]);
            sem := sem.(queue := sem.queue[1..], passed := sem.passed + 1);
          }
        }
      }
      sems := sems[name := sem];
    }

    /** mate_sem_post by a process: 0, or -1 without such a semaphore. */
    method SemPost(p: nat, name: string) returns (answer: int)
      requires Valid() && Enabled(Now(), Post(p, name))
      modifies this
      ensures Valid() && Now() == PostedBy(old(Now()), p, name)
      ensures forall q :: LetsThrough(old(Now()), name, true, q) ==> Woke(old(Now()), Now(), q)
      ensures answer == if name in old(sems) then 0 else -1
    {
      hide Inv, Posted, Woken, LetsThrough, Woke;
      PostedByKeeps(cfg, Now(), p, name);
      forall q | LetsThrough(Now(), name, true, q) ensures Woke(Now(), PostedBy(Now(), p, name), q) {
        PostWakes(cfg, Now(), Post(p, name), name, q);
      }
      if name !in sems {
        return -1;
      }
      ghost var s := Now();
      PostIsFifo(sems[name], processes.Keys, true);
      var woken := PickWaiter(name, true);
      if woken.Some? {
        processes := processes[p := processes[p].(held := 0)];
        Wake(woken.value);
      }
      return 0;
    }

    /** mate_sem_post with fd -1, on behalf of a process closed to end a deadlock. */
    method SemPostForDead(name: string)
      requires Valid() && Enabled(Now(), PostDeadlocked(name))
      modifies this
      ensures Valid() && Now() == PostedForDead(old(Now()), name)
      ensures forall q :: LetsThrough(old(Now()), name, false, q) ==> Woke(old(Now()), Now(), q)
    {
      hide Inv, Posted, Woken, LetsThrough, Woke;
      PostedForDeadKeeps(cfg, Now(), name);
      forall q | LetsThrough(Now(), name, false, q) ensures Woke(Now(), PostedForDead(Now(), name), q) {
        PostWakes(cfg, Now(), PostDeadlocked(name), name, q);
      }
      PostIsFifo(sems[name], processes.Keys, false);
      var woken := PickWaiter(name, false);
      if woken.Some? {
        Wake(woken.value);
      }
    }

    /** mate_sem_init: 0, or -1 when the semaphore exists. */
    method MateSemInit(name: string, value: nat) returns (answer: int)
      requires Valid()
      modifies this
      ensures Valid() && Now() == WithSem(old(Now()), name, value)
      ensures answer == if name in old(sems) then -1 else 0
    {
      hide Inv;
      WithSemKeeps(cfg, Now(), name, value);
      if name in sems {
        return -1;
      }
      sems := sems[name := Sem(nextSem, value, [], value, 0, 0)];
      nextSem := nextSem + 1;
      return 0;
    }

    /** mate_sem_destroy: 0, or -1 without such a semaphore; its waiters stay blocked. */
    method MateSemDestroy(name: string) returns (answer: int)
      requires Valid()
      modifies this
      ensures Valid() && Now() == old(Now()).(sems := old(sems) - {name})
      ensures answer == if name in old(sems) then 0 else -1
    {
      hide Inv;
      DestroyKeeps(cfg, Now(), name);
      answer := if name in sems then 0 else -1;
      sems := sems - {name};
    }

    /** mate_call_io up to the use of the device. */
    method CallIoOne(p: nat)
      requires Valid() && Enabled(Now(), CallIo(p))
      modifies this
      ensures Valid() && Now() == BlockedOn(old(Now()), p, Io)
    {
      hide Inv, BlockedOn;
      CallIoKeeps(cfg, Now(), p);
      ExecToBlock(p, Io);
    }

    /** mate_call_io from there on. */
    method IoDoneOne(p: nat)
      requires Valid() && Enabled(Now(), IoDone(p))
      modifies this
      ensures Valid() && Now() == Woken(old(Now()), p)
    {
      hide Inv, Woken;
      IoDoneKeeps(cfg, Now(), p);
      Wake(p);
    }

    /** One turn of suspender, its semaphore open. */
    method SuspendOne()
      requires Valid() && Enabled(Now(), Suspend)
      modifies this
      ensures Valid() && Now() == Suspended(cfg, old(Now()))
    {
      hide Inv, Suspended;
      SuspendStarts(cfg, Now());
      SuspendedKeeps(cfg, Now());
      if |newcomers| + |suspendedReady| > 0 && |ready| == 0 && |blocked| > 0 {
        var p := blocked[|blocked| - 1];
        SuspendedIs(cfg, Now(), p, processes[p].cpu);
        SuspendLast(p);
      } else {
        NothingSuspended(cfg, Now());
        full := full - 1;
      }
    }

    /** The post of liberar_CPU by the suspender. */
    method PostAgain(i: nat)
      modifies this`cpus, this`extraPosts
      ensures extraPosts == if cfg.repost then old(extraPosts) + 1 else old(extraPosts)
      ensures cpus ==
        if cfg.repost && i < |old(cpus)| then old(cpus)[i := old(cpus)[i].(release := old(cpus)[i].release + 1)]
        else old(cpus)
    {
      if cfg.repost {
        PostReleaseOf(i);
        extraPosts := extraPosts + 1;
      }
    }

    /** BLOCKED to SUSPENDED-BLOCKED, for the last blocked process. */
    method SuspendLast(p: nat)
      requires full > 0 && blocked != [] && blocked[|blocked| - 1] == p && p in processes
      modifies this`full, this`blocked, this`suspendedBlocked, this`processes, this`slots, this`cpus, this`extraPosts
      ensures full == old(full) - 1 && slots == old(slots) + 1
      ensures blocked == old(blocked)[..|old(blocked)| - 1] && suspendedBlocked == old(suspendedBlocked) + [p]
      ensures processes == old(processes)[p := old(processes)[p].(status := SuspendedBlocked)]
      ensures extraPosts == if cfg.repost then old(extraPosts) + 1 else old(extraPosts)
      ensures var i := old(processes)[p].cpu;
        cpus ==
          if cfg.repost && i < |old(cpus)| then old(cpus)[i := old(cpus)[i].(release := old(cpus)[i].release + 1)]
          else old(cpus)
    {
      full := full - 1;
      blocked := blocked[..|blocked| - 1];
      suspendedBlocked := suspendedBlocked + [p];
      processes := processes[p := processes[p].(status := SuspendedBlocked)];
      PostAgain(processes[p].cpu);
      slots := slots + 1;
    }

    /** mate_close of an executing process: exec_a_exit. */
    method MateClose(p: nat)
      requires Valid() && Enabled(Now(), Close(p))
      modifies this
      ensures Valid() && Now() == Closed(old(Now()), p)
    {
      hide Inv, Closed, Without;
      ClosedKeeps(cfg, Now(), p);
      ClosedIs(Now(), p);
      var i := processes[p].cpu;
      running := RemoveFirst(running, p);
      processes := processes - {p};
      PostReleaseOf(i);
      slots := slots + 1;
    }

    /** mate_close of the process picked to end a deadlock. */
    method MateCloseDeadlocked(p: nat)
      requires Valid() && Enabled(Now(), CloseDeadlocked(p))
      modifies this
      ensures Valid() && Now() == ClosedDeadlocked(old(Now()), p)
    {
      hide Inv, ClosedDeadlocked, Without;
      ghost var s := Now();
      ClosedDeadlockedKeeps(cfg, Now(), p);
      if processes[p].status == Blocked {
        ClosedBlockedIs(s, p);
        blocked := RemoveFirst(blocked, p);
        processes := processes - {p};
        slots := slots + 1;
        assert Now() == ClosedDeadlocked(s, p);
      } else {
        ClosedSuspendedIs(s, p);
        suspendedBlocked := RemoveFirst(suspendedBlocked, p);
        overReturned := overReturned + 1;
        processes := processes - {p};
        slots := slots + 1;
        assert Now() == ClosedDeadlocked(s, p);
      }
    }
  }
}
