/**
 The kernel planner as a state machine: each request handler and each turn of a planner loop
 or CPU thread is one step on six process queues, the counting semaphores used as tokens, the
 CPUs and the semaphores of the processes.
 */
module Kernel {
  import opened Options

  datatype Status = New | Ready | Exec | Blocked | SuspendedBlocked | SuspendedReady

  /** What a blocked process waits for. */
  datatype Waiting = Nothing | Io | Semaphore(id: nat)

  /** `held` is sem_retenido; 0 stands for none. */
  datatype Process = Process(status: Status, cpu: nat, waiting: Waiting, held: nat)

  /**
   A semaphore of the processes. `initial`, `posts` and `passed` count what the log shows:
   posts made and waits let through so far.
   */
  datatype Sem = Sem(id: nat, value: int, queue: seq<nat>, initial: nat, posts: nat, passed: nat)

  /** usar_CPU, CPU_libre and liberar_CPU of one CPU, and whether its thread waits for the CPU to be released. */
  datatype Cpu = Cpu(use: nat, free: nat, release: nat, held: bool)

  /**
   `arrivals` is hay_estructura_creada, `readyTokens` cola_ready_con_elementos, `slots`
   sem_grado_multiprogramacion_libre, `cpuTokens` sem_grado_multiprocesamiento_libre and
   `full` sem_procesamiento_lleno. `extraPosts` counts the posts of liberar_CPU by the
   suspender and `overReturned` the slots given back for processes that had none.
   */
  datatype State = State(
    processes: map<nat, Process>, nextId: nat,
    newcomers: seq<nat>, ready: seq<nat>, running: seq<nat>, blocked: seq<nat>,
    suspendedBlocked: seq<nat>, suspendedReady: seq<nat>,
    arrivals: nat, readyTokens: nat, slots: nat, cpuTokens: nat, full: nat,
    cpus: seq<Cpu>, freeCpus: seq<nat>, sems: map<string, Sem>, nextSem: nat,
    extraPosts: nat, overReturned: nat)

  /** `repost`: the suspender posts liberar_CPU, as the original does; false is that line left out. */
  datatype Settings = Settings(slots: nat, cpus: nat, repost: bool)

  datatype Step =
    | Init(accepted: bool)
    | Admit
    | Dispatch(p: nat)
    | TakeCpu(i: nat)
    | ReleaseCpu(i: nat)
    | Wait(p: nat, name: string)
    | Post(p: nat, name: string)
    | CallIo(p: nat)
    | IoDone(p: nat)
    | Suspend
    | Close(p: nat)
    | CloseDeadlocked(p: nat)
    | PostDeadlocked(name: string)
    | SemInit(name: string, value: nat)
    | SemDestroy(name: string)

  // ---- queues ------------------------------------------------------------------------------------

  function Queue(s: State, st: Status): seq<nat> {
    match st
    case New => s.newcomers
    case Ready => s.ready
    case Exec => s.running
    case Blocked => s.blocked
    case SuspendedBlocked => s.suspendedBlocked
    case SuspendedReady => s.suspendedReady
  }

  function SetQueue(s: State, st: Status, q: seq<nat>): (t: State)
    ensures forall x :: Queue(t, x) == if x == st then q else Queue(s, x)
    ensures t.processes == s.processes
  {
    match st
    case New => s.(newcomers := q)
    case Ready => s.(ready := q)
    case Exec => s.(running := q)
    case Blocked => s.(blocked := q)
    case SuspendedBlocked => s.(suspendedBlocked := q)
    case SuspendedReady => s.(suspendedReady := q)
  }

  /** list_remove_by_condition: the first entry of `p` goes. */
  function Without(q: seq<nat>, p: nat): (r: seq<nat>)
    ensures p !in q ==> r == q
    ensures p in q ==> |r| == |q| - 1
    ensures forall x :: x != p ==> (x in r <==> x in q)
    ensures forall x :: x in r ==> x in q
  {
    if q == [] then [] else if q[0] == p then q[1..] else [q[0]] + Without(q[1..], p)
  }

  ghost predicate Distinct(q: seq<nat>) {
    forall i, j :: 0 <= i < j < |q| ==> q[i] != q[j]
  }

  lemma {:induction false} WithoutDistinct(q: seq<nat>, p: nat)
    requires Distinct(q)
    ensures Distinct(Without(q, p)) && p !in Without(q, p)
  {
    if q != [] {
      WithoutDistinct(q[1..], p);
      assert q[0] !in q[1..];
      if q[0] != p {
        var r := Without(q[1..], p);
        assert q[0] !in r;
        forall i, j | 0 <= i < j < |r| + 1 ensures ([q[0]] + r)[i] != ([q[0]] + r)[j] {
          assert i == 0 ==> r[j - 1] in r;
        }
      }
    }
  }

  function SetStatus(s: State, p: nat, st: Status): State
    requires p in s.processes
  {
    s.(processes := s.processes[p := s.processes[p].(status := st)])
  }

  /** From one queue to the end of another. */
  function Moved(s: State, p: nat, st: Status, to: Status): State
    requires p in s.processes
  {
    SetStatus(SetQueue(SetQueue(s, to, Queue(s, to) + [p]), st, Without(Queue(s, st), p)), p, to)
  }

  /** Out of its queue and out of lista_carpinchos. */
  function Gone(s: State, p: nat, st: Status): State {
    SetQueue(s, st, Without(Queue(s, st), p)).(processes := s.processes - {p})
  }

  function SetCpu(s: State, i: nat, c: Cpu): State {
    if i < |s.cpus| then s.(cpus := s.cpus[i := c]) else s
  }

  /** sem_post(&liberar_CPU[i]). */
  function PostRelease(s: State, i: nat): State {
    if i < |s.cpus| then SetCpu(s, i, s.cpus[i].(release := s.cpus[i].release + 1)) else s
  }

  // ---- steps ----------------------------------------------------------------------------------------

  function Initial(cfg: Settings): State {
    State(map[], 1, [], [], [], [], [], [], 0, 0, cfg.slots, cfg.cpus, 0,
          seq(cfg.cpus, _ => Cpu(0, 1, 0, false)), seq(cfg.cpus, i requires 0 <= i => i), map[], 1, 0, 0)
  }

  /** mate_init; memory may turn the process down. */
  function Created(s: State, accepted: bool): State {
    var s' := s.(nextId := s.nextId + 1);
    if accepted then
      s'.(processes := s.processes[s.nextId := Process(New, 9999, Nothing, 0)],
          newcomers := s.newcomers + [s.nextId], arrivals := s.arrivals + 1)
    else s'
  }

  /** One turn of entrantes_a_ready: a suspended process before a new one. */
  function Admitted(s: State): State
    requires s.arrivals > 0 && s.slots > 0
  {
    var st := if s.suspendedReady != [] then SuspendedReady else New;
    if Queue(s, st) == [] || Queue(s, st)[0] !in s.processes then s
    else Moved(s, Queue(s, st)[0], st, Ready).(arrivals := s.arrivals - 1, slots := s.slots - 1,
                                               readyTokens := s.readyTokens + 1)
  }

  /** One turn of ready_a_exec with the process the algorithm chose, and asignar_hilo_CPU. */
  function Dispatched(s: State, p: nat): State
    requires p in s.processes && s.readyTokens > 0 && s.cpuTokens > 0 && s.freeCpus != []
  {
    var i := s.freeCpus[0];
    var m := s.(readyTokens := s.readyTokens - 1, cpuTokens := s.cpuTokens - 1, freeCpus := s.freeCpus[1..],
                processes := s.processes[p := s.processes[p].(cpu := i)],
                full := if s.slots == 0 then s.full + 1 else s.full);
    var u := if i < |s.cpus| then SetCpu(m, i, s.cpus[i].(use := s.cpus[i].use + 1)) else m;
    Moved(u, p, Ready, Exec)
  }

  /** ejecuta up to its wait for the CPU to be released. */
  function Taken(s: State, i: nat): State
    requires i < |s.cpus| && s.cpus[i].use > 0 && s.cpus[i].free > 0
  {
    SetCpu(s, i, s.cpus[i].(use := s.cpus[i].use - 1, free := s.cpus[i].free - 1, held := true))
  }

  /** ejecuta from there on. */
  function Released(s: State, i: nat): State
    requires i < |s.cpus| && s.cpus[i].release > 0
  {
    SetCpu(s, i, s.cpus[i].(release := s.cpus[i].release - 1, free := s.cpus[i].free + 1, held := false))
    .(freeCpus := s.freeCpus + [i], cpuTokens := s.cpuTokens + 1)
  }

  /** exec_a_block. */
  function BlockedOn(s: State, p: nat, w: Waiting): State
    requires p in s.processes
  {
    var i := s.processes[p].cpu;
    PostRelease(Moved(s.(processes := s.processes[p := s.processes[p].(waiting := w)]), p, Exec, Blocked), i)
  }

  /** block_a_ready or suspended_blocked_a_suspended_ready. */
  function Woken(s: State, p: nat): State
    requires p in s.processes
  {
    var m := s.(processes := s.processes[p := s.processes[p].(waiting := Nothing)]);
    if s.processes[p].status == Blocked
    then Moved(m, p, Blocked, Ready).(readyTokens := s.readyTokens + 1)
    else Moved(m, p, SuspendedBlocked, SuspendedReady).(arrivals := s.arrivals + 1)
  }

  function Waited(s: State, p: nat, name: string): State
    requires p in s.processes
  {
    if name !in s.sems then s
    else
      var sem := s.sems[name];
      if sem.value - 1 < 0 then
        BlockedOn(s.(sems := s.sems[name := sem.(value := sem.value - 1, queue := sem.queue + [p])]), p,
                  Semaphore(sem.id))
      else
        s.(sems := s.sems[name := sem.(value := sem.value - 1, passed := sem.passed + 1)],
           processes := s.processes[p := s.processes[p].(held := sem.id)])
  }

  /**
   The queue of a semaphore after a post, and the process let through: the head if it still
   exists; otherwise the head is dropped and, in a post by a process, the next one is tried.
   */
  function Posted(sem: Sem, alive: set<nat>, tryNext: bool): (r: (Sem, Option<nat>)) {
    var up := sem.(value := sem.value + 1, posts := sem.posts + 1);
    if sem.queue == [] || up.value < 0 then (up, None)
    else if sem.queue[0] in alive then (up.(queue := sem.queue[1..], passed := sem.passed + 1), Some(sem.queue[0]))
    else if tryNext && |sem.queue| > 1 && sem.queue[1] in alive then
      (up.(queue := sem.queue[2..], passed := sem.passed + 1), Some(sem.queue[1]))
    else (up.(queue := sem.queue[1..]), None)
  }

  function PostedBy(s: State, p: nat, name: string): State
    requires p in s.processes
  {
    if name !in s.sems then s
    else
      var (sem, woken) := Posted(s.sems[name], s.processes.Keys, true);
      var m := s.(sems := s.sems[name := sem]);
      if woken.Some? && woken.value in s.processes
      then Woken(m.(processes := s.processes[p := s.processes[p].(held := 0)]), woken.value)
      else m
  }

  function PostedForDead(s: State, name: string): State {
    if name !in s.sems then s
    else
      var (sem, woken) := Posted(s.sems[name], s.processes.Keys, false);
      var m := s.(sems := s.sems[name := sem]);
      if woken.Some? && woken.value in s.processes then Woken(m, woken.value) else m
  }

  /** The suspender looks for a process to suspend. */
  predicate MustSuspend(s: State) {
    |s.newcomers| + |s.suspendedReady| > 0 && s.ready == [] && s.blocked != []
  }

  /** One turn of suspender. */
  function Suspended(cfg: Settings, s: State): State
    requires s.full > 0
  {
    var m := s.(full := s.full - 1);
    if !MustSuspend(s) || s.blocked[|s.blocked| - 1] !in s.processes then m
    else
      var p := s.blocked[|s.blocked| - 1];
      var t := SetStatus(m.(blocked := s.blocked[..|s.blocked| - 1], suspendedBlocked := s.suspendedBlocked + [p],
                            slots := s.slots + 1), p, SuspendedBlocked);
      if cfg.repost then PostRelease(t, s.processes[p].cpu).(extraPosts := s.extraPosts + 1) else t
  }

  /** exec_a_exit. */
  function Closed(s: State, p: nat): State
    requires p in s.processes
  {
    PostRelease(Gone(s, p, Exec), s.processes[p].cpu).(slots := s.slots + 1)
  }

  /** mate_close of a process picked by the deadlock detection: it has no CPU, and a suspended one has no slot. */
  function ClosedDeadlocked(s: State, p: nat): State
    requires p in s.processes
  {
    var st := if s.processes[p].status == Blocked then Blocked else SuspendedBlocked;
    Gone(s, p, st).(slots := s.slots + 1, overReturned := if st == Blocked then s.overReturned else s.overReturned + 1)
  }

  function WithSem(s: State, name: string, value: nat): State {
    if name in s.sems then s
    else s.(sems := s.sems[name := Sem(s.nextSem, value, [], value, 0, 0)], nextSem := s.nextSem + 1)
  }

  predicate Executing(s: State, p: nat) {
    p in s.processes && s.processes[p].status == Exec
  }

  /** A post by a process looks behind a dead head without asking whether anybody is there. */
  predicate OnlyADeadWaiter(s: State, name: string) {
    && name in s.sems && s.sems[name].value + 1 >= 0
    && |s.sems[name].queue| == 1 && s.sems[name].queue[0] !in s.processes
  }

  predicate Enabled(s: State, step: Step) {
    match step
    case Init(_) => true
    case Admit => s.arrivals > 0 && s.slots > 0
    case Dispatch(p) => s.readyTokens > 0 && s.cpuTokens > 0 && p in s.ready
    case TakeCpu(i) => i < |s.cpus| && !s.cpus[i].held && s.cpus[i].use > 0 && s.cpus[i].free > 0
    case ReleaseCpu(i) => i < |s.cpus| && s.cpus[i].held && s.cpus[i].release > 0
    case Wait(p, _) => Executing(s, p)
    case Post(p, name) => Executing(s, p) && !OnlyADeadWaiter(s, name)
    case CallIo(p) => Executing(s, p)
    case IoDone(p) => p in s.processes && s.processes[p].waiting == Io
    case Suspend => s.full > 0
    case Close(p) => Executing(s, p)
    case CloseDeadlocked(p) => p in s.processes && s.processes[p].waiting.Semaphore?
    case PostDeadlocked(name) => name in s.sems
    case SemInit(_, _) => true
    case SemDestroy(_) => true
  }

  function Apply(cfg: Settings, s: State, step: Step): State
    requires Enabled(s, step)
  {
    match step
    case Init(accepted) => Created(s, accepted)
    case Admit => Admitted(s)
    case Dispatch(p) => if p in s.processes && s.freeCpus != [] then Dispatched(s, p) else s
    case TakeCpu(i) => Taken(s, i)
    case ReleaseCpu(i) => Released(s, i)
    case Wait(p, name) => Waited(s, p, name)
    case Post(p, name) => PostedBy(s, p, name)
    case CallIo(p) => BlockedOn(s, p, Io)
    case IoDone(p) => Woken(s, p)
    case Suspend => Suspended(cfg, s)
    case Close(p) => Closed(s, p)
    case CloseDeadlocked(p) => ClosedDeadlocked(s, p)
    case PostDeadlocked(name) => PostedForDead(s, name)
    case SemInit(name, value) => WithSem(s, name, value)
    case SemDestroy(name) => s.(sems := s.sems - {name})
  }
}
