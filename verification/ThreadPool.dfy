/** The thread pool of CTPL/ctpl_stl.h as a transition system.

    Every transition is one atomic action of one thread: one `Queue::pop`, one read of an
    atomic flag, one acquisition of the pool mutex, one notification.  The thread that calls
    `resize` and `stop` is the controller; the header asks for a single one.  Any number of
    other threads call `push`, `pop` and `clear_queue`.  Condition variables may wake up
    spuriously. */
module ThreadPool {
  import opened Wrappers

  /** A job is named by its position in the order of the calls of `q.push`. */
  type Job = nat

  /** Where a worker thread stands in the lambda of `set_thread`. */
  datatype Pc =
    | Popping            // about to call q.pop outside the pool mutex
    | Running(job: Job)  // inside (*_f)(i)
    | AfterJob           // about to read its stop flag
    | WantLock           // found the queue empty, wants the pool mutex
    | Checking           // holds the mutex, about to call q.pop in the wait predicate
    | PopFailed          // holds the mutex, the pop failed, about to read isDone
    | ReadDone           // holds the mutex, read isDone as false, about to read its flag
    | GotJob(job: Job)   // holds the mutex, the predicate holds with a job
    | Leaving            // holds the mutex, the predicate holds without a job
    | Asleep             // blocked in the condition variable
    | Woken              // notified, or woken spuriously: wants the mutex back
    | Exited

  datatype Worker = Worker(pc: Pc, flag: bool)

  datatype Owner = Nobody | ByWorker(w: nat) | ByPusher | ByController

  /** What the controller does once its `notify_all` is over. */
  datatype Goal = Shrink(keep: nat) | Stop

  datatype Control =
    | Idle
    | ShrinkFlagging(next: nat, keep: nat)  // resize: flags[keep..next] are still to be set
    | StopFlagging(next: nat)               // stop(false): flags[next..] are still to be set
    | StopClearing                          // stop(false): first clear_queue
    | NotifyWait(goal: Goal)                // wants the pool mutex
    | NotifyHeld(goal: Goal)                // holds it, about to call notify_all
    | Joining(next: nat)                    // about to join threads[next]
    | FinalClearing                         // stop: last clear_queue

  datatype Fate = Taken(w: nat) | Finished | Discarded | Handed

  datatype Pool = Pool(
    queue: seq<Job>,
    workers: seq<Worker>,  // every thread ever started; detached ones stay here
    pool: seq<nat>,        // the vector `threads`, as indices into workers
    mutex: Owner,
    pushers: nat,          // calls of push between q.push and the end of notify_one
    isDone: bool,
    isStop: bool,
    ctl: Control,
    pushed: nat,           // history: number of q.push calls so far
    left: seq<Job>,        // history: the jobs that left the queue, in that order
    fate: map<Job, Fate>)  // history: what became of each of them

  const INIT: Pool := Pool([], [], [], Nobody, 0, false, false, Idle, 0, [], map[])

  datatype Action =
    | Push                             // push: q.push
    | PusherLock                       // push: acquires the mutex
    | PusherNotify(wake: Option<nat>)  // push: notify_one, then releases the mutex
    | UserPop                          // pop
    | UserClear                        // one iteration of clear_queue
    | Spurious(w: nat)
    | Step(w: nat)                     // the next atomic action of worker w
    | Grow                             // resize: one more thread
    | BeginShrink(keep: nat)
    | BeginStop(wait: bool)
    | Control                          // the next atomic action of the controller

  predicate IsAsleep(s: Pool, w: nat) {
    w < |s.workers| && s.workers[w].pc.Asleep?
  }

  predicate WorkerEnabled(s: Pool, w: nat)
    requires w < |s.workers|
  {
    match s.workers[w].pc
    case Asleep => false
    case Exited => false
    case WantLock => s.mutex == Nobody
    case Woken => s.mutex == Nobody
    case _ => true
  }

  predicate ControlEnabled(s: Pool) {
    match s.ctl
    case Idle => false
    case NotifyWait(_) => s.mutex == Nobody
    case Joining(i) =>
      i < |s.pool| && s.pool[i] < |s.workers| ==> s.workers[s.pool[i]].pc.Exited?
    case _ => true
  }

  predicate Enabled(s: Pool, a: Action) {
    match a
    case Push => true
    case PusherLock => s.pushers > 0 && s.mutex == Nobody
    case PusherNotify(None) => s.mutex == ByPusher && forall w :: 0 <= w < |s.workers| ==> !s.workers[w].pc.Asleep?
    case PusherNotify(Some(w)) => s.mutex == ByPusher && IsAsleep(s, w)
    case UserPop => s.queue != []
    case UserClear => s.queue != []
    case Spurious(w) => IsAsleep(s, w)
    case Step(w) => w < |s.workers| && WorkerEnabled(s, w)
    case Grow => s.ctl.Idle? && !s.isStop && !s.isDone
    case BeginShrink(keep) => s.ctl.Idle? && !s.isStop && !s.isDone && keep < |s.pool|
    case BeginStop(wait) => s.ctl.Idle? && !s.isStop && (wait ==> !s.isDone)
    case Control => ControlEnabled(s)
  }

  /** Queue::pop: the front job leaves the queue. */
  function Pop(s: Pool, f: Fate): Pool
    requires s.queue != []
  {
    s.(queue := s.queue[1..], left := s.left + [s.queue[0]], fate := s.fate[s.queue[0] := f])
  }

  function SetPc(s: Pool, w: nat, pc: Pc): Pool
    requires w < |s.workers|
  {
    s.(workers := s.workers[w := s.workers[w].(pc := pc)])
  }

  function SetFlag(s: Pool, w: nat): Pool {
    if w < |s.workers| then s.(workers := s.workers[w := s.workers[w].(flag := true)]) else s
  }

  function Wake(w: Worker): Worker {
    if w.pc.Asleep? then w.(pc := Woken) else w
  }

  function WakeAll(ws: seq<Worker>): (r: seq<Worker>)
    ensures |r| == |ws| && forall i :: 0 <= i < |ws| ==> r[i] == Wake(ws[i])
  {
    seq(|ws|, i requires 0 <= i < |ws| => Wake(ws[i]))
  }

  /** Where worker w stands after its next atomic action. */
  function NextPc(s: Pool, w: nat): Pc
    requires w < |s.workers|
  {
    match s.workers[w].pc
    case Popping => if s.queue == [] then WantLock else Running(s.queue[0])
    case Running(_) => AfterJob
    case AfterJob => if s.workers[w].flag then Exited else Popping
    case WantLock => Checking
    case Woken => Checking
    case Checking => if s.queue == [] then PopFailed else GotJob(s.queue[0])
    case PopFailed => if s.isDone then Leaving else ReadDone
    case ReadDone => if s.workers[w].flag then Leaving else Asleep
    case GotJob(j) => Running(j)
    case Leaving => Exited
    case Asleep => Asleep
    case Exited => Exited
  }

  /** What that action does to the queue, the jobs and the mutex. */
  function Effect(s: Pool, w: nat): (t: Pool)
    requires w < |s.workers|
    ensures t.workers == s.workers && t.pool == s.pool && t.pushers == s.pushers && t.pushed == s.pushed
    ensures t.isDone == s.isDone && t.isStop == s.isStop && t.ctl == s.ctl
  {
    match s.workers[w].pc
    case Popping => if s.queue == [] then s else Pop(s, Taken(w))
    case Running(j) => s.(fate := s.fate[j := Finished])
    case WantLock => s.(mutex := ByWorker(w))
    case Woken => s.(mutex := ByWorker(w))
    case Checking => if s.queue == [] then s else Pop(s, Taken(w))
    case ReadDone => if s.workers[w].flag then s else s.(mutex := Nobody)
    case GotJob(_) => s.(mutex := Nobody)
    case Leaving => s.(mutex := Nobody)
    case _ => s
  }

  function WorkerStep(s: Pool, w: nat): Pool
    requires w < |s.workers| && WorkerEnabled(s, w)
  {
    SetPc(Effect(s, w), w, NextPc(s, w))
  }

  function ControlStep(s: Pool): Pool
    requires ControlEnabled(s)
  {
    match s.ctl
    case Idle => s
    case ShrinkFlagging(i, keep) =>
      if keep < i <= |s.pool| then SetFlag(s, s.pool[i - 1]).(ctl := ShrinkFlagging(i - 1, keep))
      else s.(ctl := NotifyWait(Shrink(keep)))
    case StopFlagging(i) =>
      if i < |s.pool| then SetFlag(s, s.pool[i]).(ctl := StopFlagging(i + 1))
      else s.(ctl := StopClearing)
    case StopClearing =>
      if s.queue != [] then Pop(s, Discarded) else s.(ctl := NotifyWait(Stop))
    case NotifyWait(g) => s.(mutex := ByController, ctl := NotifyHeld(g))
    case NotifyHeld(g) =>
      var t := s.(workers := WakeAll(s.workers), mutex := Nobody);
      (match g
       case Shrink(keep) => t.(pool := if keep <= |s.pool| then s.pool[..keep] else s.pool, ctl := Idle)
       case Stop => t.(ctl := Joining(0)))
    case Joining(i) =>
      s.(ctl := if i < |s.pool| then Joining(i + 1) else FinalClearing)
    case FinalClearing =>
      if s.queue != [] then Pop(s, Discarded) else s.(pool := [], ctl := Idle)
  }

  function Next(s: Pool, a: Action): Pool
    requires Enabled(s, a)
  {
    match a
    case Push => s.(queue := s.queue + [s.pushed], pushed := s.pushed + 1, pushers := s.pushers + 1)
    case PusherLock => s.(mutex := ByPusher)
    case PusherNotify(wake) =>
      var t := s.(mutex := Nobody, pushers := if s.pushers > 0 then s.pushers - 1 else 0);
      (match wake
       case None => t
       case Some(w) => SetPc(t, w, Woken))
    case UserPop => Pop(s, Handed)
    case UserClear => Pop(s, Discarded)
    case Spurious(w) => SetPc(s, w, Woken)
    case Step(w) => WorkerStep(s, w)
    case Grow => s.(workers := s.workers + [Worker(Popping, false)], pool := s.pool + [|s.workers|])
    case BeginShrink(keep) => s.(ctl := ShrinkFlagging(|s.pool|, keep))
    case BeginStop(wait) =>
      if wait then s.(isDone := true, ctl := NotifyWait(Stop))
      else s.(isStop := true, ctl := StopFlagging(0))
    case Control => ControlStep(s)
  }

  /** A run: from s, the actions of `as` are possible one after the other and end in t. */
  ghost predicate Run(s: Pool, acts: seq<Action>, t: Pool)
    decreases |acts|
  {
    if acts == [] then s == t
    else Enabled(s, acts[0]) && Run(Next(s, acts[0]), acts[1..], t)
  }

  ghost predicate Reachable(s: Pool) {
    exists acts :: Run(INIT, acts, s)
  }
}
