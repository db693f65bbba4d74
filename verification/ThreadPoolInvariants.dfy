/** What every step of the thread pool keeps. */
module ThreadPoolInvariants {
  import opened Wrappers
  import opened ThreadPool

  // ----- sums over the workers

  function Sum(ws: seq<Worker>, f: Worker -> nat): nat {
    if ws == [] then 0 else f(ws[0]) + Sum(ws[1..], f)
  }

  lemma {:induction false} SumUpdate(ws: seq<Worker>, w: nat, x: Worker, f: Worker -> nat)
    requires w < |ws|
    ensures Sum(ws[w := x], f) == Sum(ws, f) - f(ws[w]) + f(x)
  {
    if w == 0 {
      assert ws[w := x][1..] == ws[1..];
    } else {
      assert ws[w := x][1..] == ws[1..][w - 1 := x];
      SumUpdate(ws[1..], w - 1, x, f);
    }
  }

  lemma {:induction false} SumAppend(ws: seq<Worker>, x: Worker, f: Worker -> nat)
    ensures Sum(ws + [x], f) == Sum(ws, f) + f(x)
  {
    if ws == [] {
      assert ws + [x] == [x];
    } else {
      assert (ws + [x])[1..] == ws[1..] + [x];
      SumAppend(ws[1..], x, f);
    }
  }

  lemma {:induction false} SumZero(ws: seq<Worker>, f: Worker -> nat)
    requires forall w :: 0 <= w < |ws| ==> f(ws[w]) == 0
    ensures Sum(ws, f) == 0
  {
    if ws != [] {
      SumZero(ws[1..], f);
    }
  }

  // ----- the pool mutex and the thread vector

  predicate InCritical(pc: Pc) {
    pc.Checking? || pc.PopFailed? || pc.ReadDone? || pc.GotJob? || pc.Leaving?
  }

  ghost predicate MutexInv(s: Pool) {
    && (forall w: nat :: w < |s.workers| ==> (InCritical(s.workers[w].pc) <==> s.mutex == ByWorker(w)))
    && (s.mutex == ByPusher ==> s.pushers > 0)
    && (s.mutex == ByController <==> s.ctl.NotifyHeld?)
    && (s.mutex.ByWorker? ==> s.mutex.w < |s.workers|)
  }

  predicate Shrinking(c: Control) {
    c.ShrinkFlagging? || (c.NotifyWait? && c.goal.Shrink?) || (c.NotifyHeld? && c.goal.Shrink?)
  }

  predicate Stopping(c: Control) {
    c.StopClearing? || c.Joining? || c.FinalClearing?
    || (c.NotifyWait? && c.goal.Stop?) || (c.NotifyHeld? && c.goal.Stop?)
  }

  /** A thread stays in the vector until it is flagged or has exited, and it exits only when
      it is flagged or the pool is done. */
  ghost predicate CoverInv(s: Pool) {
    && (forall i :: 0 <= i < |s.pool| ==> s.pool[i] < |s.workers|)
    && (forall w: nat :: w < |s.workers| && !s.workers[w].flag && !s.workers[w].pc.Exited? ==> w in s.pool)
    && (forall w: nat :: w < |s.workers| && (s.workers[w].pc.Exited? || s.workers[w].pc.Leaving?) ==>
          s.workers[w].flag || s.isDone)
  }

  /** How far the flags and the joins of the controller have come. */
  ghost predicate PhaseInv(s: Pool) {
    && (match s.ctl
        case ShrinkFlagging(i, keep) => keep <= i <= |s.pool| && FlaggedBetween(s, i, |s.pool|)
        case NotifyWait(Shrink(keep)) => keep <= |s.pool| && FlaggedBetween(s, keep, |s.pool|)
        case NotifyHeld(Shrink(keep)) => keep <= |s.pool| && FlaggedBetween(s, keep, |s.pool|)
        case StopFlagging(i) => s.isStop && i <= |s.pool| && FlaggedBetween(s, 0, i)
        case Joining(i) => i <= |s.pool| && ExitedBelow(s, i)
        case FinalClearing => ExitedBelow(s, |s.pool|)
        case _ => true)
    && (s.isStop && !s.ctl.StopFlagging? ==> FlaggedBetween(s, 0, |s.pool|))
    && (Stopping(s.ctl) ==> s.isStop || s.isDone)
    && (Shrinking(s.ctl) ==> !s.isStop && !s.isDone)
  }

  ghost predicate FlaggedBetween(s: Pool, lo: nat, hi: nat) {
    forall i :: lo <= i < hi && i < |s.pool| && s.pool[i] < |s.workers| ==> s.workers[s.pool[i]].flag
  }

  ghost predicate ExitedBelow(s: Pool, hi: nat) {
    forall i :: 0 <= i < hi && i < |s.pool| && s.pool[i] < |s.workers| ==> s.workers[s.pool[i]].pc.Exited?
  }

  // ----- wakeups

  /** A worker that was notified, or that is about to evaluate the wait predicate. */
  function Eager(w: Worker): nat {
    if w.pc.Woken? || w.pc.Checking? then 1 else 0
  }

  /** The wait predicate has popped nothing and the worker has not yet slept or left. */
  predicate Failed(pc: Pc) {
    pc.PopFailed? || pc.ReadDone? || pc.Leaving?
  }

  ghost predicate WakeupInv(s: Pool) {
    && (forall w: nat :: w < |s.workers| && s.workers[w].pc.Asleep? ==>
          |s.queue| <= s.pushers + Sum(s.workers, Eager))
    && (forall w: nat :: w < |s.workers| && Failed(s.workers[w].pc) ==> |s.queue| <= s.pushers)
  }

  // ----- shutdown

  /** The controller has set flags and has still to call notify_all. */
  predicate NotifyPending(c: Control) {
    c.ShrinkFlagging? || c.StopFlagging? || c.StopClearing? || c.NotifyWait? || c.NotifyHeld?
  }

  ghost predicate ShutdownInv(s: Pool) {
    forall w: nat :: w < |s.workers| ==>
      && (s.workers[w].pc.Asleep? && (s.isDone || s.workers[w].flag) ==> NotifyPending(s.ctl))
      && (s.workers[w].pc.ReadDone? && s.isDone ==> NotifyPending(s.ctl))
  }

  // ----- jobs

  predicate Holds(pc: Pc, j: Job) {
    pc == Running(j) || pc == GotJob(j)
  }

  ghost predicate JobInv(s: Pool) {
    && |s.left| + |s.queue| == s.pushed
    && (forall k :: 0 <= k < |s.left| ==> s.left[k] == k)
    && (forall k :: 0 <= k < |s.queue| ==> s.queue[k] == |s.left| + k)
    && (forall j: Job :: j in s.fate <==> j < |s.left|)
    && (forall w: nat :: w < |s.workers| && (s.workers[w].pc.Running? || s.workers[w].pc.GotJob?) ==>
          s.workers[w].pc.job in s.fate && s.fate[s.workers[w].pc.job] == Taken(w))
    && (forall j: Job :: j in s.fate && s.fate[j].Taken? ==>
          s.fate[j].w < |s.workers| && Holds(s.workers[s.fate[j].w].pc, j))
  }

  ghost predicate Inv(s: Pool) {
    MutexInv(s) && CoverInv(s) && PhaseInv(s) && WakeupInv(s) && ShutdownInv(s) && JobInv(s)
  }

  // ----- preservation

  /** Worker w moves and takes, keeps or gives back the mutex accordingly. */
  lemma MutexMove(s: Pool, t: Pool, w: nat)
    requires MutexInv(s) && w < |s.workers| && |t.workers| == |s.workers|
    requires t.workers == s.workers[w := t.workers[w]]
    requires t.pushers == s.pushers && t.ctl == s.ctl
    requires if InCritical(t.workers[w].pc) then t.mutex == ByWorker(w) && s.mutex in {Nobody, ByWorker(w)}
             else t.mutex == if s.mutex == ByWorker(w) then Nobody else s.mutex
    ensures MutexInv(t)
  {
  }

  lemma MutexWorker(s: Pool, w: nat)
    requires MutexInv(s) && w < |s.workers| && WorkerEnabled(s, w)
    ensures MutexInv(WorkerStep(s, w))
  {
    assert InCritical(s.workers[w].pc) <==> s.mutex == ByWorker(w);
    MutexMove(s, WorkerStep(s, w), w);
  }

  lemma MutexControl(s: Pool)
    requires MutexInv(s) && ControlEnabled(s)
    ensures MutexInv(ControlStep(s))
  {
  }

  lemma MutexStep(s: Pool, a: Action)
    requires MutexInv(s) && Enabled(s, a)
    ensures MutexInv(Next(s, a))
  {
    match a
    case Step(w) => MutexWorker(s, w);
    case Control => MutexControl(s);
    case _ =>
  }

  lemma CoverStep(s: Pool, a: Action)
    requires MutexInv(s) && CoverInv(s) && PhaseInv(s) && Enabled(s, a)
    ensures CoverInv(Next(s, a))
  {
    match a
    case Step(w) => CoverWorker(s, w);
    case Control => CoverControl(s);
    case _ =>
  }

  /** What one step of a worker leaves alone. */
  lemma WorkerMoves(s: Pool, w: nat)
    requires w < |s.workers| && WorkerEnabled(s, w)
    ensures var t := WorkerStep(s, w);
      && t.pool == s.pool && t.ctl == s.ctl && t.isDone == s.isDone && t.isStop == s.isStop
      && t.workers == s.workers[w := t.workers[w]]
      && t.workers[w].flag == s.workers[w].flag
      && (s.workers[w].pc.Exited? ==> t.workers[w].pc.Exited?)
      && (t.workers[w].pc.Exited? || t.workers[w].pc.Leaving? ==>
            s.workers[w].pc.Exited? || s.workers[w].pc.Leaving? || s.workers[w].flag || s.isDone)
  {
  }

  lemma CoverWorker(s: Pool, w: nat)
    requires CoverInv(s) && w < |s.workers| && WorkerEnabled(s, w)
    ensures CoverInv(WorkerStep(s, w))
  {
    WorkerMoves(s, w);
    CoverFrame(s, WorkerStep(s, w), w);
  }

  lemma CoverFrame(s: Pool, t: Pool, w: nat)
    requires CoverInv(s) && w < |s.workers| && |t.workers| == |s.workers| && t.pool == s.pool && t.isDone == s.isDone
    requires t.workers == s.workers[w := t.workers[w]] && t.workers[w].flag == s.workers[w].flag
    requires s.workers[w].pc.Exited? ==> t.workers[w].pc.Exited?
    requires t.workers[w].pc.Exited? || t.workers[w].pc.Leaving? ==>
      s.workers[w].pc.Exited? || s.workers[w].pc.Leaving? || s.workers[w].flag || s.isDone
    ensures CoverInv(t)
  {
  }

  lemma CoverControl(s: Pool)
    requires CoverInv(s) && PhaseInv(s) && ControlEnabled(s)
    ensures CoverInv(ControlStep(s))
  {
    match s.ctl
    case NotifyHeld(g) =>
    case FinalClearing =>
    case _ =>
  }

  /** Flags are never reset and exited threads stay exited. */
  lemma PhaseMonotone(s: Pool, t: Pool)
    requires PhaseInv(s) && s.ctl == t.ctl && s.pool == t.pool
    requires s.isStop == t.isStop && s.isDone == t.isDone && |s.workers| == |t.workers|
    requires forall w: nat :: w < |s.workers| ==>
      && (s.workers[w].flag ==> t.workers[w].flag)
      && (s.workers[w].pc.Exited? ==> t.workers[w].pc.Exited?)
    ensures PhaseInv(t)
  {
  }

  lemma PhaseWorker(s: Pool, w: nat)
    requires PhaseInv(s) && w < |s.workers| && WorkerEnabled(s, w)
    ensures PhaseInv(WorkerStep(s, w))
  {
    WorkerMoves(s, w);
    PhaseMonotone(s, WorkerStep(s, w));
  }

  lemma PhaseStep(s: Pool, a: Action)
    requires CoverInv(s) && PhaseInv(s) && Enabled(s, a)
    ensures PhaseInv(Next(s, a))
  {
    match a
    case Step(w) => PhaseWorker(s, w);
    case Control => PhaseControl(s);
    case Grow =>
    case BeginShrink(keep) =>
    case BeginStop(wait) =>
    case _ => PhaseMonotone(s, Next(s, a));
  }

  lemma PhaseControl(s: Pool)
    requires CoverInv(s) && PhaseInv(s) && ControlEnabled(s)
    ensures PhaseInv(ControlStep(s))
  {
    match s.ctl
    case ShrinkFlagging(i, keep) => PhaseShrinkFlag(s, i, keep);
    case StopFlagging(i) => PhaseStopFlag(s, i);
    case NotifyHeld(g) => PhaseNotify(s, g);
    case _ =>
  }

  lemma PhaseShrinkFlag(s: Pool, i: nat, keep: nat)
    requires CoverInv(s) && PhaseInv(s) && s.ctl == ShrinkFlagging(i, keep)
    ensures PhaseInv(ControlStep(s))
  {
  }

  lemma PhaseStopFlag(s: Pool, i: nat)
    requires CoverInv(s) && PhaseInv(s) && s.ctl == StopFlagging(i)
    ensures PhaseInv(ControlStep(s))
  {
  }

  lemma PhaseNotify(s: Pool, g: Goal)
    requires CoverInv(s) && PhaseInv(s) && s.ctl == NotifyHeld(g)
    ensures PhaseInv(ControlStep(s))
  {
  }

  /** One worker moves, and jobs may leave the queue. */
  lemma WakeupMove(s: Pool, t: Pool, w: nat)
    requires WakeupInv(s) && w < |s.workers| && |t.workers| == |s.workers|
    requires t.workers == s.workers[w := t.workers[w]]
    requires t.pushers == s.pushers && |t.queue| <= |s.queue|
    requires t.queue == [] || Eager(t.workers[w]) + |s.queue| >= Eager(s.workers[w]) + |t.queue|
    requires t.workers[w].pc == s.workers[w].pc
      || (t.workers[w].pc.Asleep? || Failed(t.workers[w].pc) ==> |t.queue| <= t.pushers)
    ensures WakeupInv(t)
  {
    SumUpdate(s.workers, w, t.workers[w], Eager);
    assert forall v: nat :: v < |s.workers| && v != w ==> t.workers[v] == s.workers[v];
  }

  lemma WakeupWorker(s: Pool, w: nat)
    requires WakeupInv(s) && w < |s.workers| && WorkerEnabled(s, w)
    ensures WakeupInv(WorkerStep(s, w))
  {
    assert Failed(s.workers[w].pc) ==> |s.queue| <= s.pushers;
    WakeupMove(s, WorkerStep(s, w), w);
  }

  lemma WakeupControl(s: Pool)
    requires MutexInv(s) && WakeupInv(s) && ControlEnabled(s)
    ensures WakeupInv(ControlStep(s))
  {
    match s.ctl
    case NotifyHeld(g) => WakeupAll(s);
    case ShrinkFlagging(i, keep) => if keep < i <= |s.pool| { WakeupFlag(s, s.pool[i - 1]); }
    case StopFlagging(i) => if i < |s.pool| { WakeupFlag(s, s.pool[i]); }
    case _ =>
  }

  lemma WakeupAll(s: Pool)
    requires MutexInv(s) && s.ctl.NotifyHeld?
    ensures WakeupInv(ControlStep(s))
  {
  }

  lemma WakeupFlag(s: Pool, w: nat)
    requires WakeupInv(s)
    ensures WakeupInv(SetFlag(s, w))
  {
    if w < |s.workers| {
      WakeupMove(s, SetFlag(s, w), w);
    }
  }

  lemma WakeupStep(s: Pool, a: Action)
    requires MutexInv(s) && WakeupInv(s) && Enabled(s, a)
    ensures WakeupInv(Next(s, a))
  {
    var t := Next(s, a);
    match a
    case Step(w) => WakeupWorker(s, w);
    case Control => WakeupControl(s);
    case Spurious(w) => SumUpdate(s.workers, w, t.workers[w], Eager);
    case PusherNotify(Some(w)) => SumUpdate(s.workers, w, t.workers[w], Eager);
    case Grow => SumAppend(s.workers, Worker(Popping, false), Eager);
    case _ =>
  }

  lemma ShutdownWorker(s: Pool, w: nat)
    requires MutexInv(s) && ShutdownInv(s) && w < |s.workers| && WorkerEnabled(s, w)
    ensures ShutdownInv(WorkerStep(s, w))
  {
  }

  lemma ShutdownControl(s: Pool)
    requires MutexInv(s) && PhaseInv(s) && ShutdownInv(s) && ControlEnabled(s)
    ensures ShutdownInv(ControlStep(s))
  {
  }

  lemma ShutdownStep(s: Pool, a: Action)
    requires MutexInv(s) && PhaseInv(s) && ShutdownInv(s) && Enabled(s, a)
    ensures ShutdownInv(Next(s, a))
  {
    match a
    case Step(w) => ShutdownWorker(s, w);
    case Control => ShutdownControl(s);
    case _ =>
  }

  lemma JobPop(s: Pool, f: Fate)
    requires JobInv(s) && s.queue != [] && !f.Taken?
    ensures JobInv(Pop(s, f))
  {
  }

  lemma JobTake(s: Pool, w: nat, pc: Pc)
    requires JobInv(s) && s.queue != [] && w < |s.workers|
    requires !s.workers[w].pc.Running? && !s.workers[w].pc.GotJob?
    requires Holds(pc, s.queue[0])
    ensures JobInv(SetPc(Pop(s, Taken(w)), w, pc))
  {
  }

  lemma JobFrame(s: Pool, t: Pool)
    requires JobInv(s) && t.queue == s.queue && t.left == s.left && t.fate == s.fate && t.pushed == s.pushed
    requires |t.workers| == |s.workers|
    requires forall w: nat, j: Job :: w < |s.workers| ==>
      (Holds(t.workers[w].pc, j) <==> Holds(s.workers[w].pc, j))
    ensures JobInv(t)
  {
    forall w: nat | w < |t.workers| && (t.workers[w].pc.Running? || t.workers[w].pc.GotJob?)
      ensures t.workers[w].pc.job in t.fate && t.fate[t.workers[w].pc.job] == Taken(w)
    {
      assert Holds(t.workers[w].pc, t.workers[w].pc.job);
      assert Holds(s.workers[w].pc, t.workers[w].pc.job);
    }
  }

  lemma JobWorker(s: Pool, w: nat)
    requires JobInv(s) && w < |s.workers| && WorkerEnabled(s, w)
    ensures JobInv(WorkerStep(s, w))
  {
    var t := WorkerStep(s, w);
    match s.workers[w].pc
    case Popping => if s.queue != [] { JobTake(s, w, Running(s.queue[0])); } else { JobFrame(s, t); }
    case Checking => if s.queue != [] { JobTake(s, w, GotJob(s.queue[0])); } else { JobFrame(s, t); }
    case Running(j) => JobFinish(s, w);
    case _ => JobFrame(s, t);
  }

  lemma JobFinish(s: Pool, w: nat)
    requires JobInv(s) && w < |s.workers| && s.workers[w].pc.Running?
    ensures JobInv(WorkerStep(s, w))
  {
  }

  lemma JobControl(s: Pool)
    requires JobInv(s) && ControlEnabled(s)
    ensures JobInv(ControlStep(s))
  {
    if s.queue != [] && (s.ctl.StopClearing? || s.ctl.FinalClearing?) {
      JobPop(s, Discarded);
    } else {
      ControlKeepsJobs(s);
      JobFrame(s, ControlStep(s));
    }
  }

  lemma ControlKeepsJobs(s: Pool)
    requires ControlEnabled(s) && (s.queue == [] || (!s.ctl.StopClearing? && !s.ctl.FinalClearing?))
    ensures var t := ControlStep(s);
      && t.queue == s.queue && t.left == s.left && t.fate == s.fate && t.pushed == s.pushed
      && |t.workers| == |s.workers|
      && forall w: nat, j: Job :: w < |s.workers| ==> (Holds(t.workers[w].pc, j) <==> Holds(s.workers[w].pc, j))
  {
    match s.ctl
    case NotifyHeld(g) => NotifyKeepsJobs(s, g);
    case _ =>
  }

  lemma NotifyKeepsJobs(s: Pool, g: Goal)
    requires s.ctl == NotifyHeld(g)
    ensures var t := ControlStep(s);
      && t.queue == s.queue && t.left == s.left && t.fate == s.fate && t.pushed == s.pushed
      && |t.workers| == |s.workers|
      && forall w: nat, j: Job :: w < |s.workers| ==> (Holds(t.workers[w].pc, j) <==> Holds(s.workers[w].pc, j))
  {
  }

  lemma JobStep(s: Pool, a: Action)
    requires JobInv(s) && Enabled(s, a)
    ensures JobInv(Next(s, a))
  {
    match a
    case Step(w) => JobWorker(s, w);
    case Control => JobControl(s);
    case UserPop => JobPop(s, Handed);
    case UserClear => JobPop(s, Discarded);
    case _ =>
  }

  lemma InvStep(s: Pool, a: Action)
    requires Inv(s) && Enabled(s, a)
    ensures Inv(Next(s, a))
  {
    MutexStep(s, a);
    CoverStep(s, a);
    PhaseStep(s, a);
    WakeupStep(s, a);
    ShutdownStep(s, a);
    JobStep(s, a);
  }

  lemma {:induction false} InvRun(s: Pool, acts: seq<Action>, t: Pool)
    requires Inv(s) && Run(s, acts, t)
    ensures Inv(t)
    decreases |acts|
  {
    if acts != [] {
      InvStep(s, acts[0]);
      InvRun(Next(s, acts[0]), acts[1..], t);
    }
  }

  /** Every reachable state satisfies the invariant. */
  lemma ReachableInv(s: Pool)
    requires Reachable(s)
    ensures Inv(s)
  {
    var acts :| Run(INIT, acts, s);
    assert Inv(INIT);
    InvRun(INIT, acts, s);
  }

  // ----- the threads the pool still lists

  function FreshUpto(s: Pool): nat {
    match s.ctl
    case ShrinkFlagging(i, _) => i
    case NotifyWait(Shrink(keep)) => keep
    case NotifyHeld(Shrink(keep)) => keep
    case _ => |s.pool|
  }

  /** Unless stop(false) was called, the vector holds the threads that are not flagged, and during
      a shrink those behind the ones flagged so far. */
  ghost predicate FreshInv(s: Pool) {
    && (forall i, j :: 0 <= i < j < |s.pool| ==> s.pool[i] < s.pool[j])
    && (!s.isStop ==> forall i :: 0 <= i < FreshUpto(s) && i < |s.pool| && s.pool[i] < |s.workers| ==>
          !s.workers[s.pool[i]].flag)
  }

  lemma FreshWorker(s: Pool, w: nat)
    requires FreshInv(s) && w < |s.workers| && WorkerEnabled(s, w)
    ensures FreshInv(WorkerStep(s, w))
  {
    var t := WorkerStep(s, w);
    assert forall v: nat :: v < |s.workers| ==> t.workers[v].flag == s.workers[v].flag;
  }

  lemma FreshStep(s: Pool, a: Action)
    requires CoverInv(s) && PhaseInv(s) && FreshInv(s) && Enabled(s, a)
    ensures FreshInv(Next(s, a))
  {
    match a
    case Step(w) => FreshWorker(s, w);
    case Control => FreshControl(s);
    case Spurious(w) => FreshSame(s, Next(s, a));
    case PusherNotify(wake) => FreshSame(s, Next(s, a));
    case _ =>
  }

  lemma FreshSame(s: Pool, t: Pool)
    requires FreshInv(s) && t.pool == s.pool && t.ctl == s.ctl && t.isStop == s.isStop
    requires |t.workers| == |s.workers|
    requires forall w: nat :: w < |s.workers| ==> t.workers[w].flag == s.workers[w].flag
    ensures FreshInv(t)
  {
  }

  lemma FreshControl(s: Pool)
    requires CoverInv(s) && PhaseInv(s) && FreshInv(s) && ControlEnabled(s)
    ensures FreshInv(ControlStep(s))
  {
    match s.ctl
    case ShrinkFlagging(i, keep) => FreshFlag(s, i, keep);
    case NotifyHeld(g) => FreshNotify(s, g);
    case _ =>
  }

  lemma FreshFlag(s: Pool, i: nat, keep: nat)
    requires CoverInv(s) && PhaseInv(s) && FreshInv(s) && s.ctl == ShrinkFlagging(i, keep)
    ensures FreshInv(ControlStep(s))
  {
  }

  lemma FreshNotify(s: Pool, g: Goal)
    requires CoverInv(s) && PhaseInv(s) && FreshInv(s) && s.ctl == NotifyHeld(g)
    ensures FreshInv(ControlStep(s))
  {
  }

  lemma {:induction false} FreshRun(s: Pool, acts: seq<Action>, t: Pool)
    requires Inv(s) && FreshInv(s) && Run(s, acts, t)
    ensures FreshInv(t)
    decreases |acts|
  {
    if acts != [] {
      InvStep(s, acts[0]);
      FreshStep(s, acts[0]);
      FreshRun(Next(s, acts[0]), acts[1..], t);
    }
  }

  lemma ReachableFresh(s: Pool)
    requires Reachable(s)
    ensures Inv(s) && FreshInv(s)
  {
    var acts :| Run(INIT, acts, s);
    InvRun(INIT, acts, s);
    FreshRun(INIT, acts, s);
  }
}
