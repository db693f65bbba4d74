/** What the thread pool promises to its users, over every run. */
module ThreadPoolTheorems {
  import opened Wrappers
  import opened ThreadPool
  import opened ThreadPoolInvariants

  // ----- no lost wakeup

  /** A worker that sleeps unnotified, or that holds the mutex with its predicate just failed. */
  predicate Stranded(pc: Pc) {
    pc.Asleep? || pc.PopFailed? || pc.ReadDone?
  }

  /** If some worker is stranded, the queued jobs are covered one by one: by a pusher that has
      still to notify, or by a notified worker that has still to pop. */
  lemma NoLostWakeup(s: Pool, w: nat)
    requires Reachable(s)
    requires w < |s.workers| && Stranded(s.workers[w].pc)
    ensures |s.queue| <= s.pushers + Sum(s.workers, Eager)
  {
    ReachableInv(s);
  }

  /** So the pool never stops with work to do: a queued job, no notification to come, and every
      live worker asleep. */
  lemma NeverStuckWithWork(s: Pool)
    requires Reachable(s) && s.queue != [] && s.pushers == 0
    requires exists w :: 0 <= w < |s.workers| && !s.workers[w].pc.Exited?
    ensures exists w :: 0 <= w < |s.workers| && !s.workers[w].pc.Exited? && !s.workers[w].pc.Asleep?
  {
    var w :| 0 <= w < |s.workers| && !s.workers[w].pc.Exited?;
    if s.workers[w].pc.Asleep? {
      NoLostWakeup(s, w);
      if forall v :: 0 <= v < |s.workers| ==> s.workers[v].pc.Exited? || s.workers[v].pc.Asleep? {
        SumZero(s.workers, Eager);
      }
    }
  }

  // ----- jobs

  /** Jobs leave the queue in the order in which they were pushed, and each pushed job is in
      exactly one place: in the queue, with one worker, finished, discarded or handed out. */
  lemma FifoAndConservation(s: Pool, j: Job)
    requires Reachable(s)
    ensures s.left + s.queue == seq(s.pushed, i => i)
    ensures j < s.pushed <==> j in s.queue || j in s.fate
    ensures !(j in s.queue && j in s.fate)
    ensures forall w: nat :: w < |s.workers| ==>
      (Holds(s.workers[w].pc, j) <==> j in s.fate && s.fate[j] == Taken(w))
  {
    ReachableInv(s);
    if |s.left| <= j < s.pushed {
      assert s.queue[j - |s.left|] == j;
    }
  }

  lemma FateWorker(s: Pool, w: nat, j: Job)
    requires JobInv(s) && w < |s.workers| && WorkerEnabled(s, w)
    requires j in s.fate && !s.fate[j].Taken?
    ensures j in WorkerStep(s, w).fate && WorkerStep(s, w).fate[j] == s.fate[j]
  {
  }

  /** A finished, discarded or handed out job keeps that fate, so it never runs again. */
  lemma FateIsFinal(s: Pool, a: Action, j: Job)
    requires Reachable(s) && Enabled(s, a)
    requires j in s.fate && !s.fate[j].Taken?
    ensures j in Next(s, a).fate && Next(s, a).fate[j] == s.fate[j]
  {
    ReachableInv(s);
    assert s.queue != [] ==> s.queue[0] !in s.fate;
    match a
    case Step(w) => FateWorker(s, w, j);
    case _ =>
  }

  /** Who decides on a job: pop hands it out, the calls of clear_queue discard it, a worker that
      takes it runs it, and only a worker that has it finishes it. */
  lemma FateExactly(s: Pool, a: Action, j: Job)
    requires Enabled(s, a)
    requires j in Next(s, a).fate && (j in s.fate ==> Next(s, a).fate[j] != s.fate[j])
    ensures var f := Next(s, a).fate[j];
      && (f == Handed <==> a == UserPop)
      && (f == Discarded <==> a == UserClear || (a == Control && (s.ctl == StopClearing || s.ctl == FinalClearing)))
      && (f.Taken? ==> a == Step(f.w) && s.queue != [] && j == s.queue[0] && Holds(Next(s, a).workers[f.w].pc, j))
      && (f == Finished ==> a.Step? && a.w < |s.workers| && s.workers[a.w].pc == Running(j))
  {
    match a
    case Step(w) => WorkerFate(s, w, j);
    case _ => OtherFate(s, a, j);
  }

  lemma OtherFate(s: Pool, a: Action, j: Job)
    requires Enabled(s, a) && !a.Step?
    requires j in Next(s, a).fate && (j in s.fate ==> Next(s, a).fate[j] != s.fate[j])
    ensures var f := Next(s, a).fate[j];
      || (f == Handed && a == UserPop)
      || (f == Discarded && (a == UserClear || (a == Control && (s.ctl == StopClearing || s.ctl == FinalClearing))))
    ensures a == UserPop ==> Next(s, a).fate[j] == Handed
    ensures a == UserClear || a == Control ==> Next(s, a).fate[j] == Discarded
  {
    match a
    case Control => ControlFate(s, j);
    case _ =>
  }

  lemma ControlFate(s: Pool, j: Job)
    requires ControlEnabled(s)
    requires j in ControlStep(s).fate && (j in s.fate ==> ControlStep(s).fate[j] != s.fate[j])
    ensures ControlStep(s).fate[j] == Discarded && (s.ctl == StopClearing || s.ctl == FinalClearing)
  {
  }

  lemma WorkerFate(s: Pool, w: nat, j: Job)
    requires w < |s.workers| && WorkerEnabled(s, w)
    requires j in WorkerStep(s, w).fate && (j in s.fate ==> WorkerStep(s, w).fate[j] != s.fate[j])
    ensures var f := WorkerStep(s, w).fate[j];
      || (f == Taken(w) && s.queue != [] && j == s.queue[0] && Holds(WorkerStep(s, w).workers[w].pc, j))
      || (f == Finished && s.workers[w].pc == Running(j))
  {
  }

  // ----- resize

  /** A run of the pool that ends when the controller has nothing more to do. */
  ghost predicate UntilIdle(s: Pool, acts: seq<Action>, t: Pool)
    decreases |acts|
  {
    if acts == [] then s == t && t.ctl.Idle?
    else !s.ctl.Idle? && Enabled(s, acts[0]) && UntilIdle(Next(s, acts[0]), acts[1..], t)
  }

  /** Thread w is listed in the vector from position i on. */
  predicate ListedFrom(s: Pool, i: nat, w: nat) {
    exists j :: i <= j < |s.pool| && s.pool[j] == w
  }

  /** The shrink that began in s0 has come to r: the flags of the threads from position i on are
      set, and no others. */
  ghost predicate ShrinkGot(s0: Pool, r: Pool, keep: nat, i: nat) {
    && keep <= i <= |s0.pool| && r.pool == s0.pool && |r.workers| == |s0.workers|
    && forall w: nat :: w < |r.workers| ==> (r.workers[w].flag <==> s0.workers[w].flag || ListedFrom(s0, i, w))
  }

  ghost predicate ShrinkState(s0: Pool, r: Pool, keep: nat) {
    match r.ctl
    case ShrinkFlagging(i, k) => k == keep && ShrinkGot(s0, r, keep, i)
    case NotifyWait(g) => g == Shrink(keep) && ShrinkGot(s0, r, keep, keep)
    case NotifyHeld(g) => g == Shrink(keep) && ShrinkGot(s0, r, keep, keep)
    case _ => false
  }

  /** A step that is not the controller's while it is busy. */
  lemma OthersKeepFlags(s: Pool, a: Action)
    requires Enabled(s, a) && !s.ctl.Idle? && !a.Control?
    ensures var t := Next(s, a);
      && t.ctl == s.ctl && t.pool == s.pool && |t.workers| == |s.workers|
      && forall w: nat :: w < |s.workers| ==> t.workers[w].flag == s.workers[w].flag
  {
    match a
    case Step(w) =>
    case _ =>
  }

  lemma ShrinkFlags(s0: Pool, r: Pool, keep: nat)
    requires CoverInv(r) && r.ctl.ShrinkFlagging? && ShrinkState(s0, r, keep)
    ensures ShrinkState(s0, ControlStep(r), keep)
  {
    var i := r.ctl.next;
    if keep < i {
      forall w: nat | w < |r.workers|
        ensures ListedFrom(s0, i - 1, w) <==> ListedFrom(s0, i, w) || s0.pool[i - 1] == w
      {
      }
    }
  }

  /** What a shrinking resize leaves behind. */
  ghost predicate Shrunk(s0: Pool, t: Pool, keep: nat) {
    && keep <= |s0.pool| && t.pool == s0.pool[..keep] && |t.workers| == |s0.workers|
    && forall w: nat :: w < |t.workers| ==> (t.workers[w].flag <==> s0.workers[w].flag || ListedFrom(s0, keep, w))
  }

  lemma {:induction false} ShrinkRun(s0: Pool, r: Pool, acts: seq<Action>, t: Pool, keep: nat)
    requires Inv(r) && ShrinkState(s0, r, keep) && UntilIdle(r, acts, t)
    ensures Shrunk(s0, t, keep)
    decreases |acts|
  {
    var n := Next(r, acts[0]);
    InvStep(r, acts[0]);
    if acts[0].Control? {
      if r.ctl.ShrinkFlagging? {
        ShrinkFlags(s0, r, keep);
        ShrinkRun(s0, n, acts[1..], t, keep);
      } else if r.ctl.NotifyWait? {
        ShrinkRun(s0, n, acts[1..], t, keep);
      } else {
        assert n.ctl.Idle? && acts[1..] == [];
        assert forall w: nat :: w < |r.workers| ==> n.workers[w].flag == r.workers[w].flag;
      }
    } else {
      OthersKeepFlags(r, acts[0]);
      ShrinkRun(s0, n, acts[1..], t, keep);
    }
  }

  /** resize to fewer threads: in every run up to its return, whatever the others do, the first
      `keep` threads stay listed, exactly the others are told to stop and dropped, and nobody
      else's flag changes. */
  lemma ResizeShrinks(s: Pool, keep: nat, acts: seq<Action>, t: Pool)
    requires Reachable(s) && Enabled(s, BeginShrink(keep)) && UntilIdle(Next(s, BeginShrink(keep)), acts, t)
    ensures t.pool == s.pool[..keep] && |t.workers| == |s.workers|
    ensures forall j :: keep <= j < |s.pool| ==> s.pool[j] < |t.workers| && t.workers[s.pool[j]].flag
    ensures forall j :: 0 <= j < keep ==> s.pool[j] < |t.workers| && !t.workers[s.pool[j]].flag
    ensures forall w: nat :: w < |s.workers| && w !in s.pool ==> t.workers[w].flag == s.workers[w].flag
  {
    ReachableFresh(s);
    var r := Next(s, BeginShrink(keep));
    InvStep(s, BeginShrink(keep));
    ShrinkRun(s, r, acts, t, keep);
    forall j | keep <= j < |s.pool| ensures t.workers[s.pool[j]].flag {
      assert ListedFrom(s, keep, s.pool[j]);
    }
    forall j | 0 <= j < keep ensures !t.workers[s.pool[j]].flag {
      assert !s.workers[s.pool[j]].flag;
    }
  }

  /** resize to more threads adds them one by one: each is new, unflagged and last in the vector,
      and the others stay as they are. */
  lemma ResizeGrows(s: Pool)
    requires Reachable(s) && Enabled(s, Grow)
    ensures var t := Next(s, Grow);
      && |t.pool| == |s.pool| + 1 && t.pool[..|s.pool|] == s.pool
      && var w := t.pool[|s.pool|];
      && w !in s.pool && w == |s.workers| && |t.workers| == w + 1
      && !t.workers[w].flag && t.workers[w].pc == Popping && t.workers[..w] == s.workers
  {
    ReachableInv(s);
  }

  // ----- stop(false)

  /** A run of stop(false) up to the end of its first clear_queue. */
  ghost predicate UntilCleared(s: Pool, acts: seq<Action>, t: Pool)
    decreases |acts|
  {
    if acts == [] then s == t && t.ctl == NotifyWait(Stop)
    else (s.ctl.StopFlagging? || s.ctl.StopClearing?) && Enabled(s, acts[0]) && UntilCleared(Next(s, acts[0]), acts[1..], t)
  }

  lemma {:induction false} ClearRun(r: Pool, acts: seq<Action>, t: Pool, n: nat, pool: seq<nat>)
    requires Inv(r) && n <= r.pushed && UntilCleared(r, acts, t) && r.pool == pool && r.isStop
    requires r.ctl.StopFlagging? || r.ctl.StopClearing? || n <= |r.left|
    ensures Inv(t) && n <= |t.left| && t.pool == pool && t.isStop && t.ctl == NotifyWait(Stop)
    decreases |acts|
  {
    if acts != [] {
      InvStep(r, acts[0]);
      if !acts[0].Control? {
        OthersKeepFlags(r, acts[0]);
        OthersKeepStop(r, acts[0]);
      }
      ClearRun(Next(r, acts[0]), acts[1..], t, n, pool);
    }
  }

  lemma OthersKeepStop(s: Pool, a: Action)
    requires Enabled(s, a) && !s.ctl.Idle? && !a.Control?
    ensures Next(s, a).isStop == s.isStop && Next(s, a).pushed >= s.pushed
  {
    match a
    case Step(w) =>
    case _ =>
  }

  /** stop(false) tells every listed thread to stop, and when its first clear_queue is over no job
      that was pushed before is left in the queue. */
  lemma StopNowClears(s: Pool, acts: seq<Action>, t: Pool)
    requires Reachable(s) && Enabled(s, BeginStop(false)) && UntilCleared(Next(s, BeginStop(false)), acts, t)
    ensures forall j :: j in t.queue ==> j >= s.pushed
    ensures t.pool == s.pool && forall i :: 0 <= i < |s.pool| ==> s.pool[i] < |t.workers| && t.workers[s.pool[i]].flag
  {
    ReachableInv(s);
    InvStep(s, BeginStop(false));
    ClearRun(Next(s, BeginStop(false)), acts, t, s.pushed, s.pool);
    assert FlaggedBetween(t, 0, |t.pool|);
  }

  // ----- stop(true) runs every job

  /** The worker is past its last pop, or will be after its next read. */
  predicate Over(pc: Pc) {
    pc.PopFailed? || pc.Leaving? || pc.Exited?
  }

  /** The first n jobs have left the queue; or some thread of the pool has still to pop; or there
      is one of them left, and stop waits for the mutex of a worker that is about to pop it. */
  ghost predicate WillDrain(s: Pool, n: nat) {
    || n <= |s.left|
    || (exists w: nat :: w < |s.workers| && !s.workers[w].flag && !Over(s.workers[w].pc))
    || (n == |s.left| + 1 && s.ctl == NotifyWait(Stop) && exists w: nat :: w < |s.workers| && s.workers[w].pc.Checking?)
  }

  /** stop(true) is in progress: the last join is not over or has just ended. */
  ghost predicate Draining(s: Pool, n: nat) {
    && s.isDone && !s.isStop && n <= s.pushed
    && (s.ctl == NotifyWait(Stop) || s.ctl == NotifyHeld(Stop) || s.ctl.Joining? || s.ctl.FinalClearing?)
    && (forall w: nat :: w < |s.workers| && !s.workers[w].flag ==> w in s.pool)
    && WillDrain(s, n)
  }

  /** Anything but the end of the call of stop. */
  ghost predicate DrainAction(s: Pool, a: Action) {
    !(a.Control? && s.ctl.FinalClearing?)
  }

  lemma DrainWorker(s: Pool, w: nat, n: nat)
    requires |s.left| + |s.queue| == s.pushed && Draining(s, n) && w < |s.workers| && WorkerEnabled(s, w)
    ensures Draining(WorkerStep(s, w), n)
  {
    var t := WorkerStep(s, w);
    assert forall v: nat :: v < |s.workers| && v != w ==> t.workers[v] == s.workers[v];
    assert t.workers[w].flag == s.workers[w].flag;
    if n > |s.left| {
      if v: nat :| v < |s.workers| && !s.workers[v].flag && !Over(s.workers[v].pc) {
        assert n <= |t.left| || !Over(t.workers[v].pc);
      } else {
        var v: nat :| v < |s.workers| && s.workers[v].pc.Checking?;
        assert n <= |t.left| || t.workers[v].pc.Checking?;
      }
    }
  }

  lemma DrainControl(s: Pool, n: nat)
    requires Inv(s) && Draining(s, n) && ControlEnabled(s) && !s.ctl.FinalClearing?
    ensures Draining(ControlStep(s), n)
  {
    var t := ControlStep(s);
    assert forall v: nat :: v < |s.workers| ==>
      t.workers[v].flag == s.workers[v].flag && (Over(t.workers[v].pc) ==> Over(s.workers[v].pc));
    assert s.ctl.NotifyWait? ==> forall v: nat :: v < |s.workers| ==> !InCritical(s.workers[v].pc);
  }

  lemma DrainOther(s: Pool, a: Action, n: nat)
    requires Inv(s) && Draining(s, n) && Enabled(s, a) && !a.Step? && !a.Control?
    ensures Draining(Next(s, a), n)
  {
    var t := Next(s, a);
    assert forall v: nat :: v < |s.workers| ==>
      && t.workers[v].flag == s.workers[v].flag
      && (Over(t.workers[v].pc) ==> Over(s.workers[v].pc))
      && (s.workers[v].pc.Checking? ==> t.workers[v].pc.Checking?);
  }

  lemma DrainStep(s: Pool, a: Action, n: nat)
    requires Inv(s) && Draining(s, n) && Enabled(s, a) && DrainAction(s, a)
    ensures Draining(Next(s, a), n)
  {
    match a
    case Step(w) => DrainWorker(s, w, n);
    case Control => DrainControl(s, n);
    case _ => DrainOther(s, a, n);
  }

  /** A run up to the end of the last join. */
  ghost predicate DrainRun(s: Pool, acts: seq<Action>, t: Pool)
    decreases |acts|
  {
    if acts == [] then s == t
    else Enabled(s, acts[0]) && DrainAction(s, acts[0]) && DrainRun(Next(s, acts[0]), acts[1..], t)
  }

  predicate Removed(s: Pool, j: Job) {
    j in s.fate && (s.fate[j].Handed? || s.fate[j].Discarded?)
  }

  predicate NoUserRemoval(acts: seq<Action>) {
    UserPop !in acts && UserClear !in acts
  }

  /** No thread is flagged: no shrinking resize came before. */
  predicate Unflagged(s: Pool) {
    forall w :: 0 <= w < |s.workers| ==> !s.workers[w].flag
  }

  lemma RemovedStep(s: Pool, a: Action, n: nat, j: Job)
    requires Inv(s) && Draining(s, n) && Enabled(s, a) && DrainAction(s, a)
    requires !a.UserPop? && !a.UserClear?
    ensures Removed(Next(s, a), j) ==> Removed(s, j)
  {
    match a
    case Step(w) =>
    case _ =>
  }

  lemma UnflaggedStep(s: Pool, a: Action, n: nat)
    requires Draining(s, n) && Enabled(s, a) && Unflagged(s)
    ensures Unflagged(Next(s, a))
  {
    match a
    case Step(w) =>
    case _ =>
  }

  lemma {:induction false} DrainRunKeeps(s: Pool, acts: seq<Action>, t: Pool, n: nat)
    requires Inv(s) && Draining(s, n) && DrainRun(s, acts, t)
    ensures Inv(t) && Draining(t, n)
    ensures Unflagged(s) ==> Unflagged(t)
    ensures NoUserRemoval(acts) ==> forall j: Job :: Removed(t, j) ==> Removed(s, j)
    decreases |acts|
  {
    if acts != [] {
      var r := Next(s, acts[0]);
      InvStep(s, acts[0]);
      DrainStep(s, acts[0], n);
      if Unflagged(s) {
        UnflaggedStep(s, acts[0], n);
      }
      DrainRunKeeps(r, acts[1..], t, n);
      if NoUserRemoval(acts) {
        assert acts[0] in acts;
        forall j: Job | Removed(t, j) ensures Removed(s, j) {
          RemovedStep(s, acts[0], n, j);
        }
      }
    }
  }

  /** Some thread of the pool is not between a failed pop and its read of isDone.  With no such
      thread a single job is still taken, by a detached thread that is in the wait predicate. */
  predicate CanDrain(s: Pool) {
    || s.queue == []
    || (exists w :: 0 <= w < |s.workers| && !s.workers[w].flag && !s.workers[w].pc.PopFailed?)
    || (|s.queue| == 1 && exists w :: 0 <= w < |s.workers| && s.workers[w].pc.Checking?)
  }

  /** The job was taken by a thread that a shrinking resize has detached: stop does not join it. */
  predicate WithDetached(s: Pool, j: Job) {
    j in s.fate && s.fate[j].Taken? && s.fate[j].w < |s.workers| && s.workers[s.fate[j].w].flag
  }

  lemma DrainStart(s: Pool)
    requires Reachable(s) && Enabled(s, BeginStop(true)) && CanDrain(s)
    ensures Inv(Next(s, BeginStop(true))) && Draining(Next(s, BeginStop(true)), s.pushed)
  {
    ReachableInv(s);
    InvStep(s, BeginStop(true));
    var r := Next(s, BeginStop(true));
    if w :| 0 <= w < |s.workers| && !s.workers[w].flag && !s.workers[w].pc.PopFailed? {
      assert !Over(r.workers[w].pc);
    }
  }

  /** When the joins of stop(true) are over, every job pushed before stop has left the queue and
      has run to completion, except those handed out or discarded and those that a detached
      thread still runs; without an earlier shrink there are none of the latter, and unless a user
      calls pop or clear_queue meanwhile the former had been removed before stop began. */
  lemma StopDrains(s: Pool, acts: seq<Action>, t: Pool)
    requires Reachable(s) && Enabled(s, BeginStop(true)) && CanDrain(s)
    requires DrainsTo(s, acts, t)
    ensures forall j :: j in t.queue ==> j >= s.pushed
    ensures forall j: Job :: j < s.pushed ==>
      j in t.fate && (t.fate[j].Finished? || Removed(t, j) || WithDetached(t, j))
    ensures Unflagged(s) ==> forall j: Job :: !WithDetached(t, j)
    ensures NoUserRemoval(acts) ==> forall j: Job :: Removed(t, j) ==> Removed(s, j)
  {
    DrainStart(s);
    var r := Next(s, BeginStop(true));
    DrainRunKeeps(r, acts, t, s.pushed);
    forall w: nat | w < |t.workers| && !t.workers[w].flag ensures t.workers[w].pc.Exited? {
      assert w in t.pool;
    }
    forall j: Job | Removed(r, j) ensures Removed(s, j) {
    }
  }

  /** Two conditions a caller can check before the call: every push has returned and the pool has a
      thread, or it has two. */
  lemma WhenStopDrains(s: Pool)
    requires Reachable(s) && Enabled(s, BeginStop(true))
    requires (s.pushers == 0 && s.pool != []) || |s.pool| >= 2
    ensures CanDrain(s)
  {
    ReachableFresh(s);
    assert !s.workers[s.pool[0]].flag;
    assert s.workers[s.pool[0]].pc.PopFailed? ==> s.mutex == ByWorker(s.pool[0]) && |s.queue| <= s.pushers;
    if |s.pool| >= 2 {
      assert s.pool[0] < s.pool[1] && !s.workers[s.pool[1]].flag;
      assert s.workers[s.pool[1]].pc.PopFailed? ==> s.mutex == ByWorker(s.pool[1]);
    }
  }

  /** However stop(true) goes on, and whatever is pushed meanwhile, its last clear_queue discards
      no job that was pushed before it. */
  ghost predicate AlwaysDrains(s: Pool)
    requires Enabled(s, BeginStop(true))
  {
    forall acts, t :: DrainsTo(s, acts, t) ==> forall j :: j in t.queue ==> j >= s.pushed
  }

  ghost predicate DrainsTo(s: Pool, acts: seq<Action>, t: Pool)
    requires Enabled(s, BeginStop(true))
  {
    DrainRun(Next(s, BeginStop(true)), acts, t) && t.ctl.FinalClearing?
  }

  /** The condition of StopDrains is exact, in every reachable state. */
  lemma StopDrainsExactly(s: Pool)
    requires Reachable(s) && Enabled(s, BeginStop(true))
    ensures CanDrain(s) <==> AlwaysDrains(s)
  {
    if CanDrain(s) {
      forall acts, t | DrainsTo(s, acts, t) ensures forall j :: j in t.queue ==> j >= s.pushed {
        StopDrains(s, acts, t);
      }
    } else {
      var acts, t, j := DropsJobs(s);
      assert DrainsTo(s, acts, t) && j in t.queue && j < s.pushed;
    }
  }

  /** Nobody is in the way of the joins: every listed thread has exited. */
  ghost predicate PoolExited(s: Pool) {
    forall i :: 0 <= i < |s.pool| ==> s.pool[i] < |s.workers| && s.workers[s.pool[i]].pc.Exited?
  }

  /** A worker with the mutex leaves, or runs the one job it pops. */
  lemma FreeMutex(s: Pool, w: nat) returns (acts: seq<Action>, t: Pool)
    requires s.isDone && w < |s.workers| && InCritical(s.workers[w].pc) && s.mutex == ByWorker(w)
    requires s.ctl == NotifyWait(Stop) && s.queue != []
    requires s.workers[w].pc.Checking? ==> |s.queue| >= 2 && s.workers[w].flag
    requires s.workers[w].pc.ReadDone? || s.workers[w].pc.GotJob? ==> s.workers[w].flag
    requires !s.workers[w].flag ==> w in s.pool
    requires forall i :: 0 <= i < |s.pool| ==> s.pool[i] < |s.workers| && !s.workers[s.pool[i]].flag
    requires forall i :: 0 <= i < |s.pool| ==> s.pool[i] == w || s.workers[s.pool[i]].pc.Exited?
    ensures DrainRun(s, acts, t) && t.mutex == Nobody && t.ctl == s.ctl && PoolExited(t) && t.pool == s.pool
    ensures t.queue != [] && t.queue[|t.queue| - 1] == s.queue[|s.queue| - 1]
  {
    var s1 := Next(s, Step(w));
    assert DrainRun(s1, [], s1);
    if s1.mutex == Nobody {
      acts, t := [], s1;
    } else {
      var s2 := Next(s1, Step(w));
      assert DrainRun(s2, [], s2);
      DrainCons(s1, Step(w), [], s2);
      acts, t := [Step(w)] + [], s2;
    }
    DrainCons(s, Step(w), acts, t);
    acts := [Step(w)] + acts;
  }

  /** The thread that has popped nothing reads isDone after stop has set it and exits; a pool
      without threads pops nothing anyway. */
  lemma DropsJobs(s: Pool) returns (acts: seq<Action>, t: Pool, j: Job)
    requires Reachable(s) && Enabled(s, BeginStop(true)) && !CanDrain(s)
    ensures DrainsTo(s, acts, t) && j in t.queue && j < s.pushed
  {
    ReachableFresh(s);
    var r := Next(s, BeginStop(true));
    j := s.queue[|s.queue| - 1];
    forall i | 0 <= i < |s.pool| ensures s.workers[s.pool[i]].pc.PopFailed? && s.mutex == ByWorker(s.pool[i]) {
      assert !s.workers[s.pool[i]].flag;
    }
    var free := r;
    acts := [];
    if s.mutex.ByWorker? {
      acts, free := FreeMutex(r, s.mutex.w);
    } else if s.mutex == ByPusher {
      NoOneSleeps(s);
      free := Next(r, PusherNotify(None));
      assert DrainRun(free, [], free);
      DrainCons(r, PusherNotify(None), [], free);
      acts := [PusherNotify(None)] + [];
    }
    var more;
    more, t := JoinsEnd(free);
    DrainConcat(r, acts, free, more, t);
    acts := acts + more;
  }

  lemma NoOneSleeps(s: Pool)
    requires Inv(s) && s.ctl.Idle? && !CanDrain(s)
    ensures forall w :: 0 <= w < |s.workers| ==> !s.workers[w].pc.Asleep?
  {
  }

  lemma {:induction false} DrainConcat(s: Pool, first: seq<Action>, m: Pool, second: seq<Action>, t: Pool)
    requires DrainRun(s, first, m) && DrainRun(m, second, t)
    ensures DrainRun(s, first + second, t)
    decreases |first|
  {
    if first == [] {
      assert first + second == second;
    } else {
      assert (first + second)[1..] == first[1..] + second;
      DrainConcat(Next(s, first[0]), first[1..], m, second, t);
    }
  }

  lemma JoinsEnd(s: Pool) returns (acts: seq<Action>, t: Pool)
    requires s.ctl == NotifyWait(Stop) && s.mutex == Nobody && PoolExited(s)
    ensures DrainRun(s, acts, t) && t.ctl.FinalClearing? && t.queue == s.queue
  {
    var s1 := Next(s, Control);
    var s2 := Next(s1, Control);
    acts, t := Joins(s2, 0);
    DrainCons(s1, Control, acts, t);
    DrainCons(s, Control, [Control] + acts, t);
    acts := [Control] + ([Control] + acts);
  }

  lemma {:induction false} Joins(s: Pool, i: nat) returns (acts: seq<Action>, t: Pool)
    requires s.ctl == Joining(i) && i <= |s.pool| && PoolExited(s)
    ensures DrainRun(s, acts, t) && t.ctl.FinalClearing? && t.queue == s.queue
    decreases |s.pool| - i
  {
    if i < |s.pool| {
      acts, t := Joins(Next(s, Control), i + 1);
    } else {
      acts, t := [], Next(s, Control);
    }
    DrainCons(s, Control, acts, t);
    acts := [Control] + acts;
  }

  /** One thread that has just popped nothing, and a job whose push has not yet notified. */
  const CAUGHT: Pool :=
    Pool([0], [Worker(PopFailed, false)], [0], ByWorker(0), 1, false, false, Idle, 1, [], map[])

  /** The condition can fail: one thread, and a push under way when stop(true) begins.  The
      job is then discarded although it was queued before. */
  lemma StopMayDropPendingPush()
    ensures Reachable(CAUGHT) && Enabled(CAUGHT, BeginStop(true)) && Unflagged(CAUGHT) && !CanDrain(CAUGHT)
  {
    var s1 := INIT.(workers := [Worker(Popping, false)], pool := [0]);
    var s2 := s1.(workers := [Worker(WantLock, false)]);
    var s3 := s1.(workers := [Worker(Checking, false)], mutex := ByWorker(0));
    var s4 := s1.(workers := [Worker(PopFailed, false)], mutex := ByWorker(0));
    assert Run(CAUGHT, [], CAUGHT);
    assert Next(s4, Push) == CAUGHT;
    RunCons(s4, Push, [], CAUGHT);
    assert Next(s3, Step(0)) == s4;
    RunCons(s3, Step(0), [Push], CAUGHT);
    assert Next(s2, Step(0)) == s3;
    RunCons(s2, Step(0), [Step(0)] + [Push], CAUGHT);
    CaughtStart(s1, s2, [Step(0)] + ([Step(0)] + [Push]));
  }

  lemma CaughtStart(s1: Pool, s2: Pool, acts: seq<Action>)
    requires s1 == INIT.(workers := [Worker(Popping, false)], pool := [0])
    requires s2 == s1.(workers := [Worker(WantLock, false)])
    requires Run(s2, acts, CAUGHT)
    ensures Reachable(CAUGHT)
  {
    assert Next(s1, Step(0)) == s2;
    RunCons(s1, Step(0), acts, CAUGHT);
    assert Next(INIT, Grow) == s1;
    RunCons(INIT, Grow, [Step(0)] + acts, CAUGHT);
  }

  lemma RunCons(s: Pool, a: Action, acts: seq<Action>, t: Pool)
    requires Enabled(s, a) && Run(Next(s, a), acts, t)
    ensures Run(s, [a] + acts, t)
  {
  }

  lemma DrainCons(s: Pool, a: Action, acts: seq<Action>, t: Pool)
    requires Enabled(s, a) && DrainAction(s, a) && DrainRun(Next(s, a), acts, t)
    ensures DrainRun(s, [a] + acts, t)
  {
  }

  // ----- shutdown ends

  /** A stop has called notify_all: the pool is going down or is down. */
  predicate Down(s: Pool) {
    (s.isDone || s.isStop) && !NotifyPending(s.ctl)
  }

  /** From then on no worker sleeps, notified or not. */
  lemma NobodySleepsWhenDown(s: Pool, w: nat)
    requires Reachable(s) && Down(s) && w < |s.workers|
    ensures !s.workers[w].pc.Asleep?
  {
    ReachableInv(s);
    AwakeWhenDown(s, w);
  }

  /** An upper bound for what a worker has still to do, apart from the jobs in the queue. */
  function Rank(w: Worker): nat {
    match w.pc
    case Exited => 0
    case Leaving => 1
    case ReadDone => 2
    case PopFailed => 3
    case Checking => 4
    case WantLock => 5
    case Woken => 5
    case Popping => 6
    case AfterJob => 7
    case Running(_) => 8
    case GotJob(_) => 9
    case Asleep => 6
  }

  function ControlRank(s: Pool): nat {
    match s.ctl
    case Joining(i) => if i <= |s.pool| then |s.pool| - i + 2 else 2
    case FinalClearing => 1
    case _ => 0
  }

  /** A bound for the number of steps left once the pool is down. */
  function Work(s: Pool): nat {
    6 * |s.queue| + Sum(s.workers, Rank) + 2 * s.pushers + (if s.mutex == ByPusher then 0 else 1) + ControlRank(s)
  }

  /** No new call of push, resize or stop. */
  predicate Settling(a: Action) {
    !a.Push? && !a.Grow? && !a.BeginShrink? && !a.BeginStop?
  }

  lemma WorkMove(s: Pool, t: Pool, w: nat)
    requires w < |s.workers| && |t.workers| == |s.workers|
    requires t.workers == s.workers[w := t.workers[w]]
    requires t.pushers == s.pushers && t.ctl == s.ctl && t.pool == s.pool
    requires s.mutex == ByPusher <==> t.mutex == ByPusher
    requires Rank(t.workers[w]) + 6 * |t.queue| < Rank(s.workers[w]) + 6 * |s.queue|
    ensures Work(t) < Work(s)
  {
    SumUpdate(s.workers, w, t.workers[w], Rank);
  }

  lemma WorkWorker(s: Pool, w: nat)
    requires Inv(s) && w < |s.workers| && WorkerEnabled(s, w)
    requires s.workers[w].pc.ReadDone? ==> s.workers[w].flag
    ensures Work(WorkerStep(s, w)) < Work(s)
  {
    assert InCritical(s.workers[w].pc) <==> s.mutex == ByWorker(w);
    WorkMove(s, WorkerStep(s, w), w);
  }

  lemma AwakeWhenDown(s: Pool, w: nat)
    requires Inv(s) && Down(s) && w < |s.workers|
    ensures !s.workers[w].pc.Asleep? && (s.workers[w].pc.ReadDone? ==> s.workers[w].flag)
  {
  }

  /** Every step of a pool that is down brings it closer to its end and keeps it down. */
  lemma DownProgress(s: Pool, a: Action)
    requires Inv(s) && Down(s) && Enabled(s, a) && Settling(a)
    ensures Down(Next(s, a)) && Work(Next(s, a)) < Work(s)
  {
    match a
    case Step(w) =>
      AwakeWhenDown(s, w);
      WorkWorker(s, w);
    case Spurious(w) => AwakeWhenDown(s, w);
    case PusherNotify(Some(w)) => AwakeWhenDown(s, w);
    case _ =>
  }

  /** A run of a pool that is down, without new calls of push, resize or stop. */
  ghost predicate SettlingRun(s: Pool, acts: seq<Action>, t: Pool)
    decreases |acts|
  {
    if acts == [] then s == t
    else Enabled(s, acts[0]) && Settling(acts[0]) && SettlingRun(Next(s, acts[0]), acts[1..], t)
  }

  lemma {:induction false} SettlingBound(s: Pool, acts: seq<Action>, t: Pool)
    requires Inv(s) && Down(s) && SettlingRun(s, acts, t)
    ensures Inv(t) && Down(t) && |acts| + Work(t) <= Work(s)
    decreases |acts|
  {
    if acts != [] {
      InvStep(s, acts[0]);
      DownProgress(s, acts[0]);
      SettlingBound(Next(s, acts[0]), acts[1..], t);
    }
  }

  /** A pool that is down stops only when every thread has exited, every push has returned and
      so has the call of stop. */
  lemma OnlyStopsAtTheEnd(s: Pool)
    requires Inv(s) && Down(s)
    requires forall a :: Enabled(s, a) ==> !Settling(a)
    ensures forall w :: 0 <= w < |s.workers| ==> s.workers[w].pc.Exited?
    ensures s.pushers == 0 && s.ctl.Idle?
  {
    forall w: nat | w < |s.workers| ensures !s.workers[w].pc.Asleep? {
      AwakeWhenDown(s, w);
    }
    assert s.mutex.ByWorker? ==> Enabled(s, Step(s.mutex.w));
    assert s.mutex == ByPusher ==> Enabled(s, PusherNotify(None));
    assert s.mutex == Nobody;
    assert !Enabled(s, PusherLock);
    forall w: nat | w < |s.workers| ensures s.workers[w].pc.Exited? {
      assert !Enabled(s, Step(w));
    }
    assert !Enabled(s, Control);
  }

  /** Shutdown cannot hang: once stop has called notify_all, every run without new calls has a
      bounded length, and where it can go no further every thread has exited and stop has
      returned. */
  lemma ShutdownEnds(s: Pool, acts: seq<Action>, t: Pool)
    requires Reachable(s) && Down(s) && SettlingRun(s, acts, t)
    ensures |acts| <= Work(s)
    ensures (forall a :: Enabled(t, a) ==> !Settling(a)) ==>
      t.pushers == 0 && t.ctl.Idle? && forall w :: 0 <= w < |t.workers| ==> t.workers[w].pc.Exited?
  {
    ReachableInv(s);
    SettlingBound(s, acts, t);
    if forall a :: Enabled(t, a) ==> !Settling(a) {
      OnlyStopsAtTheEnd(t);
    }
  }

  /** How many steps a flagged worker has left. */
  function FlaggedRank(pc: Pc): nat {
    match pc
    case Exited => 0
    case Leaving => 1
    case ReadDone => 2
    case PopFailed => 3
    case AfterJob => 4
    case Running(_) => 5
    case GotJob(_) => 6
    case Checking => 7
    case WantLock => 8
    case Woken => 8
    case Popping => 9
    case Asleep => 10
  }

  function StepsOf(acts: seq<Action>, w: nat): nat {
    if acts == [] then 0 else (if acts[0] == Step(w) then 1 else 0) + StepsOf(acts[1..], w)
  }

  /** The worker can go on, or whoever holds the mutex it wants can. */
  ghost predicate CanGoOn(s: Pool, w: nat)
    requires w < |s.workers|
  {
    || WorkerEnabled(s, w)
    || (s.mutex.ByWorker? && Enabled(s, Step(s.mutex.w)))
    || (s.mutex == ByPusher && exists wake :: Enabled(s, PusherNotify(wake)))
    || (s.mutex == ByController && Enabled(s, Control))
  }

  lemma FlaggedAct(s: Pool, a: Action, w: nat)
    requires Enabled(s, a) && w < |s.workers| && s.workers[w].flag && !s.workers[w].pc.Asleep?
    ensures var t := Next(s, a);
      && w < |t.workers| && t.workers[w].flag && !t.workers[w].pc.Asleep?
      && FlaggedRank(t.workers[w].pc) + StepsOf([a], w) <= FlaggedRank(s.workers[w].pc)
  {
    assert StepsOf([a], w) == if a == Step(w) then 1 else 0;
    match a
    case Step(v) => FlaggedStep(s, v, w);
    case _ =>
  }

  lemma {:induction false} FlaggedRun(s: Pool, acts: seq<Action>, t: Pool, w: nat)
    requires Run(s, acts, t) && w < |s.workers| && s.workers[w].flag && !s.workers[w].pc.Asleep?
    ensures w < |t.workers| && t.workers[w].flag && !t.workers[w].pc.Asleep?
    ensures FlaggedRank(t.workers[w].pc) + StepsOf(acts, w) <= FlaggedRank(s.workers[w].pc)
    decreases |acts|
  {
    if acts != [] {
      FlaggedAct(s, acts[0], w);
      assert StepsOf([acts[0]], w) == if acts[0] == Step(w) then 1 else 0;
      FlaggedRun(Next(s, acts[0]), acts[1..], t, w);
    }
  }

  lemma MutexMoves(s: Pool, w: nat)
    requires Inv(s) && w < |s.workers| && !s.workers[w].pc.Asleep? && !s.workers[w].pc.Exited?
    ensures CanGoOn(s, w)
  {
    if s.mutex.ByWorker? {
      assert InCritical(s.workers[s.mutex.w].pc);
    } else if s.mutex == ByPusher {
      if v: nat :| v < |s.workers| && s.workers[v].pc.Asleep? {
        assert Enabled(s, PusherNotify(Some(v)));
      } else {
        assert Enabled(s, PusherNotify(None));
      }
    }
  }

  /** A worker flagged by a shrinking resize that has called notify_all: in every run that follows,
      whatever the others do, it never sleeps, it takes at most nine more steps of its own, and
      until it has exited it can take the next one or the holder of the mutex can move. */
  lemma FlaggedWorkerLeaves(s: Pool, acts: seq<Action>, t: Pool, w: nat)
    requires Reachable(s) && !NotifyPending(s.ctl) && w < |s.workers| && s.workers[w].flag
    requires Run(s, acts, t)
    ensures w < |t.workers| && t.workers[w].flag && !t.workers[w].pc.Asleep?
    ensures StepsOf(acts, w) + FlaggedRank(t.workers[w].pc) <= 9
    ensures t.workers[w].pc.Exited? || CanGoOn(t, w)
  {
    ReachableInv(s);
    assert !s.workers[w].pc.Asleep?;
    FlaggedRun(s, acts, t, w);
    InvRun(s, acts, t);
    if !t.workers[w].pc.Exited? {
      MutexMoves(t, w);
    }
  }

  lemma FlaggedStep(s: Pool, v: nat, w: nat)
    requires v < |s.workers| && WorkerEnabled(s, v)
    requires w < |s.workers| && s.workers[w].flag && !s.workers[w].pc.Asleep?
    ensures var t := WorkerStep(s, v);
      && w < |t.workers| && t.workers[w].flag
      && (v == w ==> FlaggedRank(t.workers[w].pc) < FlaggedRank(s.workers[w].pc))
      && (v != w ==> t.workers[w].pc == s.workers[w].pc)
  {
    var t := WorkerStep(s, v);
    assert t.workers == s.workers[v := t.workers[v]];
    assert t.workers[v].flag == s.workers[v].flag;
  }
}
