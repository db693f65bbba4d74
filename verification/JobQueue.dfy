/** The queue of functions inside the pool: detail::Queue and clear_queue of CTPL/ctpl_stl.h, and
    the steps of the pool as calls of it. */
module JobQueue {
  import opened Wrappers

  /** Everything that was ever pushed and everything that was ever popped, each in order. */
  datatype History<T> = History(pushed: seq<T>, popped: seq<T>) {
    /** First in, first out. */
    ghost predicate Fifo() {
      popped <= pushed
    }

    function Waiting(): seq<T>
      requires Fifo()
    {
      pushed[|popped|..]
    }
  }

  function PushedTo<T>(h: History<T>, value: T): History<T> {
    h.(pushed := h.pushed + [value])
  }

  /** The oldest waiting value leaves. */
  function PoppedFrom<T>(h: History<T>): History<T>
    requires |h.popped| < |h.pushed|
  {
    h.(popped := h.popped + [h.pushed[|h.popped|]])
  }

  class Queue<T> {
    var q: seq<T>
    ghost var history: History<T>

    ghost predicate Valid()
      reads this
    {
      history.Fifo() && q == history.Waiting()
    }

    constructor ()
      ensures Valid() && history == History([], [])
    {
      q := [];
      history := History([], []);
    }

    method Push(value: T) returns (ok: bool)
      requires Valid()
      modifies this
      ensures Valid() && history == PushedTo(old(history), value) && ok
    {
      q := q + [value];
      history := PushedTo(history, value);
      return true;
    }

    method Pop() returns (v: Option<T>)
      requires Valid()
      modifies this
      ensures Valid() && (v.None? <==> old(history.Waiting()) == [])
      ensures v.None? ==> history == old(history)
      ensures v.Some? ==> history == PoppedFrom(old(history)) && v.value == old(history.Waiting())[0]
    {
      if q == [] {
        return None;
      }
      v := Some(q[0]);
      q := q[1..];
      history := PoppedFrom(history);
    }

    method Empty() returns (empty: bool)
      requires Valid()
      ensures empty <==> history.popped == history.pushed
    {
      empty := q == [];
    }
  }

  /** Everything that waits is discarded, in order. */
  method ClearQueue<T>(queue: Queue<T>) returns (deleted: seq<T>)
    requires queue.Valid()
    modifies queue
    ensures queue.Valid() && deleted == old(queue.history.Waiting())
    ensures queue.history == old(queue.history).(popped := old(queue.history).pushed)
  {
    deleted := [];
    ghost var before := queue.history;
    var v := queue.Pop();
    while v.Some?
      invariant queue.Valid() && queue.history.pushed == before.pushed
      invariant queue.history.popped == before.popped + deleted + if v.Some? then [v.value] else []
      invariant v.None? ==> queue.history.Waiting() == []
      decreases |queue.history.Waiting()|, v.Some?
    {
      deleted := deleted + [v.value];
      v := queue.Pop();
    }
  }
}

module PoolQueue {
  import opened Wrappers
  import opened JobQueue
  import opened ThreadPool
  import opened ThreadPoolInvariants

  /** What the pool has done with its queue: jobs are numbered in the order of their pushes. */
  function HistoryOf(s: Pool): History<Job> {
    History(seq(s.pushed, i => i), s.left)
  }

  lemma PoolHistory(s: Pool)
    requires JobInv(s)
    ensures HistoryOf(s).Fifo() && s.queue == HistoryOf(s).Waiting()
  {
  }

  lemma StepOfQueue(s: Pool, a: Action)
    requires Enabled(s, a)
    ensures var t := Next(s, a);
      && t.pushed == s.pushed + (if a.Push? then 1 else 0)
      && (t.left == s.left || (!a.Push? && s.queue != [] && t.left == s.left + [s.queue[0]]))
  {
    match a
    case Step(w) =>
    case _ =>
  }

  /** Every step of the pool leaves its queue alone or is one call of push or one successful pop:
      the pool uses its queue as the class allows, and never otherwise. */
  lemma PoolUsesQueue(s: Pool, a: Action)
    requires Reachable(s) && Enabled(s, a)
    ensures HistoryOf(s).Fifo() && s.queue == HistoryOf(s).Waiting()
    ensures var h, n := HistoryOf(s), HistoryOf(Next(s, a));
      if a.Push? then n == PushedTo(h, s.pushed)
      else n == h || (h.Waiting() != [] && n == PoppedFrom(h))
  {
    ReachableInv(s);
    PoolHistory(s);
    StepOfQueue(s, a);
  }
}
