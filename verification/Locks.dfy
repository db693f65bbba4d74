/** The locks of the gateway as threads take and release them.  Any number of threads run, each
    with its own sequence of lock operations; the scheduler picks who goes next. */
module Locks {
  import opened Wrappers

  /** The registry's shared mutex, the mutex of each client, the shared mutex of the service
      table and the mutex of each service. */
  datatype Lock = Registry | ClientLock(client: nat) | Table | ServiceLock(service: nat)

  /** Access is the use of what the lock guards. */
  datatype Action = Acquire(lock: Lock, exclusive: bool) | Access(lock: Lock, write: bool) | Release(lock: Lock)

  function Rank(l: Lock): (r: nat)
    ensures r <= 2
  {
    match l
    case Registry => 0
    case ClientLock(_) => 1
    case Table => 2
    case ServiceLock(_) => 2
  }

  /** Held locks; the value says whether the lock is held exclusively. */
  type Held = map<Lock, bool>

  predicate Below(held: Held, l: Lock) {
    forall h :: h in held ==> Rank(h) < Rank(l)
  }

  /** The locks held after a program that takes each lock while holding only locks of smaller
      rank, uses what a lock guards only while holding it, exclusively if it changes it, and
      releases only what it holds; None for any other program. */
  function After(held: Held, prog: seq<Action>): Option<Held>
    decreases |prog|
  {
    if prog == [] then Some(held)
    else match prog[0]
      case Acquire(l, x) => if Below(held, l) then After(held[l := x], prog[1..]) else None
      case Access(l, w) => if l in held && (w ==> held[l]) then After(held, prog[1..]) else None
      case Release(l) => if l in held then After(held - {l}, prog[1..]) else None
  }

  predicate Ordered(prog: seq<Action>) {
    After(map[], prog) == Some(map[])
  }

  datatype Thread = Thread(held: Held, rest: seq<Action>)

  type System = seq<Thread>

  /** Another thread holds the lock in a mode that shuts this one out. */
  predicate Conflicts(s: System, t: nat, u: nat, l: Lock, exclusive: bool)
    requires t < |s| && u < |s|
  {
    u != t && l in s[u].held && (exclusive || s[u].held[l])
  }

  predicate Enabled(s: System, t: nat) {
    && t < |s| && s[t].rest != []
    && match s[t].rest[0]
       case Acquire(l, x) => forall u :: 0 <= u < |s| ==> !Conflicts(s, t, u, l, x)
       case Access(_, _) => true
       case Release(l) => l in s[t].held
  }

  function Step(s: System, t: nat): (n: System)
    requires Enabled(s, t)
    ensures |n| == |s|
  {
    var th := s[t];
    match th.rest[0]
    case Acquire(l, x) => s[t := Thread(th.held[l := x], th.rest[1..])]
    case Access(_, _) => s[t := Thread(th.held, th.rest[1..])]
    case Release(l) => s[t := Thread(th.held - {l}, th.rest[1..])]
  }

  ghost predicate Run(s: System, ts: seq<nat>, e: System)
    decreases |ts|
  {
    if ts == [] then s == e else Enabled(s, ts[0]) && Run(Step(s, ts[0]), ts[1..], e)
  }

  predicate Started(s: System) {
    forall t :: 0 <= t < |s| ==> s[t].held == map[] && Ordered(s[t].rest)
  }

  /** Two threads share a lock only if both hold it shared. */
  ghost predicate Exclusion(s: System) {
    forall t: nat, u: nat, l :: t < |s| && u < |s| && l in s[t].held ==> !Conflicts(s, t, u, l, s[t].held[l])
  }

  ghost predicate Disciplined(s: System) {
    forall t :: 0 <= t < |s| ==> After(s[t].held, s[t].rest) == Some(map[])
  }

  lemma StepKeeps(s: System, t: nat)
    requires Exclusion(s) && Disciplined(s) && Enabled(s, t)
    ensures Exclusion(Step(s, t)) && Disciplined(Step(s, t))
  {
    var n := Step(s, t);
    forall v: nat, u: nat, l | v < |n| && u < |n| && l in n[v].held
      ensures !Conflicts(n, v, u, l, n[v].held[l])
    {
      if l in s[v].held && l in s[u].held && (v == t ==> n[v].held[l] == s[v].held[l]) {
        assert !Conflicts(s, v, u, l, s[v].held[l]);
        assert !Conflicts(s, u, v, l, s[u].held[l]);
      }
      if s[t].rest[0].Acquire? && s[t].rest[0].lock == l {
        assert !Conflicts(s, t, u, l, s[t].rest[0].exclusive);
        assert !Conflicts(s, t, v, l, s[t].rest[0].exclusive);
      }
    }
  }

  lemma {:induction false} RunKeeps(s: System, ts: seq<nat>, e: System)
    requires Exclusion(s) && Disciplined(s) && Run(s, ts, e)
    ensures Exclusion(e) && Disciplined(e)
    decreases |ts|
  {
    if ts != [] {
      StepKeeps(s, ts[0]);
      RunKeeps(Step(s, ts[0]), ts[1..], e);
    }
  }

  ghost predicate Reachable(s: System) {
    exists start, ts :: Started(start) && Run(start, ts, s)
  }

  lemma ReachableInv(s: System)
    requires Reachable(s)
    ensures Exclusion(s) && Disciplined(s)
  {
    var start, ts :| Started(start) && Run(start, ts, s);
    RunKeeps(start, ts, s);
  }

  /** Waiting under the strictest policy: besides the holders that shut it out, a reader waits
      for every thread that waits to write. */
  predicate Wants(s: System, t: nat, l: Lock, exclusive: bool) {
    t < |s| && s[t].rest != [] && s[t].rest[0] == Acquire(l, exclusive)
  }

  predicate WaitsFor(s: System, t: nat, u: nat) {
    && t < |s| && u < |s| && t != u
    && s[t].rest != [] && s[t].rest[0].Acquire?
    && var l, x := s[t].rest[0].lock, s[t].rest[0].exclusive;
       Conflicts(s, t, u, l, x) || (!x && Wants(s, u, l, true))
  }

  function Height(s: System, t: nat): nat
    requires t < |s|
  {
    if s[t].rest != [] && s[t].rest[0].Acquire?
    then 2 * Rank(s[t].rest[0].lock) + (if s[t].rest[0].exclusive then 1 else 0)
    else 6
  }

  lemma WaitingRises(s: System, t: nat, u: nat)
    requires Disciplined(s) && WaitsFor(s, t, u)
    ensures Height(s, t) < Height(s, u)
  {
  }

  /** No reachable state has a cycle of threads each waiting for the next. */
  lemma NoCycle(s: System, ts: seq<nat>)
    requires Reachable(s) && ts != []
    requires forall i :: 0 <= i < |ts| - 1 ==> WaitsFor(s, ts[i], ts[i + 1])
    ensures !WaitsFor(s, ts[|ts| - 1], ts[0])
  {
    ReachableInv(s);
    if WaitsFor(s, ts[|ts| - 1], ts[0]) {
      Climb(s, ts);
      WaitingRises(s, ts[|ts| - 1], ts[0]);
    }
  }

  lemma {:induction false} Climb(s: System, ts: seq<nat>)
    requires Disciplined(s) && ts != [] && ts[0] < |s| && ts[|ts| - 1] < |s|
    requires forall i :: 0 <= i < |ts| - 1 ==> WaitsFor(s, ts[i], ts[i + 1])
    ensures Height(s, ts[0]) <= Height(s, ts[|ts| - 1])
  {
    if |ts| > 1 {
      assert WaitsFor(s, ts[0], ts[1]);
      WaitingRises(s, ts[0], ts[1]);
      forall i | 0 <= i < |ts[1..]| - 1 ensures WaitsFor(s, ts[1..][i], ts[1..][i + 1]) {
        assert WaitsFor(s, ts[i + 1], ts[i + 1 + 1]);
      }
      Climb(s, ts[1..]);
    }
  }

  predicate Finished(s: System) {
    forall t :: 0 <= t < |s| ==> s[t].rest == []
  }

  ghost predicate Waits(s: System, t: nat) {
    exists u :: WaitsFor(s, t, u)
  }

  lemma {:induction false} SomeoneGoes(s: System, t: nat) returns (go: nat)
    requires Disciplined(s) && t < |s| && s[t].rest != []
    ensures Enabled(s, go) && !Waits(s, go)
    decreases 6 - Height(s, t)
  {
    assert After(s[t].held, s[t].rest) == Some(map[]);
    if u: nat :| WaitsFor(s, t, u) {
      WaitingRises(s, t, u);
      assert After(s[u].held, s[u].rest) == Some(map[]);
      go := SomeoneGoes(s, u);
    } else {
      go := t;
      if s[t].rest[0].Acquire? {
        forall u: nat | u < |s| ensures !Conflicts(s, t, u, s[t].rest[0].lock, s[t].rest[0].exclusive) {
          assert !WaitsFor(s, t, u);
        }
      }
    }
  }

  /** In every reachable state in which a thread is not finished, some thread can take its next
      step, even if waiting writers go first. */
  lemma NoDeadlock(s: System)
    requires Reachable(s) && !Finished(s)
    ensures exists t :: Enabled(s, t) && !Waits(s, t)
  {
    ReachableInv(s);
    var t :| 0 <= t < |s| && s[t].rest != [];
    var go := SomeoneGoes(s, t);
  }

  /** Nobody changes what another thread uses at the same time: a thread about to change something
      is the only one that holds its lock, and a thread about to use it holds it. */
  lemma NoRace(s: System, t: nat, u: nat)
    requires Reachable(s) && t < |s| && u < |s| && t != u
    requires s[t].rest != [] && s[t].rest[0].Access? && s[t].rest[0].write
    ensures s[t].rest[0].lock in s[t].held && s[t].rest[0].lock !in s[u].held
    ensures s[u].rest != [] && s[u].rest[0].Access? ==> s[u].rest[0].lock != s[t].rest[0].lock
  {
    ReachableInv(s);
    var l := s[t].rest[0].lock;
    assert After(s[t].held, s[t].rest).Some? && After(s[u].held, s[u].rest).Some?;
    assert !Conflicts(s, t, u, l, s[t].held[l]);
  }

  function Remaining(s: System): nat {
    if s == [] then 0 else |s[0].rest| + Remaining(s[1..])
  }

  lemma {:induction false} StepRemaining(s: System, t: nat, th: Thread)
    requires t < |s| && |s[t].rest| == |th.rest| + 1
    ensures Remaining(s[t := th]) + 1 == Remaining(s)
  {
    if t == 0 {
      assert s[t := th][1..] == s[1..];
    } else {
      assert s[t := th][1..] == s[1..][t - 1 := th];
      StepRemaining(s[1..], t - 1, th);
    }
  }

  /** All threads can finish. */
  lemma {:induction false} AllFinish(s: System) returns (ts: seq<nat>, e: System)
    requires Exclusion(s) && Disciplined(s)
    ensures Run(s, ts, e) && Finished(e) && |ts| == Remaining(s)
    decreases Remaining(s)
  {
    if Finished(s) {
      FinishedRemaining(s);
      ts, e := [], s;
    } else {
      var t :| 0 <= t < |s| && s[t].rest != [];
      var go := SomeoneGoes(s, t);
      StepKeeps(s, go);
      StepRemaining(s, go, Step(s, go)[go]);
      assert Step(s, go) == s[go := Step(s, go)[go]];
      var more;
      more, e := AllFinish(Step(s, go));
      ts := [go] + more;
      assert ts[1..] == more;
    }
  }

  lemma {:induction false} FinishedRemaining(s: System)
    requires Finished(s)
    ensures Remaining(s) == 0
  {
    if s != [] {
      assert forall t :: 0 <= t < |s[1..]| ==> s[1..][t] == s[t + 1];
      FinishedRemaining(s[1..]);
    }
  }

  lemma {:induction false} RunsEnd(s: System, ts: seq<nat>, e: System)
    requires Run(s, ts, e)
    ensures |ts| + Remaining(e) == Remaining(s)
    decreases |ts|
  {
    if ts != [] {
      var n := Step(s, ts[0]);
      StepRemaining(s, ts[0], n[ts[0]]);
      assert n == s[ts[0] := n[ts[0]]];
      RunsEnd(n, ts[1..], e);
    }
  }

  /** Programs compose. */
  lemma {:induction false} AfterConcat(held: Held, p: seq<Action>, q: seq<Action>)
    requires After(held, p).Some?
    ensures After(held, p + q) == After(After(held, p).value, q)
    decreases |p|
  {
    if p == [] {
      assert p + q == q;
    } else {
      assert (p + q)[1..] == p[1..] + q;
      match p[0]
      case Acquire(l, x) => AfterConcat(held[l := x], p[1..], q);
      case Access(_, _) => AfterConcat(held, p[1..], q);
      case Release(l) => AfterConcat(held - {l}, p[1..], q);
    }
  }
}

/** The lock operations on every path through ConHandler.cpp, client.cpp, ServiceTable.cpp,
    Service.cpp and the receive loop of Server.cpp.  Branches and the numbers of iterations are
    parameters. */
module LockPaths {
  import opened Wrappers
  import opened Locks

  /** Takes a lock, uses what it guards, changing it if the lock is taken exclusively, and gives
      it back. */
  function Briefly(l: Lock, exclusive: bool): seq<Action> {
    [Acquire(l, exclusive), Access(l, exclusive), Release(l)]
  }

  function Times(n: nat, body: seq<Action>): seq<Action> {
    if n == 0 then [] else body + Times(n - 1, body)
  }

  /** One lock of each service in turn: the setters, getters and the Output machine. */
  function Touch(services: seq<nat>): seq<Action> {
    if services == [] then [] else Briefly(ServiceLock(services[0]), true) + Touch(services[1..])
  }

  /** reserve, unreserve, push and remove. */
  function TableCalls(n: nat): seq<Action> {
    Times(n, Briefly(Table, true))
  }

  function Guarded(c: nat, body: seq<Action>): seq<Action> {
    [Acquire(ClientLock(c), true), Access(ClientLock(c), true)] + body + [Release(ClientLock(c))]
  }

  function UnregisterServices(c: nat, services: nat): seq<Action> {
    Guarded(c, TableCalls(services))
  }

  function Initalize(c: nat, calls: nat): seq<Action> {
    Guarded(c, TableCalls(calls))
  }

  /** What ConHandler::unregisterClient does when it finds the client in the registry. */
  datatype Found = Found(client: nat, services: nat)

  function Erase(f: Found): seq<Action> {
    Briefly(Registry, true) + UnregisterServices(f.client, f.services)
  }

  function UnregisterClient(f: Option<Found>): seq<Action> {
    Briefly(Registry, false) + (if f.Some? then Erase(f.value) else [])
  }

  /** The ways through Client::tryDataExchange. */
  datatype Exchange =
    | Ended                                       // it failed earlier or was done
    | NoValues                                    // getValues failed and the packet is no EXIT
    | Exit(found: Option<Found>)                  // the device asked to be unregistered

  function ClientExchange(c: nat, services: seq<nat>, e: Exchange): seq<Action> {
    Guarded(c, Touch(services)) +
    match e
    case Ended => []
    case NoValues => Briefly(ClientLock(c), true)
    case Exit(found) => Briefly(ClientLock(c), true) + UnregisterClient(found)
  }

  /** ConHandler::tryDataExchange; `leaving` if it succeeded while the server was exiting. */
  function HandlerExchange(c: nat, services: seq<nat>, e: Exchange, leaving: Option<Option<Found>>): seq<Action> {
    ClientExchange(c, services, e) +
    if leaving.Some? then UnregisterClient(leaving.value) + Briefly(Registry, false) else []
  }

  /** ConHandler::registration of a client that is found, with the number of calls of the table. */
  datatype Admission = Rejected | Failed(client: nat, calls: nat) | Admitted(client: nat, calls: nat)

  function Registration(a: Admission): seq<Action> {
    match a
    case Rejected => []
    case Failed(c, calls) => Initalize(c, calls)
    case Admitted(c, calls) => Initalize(c, calls) + Briefly(Registry, true)
  }

  /** One entry of the registry as clockWalk finds it. */
  datatype Entry = Used(client: nat) | Idle(found: Found)

  function Visit(e: Entry): seq<Action> {
    match e
    case Used(c) => [Access(Registry, false)] + (Briefly(ClientLock(c), true) + Briefly(ClientLock(c), true))
    case Idle(f) =>
      [Access(Registry, false)] +
      (Briefly(ClientLock(f.client), true) + [Release(Registry)] + Erase(f) + [Acquire(Registry, false)])
  }

  function Visits(es: seq<Entry>): seq<Action> {
    if es == [] then [] else Visit(es[0]) + Visits(es[1..])
  }

  datatype Path =
    | HandleKnown(client: nat, services: seq<nat>, exchange: Exchange, leaving: Option<Option<Found>>, again: Admission)
    | HandleUnknown(admission: Admission)
    | ClockWalk(entries: seq<Entry>)
    | ClientsRegistered
    | QueueRequest(services: seq<nat>)

  function Program(p: Path): seq<Action> {
    match p
    case HandleKnown(c, services, e, leaving, again) =>
      Briefly(Registry, false) + HandlerExchange(c, services, e, leaving) + Registration(again)
    case HandleUnknown(a) => Briefly(Registry, false) + Registration(a)
    case ClockWalk(es) => [Acquire(Registry, false)] + Visits(es) + [Release(Registry)]
    case ClientsRegistered => Briefly(Registry, false)
    case QueueRequest(services) => Touch(services)
  }

  /** What a thread does in its life: one path after another. */
  function Life(ps: seq<Path>): seq<Action> {
    if ps == [] then [] else Program(ps[0]) + Life(ps[1..])
  }

  /** The program can be run while holding these locks and gives back what it takes. */
  predicate Keeps(held: Held, p: seq<Action>) {
    After(held, p) == Some(held)
  }

  lemma KeepsThen(held: Held, p: seq<Action>, q: seq<Action>)
    requires Keeps(held, p)
    ensures After(held, p + q) == After(held, q)
  {
    AfterConcat(held, p, q);
  }

  lemma BrieflyKeeps(held: Held, l: Lock, x: bool)
    requires Below(held, l)
    ensures Keeps(held, Briefly(l, x))
  {
    assert l !in held;
    assert Briefly(l, x)[1..] == [Access(l, x), Release(l)];
    assert [Access(l, x), Release(l)][1..] == [Release(l)] && [Release(l)][1..] == [];
    assert held[l := x] - {l} == held;
    assert After(held[l := x], [Release(l)]) == Some(held);
    assert After(held[l := x], [Access(l, x), Release(l)]) == Some(held);
  }

  lemma {:induction false} TouchKeeps(held: Held, services: seq<nat>)
    requires forall h :: h in held ==> Rank(h) < 2
    ensures Keeps(held, Touch(services))
  {
    if services != [] {
      BrieflyKeeps(held, ServiceLock(services[0]), true);
      TouchKeeps(held, services[1..]);
      KeepsThen(held, Briefly(ServiceLock(services[0]), true), Touch(services[1..]));
    }
  }

  lemma {:induction false} TableCallsKeep(held: Held, n: nat)
    requires forall h :: h in held ==> Rank(h) < 2
    ensures Keeps(held, TableCalls(n))
  {
    if n > 0 {
      BrieflyKeeps(held, Table, true);
      TableCallsKeep(held, n - 1);
      KeepsThen(held, Briefly(Table, true), TableCalls(n - 1));
    }
  }

  lemma GuardedKeeps(held: Held, c: nat, body: seq<Action>)
    requires Below(held, ClientLock(c)) && Keeps(held[ClientLock(c) := true], body)
    ensures Keeps(held, Guarded(c, body))
  {
    var l := ClientLock(c);
    var inside, last := held[l := true], [Release(l)];
    KeepsThen(inside, body, last);
    assert l !in held && inside - {l} == held && last[1..] == [];
    TakeAndUse(held, l, body + last);
    assert Guarded(c, body) == [Acquire(l, true), Access(l, true)] + (body + last);
  }

  lemma TakeAndUse(held: Held, l: Lock, rest: seq<Action>)
    requires Below(held, l)
    ensures After(held, [Acquire(l, true), Access(l, true)] + rest) == After(held[l := true], rest)
  {
    var use := [Access(l, true)] + rest;
    assert ([Acquire(l, true), Access(l, true)] + rest)[1..] == use && use[1..] == rest;
  }

  lemma GuardedCalls(c: nat, n: nat)
    ensures Keeps(map[], Guarded(c, TableCalls(n)))
  {
    TableCallsKeep(map[ClientLock(c) := true], n);
    GuardedKeeps(map[], c, TableCalls(n));
  }

  lemma EraseKeeps(f: Found)
    ensures Keeps(map[], Erase(f))
  {
    BrieflyKeeps(map[], Registry, true);
    GuardedCalls(f.client, f.services);
    KeepsThen(map[], Briefly(Registry, true), UnregisterServices(f.client, f.services));
  }

  lemma UnregisterClientKeeps(f: Option<Found>)
    ensures Keeps(map[], UnregisterClient(f))
  {
    BrieflyKeeps(map[], Registry, false);
    if f.Some? {
      EraseKeeps(f.value);
      KeepsThen(map[], Briefly(Registry, false), Erase(f.value));
    } else {
      assert UnregisterClient(f) == Briefly(Registry, false);
    }
  }

  lemma ClientExchangeKeeps(c: nat, services: seq<nat>, e: Exchange)
    ensures Keeps(map[], ClientExchange(c, services, e))
  {
    var guarded, again := Guarded(c, Touch(services)), Briefly(ClientLock(c), true);
    TouchKeeps(map[ClientLock(c) := true], services);
    GuardedKeeps(map[], c, Touch(services));
    BrieflyKeeps(map[], ClientLock(c), true);
    match e
    case Ended => KeepsThen(map[], guarded, []);
    case NoValues => KeepsThen(map[], guarded, again);
    case Exit(found) =>
      UnregisterClientKeeps(found);
      KeepsThen(map[], again, UnregisterClient(found));
      KeepsThen(map[], guarded, again + UnregisterClient(found));
  }

  lemma HandlerExchangeKeeps(c: nat, services: seq<nat>, e: Exchange, leaving: Option<Option<Found>>)
    ensures Keeps(map[], HandlerExchange(c, services, e, leaving))
  {
    ClientExchangeKeeps(c, services, e);
    if leaving.Some? {
      UnregisterClientKeeps(leaving.value);
      BrieflyKeeps(map[], Registry, false);
      KeepsThen(map[], UnregisterClient(leaving.value), Briefly(Registry, false));
      KeepsThen(map[], ClientExchange(c, services, e), UnregisterClient(leaving.value) + Briefly(Registry, false));
    } else {
      KeepsThen(map[], ClientExchange(c, services, e), []);
    }
  }

  lemma RegistrationKeeps(a: Admission)
    ensures Keeps(map[], Registration(a))
  {
    match a
    case Rejected =>
    case Failed(c, calls) => GuardedCalls(c, calls);
    case Admitted(c, calls) =>
      GuardedCalls(c, calls);
      BrieflyKeeps(map[], Registry, true);
      KeepsThen(map[], Initalize(c, calls), Briefly(Registry, true));
  }

  const WALKING: Held := map[Registry := false]

  lemma VisitKeeps(e: Entry)
    ensures Keeps(WALKING, Visit(e))
  {
    var look := [Access(Registry, false)];
    assert look[1..] == [] && Keeps(WALKING, look);
    match e
    case Used(c) =>
      BrieflyKeeps(WALKING, ClientLock(c), true);
      KeepsThen(WALKING, Briefly(ClientLock(c), true), Briefly(ClientLock(c), true));
      KeepsThen(WALKING, look, Briefly(ClientLock(c), true) + Briefly(ClientLock(c), true));
    case Idle(f) =>
      IdleKeeps(f);
      KeepsThen(WALKING, look,
        Briefly(ClientLock(f.client), true) + [Release(Registry)] + Erase(f) + [Acquire(Registry, false)]);
  }

  lemma IdleKeeps(f: Found)
    ensures Keeps(WALKING, Briefly(ClientLock(f.client), true) + [Release(Registry)] + Erase(f) + [Acquire(Registry, false)])
  {
    var back := [Acquire(Registry, false)];
    BrieflyKeeps(WALKING, ClientLock(f.client), true);
    EraseKeeps(f);
    KeepsThen(map[], Erase(f), back);
    assert After(map[], back) == Some(WALKING) by {
      assert back[1..] == [];
    }
    var out := [Release(Registry)] + (Erase(f) + back);
    assert out[1..] == Erase(f) + back && WALKING - {Registry} == map[];
    KeepsThen(WALKING, Briefly(ClientLock(f.client), true), out);
    assert Briefly(ClientLock(f.client), true) + [Release(Registry)] + Erase(f) + back ==
           Briefly(ClientLock(f.client), true) + out;
  }

  lemma {:induction false} VisitsKeep(es: seq<Entry>)
    ensures Keeps(WALKING, Visits(es))
  {
    if es != [] {
      VisitKeeps(es[0]);
      VisitsKeep(es[1..]);
      KeepsThen(WALKING, Visit(es[0]), Visits(es[1..]));
    }
  }

  /** Every path takes its locks in rising rank, never one that it holds already, and ends
      holding none. */
  lemma PathOrdered(p: Path)
    ensures Ordered(Program(p))
  {
    match p
    case HandleKnown(c, services, e, leaving, again) =>
      BrieflyKeeps(map[], Registry, false);
      HandlerExchangeKeeps(c, services, e, leaving);
      RegistrationKeeps(again);
      var lookup, exchange := Briefly(Registry, false), HandlerExchange(c, services, e, leaving);
      KeepsThen(map[], lookup, exchange);
      KeepsThen(map[], lookup + exchange, Registration(again));
    case HandleUnknown(a) =>
      BrieflyKeeps(map[], Registry, false);
      RegistrationKeeps(a);
      KeepsThen(map[], Briefly(Registry, false), Registration(a));
    case ClockWalk(es) =>
      VisitsKeep(es);
      KeepsThen(WALKING, Visits(es), [Release(Registry)]);
      var walk := Visits(es) + [Release(Registry)];
      assert Program(p) == [Acquire(Registry, false)] + walk;
      assert Program(p)[1..] == walk && [Release(Registry)][1..] == [];
      assert WALKING - {Registry} == map[];
    case ClientsRegistered => BrieflyKeeps(map[], Registry, false);
    case QueueRequest(services) => TouchKeeps(map[], services);
  }

  predicate Changes(prog: seq<Action>, l: Lock) {
    Access(l, true) in prog
  }

  lemma ChangesIn(first: seq<Action>, prog: seq<Action>, last: seq<Action>, l: Lock)
    requires Changes(prog, l)
    ensures Changes(first + prog + last, l) && Changes(first + prog, l) && Changes(prog + last, l)
  {
  }

  /** Admitting a client and removing one change the registry, so by the discipline above under its
      lock held exclusively; unregistering services changes the maps of the client and, for each
      service, the table. */
  lemma ChangesRegistry(c: nat, calls: nat, f: Found)
    ensures Changes(Registration(Admitted(c, calls)), Registry)
    ensures Changes(UnregisterClient(Some(f)), Registry) && Changes(Visit(Idle(f)), Registry)
    ensures Changes(UnregisterServices(c, calls), ClientLock(c))
    ensures calls > 0 ==> Changes(UnregisterServices(c, calls), Table)
    ensures calls > 0 ==> Changes(Initalize(c, calls), Table)
  {
    assert Briefly(Registry, true)[1] == Access(Registry, true);
    ChangesIn([], Briefly(Registry, true), UnregisterServices(f.client, f.services), Registry);
    assert [] + Briefly(Registry, true) + UnregisterServices(f.client, f.services) == Erase(f);
    assert UnregisterServices(c, calls)[1] == Access(ClientLock(c), true);
    if calls > 0 {
      assert TableCalls(calls)[1] == Briefly(Table, true)[1];
      assert Changes(TableCalls(calls), Table);
    }
  }

  lemma {:induction false} LifeOrdered(ps: seq<Path>)
    ensures Ordered(Life(ps))
  {
    if ps != [] {
      PathOrdered(ps[0]);
      LifeOrdered(ps[1..]);
      KeepsThen(map[], Program(ps[0]), Life(ps[1..]));
    }
  }

  /** One is about to change what the other is about to use. */
  predicate Racing(s: System, t: nat, u: nat)
    requires t < |s| && u < |s|
  {
    && s[t].rest != [] && s[t].rest[0].Access? && s[t].rest[0].write
    && s[u].rest != [] && s[u].rest[0].Access? && s[u].rest[0].lock == s[t].rest[0].lock
  }

  function Gateway(lives: seq<seq<Path>>): System {
    seq(|lives|, t requires 0 <= t < |lives| => Thread(map[], Life(lives[t])))
  }

  /** However many threads of the gateway run whichever paths in whatever interleaving: locks
      exclude, no threads wait in a circle, someone can always go on, and all can finish. */
  lemma GatewayDeadlockFree(lives: seq<seq<Path>>, ts: seq<nat>, s: System)
    requires Run(Gateway(lives), ts, s)
    ensures Exclusion(s)
    ensures Finished(s) || exists t :: Enabled(s, t) && !Waits(s, t)
    ensures forall circle: seq<nat> ::
      circle != [] && (forall i :: 0 <= i < |circle| - 1 ==> WaitsFor(s, circle[i], circle[i + 1]))
      ==> !WaitsFor(s, circle[|circle| - 1], circle[0])
    ensures forall t: nat, u: nat :: t < |s| && u < |s| && t != u ==> !Racing(s, t, u)
    ensures |ts| <= Remaining(Gateway(lives))
    ensures exists more, e :: Run(s, more, e) && Finished(e)
  {
    forall t | 0 <= t < |lives| ensures Ordered(Gateway(lives)[t].rest) {
      LifeOrdered(lives[t]);
    }
    assert Started(Gateway(lives));
    assert Reachable(s);
    ReachableInv(s);
    if !Finished(s) {
      NoDeadlock(s);
    }
    forall circle: seq<nat> |
      circle != [] && (forall i :: 0 <= i < |circle| - 1 ==> WaitsFor(s, circle[i], circle[i + 1]))
      ensures !WaitsFor(s, circle[|circle| - 1], circle[0])
    {
      NoCycle(s, circle);
    }
    forall t: nat, u: nat | t < |s| && u < |s| && t != u ensures !Racing(s, t, u) {
      if s[t].rest != [] && s[t].rest[0].Access? && s[t].rest[0].write {
        NoRace(s, t, u);
      }
    }
    RunsEnd(Gateway(lives), ts, s);
    var more, e := AllFinish(s);
  }
}
