/** Who gets into the registry: the threads of ConHandler::handle and ConHandler::registration
    as a transition system, with everything that removes addresses again.

    The steps between GotId and Registered happen inside Client::initalize, under the mutex of the
    client; the model allows more interleavings than the mutex does. */
module Handshake {
  import opened Wrappers

  type ThreadId = nat
  type Address = nat
  type Text = seq<Byte>

  datatype Phase =
    | Arrived
    | Exchanging                                   // the address was found
    | Registering                                  // not found, or removed again for a device that sent ID
    | Begun                                        // the exit flag was not set
    | Identified(c: Byte)
    | Challenged(c: Byte, chall: Text)
    | Verified(c: Byte, chall: Text, resp: Text)
    | Answered(c: Byte, chall: Text, resp: Text)   // the reverse challenge
    | Keyed(c: Byte, chall: Text, resp: Text)
    | Committed(c: Byte, chall: Text, resp: Text)  // services registered, not in the registry yet
    | Done

  datatype Connection = Connection(addr: Address, phase: Phase)

  datatype Event =
    | Began(t: ThreadId, addr: Address)
    | GotId(t: ThreadId, c: Byte)
    | SentChall(t: ThreadId, chall: Text)
    | GotResponse(t: ThreadId, resp: Text)
    | SentAnswer(t: ThreadId)
    | SentKey(t: ThreadId)
    | Registered(t: ThreadId)
    | Inserted(t: ThreadId, addr: Address, c: Byte)
    | Removed(addr: Address)
    | Exiting

  /** `check` is the verification of a signature with the public key of a client. */
  datatype Gate = Gate(
    check: (Byte, Text, Text) -> bool,
    exiting: bool,
    registry: map<Address, Byte>,
    threads: map<ThreadId, Connection>,
    log: seq<Event>)

  datatype Step =
    | Arrive(t: ThreadId, addr: Address)
    | Lookup(t: ThreadId)
    | Reidentify(t: ThreadId)               // the exchange failed on an ID packet: the address is erased
    | Begin(t: ThreadId)
    | Identify(t: ThreadId, c: Byte)
    | Challenge(t: ThreadId, chall: Text)
    | Verify(t: ThreadId, resp: Text)
    | Answer(t: ThreadId)
    | SendKey(t: ThreadId)
    | Commit(t: ThreadId)
    | Insert(t: ThreadId)
    | Finish(t: ThreadId)                   // anything else: failures and finished exchanges
    | Remove(addr: Address)                 // clockWalk and unregisterClient
    | SetExit

  predicate At(s: Gate, t: ThreadId, phase: Phase) {
    t in s.threads && s.threads[t].phase == phase
  }

  predicate Enabled(s: Gate, a: Step) {
    match a
    case Arrive(t, _) => t !in s.threads
    case Remove(addr) => addr in s.registry
    case SetExit => true
    case _ =>
      a.t in s.threads &&
      var phase := s.threads[a.t].phase;
      match a
      case Lookup(_) => phase.Arrived?
      case Reidentify(_) => phase.Exchanging?
      case Begin(_) => phase.Registering? && !s.exiting
      case Identify(_, _) => phase.Begun?
      case Challenge(_, _) => phase.Identified?
      case Verify(_, resp) => phase.Challenged? && s.check(phase.c, phase.chall, resp)
      case Answer(_) => phase.Verified?
      case SendKey(_) => phase.Answered?
      case Commit(_) => phase.Keyed?
      case Insert(_) => phase.Committed?
      case _ => true
  }

  function Move(s: Gate, t: ThreadId, phase: Phase, es: seq<Event>): Gate
    requires t in s.threads
  {
    s.(threads := s.threads[t := s.threads[t].(phase := phase)], log := s.log + es)
  }

  function Next(s: Gate, a: Step): Gate
    requires Enabled(s, a)
  {
    match a
    case Arrive(t, addr) => s.(threads := s.threads[t := Connection(addr, Arrived)])
    case Remove(addr) => s.(registry := s.registry - {addr}, log := s.log + [Removed(addr)])
    case SetExit => s.(exiting := true, log := s.log + [Exiting])
    case Lookup(t) => Move(s, t, if s.threads[t].addr in s.registry then Exchanging else Registering, [])
    case Reidentify(t) =>
      var addr := s.threads[t].addr;
      Move(s, t, Registering, [Removed(addr)]).(registry := s.registry - {addr})
    case Begin(t) => Move(s, t, Begun, [Began(t, s.threads[t].addr)])
    case Identify(t, c) => Move(s, t, Identified(c), [GotId(t, c)])
    case Challenge(t, chall) => Move(s, t, Challenged(s.threads[t].phase.c, chall), [SentChall(t, chall)])
    case Verify(t, resp) =>
      var p := s.threads[t].phase;
      Move(s, t, Verified(p.c, p.chall, resp), [GotResponse(t, resp)])
    case Answer(t) =>
      var p := s.threads[t].phase;
      Move(s, t, Answered(p.c, p.chall, p.resp), [SentAnswer(t)])
    case SendKey(t) =>
      var p := s.threads[t].phase;
      Move(s, t, Keyed(p.c, p.chall, p.resp), [SentKey(t)])
    case Commit(t) =>
      var p := s.threads[t].phase;
      Move(s, t, Committed(p.c, p.chall, p.resp), [Registered(t)])
    case Insert(t) =>
      var addr, c := s.threads[t].addr, s.threads[t].phase.c;
      Move(s, t, Done, [Inserted(t, addr, c)]).(registry := s.registry[addr := c])
    case Finish(t) => Move(s, t, Done, [])
  }

  function Start(check: (Byte, Text, Text) -> bool): Gate {
    Gate(check, false, map[], map[], [])
  }

  ghost predicate Run(s: Gate, acts: seq<Step>, e: Gate)
    decreases |acts|
  {
    if acts == [] then s == e else Enabled(s, acts[0]) && Run(Next(s, acts[0]), acts[1..], e)
  }

  // ----- reading the log

  predicate By(e: Event, t: ThreadId) {
    !e.Removed? && !e.Exiting? && e.t == t
  }

  /** What thread t did, in order. */
  function Mine(log: seq<Event>, t: ThreadId): seq<Event> {
    if log == [] then []
    else
      var most, last := Mine(log[..|log| - 1], t), log[|log| - 1];
      if By(last, t) then most + [last] else most
  }

  /** What happened since the address was last removed. */
  function Since(log: seq<Event>, addr: Address): seq<Event> {
    if log == [] || log[|log| - 1] == Removed(addr) then []
    else Since(log[..|log| - 1], addr) + [log[|log| - 1]]
  }

  /** The last insertion of the address. */
  function LastInserted(log: seq<Event>, addr: Address): Option<Event> {
    if log == [] then None
    else
      var last := log[|log| - 1];
      if last.Inserted? && last.addr == addr then Some(last) else LastInserted(log[..|log| - 1], addr)
  }

  lemma MineAppended(log: seq<Event>, e: Event, t: ThreadId)
    ensures Mine(log + [e], t) == if By(e, t) then Mine(log, t) + [e] else Mine(log, t)
  {
  }

  lemma SinceAppended(log: seq<Event>, e: Event, a: Address)
    ensures Since(log + [e], a) == if e == Removed(a) then [] else Since(log, a) + [e]
  {
  }

  lemma LastAppended(log: seq<Event>, e: Event, a: Address)
    ensures LastInserted(log + [e], a) == if e.Inserted? && e.addr == a then Some(e) else LastInserted(log, a)
  {
  }

  /** A complete handshake, step by step in this order. */
  function Full(t: ThreadId, addr: Address, c: Byte, chall: Text, resp: Text): seq<Event> {
    [Began(t, addr), GotId(t, c), SentChall(t, chall), GotResponse(t, resp), SentAnswer(t), SentKey(t), Registered(t)]
  }

  /** What the log must hold of a thread in a phase. */
  function Expected(t: ThreadId, addr: Address, phase: Phase): seq<Event> {
    match phase
    case Begun => [Began(t, addr)]
    case Identified(c) => [Began(t, addr), GotId(t, c)]
    case Challenged(c, chall) => [Began(t, addr), GotId(t, c), SentChall(t, chall)]
    case Verified(c, chall, resp) => Full(t, addr, c, chall, resp)[..4]
    case Answered(c, chall, resp) => Full(t, addr, c, chall, resp)[..5]
    case Keyed(c, chall, resp) => Full(t, addr, c, chall, resp)[..6]
    case Committed(c, chall, resp) => Full(t, addr, c, chall, resp)
    case _ => []
  }

  ghost predicate Authentic(s: Gate, mine: seq<Event>, t: ThreadId, addr: Address, c: Byte) {
    exists chall, resp ::
      s.check(c, chall, resp) && mine == Full(t, addr, c, chall, resp) + [Inserted(t, addr, c)]
  }

  ghost predicate ThreadOk(s: Gate, t: ThreadId)
    requires t in s.threads
  {
    var phase := s.threads[t].phase;
    && (phase != Done ==> Mine(s.log, t) == Expected(t, s.threads[t].addr, phase))
    && (phase.Verified? || phase.Answered? || phase.Keyed? || phase.Committed? ==>
          s.check(phase.c, phase.chall, phase.resp))
  }

  /** The entry was made, after the last removal of its address, by a thread whose whole doing is
      one complete handshake. */
  ghost predicate EntryOk(s: Gate, addr: Address)
    requires addr in s.registry
  {
    exists t :: At(s, t, Done)
      && LastInserted(Since(s.log, addr), addr) == Some(Inserted(t, addr, s.registry[addr]))
      && Authentic(s, Mine(s.log, t), t, addr, s.registry[addr])
  }

  /** No handshake begins once the server is exiting. */
  ghost predicate ExitOk(s: Gate) {
    && (s.exiting <==> Exiting in s.log)
    && forall i, j :: 0 <= i < j < |s.log| && s.log[i] == Exiting ==> !s.log[j].Began?
  }

  ghost predicate Inv(s: Gate) {
    && (forall t :: t !in s.threads ==> Mine(s.log, t) == [])
    && (forall t :: t in s.threads ==> ThreadOk(s, t))
    && (forall a :: a in s.registry ==> EntryOk(s, a))
    && ExitOk(s)
  }

  /** The events of a step. */
  function Emitted(s: Gate, a: Step): (es: seq<Event>)
    requires Enabled(s, a)
    ensures |es| <= 1 && Next(s, a).log == s.log + es
  {
    match a
    case Remove(addr) => [Removed(addr)]
    case SetExit => [Exiting]
    case Reidentify(t) => [Removed(s.threads[t].addr)]
    case Begin(t) => [Began(t, s.threads[t].addr)]
    case Identify(t, c) => [GotId(t, c)]
    case Challenge(t, chall) => [SentChall(t, chall)]
    case Verify(t, resp) => [GotResponse(t, resp)]
    case Answer(t) => [SentAnswer(t)]
    case SendKey(t) => [SentKey(t)]
    case Commit(t) => [Registered(t)]
    case Insert(t) => [Inserted(t, s.threads[t].addr, s.threads[t].phase.c)]
    case _ => []
  }

  lemma LoggedMine(s: Gate, a: Step, t: ThreadId)
    requires Enabled(s, a)
    ensures var es := Emitted(s, a);
      Mine(Next(s, a).log, t) == if es != [] && By(es[0], t) then Mine(s.log, t) + es else Mine(s.log, t)
  {
    var es := Emitted(s, a);
    assert Next(s, a).log == s.log + es;
    if es == [] {
      assert s.log + es == s.log;
    } else {
      MineAppended(s.log, es[0], t);
      assert es == [es[0]];
    }
  }

  lemma LoggedSince(s: Gate, a: Step, r: Address)
    requires Enabled(s, a)
    ensures var es, n := Emitted(s, a), Next(s, a).log;
      && (if es == [Removed(r)] then Since(n, r) == [] else Since(n, r) == Since(s.log, r) + es)
      && (es != [Removed(r)] && es != [] && es[0].Inserted? && es[0].addr == r ==>
            LastInserted(Since(n, r), r) == Some(es[0]))
      && (es != [Removed(r)] && (es == [] || !es[0].Inserted? || es[0].addr != r) ==>
            LastInserted(Since(n, r), r) == LastInserted(Since(s.log, r), r))
  {
    var es := Emitted(s, a);
    assert Next(s, a).log == s.log + es;
    if es == [] {
      assert s.log + es == s.log && Since(s.log, r) + es == Since(s.log, r);
    } else {
      assert es == [es[0]];
      SinceAppended(s.log, es[0], r);
      LastAppended(Since(s.log, r), es[0], r);
    }
  }

  predicate OfThread(a: Step) {
    !a.Arrive? && !a.Remove? && !a.SetExit?
  }

  /** The phases and the events go together. */
  lemma PhasesLog(s: Gate, a: Step)
    requires Enabled(s, a) && OfThread(a)
    ensures var old_, new_, es := s.threads[a.t], Next(s, a).threads[a.t], Emitted(s, a);
      && new_.addr == old_.addr
      && (new_.phase != Done ==> old_.phase != Done)
      && (new_.phase != Done ==>
            Expected(a.t, new_.addr, new_.phase) ==
            Expected(a.t, old_.addr, old_.phase) + (if a.Reidentify? then [] else es))
      && (!a.Reidentify? && es != [] ==> By(es[0], a.t))
  {
  }

  lemma OtherStep(s: Gate, a: Step, t: ThreadId)
    requires Enabled(s, a) && (OfThread(a) ==> a.t != t)
    ensures var n := Next(s, a);
      && Mine(n.log, t) == Mine(s.log, t)
      && (t in s.threads ==> t in n.threads && n.threads[t] == s.threads[t])
      && (t !in s.threads && t in n.threads ==> n.threads[t].phase == Arrived)
  {
    LoggedMine(s, a, t);
  }

  lemma ThreadsStep(s: Gate, a: Step, t: ThreadId)
    requires Inv(s) && Enabled(s, a)
    ensures var n := Next(s, a); if t in n.threads then ThreadOk(n, t) else Mine(n.log, t) == []
  {
    if t in s.threads {
      assert ThreadOk(s, t);
    }
    if OfThread(a) && a.t == t {
      ActorStep(s, a);
    } else {
      OtherStep(s, a, t);
      assert Next(s, a).check == s.check;
    }
  }

  lemma ActorStep(s: Gate, a: Step)
    requires Enabled(s, a) && OfThread(a) && ThreadOk(s, a.t)
    ensures ThreadOk(Next(s, a), a.t)
  {
    LoggedMine(s, a, a.t);
    PhasesLog(s, a);
  }

  lemma EntriesStep(s: Gate, a: Step, addr: Address)
    requires Inv(s) && Enabled(s, a) && addr in Next(s, a).registry
    ensures EntryOk(Next(s, a), addr)
  {
    var n := Next(s, a);
    LoggedSince(s, a, addr);
    if a.Insert? && s.threads[a.t].addr == addr {
      NewEntry(s, a.t);
    } else {
      assert EntryOk(s, addr);
      var t :| At(s, t, Done)
        && LastInserted(Since(s.log, addr), addr) == Some(Inserted(t, addr, s.registry[addr]))
        && Authentic(s, Mine(s.log, t), t, addr, s.registry[addr]);
      OldEntry(s, a, t);
      assert Authentic(n, Mine(n.log, t), t, addr, n.registry[addr]);
    }
  }

  lemma NewEntry(s: Gate, t: ThreadId)
    requires Inv(s) && Enabled(s, Insert(t))
    ensures var n, addr, c := Next(s, Insert(t)), s.threads[t].addr, s.threads[t].phase.c;
      At(n, t, Done) && Authentic(n, Mine(n.log, t), t, addr, c)
  {
  }

  lemma OldEntry(s: Gate, a: Step, t: ThreadId)
    requires Enabled(s, a) && At(s, t, Done)
    ensures At(Next(s, a), t, Done) && Mine(Next(s, a).log, t) == Mine(s.log, t)
  {
    LoggedMine(s, a, t);
  }

  lemma InvStep(s: Gate, a: Step)
    requires Inv(s) && Enabled(s, a)
    ensures Inv(Next(s, a))
  {
    var n := Next(s, a);
    forall t ensures if t in n.threads then ThreadOk(n, t) else Mine(n.log, t) == [] {
      ThreadsStep(s, a, t);
    }
    forall addr | addr in n.registry ensures EntryOk(n, addr) {
      EntriesStep(s, a, addr);
    }
    assert n.log == s.log + Emitted(s, a);
  }

  lemma {:induction false} InvRun(s: Gate, acts: seq<Step>, e: Gate)
    requires Inv(s) && Run(s, acts, e)
    ensures Inv(e) && e.check == s.check
    decreases |acts|
  {
    if acts != [] {
      InvStep(s, acts[0]);
      InvRun(Next(s, acts[0]), acts[1..], e);
    }
  }

  /** Registered means authenticated: in every run, every entry of the registry was made since its
      address was last removed, by a thread that did one complete handshake in order, with a
      response that verifies against its challenge, begun when the server was not exiting. */
  lemma RegisteredMeansAuthenticated(check: (Byte, Text, Text) -> bool, acts: seq<Step>, e: Gate, addr: Address)
    requires Run(Start(check), acts, e) && addr in e.registry
    ensures exists t, chall, resp ::
      && check(e.registry[addr], chall, resp)
      && Mine(e.log, t) == Full(t, addr, e.registry[addr], chall, resp) + [Inserted(t, addr, e.registry[addr])]
      && LastInserted(Since(e.log, addr), addr) == Some(Inserted(t, addr, e.registry[addr]))
    ensures forall i, j :: 0 <= i < j < |e.log| && e.log[i] == Exiting ==> !e.log[j].Began?
  {
    InvRun(Start(check), acts, e);
    assert EntryOk(e, addr);
  }
}

/** Is the whole handshake younger than the last removal of the address, too?  Exactly when the
    thread that made the entry began after it. */
module WholeHandshake {
  import opened Wrappers
  import opened Handshake

  /** The entry of the address comes from a complete handshake since its last removal. */
  ghost predicate Whole(s: Gate, addr: Address)
    requires addr in s.registry
  {
    exists t :: Authentic(s, Mine(Since(s.log, addr), t), t, addr, s.registry[addr])
  }

  /** The thread that inserted the address began since its last removal. */
  ghost predicate BegunSince(s: Gate, addr: Address)
    requires addr in s.registry
  {
    exists t :: BothIn(Since(s.log, addr), t, addr, s.registry[addr])
  }

  predicate BothIn(log: seq<Event>, t: ThreadId, addr: Address, c: Byte) {
    Inserted(t, addr, c) in log && Began(t, addr) in log
  }

  lemma {:induction false} MineIn(log: seq<Event>, t: ThreadId, e: Event)
    ensures e in Mine(log, t) <==> e in log && By(e, t)
  {
    if log != [] {
      MineIn(log[..|log| - 1], t, e);
      assert log == log[..|log| - 1] + [log[|log| - 1]];
    }
  }

  /** What a thread did since the removal is the end of what it did at all. */
  lemma {:induction false} MineSinceIsSuffix(log: seq<Event>, a: Address, t: ThreadId) returns (before: seq<Event>)
    ensures Mine(log, t) == before + Mine(Since(log, a), t)
  {
    if log == [] || log[|log| - 1] == Removed(a) {
      before := Mine(log, t);
    } else {
      before := MineSinceIsSuffix(log[..|log| - 1], a, t);
      MineAppended(Since(log[..|log| - 1], a), log[|log| - 1], t);
    }
  }

  /** A thread that has inserted has done one complete handshake and nothing else. */
  ghost predicate InsertersOk(s: Gate) {
    forall t, a, c :: Inserted(t, a, c) in s.log ==> At(s, t, Done) && Authentic(s, Mine(s.log, t), t, a, c)
  }

  lemma InsertersStep(s: Gate, a: Step)
    requires Inv(s) && InsertersOk(s) && Enabled(s, a)
    ensures InsertersOk(Next(s, a))
  {
    var n := Next(s, a);
    forall t, r, c | Inserted(t, r, c) in n.log ensures At(n, t, Done) && Authentic(n, Mine(n.log, t), t, r, c) {
      if Inserted(t, r, c) in s.log {
        OldEntry(s, a, t);
        assert Authentic(s, Mine(s.log, t), t, r, c);
      } else {
        assert Inserted(t, r, c) in Emitted(s, a);
        NewEntry(s, t);
      }
    }
  }

  lemma {:induction false} InsertersRun(s: Gate, acts: seq<Step>, e: Gate)
    requires Inv(s) && InsertersOk(s) && Run(s, acts, e)
    ensures Inv(e) && InsertersOk(e) && e.check == s.check
    decreases |acts|
  {
    if acts != [] {
      InvStep(s, acts[0]);
      InsertersStep(s, acts[0]);
      InsertersRun(Next(s, acts[0]), acts[1..], e);
    }
  }

  /** Only the first event of a handshake is its beginning. */
  lemma FromTheBeginning(before: seq<Event>, some: seq<Event>, t: ThreadId, addr: Address, c: Byte, chall: Text, resp: Text)
    requires before + some == Full(t, addr, c, chall, resp) + [Inserted(t, addr, c)] && Began(t, addr) in some
    ensures before == []
  {
    var i :| 0 <= i < |some| && some[i] == Began(t, addr);
    assert (before + some)[|before| + i] == Began(t, addr);
  }

  lemma BegunSinceIsWhole(e: Gate, addr: Address, t: ThreadId)
    requires InsertersOk(e) && addr in e.registry && BothIn(Since(e.log, addr), t, addr, e.registry[addr])
    ensures Authentic(e, Mine(Since(e.log, addr), t), t, addr, e.registry[addr])
  {
    var since, c := Since(e.log, addr), e.registry[addr];
    MineIn(since, t, Inserted(t, addr, c));
    MineIn(since, t, Began(t, addr));
    var before := MineSinceIsSuffix(e.log, addr, t);
    MineIn(e.log, t, Inserted(t, addr, c));
    var chall, resp :| e.check(c, chall, resp) && Mine(e.log, t) == Full(t, addr, c, chall, resp) + [Inserted(t, addr, c)];
    FromTheBeginning(before, Mine(since, t), t, addr, c, chall, resp);
  }

  /** In every run, the handshake behind an entry is whole since the last removal of its address if
      and only if the thread that made the entry began since then. */
  lemma WholeExactly(check: (Byte, Text, Text) -> bool, acts: seq<Step>, e: Gate, addr: Address)
    requires Run(Start(check), acts, e) && addr in e.registry
    ensures Whole(e, addr) <==> BegunSince(e, addr)
  {
    InsertersRun(Start(check), acts, e);
    var since, c := Since(e.log, addr), e.registry[addr];
    if t :| BothIn(since, t, addr, c) {
      BegunSinceIsWhole(e, addr, t);
    }
    if t :| Authentic(e, Mine(since, t), t, addr, c) {
      MineIn(since, t, Inserted(t, addr, c));
      MineIn(since, t, Began(t, addr));
      assert BothIn(since, t, addr, c);
    }
  }

  // ----- when connections from one address do not overlap

  ghost predicate Alone(s: Gate, addr: Address) {
    forall u :: u in s.threads && s.threads[u].phase != Done ==> s.threads[u].addr != addr
  }

  ghost predicate Serial(s: Gate, a: Step) {
    a.Arrive? ==> Alone(s, a.addr)
  }

  ghost predicate SerialRun(s: Gate, acts: seq<Step>, e: Gate)
    decreases |acts|
  {
    if acts == [] then s == e
    else Enabled(s, acts[0]) && Serial(s, acts[0]) && SerialRun(Next(s, acts[0]), acts[1..], e)
  }

  /** A handshake under way began since the last removal, and its address is not registered. */
  ghost predicate FreshThread(s: Gate, t: ThreadId)
    requires t in s.threads
  {
    var addr, p := s.threads[t].addr, s.threads[t].phase;
    p != Done && !p.Arrived? && !p.Exchanging? ==>
      addr !in s.registry && (p.Registering? || Began(t, addr) in Since(s.log, addr))
  }

  ghost predicate Unshared(s: Gate) {
    forall t, u :: t in s.threads && u in s.threads && t != u && s.threads[t].phase != Done && s.threads[u].phase != Done
      ==> s.threads[t].addr != s.threads[u].addr
  }

  ghost predicate SerialInv(s: Gate) {
    && Unshared(s)
    && (forall t :: t in s.threads ==> FreshThread(s, t))
    && (forall a :: a in s.registry ==> BegunSince(s, a))
  }

  lemma FreshActor(s: Gate, a: Step)
    requires SerialInv(s) && Enabled(s, a) && OfThread(a)
    ensures FreshThread(Next(s, a), a.t)
  {
    assert FreshThread(s, a.t);
    LoggedSince(s, a, s.threads[a.t].addr);
  }

  lemma FreshOther(s: Gate, a: Step, t: ThreadId)
    requires SerialInv(s) && Enabled(s, a) && (OfThread(a) ==> a.t != t) && t in Next(s, a).threads
    ensures FreshThread(Next(s, a), t)
  {
    var n := Next(s, a);
    var addr := n.threads[t].addr;
    LoggedSince(s, a, addr);
    if t in s.threads {
      assert FreshThread(s, t);
      if n.threads[t].phase != Done && OfThread(a) && s.threads[a.t].phase != Done {
        assert s.threads[a.t].addr != addr;
      }
    }
  }

  lemma UnsharedStep(s: Gate, a: Step)
    requires Unshared(s) && Enabled(s, a) && Serial(s, a)
    ensures Unshared(Next(s, a))
  {
  }

  lemma BegunSinceStep(s: Gate, a: Step, addr: Address)
    requires SerialInv(s) && Enabled(s, a) && addr in Next(s, a).registry
    ensures BegunSince(Next(s, a), addr)
  {
    var n := Next(s, a);
    LoggedSince(s, a, addr);
    if a.Insert? && s.threads[a.t].addr == addr {
      assert FreshThread(s, a.t);
      assert BothIn(Since(n.log, addr), a.t, addr, n.registry[addr]);
    } else {
      assert BegunSince(s, addr);
      var t :| BothIn(Since(s.log, addr), t, addr, s.registry[addr]);
      assert BothIn(Since(n.log, addr), t, addr, n.registry[addr]);
    }
  }

  lemma SerialStep(s: Gate, a: Step)
    requires SerialInv(s) && Enabled(s, a) && Serial(s, a)
    ensures SerialInv(Next(s, a))
  {
    var n := Next(s, a);
    UnsharedStep(s, a);
    forall t | t in n.threads ensures FreshThread(n, t) {
      if OfThread(a) && a.t == t {
        FreshActor(s, a);
      } else {
        FreshOther(s, a, t);
      }
    }
    forall addr | addr in n.registry ensures BegunSince(n, addr) {
      BegunSinceStep(s, a, addr);
    }
  }

  lemma {:induction false} SerialRunKeeps(s: Gate, acts: seq<Step>, e: Gate)
    requires SerialInv(s) && SerialRun(s, acts, e)
    ensures SerialInv(e) && Run(s, acts, e)
    decreases |acts|
  {
    if acts != [] {
      SerialStep(s, acts[0]);
      SerialRunKeeps(Next(s, acts[0]), acts[1..], e);
    }
  }

  /** So it is whole if connections from one address never overlap. */
  lemma WholeHandshakeSinceRemoval(check: (Byte, Text, Text) -> bool, acts: seq<Step>, e: Gate, addr: Address)
    requires SerialRun(Start(check), acts, e) && addr in e.registry
    ensures Whole(e, addr)
  {
    SerialRunKeeps(Start(check), acts, e);
    assert BegunSince(e, addr);
    WholeExactly(check, acts, e, addr);
  }

  // ----- with overlapping connections

  /** What is left of a handshake that has begun, all of it going well. */
  function Remainder(t: ThreadId, c: Byte, chall: Text, resp: Text): seq<Step> {
    [Identify(t, c), Challenge(t, chall), Verify(t, resp), Answer(t), SendKey(t), Commit(t), Insert(t)]
  }

  function Logging(t: ThreadId, addr: Address, c: Byte, chall: Text, resp: Text): seq<Event> {
    Full(t, addr, c, chall, resp)[1..] + [Inserted(t, addr, c)]
  }

  function Completed(s: Gate, t: ThreadId, c: Byte, chall: Text, resp: Text): Gate
    requires t in s.threads
  {
    var addr := s.threads[t].addr;
    Gate(s.check, s.exiting, s.registry[addr := c], s.threads[t := Connection(addr, Done)],
         s.log + Logging(t, addr, c, chall, resp))
  }

  lemma RunOne(s: Gate, a: Step, acts: seq<Step>, e: Gate)
    requires Enabled(s, a) && Run(Next(s, a), acts, e)
    ensures Run(s, [a] + acts, e)
  {
  }

  lemma {:induction false} RunBoth(s: Gate, first: seq<Step>, m: Gate, second: seq<Step>, e: Gate)
    requires Run(s, first, m) && Run(m, second, e)
    ensures Run(s, first + second, e)
    decreases |first|
  {
    if first == [] {
      assert first + second == second;
    } else {
      assert (first + second)[1..] == first[1..] + second;
      RunBoth(Next(s, first[0]), first[1..], m, second, e);
    }
  }

  /** The thread after k of these steps. */
  function Reached(k: nat, c: Byte, chall: Text, resp: Text): Phase {
    match k
    case 0 => Begun
    case 1 => Identified(c)
    case 2 => Challenged(c, chall)
    case 3 => Verified(c, chall, resp)
    case 4 => Answered(c, chall, resp)
    case 5 => Keyed(c, chall, resp)
    case 6 => Committed(c, chall, resp)
    case _ => Done
  }

  function Midway(s: Gate, t: ThreadId, k: nat, c: Byte, chall: Text, resp: Text): Gate
    requires t in s.threads && k <= 7
  {
    var addr := s.threads[t].addr;
    Gate(s.check, s.exiting, if k < 7 then s.registry else s.registry[addr := c],
         s.threads[t := Connection(addr, Reached(k, c, chall, resp))],
         s.log + Logging(t, addr, c, chall, resp)[..k])
  }

  lemma MidwayStep(s: Gate, t: ThreadId, k: nat, c: Byte, chall: Text, resp: Text)
    requires t in s.threads && k < 7 && s.check(c, chall, resp)
    ensures Enabled(Midway(s, t, k, c, chall, resp), Remainder(t, c, chall, resp)[k])
    ensures Next(Midway(s, t, k, c, chall, resp), Remainder(t, c, chall, resp)[k]) == Midway(s, t, k + 1, c, chall, resp)
  {
    var m, a := Midway(s, t, k, c, chall, resp), Remainder(t, c, chall, resp)[k];
    var events := Logging(t, s.threads[t].addr, c, chall, resp);
    assert events[..k + 1] == events[..k] + [events[k]];
    assert m.log + [events[k]] == s.log + events[..k + 1];
    assert Emitted(m, a) == [events[k]];
  }

  lemma {:induction false} MidwayRuns(s: Gate, t: ThreadId, k: nat, c: Byte, chall: Text, resp: Text)
    requires t in s.threads && k <= 7 && s.check(c, chall, resp)
    ensures Run(Midway(s, t, k, c, chall, resp), Remainder(t, c, chall, resp)[k..], Midway(s, t, 7, c, chall, resp))
    decreases 7 - k
  {
    if k < 7 {
      var acts := Remainder(t, c, chall, resp);
      MidwayStep(s, t, k, c, chall, resp);
      MidwayRuns(s, t, k + 1, c, chall, resp);
      RunOne(Midway(s, t, k, c, chall, resp), acts[k], acts[k + 1..], Midway(s, t, 7, c, chall, resp));
      assert [acts[k]] + acts[k + 1..] == acts[k..];
    }
  }

  lemma RemainderRuns(s: Gate, t: ThreadId, c: Byte, chall: Text, resp: Text)
    requires At(s, t, Begun) && s.check(c, chall, resp)
    ensures Run(s, Remainder(t, c, chall, resp), Completed(s, t, c, chall, resp))
  {
    MidwayRuns(s, t, 0, c, chall, resp);
    MidwayEnds(s, t, c, chall, resp);
    assert Remainder(t, c, chall, resp)[0..] == Remainder(t, c, chall, resp);
  }

  lemma MidwayEnds(s: Gate, t: ThreadId, c: Byte, chall: Text, resp: Text)
    requires At(s, t, Begun)
    ensures Midway(s, t, 0, c, chall, resp) == s
    ensures Midway(s, t, 7, c, chall, resp) == Completed(s, t, c, chall, resp)
  {
    var events := Logging(t, s.threads[t].addr, c, chall, resp);
    assert s.log + events[..0] == s.log && events[..7] == events;
    assert s.threads[t := s.threads[t]] == s.threads;
  }

  /** A device that sends ID in place of its values is taken out of the registry at once, and may
      then register as if for the first time, unless the server is exiting. */
  lemma ReidentifiedMayRegister(s: Gate, t: ThreadId, c: Byte, chall: Text, resp: Text)
    requires At(s, t, Exchanging) && s.check(c, chall, resp)
    ensures var addr, m := s.threads[t].addr, Next(s, Reidentify(t));
      && addr !in m.registry && (Enabled(m, Begin(t)) <==> !s.exiting)
      && (!s.exiting ==> exists e ::
            Run(m, [Begin(t)] + Remainder(t, c, chall, resp), e) && addr in e.registry && e.registry[addr] == c)
  {
    var m := Next(s, Reidentify(t));
    if !s.exiting {
      var b := Next(m, Begin(t));
      RemainderRuns(b, t, c, chall, resp);
      RunOne(m, Begin(t), Remainder(t, c, chall, resp), Completed(b, t, c, chall, resp));
    }
  }

  lemma {:induction false} SinceGrows(log: seq<Event>, more: seq<Event>, a: Address)
    requires Removed(a) !in more
    ensures Since(log + more, a) == Since(log, a) + more
  {
    if more == [] {
      assert log + more == log && Since(log, a) + more == Since(log, a);
    } else {
      var most, last := more[..|more| - 1], more[|more| - 1];
      SinceGrows(log, most, a);
      assert log + more == (log + most) + [last];
      SinceAppended(log + most, last, a);
      assert Since(log, a) + more == (Since(log, a) + most) + [last];
    }
  }

  /** Two connections from one address that have both passed the exit flag. */
  function BothBegun(check: (Byte, Text, Text) -> bool, addr: Address): Gate {
    Gate(check, false, map[], map[0 := Connection(addr, Begun), 1 := Connection(addr, Begun)],
         [Began(0, addr), Began(1, addr)])
  }

  function Two(check: (Byte, Text, Text) -> bool, addr: Address, p: Phase, q: Phase, log: seq<Event>): Gate {
    Gate(check, false, map[], map[0 := Connection(addr, p), 1 := Connection(addr, q)], log)
  }

  lemma ReachBothArrived(check: (Byte, Text, Text) -> bool, addr: Address) returns (acts: seq<Step>)
    ensures Run(Start(check), acts, Two(check, addr, Arrived, Arrived, []))
  {
    var e := Two(check, addr, Arrived, Arrived, []);
    var s1 := Start(check).(threads := map[0 := Connection(addr, Arrived)]);
    assert Next(s1, Arrive(1, addr)) == e;
    RunOne(s1, Arrive(1, addr), [], e);
    acts := [Arrive(1, addr)] + [];
    assert Next(Start(check), Arrive(0, addr)) == s1;
    RunOne(Start(check), Arrive(0, addr), acts, e);
    acts := [Arrive(0, addr)] + acts;
  }

  lemma ReachBothBegun(check: (Byte, Text, Text) -> bool, addr: Address) returns (acts: seq<Step>)
    ensures Run(Start(check), acts, BothBegun(check, addr))
  {
    var s := Two(check, addr, Arrived, Arrived, []);
    var s1 := Two(check, addr, Registering, Arrived, []);
    var s2 := Two(check, addr, Registering, Registering, []);
    var s3 := Two(check, addr, Begun, Registering, [Began(0, addr)]);
    var e := BothBegun(check, addr);
    assert Next(s3, Begin(1)) == e;
    RunOne(s3, Begin(1), [], e);
    acts := [Begin(1)] + [];
    assert Next(s2, Begin(0)) == s3;
    RunOne(s2, Begin(0), acts, e);
    acts := [Begin(0)] + acts;
    assert Next(s1, Lookup(1)) == s2;
    RunOne(s1, Lookup(1), acts, e);
    acts := [Lookup(1)] + acts;
    assert Next(s, Lookup(0)) == s1;
    RunOne(s, Lookup(0), acts, e);
    acts := [Lookup(0)] + acts;
    var arrive := ReachBothArrived(check, addr);
    RunBoth(Start(check), arrive, s, acts, e);
    acts := arrive + acts;
  }

  lemma NothingBegins(t: ThreadId, addr: Address, c: Byte, chall: Text, resp: Text)
    ensures forall ev :: ev in Logging(t, addr, c, chall, resp) ==> !ev.Began? && !ev.Removed?
  {
  }

  /** A handshake that has begun is completed after its address was removed. */
  lemma RemovedMeanwhile(s: Gate, t: ThreadId, c: Byte, chall: Text, resp: Text) returns (acts: seq<Step>, e: Gate)
    requires At(s, t, Begun) && s.check(c, chall, resp) && s.threads[t].addr in s.registry
    ensures Run(s, acts, e) && s.threads[t].addr in e.registry
    ensures forall ev :: ev in Since(e.log, s.threads[t].addr) ==> !ev.Began?
  {
    var addr := s.threads[t].addr;
    var m := Next(s, Remove(addr));
    e := Completed(m, t, c, chall, resp);
    RemainderRuns(m, t, c, chall, resp);
    RunOne(s, Remove(addr), Remainder(t, c, chall, resp), e);
    acts := [Remove(addr)] + Remainder(t, c, chall, resp);
    SinceAppended(s.log, Removed(addr), addr);
    NothingBegins(t, addr, c, chall, resp);
    SinceGrows(m.log, Logging(t, addr, c, chall, resp), addr);
  }

  /** Two connections from one address: both pass the exit flag, the second registers and its
      address is removed again, and then the first completes.  The entry is authentic, but
      since the removal nobody has begun a handshake. */
  lemma OverlapBreaksIt(check: (Byte, Text, Text) -> bool, addr: Address, c: Byte, chall: Text, resp: Text)
    requires check(c, chall, resp)
    ensures exists acts, e ::
      && Run(Start(check), acts, e) && addr in e.registry && !Whole(e, addr)
      && forall ev :: ev in Since(e.log, addr) ==> !ev.Began?
  {
    var begin := ReachBothBegun(check, addr);
    var s := BothBegun(check, addr);
    var m := Completed(s, 1, c, chall, resp);
    RemainderRuns(s, 1, c, chall, resp);
    var more, e := RemovedMeanwhile(m, 0, c, chall, resp);
    RunBoth(s, Remainder(1, c, chall, resp), m, more, e);
    RunBoth(Start(check), begin, s, Remainder(1, c, chall, resp) + more, e);
    WholeExactly(check, begin + (Remainder(1, c, chall, resp) + more), e, addr);
  }
}
