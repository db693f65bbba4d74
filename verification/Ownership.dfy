/** Who owns which service id while several clients register and unregister at the same time.

    A client's own mutex admits one such operation per client; between two operations on the
    table any other client may act.  Each step below is one operation on the table or one
    change of a client's maps (client.cpp, ServiceTable.cpp). */
module Ownership {
  import opened Wrappers
  import opened Services
  import opened ServiceIds

  type ClientId = nat

  datatype Phase =
    | Idle
    | Collecting(pending: seq<Byte>)                    // registerServices, reading descriptions
    | Committing(todo: seq<Byte>, half: Option<Byte>)   // after EOT; half: in the table, not yet in a map
    | RollingBack(todo: seq<Byte>)                      // after NAK
    | Unregistering(gone: Option<Byte>)                 // gone: out of the table, still in a map

  datatype ClientState = ClientState(phase: Phase, keys: set<Byte>)  // keys of inputs and outputs

  datatype System = System(
    ids: Ids<Service>,
    clients: map<ClientId, ClientState>,
    lost: set<Byte>,   // history: reserved by registrations that ended without rollback
    stray: set<Byte>)  // history: put into the table and then forgotten, because Q_DESC threw

  datatype Step =
    | BeginRegister(c: ClientId)
    | Take(c: ClientId, id: Byte)
    | Overflow(c: ClientId)                    // reserve with all 255 ids in use
    | Abandon(c: ClientId)                     // an ACK could not be sent
    | Accept(c: ClientId)
    | Reject(c: ClientId)
    | Add(c: ClientId, service: Service)
    | Throw(c: ClientId)                       // the unit was too long for Q_DESC
    | Insert(c: ClientId)
    | GiveBack(c: ClientId)
    | BeginUnregister(c: ClientId)
    | RemoveOne(c: ClientId, id: Byte)
    | Erase(c: ClientId)
    | End(c: ClientId)

  predicate Enabled(s: System, a: Step) {
    a.c in s.clients &&
    var phase, keys := s.clients[a.c].phase, s.clients[a.c].keys;
    match a
    case BeginRegister(_) => phase.Idle?
    case Take(_, id) => phase.Collecting? && MayReserve(s.ids, id)
    case Overflow(_) => phase.Collecting? && Full(s.ids)
    case Abandon(_) => phase.Collecting? && phase.pending != []
    case Accept(_) => phase.Collecting? && phase.pending != []
    case Reject(_) => phase.Collecting?
    case Add(_, service) => phase.Committing? && phase.half.None? && phase.todo != [] && service.id == phase.todo[0]
    case Throw(_) => phase.Committing? && phase.half.Some?
    case Insert(_) => phase.Committing? && phase.half.Some?
    case GiveBack(_) => phase.RollingBack? && phase.todo != []
    case BeginUnregister(_) => phase.Idle?
    case RemoveOne(_, id) => phase.Unregistering? && phase.gone.None? && id in keys
    case Erase(_) => phase.Unregistering? && phase.gone.Some?
    case End(_) =>
      || phase == Committing([], None)
      || phase == RollingBack([])
      || (phase == Unregistering(None) && keys == {})
  }

  function Put(s: System, c: ClientId, phase: Phase, keys: set<Byte>): System {
    s.(clients := s.clients[c := ClientState(phase, keys)])
  }

  function Next(s: System, a: Step): System
    requires Enabled(s, a)
  {
    var phase, keys := s.clients[a.c].phase, s.clients[a.c].keys;
    match a
    case BeginRegister(c) => Put(s, c, Collecting([]), keys)
    case Take(c, id) => Put(s, c, Collecting(phase.pending + [id]), keys).(ids := Reserved(s.ids, id))
    case Overflow(c) => Put(s, c, RollingBack(phase.pending), keys).(
      ids := Ids(map[], s.ids.reserved + {0}, 0))
    case Abandon(c) => Put(s, c, Idle, keys).(lost := s.lost + set id | id in phase.pending)
    case Accept(c) => Put(s, c, Committing(phase.pending, None), keys)
    case Reject(c) => Put(s, c, RollingBack(phase.pending), keys)
    case Add(c, service) => Put(s, c, Committing(phase.todo[1..], Some(phase.todo[0])), keys).(
      ids := Pushed(s.ids, phase.todo[0], service))
    case Throw(c) => Put(s, c, Idle, keys).(
      lost := s.lost + (set id | id in phase.todo), stray := s.stray + {phase.half.value})
    case Insert(c) => Put(s, c, Committing(phase.todo, None), keys + {phase.half.value})
    case GiveBack(c) => Put(s, c, RollingBack(phase.todo[1..]), keys).(ids := Unreserved(s.ids, phase.todo[0]))
    case BeginUnregister(c) => Put(s, c, Unregistering(None), keys)
    case RemoveOne(c, id) => Put(s, c, Unregistering(Some(id)), keys).(ids := Removed(s.ids, id))
    case Erase(c) => Put(s, c, Unregistering(None), keys - {phase.gone.value})
    case End(c) => Put(s, c, Idle, keys)
  }

  // ----- ownership

  /** The ids client c holds without having committed them. */
  function PendingIds(c: ClientState): set<Byte> {
    match c.phase
    case Collecting(p) => set id | id in p
    case Committing(p, _) => set id | id in p
    case RollingBack(p) => set id | id in p
    case _ => {}
  }

  /** The ids whose services are client c's, counting the one it is adding and not the one it is
      removing. */
  function LiveIds(c: ClientState): set<Byte> {
    match c.phase
    case Committing(_, Some(id)) => c.keys + {id}
    case Unregistering(Some(id)) => c.keys - {id}
    case _ => c.keys
  }

  ghost predicate ClientOk(c: ClientState) {
    match c.phase
    case Collecting(p) => Distinct(p)
    case Committing(p, half) => Distinct(p) && (half.Some? ==> half.value !in c.keys)
    case RollingBack(p) => Distinct(p)
    case Unregistering(gone) => gone.Some? ==> gone.value in c.keys
    case Idle => true
  }

  predicate HasPending(s: System, c: ClientId, id: Byte) {
    c in s.clients && id in PendingIds(s.clients[c])
  }

  predicate HasLive(s: System, c: ClientId, id: Byte) {
    c in s.clients && id in LiveIds(s.clients[c])
  }

  /** Reserved ids are the disjoint union of the clients' pending ids and the lost ones;
      occupied ids are the disjoint union of the clients' services and the strays. */
  ghost predicate Owned(s: System) {
    && IdsValid(s.ids)
    && (forall c :: c in s.clients ==> ClientOk(s.clients[c]))
    && (forall id: Byte :: id in s.lost ==> id in s.ids.reserved)
    && (forall id: Byte :: id in s.stray ==> id in s.ids.occupied)
    && (forall c, id: Byte :: HasPending(s, c, id) ==> id in s.ids.reserved && id !in s.lost)
    && (forall c, id: Byte :: HasLive(s, c, id) ==> id in s.ids.occupied && id !in s.stray)
    && (forall id: Byte :: id in s.ids.reserved && id !in s.lost ==> exists c :: HasPending(s, c, id))
    && (forall id: Byte :: id in s.ids.occupied && id !in s.stray ==> exists c :: HasLive(s, c, id))
    && (forall c, d, id: Byte :: HasPending(s, c, id) && HasPending(s, d, id) ==> c == d)
    && (forall c, d, id: Byte :: HasLive(s, c, id) && HasLive(s, d, id) ==> c == d)
  }

  lemma OwnedStep(s: System, a: Step)
    requires Owned(s) && Enabled(s, a) && !a.Overflow?
    ensures Owned(Next(s, a))
  {
    match a
    case Take(c, id) => TakeKeeps(s, c, id);
    case Abandon(c) => AbandonKeeps(s, c);
    case Throw(c) => ThrowKeeps(s, c);
    case Add(c, service) => AddKeeps(s, c, service);
    case GiveBack(c) => GiveBackKeeps(s, c);
    case RemoveOne(c, id) => RemoveKeeps(s, c, id);
    case _ => LocalKeeps(s, a);
  }

  /** Steps that change no more than the phase of one client. */
  lemma LocalKeeps(s: System, a: Step)
    requires Owned(s) && Enabled(s, a)
    requires !a.Take? && !a.Overflow? && !a.Abandon? && !a.Throw? && !a.Add? && !a.GiveBack? && !a.RemoveOne?
    ensures Owned(Next(s, a))
  {
    var t := Next(s, a);
    assert PendingIds(t.clients[a.c]) == PendingIds(s.clients[a.c]);
    assert LiveIds(t.clients[a.c]) == LiveIds(s.clients[a.c]);
    assert ClientOk(t.clients[a.c]);
    SameOwners(s, t);
  }

  lemma SameOwners(s: System, t: System)
    requires Owned(s) && t.ids == s.ids && t.lost == s.lost && t.stray == s.stray && t.clients.Keys == s.clients.Keys
    requires forall c :: c in t.clients ==>
      && ClientOk(t.clients[c])
      && PendingIds(t.clients[c]) == PendingIds(s.clients[c])
      && LiveIds(t.clients[c]) == LiveIds(s.clients[c])
    ensures Owned(t)
  {
    assert forall c, id: Byte :: HasPending(s, c, id) == HasPending(t, c, id);
    assert forall c, id: Byte :: HasLive(s, c, id) == HasLive(t, c, id);
  }

  lemma Within(s: System, c: ClientId)
    requires Owned(s) && c in s.clients
    ensures PendingIds(s.clients[c]) <= s.ids.reserved && PendingIds(s.clients[c]) !! s.lost
    ensures LiveIds(s.clients[c]) <= s.ids.occupied.Keys && LiveIds(s.clients[c]) !! s.stray
    ensures ClientOk(s.clients[c])
  {
    forall id: Byte | id in PendingIds(s.clients[c]) ensures id in s.ids.reserved && id !in s.lost {
      assert HasPending(s, c, id);
    }
    forall id: Byte | id in LiveIds(s.clients[c]) ensures id in s.ids.occupied && id !in s.stray {
      assert HasLive(s, c, id);
    }
  }

  lemma TakeKeeps(s: System, c: ClientId, id: Byte)
    requires Owned(s) && Enabled(s, Take(c, id))
    ensures Owned(Next(s, Take(c, id)))
  {
    var t := Next(s, Take(c, id));
    Within(s, c);
    ReservedIsNew(s.ids, id);
    assert PendingIds(t.clients[c]) == PendingIds(s.clients[c]) + {id};
    Moves(s, t, c, PendingIds(s.clients[c]) + {id}, LiveIds(s.clients[c]));
  }

  lemma AbandonKeeps(s: System, c: ClientId)
    requires Owned(s) && Enabled(s, Abandon(c))
    ensures Owned(Next(s, Abandon(c)))
  {
    Within(s, c);
    Moves(s, Next(s, Abandon(c)), c, {}, LiveIds(s.clients[c]));
  }

  lemma ThrowKeeps(s: System, c: ClientId)
    requires Owned(s) && Enabled(s, Throw(c))
    ensures Owned(Next(s, Throw(c)))
  {
    Within(s, c);
    Moves(s, Next(s, Throw(c)), c, {}, LiveIds(s.clients[c]) - {s.clients[c].phase.half.value});
  }

  lemma AddKeeps(s: System, c: ClientId, service: Service)
    requires Owned(s) && Enabled(s, Add(c, service))
    ensures Owned(Next(s, Add(c, service)))
  {
    var t := Next(s, Add(c, service));
    var todo := s.clients[c].phase.todo;
    FirstOf(todo);
    Within(s, c);
    Moves(s, t, c, PendingIds(s.clients[c]) - {todo[0]}, LiveIds(s.clients[c]) + {todo[0]});
  }

  lemma GiveBackKeeps(s: System, c: ClientId)
    requires Owned(s) && Enabled(s, GiveBack(c))
    ensures Owned(Next(s, GiveBack(c)))
  {
    var t := Next(s, GiveBack(c));
    var todo := s.clients[c].phase.todo;
    FirstOf(todo);
    Within(s, c);
    Moves(s, t, c, PendingIds(s.clients[c]) - {todo[0]}, LiveIds(s.clients[c]));
  }

  lemma RemoveKeeps(s: System, c: ClientId, id: Byte)
    requires Owned(s) && Enabled(s, RemoveOne(c, id))
    ensures Owned(Next(s, RemoveOne(c, id)))
  {
    var t := Next(s, RemoveOne(c, id));
    Within(s, c);
    Moves(s, t, c, PendingIds(s.clients[c]), LiveIds(s.clients[c]) - {id});
  }

  lemma FirstOf(p: seq<Byte>)
    requires Distinct(p) && p != []
    ensures Distinct(p[1..]) && p[0] in p
    ensures (set id | id in p[1..]) == (set id | id in p) - {p[0]}
  {
  }

  /** One client's ids change, and the table with them. */
  lemma Moves(s: System, t: System, c: ClientId, pending: set<Byte>, live: set<Byte>)
    requires Owned(s) && c in s.clients && c in t.clients
    requires t.clients == s.clients[c := t.clients[c]] && ClientOk(t.clients[c]) && IdsValid(t.ids)
    requires PendingIds(t.clients[c]) == pending && LiveIds(t.clients[c]) == live
    requires forall id: Byte :: id in t.ids.reserved <==>
      id in pending || id in t.lost || (id in s.ids.reserved && id !in PendingIds(s.clients[c]))
    requires forall id: Byte :: id in t.ids.occupied <==>
      id in live || id in t.stray || (id in s.ids.occupied && id !in LiveIds(s.clients[c]))
    requires s.lost <= t.lost && forall id: Byte :: id in t.lost && id !in s.lost ==> id in PendingIds(s.clients[c])
    requires s.stray <= t.stray && forall id: Byte :: id in t.stray && id !in s.stray ==> id in LiveIds(s.clients[c])
    requires pending !! t.lost && live !! t.stray
    requires forall id: Byte :: id in pending && id !in PendingIds(s.clients[c]) ==> id !in s.ids.reserved
    requires forall id: Byte :: id in live && id !in LiveIds(s.clients[c]) ==> id !in s.ids.occupied
    ensures Owned(t)
  {
    forall d, id: Byte | d != c ensures HasPending(t, d, id) == HasPending(s, d, id) && HasLive(t, d, id) == HasLive(s, d, id) {
    }
    assert forall id: Byte :: HasPending(t, c, id) <==> id in pending;
    assert forall id: Byte :: HasLive(t, c, id) <==> id in live;
    assert forall id: Byte :: HasPending(s, c, id) <==> id in PendingIds(s.clients[c]);
    assert forall id: Byte :: HasLive(s, c, id) <==> id in LiveIds(s.clients[c]);
    forall id: Byte | id in t.ids.reserved && id !in t.lost ensures exists d :: HasPending(t, d, id) {
      if id in pending {
        assert HasPending(t, c, id);
      } else {
        var d :| HasPending(s, d, id);
        assert HasPending(t, d, id);
      }
    }
    forall id: Byte | id in t.ids.occupied && id !in t.stray ensures exists d :: HasLive(t, d, id) {
      if id in live {
        assert HasLive(t, c, id);
      } else {
        var d :| HasLive(s, d, id);
        assert HasLive(t, d, id);
      }
    }
  }

  // ----- runs

  ghost predicate Start(s: System) {
    s.ids == Empty() && s.lost == {} && s.stray == {} && forall c :: c in s.clients ==> s.clients[c] == ClientState(Idle, {})
  }

  ghost predicate Run(s: System, steps: seq<Step>, t: System)
    decreases |steps|
  {
    if steps == [] then s == t
    else Enabled(s, steps[0]) && Run(Next(s, steps[0]), steps[1..], t)
  }

  predicate NoOverflow(steps: seq<Step>) {
    forall i :: 0 <= i < |steps| ==> !steps[i].Overflow?
  }

  lemma {:induction false} OwnedRun(s: System, steps: seq<Step>, t: System)
    requires Owned(s) && Run(s, steps, t) && NoOverflow(steps)
    ensures Owned(t)
    decreases |steps|
  {
    if steps != [] {
      assert !steps[0].Overflow?;
      OwnedStep(s, steps[0]);
      OwnedRun(Next(s, steps[0]), steps[1..], t);
    }
  }

  /** Over every interleaving in which ids do not run out, each reserved id is lost or pending
      with exactly one client, each occupied id is a stray or a service of exactly one client, and
      nobody holds anything else. */
  lemma OwnershipHolds(s: System, steps: seq<Step>, t: System, id: Byte)
    requires Start(s) && Run(s, steps, t) && NoOverflow(steps)
    ensures id in t.ids.reserved <==> id in t.lost || exists c :: HasPending(t, c, id)
    ensures id in t.ids.occupied <==> id in t.stray || exists c :: HasLive(t, c, id)
    ensures forall c, d :: HasPending(t, c, id) && HasPending(t, d, id) ==> c == d
    ensures forall c, d :: HasLive(t, c, id) && HasLive(t, d, id) ==> c == d
    ensures !(id in t.lost && exists c :: HasPending(t, c, id))
    ensures !(id in t.stray && exists c :: HasLive(t, c, id))
    ensures !(id in t.ids.reserved && id in t.ids.occupied)
  {
    OwnedRun(s, steps, t);
  }

  /** The reservation that follows 255 ids in use always breaks it: afterwards id 0 is reserved
      and the table is empty. */
  lemma OverflowBreaks(s: System, c: ClientId)
    requires Owned(s) && Enabled(s, Overflow(c))
    ensures !Owned(Next(s, Overflow(c)))
  {
  }

  /** Ids given up by a registration that ended without rollback are never free again. */
  lemma {:induction false} LostForGood(s: System, steps: seq<Step>, t: System, id: Byte)
    requires Owned(s) && Run(s, steps, t) && NoOverflow(steps)
    ensures id in s.lost ==> id in t.lost && id in t.ids.reserved
    ensures id in s.stray ==> id in t.stray && id in t.ids.occupied
    decreases |steps|
  {
    if steps != [] {
      assert !steps[0].Overflow?;
      OwnedStep(s, steps[0]);
      LostForGood(Next(s, steps[0]), steps[1..], t, id);
    }
  }

  /** Some registration ends without rollback. */
  predicate Breaks(a: Step) {
    a.Abandon? || a.Throw?
  }

  /** The two histories only grow, and they become non-empty with the first such registration. */
  lemma {:induction false} HistoryGrows(s: System, steps: seq<Step>, t: System)
    requires Run(s, steps, t)
    ensures s.lost <= t.lost && s.stray <= t.stray
    ensures (s.lost == {} && s.stray == {} && forall i :: 0 <= i < |steps| ==> !Breaks(steps[i])) ==>
      t.lost == {} && t.stray == {}
    ensures (exists i :: 0 <= i < |steps| && Breaks(steps[i])) ==> t.lost != {} || t.stray != {}
    decreases |steps|
  {
    if steps != [] {
      var a, n := steps[0], Next(s, steps[0]);
      HistoryGrows(n, steps[1..], t);
      if a.Abandon? {
        assert s.clients[a.c].phase.pending[0] in n.lost;
      } else if a.Throw? {
        assert s.clients[a.c].phase.half.value in n.stray;
      }
      if i :| 0 < i < |steps| && Breaks(steps[i]) {
        assert Breaks(steps[1..][i - 1]);
      }
      if forall i :: 0 <= i < |steps| ==> !Breaks(steps[i]) {
        assert !Breaks(a);
      }
    }
  }

  /** As long as ids do not run out: every id is reserved only while a client has it pending and
      occupied only while it is a service of a client, if and only if every ACK could be sent and
      every unit fitted. */
  lemma NothingLostExactly(s: System, steps: seq<Step>, t: System)
    requires Start(s) && Run(s, steps, t) && NoOverflow(steps)
    ensures (forall i :: 0 <= i < |steps| ==> !Breaks(steps[i])) <==>
      forall id: Byte ::
        && (id in t.ids.reserved <==> exists c :: HasPending(t, c, id))
        && (id in t.ids.occupied <==> exists c :: HasLive(t, c, id))
  {
    HistoryGrows(s, steps, t);
    forall id: Byte
      ensures (id in t.ids.reserved <==> id in t.lost || exists c :: HasPending(t, c, id))
      ensures (id in t.ids.occupied <==> id in t.stray || exists c :: HasLive(t, c, id))
      ensures !(id in t.lost && exists c :: HasPending(t, c, id))
      ensures !(id in t.stray && exists c :: HasLive(t, c, id))
    {
      OwnershipHolds(s, steps, t, id);
    }
  }

  // ----- ids can run out

  function Numbers(n: Byte): (r: seq<Byte>)
    ensures |r| == n && forall i :: 0 <= i < n ==> r[i] == i + 1
  {
    seq(n, i requires 0 <= i < n => (i + 1) as Byte)
  }

  function NumberSet(n: Byte): set<Byte> {
    set id | id in Numbers(n)
  }

  lemma NumbersHold(n: Byte, id: Byte)
    ensures id in Numbers(n) <==> 1 <= id <= n
  {
    if 1 <= id <= n {
      assert Numbers(n)[id - 1] == id;
    }
  }

  /** Client c has been given the ids 1 to n, and nobody anything else. */
  function Took(s: System, c: ClientId, n: Byte): System {
    Put(s, c, Collecting(Numbers(n)), {}).(ids := Ids(map[], NumberSet(n), n))
  }

  lemma {:induction false} RunThen(s: System, steps: seq<Step>, t: System, a: Step)
    requires Run(s, steps, t) && Enabled(t, a)
    ensures Run(s, steps + [a], Next(t, a))
    decreases |steps|
  {
    if steps == [] {
      assert Run(Next(t, a), [], Next(t, a));
      assert [a][1..] == [] && steps + [a] == [a];
    } else {
      assert (steps + [a])[1..] == steps[1..] + [a];
      RunThen(Next(s, steps[0]), steps[1..], t, a);
    }
  }

  lemma TookNothingFree(s: System, c: ClientId, n: Byte)
    ensures Free(Took(s, c, n).ids) == {}
  {
    forall id: Byte | 1 <= id <= n ensures id in Took(s, c, n).ids.reserved {
      NumbersHold(n, id);
    }
  }

  lemma TakeNext(s: System, c: ClientId, n: Byte)
    requires Start(s) && c in s.clients && n < 255
    ensures Enabled(Took(s, c, n), Take(c, n + 1))
    ensures Next(Took(s, c, n), Take(c, n + 1)) == Took(s, c, n + 1)
  {
    TookNothingFree(s, c, n);
    assert Numbers(n) + [(n + 1) as Byte] == Numbers(n + 1);
    assert NumberSet(n) + {n + 1} == NumberSet(n + 1);
  }

  lemma {:induction false} TakeMany(s: System, c: ClientId, n: Byte) returns (steps: seq<Step>)
    requires Start(s) && c in s.clients
    ensures Run(s, steps, Took(s, c, n)) && NoOverflow(steps)
    decreases n
  {
    if n == 0 {
      assert Run(s, [], s);
      RunThen(s, [], s, BeginRegister(c));
      steps := [] + [BeginRegister(c)];
      assert Numbers(n) == [] && NumberSet(n) == {};
      assert Next(s, BeginRegister(c)) == Took(s, c, n);
    } else {
      var before := TakeMany(s, c, n - 1);
      TakeNext(s, c, n - 1);
      RunThen(s, before, Took(s, c, n - 1), Take(c, n));
      steps := before + [Take(c, n)];
    }
  }

  /** From every start a single client can use up all ids, and its next description breaks
      ownership. */
  lemma OverflowIsReachable(s: System, c: ClientId)
    requires Start(s) && c in s.clients
    ensures exists steps, t ::
      Run(s, steps, t) && NoOverflow(steps) && Full(t.ids) && Enabled(t, Overflow(c)) && !Owned(Next(t, Overflow(c)))
  {
    var steps := TakeMany(s, c, 255);
    var t := Took(s, c, 255);
    TookNothingFree(s, c, 255);
    OwnedRun(s, steps, t);
    OverflowBreaks(t, c);
  }
}
