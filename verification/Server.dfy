/** The part of Server.cpp that owns the service table and mirrors it to the second process.

    Each operation changes the table and then sends a message.  The second process replays the
    messages; the question is whether it ends up with the table. */
module ServerMirror {
  import opened Wrappers
  import opened Services
  import opened ServiceIds

  datatype Message = QDesc(service: Service) | QExit(id: Byte)

  /** What the second process does with one message. */
  function Deliver(mirror: map<Byte, Service>, m: Message): map<Byte, Service> {
    match m
    case QDesc(s) => mirror[s.id := s]
    case QExit(id) => mirror - {id}
  }

  /** What it knows after all of them. */
  function Replay(sent: seq<Message>): map<Byte, Service> {
    if sent == [] then map[] else Deliver(Replay(sent[..|sent| - 1]), sent[|sent| - 1])
  }

  lemma ReplayAppend(sent: seq<Message>, m: Message)
    ensures Replay(sent + [m]) == Deliver(Replay(sent), m)
  {
  }

  datatype State = State(ids: Ids<Service>, sent: seq<Message>)

  const START: State := State(Empty(), [])

  datatype Op =
    | ReserveId(id: Byte)
    | UnreserveId(id: Byte)
    | AddService(id: Byte, service: Service)
    | UnregisterService(id: Byte)

  /** The constructor of Q_DESC throws for longer units. */
  predicate Describable(s: Service) {
    |s.unit| <= 3
  }

  /** addService announces the service whatever the table said, unless Q_DESC throws. */
  function AddedService(t: State, id: Byte, s: Service): State {
    State(Pushed(t.ids, id, s), if Describable(s) then t.sent + [QDesc(s)] else t.sent)
  }

  function UnregisteredService(t: State, id: Byte): State {
    State(Removed(t.ids, id), t.sent + [QExit(id)])
  }

  function Next(t: State, op: Op): State {
    match op
    case ReserveId(id) => t.(ids := Reserved(t.ids, id))
    case UnreserveId(id) => t.(ids := Unreserved(t.ids, id))
    case AddService(id, s) => AddedService(t, id, s)
    case UnregisterService(id) => UnregisteredService(t, id)
  }

  ghost predicate Mirrored(t: State) {
    Replay(t.sent) == t.ids.occupied
  }

  /** When an addService keeps the two processes in agreement. */
  predicate Announces(t: State, id: Byte, s: Service) {
    if id in t.ids.reserved then s.id == id && Describable(s)
    else !Describable(s) || (s.id in t.ids.occupied && t.ids.occupied[s.id] == s)
  }

  lemma AddKeepsMirrorExactly(t: State, id: Byte, s: Service)
    requires IdsValid(t.ids) && Mirrored(t)
    ensures Mirrored(AddedService(t, id, s)) <==> Announces(t, id, s)
  {
    ReplayAppend(t.sent, QDesc(s));
    var u := AddedService(t, id, s);
    if id in t.ids.reserved {
      assert id !in t.ids.occupied && u.ids.occupied[id] == s;
      assert Describable(s) && s.id != id ==> id !in Replay(u.sent);
    }
  }

  predicate Allowed(t: State, op: Op) {
    match op
    case ReserveId(id) => MayReserve(t.ids, id)
    case AddService(id, s) => id in t.ids.reserved && s.id == id && Describable(s)
    case _ => true
  }

  lemma OthersKeepMirror(t: State, op: Op)
    requires Mirrored(t) && !op.AddService? && Allowed(t, op)
    ensures Mirrored(Next(t, op))
  {
  }

  /** reserveId with all 255 ids in use: the table is emptied and id 0 reserved, and nothing is
      sent. */
  function Overflowed(t: State): State {
    t.(ids := Ids(map[], t.ids.reserved + {0}, 0))
  }

  /** The two processes agree after that only if there was nothing to agree on. */
  lemma OverflowKeepsMirrorExactly(t: State)
    requires Mirrored(t)
    ensures Mirrored(Overflowed(t)) <==> t.ids.occupied == map[]
  {
  }

  predicate AllAllowed(t: State, ops: seq<Op>)
    decreases |ops|
  {
    ops == [] || (Allowed(t, ops[0]) && AllAllowed(Next(t, ops[0]), ops[1..]))
  }

  function After(t: State, ops: seq<Op>): State
    decreases |ops|
  {
    if ops == [] then t else After(Next(t, ops[0]), ops[1..])
  }

  /** Over every run in which each operation is atomic, services are added under ids reserved
      for them and ids do not run out, replaying the messages rebuilds the table. */
  lemma {:induction false} MirrorAgrees(t: State, ops: seq<Op>)
    requires IdsValid(t.ids) && Mirrored(t) && AllAllowed(t, ops)
    ensures IdsValid(After(t, ops).ids) && Mirrored(After(t, ops))
    decreases |ops|
  {
    if ops != [] {
      var op := ops[0];
      if op.AddService? {
        AddKeepsMirrorExactly(t, op.id, op.service);
      } else {
        OthersKeepMirror(t, op);
      }
      MirrorAgrees(Next(t, op), ops[1..]);
    }
  }
}

module Server {
  import opened Wrappers
  import opened Services
  import opened ServiceIds
  import opened ServiceTable
  import opened ServerMirror

  class Server {
    const table: Table<Service>
    var sent: seq<Message>

    ghost predicate Valid()
      reads this, table
    {
      table.Valid()
    }

    ghost function View(): State
      reads this, table
      requires Valid()
    {
      State(table.Contents(), sent)
    }

    constructor ()
      ensures Valid() && fresh(table) && View() == START && Mirrored(View())
    {
      table := new Table();
      sent := [];
    }

    method ReserveId() returns (id: Byte)
      requires Valid()
      modifies this, table
      ensures old(Full(View().ids)) <==> !Valid()
      ensures Valid() ==> old(MayReserve(View().ids, id)) && View() == Next(old(View()), ServerMirror.ReserveId(id))
      ensures !Valid() ==> id == 0 && 0 in table.reserved
      ensures !Valid() ==> Occupants(table.services) == Overflowed(old(View())).ids.occupied
      ensures sent == old(sent)
      ensures !Valid() && old(Mirrored(View())) ==>
        (Replay(sent) == Occupants(table.services) <==> old(View()).ids.occupied == map[])
    {
      id := table.Reserve();
    }

    method UnreserveId(id: Byte) returns (ok: bool)
      modifies table
      ensures ok <==> id in old(table.reserved)
      ensures old(Valid()) ==> Valid() && View() == Next(old(View()), ServerMirror.UnreserveId(id))
      ensures forall i :: i in old(table.reserved) && i != id ==> i in table.reserved
    {
      ok := table.Unreserve(id);
    }

    /** None stands for the exception of the Q_DESC constructor, thrown after the table has
        been changed. */
    method AddService(id: Byte, service: Service) returns (result: Option<bool>)
      requires Valid()
      modifies this, table
      ensures Valid() && View() == AddedService(old(View()), id, service)
      ensures result.None? <==> !Describable(service)
      ensures result.Some? ==> (result.value <==> id in old(View()).ids.reserved)
    {
      var pushed := table.Push(service, id);
      if |service.unit| > 3 {
        return None;
      }
      sent := sent + [QDesc(service)];
      return Some(pushed);
    }

    method UnregisterService(id: Byte) returns (ok: bool)
      requires Valid()
      modifies this, table
      ensures Valid() && View() == UnregisteredService(old(View()), id)
      ensures ok <==> id in old(View()).ids.occupied
    {
      ok := table.Remove(id);
      sent := sent + [QExit(id)];
    }
  }
}

/** The same operations without a common lock: the table changes first, the message follows
    later, and other threads may run in between. */
module MirrorInterleaving {
  import opened Wrappers
  import opened Services
  import opened ServiceIds
  import opened ServerMirror

  type Thread = nat

  /** `pending` holds, for each thread inside addService or unregisterService, the message it
      has still to send. */
  datatype Split = Split(ids: Ids<Service>, sent: seq<Message>, pending: map<Thread, Message>)

  datatype Step =
    | TakeId(id: Byte)
    | GiveBackId(id: Byte)
    | BeginAdd(t: Thread, id: Byte, service: Service)
    | BeginUnregister(t: Thread, id: Byte)
    | Send(t: Thread)

  function About(m: Message): Byte {
    match m
    case QDesc(s) => s.id
    case QExit(id) => id
  }

  ghost predicate Pending(s: Split, id: Byte) {
    exists t :: t in s.pending && About(s.pending[t]) == id
  }

  ghost predicate Enabled(s: Split, a: Step) {
    match a
    case TakeId(id) => MayReserve(s.ids, id)
    case GiveBackId(id) => true
    case BeginAdd(t, id, service) => t !in s.pending && id in s.ids.reserved && service.id == id && Describable(service)
    case BeginUnregister(t, id) => t !in s.pending
    case Send(t) => t in s.pending
  }

  /** The id is not given to somebody else while a message about it is still to be sent. */
  ghost predicate Quiet(s: Split, a: Step) {
    match a
    case BeginAdd(t, id, service) => !Pending(s, id)
    case BeginUnregister(t, id) => !Pending(s, id)
    case _ => true
  }

  function NextSplit(s: Split, a: Step): Split
    requires a.Send? ==> a.t in s.pending
  {
    match a
    case TakeId(id) => s.(ids := Reserved(s.ids, id))
    case GiveBackId(id) => s.(ids := Unreserved(s.ids, id))
    case BeginAdd(t, id, service) =>
      s.(ids := Pushed(s.ids, id, service), pending := s.pending[t := QDesc(service)])
    case BeginUnregister(t, id) =>
      s.(ids := Removed(s.ids, id), pending := s.pending[t := QExit(id)])
    case Send(t) =>
      s.(sent := s.sent + [s.pending[t]], pending := s.pending - {t})
  }

  /** The message that belongs to the change of the table, if the step makes one. */
  function ChangeOf(a: Step): seq<Message> {
    match a
    case BeginAdd(_, _, service) => [QDesc(service)]
    case BeginUnregister(_, id) => [QExit(id)]
    case _ => []
  }

  /** The same of a run, in the order of the changes. */
  function Changes(acts: seq<Step>): seq<Message> {
    if acts == [] then [] else ChangeOf(acts[0]) + Changes(acts[1..])
  }

  function LastAbout(ms: seq<Message>, id: Byte): Option<Message> {
    if ms == [] then None
    else if About(ms[|ms| - 1]) == id then Some(ms[|ms| - 1])
    else LastAbout(ms[..|ms| - 1], id)
  }

  /** What the last message about an id says: a service or nothing. */
  function Says(ms: seq<Message>, id: Byte): Option<Service> {
    match LastAbout(ms, id)
    case Some(QDesc(s)) => Some(s)
    case _ => None
  }

  ghost predicate QuietRun(s: Split, acts: seq<Step>, t: Split)
    decreases |acts|
  {
    if acts == [] then s == t
    else Enabled(s, acts[0]) && Quiet(s, acts[0]) && QuietRun(NextSplit(s, acts[0]), acts[1..], t)
  }

  ghost predicate FreeRun(s: Split, acts: seq<Step>, t: Split)
    decreases |acts|
  {
    if acts == [] then s == t
    else Enabled(s, acts[0]) && FreeRun(NextSplit(s, acts[0]), acts[1..], t)
  }

  const START_SPLIT: Split := Split(Empty(), [], map[])

  lemma LastAppended(ms: seq<Message>, m: Message, id: Byte)
    ensures LastAbout(ms + [m], id) == if About(m) == id then Some(m) else LastAbout(ms, id)
  {
    assert (ms + [m])[..|ms|] == ms;
  }

  /** The last message about an id decides what the second process holds under it. */
  lemma {:induction false} ReplayIsLast(ms: seq<Message>, id: Byte)
    ensures Says(ms, id) == if id in Replay(ms) then Some(Replay(ms)[id]) else None
  {
    if ms != [] {
      ReplayIsLast(ms[..|ms| - 1], id);
    }
  }

  lemma Join(a: seq<Message>, b: seq<Message>, c: seq<Message>)
    ensures a + (b + c) == a + b + c
  {
  }

  lemma ChangeReplays(s: Split, before: seq<Message>, a: Step)
    requires Enabled(s, a) && Replay(before) == s.ids.occupied
    ensures Replay(before + ChangeOf(a)) == NextSplit(s, a).ids.occupied
  {
    match a
    case BeginAdd(_, _, service) => ReplayAppend(before, QDesc(service));
    case BeginUnregister(_, id) => ReplayAppend(before, QExit(id));
    case _ => assert before + ChangeOf(a) == before;
  }

  /** The changes of the table, replayed in their own order, give the table. */
  lemma {:induction false} TableReplays(s: Split, before: seq<Message>, acts: seq<Step>, t: Split)
    requires FreeRun(s, acts, t) && Replay(before) == s.ids.occupied
    ensures Replay(before + Changes(acts)) == t.ids.occupied
    decreases |acts|
  {
    if acts == [] {
      assert before + Changes(acts) == before;
    } else {
      ChangeReplays(s, before, acts[0]);
      TableReplays(NextSplit(s, acts[0]), before + ChangeOf(acts[0]), acts[1..], t);
      Join(before, ChangeOf(acts[0]), Changes(acts[1..]));
    }
  }

  /** In every run, the second process agrees with the table if and only if, for every id, the last
      message sent about it says the same as the last change of the table under it. */
  lemma MirrorAgreesExactly(acts: seq<Step>, t: Split)
    requires FreeRun(START_SPLIT, acts, t)
    ensures Replay(t.sent) == t.ids.occupied <==> forall id :: Says(t.sent, id) == Says(Changes(acts), id)
  {
    TableReplays(START_SPLIT, [], acts, t);
    assert [] + Changes(acts) == Changes(acts);
    forall id ensures Says(t.sent, id) == if id in Replay(t.sent) then Some(Replay(t.sent)[id]) else None {
      ReplayIsLast(t.sent, id);
    }
    forall id ensures Says(Changes(acts), id) == if id in t.ids.occupied then Some(t.ids.occupied[id]) else None {
      ReplayIsLast(Changes(acts), id);
    }
    if forall id :: Says(t.sent, id) == Says(Changes(acts), id) {
      SameMap(Replay(t.sent), t.ids.occupied);
    }
  }

  lemma SameMap(m: map<Byte, Service>, n: map<Byte, Service>)
    requires forall id: Byte ::
      (if id in m then Some(m[id]) else None) == (if id in n then Some(n[id]) else None)
    ensures m == n
  {
    assert forall id: Byte :: id in m <==> id in n;
  }

  // ----- a condition on the run itself

  /** What is pending are the last changes of their ids, and all others have been announced. */
  ghost predicate InOrder(s: Split, done: seq<Message>) {
    && (forall t, u :: t in s.pending && u in s.pending && t != u ==> About(s.pending[t]) != About(s.pending[u]))
    && (forall t :: t in s.pending ==> LastAbout(done, About(s.pending[t])) == Some(s.pending[t]))
    && (forall id: Byte :: !Pending(s, id) ==> LastAbout(s.sent, id) == LastAbout(done, id))
  }

  lemma BeginInOrder(s: Split, done: seq<Message>, a: Step)
    requires InOrder(s, done) && Enabled(s, a) && Quiet(s, a) && (a.BeginAdd? || a.BeginUnregister?)
    ensures InOrder(NextSplit(s, a), done + ChangeOf(a))
  {
    var n, m := NextSplit(s, a), ChangeOf(a)[0];
    assert About(m) == a.id && n.pending == s.pending[a.t := m];
    forall u | u in s.pending ensures About(s.pending[u]) != a.id {
      assert !Pending(s, a.id);
    }
    forall id: Byte ensures LastAbout(done + [m], id) == if id == a.id then Some(m) else LastAbout(done, id) {
      LastAppended(done, m, id);
    }
    forall id: Byte | !Pending(n, id) ensures LastAbout(n.sent, id) == LastAbout(done + [m], id) {
      assert a.t in n.pending;
      assert forall u :: u in s.pending ==> u in n.pending && n.pending[u] == s.pending[u];
    }
  }

  lemma SendInOrder(s: Split, done: seq<Message>, t: Thread)
    requires InOrder(s, done) && t in s.pending
    ensures InOrder(NextSplit(s, Send(t)), done)
  {
    var n, m := NextSplit(s, Send(t)), s.pending[t];
    forall id: Byte | !Pending(n, id) ensures LastAbout(n.sent, id) == LastAbout(done, id) {
      LastAppended(s.sent, m, id);
      if id != About(m) {
        forall u | u in s.pending && u != t ensures About(s.pending[u]) != id {
          assert u in n.pending && n.pending[u] == s.pending[u];
        }
      }
    }
  }

  lemma QuietStep(s: Split, done: seq<Message>, a: Step)
    requires InOrder(s, done) && Enabled(s, a) && Quiet(s, a)
    ensures InOrder(NextSplit(s, a), done + ChangeOf(a))
  {
    if a.Send? {
      SendInOrder(s, done, a.t);
      assert done + ChangeOf(a) == done;
    } else if a.BeginAdd? || a.BeginUnregister? {
      BeginInOrder(s, done, a);
    } else {
      assert done + ChangeOf(a) == done;
      assert forall id: Byte :: Pending(NextSplit(s, a), id) == Pending(s, id);
    }
  }

  lemma {:induction false} QuietRunInOrder(s: Split, done: seq<Message>, acts: seq<Step>, t: Split)
    requires InOrder(s, done) && QuietRun(s, acts, t)
    ensures FreeRun(s, acts, t) && InOrder(t, done + Changes(acts))
    decreases |acts|
  {
    if acts == [] {
      assert done + Changes(acts) == done;
    } else {
      QuietStep(s, done, acts[0]);
      QuietRunInOrder(NextSplit(s, acts[0]), done + ChangeOf(acts[0]), acts[1..], t);
      Join(done, ChangeOf(acts[0]), Changes(acts[1..]));
    }
  }

  /** So it agrees whenever no message is pending, if no id changes hands while a message about it
      is. */
  lemma MirrorAgreesWhenQuiet(acts: seq<Step>, t: Split)
    requires QuietRun(START_SPLIT, acts, t) && t.pending == map[]
    ensures Replay(t.sent) == t.ids.occupied
  {
    QuietRunInOrder(START_SPLIT, [], acts, t);
    assert [] + Changes(acts) == Changes(acts);
    forall id: Byte ensures Says(t.sent, id) == Says(Changes(acts), id) {
      assert !Pending(t, id);
    }
    MirrorAgreesExactly(acts, t);
  }

  lemma FreeRunCons(s: Split, a: Step, acts: seq<Step>, t: Split)
    requires Enabled(s, a) && FreeRun(NextSplit(s, a), acts, t)
    ensures FreeRun(s, [a] + acts, t)
  {
  }

  /** Otherwise it may not: thread 0 frees id 1, thread 1 registers another service under it
      and announces it, and only then does thread 0 announce that id 1 is gone. */
  lemma LateExitBreaksMirror(old_: Service, new_: Service)
    requires old_.id == 1 && new_.id == 1 && Describable(old_) && Describable(new_)
    ensures exists acts, t :: (
      FreeRun(START_SPLIT, acts, t) && t.pending == map[] && 1 in t.ids.occupied && 1 !in Replay(t.sent))
  {
    var e: Ids<Service> := Empty();
    var s1 := START_SPLIT.(ids := e.(reserved := {1}, top := 1));
    var s2 := Split(e.(occupied := map[1 := old_], top := 1), [], map[0 := QDesc(old_)]);
    var s3 := s2.(sent := [QDesc(old_)], pending := map[]);
    var s4 := Split(e.(top := 1), [QDesc(old_)], map[0 := QExit(1)]);
    var s5 := s4.(ids := e.(reserved := {1}, top := 1));
    var s6 := Split(e.(occupied := map[1 := new_], top := 1), [QDesc(old_)], map[0 := QExit(1), 1 := QDesc(new_)]);
    var s7 := s6.(sent := [QDesc(old_), QDesc(new_)], pending := map[0 := QExit(1)]);
    var s8 := s6.(sent := [QDesc(old_), QDesc(new_), QExit(1)], pending := map[]);
    assert FreeRun(s8, [], s8);
    assert NextSplit(s7, Send(0)) == s8;
    FreeRunCons(s7, Send(0), [], s8);
    assert NextSplit(s6, Send(1)) == s7;
    FreeRunCons(s6, Send(1), [Send(0)], s8);
    assert NextSplit(s5, BeginAdd(1, 1, new_)) == s6;
    FreeRunCons(s5, BeginAdd(1, 1, new_), [Send(1)] + [Send(0)], s8);
    var tail := [BeginAdd(1, 1, new_)] + ([Send(1)] + [Send(0)]);
    assert MayReserve(s4.ids, 1) by {
      assert 1 in Free(s4.ids);
    }
    assert NextSplit(s4, TakeId(1)) == s5;
    FreeRunCons(s4, TakeId(1), tail, s8);
    assert NextSplit(s3, BeginUnregister(0, 1)) == s4;
    FreeRunCons(s3, BeginUnregister(0, 1), [TakeId(1)] + tail, s8);
    tail := [BeginUnregister(0, 1)] + ([TakeId(1)] + tail);
    assert NextSplit(s2, Send(0)) == s3;
    FreeRunCons(s2, Send(0), tail, s8);
    assert NextSplit(s1, BeginAdd(0, 1, old_)) == s2;
    FreeRunCons(s1, BeginAdd(0, 1, old_), [Send(0)] + tail, s8);
    tail := [BeginAdd(0, 1, old_)] + ([Send(0)] + tail);
    assert MayReserve(START_SPLIT.ids, 1);
    assert NextSplit(START_SPLIT, TakeId(1)) == s1;
    FreeRunCons(START_SPLIT, TakeId(1), tail, s8);
    ReplayAppend([QDesc(old_), QDesc(new_)], QExit(1));
    assert s8.sent == [QDesc(old_), QDesc(new_)] + [QExit(1)];
  }
}
