/** Client::registerServices and Client::unregisterServices. */
module Registration {
  import opened Wrappers
  import opened Services
  import opened ServiceIds
  import opened ServiceTable
  import opened ServerMirror
  import opened Server
  import opened Packets
  import opened Connections

  datatype Outcome =
    | Registered  // returns true
    | Refused     // returns false after the rollback
    | Abandoned   // an ACK could not be sent: returns false at once
    | Exhausted   // no id was left: the table has wrapped
    | Undefined   // a null service is dereferenced
    | Thrown      // Q_DESC throws out of addService

  predicate IsDesc(p: Option<Packet<Float>>) {
    p.Some? && p.value.DESC?
  }

  /** How the dialogue ends, from the packets, the results of the ACKs and the number of ids
      that are left. */
  function Verdict(trace: seq<Option<Packet<Float>>>, results: seq<int>, room: nat, begun: bool): (end: Outcome)
    ensures !end.Undefined? && !end.Thrown?
    decreases |trace|
  {
    if IsDesc(First(trace)) then
      if room == 0 then Exhausted
      else if FirstResult(results) <= 0 then Abandoned
      else Verdict(Rest(trace), Rest(results), room - 1, true)
    else if begun && First(trace) == Some(EOT) then Registered
    else Refused
  }

  lemma VerdictNow(trace: seq<Option<Packet<Float>>>, results: seq<int>, room: nat, begun: bool)
    ensures IsDesc(First(trace)) && room == 0 ==> Verdict(trace, results, room, begun) == Exhausted
    ensures !IsDesc(First(trace)) ==>
      Verdict(trace, results, room, begun) == if begun && First(trace) == Some(EOT) then Registered else Refused
  {
  }

  /** The number of descriptions the device sends before anything else. */
  function Descriptions(trace: seq<Option<Packet<Float>>>): nat {
    if IsDesc(First(trace)) then 1 + Descriptions(Rest(trace)) else 0
  }

  /** The first n sends succeed. */
  predicate Acked(results: seq<int>, n: nat) {
    n <= |results| && forall i :: 0 <= i < n ==> results[i] > 0
  }

  lemma {:induction false} DescriptionsPrefix(trace: seq<Option<Packet<Float>>>)
    ensures Descriptions(trace) <= |trace|
    ensures forall i :: 0 <= i < Descriptions(trace) ==> IsDesc(trace[i])
    ensures !IsDesc(First(trace[Descriptions(trace)..]))
    decreases |trace|
  {
    if IsDesc(First(trace)) {
      DescriptionsPrefix(Rest(trace));
      var n := Descriptions(Rest(trace));
      assert Rest(trace)[n..] == trace[n + 1..];
      assert forall i :: 1 <= i < n + 1 ==> trace[i] == Rest(trace)[i - 1];
    } else {
      assert trace[0..] == trace;
    }
  }

  /** The dialogue ends in a registration exactly for one or more descriptions, each with an id
      and a successful ACK, followed by EOT. */
  lemma {:induction false} RegisteredExactly(trace: seq<Option<Packet<Float>>>, results: seq<int>, room: nat, begun: bool)
    ensures Descriptions(trace) <= |trace|
    ensures Verdict(trace, results, room, begun) == Registered <==>
      var n := Descriptions(trace);
      (begun || n > 0) && n <= room && Acked(results, n) && First(trace[n..]) == Some(EOT)
    decreases |trace|
  {
    DescriptionsPrefix(trace);
    if IsDesc(First(trace)) {
      if room > 0 {
        RegisteredExactly(Rest(trace), Rest(results), room - 1, true);
        var n := Descriptions(Rest(trace));
        assert Rest(trace)[n..] == trace[n + 1..];
        if results != [] {
          assert Acked(results, n + 1) <==> results[0] > 0 && Acked(Rest(results), n) by {
            assert forall i :: 0 <= i < n && n <= |results| - 1 ==> Rest(results)[i] == results[i + 1];
            if results[0] > 0 && Acked(Rest(results), n) {
              assert forall i :: 1 <= i < n + 1 ==> results[i] == Rest(results)[i - 1];
            }
          }
        }
      }
    } else {
      assert trace[0..] == trace;
    }
  }

  /** The dialogue runs to its end exactly when the ids suffice and every ACK is sent. */
  lemma {:induction false} CompletesExactly(trace: seq<Option<Packet<Float>>>, results: seq<int>, room: nat, begun: bool)
    ensures var v := Verdict(trace, results, room, begun);
      v == Registered || v == Refused <==> Descriptions(trace) <= room && Acked(results, Descriptions(trace))
    decreases |trace|
  {
    if IsDesc(First(trace)) && room > 0 {
      CompletesExactly(Rest(trace), Rest(results), room - 1, true);
      var n := Descriptions(Rest(trace));
      if results != [] {
        assert Acked(results, n + 1) <==> results[0] > 0 && Acked(Rest(results), n) by {
          assert forall i :: 0 <= i < n && n <= |results| - 1 ==> Rest(results)[i] == results[i + 1];
          if results[0] > 0 && Acked(Rest(results), n) {
            assert forall i :: 1 <= i < n + 1 ==> results[i] == Rest(results)[i - 1];
          }
        }
      }
    }
  }

  /** registerServices is all or nothing (true with everything committed, or false with
      everything given back) exactly when the ids suffice, every ACK can be sent, every class
      is known and, if the dialogue gets to EOT, every unit fits into Q_DESC. */
  lemma AllOrNothingExactly(trace: seq<Option<Packet<Float>>>, results: seq<int>, room: nat, outcome: Outcome)
    requires Ends(trace, results, room, outcome)
    ensures Descriptions(trace) <= |trace|
    ensures outcome == Registered || outcome == Refused <==>
      var n := Descriptions(trace);
      && n <= room && Acked(results, n) && KindsKnown(trace, n)
      && (n > 0 && First(trace[n..]) == Some(EOT) ==> UnitsFit(trace, n))
  {
    RegisteredExactly(trace, results, room, false);
    CompletesExactly(trace, results, room, false);
  }

  /** The ids left in a table. */
  function Room(t: Ids<Service>): int {
    255 - InUse(t)
  }

  lemma RoomExactly(t: Ids<Service>)
    requires IdsValid(t)
    ensures 0 <= Room(t)
    ensures Full(t) <==> Room(t) == 0
  {
    Partition(t);
  }

  lemma RoomShrinks(t: Ids<Service>, id: Byte)
    requires IdsValid(t) && MayReserve(t, id)
    ensures IdsValid(Reserved(t, id)) && Room(Reserved(t, id)) == Room(t) - 1
  {
  }

  function Describe(id: Byte, p: Packet<Float>): Option<Service>
    requires p.DESC?
  {
    ServiceFactory(id, p.kind, p.name, p.unit, p.min, p.max)
  }

  /** The vector `services` after the ids have been given to the descriptions in order. */
  ghost predicate Describes(services: seq<Option<Service>>, ids: seq<Byte>, trace: seq<Option<Packet<Float>>>) {
    && |services| == |ids| <= |trace|
    && forall i :: 0 <= i < |ids| ==> IsDesc(trace[i]) && services[i] == Describe(ids[i], trace[i].value)
  }

  function IdSet(ids: seq<Byte>): set<Byte> {
    set id | id in ids
  }

  /** The services by id. */
  function ById(services: seq<Service>): map<Byte, Service> {
    if services == [] then map[]
    else ById(services[..|services| - 1])[services[|services| - 1].id := services[|services| - 1]]
  }

  function Announcements(services: seq<Service>): seq<Message> {
    seq(|services|, i requires 0 <= i < |services| => QDesc(services[i]))
  }

  function Inputs(m: map<Byte, Service>): map<Byte, Service> {
    map id | id in m && m[id].IsInput() :: m[id]
  }

  function Outputs(m: map<Byte, Service>): map<Byte, Service> {
    map id | id in m && m[id].IsOutput() :: m[id]
  }

  /** Every pointer is valid and every description fits its message. */
  predicate AllWell(services: seq<Option<Service>>) {
    forall i :: 0 <= i < |services| ==> services[i].Some? && Describable(services[i].value)
  }

  predicate NoNull(services: seq<Option<Service>>) {
    forall i :: 0 <= i < |services| ==> services[i].Some?
  }

  function Values(services: seq<Option<Service>>): (r: seq<Service>)
    requires NoNull(services)
    ensures |r| == |services| && forall i :: 0 <= i < |r| ==> r[i] == services[i].value
  {
    seq(|services|, i requires 0 <= i < |services| => services[i].value)
  }

  /** services[i] is null or carries the id ids[i]; the ids are distinct. */
  ghost predicate Carries(services: seq<Option<Service>>, ids: seq<Byte>) {
    && |services| == |ids| && Distinct(ids)
    && forall i :: 0 <= i < |ids| && services[i].Some? ==>
         services[i].value.id == ids[i] && (services[i].value.IsInput() != services[i].value.IsOutput())
  }

  lemma {:induction false} NotById(services: seq<Service>, id: Byte)
    requires forall i :: 0 <= i < |services| ==> services[i].id != id
    ensures id !in ById(services)
  {
    if services != [] {
      NotById(services[..|services| - 1], id);
    }
  }

  lemma ByIdAppend(services: seq<Service>, s: Service)
    ensures ById(services + [s]) == ById(services)[s.id := s]
    ensures Announcements(services + [s]) == Announcements(services) + [QDesc(s)]
  {
  }

  /** What is left of a set of ids after the first k have been dealt with. */
  function Later(ids: seq<Byte>, k: nat): set<Byte>
    requires k <= |ids|
  {
    IdSet(ids[k..])
  }

  /** The server after the services in `done`, the first |done| of those under `ids`, have been
      added one by one. */
  function Committed(before: State, ids: seq<Byte>, done: seq<Service>): State
    requires |done| <= |ids|
  {
    State(before.ids.(reserved := before.ids.reserved - IdSet(ids) + Later(ids, |done|),
                      occupied := before.ids.occupied + ById(done)),
          before.sent + Announcements(done))
  }

  lemma CommitStart(before: State, ids: seq<Byte>, ins: map<Byte, Service>, outs: map<Byte, Service>)
    requires IdSet(ids) <= before.ids.reserved
    ensures Committed(before, ids, []) == before
    ensures Inputs(ById([])) + ins == ins && Outputs(ById([])) + outs == outs
  {
  }

  lemma CommitStep(before: State, ids: seq<Byte>, done: seq<Service>, s: Service)
    requires Distinct(ids) && |done| < |ids| && s.id == ids[|done|] && Describable(s)
    requires IdSet(ids) <= before.ids.reserved
    ensures AddedService(Committed(before, ids, done), s.id, s) == Committed(before, ids, done + [s])
    ensures s.id in Committed(before, ids, done).ids.reserved
  {
  }

  /** std::map::insert does not overwrite. */
  function Insert(m: map<Byte, Service>, s: Service, wanted: bool): map<Byte, Service> {
    if wanted && s.id !in m then m[s.id := s] else m
  }

  lemma PartsStep(m: map<Byte, Service>, s: Service)
    requires s.id !in m
    ensures Inputs(m[s.id := s]) == if s.IsInput() then Inputs(m)[s.id := s] else Inputs(m)
    ensures Outputs(m[s.id := s]) == if s.IsOutput() then Outputs(m)[s.id := s] else Outputs(m)
  {
  }

  lemma InsertOne(kept: map<Byte, Service>, m: map<Byte, Service>, s: Service, wanted: bool)
    requires s.id !in m
    ensures Insert(m + kept, s, wanted) == (if wanted then m[s.id := s] else m) + kept
  {
  }

  lemma InsertStep(inputs: map<Byte, Service>, outputs: map<Byte, Service>, done: seq<Service>, s: Service)
    requires forall i :: 0 <= i < |done| ==> done[i].id != s.id
    requires s.IsInput() != s.IsOutput()
    ensures Insert(Inputs(ById(done)) + inputs, s, s.IsInput()) == Inputs(ById(done + [s])) + inputs
    ensures Insert(Outputs(ById(done)) + outputs, s, s.IsOutput()) == Outputs(ById(done + [s])) + outputs
  {
    NotById(done, s.id);
    PartsStep(ById(done), s);
    InsertOne(inputs, Inputs(ById(done)), s, s.IsInput());
    InsertOne(outputs, Outputs(ById(done)), s, s.IsOutput());
    ByIdAppend(done, s);
  }

  /** `done` holds the first services, all of them well. */
  ghost predicate CommittedFirst(services: seq<Option<Service>>, done: seq<Service>) {
    |done| <= |services| && forall i :: 0 <= i < |done| ==> services[i] == Some(done[i]) && Describable(done[i])
  }

  lemma CommittedEvery(services: seq<Option<Service>>, done: seq<Service>)
    requires CommittedFirst(services, done) && |done| == |services|
    ensures AllWell(services) && NoNull(services) && done == Values(services)
  {
  }

  /** How the loop over the vector ends, and at which entry if it does not get through. */
  ghost predicate CommitEnds(services: seq<Option<Service>>, outcome: Outcome, at: nat) {
    match outcome
    case Registered => AllWell(services)
    case Undefined => at < |services| && WellBelow(services, at) && services[at].None?
    case Thrown => at < |services| && WellBelow(services, at) && services[at].Some? && !Describable(services[at].value)
    case _ => false
  }

  ghost predicate WellBelow(services: seq<Option<Service>>, k: nat) {
    k <= |services| && forall i :: 0 <= i < k ==> services[i].Some? && Describable(services[i].value)
  }

  /** The last of these services is in the table but neither announced nor in a map. */
  function HalfCommitted(before: State, ids: seq<Byte>, done: seq<Service>): State
    requires 0 < |done| <= |ids|
  {
    State(Committed(before, ids, done).ids, before.sent + Announcements(done[..|done| - 1]))
  }

  lemma HalfStep(before: State, ids: seq<Byte>, done: seq<Service>, s: Service)
    requires Distinct(ids) && |done| < |ids| && s.id == ids[|done|] && !Describable(s)
    requires IdSet(ids) <= before.ids.reserved
    ensures AddedService(Committed(before, ids, done), s.id, s) == HalfCommitted(before, ids, done + [s])
  {
  }

  /** The ids of services[..k]. */
  lemma CarriedIds(services: seq<Option<Service>>, ids: seq<Byte>, done: seq<Service>, k: nat)
    requires Carries(services, ids) && k < |ids| && |done| == k && services[k].Some?
    requires CommittedFirst(services, done)
    ensures forall i :: 0 <= i < k ==> done[i].id != services[k].value.id
  {
  }

  /** Every one of the first n descriptions has a known class. */
  predicate KindsKnown(trace: seq<Option<Packet<Float>>>, n: nat) {
    n <= |trace| && forall i :: 0 <= i < n ==> IsDesc(trace[i]) && trace[i].value.kind <= 3
  }

  /** Every one of their units fits into Q_DESC. */
  predicate UnitsFit(trace: seq<Option<Packet<Float>>>, n: nat) {
    n <= |trace| && forall i :: 0 <= i < n ==> IsDesc(trace[i]) && |trace[i].value.unit| <= 3
  }

  /** Description k is the first that cannot be committed: its class is unknown, or its unit does
      not fit. */
  ghost predicate NullAt(trace: seq<Option<Packet<Float>>>, n: nat, k: nat) {
    k < n && KindsKnown(trace, k) && UnitsFit(trace, k) && !KindsKnown(trace, k + 1)
  }

  ghost predicate LongAt(trace: seq<Option<Packet<Float>>>, n: nat, k: nat) {
    k < n && KindsKnown(trace, k + 1) && UnitsFit(trace, k) && !UnitsFit(trace, k + 1)
  }

  /** How the call ends: as the dialogue does, unless a null service is dereferenced on the way
      through the vector or Q_DESC throws. */
  ghost predicate Ends(trace: seq<Option<Packet<Float>>>, results: seq<int>, room: nat, outcome: Outcome) {
    var n := Descriptions(trace);
    match Verdict(trace, results, room, false)
    case Registered =>
      || (outcome == Registered && KindsKnown(trace, n) && UnitsFit(trace, n))
      || (outcome == Undefined && exists k :: NullAt(trace, n, k))
      || (outcome == Thrown && exists k :: LongAt(trace, n, k))
    case Refused => outcome == if KindsKnown(trace, n) then Refused else Undefined
    case Exhausted => outcome == if KindsKnown(trace, room) then Exhausted else Undefined
    case _ => outcome == Abandoned
  }

  /** The ids were neither reserved nor occupied. */
  ghost predicate FreshIds(t: Ids<Service>, ids: seq<Byte>) {
    && Distinct(ids)
    && forall id :: id in ids ==> id != 0 && id !in t.reserved && id !in t.occupied
  }

  /** Only the reservation of the ids tells the states apart. */
  ghost predicate Taken(before: State, after: State, ids: seq<Byte>) {
    && after.ids.reserved == before.ids.reserved + IdSet(ids)
    && after.ids.occupied == before.ids.occupied && after.sent == before.sent
  }

  lemma TakenStep(before: State, view: State, after: State, ids: seq<Byte>, id: Byte)
    requires IdsValid(view.ids) && Taken(before, view, ids) && FreshIds(before.ids, ids)
    requires MayReserve(view.ids, id) && after.ids == Reserved(view.ids, id) && after.sent == view.sent
    ensures Taken(before, after, ids + [id]) && FreshIds(before.ids, ids + [id]) && id !in ids
  {
  }

  /** The services that the descriptions announce under the ids. */
  function Described(ids: seq<Byte>, trace: seq<Option<Packet<Float>>>): seq<Service>
    requires KindsKnown(trace, |ids|)
  {
    seq(|ids|, i requires 0 <= i < |ids| =>
      var p := trace[i].value; Service(ids[i], p.kind, p.name, p.unit, p.min, p.max))
  }

  function Acks(ids: seq<Byte>): seq<Packet<Float>> {
    seq(|ids|, i requires 0 <= i < |ids| => ACK(ids[i]))
  }

  lemma AcksAppend(sent: seq<Packet<Float>>, ids: seq<Byte>, id: Byte)
    ensures sent + Acks(ids) + [ACK(id)] == sent + Acks(ids + [id])
  {
  }

  lemma {:induction false} DescriptionsEnd(trace: seq<Option<Packet<Float>>>, k: nat)
    requires k <= |trace| && !IsDesc(First(trace[k..]))
    requires forall i :: 0 <= i < k ==> IsDesc(trace[i])
    ensures Descriptions(trace) == k
  {
    if k == 0 {
      assert trace[0..] == trace;
    } else {
      assert Rest(trace)[k - 1..] == trace[k..];
      DescriptionsEnd(Rest(trace), k - 1);
    }
  }

  /** Where the dialogue stands: the ids taken so far, the vector filled with them, and what is
      still to come. */
  ghost predicate Collected(before: State, view: State, trace: seq<Option<Packet<Float>>>,
                            services: seq<Option<Service>>, ids: seq<Byte>) {
    && IdsValid(view.ids) && Taken(before, view, ids) && FreshIds(before.ids, ids)
    && Carries(services, ids) && Describes(services, ids, trace)
    && 0 <= Room(view.ids) == Room(before.ids) - |ids|
  }

  ghost predicate Ahead(before: State, view: State, trace: seq<Option<Packet<Float>>>, results: seq<int>,
                        ids: seq<Byte>, rest: seq<Option<Packet<Float>>>, more: seq<int>) {
    && |ids| <= |trace| && rest == trace[|ids|..] && 0 <= Room(before.ids) && 0 <= Room(view.ids)
    && Verdict(trace, results, Room(before.ids), false) == Verdict(rest, more, Room(view.ids), ids != [])
  }

  lemma CollectedStep(before: State, view: State, after: State, trace: seq<Option<Packet<Float>>>,
                      services: seq<Option<Service>>, ids: seq<Byte>, id: Byte)
    requires Collected(before, view, trace, services, ids)
    requires |ids| < |trace| && IsDesc(trace[|ids|]) && MayReserve(view.ids, id)
    requires after.ids == Reserved(view.ids, id) && after.sent == view.sent
    ensures Collected(before, after, trace, services + [Describe(id, trace[|ids|].value)], ids + [id])
  {
    RoomShrinks(view.ids, id);
    RoomExactly(after.ids);
    TakenStep(before, view, after, ids, id);
    VectorStep(services, ids, trace, id);
  }

  lemma VectorStep(services: seq<Option<Service>>, ids: seq<Byte>, trace: seq<Option<Packet<Float>>>, id: Byte)
    requires Carries(services, ids) && Describes(services, ids, trace) && id !in ids
    requires |ids| < |trace| && IsDesc(trace[|ids|])
    ensures Carries(services + [Describe(id, trace[|ids|].value)], ids + [id])
    ensures Describes(services + [Describe(id, trace[|ids|].value)], ids + [id], trace)
  {
  }

  lemma AheadStep(before: State, view: State, after: State, trace: seq<Option<Packet<Float>>>, results: seq<int>,
                  ids: seq<Byte>, rest: seq<Option<Packet<Float>>>, more: seq<int>, id: Byte)
    requires Ahead(before, view, trace, results, ids, rest, more)
    requires IsDesc(First(rest)) && Room(view.ids) > 0 && Room(after.ids) == Room(view.ids) - 1
    ensures FirstResult(more) > 0 ==> Ahead(before, after, trace, results, ids + [id], Rest(rest), Rest(more))
    ensures FirstResult(more) <= 0 ==> Verdict(trace, results, Room(before.ids), false) == Abandoned
  {
  }

  /** The call ends as the dialogue and the walk over the vector do. */
  lemma EndsAs(trace: seq<Option<Packet<Float>>>, results: seq<int>, room: nat,
               services: seq<Option<Service>>, ids: seq<Byte>, outcome: Outcome, at: nat)
    requires Describes(services, ids, trace)
    requires match Verdict(trace, results, room, false)
      case Registered => |ids| == Descriptions(trace) && CommitEnds(services, outcome, at)
      case Refused => |ids| == Descriptions(trace) && outcome == if NoNull(services) then Refused else Undefined
      case Exhausted => |ids| == room && outcome == if NoNull(services) then Exhausted else Undefined
      case _ => outcome == Abandoned
    ensures Ends(trace, results, room, outcome)
  {
    DescribedServices(services, ids, trace);
    if Verdict(trace, results, room, false) == Registered && outcome != Registered {
      StopsAt(services, ids, trace, outcome, at);
    }
  }

  lemma StopsAt(services: seq<Option<Service>>, ids: seq<Byte>, trace: seq<Option<Packet<Float>>>, outcome: Outcome, at: nat)
    requires Describes(services, ids, trace) && CommitEnds(services, outcome, at) && outcome != Registered
    ensures if outcome == Undefined then NullAt(trace, |ids|, at) else LongAt(trace, |ids|, at)
  {
  }

  lemma DescribesEnd(services: seq<Option<Service>>, ids: seq<Byte>, trace: seq<Option<Packet<Float>>>)
    requires Describes(services, ids, trace) && !IsDesc(First(trace[|ids|..]))
    ensures Descriptions(trace) == |ids|
  {
    DescriptionsEnd(trace, |ids|);
  }

  /** The vector has no null exactly when the classes are known, and then holds the described
      services. */
  lemma DescribedServices(services: seq<Option<Service>>, ids: seq<Byte>, trace: seq<Option<Packet<Float>>>)
    requires Describes(services, ids, trace)
    ensures NoNull(services) <==> KindsKnown(trace, |ids|)
    ensures AllWell(services) <==> KindsKnown(trace, |ids|) && UnitsFit(trace, |ids|)
    ensures NoNull(services) ==> Values(services) == Described(ids, trace)
  {
  }

  /** Reserving ids and then committing them leaves the other reservations alone. */
  lemma CommittedIds(before: State, view: State, ids: seq<Byte>, services: seq<Option<Service>>)
    requires Taken(before, view, ids) && FreshIds(before.ids, ids) && |services| == |ids|
    ensures IdSet(ids) <= view.ids.reserved
    ensures NoNull(services) ==> Committed(view, ids, Values(services)).ids.reserved == before.ids.reserved
  {
  }

  lemma {:induction false} ByIdWithin(services: seq<Service>, ids: set<Byte>)
    requires forall i :: 0 <= i < |services| ==> services[i].id in ids
    ensures ById(services).Keys <= ids
  {
    if services != [] {
      ByIdWithin(services[..|services| - 1], ids);
    }
  }

  /** What a successful registration leaves behind. */
  ghost predicate RegisteredAs(before: State, after: State, trace: seq<Option<Packet<Float>>>, ids: seq<Byte>) {
    && IdsValid(after.ids) && ids != [] && |ids| == Descriptions(trace) && KindsKnown(trace, |ids|)
    && after.ids.reserved == before.ids.reserved
    && after.ids.occupied == before.ids.occupied + ById(Described(ids, trace))
    && after.sent == before.sent + Announcements(Described(ids, trace))
  }

  /** What an exception out of Q_DESC leaves behind: the services before the long unit are
      registered, its own is in the table only, and the ids of the others stay reserved. */
  ghost predicate BrokenAs(before: State, after: State, trace: seq<Option<Packet<Float>>>, ids: seq<Byte>, k: nat) {
    && |ids| == Descriptions(trace) && LongAt(trace, |ids|, k)
    && after.ids.reserved == before.ids.reserved + Later(ids, k + 1)
    && after.ids.occupied == before.ids.occupied + ById(Described(ids[..k + 1], trace))
    && after.sent == before.sent + Announcements(Described(ids[..k], trace))
  }

  /** Nothing but the reservation of some ids tells the states apart. */
  ghost predicate OnlyReserved(before: State, after: State, ids: set<Byte>) {
    && IdsValid(after.ids)
    && after.ids.reserved == before.ids.reserved + ids
    && after.ids.occupied == before.ids.occupied && after.sent == before.sent
  }

  lemma CommittedAs(before: State, view: State, after: State, trace: seq<Option<Packet<Float>>>,
                    services: seq<Option<Service>>, ids: seq<Byte>)
    requires Collected(before, view, trace, services, ids) && |ids| == Descriptions(trace) && ids != []
    requires AllWell(services) && after == Committed(view, ids, Values(services))
    ensures RegisteredAs(before, after, trace, ids)
  {
    DescribedServices(services, ids, trace);
    CommittedIds(before, view, ids, services);
    ByIdWithin(Values(services), IdSet(ids));
  }

  lemma ThrownAs(before: State, view: State, after: State, trace: seq<Option<Packet<Float>>>,
                 services: seq<Option<Service>>, ids: seq<Byte>, done: seq<Service>)
    requires Taken(before, view, ids) && FreshIds(before.ids, ids)
    requires Describes(services, ids, trace) && |ids| == Descriptions(trace)
    requires CommitEnds(services, Thrown, |done|) && CommittedFirst(services, done)
    requires after == HalfCommitted(view, ids, done + [services[|done|].value])
    ensures BrokenAs(before, after, trace, ids, |done|)
    ensures done == Described(ids[..|done|], trace)
  {
    var k, s := |done|, services[|done|].value;
    StopsAt(services, ids, trace, Thrown, k);
    HalfOfTaken(before, view, ids, done, s);
    DescribedUpTo(services, ids, trace, done, s);
  }

  lemma DescribedUpTo(services: seq<Option<Service>>, ids: seq<Byte>, trace: seq<Option<Packet<Float>>>,
                      done: seq<Service>, s: Service)
    requires Describes(services, ids, trace) && CommittedFirst(services, done)
    requires |done| < |services| && services[|done|] == Some(s) && KindsKnown(trace, |done| + 1)
    ensures |done| < |ids| && done == Described(ids[..|done|], trace)
    ensures done + [s] == Described(ids[..|done| + 1], trace)
  {
  }

  lemma HalfOfTaken(before: State, view: State, ids: seq<Byte>, done: seq<Service>, s: Service)
    requires Taken(before, view, ids) && FreshIds(before.ids, ids) && |done| < |ids|
    ensures var half := HalfCommitted(view, ids, done + [s]);
      && half.ids.reserved == before.ids.reserved + Later(ids, |done| + 1)
      && half.ids.occupied == before.ids.occupied + ById(done + [s])
      && half.sent == before.sent + Announcements(done)
  {
  }

  lemma {:induction false} ReplayAnnouncements(sent: seq<Message>, services: seq<Service>)
    ensures Replay(sent + Announcements(services)) == Replay(sent) + ById(services)
  {
    if services == [] {
      assert sent + Announcements(services) == sent;
    } else {
      var most, last := services[..|services| - 1], services[|services| - 1];
      ReplayAnnouncements(sent, most);
      assert sent + Announcements(services) == (sent + Announcements(most)) + [QDesc(last)];
      ReplayAppend(sent + Announcements(most), QDesc(last));
    }
  }

  lemma {:induction false} ByIdAt(services: seq<Service>, i: nat)
    requires i < |services| && forall j, k :: 0 <= j < k < |services| ==> services[j].id != services[k].id
    ensures services[i].id in ById(services) && ById(services)[services[i].id] == services[i]
  {
    var most := services[..|services| - 1];
    if i < |most| {
      ByIdAt(most, i);
    }
  }

  /** Field by field: the i-th id taken is occupied by what the i-th description says, announced as
      such, and in `inputs` for the classes 0 and 2 and in `outputs` for 1 and 3. */
  lemma RegisteredFields(before: State, after: State, trace: seq<Option<Packet<Float>>>, ids: seq<Byte>, i: nat)
    requires RegisteredAs(before, after, trace, ids) && Distinct(ids) && i < |ids|
    ensures trace[i].Some? && trace[i].value.DESC? && ids[i] in after.ids.occupied
    ensures var s, d := after.ids.occupied[ids[i]], trace[i].value;
      && s.id == ids[i] && s.kind == d.kind && s.name == d.name && s.unit == d.unit && s.min == d.min && s.max == d.max
      && |after.sent| == |before.sent| + |ids| && after.sent[|before.sent| + i] == QDesc(s)
      && (ids[i] in Inputs(ById(Described(ids, trace))) <==> d.kind == 0 || d.kind == 2)
      && (ids[i] in Outputs(ById(Described(ids, trace))) <==> d.kind == 1 || d.kind == 3)
  {
    ByIdAt(Described(ids, trace), i);
    assert Described(ids, trace)[i].id == ids[i];
  }

  /** A successful registration keeps the second process in agreement with the table. */
  lemma RegistrationKeepsMirror(before: State, after: State, trace: seq<Option<Packet<Float>>>, ids: seq<Byte>)
    requires Mirrored(before) && RegisteredAs(before, after, trace, ids)
    ensures Mirrored(after)
  {
    ReplayAnnouncements(before.sent, Described(ids, trace));
  }

  /** The exception leaves a service in the table that the second process does not know. */
  lemma ExceptionBreaksMirror(before: State, after: State, trace: seq<Option<Packet<Float>>>, ids: seq<Byte>, k: nat)
    requires Mirrored(before) && FreshIds(before.ids, ids) && BrokenAs(before, after, trace, ids, k)
    ensures ids[k] in after.ids.occupied && ids[k] !in Replay(after.sent)
    ensures !Mirrored(after)
  {
    var first, all := Described(ids[..k], trace), Described(ids[..k + 1], trace);
    assert ids[k] in ids && ids[k] !in before.ids.occupied;
    ReplayAnnouncements(before.sent, first);
    LastOfDescribed(ids, trace, k);
    assert ids[k] in ById(all);
  }

  lemma LastOfDescribed(ids: seq<Byte>, trace: seq<Option<Packet<Float>>>, k: nat)
    requires Distinct(ids) && k < |ids| && KindsKnown(trace, k + 1)
    ensures ids[k] !in ById(Described(ids[..k], trace)) && ids[k] in ById(Described(ids[..k + 1], trace))
  {
    var first, all := Described(ids[..k], trace), Described(ids[..k + 1], trace);
    NotById(first, ids[k]);
    assert all == first + [all[k]];
    ByIdAppend(first, all[k]);
  }

  lemma RolledBack(before: State, view: State, after: State, trace: seq<Option<Packet<Float>>>,
                   services: seq<Option<Service>>, ids: seq<Byte>)
    requires Collected(before, view, trace, services, ids) && after.sent == view.sent
    requires after.ids == view.ids.(reserved := view.ids.reserved - IdSet(ids))
    ensures OnlyReserved(before, after, {})
  {
  }

  /** The key of a service is its id. */
  predicate KeyedById(m: map<Byte, Service>) {
    forall id :: id in m ==> m[id].id == id
  }

  /** Registration keeps it so. */
  lemma {:induction false} RegisteredKeyedById(services: seq<Service>, kept: map<Byte, Service>)
    requires KeyedById(kept)
    ensures KeyedById(ById(services))
    ensures KeyedById(Inputs(ById(services)) + kept) && KeyedById(Outputs(ById(services)) + kept)
  {
    if services != [] {
      RegisteredKeyedById(services[..|services| - 1], kept);
    }
  }

  lemma OthersKeepMirrorIf(t: State, op: ServerMirror.Op)
    requires !op.AddService? && ServerMirror.Allowed(t, op)
    ensures Mirrored(t) ==> Mirrored(Next(t, op))
  {
  }

  class Client {
    var inputs: map<Byte, Service>
    var outputs: map<Byte, Service>
    var used: bool  // an exchange has succeeded since the registry was last walked

    predicate Valid()
      reads this
    {
      KeyedById(inputs) && KeyedById(outputs)
    }

    /** The ids of its services. */
    function Keys(): set<Byte>
      reads this
    {
      inputs.Keys + outputs.Keys
    }

    /** The source leaves `used` uninitialised: any value. */
    constructor (someUsed: bool)
      ensures inputs == map[] && outputs == map[] && used == someUsed
    {
      inputs, outputs, used := map[], map[], someUsed;
    }

    method GetUsed() returns (r: bool)
      ensures r == used
    {
      r := used;
    }

    method SetUnused()
      modifies this`used
      ensures !used
    {
      used := false;
    }

    /** The services in `done` are committed. */
    ghost predicate SoFar(server: Server, before: State, ids: seq<Byte>, done: seq<Service>,
                          ins: map<Byte, Service>, outs: map<Byte, Service>)
      reads this, server, server.table
    {
      && server.Valid() && |done| <= |ids| && server.View() == Committed(before, ids, done)
      && inputs == Inputs(ById(done)) + ins && outputs == Outputs(ById(done)) + outs
    }

    /** One turn of the loop over `services`; false stands for the exception of Q_DESC. */
    method CommitOne(server: Server, s: Service, ghost before: State, ghost ids: seq<Byte>, ghost done: seq<Service>,
                     ghost ins: map<Byte, Service>, ghost outs: map<Byte, Service>) returns (ok: bool)
      requires Distinct(ids) && |done| < |ids| && s.id == ids[|done|] && IdSet(ids) <= before.ids.reserved
      requires forall i :: 0 <= i < |done| ==> done[i].id != s.id
      requires SoFar(server, before, ids, done, ins, outs) && (s.IsInput() != s.IsOutput())
      modifies `inputs, `outputs, server, server.table
      ensures ok <==> Describable(s)
      ensures ok ==> SoFar(server, before, ids, done + [s], ins, outs)
      ensures !ok ==> server.Valid() && server.View() == HalfCommitted(before, ids, done + [s])
      ensures !ok ==> inputs == old(inputs) && outputs == old(outputs)
    {
      InsertStep(ins, outs, done, s);
      var result := server.AddService(s.id, s);
      if result.None? {
        HalfStep(before, ids, done, s);
        return false;
      }
      CommitStep(before, ids, done, s);
      inputs := Insert(inputs, s, s.IsInput());
      outputs := Insert(outputs, s, s.IsOutput());
      return true;
    }

    /** The loop over `services` after EOT. */
    method Commit(server: Server, services: seq<Option<Service>>, ghost ids: seq<Byte>)
      returns (outcome: Outcome, ghost done: seq<Service>)
      requires server.Valid() && Carries(services, ids)
      requires IdSet(ids) <= server.View().ids.reserved
      modifies `inputs, `outputs, server, server.table
      ensures CommitEnds(services, outcome, |done|) && CommittedFirst(services, done) && server.Valid()
      ensures outcome == Registered ==>
        |done| == |services| && server.View() == Committed(old(server.View()), ids, done)
      ensures outcome == Thrown ==>
        server.View() == HalfCommitted(old(server.View()), ids, done + [services[|done|].value])
      ensures inputs == Inputs(ById(done)) + old(inputs) && outputs == Outputs(ById(done)) + old(outputs)
    {
      ghost var before := server.View();
      done := [];
      CommitStart(before, ids, inputs, outputs);
      var i := 0;
      while i < |services|
        invariant i == |done| <= |services| && CommittedFirst(services, done)
        invariant SoFar(server, before, ids, done, old(inputs), old(outputs))
      {
        if services[i].None? {
          return Undefined, done;
        }
        var s := services[i].value;
        CarriedIds(services, ids, done, i);
        var ok := CommitOne(server, s, before, ids, done, old(inputs), old(outputs));
        if !ok {
          return Thrown, done;
        }
        done := done + [s];
        i := i + 1;
      }
      return Registered, done;
    }

    /** The loop after NAK. */
    method Rollback(server: Server, services: seq<Option<Service>>, ghost ids: seq<Byte>) returns (outcome: Outcome)
      requires Carries(services, ids)
      modifies server.table
      ensures outcome == if NoNull(services) then Refused else Undefined
      ensures outcome == Refused && old(server.Valid()) ==>
        && server.Valid() && server.sent == old(server.sent)
        && var before, after := old(server.View()).ids, server.View().ids;
           after == before.(reserved := before.reserved - IdSet(ids))
      ensures forall id :: id in old(server.table.reserved) && id !in ids ==> id in server.table.reserved
    {
      ghost var before := if server.Valid() then server.View() else START;
      assert ids[0..] == ids;
      var i := 0;
      while i < |services|
        invariant i <= |services| && NoNull(services[..i])
        invariant old(server.Valid()) ==>
          && server.Valid()
          && server.View() == before.(ids := before.ids.(reserved := before.ids.reserved - IdSet(ids[..i])))
        invariant forall id :: id in old(server.table.reserved) && id !in ids ==> id in server.table.reserved
      {
        if services[i].None? {
          return Undefined;
        }
        assert ids[i] in ids;
        assert ids[..i + 1] == ids[..i] + [ids[i]];
        var ok := server.UnreserveId(services[i].value.id);
        i := i + 1;
      }
      assert ids[..i] == ids;
      return Refused;
    }

    /** One turn of the loop: an id for the description, its service, and the ACK. */
    method Admit(conn: Connection<Float>, server: Server, p: Packet<Float>)
      returns (id: Byte, service: Option<Service>, result: int)
      requires server.Valid() && IdsValid(server.View().ids) && p.DESC?
      modifies conn`sent, conn`results, server, server.table
      ensures id == 0 <==> old(Full(server.View().ids))
      ensures id == 0 ==>
        && !server.Valid() && 0 in server.table.reserved && server.sent == old(server.sent)
        && conn.sent == old(conn.sent) && conn.results == old(conn.results)
      ensures id != 0 ==>
        && server.Valid() && old(MayReserve(server.View().ids, id))
        && server.View() == Next(old(server.View()), ServerMirror.ReserveId(id))
        && service == Describe(id, p)
        && conn.sent == old(conn.sent) + [ACK(id)]
        && result == FirstResult(old(conn.results)) && conn.results == Rest(old(conn.results))
    {
      service, result := None, 0;
      ghost var ids := server.View().ids;
      id := server.ReserveId();
      if id > 0 {
        service := ServiceFactory(id, p.kind, p.name, p.unit, p.min, p.max);
        result := conn.Send(ACK(id));
      }
      if server.Valid() {
        ReservedIsNew(ids, id);
      }
    }

    /** The loop that reads descriptions, takes an id for each and acknowledges it. */
    method Dialogue(conn: Connection<Float>, server: Server)
      returns (end: Outcome, services: seq<Option<Service>>, ghost ids: seq<Byte>)
      requires server.Valid() && IdsValid(server.View().ids)
      modifies conn, server, server.table
      ensures 0 <= Room(old(server.View()).ids)
      ensures end == Verdict(old(conn.incoming), old(conn.results), Room(old(server.View()).ids), false)
      ensures Carries(services, ids) && Describes(services, ids, old(conn.incoming))
      ensures FreshIds(old(server.View()).ids, ids)
      ensures end != Exhausted ==>
        server.Valid() && Collected(old(server.View()), server.View(), old(conn.incoming), services, ids)
      ensures end == Exhausted ==>
        && !server.Valid() && 0 in server.table.reserved
        && |ids| == Room(old(server.View()).ids) && server.sent == old(server.sent)
      ensures end == Registered || end == Refused ==> |ids| == Descriptions(old(conn.incoming))
      ensures end == Registered || end == Abandoned ==> ids != []
      ensures conn.sent == old(conn.sent) + Acks(ids)
    {
      ghost var trace, results, before := conn.incoming, conn.results, server.View();
      RoomExactly(before.ids);
      ids, services := [], [];
      ghost var rest, view := trace, before;
      assert trace[0..] == trace;
      assert Ahead(before, before, trace, results, ids, trace, results);
      var packet := conn.NextPacket();
      while packet.Some? && packet.value.DESC?
        invariant server.Valid() && server.View() == view
        invariant Collected(before, view, trace, services, ids)
        invariant Ahead(before, view, trace, results, ids, rest, conn.results)
        invariant packet == First(rest) && conn.incoming == Rest(rest)
        invariant ids != [] ==> packet != Some(EOT)
        invariant conn.sent == old(conn.sent) + Acks(ids)
        decreases |rest|
      {
        RoomExactly(view.ids);
        VerdictNow(rest, conn.results, Room(view.ids), ids != []);
        ghost var more := conn.results;
        var id, service, result := Admit(conn, server, packet.value);
        if id == 0 {
          return Exhausted, services, ids;
        }
        CollectedStep(before, view, server.View(), trace, services, ids, id);
        AheadStep(before, view, server.View(), trace, results, ids, rest, more, id);
        AcksAppend(old(conn.sent), ids, id);
        services, ids, view := services + [service], ids + [id], server.View();
        if result <= 0 {
          return Abandoned, services, ids;
        }
        rest := Rest(rest);
        packet := conn.NextPacket();
        if packet == Some(EOT) {
          DescribesEnd(services, ids, trace);
          VerdictNow(rest, conn.results, Room(view.ids), true);
          return Registered, services, ids;
        }
      }
      DescribesEnd(services, ids, trace);
      VerdictNow(rest, conn.results, Room(view.ids), ids != []);
      return Refused, services, ids;
    }

    /** The branch of EOT. */
    method Accept(server: Server, services: seq<Option<Service>>, ghost ids: seq<Byte>, ghost before: State,
                  ghost trace: seq<Option<Packet<Float>>>) returns (outcome: Outcome, ghost at: nat)
      requires server.Valid() && Collected(before, server.View(), trace, services, ids)
      requires |ids| == Descriptions(trace) && ids != []
      modifies `inputs, `outputs, server, server.table
      ensures CommitEnds(services, outcome, at) && server.Valid()
      ensures outcome == Registered ==>
        && RegisteredAs(before, server.View(), trace, ids)
        && inputs == Inputs(ById(Described(ids, trace))) + old(inputs)
        && outputs == Outputs(ById(Described(ids, trace))) + old(outputs)
      ensures outcome == Thrown ==>
        && BrokenAs(before, server.View(), trace, ids, at)
        && inputs == Inputs(ById(Described(ids[..at], trace))) + old(inputs)
        && outputs == Outputs(ById(Described(ids[..at], trace))) + old(outputs)
    {
      ghost var view := server.View();
      ghost var done;
      CommittedIds(before, view, ids, services);
      outcome, done := Commit(server, services, ids);
      at := |done|;
      if outcome == Registered {
        CommittedEvery(services, done);
        DescribedServices(services, ids, trace);
        CommittedAs(before, view, server.View(), trace, services, ids);
      } else if outcome == Thrown {
        ThrownAs(before, view, server.View(), trace, services, ids, done);
      }
    }

    /** How registerServices ends and what it leaves behind, for every packet trace and every
        result of the sends.  `ids` are the ids it took, in order. */
    method RegisterServices(conn: Connection<Float>, server: Server) returns (outcome: Outcome, ghost ids: seq<Byte>)
      requires server.Valid() && IdsValid(server.View().ids)
      modifies `inputs, `outputs, conn, server, server.table
      ensures FreshIds(old(server.View()).ids, ids) && 0 <= Room(old(server.View()).ids)
      ensures Ends(old(conn.incoming), old(conn.results), Room(old(server.View()).ids), outcome)
      ensures outcome == Registered ==>
        && server.Valid() && RegisteredAs(old(server.View()), server.View(), old(conn.incoming), ids)
        && inputs == Inputs(ById(Described(ids, old(conn.incoming)))) + old(inputs)
        && outputs == Outputs(ById(Described(ids, old(conn.incoming)))) + old(outputs)
        && conn.sent == old(conn.sent) + Acks(ids)
      ensures outcome == Refused ==>
        && server.Valid() && OnlyReserved(old(server.View()), server.View(), {})
        && conn.sent == old(conn.sent) + Acks(ids) + [NAK(0)]
      ensures outcome == Abandoned ==>
        && ids != [] && server.Valid() && OnlyReserved(old(server.View()), server.View(), IdSet(ids))
        && conn.sent == old(conn.sent) + Acks(ids)
      ensures outcome == Exhausted ==> !server.Valid()
      ensures outcome == Thrown ==> exists k ::
        && 0 <= k && server.Valid() && BrokenAs(old(server.View()), server.View(), old(conn.incoming), ids, k)
        && inputs == Inputs(ById(Described(ids[..k], old(conn.incoming)))) + old(inputs)
        && outputs == Outputs(ById(Described(ids[..k], old(conn.incoming)))) + old(outputs)
      ensures outcome == Refused || outcome == Abandoned || outcome == Exhausted ==>
        inputs == old(inputs) && outputs == old(outputs)
    {
      ghost var trace, results, before := conn.incoming, conn.results, server.View();
      var end, services;
      ghost var at: nat := 0;
      end, services, ids := Dialogue(conn, server);
      if end == Registered {
        outcome, at := Accept(server, services, ids, before, trace);
      } else if end == Abandoned {
        outcome := Abandoned;
      } else {
        outcome := Reject(conn, server, services, end == Exhausted, ids, before, trace);
      }
      EndsAs(trace, results, Room(before.ids), services, ids, outcome, at);
    }

    /** NAK and the rollback; on a table that has wrapped nothing can be given back. */
    method Reject(conn: Connection<Float>, server: Server, services: seq<Option<Service>>, exhausted: bool,
                  ghost ids: seq<Byte>, ghost before: State, ghost trace: seq<Option<Packet<Float>>>)
      returns (outcome: Outcome)
      requires Carries(services, ids) && 0 !in ids && (exhausted <==> !server.Valid())
      requires if server.Valid() then Collected(before, server.View(), trace, services, ids)
               else 0 in server.table.reserved
      modifies conn`sent, conn`results, server.table
      ensures outcome == if !NoNull(services) then Undefined else if exhausted then Exhausted else Refused
      ensures outcome == Refused ==> server.Valid() && OnlyReserved(before, server.View(), {})
      ensures outcome == Exhausted ==> !server.Valid()
      ensures conn.sent == old(conn.sent) + [NAK(0)]
    {
      ghost var view := if exhausted then before else server.View();
      var result := conn.Send(NAK(0));
      outcome := Rollback(server, services, ids);
      if exhausted {
        ZeroReserved(server.table.services, server.table.free, server.table.reserved);
        outcome := if outcome == Refused then Exhausted else outcome;
      } else if outcome == Refused {
        RolledBack(before, view, server.View(), trace, services, ids);
      }
    }

    /** Client::unregisterServices, visiting every entry once in the order of the maps. */
    method UnregisterServices(server: Server)
      requires server.Valid() && Valid()
      modifies `inputs, `outputs, server, server.table
      ensures inputs == map[] && outputs == map[] && server.Valid()
      ensures server.View().ids == old(server.View()).ids.(
        occupied := old(server.View()).ids.occupied - old(Keys()))
      ensures old(Mirrored(server.View())) ==> Mirrored(server.View())
    {
      MinusBoth(server.View().ids.occupied, inputs.Keys, outputs.Keys);
      UnregisterEach(server, inputs);
      inputs := map[];
      UnregisterEach(server, outputs);
      outputs := map[];
    }
  }

  lemma MinusBoth(m: map<Byte, Service>, a: set<Byte>, b: set<Byte>)
    ensures m - a - b == m - (a + b)
  {
  }

  method UnregisterEach(server: Server, services: map<Byte, Service>)
    requires server.Valid() && KeyedById(services)
    modifies server, server.table
    ensures server.Valid()
    ensures server.View().ids == old(server.View()).ids.(
      occupied := old(server.View()).ids.occupied - services.Keys)
    ensures old(Mirrored(server.View())) ==> Mirrored(server.View())
  {
    ghost var before := server.View();
    ghost var gone: set<Byte> := {};
    assert before.ids.occupied - gone == before.ids.occupied;
    for k := 0 to 256
      invariant server.Valid()
      invariant forall id: Byte :: id in gone <==> id in services && id < k
      invariant server.View().ids == before.ids.(occupied := before.ids.occupied - gone)
      invariant Mirrored(before) ==> Mirrored(server.View())
    {
      if k in services {
        OthersKeepMirrorIf(server.View(), UnregisterService(services[k].id));
        var ok := server.UnregisterService(services[k].id);
        assert before.ids.occupied - gone - {k as Byte} == before.ids.occupied - (gone + {k as Byte});
        gone := gone + {k};
      }
    }
    assert gone == services.Keys;
  }
}
