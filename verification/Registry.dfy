/** The address registry of ConHandler.cpp on values: its ageing walk, and what a client goes
    through between walks. */
module Ageing {
  import opened Wrappers
  import opened Services
  import opened ServiceIds

  const ADDRESSES: nat := 0x1_0000_0000

  type Address = a: nat | a < ADDRESSES

  /** `addrs` is the registry, `used` the flag of each client, `keys` the ids in its maps. */
  datatype Roll = Roll(
    addrs: map<nat, Byte>,
    used: map<Byte, bool>,
    keys: map<Byte, set<Byte>>,
    ids: Ids<Service>)

  predicate Known(r: Roll) {
    r.used.Keys == r.keys.Keys && forall a :: a in r.addrs ==> a < ADDRESSES && r.addrs[a] in r.used
  }

  /** Client::unregisterServices. */
  function Unregister(r: Roll, c: Byte): Roll
    requires c in r.keys
  {
    r.(keys := r.keys[c := {}], ids := r.ids.(occupied := r.ids.occupied - r.keys[c]))
  }

  /** One turn of the loop of clockWalk. */
  function Visit(r: Roll, a: nat): Roll
    requires Known(r)
  {
    if a !in r.addrs then r
    else
      var c := r.addrs[a];
      if r.used[c] then r.(used := r.used[c := false])
      else Unregister(r.(addrs := r.addrs - {a}), c)
  }

  ghost predicate SeenBelow(r: Roll, k: nat, c: Byte) {
    exists b :: b in r.addrs && b < k && r.addrs[b] == c
  }

  /** Which addresses a walk keeps. */
  ghost predicate Kept(r: Roll, a: nat)
    requires Known(r)
  {
    a in r.addrs && r.used[r.addrs[a]] && !SeenBelow(r, a, r.addrs[a])
  }

  ghost predicate Dropped(r: Roll, k: nat, c: Byte)
    requires Known(r)
  {
    exists a :: a in r.addrs && a < k && r.addrs[a] == c && !Kept(r, a)
  }

  ghost predicate Freed(r: Roll, k: nat, id: Byte)
    requires Known(r)
  {
    exists c :: c in r.keys && id in r.keys[c] && Dropped(r, k, c)
  }

  ghost function WalkedAddrs(r: Roll, k: nat): map<nat, Byte>
    requires Known(r)
  {
    map a | a in r.addrs && (a < k ==> Kept(r, a)) :: r.addrs[a]
  }

  ghost function WalkedUsed(r: Roll, k: nat): map<Byte, bool> {
    map c | c in r.used :: r.used[c] && !SeenBelow(r, k, c)
  }

  ghost function WalkedKeys(r: Roll, k: nat): map<Byte, set<Byte>>
    requires Known(r)
  {
    map c | c in r.keys :: if Dropped(r, k, c) then {} else r.keys[c]
  }

  ghost function WalkedOccupied(r: Roll, k: nat): map<Byte, Service>
    requires Known(r)
  {
    map id | id in r.ids.occupied && !Freed(r, k, id) :: r.ids.occupied[id]
  }

  /** The registry once every address below k has been visited. */
  ghost function Walked(r: Roll, k: nat): Roll
    requires Known(r)
  {
    Roll(WalkedAddrs(r, k), WalkedUsed(r, k), WalkedKeys(r, k), r.ids.(occupied := WalkedOccupied(r, k)))
  }

  lemma WalkedNothing(r: Roll)
    requires Known(r)
    ensures Walked(r, 0) == r
  {
  }

  lemma WalkStepAddrs(r: Roll, k: nat)
    requires Known(r)
    ensures WalkedAddrs(r, k + 1) ==
      if k in r.addrs && !Kept(r, k) then WalkedAddrs(r, k) - {k} else WalkedAddrs(r, k)
  {
  }

  lemma WalkStepUsed(r: Roll, k: nat)
    requires Known(r)
    ensures WalkedUsed(r, k + 1) ==
      if k in r.addrs && Kept(r, k) then WalkedUsed(r, k)[r.addrs[k] := false] else WalkedUsed(r, k)
  {
  }

  lemma WalkStepKeys(r: Roll, k: nat)
    requires Known(r)
    ensures WalkedKeys(r, k + 1) ==
      if k in r.addrs && !Kept(r, k) then WalkedKeys(r, k)[r.addrs[k] := {}] else WalkedKeys(r, k)
  {
  }

  lemma WalkStepOccupied(r: Roll, k: nat)
    requires Known(r)
    ensures WalkedOccupied(r, k + 1) ==
      if k in r.addrs && !Kept(r, k) then WalkedOccupied(r, k) - WalkedKeys(r, k)[r.addrs[k]]
      else WalkedOccupied(r, k)
  {
  }

  /** Visiting the addresses in rising order keeps exactly the smallest address of each client
      that was used. */
  lemma WalkStep(r: Roll, k: nat)
    requires Known(r)
    ensures Known(Walked(r, k)) && Visit(Walked(r, k), k) == Walked(r, k + 1)
  {
    WalkStepAddrs(r, k);
    WalkStepUsed(r, k);
    WalkStepKeys(r, k);
    WalkStepOccupied(r, k);
  }

  // ----- runs

  datatype Event =
    | Exchanged(c: Byte)                                               // an exchange succeeded
    | Registered(a: Address, c: Byte, services: map<Byte, Service>)    // from address a
    | Forgotten(a: Address)                                            // the device sent ID in place of values
    | Unregistered(c: Byte)                                            // unregisterClient
    | Walk

  ghost predicate HasAddress(r: Roll, c: Byte) {
    exists a :: a in r.addrs && r.addrs[a] == c
  }

  ghost function Happen(r: Roll, e: Event): Roll
    requires Known(r)
  {
    match e
    case Exchanged(c) => if c in r.used then r.(used := r.used[c := true]) else r
    case Registered(a, c, services) =>
      if c !in r.used then r
      else Roll(r.addrs[a := c], r.used[c := true], r.keys[c := r.keys[c] + services.Keys],
                r.ids.(occupied := r.ids.occupied + services))
    case Forgotten(a) => r.(addrs := r.addrs - {a})
    case Unregistered(c) =>
      if HasAddress(r, c)
      then Unregister(r.(addrs := map a | a in r.addrs && (r.addrs[a] == c ==> SeenBelow(r, a, c)) :: r.addrs[a]), c)
      else r
    case Walk => Walked(r, ADDRESSES)
  }

  lemma FirstErased(r: Roll, a: nat, c: Byte)
    requires Known(r) && a in r.addrs && r.addrs[a] == c && !SeenBelow(r, a, c)
    ensures Happen(r, Unregistered(c)) == Unregister(r.(addrs := r.addrs - {a}), c)
  {
  }

  lemma HappenKnown(r: Roll, e: Event)
    requires Known(r)
    ensures Known(Happen(r, e))
  {
  }

  ghost function After(r: Roll, es: seq<Event>): (n: Roll)
    requires Known(r)
    ensures Known(n)
    decreases |es|
  {
    if es == [] then r else HappenKnown(r, es[0]); After(Happen(r, es[0]), es[1..])
  }

  /** A client known under one address only. */
  ghost predicate Present(r: Roll, a: nat, c: Byte) {
    && a in r.addrs && r.addrs[a] == c && c in r.used
    && forall b :: b in r.addrs && r.addrs[b] == c ==> b == a
  }

  ghost predicate Absent(r: Roll, c: Byte) {
    !HasAddress(r, c) && c in r.keys && r.keys[c] == {}
  }

  /** The event is neither a registration, removal or unregistration of the client nor one of
      another client under its address. */
  predicate Undisturbed(e: Event, a: nat, c: Byte) {
    match e
    case Exchanged(_) => true
    case Registered(b, d, _) => b != a && d != c
    case Forgotten(b) => b != a
    case Unregistered(d) => d != c
    case Walk => true
  }

  /** Every walk finds the flag set. */
  predicate Active(es: seq<Event>, c: Byte, used: bool)
    decreases |es|
  {
    if es == [] then true
    else match es[0]
      case Walk => used && Active(es[1..], c, false)
      case Exchanged(d) => Active(es[1..], c, used || d == c)
      case _ => Active(es[1..], c, used)
  }

  ghost predicate OneAddress(r: Roll, c: Byte) {
    forall a, b :: a in r.addrs && b in r.addrs && r.addrs[a] == c && r.addrs[b] == c ==> a == b
  }

  lemma DroppedExactly(r: Roll, c: Byte)
    requires Known(r) && HasAddress(r, c)
    ensures Dropped(r, ADDRESSES, c) <==> !r.used[c] || !OneAddress(r, c)
  {
    var a :| a in r.addrs && r.addrs[a] == c;
    assert !r.used[c] ==> !Kept(r, a);
    if x, y :| x in r.addrs && y in r.addrs && r.addrs[x] == c && r.addrs[y] == c && x < y {
      assert SeenBelow(r, y, c) && !Kept(r, y);
    }
  }

  /** A walk leaves a registered client its services if and only if it has none, or it was used and
      has one address only; otherwise it takes them all, and their ids leave the table. */
  lemma KeepsServicesExactly(r: Roll, c: Byte)
    requires Known(r) && c in r.keys && HasAddress(r, c)
    ensures var n := Walked(r, ADDRESSES);
      && (n.keys[c] == r.keys[c] <==> r.keys[c] == {} || (r.used[c] && OneAddress(r, c)))
      && (!r.used[c] || !OneAddress(r, c) ==> n.keys[c] == {} && n.ids.occupied.Keys !! r.keys[c])
  {
    DroppedExactly(r, c);
    if !r.used[c] || !OneAddress(r, c) {
      forall id | id in r.keys[c] ensures Freed(r, ADDRESSES, id) {
      }
    }
  }

  lemma WalkPresent(r: Roll, a: nat, c: Byte)
    requires Known(r) && Present(r, a, c)
    ensures var n := Walked(r, ADDRESSES);
      if r.used[c] then Present(n, a, c) && !n.used[c] && n.keys[c] == r.keys[c]
      else Absent(n, c) && n.ids.occupied.Keys !! r.keys[c]
  {
    KeepsServicesExactly(r, c);
    assert SeenBelow(r, ADDRESSES, c) && !SeenBelow(r, a, c);
    assert Kept(r, a) <==> r.used[c];
  }

  lemma OtherPresent(r: Roll, e: Event, a: nat, c: Byte)
    requires Known(r) && Present(r, a, c) && Undisturbed(e, a, c) && e != Walk
    ensures var n := Happen(r, e);
      && Present(n, a, c) && n.keys[c] == r.keys[c]
      && (n.used[c] <==> r.used[c] || e == Exchanged(c))
  {
  }

  lemma StaysAbsent(r: Roll, e: Event, a: nat, c: Byte)
    requires Known(r) && Absent(r, c) && Undisturbed(e, a, c)
    ensures Absent(Happen(r, e), c)
  {
  }

  /** The walk at position k of the run removes the client and frees its ids. */
  ghost predicate FreedAt(r: Roll, es: seq<Event>, c: Byte, ids: set<Byte>, k: nat)
    requires Known(r)
  {
    && k < |es| && es[k] == Walk && Absent(After(r, es[..k + 1]), c)
    && After(r, es[..k + 1]).ids.occupied.Keys !! ids
  }

  lemma FreedLater(r: Roll, es: seq<Event>, c: Byte, ids: set<Byte>, k: nat)
    requires Known(r) && es != [] && FreedAt(Happen(r, es[0]), es[1..], c, ids, k)
    ensures FreedAt(r, es, c, ids, k + 1)
  {
    assert es[..k + 2][1..] == es[1..][..k + 1];
  }

  /** A registered client with one address stays registered, with all its ids, exactly as long
      as every walk finds that an exchange has succeeded since the walk before; otherwise it ends
      without address and services, and one of the walks has taken its ids out of the table. */
  lemma {:induction false} StaysExactly(r: Roll, es: seq<Event>, a: nat, c: Byte)
    requires Known(r) && Present(r, a, c)
    requires forall i :: 0 <= i < |es| ==> Undisturbed(es[i], a, c)
    ensures Active(es, c, r.used[c]) ==> Present(After(r, es), a, c) && After(r, es).keys[c] == r.keys[c]
    ensures !Active(es, c, r.used[c]) ==>
      Absent(After(r, es), c) && exists k :: FreedAt(r, es, c, r.keys[c], k)
    decreases |es|
  {
    if es != [] {
      var n := Happen(r, es[0]);
      if es[0] == Walk && !r.used[c] {
        WalkPresent(r, a, c);
        StaysGone(n, es[1..], a, c);
        assert es[..1][1..] == [] && After(r, es[..1]) == n;
        assert FreedAt(r, es, c, r.keys[c], 0);
      } else {
        StepPresent(r, es[0], a, c);
        StaysExactly(n, es[1..], a, c);
        if !Active(es, c, r.used[c]) {
          var k :| FreedAt(n, es[1..], c, n.keys[c], k);
          FreedLater(r, es, c, r.keys[c], k);
        }
      }
    }
  }

  lemma StepPresent(r: Roll, e: Event, a: nat, c: Byte)
    requires Known(r) && Present(r, a, c) && Undisturbed(e, a, c) && (e == Walk ==> r.used[c])
    ensures var n := Happen(r, e);
      && Present(n, a, c) && n.keys[c] == r.keys[c]
      && (n.used[c] <==> e != Walk && (r.used[c] || e == Exchanged(c)))
  {
    if e == Walk {
      WalkPresent(r, a, c);
    } else {
      OtherPresent(r, e, a, c);
    }
  }

  lemma {:induction false} StaysGone(r: Roll, es: seq<Event>, a: nat, c: Byte)
    requires Known(r) && Absent(r, c)
    requires forall i :: 0 <= i < |es| ==> Undisturbed(es[i], a, c)
    ensures Absent(After(r, es), c)
    decreases |es|
  {
    if es != [] {
      StaysAbsent(r, es[0], a, c);
      StaysGone(Happen(r, es[0]), es[1..], a, c);
    }
  }

  lemma {:induction false} InactiveAfterWalk(es: seq<Event>, c: Byte)
    requires Exchanged(c) !in es && Walk in es
    ensures !Active(es, c, false)
  {
    if es[0] != Walk {
      InactiveAfterWalk(es[1..], c);
    }
  }

  /** No exchange between two walks: the second one at the latest removes the client, and if it was
      still used at the first one and no walk comes in between, it is the second one that takes its
      ids out of the table. */
  lemma TwoTicks(r: Roll, between: seq<Event>, a: nat, c: Byte)
    requires Known(r) && Present(r, a, c) && Exchanged(c) !in between
    requires forall i :: 0 <= i < |between| ==> Undisturbed(between[i], a, c)
    ensures var n := After(r, [Walk] + between + [Walk]);
      Absent(n, c) && (r.used[c] && Walk !in between ==> n.ids.occupied.Keys !! r.keys[c])
  {
    var es := [Walk] + between + [Walk];
    assert es[1..] == between + [Walk];
    InactiveAfterWalk(es[1..], c);
    StaysExactly(r, es, a, c);
    if r.used[c] && Walk !in between {
      var k :| FreedAt(r, es, c, r.keys[c], k);
      FreedLast(r, between, a, c, k);
    }
  }

  lemma FreedLast(r: Roll, between: seq<Event>, a: nat, c: Byte, k: nat)
    requires Known(r) && Present(r, a, c) && r.used[c] && Walk !in between
    requires FreedAt(r, [Walk] + between + [Walk], c, r.keys[c], k)
    ensures After(r, [Walk] + between + [Walk]).ids.occupied.Keys !! r.keys[c]
  {
    var es := [Walk] + between + [Walk];
    StepPresent(r, Walk, a, c);
    assert es[..1][1..] == [] && After(r, es[..1]) == Happen(r, Walk);
    forall j | 0 < j < |es| - 1 ensures es[j] != Walk {
      assert es[j] == between[j - 1];
    }
    assert es[..|es|] == es;
  }

  /** A registration puts the client under its address with all its services and the flag set, and
      the walk that follows keeps all three but the flag. */
  lemma FreshSurvivesWalk(r: Roll, a: Address, c: Byte, services: map<Byte, Service>)
    requires Known(r) && c in r.used && forall b :: b in r.addrs && r.addrs[b] == c ==> b == a
    ensures var n := After(r, [Registered(a, c, services), Walk]);
      && a in n.addrs && n.addrs[a] == c && n.keys[c] == r.keys[c] + services.Keys && !n.used[c]
  {
    var m := Happen(r, Registered(a, c, services));
    assert [Registered(a, c, services), Walk][1..] == [Walk] && [Walk][1..] == [];
    assert After(m, [Walk]) == After(Happen(m, Walk), []);
    WalkPresent(m, a, c);
  }

  /** What unregisterClient does to a client: its smallest address goes and no other, its maps are
      emptied, and exactly their ids leave the table. */
  lemma UnregistersExactly(r: Roll, c: Byte, a: nat)
    requires Known(r) && a in r.addrs && r.addrs[a] == c && forall b :: b in r.addrs && r.addrs[b] == c ==> a <= b
    ensures var n := Happen(r, Unregistered(c));
      && n.addrs == r.addrs - {a} && n.used == r.used
      && n.keys.Keys == r.keys.Keys && (forall d :: d in r.keys ==> n.keys[d] == if d == c then {} else r.keys[d])
      && n.ids.occupied == r.ids.occupied - r.keys[c] && n.ids.reserved == r.ids.reserved
  {
    FirstErased(r, a, c);
  }

  // ----- ids that no walk can reclaim

  /** The service is in the table, its client is known under no address, and no other client has
      it. */
  ghost predicate Stranded(r: Roll, c: Byte, id: Byte) {
    && !HasAddress(r, c) && c in r.keys && id in r.keys[c] && id in r.ids.occupied
    && forall d :: d in r.keys && d != c ==> id !in r.keys[d]
  }

  /** The client is not registered again, nor anybody under this id. */
  predicate LeavesStranded(e: Event, c: Byte, id: Byte) {
    e.Registered? ==> e.c != c && id !in e.services
  }

  lemma StrandedStep(r: Roll, e: Event, c: Byte, id: Byte)
    requires Known(r) && Stranded(r, c, id) && LeavesStranded(e, c, id)
    ensures Stranded(Happen(r, e), c, id)
  {
    if e == Walk {
      assert !Dropped(r, ADDRESSES, c);
      assert !Freed(r, ADDRESSES, id);
    }
  }

  /** It stays in the table for good: no walk and no unregistering takes it out. */
  lemma {:induction false} StrandedForGood(r: Roll, es: seq<Event>, c: Byte, id: Byte)
    requires Known(r) && Stranded(r, c, id)
    requires forall i :: 0 <= i < |es| ==> LeavesStranded(es[i], c, id)
    ensures Stranded(After(r, es), c, id)
    decreases |es|
  {
    if es != [] {
      StrandedStep(r, es[0], c, id);
      StrandedForGood(Happen(r, es[0]), es[1..], c, id);
    }
  }

  /** A client with one address whose services nobody else has: exactly two events strand them, the
      erasure of the address because the device sent ID, and a registration of another client from
      it. */
  lemma StrandsExactly(r: Roll, e: Event, a: Address, c: Byte, id: Byte)
    requires Known(r) && Present(r, a, c) && id in r.keys[c] && id in r.ids.occupied
    requires forall d :: d in r.keys && d != c ==> id !in r.keys[d]
    requires e.Registered? ==> id !in e.services
    ensures Stranded(Happen(r, e), c, id) <==>
      e == Forgotten(a) || (e.Registered? && e.a == a && e.c != c && e.c in r.used)
  {
    var n := Happen(r, e);
    match e
    case Walk => WalkPresent(r, a, c);
    case Unregistered(d) => assert d != c ==> a in n.addrs;
    case Registered(b, d, services) =>
      assert a in n.addrs && (n.addrs[a] == c <==> !(b == a && d != c && d in r.used));
      if b == a && d != c && d in r.used {
        assert n.addrs == r.addrs[a := d] && n.keys == r.keys[d := r.keys[d] + services.Keys];
      }
    case Forgotten(b) => assert a in n.addrs <==> b != a;
    case Exchanged(_) => assert a in n.addrs && n.addrs[a] == c;
  }

  // ----- the ids of a client that stays

  /** The client's ids are in the table and in no other client's maps. */
  ghost predicate Holds(r: Roll, c: Byte) {
    && c in r.keys && r.keys[c] <= r.ids.occupied.Keys
    && forall d :: d in r.keys && d != c ==> r.keys[d] !! r.keys[c]
  }

  lemma HoldsStep(r: Roll, e: Event, a: nat, c: Byte)
    requires Known(r) && Present(r, a, c) && Holds(r, c) && Undisturbed(e, a, c) && (e == Walk ==> r.used[c])
    requires e.Registered? ==> e.services.Keys !! r.keys[c]
    ensures Holds(Happen(r, e), c)
  {
    StepPresent(r, e, a, c);
    if e == Walk {
      forall id | id in r.keys[c] ensures !Freed(r, ADDRESSES, id) {
        assert !Dropped(r, ADDRESSES, c) by {
          DroppedExactly(r, c);
        }
      }
    }
  }

  /** They stay there as long as the client stays, if no registration is given one of them. */
  lemma {:induction false} StaysInTable(r: Roll, es: seq<Event>, a: nat, c: Byte)
    requires Known(r) && Present(r, a, c) && Holds(r, c) && Active(es, c, r.used[c])
    requires forall i :: 0 <= i < |es| ==> Undisturbed(es[i], a, c)
    requires forall i :: 0 <= i < |es| && es[i].Registered? ==> es[i].services.Keys !! r.keys[c]
    ensures Present(After(r, es), a, c) && After(r, es).keys[c] == r.keys[c]
    ensures r.keys[c] <= After(r, es).ids.occupied.Keys
    decreases |es|
  {
    if es != [] {
      assert Undisturbed(es[0], a, c);
      StepPresent(r, es[0], a, c);
      HoldsStep(r, es[0], a, c);
      StaysInTable(Happen(r, es[0]), es[1..], a, c);
    }
  }

  /** With two addresses a used client keeps the smaller one and loses the other, and with it all
      its services: it stays registered without any. */
  lemma SecondAddressLosesServices(r: Roll, a: nat, b: nat, c: Byte)
    requires Known(r) && a < b && a in r.addrs && b in r.addrs && r.addrs[a] == r.addrs[b] == c
    requires !SeenBelow(r, a, c) && r.used[c]
    ensures var n := Walked(r, ADDRESSES);
      a in n.addrs && b !in n.addrs && n.keys[c] == {} && n.ids.occupied.Keys !! r.keys[c]
  {
    KeepsServicesExactly(r, c);
  }
}

/** The turn of clockWalk for one client in two steps, as the mutex of the client is taken twice:
    getUsed, then setUnused; exchanges can succeed in between. */
module AgeingInterleaving {
  datatype Turn = Turn(registered: bool, used: bool, clearing: bool)

  datatype Step =
    | Exchange  // an exchange succeeds
    | Read      // getUsed, and the eviction if it returns false
    | Clear     // setUnused

  predicate Enabled(s: Turn, a: Step) {
    match a
    case Exchange => true
    case Read => s.registered && !s.clearing
    case Clear => s.clearing
  }

  function Next(s: Turn, a: Step): Turn {
    match a
    case Exchange => s.(used := true)
    case Read => if s.used then s.(clearing := true) else s.(registered := false)
    case Clear => s.(used := false, clearing := false)
  }

  predicate Possible(s: Turn, es: seq<Step>)
    decreases |es|
  {
    es == [] || (Enabled(s, es[0]) && Possible(Next(s, es[0]), es[1..]))
  }

  function After(s: Turn, es: seq<Step>): Turn
    decreases |es|
  {
    if es == [] then s else After(Next(s, es[0]), es[1..])
  }

  predicate NoClearFrom(es: seq<Step>, k: nat) {
    forall j :: k <= j < |es| ==> es[j] != Clear
  }

  predicate UnclearedAt(es: seq<Step>, i: nat) {
    i < |es| && es[i] == Exchange && NoClearFrom(es, i)
  }

  /** An exchange has succeeded since the flag was last cleared. */
  ghost predicate SinceClear(es: seq<Step>, used: bool) {
    (used && NoClearFrom(es, 0)) || exists i :: UnclearedAt(es, i)
  }

  lemma ClearsShift(es: seq<Step>, k: nat)
    requires es != []
    ensures NoClearFrom(es, k + 1) == NoClearFrom(es[1..], k)
    ensures UnclearedAt(es, k + 1) == UnclearedAt(es[1..], k)
  {
    assert forall j :: k <= j < |es[1..]| ==> es[1..][j] == es[j + 1];
    if NoClearFrom(es[1..], k) {
      forall j | k + 1 <= j < |es| ensures es[j] != Clear {
        assert es[1..][j - 1] == es[j];
      }
    }
  }

  lemma SinceClearFrom(es: seq<Step>, used: bool)
    requires es != []
    ensures SinceClear(es, used) <==> SinceClear(es[1..], es[0] == Exchange || (used && es[0] != Clear))
  {
    ClearsShift(es, 0);
    if i: nat :| UnclearedAt(es[1..], i) {
      ClearsShift(es, i);
    }
    if i: nat :| i > 0 && UnclearedAt(es, i) {
      ClearsShift(es, i - 1);
    }
    assert UnclearedAt(es, 0) <==> es[0] == Exchange && NoClearFrom(es, 1);
  }

  lemma {:induction false} UsedExactly(s: Turn, es: seq<Step>)
    ensures After(s, es).used <==> SinceClear(es, s.used)
    decreases |es|
  {
    if es != [] {
      UsedExactly(Next(s, es[0]), es[1..]);
      SinceClearFrom(es, s.used);
    }
  }

  /** Over every run of these steps, a walk that comes to a registered client keeps it if and only
      if an exchange has succeeded since the flag was last cleared, which need not be since it was
      last read. */
  lemma KeptExactly(s: Turn, es: seq<Step>)
    requires Possible(s, es) && Enabled(After(s, es), Read)
    ensures Next(After(s, es), Read).registered <==> SinceClear(es, s.used)
  {
    UsedExactly(s, es);
  }

  /** A client that is used when one walk reads its flag and exchanges values before the flag is
      cleared, and not after that, is evicted by the next walk. */
  lemma ExchangeBetweenIsLost(s: Turn)
    requires s.registered && s.used && !s.clearing
    ensures Possible(s, [Read, Exchange, Clear, Read]) && !After(s, [Read, Exchange, Clear, Read]).registered
  {
    assert [Read, Exchange, Clear, Read][1..] == [Exchange, Clear, Read];
    assert [Exchange, Clear, Read][1..] == [Clear, Read] && [Clear, Read][1..] == [Read] && [Read][1..] == [];
    var t := Next(Next(Next(s, Read), Exchange), Clear);
    assert After(t, [Read]) == After(Next(t, Read), []);
    assert Possible(t, [Read]);
  }
}

/** ConHandler.cpp: the registry, with the clients and the server it acts on. */
module Registry {
  import opened Wrappers
  import opened Services
  import opened ServerMirror
  import opened Server
  import opened Registration
  import opened Ageing

  class ConHandler {
    const server: Server
    const clients: map<Byte, Client>  // by id
    var nulls: set<Byte>              // ids that operator[] has entered with a null pointer
    var addrs: map<nat, Byte>         // from an address to the id of the client it belongs to

    ghost predicate Valid()
      reads this, server, server.table, clients.Values
    {
      && server.Valid()
      && (forall a :: a in addrs ==> a < ADDRESSES && addrs[a] in clients)
      && (forall c, d :: c in clients && d in clients && c != d ==> clients[c] != clients[d])
      && (forall c :: c in clients ==> clients[c].Valid())
    }

    ghost function Flags(): map<Byte, bool>
      reads clients.Values
    {
      map c | c in clients :: clients[c].used
    }

    ghost function Keys(): map<Byte, set<Byte>>
      reads clients.Values
    {
      map c | c in clients :: clients[c].Keys()
    }

    ghost function View(): (r: Roll)
      requires Valid()
      reads this, server, server.table, clients.Values
      ensures Known(r)
    {
      Roll(addrs, Flags(), Keys(), server.View().ids)
    }

    constructor (server: Server, clients: map<Byte, Client>)
      ensures this.server == server && this.clients == clients && addrs == map[] && nulls == {}
    {
      this.server, this.clients, addrs, nulls := server, clients, map[], {};
    }

    method MarkUnused(c: Byte)
      requires Valid() && c in clients
      modifies clients.Values
      ensures Valid() && Flags() == old(Flags())[c := false] && Keys() == old(Keys())
    {
      clients[c].SetUnused();
    }

    /** addrClientPairs.erase. */
    method Erase(a: nat)
      requires Valid()
      modifies this`addrs
      ensures Valid() && addrs == old(addrs) - {a}
    {
      addrs := addrs - {a};
    }

    twostate lemma Others(c: Byte)
      requires c in clients && old(Valid())
      requires forall d :: d in clients && d != c ==> unchanged(clients[d])
      requires clients[c].used == old(clients[c].used) && clients[c].Keys() == {} && clients[c].Valid()
      ensures Flags() == old(Flags()) && Keys() == old(Keys())[c := {}]
      ensures forall d :: d in clients ==> clients[d].Valid()
    {
    }

    method UnregisterServicesOf(c: Byte)
      requires Valid() && c in clients
      modifies server, server.table, clients.Values
      ensures Valid() && Flags() == old(Flags()) && Keys() == old(Keys())[c := {}]
      ensures server.View().ids == old(server.View()).ids.(
        occupied := old(server.View()).ids.occupied - old(Keys())[c])
      ensures old(Mirrored(server.View())) ==> Mirrored(server.View())
    {
      var client := clients[c];
      client.UnregisterServices(server);
      Others(c);
      assert client.Keys() == {};
    }

    method Evict(a: nat)
      requires Valid() && a in addrs
      modifies this`addrs, server, server.table, clients.Values
      ensures Valid() && View() == Unregister(old(View()).(addrs := old(addrs) - {a}), old(addrs)[a])
      ensures old(Mirrored(server.View())) ==> Mirrored(server.View())
    {
      var c := addrs[a];
      Erase(a);
      UnregisterServicesOf(c);
    }

    /** The body of the loop of clockWalk. */
    method VisitOne(a: nat)
      requires Valid()
      modifies this`addrs, server, server.table, clients.Values
      ensures Valid() && View() == Visit(old(View()), a)
      ensures old(Mirrored(server.View())) ==> Mirrored(server.View())
    {
      if a in addrs {
        var used := clients[addrs[a]].GetUsed();
        if used {
          MarkUnused(addrs[a]);
        } else {
          Evict(a);
        }
      }
    }

    /** clockWalk, visiting every entry once in the order of the map. */
    method ClockWalk()
      requires Valid()
      modifies this`addrs, server, server.table, clients.Values
      ensures Valid() && View() == Walked(old(View()), ADDRESSES)
      ensures old(Mirrored(server.View())) ==> Mirrored(server.View())
    {
      ghost var before := View();
      WalkedNothing(before);
      for a := 0 to ADDRESSES
        invariant Valid() && View() == Walked(before, a)
        invariant old(Mirrored(server.View())) ==> Mirrored(server.View())
      {
        WalkStep(before, a);
        VisitOne(a);
      }
    }

    /** Erases the first address of the client and unregisters its services; false if it has none.
        The lookup enters a null pointer under an id that no client has. */
    method UnregisterClient(id: Byte) returns (found: bool)
      requires Valid()
      modifies this`addrs, this`nulls, server, server.table, clients.Values
      ensures Valid() && View() == Happen(old(View()), Unregistered(id))
      ensures found <==> HasAddress(old(View()), id)
      ensures nulls == old(nulls) + if id in clients then {} else {id}
      ensures old(Mirrored(server.View())) ==> Mirrored(server.View())
    {
      if id !in clients {
        nulls := nulls + {id};
        assert !HasAddress(View(), id);
        return false;
      }
      found := EraseFirst(id);
    }

    /** The search through the registry. */
    method EraseFirst(id: Byte) returns (found: bool)
      requires Valid() && id in clients
      modifies this`addrs, server, server.table, clients.Values
      ensures Valid() && View() == Happen(old(View()), Unregistered(id))
      ensures found <==> HasAddress(old(View()), id)
      ensures old(Mirrored(server.View())) ==> Mirrored(server.View())
    {
      ghost var before := View();
      for a := 0 to ADDRESSES
        invariant Valid() && View() == before && Mirrored(server.View()) == old(Mirrored(server.View()))
        invariant !SeenBelow(before, a, id)
      {
        if a in addrs && addrs[a] == id {
          FirstErased(before, a, id);
          Evict(a);
          return true;
        }
      }
      return false;
    }
  }
}
