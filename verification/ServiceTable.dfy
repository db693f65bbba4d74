/** The allocator of service ids, ServiceTable.cpp.

    The table is one vector of service pointers and two lists of ids.  An id is free, reserved
    or occupied; slot 0 is never given out.  The vector index is an unsigned char, so the
    allocation that follows 255 ids in use wraps: it is modelled as the code does it. */
module ServiceIds {
  import opened Wrappers

  /** What the table means: the occupied ids with their services, the reserved ids, and the
      largest id ever given out. */
  datatype Ids<S> = Ids(occupied: map<Byte, S>, reserved: set<Byte>, top: Byte)

  predicate Distinct(s: seq<Byte>) {
    forall i, j :: 0 <= i < j < |s| ==> s[i] != s[j]
  }

  function Empty<S>(): Ids<S> {
    Ids(map[], {}, 0)
  }

  ghost predicate IdsValid<S>(t: Ids<S>) {
    && t.occupied.Keys !! t.reserved
    && forall id: Byte :: id in t.occupied || id in t.reserved ==> 1 <= id <= t.top
  }

  function Upto(n: Byte): (r: set<Byte>)
    ensures forall id: Byte :: id in r <==> 1 <= id <= n
    ensures |r| == n
  {
    if n == 0 then {} else Upto(n - 1) + {n}
  }

  /** The ids given out once that are neither reserved nor occupied. */
  function Free<S>(t: Ids<S>): set<Byte> {
    set id: Byte | 1 <= id <= t.top && id !in t.reserved && id !in t.occupied
  }

  /** All 255 ids are in use. */
  predicate Full<S>(t: Ids<S>) {
    t.top == 255 && Free(t) == {}
  }

  /** `id` is a legal outcome of reserve: an id given back before, and a new one only when
      there is none. */
  predicate MayReserve<S>(t: Ids<S>, id: Byte) {
    if Free(t) != {} then id in Free(t) else !Full(t) && id == t.top + 1
  }

  function Reserved<S>(t: Ids<S>, id: Byte): Ids<S> {
    t.(reserved := t.reserved + {id}, top := if id > t.top then id else t.top)
  }

  function Unreserved<S>(t: Ids<S>, id: Byte): Ids<S> {
    t.(reserved := t.reserved - {id})
  }

  function Pushed<S>(t: Ids<S>, id: Byte, service: S): Ids<S> {
    if id in t.reserved
    then t.(reserved := t.reserved - {id}, occupied := t.occupied[id := service])
    else t
  }

  function Removed<S>(t: Ids<S>, id: Byte): Ids<S> {
    t.(occupied := t.occupied - {id})
  }

  function InUse<S>(t: Ids<S>): nat {
    |t.reserved| + |t.occupied|
  }

  /** Free, reserved and occupied ids partition 1..top. */
  lemma Partition<S>(t: Ids<S>)
    requires IdsValid(t)
    ensures Free(t) + t.reserved + t.occupied.Keys == Upto(t.top)
    ensures Free(t) !! t.reserved && Free(t) !! t.occupied.Keys
    ensures |Free(t)| + InUse(t) == t.top
  {
  }

  lemma UnionSize(a: set<Byte>, b: set<Byte>)
    requires a !! b
    ensures |a + b| == |a| + |b|
  {
  }

  /** Nobody holds the id that reserve returns. */
  lemma ReservedIsNew<S>(t: Ids<S>, id: Byte)
    requires IdsValid(t) && MayReserve(t, id)
    ensures id != 0 && id !in t.reserved && id !in t.occupied
    ensures IdsValid(Reserved(t, id))
  {
  }

  datatype Op<S> = Reserve(id: Byte) | Unreserve(id: Byte) | Push(id: Byte, service: S) | Remove(id: Byte)

  predicate Allowed<S>(t: Ids<S>, op: Op<S>) {
    op.Reserve? ==> MayReserve(t, op.id)
  }

  function Apply<S>(t: Ids<S>, op: Op<S>): Ids<S> {
    match op
    case Reserve(id) => Reserved(t, id)
    case Unreserve(id) => Unreserved(t, id)
    case Push(id, s) => Pushed(t, id, s)
    case Remove(id) => Removed(t, id)
  }

  predicate AllAllowed<S>(t: Ids<S>, ops: seq<Op<S>>)
    decreases |ops|
  {
    ops == [] || (Allowed(t, ops[0]) && AllAllowed(Apply(t, ops[0]), ops[1..]))
  }

  function After<S>(t: Ids<S>, ops: seq<Op<S>>): Ids<S>
    decreases |ops|
  {
    if ops == [] then t else After(Apply(t, ops[0]), ops[1..])
  }

  function Max(a: nat, b: nat): nat {
    if a < b then b else a
  }

  /** The largest number of ids in use at once during a history. */
  function Peak<S>(t: Ids<S>, ops: seq<Op<S>>): nat
    decreases |ops|
  {
    if ops == [] then InUse(t) else Max(InUse(t), Peak(Apply(t, ops[0]), ops[1..]))
  }

  lemma {:induction false} TopIsPeakFrom<S>(t: Ids<S>, ops: seq<Op<S>>)
    requires IdsValid(t) && AllAllowed(t, ops)
    ensures IdsValid(After(t, ops))
    ensures InUse(t) <= Peak(t, ops)
    ensures After(t, ops).top == Max(t.top, Peak(t, ops))
    decreases |ops|
  {
    InUseBound(t);
    if ops != [] {
      var u := Apply(t, ops[0]);
      ApplyValid(t, ops[0]);
      TopIsPeakFrom(u, ops[1..]);
      assert After(t, ops) == After(u, ops[1..]);
      assert Peak(t, ops) == Max(InUse(t), Peak(u, ops[1..]));
    }
  }

  lemma InUseBound<S>(t: Ids<S>)
    requires IdsValid(t)
    ensures InUse(t) <= t.top
  {
    Partition(t);
  }

  lemma ApplyValid<S>(t: Ids<S>, op: Op<S>)
    requires IdsValid(t) && Allowed(t, op)
    ensures IdsValid(Apply(t, op))
    ensures Apply(t, op).top == t.top || t.top < Apply(t, op).top == InUse(Apply(t, op))
  {
    match op
    case Reserve(id) =>
      Partition(t);
      Partition(Reserved(t, id));
      if Free(t) == {} {
        UnionSize(t.reserved, {id});
      }
    case Push(id, s) =>
    case _ =>
  }

  /** Over every history of operations in which reserve is never called with all 255 ids in
      use, the table is as long as the largest number of ids ever in use at once requires. */
  lemma TopIsPeak<S>(ops: seq<Op<S>>)
    requires AllAllowed(Empty(), ops)
    ensures After(Empty(), ops).top == Peak(Empty(), ops)
    ensures IdsValid(After(Empty(), ops))
  {
    TopIsPeakFrom(Empty(), ops);
  }
}

module ServiceTable {
  import opened Wrappers
  import opened ServiceIds

  lemma Appended(s: seq<Byte>, x: Byte)
    requires Distinct(s) && x !in s
    ensures Distinct(s + [x])
    ensures forall id: Byte :: id in s + [x] <==> id in s || id == x
  {
  }

  function Without(s: seq<Byte>, i: nat): (r: seq<Byte>)
    requires i < |s|
    ensures |r| == |s| - 1
    ensures forall id :: id in s && id != s[i] ==> id in r
    ensures Distinct(s) ==> Distinct(r) && forall id :: id in r <==> id in s && id != s[i]
  {
    var r := s[..i] + s[i + 1..];
    assert forall k :: 0 <= k < |r| ==> r[k] == if k < i then s[k] else s[k + 1];
    assert forall k :: 0 <= k < |s| && k != i ==> s[k] == r[if k < i then k else k - 1];
    r
  }

  /** The non-null slots of the vector. */
  function Occupants<S>(services: seq<Option<S>>): map<Byte, S> {
    map id: Byte | 0 <= id < |services| && services[id].Some? :: services[id].value
  }

  lemma OccupantsGrow<S>(services: seq<Option<S>>)
    ensures Occupants(services + [None]) == Occupants(services)
  {
  }

  /** Slot 0 stays null; every other slot is null exactly when its id is in one of the lists. */
  ghost predicate TableValid<S>(services: seq<Option<S>>, free: seq<Byte>, reserved: seq<Byte>) {
    && 1 <= |services| <= 256 && services[0] == None
    && Distinct(free) && Distinct(reserved)
    && (forall id :: id in free ==> id !in reserved)
    && (forall id: Byte :: id in free || id in reserved ==> 1 <= id < |services| && services[id] == None)
    && (forall id: Byte :: 1 <= id < |services| && services[id] == None ==> id in free || id in reserved)
  }

  function IdsOf<S>(services: seq<Option<S>>, reserved: seq<Byte>): Ids<S>
    requires 1 <= |services| <= 256
  {
    Ids(Occupants(services), set id | id in reserved, |services| - 1)
  }

  lemma IdsOfValid<S>(services: seq<Option<S>>, free: seq<Byte>, reserved: seq<Byte>)
    requires TableValid(services, free, reserved)
    ensures IdsValid(IdsOf(services, reserved))
    ensures forall id: Byte :: id in free <==> id in Free(IdsOf(services, reserved))
    ensures free == [] <==> Free(IdsOf(services, reserved)) == {}
  {
    var t := IdsOf(services, reserved);
    if free != [] {
      var id := free[0];
      assert id in free;
      assert id !in t.reserved && id !in t.occupied;
    }
  }

  lemma TakeNew<S>(services: seq<Option<S>>, reserved: seq<Byte>)
    requires TableValid(services, [], reserved) && |services| < 256
    ensures TableValid(services + [None], [], reserved + [|services|])
    ensures MayReserve(IdsOf(services, reserved), |services|) && !Full(IdsOf(services, reserved))
    ensures IdsOf(services + [None], reserved + [|services|]) == Reserved(IdsOf(services, reserved), |services|)
  {
    IdsOfValid(services, [], reserved);
    Appended(reserved, |services|);
    OccupantsGrow(services);
  }

  lemma TakeFree<S>(services: seq<Option<S>>, free: seq<Byte>, reserved: seq<Byte>)
    requires TableValid(services, free, reserved) && free != []
    ensures TableValid(services, free[1..], reserved + [free[0]])
    ensures MayReserve(IdsOf(services, reserved), free[0]) && !Full(IdsOf(services, reserved))
    ensures IdsOf(services, reserved + [free[0]]) == Reserved(IdsOf(services, reserved), free[0])
  {
    IdsOfValid(services, free, reserved);
    assert free[0] in free;
    Appended(reserved, free[0]);
    assert forall id: Byte :: id in free <==> id == free[0] || id in free[1..];
  }

  lemma GiveBack<S>(services: seq<Option<S>>, free: seq<Byte>, reserved: seq<Byte>, i: nat)
    requires TableValid(services, free, reserved) && i < |reserved|
    ensures TableValid(services, free + [reserved[i]], Without(reserved, i))
    ensures IdsOf(services, Without(reserved, i)) == Unreserved(IdsOf(services, reserved), reserved[i])
  {
    assert reserved[i] in reserved;
    Appended(free, reserved[i]);
  }

  lemma ZeroReserved<S>(services: seq<Option<S>>, free: seq<Byte>, reserved: seq<Byte>)
    requires 0 in reserved
    ensures !TableValid(services, free, reserved)
  {
  }

  /** The unsigned char has wrapped. */
  lemma Wrapped<S>(services: seq<Option<S>>, reserved: seq<Byte>)
    requires TableValid(services, [], reserved) && |services| == 256
    ensures Full(IdsOf(services, reserved))
    ensures services[..1] == [None] && !TableValid(services[..1], [], reserved + [0])
  {
  }

  class Table<S> {
    var services: seq<Option<S>>
    var free: seq<Byte>
    var reserved: seq<Byte>

    ghost predicate Valid()
      reads this
    {
      TableValid(services, free, reserved)
    }

    function Contents(): Ids<S>
      reads this
      requires 1 <= |services| <= 256
    {
      IdsOf(services, reserved)
    }

    constructor ()
      ensures Valid() && Contents() == Empty()
    {
      services := [None];
      free, reserved := [], [];
    }

    /** services.resize(candidate + 1) with an unsigned char candidate. */
    method Resize() returns (candidate: Byte)
      requires 1 <= |services| <= 256
      modifies this`services
      ensures |old(services)| < 256 ==> candidate == |old(services)| && services == old(services) + [None]
      ensures |old(services)| == 256 ==> candidate == 0 && services == old(services)[..1]
    {
      candidate := |services| % 256;
      if |services| < candidate + 1 {
        services := services + [None];
      } else {
        services := services[..candidate + 1];
      }
    }

    /** The id is new to everybody.  The one exception is the call with all 255 ids in use,
        which returns 0 after cutting the vector down to slot 0 and reserving id 0. */
    method Reserve() returns (id: Byte)
      requires Valid()
      modifies this
      ensures old(Full(Contents())) <==> !Valid()
      ensures Valid() ==> old(MayReserve(Contents(), id)) && Contents() == Reserved(old(Contents()), id)
      ensures !Valid() ==> id == 0 && services == [None] && reserved == old(reserved) + [0] && free == []
    {
      if free == [] {
        if |services| < 256 {
          TakeNew(services, reserved);
        } else {
          Wrapped(services, reserved);
        }
        id := Resize();
      } else {
        TakeFree(services, free, reserved);
        id := free[0];
        free := free[1..];
      }
      reserved := reserved + [id];
    }

    /** Called on a table that has wrapped, it still touches the entries of `num` only. */
    method Unreserve(num: Byte) returns (ok: bool)
      modifies this`free, this`reserved
      ensures ok <==> num in old(reserved)
      ensures old(Valid()) ==> Valid() && Contents() == Unreserved(old(Contents()), num)
      ensures forall id :: id in old(reserved) && id != num ==> id in reserved
    {
      var i := 0;
      while i < |reserved|
        invariant i <= |reserved|
        invariant forall k :: 0 <= k < i ==> reserved[k] != num
      {
        if reserved[i] == num {
          if TableValid(services, free, reserved) {
            GiveBack(services, free, reserved, i);
          }
          reserved := Without(reserved, i);
          free := free + [num];
          return true;
        }
        i := i + 1;
      }
      assert Valid() ==> Contents() == Unreserved(old(Contents()), num);
      return false;
    }

    method Push(service: S, num: Byte) returns (ok: bool)
      requires Valid()
      modifies this
      ensures Valid()
      ensures ok <==> num in old(Contents()).reserved
      ensures Contents() == Pushed(old(Contents()), num, service)
    {
      ghost var before := Contents();
      var i := 0;
      while i < |reserved|
        invariant i <= |reserved|
        invariant forall k :: 0 <= k < i ==> reserved[k] != num
      {
        if reserved[i] == num {
          assert num in reserved;
          services := services[num := Some(service)];
          reserved := Without(reserved, i);
          assert Contents() == Pushed(before, num, service);
          return true;
        }
        i := i + 1;
      }
      return false;
    }

    method Remove(num: Byte) returns (ok: bool)
      requires Valid()
      modifies this
      ensures Valid()
      ensures ok <==> num in old(Contents()).occupied
      ensures Contents() == Removed(old(Contents()), num)
    {
      ghost var before := Contents();
      if num < |services| && services[num].Some? {
        Appended(free, num);
        services := services[num := None];
        free := free + [num];
        assert Contents() == Removed(before, num);
        return true;
      }
      assert Contents() == Removed(before, num);
      return false;
    }

    method GetService(id: Byte) returns (service: Option<S>)
      requires Valid()
      ensures service.Some? <==> id in Contents().occupied
      ensures service.Some? ==> service.value == Contents().occupied[id]
    {
      if id >= |services| {
        return None;
      }
      return services[id];
    }
  }
}
