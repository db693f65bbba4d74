/** Input and Output services, Service.cpp.  Floats are totally ordered numbers here. */
module Values {
  import opened Wrappers

  datatype Reading = Reading(val: real, timestamp: int)

  class Input {
    const id: Byte
    var val: real
    var timestamp: int

    constructor (id: Byte, min: real)
      ensures this.id == id && View() == Reading(min, 0)
    {
      this.id, val, timestamp := id, min, 0;
    }

    function View(): Reading
      reads this
    {
      Reading(val, timestamp)
    }

    method SetVal(newVal: real)
      modifies this`val
      ensures View() == old(View()).(val := newVal)
    {
      val := newVal;
    }

    method SetTimestamp(time: int)
      modifies this`timestamp
      ensures View() == old(View()).(timestamp := time)
    {
      timestamp := time;
    }
  }

  /** The fields of an Output. */
  datatype Setting = Setting(min: real, max: real, val: real, expected: real, inProgress: real, change: bool)

  function Clamp(v: real, min: real, max: real): (r: real)
    ensures min <= max ==> min <= r <= max && (r == v || (v > max && r == max) || (v < min && r == min))
  {
    if v > max then max else if v < min then min else v
  }

  function Begun(o: Setting): Setting {
    o.(inProgress := o.expected)
  }

  function Finalized(o: Setting): Setting {
    if o.change then o.(change := false, val := o.inProgress) else o
  }

  function Requested(o: Setting, v: real): Setting {
    o.(expected := Clamp(v, o.min, o.max), change := true)
  }

  class Output {
    const id: Byte
    const min: real
    const max: real
    var val: real
    var expected: real    // set at the next connection
    var inProgress: real  // being set
    var change: bool

    /** The source leaves `expected` and `inProgress` uninitialised: any values. */
    constructor (id: Byte, min: real, max: real, someExpected: real, someInProgress: real)
      ensures this.id == id && View() == Setting(min, max, min, someExpected, someInProgress, false)
    {
      this.id, this.min, this.max := id, min, max;
      val, expected, inProgress, change := min, someExpected, someInProgress, false;
    }

    function View(): Setting
      reads this
    {
      Setting(min, max, val, expected, inProgress, change)
    }

    method BeginSetting() returns (isChange: bool, value: real)
      modifies this`inProgress
      ensures View() == Begun(old(View()))
      ensures isChange == change && value == expected
    {
      inProgress := expected;
      value := expected;
      isChange := change;
    }

    method FinalizeSetting()
      modifies this`change, this`val
      ensures View() == Finalized(old(View()))
    {
      if change {
        change := false;
        val := inProgress;
      }
    }

    method SetVal(newVal: real)
      modifies this`expected, this`change
      ensures View() == Requested(old(View()), newVal)
    {
      if newVal > max {
        expected := max;
      } else if newVal < min {
        expected := min;
      } else {
        expected := newVal;
      }
      change := true;
    }
  }
}

/** What an Output goes through when requests from the queue interleave with exchanges. */
module OutputHistory {
  import opened Wrappers
  import opened Values

  datatype Event =
    | Request(v: real)  // Q_SET: setVal
    | Begin             // an exchange reaches the output: beginSetting, and SET if it returned true
    | Ack               // the device confirms: finalizeSetting
    | Nak               // it refuses, or the connection fails

  /** An output with its history: whether a SET awaits its answer, the values of all SETs sent,
      the value of the last one confirmed, the last request, and whether a request landed since
      the last SET was begun. */
  datatype History = History(
    out: Setting,
    waiting: bool,
    sets: seq<real>,
    acked: Option<real>,
    request: Option<real>,
    landed: bool)

  predicate Possible(h: History, e: Event) {
    match e
    case Request(_) => true
    case Begin => !h.waiting
    case _ => h.waiting
  }

  function After(h: History, e: Event): History {
    match e
    case Request(v) => h.(out := Requested(h.out, v), request := Some(v), landed := true)
    case Begin =>
      if h.out.change
      then h.(out := Begun(h.out), waiting := true, sets := h.sets + [h.out.expected], landed := false)
      else h.(out := Begun(h.out))
    case Ack => h.(out := Finalized(h.out), waiting := false, 
      acked := if h.sets == [] then None else Some(h.sets[|h.sets| - 1]))
    case Nak => h.(waiting := false)
  }

  predicate AllPossible(h: History, es: seq<Event>)
    decreases |es|
  {
    es == [] || (Possible(h, es[0]) && AllPossible(After(h, es[0]), es[1..]))
  }

  function AfterAll(h: History, es: seq<Event>): History
    decreases |es|
  {
    if es == [] then h else AfterAll(After(h, es[0]), es[1..])
  }

  predicate New(h: History) {
    h.out.val == h.out.min && !h.out.change && h == History(h.out, false, [], None, None, false)
  }

  ghost predicate Consistent(h: History) {
    && h.out.val == (if h.acked.Some? then h.acked.value else h.out.min)
    && (h.acked.Some? ==> h.acked.value in h.sets)
    && (h.waiting ==> h.out.change && h.sets != [] && h.sets[|h.sets| - 1] == h.out.inProgress)
    && (h.out.change ==> h.request.Some?)
    && (h.request.Some? ==> h.out.expected == Clamp(h.request.value, h.out.min, h.out.max))
    && (h.waiting && !h.landed ==> h.out.inProgress == h.out.expected)
    && (h.request.Some? && !h.out.change ==> h.acked.Some? && (h.landed || h.out.val == h.out.expected))
    && (h.out.min <= h.out.max ==>
          h.out.min <= h.out.val <= h.out.max && forall v :: v in h.sets ==> h.out.min <= v <= h.out.max)
  }

  lemma {:induction false} ConsistentAll(h: History, es: seq<Event>)
    requires Consistent(h) && AllPossible(h, es)
    ensures Consistent(AfterAll(h, es))
    ensures AfterAll(h, es).out.min == h.out.min && AfterAll(h, es).out.max == h.out.max
    decreases |es|
  {
    if es != [] {
      ConsistentAll(After(h, es[0]), es[1..]);
    }
  }

  /** Under every interleaving: the value is the minimum or exactly that of the last confirmed
      SET; every SET sent and every value lie in the range; and once something was requested,
      no change is pending only if the value is the last request brought into the range, or a
      request landed while the last SET was under way. */
  lemma DeviceConfirmed(h: History, es: seq<Event>)
    requires New(h) && AllPossible(h, es)
    ensures var t := AfterAll(h, es);
      && t.out.val == (if t.acked.Some? then t.acked.value else h.out.min)
      && (t.acked.Some? ==> t.acked.value in t.sets)
      && (h.out.min <= h.out.max ==>
            h.out.min <= t.out.val <= h.out.max && forall v :: v in t.sets ==> h.out.min <= v <= h.out.max)
      && (t.request.Some? && !t.out.change && !t.landed ==>
            t.out.val == t.out.expected == Clamp(t.request.value, h.out.min, h.out.max))
  {
    ConsistentAll(h, es);
  }

  /** Without a request and with no change pending, nothing is sent and the value stays. */
  lemma {:induction false} NothingHappens(h: History, es: seq<Event>)
    requires AllPossible(h, es) && !h.out.change && !h.waiting
    requires forall i :: 0 <= i < |es| ==> !es[i].Request?
    ensures var t := AfterAll(h, es);
      t.sets == h.sets && t.out.val == h.out.val && !t.out.change && !t.waiting
    decreases |es|
  {
    if es != [] {
      assert es[0].Begin?;
      NothingHappens(After(h, es[0]), es[1..]);
    }
  }

  function LastRequest(es: seq<Event>): Option<real> {
    if es == [] then None
    else if es[|es| - 1].Request? then Some(es[|es| - 1].v)
    else LastRequest(es[..|es| - 1])
  }

  lemma {:induction false} ByLast(h: History, es: seq<Event>)
    requires es != []
    ensures AfterAll(h, es) == After(AfterAll(h, es[..|es| - 1]), es[|es| - 1])
    ensures AllPossible(h, es) ==>
      AllPossible(h, es[..|es| - 1]) && Possible(AfterAll(h, es[..|es| - 1]), es[|es| - 1])
    decreases |es|
  {
    if |es| == 1 {
      assert es[..0] == [] && es[1..] == [];
    } else {
      ByLast(After(h, es[0]), es[1..]);
      assert es[1..][..|es| - 2] == es[..|es| - 1][1..];
    }
  }

  lemma {:induction false} RequestTracked(h: History, es: seq<Event>)
    requires New(h)
    ensures AfterAll(h, es).request == LastRequest(es)
    decreases |es|
  {
    if es != [] {
      ByLast(h, es);
      RequestTracked(h, es[..|es| - 1]);
    }
  }

  /** A SET was sent at position k and only requests have come since. */
  predicate Sending(h: History, es: seq<Event>, k: nat) {
    && k < |es| && es[k] == Begin && AfterAll(h, es[..k]).out.change
    && forall j :: k < j < |es| ==> es[j].Request?
  }

  lemma {:induction false} SendingState(h: History, es: seq<Event>, k: nat)
    requires Sending(h, es, k)
    ensures AfterAll(h, es).waiting
    ensures AfterAll(h, es).sets == AfterAll(h, es[..k]).sets + [AfterAll(h, es[..k]).out.expected]
    decreases |es|
  {
    ByLast(h, es);
    if k + 1 < |es| {
      assert es[..|es| - 1][..k] == es[..k];
      SendingState(h, es[..|es| - 1], k);
    }
  }

  /** A SET awaits its answer exactly in these histories. */
  lemma {:induction false} WaitingExactly(h: History, es: seq<Event>)
    requires New(h) && AllPossible(h, es)
    ensures AfterAll(h, es).waiting <==> exists k :: Sending(h, es, k)
    decreases |es|
  {
    if k: nat :| Sending(h, es, k) {
      SendingState(h, es, k);
    }
    if AfterAll(h, es).waiting {
      ByLast(h, es);
      var most, last := es[..|es| - 1], es[|es| - 1];
      if last == Begin {
        assert Sending(h, es, |most|);
      } else {
        WaitingExactly(h, most);
        var k: nat :| Sending(h, most, k);
        assert most[..k] == es[..k];
        assert Sending(h, es, k);
      }
    }
  }

  /** In every history: when the SET sent at position k is confirmed, the value is the request in
      force at that position, no change is pending, and nothing more is sent until another request
      comes.  So the last request is lost if and only if one came after that position and the last
      of them leaves another value within the range. */
  lemma ConfirmationLosesExactly(h: History, es: seq<Event>, k: nat, more: seq<Event>)
    requires New(h) && AllPossible(h, es) && Sending(h, es, k)
    requires AllPossible(After(AfterAll(h, es), Ack), more)
    requires forall i :: 0 <= i < |more| ==> !more[i].Request?
    ensures LastRequest(es[..k]).Some? && LastRequest(es).Some?
    ensures var u, then_ := AfterAll(After(AfterAll(h, es), Ack), more), LastRequest(es[..k]).value;
      && u.out.val == Clamp(then_, h.out.min, h.out.max) && !u.out.change && u.sets == AfterAll(h, es).sets
      && (u.out.val != Clamp(LastRequest(es).value, h.out.min, h.out.max) <==>
            k + 1 < |es| && Clamp(es[|es| - 1].v, h.out.min, h.out.max) != Clamp(then_, h.out.min, h.out.max))
  {
    SentRequest(h, es, k);
    RequestsSince(h, es, k);
    NothingHappens(After(AfterAll(h, es), Ack), more);
  }

  lemma SentRequest(h: History, es: seq<Event>, k: nat)
    requires New(h) && AllPossible(h, es) && Sending(h, es, k)
    ensures LastRequest(es[..k]).Some?
    ensures var t, u := AfterAll(h, es), After(AfterAll(h, es), Ack);
      && t.waiting && !u.out.change && !u.waiting && u.sets == t.sets
      && u.out.val == Clamp(LastRequest(es[..k]).value, h.out.min, h.out.max)
  {
    ConsistentAll(h, es);
    SendingState(h, es, k);
    AllPossibleFirst(h, es, k);
    ConsistentAll(h, es[..k]);
    RequestTracked(h, es[..k]);
  }

  lemma RequestsSince(h: History, es: seq<Event>, k: nat)
    requires Sending(h, es, k)
    ensures LastRequest(es) == if k + 1 < |es| then Some(es[|es| - 1].v) else LastRequest(es[..k])
  {
    if k + 1 == |es| {
      assert es[..|es| - 1] == es[..k];
    }
  }

  lemma {:induction false} AllPossibleFirst(h: History, es: seq<Event>, k: nat)
    requires AllPossible(h, es) && k <= |es|
    ensures AllPossible(h, es[..k])
    decreases |es|
  {
    if k < |es| {
      ByLast(h, es);
      AllPossibleFirst(h, es[..|es| - 1], k);
      assert es[..|es| - 1][..k] == es[..k];
    } else {
      assert es[..k] == es;
    }
  }

  /** A request that lands while a SET is under way is lost when the SET is confirmed: no change
      is pending, the next exchange sends nothing, and the value is the old request, exactly if
      the two requests differ within the range. */
  lemma LostUpdate(h: History, v: real, w: real)
    requires !h.waiting
    ensures AllPossible(h, [Request(v), Begin, Request(w), Ack, Begin])
    ensures var t := AfterAll(h, [Request(v), Begin, Request(w), Ack, Begin]);
      && !t.out.change && !t.waiting && t.sets == h.sets + [Clamp(v, h.out.min, h.out.max)]
      && (t.out.val == t.out.expected <==> Clamp(v, h.out.min, h.out.max) == Clamp(w, h.out.min, h.out.max))
  {
    var h1 := After(h, Request(v));
    var h2 := After(h1, Begin);
    var h3 := After(h2, Request(w));
    var h4 := After(h3, Ack);
    var h5 := After(h4, Begin);
    assert [Begin][1..] == [] && [Ack, Begin][1..] == [Begin];
    assert [Request(w), Ack, Begin][1..] == [Ack, Begin];
    assert [Begin, Request(w), Ack, Begin][1..] == [Request(w), Ack, Begin];
    assert [Request(v), Begin, Request(w), Ack, Begin][1..] == [Begin, Request(w), Ack, Begin];
    assert AfterAll(h5, []) == h5;
    assert AfterAll(h4, [Begin]) == h5;
    assert AfterAll(h3, [Ack, Begin]) == h5;
    assert AfterAll(h2, [Request(w), Ack, Begin]) == h5;
    assert AllPossible(h4, [Begin]);
    assert AllPossible(h3, [Ack, Begin]);
    assert AllPossible(h2, [Request(w), Ack, Begin]);
  }
}
