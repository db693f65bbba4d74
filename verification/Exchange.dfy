/** Client::getValues, Client::setValues and Client::tryDataExchange. */
module InputExchange {
  import opened Wrappers
  import opened Packets
  import opened Connections
  import opened Values

  predicate IsVal(p: Option<Packet<real>>) {
    p.Some? && p.value.VAL?
  }

  function ReadingOf(p: Packet<real>): Reading
    requires p.VAL?
  {
    Reading(p.value, Timestamp(p.timestamp))
  }

  /** The little-endian number in some bytes. */
  function Number(bytes: seq<Byte>): int {
    if bytes == [] then 0 else bytes[0] + 256 * Number(bytes[1..])
  }

  /** The time_t in the four bytes of a timestamp. */
  function Timestamp(bytes: seq<Byte>): int {
    if |bytes| == 4 && bytes[3] >= 128 then Number(bytes) - 0x1_0000_0000 else Number(bytes)
  }

  /** It is the signed 32-bit number whose bytes these are, the least significant first. */
  lemma TimestampExactly(t: int, bytes: seq<Byte>)
    requires |bytes| == 4 && -0x8000_0000 <= t < 0x8000_0000
    requires bytes[0] == t % 256 && bytes[1] == t / 256 % 256
    requires bytes[2] == t / 65536 % 256 && bytes[3] == t / 16777216 % 256
    ensures Timestamp(bytes) == t
  {
    var b0, b1, b2, b3 := bytes[0] as int, bytes[1] as int, bytes[2] as int, bytes[3] as int;
    assert Number(bytes[3..]) == b3;
    assert Number(bytes[2..]) == b2 + 256 * b3 by {
      assert bytes[2..][1..] == bytes[3..];
    }
    assert Number(bytes[1..]) == b1 + 256 * (b2 + 256 * b3) by {
      assert bytes[1..][1..] == bytes[2..];
    }
    assert t == b0 + 256 * (b1 + 256 * (b2 + 256 * (t / 16777216))) by {
      assert t / 65536 == t / 256 / 256 && t / 16777216 == t / 256 / 256 / 256;
    }
  }

  /** The VAL packets before anything else. */
  function Vals(trace: seq<Option<Packet<real>>>): seq<Packet<real>>
    ensures forall i :: 0 <= i < |Vals(trace)| ==> Vals(trace)[i].VAL?
  {
    if IsVal(First(trace)) then [trace[0].value] + Vals(Rest(trace)) else []
  }

  /** The packet that ends them. */
  function Stop(trace: seq<Option<Packet<real>>>): Option<Packet<real>> {
    if IsVal(First(trace)) then Stop(Rest(trace)) else First(trace)
  }

  /** What is left after that packet. */
  function Beyond(trace: seq<Option<Packet<real>>>): seq<Option<Packet<real>>> {
    if IsVal(First(trace)) then Beyond(Rest(trace)) else Rest(trace)
  }

  /** The last reading among the packets for one service. */
  function LastFor(vals: seq<Packet<real>>, id: Byte): (r: Option<Reading>)
    requires forall i :: 0 <= i < |vals| ==> vals[i].VAL?
    ensures r.Some? <==> exists i :: 0 <= i < |vals| && vals[i].service == id
  {
    if vals == [] then None
    else if vals[|vals| - 1].service == id then Some(ReadingOf(vals[|vals| - 1]))
    else LastFor(vals[..|vals| - 1], id)
  }

  function Else(r: Option<Reading>, default: Reading): Reading {
    if r.Some? then r.value else default
  }

  lemma {:induction false} LastForPrepend(p: Packet<real>, vals: seq<Packet<real>>, id: Byte)
    requires p.VAL? && forall i :: 0 <= i < |vals| ==> vals[i].VAL?
    ensures LastFor([p] + vals, id) ==
      if LastFor(vals, id).Some? then LastFor(vals, id) else if p.service == id then Some(ReadingOf(p)) else None
    decreases |vals|
  {
    if vals == [] {
      assert [p] + vals == [p];
      assert [p][..0] == [];
    } else {
      assert ([p] + vals)[..|vals|] == [p] + vals[..|vals| - 1];
      LastForPrepend(p, vals[..|vals| - 1], id);
    }
  }

  /** The reading for a service is that of the last packet with its id. */
  lemma {:induction false} LastForExactly(vals: seq<Packet<real>>, id: Byte, i: nat)
    requires forall j :: 0 <= j < |vals| ==> vals[j].VAL?
    requires i < |vals| && vals[i].service == id && forall j :: i < j < |vals| ==> vals[j].service != id
    ensures LastFor(vals, id) == Some(Reading(vals[i].value, Timestamp(vals[i].timestamp)))
    decreases |vals|
  {
    if i < |vals| - 1 {
      LastForExactly(vals[..|vals| - 1], id, i);
    }
  }

  /** The values are the packets up to the first that is no VAL, which is where reading stops. */
  lemma {:induction false} StopExactly(trace: seq<Option<Packet<real>>>)
    ensures var n := |Vals(trace)|;
      && n <= |trace| && (forall i :: 0 <= i < n ==> trace[i] == Some(Vals(trace)[i]))
      && Stop(trace) == (if n < |trace| then trace[n] else None)
      && !(Stop(trace).Some? && Stop(trace).value.VAL?)
      && Beyond(trace) == if n < |trace| then trace[n + 1..] else []
  {
    if IsVal(First(trace)) {
      StopExactly(Rest(trace));
    }
  }

  /** Different inputs are different objects. */
  ghost predicate Separate(inputs: map<Byte, Input>) {
    forall i, j :: i in inputs && j in inputs && i != j ==> inputs[i] != inputs[j]
  }

  /** Every input ends with the last reading sent for it before the first other packet, and
      keeps its own if there is none; readings for unknown ids change nothing.  The result says
      whether that packet is EOT, and the packet stays the receiver's current one. */
  method GetValues(conn: Connection<real>, inputs: map<Byte, Input>) returns (ok: bool)
    requires Separate(inputs)
    modifies conn`incoming, conn`curr, inputs.Values
    ensures forall id :: id in inputs ==>
      inputs[id].View() == Else(LastFor(Vals(old(conn.incoming)), id), old(inputs[id].View()))
    ensures ok <==> Stop(old(conn.incoming)) == Some(EOT)
    ensures conn.curr == Stop(old(conn.incoming)) && conn.incoming == Beyond(old(conn.incoming))
  {
    ghost var trace := conn.incoming;
    var packet := conn.NextPacket();
    if packet.Some? && (packet.value.VAL? || packet.value.EOT?) {
      ghost var rest := trace;
      while packet != Some(EOT)
        invariant packet == conn.curr == First(rest) && conn.incoming == Rest(rest)
        invariant Stop(trace) == Stop(rest) && Beyond(trace) == Beyond(rest)
        invariant forall id :: id in inputs ==>
          Else(LastFor(Vals(trace), id), old(inputs[id].View())) == Else(LastFor(Vals(rest), id), inputs[id].View())
        decreases |rest|
      {
        if packet.Some? && packet.value.VAL? {
          ghost var p, tail := packet.value, Rest(rest);
          assert Vals(rest) == [p] + Vals(tail);
          forall id: Byte ensures LastFor(Vals(rest), id) ==
            if LastFor(Vals(tail), id).Some? then LastFor(Vals(tail), id)
            else if p.service == id then Some(ReadingOf(p)) else None
          {
            LastForPrepend(p, Vals(tail), id);
          }
          if packet.value.service in inputs {
            var input := inputs[packet.value.service];
            assert forall id :: id in inputs && id != p.service ==> inputs[id] != input;
            input.SetVal(packet.value.value);
            input.SetTimestamp(Timestamp(packet.value.timestamp));
          }
          rest := tail;
          packet := conn.NextPacket();
        } else {
          return false;
        }
      }
      return true;
    }
    return false;
  }
}

module OutputExchange {
  import opened Wrappers
  import opened Packets
  import opened Connections
  import opened Values

  /** An exchange of settings: whether it succeeded, the settings afterwards, and what was
      handed to send. */
  datatype Exchanged = Exchanged(ok: bool, after: seq<Setting>, sent: seq<Packet<real>>)

  /** One output's turn: whether the exchange goes on, the setting afterwards, what was sent,
      and the packets and results still to come. */
  datatype Turned = Turned(go: bool, after: Setting, sent: seq<Packet<real>>,
                           trace: seq<Option<Packet<real>>>, results: seq<int>)

  /** A send counts as failed only if it returns 0. */
  function Turn(id: Byte, o: Setting, trace: seq<Option<Packet<real>>>, results: seq<int>): Turned {
    var b := Begun(o);
    if !b.change then Turned(true, b, [], trace, results)
    else if FirstResult(results) == 0 then Turned(false, b, [SET(id, b.expected)], trace, Rest(results))
    else match First(trace)
      case Some(ACK(_)) => Turned(true, Finalized(b), [SET(id, b.expected)], Rest(trace), Rest(results))
      case Some(NAK(_)) => Turned(true, b, [SET(id, b.expected)], Rest(trace), Rest(results))
      case _ => Turned(false, b, [SET(id, b.expected)], Rest(trace), Rest(results))
  }

  /** The outputs with ids `ids` and settings `outs` against the packets to come and the results
      of the sends to come. */
  function Exchange(ids: seq<Byte>, outs: seq<Setting>, trace: seq<Option<Packet<real>>>, results: seq<int>): (x: Exchanged)
    requires |ids| == |outs|
    ensures |x.after| == |outs|
    decreases |outs|
  {
    if outs == [] then Exchanged(FirstResult(results) != 0, [], [EOT])
    else
      var t := Turn(ids[0], outs[0], trace, results);
      if !t.go then Exchanged(false, [t.after] + outs[1..], t.sent)
      else
        var x := Exchange(ids[1..], outs[1..], t.trace, t.results);
        Exchanged(x.ok, [t.after] + x.after, t.sent + x.sent)
  }

  /** The SETs for the outputs with a pending change, in id order. */
  function PendingSets(ids: seq<Byte>, outs: seq<Setting>): seq<Packet<real>>
    requires |ids| == |outs|
    decreases |outs|
  {
    if outs == [] then []
    else (if outs[0].change then [SET(ids[0], outs[0].expected)] else []) + PendingSets(ids[1..], outs[1..])
  }

  /** The number of outputs before position i with a pending change: the position of the answer
      to output i. */
  function AnswerAt(outs: seq<Setting>, i: nat): nat
    requires i <= |outs|
  {
    if i == 0 then 0 else AnswerAt(outs[1..], i - 1) + (if outs[0].change then 1 else 0)
  }

  predicate Confirmed(trace: seq<Option<Packet<real>>>, k: nat) {
    k < |trace| && trace[k].Some? && trace[k].value.ACK?
  }

  predicate Refused(trace: seq<Option<Packet<real>>>, k: nat) {
    k < |trace| && trace[k].Some? && trace[k].value.NAK?
  }

  /** What an exchange makes of output i if the answer to it is at position k. */
  predicate Settled(before: Setting, after: Setting, trace: seq<Option<Packet<real>>>, k: nat) {
    && after.expected == before.expected
    && (before.change ==> Confirmed(trace, k) || Refused(trace, k))
    && (before.change && Confirmed(trace, k) ==> !after.change && after.val == before.expected)
    && (before.change && Refused(trace, k) ==> after.change && after.val == before.val)
    && (!before.change ==> !after.change && after.val == before.val)
  }

  /** A successful exchange, with no request in between, hands one SET per changed output to send,
      in id order, and then EOT.  Each is answered by ACK, and the output ends with its value set and
      nothing pending, or by NAK, and it keeps the pending value; the others keep everything. */
  lemma {:induction false} SuccessfulExchange(ids: seq<Byte>, outs: seq<Setting>, trace: seq<Option<Packet<real>>>, results: seq<int>)
    requires |ids| == |outs| && Exchange(ids, outs, trace, results).ok
    ensures var x := Exchange(ids, outs, trace, results);
      && x.sent == PendingSets(ids, outs) + [EOT]
      && forall i :: 0 <= i < |outs| ==> Settled(outs[i], x.after[i], trace, AnswerAt(outs, i))
    decreases |outs|
  {
    if outs != [] {
      var t := Turn(ids[0], outs[0], trace, results);
      SuccessfulExchange(ids[1..], outs[1..], t.trace, t.results);
      var x, y := Exchange(ids, outs, trace, results), Exchange(ids[1..], outs[1..], t.trace, t.results);
      assert Settled(outs[0], t.after, trace, AnswerAt(outs, 0));
      forall i | 1 <= i < |outs| ensures Settled(outs[i], x.after[i], trace, AnswerAt(outs, i)) {
        assert x.after[i] == y.after[i - 1] && outs[i] == outs[1..][i - 1];
        var k := AnswerAt(outs[1..], i - 1);
        assert Settled(outs[i], y.after[i - 1], t.trace, k);
        Shifted(trace, t.trace, k, outs[0].change);
      }
    }
  }

  lemma Shifted(trace: seq<Option<Packet<real>>>, later: seq<Option<Packet<real>>>, k: nat, one: bool)
    requires later == if one then Rest(trace) else trace
    ensures Confirmed(later, k) == Confirmed(trace, k + if one then 1 else 0)
    ensures Refused(later, k) == Refused(trace, k + if one then 1 else 0)
  {
  }

  /** What the k-th send from now returns. */
  function ResultAt(results: seq<int>, k: nat): int {
    if k < |results| then results[k] else -1
  }

  /** Every output with a pending change gets an ACK or a NAK. */
  predicate Answered(outs: seq<Setting>, trace: seq<Option<Packet<real>>>) {
    forall i :: 0 <= i < |outs| && outs[i].change ==>
      Confirmed(trace, AnswerAt(outs, i)) || Refused(trace, AnswerAt(outs, i))
  }

  predicate NoneZero(results: seq<int>, n: nat) {
    forall k :: 0 <= k < n ==> ResultAt(results, k) != 0
  }

  lemma AnsweredFrom(outs: seq<Setting>, trace: seq<Option<Packet<real>>>, later: seq<Option<Packet<real>>>)
    requires outs != [] && later == if outs[0].change then Rest(trace) else trace
    ensures Answered(outs, trace) <==>
      (outs[0].change ==> Confirmed(trace, 0) || Refused(trace, 0)) && Answered(outs[1..], later)
  {
    forall i | 1 <= i < |outs|
      ensures Confirmed(trace, AnswerAt(outs, i)) == Confirmed(later, AnswerAt(outs[1..], i - 1))
      ensures Refused(trace, AnswerAt(outs, i)) == Refused(later, AnswerAt(outs[1..], i - 1))
    {
      Shifted(trace, later, AnswerAt(outs[1..], i - 1), outs[0].change);
    }
    assert forall i :: 0 <= i < |outs[1..]| ==> outs[1..][i] == outs[i + 1];
    if Answered(outs, trace) {
      assert AnswerAt(outs, 0) == 0;
      forall i | 0 <= i < |outs[1..]| && outs[1..][i].change
        ensures Confirmed(later, AnswerAt(outs[1..], i)) || Refused(later, AnswerAt(outs[1..], i))
      {
        assert outs[i + 1].change;
      }
    }
  }

  lemma NoneZeroFrom(results: seq<int>, n: nat)
    requires n > 0
    ensures NoneZero(results, n) <==> FirstResult(results) != 0 && NoneZero(Rest(results), n - 1)
  {
    assert forall k :: 0 <= k < n - 1 ==> ResultAt(Rest(results), k) == ResultAt(results, k + 1);
    assert ResultAt(results, 0) == FirstResult(results);
    if FirstResult(results) != 0 && NoneZero(Rest(results), n - 1) {
      forall k | 0 <= k < n ensures ResultAt(results, k) != 0 {
        assert k > 0 ==> ResultAt(results, k) == ResultAt(Rest(results), k - 1);
      }
    }
  }

  /** An exchange succeeds if and only if every pending change is answered by ACK or NAK and no
      send, that of EOT included, returns 0; a send that fails with -1 does no harm. */
  lemma {:induction false} SucceedsExactly(ids: seq<Byte>, outs: seq<Setting>, trace: seq<Option<Packet<real>>>, results: seq<int>)
    requires |ids| == |outs|
    ensures Exchange(ids, outs, trace, results).ok <==>
      Answered(outs, trace) && NoneZero(results, AnswerAt(outs, |outs|) + 1)
    decreases |outs|
  {
    if outs == [] {
      assert ResultAt(results, 0) == FirstResult(results);
    } else {
      var later := if outs[0].change then Rest(trace) else trace;
      var more := if outs[0].change then Rest(results) else results;
      SucceedsExactly(ids[1..], outs[1..], later, more);
      AnsweredFrom(outs, trace, later);
      NoneZeroFrom(results, AnswerAt(outs, |outs|) + 1);
    }
  }

  /** The exchange gets no further than output i: its SET cannot be sent, or the answer to it is
      neither ACK nor NAK. */
  predicate Blocks(outs: seq<Setting>, trace: seq<Option<Packet<real>>>, results: seq<int>, i: nat)
    requires i < |outs|
  {
    outs[i].change &&
    var k := AnswerAt(outs, i);
    ResultAt(results, k) == 0 || (!Confirmed(trace, k) && !Refused(trace, k))
  }

  /** What the server holds about an output has not changed. */
  predicate Kept(before: Setting, after: Setting) {
    && after.val == before.val && after.expected == before.expected && after.change == before.change
    && after.min == before.min && after.max == before.max
  }

  lemma BlocksShift(outs: seq<Setting>, trace: seq<Option<Packet<real>>>, results: seq<int>, i: nat)
    requires 0 < i < |outs|
    ensures var later, more :=
        if outs[0].change then Rest(trace) else trace, if outs[0].change then Rest(results) else results;
      Blocks(outs, trace, results, i) == Blocks(outs[1..], later, more, i - 1)
  {
    var k := AnswerAt(outs[1..], i - 1);
    Shifted(trace, if outs[0].change then Rest(trace) else trace, k, outs[0].change);
    assert ResultAt(Rest(results), k) == ResultAt(results, k + 1);
  }

  lemma FirstTurn(id: Byte, outs: seq<Setting>, trace: seq<Option<Packet<real>>>, results: seq<int>)
    requires outs != []
    ensures var t := Turn(id, outs[0], trace, results);
      && (t.go <==> !Blocks(outs, trace, results, 0))
      && t.sent == (if outs[0].change then [SET(id, outs[0].expected)] else [])
      && (t.go ==> Settled(outs[0], t.after, trace, 0))
      && (!t.go ==> Kept(outs[0], t.after))
      && (t.go ==> t.trace == if outs[0].change then Rest(trace) else trace)
      && (t.go ==> t.results == if outs[0].change then Rest(results) else results)
  {
    assert ResultAt(results, 0) == FirstResult(results) && AnswerAt(outs, 0) == 0;
  }

  lemma SettledLater(outs: seq<Setting>, after: seq<Setting>, trace: seq<Option<Packet<real>>>, n: nat)
    requires outs != [] && |after| == |outs| && 0 < n <= |outs|
    requires forall i :: 0 <= i < n - 1 ==> Settled(outs[1..][i], after[1..][i],
      if outs[0].change then Rest(trace) else trace, AnswerAt(outs[1..], i))
    ensures forall i :: 1 <= i < n ==> Settled(outs[i], after[i], trace, AnswerAt(outs, i))
  {
    var later := if outs[0].change then Rest(trace) else trace;
    forall i | 1 <= i < n ensures Settled(outs[i], after[i], trace, AnswerAt(outs, i)) {
      assert Settled(outs[1..][i - 1], after[1..][i - 1], later, AnswerAt(outs[1..], i - 1));
      Shifted(trace, later, AnswerAt(outs[1..], i - 1), outs[0].change);
    }
  }

  /** An exchange that comes to output m and no further: the outputs before it are settled by their
      answers, it and the ones behind it are as they were, and the SETs up to its own were handed
      to send. */
  lemma {:induction false} StopsAt(ids: seq<Byte>, outs: seq<Setting>, trace: seq<Option<Packet<real>>>, results: seq<int>, m: nat)
    requires |ids| == |outs| && m < |outs| && Blocks(outs, trace, results, m)
    requires forall i :: 0 <= i < m ==> !Blocks(outs, trace, results, i)
    ensures var x := Exchange(ids, outs, trace, results);
      && !x.ok && x.sent == PendingSets(ids[..m + 1], outs[..m + 1])
      && (forall i :: 0 <= i < m ==> Settled(outs[i], x.after[i], trace, AnswerAt(outs, i)))
      && (forall i :: m <= i < |outs| ==> Kept(outs[i], x.after[i]))
    decreases |outs|
  {
    FirstTurn(ids[0], outs, trace, results);
    var t, x := Turn(ids[0], outs[0], trace, results), Exchange(ids, outs, trace, results);
    assert ids[..m + 1][1..] == ids[1..][..m] && outs[..m + 1][1..] == outs[1..][..m];
    if m == 0 {
      assert PendingSets(ids[..1][1..], outs[..1][1..]) == [];
    } else {
      assert !Blocks(outs, trace, results, 0);
      BlocksShift(outs, trace, results, m);
      forall i | 0 <= i < m - 1 ensures !Blocks(outs[1..], t.trace, t.results, i) {
        BlocksShift(outs, trace, results, i + 1);
      }
      StopsAt(ids[1..], outs[1..], t.trace, t.results, m - 1);
      assert x.after[1..] == Exchange(ids[1..], outs[1..], t.trace, t.results).after;
      SettledLater(outs, x.after, trace, m);
      forall i | m <= i < |outs| ensures Kept(outs[i], x.after[i]) {
        assert Kept(outs[1..][i - 1], x.after[1..][i - 1]);
      }
    }
  }

  /** An exchange that comes to its end: all outputs are settled, all SETs and EOT were handed to
      send, and it succeeds unless the send of EOT returns 0. */
  lemma {:induction false} GetsThrough(ids: seq<Byte>, outs: seq<Setting>, trace: seq<Option<Packet<real>>>, results: seq<int>)
    requires |ids| == |outs| && forall i :: 0 <= i < |outs| ==> !Blocks(outs, trace, results, i)
    ensures var x := Exchange(ids, outs, trace, results);
      && (x.ok <==> ResultAt(results, AnswerAt(outs, |outs|)) != 0)
      && x.sent == PendingSets(ids, outs) + [EOT]
      && (forall i :: 0 <= i < |outs| ==> Settled(outs[i], x.after[i], trace, AnswerAt(outs, i)))
    decreases |outs|
  {
    if outs == [] {
      assert ResultAt(results, 0) == FirstResult(results);
    } else {
      FirstTurn(ids[0], outs, trace, results);
      var t, x := Turn(ids[0], outs[0], trace, results), Exchange(ids, outs, trace, results);
      assert !Blocks(outs, trace, results, 0);
      forall i | 0 <= i < |outs[1..]| ensures !Blocks(outs[1..], t.trace, t.results, i) {
        BlocksShift(outs, trace, results, i + 1);
      }
      GetsThrough(ids[1..], outs[1..], t.trace, t.results);
      assert x.after[1..] == Exchange(ids[1..], outs[1..], t.trace, t.results).after;
      SettledLater(outs, x.after, trace, |outs|);
      var k := AnswerAt(outs[1..], |outs[1..]|);
      assert ResultAt(Rest(results), k) == ResultAt(results, k + 1);
    }
  }

  lemma {:induction false} FirstThatBlocks(outs: seq<Setting>, trace: seq<Option<Packet<real>>>, results: seq<int>, n: nat) returns (m: nat)
    requires n <= |outs|
    ensures m <= n && (m < n ==> Blocks(outs, trace, results, m))
    ensures forall i :: 0 <= i < m ==> !Blocks(outs, trace, results, i)
  {
    if n == 0 {
      m := 0;
    } else {
      m := FirstThatBlocks(outs, trace, results, n - 1);
      if m == n - 1 && !Blocks(outs, trace, results, m) {
        m := n;
      }
    }
  }

  /** In every exchange, successful or not, the value of an output changes or its pending change
      is cleared only if its SET was answered by ACK. */
  lemma OnlyConfirmedChange(ids: seq<Byte>, outs: seq<Setting>, trace: seq<Option<Packet<real>>>, results: seq<int>, i: nat)
    requires |ids| == |outs| && i < |outs|
    ensures var after := Exchange(ids, outs, trace, results).after[i];
      after.val != outs[i].val || after.change != outs[i].change ==>
        && outs[i].change && Confirmed(trace, AnswerAt(outs, i))
        && after.val == outs[i].expected && !after.change
  {
    var m := FirstThatBlocks(outs, trace, results, |outs|);
    if m < |outs| {
      StopsAt(ids, outs, trace, results, m);
    } else {
      GetsThrough(ids, outs, trace, results);
    }
    var after := Exchange(ids, outs, trace, results).after[i];
    assert Settled(outs[i], after, trace, AnswerAt(outs, i)) || Kept(outs[i], after);
  }

  /** The packets whose send has succeeded. */
  function Delivered(sent: seq<Packet<real>>, results: seq<int>): seq<Packet<real>> {
    if sent == [] then []
    else (if FirstResult(results) > 0 then [sent[0]] else []) + Delivered(sent[1..], Rest(results))
  }

  lemma {:induction false} DeliveredAll(sent: seq<Packet<real>>, results: seq<int>)
    ensures |Delivered(sent, results)| <= |sent|
    ensures Delivered(sent, results) == sent <==> forall k :: 0 <= k < |sent| ==> ResultAt(results, k) > 0
  {
    if sent != [] {
      DeliveredAll(sent[1..], Rest(results));
      assert ResultAt(results, 0) == FirstResult(results);
      assert forall k :: 0 <= k < |sent[1..]| ==> ResultAt(Rest(results), k) == ResultAt(results, k + 1);
      if FirstResult(results) > 0 {
        assert Delivered(sent, results)[1..] == Delivered(sent[1..], Rest(results));
        if forall k :: 0 <= k < |sent[1..]| ==> ResultAt(Rest(results), k) > 0 {
          forall k | 0 <= k < |sent| ensures ResultAt(results, k) > 0 {
            assert k > 0 ==> ResultAt(results, k) == ResultAt(Rest(results), k - 1);
          }
        }
      }
    }
  }

  lemma {:induction false} PendingSetsCount(ids: seq<Byte>, outs: seq<Setting>)
    requires |ids| == |outs|
    ensures |PendingSets(ids, outs)| == AnswerAt(outs, |outs|)
    decreases |outs|
  {
    if outs != [] {
      PendingSetsCount(ids[1..], outs[1..]);
    }
  }

  /** A successful exchange has delivered one SET for each pending change, in the order of the ids,
      and EOT, if and only if every one of its sends has returned more than 0. */
  lemma DeliversExactly(ids: seq<Byte>, outs: seq<Setting>, trace: seq<Option<Packet<real>>>, results: seq<int>)
    requires |ids| == |outs| && Exchange(ids, outs, trace, results).ok
    ensures Delivered(Exchange(ids, outs, trace, results).sent, results) == PendingSets(ids, outs) + [EOT] <==>
      forall k :: 0 <= k <= AnswerAt(outs, |outs|) ==> ResultAt(results, k) > 0
  {
    SuccessfulExchange(ids, outs, trace, results);
    PendingSetsCount(ids, outs);
    DeliveredAll(Exchange(ids, outs, trace, results).sent, results);
  }

  /** On a dead connection, with nothing pending, an exchange succeeds without delivering
      anything. */
  lemma DeadConnectionSucceeds(ids: seq<Byte>, outs: seq<Setting>)
    requires |ids| == |outs| && forall i :: 0 <= i < |outs| ==> !outs[i].change
    ensures var x := Exchange(ids, outs, [], [-1]); x.ok && Delivered(x.sent, [-1]) == []
  {
    NothingPending(ids, outs);
    SucceedsExactly(ids, outs, [], [-1]);
    SuccessfulExchange(ids, outs, [], [-1]);
  }

  lemma {:induction false} NothingPending(ids: seq<Byte>, outs: seq<Setting>)
    requires |ids| == |outs| && forall i :: 0 <= i < |outs| ==> !outs[i].change
    ensures AnswerAt(outs, |outs|) == 0 && PendingSets(ids, outs) == []
    decreases |outs|
  {
    if outs != [] {
      NothingPending(ids[1..], outs[1..]);
    }
  }

  lemma {:induction false} PendingSetsHas(ids: seq<Byte>, outs: seq<Setting>, i: nat)
    requires |ids| == |outs| && i < |outs| && outs[i].change
    ensures SET(ids[i], outs[i].expected) in PendingSets(ids, outs)
    decreases |outs|
  {
    if i > 0 {
      PendingSetsHas(ids[1..], outs[1..], i - 1);
    }
  }

  /** The value of an output refused in one successful exchange is handed to send again in the
      next. */
  lemma {:induction false} RefusedIsSentAgain(ids: seq<Byte>, outs: seq<Setting>, i: nat,
                           trace1: seq<Option<Packet<real>>>, results1: seq<int>,
                           trace2: seq<Option<Packet<real>>>, results2: seq<int>)
    requires |ids| == |outs| && i < |outs| && outs[i].change
    requires Exchange(ids, outs, trace1, results1).ok && Refused(trace1, AnswerAt(outs, i))
    requires Exchange(ids, Exchange(ids, outs, trace1, results1).after, trace2, results2).ok
    ensures SET(ids[i], outs[i].expected) in
      Exchange(ids, Exchange(ids, outs, trace1, results1).after, trace2, results2).sent
  {
    var mid := Exchange(ids, outs, trace1, results1).after;
    SuccessfulExchange(ids, outs, trace1, results1);
    SuccessfulExchange(ids, mid, trace2, results2);
    PendingSetsHas(ids, mid, i);
  }

  /** The settings of the outputs. */
  ghost predicate Have(outputs: seq<Output>, outs: seq<Setting>)
    reads outputs
  {
    |outs| == |outputs| && forall i :: 0 <= i < |outs| ==> outputs[i].View() == outs[i]
  }

  function Ids(outputs: seq<Output>): (r: seq<Byte>)
    ensures |r| == |outputs| && forall i :: 0 <= i < |r| ==> r[i] == outputs[i].id
  {
    seq(|outputs|, i requires 0 <= i < |outputs| => outputs[i].id)
  }

  method TakeTurn(conn: Connection<real>, output: Output) returns (go: bool)
    modifies conn, output
    ensures var t := Turn(output.id, old(output.View()), old(conn.incoming), old(conn.results));
      && go == t.go && output.View() == t.after && conn.sent == old(conn.sent) + t.sent
      && conn.incoming == t.trace && conn.results == t.results
  {
    var isChange, value := output.BeginSetting();
    if isChange {
      var result := conn.Send(SET(output.id, value));
      if result == 0 {
        return false;
      }
      var packet := conn.NextPacket();
      if packet.Some? && packet.value.ACK? {
        output.FinalizeSetting();
      } else if packet.Some? && packet.value.NAK? {
      } else {
        return false;
      }
    }
    return true;
  }

  /** The exchange x has come to output |done|, with `said` sent so far, earlier packets included. */
  ghost predicate Under(x: Exchanged, ids: seq<Byte>, outs: seq<Setting>, done: seq<Setting>,
                        said: seq<Packet<real>>, trace: seq<Option<Packet<real>>>, results: seq<int>) {
    && |done| <= |outs| == |ids|
    && var left := Exchange(ids[|done|..], outs[|done|..], trace, results);
       x == Exchanged(left.ok, done + left.after, said + left.sent)
  }

  lemma UnderStart(ids: seq<Byte>, outs: seq<Setting>, said: seq<Packet<real>>,
                   trace: seq<Option<Packet<real>>>, results: seq<int>) returns (x: Exchanged)
    requires |ids| == |outs|
    ensures Under(x, ids, outs, [], said, trace, results)
    ensures var y := Exchange(ids, outs, trace, results);
      x.ok == y.ok && x.after == y.after && x.sent == said + y.sent
  {
    x := Exchange(ids, outs, trace, results);
    x := x.(sent := said + x.sent);
    assert ids[0..] == ids && outs[0..] == outs;
  }

  lemma UnderStep(x: Exchanged, ids: seq<Byte>, outs: seq<Setting>, done: seq<Setting>,
                  said: seq<Packet<real>>, trace: seq<Option<Packet<real>>>, results: seq<int>)
    requires Under(x, ids, outs, done, said, trace, results) && |done| < |outs|
    ensures var t := Turn(ids[|done|], outs[|done|], trace, results);
      if t.go then Under(x, ids, outs, done + [t.after], said + t.sent, t.trace, t.results)
      else x == Exchanged(false, done + [t.after] + outs[|done| + 1..], said + t.sent)
  {
  }

  lemma UnderEnd(x: Exchanged, ids: seq<Byte>, outs: seq<Setting>, done: seq<Setting>,
                 said: seq<Packet<real>>, trace: seq<Option<Packet<real>>>, results: seq<int>)
    requires Under(x, ids, outs, done, said, trace, results) && |done| == |outs|
    ensures x == Exchanged(FirstResult(results) != 0, done, said + [EOT])
  {
  }

  /** The first |done| outputs have had their turn. */
  ghost predicate HaveSome(outputs: seq<Output>, done: seq<Setting>, outs: seq<Setting>)
    requires |done| <= |outs| == |outputs|
    reads outputs
  {
    forall k :: 0 <= k < |outputs| ==> outputs[k].View() == if k < |done| then done[k] else outs[k]
  }

  lemma HaveAll(outputs: seq<Output>, done: seq<Setting>, outs: seq<Setting>)
    requires |done| <= |outs| == |outputs| && HaveSome(outputs, done, outs)
    ensures Have(outputs, done + outs[|done|..])
    ensures |done| == |outs| ==> done + outs[|done|..] == done
  {
  }

  /** The loop of setValues; x is what the whole call amounts to. */
  method SetEach(conn: Connection<real>, outputs: seq<Output>, ghost outs: seq<Setting>, ghost x: Exchanged)
    returns (go: bool)
    requires forall i, j :: 0 <= i < j < |outputs| ==> outputs[i] != outputs[j]
    requires Have(outputs, outs) && Under(x, Ids(outputs), outs, [], conn.sent, conn.incoming, conn.results)
    modifies conn, outputs
    ensures Have(outputs, x.after)
    ensures go ==> x.ok == (FirstResult(conn.results) != 0) && x.sent == conn.sent + [EOT]
    ensures !go ==> !x.ok && x.sent == conn.sent
  {
    ghost var ids := Ids(outputs);
    ghost var done: seq<Setting> := [];
    var i := 0;
    while i < |outputs|
      invariant i == |done| <= |outputs|
      invariant HaveSome(outputs, done, outs)
      invariant Under(x, ids, outs, done, conn.sent, conn.incoming, conn.results)
    {
      ghost var t := Turn(ids[i], outs[i], conn.incoming, conn.results);
      UnderStep(x, ids, outs, done, conn.sent, conn.incoming, conn.results);
      go := TakeTurn(conn, outputs[i]);
      done := done + [t.after];
      i := i + 1;
      if !go {
        HaveAll(outputs, done, outs);
        return;
      }
    }
    HaveAll(outputs, done, outs);
    UnderEnd(x, ids, outs, done, conn.sent, conn.incoming, conn.results);
    go := true;
  }

  /** Client::setValues over the outputs in the order of the map; `outs` are their settings. */
  method SetValues(conn: Connection<real>, outputs: seq<Output>, ghost outs: seq<Setting>) returns (ok: bool)
    requires forall i, j :: 0 <= i < j < |outputs| ==> outputs[i] != outputs[j]
    requires Have(outputs, outs)
    modifies conn, outputs
    ensures var x := Exchange(Ids(outputs), outs, old(conn.incoming), old(conn.results));
      ok == x.ok && Have(outputs, x.after) && conn.sent == old(conn.sent) + x.sent
  {
    ghost var x := UnderStart(Ids(outputs), outs, conn.sent, conn.incoming, conn.results);
    ok := SetEach(conn, outputs, outs, x);
    if ok {
      var result := conn.Send(EOT);
      ok := result != 0;
    }
  }
}

/** Client::tryDataExchange and the branch of Client::tryUnregister. */
module DataExchange {
  import opened Wrappers
  import opened Packets
  import opened Connections
  import opened Values
  import opened InputExchange
  import opened OutputExchange

  /** What becomes of one connection of a registered device. */
  datatype Conclusion =
    | Served   // values taken and settings given: true
    | ToldExit // values taken and EXIT sent because the server is going down: true
    | Leaves   // the device sent EXIT in place of its values: true, and it is unregistered
    | Failed   // false

  predicate IsExit(p: Option<Packet<real>>) {
    p.Some? && p.value.EXIT?
  }

  /** `encrypted` is the session key encrypted for the device, None if that failed. */
  function Concludes(encrypted: Option<seq<Byte>>, end: bool, ids: seq<Byte>, outs: seq<Setting>,
                     trace: seq<Option<Packet<real>>>, results: seq<int>): Conclusion
    requires |ids| == |outs|
  {
    if encrypted.None? || FirstResult(results) <= 0 then Failed
    else if Stop(trace) == Some(EOT) then
      if end then if FirstResult(Rest(results)) > 0 then ToldExit else Failed
      else if Exchange(ids, outs, Beyond(trace), Rest(results)).ok then Served else Failed
    else if IsExit(Stop(trace)) then Leaves else Failed
  }

  /** Which of the ways it takes, on the results of its sends and the first packet that is no
      VAL. */
  lemma ConcludesExactly(encrypted: Option<seq<Byte>>, end: bool, ids: seq<Byte>, outs: seq<Setting>,
                         trace: seq<Option<Packet<real>>>, results: seq<int>)
    requires |ids| == |outs|
    ensures var c := Concludes(encrypted, end, ids, outs, trace, results);
      var keySent := encrypted.Some? && results != [] && results[0] > 0;
      && (c == Leaves <==> keySent && Stop(trace).Some? && Stop(trace).value.EXIT?)
      && (c == ToldExit <==> keySent && Stop(trace) == Some(EOT) && end && |results| > 1 && results[1] > 0)
      && (c == Served <==>
            keySent && Stop(trace) == Some(EOT) && !end && Exchange(ids, outs, Beyond(trace), results[1..]).ok)
  {
  }

  /** Settings are given as SETs and EOT only. */
  lemma {:induction false} NeverExit(ids: seq<Byte>, outs: seq<Setting>, trace: seq<Option<Packet<real>>>, results: seq<int>)
    requires |ids| == |outs|
    ensures forall p :: p in Exchange(ids, outs, trace, results).sent ==> p.SET? || p == EOT
    decreases |outs|
  {
    if outs != [] {
      var t := Turn(ids[0], outs[0], trace, results);
      NeverExit(ids[1..], outs[1..], t.trace, t.results);
    }
  }

  /** The client's `used` flag is set exactly when the call returns true.  On failure the packet
      that stopped the values is still the receiver's current one, for the caller to look at. */
  method TryDataExchange(conn: Connection<real>, encrypted: Option<seq<Byte>>, end: bool,
                         inputs: map<Byte, Input>, outputs: seq<Output>, ghost outs: seq<Setting>, used: bool)
    returns (conclusion: Conclusion, nowUsed: bool)
    requires Separate(inputs) && Have(outputs, outs)
    requires forall i, j :: 0 <= i < j < |outputs| ==> outputs[i] != outputs[j]
    modifies conn, inputs.Values, outputs
    ensures conclusion == Concludes(encrypted, end, Ids(outputs), outs, old(conn.incoming), old(conn.results))
    ensures nowUsed <==> used || conclusion != Failed
    ensures encrypted.None? ==> conn.sent == old(conn.sent) && Have(outputs, outs)
    ensures encrypted.None? || FirstResult(old(conn.results)) <= 0 ==>
      forall id :: id in inputs ==> inputs[id].View() == old(inputs[id].View())
    ensures encrypted.Some? && (FirstResult(old(conn.results)) <= 0 || Stop(old(conn.incoming)) != Some(EOT)) ==>
      conn.sent == old(conn.sent) + [KEY(encrypted.value)] && Have(outputs, outs)
    ensures encrypted.Some? && FirstResult(old(conn.results)) > 0 && Stop(old(conn.incoming)) == Some(EOT) && end ==>
      conn.sent == old(conn.sent) + [KEY(encrypted.value), EXIT(0)] && Have(outputs, outs)
    ensures encrypted.Some? && FirstResult(old(conn.results)) > 0 && Stop(old(conn.incoming)) == Some(EOT) && !end ==>
      var x := Exchange(Ids(outputs), outs, Beyond(old(conn.incoming)), Rest(old(conn.results)));
      && conn.sent == old(conn.sent) + [KEY(encrypted.value)] + x.sent
      && Have(outputs, x.after) && forall p :: p in x.sent ==> !p.EXIT?
    ensures encrypted.Some? && FirstResult(old(conn.results)) > 0 ==>
      forall id :: id in inputs ==>
        inputs[id].View() == Else(LastFor(Vals(old(conn.incoming)), id), old(inputs[id].View()))
    ensures encrypted.Some? && FirstResult(old(conn.results)) > 0 && Stop(old(conn.incoming)) != Some(EOT) ==>
      conn.curr == Stop(old(conn.incoming))
  {
    if encrypted.None? {
      return Failed, used;
    }
    var sent := conn.Send(KEY(encrypted.value));
    if sent <= 0 {
      return Failed, used;
    }
    var got := GetValues(conn, inputs);
    if got {
      if end {
        var told := conn.Send(EXIT(0));
        return if told > 0 then ToldExit else Failed, used || told > 0;
      } else {
        NeverExit(Ids(outputs), outs, conn.incoming, conn.results);
        var ok := SetValues(conn, outputs, outs);
        return if ok then Served else Failed, used || ok;
      }
    }
    var leaves := conn.curr.Some? && conn.curr.value.EXIT?;
    return if leaves then Leaves else Failed, used || leaves;
  }
}
