/** Packets of the message queue: queuePacket.cpp and queuePacket.h. */
module QueuePackets {
  import opened Wrappers
  import opened Services
  import opened PacketBytes

  const PAK_NAK: Byte := 0x12
  const PAK_EOT: Byte := 0x13
  const PAK_DESC: Byte := 0x14
  const PAK_VAL: Byte := 0x15
  const PAK_GET: Byte := 0x16
  const PAK_SET: Byte := 0x17
  const PAK_EXIT: Byte := 0x18

  datatype QueuePacket =
    | Q_NAK(id: Byte)
    | Q_EOT
    | Q_DESC(id: Byte, kind: Byte, name: seq<Byte>, unit: seq<Byte>, min: Float, max: Float)
    | Q_VAL(id: Byte, value: Float, timestamp: seq<Byte>)
    | Q_GET(id: Byte)
    | Q_SET(id: Byte, value: Float)
    | Q_EXIT(id: Byte)

  /** What the constructors accept; that of Q_DESC throws for longer units. */
  predicate Constructible(q: QueuePacket) {
    match q
    case Q_DESC(_, _, _, unit, _, _) => |unit| <= 3
    case Q_VAL(_, _, t) => |t| == 4
    case _ => true
  }

  /** C strings end at their first 0. */
  predicate NulFree(q: QueuePacket) {
    q.Q_DESC? ==> 0 !in q.name && 0 !in q.unit
  }

  function EncodeQueue(q: QueuePacket, junk: seq<Byte>): seq<Byte>
    requires Constructible(q)
  {
    match q
    case Q_NAK(id) => [PAK_NAK, id]
    case Q_EOT => [PAK_EOT]
    case Q_DESC(id, kind, name, unit, min, max) => [PAK_DESC, id, kind] + Tail(name, unit, min, max, junk)
    case Q_VAL(id, value, t) => [PAK_VAL, id] + value + t
    case Q_GET(id) => [PAK_GET, id]
    case Q_SET(id, value) => [PAK_SET, id] + value
    case Q_EXIT(id) => [PAK_EXIT, id]
  }

  /** Where everything lies, byte by byte. */
  lemma QueueLayout(q: QueuePacket, junk: seq<Byte>)
    requires Constructible(q)
    ensures var b := EncodeQueue(q, junk);
      var n := |b|;
      match q
      case Q_NAK(id) => b == [0x12, id]
      case Q_EOT => b == [0x13]
      case Q_DESC(id, kind, name, unit, min, max) =>
        && n == |name| + 16 && b[0] == 0x14 && b[1] == id && b[2] == kind && b[3..|name| + 4] == name + [0]
        && b[n - 12..n - 12 + |unit| + 1] == unit + [0] && b[n - 8..n - 4] == min && b[n - 4..] == max
      case Q_VAL(id, value, t) => n == 10 && b[0] == 0x15 && b[1] == id && b[2..6] == value && b[6..] == t
      case Q_GET(id) => b == [0x16, id]
      case Q_SET(id, value) => n == 6 && b[0] == 0x17 && b[1] == id && b[2..] == value
      case Q_EXIT(id) => b == [0x18, id]
  {
    match q
    case Q_DESC(id, kind, name, unit, min, max) => TailLayout([PAK_DESC, id, kind], name, unit, min, max, junk);
    case _ =>
  }

  /** packetFromQueue and the getters of the packet it makes.  Messages of an unknown type or
      shorter than their class are not modelled. */
  function DecodeQueue(b: seq<Byte>): Option<QueuePacket> {
    if b == [] then None
    else if b[0] == PAK_NAK && |b| >= 2 then Some(Q_NAK(b[1]))
    else if b[0] == PAK_EOT then Some(Q_EOT)
    else if b[0] == PAK_DESC && |b| >= 16 then
      match ReadTail(b[3..])
      case Some((name, unit, min, max)) => Some(Q_DESC(b[1], b[2], name, unit, min, max))
      case None => None
    else if b[0] == PAK_VAL && |b| >= 10 then Some(Q_VAL(b[1], b[2..6], b[6..10]))
    else if b[0] == PAK_GET && |b| >= 2 then Some(Q_GET(b[1]))
    else if b[0] == PAK_SET && |b| >= 6 then Some(Q_SET(b[1], b[2..6]))
    else if b[0] == PAK_EXIT && |b| >= 2 then Some(Q_EXIT(b[1]))
    else None
  }

  lemma QueueRoundTrip(q: QueuePacket, junk: seq<Byte>)
    requires Constructible(q) && NulFree(q)
    ensures DecodeQueue(EncodeQueue(q, junk)) == Some(q)
  {
    var b := EncodeQueue(q, junk);
    match q
    case Q_DESC(id, kind, name, unit, min, max) =>
      TailReads(name, unit, min, max, junk);
      assert b[3..] == Tail(name, unit, min, max, junk);
    case Q_VAL(id, value, t) => assert b[2..6] == value && b[6..10] == t;
    case Q_SET(id, value) => assert b[2..6] == value;
    case _ =>
  }
}

/** From a DESC on the socket to the Service in the table to the Q_DESC on the queue, and from
    the messages of Server.cpp to the table the second process rebuilds from their bytes. */
module Translation {
  import opened Wrappers
  import opened Services
  import opened Packets
  import opened PacketBytes
  import opened QueuePackets
  import opened ServerMirror

  /** Strings read by the getters stop at the first 0. */
  lemma {:induction false} CStringIsNulFree(s: seq<Byte>)
    ensures CString(s).Some? ==> 0 !in CString(s).value
  {
    if s != [] && s[0] != 0 {
      CStringIsNulFree(s[1..]);
    }
  }

  function AsQueuePacket(m: Message): QueuePacket {
    match m
    case QDesc(s) => Q_DESC(s.id, s.kind, s.name, s.unit, s.min, s.max)
    case QExit(id) => Q_EXIT(id)
  }

  predicate Audible(m: Message) {
    Constructible(AsQueuePacket(m)) && NulFree(AsQueuePacket(m))
  }

  /** The gateway: registerServices makes a service of a received DESC, addService a Q_DESC of
      the service.  None if the factory returns null or the constructor of Q_DESC throws. */
  function Announcement(id: Byte, received: Wired, junk: seq<Byte>): Option<seq<Byte>>
    requires received.DESC?
  {
    match ServiceFactory(id, received.kind, received.name, received.unit, received.min, received.max)
    case None => None
    case Some(s) => if |s.unit| > 3 then None else Some(EncodeQueue(AsQueuePacket(QDesc(s)), junk))
  }

  /** Whatever bytes were received, if they read as a DESC then they are announced exactly when
      the class is known and the unit short enough, and the announcement reads as the assigned
      id with the class, name, unit, minimum and maximum of the DESC. */
  lemma TranslationKeepsMeaning(id: Byte, bytes: seq<Byte>, junk: seq<Byte>)
    requires Decode(bytes).Some? && Decode(bytes).value.DESC?
    ensures var d, a := Decode(bytes).value, Announcement(id, Decode(bytes).value, junk);
      && (a.Some? <==> d.kind <= 3 && |d.unit| <= 3)
      && (a.Some? ==> DecodeQueue(a.value) == Some(Q_DESC(id, d.kind, d.name, d.unit, d.min, d.max)))
  {
    var d := Decode(bytes).value;
    var r := bytes[2..];
    CStringIsNulFree(r);
    CStringIsNulFree(r[|r| - 12..]);
    if d.kind <= 3 && |d.unit| <= 3 {
      QueueRoundTrip(Q_DESC(id, d.kind, d.name, d.unit, d.min, d.max), junk);
    }
  }

  /** From the device to the second process: every description with strings a device can send is
      announced under the assigned id with all its fields. */
  lemma DeviceToQueue(id: Byte, d: Wired, junk: seq<Byte>, queueJunk: seq<Byte>)
    requires d.DESC? && WellFormed(d) && d.kind <= 3
    ensures var received := Decode(Encode(d, junk));
      && received == Some(d)
      && Announcement(id, d, queueJunk).Some?
      && DecodeQueue(Announcement(id, d, queueJunk).value) == Some(Q_DESC(id, d.kind, d.name, d.unit, d.min, d.max))
  {
    DecodeEncode(d, junk);
    TranslationKeepsMeaning(id, Encode(d, junk), queueJunk);
  }

  /** What the second process makes of the bytes of one message. */
  function Heard(b: seq<Byte>): Option<Message> {
    match DecodeQueue(b)
    case Some(Q_DESC(id, kind, name, unit, min, max)) => Some(QDesc(Service(id, kind, name, unit, min, max)))
    case Some(Q_EXIT(id)) => Some(QExit(id))
    case _ => None
  }

  function HeardAll(bs: seq<seq<Byte>>): seq<Message> {
    if bs == [] then []
    else match Heard(bs[0])
      case Some(m) => [m] + HeardAll(bs[1..])
      case None => HeardAll(bs[1..])
  }

  /** The bytes of messages, each with what lay behind its unit. */
  function QueueBytes(sent: seq<Message>, junks: seq<seq<Byte>>): seq<seq<Byte>>
    requires |junks| == |sent|
    requires forall i :: 0 <= i < |sent| ==> Audible(sent[i])
  {
    if sent == [] then []
    else
      assert Audible(sent[0]);
      [EncodeQueue(AsQueuePacket(sent[0]), junks[0])] + QueueBytes(sent[1..], junks[1..])
  }

  lemma {:induction false} EverythingIsHeard(sent: seq<Message>, junks: seq<seq<Byte>>)
    requires |junks| == |sent|
    requires forall i :: 0 <= i < |sent| ==> Audible(sent[i])
    ensures HeardAll(QueueBytes(sent, junks)) == sent
  {
    if sent != [] {
      QueueRoundTrip(AsQueuePacket(sent[0]), junks[0]);
      EverythingIsHeard(sent[1..], junks[1..]);
    }
  }

  predicate Spoken(ops: seq<Op>) {
    forall op :: op in ops && op.AddService? ==> 0 !in op.service.name && 0 !in op.service.unit
  }

  lemma {:induction false} AllAudible(t: State, ops: seq<Op>)
    requires AllAllowed(t, ops) && Spoken(ops)
    requires forall i :: 0 <= i < |t.sent| ==> Audible(t.sent[i])
    ensures forall i :: 0 <= i < |After(t, ops).sent| ==> Audible(After(t, ops).sent[i])
    decreases |ops|
  {
    if ops != [] {
      assert ops[0] in ops;
      AllAudible(Next(t, ops[0]), ops[1..]);
    }
  }

  /** After every run of atomic operations, the bytes on the queue alone rebuild the table, with
      the class, name, unit, minimum and maximum of every service. */
  lemma BytesRebuildTheTable(ops: seq<Op>, junks: seq<seq<Byte>>)
    requires AllAllowed(START, ops) && Spoken(ops) && |junks| == |After(START, ops).sent|
    ensures var sent := After(START, ops).sent; forall i :: 0 <= i < |sent| ==> Audible(sent[i])
    ensures Replay(HeardAll(QueueBytes(After(START, ops).sent, junks))) == After(START, ops).ids.occupied
  {
    AllAudible(START, ops);
    EverythingIsHeard(After(START, ops).sent, junks);
    MirrorAgrees(START, ops);
  }
}
