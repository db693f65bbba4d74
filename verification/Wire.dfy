/** Packet buffers: the constructors, the getters and the switch of packet.cpp and packet.h. */
module PacketBytes {
  import opened Wrappers
  import opened Services
  import opened Packets

  type Wired = Packet<Float>

  const PCK_ACK: Byte := 0x01
  const PCK_NAK: Byte := 0x02
  const PCK_EOT: Byte := 0x03
  const PCK_CHALL: Byte := 0x04
  const PCK_CHALL_RESP: Byte := 0x05
  const PCK_KEY: Byte := 0x06
  const PCK_DESC: Byte := 0x07
  const PCK_VAL: Byte := 0x08
  const PCK_SET: Byte := 0x09
  const PCK_EXIT: Byte := 0x0a
  const PCK_ID: Byte := 0x0b

  /** The bytes of a C string up to its terminating 0; None if there is none. */
  function CString(s: seq<Byte>): Option<seq<Byte>> {
    if s == [] then None
    else if s[0] == 0 then Some([])
    else match CString(s[1..])
      case None => None
      case Some(t) => Some([s[0]] + t)
  }

  lemma {:induction false} CStringOf(s: seq<Byte>, tail: seq<Byte>)
    requires 0 !in s
    ensures CString(s + [0] + tail) == Some(s)
  {
    if s == [] {
      assert s + [0] + tail == [0] + tail;
    } else {
      assert (s + [0] + tail)[1..] == s[1..] + [0] + tail;
      CStringOf(s[1..], tail);
      assert [s[0]] + s[1..] == s;
    }
  }

  /** The four bytes that memcpy takes from the C string of a unit; what follows the
      terminating 0 is whatever lies there. */
  function UnitField(unit: seq<Byte>, junk: seq<Byte>): (r: seq<Byte>)
    requires |unit| <= 3
    ensures |r| == 4
  {
    (unit + [0] + junk + [0, 0, 0])[..4]
  }

  lemma UnitFieldReads(unit: seq<Byte>, junk: seq<Byte>, tail: seq<Byte>)
    requires |unit| <= 3 && 0 !in unit
    ensures CString(UnitField(unit, junk) + tail) == Some(unit)
  {
    var rest := UnitField(unit, junk)[|unit| + 1..] + tail;
    assert UnitField(unit, junk) + tail == unit + [0] + rest;
    CStringOf(unit, rest);
  }

  /** The common end of DESC and Q_DESC: name, unit, minimum, maximum. */
  function Tail(name: seq<Byte>, unit: seq<Byte>, min: Float, max: Float, junk: seq<Byte>): (r: seq<Byte>)
    requires |unit| <= 3
    ensures |r| == |name| + 13
  {
    name + [0] + UnitField(unit, junk) + min + max
  }

  /** What the getters read from it; the last three fields sit at fixed distances from the end. */
  function ReadTail(r: seq<Byte>): Option<(seq<Byte>, seq<Byte>, Float, Float)>
    requires |r| >= 13
  {
    var n := |r|;
    match (CString(r), CString(r[n - 12..]))
    case (Some(name), Some(unit)) => Some((name, unit, r[n - 8..n - 4], r[n - 4..]))
    case _ => None
  }

  lemma TailReads(name: seq<Byte>, unit: seq<Byte>, min: Float, max: Float, junk: seq<Byte>)
    requires 0 !in name && |unit| <= 3 && 0 !in unit
    ensures ReadTail(Tail(name, unit, min, max, junk)) == Some((name, unit, min, max))
  {
    var u := UnitField(unit, junk);
    var r := Tail(name, unit, min, max, junk);
    var n := |r|;
    assert r == name + [0] + (u + min + max);
    CStringOf(name, u + min + max);
    assert r[n - 12..] == u + (min + max);
    UnitFieldReads(unit, junk, min + max);
    assert r[n - 8..n - 4] == min && r[n - 4..] == max;
  }

  /** Fields of the sizes of the class of the packet. */
  predicate WellFormed(p: Wired) {
    match p
    case CHALL(c) => |c| == 8
    case CHALL_RESP(r) => |r| == 256
    case KEY(k) => |k| == 256
    case DESC(_, name, unit, _, _) => 0 !in name && |unit| <= 3 && 0 !in unit
    case VAL(_, _, t) => |t| == 4
    case _ => true
  }

  /** The types the factory knows. */
  predicate Known(p: Wired) {
    !p.SET?
  }

  /** The buffer of a packet. */
  function Encode(p: Wired, junk: seq<Byte>): (r: seq<Byte>)
    requires WellFormed(p)
    ensures r != []
  {
    match p
    case ACK(id) => [PCK_ACK, id]
    case NAK(id) => [PCK_NAK, id]
    case EOT => [PCK_EOT]
    case CHALL(c) => [PCK_CHALL] + c
    case CHALL_RESP(r) => [PCK_CHALL_RESP] + r
    case KEY(k) => [PCK_KEY] + k
    case DESC(kind, name, unit, min, max) => [PCK_DESC, kind] + Tail(name, unit, min, max, junk)
    case VAL(id, value, t) => [PCK_VAL, id] + value + t
    case SET(id, value) => [PCK_SET, id] + value
    case EXIT(code) => [PCK_EXIT, code]
    case ID(id) => [PCK_ID, id]
  }

  lemma TailLayout(head: seq<Byte>, name: seq<Byte>, unit: seq<Byte>, min: Float, max: Float, junk: seq<Byte>)
    requires |unit| <= 3
    ensures var b := head + Tail(name, unit, min, max, junk);
      var h, n := |head|, |b|;
      && n == h + |name| + 13 && b[h..h + |name| + 1] == name + [0]
      && b[n - 12..n - 12 + |unit| + 1] == unit + [0] && b[n - 8..n - 4] == min && b[n - 4..] == max
  {
    var rest := UnitField(unit, junk) + min + max;
    var b := head + Tail(name, unit, min, max, junk);
    assert b == head + (name + [0]) + rest;
    assert b[|head| + |name| + 1..] == rest;
    assert UnitField(unit, junk)[..|unit| + 1] == unit + [0];
    assert rest[..|unit| + 1] == unit + [0] && rest[4..8] == min && rest[8..] == max;
  }

  /** Where everything lies, byte by byte: the type, then the fields; the strings of DESC with
      their 0, and its last fields at fixed distances from the end. */
  lemma PacketLayout(p: Wired, junk: seq<Byte>)
    requires WellFormed(p)
    ensures var b := Encode(p, junk);
      var n := |b|;
      match p
      case ACK(id) => b == [0x01, id]
      case NAK(id) => b == [0x02, id]
      case EOT => b == [0x03]
      case CHALL(c) => n == 9 && b[0] == 0x04 && b[1..] == c
      case CHALL_RESP(r) => n == 257 && b[0] == 0x05 && b[1..] == r
      case KEY(k) => n == 257 && b[0] == 0x06 && b[1..] == k
      case DESC(kind, name, unit, min, max) =>
        && n == |name| + 15 && b[0] == 0x07 && b[1] == kind && b[2..|name| + 3] == name + [0]
        && b[n - 12..n - 12 + |unit| + 1] == unit + [0] && b[n - 8..n - 4] == min && b[n - 4..] == max
      case VAL(id, value, t) => n == 10 && b[0] == 0x08 && b[1] == id && b[2..6] == value && b[6..] == t
      case SET(id, value) => n == 6 && b[0] == 0x09 && b[1] == id && b[2..] == value
      case EXIT(code) => b == [0x0a, code]
      case ID(id) => b == [0x0b, id]
  {
    match p
    case DESC(kind, name, unit, min, max) => TailLayout([PCK_DESC, kind], name, unit, min, max, junk);
    case _ =>
  }

  /** The switch of the factory and the getters of the packet it makes.  A buffer shorter than
      the class of its type is not modelled. */
  function Decode(b: seq<Byte>): Option<Wired> {
    if b == [] then None
    else if b[0] == PCK_ACK && |b| >= 2 then Some(ACK(b[1]))
    else if b[0] == PCK_NAK && |b| >= 2 then Some(NAK(b[1]))
    else if b[0] == PCK_EOT then Some(EOT)
    else if b[0] == PCK_CHALL && |b| >= 9 then Some(CHALL(b[1..9]))
    else if b[0] == PCK_CHALL_RESP && |b| >= 257 then Some(CHALL_RESP(b[1..257]))
    else if b[0] == PCK_KEY && |b| >= 257 then Some(KEY(b[1..257]))
    else if b[0] == PCK_DESC && |b| >= 15 then
      match ReadTail(b[2..])
      case Some((name, unit, min, max)) => Some(DESC(b[1], name, unit, min, max))
      case None => None
    else if b[0] == PCK_VAL && |b| >= 10 then Some(VAL(b[1], b[2..6], b[6..10]))
    else if b[0] == PCK_EXIT && |b| >= 2 then Some(EXIT(b[1]))
    else if b[0] == PCK_ID && |b| >= 2 then Some(ID(b[1]))
    else None
  }

  /** The getters give back every field of every packet of a known type. */
  lemma DecodeEncode(p: Wired, junk: seq<Byte>)
    requires WellFormed(p)
    ensures Decode(Encode(p, junk)) == if Known(p) then Some(p) else None
  {
    var b := Encode(p, junk);
    match p
    case DESC(kind, name, unit, min, max) =>
      TailReads(name, unit, min, max, junk);
      assert b[2..] == Tail(name, unit, min, max, junk);
    case CHALL(c) => assert b[1..9] == c;
    case CHALL_RESP(r) => assert b[1..257] == r;
    case KEY(k) => assert b[1..257] == k;
    case VAL(id, value, t) =>
      assert b[2..6] == value && b[6..10] == t;
    case _ =>
  }

  /** The switch of the factory over its buffer.  The class of DESC is handed the length in the
      header, and its getters count from that end; the other classes take their fixed sizes.  A
      class longer than the buffer is not modelled. */
  function DecodeSized(b: seq<Byte>, plain: nat): Option<Wired>
    requires plain <= |b|
  {
    if b != [] && b[0] == PCK_DESC then Decode(b[..plain]) else Decode(b)
  }

  /** What lies behind a packet in the buffer does not matter. */
  lemma DecodeInBuffer(p: Wired, junk: seq<Byte>, rest: seq<Byte>)
    requires WellFormed(p)
    ensures DecodeSized(Encode(p, junk) + rest, |Encode(p, junk)|) == if Known(p) then Some(p) else None
  {
    var e := Encode(p, junk);
    DecodeEncode(p, junk);
    assert (e + rest)[..|e|] == e;
    if !p.DESC? {
      SameFields(e, rest);
    }
  }

  lemma SameFields(b: seq<Byte>, rest: seq<Byte>)
    requires Decode(b).Some? || (b != [] && b[0] == PCK_SET)
    requires b != [] && b[0] != PCK_DESC
    ensures Decode(b + rest) == Decode(b)
  {
    var c := b + rest;
    assert |b| >= 257 ==> c[1..257] == b[1..257];
    assert |b| >= 10 ==> c[2..6] == b[2..6] && c[6..10] == b[6..10];
    assert |b| >= 9 ==> c[1..9] == b[1..9];
  }

  /** Which packets travel encrypted: the subclasses of EncrptedPacket. */
  predicate Encrypted(p: Wired) {
    p.ACK? || p.NAK? || p.EOT? || p.DESC? || p.VAL? || p.SET? || p.EXIT?
  }

  /** The types the factory refuses in plaintext. */
  predicate MustBeEncrypted(t: Byte) {
    t == PCK_ACK || t == PCK_NAK || t == PCK_EOT || t == PCK_DESC || t == PCK_VAL || t == PCK_EXIT
  }
}

/** The symmetric cipher, abstract but for its lengths, and the layout of sesskey.cpp. */
module Ciphers {
  import opened Wrappers

  /** Encryption and decryption under a key and an initialisation vector, and the decryption of
      all blocks but the last, which comes out whether or not the padding turns out right. */
  datatype Cipher = Cipher(
    enc: (seq<Byte>, seq<Byte>, seq<Byte>) -> seq<Byte>,
    dec: (seq<Byte>, seq<Byte>, seq<Byte>) -> Option<seq<Byte>>,
    update: (seq<Byte>, seq<Byte>, seq<Byte>) -> seq<Byte>)

  /** Section 6.3 of RFC 5652: one to sixteen bytes are added. */
  function PaddedLen(n: nat): (r: nat)
    ensures n < r <= n + 16 && r % 16 == 0
  {
    n + (16 - n % 16)
  }

  function EncryptedLen(plain: nat): nat {
    plain + (16 - plain % 16) + 16
  }

  ghost predicate Sound(c: Cipher) {
    && (forall key, iv, p ::
          |c.enc(key, iv, p)| == PaddedLen(|p|) && c.dec(key, iv, c.enc(key, iv, p)) == Some(p))
    && (forall key, iv, t :: WholeBlocks(t) ==>
          |c.update(key, iv, t)| == |t| - 16 && PaddingRight(c.dec(key, iv, t), c.update(key, iv, t), |t|))
  }

  predicate WholeBlocks(t: seq<Byte>) {
    t != [] && |t| % 16 == 0
  }

  /** If the padding is right, the plaintext goes on where the first blocks end. */
  predicate PaddingRight(plain: Option<seq<Byte>>, first: seq<Byte>, n: nat) {
    plain.Some? ==> first <= plain.value && |plain.value| <= n
  }

  /** Sesskey::encrypt: the ciphertext, then the initialisation vector. */
  function Seal(c: Cipher, key: seq<Byte>, iv: seq<Byte>, p: seq<Byte>): seq<Byte> {
    c.enc(key, iv, p) + iv
  }

  /** Sesskey::decrypt. */
  function Open(c: Cipher, key: seq<Byte>, sealed: seq<Byte>): Option<seq<Byte>>
    requires |sealed| >= 16
  {
    c.dec(key, sealed[|sealed| - 16..], sealed[..|sealed| - 16])
  }

  /** What Sesskey::decrypt writes: the plaintext, or all blocks but the last if the padding is
      wrong. */
  function Decrypted(c: Cipher, key: seq<Byte>, sealed: seq<Byte>): seq<Byte>
    requires |sealed| >= 16
  {
    match Open(c, key, sealed)
    case Some(p) => p
    case None => c.update(key, sealed[|sealed| - 16..], sealed[..|sealed| - 16])
  }

  lemma OpenSeal(c: Cipher, key: seq<Byte>, iv: seq<Byte>, p: seq<Byte>)
    requires Sound(c) && |iv| == 16
    ensures |Seal(c, key, iv, p)| == EncryptedLen(|p|)
    ensures Open(c, key, Seal(c, key, iv, p)) == Some(p)
  {
  }

  /** The vector is the last sixteen bytes, on both sides. */
  lemma SealedLayout(c: Cipher, key: seq<Byte>, iv: seq<Byte>, p: seq<Byte>, text: seq<Byte>)
    requires |iv| == 16
    ensures Seal(c, key, iv, p) == c.enc(key, iv, p) + iv
    ensures Open(c, key, text + iv) == c.dec(key, iv, text)
  {
    assert (text + iv)[|text|..] == iv && (text + iv)[..|text|] == text;
  }

  function Pad(p: seq<Byte>): seq<Byte> {
    p + seq(16 - |p| % 16, i => (16 - |p| % 16) as Byte)
  }

  function Unpad(s: seq<Byte>): Option<seq<Byte>> {
    if |s| >= 16 && 1 <= s[|s| - 1] <= 16 then Some(s[..|s| - s[|s| - 1]]) else None
  }

  function ButLast(s: seq<Byte>): seq<Byte> {
    if |s| >= 16 then s[..|s| - 16] else []
  }

  /** The assumption on ciphers can be met: padding alone meets it. */
  lemma SoundCipherExists()
    ensures exists c :: Sound(c)
  {
    var c := Cipher((key, iv, p) => Pad(p), (key, iv, s) => Unpad(s), (key, iv, s) => ButLast(s));
    forall key, iv, p: seq<Byte>
      ensures |c.enc(key, iv, p)| == PaddedLen(|p|) && c.dec(key, iv, c.enc(key, iv, p)) == Some(p)
    {
      assert Pad(p)[..|p|] == p;
    }
    assert Sound(c);
  }
}

/** Frames on the byte stream: EncrptedPacket::send, PlainPacket::send and packetFactory. */
module Framing {
  import opened Wrappers
  import opened Services
  import opened Packets
  import opened PacketBytes
  import opened Ciphers

  /** A uint32_t as it lies in memory, little-endian. */
  function Word(n: nat): (r: seq<Byte>)
    ensures |r| == 4
    ensures r[0] == n % 256 && r[1] == n / 256 % 256 && r[2] == n / 65536 % 256 && r[3] == n / 16777216 % 256
  {
    [n % 256, n / 256 % 256, n / 65536 % 256, n / 16777216 % 256]
  }

  function WordValue(w: seq<Byte>): nat
    requires |w| == 4
  {
    (w[0] as int) + 256 * (w[1] as int) + 65536 * (w[2] as int) + 16777216 * (w[3] as int)
  }

  lemma WordRoundTrip(n: nat)
    requires n < 0x1_0000_0000
    ensures WordValue(Word(n)) == n
  {
    assert n / 65536 == n / 256 / 256;
    assert n / 16777216 == n / 256 / 256 / 256;
  }

  /** A packet on its way: the bytes behind its unit and its fresh initialisation vector. */
  datatype Outgoing = Outgoing(packet: Wired, junk: seq<Byte>, iv: seq<Byte>)

  predicate Sendable(o: Outgoing) {
    WellFormed(o.packet) && |o.iv| == 16 && |Encode(o.packet, o.junk)| < 0x1_0000_0000
  }

  function Body(o: Outgoing, c: Cipher, key: seq<Byte>): seq<Byte>
    requires Sendable(o)
  {
    var buf := Encode(o.packet, o.junk);
    if Encrypted(o.packet) then Seal(c, key, o.iv, buf) else buf
  }

  /** Length of the plaintext, whether it is encrypted, and the text. */
  function Frame(o: Outgoing, c: Cipher, key: seq<Byte>): seq<Byte>
    requires Sendable(o)
  {
    Word(|Encode(o.packet, o.junk)|) + [if Encrypted(o.packet) then 1 else 0] + Body(o, c, key)
  }

  function Stream(os: seq<Outgoing>, c: Cipher, key: seq<Byte>): seq<Byte>
    requires forall i :: 0 <= i < |os| ==> Sendable(os[i])
  {
    if os == [] then [] else Frame(os[0], c, key) + Stream(os[1..], c, key)
  }

  /** The number of bytes that follow a header. */
  function BodyLen(plain: nat, encrypted: bool): nat {
    if encrypted then EncryptedLen(plain) else plain
  }

  /** A buffer of n bytes with some written at its front; the rest is what lay there. */
  function Filled(front: seq<Byte>, n: nat, mem: nat -> Byte): (r: seq<Byte>)
    ensures |r| == n
  {
    if |front| <= n then front + seq(n - |front|, i requires 0 <= i => mem(|front| + i)) else front[..n]
  }

  /** The bytes end within a frame; or the frame is used up and gives a packet or null. */
  datatype Parsed = Short | Got(packet: Option<Wired>, rest: seq<Byte>)

  /** One call of packetFactory on the bytes to come.  `key` is None before the session key is set,
      `mem` is what lies in the buffer for the plaintext. */
  function Parse(bytes: seq<Byte>, c: Cipher, key: Option<seq<Byte>>, mem: nat -> Byte): (r: Parsed)
    ensures r.Got? ==> |r.rest| < |bytes|
  {
    if |bytes| < 5 then Short
    else
      var plain, crypted := WordValue(bytes[..4]), bytes[4] != 0;
      var n := BodyLen(plain, crypted);
      if (crypted && key.None?) || n == 0 then Got(None, bytes[5..])
      else if |bytes| < 5 + n then Short
      else
        var body := bytes[5..5 + n];
        if !crypted && MustBeEncrypted(body[0]) then Got(None, bytes[5 + n..])
        else
          var front := if crypted then Decrypted(c, key.value, body) else body;
          Got(DecodeSized(Filled(front, plain + 16, mem), plain), bytes[5 + n..])
  }

  /** Every frame of a known type is parsed into its packet and every other into null, whatever
      follows it and whatever lay in the buffer. */
  lemma ParseFrame(o: Outgoing, c: Cipher, key: seq<Byte>, rest: seq<Byte>, mem: nat -> Byte)
    requires Sendable(o) && Sound(c)
    ensures Parse(Frame(o, c, key) + rest, c, Some(key), mem) ==
      Got(if Known(o.packet) then Some(o.packet) else None, rest)
  {
    var buf, body := Encode(o.packet, o.junk), Body(o, c, key);
    var bytes := Frame(o, c, key) + rest;
    WordRoundTrip(|buf|);
    assert bytes[..4] == Word(|buf|);
    if Encrypted(o.packet) {
      OpenSeal(c, key, o.iv, buf);
    }
    assert |body| == BodyLen(|buf|, Encrypted(o.packet)) && body != [];
    assert bytes[5..5 + |body|] == body && bytes[5 + |body|..] == rest;
    var new_ := Filled(buf, |buf| + 16, mem);
    assert new_ == buf + new_[|buf|..];
    DecodeInBuffer(o.packet, o.junk, new_[|buf|..]);
    assert body[0] == buf[0] || Encrypted(o.packet);
  }

  /** The length of the plaintext, the least significant byte first; then 1 in front of the sealed
      text of ACK, NAK, EOT, DESC, VAL, SET and EXIT, and 0 in front of the bytes of CHALL,
      CHALL_RESP, KEY and ID as they are. */
  lemma FrameLayout(o: Outgoing, c: Cipher, key: seq<Byte>)
    requires Sendable(o)
    ensures var f, buf, p := Frame(o, c, key), Encode(o.packet, o.junk), o.packet;
      && |f| >= 5 && |buf| % 256 == f[0] && |buf| / 256 % 256 == f[1]
      && |buf| / 65536 % 256 == f[2] && |buf| / 16777216 % 256 == f[3]
      && (p.CHALL? || p.CHALL_RESP? || p.KEY? || p.ID? ==> f[4] == 0 && f[5..] == buf)
      && (p.ACK? || p.NAK? || p.EOT? || p.DESC? || p.VAL? || p.SET? || p.EXIT? ==>
            f[4] == 1 && f[5..] == c.enc(key, o.iv, buf) + o.iv)
  {
    var f := Frame(o, c, key);
    assert f[5..] == Body(o, c, key);
  }

  /** Before the session key is set the factory reads exactly the packets that travel in the
      clear, and gives null for every other. */
  lemma ParseWithoutKey(o: Outgoing, c: Cipher, key: seq<Byte>, rest: seq<Byte>, mem: nat -> Byte)
    requires Sendable(o) && Sound(c)
    ensures var p, r := o.packet, Parse(Frame(o, c, key) + rest, c, None, mem);
      && (p.CHALL? || p.CHALL_RESP? || p.KEY? || p.ID? ==> r == Got(Some(p), rest))
      && (p.ACK? || p.NAK? || p.EOT? || p.DESC? || p.VAL? || p.SET? || p.EXIT? ==> r.Got? && r.packet == None)
  {
    var f := Frame(o, c, key);
    FrameLayout(o, c, key);
    assert (f + rest)[4] == f[4];
    if f[4] == 0 {
      ParseFrame(o, c, key, rest, mem);
      assert Parse(f + rest, c, None, mem) == Parse(f + rest, c, Some(key), mem);
    }
  }

  /** A plaintext frame is refused, with or without a key, if its type must be encrypted. */
  lemma PlaintextIsRefused(p: Wired, junk: seq<Byte>, c: Cipher, key: Option<seq<Byte>>, rest: seq<Byte>, mem: nat -> Byte)
    requires WellFormed(p) && |Encode(p, junk)| < 0x1_0000_0000
    requires p.ACK? || p.NAK? || p.EOT? || p.DESC? || p.VAL? || p.EXIT?
    ensures Parse(Word(|Encode(p, junk)|) + [0] + Encode(p, junk) + rest, c, key, mem) == Got(None, rest)
  {
    var buf := Encode(p, junk);
    var bytes := Word(|buf|) + [0] + buf + rest;
    WordRoundTrip(|buf|);
    assert bytes[..4] == Word(|buf|) && bytes[4] == 0;
    assert bytes[5..5 + |buf|] == buf && bytes[5 + |buf|..] == rest;
  }

  /** Calls of packetFactory until one returns null, each with its own memory. */
  function ParseAll(bytes: seq<Byte>, c: Cipher, key: Option<seq<Byte>>, mems: seq<nat -> Byte>): (seq<Wired>, seq<Byte>)
    decreases |bytes|
  {
    if mems == [] then ([], bytes)
    else match Parse(bytes, c, key, mems[0])
      case Short => ([], bytes)
      case Got(None, rest) => ([], rest)
      case Got(Some(p), rest) => var (ps, left) := ParseAll(rest, c, key, mems[1..]); ([p] + ps, left)
  }

  function PacketsOf(os: seq<Outgoing>): seq<Wired> {
    if os == [] then [] else [os[0].packet] + PacketsOf(os[1..])
  }

  /** Any sequence of packets of known types comes back as the same sequence with the same fields, and
      no byte is left over. */
  lemma {:induction false} StreamRoundTrip(os: seq<Outgoing>, c: Cipher, key: seq<Byte>, mems: seq<nat -> Byte>)
    requires Sound(c) && forall i :: 0 <= i < |os| ==> Sendable(os[i]) && Known(os[i].packet)
    ensures |ParseAll(Stream(os, c, key), c, Some(key), mems).0| == if |mems| < |os| then |mems| else |os|
    ensures |mems| >= |os| ==> ParseAll(Stream(os, c, key), c, Some(key), mems) == (PacketsOf(os), [])
  {
    if os != [] && mems != [] {
      ParseFrame(os[0], c, key, Stream(os[1..], c, key), mems[0]);
      StreamRoundTrip(os[1..], c, key, mems[1..]);
    }
  }
}
