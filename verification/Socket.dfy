/** readTillDone, writeTillDone, both `send`s and packetFactory over a socket that delivers and
    accepts any number of bytes at a time. */
module Sockets {
  import opened Wrappers
  import opened Services
  import opened Packets
  import opened PacketBytes
  import opened Ciphers
  import opened SessionKeys
  import opened Framing

  function Min(a: nat, b: nat): nat {
    if a < b then a else b
  }

  /** No call of read or write fails or finds the connection closed. */
  predicate NoFailure(chunks: seq<int>) {
    forall i :: 0 <= i < |chunks| ==> chunks[i] > 0
  }

  class Socket {
    var inbox: seq<Byte>    // bytes sent by the peer and not read yet; then it closes
    var outbox: seq<Byte>   // bytes written so far
    var readSizes: seq<int>     // arbitrary: how many bytes the next reads deliver, or -1 or 0
    var writeSizes: seq<int>    // arbitrary: the same for writes

    constructor (inbox: seq<Byte>, readSizes: seq<int>, writeSizes: seq<int>)
      ensures this.inbox == inbox && this.readSizes == readSizes && this.writeSizes == writeSizes && outbox == []
    {
      this.inbox, this.readSizes, this.writeSizes, outbox := inbox, readSizes, writeSizes, [];
    }

    /** read(2) into buf[at..at + n]. */
    method Read(buf: array<Byte>, at: nat, n: nat) returns (result: int)
      requires at + n <= buf.Length && n > 0
      modifies this`inbox, this`readSizes, buf
      ensures -1 <= result <= n && result <= |old(inbox)|
      ensures result > 0 ==> inbox == old(inbox)[result..] && buf[at..at + result] == old(inbox)[..result]
      ensures result <= 0 ==> inbox == old(inbox)
      ensures forall k :: 0 <= k < buf.Length && !(at <= k < at + result) ==> buf[k] == old(buf[k])
      ensures NoFailure(old(readSizes)) ==> NoFailure(readSizes) && (old(inbox) != [] ==> result > 0)
    {
      var chunk: int := n;
      if readSizes != [] {
        chunk := readSizes[0];
        readSizes := readSizes[1..];
      }
      if chunk < 0 {
        return -1;
      }
      result := Min(chunk, Min(n, |inbox|));
      var count: nat := result;
      forall k | 0 <= k < count {
        buf[at + k] := inbox[k];
      }
      inbox := inbox[count..];
    }

    /** write(2) of some bytes. */
    method Write(bytes: seq<Byte>) returns (result: int)
      requires bytes != []
      modifies this`outbox, this`writeSizes
      ensures -1 <= result <= |bytes|
      ensures outbox == old(outbox) + if result > 0 then bytes[..result] else []
      ensures NoFailure(old(writeSizes)) ==> NoFailure(writeSizes) && result > 0
    {
      var chunk: int := |bytes|;
      if writeSizes != [] {
        chunk := writeSizes[0];
        writeSizes := writeSizes[1..];
      }
      if chunk < 0 {
        return -1;
      }
      result := Min(chunk, |bytes|);
      outbox := outbox + bytes[..result];
    }
  }

  /** Reads size bytes however they arrive; -1 or 0 if that cannot be done.  A size of 0 reads
      nothing and yields 0 as well. */
  method ReadTillDone(soc: Socket, buf: array<Byte>, size: nat) returns (result: int)
    requires size <= buf.Length
    modifies soc`inbox, soc`readSizes, buf
    ensures result == size || result == -1 || result == 0
    ensures result > 0 ==>
      && size <= |old(soc.inbox)|
      && buf[..size] == old(soc.inbox)[..size] && soc.inbox == old(soc.inbox)[size..]
    ensures result <= 0 && size == 0 ==> soc.inbox == old(soc.inbox)
    ensures NoFailure(old(soc.readSizes)) ==> NoFailure(soc.readSizes) && (size <= |old(soc.inbox)| ==> result == size)
    ensures NoFailure(old(soc.readSizes)) && size > |old(soc.inbox)| ==> result <= 0 && soc.inbox == []
  {
    ghost var all := soc.inbox;
    var i := 0;
    while i < size
      invariant i <= size && i <= |all|
      invariant soc.inbox == all[i..] && buf[..i] == all[..i]
      invariant NoFailure(old(soc.readSizes)) ==> NoFailure(soc.readSizes)
    {
      ghost var before := buf[..i];
      var readed := soc.Read(buf, i, size - i);
      if readed == -1 {
        return -1;
      }
      if readed == 0 {
        return 0;
      }
      assert buf[..i] == before;
      assert buf[..i + readed] == buf[..i] + buf[i..i + readed];
      i := i + readed;
    }
    return i;
  }

  /** Writes all of buf however little the socket takes at a time. */
  method WriteTillDone(soc: Socket, buf: seq<Byte>) returns (result: int, ghost done: nat)
    modifies soc`outbox, soc`writeSizes
    ensures result == |buf| || result == -1 || result == 0
    ensures done <= |buf| && soc.outbox == old(soc.outbox) + buf[..done]
    ensures result > 0 ==> done == |buf|
    ensures result <= 0 && buf != [] ==> done < |buf|
    ensures NoFailure(old(soc.writeSizes)) ==> NoFailure(soc.writeSizes) && result == |buf|
  {
    var i: nat := 0;
    done := 0;
    while i < |buf|
      invariant i <= |buf| && done == i
      invariant soc.outbox == old(soc.outbox) + buf[..i]
      invariant NoFailure(old(soc.writeSizes)) ==> NoFailure(soc.writeSizes)
    {
      var written := soc.Write(buf[i..]);
      if written == -1 {
        return -1, done;
      }
      if written == 0 {
        return 0, done;
      }
      assert buf[..i + written] == buf[..i] + buf[i..][..written];
      i := i + written;
      done := i;
    }
    return i, done;
  }

  /** The three writes of a frame. */
  method SendParts(soc: Socket, head: seq<Byte>, flag: seq<Byte>, body: seq<Byte>)
    returns (result: int, ghost done: nat)
    requires head != [] && flag != [] && body != []
    modifies soc`outbox, soc`writeSizes
    ensures done <= |head + flag + body| && soc.outbox == old(soc.outbox) + (head + flag + body)[..done]
    ensures result > 0 <==> done == |head + flag + body|
    ensures NoFailure(old(soc.writeSizes)) ==> NoFailure(soc.writeSizes) && result > 0
  {
    result, done := WriteTillDone(soc, head);
    if result > 0 {
      ghost var more;
      result, more := WriteTillDone(soc, flag);
      done := |head| + more;
      if result > 0 {
        result, more := WriteTillDone(soc, body);
        done := |head + flag| + more;
      }
    }
  }

  /** Both versions of send.  A positive result means that exactly the frame has been written,
      and otherwise only a proper part of it has. */
  method Send(soc: Socket, o: Outgoing, c: Cipher, key: seq<Byte>) returns (result: int, ghost done: nat)
    requires Sendable(o) && Sound(c)
    modifies soc`outbox, soc`writeSizes
    ensures done <= |Frame(o, c, key)| && soc.outbox == old(soc.outbox) + Frame(o, c, key)[..done]
    ensures result > 0 <==> done == |Frame(o, c, key)|
    ensures NoFailure(old(soc.writeSizes)) ==> NoFailure(soc.writeSizes) && result > 0
  {
    var buf := Encode(o.packet, o.junk);
    var flag, body := [0], buf;
    if Encrypted(o.packet) {
      flag, body := [1], Seal(c, key, o.iv, buf);
      OpenSeal(c, key, o.iv, buf);
    }
    result, done := SendParts(soc, Word(|buf|), flag, body);
  }

  /** A packet is returned only as the bytes at the front spell it.  If no read fails, the call does
      exactly what they say: packet or null, with the frame used up, or null with all bytes used up
      if they end within the frame. */
  method PacketFactory(soc: Socket, c: Cipher, key: Option<seq<Byte>>)
    returns (packet: Option<Wired>, ghost mem: nat -> Byte)
    requires Sound(c)
    modifies soc`inbox, soc`readSizes
    ensures packet.Some? ==> Parse(old(soc.inbox), c, key, mem) == Got(packet, soc.inbox)
    ensures NoFailure(old(soc.readSizes)) ==> NoFailure(soc.readSizes)
    ensures NoFailure(old(soc.readSizes)) ==>
      match Parse(old(soc.inbox), c, key, mem)
      case Got(p, rest) => packet == p && soc.inbox == rest
      case Short => packet == None && soc.inbox == []
  {
    ghost var bytes := soc.inbox;
    mem := (i: nat) => 0;
    var head := new Byte[4];
    var got := ReadTillDone(soc, head, 4);
    if got < 1 {
      return None, mem;
    }
    var flag := new Byte[1];
    got := ReadTillDone(soc, flag, 1);
    if got < 1 {
      return None, mem;
    }
    assert head[..] == bytes[..4] && flag[0] == flag[..1][0] == bytes[4];
    assert soc.inbox == bytes[5..];
    var plain, crypted := WordValue(head[..]), flag[0] != 0;
    if crypted && key.None? {
      return None, mem;
    }
    packet, mem := ReadBody(soc, c, key, plain, crypted);
    HeaderRead(bytes, c, key, mem);
  }

  /** What is left of Parse after the header. */
  function ParseBody(bytes: seq<Byte>, c: Cipher, key: Option<seq<Byte>>, plain: nat, crypted: bool, mem: nat -> Byte): Parsed
    requires crypted ==> key.Some?
  {
    var n := BodyLen(plain, crypted);
    if n == 0 then Got(None, bytes)
    else if |bytes| < n then Short
    else if !crypted && MustBeEncrypted(bytes[0]) then Got(None, bytes[n..])
    else
      var front := if crypted then Decrypted(c, key.value, bytes[..n]) else bytes[..n];
      Got(DecodeSized(Filled(front, plain + 16, mem), plain), bytes[n..])
  }

  lemma HeaderRead(bytes: seq<Byte>, c: Cipher, key: Option<seq<Byte>>, mem: nat -> Byte)
    requires |bytes| >= 5 && (bytes[4] != 0 ==> key.Some?)
    ensures Parse(bytes, c, key, mem) == ParseBody(bytes[5..], c, key, WordValue(bytes[..4]), bytes[4] != 0, mem)
  {
    var n := BodyLen(WordValue(bytes[..4]), bytes[4] != 0);
    if |bytes| >= 5 + n {
      assert bytes[5..][..n] == bytes[5..5 + n] && bytes[5..][n..] == bytes[5 + n..];
    }
  }

  lemma FilledAs(front: seq<Byte>, before: seq<Byte>, mem: nat -> Byte)
    requires |front| <= |before| && forall i: nat :: i < |before| ==> mem(i) == before[i]
    ensures front + before[|front|..] == Filled(front, |before|, mem)
  {
  }

  /** The part of packetFactory behind the header. */
  method ReadBody(soc: Socket, c: Cipher, key: Option<seq<Byte>>, plain: nat, crypted: bool)
    returns (packet: Option<Wired>, ghost mem: nat -> Byte)
    requires Sound(c) && (crypted ==> key.Some?)
    modifies soc`inbox, soc`readSizes
    ensures packet.Some? ==> ParseBody(old(soc.inbox), c, key, plain, crypted, mem) == Got(packet, soc.inbox)
    ensures NoFailure(old(soc.readSizes)) ==> NoFailure(soc.readSizes)
    ensures NoFailure(old(soc.readSizes)) ==>
      match ParseBody(old(soc.inbox), c, key, plain, crypted, mem)
      case Got(p, rest) => packet == p && soc.inbox == rest
      case Short => packet == None && soc.inbox == []
  {
    ghost var bytes := soc.inbox;
    var n := BodyLen(plain, crypted);
    var text := new Byte[n];
    mem := (i: nat) => 0;
    var got := ReadTillDone(soc, text, n);
    if got < 1 {
      return None, mem;
    }
    var body := text[..n];
    assert body == bytes[..n] && soc.inbox == bytes[n..];
    if !crypted && MustBeEncrypted(body[0]) {
      return None, mem;
    }
    var buf;
    buf, mem := PlainBuffer(c, key, plain, crypted, body);
    packet := DecodeSized(buf, plain);
  }

  /** The buffer of plain_len + 16 bytes that the switch looks at. */
  method PlainBuffer(c: Cipher, key: Option<seq<Byte>>, plain: nat, crypted: bool, body: seq<Byte>)
    returns (new_: seq<Byte>, ghost mem: nat -> Byte)
    requires Sound(c) && (crypted ==> key.Some?) && |body| == BodyLen(plain, crypted)
    ensures new_ == Filled(if crypted then Decrypted(c, key.value, body) else body, plain + 16, mem)
  {
    var buf := new Byte[plain + 16];
    ghost var before := buf[..];
    mem := (i: nat) => if 0 <= i < |before| then before[i] else 0;
    if crypted {
      var k := new Sesskey(c, key.value);
      assert |body[..|body| - 16]| == PaddedLen(plain);
      var result := k.Decrypt(buf, body);
      FilledAs(Decrypted(c, key.value, body), before, mem);
    } else {
      Copy(buf, 0, body);
      FilledAs(body, before, mem);
    }
    new_ := buf[..];
  }

  lemma Joined(a: seq<Byte>, b: seq<Byte>, c: seq<Byte>)
    ensures a + b[..|b|] + c == a + (b + c)
  {
  }

  /** A sequence of packets goes out as their frames one behind the other. */
  method SendAll(soc: Socket, os: seq<Outgoing>, c: Cipher, key: seq<Byte>)
    requires Sound(c) && NoFailure(soc.writeSizes)
    requires forall i :: 0 <= i < |os| ==> Sendable(os[i])
    modifies soc`outbox, soc`writeSizes
    ensures soc.outbox == old(soc.outbox) + Stream(os, c, key)
    decreases os
  {
    if os != [] {
      var result, done := Send(soc, os[0], c, key);
      SendAll(soc, os[1..], c, key);
      Joined(old(soc.outbox), Frame(os[0], c, key), Stream(os[1..], c, key));
    }
  }

  /** Calls packetFactory until it returns null: nothing but what the bytes spell arrives. */
  method ReceiveAll(soc: Socket, c: Cipher, key: seq<Byte>) returns (ps: seq<Wired>, ghost mems: seq<nat -> Byte>)
    requires Sound(c) && NoFailure(soc.readSizes)
    modifies soc`inbox, soc`readSizes
    ensures ps == ParseAll(old(soc.inbox), c, Some(key), mems).0 && |mems| == |ps| + 1
    decreases soc.inbox
  {
    var packet;
    ghost var mem;
    packet, mem := PacketFactory(soc, c, Some(key));
    if packet.None? {
      return [], [mem];
    }
    ps, mems := ReceiveAll(soc, c, key);
    ps, mems := [packet.value] + ps, [mem] + mems;
  }

  /** Packets written by send and read by packetFactory arrive as the same sequence, however the
      connection cuts the bytes up in either direction. */
  method Transfer(os: seq<Outgoing>, c: Cipher, key: seq<Byte>, writeSizes: seq<int>, readSizes: seq<int>)
    returns (received: seq<Wired>)
    requires Sound(c) && NoFailure(writeSizes) && NoFailure(readSizes)
    requires forall i :: 0 <= i < |os| ==> Sendable(os[i]) && Known(os[i].packet)
    ensures received == PacketsOf(os)
  {
    var sender := new Socket([], [], writeSizes);
    SendAll(sender, os, c, key);
    var receiver := new Socket(sender.outbox, readSizes, []);
    ghost var mems;
    received, mems := ReceiveAll(receiver, c, key);
    assert sender.outbox == Stream(os, c, key);
    StreamRoundTrip(os, c, key, mems);
  }
}
