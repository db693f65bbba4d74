/** Packets as the session code sees them, and the one connection it talks over: Receiver.cpp
    and the results of `send`. */
module Packets {
  import opened Wrappers

  /** N stands for the floats: their bytes on the wire, numbers in the exchange of values. */
  datatype Packet<N> =
    | ACK(id: Byte)
    | NAK(id: Byte)
    | EOT
    | CHALL(chall: seq<Byte>)
    | CHALL_RESP(resp: seq<Byte>)
    | KEY(key: seq<Byte>)
    | DESC(kind: Byte, name: seq<Byte>, unit: seq<Byte>, min: N, max: N)
    | VAL(service: Byte, value: N, timestamp: seq<Byte>)
    | SET(service: Byte, value: N)
    | EXIT(code: Byte)
    | ID(id: Byte)
}

module Connections {
  import opened Wrappers
  import opened Packets

  /** What the packet factory returns next; a closed connection yields null. */
  function First<N>(trace: seq<Option<Packet<N>>>): Option<Packet<N>> {
    if trace == [] then None else trace[0]
  }

  function FirstResult(results: seq<int>): int {
    if results == [] then -1 else results[0]
  }

  function Rest<T>(s: seq<T>): seq<T> {
    if s == [] then [] else s[1..]
  }

  class Connection<N> {
    var incoming: seq<Option<Packet<N>>>  // arbitrary: what the device does
    var results: seq<int>              // arbitrary: what the next sends return
    var curr: Option<Packet<N>>
    var sent: seq<Packet<N>>              // every packet given to send

    constructor (incoming: seq<Option<Packet<N>>>, results: seq<int>)
      ensures this.incoming == incoming && this.results == results && curr == None && sent == []
    {
      this.incoming, this.results := incoming, results;
      curr, sent := None, [];
    }

    method NextPacket() returns (packet: Option<Packet<N>>)
      modifies this`incoming, this`curr
      ensures packet == curr == First(old(incoming))
      ensures incoming == Rest(old(incoming))
    {
      if incoming == [] {
        curr := None;
      } else {
        curr, incoming := incoming[0], incoming[1..];
      }
      packet := curr;
    }

    method Send(packet: Packet<N>) returns (result: int)
      modifies this`results, this`sent
      ensures sent == old(sent) + [packet]
      ensures result == FirstResult(old(results)) && results == Rest(old(results))
    {
      sent := sent + [packet];
      if results == [] {
        result := -1;
      } else {
        result, results := results[0], results[1..];
      }
    }
  }
}
