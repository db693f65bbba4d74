/** Client::initalize with Client::verifyClient and Server::verifyServer: from the challenge to
    the registered services, for every packet trace and every result of the sends. */
module Session {
  import opened Wrappers
  import opened Services
  import opened ServiceIds
  import opened ServerMirror
  import opened Server
  import opened Packets
  import opened Connections
  import opened Registration

  type Trace = seq<Option<Packet<Float>>>

  /** Foreign code: signature verification with the public key of the device, the signature with
      the private key of the server, and the session key encrypted for the device (None if that
      fails). */
  datatype Crypto = Crypto(
    check: (seq<Byte>, seq<Byte>) -> bool,
    sign: seq<Byte> -> seq<Byte>,
    sealedKey: Option<seq<Byte>>)

  /** The device proves that it knows its key. */
  predicate Proves(k: Crypto, chall: seq<Byte>, trace: Trace, results: seq<int>) {
    && FirstResult(results) > 0
    && First(trace).Some? && First(trace).value.CHALL_RESP? && k.check(chall, First(trace).value.resp)
  }

  /** It challenges the server and gets an answer. */
  predicate Answers(trace: Trace, results: seq<int>) {
    First(trace).Some? && First(trace).value.CHALL? && FirstResult(results) > 0
  }

  /** The three exchanges before the services, in order. */
  predicate Authenticates(k: Crypto, chall: seq<Byte>, trace: Trace, results: seq<int>) {
    && Proves(k, chall, trace, results)
    && Answers(Rest(trace), Rest(results))
    && k.sealedKey.Some? && FirstResult(Rest(Rest(results))) > 0
  }

  /** The packets the server gives to send in them: the response only to a device that has proved
      itself, the key only after the response. */
  function Said(k: Crypto, chall: seq<Byte>, trace: Trace, results: seq<int>): seq<Packet<Float>> {
    [CHALL(chall)] +
    if Proves(k, chall, trace, results) && First(Rest(trace)).Some? && First(Rest(trace)).value.CHALL? then
      [CHALL_RESP(k.sign(First(Rest(trace)).value.chall))] +
      if FirstResult(Rest(results)) > 0 && k.sealedKey.Some? then [KEY(k.sealedKey.value)] else []
    else []
  }

  /** On the positions of the trace and of the results. */
  lemma AuthenticatesExactly(k: Crypto, chall: seq<Byte>, trace: Trace, results: seq<int>)
    ensures Authenticates(k, chall, trace, results) <==>
      && |trace| >= 2 && |results| >= 3
      && results[0] > 0 && results[1] > 0 && results[2] > 0 && k.sealedKey.Some?
      && trace[0].Some? && trace[0].value.CHALL_RESP? && k.check(chall, trace[0].value.resp)
      && trace[1].Some? && trace[1].value.CHALL?
  {
  }

  /** A device whose answer does not verify hears nothing but the challenge; one whose answer does
      gets its own challenge signed if that can be sent at all, and the key only after that. */
  lemma SaidExactly(k: Crypto, chall: seq<Byte>, trace: Trace, results: seq<int>)
    ensures var said := Said(k, chall, trace, results);
      var proved := trace != [] && results != [] && results[0] > 0
        && trace[0].Some? && trace[0].value.CHALL_RESP? && k.check(chall, trace[0].value.resp);
      var challenged := |trace| >= 2 && trace[1].Some? && trace[1].value.CHALL?;
      && (!proved || !challenged ==> said == [CHALL(chall)])
      && (proved && challenged ==>
            if |results| >= 2 && results[1] > 0 && k.sealedKey.Some?
            then said == [CHALL(chall), CHALL_RESP(k.sign(trace[1].value.chall)), KEY(k.sealedKey.value)]
            else said == [CHALL(chall), CHALL_RESP(k.sign(trace[1].value.chall))])
  {
  }

  method VerifyClient(conn: Connection<Float>, k: Crypto, chall: seq<Byte>) returns (ok: bool)
    modifies conn
    ensures ok <==> Proves(k, chall, old(conn.incoming), old(conn.results))
    ensures ok ==>
      var trace := old(conn.incoming);
      trace != [] && trace[0].Some? && trace[0].value.CHALL_RESP? && k.check(chall, trace[0].value.resp)
    ensures conn.sent == old(conn.sent) + [CHALL(chall)] && conn.results == Rest(old(conn.results))
    ensures ok ==> conn.incoming == Rest(old(conn.incoming))
  {
    var result := conn.Send(CHALL(chall));
    if result > 0 {
      var response := conn.NextPacket();
      if response.Some? && response.value.CHALL_RESP? {
        return k.check(chall, response.value.resp);
      }
    }
    return false;
  }

  method VerifyServer(conn: Connection<Float>, k: Crypto) returns (ok: bool)
    modifies conn
    ensures ok <==> Answers(old(conn.incoming), old(conn.results))
    ensures var p := First(old(conn.incoming));
      if p.Some? && p.value.CHALL?
      then conn.sent == old(conn.sent) + [CHALL_RESP(k.sign(p.value.chall))] && conn.results == Rest(old(conn.results))
      else conn.sent == old(conn.sent) && conn.results == old(conn.results)
    ensures conn.incoming == Rest(old(conn.incoming))
  {
    var packet := conn.NextPacket();
    if packet.Some? && packet.value.CHALL? {
      var result := conn.Send(CHALL_RESP(k.sign(packet.value.chall)));
      return result > 0;
    }
    return false;
  }

  /** Challenge, reverse challenge and key, in this order. */
  method Authenticate(conn: Connection<Float>, k: Crypto, chall: seq<Byte>) returns (ok: bool)
    modifies conn
    ensures ok <==> Authenticates(k, chall, old(conn.incoming), old(conn.results))
    ensures ok <==>
      var trace, results := old(conn.incoming), old(conn.results);
      && |trace| >= 2 && |results| >= 3
      && results[0] > 0 && results[1] > 0 && results[2] > 0 && k.sealedKey.Some?
      && trace[0].Some? && trace[0].value.CHALL_RESP? && k.check(chall, trace[0].value.resp)
      && trace[1].Some? && trace[1].value.CHALL?
    ensures conn.sent == old(conn.sent) + Said(k, chall, old(conn.incoming), old(conn.results))
    ensures ok ==> conn.incoming == Rest(Rest(old(conn.incoming))) && conn.results == Rest(Rest(Rest(old(conn.results))))
  {
    AuthenticatesExactly(k, chall, conn.incoming, conn.results);
    var proved := VerifyClient(conn, k, chall);
    if proved {
      var answered := VerifyServer(conn, k);
      if answered && k.sealedKey.Some? {
        var result := conn.Send(KEY(k.sealedKey.value));
        return result > 0;
      }
    }
    return false;
  }

  /** The device is taken in exactly if it authenticates and its services are registered; only
      then its `used` flag is set.  Without authentication nothing changes. */
  method Initalize(client: Client, conn: Connection<Float>, server: Server, k: Crypto, chall: seq<Byte>)
    returns (ok: bool, ghost outcome: Outcome, ghost ids: seq<Byte>)
    requires server.Valid() && IdsValid(server.View().ids)
    modifies client, conn, server, server.table
    ensures ok <==> Authenticates(k, chall, old(conn.incoming), old(conn.results)) && outcome == Registered
    ensures client.used == (old(client.used) || ok)
    ensures var trace := old(conn.incoming);
      !(trace != [] && trace[0].Some? && trace[0].value.CHALL_RESP? && k.check(chall, trace[0].value.resp)) ==>
        && !ok && client.used == old(client.used) && server.Valid() && server.View() == old(server.View())
        && client.inputs == old(client.inputs) && client.outputs == old(client.outputs)
        && conn.sent == old(conn.sent) + [CHALL(chall)]
    ensures !Authenticates(k, chall, old(conn.incoming), old(conn.results)) ==>
      && server.Valid() && server.View() == old(server.View())
      && client.inputs == old(client.inputs) && client.outputs == old(client.outputs)
      && conn.sent == old(conn.sent) + Said(k, chall, old(conn.incoming), old(conn.results))
    ensures Authenticates(k, chall, old(conn.incoming), old(conn.results)) ==>
      && 0 <= Room(old(server.View()).ids)
      && Ends(Rest(Rest(old(conn.incoming))), Rest(Rest(Rest(old(conn.results)))), Room(old(server.View()).ids), outcome)
    ensures Authenticates(k, chall, old(conn.incoming), old(conn.results)) && (outcome == Refused || outcome == Abandoned) ==>
      && server.Valid() && client.inputs == old(client.inputs) && client.outputs == old(client.outputs)
      && OnlyReserved(old(server.View()), server.View(), if outcome == Refused then {} else IdSet(ids))
    ensures Authenticates(k, chall, old(conn.incoming), old(conn.results)) && outcome == Thrown ==>
      exists n :: 0 <= n && server.Valid()
        && BrokenAs(old(server.View()), server.View(), Rest(Rest(old(conn.incoming))), ids, n)
        && client.inputs == Inputs(ById(Described(ids[..n], Rest(Rest(old(conn.incoming)))))) + old(client.inputs)
        && client.outputs == Outputs(ById(Described(ids[..n], Rest(Rest(old(conn.incoming)))))) + old(client.outputs)
    ensures Authenticates(k, chall, old(conn.incoming), old(conn.results)) && outcome == Exhausted ==>
      !server.Valid() && client.inputs == old(client.inputs) && client.outputs == old(client.outputs)
    ensures ok ==>
      && server.Valid() && RegisteredAs(old(server.View()), server.View(), Rest(Rest(old(conn.incoming))), ids)
      && client.inputs == Inputs(ById(Described(ids, Rest(Rest(old(conn.incoming)))))) + old(client.inputs)
      && client.outputs == Outputs(ById(Described(ids, Rest(Rest(old(conn.incoming)))))) + old(client.outputs)
      && conn.sent == old(conn.sent) + Said(k, chall, old(conn.incoming), old(conn.results)) + Acks(ids)
  {
    outcome, ids := Refused, [];
    AuthenticatesExactly(k, chall, conn.incoming, conn.results);
    SaidExactly(k, chall, conn.incoming, conn.results);
    var authentic := Authenticate(conn, k, chall);
    if authentic {
      var end;
      end, ids := client.RegisterServices(conn, server);
      outcome := end;
      if end == Registered {
        client.used := true;
        return true, outcome, ids;
      }
    }
    return false, outcome, ids;
  }
}
