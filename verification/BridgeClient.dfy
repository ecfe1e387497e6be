/**
 The TCP client of the bridge: connections and their epochs, the retry rule of `call`, the
 no-retry rule of `call_at_epoch`, and the capability cache bound to one connection.

 The server is one that answers each frame once and in order; the network may deliver a reply in
 any pieces, time out or break at any point.
 */
module BridgeClient {
  import opened Wrappers
  import opened Framing

  datatype Request = Request(command: string, payload: int)

  // What a response line says; Malformed is a ProtocolError.
  datatype Decoded = OkResponse(value: int) | ErrorResponse(code: string, details: int) | Malformed

  // `answer(c, i, r)` is the line with which the server answers frame `i`, holding `r`, of
  // connection `c`; `contract(v)` is the bridge contract in a session info `v`, if there is one.
  datatype Bridge = Bridge(
    answer: (nat, nat, Request) -> Bytes,
    decode: Bytes -> Decoded,
    encodable: Request -> bool,
    contract: int -> Option<Contract>,
    isNull: int -> bool)

  datatype Contract = Contract(preconditions: string)

  const SESSION_INFO := Request("get_session_info", 0)
  const CAPABILITY_MAX_AGE: real := 5.0

  ghost predicate AnswersInLines(bridge: Bridge) {
    forall c, i, r :: NEWLINE !in bridge.answer(c, i, r)
  }

  datatype Io = Completed | TimedOut | Broken

  datatype Received = Data(chunk: Bytes) | NoData(why: Io)

  // What the network did: a connection attempt, a frame handed over, a chunk or its absence.
  datatype Event = Dialled(io: Io) | HandedOver(request: Request, io: Io) | Got(io: Io)

  // Since `before`, everything was completed but, if this is not `Completed`, the last thing.
  ghost predicate Went(before: seq<Event>, after: seq<Event>, io: Io) {
    && before <= after
    && (!io.Completed? ==> |before| < |after| && after[|after| - 1].io == io)
    && forall k :: |before| <= k < |after| - (if io.Completed? then 0 else 1) ==> after[k].io.Completed?
  }

  lemma WentOn(before: seq<Event>, next: Event, mid: seq<Event>, after: seq<Event>, io: Io)
    requires mid == before + [next]
    ensures Went(before, mid, next.io)
    ensures next.io.Completed? && Went(mid, after, io) ==> Went(before, after, io)
    ensures Went(mid, after, io) && DialsOnce(mid, after, false) && !next.Dialled? ==> DialsOnce(before, after, false)
  {
  }

  // Since `before` a connection was tried once, first of all, or not at all.
  ghost predicate DialsOnce(before: seq<Event>, after: seq<Event>, dials: bool) {
    && (dials ==> |before| < |after| && after[|before|].Dialled?)
    && forall k :: |before| <= k < |after| && after[k].Dialled? ==> dials && k == |before|
  }

  // The last thing that the network did since `before` failed.
  ghost predicate Failed(before: seq<Event>, after: seq<Event>) {
    |before| < |after| && !after[|after| - 1].io.Completed?
  }

  // How the network's part in a call ended, given its result.
  function EndOf(result: CallResult): (io: Io) {
    match result
    case Timeout => TimedOut
    case Unavailable => Broken
    case _ => Completed
  }

  // How often it broke.
  function Breaks(events: seq<Event>): (n: nat) {
    if events == [] then 0 else Breaks(events[..|events| - 1]) + if events[|events| - 1].io.Broken? then 1 else 0
  }

  lemma {:induction false} BreaksOf(before: seq<Event>, after: seq<Event>, io: Io)
    requires Went(before, after, io)
    ensures Breaks(after) == Breaks(before) + if io.Broken? then 1 else 0
    decreases |after|
  {
    if |after| == |before| {
      assert after == before;
    } else {
      BreaksOf(before, after[..|after| - 1], Completed);
    }
  }

  // The world outside: it lets connections come about, and remembers what it did.
  class Network {
    ghost var events: seq<Event>

    constructor ()
      ensures events == []
    {
      events := [];
    }

    method Dial(bridge: Bridge, connection: nat) returns (io: Io, socket: Socket?)
      modifies this
      ensures events == old(events) + [Dialled(io)]
      ensures io.Completed? <==> socket != null
      ensures socket != null ==>
                && fresh(socket) && socket.network == this && socket.bridge == bridge && socket.connection == connection
                && socket.requests == [] && socket.incoming == []
    {
      var fate: nat := *;
      io, socket := if fate == 0 then TimedOut else if fate == 1 then Broken else Completed, null;
      events := events + [Dialled(io)];
      if io.Completed? {
        socket := new Socket(this, bridge, connection);
      }
    }
  }

  class Socket {
    const network: Network
    const bridge: Bridge
    const connection: nat
    var requests: seq<Request>  // the frames the server has received
    var incoming: Bytes  // what the server has sent and the client has not received yet

    constructor (network: Network, bridge: Bridge, connection: nat)
      ensures this.network == network && this.bridge == bridge && this.connection == connection
      ensures requests == [] && incoming == []
    {
      this.network, this.bridge, this.connection, requests, incoming := network, bridge, connection, [], [];
    }

    // When sending fails, the server may have received the frame all the same.
    method SendAll(r: Request) returns (io: Io)
      modifies this, network
      ensures network.events == old(network.events) + [HandedOver(r, io)]
      ensures requests == old(requests) || requests == old(requests) + [r]
      ensures io.Completed? ==>
                && requests == old(requests) + [r]
                && incoming == old(incoming) + Framed(bridge.answer(connection, |old(requests)|, r))
    {
      var fate: nat, arrived: bool := *, *;
      io := if fate == 0 then TimedOut else if fate == 1 then Broken else Completed;
      network.events := network.events + [HandedOver(r, io)];
      if io.Completed? || arrived {
        incoming := incoming + Framed(bridge.answer(connection, |requests|, r));
        requests := requests + [r];
      }
    }

    method Recv() returns (r: Received)
      modifies this`incoming, network
      ensures network.events == old(network.events) + [Got(if r.Data? then Completed else r.why)]
      ensures match r
              case Data(chunk) => 0 < |chunk| <= RECV_BYTES && old(incoming) == chunk + incoming
              case NoData(why) => !why.Completed? && incoming == old(incoming)
    {
      var size: nat := *;
      if 0 < size <= RECV_BYTES && size <= |incoming| {
        r, incoming := Data(incoming[..size]), incoming[size..];
      } else {
        r := NoData(if size == 0 then TimedOut else Broken);
      }
      network.events := network.events + [Got(if r.Data? then Completed else r.why)];
    }
  }

  // A transmission that was begun, by connection epoch.
  datatype Transmission = Transmission(epoch: nat, request: Request)

  // A response line that was read: to which transmission, on which connection, as the answer to which
  // of the frames that connection carried, and when.
  datatype Reading = Reading(transmission: nat, epoch: nat, index: nat, request: Request, line: Bytes, at: real)

  // A look at the clock, when so many responses had been read and so many transmissions begun.
  datatype Glance = Glance(now: real, heard: nat, sent: nat)

  // A capability as it is cached, stamped with the epoch and the time it was fetched at.
  datatype Capability = Capability(epoch: nat, contract: Contract, fetchedAt: real)

  datatype CallResult =
    | Answered(decoded: Decoded)   // a result, an error envelope or a protocol error
    | Timeout
    | Unavailable
    | NotEncodable

  datatype EpochResult =
    | EpochMismatch
    | PreSend
    | Ambiguous
    | Received(decoded: Decoded)

  // A stream that holds one framed line and nothing else.
  lemma OnlyLine(answer: Bytes, line: Bytes, rest: Bytes)
    requires NEWLINE !in answer && NEWLINE !in line && Framed(answer) == Framed(line) + rest
    ensures line == answer && rest == []
  {
    var s := Framed(answer);
    assert s[|line|] == NEWLINE && (forall k :: 0 <= k < |line| ==> s[k] == line[k]);
    assert |line| == |answer|;
  }

  class Client {
    const network: Network
    const bridge: Bridge
    const mutations: set<string>
    const reconnect: bool
    const maxRetries: nat
    var socket: Socket?
    var connected: bool
    var buffer: Bytes
    var epoch: nat
    var cache: map<nat, Capability>
    var clock: real
    ghost var sockets: map<nat, Socket>
    ghost var sent: seq<Transmission>
    ghost var heard: seq<Reading>
    ghost var glances: seq<Glance>

    // The client, whatever is under way on its socket.
    ghost predicate Linked()
      reads this, socket
    {
      && AnswersInLines(bridge)
      && (connected <==> socket != null) && (connected <==> epoch % 2 == 1)
      && (connected ==>
            && epoch in sockets && sockets[epoch] == socket
            && socket.network == network && socket.bridge == bridge && socket.connection == epoch)
      && (!connected ==> buffer == [])
      && (forall e :: e in sockets ==> e <= epoch && e % 2 == 1)
      && Honest()
    }

    // Every line read is the server's answer to the request of its own transmission, no transmission
    // is answered twice, and every cached contract was fetched on the connection it is cached for.
    ghost predicate Honest()
      reads this`heard, this`cache, this`sent, this`glances
    {
      && (forall h :: h in heard ==> Answer(h))
      && (forall i, j :: 0 <= i < j < |heard| ==> heard[i].transmission < heard[j].transmission)
      && (forall g :: g in glances ==> g.heard <= |heard|)
      && (forall e :: e in cache ==> cache[e].epoch == e && Fetched(cache[e]))
    }

    ghost predicate Answer(h: Reading)
      reads this`sent
    {
      && h.transmission < |sent| && sent[h.transmission] == Transmission(h.epoch, h.request)
      && h.line == bridge.answer(h.epoch, h.index, h.request)
    }

    // The reading is a session info with this contract.
    ghost predicate Attests(h: Reading, e: nat, contract: Contract) {
      h.epoch == e && h.request == SESSION_INFO
      && bridge.decode(h.line).OkResponse? && bridge.contract(bridge.decode(h.line).value) == Some(contract)
    }

    // The stamp of a capability is the first look at the clock after the response that attests it, with
    // no other response in between.
    ghost predicate Fetched(c: Capability)
      reads this`heard, this`glances
    {
      exists k, g :: FetchedAt(c, heard, k, glances, g)
    }

    // Response `k` attests the contract, and look `g` gives the stamp.
    ghost predicate FetchedAt(c: Capability, hs: seq<Reading>, k: nat, looks: seq<Glance>, g: nat) {
      && k < |hs| && Attests(hs[k], c.epoch, c.contract)
      && g < |looks| && looks[g] == Glance(c.fetchedAt, k + 1, looks[g].sent) && hs[k].at <= c.fetchedAt
      && (g > 0 ==> looks[g - 1].heard <= k)
    }

    // No look at the clock counts responses that were not there yet.
    lemma LooksAreNotAhead()
      requires Honest()
      ensures forall g :: 0 <= g < |glances| ==> glances[g].heard <= |heard|
    {
    }

    ghost method Hear(h: Reading)
      requires Honest() && Answer(h)
      requires heard != [] ==> heard[|heard| - 1].transmission < h.transmission
      modifies this`heard
      ensures Honest() && heard == old(heard) + [h]
    {
      heard := heard + [h];
      StillFetched(old(heard), old(glances));
    }

    // What was fetched stays fetched when more is heard or the clock is read again.
    lemma StillFetched(before: seq<Reading>, looks: seq<Glance>)
      requires before <= heard && looks <= glances
      ensures forall c: Capability, k, g :: FetchedAt(c, before, k, looks, g) ==> Fetched(c)
    {
      forall c: Capability, k, g | FetchedAt(c, before, k, looks, g)
        ensures Fetched(c)
      {
        assert FetchedAt(c, heard, k, glances, g);
      }
    }

    // Between calls, no byte of an old reply is left anywhere.
    ghost predicate Valid()
      reads this, socket
    {
      Linked() && (connected ==> buffer + socket.incoming == [])
    }

    // Nothing recorded is forgotten, and epochs do not decrease.
    twostate predicate Later()
      reads this
    {
      && old(epoch) <= epoch && old(clock) <= clock
      && old(sent) <= sent && old(heard) <= heard && old(glances) <= glances
      && forall e :: e in old(sockets) ==> e in sockets && sockets[e] == old(sockets[e])
    }

    constructor (network: Network, bridge: Bridge, mutations: set<string>, reconnect: bool, maxRetries: nat)
      requires AnswersInLines(bridge)
      ensures Valid() && !connected && epoch == 0 && sent == [] && cache == map[]
      ensures this.network == network && this.bridge == bridge && this.mutations == mutations
      ensures this.reconnect == reconnect && this.maxRetries == maxRetries
    {
      this.network := network;
      this.bridge, this.mutations, this.reconnect, this.maxRetries := bridge, mutations, reconnect, maxRetries;
      socket, connected, buffer, epoch, cache, clock := null, false, [], 0, map[], 0.0;
      sockets, sent, heard, glances := map[], [], [], [];
    }

    method CloseLocked()
      requires Linked()
      modifies this`socket, this`connected, this`buffer, this`epoch
      ensures Valid() && !connected && Later()
      ensures epoch == old(epoch) + if old(connected) then 1 else 0
    {
      hide Honest, AnswersInLines;
      var hadSocket := socket != null || connected;
      socket, connected, buffer := null, false, [];
      if hadSocket {
        epoch := epoch + 1;
      }
    }

    method ConnectSocket() returns (io: Io)
      requires Valid()
      modifies this`socket, this`connected, this`buffer, this`epoch, this`sockets, network
      ensures Valid() && Later() && connected == io.Completed?
      ensures network.events == old(network.events) + [Dialled(io)]
      ensures connected ==> fresh(socket) && epoch !in old(sockets) && socket.requests == []
    {
      CloseLocked();
      var sock;
      io, sock := network.Dial(bridge, epoch + 1);
      if sock != null {
        socket, connected, epoch := sock, true, epoch + 1;
        sockets := sockets[epoch := sock];
      }
    }

    // Read one line: the first one of what is buffered and of what the socket still delivers.
    method ReadLine() returns (io: Io, line: Bytes)
      requires socket != null
      modifies this`buffer, socket`incoming, socket.network
      ensures Went(old(socket.network.events), socket.network.events, io)
      ensures |old(socket.network.events)| <= |socket.network.events|
      ensures DialsOnce(old(socket.network.events), socket.network.events, false)
      ensures io.Completed? ==>
                && NEWLINE !in line
                && Lines(old(buffer) + old(socket.incoming)) == [line] + Lines(buffer + socket.incoming)
                && old(buffer) + old(socket.incoming) == Framed(line) + (buffer + socket.incoming)
    {
      hide Lines, Tail, NewlineIndex;
      while NEWLINE !in buffer
        invariant buffer + socket.incoming == old(buffer) + old(socket.incoming)
        invariant Went(old(socket.network.events), socket.network.events, Completed)
        invariant DialsOnce(old(socket.network.events), socket.network.events, false)
        decreases |socket.incoming|
      {
        var received := socket.Recv();
        if received.NoData? {
          return received.why, [];
        }
        buffer := buffer + received.chunk;
      }
      var lineEnd := NewlineIndex(buffer);
      line := buffer[..lineEnd];
      assert buffer == Framed(line) + buffer[lineEnd + 1..];
      ghost var rest := buffer[lineEnd + 1..] + socket.incoming;
      assert old(buffer) + old(socket.incoming) == Framed(line) + rest;
      FirstLine(line, rest);
      buffer := buffer[lineEnd + 1..];
      return Completed, line;
    }

    // The last response read is the server's answer to the last transmission, which is the last frame
    // that the open connection has carried.
    ghost predicate Replied(r: Request, decoded: Decoded)
      reads this, socket
    {
      && connected && socket != null
      && sent != [] && sent[|sent| - 1] == Transmission(epoch, r)
      && socket.requests != [] && socket.requests[|socket.requests| - 1] == r
      && heard != [] && var h := heard[|heard| - 1];
         && h.transmission == |sent| - 1 && h.epoch == epoch && h.index == |socket.requests| - 1 && h.request == r
         && h.line == bridge.answer(epoch, |socket.requests| - 1, r)
         && h.at <= clock && decoded == bridge.decode(h.line)
    }

    // That transmission and its response, and no other response, came about since.
    twostate predicate JustHeard(r: Request, decoded: Decoded)
      reads this, socket
    {
      Replied(r, decoded) && |sent| > |old(sent)| && |heard| == |old(heard)| + 1
    }

    // Time passes.
    method Pass()
      modifies this`clock
      ensures clock >= old(clock)
    {
      var elapsed: real := *;
      if elapsed > 0.0 {
        clock := clock + elapsed;
      }
    }

    // Send one request on the open connection and read its answer.
    method Exchange(r: Request) returns (io: Io, line: Bytes)
      requires Valid() && connected && bridge.encodable(r)
      modifies this`buffer, this`sent, this`heard, this`clock, socket, network
      ensures Went(old(network.events), network.events, io) && |old(network.events)| < |network.events|
      ensures DialsOnce(old(network.events), network.events, false)
      ensures Linked() && Later() && sent == old(sent) + [Transmission(epoch, r)]
      ensures io.Completed? ==>
                && Valid() && heard == old(heard) + [Reading(|old(sent)|, epoch, |old(socket.requests)|, r, line, clock)]
                && line == bridge.answer(epoch, |old(socket.requests)|, r)
                && socket.requests == old(socket.requests) + [r]
      ensures !io.Completed? ==> heard == old(heard)
    {
      hide Lines, Tail, Fetched, Went;
      io := Transmit(r);
      ghost var index, mid := |old(socket.requests)|, network.events;
      WentOn(old(network.events), HandedOver(r, io), mid, mid, io);
      if !io.Completed? {
        return io, [];
      }
      ghost var answer := bridge.answer(epoch, index, r);
      io, line := ReadLine();
      WentOn(old(network.events), HandedOver(r, Completed), mid, network.events, io);
      if !io.Completed? {
        return;
      }
      OnlyLine(answer, line, buffer + socket.incoming);
      Hear(Reading(|old(sent)|, epoch, index, r, line, clock));
    }

    // The frame is handed over; if it was, its answer is all that there is to read.
    method Transmit(r: Request) returns (io: Io)
      requires Valid() && connected && bridge.encodable(r)
      modifies this`sent, this`clock, socket, network
      ensures network.events == old(network.events) + [HandedOver(r, io)]
      ensures Linked() && Later() && sent == old(sent) + [Transmission(epoch, r)]
      ensures heard != [] ==> heard[|heard| - 1].transmission < |old(sent)|
      ensures io.Completed? ==>
                && buffer + socket.incoming == Framed(bridge.answer(epoch, |old(socket.requests)|, r))
                && socket.requests == old(socket.requests) + [r]
    {
      hide Fetched;
      assert heard != [] ==> heard[|heard| - 1] in heard;
      sent := sent + [Transmission(epoch, r)];
      io := socket.SendAll(r);
      Pass();
    }

    // Connect if need be, and exchange once.  Without a result, the connection broke and is closed.
    method Attempt(r: Request) returns (result: Option<CallResult>)
      requires Valid()
      modifies this, socket, network
      ensures Valid() && Later() && cache == old(cache) && glances == old(glances)
      ensures connected ==> socket == old(socket) || fresh(socket)
      ensures sent == old(sent) || exists e :: sent == old(sent) + [Transmission(e, r)]
      ensures match result
              case Some(Answered(decoded)) => JustHeard(r, decoded)
              case Some(Timeout) => !connected && heard == old(heard)
              case Some(NotEncodable) => !bridge.encodable(r) && heard == old(heard)
              case Some(Unavailable) => false
              case None => !connected && heard == old(heard)
      // The network decides: a result comes of what was completed, a timeout ends it, and so does a break.
      ensures Went(old(network.events), network.events,
                   if result.None? then Broken else if result.value.Timeout? then TimedOut else Completed)
      ensures old(network.events) == network.events ==> old(connected) && !bridge.encodable(r)
      // It connects first if and only if it has to.
      ensures DialsOnce(old(network.events), network.events, !old(connected))
      ensures old(connected) && connected ==> socket == old(socket)
    {
      hide AnswersInLines, Honest;
      var io := Completed;
      if !connected {
        io := ConnectSocket();
      }
      if io.Completed? {
        if !bridge.encodable(r) {
          return Some(NotEncodable);
        }
        var line;
        io, line := Exchange(r);
        if io.Completed? {
          return Some(Answered(bridge.decode(line)));
        }
      }
      CloseLocked();
      return if io.TimedOut? then Some(Timeout) else None;
    }

    // How often a command is sent again after a broken connection: a mutation never is.
    function Retries(r: Request): (n: nat) {
      if r.command in mutations || !reconnect then 0 else maxRetries
    }

    // A command that may be sent again after a broken connection, unless it is a mutation.
    method Call(r: Request) returns (result: CallResult)
      requires Valid()
      modifies this, socket, network
      ensures Valid() && Later() && cache == old(cache) && glances == old(glances)
      ensures connected ==> socket == old(socket) || fresh(socket)
      ensures forall k :: |old(sent)| <= k < |sent| ==> sent[k].request == r
      ensures |sent| - |old(sent)| <= if r.command in mutations then 1 else 1 + maxRetries
      ensures if result.Answered? then JustHeard(r, result.decoded) else heard == old(heard)
      ensures result.Timeout? || result.Unavailable? ==> !connected
      ensures result.NotEncodable? ==> !bridge.encodable(r)
      // Every attempt but the last one broke, and what ended the last one is the result: after a break there
      // are no more attempts exactly when the command is a mutation, reconnecting is off or the retries are
      // used up.
      ensures var breaks := Breaks(network.events) - old(Breaks(network.events));
              if result.Unavailable? then breaks == 1 + Retries(r) else 0 <= breaks <= Retries(r)
      ensures exists last: nat :: |old(network.events)| <= last <= |network.events|
                               && Went(network.events[..last], network.events, EndOf(result))
                               && forall k :: |old(network.events)| <= k < last ==> !network.events[k].io.TimedOut?
      // An open connection is used as long as it does not break.
      ensures old(connected) && connected && Breaks(network.events) == old(Breaks(network.events)) ==> socket == old(socket)
    {
      var retries := 0;
      var mayRetry := r.command !in mutations;
      while true
        invariant Valid() && Later() && cache == old(cache) && glances == old(glances) && heard == old(heard)
        invariant connected ==> socket == old(socket) || fresh(socket)
        invariant |sent| <= |old(sent)| + retries
        invariant forall k :: |old(sent)| <= k < |sent| ==> sent[k].request == r
        invariant retries <= if mayRetry then maxRetries else 0
        invariant retries > 0 ==> reconnect
        invariant old(network.events) <= network.events
        invariant Breaks(network.events) == old(Breaks(network.events)) + retries
        invariant retries == 0 ==> connected == old(connected) && socket == old(socket)
        invariant forall k :: |old(network.events)| <= k < |network.events| ==> !network.events[k].io.TimedOut?
        decreases maxRetries - retries
      {
        ghost var before := network.events;
        var attempt := Attempt(r);
        BreaksOf(before, network.events,
                 if attempt.None? then Broken else if attempt.value.Timeout? then TimedOut else Completed);
        assert network.events[..|before|] == before;
        if attempt.Some? {
          return attempt.value;
        }
        if !(mayRetry && reconnect && retries < maxRetries) {
          return Unavailable;
        }
        retries := retries + 1;
      }
    }

    // One request on the connection `expected`, never retried.
    method CallAtEpoch(expected: nat, r: Request) returns (result: EpochResult)
      requires Valid()
      modifies this, socket, network
      ensures Valid() && Later() && cache == old(cache) && glances == old(glances)
      ensures result.EpochMismatch? <==> !old(connected) || old(epoch) != expected
      ensures result.EpochMismatch? || result.PreSend? ==>
                sent == old(sent) && heard == old(heard) && epoch == old(epoch) && connected == old(connected)
      ensures !result.EpochMismatch? ==> (result.PreSend? <==> !bridge.encodable(r))
      ensures result.Ambiguous? || result.Received? ==> sent == old(sent) + [Transmission(expected, r)]
      ensures result.Ambiguous? ==> !connected && epoch == expected + 1
      // Ambiguous exactly when the network failed or the response cannot be read.
      ensures result.Ambiguous? ==>
                || (Failed(old(network.events), network.events) && heard == old(heard))
                || (|heard| == |old(heard)| + 1 && bridge.decode(heard[|heard| - 1].line).Malformed?
                    && heard[|heard| - 1].transmission == |sent| - 1)
      ensures result.Received? ==> Went(old(network.events), network.events, Completed)
      ensures result.Received? ==>
                && epoch == expected && socket == old(socket) && socket.requests == old(socket.requests) + [r]
                && JustHeard(r, result.decoded) && !result.decoded.Malformed?
    {
      hide AnswersInLines, Honest;
      if !connected || epoch != expected {
        return EpochMismatch;
      }
      if !bridge.encodable(r) {
        return PreSend;
      }
      var io, line := Exchange(r);
      if !io.Completed? || bridge.decode(line).Malformed? {
        CloseLocked();
        return Ambiguous;
      }
      return Received(bridge.decode(line));
    }

    // `time.monotonic()`.
    method Monotonic() returns (now: real)
      requires Honest()
      modifies this`clock, this`glances
      ensures now == clock >= old(clock) && Honest()
      ensures glances == old(glances) + [Glance(now, |heard|, |sent|)]
    {
      Pass();
      now := clock;
      glances := glances + [Glance(now, |heard|, |sent|)];
      StillFetched(heard, old(glances));
    }

    // The clock was last read just now, when this capability was at most five seconds old.
    ghost predicate Fresh(c: Capability)
      reads this`glances, this`heard, this`sent
    {
      glances != [] && var g := glances[|glances| - 1];
      g.heard == |heard| && g.sent == |sent| && 0.0 <= g.now - c.fetchedAt <= CAPABILITY_MAX_AGE
    }

    // The capability of the open connection, at most five seconds old.
    method GetCapabilitySnapshot() returns (c: Option<Capability>)
      requires Valid()
      modifies this`clock, this`glances
      ensures Valid() && Later()
      ensures c.Some? ==> connected && epoch in cache && c.value == cache[epoch] && Fetched(c.value) && Fresh(c.value)
      // What is cached is withheld exactly when it is not fresh.
      ensures if connected && epoch in cache then
                && glances == old(glances) + [Glance(clock, |heard|, |sent|)]
                && (c.Some? <==> Fresh(cache[epoch]))
              else
                c.None? && glances == old(glances)
    {
      hide Fetched;
      if epoch !in cache || !connected {
        return None;
      }
      var now := Monotonic();
      var age := now - cache[epoch].fetchedAt;
      return if age < 0.0 || age > CAPABILITY_MAX_AGE then None else Some(cache[epoch]);
    }

    // Whatever its stamp, a capability is stored exactly when it is one of the current epoch.
    method CacheCapabilitySnapshot(snapshot: Capability)
      requires Valid()
      modifies this`cache
      ensures cache == if snapshot.epoch == epoch then old(cache)[epoch := snapshot] else old(cache)
      ensures Fetched(snapshot) ==> Valid()
    {
      if snapshot.epoch == epoch {
        cache := cache[snapshot.epoch := snapshot];
      }
    }

    // The response does not give a v1 contract.
    ghost predicate NoContract(h: Reading) {
      var decoded := bridge.decode(h.line);
      || !decoded.OkResponse? || bridge.contract(decoded.value).None?
      || bridge.contract(decoded.value).value.preconditions != "v1"
    }

    ghost predicate IsNull(h: Reading) {
      bridge.decode(h.line).OkResponse? && bridge.isNull(bridge.decode(h.line).value)
    }

    // Why asking for the contract gave none: the network failed, the question cannot be sent, or the last
    // response heard gives none, which is not the first one if that was null.
    twostate predicate AskedInVain()
      reads this, network
    {
      || Failed(old(network.events), network.events)
      || !bridge.encodable(SESSION_INFO)
      || (&& |heard| > |old(heard)| && NoContract(heard[|heard| - 1])
          && !(|heard| == |old(heard)| + 1 && IsNull(heard[|heard| - 1])))
    }

    // Ask the bridge for its session info, once more if it answers null.
    method AskContract() returns (contract: Option<Contract>)
      requires Valid()
      modifies this, socket, network
      ensures Valid() && Later() && cache == old(cache) && glances == old(glances)
      ensures connected ==> socket == old(socket) || fresh(socket)
      ensures forall k :: |old(sent)| <= k < |sent| ==> sent[k].request == SESSION_INFO
      ensures contract.Some? ==>
                && connected && contract.value.preconditions == "v1"
                && |heard| > |old(heard)| && Attests(heard[|heard| - 1], epoch, contract.value)
                && heard[|heard| - 1].at <= clock
      ensures contract.None? ==> AskedInVain()
    {
      hide Honest, AnswersInLines;
      var session := Call(SESSION_INFO);
      if session.Answered? && session.decoded.OkResponse? && bridge.isNull(session.decoded.value) {
        session := Call(SESSION_INFO);
      }
      if !session.Answered? || !session.decoded.OkResponse? {
        return None;
      }
      contract := bridge.contract(session.decoded.value);
      if contract.None? || contract.value.preconditions != "v1" {
        return None;
      }
    }

    // The bridge contract, cached or asked for.
    method GetCapabilityStatus() returns (contract: Option<Contract>)
      requires Valid()
      modifies this, socket, network
      ensures Valid() && Later() && (connected ==> socket == old(socket) || fresh(socket))
      ensures forall k :: |old(sent)| <= k < |sent| ==> sent[k].request == SESSION_INFO
      ensures contract.Some? ==>
                connected && epoch in cache && cache[epoch].contract == contract.value && Fetched(cache[epoch])
      // What is cached and fresh is not asked for again, and the bridge is asked for anything else.
      ensures old(connected) && old(epoch) in old(cache) ==>
                && |glances| > |old(glances)|
                && var age := glances[|old(glances)|].now - old(cache)[old(epoch)].fetchedAt;
                   0.0 <= age <= CAPABILITY_MAX_AGE ==>
                     sent == old(sent) && epoch == old(epoch) && contract == Some(old(cache)[old(epoch)].contract)
      ensures contract.None? ==> AskedInVain()
    {
      hide AnswersInLines, Attests, Answer, Honest;
      var cached := GetCapabilitySnapshot();
      if cached.Some? {
        return Some(cached.value.contract);
      }
      LooksAreNotAhead();
      contract := AskContract();
      if contract.Some? {
        var fetchedAt := Monotonic();
        ghost var fetched := Capability(epoch, contract.value, fetchedAt);
        assert FetchedAt(fetched, heard, |heard| - 1, glances, |glances| - 1);
        CacheCapabilitySnapshot(Capability(epoch, contract.value, fetchedAt));
      }
    }

    // Why there is no capability: asking was in vain, or what is cached is not fresh, or of another version.
    twostate predicate Incapable()
      reads this, network
    {
      || AskedInVain()
      || (&& connected && epoch in cache && |glances| > |old(glances)|
          && glances[|glances| - 1].heard == |heard| && glances[|glances| - 1].sent == |sent|
          && (!Fresh(cache[epoch]) || cache[epoch].contract.preconditions != "v1"))
    }

    // Before a batch that writes: the capability of the open connection, exact and recent.
    method RequireFreshPreconditions() returns (snapshot: Option<Capability>)
      requires Valid()
      modifies this, socket, network
      ensures Valid() && Later() && (connected ==> socket == old(socket) || fresh(socket))
      ensures forall k :: |old(sent)| <= k < |sent| ==> sent[k].request == SESSION_INFO
      ensures snapshot.Some? ==>
                && connected && epoch in cache && snapshot.value == cache[epoch]
                && snapshot.value.epoch == epoch && snapshot.value.contract.preconditions == "v1"
                && Fetched(snapshot.value) && Fresh(snapshot.value)
      ensures snapshot.None? ==> Incapable()
    {
      hide AnswersInLines, Fetched;
      var contract := GetCapabilityStatus();
      if contract.None? {
        return None;
      }
      snapshot := GetCapabilitySnapshot();
      if snapshot.None? || snapshot.value.contract.preconditions != "v1" || snapshot.value.epoch != epoch {
        return None;
      }
    }
  }
}
