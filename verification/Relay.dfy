/**
 The relay between two devices under test: a server that the vehicle connects to, a client that
 connects to the charging station, and a message broker between them.  Each relay loop is cut
 where the other threads can come between: taking the packet, sending it, receiving, publishing,
 clearing the flag.  A message callback is one step.  Any interleaving is a run.
 */
module Relay {
  import opened Bits
  import Hex
  import opened Mqtt

  type Bytes = seq<Byte>

  const BUFFER_SIZE := 0x1_0000

  datatype ServerPhase =
    | ServerIdle
    | ServerSending(request: Bytes)
    | ServerWaiting
    | ServerDelivering(response: Bytes)
    | ServerClearing

  datatype ClientPhase =
    | ClientPolling
    | ClientDelivering(request: Bytes)
    | ClientAwaiting
    | ClientSending(response: Bytes)
    | ClientClearing

  /** One TCP session on each side.  `evSent` and `evseSent` are all the bytes the devices under
      test have sent so far, of which `evTaken` and `evseTaken` have been received; `toClient`
      and `toServer` are the published messages not yet delivered. */
  datatype Relay = Relay(
    topics: Topics, scan: Hex.ScanHex,
    evSent: Bytes, evTaken: nat, evReceived: Bytes,
    server: ServerPhase, serverShared: Shared,
    toClient: seq<string>, toServer: seq<string>,
    client: ClientPhase, clientShared: Shared,
    evseReceived: Bytes, evseSent: Bytes, evseTaken: nat)

  datatype Step =
    | EvSends(bytes: Bytes)
    | EvseSends(bytes: Bytes)
    | ServerReceives(n: nat)
    | ServerPublishes
    | ServerTakes(packet: Bytes)
    | ServerDelivers
    | ServerClears
    | ClientTakes(packet: Bytes)
    | ClientDelivers
    | ClientReceives(n: nat)
    | ClientPublishes
    | ClientClears
    | ArrivesAtClient
    | ArrivesAtServer
    | LostToClient(i: nat)
    | LostToServer(i: nat)
    | HandshakeToClient
    | HandshakeToServer

  /** When a step can be taken.  What a relay loop takes is what convert_hex_to_binary makes of
      the packet. */
  ghost predicate Enabled(s: Relay, step: Step) {
    match step
    case EvSends(_) => true
    case EvseSends(_) => true
    case ServerReceives(n) => s.server.ServerIdle? && 0 < n <= BUFFER_SIZE && s.evTaken + n <= |s.evSent|
    case ServerPublishes => s.server.ServerSending?
    case ServerTakes(p) => s.server.ServerWaiting? && s.serverShared.dataReceived && Hex.Decodes(s.serverShared.datapacket, p, s.scan)
    case ServerDelivers => s.server.ServerDelivering?
    case ServerClears => s.server.ServerClearing?
    case ClientTakes(p) => s.client.ClientPolling? && s.clientShared.dataReceived && Hex.Decodes(s.clientShared.datapacket, p, s.scan)
    case ClientDelivers => s.client.ClientDelivering?
    case ClientReceives(n) => s.client.ClientAwaiting? && 0 < n <= BUFFER_SIZE && s.evseTaken + n <= |s.evseSent|
    case ClientPublishes => s.client.ClientSending?
    case ClientClears => s.client.ClientClearing?
    case ArrivesAtClient => s.toClient != []
    case ArrivesAtServer => s.toServer != []
    case LostToClient(i) => i < |s.toClient|
    case LostToServer(i) => i < |s.toServer|
    case HandshakeToClient => true
    case HandshakeToServer => true
  }

  function Without(q: seq<string>, i: nat): seq<string>
    requires i < |q|
  {
    q[..i] + q[i + 1..]
  }

  function Do(s: Relay, step: Step): Relay
    requires Enabled(s, step)
  {
    match step
    case EvSends(b) => s.(evSent := s.evSent + b)
    case EvseSends(b) => s.(evseSent := s.evseSent + b)
    case ServerReceives(n) =>
      s.(server := ServerSending(s.evSent[s.evTaken..s.evTaken + n]), evTaken := s.evTaken + n)
    case ServerPublishes => s.(server := ServerWaiting, toClient := s.toClient + [Hex.Encode(s.server.request)])
    case ServerTakes(p) => s.(server := ServerDelivering(p))
    case ServerDelivers => s.(server := ServerClearing, evReceived := s.evReceived + s.server.response)
    case ServerClears => s.(server := ServerIdle, serverShared := s.serverShared.(dataReceived := false))
    case ClientTakes(p) => s.(client := ClientDelivering(p))
    case ClientDelivers => s.(client := ClientAwaiting, evseReceived := s.evseReceived + s.client.request)
    case ClientReceives(n) =>
      s.(client := ClientSending(s.evseSent[s.evseTaken..s.evseTaken + n]), evseTaken := s.evseTaken + n)
    case ClientPublishes => s.(client := ClientClearing, toServer := s.toServer + [Hex.Encode(s.client.response)])
    case ClientClears => s.(client := ClientPolling, clientShared := s.clientShared.(dataReceived := false))
    case ArrivesAtClient =>
      s.(clientShared := Handled(s.clientShared, s.topics, s.topics.evseMessage, s.toClient[0]), toClient := s.toClient[1..])
    case ArrivesAtServer =>
      s.(serverShared := Handled(s.serverShared, s.topics, s.topics.evMessage, s.toServer[0]), toServer := s.toServer[1..])
    case LostToClient(i) => s.(toClient := Without(s.toClient, i))
    case LostToServer(i) => s.(toServer := Without(s.toServer, i))
    case HandshakeToClient => s.(toClient := s.toClient + ["1"])
    case HandshakeToServer => s.(toServer := s.toServer + ["1"])
  }

  /** Both loops at their start, no flag raised, and nothing but handshake messages under way. */
  ghost predicate Initial(s: Relay) {
    && s.server == ServerIdle && s.client == ClientPolling
    && !s.serverShared.dataReceived && !s.clientShared.dataReceived
    && Data(s.toClient) == [] && Data(s.toServer) == []
    && s.evTaken == 0 && s.evReceived == [] && s.evseTaken == 0 && s.evseReceived == []
  }

  // ---------------------------------------------------------------------------
  // Runs
  // ---------------------------------------------------------------------------

  ghost predicate Run(s: Relay, steps: seq<Step>)
    decreases |steps|, 0
  {
    steps == [] || (Run(s, Front(steps)) && Enabled(After(s, Front(steps)), Last(steps)))
  }

  ghost function After(s: Relay, steps: seq<Step>): Relay
    requires Run(s, steps)
    decreases |steps|, 1
  {
    if steps == [] then s else Do(After(s, Front(steps)), Last(steps))
  }

  function Front(steps: seq<Step>): seq<Step>
    requires steps != []
  {
    steps[..|steps| - 1]
  }

  function Last(steps: seq<Step>): Step
    requires steps != []
  {
    steps[|steps| - 1]
  }

  // ---------------------------------------------------------------------------
  // Where the one message is
  // ---------------------------------------------------------------------------

  /** The messages of a queue that are not handshakes. */
  function Data(q: seq<string>): seq<string> {
    if q == [] then [] else (if q[0] == "1" then [] else [q[0]]) + Data(q[1..])
  }

  /** Messages under way: at the server between two waits, in a queue, in a mailbox whose loop
      is waiting for it, or at the client between taking a request and publishing the response. */
  function Tokens(s: Relay): nat {
    (if s.server.ServerWaiting? then 0 else 1)
    + |Data(s.toClient)|
    + (if s.client.ClientPolling? && s.clientShared.dataReceived then 1 else 0)
    + (if s.client.ClientDelivering? || s.client.ClientAwaiting? || s.client.ClientSending? then 1 else 0)
    + |Data(s.toServer)|
    + (if s.server.ServerWaiting? && s.serverShared.dataReceived then 1 else 0)
  }

  /** A step that loses a message: the broker drops it, or it reaches the client's mailbox after
      the client has published and before it has cleared the flag. */
  predicate Lossy(s: Relay, step: Step) {
    match step
    case LostToClient(i) => i < |s.toClient| && s.toClient[i] != "1"
    case LostToServer(i) => i < |s.toServer| && s.toServer[i] != "1"
    case ArrivesAtClient => s.toClient != [] && s.toClient[0] != "1" && s.client.ClientClearing?
    case _ => false
  }

  ghost predicate Lossless(s: Relay, steps: seq<Step>)
    requires Run(s, steps)
    decreases |steps|
  {
    steps == [] || (Lossless(s, Front(steps)) && !Lossy(After(s, Front(steps)), Last(steps)))
  }

  /** The request on its way to the charging station: received, not yet sent on. */
  ghost function RequestUnderWay(s: Relay): Bytes {
    match s.server
    case ServerSending(r) => r
    case _ =>
      if s.client.ClientDelivering? then s.client.request
      else if |Data(s.toClient)| > 0 then Hex.Decode(Data(s.toClient)[0])
      else if s.client.ClientPolling? && s.clientShared.dataReceived then Hex.Decode(s.clientShared.datapacket)
      else []
  }

  ghost function ResponseUnderWay(s: Relay): Bytes {
    match s.server
    case ServerDelivering(r) => r
    case _ =>
      if s.client.ClientSending? then s.client.response
      else if |Data(s.toServer)| > 0 then Hex.Decode(Data(s.toServer)[0])
      else if s.server.ServerWaiting? && s.serverShared.dataReceived then Hex.Decode(s.serverShared.datapacket)
      else []
  }

  datatype Place =
    | AtServer
    | ToClient(request: Bytes)
    | InClientBox(request: Bytes)
    | AtClient
    | ToServer(response: Bytes)
    | InServerBox(response: Bytes)
    | Gone

  /** The client has nothing in hand: it polls an empty mailbox, or is about to clear the flag. */
  predicate ClientFree(s: Relay) {
    (s.client.ClientPolling? && !s.clientShared.dataReceived) || s.client.ClientClearing?
  }

  /** Everything received has been sent on, except some bytes under way each way. */
  predicate Balanced(s: Relay, request: Bytes, response: Bytes) {
    && s.evTaken <= |s.evSent| && s.evseTaken <= |s.evseSent|
    && s.evseReceived + request == s.evSent[..s.evTaken]
    && s.evReceived + response == s.evseSent[..s.evseTaken]
  }

  predicate Prefixes(s: Relay) {
    && s.evTaken <= |s.evSent| && s.evseTaken <= |s.evseSent|
    && s.evseReceived <= s.evSent[..s.evTaken]
    && s.evReceived <= s.evseSent[..s.evseTaken]
  }

  ghost predicate At(s: Relay, place: Place) {
    match place
    case AtServer =>
      && !s.server.ServerWaiting? && ClientFree(s) && Data(s.toClient) == [] == Data(s.toServer)
      && s.serverShared.dataReceived == (s.server.ServerDelivering? || s.server.ServerClearing?)
      && Balanced(s, if s.server.ServerSending? then s.server.request else [],
                  if s.server.ServerDelivering? then s.server.response else [])
    case ToClient(r) =>
      && s.server.ServerWaiting? && ClientFree(s) && !s.serverShared.dataReceived
      && Data(s.toClient) == [Hex.Encode(r)] && Data(s.toServer) == [] && Balanced(s, r, [])
    case InClientBox(r) =>
      && s.server.ServerWaiting? && s.client.ClientPolling? && s.clientShared.dataReceived && !s.serverShared.dataReceived
      && s.clientShared.datapacket == Hex.Encode(r)
      && Data(s.toClient) == [] == Data(s.toServer) && Balanced(s, r, [])
    case AtClient =>
      && s.server.ServerWaiting? && !s.serverShared.dataReceived && Data(s.toClient) == [] == Data(s.toServer)
      && (s.client.ClientDelivering? || s.client.ClientAwaiting? || s.client.ClientSending?)
      && Balanced(s, if s.client.ClientDelivering? then s.client.request else [],
                  if s.client.ClientSending? then s.client.response else [])
    case ToServer(r) =>
      && s.server.ServerWaiting? && ClientFree(s) && !s.serverShared.dataReceived
      && Data(s.toClient) == [] && Data(s.toServer) == [Hex.Encode(r)] && Balanced(s, [], r)
    case InServerBox(r) =>
      && s.server.ServerWaiting? && ClientFree(s) && s.serverShared.dataReceived
      && s.serverShared.datapacket == Hex.Encode(r)
      && Data(s.toClient) == [] == Data(s.toServer) && Balanced(s, [], r)
    case Gone =>
      && s.server.ServerWaiting? && ClientFree(s) && !s.serverShared.dataReceived
      && Data(s.toClient) == [] == Data(s.toServer) && Prefixes(s)
  }

  // ---------------------------------------------------------------------------
  // Queues
  // ---------------------------------------------------------------------------

  lemma DataHead(q: seq<string>)
    requires q != []
    ensures q[0] == "1" ==> Data(q[1..]) == Data(q)
    ensures q[0] != "1" ==> |Data(q)| > 0 && Data(q)[0] == q[0]
    ensures q[0] != "1" && |Data(q)| == 1 ==> Data(q[1..]) == []
  {
    if q[0] != "1" {
      assert Data(q) == [q[0]] + Data(q[1..]);
    }
  }

  lemma {:induction false} DataConcat(a: seq<string>, b: seq<string>)
    ensures Data(a + b) == Data(a) + Data(b)
  {
    if a == [] {
      assert a + b == b;
    } else {
      assert (a + b)[1..] == a[1..] + b;
      DataConcat(a[1..], b);
    }
  }

  lemma DataAppend(q: seq<string>, m: string)
    ensures Data(q + [m]) == if m == "1" then Data(q) else Data(q) + [m]
  {
    DataConcat(q, [m]);
  }

  /** Losing a message of a queue with at most one data message. */
  lemma DataWithout(q: seq<string>, i: nat)
    requires i < |q| && |Data(q)| <= 1
    ensures Data(Without(q, i)) == if q[i] == "1" then Data(q) else []
    ensures q[i] != "1" ==> Data(q) == [q[i]]
  {
    hide *;
    DataParts(q, i);
    DataOne(q[i]);
    Middle(Data(q[..i]), Data([q[i]]), Data(q[i + 1..]));
  }

  lemma DataParts(q: seq<string>, i: nat)
    requires i < |q|
    ensures Data(q) == Data(q[..i]) + (Data([q[i]]) + Data(q[i + 1..]))
    ensures Data(Without(q, i)) == Data(q[..i]) + Data(q[i + 1..])
  {
    Split(q, i);
    hide Data;
    DataConcat(q[..i], [q[i]] + q[i + 1..]);
    DataConcat([q[i]], q[i + 1..]);
    DataConcat(q[..i], q[i + 1..]);
  }

  lemma Split<T>(q: seq<T>, i: nat)
    requires i < |q|
    ensures q == q[..i] + ([q[i]] + q[i + 1..])
  {
  }

  lemma Middle(a: seq<string>, b: seq<string>, c: seq<string>)
    requires |a + (b + c)| <= 1
    ensures b == [] ==> a + c == a + (b + c)
    ensures |b| == 1 ==> a + c == [] && a + (b + c) == b
  {
  }

  lemma DataOne(m: string)
    ensures m == "1" ==> Data([m]) == []
    ensures m != "1" ==> Data([m]) == [m]
  {
    assert [m][1..] == [];
  }

  // ---------------------------------------------------------------------------
  // One step
  // ---------------------------------------------------------------------------

  lemma Taken(sent: Bytes, taken: nat, n: nat, received: Bytes)
    requires taken + n <= |sent| && received == sent[..taken]
    ensures received + sent[taken..taken + n] == sent[..taken + n]
  {
  }

  lemma SentMore(s: Relay, step: Step, place: Place)
    requires Enabled(s, step) && At(s, place) && (step.EvSends? || step.EvseSends?)
    ensures At(Do(s, step), place)
  {
    hide Hex.Encode, Hex.Decodes, Data;
    var t := Do(s, step);
    if s.evTaken <= |s.evSent| && s.evseTaken <= |s.evseSent| {
      assert t.evSent[..t.evTaken] == s.evSent[..s.evTaken];
      assert t.evseSent[..t.evseTaken] == s.evseSent[..s.evseTaken];
    }
  }

  lemma ServerSteps(s: Relay, step: Step, place: Place) returns (next: Place)
    requires Enabled(s, step) && At(s, place)
    requires step.ServerReceives? || step.ServerPublishes? || step.ServerTakes? || step.ServerDelivers? || step.ServerClears?
    ensures At(Do(s, step), next) && (next.Gone? <==> place.Gone?)
  {
    hide Hex.Encode, Hex.Decodes, Data;
    next := place;
    match step {
      case ServerReceives(n) => Taken(s.evSent, s.evTaken, n, s.evseReceived);
      case ServerPublishes =>
        next := ToClient(s.server.request);
        Hex.EncodedIsNoHandshake(s.server.request);
        DataAppend(s.toClient, Hex.Encode(s.server.request));
      case ServerTakes(p) =>
        next := AtServer;
        Hex.EncodedDecodes(place.response, p, s.scan);
      case _ =>
    }
  }

  lemma ClientSteps(s: Relay, step: Step, place: Place) returns (next: Place)
    requires Enabled(s, step) && At(s, place)
    requires step.ClientReceives? || step.ClientPublishes? || step.ClientTakes? || step.ClientDelivers? || step.ClientClears?
    ensures At(Do(s, step), next) && (next.Gone? <==> place.Gone?)
  {
    hide Hex.Encode, Hex.Decodes, Data;
    next := place;
    match step {
      case ClientReceives(n) => Taken(s.evseSent, s.evseTaken, n, s.evReceived);
      case ClientPublishes =>
        next := ToServer(s.client.response);
        Hex.EncodedIsNoHandshake(s.client.response);
        DataAppend(s.toServer, Hex.Encode(s.client.response));
      case ClientTakes(p) =>
        next := AtClient;
        Hex.EncodedDecodes(place.request, p, s.scan);
      case _ =>
    }
  }

  lemma BalancedPrefixes(s: Relay, request: Bytes, response: Bytes)
    requires Balanced(s, request, response)
    ensures Prefixes(s)
  {
  }

  lemma Callback(s: Shared, topics: Topics, topic: string, m: string)
    requires topic == topics.evMessage || topic == topics.evseMessage
    ensures var r := Handled(s, topics, topic, m);
            && r.dataReceived == (s.dataReceived || m != "1")
            && r.datapacket == if m == "1" then s.datapacket else m
  {
  }

  lemma ArrivalAtClient(s: Relay, place: Place) returns (next: Place)
    requires s.toClient != [] && At(s, place)
    ensures At(Do(s, ArrivesAtClient), next) && (next.Gone? <==> place.Gone? || Lossy(s, ArrivesAtClient))
  {
    hide Hex.Encode, Hex.Decodes, Data, Handled;
    DataHead(s.toClient);
    Callback(s.clientShared, s.topics, s.topics.evseMessage, s.toClient[0]);
    next := place;
    if s.toClient[0] != "1" {
      var r := place.request;
      BalancedPrefixes(s, r, []);
      next := if s.client.ClientClearing? then Gone else InClientBox(r);
    }
  }

  lemma ArrivalAtServer(s: Relay, place: Place) returns (next: Place)
    requires s.toServer != [] && At(s, place)
    ensures At(Do(s, ArrivesAtServer), next) && (next.Gone? <==> place.Gone? || Lossy(s, ArrivesAtServer))
  {
    hide Hex.Encode, Hex.Decodes, Data, Handled;
    DataHead(s.toServer);
    Callback(s.serverShared, s.topics, s.topics.evMessage, s.toServer[0]);
    next := if s.toServer[0] == "1" then place else InServerBox(place.response);
  }

  lemma LossToClient(s: Relay, i: nat, place: Place) returns (next: Place)
    requires i < |s.toClient| && At(s, place)
    ensures At(Do(s, LostToClient(i)), next) && (next.Gone? <==> place.Gone? || Lossy(s, LostToClient(i)))
  {
    hide Hex.Encode, Hex.Decodes, Data, Without;
    DataWithout(s.toClient, i);
    next := place;
    if s.toClient[i] != "1" {
      next := Gone;
      BalancedPrefixes(s, place.request, []);
    }
  }

  lemma LossToServer(s: Relay, i: nat, place: Place) returns (next: Place)
    requires i < |s.toServer| && At(s, place)
    ensures At(Do(s, LostToServer(i)), next) && (next.Gone? <==> place.Gone? || Lossy(s, LostToServer(i)))
  {
    hide Hex.Encode, Hex.Decodes, Data, Without;
    DataWithout(s.toServer, i);
    next := place;
    if s.toServer[i] != "1" {
      next := Gone;
      BalancedPrefixes(s, [], place.response);
    }
  }

  lemma Handshakes(s: Relay, step: Step, place: Place)
    requires At(s, place) && (step.HandshakeToClient? || step.HandshakeToServer?)
    ensures At(Do(s, step), place)
  {
    hide Hex.Encode, Hex.Decodes, Data;
    DataAppend(s.toClient, "1");
    DataAppend(s.toServer, "1");
  }

  lemma QueueSteps(s: Relay, step: Step)
    requires Enabled(s, step)
    ensures step.ArrivesAtClient? ==> s.toClient != []
    ensures step.ArrivesAtServer? ==> s.toServer != []
    ensures step.LostToClient? ==> step.i < |s.toClient|
    ensures step.LostToServer? ==> step.i < |s.toServer|
  {
  }

  /** Every step moves the one message to another place, or loses it, which only a lossy step does. */
  lemma StepMoves(s: Relay, step: Step, place: Place) returns (next: Place)
    requires Enabled(s, step) && At(s, place)
    ensures At(Do(s, step), next) && (next.Gone? <==> place.Gone? || Lossy(s, step))
  {
    hide Enabled, At, Do;
    if step.EvSends? || step.EvseSends? {
      SentMore(s, step, place);
      next := place;
    } else if step.ServerReceives? || step.ServerPublishes? || step.ServerTakes? || step.ServerDelivers? || step.ServerClears? {
      next := ServerSteps(s, step, place);
    } else if step.ClientReceives? || step.ClientPublishes? || step.ClientTakes? || step.ClientDelivers? || step.ClientClears? {
      next := ClientSteps(s, step, place);
    } else if step.ArrivesAtClient? {
      QueueSteps(s, step);
      next := ArrivalAtClient(s, place);
    } else if step.ArrivesAtServer? {
      QueueSteps(s, step);
      next := ArrivalAtServer(s, place);
    } else if step.LostToClient? {
      QueueSteps(s, step);
      next := LossToClient(s, step.i, place);
    } else if step.LostToServer? {
      QueueSteps(s, step);
      next := LossToServer(s, step.i, place);
    } else {
      Handshakes(s, step, place);
      next := place;
    }
  }
}
