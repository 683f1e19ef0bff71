/**
 What holds in every run of the relay: safety, conservation and progress, and the run in which a
 request is wiped.
 */
module RelayRuns {
  import Hex
  import opened Mqtt
  import opened Relay

  // ---------------------------------------------------------------------------
  // All runs
  // ---------------------------------------------------------------------------

  lemma {:induction false} RunPlace(s: Relay, steps: seq<Step>) returns (place: Place)
    requires Initial(s) && Run(s, steps)
    ensures At(After(s, steps), place) && (place.Gone? <==> !Lossless(s, steps))
    decreases |steps|
  {
    if steps == [] {
      place := AtServer;
      hide Data;
    } else {
      hide At, Enabled, Do, Initial;
      var p := RunPlace(s, Front(steps));
      place := StepMoves(After(s, Front(steps)), Last(steps), p);
    }
  }

  lemma PlaceTokens(s: Relay, place: Place)
    requires At(s, place)
    ensures Tokens(s) == if place.Gone? then 0 else 1
    ensures Prefixes(s)
  {
    hide Hex.Encode, Data;
  }

  lemma PlaceBalanced(s: Relay, place: Place)
    requires At(s, place) && !place.Gone?
    ensures Balanced(s, RequestUnderWay(s), ResponseUnderWay(s))
  {
    hide Hex.Encode, Hex.Decode, Data;
    match place {
      case ToClient(r) => Hex.DecodeEncode(r);
      case InClientBox(r) => Hex.DecodeEncode(r);
      case ToServer(r) => Hex.DecodeEncode(r);
      case InServerBox(r) => Hex.DecodeEncode(r);
      case _ =>
    }
  }

  /** Safety: in every run, whatever is lost and whatever the devices under test send, what the
      charging station has received is a beginning of what the vehicle has sent, and what the
      vehicle has received is a beginning of what the charging station has sent. */
  lemma PrefixSafety(s: Relay, steps: seq<Step>)
    requires Initial(s) && Run(s, steps)
    ensures var t := After(s, steps);
            && t.evTaken <= |t.evSent| && t.evseReceived <= t.evSent[..t.evTaken] <= t.evSent
            && t.evseTaken <= |t.evseSent| && t.evReceived <= t.evseSent[..t.evseTaken] <= t.evseSent
  {
    hide At, Initial;
    var place := RunPlace(s, steps);
    PlaceTokens(After(s, steps), place);
  }

  /** There is never more than one message, and there is one as long as no step of the run was
      lossy. */
  lemma OneToken(s: Relay, steps: seq<Step>)
    requires Initial(s) && Run(s, steps)
    ensures Tokens(After(s, steps)) == if Lossless(s, steps) then 1 else 0
  {
    hide At, Initial, Tokens;
    var place := RunPlace(s, steps);
    PlaceTokens(After(s, steps), place);
  }

  /** Conservation: as long as no step was lossy, every byte taken from a device under test has
      been handed to the other, except those under way. */
  lemma Conserved(s: Relay, steps: seq<Step>)
    requires Initial(s) && Run(s, steps) && Lossless(s, steps)
    ensures var t := After(s, steps); Balanced(t, RequestUnderWay(t), ResponseUnderWay(t))
  {
    hide At, Initial, Balanced;
    var place := RunPlace(s, steps);
    PlaceBalanced(After(s, steps), place);
  }

  // ---------------------------------------------------------------------------
  // Publishing and clearing as one step
  // ---------------------------------------------------------------------------

  predicate DropsData(s: Relay, step: Step) {
    || (step.LostToClient? && step.i < |s.toClient| && s.toClient[step.i] != "1")
    || (step.LostToServer? && step.i < |s.toServer| && s.toServer[step.i] != "1")
  }

  /** The broker loses no data, and nothing comes between the client's publishing and clearing. */
  ghost predicate Atomic(s: Relay, steps: seq<Step>)
    requires Run(s, steps)
    decreases |steps|
  {
    steps == [] ||
    var t, step := After(s, Front(steps)), Last(steps);
    Atomic(s, Front(steps)) && !DropsData(t, step) && (t.client.ClientClearing? ==> step.ClientClears?)
  }

  /** Then no request and no response is ever lost. */
  lemma {:induction false} AtomicIsLossless(s: Relay, steps: seq<Step>)
    requires Run(s, steps) && Atomic(s, steps)
    ensures Lossless(s, steps)
    decreases |steps|
  {
    if steps != [] {
      hide Do, Enabled;
      AtomicIsLossless(s, Front(steps));
    }
  }

  // ---------------------------------------------------------------------------
  // After a loss, and without one
  // ---------------------------------------------------------------------------

  /** Once the message is lost the relay stands still: whatever follows, nothing more is handed to
      either device under test. */
  lemma {:induction false} GoneForever(s: Relay, steps: seq<Step>)
    requires At(s, Gone) && Run(s, steps)
    ensures At(After(s, steps), Gone)
    ensures After(s, steps).evReceived == s.evReceived && After(s, steps).evseReceived == s.evseReceived
    decreases |steps|
  {
    if steps != [] {
      var t := After(s, Front(steps));
      GoneForever(s, Front(steps));
      GoneStays(t, Last(steps));
      hide At, Do, Enabled;
    }
  }

  lemma GoneStays(s: Relay, step: Step)
    requires At(s, Gone) && Enabled(s, step)
    ensures At(Do(s, step), Gone)
    ensures Do(s, step).evReceived == s.evReceived && Do(s, step).evseReceived == s.evseReceived
  {
    var next := StepMoves(s, step, Gone);
    hide Hex.Decodes, Hex.Encode, Data;
  }

  /** A step of the relay itself, not of a device under test, a handshake or a loss. */
  predicate Relays(step: Step) {
    || step.ServerReceives? || step.ServerPublishes? || step.ServerTakes? || step.ServerDelivers? || step.ServerClears?
    || step.ClientReceives? || step.ClientPublishes? || step.ClientTakes? || step.ClientDelivers? || step.ClientClears?
    || step.ArrivesAtClient? || step.ArrivesAtServer?
  }

  /** The relay waits for a device under test: the vehicle's next request or the charging station's
      response. */
  predicate WaitsForDevice(s: Relay) {
    || (s.server.ServerIdle? && s.evTaken == |s.evSent|)
    || (s.client.ClientAwaiting? && s.evseTaken == |s.evseSent|)
  }

  /** Without a loss the relay never stands still except to wait for a device under test. */
  lemma NeverStuck(s: Relay, steps: seq<Step>)
    requires Initial(s) && Run(s, steps) && Lossless(s, steps)
    ensures var t := After(s, steps);
            WaitsForDevice(t) || exists step :: Relays(step) && Enabled(t, step)
  {
    hide At, Initial, Enabled, WaitsForDevice, Relays;
    var t := After(s, steps);
    var place := RunPlace(s, steps);
    PlaceMoves(t, place);
  }

  lemma PlaceMoves(s: Relay, place: Place)
    requires At(s, place) && !place.Gone?
    ensures WaitsForDevice(s) || exists step :: Relays(step) && Enabled(s, step)
  {
    hide Hex.Decodes, Hex.Encode, Data, Balanced;
    NoData();
    var step := NextStep(s, place);
    if !WaitsForDevice(s) {
      match place {
        case InClientBox(r) => Hex.EncodedDecodes(r, r, s.scan);
        case InServerBox(r) => Hex.EncodedDecodes(r, r, s.scan);
        case _ => InBounds(s, place);
      }
      assert Relays(step) && Enabled(s, step);
    }
  }

  lemma NoData()
    ensures Data([]) == []
  {
  }

  lemma InBounds(s: Relay, place: Place)
    requires At(s, place) && !place.Gone?
    ensures s.evTaken <= |s.evSent| && s.evseTaken <= |s.evseSent|
  {
    hide Hex.Encode, Data;
  }

  function NextStep(s: Relay, place: Place): Step {
    match place
    case AtServer =>
      if s.server.ServerIdle? then ServerReceives(1)
      else if s.server.ServerSending? then ServerPublishes
      else if s.server.ServerDelivering? then ServerDelivers
      else ServerClears
    case ToClient(_) => ArrivesAtClient
    case InClientBox(r) => ClientTakes(r)
    case AtClient =>
      if s.client.ClientDelivering? then ClientDelivers
      else if s.client.ClientAwaiting? then ClientReceives(1)
      else ClientPublishes
    case ToServer(_) => ArrivesAtServer
    case InServerBox(r) => ServerTakes(r)
    case Gone => ClientClears
  }

  // ---------------------------------------------------------------------------
  // How long it can take
  // ---------------------------------------------------------------------------

  /** The steps in which a relay loop receives from a device under test. */
  predicate Receives(step: Step) {
    step.ServerReceives? || step.ClientReceives?
  }

  predicate IsHandshake(step: Step) {
    step.HandshakeToClient? || step.HandshakeToServer?
  }

  /** How many steps the relay can take before it needs a device under test: those of the two
      loops, and one for the arrival of each message. */
  function Work(s: Relay): nat {
    (match s.server
     case ServerIdle => 0
     case ServerSending(_) => 4
     case ServerWaiting => if s.serverShared.dataReceived then 3 else 0
     case ServerDelivering(_) => 2
     case ServerClearing => 1)
    + (match s.client
       case ClientPolling => if s.clientShared.dataReceived then 2 else 0
       case ClientDelivering(_) => 1
       case ClientAwaiting => 0
       case ClientSending(_) => 6
       case ClientClearing => 1)
    + 3 * |s.toClient| + 4 * |s.toServer|
  }

  /** The step lowers Work as it should. */
  predicate Lowers(s: Relay, step: Step, t: Relay) {
    Work(t) + (if Relays(step) && !Receives(step) then 1 else 0)
    <= Work(s) + (if Receives(step) then 6 else 0) + (if IsHandshake(step) then 4 else 0)
  }

  lemma LoopWork(s: Relay, step: Step, place: Place)
    requires At(s, place) && Enabled(s, step)
    requires Relays(step) && !step.ArrivesAtClient? && !step.ArrivesAtServer?
    ensures Lowers(s, step, Do(s, step))
  {
    hide Hex.Encode, Hex.Decodes, Data, Balanced, Prefixes, ClientFree;
  }

  lemma ArrivalWork(s: Relay, step: Step, place: Place)
    requires At(s, place) && Enabled(s, step) && (step.ArrivesAtClient? || step.ArrivesAtServer?)
    ensures Lowers(s, step, Do(s, step))
  {
    hide Hex.Encode, Hex.Decodes, Data, Balanced, Prefixes, Handled;
    if step.ArrivesAtClient? {
      DataHead(s.toClient);
      Callback(s.clientShared, s.topics, s.topics.evseMessage, s.toClient[0]);
    } else {
      DataHead(s.toServer);
      Callback(s.serverShared, s.topics, s.topics.evMessage, s.toServer[0]);
    }
  }

  lemma OtherWork(s: Relay, step: Step)
    requires Enabled(s, step) && !Relays(step)
    ensures Lowers(s, step, Do(s, step))
  {
    hide Hex.Encode, Hex.Decodes, Data;
  }

  lemma StepWork(s: Relay, step: Step, place: Place)
    requires At(s, place) && Enabled(s, step)
    ensures Lowers(s, step, Do(s, step))
  {
    hide At, Enabled, Do, Lowers;
    if !Relays(step) {
      OtherWork(s, step);
    } else if step.ArrivesAtClient? || step.ArrivesAtServer? {
      ArrivalWork(s, step, place);
    } else {
      LoopWork(s, step, place);
    }
  }

  /** How often a kind of step occurs in a run: a step of the relay that receives nothing from a
      device, one that does, and the publishing of a handshake message. */
  function Relayed(steps: seq<Step>): nat {
    if steps == [] then 0 else Relayed(Front(steps)) + if Relays(Last(steps)) && !Receives(Last(steps)) then 1 else 0
  }

  function Received(steps: seq<Step>): nat {
    if steps == [] then 0 else Received(Front(steps)) + if Receives(Last(steps)) then 1 else 0
  }

  function HandshakesSent(steps: seq<Step>): nat {
    if steps == [] then 0 else HandshakesSent(Front(steps)) + if IsHandshake(Last(steps)) then 1 else 0
  }

  lemma {:induction false} StaysSomewhere(s: Relay, place: Place, steps: seq<Step>) returns (next: Place)
    requires At(s, place) && Run(s, steps)
    ensures At(After(s, steps), next)
    decreases |steps|
  {
    next := place;
    if steps != [] {
      hide At, Enabled, Do;
      next := StaysSomewhere(s, place, Front(steps));
      next := StepMoves(After(s, Front(steps)), Last(steps), next);
    }
  }

  /** From any state of a run on, the relay takes at most Work(s) steps of its own before it needs a
      device under test, six more for each time it receives something from one, and four for each
      handshake message.  With NeverStuck: without a loss it is back waiting for a device under test
      after so many steps, in whatever order they are taken. */
  lemma {:induction false} Progress(s: Relay, place: Place, steps: seq<Step>)
    requires At(s, place) && Run(s, steps)
    ensures Relayed(steps) + Work(After(s, steps)) <= Work(s) + 6 * Received(steps) + 4 * HandshakesSent(steps)
    decreases |steps|
  {
    if steps != [] {
      hide At, Enabled, Do, Work, Relays, Receives, IsHandshake;
      Progress(s, place, Front(steps));
      var p := StaysSomewhere(s, place, Front(steps));
      StepWork(After(s, Front(steps)), Last(steps), p);
    }
  }

  /** In particular between two device waits: with nothing received in between and no handshake
      message, at most Work steps, which are at most six and those for handshakes still queued. */
  lemma WorkBound(s: Relay, place: Place)
    requires At(s, place)
    ensures Work(s) <= 6 + 3 * (|s.toClient| - |Data(s.toClient)|) + 4 * (|s.toServer| - |Data(s.toServer)|)
  {
    hide Hex.Encode, Data, Balanced, Prefixes;
  }

  // ---------------------------------------------------------------------------
  // The request that is wiped
  // ---------------------------------------------------------------------------

  predicate NothingDropped(steps: seq<Step>) {
    forall i :: 0 <= i < |steps| ==> !steps[i].LostToClient? && !steps[i].LostToServer?
  }

  lemma Advance(s: Relay, steps: seq<Step>, t: Relay, step: Step) returns (more: seq<Step>, u: Relay)
    requires Run(s, steps) && After(s, steps) == t && Enabled(t, step) && NothingDropped(steps)
    requires !step.LostToClient? && !step.LostToServer?
    ensures more == steps + [step] && u == Do(t, step) && Run(s, more) && After(s, more) == u && NothingDropped(more)
  {
    more, u := steps + [step], Do(t, step);
    assert Front(more) == steps && Last(more) == step;
    hide Do, Enabled;
  }

  function Start(topics: Topics, scan: Hex.ScanHex): Relay {
    var none := Shared(BothHandshake, false, "");
    Relay(topics, scan, [], 0, [], ServerIdle, none, [], [], ClientPolling, none, [], [], 0)
  }

  /** Something a device under test can send and a relay loop receives at once. */
  predicate OneRead(b: Bytes) {
    0 < |b| <= BUFFER_SIZE
  }

  lemma Reads(a: Bytes, b: Bytes)
    ensures (a + b)[|a|..|a| + |b|] == b && (a + b)[..|a|] == a
    ensures [] + b == b
  {
  }

  lemma Nothing(topics: Topics, scan: Hex.ScanHex)
    ensures var s := Start(topics, scan); Initial(s) && Run(s, []) && After(s, []) == s && NothingDropped([])
  {
  }

  /** The vehicle's request reaches the client of the other relay. */
  lemma Request(s: Relay, before: seq<Step>, u: Relay, request: Bytes) returns (steps: seq<Step>, t: Relay)
    requires Run(s, before) && After(s, before) == u && NothingDropped(before) && OneRead(request)
    requires u.server.ServerIdle? && u.evTaken == |u.evSent| && u.toClient == []
    ensures Run(s, steps) && After(s, steps) == t && NothingDropped(steps)
    ensures t == u.(server := ServerWaiting, evSent := u.evSent + request, evTaken := u.evTaken + |request|,
                    toClient := [Hex.Encode(request)])
  {
    hide Hex.Encode, Hex.Decodes, Run, After, NothingDropped;
    Reads(u.evSent, request);
    steps, t := Advance(s, before, u, EvSends(request));
    steps, t := Advance(s, steps, t, ServerReceives(|request|));
    steps, t := Advance(s, steps, t, ServerPublishes);
  }

  /** The client takes it, hands it on, and publishes the response. */
  lemma Response(s: Relay, before: seq<Step>, u: Relay, request: Bytes, response: Bytes) returns (steps: seq<Step>, t: Relay)
    requires Run(s, before) && After(s, before) == u && NothingDropped(before) && OneRead(response)
    requires u.client.ClientPolling? && u.toClient == [Hex.Encode(request)] && u.toServer == [] && u.evseTaken == |u.evseSent|
    ensures Run(s, steps) && After(s, steps) == t && NothingDropped(steps)
    ensures t.client == ClientClearing && t.evseReceived == u.evseReceived + request && t.toServer == [Hex.Encode(response)]
    ensures t.toClient == [] && t.server == u.server && t.serverShared == u.serverShared && t.topics == u.topics && t.scan == u.scan
    ensures t.evSent == u.evSent && t.evTaken == u.evTaken
  {
    hide Hex.Encode, Hex.Decodes, Run, After, NothingDropped;
    Reads(u.evseSent, response);
    Hex.EncodedIsNoHandshake(request);
    Hex.EncodedDecodes(request, request, u.scan);
    steps, t := Advance(s, before, u, ArrivesAtClient);
    steps, t := Advance(s, steps, t, ClientTakes(request));
    steps, t := Advance(s, steps, t, ClientDelivers);
    steps, t := Advance(s, steps, t, EvseSends(response));
    steps, t := Advance(s, steps, t, ClientReceives(|response|));
    steps, t := Advance(s, steps, t, ClientPublishes);
  }

  /** The response reaches the vehicle. */
  lemma Back(s: Relay, before: seq<Step>, u: Relay, response: Bytes) returns (steps: seq<Step>, t: Relay)
    requires Run(s, before) && After(s, before) == u && NothingDropped(before)
    requires u.server.ServerWaiting? && u.toServer == [Hex.Encode(response)]
    ensures Run(s, steps) && After(s, steps) == t && NothingDropped(steps)
    ensures t.server == ServerIdle && t.evSent == u.evSent && t.evTaken == u.evTaken && t.evseReceived == u.evseReceived
    ensures t.client == u.client && t.toClient == u.toClient
  {
    hide Hex.Encode, Hex.Decodes, Run, After, NothingDropped;
    Hex.EncodedIsNoHandshake(response);
    Hex.EncodedDecodes(response, response, u.scan);
    steps, t := Advance(s, before, u, ArrivesAtServer);
    steps, t := Advance(s, steps, t, ServerTakes(response));
    steps, t := Advance(s, steps, t, ServerDelivers);
    steps, t := Advance(s, steps, t, ServerClears);
  }

  /** A lossy step that can be taken spoils the run. */
  lemma Wiped(s: Relay, before: seq<Step>, u: Relay, request: Bytes) returns (steps: seq<Step>, t: Relay)
    requires Run(s, before) && After(s, before) == u && NothingDropped(before)
    requires u.toClient == [Hex.Encode(request)] && u.client == ClientClearing
    ensures Run(s, steps) && After(s, steps) == t && NothingDropped(steps) && !Lossless(s, steps)
    ensures t.evSent == u.evSent && t.evTaken == u.evTaken && t.evseReceived == u.evseReceived
  {
    hide Hex.Encode, NothingDropped;
    Hex.EncodedIsNoHandshake(request);
    steps, t := Advance(s, before, u, ArrivesAtClient);
    assert Front(steps) == before && Last(steps) == ArrivesAtClient;
    hide Run, After;
  }

  /** No message is lost by the broker, yet a request published while the client is between
      publishing a response and clearing its flag is wiped: the vehicle has sent two requests, the
      charging station never sees the second, and the relay stands still. */
  lemma RequestWiped(topics: Topics, scan: Hex.ScanHex, first: Bytes, response: Bytes, second: Bytes) returns (steps: seq<Step>)
    requires OneRead(first) && OneRead(response) && OneRead(second)
    ensures var s := Start(topics, scan);
            && Initial(s) && Run(s, steps) && !Lossless(s, steps) && NothingDropped(steps)
            && var t := After(s, steps);
               t.evSent == first + second && t.evTaken == |t.evSent| && t.evseReceived == first && At(t, Gone)
  {
    Nothing(topics, scan);
    hide Hex.Encode, Hex.Decodes, Run, After, At, Initial, Lossless, NothingDropped, Enabled, Do, OneRead;
    var s := Start(topics, scan);
    var t;
    Reads([], first);
    steps, t := Request(s, [], s, first);
    steps, t := Response(s, steps, t, first, response);
    steps, t := Back(s, steps, t, response);
    steps, t := Request(s, steps, t, second);
    steps, t := Wiped(s, steps, t, second);
    var place := RunPlace(s, steps);
  }
}
