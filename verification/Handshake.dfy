/**
 The handshake of the two relay devices: a loop on each side, cut where a message callback can
 come between, and any number of messages lost.
 */
module Handshake {
  import opened Mqtt

  datatype Role = Evse | Ev

  /** Where a loop is: at its top, about to publish, after its reply, before the final tests, or
      finished. */
  datatype Loop = Top | Publishing | Replied | Checking | Succeeded | Failed

  /** One side: its role, its variables, how many messages it has published and heard, and the
      value of num_retries when it heard the first. */
  datatype Side = Side(role: Role, loop: Loop, handshake: Handshake, retries: nat, published: nat, heard: nat, heardAt: nat)

  function Start(role: Role): Side {
    Side(role, Top, NoHandshake, 0, 0, 0, 0)
  }

  predicate Finished(s: Side) {
    s.loop.Succeeded? || s.loop.Failed?
  }

  /** The callback for a handshake message of the other side. */
  function Hear(s: Side): Side {
    s.(handshake := if s.role.Evse? then BothHandshake else FirstHandshake,
       heard := s.heard + 1, heardAt := if s.heard == 0 then s.retries else s.heardAt)
  }

  /** That is what the message callback does, on the topic the side is subscribed to. */
  lemma HearIsCallback(s: Side, shared: Shared, topics: Topics)
    requires topics.evMessage != topics.evseMessage && shared.handshake == s.handshake
    ensures Handled(shared, topics, if s.role.Evse? then topics.evMessage else topics.evseMessage, "1").handshake
            == Hear(s).handshake
  {
  }

  /** The loop from one such point to the next. */
  function Act(s: Side): Side
    requires !Finished(s)
  {
    match s.loop
    case Top =>
      var publishes := if s.role.Evse? then s.handshake.NoHandshake? else s.handshake.FirstHandshake?;
      s.(loop := if publishes then Publishing else Checking)
    case Publishing => s.(loop := if s.role.Ev? then Replied else Checking, published := s.published + 1)
    case Replied => s.(loop := Checking, handshake := if s.retries >= 3 then BothHandshake else s.handshake)
    case Checking =>
      if s.handshake.BothHandshake? then s.(loop := Succeeded)
      else if s.retries > 10 then s.(loop := Failed)
      else s.(loop := Top, retries := s.retries + 1)
    case _ => s
  }

  // ---------------------------------------------------------------------------
  // The loop as the program runs it
  // ---------------------------------------------------------------------------

  /** `n` messages in a row. */
  function HearAll(s: Side, n: nat): Side {
    if n == 0 then s else Hear(HearAll(s, n - 1))
  }

  /** What is left of a loop, in turns. */
  function TurnsLeft(s: Side): nat {
    if Finished(s) then 0
    else 4 * (if s.retries <= 11 then 11 - s.retries else 0)
         + (match s.loop case Top => 4 case Publishing => 3 case Replied => 2 case _ => 1)
  }

  /** The whole loop, when `arrivals[k]` messages are heard before its k-th turn. */
  ghost function Play(s: Side, arrivals: seq<nat>): (r: Side)
    requires s.retries <= 11
    ensures Finished(r)
    decreases TurnsLeft(s)
  {
    if Finished(s) then s
    else
      HearAllKeeps(s, Next(arrivals));
      Play(Act(HearAll(s, Next(arrivals))), Rest(arrivals))
  }

  function Next(arrivals: seq<nat>): nat {
    if arrivals == [] then 0 else arrivals[0]
  }

  function Rest(arrivals: seq<nat>): seq<nat> {
    if arrivals == [] then [] else arrivals[1..]
  }

  lemma {:induction false} HearAllKeeps(s: Side, n: nat)
    ensures var t := HearAll(s, n); t.loop == s.loop && t.retries == s.retries && t.published == s.published && t.role == s.role
  {
    if n > 0 {
      HearAllKeeps(s, n - 1);
    }
  }

  /** rth_handshake, publishing to the other side. */
  class Device {
    const role: Role
    var handshake: Handshake
    var published: nat
    ghost var heard: nat
    ghost var heardAt: nat

    constructor (role: Role)
      ensures this.role == role && Now(Top, 0) == Start(role)
    {
      this.role := role;
      handshake, published, heard, heardAt := NoHandshake, 0, 0, 0;
    }

    ghost function Now(loop: Loop, retries: nat): Side
      reads this
    {
      Side(role, loop, handshake, retries, published, heard, heardAt)
    }

    /** The callbacks that come before a turn. */
    method Listen(arrivals: seq<nat>, ghost loop: Loop, ghost retries: nat) returns (rest: seq<nat>)
      modifies this`handshake, this`heard, this`heardAt
      ensures rest == Rest(arrivals) && Now(loop, retries) == HearAll(old(Now(loop, retries)), Next(arrivals))
    {
      var n := Next(arrivals);
      ghost var before := Now(loop, retries);
      var i := 0;
      while i < n
        invariant 0 <= i <= n && Now(loop, retries) == HearAll(before, i)
      {
        handshake := if role == Evse then BothHandshake else FirstHandshake;
        heardAt := if heard == 0 then retries else heardAt;
        heard := heard + 1;
        i := i + 1;
      }
      rest := Rest(arrivals);
    }

    method RthHandshake(arrivals: seq<nat>) returns (result: int)
      modifies this
      ensures var last := Play(old(Now(Top, 0)), arrivals);
              && (result == 0 <==> last.loop == Succeeded) && (result == -1 <==> last.loop == Failed)
              && published == last.published && handshake == last.handshake
    {
      hide Play, HearAll, Next, Rest;
      ghost var last := Play(Now(Top, 0), arrivals);
      var rest := arrivals;
      var numRetries := 0;
      while true
        invariant 0 <= numRetries <= 11 && Play(Now(Top, numRetries), rest) == last
        decreases 11 - numRetries
      {
        PlayTurn(Now(Top, numRetries), rest);
        rest := Listen(rest, Top, numRetries);
        ghost var next := Act(Now(Top, numRetries));
        if handshake == NoHandshake && role == Evse {
          assert next == Now(Publishing, numRetries);
          PlayTurn(next, rest);
          rest := Listen(rest, Publishing, numRetries);
          next := Act(Now(Publishing, numRetries));
          published := published + 1;
        }
        if handshake == FirstHandshake && role == Ev {
          assert next == Now(Publishing, numRetries);
          PlayTurn(next, rest);
          rest := Listen(rest, Publishing, numRetries);
          next := Act(Now(Publishing, numRetries));
          published := published + 1;
          assert next == Now(Replied, numRetries);
          PlayTurn(next, rest);
          rest := Listen(rest, Replied, numRetries);
          next := Act(Now(Replied, numRetries));
          if numRetries >= 3 {
            handshake := BothHandshake;
          }
        }
        assert next == Now(Checking, numRetries);
        PlayTurn(next, rest);
        rest := Listen(rest, Checking, numRetries);
        next := Act(Now(Checking, numRetries));
        if handshake == BothHandshake {
          PlayEnds(next, rest);
          return 0;
        }
        if numRetries > 10 {
          PlayEnds(next, rest);
          return -1;
        } else {
          numRetries := numRetries + 1;
        }
      }
    }
  }

  lemma PlayTurn(s: Side, arrivals: seq<nat>)
    requires s.retries <= 11 && !Finished(s)
    ensures var t := HearAll(s, Next(arrivals));
            t.loop == s.loop && t.retries == s.retries && t.role == s.role && t.published == s.published
            && Act(t).retries <= 11 && Play(s, arrivals) == Play(Act(t), Rest(arrivals))
  {
    HearAllKeeps(s, Next(arrivals));
  }

  lemma PlayEnds(s: Side, arrivals: seq<nat>)
    requires s.retries <= 11 && Finished(s)
    ensures Play(s, arrivals) == s
  {
  }

  // ---------------------------------------------------------------------------
  // Both sides
  // ---------------------------------------------------------------------------

  /** The two loops and the messages published and not yet heard or lost. */
  datatype Pair = Pair(evse: Side, ev: Side, toEv: nat, toEvse: nat)

  datatype Step = EvseActs | EvActs | EvHears | EvseHears | LostToEv | LostToEvse

  const START := Pair(Start(Evse), Start(Ev), 0, 0)

  predicate Enabled(p: Pair, step: Step) {
    match step
    case EvseActs => !Finished(p.evse)
    case EvActs => !Finished(p.ev)
    case EvHears => p.toEv > 0
    case LostToEv => p.toEv > 0
    case EvseHears => p.toEvse > 0
    case LostToEvse => p.toEvse > 0
  }

  function Do(p: Pair, step: Step): Pair
    requires Enabled(p, step)
  {
    match step
    case EvseActs => var s := Act(p.evse); p.(evse := s, toEv := p.toEv + (s.published - p.evse.published))
    case EvActs => var s := Act(p.ev); p.(ev := s, toEvse := p.toEvse + (s.published - p.ev.published))
    case EvHears => p.(ev := Hear(p.ev), toEv := p.toEv - 1)
    case EvseHears => p.(evse := Hear(p.evse), toEvse := p.toEvse - 1)
    case LostToEv => p.(toEv := p.toEv - 1)
    case LostToEvse => p.(toEvse := p.toEvse - 1)
  }

  ghost predicate Run(steps: seq<Step>)
    decreases |steps|, 0
  {
    steps == [] || (Run(Front(steps)) && Enabled(After(Front(steps)), Last(steps)))
  }

  ghost function After(steps: seq<Step>): Pair
    requires Run(steps)
    decreases |steps|, 1
  {
    if steps == [] then START else Do(After(Front(steps)), Last(steps))
  }

  function Front(steps: seq<Step>): seq<Step>
    requires steps != []
  {
    steps[..|steps| - 1]
  }

  function Last(steps: seq<Step>): Step
    requires steps != []
  {
    steps[|steps| - 1]
  }

  /** The turns a side has taken. */
  function Turns(steps: seq<Step>, step: Step): nat {
    if steps == [] then 0 else Turns(Front(steps), step) + if Last(steps) == step then 1 else 0
  }

  /** How far the vehicle side's publishing is behind its rounds. */
  predicate EvPublishes(s: Side) {
    && (s.heard > 0 ==> s.heardAt <= s.retries)
    && (s.handshake.NoHandshake? <==> s.heard == 0)
    && (s.loop.Publishing? || s.loop.Replied? ==> s.heard > 0)
    && (s.heard == 0 ==> s.published == 0)
    && match s.loop
       case Top => s.heard > 0 ==> s.handshake.FirstHandshake? && s.published + s.heardAt + 1 >= s.retries
       case Publishing => s.handshake.FirstHandshake? && s.published + s.heardAt + 1 >= s.retries
       case Replied => s.handshake.FirstHandshake? && s.published > 0 && s.published + s.heardAt >= s.retries
       case Failed => true
       case _ =>
         && (s.heard > 0 ==> s.published + s.heardAt >= s.retries)
         && (s.handshake.BothHandshake? ==> s.published > 0 && s.retries >= 3)
         && (s.loop.Succeeded? ==> s.published > 0 && s.retries >= 3)
  }

  ghost predicate Invariant(p: Pair) {
    && p.evse.role.Evse? && p.ev.role.Ev?
    && p.evse.retries <= 11 && p.ev.retries <= 11
    && p.ev.heard + p.toEv <= p.evse.published
    && p.evse.heard + p.toEvse <= p.ev.published
    && (p.evse.handshake.BothHandshake? <==> p.evse.heard > 0) && !p.evse.handshake.FirstHandshake?
    && (p.evse.loop.Succeeded? ==> p.evse.heard > 0)
    && !p.evse.loop.Replied?
    && EvPublishes(p.ev)
  }

  lemma StepKeeps(p: Pair, step: Step)
    requires Invariant(p) && Enabled(p, step)
    ensures Invariant(Do(p, step))
    ensures TurnsLeft(Do(p, step).evse) + (if step.EvseActs? then 1 else 0) <= TurnsLeft(p.evse)
    ensures TurnsLeft(Do(p, step).ev) + (if step.EvActs? then 1 else 0) <= TurnsLeft(p.ev)
  {
  }

  lemma {:induction false} RunKeeps(steps: seq<Step>)
    requires Run(steps)
    ensures Invariant(After(steps))
    ensures Turns(steps, EvseActs) + TurnsLeft(After(steps).evse) <= 48
    ensures Turns(steps, EvActs) + TurnsLeft(After(steps).ev) <= 48
    decreases |steps|
  {
    if steps != [] {
      hide Invariant, Do, Enabled, TurnsLeft;
      RunKeeps(Front(steps));
      StepKeeps(After(Front(steps)), Last(steps));
    }
  }

  /** The station's side succeeds only if the vehicle's side had heard a message of the station's
      side and published its own. */
  lemma EvseSuccess(steps: seq<Step>)
    requires Run(steps) && After(steps).evse.loop.Succeeded?
    ensures var p := After(steps);
            && p.evse.published > 0 && p.ev.heard > 0 && p.ev.published > 0 && p.evse.heard > 0
  {
    hide Run, After;
    RunKeeps(steps);
  }

  /** The vehicle's side succeeds only after hearing a message and publishing one, in its fourth
      round or later; if it heard the first in round k it has published at least 3 - k. */
  lemma EvSuccess(steps: seq<Step>)
    requires Run(steps) && After(steps).ev.loop.Succeeded?
    ensures var p := After(steps);
            && p.evse.published > 0 && p.ev.heard > 0 && p.ev.published > 0
            && p.ev.retries >= 3 && p.ev.published + p.ev.heardAt >= 3
  {
    hide Run, After;
    RunKeeps(steps);
  }

  /** Each loop takes at most twelve rounds of at most four turns. */
  lemma LoopsEnd(steps: seq<Step>)
    requires Run(steps)
    ensures Turns(steps, EvseActs) <= 48 && Turns(steps, EvActs) <= 48
    ensures After(steps).evse.retries <= 11 && After(steps).ev.retries <= 11
  {
    hide Run, After;
    RunKeeps(steps);
  }

  // ---------------------------------------------------------------------------
  // How often the vehicle's side publishes
  // ---------------------------------------------------------------------------

  lemma QuietTurn(s: Side, arrivals: seq<nat>)
    requires s.retries <= 11 && !Finished(s) && Next(arrivals) == 0
    ensures Play(s, arrivals) == Play(Act(s), Rest(arrivals)) && Act(s).retries <= 11
  {
    PlayTurn(s, arrivals);
    assert HearAll(s, 0) == s;
    hide Play;
  }

  /** From a round in which the first message is already heard, and no other follows. */
  lemma {:induction false} Replies(s: Side)
    requires s.role.Ev? && s.loop.Top? && s.handshake.FirstHandshake? && s.retries <= 11
    ensures var r := Play(s, []);
            && r.loop.Succeeded? && r.heardAt == s.heardAt
            && r.published == s.published + if s.retries < 3 then 4 - s.retries else 1
    decreases 11 - s.retries
  {
    hide Play;
    QuietTurn(s, []);
    var s1 := Act(s);
    QuietTurn(s1, []);
    var s2 := Act(s1);
    QuietTurn(s2, []);
    var s3 := Act(s2);
    QuietTurn(s3, []);
    if s.retries < 3 {
      Replies(Act(s3));
    } else {
      PlayEnds(Act(s3), []);
    }
  }

  /** No message for j turns, and then one. */
  function OneBefore(j: nat): seq<nat> {
    if j == 0 then [1] else [0] + OneBefore(j - 1)
  }

  /** A message that comes j turns after the top of a quiet round is answered from the first top
      that follows it. */
  function Answered(retries: nat, j: nat): nat {
    retries + (j + 1) / 2
  }

  function Copies(round: nat): nat {
    if round < 3 then 4 - round else 1
  }

  lemma {:induction false} Waits(s: Side, j: nat)
    requires s.role.Ev? && s.loop.Top? && s.handshake.NoHandshake? && s.published == 0 && s.heard == 0 && s.retries <= 11
    ensures var r := Play(s, OneBefore(j));
            if Answered(s.retries, j) <= 11
            then r.loop.Succeeded? && r.published == Copies(Answered(s.retries, j)) && r.heardAt == s.retries + j / 2
            else r.loop.Failed? && r.published == 0
    decreases j
  {
    hide Play;
    var a := OneBefore(j);
    if j == 0 {
      HeardNow(s, a);
      Replies(Hear(s));
      QuietTurn(Hear(s), []);
    } else {
      QuietTurn(s, a);
      var t := Act(s);
      assert Rest(a) == OneBefore(j - 1);
      if j == 1 {
        HeardNow(t, Rest(a));
        var u := Act(Hear(t));
        if t.retries <= 10 {
          Replies(u);
        } else {
          PlayEnds(u, []);
        }
      } else {
        QuietTurn(t, Rest(a));
        assert Rest(Rest(a)) == OneBefore(j - 2);
        if t.retries <= 10 {
          Waits(Act(t), j - 2);
        } else {
          PlayEnds(Act(t), OneBefore(j - 2));
        }
      }
    }
  }

  lemma HeardNow(s: Side, arrivals: seq<nat>)
    requires s.retries <= 11 && !Finished(s) && arrivals == [1]
    ensures Play(s, arrivals) == Play(Act(Hear(s)), []) && Act(Hear(s)).retries <= 11
  {
    PlayTurn(s, arrivals);
    assert HearAll(s, 0) == s && HearAll(s, 1) == Hear(s);
    assert Rest([1]) == [];
    hide Play;
  }

  /** A vehicle side that hears a single message succeeds if and only if it comes before one of its
      first twenty-three turns.  It then publishes four messages, three, two or one, the later the
      fewer: three, as the program's comment says, only when the message comes in the second half of
      the first round or at the top of the second. */
  lemma TimesPublished(j: nat)
    ensures var r := Play(Start(Ev), OneBefore(j));
            && (r.loop.Succeeded? <==> j <= 22)
            && (j <= 22 ==> r.published == if j <= 4 then 4 - (j + 1) / 2 else 1)
            && (j > 22 ==> r.published == 0)
            && (r.published == 3 <==> j == 1 || j == 2)
  {
    Waits(Start(Ev), j);
    hide Play, OneBefore;
  }

  lemma SideKeeps(s: Side)
    requires s.role.Ev? && EvPublishes(s)
    ensures EvPublishes(Hear(s)) && Hear(s).role.Ev?
    ensures !Finished(s) ==> EvPublishes(Act(s)) && Act(s).role.Ev?
  {
  }

  lemma {:induction false} HearAllPublishes(s: Side, n: nat)
    requires s.role.Ev? && EvPublishes(s)
    ensures EvPublishes(HearAll(s, n)) && HearAll(s, n).role.Ev?
  {
    if n > 0 {
      HearAllPublishes(s, n - 1);
      SideKeeps(HearAll(s, n - 1));
      hide EvPublishes, Hear;
    }
  }

  lemma {:induction false} PlayPublishes(s: Side, arrivals: seq<nat>)
    requires s.role.Ev? && EvPublishes(s) && s.retries <= 11
    ensures EvPublishes(Play(s, arrivals))
    decreases TurnsLeft(s)
  {
    hide EvPublishes, Act, Finished;
    if Finished(s) {
      PlayEnds(s, arrivals);
    } else {
      var t := HearAll(s, Next(arrivals));
      HearAllPublishes(s, Next(arrivals));
      PlayTurn(s, arrivals);
      SameFinish(s, t);
      SideKeeps(t);
      TurnShortens(s, t);
      PlayPublishes(Act(t), Rest(arrivals));
    }
  }

  lemma SameFinish(s: Side, t: Side)
    requires s.loop == t.loop
    ensures Finished(s) <==> Finished(t)
  {
  }

  lemma TurnShortens(s: Side, t: Side)
    requires !Finished(s) && s.retries <= 11 && t.loop == s.loop && t.retries == s.retries
    ensures TurnsLeft(Act(t)) < TurnsLeft(s)
  {
  }

  /** How many messages are sure: a vehicle side that first hears one in round k, whatever it hears
      later, publishes at least three before it succeeds, in every run, if and only if k is 0. */
  lemma ThreeAreSure(k: nat)
    requires k <= 11
    ensures k == 0 <==>
            forall arrivals: seq<nat> ::
              var r := Play(Start(Ev), arrivals); r.loop.Succeeded? && r.heardAt == k ==> r.published >= 3
  {
    if k == 0 {
      forall arrivals: seq<nat> ensures var r := Play(Start(Ev), arrivals); r.loop.Succeeded? && r.heardAt == k ==> r.published >= 3 {
        PlayPublishes(Start(Ev), arrivals);
        hide Play;
      }
    } else {
      var j := if k < 11 then 2 * k + 1 else 22;
      Waits(Start(Ev), j);
      hide Play, OneBefore;
    }
  }

  // ---------------------------------------------------------------------------
  // How often the station's side publishes
  // ---------------------------------------------------------------------------

  /** Once the message is heard, the station's side ends its round and succeeds. */
  lemma {:induction false} StationEnds(s: Side)
    requires s.role.Evse? && s.handshake.BothHandshake? && s.retries <= 11
    requires s.loop.Top? || s.loop.Publishing? || s.loop.Checking?
    ensures var r := Play(s, []);
            r.loop.Succeeded? && r.published == s.published + if s.loop.Publishing? then 1 else 0
    decreases TurnsLeft(s)
  {
    hide Play;
    QuietTurn(s, []);
    if s.loop.Checking? {
      PlayEnds(Act(s), []);
    } else {
      StationEnds(Act(s));
    }
  }

  lemma {:induction false} StationWaits(s: Side, j: nat)
    requires s.role.Evse? && s.loop.Top? && s.handshake.NoHandshake? && s.retries <= 11
    ensures var r := Play(s, OneBefore(j));
            if s.retries + j / 3 <= 11 then r.loop.Succeeded? && r.published == s.published + (j + 2) / 3
            else r.loop.Failed? && r.published == s.published + 12 - s.retries
    decreases j
  {
    hide Play;
    var a := OneBefore(j);
    if j == 0 {
      HeardNow(s, a);
      StationEnds(Hear(s));
      QuietTurn(Hear(s), []);
    } else {
      QuietTurn(s, a);
      var t := Act(s);
      assert Rest(a) == OneBefore(j - 1);
      if j == 1 {
        HeardNow(t, Rest(a));
        StationEnds(Hear(t));
        QuietTurn(Hear(t), []);
      } else {
        QuietTurn(t, Rest(a));
        var u := Act(t);
        assert Rest(Rest(a)) == OneBefore(j - 2);
        if j == 2 {
          HeardNow(u, OneBefore(0));
          StationEnds(Hear(u));
          QuietTurn(Hear(u), []);
        } else {
          QuietTurn(u, OneBefore(j - 2));
          assert Rest(OneBefore(j - 2)) == OneBefore(j - 3);
          if s.retries <= 10 {
            StationWaits(Act(u), j - 3);
          } else {
            PlayEnds(Act(u), OneBefore(j - 3));
          }
        }
      }
    }
  }

  /** The station's side publishes once a round until it hears the message, which it does in time if
      and only if the message comes before one of its first thirty-six turns; otherwise it gives up
      after twelve. */
  lemma StationPublishes(j: nat)
    ensures var r := Play(Start(Evse), OneBefore(j));
            && (r.loop.Succeeded? <==> j <= 35)
            && (r.loop.Failed? <==> j > 35)
            && r.published == if j <= 35 then (j + 2) / 3 else 12
  {
    StationWaits(Start(Evse), j);
    hide Play, OneBefore;
  }
}
