/**
 The charging station's side of SLAC: nested loops driven by the answers of the network and the
 clock, with one retry counter.  Every call into the network, and every reading of the clock,
 takes the next value of a given sequence; a run is what the machine does with it.
 */
module Slac {

  datatype SessionState = Unavailable | Unoccupied | Unmatched | Matched

  /** The calls that ask the environment. */
  datatype Call = ReadClock | SlacParam | StartAttenChar | MnbcSound | AttenChar | SlacMatch | NetInfo

  /** A call and what it returned: the time, or zero for success. */
  datatype Event = Event(call: Call, value: int)

  /** num_retries and slac_timeout_sec. */
  datatype Settings = Settings(retries: int, timeout: int)

  /** Where a run stands, between two calls. */
  datatype Phase =
    | Listening
    | Probing(init: int)
    | ProbeFailed(init: int)
    | Starting
    | Sounding
    | Attenuating
    | Matching
    | Connecting
    | Checking(init: int)
    | CheckFailed(init: int)
    | Returned(code: int, state: SessionState)

  /** The phase and C_sequ_retry, a byte. */
  datatype Machine = Machine(phase: Phase, retry: nat)

  /** The call a phase makes next. */
  function CallOf(phase: Phase): Call
    requires !phase.Returned?
  {
    match phase
    case Listening => ReadClock
    case Probing(_) => SlacParam
    case ProbeFailed(_) => ReadClock
    case Starting => StartAttenChar
    case Sounding => MnbcSound
    case Attenuating => AttenChar
    case Matching => SlacMatch
    case Connecting => ReadClock
    case Checking(_) => NetInfo
    case CheckFailed(_) => ReadClock
  }

  predicate TimedOut(c: Settings, init: int, now: int) {
    now - init >= c.timeout
  }

  function Next(c: Settings, m: Machine, value: int): Machine
    requires !m.phase.Returned?
  {
    match m.phase
    case Listening => m.(phase := Probing(value))
    case Probing(init) => m.(phase := if value == 0 then Starting else ProbeFailed(init))
    case ProbeFailed(init) =>
      if !TimedOut(c, init, value) then m.(phase := Probing(init))
      else if m.retry >= c.retries then Machine(Returned(1, Unavailable), 0)
      else Machine(Listening, (m.retry + 1) % 0x100)
    case Starting => m.(phase := if value == 0 then Sounding else Listening)
    case Sounding => m.(phase := if value == 0 then Attenuating else Listening)
    case Attenuating => m.(phase := if value == 0 then Matching else Listening)
    case Matching => m.(phase := if value == 0 then Connecting else Listening)
    case Connecting => m.(phase := Checking(value))
    case Checking(init) => m.(phase := if value == 0 then Returned(0, Matched) else CheckFailed(init))
    case CheckFailed(init) =>
      m.(phase := if TimedOut(c, init, value) then Returned(1, Unoccupied) else Checking(init))
  }

  /** The machine after some answers, as long as it makes a call for each. */
  ghost predicate Runs(c: Settings, m: Machine, values: seq<int>)
    decreases |values|, 0
  {
    values == [] || (Runs(c, m, Front(values)) && !After(c, m, Front(values)).phase.Returned?)
  }

  ghost function After(c: Settings, m: Machine, values: seq<int>): Machine
    requires Runs(c, m, values)
    decreases |values|, 1
  {
    if values == [] then m else Next(c, After(c, m, Front(values)), Last(values))
  }

  /** The calls made on the way. */
  ghost function Trace(c: Settings, m: Machine, values: seq<int>): (t: seq<Event>)
    requires Runs(c, m, values)
    ensures |t| == |values|
    decreases |values|
  {
    if values == [] then []
    else Trace(c, m, Front(values)) + [Event(CallOf(After(c, m, Front(values)).phase), Last(values))]
  }

  function Front(values: seq<int>): seq<int>
    requires values != []
  {
    values[..|values| - 1]
  }

  function Last(values: seq<int>): int
    requires values != []
  {
    values[|values| - 1]
  }

  // ---------------------------------------------------------------------------
  // The program
  // ---------------------------------------------------------------------------

  /** Where the run is when a method of one session state has left the session in `state`. */
  function PhaseOf(state: SessionState): Phase {
    match state
    case Unoccupied => Listening
    case Unmatched => Starting
    case Matched => Connecting
    case Unavailable => Returned(1, Unavailable)
  }

  class Evse {
    const c: Settings
    var state: SessionState
    var retry: nat
    /** What the environment has still to answer. */
    var answers: seq<int>
    /** All its answers in this run, how many have been used, and the machine at the beginning. */
    ghost var tape: seq<int>
    ghost var n: nat
    ghost var first: Machine

    constructor (c: Settings, answers: seq<int>)
      ensures this.c == c && this.answers == answers && state == Unoccupied && retry == 0
    {
      this.c, this.answers := c, answers;
      state, retry, tape, n, first := Unoccupied, 0, answers, 0, Machine(Listening, 0);
    }

    /** The answers so far lead to this phase and to this value of the counter. */
    ghost predicate At(phase: Phase)
      reads this`retry, this`answers, this`tape, this`n, this`first
    {
      && n <= |tape| && answers == tape[n..]
      && Runs(c, first, tape[..n])
      && After(c, first, tape[..n]) == Machine(phase, retry)
    }

    /** One call of the environment.  When it answers no more, the run is cut short here. */
    method Ask(ghost phase: Phase) returns (more: bool, value: int, ghost next: Phase)
      requires At(phase) && !phase.Returned?
      modifies this`answers, this`n
      ensures !more ==> At(phase) && answers == [] && n == old(n)
      ensures more ==> |answers| < |old(answers)|
      ensures more ==> next == Next(c, Machine(phase, retry), value).phase
      ensures more && Next(c, Machine(phase, retry), value).retry == retry ==> At(next)
      ensures more ==> WillBe(Next(c, Machine(phase, retry), value))
    {
      hide Runs, After, Next;
      next := phase;
      if answers == [] {
        return false, 0, next;
      }
      more, value := true, answers[0];
      answers := answers[1..];
      RunsOn(c, first, tape[..n], value);
      assert tape[..n + 1] == tape[..n] + [value];
      n := n + 1;
      next := Next(c, Machine(phase, retry), value).phase;
    }

    /** The answers so far lead to m, to whose counter the program has yet to catch up. */
    ghost predicate WillBe(m: Machine)
      reads this`retry, this`answers, this`tape, this`n, this`first
    {
      && n <= |tape| && answers == tape[n..]
      && Runs(c, first, tape[..n])
      && After(c, first, tape[..n]) == m
    }

    method UnoccupiedState() returns (finished: bool, ghost phase: Phase)
      requires At(Listening) && state == Unoccupied
      modifies this`state, this`retry, this`answers, this`n
      ensures At(phase) && state != Matched
      ensures if finished then phase == PhaseOf(state) && |answers| < |old(answers)| else !phase.Returned? && answers == []
    {
      hide Runs, After;
      var more, initTime;
      more, initTime, phase := Ask(Listening);
      if !more {
        return false, Listening;
      }
      while true
        invariant At(Probing(initTime)) && state == Unoccupied && retry == old(retry) && |answers| < |old(answers)|
        decreases |answers|
      {
        var result;
        more, result, phase := Ask(Probing(initTime));
        if !more {
          return false, Probing(initTime);
        }
        if result == 0 {
          break;
        }
        var currentTime;
        more, currentTime, phase := Ask(ProbeFailed(initTime));
        if !more {
          return false, ProbeFailed(initTime);
        }
        var deltaTime := currentTime - initTime;
        if deltaTime >= c.timeout {
          if retry >= c.retries {
            state := Unavailable;
            retry := 0;
          } else {
            state := Unoccupied;
            retry := (retry + 1) % 0x100;
          }
          return true, phase;
        }
      }
      state := Unmatched;
      return true, Starting;
    }

    method UnmatchedState() returns (finished: bool, ghost phase: Phase)
      requires At(Starting) && state == Unmatched
      modifies this`state, this`answers, this`n
      ensures At(phase) && state != Unavailable
      ensures if finished then phase == PhaseOf(state) && |answers| < |old(answers)| else !phase.Returned? && answers == []
    {
      hide At, WillBe;
      var more, result;
      more, result, phase := Ask(Starting);
      if !more {
        return false, Starting;
      }
      if result != 0 {
        state := Unoccupied;
        return true, Listening;
      }
      more, result, phase := Ask(Sounding);
      if !more {
        return false, Sounding;
      }
      if result != 0 {
        state := Unoccupied;
        return true, Listening;
      }
      more, result, phase := Ask(Attenuating);
      if !more {
        return false, Attenuating;
      }
      if result != 0 {
        state := Unoccupied;
        return true, Listening;
      }
      more, result, phase := Ask(Matching);
      if !more {
        return false, Matching;
      }
      if result != 0 {
        state := Unoccupied;
        return true, Listening;
      }
      state := Matched;
      return true, Connecting;
    }

    method MatchedState() returns (finished: bool, ghost phase: Phase)
      requires At(Connecting) && state == Matched
      modifies this`state, this`answers, this`n
      ensures At(phase)
      ensures if finished then phase == Returned(if state == Matched then 0 else 1, state) else !phase.Returned? && answers == []
    {
      hide At, WillBe;
      var more, initTime;
      more, initTime, phase := Ask(Connecting);
      if !more {
        return false, Connecting;
      }
      while true
        invariant At(Checking(initTime)) && state == Matched && retry == old(retry)
        decreases |answers|
      {
        var result;
        more, result, phase := Ask(Checking(initTime));
        if !more {
          return false, Checking(initTime);
        }
        if result == 0 {
          break;
        }
        var currentTime;
        more, currentTime, phase := Ask(CheckFailed(initTime));
        if !more {
          return false, CheckFailed(initTime);
        }
        var deltaTime := currentTime - initTime;
        if deltaTime >= c.timeout {
          state := Unoccupied;
          return true, Returned(1, Unoccupied);
        }
      }
      return true, Returned(0, Matched);
    }

    /** EVSESlac, from whatever state the session was left in: the code returned and the new state
        are those of the run that the answers drive, or the answers do not suffice for it to
        return.  From the unavailable state it fails at once, without asking anything. */
    method EVSESlac() returns (finished: bool, code: int, ghost phase: Phase)
      modifies this
      ensures tape == old(answers) && first == old(Machine(PhaseOf(state), retry)) && At(phase)
      ensures old(state) == Unavailable ==> finished && code == 1 && n == 0
      ensures if finished then phase == Returned(code, state) else !phase.Returned? && answers == []
    {
      first, tape, n := Machine(PhaseOf(state), retry), answers, 0;
      Beginning(c, first);
      assert tape[..0] == [];
      hide At;
      while state != Unavailable
        invariant At(PhaseOf(state)) && tape == old(answers) && first == old(Machine(PhaseOf(state), retry))
        invariant old(state) == Unavailable ==> state == Unavailable && n == 0
        decreases |answers|
      {
        if state == Unoccupied {
          finished, phase := UnoccupiedState();
          if !finished {
            return false, 1, phase;
          }
          continue;
        }
        if state == Unmatched {
          finished, phase := UnmatchedState();
          if !finished {
            return false, 1, phase;
          }
          continue;
        }
        if state == Matched {
          finished, phase := MatchedState();
          if !finished {
            return false, 1, phase;
          }
          break;
        }
      }
      finished := true;
      if state == Matched {
        code := 0;
      } else {
        code := 1;
      }
      phase := Returned(code, state);
    }
  }

  lemma Beginning(c: Settings, m: Machine)
    ensures Runs(c, m, []) && After(c, m, []) == m
  {
  }

  lemma RunsOn(c: Settings, m: Machine, values: seq<int>, value: int)
    requires Runs(c, m, values) && !After(c, m, values).phase.Returned?
    ensures Runs(c, m, values + [value])
    ensures After(c, m, values + [value]) == Next(c, After(c, m, values), value)
  {
    assert Front(values + [value]) == values && Last(values + [value]) == value;
    hide Next;
  }

  // ---------------------------------------------------------------------------
  // What success means
  // ---------------------------------------------------------------------------

  const MATCHING := [
    Event(SlacParam, 0), Event(StartAttenChar, 0), Event(MnbcSound, 0), Event(AttenChar, 0), Event(SlacMatch, 0)
  ]

  /** From `cut` on, the trace is the first k calls of a matching, all successful. */
  predicate Successes(t: seq<Event>, cut: nat, k: nat) {
    k <= 5 && cut + k <= |t| && t[cut..cut + k] == MATCHING[..k]
  }

  /** Checks of the network that failed, each within the time limit. */
  predicate FailedChecks(c: Settings, t: seq<Event>, init: int) {
    && |t| % 2 == 0
    && forall i :: 0 <= i < |t| ==>
         if i % 2 == 0 then t[i].call == NetInfo && t[i].value != 0
         else t[i].call == ReadClock && t[i].value - init < c.timeout
  }

  /** What the end of a trace looks like in each phase. */
  predicate Seen(c: Settings, t: seq<Event>, cut: nat, init: int, phase: Phase) {
    match phase
    case Starting => Successes(t, cut, 1) && |t| == cut + 1
    case Sounding => Successes(t, cut, 2) && |t| == cut + 2
    case Attenuating => Successes(t, cut, 3) && |t| == cut + 3
    case Matching => Successes(t, cut, 4) && |t| == cut + 4
    case Connecting => Successes(t, cut, 5) && |t| == cut + 5
    case Checking(i) => i == init && Connected(c, t, cut, init, |t|)
    case CheckFailed(i) =>
      && i == init && |t| > 0 && Connected(c, t, cut, init, |t| - 1)
      && t[|t| - 1].call == NetInfo && t[|t| - 1].value != 0
    case Returned(code, state) =>
      && (code == 0 <==> state == Matched)
      && (code == 0 ==> |t| > 0 && Connected(c, t, cut, init, |t| - 1) && t[|t| - 1] == Event(NetInfo, 0))
      && (code != 0 ==> code == 1 && (state == Unavailable || state == Unoccupied))
    case _ => true
  }

  /** Up to `end`, the trace closes with a whole matching, the time it was done, and failed checks. */
  predicate Connected(c: Settings, t: seq<Event>, cut: nat, init: int, end: nat) {
    && Successes(t, cut, 5) && cut + 6 <= end <= |t| && t[cut + 5] == Event(ReadClock, init)
    && FailedChecks(c, t[cut + 6..end], init)
  }

  lemma {:induction false} TraceEnds(c: Settings, m: Machine, values: seq<int>) returns (cut: nat, init: int)
    requires m.phase == Listening && Runs(c, m, values)
    ensures Seen(c, Trace(c, m, values), cut, init, After(c, m, values).phase)
    decreases |values|
  {
    cut, init := 0, 0;
    if values != [] {
      cut, init := TraceEnds(c, m, Front(values));
      var t, phase := Trace(c, m, Front(values)), After(c, m, Front(values)).phase;
      cut, init := SeenNext(c, t, cut, init, After(c, m, Front(values)), Last(values));
      hide Next, Seen;
    }
  }

  lemma SeenNext(c: Settings, t: seq<Event>, cut: nat, init: int, m: Machine, value: int) returns (cut': nat, init': int)
    requires !m.phase.Returned? && Seen(c, t, cut, init, m.phase)
    ensures Seen(c, t + [Event(CallOf(m.phase), value)], cut', init', Next(c, m, value).phase)
  {
    hide Successes, FailedChecks;
    cut', init' := cut, init;
    var e := Event(CallOf(m.phase), value);
    match m.phase {
      case Probing(_) =>
        cut' := |t|;
        FirstSuccess(t, value);
      case Starting => NextSuccess(t, cut, 1, e);
      case Sounding => NextSuccess(t, cut, 2, e);
      case Attenuating => NextSuccess(t, cut, 3, e);
      case Matching => NextSuccess(t, cut, 4, e);
      case Connecting =>
        init' := value;
        NextSuccess(t, cut, 5, e);
        assert (t + [e])[cut + 6..|t| + 1] == [];
        NoChecks(c, value);
      case Checking(_) =>
        SuccessesKept(t, cut, e);
        assert (t + [e])[cut + 6..|t|] == t[cut + 6..|t|];
      case CheckFailed(_) =>
        SuccessesKept(t, cut, e);
        if !TimedOut(c, init, value) {
          OneMoreCheck(c, t, cut + 6, init, value);
        }
      case _ =>
    }
  }

  lemma FirstSuccess(t: seq<Event>, value: int)
    ensures value == 0 ==> Successes(t + [Event(SlacParam, value)], |t|, 1)
  {
  }

  lemma NextSuccess(t: seq<Event>, cut: nat, k: nat, e: Event)
    requires Successes(t, cut, k) && |t| == cut + k
    ensures k < 5 && e == MATCHING[k] ==> Successes(t + [e], cut, k + 1)
    ensures Successes(t + [e], cut, k)
  {
    assert (t + [e])[cut..cut + k] == t[cut..cut + k];
    if k < 5 && e == MATCHING[k] {
      assert (t + [e])[cut..cut + k + 1] == t[cut..cut + k] + [e];
      assert MATCHING[..k + 1] == MATCHING[..k] + [e];
    }
  }

  lemma SuccessesKept(t: seq<Event>, cut: nat, e: Event)
    requires Successes(t, cut, 5)
    ensures Successes(t + [e], cut, 5)
  {
    assert (t + [e])[cut..cut + 5] == t[cut..cut + 5];
  }

  lemma NoChecks(c: Settings, init: int)
    ensures FailedChecks(c, [], init)
  {
  }

  lemma OneMoreCheck(c: Settings, t: seq<Event>, from: nat, init: int, now: int)
    requires from < |t| && FailedChecks(c, t[from..|t| - 1], init)
    requires t[|t| - 1].call == NetInfo && t[|t| - 1].value != 0 && now - init < c.timeout
    ensures FailedChecks(c, (t + [Event(ReadClock, now)])[from..|t| + 1], init)
  {
    var old' := t[from..|t| - 1];
    var new' := (t + [Event(ReadClock, now)])[from..|t| + 1];
    assert new' == old' + [t[|t| - 1], Event(ReadClock, now)];
  }

  /** A run that returns 0 has made the five calls of a matching back to back, all successful, then
      read the clock, and then checked the network, every check but the last failing within the
      time limit and the last succeeding; and then the session is matched. */
  lemma Success(c: Settings, m: Machine, values: seq<int>, state: SessionState) returns (cut: nat, init: int)
    requires m.phase == Listening && Runs(c, m, values) && After(c, m, values).phase == Returned(0, state)
    ensures state == Matched
    ensures var t := Trace(c, m, values);
            && cut + 6 < |t| && t[cut..cut + 6] == MATCHING + [Event(ReadClock, init)]
            && FailedChecks(c, t[cut + 6..|t| - 1], init) && t[|t| - 1] == Event(NetInfo, 0)
  {
    cut, init := TraceEnds(c, m, values);
    var t := Trace(c, m, values);
    hide Runs, After, Trace, FailedChecks, MATCHING;
    assert t[cut..cut + 6] == t[cut..cut + 5] + [t[cut + 5]];
    FiveOfFive();
  }

  lemma FiveOfFive()
    ensures MATCHING[..5] == MATCHING
  {
  }

  // ---------------------------------------------------------------------------
  // How often a probe can time out
  // ---------------------------------------------------------------------------

  /** The probes of the listening state given up because their time was over. */
  ghost function Timeouts(c: Settings, m: Machine, values: seq<int>): nat
    requires Runs(c, m, values)
    decreases |values|
  {
    if values == [] then 0
    else
      var before := After(c, m, Front(values));
      Timeouts(c, m, Front(values))
      + if before.phase.ProbeFailed? && Last(values) - before.phase.init >= c.timeout then 1 else 0
  }

  /** As long as the run has not returned, the counter has counted every timeout: nothing that
      fails in a later state resets it. */
  lemma {:induction false} TimeoutsCounted(c: Settings, m: Machine, values: seq<int>)
    requires m.phase == Listening && c.retries <= 0xFF && Runs(c, m, values)
    ensures var a := After(c, m, values);
            var n := Timeouts(c, m, values);
            var most := if m.retry < c.retries then c.retries - m.retry else 0;
            && (a.phase != Returned(1, Unavailable) ==> n <= most && (a.retry == m.retry + n))
            && (a.phase == Returned(1, Unavailable) ==> n == most + 1)
    decreases |values|
  {
    if values != [] {
      TimeoutsCounted(c, m, Front(values));
      TimeoutNext(c, After(c, m, Front(values)), Last(values));
      hide Next;
    }
  }

  lemma TimeoutNext(c: Settings, m: Machine, value: int)
    requires !m.phase.Returned?
    ensures var a := Next(c, m, value);
            if m.phase.ProbeFailed? && value - m.phase.init >= c.timeout then
              if m.retry >= c.retries then a.phase == Returned(1, Unavailable)
              else a == Machine(Listening, (m.retry + 1) % 0x100)
            else a.retry == m.retry && a.phase != Returned(1, Unavailable)
  {
  }

  /** `k` probes that time out at once. */
  function HopelessAnswers(c: Settings, k: nat): seq<int> {
    if k == 0 then [] else HopelessAnswers(c, k - 1) + [0] + [1] + [c.timeout]
  }

  /** With a limit the byte counter cannot reach, the listening state never gives up. */
  lemma {:induction false} NeverUnavailable(c: Settings, k: nat)
    requires c.retries > 0xFF
    ensures var m, values := Machine(Listening, 0), HopelessAnswers(c, k);
            Runs(c, m, values) && After(c, m, values) == Machine(Listening, k % 0x100) && Timeouts(c, m, values) == k
  {
    hide Runs, After, Timeouts;
    var m := Machine(Listening, 0);
    if k == 0 {
      Beginning(c, m);
      NoTimeouts(c, m);
    } else {
      NeverUnavailable(c, k - 1);
      HopelessRound(c, m, HopelessAnswers(c, k - 1), (k - 1) % 0x100);
    }
  }

  lemma NoTimeouts(c: Settings, m: Machine)
    requires Runs(c, m, [])
    ensures Timeouts(c, m, []) == 0
  {
  }

  lemma HopelessRound(c: Settings, m: Machine, v: seq<int>, retry: nat)
    requires Runs(c, m, v) && After(c, m, v) == Machine(Listening, retry) && retry < c.retries
    ensures var w := v + [0] + [1] + [c.timeout];
            && Runs(c, m, w) && After(c, m, w) == Machine(Listening, (retry + 1) % 0x100)
            && Timeouts(c, m, w) == Timeouts(c, m, v) + 1
  {
    hide Runs, After, Timeouts;
    NextTimeout(c, m, v, 0);
    NextTimeout(c, m, v + [0], 1);
    NextTimeout(c, m, v + [0] + [1], c.timeout);
  }

  lemma NextTimeout(c: Settings, m: Machine, values: seq<int>, value: int)
    requires Runs(c, m, values) && !After(c, m, values).phase.Returned?
    ensures Runs(c, m, values + [value])
    ensures var a := After(c, m, values);
            && After(c, m, values + [value]) == Next(c, a, value)
            && Timeouts(c, m, values + [value]) == Timeouts(c, m, values)
               + if a.phase.ProbeFailed? && value - a.phase.init >= c.timeout then 1 else 0
  {
    RunsOn(c, m, values, value);
    assert Front(values + [value]) == values && Last(values + [value]) == value;
    hide Next;
  }

  /** A run from a fresh counter has at most one timeout more than the limit, if and only if the
      limit fits the byte counter. */
  lemma TimeoutsBounded(c: Settings)
    requires c.retries >= 0
    ensures c.retries <= 0xFF <==>
            forall values: seq<int> :: Runs(c, Machine(Listening, 0), values) ==>
              Timeouts(c, Machine(Listening, 0), values) <= c.retries + 1
  {
    hide Runs, After, Timeouts;
    if c.retries <= 0xFF {
      forall values: seq<int> | Runs(c, Machine(Listening, 0), values)
        ensures Timeouts(c, Machine(Listening, 0), values) <= c.retries + 1
      {
        TimeoutsCounted(c, Machine(Listening, 0), values);
      }
    } else {
      NeverUnavailable(c, c.retries + 2);
    }
  }

  // ---------------------------------------------------------------------------
  // What failure leads to
  // ---------------------------------------------------------------------------

  /** The answers from the listening state through a probe and `j` of the four calls after it, and
      then a failure. */
  function FailedMatching(now: int, j: nat, error: int): seq<int> {
    if j == 0 then [now, 0, error] else if j == 1 then [now, 0, 0, error]
    else if j == 2 then [now, 0, 0, 0, error] else [now, 0, 0, 0, 0, error]
  }

  /** The machine after further answers. */
  lemma {:induction false} RunOn(c: Settings, m: Machine, v: seq<int>, w: seq<int>)
    requires Runs(c, m, v) && Runs(c, After(c, m, v), w)
    ensures Runs(c, m, v + w) && After(c, m, v + w) == After(c, After(c, m, v), w)
    decreases |w|
  {
    hide Next;
    if w == [] {
      assert v + w == v;
    } else {
      RunOn(c, m, v, Front(w));
      assert Front(v + w) == v + Front(w) && Last(v + w) == Last(w);
    }
  }

  lemma OneAnswer(c: Settings, m: Machine, value: int)
    requires !m.phase.Returned?
    ensures Runs(c, m, [value]) && After(c, m, [value]) == Next(c, m, value)
  {
    Beginning(c, m);
    RunsOn(c, m, [], value);
    assert [] + [value] == [value];
    hide Runs, After, Next;
  }

  lemma MoreAnswers(c: Settings, m: Machine, value: int, w: seq<int>)
    requires !m.phase.Returned? && Runs(c, Next(c, m, value), w)
    ensures Runs(c, m, [value] + w) && After(c, m, [value] + w) == After(c, Next(c, m, value), w)
  {
    hide Runs, After, Next;
    OneAnswer(c, m, value);
    RunOn(c, m, [value], w);
  }

  /** A failure of any of the four calls of the matching goes back to listening, the counter as it
      was. */
  lemma MatchingFails(c: Settings, retry: nat, now: int, j: nat, error: int)
    requires j < 4 && error != 0
    ensures var m := Machine(Listening, retry);
            Runs(c, m, FailedMatching(now, j, error)) && After(c, m, FailedMatching(now, j, error)) == m
  {
    hide Runs, After;
    Beginning(c, Machine(Listening, retry));
    var phases := [Starting, Sounding, Attenuating, Matching];
    FailsAt(c, retry, phases[j], error);
    if j == 3 {
      MoreAnswers(c, Machine(Attenuating, retry), 0, [error]);
    }
    if j >= 2 {
      MoreAnswers(c, Machine(Sounding, retry), 0, if j == 2 then [error] else [0] + [error]);
    }
    var rest := if j == 0 then [error] else if j == 1 then [0] + [error] else if j == 2 then [0] + ([0] + [error])
                else [0] + ([0] + ([0] + [error]));
    if j >= 1 {
      MoreAnswers(c, Machine(Starting, retry), 0, rest[1..]);
      assert rest == [0] + rest[1..];
    }
    MoreAnswers(c, Machine(Probing(now), retry), 0, rest);
    MoreAnswers(c, Machine(Listening, retry), now, [0] + rest);
    assert FailedMatching(now, j, error) == [now] + ([0] + rest);
  }

  lemma FailsAt(c: Settings, retry: nat, phase: Phase, error: int)
    requires phase in [Starting, Sounding, Attenuating, Matching] && error != 0
    ensures Runs(c, Machine(phase, retry), [error]) && After(c, Machine(phase, retry), [error]) == Machine(Listening, retry)
  {
    OneAnswer(c, Machine(phase, retry), error);
    hide Runs, After;
  }

  /** However often: nothing bounds the failed matchings, and nothing of them is remembered. */
  lemma {:induction false} MatchingsFail(c: Settings, retry: nat, failures: seq<(int, nat, int)>)
    requires forall i :: 0 <= i < |failures| ==> failures[i].1 < 4 && failures[i].2 != 0
    ensures var m := Machine(Listening, retry);
            Runs(c, m, AllFailed(failures)) && After(c, m, AllFailed(failures)) == m
  {
    hide Runs, After, FailedMatching;
    var m := Machine(Listening, retry);
    if failures == [] {
      Beginning(c, m);
    } else {
      var (now, j, error) := failures[0];
      MatchingFails(c, retry, now, j, error);
      MatchingsFail(c, retry, failures[1..]);
      RunOn(c, m, FailedMatching(now, j, error), AllFailed(failures[1..]));
    }
  }

  function AllFailed(failures: seq<(int, nat, int)>): seq<int> {
    if failures == [] then []
    else FailedMatching(failures[0].0, failures[0].1, failures[0].2) + AllFailed(failures[1..])
  }

  /** In the matched state: a successful check of the network ends the run with success; a failed
      one ends it with failure, and unoccupied, if and only if the time since the matching has
      reached the limit; otherwise the network is checked again. */
  lemma NetworkCheck(c: Settings, retry: nat, init: int, error: int, now: int)
    requires error != 0
    ensures var m := Machine(Connecting, retry);
            && Runs(c, m, [init, 0]) && After(c, m, [init, 0]) == Machine(Returned(0, Matched), retry)
            && Runs(c, m, [init, error, now])
            && After(c, m, [init, error, now]) ==
               Machine(if now - init >= c.timeout then Returned(1, Unoccupied) else Checking(init), retry)
  {
    hide Runs, After;
    OneAnswer(c, Machine(Checking(init), retry), 0);
    OneAnswer(c, Machine(CheckFailed(init), retry), now);
    MoreAnswers(c, Machine(Checking(init), retry), error, [now]);
    MoreAnswers(c, Machine(Connecting, retry), init, [0]);
    MoreAnswers(c, Machine(Connecting, retry), init, [error] + [now]);
    assert [init] + [0] == [init, 0] && [init] + ([error] + [now]) == [init, error, now];
  }

  /** A probe that fails is made again until the time since the listening began reaches the limit. */
  lemma ProbeFails(c: Settings, retry: nat, init: int, error: int, now: int)
    requires error != 0
    ensures var m := Machine(Listening, retry);
            && Runs(c, m, [init, error, now])
            && After(c, m, [init, error, now]) ==
               if now - init < c.timeout then Machine(Probing(init), retry)
               else if retry >= c.retries then Machine(Returned(1, Unavailable), 0)
               else Machine(Listening, (retry + 1) % 0x100)
  {
    hide Runs, After;
    OneAnswer(c, Machine(ProbeFailed(init), retry), now);
    MoreAnswers(c, Machine(Probing(init), retry), error, [now]);
    MoreAnswers(c, Machine(Listening, retry), init, [error] + [now]);
    assert [init] + ([error] + [now]) == [init, error, now];
  }
}
