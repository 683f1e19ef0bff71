/**
 The repeating millisecond timer, on 64-bit clock values that wrap around.
 */
module MsTimer {

  const CLOCK_SIZE := 0x1_0000_0000_0000_0000

  type Clock = t: int | 0 <= t < CLOCK_SIZE

  /** m_start_time, m_duration_ms and m_is_running. */
  datatype Timer = Timer(start: Clock, duration: Clock, running: bool)

  /** The clock at a point of true time. */
  function Millis(time: nat): Clock {
    time % CLOCK_SIZE
  }

  function Minus(a: Clock, b: Clock): Clock {
    (a - b) % CLOCK_SIZE
  }

  function Plus(a: Clock, b: Clock): Clock {
    (a + b) % CLOCK_SIZE
  }

  /** What is_expired answers at `now`, and the timer after it. */
  function Poll(t: Timer, now: Clock): (bool, Timer) {
    if !t.running || Minus(now, t.start) < t.duration then (false, t)
    else
      var start := Plus(t.start, t.duration);
      (true, t.(start := if Minus(now, start) > t.duration then now else start))
  }

  class MsTimer {
    var startTime: Clock
    var durationMs: Clock
    var isRunning: bool

    constructor ()
      ensures !State().running
    {
      startTime, durationMs, isRunning := 0, 0, false;
    }

    function State(): Timer
      reads this
    {
      Timer(startTime, durationMs, isRunning)
    }

    method Start(duration: Clock, now: Clock)
      modifies this
      ensures State() == Timer(now, duration, true)
    {
      durationMs := duration;
      startTime := now;
      isRunning := true;
    }

    method Stop()
      modifies this
      ensures State() == old(State()).(running := false)
    {
      isRunning := false;
    }

    method IsExpired(now: Clock) returns (expired: bool)
      modifies this
      ensures (expired, State()) == Poll(old(State()), now)
    {
      if !isRunning {
        return false;
      }
      var elapsed := Minus(now, startTime);
      expired := elapsed >= durationMs;
      if !expired {
        return false;
      }
      startTime := Plus(startTime, durationMs);
      elapsed := Minus(now, startTime);
      if elapsed > durationMs {
        startTime := now;
      }
      return true;
    }
  }

  // ---------------------------------------------------------------------------
  // Any number of polls
  // ---------------------------------------------------------------------------

  ghost function Started(begin: nat, duration: Clock): Timer {
    Timer(Millis(begin), duration, true)
  }

  /** The timer after polls at these times. */
  ghost function After(t: Timer, times: seq<nat>): Timer {
    if times == [] then t else Poll(After(t, Front(times)), Millis(Last(times))).1
  }

  /** How many of the polls answered true. */
  ghost function Fired(t: Timer, times: seq<nat>): nat {
    if times == [] then 0
    else Fired(t, Front(times)) + if Poll(After(t, Front(times)), Millis(Last(times))).0 then 1 else 0
  }

  function Front(times: seq<nat>): seq<nat>
    requires times != []
  {
    times[..|times| - 1]
  }

  function Last(times: seq<nat>): nat
    requires times != []
  {
    times[|times| - 1]
  }

  /** The time of the last poll, or of the start. */
  function Latest(begin: nat, times: seq<nat>): nat {
    if times == [] then begin else Last(times)
  }

  /** Time does not go back, and the gaps are at most `gap`. */
  predicate Spaced(begin: nat, times: seq<nat>, gap: nat)
    decreases |times|
  {
    times == [] ||
    (Spaced(begin, Front(times), gap) && Latest(begin, Front(times)) <= Last(times) <= Latest(begin, Front(times)) + gap)
  }

  lemma SameClock(a: nat, b: nat)
    requires a <= b < a + CLOCK_SIZE
    ensures Minus(Millis(b), Millis(a)) == b - a
  {
    var c: int := Millis(b) - Millis(a);
    var q := b / CLOCK_SIZE - a / CLOCK_SIZE;
    assert b - a == CLOCK_SIZE * q + c;
    assert c % CLOCK_SIZE == (b - a) % CLOCK_SIZE;
  }

  lemma LaterClock(a: nat, d: Clock)
    ensures Plus(Millis(a), d) == Millis(a + d)
  {
  }

  /** One poll, in true time: a timer that counts from `base` counts from `next` after it. */
  lemma PollInTime(t: Timer, base: nat, now: nat) returns (next: nat)
    requires t.running && t.start == Millis(base) && base <= now < base + CLOCK_SIZE
    ensures var (fires, u) := Poll(t, Millis(now));
            && u == t.(start := Millis(next)) && (fires <==> now - base >= t.duration)
            && next == if !fires then base else if now - base > 2 * t.duration then now else base + t.duration
  {
    SameClock(base, now);
    LaterClock(base, t.duration);
    if now - base >= t.duration {
      SameClock(base + t.duration, now);
    }
    hide Millis, Minus, Plus;
    next := if now - base < t.duration then base
            else if now - base > 2 * t.duration then now else base + t.duration;
  }

  /** The rate: k true answers mean that at least k durations have gone by, and after every poll at
      most one duration has gone by since the stored start time, in the timer's own arithmetic,
      across wraparound, as long as a gap and a duration together stay under 2^64. */
  lemma RateBound(begin: nat, duration: Clock, times: seq<nat>, gap: nat)
    requires gap + duration < CLOCK_SIZE && Spaced(begin, times, gap)
    ensures var t := Started(begin, duration);
            && Fired(t, times) * duration <= Latest(begin, times) - begin
            && Minus(Millis(Latest(begin, times)), After(t, times).start) <= duration
  {
    var base := Base(begin, duration, times, gap);
    SameClock(base, Latest(begin, times));
  }

  /** No drift: when no gap is longer than the duration, every duration gone by has been answered,
      but for the one that may just have ended. */
  lemma NoDrift(begin: nat, duration: Clock, times: seq<nat>, gap: nat)
    requires gap + duration < CLOCK_SIZE && Spaced(begin, times, gap) && gap <= duration
    ensures var k := Fired(Started(begin, duration), times);
            k * duration <= Latest(begin, times) - begin <= (k + 1) * duration
  {
    var base := Base(begin, duration, times, gap);
  }

  /** The true time a timer counts from. */
  lemma {:induction false} Base(begin: nat, duration: Clock, times: seq<nat>, gap: nat) returns (base: nat)
    requires gap + duration < CLOCK_SIZE && Spaced(begin, times, gap)
    ensures var t := Started(begin, duration);
            && After(t, times) == t.(start := Millis(base))
            && base <= Latest(begin, times) <= base + duration
            && begin + Fired(t, times) * duration <= base
            && (gap <= duration ==> base == begin + Fired(t, times) * duration)
    decreases |times|
  {
    base := begin;
    if times != [] {
      hide Poll, Millis, Started;
      var t := Started(begin, duration);
      base := Base(begin, duration, Front(times), gap);
      StartedIs(begin, duration);
      var k := Fired(t, Front(times));
      var next := PollInTime(After(t, Front(times)), base, Last(times));
      OneMore(k, duration);
      assert Fired(t, times) == if next == base && Last(times) - base < duration then k else k + 1;
      base := next;
    }
  }

  lemma StartedIs(begin: nat, duration: Clock)
    ensures Started(begin, duration).running && Started(begin, duration).duration == duration
    ensures Started(begin, duration).start == Millis(begin)
  {
  }

  lemma OneMore(k: nat, d: nat)
    ensures (k + 1) * d == k * d + d
  {
  }

  /** A stopped timer never answers and does not change, however often it is polled. */
  lemma {:induction false} StoppedStays(t: Timer, times: seq<nat>)
    requires !t.running
    ensures After(t, times) == t && Fired(t, times) == 0
  {
    if times != [] {
      StoppedStays(t, Front(times));
    }
  }
}
