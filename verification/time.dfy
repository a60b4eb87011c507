/**
 * `Utils/Time.js`: the frame clock.  Times are integer milliseconds as
 * `Date.now()` returns them; each clock reading is a parameter.  Every
 * animation-frame callback runs `tick`, which recomputes the state from the
 * reading and triggers 'tick'; the next frame callback it requests is the
 * next reading of the trace.
 */
module Time {

  /** The default delta a 60 Hz screen would give; the first tick replaces it. */
  const InitialDelta := 16
  const TickEvent := "tick"

  datatype Clock = Clock(start: int, current: int, elapsed: int, delta: int)

  /** `elapsed` is measured from `start` to `current`. */
  predicate Consistent(c: Clock)
  {
    c.elapsed == c.current - c.start
  }

  /** The constructor, given the reading of `Date.now()` it takes. */
  function Init(now: int): (c: Clock)
    ensures Consistent(c) && c.current == c.start == now && c.delta == InitialDelta
  {
    Clock(now, now, 0, InitialDelta)
  }

  /** `tick()` given the reading `now`: the new state and the events it triggers, in order. */
  function Tick(c: Clock, now: int): (r: (Clock, seq<string>))
    ensures Consistent(r.0) && r.0.start == c.start && r.0.current == now
    ensures Consistent(c) ==> r.0.elapsed == c.elapsed + r.0.delta
    ensures r.1 == [TickEvent]
  {
    var delta := now - c.current;
    var current := now;
    (Clock(c.start, current, current - c.start, delta), [TickEvent])
  }

  /** The states after each tick driven by the readings `rs`. */
  function Ticks(c: Clock, rs: seq<int>): (states: seq<Clock>)
    ensures |states| == |rs|
    ensures forall k :: 0 <= k < |rs| ==>
      && Consistent(states[k]) && states[k].start == c.start && states[k].current == rs[k]
      && states[k].delta == rs[k] - (if k == 0 then c.current else rs[k - 1])
    decreases |rs|
  {
    if rs == [] then []
    else
      var c1 := Tick(c, rs[0]).0;
      [c1] + Ticks(c1, rs[1..])
  }

  /** The sum of the deltas the ticks computed. */
  function SumDeltas(states: seq<Clock>): int
    decreases |states|
  {
    if states == [] then 0 else states[0].delta + SumDeltas(states[1..])
  }

  /**
   * Telescoping: after n >= 1 ticks `elapsed` has grown by exactly the sum of
   * the n computed deltas.  From the constructor's state `elapsed` starts at
   * 0, so it equals that sum; the initial delta of 16 is not part of it.
   */
  lemma {:induction false} ElapsedIsSumOfDeltas(c: Clock, rs: seq<int>)
    requires Consistent(c) && |rs| >= 1
    ensures Ticks(c, rs)[|rs| - 1].elapsed == c.elapsed + SumDeltas(Ticks(c, rs))
    decreases |rs|
  {
    var c1 := Tick(c, rs[0]).0;
    assert Ticks(c, rs) == [c1] + Ticks(c1, rs[1..]);
    if |rs| > 1 {
      ElapsedIsSumOfDeltas(c1, rs[1..]);
    }
  }

  lemma {:induction false} ElapsedFromStart(start: int, rs: seq<int>)
    requires |rs| >= 1
    ensures Ticks(Init(start), rs)[|rs| - 1].elapsed == SumDeltas(Ticks(Init(start), rs))
  {
    ElapsedIsSumOfDeltas(Init(start), rs);
  }

  predicate NonDecreasing(rs: seq<int>)
  {
    forall j, k :: 0 <= j <= k < |rs| ==> rs[j] <= rs[k]
  }

  /**
   * With a clock that never goes back, no computed delta is negative and
   * `elapsed` never decreases from one tick to the next.
   */
  lemma {:induction false} MonotoneClock(c: Clock, rs: seq<int>)
    requires Consistent(c) && NonDecreasing(rs) && (|rs| > 0 ==> c.current <= rs[0])
    ensures forall k :: 0 <= k < |rs| ==> Ticks(c, rs)[k].delta >= 0
    ensures forall j, k :: 0 <= j <= k < |rs| ==> c.elapsed <= Ticks(c, rs)[j].elapsed <= Ticks(c, rs)[k].elapsed
  {
    var states := Ticks(c, rs);
    forall k | 0 <= k < |rs|
      ensures states[k].delta >= 0 && c.elapsed <= states[k].elapsed
    {
      if k > 0 {
        assert rs[k - 1] <= rs[k];
      }
      assert rs[0] <= rs[k];
    }
    forall j, k | 0 <= j <= k < |rs|
      ensures states[j].elapsed <= states[k].elapsed
    {
      assert rs[j] <= rs[k];
    }
  }

  /**
   * The first tick measures its delta from `start`, not from the fallback of
   * 16: a first frame that arrives in the same millisecond yields delta 0.
   */
  lemma FirstDeltaCanBeZero(now: int)
    ensures Init(now).delta == InitialDelta
    ensures Tick(Init(now), now).0.delta == 0
  {
  }
}
