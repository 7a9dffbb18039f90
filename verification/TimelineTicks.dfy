/** The time ticks below the commit timeline. */
module TimelineTicks {

  const INTERVALS: seq<real> :=
    [60000.0, 300000.0, 900000.0, 3600000.0, 10800000.0, 21600000.0, 43200000.0, 86400000.0, 604800000.0,
     2592000000.0, 31536000000.0]

  predicate AllPositive(steps: seq<real>) {
    forall i :: 0 <= i < |steps| ==> steps[i] > 0.0
  }

  /** How many intervals the axis has room for. */
  function Target(width: real): (target: int)
    ensures 2 <= target <= 10
  {
    var n := (width / 120.0).Floor;
    if n < 2 then 2 else if n > 10 then 10 else n
  }

  /** The first interval that cuts the span into at most `target` pieces, or else an even cut. */
  function Step(span: real, target: int, intervals: seq<real>): (step: real)
    requires span > 0.0 && target > 0 && AllPositive(intervals)
    ensures step > 0.0 && span / step <= target as real
  {
    if intervals == [] then EvenCut(span, target); span / target as real
    else if span / intervals[0] <= target as real then intervals[0]
    else Step(span, target, intervals[1..])
  }

  lemma EvenCut(span: real, target: int)
    requires span > 0.0 && target > 0
    ensures span / target as real > 0.0
    ensures span / (span / target as real) <= target as real
  {
    var step := span / target as real;
    assert step * target as real == span;
    assert span / step == target as real;
  }

  function Ceil(x: real): int {
    -((-x).Floor)
  }

  function Multiple(k: int, step: real): real {
    k as real * step
  }

  lemma MultipleBelow(k: int, step: real, bound: real)
    requires step > 0.0
    ensures Multiple(k, step) <= bound <==> k <= (bound / step).Floor
    ensures Multiple(k, step) >= bound <==> k >= Ceil(bound / step)
  {
    assert bound / step * step == bound;
    if k as real <= bound / step {
      assert k as real * step <= bound / step * step;
    } else {
      assert k as real * step > bound / step * step;
    }
    if k as real >= bound / step {
      assert k as real * step >= bound / step * step;
    } else {
      assert k as real * step < bound / step * step;
    }
  }

  function TickCount(min: real, max: real, step: real): nat
    requires step > 0.0
  {
    var n := (max / step).Floor - Ceil(min / step) + 1;
    if n < 0 then 0 else n
  }

  function TickAt(min: real, span: real, k: int, step: real): (real, real)
    requires span > 0.0
  {
    ((Multiple(k, step) - min) / span, Multiple(k, step))
  }

  /** Every multiple of the step that lies on the axis, in order. */
  function Multiples(min: real, max: real, step: real): (ticks: seq<(real, real)>)
    requires min < max && step > 0.0
    ensures |ticks| == TickCount(min, max, step)
  {
    var lo := Ceil(min / step);
    seq(TickCount(min, max, step), i requires 0 <= i < TickCount(min, max, step) =>
      TickAt(min, max - min, lo + i, step))
  }

  function Ticks(min: real, max: real, width: real): seq<(real, real)>
    requires min <= max
  {
    if max == min then [(0.5, min)]
    else
      var ticks := Multiples(min, max, Step(max - min, Target(width), INTERVALS));
      if ticks == [] then [(0.0, min), (1.0, max)] else ticks
  }

  lemma TickCountIsBounded(min: real, max: real, step: real, target: int)
    requires min < max && step > 0.0 && (max - min) / step <= target as real
    ensures TickCount(min, max, step) <= target + 1
  {
    var lo, hi := Ceil(min / step), (max / step).Floor;
    assert lo as real >= min / step && hi as real <= max / step;
    assert max / step - min / step == (max - min) / step;
  }

  lemma UnitInterval(min: real, max: real, time: real)
    requires min < max && min <= time <= max
    ensures 0.0 <= (time - min) / (max - min) <= 1.0
  {
    var span := max - min;
    assert (time - min) / span * span == time - min;
  }

  lemma TickOnAxis(min: real, max: real, step: real, k: int)
    requires min < max && step > 0.0 && Ceil(min / step) <= k <= (max / step).Floor
    ensures var tick := TickAt(min, max - min, k, step);
            0.0 <= tick.0 <= 1.0 && min <= tick.1 <= max
  {
    MultipleBelow(k, step, min);
    MultipleBelow(k, step, max);
    UnitInterval(min, max, Multiple(k, step));
  }

  /** There are between one and eleven ticks, and all of them lie on the axis. */
  lemma TicksFitTheAxis(min: real, max: real, width: real)
    requires min <= max
    ensures var ticks := Ticks(min, max, width);
            && 1 <= |ticks| <= 11
            && forall i :: 0 <= i < |ticks| ==> 0.0 <= ticks[i].0 <= 1.0 && min <= ticks[i].1 <= max
  {
    if min < max {
      var step := Step(max - min, Target(width), INTERVALS);
      TickCountIsBounded(min, max, step, Target(width));
      var ticks := Multiples(min, max, step);
      var lo := Ceil(min / step);
      forall i | 0 <= i < |ticks| ensures 0.0 <= ticks[i].0 <= 1.0 && min <= ticks[i].1 <= max {
        assert ticks[i] == TickAt(min, max - min, lo + i, step);
        TickOnAxis(min, max, step, lo + i);
      }
    }
  }

  method DrawTicks(min: real, max: real, width: real) returns (ticks: seq<(real, real)>)
    requires min <= max
    ensures ticks == Ticks(min, max, width)
  {
    var span := max - min;
    if span == 0.0 {
      return [(0.5, min)];
    }
    var step := Step(span, Target(width), INTERVALS);
    ticks := DrawMultiples(min, max, step);
    if ticks == [] {
      ticks := [(0.0, min), (1.0, max)];
    }
  }

  method DrawMultiples(min: real, max: real, step: real) returns (ticks: seq<(real, real)>)
    requires min < max && step > 0.0
    ensures ticks == Multiples(min, max, step)
  {
    var span := max - min;
    var tick := Ceil(min / step) as real * step;
    ghost var lo, hi := Ceil(min / step), (max / step).Floor;
    ghost var k := lo;
    ghost var all := Multiples(min, max, step);
    MultipleBelow(k, step, max);
    ticks := [];
    while tick <= max
      invariant tick == Multiple(k, step)
      invariant k == lo + |ticks|
      invariant tick <= max <==> k <= hi
      invariant |ticks| <= |all| && ticks == all[..|ticks|]
      decreases hi - k
    {
      assert all[|ticks|] == TickAt(min, span, k, step);
      ticks := ticks + [((tick - min) / span, tick)];
      NextMultiple(k, step);
      k := k + 1;
      tick := tick + step;
      MultipleBelow(k, step, max);
    }
    assert |ticks| == |all|;
  }

  lemma NextMultiple(k: int, step: real)
    ensures Multiple(k, step) + step == Multiple(k + 1, step)
  {
  }
}
