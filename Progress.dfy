/** `getLevelProgress` (src/lib/n8n.ts:17-26): how far, in percent, a
    player has climbed from the rung of `level` towards the next one. The
    JavaScript computes in floating point; here the division is exact, and
    the one case where it has no finite value shows as `None`. */
module Progress {
  import opened Wrappers
  import opened Leveling

  /** The rung the loop stops at: `Cum(level - 1)`, or 0 when the loop
      does not run at all. */
  function Below(level: int): nat {
    if level <= 1 then 0 else Cum(level - 1)
  }

  /** The clamped percentage. A step of 0 (level -1) divides by zero:
      a positive numerator gives +Infinity, which the clamp turns into
      100; zero or a negative numerator gives NaN or -Infinity. */
  function ProgressOf(totalXP: int, level: int): (r: Option<real>)
    ensures r.Some? ==> r.value <= 100.0
    ensures r.None? <==> Step(level) == 0 && totalXP <= Below(level)
  {
    var x := totalXP - Below(level);
    var step := Step(level);
    if step == 0 then
      if x > 0 then Some(100.0) else None
    else
      var q := (x as real) / (step as real) * 100.0;
      Some(if q < 100.0 then q else 100.0)
  }

  /** `getLevelProgress`: sums the steps below `level`, then divides. */
  method GetLevelProgress(totalXP: int, level: int) returns (r: Option<real>)
    ensures r == ProgressOf(totalXP, level)
  {
    var threshold := 0;
    var i := 1;
    while i < level
      invariant i == 1 || i <= level
      invariant threshold == Cum(i - 1)
      decreases level - i
    {
      threshold := threshold + 100 + (i - 1) * 50;
      i := i + 1;
    }
    assert threshold == Below(level);
    var x := totalXP - threshold;
    var step := 100 + (level - 1) * 50;
    if step == 0 {
      r := if x > 0 then Some(100.0) else None;
    } else {
      var q := (x as real) / (step as real) * 100.0;
      r := Some(if q < 100.0 then q else 100.0);
    }
  }

  /** Where the clamp does not fire, the result is the exact share of the
      step already climbed; where it fires, that share had reached 100%. */
  lemma ProgressRatio(totalXP: int, level: int)
    requires Step(level) != 0
    ensures var r := ProgressOf(totalXP, level);
      var x, step := (totalXP - Below(level)) as real, Step(level) as real;
      && r.Some?
      && (r.value < 100.0 ==> r.value * step == 100.0 * x)
      && (r.value == 100.0 ==> x / step >= 1.0)
  {
    var x, step := (totalXP - Below(level)) as real, Step(level) as real;
    var q := x / step * 100.0;
    assert q * step == 100.0 * x;
  }

  /** For the level `getLevel` gives a non-negative total, the bar is
      partly filled and never full: the clamp never fires. */
  lemma ProgressInBand(totalXP: int, level: int)
    requires totalXP >= 0 && InBand(totalXP, level)
    ensures var r := ProgressOf(totalXP, level);
      r.Some? && 0.0 <= r.value < 100.0
  {
    var x, step := totalXP - Below(level), Step(level);
    assert 0 <= x < step;
    ShareBelowOne(x as real, step as real);
  }

  lemma ShareBelowOne(x: real, step: real)
    requires 0.0 <= x < step
    ensures 0.0 <= x / step * 100.0 < 100.0
  {
    var q := x / step;
    assert q * step == x;
  }

  /** On level 1 the progress is the total itself, capped at 100. */
  lemma ProgressLevelOne(totalXP: int)
    ensures ProgressOf(totalXP, 1) == Some(if totalXP < 100 then totalXP as real else 100.0)
  {
  }

  /** There is no lower clamp: a stored level above the one the total
      earns gives a negative percentage. */
  lemma ProgressAboveBand(totalXP: int, earned: int, level: int)
    requires totalXP >= 0 && InBand(totalXP, earned) && level > earned
    ensures var r := ProgressOf(totalXP, level);
      r.Some? && r.value < 0.0
  {
    CumMonotone(earned, level - 1);
    var x, step := totalXP - Below(level), Step(level);
    assert x < 0 && step > 0;
    ShareNegative(x as real, step as real);
  }

  lemma ShareNegative(x: real, step: real)
    requires x < 0.0 < step
    ensures x / step * 100.0 < 0.0
  {
    var q := x / step;
    assert q * step == x;
  }
}
