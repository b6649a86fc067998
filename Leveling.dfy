/** The levelling ladder of the chat route (src/app/api/chat/route.ts:18-25):
    climbing from level `l` to level `l + 1` costs 100 + (l - 1) * 50 XP, so
    the ladder's rungs sit at 0, 100, 250, 450, 700, ... total XP. */
module Leveling {

  /** XP needed to climb from level `l` to level `l + 1`. */
  function Step(l: int): int {
    100 + (l - 1) * 50
  }

  /** Total XP needed to reach level `n + 1`: the first `n` steps. */
  function Cum(n: nat): nat {
    if n == 0 then 0 else Cum(n - 1) + Step(n)
  }

  /** `level` is the level of a player holding `xp`: below the next rung,
      and at or above its own unless it is the bottom level, which also
      takes any negative total. */
  predicate InBand(xp: int, level: int) {
    level >= 1 && xp < Cum(level) && (level == 1 || Cum(level - 1) <= xp)
  }

  /** `getLevel`: climbs the ladder while the next rung is within reach. */
  method GetLevel(xp: int) returns (level: int)
    ensures InBand(xp, level)
  {
    level := 1;
    var threshold := 0;
    while xp >= threshold + 100 + (level - 1) * 50
      invariant level >= 1 && threshold == Cum(level - 1)
      invariant level == 1 || threshold <= xp
      decreases xp - threshold
    {
      threshold := threshold + 100 + (level - 1) * 50;
      level := level + 1;
    }
  }

  /** The rungs rise strictly. */
  lemma {:induction false} CumIncreasing(m: nat, n: nat)
    requires m < n
    ensures Cum(m) < Cum(n)
    decreases n
  {
    if m < n - 1 {
      CumIncreasing(m, n - 1);
    }
  }

  lemma CumMonotone(m: nat, n: nat)
    requires m <= n
    ensures Cum(m) <= Cum(n)
  {
    if m < n {
      CumIncreasing(m, n);
    }
  }

  /** Each total lies in exactly one band, so `GetLevel` has only one
      possible answer. */
  lemma BandUnique(xp: int, a: int, b: int)
    requires InBand(xp, a) && InBand(xp, b)
    ensures a == b
  {
    if a < b {
      CumMonotone(a, b - 1);
    } else if b < a {
      CumMonotone(b, a - 1);
    }
  }

  /** More XP never means a lower level. */
  lemma BandMonotone(x: int, y: int, a: int, b: int)
    requires x <= y && InBand(x, a) && InBand(y, b)
    ensures a <= b
  {
    if b < a {
      CumMonotone(b, a - 1);
    }
  }

  /** The rungs in closed form: 25 n (n + 3). */
  lemma {:induction false} CumClosedForm(n: nat)
    ensures Cum(n) == 25 * n * (n + 3)
  {
    if n > 0 {
      CumClosedForm(n - 1);
      assert (n - 1) * (n + 2) == n * n + n - 2;
      assert n * (n + 3) == n * n + 3 * n;
      assert Cum(n) == 25 * ((n - 1) * (n + 2)) + 100 + (n - 1) * 50;
    }
  }

  /** The bands around the first rungs; with `BandUnique` these are the
      only levels for those totals. */
  lemma BandExamples()
    ensures forall l :: InBand(0, l) <==> l == 1
    ensures forall l :: InBand(99, l) <==> l == 1
    ensures forall l :: InBand(100, l) <==> l == 2
    ensures forall l :: InBand(249, l) <==> l == 2
    ensures forall l :: InBand(250, l) <==> l == 3
  {
    assert Cum(1) == 100 && Cum(2) == 250 && Cum(3) == 450;
    forall l | InBand(0, l) ensures l == 1 { BandUnique(0, l, 1); }
    forall l | InBand(99, l) ensures l == 1 { BandUnique(99, l, 1); }
    forall l | InBand(100, l) ensures l == 2 { BandUnique(100, l, 2); }
    forall l | InBand(249, l) ensures l == 2 { BandUnique(249, l, 2); }
    forall l | InBand(250, l) ensures l == 3 { BandUnique(250, l, 3); }
  }
}
