/**
 A token bucket as arithmetic: a level that refills with time up to a full bucket and
 pays for what is taken. Whatever the order of payments and refunds, the level is the
 least that any stretch of the past leaves of a full bucket.
 */
module TokenBucket {

  /** At a time, so much is taken, or given back if negative. */
  datatype Tick = Tick(at: int, cost: int)

  function Least(a: int, b: int): int {
    if a <= b then a else b
  }

  function LevelOf(full: int, ticks: seq<Tick>, at: int): int {
    if ticks == [] then full
    else
      var last := ticks[|ticks| - 1];
      Least(full, LevelOf(full, ticks[..|ticks| - 1], last.at) - last.cost + (at - last.at))
  }

  /** What was taken from tick number i on. */
  function Spent(ticks: seq<Tick>, i: nat): int
    requires i <= |ticks|
    decreases |ticks|
  {
    if i == |ticks| then 0 else Spent(ticks[..|ticks| - 1], i) + ticks[|ticks| - 1].cost
  }

  /** What the stretch from tick number i on leaves of a full bucket. */
  function Left(full: int, ticks: seq<Tick>, i: nat, at: int): int
    requires i < |ticks|
  {
    full + (at - ticks[i].at) - Spent(ticks, i)
  }

  lemma LeftSnoc(full: int, ticks: seq<Tick>, i: nat, at: int)
    requires i < |ticks|
    ensures var front, last := ticks[..|ticks| - 1], ticks[|ticks| - 1];
      Left(full, ticks, i, at) ==
      (if i < |front| then Left(full, front, i, last.at) else full) - last.cost + (at - last.at)
  {
    var front := ticks[..|ticks| - 1];
    assert Spent(ticks, i) == Spent(front, i) + ticks[|ticks| - 1].cost;
    assert i < |front| ==> front[i] == ticks[i];
    assert Spent(front, |front|) == 0;
  }

  lemma {:induction false} LevelWithin(full: int, ticks: seq<Tick>, at: int, i: nat)
    requires i < |ticks|
    ensures LevelOf(full, ticks, at) <= Left(full, ticks, i, at)
  {
    LeftSnoc(full, ticks, i, at);
    if i < |ticks| - 1 {
      LevelWithin(full, ticks[..|ticks| - 1], ticks[|ticks| - 1].at, i);
    }
  }

  lemma {:induction false} LevelReached(full: int, ticks: seq<Tick>, at: int) returns (i: nat)
    ensures LevelOf(full, ticks, at) == full || (i < |ticks| && LevelOf(full, ticks, at) == Left(full, ticks, i, at))
  {
    i := 0;
    if ticks != [] {
      var front, last := ticks[..|ticks| - 1], ticks[|ticks| - 1];
      var before := LevelOf(full, front, last.at);
      i := LevelReached(full, front, last.at);
      if before == full {
        i := |front|;
      }
      LeftSnoc(full, ticks, i, at);
    }
  }
}
