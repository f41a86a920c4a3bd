/** Streaks over a set of day indices on which a dose was taken: how many
    consecutive days, ending at a given day and walking back one day at a
    time, are in the set. */
module Streaks {

  /** The taken days up to and including `day`: the part of the set a
      backward walk from `day` can still visit. */
  function Below(taken: set<int>, day: int): (b: set<int>)
    ensures b <= taken && |b| <= |taken|
  {
    var b := set d | d in taken && d <= day;
    assert taken == b + (taken - b);
    b
  }

  /** Stepping back from a taken day leaves one day fewer to visit. */
  lemma BelowStep(taken: set<int>, day: int)
    requires day in taken
    ensures Below(taken, day - 1) == Below(taken, day) - {day}
    ensures |Below(taken, day - 1)| == |Below(taken, day)| - 1
  {
    assert Below(taken, day - 1) == Below(taken, day) - {day};
  }

  /** The length of the run of consecutive taken days ending at `day`:
      every day of the run is taken, the day just before it is not, and
      the run is no longer than the number of distinct taken days. */
  function RunLength(taken: set<int>, day: int): (n: nat)
    ensures forall d :: day - n < d <= day ==> d in taken
    ensures day - n !in taken
    ensures n == 0 <==> day !in taken
    ensures n <= |Below(taken, day)| <= |taken|
    decreases |Below(taken, day)|
  {
    if day in taken then
      BelowStep(taken, day);
      1 + RunLength(taken, day - 1)
    else
      0
  }

  /** The run is the only length with those two properties. */
  lemma RunLengthUnique(taken: set<int>, day: int, k: nat)
    requires forall d :: day - k < d <= day ==> d in taken
    requires day - k !in taken
    ensures k == RunLength(taken, day)
  {
  }

  /** A larger set of taken days never shortens the run. */
  lemma RunLengthMonotone(s: set<int>, t: set<int>, day: int)
    requires s <= t
    ensures RunLength(s, day) <= RunLength(t, day)
  {
  }

  /** The same backward walk, stopped after `cap` days. */
  function CappedRun(taken: set<int>, day: int, cap: nat): (n: nat)
    ensures n <= cap
    ensures n == 0 <==> cap == 0 || day !in taken
    decreases cap
  {
    if cap > 0 && day in taken then 1 + CappedRun(taken, day - 1, cap - 1) else 0
  }

  function Min(a: nat, b: nat): nat {
    if a <= b then a else b
  }

  /** Stopping the walk after `cap` days gives the run length cut at `cap`. */
  lemma {:induction false} CappedRunIsCutRun(taken: set<int>, day: int, cap: nat)
    ensures CappedRun(taken, day, cap) == Min(RunLength(taken, day), cap)
    decreases cap
  {
    if cap > 0 && day in taken {
      CappedRunIsCutRun(taken, day - 1, cap - 1);
    }
  }

  /** Taking a dose on a day makes the run ending that day at least one
      day longer than the run that ended the day before. */
  lemma RunLengthExtend(taken: set<int>, day: int)
    ensures RunLength(taken + {day}, day) == 1 + RunLength(taken + {day}, day - 1)
    ensures RunLength(taken + {day}, day) >= 1 + RunLength(taken, day - 1)
  {
    RunLengthMonotone(taken, taken + {day}, day - 1);
  }
}
