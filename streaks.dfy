/**
 * The arithmetic of a habit: the interval a periodicity stands for and the
 * streak rule of `Habit.streak` (models.py), stated on plain integers.
 *
 * Timestamps are integers counting microseconds, the resolution of a Python
 * `datetime`, so that `timedelta` arithmetic and comparison are exact.
 */
module Streaks {
  import opened Wrappers

  /** One day, in timestamp units. */
  const Day: int := 86_400_000_000

  function Max(a: int, b: int): (r: int) {
    if a >= b then a else b
  }

  /** Python truthiness of an optional integer: `None` and `0` are both false. */
  predicate IsTruthy(x: Option<int>) {
    x.Some? && x.value != 0
  }

  /**
   * The number of days `get_period_delta` returns. The custom frequency is
   * looked at only once daily, weekly and monthly are ruled out, and only
   * when it is truthy; everything else (`yearly` included) falls back to 365.
   */
  function PeriodDays(periodicity: string, customFrequency: Option<int>): (r: int) {
    if periodicity == "daily" then 1
    else if periodicity == "weekly" then 7
    else if periodicity == "monthly" then 30
    else if IsTruthy(customFrequency) then customFrequency.value
    else 365
  }

  /** Daily, weekly and monthly have fixed intervals whatever the custom frequency says. */
  lemma PeriodDaysFixed(customFrequency: Option<int>)
    ensures PeriodDays("daily", customFrequency) == 1
    ensures PeriodDays("weekly", customFrequency) == 7
    ensures PeriodDays("monthly", customFrequency) == 30
  {
  }

  /** Any other periodicity, `yearly` included, takes a truthy custom frequency, else 365 days. */
  lemma PeriodDaysOther(periodicity: string, customFrequency: Option<int>)
    requires periodicity != "daily" && periodicity != "weekly" && periodicity != "monthly"
    ensures PeriodDays(periodicity, customFrequency)
         == if IsTruthy(customFrequency) then customFrequency.value else 365
    ensures customFrequency == Some(0) ==> PeriodDays(periodicity, customFrequency) == 365
  {
  }

  /**
   * The entries c[i..j+1] form one chain: walking from the later entry back
   * to the earlier one, every step `c[k] - c[k-1]` is at most `w`.
   */
  predicate Chained(c: seq<int>, i: int, j: int, w: int)
    requires 0 <= i <= j < |c|
  {
    forall k :: i < k <= j ==> c[k] - c[k - 1] <= w
  }

  /** The length of the chain that starts at index k and goes as far up as it can. */
  function RunFrom(c: seq<int>, k: nat, w: int): (r: nat)
    requires k < |c|
    ensures 1 <= r <= |c| - k
    decreases |c| - k
  {
    if k == |c| - 1 || c[k + 1] - c[k] > w then 1 else 1 + RunFrom(c, k + 1, w)
  }

  /** The largest `RunFrom` over the indices k.. of c. */
  function MaxRunFrom(c: seq<int>, k: nat, w: int): (r: nat)
    requires k < |c|
    ensures RunFrom(c, k, w) <= r <= |c| - k
    decreases |c| - k
  {
    if k == |c| - 1 then RunFrom(c, k, w) else Max(RunFrom(c, k, w), MaxRunFrom(c, k + 1, w))
  }

  /**
   * The value `Habit.streak` returns for completions c when a step may be at
   * most w long (period plus grace). `now` plays no part: see
   * `LongestRunIsLongestChain` for what the value means.
   */
  function LongestRun(c: seq<int>, w: int): (r: nat)
    ensures r == 0 <==> c == []
    ensures c != [] ==> 1 <= r <= |c|
  {
    if c == [] then 0 else MaxRunFrom(c, 0, w)
  }

  /** The run from k is a chain, and it stops only where the next step is too long. */
  lemma {:induction false} RunFromIsChained(c: seq<int>, k: nat, w: int)
    requires k < |c|
    ensures Chained(c, k, k + RunFrom(c, k, w) - 1, w)
    ensures k + RunFrom(c, k, w) < |c| ==> c[k + RunFrom(c, k, w)] - c[k + RunFrom(c, k, w) - 1] > w
    decreases |c| - k
  {
    if k < |c| - 1 && c[k + 1] - c[k] <= w {
      RunFromIsChained(c, k + 1, w);
    }
  }

  /** No chain that starts at k is longer than the run from k. */
  lemma {:induction false} ChainBoundedByRun(c: seq<int>, k: nat, j: nat, w: int)
    requires k <= j < |c| && Chained(c, k, j, w)
    ensures j - k + 1 <= RunFrom(c, k, w)
    decreases j - k
  {
    if k < j {
      assert c[k + 1] - c[k] <= w;
      ChainBoundedByRun(c, k + 1, j, w);
    }
  }

  /** `MaxRunFrom` is the largest run from i on, and some run attains it. */
  lemma {:induction false} MaxRunFromIsMax(c: seq<int>, i: nat, w: int)
    requires i < |c|
    ensures forall k :: i <= k < |c| ==> RunFrom(c, k, w) <= MaxRunFrom(c, i, w)
    ensures exists k :: i <= k < |c| && RunFrom(c, k, w) == MaxRunFrom(c, i, w)
    decreases |c| - i
  {
    if i < |c| - 1 {
      MaxRunFromIsMax(c, i + 1, w);
      if RunFrom(c, i, w) >= MaxRunFrom(c, i + 1, w) {
        assert RunFrom(c, i, w) == MaxRunFrom(c, i, w);
      }
    } else {
      assert RunFrom(c, i, w) == MaxRunFrom(c, i, w);
    }
  }

  /**
   * What the streak means: the length of the longest stretch of consecutive
   * completions in which every step is at most w long. Every chain is at most
   * that long, and, when there are completions, some chain is exactly that long.
   */
  lemma LongestRunIsLongestChain(c: seq<int>, w: int)
    ensures forall i, j :: 0 <= i <= j < |c| && Chained(c, i, j, w) ==> j - i + 1 <= LongestRun(c, w)
    ensures c != [] ==>
      exists i, j :: 0 <= i <= j < |c| && Chained(c, i, j, w) && j - i + 1 == LongestRun(c, w)
  {
    if c != [] {
      MaxRunFromIsMax(c, 0, w);
      forall i, j | 0 <= i <= j < |c| && Chained(c, i, j, w)
        ensures j - i + 1 <= LongestRun(c, w)
      {
        ChainBoundedByRun(c, i, j, w);
      }
      var k :| 0 <= k < |c| && RunFrom(c, k, w) == MaxRunFrom(c, 0, w);
      RunFromIsChained(c, k, w);
      assert Chained(c, k, k + RunFrom(c, k, w) - 1, w);
    }
  }

  /** The streak counts every completion exactly when every step is within the window. */
  lemma FullStreakIffChained(c: seq<int>, w: int)
    requires c != []
    ensures LongestRun(c, w) == |c| <==> Chained(c, 0, |c| - 1, w)
  {
    LongestRunIsLongestChain(c, w);
  }

  /**
   * A list kept newest first (as the tests build it) never has a positive
   * step, so with a non-negative window it always scores its full length.
   */
  lemma NewestFirstScoresFull(c: seq<int>, w: int)
    requires w >= 0
    requires forall k :: 0 < k < |c| ==> c[k] <= c[k - 1]
    ensures LongestRun(c, w) == |c|
  {
    if c != [] {
      FullStreakIffChained(c, w);
    }
  }

  /** The n timestamps now, now - step, now - 2 * step, ... */
  function Backdated(now: int, n: nat, step: int): (r: seq<int>) {
    seq(n, k => now - k * step)
  }

  /** Backdated histories, as the predefined habits get, score their full length. */
  lemma BackdatedScoresFull(now: int, n: nat, step: int, w: int)
    requires step >= 0 && w >= 0
    ensures LongestRun(Backdated(now, n, step), w) == n
  {
    var c := Backdated(now, n, step);
    forall k | 0 < k < |c|
      ensures c[k] <= c[k - 1]
    {
      assert k * step == (k - 1) * step + step;
    }
    NewestFirstScoresFull(c, w);
  }

  /** Three daily completions at now, now - 1 day and now - 2 days give a streak of 3. */
  lemma ThreeDailyCompletions(now: int)
    ensures LongestRun([now, now - Day, now - 2 * Day], PeriodDays("daily", None) * Day) == 3
  {
    NewestFirstScoresFull([now, now - Day, now - 2 * Day], Day);
  }

  /** With one day of grace, completions a day and three days ago still chain: streak 2. */
  lemma GraceBridgesTwoDays(now: int)
    ensures LongestRun([now - Day, now - 3 * Day], (PeriodDays("daily", None) + 1) * Day) == 2
  {
    NewestFirstScoresFull([now - Day, now - 3 * Day], 2 * Day);
  }

  /** In append order, completions five days and one day ago are too far apart: streak 1. */
  lemma GapBreaksAppendOrder(now: int)
    ensures LongestRun([now - 5 * Day, now - Day], PeriodDays("daily", None) * Day) == 1
  {
    FullStreakIffChained([now - 5 * Day, now - Day], Day);
  }
}
