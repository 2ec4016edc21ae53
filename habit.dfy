/** The `Habit` record of models.py: one trackable task and its completion log. */
module Habits {
  import opened Wrappers
  import opened Streaks

  class Habit {
    var name: string
    var periodicity: string
    /** `None` when no custom frequency was given; a number of days otherwise. */
    var customFrequency: Option<int>
    /** Extra days of slack when judging whether a streak continues. */
    var gracePeriod: int
    var creationDate: int
    /** Completion timestamps, in the order they were appended. */
    var completions: seq<int>

    /** A new habit, created at `now`, with an empty completion log. */
    constructor (name: string, periodicity: string, customFrequency: Option<int>, gracePeriod: int, now: int)
      ensures this.name == name && this.periodicity == periodicity
      ensures this.customFrequency == customFrequency && this.gracePeriod == gracePeriod
      ensures creationDate == now && completions == []
    {
      this.name := name;
      this.periodicity := periodicity;
      this.customFrequency := customFrequency;
      this.gracePeriod := gracePeriod;
      creationDate := now;
      completions := [];
    }

    /** Logs a completion at `now`: the log grows by one entry at its end and nothing else changes. */
    method CompleteTask(now: int)
      modifies this`completions
      ensures completions == old(completions) + [now]
      ensures LastCompletion() == Some(now)
    {
      completions := completions + [now];
    }

    /** The most recent completion, or `None` for an empty log. */
    function LastCompletion(): (r: Option<int>)
      reads this
      ensures r.None? <==> completions == []
      ensures r.Some? ==> r.value == completions[|completions| - 1]
    {
      if completions == [] then None else Some(completions[|completions| - 1])
    }

    /** `get_period_delta`, in timestamp units. */
    function PeriodDelta(): (r: int)
      reads this
    {
      PeriodDays(periodicity, customFrequency) * Day
    }

    /** The longest step a streak may take: period plus grace. */
    function Window(): (r: int)
      reads this
    {
      PeriodDelta() + gracePeriod * Day
    }

    /** The value `streak()` returns, for the tracker's queries to use. */
    function StreakValue(): (r: nat)
      reads this
    {
      LongestRun(completions, Window())
    }

    /**
     * `streak()`: walks the log from its end with a moving marker that starts
     * at `now`. A step within the window extends the current run; any other
     * step records the run and starts a new one of length 1.
     */
    method Streak(now: int) returns (r: nat)
      ensures r == LongestRun(completions, Window())
      ensures r == 0 <==> completions == []
      ensures completions != [] ==> 1 <= r <= |completions|
    {
      var c := completions;
      var w := Window();
      var streak: nat, current: nat := 0, 0;
      var marker := now;
      var i := |c|;
      while i > 0
        invariant 0 <= i <= |c|
        invariant i == |c| ==> streak == 0 && current == 0
        invariant i < |c| ==> marker == c[i] && current == RunFrom(c, i, w)
        invariant i < |c| ==> Max(streak, current) == MaxRunFrom(c, i, w)
      {
        var completion := c[i - 1];
        if marker - completion <= w {
          current := current + 1;
          marker := completion;
        } else {
          streak := Max(streak, current);
          current := 1;
          marker := completion;
        }
        i := i - 1;
      }
      r := Max(streak, current);
    }
  }
}
