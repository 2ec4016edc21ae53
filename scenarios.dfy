/**
 * Client scenarios over the tracker: what a caller can conclude from the
 * contracts alone about the situations test_app.py sets up.
 */
module Scenarios {
  import opened Wrappers
  import opened Streaks
  import opened Habits
  import opened Tracking

  /** Seeding an empty tracker gives five habits; "read a book" scores 28 and "run 5km" scores 4. */
  method PredefinedStreaks(now: int) returns (count: nat, daily: nat, weekly: nat)
    ensures count == 5 && daily == 28 && weekly == 4
  {
    var tracker := new HabitTracker();
    tracker.InitializePredefinedHabits(now);
    count := |tracker.habits|;
    var read := tracker.GetHabit("read a book");
    var run := tracker.GetHabit("run 5km");
    assert tracker.habits[1].name == "read a book";
    assert tracker.habits[0].name == "run 5km";
    daily, weekly := 0, 0;
    if read.Some? && run.Some? {
      daily := read.value.Streak(now);
      weekly := run.value.Streak(now);
    }
  }

  /** Adding a habit, completing it once and looking it up, on an empty tracker. */
  method AddAndComplete(now: int) returns (count: nat, logged: nat, found: bool)
    ensures count == 1 && logged == 1 && found
  {
    var tracker := new HabitTracker();
    var added := tracker.AddHabit("meditation", "daily", None, 0, now);
    var done := tracker.CompleteHabit("meditation", now);
    count := |tracker.habits|;
    logged := |tracker.habits[0].completions|;
    found := tracker.GetHabit("meditation").Some?;
  }

  /** "biweekly" without a custom frequency is refused, and nothing is added or saved. */
  method BiweeklyRejected(now: int) returns (outcome: Outcome<TrackerError>, count: nat)
    ensures outcome == Fail(InvalidPeriodicity) && count == 0
  {
    var tracker := new HabitTracker();
    outcome := tracker.AddHabit("swim", "biweekly", None, 0, now);
    count := |tracker.habits|;
    assert tracker.saveCount == 0;
  }
}
