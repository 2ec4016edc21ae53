# Habit tracker: habits, streaks and the tracker, in Dafny

This project models the core of a small command-line habit tracker
(`models.py`). A **habit** has a name, a periodicity (`daily`, `weekly`,
`monthly`, `yearly` or anything else), an optional custom frequency in days,
a grace period in days, a creation time and a log of completion timestamps
that only grows at its end. Its **streak** is found by walking the log from
its newest end. Each step of at most *period + grace* extends the current
run, and any longer step starts a new run. The **tracker** keeps an ordered
list of habits. It finds a habit by the first exact match on its name and
changes that habit in place.

Modelling choices:

- Timestamps are integers counting microseconds, the resolution of a Python
  `datetime`; `Streaks.Day` is one day in that unit. `timedelta` arithmetic
  and comparisons are then exact integer arithmetic.
- The clock (`datetime.now()`) is an input parameter `now` of every operation
  that reads it.
- `Habits.Habit` is a class whose fields the operations update, as in the
  source. `Tracking.HabitTracker` holds a `seq<Habit>` of object references.
  The habit that `GetHabit` returns is the very object that `CompleteHabit` and
  `EditHabit` change. `HabitTracker.Valid()` says that no object is listed
  twice, and every operation keeps it.
- Writing the list to its JSON file is counted by the ghost field
  `HabitTracker.saveCount`. This makes "the list was saved" and "nothing was
  saved" statable.
- The source's `ValueError`s are `Outcome.Fail` / `Result.Failure` values
  carrying a `TrackerError`: `InvalidPeriodicity` or `HabitNotFound(name)`.

What the streak means (`Streaks.LongestRunIsLongestChain`): it is the length
of the longest stretch `c[i..j+1]` of consecutive log entries in which every
step `c[k] - c[k-1]` is at most the window. The first entry visited is always
compared against `now`, but both branches of the loop leave the current run at
1, so **the result does not depend on `now`**. `Habits.Habit.Streak` is proved
equal to `LongestRun(completions, Window())`, which does not mention `now`.

Some behaviours of the code are easy to misread from its comments. The model
follows what the code does (`models.py`):

- The comment on `streak` says it calculates "the current streak"
  (models.py:24). The loop instead returns the longest run anywhere in the log,
  and the gap to `now` never changes the result (models.py:34-42). A habit not
  completed for months keeps its old streak.
- The comment on the custom frequency says it sets the interval "if
  periodicity is custom" (models.py:11). `get_period_delta` consults it only
  after daily, weekly and monthly have been ruled out, and only when it is
  truthy, so `0` counts as absent. `yearly` has no branch of its own
  (models.py:45-54). Accepting a habit only checks that the custom frequency is
  not `None` (models.py:66). So `("biweekly", Some(0))` is accepted and then
  gets 365 days.
- `edit_habit` saves only when a habit matched, because the save sits inside
  `if habit:` (models.py:108-113). Editing a missing habit changes and saves
  nothing.
- The comparison at models.py:35 measures each step from the entry visited
  before it, that is, from the later list position back to the earlier one.
  In append order (oldest first), daily completions five days and one day ago
  are a step of four days apart, so the streak is 1
  (`Streaks.GapBreaksAppendOrder`). The tests build their logs newest first
  (test_app.py:28-29, 36-37). Such a log never has a positive step, so with a
  non-negative window (period plus grace at least 0) it always scores its full
  length (`Streaks.NewestFirstScoresFull`). With a negative window, which a
  negative grace period allows, it can score less.

## Model

| member | source | states |
|---|---|---|
| `Streaks.PeriodDaysFixed` | models.py:45-51 | daily is 1 day, weekly 7 and monthly 30, whatever the custom frequency is |
| `Streaks.PeriodDaysOther` | models.py:52-54 | any other periodicity, yearly included, takes a truthy custom frequency, else 365 days; a custom frequency of 0 counts as absent |
| `Streaks.LongestRun` | models.py:25-42 | the streak is 0 exactly when there are no completions, otherwise between 1 and the number of completions |
| `Streaks.LongestRunIsLongestChain` | models.py:33-42 | the streak is the length of the longest run of consecutive completions whose every step is within period plus grace: no such run is longer, and one is exactly that long |
| `Streaks.FullStreakIffChained` | models.py:34-42 | the streak equals the number of completions if and only if every consecutive pair, taken in reverse list order, is within the window, whatever the gap to now |
| `Streaks.NewestFirstScoresFull` | models.py:34-41 | a log whose entries never increase (newest first) scores its full length under any non-negative window |
| `Streaks.BackdatedScoresFull` | models.py:167-173 | a history backdated from now in equal non-negative steps scores its full length |
| `Streaks.ThreeDailyCompletions` | test_app.py:25-30 | a daily habit completed now, a day ago and two days ago has streak 3 |
| `Streaks.GraceBridgesTwoDays` | test_app.py:32-38 | with one day of grace, completions a day and three days ago give streak 2 |
| `Streaks.GapBreaksAppendOrder` | models.py:34-42 | in append order, daily completions five days and one day ago are too far apart, so the streak is 1 |
| `Habits.Habit.constructor` | models.py:6-14 | a new habit has the given fields, is created at now and has an empty log |
| `Habits.Habit.CompleteTask` | models.py:17-18 | the log grows by exactly one entry, now, at its end; earlier entries and the other fields are unchanged; the last completion is then now |
| `Habits.Habit.LastCompletion` | models.py:21-22 | the last completion is None exactly for an empty log, otherwise the final entry |
| `Habits.Habit.Streak` | models.py:25-42 | the loop over the reversed log with its moving marker returns the longest run within period plus grace, 0 for an empty log and at most the log's length |
| `Tracking.FirstNamed` | models.py:74-75 | the index found holds a habit with exactly that name and no earlier habit has it; None exactly when no habit has it |
| `Tracking.HabitTracker.constructor` | models.py:59 | a new tracker over an empty store holds no habits and has saved nothing |
| `Tracking.HabitTracker.AddHabit` | models.py:64-71 | keeps every habit object listed at most once; fails with InvalidPeriodicity, changing and saving nothing, exactly when the periodicity is not canonical and there is no custom frequency; otherwise appends one new habit with the given fields and an empty log, saves once, and first-match lookup of the name is unchanged unless the name was new |
| `Tracking.HabitTracker.GetHabit` | models.py:74-75 | returns the habit at the first index whose name matches exactly, or None exactly when no habit has the name |
| `Tracking.HabitTracker.CompleteHabit` | models.py:78-84 | fails with HabitNotFound, changing and saving nothing, exactly when no habit has the name; otherwise appends now to the first match's log only, leaves every other habit and field unchanged and saves once |
| `Tracking.HabitTracker.HabitsByPeriodicity` | models.py:91-92 | the result holds exactly the habits whose periodicity equals the argument, in their original order, and lists no habit twice when the tracker is valid |
| `Tracking.SubsequenceOfDistinct` | models.py:117 | leaving habits out of a list in which no habit object repeats gives a list in which none repeats, so deletion keeps the tracker valid |
| `Tracking.SubsequenceDeterminedByMembers` | models.py:92 | in a list without repeated objects, two order-preserving selections with the same members are equal, so the filter and delete contracts fix their results exactly as the comprehensions do |
| `Tracking.HabitTracker.LongestStreak` | models.py:95-96 | the maximum streak over all habits: no habit's streak exceeds it, some habit attains it, and it is 0 for an empty tracker |
| `Tracking.HabitTracker.LongestStreakForHabit` | models.py:99-101 | the first match's streak, 0 when no habit has the name, never more than that habit's log length or the overall longest streak |
| `Tracking.HabitTracker.EditHabit` | models.py:104-113 | fails with InvalidPeriodicity under the rule of AddHabit; otherwise overwrites name, periodicity, custom frequency and grace period of the first match only, keeps its log and creation time, leaves every other habit unchanged and saves; with no match nothing changes and nothing is saved |
| `Tracking.HabitTracker.DeleteHabit` | models.py:116-118 | afterwards no habit has the name, every other habit is kept in its original relative order, the list is saved once, and no habit object comes to be listed twice |
| `Tracking.HabitTracker.ViewHabitHistory` | models.py:121-126 | fails with HabitNotFound exactly when no habit has the name; otherwise returns the first match's completions in stored order |
| `Tracking.NewPredefinedHabit` | models.py:164-173 | a fresh habit created at now whose log holds 28 completions a day apart for daily, 4 a week apart for weekly |
| `Tracking.HabitTracker.InitializePredefinedHabits` | models.py:152-177 | appends the five predefined habits with their names, periodicities and backdated logs, so that the weekly one scores 4 and each daily one 28, and saves once |
| `Scenarios.PredefinedStreaks` | test_app.py:81-94 | seeding an empty tracker gives 5 habits; "read a book" scores 28 and "run 5km" scores 4 |
| `Scenarios.AddAndComplete` | test_app.py:54-71 | adding "meditation" to an empty tracker and completing it gives one habit with one completion, found by name |
| `Scenarios.BiweeklyRejected` | models.py:66-68 | adding a "biweekly" habit with no custom frequency fails with InvalidPeriodicity and leaves the tracker empty |

## Left out

- `save_habits` / `load_habits` (models.py:129-149): JSON file I/O and ISO-8601 formatting through Python's libraries. Each save is only counted by the ghost `saveCount`. The tracker's constructor, which loads the file or seeds the predefined habits when the file is missing, is modelled as a tracker over an empty store, plus the separate `InitializePredefinedHabits`.
- `get_all_habits` (models.py:87-88) returns the list itself. Callers read the `habits` field directly, so it has no member of its own.
- `datetime.now()` (models.py:13, 18, 27, 161) is the parameter `now`. In `initialize_predefined_habits` each habit's creation time comes from its own clock reading; the model uses the single `now` for all of them.
- `cli.py` (argument parsing and printed messages) is not part of this model.
- Python's dynamic typing: names and periodicities are strings, the custom frequency is an optional integer and the grace period an integer. Negative values are allowed, as in the source. Sub-microsecond time and time zones are not modelled.
- `Habits.Habit.Streak`: always returns a number. Python's `timedelta` holds at most 999,999,999 days either way. `timedelta(days=...)` of a larger custom frequency or grace period (models.py:31, 53), or a sum `period_delta + grace_delta` past that bound (models.py:35), raises `OverflowError`. The integers here have no such bound, so that error is not modelled. The same holds for `Habits.Habit.StreakValue`, `Tracking.HabitTracker.LongestStreak` and `Tracking.HabitTracker.LongestStreakForHabit`. `add_habit` and `edit_habit` accept such values (models.py:66, 105).
- `Tracking.HabitTracker.ViewHabitHistory`: returns the completions as a sequence value, a copy. Python returns the habit's live list (models.py:124), so a caller that appends to it changes the habit. That aliasing is not modelled.
