/**
 * The `HabitTracker` of models.py: an ordered list of habit objects with
 * name-keyed operations. Habits are looked up by first match on their name
 * and mutated in place, as in the source; saving the list to its file is an
 * effect counted by the ghost field `saveCount`.
 */
module Tracking {
  import opened Wrappers
  import opened Streaks
  import opened Habits

  /** The two `ValueError`s the tracker raises. */
  datatype TrackerError = InvalidPeriodicity | HabitNotFound(name: string)

  /** The check in `add_habit` and `edit_habit`: a canonical periodicity, or any custom frequency that is not `None`. */
  predicate PeriodicityAccepted(periodicity: string, customFrequency: Option<int>) {
    periodicity in ["daily", "weekly", "monthly", "yearly"] || customFrequency.Some?
  }

  /** r is s with some entries left out and the rest in their original order. */
  predicate IsSubsequence<T(==)>(r: seq<T>, s: seq<T>)
    decreases |s|
  {
    r == [] || (s != [] && ((r[0] == s[0] && IsSubsequence(r[1..], s[1..])) || IsSubsequence(r, s[1..])))
  }

  /** No entry of s occurs twice. */
  predicate Distinct<T(==)>(s: seq<T>) {
    forall i, j :: 0 <= i < j < |s| ==> s[i] != s[j]
  }

  /** Every entry of a subsequence is an entry of the whole. */
  lemma {:induction false} SubsequenceMembers<T>(r: seq<T>, s: seq<T>)
    requires IsSubsequence(r, s)
    ensures forall x :: x in r ==> x in s
    decreases |s|
  {
    if r != [] {
      if r[0] == s[0] && IsSubsequence(r[1..], s[1..]) {
        SubsequenceMembers(r[1..], s[1..]);
        forall x | x in r
          ensures x in s
        {
          if x != r[0] {
            assert x in r[1..];
          }
        }
      } else {
        SubsequenceMembers(r, s[1..]);
      }
    }
  }

  /** Leaving entries out of a list without repeats gives a list without repeats. */
  lemma {:induction false} SubsequenceOfDistinct<T>(r: seq<T>, s: seq<T>)
    requires IsSubsequence(r, s) && Distinct(s)
    ensures Distinct(r)
    decreases |s|
  {
    if r != [] {
      assert Distinct(s[1..]);
      if r[0] == s[0] && IsSubsequence(r[1..], s[1..]) {
        SubsequenceOfDistinct(r[1..], s[1..]);
        SubsequenceMembers(r[1..], s[1..]);
        forall i, j | 0 <= i < j < |r|
          ensures r[i] != r[j]
        {
          if i == 0 {
            assert r[j] in r[1..];
          } else {
            assert r[i] == r[1..][i - 1] && r[j] == r[1..][j - 1];
          }
        }
      } else {
        SubsequenceOfDistinct(r, s[1..]);
      }
    }
  }

  /**
   * In a list without repeats, an order-preserving selection is fixed by which
   * entries it keeps: two subsequences with the same members are equal. So a
   * result stated by membership and order is exactly the list comprehension.
   */
  lemma {:induction false} SubsequenceDeterminedByMembers<T>(r1: seq<T>, r2: seq<T>, s: seq<T>)
    requires Distinct(s) && IsSubsequence(r1, s) && IsSubsequence(r2, s)
    requires forall x :: x in r1 ==> x in r2
    requires forall x :: x in r2 ==> x in r1
    ensures r1 == r2
    decreases |s|
  {
    if s != [] {
      var t := s[1..];
      assert Distinct(t);
      assert s[0] !in t;
      if s[0] in r1 {
        if !(r1[0] == s[0] && IsSubsequence(r1[1..], t)) {
          SubsequenceMembers(r1, t);
          assert false;
        }
        if !(r2[0] == s[0] && IsSubsequence(r2[1..], t)) {
          SubsequenceMembers(r2, t);
          assert false;
        }
        SubsequenceMembers(r1[1..], t);
        SubsequenceMembers(r2[1..], t);
        forall x | x in r1[1..]
          ensures x in r2[1..]
        {
          assert x in r1 && x != s[0];
        }
        forall x | x in r2[1..]
          ensures x in r1[1..]
        {
          assert x in r2 && x != s[0];
        }
        SubsequenceDeterminedByMembers(r1[1..], r2[1..], t);
        assert r1 == [r1[0]] + r1[1..] && r2 == [r2[0]] + r2[1..];
      } else {
        if r1 != [] && r1[0] == s[0] {
          assert false;
        }
        if r2 != [] && r2[0] == s[0] {
          assert false;
        }
        SubsequenceDeterminedByMembers(r1, r2, t);
      }
    }
  }

  /** The index of the first habit in hs named `name`, if any. */
  function FirstNamed(hs: seq<Habit>, name: string): (r: Option<nat>)
    reads hs
    ensures r.Some? ==> r.value < |hs| && hs[r.value].name == name
    ensures r.Some? ==> forall j :: 0 <= j < r.value ==> hs[j].name != name
    ensures r.None? <==> forall h :: h in hs ==> h.name != name
    decreases |hs|
  {
    if hs == [] then None
    else if hs[0].name == name then Some(0)
    else match FirstNamed(hs[1..], name)
      case None => None
      case Some(i) => Some(i + 1)
  }

  /** The habits of hs whose periodicity is exactly p, in order. */
  function WithPeriodicity(hs: seq<Habit>, p: string): (r: seq<Habit>)
    reads hs
    ensures forall h :: h in r ==> h in hs && h.periodicity == p
    ensures forall h :: h in hs && h.periodicity == p ==> h in r
    ensures IsSubsequence(r, hs)
    decreases |hs|
  {
    if hs == [] then []
    else if hs[0].periodicity == p then [hs[0]] + WithPeriodicity(hs[1..], p)
    else WithPeriodicity(hs[1..], p)
  }

  /** The habits of hs not named `name`, in order. */
  function WithoutName(hs: seq<Habit>, name: string): (r: seq<Habit>)
    reads hs
    ensures forall h :: h in r ==> h in hs && h.name != name
    ensures forall h :: h in hs && h.name != name ==> h in r
    ensures IsSubsequence(r, hs)
    decreases |hs|
  {
    if hs == [] then []
    else if hs[0].name != name then [hs[0]] + WithoutName(hs[1..], name)
    else WithoutName(hs[1..], name)
  }

  /** The largest streak among hs, 0 when hs is empty. */
  function MaxStreak(hs: seq<Habit>): (r: nat)
    reads hs
    ensures forall h :: h in hs ==> h.StreakValue() <= r
    ensures hs == [] ==> r == 0
    ensures hs != [] ==> exists h :: h in hs && h.StreakValue() == r
    decreases |hs|
  {
    if hs == [] then 0 else Max(hs[0].StreakValue(), MaxStreak(hs[1..]))
  }

  /** A fresh predefined habit with its synthetic history: 28 daily or 4 weekly completions backdated from now. */
  method NewPredefinedHabit(name: string, periodicity: string, now: int) returns (h: Habit)
    ensures fresh(h)
    ensures h.name == name && h.periodicity == periodicity
    ensures h.customFrequency == None && h.gracePeriod == 0 && h.creationDate == now
    ensures h.completions == if periodicity == "daily" then Backdated(now, 28, Day)
                             else if periodicity == "weekly" then Backdated(now, 4, 7 * Day)
                             else []
  {
    h := new Habit(name, periodicity, None, 0, now);
    if periodicity == "daily" {
      var i := 0;
      while i < 28
        invariant 0 <= i <= 28
        invariant h.completions == Backdated(now, i, Day)
        modifies h`completions
      {
        h.completions := h.completions + [now - i * Day];
        i := i + 1;
      }
    } else if periodicity == "weekly" {
      var i := 0;
      while i < 4
        invariant 0 <= i <= 4
        invariant h.completions == Backdated(now, i, 7 * Day)
        modifies h`completions
      {
        h.completions := h.completions + [now - i * (7 * Day)];
        i := i + 1;
      }
    }
  }

  class HabitTracker {
    var habits: seq<Habit>
    /** How many times the whole list has been written to its file. */
    ghost var saveCount: nat

    /**
     * No habit object is listed twice. Every operation keeps this, so filters
     * stated by membership and order are exact (`SubsequenceDeterminedByMembers`).
     */
    predicate Valid()
      reads this
    {
      Distinct(habits)
    }

    /** A tracker over an empty store. */
    constructor ()
      ensures habits == [] && saveCount == 0 && Valid()
    {
      habits := [];
      saveCount := 0;
    }

    /** Rejects an unknown periodicity without a custom frequency; otherwise appends one new habit and saves. */
    method AddHabit(name: string, periodicity: string, customFrequency: Option<int>, gracePeriod: int, now: int)
      returns (outcome: Outcome<TrackerError>)
      modifies this
      ensures old(Valid()) ==> Valid()
      ensures outcome.Pass? <==> PeriodicityAccepted(periodicity, customFrequency)
      ensures outcome.Fail? ==>
        outcome.error == InvalidPeriodicity && habits == old(habits) && saveCount == old(saveCount)
      ensures outcome.Pass? ==>
        && |habits| == |old(habits)| + 1
        && habits[..|old(habits)|] == old(habits)
        && fresh(habits[|old(habits)|])
        && habits[|old(habits)|].name == name
        && habits[|old(habits)|].periodicity == periodicity
        && habits[|old(habits)|].customFrequency == customFrequency
        && habits[|old(habits)|].gracePeriod == gracePeriod
        && habits[|old(habits)|].creationDate == now
        && habits[|old(habits)|].completions == []
        && saveCount == old(saveCount) + 1
      ensures outcome.Pass? ==>
        FirstNamed(habits, name)
          == if old(FirstNamed(habits, name)).Some? then old(FirstNamed(habits, name)) else Some(|old(habits)|)
    {
      if !PeriodicityAccepted(periodicity, customFrequency) {
        return Fail(InvalidPeriodicity);
      }
      var h := new Habit(name, periodicity, customFrequency, gracePeriod, now);
      habits := habits + [h];
      saveCount := saveCount + 1;
      outcome := Pass;
    }

    /** `get_habit`: the first habit with exactly this name, or `None`. */
    function GetHabit(name: string): (r: Option<Habit>)
      reads this, habits
      ensures r.None? <==> forall h :: h in habits ==> h.name != name
      ensures r.Some? ==>
        exists i :: 0 <= i < |habits| && habits[i] == r.value && r.value.name == name
          && forall j :: 0 <= j < i ==> habits[j].name != name
    {
      match FirstNamed(habits, name)
      case None => None
      case Some(i) => Some(habits[i])
    }

    /** Logs a completion at `now` on the first habit with this name and saves; raises when there is none. */
    method CompleteHabit(name: string, now: int) returns (outcome: Outcome<TrackerError>)
      modifies this, habits
      ensures habits == old(habits) && Valid() == old(Valid())
      ensures outcome.Fail? <==> old(FirstNamed(habits, name)).None?
      ensures outcome.Fail? ==>
        && outcome.error == HabitNotFound(name)
        && saveCount == old(saveCount)
        && forall h :: h in habits ==> unchanged(h)
      ensures outcome.Pass? ==>
        var t := habits[old(FirstNamed(habits, name)).value];
        && t.completions == old(t.completions) + [now]
        && t.name == old(t.name) && t.periodicity == old(t.periodicity)
        && t.customFrequency == old(t.customFrequency) && t.gracePeriod == old(t.gracePeriod)
        && t.creationDate == old(t.creationDate)
        && (forall h :: h in habits && h != t ==> unchanged(h))
        && saveCount == old(saveCount) + 1
    {
      match FirstNamed(habits, name)
      case None =>
        outcome := Fail(HabitNotFound(name));
      case Some(i) =>
        habits[i].CompleteTask(now);
        saveCount := saveCount + 1;
        outcome := Pass;
    }

    /** `get_habits_by_periodicity`: the habits whose periodicity equals p exactly, in their order. */
    function HabitsByPeriodicity(p: string): (r: seq<Habit>)
      reads this, habits
      ensures forall h :: h in r ==> h in habits && h.periodicity == p
      ensures forall h :: h in habits && h.periodicity == p ==> h in r
      ensures IsSubsequence(r, habits)
      ensures Valid() ==> Distinct(r)
    {
      if Valid() then
        SubsequenceOfDistinct(WithPeriodicity(habits, p), habits);
        WithPeriodicity(habits, p)
      else
        WithPeriodicity(habits, p)
    }

    /** `get_longest_streak`: the largest streak over all habits, 0 for an empty tracker. */
    function LongestStreak(): (r: nat)
      reads this, habits
      ensures habits == [] ==> r == 0
      ensures forall h :: h in habits ==> h.StreakValue() <= r
      ensures habits != [] ==> exists h :: h in habits && h.StreakValue() == r
    {
      MaxStreak(habits)
    }

    /** `get_longest_streak_for_habit`: the first match's streak, 0 when no habit has the name. */
    function LongestStreakForHabit(name: string): (r: nat)
      reads this, habits
      ensures (forall h :: h in habits ==> h.name != name) ==> r == 0
      ensures GetHabit(name).Some? ==> r == GetHabit(name).value.StreakValue()
      ensures GetHabit(name).Some? ==> r <= |GetHabit(name).value.completions|
      ensures r <= LongestStreak()
    {
      match GetHabit(name)
      case None => 0
      case Some(h) => h.StreakValue()
    }

    /**
     * Rejects an invalid periodicity like `AddHabit`; otherwise rewrites the
     * name, periodicity, custom frequency and grace period of the first habit
     * named `oldName` and saves. With no such habit nothing happens.
     */
    method EditHabit(oldName: string, newName: string, newPeriodicity: string,
                     customFrequency: Option<int>, gracePeriod: int)
      returns (outcome: Outcome<TrackerError>)
      modifies this, habits
      ensures habits == old(habits) && Valid() == old(Valid())
      ensures outcome.Pass? <==> PeriodicityAccepted(newPeriodicity, customFrequency)
      ensures outcome.Fail? ==> outcome.error == InvalidPeriodicity
      ensures outcome.Fail? || old(FirstNamed(habits, oldName)).None? ==>
        saveCount == old(saveCount) && forall h :: h in habits ==> unchanged(h)
      ensures outcome.Pass? && old(FirstNamed(habits, oldName)).Some? ==>
        var t := habits[old(FirstNamed(habits, oldName)).value];
        && t.name == newName && t.periodicity == newPeriodicity
        && t.customFrequency == customFrequency && t.gracePeriod == gracePeriod
        && t.completions == old(t.completions) && t.creationDate == old(t.creationDate)
        && (forall h :: h in habits && h != t ==> unchanged(h))
        && saveCount == old(saveCount) + 1
    {
      if !PeriodicityAccepted(newPeriodicity, customFrequency) {
        return Fail(InvalidPeriodicity);
      }
      outcome := Pass;
      match FirstNamed(habits, oldName)
      case None =>
      case Some(i) =>
        var t := habits[i];
        t.name := newName;
        t.periodicity := newPeriodicity;
        t.customFrequency := customFrequency;
        t.gracePeriod := gracePeriod;
        saveCount := saveCount + 1;
    }

    /** Removes every habit named `name`, keeps the others in order, and saves. */
    method DeleteHabit(name: string)
      modifies this
      ensures old(Valid()) ==> Valid()
      ensures forall h :: h in habits <==> h in old(habits) && h.name != name
      ensures IsSubsequence(habits, old(habits))
      ensures GetHabit(name).None?
      ensures saveCount == old(saveCount) + 1
    {
      if Valid() {
        SubsequenceOfDistinct(WithoutName(habits, name), habits);
      }
      habits := WithoutName(habits, name);
      saveCount := saveCount + 1;
    }

    /** `view_habit_history`: the first match's completions, or `HabitNotFound`. */
    function ViewHabitHistory(name: string): (r: Result<seq<int>, TrackerError>)
      reads this, habits
      ensures r.Failure? <==> forall h :: h in habits ==> h.name != name
      ensures r.Failure? ==> r.error == HabitNotFound(name)
      ensures r.Success? ==> GetHabit(name).Some? && r.value == GetHabit(name).value.completions
    {
      match GetHabit(name)
      case None => Failure(HabitNotFound(name))
      case Some(h) => Success(h.completions)
    }

    /**
     * Appends the five predefined habits, each created at `now`: "run 5km"
     * (weekly, 4 weekly completions) and four daily ones with 28 daily
     * completions each, then saves.
     */
    method InitializePredefinedHabits(now: int)
      modifies this
      ensures old(Valid()) ==> Valid()
      ensures |habits| == |old(habits)| + 5 && habits[..|old(habits)|] == old(habits)
      ensures forall i :: |old(habits)| <= i < |habits| ==>
        fresh(habits[i]) && habits[i].customFrequency == None && habits[i].gracePeriod == 0
          && habits[i].creationDate == now
      ensures habits[|old(habits)|].name == "run 5km"
      ensures habits[|old(habits)| + 1].name == "read a book"
      ensures habits[|old(habits)| + 2].name == "meditation"
      ensures habits[|old(habits)| + 3].name == "eat breakfast"
      ensures habits[|old(habits)| + 4].name == "wake up early"
      ensures habits[|old(habits)|].periodicity == "weekly"
      ensures habits[|old(habits)|].completions == Backdated(now, 4, 7 * Day)
      ensures habits[|old(habits)|].StreakValue() == 4
      ensures forall i :: |old(habits)| + 1 <= i < |habits| ==>
        habits[i].periodicity == "daily" && habits[i].completions == Backdated(now, 28, Day)
          && habits[i].StreakValue() == 28
      ensures saveCount == old(saveCount) + 1
    {
      var run := NewPredefinedHabit("run 5km", "weekly", now);
      var read := NewPredefinedHabit("read a book", "daily", now);
      var meditate := NewPredefinedHabit("meditation", "daily", now);
      var breakfast := NewPredefinedHabit("eat breakfast", "daily", now);
      var wake := NewPredefinedHabit("wake up early", "daily", now);
      BackdatedScoresFull(now, 4, 7 * Day, 7 * Day);
      BackdatedScoresFull(now, 28, Day, Day);
      habits := habits + [run, read, meditate, breakfast, wake];
      saveCount := saveCount + 1;
    }
  }
}
