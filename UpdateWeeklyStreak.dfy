/**
 * The scheduled weekly-streak job (app/api/update_weekly_streak/route.ts).
 * For every profile it decides whether all of the user's goals created this
 * week are done; if so the streak grows by one and the longest streak is
 * raised to match, otherwise the streak is reset to 0.  Database reads are
 * inputs (the profile rows, the weekly_goals table and the set of users whose
 * goal query failed); database writes are returned as values.
 */
module UpdateWeeklyStreak {
  import opened Base
  import opened Types

  const DayMs: int := 86_400_000

  /** A profiles row as fetched with select("*"); the counters may be null. */
  datatype Profile = Profile(
    id: string,
    streakCount: Option<nat>,
    longestStreak: Option<nat>,
    lastStreakUpdated: Option<int>)

  /** Inclusive bounds, in milliseconds since the epoch. */
  datatype Window = Window(start: int, end: int)

  /**
   * `Date.getDay()` for the instant `t` in a zone `offset` milliseconds ahead
   * of UTC: 0 is Sunday; 1 January 1970 was a Thursday.
   */
  function WeekdayOf(t: int, offset: int): (d: int)
    ensures 0 <= d < 7
  {
    ((t + offset) / DayMs + 4) % 7
  }

  /**
   * The week window of lines 10-13: the start is `now` moved back by its
   * weekday with the time of day kept, the end six days after the start.
   */
  function WeekWindow(now: int, offset: int): (w: Window)
    ensures w.start <= now <= w.end
    ensures w.end - w.start == 6 * DayMs
    ensures (now - w.start) % DayMs == 0
  {
    var start := now - WeekdayOf(now, offset) * DayMs;
    Window(start, start + 6 * DayMs)
  }

  lemma ShiftDays(x: int, k: int)
    ensures (x - k * DayMs) / DayMs == x / DayMs - k
  {
  }

  /** The window starts on a Sunday and ends on a Saturday. */
  lemma WeekWindowSundayToSaturday(now: int, offset: int)
    ensures WeekdayOf(WeekWindow(now, offset).start, offset) == 0
    ensures WeekdayOf(WeekWindow(now, offset).end, offset) == 6
  {
    var q := (now + offset) / DayMs;
    var wd := WeekdayOf(now, offset);
    var w := WeekWindow(now, offset);
    ShiftDays(now + offset, wd);
    assert (w.start + offset) / DayMs == q - wd;
    ShiftDays(w.start + offset, -6);
    assert (w.end + offset) / DayMs == q - wd + 6;
  }

  /** The local time of day of the instant `t`, in milliseconds since local midnight. */
  function TimeOfDay(t: int, offset: int): (m: int)
    ensures 0 <= m < DayMs
  {
    (t + offset) % DayMs
  }

  /**
   * Because the time of day is kept, start and end fall at now's time of day.
   * When that is after midnight, Sunday's earlier part (from its midnight on)
   * lies before the window; when it is before the last millisecond, the rest
   * of Saturday lies after it.
   */
  lemma WindowKeepsTimeOfDay(now: int, offset: int)
    ensures TimeOfDay(WeekWindow(now, offset).start, offset) == TimeOfDay(now, offset)
    ensures TimeOfDay(WeekWindow(now, offset).end, offset) == TimeOfDay(now, offset)
    ensures var w, m := WeekWindow(now, offset), TimeOfDay(now, offset);
      m > 0 ==> WeekdayOf(w.start - m, offset) == 0 && TimeOfDay(w.start - m, offset) == 0 && w.start - m < w.start
    ensures var w, m := WeekWindow(now, offset), TimeOfDay(now, offset);
      m < DayMs - 1 ==> WeekdayOf(w.end + (DayMs - 1 - m), offset) == 6 && w.end < w.end + (DayMs - 1 - m)
  {
    var w, m := WeekWindow(now, offset), TimeOfDay(now, offset);
    var wd := WeekdayOf(now, offset);
    var q := (now + offset) / DayMs;
    assert now + offset == q * DayMs + m;
    assert w.start + offset == (q - wd) * DayMs + m;
    assert w.end + offset == (q - wd + 6) * DayMs + m;
    WeekWindowSundayToSaturday(now, offset);
    DayOf(q - wd, m);
    DayOf(q - wd + 6, m);
    DayOf(q - wd, 0);
    DayOf(q - wd + 6, DayMs - 1);
  }

  /** An instant `m` milliseconds into day `d` (counted from the epoch) lies on day `d` at time `m`. */
  lemma DayOf(d: int, m: int)
    requires 0 <= m < DayMs
    ensures (d * DayMs + m) / DayMs == d && (d * DayMs + m) % DayMs == m
  {
  }

  /** A goal counts for a user's week iff it is theirs and was created inside the window, both ends included. */
  predicate InWeek(g: GoalRow, userId: string, w: Window) {
    g.userId == userId && w.start <= g.createdAt <= w.end
  }

  /** The rows the query of lines 25-30 returns, in table order. */
  function WeekGoals(goals: seq<GoalRow>, userId: string, w: Window): (r: seq<GoalRow>)
    ensures |r| <= |goals|
    ensures forall g :: g in r <==> g in goals && InWeek(g, userId, w)
  {
    if goals == [] then []
    else if InWeek(goals[0], userId, w) then [goals[0]] + WeekGoals(goals[1..], userId, w)
    else WeekGoals(goals[1..], userId, w)
  }

  /** Selecting a user's week goals only ever looks at that user's own rows. */
  lemma {:induction false} WeekGoalsOfOwned(goals: seq<GoalRow>, userId: string, w: Window)
    ensures WeekGoals(goals, userId, w) == WeekGoals(OwnedBy(goals, userId), userId, w)
  {
    if goals != [] {
      WeekGoalsOfOwned(goals[1..], userId, w);
    }
  }

  /** Lines 25-30: the goal query's result, null when it failed for this user, else the user's goals of the week. */
  function FetchWeekGoals(goals: seq<GoalRow>, failedQueries: set<string>, userId: string, w: Window): (r: Option<seq<GoalRow>>)
    ensures r.None? <==> userId in failedQueries
    ensures r.Some? ==> forall g :: g in r.value <==> g in goals && InWeek(g, userId, w)
  {
    if userId in failedQueries then None else Some(WeekGoals(goals, userId, w))
  }

  /** Lines 34-37: a result was returned, it is non-empty, and every goal in it is done. */
  function AllCompleted(weekGoals: Option<seq<GoalRow>>): (r: bool)
    ensures weekGoals.None? || weekGoals == Some([]) ==> !r
    ensures weekGoals.Some? && weekGoals.value != [] ==> (r <==> forall g :: g in weekGoals.value ==> g.state == Done)
  {
    weekGoals.Some? && |weekGoals.value| > 0
    && forall k :: 0 <= k < |weekGoals.value| ==> weekGoals.value[k].state == Done
  }

  /** The fields one profile update writes; `longestStreak` is None when it is not written. */
  datatype ProfileUpdate = ProfileUpdate(streakCount: nat, longestStreak: Option<nat>, lastStreakUpdated: int)

  /** The decision of lines 40-71 for one user. */
  function StreakUpdate(user: Profile, weekGoals: Option<seq<GoalRow>>, now: int): (u: ProfileUpdate)
    ensures u.lastStreakUpdated == now
    ensures AllCompleted(weekGoals) ==>
              && u.streakCount == OrZero(user.streakCount) + 1
              && u.longestStreak.Some?
              && u.longestStreak.value >= u.streakCount
              && u.longestStreak.value >= OrZero(user.longestStreak)
              && (u.longestStreak.value == u.streakCount || u.longestStreak.value == OrZero(user.longestStreak))
    ensures !AllCompleted(weekGoals) ==> u.streakCount == 0 && u.longestStreak.None?
  {
    if AllCompleted(weekGoals) then
      var newStreak := OrZero(user.streakCount) + 1;
      ProfileUpdate(newStreak, Some(Max(newStreak, OrZero(user.longestStreak))), now)
    else
      ProfileUpdate(0, None, now)
  }

  /** A stored row after `.update(u)`: written fields replaced, the others kept. */
  function Apply(p: Profile, u: ProfileUpdate): (q: Profile)
    ensures q.id == p.id
    ensures q.streakCount == Some(u.streakCount) && q.lastStreakUpdated == Some(u.lastStreakUpdated)
    ensures q.longestStreak == if u.longestStreak.Some? then u.longestStreak else p.longestStreak
  {
    Profile(p.id, Some(u.streakCount), if u.longestStreak.Some? then u.longestStreak else p.longestStreak,
            Some(u.lastStreakUpdated))
  }

  /** The counter invariant: the longest streak is at least the current one (null read as 0). */
  predicate StreakInvariant(p: Profile) {
    OrZero(p.longestStreak) >= OrZero(p.streakCount)
  }

  /**
   * An update computed from a row and written back to that row leaves
   * longest >= count (whatever held before: the reset branch writes 0) and never
   * lowers the longest streak.
   */
  lemma UpdateKeepsInvariant(p: Profile, weekGoals: Option<seq<GoalRow>>, now: int)
    ensures StreakInvariant(Apply(p, StreakUpdate(p, weekGoals, now)))
    ensures OrZero(Apply(p, StreakUpdate(p, weekGoals, now)).longestStreak) >= OrZero(p.longestStreak)
  {
  }

  /** Running the job twice in one week with all goals done counts that week twice. */
  lemma RerunCountsTwice(p: Profile, weekGoals: Option<seq<GoalRow>>, now1: int, now2: int)
    requires AllCompleted(weekGoals)
    ensures var p1 := Apply(p, StreakUpdate(p, weekGoals, now1));
            OrZero(Apply(p1, StreakUpdate(p1, weekGoals, now2)).streakCount) == OrZero(p.streakCount) + 2
  {
  }

  /** A user's update depends only on that user's own goals and profile. */
  lemma UpdateDependsOnlyOnOwnGoals(user: Profile, goals1: seq<GoalRow>, goals2: seq<GoalRow>,
                                    failedQueries: set<string>, w: Window, now: int)
    requires OwnedBy(goals1, user.id) == OwnedBy(goals2, user.id)
    ensures StreakUpdate(user, FetchWeekGoals(goals1, failedQueries, user.id, w), now)
         == StreakUpdate(user, FetchWeekGoals(goals2, failedQueries, user.id, w), now)
  {
    WeekGoalsOfOwned(goals1, user.id, w);
    WeekGoalsOfOwned(goals2, user.id, w);
  }

  /** One profile write, `.update(update).eq("id", userId)`. */
  datatype Write = Write(userId: string, update: ProfileUpdate)

  /** Profile ids are the table's primary key. */
  predicate DistinctIds(users: seq<Profile>) {
    forall i, j :: 0 <= i < j < |users| ==> users[i].id != users[j].id
  }

  /**
   * The loop of lines 22-72.  `users` is the fetched profile list (null when the
   * fetch gave no data), `table` the stored profiles the writes land on.  One write
   * per user, in list order; a null list writes nothing.  Every written row ends
   * with longest >= count; rows of other ids are untouched.
   */
  method UpdateWeeklyStreaks(users: Option<seq<Profile>>, goals: seq<GoalRow>, failedQueries: set<string>,
                             now: int, offset: int, table: map<string, Profile>)
    returns (writes: seq<Write>, table': map<string, Profile>)
    requires users.Some? ==> DistinctIds(users.value)
    ensures users.None? ==> writes == [] && table' == table
    ensures table'.Keys == table.Keys
    ensures users.Some? ==>
              && |writes| == |users.value|
              && forall i :: 0 <= i < |writes| ==>
                   writes[i] == Write(users.value[i].id,
                                      StreakUpdate(users.value[i],
                                                   FetchWeekGoals(goals, failedQueries, users.value[i].id, WeekWindow(now, offset)),
                                                   now))
    ensures users.Some? ==>
              forall i :: 0 <= i < |writes| && users.value[i].id in table ==>
                table'[users.value[i].id] == Apply(table[users.value[i].id], writes[i].update)
    ensures forall id :: id in table && (users.None? || forall i :: 0 <= i < |users.value| ==> users.value[i].id != id) ==>
              table'[id] == table[id]
    ensures users.Some? ==>
              forall i :: 0 <= i < |users.value| && users.value[i].id in table && table[users.value[i].id] == users.value[i] ==>
                StreakInvariant(table'[users.value[i].id])
  {
    writes, table' := [], table;
    if users.None? {
      return;
    }
    var list := users.value;
    var w := WeekWindow(now, offset);
    var i := 0;
    while i < |list|
      invariant 0 <= i <= |list|
      invariant table'.Keys == table.Keys
      invariant |writes| == i
      invariant forall k :: 0 <= k < i ==>
                  writes[k] == Write(list[k].id, StreakUpdate(list[k], FetchWeekGoals(goals, failedQueries, list[k].id, w), now))
      invariant forall k :: 0 <= k < i && list[k].id in table ==>
                  table'[list[k].id] == Apply(table[list[k].id], writes[k].update)
      invariant forall id :: id in table && (forall k :: 0 <= k < i ==> list[k].id != id) ==> table'[id] == table[id]
    {
      var user := list[i];
      var weekGoals := FetchWeekGoals(goals, failedQueries, user.id, w);
      var update := StreakUpdate(user, weekGoals, now);
      if user.id in table' {
        table' := table'[user.id := Apply(table'[user.id], update)];
      }
      writes := writes + [Write(user.id, update)];
      i := i + 1;
    }
    forall k | 0 <= k < |list| && list[k].id in table && table[list[k].id] == list[k]
      ensures StreakInvariant(table'[list[k].id])
    {
      UpdateKeepsInvariant(list[k], FetchWeekGoals(goals, failedQueries, list[k].id, w), now);
    }
  }
}
