/** The learning-activity dashboard (src/components/ProgressDashboard.tsx):
    the 30-day activity window, total and weekly minutes, the daily streak,
    the weekly-goal and skill-completion percentages, the seven-day chart
    and the "1h 30m" time format. Dates are whole day numbers (days since
    an epoch, in the user's calendar); `today` is a parameter. */
module Activity {
  import opened Wrappers
  import opened Text
  import opened Seqs
  import opened Percent

  /** One `learning_activity` row. */
  datatype Activity = Activity(day: int, minutes: nat, skills: nat)

  /** At most one row per day, as the table keeps them. */
  predicate DistinctDays(xs: seq<Activity>) {
    forall i, j :: 0 <= i < j < |xs| ==> xs[i].day != xs[j].day
  }

  // ---------------------------------------------------------------------
  // Windows and sums
  // ---------------------------------------------------------------------

  /** The rows dated on or after `from`, in their original order. */
  function Since(xs: seq<Activity>, from: int): (r: seq<Activity>)
    ensures |r| <= |xs|
    ensures forall a :: a in r <==> a in xs && a.day >= from
  {
    if |xs| == 0 then []
    else if xs[0].day >= from then [xs[0]] + Since(xs[1..], from)
    else Since(xs[1..], from)
  }

  /** The sum of `minutes_spent` over all rows. */
  function Total(xs: seq<Activity>): (r: nat)
    ensures forall i :: 0 <= i < |xs| ==> xs[i].minutes <= r
    ensures r == 0 <==> forall i :: 0 <= i < |xs| ==> xs[i].minutes == 0
  {
    if |xs| == 0 then 0 else xs[0].minutes + Total(xs[1..])
  }

  /** The minutes of the rows dated on or after `from`. */
  function MinutesSince(xs: seq<Activity>, from: int): (r: nat)
    ensures r <= Total(xs)
    ensures forall i :: 0 <= i < |xs| && xs[i].day >= from ==> xs[i].minutes <= r
    ensures (forall i :: 0 <= i < |xs| ==> xs[i].day >= from) ==> r == Total(xs)
  {
    if |xs| == 0 then 0
    else (if xs[0].day >= from then xs[0].minutes else 0) + MinutesSince(xs[1..], from)
  }

  /** The fetched rows: dated no earlier than 30 days ago. */
  function Fetched(rows: seq<Activity>, today: int): (r: seq<Activity>)
    ensures forall a :: a in r <==> a in rows && today - 30 <= a.day
  {
    Since(rows, today - 30)
  }

  /** The weekly figure: rows dated within the last seven days (today and
      the six days before it); a row's midnight is compared with the moment
      exactly a week ago. */
  function Weekly(xs: seq<Activity>, today: int): (r: nat)
    ensures r <= Total(xs)
    ensures forall i :: 0 <= i < |xs| && today - 6 <= xs[i].day ==> xs[i].minutes <= r
  {
    MinutesSince(xs, today - 6)
  }

  /** Summing the filtered rows is summing with the filter. */
  lemma {:induction false} TotalSince(xs: seq<Activity>, from: int)
    ensures Total(Since(xs, from)) == MinutesSince(xs, from)
  {
    if |xs| > 0 {
      TotalSince(xs[1..], from);
      if xs[0].day >= from {
        assert ([xs[0]] + Since(xs[1..], from))[1..] == Since(xs[1..], from);
      }
    }
  }

  /** A narrower window inside a wider one sees the same rows. */
  lemma {:induction false} NestedWindows(xs: seq<Activity>, wide: int, narrow: int)
    requires wide <= narrow
    ensures MinutesSince(Since(xs, wide), narrow) == MinutesSince(xs, narrow)
  {
    if |xs| > 0 {
      NestedWindows(xs[1..], wide, narrow);
      if xs[0].day >= wide {
        assert ([xs[0]] + Since(xs[1..], wide))[1..] == Since(xs[1..], wide);
      }
    }
  }

  /** A window's minutes never exceed the total. */
  lemma {:induction false} WindowAtMostTotal(xs: seq<Activity>, from: int)
    ensures MinutesSince(xs, from) <= Total(xs)
  {
    if |xs| > 0 {
      WindowAtMostTotal(xs[1..], from);
    }
  }

  /** The dashboard's two figures: the total is the minutes of the last 30
      days, the weekly figure is the minutes of the last seven days of all
      rows, and never exceeds the total. */
  lemma DashboardTotals(rows: seq<Activity>, today: int)
    ensures Total(Fetched(rows, today)) == MinutesSince(rows, today - 30)
    ensures Weekly(Fetched(rows, today), today) == Weekly(rows, today)
    ensures Weekly(Fetched(rows, today), today) <= Total(Fetched(rows, today))
  {
    TotalSince(rows, today - 30);
    NestedWindows(rows, today - 30, today - 6);
    WindowAtMostTotal(Fetched(rows, today), today - 6);
  }

  // ---------------------------------------------------------------------
  // Sorting newest first
  // ---------------------------------------------------------------------

  predicate SortedDesc(s: seq<Activity>) {
    forall i, j :: 0 <= i < j < |s| ==> s[i].day >= s[j].day
  }

  /** Inserts `x` before the first row that is not newer than it. */
  function Insert(x: Activity, s: seq<Activity>): (r: seq<Activity>)
    requires SortedDesc(s)
    ensures SortedDesc(r)
    ensures multiset(r) == multiset(s) + multiset{x}
    ensures |s| > 0 && x.day >= s[0].day ==> r == [x] + s
    ensures |r| > 0 && (r[0] == x || (|s| > 0 && r[0] == s[0]))
  {
    if |s| == 0 then [x]
    else if x.day >= s[0].day then
      ConsSorted(x, s);
      [x] + s
    else
      var rest := Insert(x, s[1..]);
      assert s == [s[0]] + s[1..];
      ConsSorted(s[0], rest);
      [s[0]] + rest
  }

  /** A row no older than the head of a sorted list can go in front. */
  lemma ConsSorted(a: Activity, t: seq<Activity>)
    requires SortedDesc(t)
    requires |t| > 0 ==> a.day >= t[0].day
    ensures SortedDesc([a] + t)
  {
    var u := [a] + t;
    forall i, j | 0 <= i < j < |u|
      ensures u[i].day >= u[j].day
    {
      if i == 0 && j > 1 {
        assert t[0].day >= t[j - 1].day;
      }
    }
  }

  /** The sort by date, newest first, of `calculateStreak`; like
      `Array.prototype.sort` it is stable (`SortStable`). */
  function SortDesc(xs: seq<Activity>): (r: seq<Activity>)
    ensures SortedDesc(r)
    ensures multiset(r) == multiset(xs)
    ensures |r| == |xs|
  {
    if |xs| == 0 then []
    else
      assert xs == [xs[0]] + xs[1..];
      Insert(xs[0], SortDesc(xs[1..]))
  }

  /** The rows of one day, in list order. */
  function OnDay(s: seq<Activity>, day: int): seq<Activity> {
    if |s| == 0 then []
    else (if s[0].day == day then [s[0]] else []) + OnDay(s[1..], day)
  }

  /** The inserted row goes before every row of its own day. */
  lemma {:induction false} InsertOnDay(x: Activity, s: seq<Activity>, day: int)
    requires SortedDesc(s)
    ensures OnDay(Insert(x, s), day) == (if x.day == day then [x] else []) + OnDay(s, day)
  {
    if |s| == 0 || x.day >= s[0].day {
      assert Insert(x, s) == [x] + s;
      OnDayCons(x, s, day);
    } else {
      InsertOnDay(x, s[1..], day);
      assert Insert(x, s) == [s[0]] + Insert(x, s[1..]);
      BehindNewer(s[0], x, Insert(x, s[1..]), s[1..], day);
    }
  }

  /** Putting a newer row `a` in front keeps `x`'s rows ahead of the
      others of their day, since `a` is of another day. */
  lemma BehindNewer(a: Activity, x: Activity, rest: seq<Activity>, t: seq<Activity>, day: int)
    requires a.day > x.day
    requires OnDay(rest, day) == (if x.day == day then [x] else []) + OnDay(t, day)
    ensures OnDay([a] + rest, day)
      == (if x.day == day then [x] else []) + ((if a.day == day then [a] else []) + OnDay(t, day))
  {
    OnDayCons(a, rest, day);
    var tt := OnDay(t, day);
    var rr := OnDay(rest, day);
    if x.day == day {
      assert a.day != day;
      assert OnDay([a] + rest, day) == [] + rr;
      assert rr == [x] + tt;
      assert [] + tt == tt;
    } else {
      assert rr == [] + tt;
      assert [] + tt == tt;
    }
  }

  /** A row in front adds itself to its day's rows. */
  lemma OnDayCons(a: Activity, t: seq<Activity>, day: int)
    ensures OnDay([a] + t, day) == (if a.day == day then [a] else []) + OnDay(t, day)
  {
    assert ([a] + t)[1..] == t;
  }

  /** Stability: the sort keeps the input order of the rows of each day. */
  lemma {:induction false} SortStable(xs: seq<Activity>, day: int)
    ensures OnDay(SortDesc(xs), day) == OnDay(xs, day)
  {
    if |xs| > 0 {
      SortStable(xs[1..], day);
      InsertOnDay(xs[0], SortDesc(xs[1..]), day);
    }
  }

  /** Rows already newest first are left in place. */
  lemma {:induction false} SortSorted(xs: seq<Activity>)
    requires SortedDesc(xs)
    ensures SortDesc(xs) == xs
  {
    if |xs| > 0 {
      SortSorted(xs[1..]);
      if |xs| > 1 {
        assert xs[0].day >= xs[1].day;
        assert xs == [xs[0]] + xs[1..];
      }
    }
  }

  // ---------------------------------------------------------------------
  // The streak
  // ---------------------------------------------------------------------

  /** The loop of `calculateStreak` as written, from position `i` of the
      newest-first rows: row `i` must be dated `i` days before today and
      have minutes; only at position 0 may the row be yesterday's instead
      (with or without minutes). */
  function WalkAsWritten(s: seq<Activity>, today: int, i: nat): (r: nat)
    requires i <= |s|
    ensures r <= |s| - i
    decreases |s| - i
  {
    if i == |s| then 0
    else if s[i].day == today - i && s[i].minutes > 0 then 1 + WalkAsWritten(s, today, i + 1)
    else if i == 0 && s[i].day == today - 1 then 1 + WalkAsWritten(s, today, i + 1)
    else 0
  }

  function StreakAsWritten(data: seq<Activity>, today: int): (r: nat)
    ensures r <= |data|
    ensures |data| == 0 ==> r == 0
  {
    if |data| == 0 then 0 else WalkAsWritten(SortDesc(data), today, 0)
  }

  /** The number of rows from position `i` on that are dated on consecutive
      days `anchor - i`, `anchor - i - 1`, ..., each with minutes. */
  function CountBack(s: seq<Activity>, anchor: int, i: nat): (r: nat)
    requires i <= |s|
    ensures r <= |s| - i
    ensures forall j :: i <= j < i + r ==> s[j].day == anchor - j && s[j].minutes > 0
    ensures i + r < |s| ==> !(s[i + r].day == anchor - (i + r) && s[i + r].minutes > 0)
    decreases |s| - i
  {
    if i < |s| && s[i].day == anchor - i && s[i].minutes > 0 then 1 + CountBack(s, anchor, i + 1)
    else 0
  }

  /** The streak as evidently intended: counted back from today when today
      has minutes, and otherwise back from yesterday when the newest row is
      yesterday's. */
  function Streak(data: seq<Activity>, today: int): (r: nat)
    ensures r <= |data|
    ensures |data| == 0 ==> r == 0
  {
    var s := SortDesc(data);
    if |s| == 0 then 0
    else if s[0].day == today && s[0].minutes > 0 then CountBack(s, today, 0)
    else if s[0].day == today - 1 then 1 + CountBack(s, today - 1, 1)
    else 0
  }

  /** The rows are one per day on consecutive days ending at `anchor`, all
      with minutes. */
  predicate ConsecutiveFrom(data: seq<Activity>, anchor: int) {
    forall i :: 0 <= i < |data| ==> data[i].day == anchor - i && data[i].minutes > 0
  }

  lemma ConsecutiveSorted(data: seq<Activity>, anchor: int)
    requires ConsecutiveFrom(data, anchor)
    ensures SortDesc(data) == data
  {
    SortSorted(data);
  }

  lemma {:induction false} CountBackWhole(s: seq<Activity>, anchor: int, i: nat)
    requires ConsecutiveFrom(s, anchor) && i <= |s|
    ensures CountBack(s, anchor, i) == |s| - i
    decreases |s| - i
  {
    if i < |s| {
      CountBackWhole(s, anchor, i + 1);
    }
  }

  /** From position 1 on, the loop as written and the intended count agree. */
  lemma {:induction false} WalkIsCountBack(s: seq<Activity>, today: int, i: nat)
    requires 1 <= i <= |s|
    ensures WalkAsWritten(s, today, i) == CountBack(s, today, i)
    decreases |s| - i
  {
    if i < |s| {
      WalkIsCountBack(s, today, i + 1);
    }
  }

  /** Whenever today has minutes the two streaks agree. */
  lemma StreakFromToday(data: seq<Activity>, today: int)
    requires |data| > 0
    requires SortDesc(data)[0].day == today && SortDesc(data)[0].minutes > 0
    ensures StreakAsWritten(data, today) == Streak(data, today)
  {
    WalkFromToday(SortDesc(data), today);
  }

  lemma WalkFromToday(s: seq<Activity>, today: int)
    requires |s| > 0 && s[0].day == today && s[0].minutes > 0
    ensures WalkAsWritten(s, today, 0) == CountBack(s, today, 0)
  {
    WalkIsCountBack(s, today, 1);
  }

  /** A newest row dated today without minutes ends both streaks at 0:
      the loop neither counts it nor falls back to yesterday. */
  lemma IdleToday(data: seq<Activity>, today: int)
    requires |data| > 0 && SortDesc(data)[0].day == today && SortDesc(data)[0].minutes == 0
    ensures StreakAsWritten(data, today) == 0
    ensures Streak(data, today) == 0
  {
  }

  /** A run of active days up to today counts in full. */
  lemma TodayRun(data: seq<Activity>, today: int)
    requires |data| >= 1 && ConsecutiveFrom(data, today)
    ensures Streak(data, today) == |data|
  {
    ConsecutiveSorted(data, today);
    CountBackWhole(data, today, 0);
  }

  /** As written, whenever the newest row is yesterday's (with or without
      minutes, one row per day) the streak is 1, however many active days
      precede it: after the yesterday row, position 1 is expected to be
      yesterday again. */
  lemma YesterdayRunAsWritten(data: seq<Activity>, today: int)
    requires |data| >= 1 && DistinctDays(data) && SortDesc(data)[0].day == today - 1
    ensures StreakAsWritten(data, today) == 1
  {
    SortDistinct(data);
    var s := SortDesc(data);
    assert WalkAsWritten(s, today, 0) == 1 + WalkAsWritten(s, today, 1);
    if |s| > 1 {
      assert s[0].day >= s[1].day && s[0].day != s[1].day;
    }
  }

  /** Sorting keeps one row per day. */
  lemma {:induction false} SortDistinct(xs: seq<Activity>)
    requires DistinctDays(xs)
    ensures DistinctDays(SortDesc(xs))
  {
    if |xs| > 0 {
      var rest := xs[1..];
      SortDistinct(rest);
      var t := SortDesc(rest);
      forall k | 0 <= k < |t|
        ensures t[k].day != xs[0].day
      {
        assert t[k] in multiset(rest);
        var j :| 0 <= j < |rest| && rest[j] == t[k];
        assert xs[j + 1] == t[k];
      }
      InsertDistinct(xs[0], t);
    }
  }

  /** Inserting a row of a new day keeps one row per day. */
  lemma {:induction false} InsertDistinct(x: Activity, s: seq<Activity>)
    requires SortedDesc(s) && DistinctDays(s)
    requires forall k :: 0 <= k < |s| ==> s[k].day != x.day
    ensures DistinctDays(Insert(x, s))
  {
    if |s| == 0 || x.day >= s[0].day {
      ConsDistinct(x, s);
    } else {
      var tail := s[1..];
      InsertDistinct(x, tail);
      var rest := Insert(x, tail);
      forall k | 0 <= k < |rest|
        ensures rest[k].day != s[0].day
      {
        RowOfInsert(x, tail, k);
        if rest[k] != x {
          var j :| 0 <= j < |tail| && tail[j] == rest[k];
          assert s[j + 1] == rest[k];
        }
      }
      ConsDistinct(s[0], rest);
    }
  }

  /** Every row of an insertion is the new row or one of the old ones. */
  lemma RowOfInsert(x: Activity, s: seq<Activity>, k: nat)
    requires SortedDesc(s) && k < |Insert(x, s)|
    ensures Insert(x, s)[k] == x || Insert(x, s)[k] in s
  {
    var r := Insert(x, s);
    assert r[k] in multiset(r);
  }

  /** A row of a day the list lacks can go in front of it. */
  lemma ConsDistinct(a: Activity, t: seq<Activity>)
    requires DistinctDays(t)
    requires forall k :: 0 <= k < |t| ==> t[k].day != a.day
    ensures DistinctDays([a] + t)
  {
    var u := [a] + t;
    forall i, j | 0 <= i < j < |u|
      ensures u[i].day != u[j].day
    {
      if i > 0 {
        assert u[i] == t[i - 1] && u[j] == t[j - 1];
      } else {
        assert u[j] == t[j - 1];
      }
    }
  }

  /** The intended streak counts that run in full. */
  lemma YesterdayRun(data: seq<Activity>, today: int)
    requires |data| >= 1 && ConsecutiveFrom(data, today - 1)
    ensures Streak(data, today) == |data|
  {
    ConsecutiveSorted(data, today - 1);
    CountBackWhole(data, today - 1, 1);
  }

  /** The intended streak counts consecutive active days back from its
      starting day, and stops at the first gap. */
  lemma StreakIsRun(data: seq<Activity>, today: int)
    requires Streak(data, today) > 0
    ensures var s := SortDesc(data);
      var anchor := if s[0].day == today && s[0].minutes > 0 then today else today - 1;
      var k := Streak(data, today);
      && s[0].day == anchor
      && (forall j :: 1 <= j < k ==> s[j].day == anchor - j && s[j].minutes > 0)
      && (k < |s| ==> !(s[k].day == anchor - k && s[k].minutes > 0))
  {
  }

  // ---------------------------------------------------------------------
  // Goal and completion percentages
  // ---------------------------------------------------------------------

  /** `weekly_goal_hours || weekly_hours || 10`: a missing or zero goal
      falls back to the weekly hours, and a zero there to 10. */
  function GoalHours(goalHours: Option<nat>, weeklyHours: nat): (r: nat)
    ensures r > 0
    ensures goalHours.Some? && goalHours.value > 0 ==> r == goalHours.value
    ensures (goalHours.None? || goalHours.value == 0) && weeklyHours > 0 ==> r == weeklyHours
  {
    if goalHours.Some? && goalHours.value != 0 then goalHours.value
    else if weeklyHours != 0 then weeklyHours
    else 10
  }

  /** `getWeeklyGoalProgress`: rounded percentage of the goal, capped at 100. */
  function WeeklyGoalProgress(weeklyMinutes: nat, goalHours: Option<nat>, weeklyHours: nat): (r: nat)
    ensures r <= 100
    ensures weeklyMinutes == 0 ==> r == 0
  {
    var goal := GoalHours(goalHours, weeklyHours) * 60;
    var p := RoundedPercent(weeklyMinutes, goal);
    assert weeklyMinutes == 0 ==> p == 0 by {
      if weeklyMinutes == 0 {
        RoundedPercentBounds(0, goal);
      }
    }
    if p < 100 then p else 100
  }

  /** The bar is full exactly when the weekly minutes reach 99.5 percent of
      the goal. */
  lemma GoalReached(weeklyMinutes: nat, goalHours: Option<nat>, weeklyHours: nat)
    ensures var goal := GoalHours(goalHours, weeklyHours) * 60;
      WeeklyGoalProgress(weeklyMinutes, goalHours, weeklyHours) == 100 <==> 200 * weeklyMinutes >= 199 * goal
  {
    var goal := GoalHours(goalHours, weeklyHours) * 60;
    var p := RoundedPercent(weeklyMinutes, goal);
    var x := 200 * weeklyMinutes + goal;
    assert 2 * goal * p <= x < 2 * goal * (p + 1);
    if x >= 200 * goal {
      MulCancel(2 * goal, 99, p + 1);
    } else {
      MulCancel(2 * goal, p, 100);
    }
  }

  /** Learning more never lowers the weekly-goal progress. */
  lemma GoalProgressMonotone(m1: nat, m2: nat, goalHours: Option<nat>, weeklyHours: nat)
    requires m1 <= m2
    ensures WeeklyGoalProgress(m1, goalHours, weeklyHours) <= WeeklyGoalProgress(m2, goalHours, weeklyHours)
  {
    var goal := GoalHours(goalHours, weeklyHours) * 60;
    var p1 := RoundedPercent(m1, goal);
    var p2 := RoundedPercent(m2, goal);
    assert 2 * goal * p1 <= 200 * m1 + goal <= 200 * m2 + goal < 2 * goal * (p2 + 1);
    MulCancel(2 * goal, p1, p2 + 1);
  }

  /** The number of completed rows. */
  function CountCompleted(completed: seq<bool>): (r: nat)
    ensures r <= |completed|
    ensures r == |completed| <==> forall i :: 0 <= i < |completed| ==> completed[i]
    ensures r == 0 <==> forall i :: 0 <= i < |completed| ==> !completed[i]
  {
    if |completed| == 0 then 0
    else (if completed[0] then 1 else 0) + CountCompleted(completed[1..])
  }

  /** `getSkillCompletionRate` over the `completed` flags of the progress
      rows: 0 without rows, else the rounded percentage of completed rows. */
  function CompletionRate(completed: seq<bool>): (r: nat)
    ensures r <= 100
    ensures |completed| == 0 ==> r == 0
    ensures |completed| > 0 && (forall i :: 0 <= i < |completed| ==> completed[i]) ==> r == 100
    ensures (forall i :: 0 <= i < |completed| ==> !completed[i]) ==> r == 0
  {
    if |completed| == 0 then 0
    else
      RoundedPercentBounds(CountCompleted(completed), |completed|);
      RoundedPercent(CountCompleted(completed), |completed|)
  }

  // ---------------------------------------------------------------------
  // The seven-day chart
  // ---------------------------------------------------------------------

  datatype ChartPoint = ChartPoint(day: int, minutes: nat, skills: nat)

  /** The position `activities.find(a => a.date === day)` stops at. */
  function FindDay(xs: seq<Activity>, day: int): (r: Option<nat>)
    ensures r.None? <==> forall i :: 0 <= i < |xs| ==> xs[i].day != day
    ensures r.Some? ==> r.value < |xs| && xs[r.value].day == day
    ensures r.Some? ==> forall k :: 0 <= k < r.value ==> xs[k].day != day
  {
    if |xs| == 0 then None
    else if xs[0].day == day then Some(0)
    else match FindDay(xs[1..], day)
      case None => None
      case Some(i) => Some(i + 1)
  }

  /** The chart entry of one day: that day's figures, or zeros. */
  function PointOf(xs: seq<Activity>, day: int): (r: ChartPoint)
    ensures r.day == day
    ensures (forall i :: 0 <= i < |xs| ==> xs[i].day != day) ==> r.minutes == 0 && r.skills == 0
    ensures forall i :: (0 <= i < |xs| && xs[i].day == day && (forall j :: 0 <= j < i ==> xs[j].day != day))
                         ==> (r.minutes == xs[i].minutes && r.skills == xs[i].skills)
  {
    match FindDay(xs, day)
    case Some(i) => ChartPoint(day, xs[i].minutes, xs[i].skills)
    case None => ChartPoint(day, 0, 0)
  }

  /** With one row per day, a day's entry shows that row's figures, and a
      day without a row shows zeros. */
  lemma PointShowsRow(xs: seq<Activity>, j: nat)
    requires DistinctDays(xs) && j < |xs|
    ensures PointOf(xs, xs[j].day) == ChartPoint(xs[j].day, xs[j].minutes, xs[j].skills)
  {
    var i := FindDay(xs, xs[j].day).value;
    assert xs[i].day == xs[j].day;
    assert i == j;
  }

  /** `getChartData`: the seven days ending today, oldest first. */
  method ChartData(xs: seq<Activity>, today: int) returns (points: seq<ChartPoint>)
    ensures |points| == 7
    ensures forall k :: 0 <= k < 7 ==> points[k].day == today - 6 + k
    ensures forall k :: 0 <= k < 7 ==> points[k] == PointOf(xs, today - 6 + k)
  {
    points := [];
    var i := 6;
    while i >= 0
      invariant -1 <= i <= 6
      invariant |points| == 6 - i
      invariant forall k :: 0 <= k < |points| ==> points[k] == PointOf(xs, today - 6 + k)
    {
      points := points + [PointOf(xs, today - i)];
      i := i - 1;
    }
  }

  // ---------------------------------------------------------------------
  // Time format
  // ---------------------------------------------------------------------

  /** `formatTime`: "45m", "2h" or "2h 5m". */
  function FormatTime(minutes: nat): (r: string)
    ensures minutes < 60 ==> r == NatToString(minutes) + "m"
    ensures minutes >= 60 && minutes % 60 == 0 ==> r == NatToString(minutes / 60) + "h"
  {
    var hours := minutes / 60;
    var mins := minutes % 60;
    if hours == 0 then NatToString(mins) + "m"
    else if mins > 0 then NatToString(hours) + "h " + NatToString(mins) + "m"
    else NatToString(hours) + "h"
  }

  /** Reads a formatted time back: hours before an `h`, minutes before a
      trailing `m`. */
  function ParseTime(s: string): nat {
    match FirstIndex(s, 'h')
    case None => if |s| == 0 then 0 else ParseNat(s[..|s| - 1])
    case Some(k) => 60 * ParseNat(s[..k]) + (if k + 2 < |s| then ParseNat(s[k + 2..|s| - 1]) else 0)
  }

  lemma DigitsHaveNoH(d: string)
    requires forall i :: 0 <= i < |d| ==> IsDigit(d[i])
    ensures FirstIndex(d, 'h').None?
  {
    forall i | 0 <= i < |d|
      ensures d[i] != 'h'
    {
      assert IsDigit(d[i]);
    }
  }

  /** The formatted time shows the minutes it was given. */
  lemma ParseFormatTime(minutes: nat)
    ensures ParseTime(FormatTime(minutes)) == minutes
  {
    var hours := minutes / 60;
    var mins := minutes % 60;
    var s := FormatTime(minutes);
    if hours == 0 {
      var d := NatToString(mins);
      DigitsHaveNoH(d);
      assert s == d + "m";
      assert FirstIndex(s, 'h').None?;
      assert s[..|s| - 1] == d;
      ParseNatToString(mins);
    } else {
      var h := NatToString(hours);
      DigitsHaveNoH(h);
      var k := |h|;
      assert s[k] == 'h';
      assert forall i :: 0 <= i < k ==> s[i] == h[i];
      assert FirstIndex(s, 'h') == Some(k);
      assert s[..k] == h;
      ParseNatToString(hours);
      if mins > 0 {
        var m := NatToString(mins);
        assert s == h + "h " + m + "m";
        assert s[k + 2..|s| - 1] == m;
        ParseNatToString(mins);
      } else {
        assert |s| == k + 1;
      }
    }
  }
}
