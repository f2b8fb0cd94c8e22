/**
 The daily housekeeping schedule: a window every day, checked by ticks at arbitrary times.

 Times are microseconds since the start of day 0, the first of January of the year 1, in UTC.
 */
module Housekeeping {
  import opened Selections

  const DAY: nat := 86_400_000_000
  const MINUTE: nat := 60_000_000

  /* --------------------------------------------------------- the calendar */

  datatype Date = Date(year: nat, month: nat, day: nat)

  predicate IsLeap(year: nat)
  {
    year % 4 == 0 && (year % 100 != 0 || year % 400 == 0)
  }

  function DaysIn(month: nat, year: nat): nat
  {
    if month == 2 then (if IsLeap(year) then 29 else 28)
    else if month in {4, 6, 9, 11} then 30 else 31
  }

  function NextDay(d: Date): Date
  {
    if d.day < DaysIn(d.month, d.year) then d.(day := d.day + 1)
    else if d.month < 12 then Date(d.year, d.month + 1, 1)
    else Date(d.year + 1, 1, 1)
  }

  predicate ProperDate(d: Date)
  {
    1 <= d.month <= 12 && 1 <= d.day <= DaysIn(d.month, d.year)
  }

  /** The date of the `n`-th day. */
  function DateOf(n: nat): (d: Date)
    ensures ProperDate(d)
  {
    if n == 0 then Date(1, 1, 1) else NextDay(DateOf(n - 1))
  }

  function DayOf(time: nat): nat
  {
    time / DAY
  }

  /** `_housekeeping_id`: the date as the number YYYYMMDD. */
  function HousekeepingId(time: nat): nat
  {
    IdOf(DateOf(DayOf(time)))
  }

  function IdOf(d: Date): nat
  {
    d.year * 10000 + d.month * 100 + d.day
  }

  /** The digits of the id are year, month and day. */
  lemma IdDigits(n: nat)
    ensures var id, d := IdOf(DateOf(n)), DateOf(n);
            id / 10000 == d.year && id / 100 % 100 == d.month && id % 100 == d.day
  {
    var d := DateOf(n);
    DaysAreFew(d);
    SplitHundreds(d.year * 100 + d.month, d.day);
    SplitHundreds(d.year, d.month);
    assert IdOf(d) == 100 * (d.year * 100 + d.month) + d.day;
  }

  lemma DaysAreFew(d: Date)
    requires ProperDate(d)
    ensures d.month < 100 && d.day < 100
  {
  }

  lemma SplitHundreds(a: nat, b: nat)
    requires b < 100
    ensures (100 * a + b) / 100 == a && (100 * a + b) % 100 == b
  {
  }

  /** Leap days of the years 1 to `year`, by the Gregorian rule. */
  function LeapDays(year: nat): int
  {
    year / 4 - year / 100 + year / 400
  }

  /** The days of a common year before each month, and of the whole year. */
  const BEFORE_MONTH: seq<nat> := [0, 31, 59, 90, 120, 151, 181, 212, 243, 273, 304, 334, 365]

  /** The days of the years before. */
  function YearStart(year: nat): int
    requires year >= 1
  {
    365 * (year - 1) + LeapDays(year - 1)
  }

  /** The days of the year before the month, the thirteenth being the next January. */
  function MonthStart(year: nat, month: nat): int
    requires year >= 1 && 1 <= month <= 13
  {
    BEFORE_MONTH[month - 1] + if month > 2 then LeapDays(year) - LeapDays(year - 1) else 0
  }

  /** The number of a date, counted from the first of January of the year 1. */
  function DayNumber(d: Date): int
    requires d.year >= 1 && 1 <= d.month <= 12 && d.day >= 1
  {
    YearStart(d.year) + MonthStart(d.year, d.month) + d.day - 1
  }

  lemma LeapYear(year: nat)
    requires year >= 1
    ensures LeapDays(year) - LeapDays(year - 1) == if IsLeap(year) then 1 else 0
  {
    QuotientGrows(year / 4, year % 4, 4);
    QuotientGrows(year / 100, year % 100, 100);
    QuotientGrows(year / 400, year % 400, 400);
    if year % 400 == 0 { NoRemainder(4 * (year / 400), 100); }
    if year % 100 == 0 { NoRemainder(25 * (year / 100), 4); }
  }

  lemma QuotientGrows(q: nat, r: nat, m: nat)
    requires m in {4, 100, 400} && r < m
    ensures m * q + r > 0 ==> (m * q + r) / m - (m * q + r - 1) / m == if r == 0 then 1 else 0
  {
  }

  lemma NoRemainder(q: nat, m: nat)
    requires m in {4, 100}
    ensures (m * q) % m == 0
  {
  }

  lemma MonthLength(year: nat, month: nat)
    requires year >= 1 && 1 <= month <= 12
    ensures DaysIn(month, year) == MonthStart(year, month + 1) - MonthStart(year, month)
  {
    LeapYear(year);
  }

  lemma YearLength(year: nat)
    requires year >= 1
    ensures YearStart(year + 1) == YearStart(year) + MonthStart(year, 13) && MonthStart(year + 1, 1) == 0
  {
  }

  lemma NextDayNumber(d: Date)
    requires d.year >= 1 && ProperDate(d)
    ensures NextDay(d).year >= 1 && DayNumber(NextDay(d)) == DayNumber(d) + 1
  {
    MonthLength(d.year, d.month);
    YearLength(d.year);
  }

  /** The calendar is the Gregorian one. */
  lemma {:induction false} CalendarIsGregorian(n: nat)
    ensures var d := DateOf(n);
            && d.year >= 1 && 1 <= d.month <= 12 && DayNumber(d) == n
            && 1 <= d.day <= MonthStart(d.year, d.month + 1) - MonthStart(d.year, d.month)
  {
    if n > 0 {
      CalendarIsGregorian(n - 1);
      NextDayNumber(DateOf(n - 1));
    }
    MonthLength(DateOf(n).year, DateOf(n).month);
  }

  /** The number YYYYMMDD grows with every day, over months, leap years and years. */
  lemma {:induction false} IdsGrow(i: nat, j: nat)
    requires i < j
    ensures IdOf(DateOf(i)) < IdOf(DateOf(j))
  {
    if i + 1 < j { IdsGrow(i, j - 1); }
  }

  lemma IdsFollowTime(s: nat, t: nat)
    ensures s <= t ==> HousekeepingId(s) <= HousekeepingId(t)
    ensures HousekeepingId(s) == HousekeepingId(t) <==> DayOf(s) == DayOf(t)
  {
    if DayOf(s) < DayOf(t) { IdsGrow(DayOf(s), DayOf(t)); }
    if DayOf(t) < DayOf(s) { IdsGrow(DayOf(t), DayOf(s)); }
  }

  /* --------------------------------------------------------- the schedule */

  /** `[housekeeping] at` and `limit`, in minutes of the day. */
  datatype Config = Config(at: nat, limit: nat)
  {
    predicate Valid()
    {
      at < 1440 && limit < 1440
    }
  }

  datatype Schedule = Schedule(time: nat, limit: nat, id: nat, missed: seq<nat>)

  /** The time of the day `at` that comes first, `now` included. */
  predicate IsFirstAt(cfg: Config, now: nat, time: nat)
  {
    now <= time < now + DAY && time % DAY == cfg.at * MINUTE
  }

  class Application {
    var housekeepingTime: nat
    var housekeepingTimeLimit: nat
    var housekeepingId: nat
    var housekeepingMissedEvents: seq<nat>

    function AsSchedule(): Schedule
      reads this
    {
      Schedule(housekeepingTime, housekeepingTimeLimit, housekeepingId, housekeepingMissedEvents)
    }

    constructor (cfg: Config, now: nat)
      requires cfg.Valid()
      ensures AsSchedule() == Initial(cfg, now)
    {
      var time, limit, id := InitializeHousekeepingSchedule(cfg, now);
      housekeepingTime, housekeepingTimeLimit, housekeepingId := time, limit, id;
      housekeepingMissedEvents := [];
    }

    method OnHousekeepingTick(now: nat) returns (published: bool)
      modifies this
      ensures AsSchedule() == Tick(old(AsSchedule()), now).0
      ensures published <==> Tick(old(AsSchedule()), now).1 == Executed
    {
      published := false;
      var todayId := HousekeepingId(now);
      if housekeepingTime < now {
        if now < housekeepingTimeLimit && housekeepingId <= todayId {
          published := true;
        } else {
          housekeepingMissedEvents := housekeepingMissedEvents + [todayId];
        }
        housekeepingTime := housekeepingTime + DAY;
        housekeepingTimeLimit := housekeepingTimeLimit + DAY;
        housekeepingId := HousekeepingId(housekeepingTime);
      }
    }
  }

  /** The first window starts at the first time `at` from now on, and is shorter than a day. */
  method InitializeHousekeepingSchedule(cfg: Config, now: nat) returns (time: nat, limit: nat, id: nat)
    requires cfg.Valid()
    ensures IsFirstAt(cfg, now, time) && 0 <= limit - time < DAY && limit % DAY == cfg.limit * MINUTE
    ensures Schedule(time, limit, id, []) == Initial(cfg, now)
  {
    time := now - now % DAY + cfg.at * MINUTE;
    if now > time {
      time := time + DAY;
    }
    var delta := (cfg.limit - cfg.at) * MINUTE;
    if delta < 0 {
      delta := delta + DAY;
    }
    limit := time + delta;
    id := HousekeepingId(now);
    FirstWindow(cfg, now);
  }

  function FirstTime(cfg: Config, now: nat): nat
    requires cfg.Valid()
  {
    var today := now - now % DAY + cfg.at * MINUTE;
    if now > today then today + DAY else today
  }

  function WindowLength(cfg: Config): nat
    requires cfg.Valid()
  {
    if cfg.limit < cfg.at then (cfg.limit - cfg.at) * MINUTE + DAY else (cfg.limit - cfg.at) * MINUTE
  }

  function Initial(cfg: Config, now: nat): Schedule
    requires cfg.Valid()
  {
    Schedule(FirstTime(cfg, now), FirstTime(cfg, now) + WindowLength(cfg), HousekeepingId(now), [])
  }

  lemma FirstWindow(cfg: Config, now: nat)
    requires cfg.Valid()
    ensures IsFirstAt(cfg, now, FirstTime(cfg, now))
    ensures WindowLength(cfg) < DAY && (FirstTime(cfg, now) + WindowLength(cfg)) % DAY == cfg.limit * MINUTE
  {
  }

  datatype Outcome = Early | Executed | Missed

  function Tick(s: Schedule, now: nat): (Schedule, Outcome)
  {
    if now <= s.time then (s, Early)
    else
      var runs := now < s.limit && s.id <= HousekeepingId(now);
      (Schedule(s.time + DAY, s.limit + DAY, HousekeepingId(s.time + DAY),
                if runs then s.missed else s.missed + [HousekeepingId(now)]),
       if runs then Executed else Missed)
  }

  /* -------------------------------------------------------------- the runs */

  /** A scheduled day that a tick settled, and how. */
  datatype Settled = Settled(at: nat, outcome: Outcome)

  datatype Run = Run(schedule: Schedule, settled: seq<Settled>)

  function RunTicks(cfg: Config, start: nat, ticks: seq<nat>): Run
    requires cfg.Valid()
  {
    if ticks == [] then Run(Initial(cfg, start), [])
    else AfterTick(RunTicks(cfg, start, ticks[..|ticks| - 1]), ticks[|ticks| - 1])
  }

  /** The start and the end of the `k`-th window. */
  function Opens(cfg: Config, start: nat, k: nat): nat
    requires cfg.Valid()
  {
    FirstTime(cfg, start) + k * DAY
  }

  function Closes(cfg: Config, start: nat, k: nat): nat
    requires cfg.Valid()
  {
    Opens(cfg, start, k) + WindowLength(cfg)
  }

  /** The `k`-th settlement is the one of the `k`-th day: after its opening, executed exactly within its window. */
  predicate SettledRight(cfg: Config, start: nat, k: nat, e: Settled)
    requires cfg.Valid()
  {
    e.at > Opens(cfg, start, k) && e.outcome == if e.at < Closes(cfg, start, k) then Executed else Missed
  }

  /** All days so far are settled right, and the schedule stands at the next one. */
  predicate OnSchedule(cfg: Config, start: nat, r: Run)
    requires cfg.Valid()
  {
    var n := |r.settled|;
    && (forall k :: 0 <= k < n ==> SettledRight(cfg, start, k, r.settled[k]))
    && r.schedule.time == Opens(cfg, start, n) && r.schedule.limit == Closes(cfg, start, n)
    && r.schedule.id == HousekeepingId(if n == 0 then start else r.schedule.time)
    && r.schedule.missed == MissedIds(r.settled)
  }

  /** The days of the ticks that settled a day as missed. */
  function MissedIds(settled: seq<Settled>): seq<nat>
  {
    if settled == [] then []
    else
      var before, last := MissedIds(settled[..|settled| - 1]), settled[|settled| - 1];
      if last.outcome == Missed then before + [HousekeepingId(last.at)] else before
  }

  ghost function MissedAt(settled: seq<Settled>): set<nat>
  {
    set k: nat | k < |settled| && settled[k].outcome == Missed
  }

  /** The ids are those of the ticks at the positions `ks`. */
  ghost predicate IdsAt(settled: seq<Settled>, ks: seq<nat>, ids: seq<nat>)
  {
    |ids| == |ks| && forall i :: 0 <= i < |ks| ==> ks[i] < |settled| && ids[i] == HousekeepingId(settled[ks[i]].at)
  }

  lemma MissedNext(front: seq<Settled>, last: Settled)
    ensures MissedAt(front + [last]) == if last.outcome == Missed then MissedAt(front) + {|front|} else MissedAt(front)
  {
    forall k: nat
      ensures k in MissedAt(front + [last]) <==> k in MissedAt(front) || (k == |front| && last.outcome == Missed)
    {
      if k < |front| { assert (front + [last])[k] == front[k]; }
    }
  }

  /** The ids are those of the ticks that settled the missed days, in order. */
  lemma {:induction false} MissedIdsExactly(settled: seq<Settled>) returns (ks: seq<nat>)
    ensures Enumerates(ks, MissedAt(settled)) && IdsAt(settled, ks, MissedIds(settled))
  {
    if settled == [] {
      ks := [];
    } else {
      var front, last := settled[..|settled| - 1], settled[|settled| - 1];
      ks := MissedIdsExactly(front);
      assert settled == front + [last];
      MissedNext(front, last);
      if last.outcome == Missed {
        EnumeratesNext(ks, MissedAt(front), |front|);
        ks := ks + [|front|];
      }
    }
  }

  function AfterTick(r: Run, now: nat): Run
  {
    var (s, outcome) := Tick(r.schedule, now);
    Run(s, if outcome == Early then r.settled else r.settled + [Settled(now, outcome)])
  }

  lemma NextWindow(cfg: Config, start: nat, k: nat)
    requires cfg.Valid()
    ensures Opens(cfg, start, k + 1) == Opens(cfg, start, k) + DAY &&
            Closes(cfg, start, k + 1) == Closes(cfg, start, k) + DAY
  {
  }

  /** The id guard rejects no tick after the opening. */
  lemma GuardHolds(cfg: Config, start: nat, r: Run, now: nat)
    requires cfg.Valid() && OnSchedule(cfg, start, r) && r.schedule.time < now
    ensures r.schedule.id <= HousekeepingId(now)
  {
    FirstWindow(cfg, start);
    IdsFollowTime(r.schedule.time, now);
    IdsFollowTime(start, now);
  }

  lemma TickStaysOnSchedule(cfg: Config, start: nat, r: Run, now: nat)
    requires cfg.Valid() && OnSchedule(cfg, start, r)
    ensures OnSchedule(cfg, start, AfterTick(r, now))
  {
    if r.schedule.time < now {
      GuardHolds(cfg, start, r, now);
      NextWindow(cfg, start, |r.settled|);
      var settled := AfterTick(r, now).settled;
      assert SettledRight(cfg, start, |r.settled|, settled[|r.settled|]);
      assert settled[..|settled| - 1] == r.settled;
    }
  }

  /**
   Whatever the tick times: the days are settled one after another, each exactly once and never before its
   opening, the window keeps its length, and the id guard rejects no tick that the window accepts.
   */
  lemma {:induction false} EveryDayOnce(cfg: Config, start: nat, ticks: seq<nat>)
    requires cfg.Valid()
    ensures OnSchedule(cfg, start, RunTicks(cfg, start, ticks))
  {
    if ticks == [] {
      FirstWindow(cfg, start);
      IdsFollowTime(start, FirstTime(cfg, start));
    } else {
      EveryDayOnce(cfg, start, ticks[..|ticks| - 1]);
      TickStaysOnSchedule(cfg, start, RunTicks(cfg, start, ticks[..|ticks| - 1]), ticks[|ticks| - 1]);
    }
  }

  /** A published housekeeping falls into its own window and into no other. */
  lemma OnePublishPerWindow(cfg: Config, start: nat, ticks: seq<nat>, k: nat, w: nat)
    requires cfg.Valid()
    requires k < |RunTicks(cfg, start, ticks).settled| && RunTicks(cfg, start, ticks).settled[k].outcome == Executed
    ensures Opens(cfg, start, w) < RunTicks(cfg, start, ticks).settled[k].at < Closes(cfg, start, w) <==> w == k
  {
    EveryDayOnce(cfg, start, ticks);
    FirstWindow(cfg, start);
    var e := RunTicks(cfg, start, ticks).settled[k];
    assert SettledRight(cfg, start, k, e);
    if w < k { assert (k - w) * DAY >= DAY; }
    if k < w { assert (w - k) * DAY >= DAY; }
  }

  /** After `now`, when day `k` has opened, every tick settles one more day until day `k` is settled. */
  lemma {:induction false} CatchesUp(cfg: Config, start: nat, ticks: seq<nat>, more: seq<nat>, now: nat, k: nat)
    requires cfg.Valid() && Opens(cfg, start, k) < now && forall i :: 0 <= i < |more| ==> more[i] >= now
    ensures |RunTicks(cfg, start, ticks + more).settled| >= if |more| > k then k + 1 else |more|
  {
    if more != [] {
      var front := more[..|more| - 1];
      assert (ticks + more)[..|ticks + more| - 1] == ticks + front;
      CatchesUp(cfg, start, ticks, front, now, k);
      EveryDayOnce(cfg, start, ticks + front);
      var n := |RunTicks(cfg, start, ticks + front).settled|;
      if n <= k { assert n * DAY <= k * DAY; }
    }
  }

  /** With equal `at` and `limit` the window is empty: every day is missed. */
  lemma EmptyWindowNeverRuns(cfg: Config, start: nat, ticks: seq<nat>)
    requires cfg.Valid() && cfg.at == cfg.limit
    ensures var settled := RunTicks(cfg, start, ticks).settled;
            forall k :: 0 <= k < |settled| ==> settled[k].outcome == Missed
  {
    EveryDayOnce(cfg, start, ticks);
    var settled := RunTicks(cfg, start, ticks).settled;
    forall k | 0 <= k < |settled| ensures settled[k].outcome == Missed {
      assert SettledRight(cfg, start, k, settled[k]);
    }
  }

  /**
   Over every run the list of missed events holds, for each missed day, the day of the tick that settled it,
   which is the missed day exactly when that tick still falls on it.
   */
  lemma MissedIsTheTicksDay(cfg: Config, start: nat, ticks: seq<nat>)
    requires cfg.Valid()
    ensures var r := RunTicks(cfg, start, ticks);
            && r.schedule.missed == MissedIds(r.settled)
            && forall k :: 0 <= k < |r.settled| ==>
                 (HousekeepingId(r.settled[k].at) == HousekeepingId(Opens(cfg, start, k)) <==>
                  DayOf(r.settled[k].at) == DayOf(Opens(cfg, start, k)))
  {
    EveryDayOnce(cfg, start, ticks);
    var r := RunTicks(cfg, start, ticks);
    forall k | 0 <= k < |r.settled|
      ensures HousekeepingId(r.settled[k].at) == HousekeepingId(Opens(cfg, start, k)) <==>
              DayOf(r.settled[k].at) == DayOf(Opens(cfg, start, k))
    {
      IdsFollowTime(r.settled[k].at, Opens(cfg, start, k));
    }
  }

  /** A tick two days late records its own day for the day that was missed, whatever the configuration. */
  lemma WrongDayIsRecordedHappens(cfg: Config, start: nat)
    requires cfg.Valid()
    ensures var now := Opens(cfg, start, 0) + 2 * DAY;
            RunTicks(cfg, start, [now]).schedule.missed == [HousekeepingId(now)] &&
            HousekeepingId(now) != HousekeepingId(Opens(cfg, start, 0))
  {
    var now := Opens(cfg, start, 0) + 2 * DAY;
    FirstWindow(cfg, start);
    assert [now][..0] == [];
    IdsFollowTime(now, Opens(cfg, start, 0));
  }
}
