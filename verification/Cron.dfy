/** pkg/controller/crontrigger/crontrigger_controller.go: which schedule time is due, and when to look again.
    Times and durations are nanoseconds. */
module Cron {
  import opened Common

  const SECOND: int := 1_000_000_000
  const NEXT_SCHEDULE_DELTA: int := 100_000_000

  /** A cron.Schedule: the next activation time after the given one. */
  type Next = int -> int

  /** Go's integer division. */
  function Trunc(a: int, b: int): int
    requires b > 0
  {
    if a >= 0 then a / b else -((-a) / b)
  }

  /** Duration.Round(time.Second): halves away from zero. */
  function Round(d: int): int {
    if d >= 0 then (d + SECOND / 2) / SECOND * SECOND else -((-d + SECOND / 2) / SECOND * SECOND)
  }

  function Unix(t: int): int { t / SECOND }

  datatype Recent = NoneDue | Due(t: int, missed: int) | Invalid

  /** getMostRecentScheduleTime. */
  function MostRecent(earliest: int, now: int, next: Next): Recent {
    var t1 := next(earliest);
    var t2 := next(t1);
    if now < t1 then NoneDue
    else if now < t2 then Due(t1, 1)
    else
      var between := Trunc(Round(t2 - t1), SECOND);
      if between < 1 then Invalid
      else
        var missed := Trunc(Trunc(now - t1, SECOND), between) + 1;
        Due((Unix(t1) + (missed - 1) * between) * SECOND, missed)
  }

  /** What of a workflow matters here. */
  datatype Workflow = Workflow(creation: int, lastTrigger: Option<int>, startingDeadlineSeconds: Option<int>)

  function LastKnown(cj: Workflow): int {
    if cj.lastTrigger.Some? then cj.lastTrigger.value else cj.creation
  }

  function Earliest(cj: Workflow, now: int): int {
    var e := LastKnown(cj);
    if cj.startingDeadlineSeconds.Some? && now - SECOND * cj.startingDeadlineSeconds.value > e
    then now - SECOND * cj.startingDeadlineSeconds.value else e
  }

  /** getNextScheduleTime. */
  function NextScheduleTime(cj: Workflow, now: int, next: Next): Recent {
    if Earliest(cj, now) > now then NoneDue else MostRecent(Earliest(cj, now), now, next)
  }

  /** nextScheduledTimeDuration. */
  function RequeueAfter(cj: Workflow, next: Next, now: int): int {
    var recent := match MostRecent(LastKnown(cj), now, next)
                  case Invalid => now
                  case NoneDue => LastKnown(cj)
                  case Due(t, _) => t;
    next(recent) + NEXT_SCHEDULE_DELTA - now
  }

  datatype Action = InvalidSchedule | NoUnmetTime | Missed(t: int) | AlreadyProcessed(t: int) | Start(t: int)

  /** The trigger part of syncCronJob. */
  function Sync(cj: Workflow, now: int, next: Next): Action {
    match NextScheduleTime(cj, now, next)
    case Invalid => InvalidSchedule
    case NoneDue => NoUnmetTime
    case Due(t, _) =>
      if cj.startingDeadlineSeconds.Some? && t + SECOND * cj.startingDeadlineSeconds.value < now then Missed(t)
      else if cj.lastTrigger == Some(t) then AlreadyProcessed(t)
      else Start(t)
  }

  /** getTimeHashInMinutes, which names the job. */
  function JobHash(t: int): int { Trunc(Unix(t), 60) }

  // ---- Specification ---------------------------------------------------------------------------------

  /** The library's promise: strictly later, on whole seconds. */
  ghost predicate Schedule(next: Next) {
    forall t :: t < next(t) && next(t) % SECOND == 0
  }

  /** The schedule times after a moment, in order. */
  function Times(next: Next, earliest: int, k: nat): int {
    if k == 0 then next(earliest) else next(Times(next, earliest, k - 1))
  }

  /** t is the latest of the schedule times not after now, and there are n of them. */
  ghost predicate Latest(next: Next, earliest: int, now: int, t: int, n: int) {
    n >= 1 && t == Times(next, earliest, n - 1) && t <= now < Times(next, earliest, n)
  }

  ghost predicate ConstantPeriod(next: Next, earliest: int, period: int) {
    forall k: nat :: Times(next, earliest, k) == next(earliest) + k * period
  }

  // ---- Arithmetic ------------------------------------------------------------------------------------

  lemma Monotone(a: int, b: int, p: int)
    requires p > 0
    ensures a <= b ==> a * p <= b * p
    ensures a < b ==> a * p + p <= b * p
  {
    if a < b {
      Distribute(a, b, p);
      NotNegativeProduct(b - a - 1, p);
      Distribute(1, b - a, p);
    }
  }

  lemma Distribute(a: int, b: int, p: int)
    ensures (b - a) * p == b * p - a * p
  {
  }

  lemma NotNegativeProduct(a: int, p: int)
    requires a >= 0 && p >= 0
    ensures a * p >= 0
  {
  }

  lemma DivBounds(a: int, p: int)
    requires p > 0
    ensures a / p * p <= a < a / p * p + p
  {
  }

  lemma DivUnique(a: int, p: int, q: int)
    requires p > 0 && q * p <= a < q * p + p
    ensures a / p == q
  {
    DivBounds(a, p);
    Monotone(a / p, q, p);
    Monotone(q, a / p, p);
  }

  function Floor(t1: int, gap: int, now: int): Recent
    requires gap > 0
  {
    if now < t1 then NoneDue else Due(t1 + (now - t1) / gap * gap, (now - t1) / gap + 1)
  }

  lemma Residue(a: int, q: int, p: int, r: int)
    requires p > 0 && 0 <= r < p && a == q * p + r
    ensures a % p == r && a / p == q
  {
    DivUnique(a, p, q);
  }

  lemma Divided(a: int, p: int)
    requires p > 0 && a % p == 0
    ensures a == a / p * p
  {
  }

  /** On whole seconds the three conversions lose nothing, and the choice is a floor division by the
      first gap, in whole seconds. */
  lemma MostRecentIsFloor(earliest: int, now: int, next: Next)
    requires Schedule(next)
    ensures next(next(earliest)) - next(earliest) >= SECOND
    ensures MostRecent(earliest, now, next) == Floor(next(earliest), next(next(earliest)) - next(earliest), now)
  {
    var t1 := next(earliest);
    var t2 := next(t1);
    var gap := t2 - t1;
    WholeGap(t1, t2);
    if t1 <= now {
      var q := (now - t1) / gap;
      DivBounds(now - t1, gap);
      if now < t2 {
        DivUnique(now - t1, gap, 0);
      } else {
        hide Trunc, Round;
        FloorOfFloor(now - t1, gap / SECOND, q);
        Assoc(Unix(t1), q, gap / SECOND);
      }
    }
  }

  lemma WholeGap(t1: int, t2: int)
    requires t1 % SECOND == 0 && t2 % SECOND == 0 && t1 < t2
    ensures t2 - t1 >= SECOND && t2 - t1 == (t2 - t1) / SECOND * SECOND && Unix(t1) * SECOND == t1
    ensures Trunc(Round(t2 - t1), SECOND) == (t2 - t1) / SECOND
  {
  }

  lemma Assoc(u: int, q: int, between: int)
    ensures (u + q * between) * SECOND == u * SECOND + q * (between * SECOND)
  {
  }

  /** Dividing the whole seconds elapsed gives the same as dividing the time elapsed. */
  lemma FloorOfFloor(a: int, between: int, q: int)
    requires a >= 0 && between >= 1 && q * (between * SECOND) <= a < q * (between * SECOND) + between * SECOND
    ensures Trunc(Trunc(a, SECOND), between) == q
  {
    var s := a / SECOND;
    Assoc(0, q, between);
    assert (q * between) * SECOND <= a < (q * between + between) * SECOND;
    assert q * between <= s < q * between + between by {
      DivBounds(a, SECOND);
      Monotone(s, q * between, SECOND);
      Monotone(q * between + between, s, SECOND);
    }
    DivUnique(s, between, q);
  }

  // ---- Every schedule --------------------------------------------------------------------------------

  /** The time chosen lies in (earliest, now], less than the first gap before now, and there is one
      exactly when a schedule time has passed; the error for a zero gap is never taken. */
  lemma ChosenInTime(earliest: int, now: int, next: Next)
    requires Schedule(next)
    ensures var r, t1 := MostRecent(earliest, now, next), next(earliest);
            && !r.Invalid?
            && (r.Due? <==> t1 <= now)
            && (r.Due? ==> earliest < t1 <= r.t <= now < r.t + (next(t1) - t1) && r.t % SECOND == 0 && r.missed >= 1)
  {
    MostRecentIsFloor(earliest, now, next);
    hide MostRecent;
    var t1 := next(earliest);
    if t1 <= now {
      FloorBounds(t1, next(t1), now);
    }
  }

  lemma FloorBounds(t1: int, t2: int, now: int)
    requires t1 % SECOND == 0 && t2 % SECOND == 0 && t1 < t2 && t1 <= now
    ensures var r := Floor(t1, t2 - t1, now);
            && r.Due? && t1 <= r.t <= now < r.t + (t2 - t1) && r.t % SECOND == 0 && r.missed >= 1
  {
    var gap := t2 - t1;
    var q := (now - t1) / gap;
    WholeGap(t1, t2);
    DivBounds(now - t1, gap);
    NotNegative(now - t1, gap);
    NotNegativeProduct(q, gap);
    WholeSeconds(t1, q, gap / SECOND);
  }

  lemma NotNegative(a: int, p: int)
    requires a >= 0 && p > 0
    ensures a / p >= 0
  {
  }

  lemma WholeSeconds(t1: int, q: int, between: int)
    requires t1 % SECOND == 0
    ensures (t1 + q * (between * SECOND)) % SECOND == 0
  {
    Assoc(Unix(t1), q, between);
    Divided(t1, SECOND);
    Residue(t1 + q * (between * SECOND), Unix(t1) + q * between, SECOND, 0);
  }

  /** A sync starts a job for a time after the last one, no later than now and within the deadline; it
      never reports a missed or an already processed time, nor an invalid schedule. */
  lemma SyncInTime(cj: Workflow, now: int, next: Next)
    requires Schedule(next)
    ensures var a := Sync(cj, now, next);
            && (a.Start? || a.NoUnmetTime?)
            && (a.Start? ==>
                 && LastKnown(cj) < a.t <= now
                 && (cj.startingDeadlineSeconds.Some? ==> now < a.t + SECOND * cj.startingDeadlineSeconds.value))
  {
    ChosenInTime(Earliest(cj, now), now, next);
  }

  /** The moment after which a schedule time counts: the last trigger, or else the creation, unless the
      deadline reaches back less far. */
  ghost predicate CountsFrom(cj: Workflow, now: int, e: int) {
    var last := if cj.lastTrigger.Some? then cj.lastTrigger.value else cj.creation;
    && last <= e
    && match cj.startingDeadlineSeconds
       case None => e == last
       case Some(d) => now - d * SECOND <= e && (e == last || e == now - d * SECOND)
  }

  /** A job is started if and only if a schedule time after that moment has come. */
  lemma SyncStartsIff(cj: Workflow, now: int, next: Next, e: int)
    requires Schedule(next) && CountsFrom(cj, now, e)
    ensures Sync(cj, now, next).Start? <==> next(e) <= now
  {
    assert e == Earliest(cj, now);
    hide MostRecent;
    ChosenInTime(e, now, next);
  }

  /** With a constant period it is started for the latest of them. */
  lemma SyncStartsLatest(cj: Workflow, now: int, next: Next, e: int, period: int) returns (n: nat)
    requires Schedule(next) && CountsFrom(cj, now, e) && ConstantPeriod(next, e, period) && next(e) <= now
    ensures Sync(cj, now, next).Start? && Latest(next, e, now, Sync(cj, now, next).t, n)
  {
    assert e == Earliest(cj, now);
    hide MostRecent;
    ChosenInTime(e, now, next);
    ConstantIsLatest(next, e, now, period);
    n := MostRecent(e, now, next).missed;
  }

  // ---- Runs ------------------------------------------------------------------------------------------

  function Record(cj: Workflow, a: Action): Workflow {
    if a.Start? then cj.(lastTrigger := Some(a.t)) else cj
  }

  /** The workflow after syncs at these clock readings, which need not be in order. */
  function After(cj: Workflow, clock: seq<int>, next: Next): Workflow {
    if clock == [] then cj
    else var w := After(cj, clock[..|clock| - 1], next); Record(w, Sync(w, clock[|clock| - 1], next))
  }

  function Started(cj: Workflow, clock: seq<int>, next: Next): seq<int> {
    if clock == [] then []
    else
      var a := Sync(After(cj, clock[..|clock| - 1], next), clock[|clock| - 1], next);
      Started(cj, clock[..|clock| - 1], next) + (if a.Start? then [a.t] else [])
  }

  ghost predicate IncreasingWithin(ts: seq<int>, lo: int, hi: int) {
    && (forall i, j :: 0 <= i < j < |ts| ==> ts[i] < ts[j])
    && (forall i :: 0 <= i < |ts| ==> lo < ts[i] <= hi)
  }

  lemma OneMoreTrigger(ts: seq<int>, lo: int, hi: int, t: int)
    requires IncreasingWithin(ts, lo, hi) && lo <= hi < t
    ensures IncreasingWithin(ts + [t], lo, t)
  {
  }

  /** Over every run, whatever the clock does, the trigger times strictly increase, all after the last
      one known at its start. */
  lemma {:induction false} TriggersIncrease(cj: Workflow, clock: seq<int>, next: Next)
    requires Schedule(next)
    ensures IncreasingWithin(Started(cj, clock, next), LastKnown(cj), LastKnown(After(cj, clock, next)))
    ensures LastKnown(cj) <= LastKnown(After(cj, clock, next))
  {
    hide Sync, IncreasingWithin;
    if clock == [] {
      assert IncreasingWithin([], LastKnown(cj), LastKnown(cj)) by { NoTriggers(LastKnown(cj)); }
    } else {
      var n := |clock| - 1;
      TriggersIncrease(cj, clock[..n], next);
      var w := After(cj, clock[..n], next);
      SyncInTime(w, clock[n], next);
      var a := Sync(w, clock[n], next);
      if a.Start? {
        OneMoreTrigger(Started(cj, clock[..n], next), LastKnown(cj), LastKnown(w), a.t);
      } else {
        assert Started(cj, clock[..n], next) + [] == Started(cj, clock[..n], next);
      }
    }
  }

  lemma NoTriggers(t: int)
    ensures IncreasingWithin([], t, t)
  {
  }

  // ---- Constant periods ------------------------------------------------------------------------------

  lemma {:induction false} TimesIncrease(next: Next, earliest: int, j: nat, k: nat)
    requires Schedule(next) && j < k
    ensures Times(next, earliest, j) < Times(next, earliest, k)
  {
    if j + 1 < k { TimesIncrease(next, earliest, j, k - 1); }
    assert Times(next, earliest, k) == next(Times(next, earliest, k - 1));
  }

  lemma ConstantIsLatest(next: Next, earliest: int, now: int, period: int)
    requires Schedule(next) && ConstantPeriod(next, earliest, period) && next(earliest) <= now
    ensures var r := MostRecent(earliest, now, next); r.Due? && Latest(next, earliest, now, r.t, r.missed)
  {
    MostRecentIsFloor(earliest, now, next);
    var t1 := next(earliest);
    assert Times(next, earliest, 1) == next(Times(next, earliest, 0));
    assert period == next(t1) - t1;
    DivBounds(now - t1, period);
    NotNegative(now - t1, period);
    var q: nat := (now - t1) / period;
    assert Times(next, earliest, q) == t1 + q * period;
    assert Times(next, earliest, q + 1) == t1 + (q + 1) * period;
  }

  /** The floor division finds the latest schedule time, and counts the due times exactly, at every
      moment, if and only if the schedule has a constant period. */
  lemma LatestAlwaysIffConstant(next: Next, earliest: int)
    requires Schedule(next)
    ensures (forall now :: next(earliest) <= now ==>
               var r := MostRecent(earliest, now, next); r.Due? && Latest(next, earliest, now, r.t, r.missed))
       <==> ConstantPeriod(next, earliest, next(next(earliest)) - next(earliest))
  {
    var t1 := next(earliest);
    var period := next(t1) - t1;
    if ConstantPeriod(next, earliest, period) {
      forall now | t1 <= now
        ensures var r := MostRecent(earliest, now, next); r.Due? && Latest(next, earliest, now, r.t, r.missed) {
        ConstantIsLatest(next, earliest, now, period);
      }
    }
    if forall now :: t1 <= now ==>
        var r := MostRecent(earliest, now, next); r.Due? && Latest(next, earliest, now, r.t, r.missed) {
      forall k: nat ensures Times(next, earliest, k) == t1 + k * period {
        LatestForcesTime(next, earliest, period, k);
      }
    }
  }

  lemma LatestForcesTime(next: Next, earliest: int, period: int, k: nat)
    requires Schedule(next) && period == next(next(earliest)) - next(earliest)
    requires forall now :: next(earliest) <= now ==>
               var r := MostRecent(earliest, now, next); r.Due? && Latest(next, earliest, now, r.t, r.missed)
    ensures Times(next, earliest, k) == next(earliest) + k * period
  {
    var t1 := next(earliest);
    var now := t1 + k * period;
    assert period >= 1;
    Monotone(0, k, period);
    MostRecentIsFloor(earliest, now, next);
    DivUnique(now - t1, period, k);
    assert MostRecent(earliest, now, next) == Due(t1 + k * period, k + 1);
  }

  const MINUTE: int := 60 * SECOND
  const HOUR: int := 60 * MINUTE

  /** The full hour before a moment. */
  function HourOf(t: int): int { t / HOUR * HOUR }

  /** The crontab line "0,1,3 * * * *". */
  function ThreeAnHour(t: int): int {
    var h := HourOf(t);
    if t < h + MINUTE then h + MINUTE
    else if t < h + 3 * MINUTE then h + 3 * MINUTE
    else h + HOUR
  }

  lemma ThreeAnHourTimes(t: int)
    ensures t < ThreeAnHour(t) && ThreeAnHour(t) % MINUTE == 0
    ensures ThreeAnHour(t) % HOUR == 0 || ThreeAnHour(t) % HOUR == MINUTE || ThreeAnHour(t) % HOUR == 3 * MINUTE
  {
    hide HourOf;
    var q := HourNumber(t);
    var (hour, minute) := if t < q * HOUR + MINUTE then (q, 1)
                          else if t < q * HOUR + 3 * MINUTE then (q, 3)
                          else (q + 1, 0);
    Residue(ThreeAnHour(t), hour, HOUR, minute * MINUTE);
    Residue(ThreeAnHour(t), 60 * hour + minute, MINUTE, 0);
  }

  lemma HourNumber(t: int) returns (q: int)
    ensures HourOf(t) == q * HOUR && q * HOUR <= t < q * HOUR + HOUR
  {
    q := t / HOUR;
    DivBounds(t, HOUR);
  }

  /** A workflow created at half past twelve with that line: at two past one it is given a job for two
      past one, which is not one of its times. */
  lemma SkippedTimeIsChosen(k: nat)
    ensures Schedule(ThreeAnHour) && WholeMinutes(ThreeAnHour)
    ensures MostRecent(30 * MINUTE, HOUR + 2 * MINUTE, ThreeAnHour) == Due(HOUR + 2 * MINUTE, 3)
    ensures Times(ThreeAnHour, 30 * MINUTE, k) != HOUR + 2 * MINUTE
  {
    hide ThreeAnHour, Schedule, WholeMinutes, MostRecent;
    ThreeAnHourSchedule();
    ChosenAtTwoPast();
    ThreeAnHourTimes(if k == 0 then 30 * MINUTE else Times(ThreeAnHour, 30 * MINUTE, k - 1));
  }

  lemma ThreeAnHourSchedule()
    ensures Schedule(ThreeAnHour) && WholeMinutes(ThreeAnHour)
  {
    hide ThreeAnHour;
    forall t ensures t < ThreeAnHour(t) && ThreeAnHour(t) % MINUTE == 0 && ThreeAnHour(t) % SECOND == 0 {
      ThreeAnHourTimes(t);
      MinuteIsWholeSeconds(ThreeAnHour(t));
    }
  }

  lemma ChosenAtTwoPast()
    ensures MostRecent(30 * MINUTE, HOUR + 2 * MINUTE, ThreeAnHour) == Due(HOUR + 2 * MINUTE, 3)
  {
    hide ThreeAnHour, MostRecent, Schedule, WholeMinutes;
    ThreeAnHourSchedule();
    ThreeAnHourAt();
    MostRecentIsFloor(30 * MINUTE, HOUR + 2 * MINUTE, ThreeAnHour);
    DivUnique(2 * MINUTE, MINUTE, 2);
  }

  lemma ThreeAnHourAt()
    ensures ThreeAnHour(30 * MINUTE) == HOUR && ThreeAnHour(HOUR) == HOUR + MINUTE
  {
  }

  lemma MinuteIsWholeSeconds(t: int)
    requires t % MINUTE == 0
    ensures t % SECOND == 0
  {
    Divided(t, MINUTE);
    Residue(t, t / MINUTE * 60, SECOND, 0);
  }

  // ---- The requeue delay -----------------------------------------------------------------------------

  /** With a constant period the next look comes strictly after the padding of 100ms: never at once. */
  lemma RequeueIsLater(cj: Workflow, next: Next, now: int, period: int)
    requires Schedule(next) && ConstantPeriod(next, LastKnown(cj), period)
    ensures RequeueAfter(cj, next, now) > NEXT_SCHEDULE_DELTA
  {
    var e := LastKnown(cj);
    ChosenInTime(e, now, next);
    if next(e) <= now {
      ConstantIsLatest(next, e, now, period);
      var r := MostRecent(e, now, next);
      assert Times(next, e, r.missed) == next(Times(next, e, r.missed - 1));
    }
  }

  /** It is 100ms after the first schedule time that is later than now. */
  lemma RequeueIsNextTime(cj: Workflow, next: Next, now: int, period: int) returns (k: nat)
    requires Schedule(next) && ConstantPeriod(next, LastKnown(cj), period)
    ensures now + RequeueAfter(cj, next, now) == Times(next, LastKnown(cj), k) + NEXT_SCHEDULE_DELTA
    ensures now < Times(next, LastKnown(cj), k) && (k > 0 ==> Times(next, LastKnown(cj), k - 1) <= now)
  {
    var e := LastKnown(cj);
    hide MostRecent;
    ChosenInTime(e, now, next);
    if next(e) <= now {
      ConstantIsLatest(next, e, now, period);
      k := MostRecent(e, now, next).missed;
    } else {
      k := 0;
    }
  }

  function Multiple(t1: int, gap: int, k: int): int { t1 + k * gap }

  /** At every moment, if and only if nothing is scheduled strictly between two multiples of the first
      gap: the time chosen is such a multiple. */
  lemma RequeueIsLaterIff(cj: Workflow, next: Next)
    requires Schedule(next)
    ensures var t1 := next(LastKnown(cj));
            var gap := next(t1) - t1;
            (forall now :: RequeueAfter(cj, next, now) > NEXT_SCHEDULE_DELTA)
            <==> forall k: nat :: next(Multiple(t1, gap, k)) >= Multiple(t1, gap, k + 1)
  {
    hide RequeueAfter, Multiple;
    var t1 := next(LastKnown(cj));
    var gap := next(t1) - t1;
    if forall now :: RequeueAfter(cj, next, now) > NEXT_SCHEDULE_DELTA {
      forall k: nat ensures next(Multiple(t1, gap, k)) >= Multiple(t1, gap, k + 1) {
        var now := Multiple(t1, gap, k + 1) - 1;
        assert Multiple(t1, gap, k) <= now by { NextMultiple(t1, gap, k); }
        RequeueAt(cj, next, k, now);
        assert RequeueAfter(cj, next, now) > NEXT_SCHEDULE_DELTA;
      }
    }
    if forall k: nat :: next(Multiple(t1, gap, k)) >= Multiple(t1, gap, k + 1) {
      forall now ensures RequeueAfter(cj, next, now) > NEXT_SCHEDULE_DELTA {
        if t1 <= now {
          var k := AtMultiple(t1, gap, now);
          RequeueAt(cj, next, k, now);
          assert next(Multiple(t1, gap, k)) >= Multiple(t1, gap, k + 1);
        } else {
          RequeueBefore(cj, next, now);
        }
      }
    }
  }

  lemma NextMultiple(t1: int, gap: int, k: nat)
    requires gap > 0
    ensures Multiple(t1, gap, k) < Multiple(t1, gap, k + 1)
  {
    Distribute(k, k + 1, gap);
  }

  lemma AtMultiple(t1: int, gap: int, now: int) returns (k: nat)
    requires gap > 0 && t1 <= now
    ensures Multiple(t1, gap, k) <= now < Multiple(t1, gap, k + 1)
  {
    NotNegative(now - t1, gap);
    k := (now - t1) / gap;
    DivBounds(now - t1, gap);
    Distribute(k, k + 1, gap);
  }

  lemma RequeueBefore(cj: Workflow, next: Next, now: int)
    requires now < next(LastKnown(cj))
    ensures RequeueAfter(cj, next, now) > NEXT_SCHEDULE_DELTA
  {
  }

  lemma RequeueAt(cj: Workflow, next: Next, k: nat, now: int)
    requires Schedule(next)
    requires var t1 := next(LastKnown(cj));
             var gap := next(t1) - t1; Multiple(t1, gap, k) <= now < Multiple(t1, gap, k + 1)
    ensures var t1 := next(LastKnown(cj));
            var gap := next(t1) - t1;
            RequeueAfter(cj, next, now) == next(Multiple(t1, gap, k)) + NEXT_SCHEDULE_DELTA - now
  {
    var t1 := next(LastKnown(cj));
    var gap := next(t1) - t1;
    MostRecentIsFloor(LastKnown(cj), now, next);
    hide MostRecent;
    NotNegativeProduct(k, gap);
    Distribute(k, k + 1, gap);
    DivUnique(now - t1, gap, k);
  }

  /** The crontab line "0,5,6,7 * * * *". */
  function FourAnHour(t: int): int {
    var h := HourOf(t);
    if t < h + 5 * MINUTE then h + 5 * MINUTE
    else if t < h + 6 * MINUTE then h + 6 * MINUTE
    else if t < h + 7 * MINUTE then h + 7 * MINUTE
    else h + HOUR
  }

  /** A workflow created at half past twelve with that line: at nine past one its delay is negative, and
      it is looked at again at once. */
  lemma UnevenRequeuesAtOnce()
    ensures Schedule(FourAnHour) && WholeMinutes(FourAnHour)
    ensures RequeueAfter(Workflow(30 * MINUTE, None, None), FourAnHour, HOUR + 9 * MINUTE) < 0
  {
    hide FourAnHour, Schedule, WholeMinutes, RequeueAfter;
    FourAnHourSchedule();
    RequeueAtNinePast();
  }

  lemma FourAnHourTimes(t: int)
    ensures t < FourAnHour(t) && FourAnHour(t) % MINUTE == 0
  {
    hide HourOf;
    var q := HourNumber(t);
    var h := q * HOUR;
    Residue(FourAnHour(t),
            60 * q + if t < h + 5 * MINUTE then 5
                     else if t < h + 6 * MINUTE then 6
                     else if t < h + 7 * MINUTE then 7
                     else 60,
            MINUTE, 0);
  }

  lemma FourAnHourSchedule()
    ensures Schedule(FourAnHour) && WholeMinutes(FourAnHour)
  {
    hide FourAnHour;
    forall t ensures t < FourAnHour(t) && FourAnHour(t) % MINUTE == 0 && FourAnHour(t) % SECOND == 0 {
      FourAnHourTimes(t);
      MinuteIsWholeSeconds(FourAnHour(t));
    }
  }

  lemma RequeueAtNinePast()
    ensures RequeueAfter(Workflow(30 * MINUTE, None, None), FourAnHour, HOUR + 9 * MINUTE) < 0
  {
    hide FourAnHour, MostRecent;
    FourAnHourAt();
    ChosenAtNinePast();
  }

  lemma ChosenAtNinePast()
    ensures MostRecent(30 * MINUTE, HOUR + 9 * MINUTE, FourAnHour) == Due(HOUR + 5 * MINUTE, 2)
  {
    hide FourAnHour, MostRecent, Schedule, WholeMinutes;
    FourAnHourSchedule();
    FourAnHourAt();
    MostRecentIsFloor(30 * MINUTE, HOUR + 9 * MINUTE, FourAnHour);
    DivUnique(9 * MINUTE, 5 * MINUTE, 1);
  }

  lemma FourAnHourAt()
    ensures FourAnHour(30 * MINUTE) == HOUR && FourAnHour(HOUR) == HOUR + 5 * MINUTE
    ensures FourAnHour(HOUR + 5 * MINUTE) == HOUR + 6 * MINUTE
  {
  }

  // ---- Job names -------------------------------------------------------------------------------------

  ghost predicate WholeMinutes(next: Next) {
    forall t :: next(t) % MINUTE == 0
  }

  /** Two moments share a job name exactly when they fall in one minute (after 1970). */
  lemma HashIsMinute(a: int, b: int)
    requires 0 <= a <= b
    ensures JobHash(a) == JobHash(b) <==> a / MINUTE == b / MINUTE
  {
    MinuteOf(a);
    MinuteOf(b);
  }

  lemma MinuteOf(a: int)
    requires a >= 0
    ensures JobHash(a) == a / MINUTE
  {
  }

  /** So a schedule on whole minutes never gives two of its triggers one name. */
  lemma {:induction false} NamesDiffer(cj: Workflow, clock: seq<int>, next: Next, i: nat, j: nat)
    requires Schedule(next) && WholeMinutes(next)
    requires LastKnown(cj) >= 0 && i < j < |Started(cj, clock, next)|
    ensures JobHash(Started(cj, clock, next)[i]) != JobHash(Started(cj, clock, next)[j])
  {
    var ts := Started(cj, clock, next);
    TriggersIncrease(cj, clock, next);
    OnMinutes(cj, clock, next, i);
    OnMinutes(cj, clock, next, j);
    HashIsMinute(ts[i], ts[j]);
  }

  lemma {:induction false} OnMinutes(cj: Workflow, clock: seq<int>, next: Next, i: nat)
    requires Schedule(next) && WholeMinutes(next) && i < |Started(cj, clock, next)|
    ensures Started(cj, clock, next)[i] % MINUTE == 0
  {
    var n := |clock| - 1;
    if i < |Started(cj, clock[..n], next)| {
      OnMinutes(cj, clock[..n], next, i);
    } else {
      var w := After(cj, clock[..n], next);
      ChosenOnMinute(Earliest(w, clock[n]), clock[n], next);
    }
  }

  lemma ChosenOnMinute(earliest: int, now: int, next: Next)
    requires Schedule(next) && WholeMinutes(next)
    ensures var r := MostRecent(earliest, now, next); r.Due? ==> r.t % MINUTE == 0
  {
    MostRecentIsFloor(earliest, now, next);
    hide MostRecent;
    var t1 := next(earliest);
    FloorOnMinute(t1, next(t1), now);
  }

  lemma FloorOnMinute(t1: int, t2: int, now: int)
    requires t1 % MINUTE == 0 && t2 % MINUTE == 0 && t1 < t2
    ensures var r := Floor(t1, t2 - t1, now); r.Due? ==> r.t % MINUTE == 0
  {
    var gap := t2 - t1;
    var q, minutes := (now - t1) / gap, gap / MINUTE;
    Divided(t1, MINUTE);
    Divided(t2, MINUTE);
    Residue(gap, t2 / MINUTE - t1 / MINUTE, MINUTE, 0);
    Regroup(q, minutes);
    MinuteMultiple(t1, q * minutes);
  }

  lemma Regroup(q: int, minutes: int)
    ensures q * (minutes * MINUTE) == (q * minutes) * MINUTE
  {
  }

  lemma MinuteMultiple(t: int, m: int)
    requires t % MINUTE == 0
    ensures (t + m * MINUTE) % MINUTE == 0
  {
    Divided(t, MINUTE);
    Residue(t + m * MINUTE, t / MINUTE + m, MINUTE, 0);
  }

  // ---- syncCronJob on the workflow object ------------------------------------------------------------

  class CronWorkflow {
    const creation: int
    const startingDeadlineSeconds: Option<int>
    var lastTrigger: Option<int>
    var jobActive: seq<string>

    function View(): Workflow
      reads this`lastTrigger
    {
      Workflow(creation, lastTrigger, startingDeadlineSeconds)
    }

    constructor (creation: int, deadline: Option<int>)
      ensures View() == Workflow(creation, None, deadline) && jobActive == []
    {
      this.creation := creation;
      startingDeadlineSeconds := deadline;
      lastTrigger, jobActive := None, [];
    }

    /** `created` is what CreateJob answers: a uid, or an error. A requeue delay is given unless the
        schedule is invalid or the creation failed. */
    method SyncCronJob(now: int, next: Next, created: Option<string>) returns (requeue: Option<int>, updateStatus: bool)
      modifies this
      ensures var a := Sync(old(View()), now, next);
              && View() == (if created.Some? then Record(old(View()), a) else old(View()))
              && jobActive == old(jobActive) + (if a.Start? && created.Some? then [created.value] else [])
              && (updateStatus <==> a.Start? && created.Some?)
              && requeue == (if a.InvalidSchedule? || (a.Start? && created.None?) then None
                             else Some(RequeueAfter(View(), next, now)))
    {
      var recent := NextScheduleTime(View(), now, next);
      if recent.Invalid? { return None, false; }
      if recent.NoneDue? { return Some(RequeueAfter(View(), next, now)), false; }
      var scheduledTime := recent.t;
      var tooLate := false;
      if startingDeadlineSeconds.Some? {
        tooLate := scheduledTime + SECOND * startingDeadlineSeconds.value < now;
      }
      if tooLate || lastTrigger == Some(scheduledTime) {
        return Some(RequeueAfter(View(), next, now)), false;
      }
      if created.None? { return None, false; }
      jobActive := jobActive + [created.value];
      lastTrigger := Some(scheduledTime);
      return Some(RequeueAfter(View(), next, now)), true;
    }
  }
}
