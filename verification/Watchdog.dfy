/** base/watchdog.c: each thread kicks its watchdog; a thread found silent at three effective checks
    in a row powers the device off. */
module Watchdog {

  const E_WD_LAST := 5   // Net1, Net2, Pwr, Main, Gps
  const WATCHDOG_DEFAULT_SEC := 600
  const UINT_RANGE := 0x1_0000_0000

  /** One watchdog: last kick (0 = not started), limit in seconds, silent checks counted. */
  datatype Dog = Dog(ktime: int, limit: nat, num: int)

  datatype State = State(dogs: seq<Dog>, prevRun: int, off: bool)

  /** ktime_cur - ktime_wd >= watchdog_time: the limit is unsigned, so the comparison is too. */
  predicate Expired(cur: int, ktime: int, limit: nat) {
    (cur - ktime) % UINT_RANGE >= limit
  }

  // ---------- reference ----------

  function CheckDog(d: Dog, cur: int): Dog {
    if d.ktime == 0 then d
    else if Expired(cur, d.ktime, d.limit) then d.(num := d.num + 1) else d.(num := 0)
  }

  predicate Barks(d: Dog) {
    d.ktime != 0 && d.num >= 3
  }

  /** Checks closer than 4 seconds to the previous one have no effect. */
  predicate Effective(s: State, cur: int) {
    cur > 0 && cur - s.prevRun > 3
  }

  function Check(s: State, cur: int): (t: State)
    ensures |t.dogs| == |s.dogs|
  {
    if !Effective(s, cur) then s else
      var dogs := seq(|s.dogs|, i requires 0 <= i < |s.dogs| => CheckDog(s.dogs[i], cur));
      State(dogs, cur, s.off || exists i | 0 <= i < |s.dogs| :: Barks(dogs[i]))
  }

  datatype Event = Kick(dog: nat, now: int) | Disable(dog: nat) | SetTime(dog: nat, secs: nat) | Process(now: int)

  function Apply(s: State, e: Event): (t: State)
    ensures |t.dogs| == |s.dogs|
  {
    match e
    case Kick(i, now) =>
      if i < |s.dogs| && now > 0 then s.(dogs := s.dogs[i := s.dogs[i].(ktime := now)]) else s
    case Disable(i) => if i < |s.dogs| then s.(dogs := s.dogs[i := s.dogs[i].(ktime := 0)]) else s
    case SetTime(i, secs) => if i < |s.dogs| then s.(dogs := s.dogs[i := s.dogs[i].(limit := secs)]) else s
    case Process(now) => Check(s, now)
  }

  /** The state before event n of a run from s. */
  function At(s: State, events: seq<Event>, n: nat): (t: State)
    requires n <= |events|
    ensures |t.dogs| == |s.dogs|
  {
    if n == 0 then s else Apply(At(s, events, n - 1), events[n - 1])
  }

  function Run(s: State, events: seq<Event>): (t: State)
    ensures |t.dogs| == |s.dogs|
  {
    At(s, events, |events|)
  }

  /** The kernel time of an event; a failed clock, reported as 0 or less, is ignored by the code. */
  predicate Stamped(e: Event) {
    (e.Kick? || e.Process?) && e.now > 0
  }

  /** The newest stamp before event n. */
  function Clock(events: seq<Event>, n: nat, start: int): int
    requires n <= |events|
  {
    if n == 0 then start else if Stamped(events[n - 1]) then events[n - 1].now else Clock(events, n - 1, start)
  }

  /** Time does not run backwards and stays below 2^31. */
  ghost predicate Ordered(events: seq<Event>, start: int) {
    forall n | 0 <= n < |events| && Stamped(events[n]) :: Clock(events, n, start) <= events[n].now < 0x8000_0000
  }

  // ---------- the code ----------

  class WatchdogTable {
    const ktime_wd: array<int>
    const watchdog_time: array<nat>
    const num_watchdog: array<int>
    var ktime_prev_run: int
    var flag_wd_mutex: bool   // set when the power-off is started

    ghost predicate Valid() {
      && ktime_wd.Length == watchdog_time.Length == num_watchdog.Length == E_WD_LAST
      && ktime_wd != num_watchdog
    }

    ghost function View(): (s: State)
      reads this, ktime_wd, watchdog_time, num_watchdog
      requires Valid()
      ensures |s.dogs| == E_WD_LAST
    {
      State(seq(E_WD_LAST, i requires 0 <= i < E_WD_LAST reads ktime_wd, watchdog_time, num_watchdog =>
              Dog(ktime_wd[i], watchdog_time[i], num_watchdog[i])),
            ktime_prev_run, flag_wd_mutex)
    }

    constructor ()
      ensures Valid() && fresh(ktime_wd) && fresh(watchdog_time) && fresh(num_watchdog)
      ensures View().prevRun == 0 && !View().off
      ensures forall i | 0 <= i < E_WD_LAST :: View().dogs[i] == Dog(0, WATCHDOG_DEFAULT_SEC, 0)
    {
      ktime_wd := new int[E_WD_LAST](_ => 0);
      watchdog_time := new nat[E_WD_LAST](_ => WATCHDOG_DEFAULT_SEC);
      num_watchdog := new int[E_WD_LAST](_ => 0);
      ktime_prev_run, flag_wd_mutex := 0, false;
    }

    /** watchdog_set_cur_ktime */
    method SetCurKtime(i: nat, cur: int) returns (ret: int)
      requires Valid() && i < E_WD_LAST
      modifies ktime_wd
      ensures View() == Apply(old(View()), Kick(i, cur)) && ret == if cur <= 0 then -1 else 0
    {
      if cur <= 0 {
        return -1;
      }
      ktime_wd[i] := cur;
      assert View().dogs == old(View()).dogs[i := old(View()).dogs[i].(ktime := cur)];
      ret := 0;
    }

    /** watchdog_set_init_ktime: the count of silent checks is kept. */
    method SetInitKtime(i: nat)
      requires Valid() && i < E_WD_LAST
      modifies ktime_wd
      ensures View() == Apply(old(View()), Disable(i))
    {
      ktime_wd[i] := 0;
      assert View().dogs == old(View()).dogs[i := old(View()).dogs[i].(ktime := 0)];
    }

    /** watchdog_set_time */
    method SetLimit(i: nat, secs: nat)
      requires Valid() && i < E_WD_LAST
      modifies watchdog_time
      ensures View() == Apply(old(View()), SetTime(i, secs))
    {
      watchdog_time[i] := secs;
      assert View().dogs == old(View()).dogs[i := old(View()).dogs[i].(limit := secs)];
    }

    /** watchdog_process at kernel time cur. */
    method WatchdogProcess(cur: int)
      requires Valid()
      modifies this, num_watchdog
      ensures View() == Apply(old(View()), Process(cur))
    {
      if cur <= 0 {
        return;
      }
      if cur - ktime_prev_run <= 3 {
        return;
      }
      ktime_prev_run := cur;
      ghost var s := old(View());
      for i := 0 to E_WD_LAST
        invariant ktime_prev_run == cur
        invariant forall j | 0 <= j < i :: Dog(ktime_wd[j], watchdog_time[j], num_watchdog[j]) == CheckDog(s.dogs[j], cur)
        invariant forall j | i <= j < E_WD_LAST :: Dog(ktime_wd[j], watchdog_time[j], num_watchdog[j]) == s.dogs[j]
        invariant flag_wd_mutex == (s.off || exists j | 0 <= j < i :: Barks(CheckDog(s.dogs[j], cur)))
      {
        if ktime_wd[i] == 0 {
          continue;
        }
        if Expired(cur, ktime_wd[i], watchdog_time[i]) {
          num_watchdog[i] := num_watchdog[i] + 1;
        } else {
          num_watchdog[i] := 0;
        }
        assert CheckDog(s.dogs[i], cur) == Dog(ktime_wd[i], watchdog_time[i], num_watchdog[i]);
        if num_watchdog[i] < 3 {
          continue;
        }
        flag_wd_mutex := true;
      }
      ghost var t := Check(s, cur);
      assert forall j | 0 <= j < E_WD_LAST :: t.dogs[j] == CheckDog(s.dogs[j], cur);
      assert View().dogs == t.dogs;
      assert t.off == (s.off || exists j | 0 <= j < E_WD_LAST :: Barks(t.dogs[j]));
    }
  }

  // ---------- the expiry test ----------

  /** A kick stamped later than the time the check sampled counts as expired, exactly when the difference
      and the limit together fit the 32-bit range. */
  lemma FutureKickExpires(cur: int, ktime: int, limit: nat)
    requires cur < ktime <= cur + UINT_RANGE
    ensures Expired(cur, ktime, limit) <==> ktime - cur <= UINT_RANGE - limit
  {
    if ktime - cur < UINT_RANGE {
      assert (cur - ktime) % UINT_RANGE == cur - ktime + UINT_RANGE;
    }
  }

  // ---------- when exactly the device is powered off ----------

  /** The state after the constructor and these limits. */
  function Start(limits: seq<nat>): (s: State)
    ensures |s.dogs| == |limits|
  {
    State(seq(|limits|, i requires 0 <= i < |limits| => Dog(0, limits[i], 0)), 0, false)
  }

  /** The time of the last check before event n that had an effect. */
  function PrevRun(events: seq<Event>, n: nat): int
    requires n <= |events|
    decreases n, 0
  {
    if n == 0 then 0 else if Checks(events, n - 1) then events[n - 1].now else PrevRun(events, n - 1)
  }

  /** Event n is a check with an effect. */
  predicate Checks(events: seq<Event>, n: nat)
    requires n < |events|
    decreases n, 1
  {
    events[n].Process? && events[n].now > 0 && events[n].now - PrevRun(events, n) > 3
  }

  /** The limit of watchdog i before event n. */
  function LimitAt(limits: seq<nat>, events: seq<Event>, n: nat, i: nat): nat
    requires n <= |events| && i < |limits|
  {
    if n == 0 then limits[i]
    else if events[n - 1].SetTime? && events[n - 1].dog == i then events[n - 1].secs
    else LimitAt(limits, events, n - 1, i)
  }

  predicate KickOf(e: Event, i: nat) {
    e.Kick? && e.dog == i && e.now > 0
  }

  /** Thread i has kicked, and its watchdog was not disabled since. */
  ghost predicate Started(events: seq<Event>, n: nat, i: nat)
    requires n <= |events|
  {
    exists m :: 0 <= m < n && KickOf(events[m], i) && forall j | m < j < n :: events[j] != Disable(i)
  }

  /** Some kick of thread i came less than its limit before event n. */
  ghost predicate KickedInTime(limits: seq<nat>, events: seq<Event>, n: nat, i: nat)
    requires n < |events| && events[n].Process? && i < |limits|
  {
    exists m :: 0 <= m < n && KickOf(events[m], i) && events[n].now - events[m].now < LimitAt(limits, events, n, i)
  }

  ghost predicate Late(limits: seq<nat>, events: seq<Event>, n: nat, i: nat)
    requires n < |events| && i < |limits|
  {
    Checks(events, n) && Started(events, n, i) && !KickedInTime(limits, events, n, i)
  }

  ghost predicate InTime(limits: seq<nat>, events: seq<Event>, n: nat, i: nat)
    requires n < |events| && i < |limits|
  {
    Checks(events, n) && Started(events, n, i) && KickedInTime(limits, events, n, i)
  }

  lemma {:induction false} PrevRunIs(limits: seq<nat>, events: seq<Event>, n: nat)
    requires n <= |events|
    ensures At(Start(limits), events, n).prevRun == PrevRun(events, n)
    decreases n
  {
    if n > 0 {
      PrevRunIs(limits, events, n - 1);
    }
  }

  /** What the events before n say about a watchdog. */
  ghost predicate Tracked(d: Dog, limits: seq<nat>, events: seq<Event>, n: nat, i: nat)
    requires n <= |events| && i < |limits|
  {
    && d.limit == LimitAt(limits, events, n, i)
    && (d.ktime != 0 <==> Started(events, n, i))
    && 0 <= d.ktime <= Clock(events, n, 0) && d.num >= 0
    && (forall m | 0 <= m < n && KickOf(events[m], i) :: events[m].now <= Clock(events, n, 0))
    && (d.ktime != 0 ==>
          && (exists m :: 0 <= m < n && KickOf(events[m], i) && events[m].now == d.ktime)
          && (forall m | 0 <= m < n && KickOf(events[m], i) :: events[m].now <= d.ktime))
  }

  lemma StartedStep(events: seq<Event>, n: nat, i: nat)
    requires 0 < n <= |events|
    ensures Started(events, n, i) <==>
              KickOf(events[n - 1], i) || (Started(events, n - 1, i) && events[n - 1] != Disable(i))
  {
    if Started(events, n - 1, i) && events[n - 1] != Disable(i) {
      var m :| 0 <= m < n - 1 && KickOf(events[m], i) && forall j | m < j < n - 1 :: events[j] != Disable(i);
    }
  }

  lemma {:induction false} DogTracked(limits: seq<nat>, events: seq<Event>, n: nat, i: nat)
    requires n <= |events| && i < |limits| && Ordered(events, 0)
    ensures Tracked(At(Start(limits), events, n).dogs[i], limits, events, n, i)
    decreases n
  {
    hide Started, Ordered;
    if n == 0 {
      NeverStarted(events, i);
    } else {
      DogTracked(limits, events, n - 1, i);
      StartedStep(events, n, i);
      InOrder(events, n - 1);
      TrackedStep(limits, events, n, i, At(Start(limits), events, n - 1));
    }
  }

  lemma NeverStarted(events: seq<Event>, i: nat)
    ensures !Started(events, 0, i)
  {
  }

  lemma InOrder(events: seq<Event>, n: nat)
    requires n < |events| && Ordered(events, 0)
    ensures Stamped(events[n]) ==> Clock(events, n, 0) <= events[n].now < 0x8000_0000
  {
  }

  lemma DogOf(s: State, e: Event, i: nat)
    requires i < |s.dogs|
    ensures Apply(s, e).dogs[i] ==
              match e
              case Kick(j, now) => if j == i && now > 0 then s.dogs[i].(ktime := now) else s.dogs[i]
              case Disable(j) => if j == i then s.dogs[i].(ktime := 0) else s.dogs[i]
              case SetTime(j, secs) => if j == i then s.dogs[i].(limit := secs) else s.dogs[i]
              case Process(now) => if Effective(s, now) then CheckDog(s.dogs[i], now) else s.dogs[i]
  {
  }

  lemma TrackedStep(limits: seq<nat>, events: seq<Event>, n: nat, i: nat, s: State)
    requires 0 < n <= |events| && i < |limits| == |s.dogs|
    requires Tracked(s.dogs[i], limits, events, n - 1, i)
    requires Stamped(events[n - 1]) ==> Clock(events, n - 1, 0) <= events[n - 1].now
    requires Started(events, n, i) <==>
               KickOf(events[n - 1], i) || (Started(events, n - 1, i) && events[n - 1] != Disable(i))
    ensures Tracked(Apply(s, events[n - 1]).dogs[i], limits, events, n, i)
  {
    hide Started, Apply;
    DogOf(s, events[n - 1], i);
  }

  /** At a check, the code's test on its stored time says whether the thread is late. */
  lemma LateIsExpired(limits: seq<nat>, events: seq<Event>, n: nat, i: nat)
    requires n < |events| && i < |limits| && Ordered(events, 0)
    ensures var d := At(Start(limits), events, n).dogs[i];
            && (Checks(events, n) <==> events[n].Process? && Effective(At(Start(limits), events, n), events[n].now))
            && (Checks(events, n) ==>
                  && (Late(limits, events, n, i) <==> d.ktime != 0 && Expired(events[n].now, d.ktime, d.limit))
                  && (InTime(limits, events, n, i) <==> d.ktime != 0 && !Expired(events[n].now, d.ktime, d.limit)))
  {
    hide Started, At, Start, Ordered;
    PrevRunIs(limits, events, n);
    DogTracked(limits, events, n, i);
    InOrder(events, n);
  }

  /** cs are late checks of watchdog i before event n, with no check in time from the first on. */
  ghost predicate Streak(limits: seq<nat>, events: seq<Event>, n: nat, i: nat, cs: seq<nat>)
    requires n <= |events| && i < |limits|
  {
    && (forall k | 0 <= k < |cs| :: cs[k] < n && Late(limits, events, cs[k], i))
    && (forall j, k | 0 <= j < k < |cs| :: cs[j] < cs[k])
    && (cs != [] ==> forall m | cs[0] <= m < n :: !InTime(limits, events, m, i))
  }

  /** What event n - 1 does to the count of a watchdog. */
  lemma CountStep(limits: seq<nat>, events: seq<Event>, n: nat, i: nat)
    requires 0 < n <= |events| && i < |limits| && Ordered(events, 0)
    ensures At(Start(limits), events, n).dogs[i].num ==
              if Late(limits, events, n - 1, i) then At(Start(limits), events, n - 1).dogs[i].num + 1
              else if InTime(limits, events, n - 1, i) then 0
              else At(Start(limits), events, n - 1).dogs[i].num
  {
    hide Late, InTime, Effective, Ordered, Checks;
    LateIsExpired(limits, events, n - 1, i);
    NotAtAll(limits, events, n - 1, i);
    DogOf(At(Start(limits), events, n - 1), events[n - 1], i);
  }

  lemma NotAtAll(limits: seq<nat>, events: seq<Event>, n: nat, i: nat)
    requires n < |events| && i < |limits|
    ensures Late(limits, events, n, i) || InTime(limits, events, n, i) ==> Checks(events, n)
  {
  }

  lemma {:induction false} StreakOfCount(limits: seq<nat>, events: seq<Event>, n: nat, i: nat) returns (cs: seq<nat>)
    requires n <= |events| && i < |limits| && Ordered(events, 0)
    ensures |cs| == At(Start(limits), events, n).dogs[i].num && Streak(limits, events, n, i, cs)
    decreases n
  {
    hide Late, InTime, Ordered;
    if n == 0 {
      return [];
    }
    CountStep(limits, events, n, i);
    LateOrInTime(limits, events, n - 1, i);
    cs := StreakOfCount(limits, events, n - 1, i);
    if InTime(limits, events, n - 1, i) {
      cs := [];
    } else if Late(limits, events, n - 1, i) {
      cs := cs + [n - 1];
    }
  }

  lemma LateOrInTime(limits: seq<nat>, events: seq<Event>, n: nat, i: nat)
    requires n < |events| && i < |limits|
    ensures !(Late(limits, events, n, i) && InTime(limits, events, n, i))
  {
  }

  lemma {:induction false} CountOfStreak(limits: seq<nat>, events: seq<Event>, n: nat, i: nat, cs: seq<nat>)
    requires n <= |events| && i < |limits| && Ordered(events, 0) && Streak(limits, events, n, i, cs)
    ensures At(Start(limits), events, n).dogs[i].num >= |cs|
    decreases n
  {
    hide Late, InTime, Ordered, At, Start;
    DogTracked(limits, events, n, i);
    if cs != [] {
      assert cs[0] < n;
      CountStep(limits, events, n, i);
      var k := |cs| - 1;
      if cs[k] == n - 1 {
        CountOfStreak(limits, events, n - 1, i, cs[..k]);
      } else {
        CountOfStreak(limits, events, n - 1, i, cs);
      }
    }
  }

  /** Thread i is late at checks a, b and c, and at no check in between in time. */
  ghost predicate ThriceLate(limits: seq<nat>, events: seq<Event>, i: nat, a: nat, b: nat, c: nat)
    requires a < b < c < |events| && i < |limits|
  {
    && Late(limits, events, a, i) && Late(limits, events, b, i) && Late(limits, events, c, i)
    && forall m | a < m < c :: !InTime(limits, events, m, i)
  }

  lemma OffStep(s: State, e: Event)
    ensures Apply(s, e).off ==
              (s.off || (e.Process? && Effective(s, e.now) && exists i | 0 <= i < |s.dogs| :: Barks(Apply(s, e).dogs[i])))
  {
  }

  lemma {:induction false} OffStays(s: State, events: seq<Event>, n: nat, m: nat)
    requires n <= m <= |events| && At(s, events, n).off
    ensures At(s, events, m).off
    decreases m
  {
    if n < m {
      OffStays(s, events, n, m - 1);
      OffStep(At(s, events, m - 1), events[m - 1]);
    }
  }

  /** The event that powers the device off is the third late check of some thread. */
  lemma OffAt(limits: seq<nat>, events: seq<Event>, c: nat) returns (i: nat, a: nat, b: nat)
    requires c < |events| && Ordered(events, 0)
    requires !At(Start(limits), events, c).off && At(Start(limits), events, c + 1).off
    ensures i < |limits| && a < b < c && ThriceLate(limits, events, i, a, b, c)
  {
    hide Late, InTime, Ordered, Start, Apply, CheckDog, Expired, Tracked;
    var s := At(Start(limits), events, c);
    OffStep(s, events[c]);
    i :| 0 <= i < |s.dogs| && Barks(Apply(s, events[c]).dogs[i]);
    BarkIsLate(limits, events, c, i);
    var cs := StreakOfCount(limits, events, c + 1, i);
    var k := |cs| - 1;
    LateEndsStreak(limits, events, c, i, cs);
    a, b := cs[k - 2], cs[k - 1];
  }

  lemma BarkIsLate(limits: seq<nat>, events: seq<Event>, c: nat, i: nat)
    requires c < |events| && i < |limits| && Ordered(events, 0)
    requires events[c].Process? && Effective(At(Start(limits), events, c), events[c].now)
    requires Barks(At(Start(limits), events, c + 1).dogs[i])
    ensures Late(limits, events, c, i)
  {
    hide Late, InTime, Ordered, Checks, Effective;
    LateIsExpired(limits, events, c, i);
    DogOf(At(Start(limits), events, c), events[c], i);
  }

  lemma LateEndsStreak(limits: seq<nat>, events: seq<Event>, c: nat, i: nat, cs: seq<nat>)
    requires c < |events| && i < |limits| && Ordered(events, 0) && Late(limits, events, c, i)
    requires Streak(limits, events, c + 1, i, cs) && |cs| == At(Start(limits), events, c + 1).dogs[i].num
    ensures cs != [] && cs[|cs| - 1] == c
  {
    hide Late, InTime, Ordered, At, Start;
    if cs == [] || cs[|cs| - 1] != c {
      LateOrInTime(limits, events, c, i);
      StreakExtends(limits, events, c, i, cs);
      hide Streak;
      CountOfStreak(limits, events, c + 1, i, cs + [c]);
    }
  }

  lemma StreakExtends(limits: seq<nat>, events: seq<Event>, c: nat, i: nat, cs: seq<nat>)
    requires c < |events| && i < |limits| && Late(limits, events, c, i) && !InTime(limits, events, c, i)
    requires Streak(limits, events, c + 1, i, cs) && (cs == [] || cs[|cs| - 1] != c)
    ensures Streak(limits, events, c + 1, i, cs + [c])
  {
    hide Late, InTime;
  }

  /** Conversely, a third late check powers the device off. */
  lemma ThriceLateIsOff(limits: seq<nat>, events: seq<Event>, i: nat, a: nat, b: nat, c: nat)
    requires a < b < c < |events| && i < |limits| && Ordered(events, 0) && ThriceLate(limits, events, i, a, b, c)
    ensures Run(Start(limits), events).off
  {
    hide Late, InTime, Ordered, Start, Apply, Expired, Checks, Effective;
    LateOrInTime(limits, events, a, i);
    LateOrInTime(limits, events, c, i);
    CountOfStreak(limits, events, c + 1, i, [a, b, c]);
    LateIsExpired(limits, events, c, i);
    NotAtAll(limits, events, c, i);
    var s := At(Start(limits), events, c);
    DogOf(s, events[c], i);
    OffStep(s, events[c]);
    assert Barks(Apply(s, events[c]).dogs[i]);
    OffStays(Start(limits), events, c + 1, |events|);
  }

  /** The device is powered off exactly when some thread was late at three checks with no check in
      between that it passed, whatever was enabled, disabled or reconfigured. */
  lemma PowerOffIff(limits: seq<nat>, events: seq<Event>)
    requires Ordered(events, 0)
    ensures Run(Start(limits), events).off <==>
              exists i, a, b, c :: 0 <= i < |limits| && 0 <= a < b < c < |events| && ThriceLate(limits, events, i, a, b, c)
  {
    hide ThriceLate, Ordered;
    if Run(Start(limits), events).off {
      var c := FirstOff(limits, events, |events|);
      var i, a, b := OffAt(limits, events, c);
    }
    forall i, a, b, c | 0 <= i < |limits| && 0 <= a < b < c < |events| && ThriceLate(limits, events, i, a, b, c)
      ensures Run(Start(limits), events).off
    {
      ThriceLateIsOff(limits, events, i, a, b, c);
    }
  }

  lemma {:induction false} FirstOff(limits: seq<nat>, events: seq<Event>, n: nat) returns (c: nat)
    requires n <= |events| && At(Start(limits), events, n).off
    ensures c < n && !At(Start(limits), events, c).off && At(Start(limits), events, c + 1).off
    decreases n
  {
    if At(Start(limits), events, n - 1).off {
      c := FirstOff(limits, events, n - 1);
    } else {
      c := n - 1;
    }
  }

  /** No false alarm: if at every check every started thread has kicked less than its limit before, the
      device is never powered off. */
  lemma NoFalseAlarm(limits: seq<nat>, events: seq<Event>)
    requires Ordered(events, 0)
    requires forall n, i | 0 <= n < |events| && 0 <= i < |limits| && Checks(events, n) && Started(events, n, i) ::
               KickedInTime(limits, events, n, i)
    ensures !Run(Start(limits), events).off
  {
    PowerOffIff(limits, events);
  }

  // ---------- a power-off means long silence ----------

  /** No limit of a counting watchdog is raised, and while a watchdog counts, checks come less than its
      limit apart. */
  ghost predicate Steady(s: State, events: seq<Event>) {
    forall n | 0 <= n < |events| :: SteadyAt(At(s, events, n), events[n])
  }

  ghost predicate SteadyAt(t: State, e: Event) {
    match e
    case SetTime(i, secs) => i < |t.dogs| ==> t.dogs[i].num <= 0 || secs <= t.dogs[i].limit
    case Process(now) =>
      Effective(t, now) ==> forall i | 0 <= i < |t.dogs| && t.dogs[i].num > 0 :: now - t.prevRun < t.dogs[i].limit
    case _ => true
  }

  /** A watchdog with count n has been silent for limit + 4 * (n - 1) at the last effective check,
      unless it was kicked after that check. */
  ghost predicate SilentFor(d: Dog, prevRun: int) {
    d.ktime != 0 && d.num > 0 ==> d.ktime >= prevRun || prevRun - d.ktime >= d.limit + 4 * (d.num - 1)
  }

  ghost predicate Consistent(s: State, now: int) {
    && 0 <= s.prevRun <= now
    && forall i | 0 <= i < |s.dogs| :: 0 <= s.dogs[i].ktime <= now && SilentFor(s.dogs[i], s.prevRun)
  }

  lemma CheckConsistent(s: State, cur: int, now: int)
    requires Consistent(s, now) && now <= cur < 0x8000_0000 && SteadyAt(s, Process(cur))
    ensures Consistent(Check(s, cur), cur)
  {
    if Effective(s, cur) {
      forall i | 0 <= i < |s.dogs| ensures SilentFor(Check(s, cur).dogs[i], cur) {
        assert Check(s, cur).dogs[i] == CheckDog(s.dogs[i], cur);
      }
    }
  }

  lemma ApplyConsistent(s: State, e: Event, now: int)
    requires Consistent(s, now) && SteadyAt(s, e)
    requires Stamped(e) ==> now <= e.now < 0x8000_0000
    ensures Consistent(Apply(s, e), if Stamped(e) then e.now else now)
  {
    if e.Process? && Stamped(e) {
      CheckConsistent(s, e.now, now);
    }
  }

  lemma {:induction false} RunConsistent(s: State, events: seq<Event>, n: nat, start: int)
    requires Consistent(s, start) && Ordered(events, start) && Steady(s, events) && n <= |events|
    ensures Consistent(At(s, events, n), Clock(events, n, start))
    decreases n
  {
    hide Consistent, SteadyAt, Apply;
    if n > 0 {
      RunConsistent(s, events, n - 1, start);
      ApplyConsistent(At(s, events, n - 1), events[n - 1], Clock(events, n - 1, start));
    }
  }

  /** If the last event of a steady run powers the device off, some started thread had been silent
      for at least its limit plus 8 seconds, whatever was disabled before. */
  lemma PowerOffMeansSilence(s: State, events: seq<Event>, start: int)
    requires Consistent(s, start) && Ordered(events, start) && Steady(s, events) && events != []
    requires !At(s, events, |events| - 1).off && Run(s, events).off
    ensures var e := events[|events| - 1];
            e.Process? && SilentAtLast(Run(s, events), e.now)
  {
    hide Consistent, SilentAtLast;
    var n := |events| - 1;
    RunConsistent(s, events, n, start);
    LastCheckMeansSilence(At(s, events, n), events[n].now, Clock(events, n, start));
  }

  /** Some started thread has been silent for its limit and 8 seconds. */
  ghost predicate SilentAtLast(t: State, cur: int) {
    exists i | 0 <= i < |t.dogs| :: t.dogs[i].ktime != 0 && cur - t.dogs[i].ktime >= t.dogs[i].limit + 8
  }

  lemma LastCheckMeansSilence(s: State, cur: int, now: int)
    requires Consistent(s, now) && now <= cur < 0x8000_0000 && !s.off && Check(s, cur).off
    requires SteadyAt(s, Process(cur))
    ensures SilentAtLast(Check(s, cur), cur)
  {
    var t := Check(s, cur);
    CheckConsistent(s, cur, now);
    var i :| 0 <= i < |t.dogs| && Barks(t.dogs[i]);
    assert t.dogs[i] == CheckDog(s.dogs[i], cur) && SilentFor(t.dogs[i], t.prevRun);
  }

  // ---------- both conditions are needed ----------

  /** The table in which only watchdog i was ever started. */
  function Only(limits: seq<nat>, i: nat, d: Dog, prevRun: int, off: bool): State
    requires i < |limits|
  {
    State(Start(limits).dogs[i := d], prevRun, off)
  }

  lemma OnlyStart(limits: seq<nat>, i: nat)
    requires i < |limits|
    ensures Start(limits) == Only(limits, i, Dog(0, limits[i], 0), 0, false)
  {
  }

  lemma OnlyApply(limits: seq<nat>, i: nat, d: Dog, prevRun: int, e: Event)
    requires i < |limits| && !e.Disable? && (e.Kick? || e.SetTime? ==> e.dog == i)
    requires Stamped(e) || e.SetTime?
    ensures Apply(Only(limits, i, d, prevRun, false), e) ==
              match e
              case Kick(_, now) => Only(limits, i, d.(ktime := now), prevRun, false)
              case SetTime(_, secs) => Only(limits, i, d.(limit := secs), prevRun, false)
              case Disable(_) => Only(limits, i, d, prevRun, false)
              case Process(now) =>
                if now - prevRun <= 3 then Only(limits, i, d, prevRun, false)
                else Only(limits, i, CheckDog(d, now), now, Barks(CheckDog(d, now)))
  {
    var s := Only(limits, i, d, prevRun, false);
    if e.Process? && Effective(s, e.now) {
      var t := Check(s, e.now);
      forall j | 0 <= j < |limits| ensures t.dogs[j] == if j == i then CheckDog(d, e.now) else Dog(0, limits[j], 0) {
        assert t.dogs[j] == CheckDog(s.dogs[j], e.now);
      }
      assert t.dogs == Only(limits, i, CheckDog(d, e.now), 0, false).dogs;
      assert Barks(CheckDog(d, e.now)) ==> Barks(t.dogs[i]);
    }
  }

  lemma OnlySilence(limits: seq<nat>, i: nat, d: Dog, prevRun: int, off: bool, cur: int)
    requires i < |limits|
    ensures SilentAtLast(Only(limits, i, d, prevRun, off), cur) <==> d.ktime != 0 && cur - d.ktime >= d.limit + 8
  {
    var t := Only(limits, i, d, prevRun, off);
    assert t.dogs[i] == d;
  }

  lemma ExpiredIs(cur: int, ktime: int, limit: nat)
    requires 0 <= cur - ktime < 0x8000_0000
    ensures Expired(cur, ktime, limit) <==> cur - ktime >= limit
  {
  }

  /** A thread late at two checks that then kicks, and is late at the next check too. */
  function LateKick(i: nat, limit: nat): seq<Event> {
    [Kick(i, 4), Process(4 + limit), Process(8 + limit), Kick(i, 8 + limit),
     Process(8 + limit + if limit > 4 then limit else 4)]
  }

  lemma LateKickStates(limits: seq<nat>, i: nat)
    requires i < |limits| && limits[i] < 0x3000_0000
    ensures var l, events := limits[i], LateKick(i, limits[i]);
            var gap := if l > 4 then l else 4;
            && At(Start(limits), events, 0) == Only(limits, i, Dog(0, l, 0), 0, false)
            && At(Start(limits), events, 1) == Only(limits, i, Dog(4, l, 0), 0, false)
            && At(Start(limits), events, 2) == Only(limits, i, Dog(4, l, 1), 4 + l, false)
            && At(Start(limits), events, 3) == Only(limits, i, Dog(4, l, 2), 8 + l, false)
            && At(Start(limits), events, 4) == Only(limits, i, Dog(8 + l, l, 2), 8 + l, false)
            && At(Start(limits), events, 5) == Only(limits, i, Dog(8 + l, l, 3), 8 + l + gap, true)
  {
    var l, events := limits[i], LateKick(i, limits[i]);
    var gap := if l > 4 then l else 4;
    hide Apply, Start, Only, Expired;
    OnlyStart(limits, i);
    ExpiredIs(4 + l, 4, l);
    ExpiredIs(8 + l, 4, l);
    ExpiredIs(8 + l + gap, 8 + l, l);
    OnlyApply(limits, i, Dog(0, l, 0), 0, events[0]);
    OnlyApply(limits, i, Dog(4, l, 0), 0, events[1]);
    OnlyApply(limits, i, Dog(4, l, 1), 4 + l, events[2]);
    OnlyApply(limits, i, Dog(4, l, 2), 8 + l, events[3]);
    OnlyApply(limits, i, Dog(8 + l, l, 2), 8 + l, events[4]);
  }

  /** While something is counted, checks come at most `gap` apart. */
  ghost predicate Spaced(s: State, events: seq<Event>, gap: nat) {
    forall n | 0 <= n < |events| :: SpacedAt(At(s, events, n), events[n], gap)
  }

  ghost predicate SpacedAt(t: State, e: Event, gap: nat) {
    e.Process? && Effective(t, e.now) && (exists i | 0 <= i < |t.dogs| :: t.dogs[i].num > 0) ==>
      e.now - t.prevRun <= gap
  }

  /** A run without reconfiguration, checked at most every `gap` seconds, whose last event powers the
      device off. */
  ghost predicate EndsInPowerOff(limits: seq<nat>, gap: nat, events: seq<Event>) {
    && events != [] && Ordered(events, 0) && Spaced(Start(limits), events, gap)
    && (forall n | 0 <= n < |events| :: !events[n].SetTime?)
    && !At(Start(limits), events, |events| - 1).off && Run(Start(limits), events).off
  }

  ghost predicate SilenceGuaranteed(limits: seq<nat>, gap: nat) {
    forall events: seq<Event> | EndsInPowerOff(limits, gap, events) ::
      var e := events[|events| - 1];
      e.Process? && SilentAtLast(Run(Start(limits), events), e.now)
  }

  /** Without reconfiguration, every power-off comes after a silence of limit + 8 seconds exactly when
      checks come less than each limit apart (a gap below 4 allows no second check). */
  lemma SilenceIff(limits: seq<nat>, gap: nat)
    requires forall i | 0 <= i < |limits| :: limits[i] < 0x3000_0000
    ensures SilenceGuaranteed(limits, gap) <==> gap < 4 || forall i | 0 <= i < |limits| :: gap < limits[i]
  {
    hide EndsInPowerOff;
    if gap < 4 || forall i | 0 <= i < |limits| :: gap < limits[i] {
      forall events: seq<Event> | EndsInPowerOff(limits, gap, events)
        ensures events != [] && events[|events| - 1].Process?
                && SilentAtLast(Run(Start(limits), events), events[|events| - 1].now)
      {
        SpacedMeansSilence(limits, gap, events);
      }
    } else {
      var i :| 0 <= i < |limits| && gap >= limits[i];
      LateKickPowersOff(limits, i, gap);
    }
  }

  lemma {:induction false} LimitsKept(limits: seq<nat>, events: seq<Event>, n: nat)
    requires n <= |events| && forall m | 0 <= m < |events| :: !events[m].SetTime?
    ensures forall i | 0 <= i < |limits| :: At(Start(limits), events, n).dogs[i].limit == limits[i]
    decreases n
  {
    if n > 0 {
      LimitsKept(limits, events, n - 1);
      forall i | 0 <= i < |limits|
        ensures At(Start(limits), events, n).dogs[i].limit == At(Start(limits), events, n - 1).dogs[i].limit
      {
        DogOf(At(Start(limits), events, n - 1), events[n - 1], i);
      }
    }
  }

  lemma SpacedMeansSilence(limits: seq<nat>, gap: nat, events: seq<Event>)
    requires EndsInPowerOff(limits, gap, events) && (gap < 4 || forall i | 0 <= i < |limits| :: gap < limits[i])
    ensures events[|events| - 1].Process? && SilentAtLast(Run(Start(limits), events), events[|events| - 1].now)
  {
    var s := Start(limits);
    forall n | 0 <= n < |events| ensures SteadyAt(At(s, events, n), events[n]) {
      LimitsKept(limits, events, n);
      assert SpacedAt(At(s, events, n), events[n], gap);
    }
    PowerOffMeansSilence(s, events, 0);
  }

  /** A gap of the limit or more, and a kick right after the second late check: the power-off comes less
      than 8 seconds after the limit has run out. */
  lemma LateKickPowersOff(limits: seq<nat>, i: nat, gap: nat)
    requires i < |limits| && limits[i] < 0x3000_0000 && gap >= 4 && gap >= limits[i]
    ensures var events := LateKick(i, limits[i]);
            EndsInPowerOff(limits, gap, events)
            && !SilentAtLast(Run(Start(limits), events), events[|events| - 1].now)
  {
    var l, events := limits[i], LateKick(i, limits[i]);
    var last := if l > 4 then l else 4;
    LateKickStates(limits, i);
    OnlySilence(limits, i, Dog(8 + l, l, 3), 8 + l + last, true, 8 + l + last);
    hide Start, Only, SilentAtLast;
    assert Ordered(events, 0);
    assert Spaced(Start(limits), events, gap) by {
      OnlyCounts(limits, i, Dog(4, l, 0), 0, false);
    }
  }

  lemma OnlyCounts(limits: seq<nat>, i: nat, d: Dog, prevRun: int, off: bool)
    requires i < |limits|
    ensures (exists j | 0 <= j < |limits| :: Only(limits, i, d, prevRun, off).dogs[j].num > 0) <==> d.num > 0
    ensures Only(limits, i, d, prevRun, off).prevRun == prevRun && |Only(limits, i, d, prevRun, off).dogs| == |limits|
  {
    assert Only(limits, i, d, prevRun, off).dogs[i] == d;
  }

  /** A thread late at two checks, its limit raised, and late by the new limit at the next check. */
  function RaisedLimit(i: nat, secs: nat, t: int): seq<Event> {
    [Kick(i, 4), Process(t - 8), Process(t - 4), SetTime(i, secs), Process(t)]
  }

  lemma RaisedLimitStates(limits: seq<nat>, i: nat, secs: nat, t: int)
    requires i < |limits| && 4 < limits[i] < secs < 0x3000_0000
    requires t == 4 + if secs > limits[i] + 8 then secs else limits[i] + 8
    ensures var l, events := limits[i], RaisedLimit(i, secs, t);
            && At(Start(limits), events, 0) == Only(limits, i, Dog(0, l, 0), 0, false)
            && At(Start(limits), events, 1) == Only(limits, i, Dog(4, l, 0), 0, false)
            && At(Start(limits), events, 2) == Only(limits, i, Dog(4, l, 1), t - 8, false)
            && At(Start(limits), events, 3) == Only(limits, i, Dog(4, l, 2), t - 4, false)
            && At(Start(limits), events, 4) == Only(limits, i, Dog(4, secs, 2), t - 4, false)
            && At(Start(limits), events, 5) == Only(limits, i, Dog(4, secs, 3), t, true)
  {
    var l, events := limits[i], RaisedLimit(i, secs, t);
    hide Apply, Start, Only, Expired;
    OnlyStart(limits, i);
    ExpiredIs(t - 8, 4, l);
    ExpiredIs(t - 4, 4, l);
    ExpiredIs(t, 4, secs);
    OnlyApply(limits, i, Dog(0, l, 0), 0, events[0]);
    OnlyApply(limits, i, Dog(4, l, 0), 0, events[1]);
    OnlyApply(limits, i, Dog(4, l, 1), t - 8, events[2]);
    OnlyApply(limits, i, Dog(4, l, 2), t - 4, events[3]);
    OnlyApply(limits, i, Dog(4, secs, 2), t - 4, events[4]);
  }

  lemma OnlySteady(limits: seq<nat>, i: nat, d: Dog, prevRun: int, cur: int)
    requires i < |limits| && (d.num <= 0 || cur - prevRun < d.limit)
    ensures SteadyAt(Only(limits, i, d, prevRun, false), Process(cur))
  {
  }

  /** Raising the limit of a counting watchdog, by however little, allows a power-off less than 8 seconds
      after the new limit has run out, in a run that is steady at every other event. */
  lemma RaisedLimitPowersOff(limits: seq<nat>, i: nat, secs: nat) returns (events: seq<Event>)
    requires i < |limits| && 4 < limits[i] < secs < 0x3000_0000
    ensures |events| == 5 && Ordered(events, 0) && events[3] == SetTime(i, secs)
    ensures forall n | 0 <= n < 5 && n != 3 :: SteadyAt(At(Start(limits), events, n), events[n])
    ensures !At(Start(limits), events, 4).off && Run(Start(limits), events).off
    ensures events[4].Process? && !SilentAtLast(Run(Start(limits), events), events[4].now)
  {
    var l := limits[i];
    var t := 4 + if secs > l + 8 then secs else l + 8;
    events := RaisedLimit(i, secs, t);
    RaisedLimitStates(limits, i, secs, t);
    OnlySilence(limits, i, Dog(4, secs, 3), t, true, t);
    OnlySteady(limits, i, Dog(4, l, 0), 0, t - 8);
    OnlySteady(limits, i, Dog(4, l, 1), t - 8, t - 4);
    OnlySteady(limits, i, Dog(4, secs, 2), t - 4, t);
  }

  // ---------- a silent thread is caught ----------

  /** After a kick of watchdog i at time k: calls of watchdog_process at most `gap` apart, the first
      at most `gap` after the previous call at c; nothing else concerns watchdog i. */
  ghost predicate Polled(events: seq<Event>, i: nat, k: int, c: int, gap: nat)
    decreases |events|
  {
    events == [] || (
      match events[0]
      case Process(now) => c <= now <= c + gap && k <= now < 0x8000_0000 && Polled(events[1..], i, k, now, gap)
      case Kick(j, _) => j != i && Polled(events[1..], i, k, c, gap)
      case Disable(j) => j != i && Polled(events[1..], i, k, c, gap)
      case SetTime(j, _) => j != i && Polled(events[1..], i, k, c, gap))
  }

  /** The time of the last call. */
  function LastCall(events: seq<Event>, c: int): int {
    if events == [] then c else LastCall(events[1..], if events[0].Process? then events[0].now else c)
  }

  function RunFront(s: State, events: seq<Event>): State
    decreases |events|
  {
    if events == [] then s else RunFront(Apply(s, events[0]), events[1..])
  }

  lemma {:induction false} RunIsRunFront(s: State, events: seq<Event>)
    ensures Run(s, events) == RunFront(s, events)
    decreases |events|
  {
    if events != [] {
      AtShift(s, events, |events|);
      RunIsRunFront(Apply(s, events[0]), events[1..]);
    }
  }

  lemma {:induction false} AtShift(s: State, events: seq<Event>, n: nat)
    requires 0 < n <= |events|
    ensures At(s, events, n) == At(Apply(s, events[0]), events[1..], n - 1)
    decreases n
  {
    if n > 1 {
      AtShift(s, events, n - 1);
    }
  }

  /** Watchdog i has been silent since k; n silent checks are counted no later than they can be. */
  ghost predicate Closing(s: State, i: nat, k: int, limit: nat, gap: nat, c: int) {
    && i < |s.dogs| && s.dogs[i].ktime == k && s.dogs[i].limit == limit && s.dogs[i].num >= 0
    && 0 < k && s.prevRun <= c <= s.prevRun + 3
    && (s.prevRun < k + limit || (s.dogs[i].num >= 1 && s.prevRun < k + limit + s.dogs[i].num * (gap + 3)))
    && (s.dogs[i].num >= 3 ==> s.off)
  }

  lemma ApplyClosing(s: State, e: Event, i: nat, k: int, limit: nat, gap: nat, c: int)
    requires Closing(s, i, k, limit, gap, c) && limit < 0x8000_0000
    requires match e
             case Process(now) => c <= now <= c + gap && k <= now < 0x8000_0000
             case Kick(j, _) => j != i
             case Disable(j) => j != i
             case SetTime(j, _) => j != i
    ensures Closing(Apply(s, e), i, k, limit, gap, if e.Process? then e.now else c)
    ensures s.off ==> Apply(s, e).off
  {
    if e.Process? && Effective(s, e.now) {
      var t := Check(s, e.now);
      assert t.dogs[i] == CheckDog(s.dogs[i], e.now);
      if t.dogs[i].num >= 3 {
        assert Barks(t.dogs[i]);
      }
    }
  }

  lemma {:induction false} ClosesIn(s: State, events: seq<Event>, i: nat, k: int, limit: nat, gap: nat, c: int)
    requires Closing(s, i, k, limit, gap, c) && limit < 0x8000_0000
    requires Polled(events, i, k, c, gap)
    ensures Closing(RunFront(s, events), i, k, limit, gap, LastCall(events, c))
    decreases |events|
  {
    if events != [] {
      ApplyClosing(s, events[0], i, k, limit, gap, c);
      ClosesIn(Apply(s, events[0]), events[1..], i, k, limit, gap, if events[0].Process? then events[0].now else c);
    }
  }

  /** A thread that kicks at time k and then never again, with watchdog_process called at least every
      `gap` seconds (last at c before the kick), is powered off by every call later than
      k + limit + 2 * (gap + 3) + 2, hence by k + limit + 3 * (gap + 3). */
  lemma SilentThreadIsCaught(s: State, events: seq<Event>, i: nat, k: int, gap: nat, c: int)
    requires i < |s.dogs| && 0 < s.dogs[i].limit < 0x8000_0000 && 0 <= s.dogs[i].num < 3
    requires 0 < k && s.prevRun <= c <= s.prevRun + 3 && c <= k
    requires Polled(events, i, k, c, gap)
    requires LastCall(events, c) > k + s.dogs[i].limit + 2 * (gap + 3) + 2
    ensures Run(Apply(s, Kick(i, k)), events).off
  {
    var t, limit := Apply(s, Kick(i, k)), s.dogs[i].limit;
    assert Closing(t, i, k, limit, gap, c);
    RunIsRunFront(t, events);
    ClosesIn(t, events, i, k, limit, gap, c);
  }
}
