/** get_gpio_send_timing (model/alloc2/alloc2_senario.c:659-753): how often sensor events may be sent. */
module RateLimit {

  /** last_cycle, evt_cnt and evt_1min_flag. */
  datatype State = State(lastCycle: int, evtCnt: int, over: bool)

  /** over_speed_limit_km and over_speed_limit_time of the device settings. */
  datatype Setting = Setting(km: nat, time: nat)

  const START := State(0, 0, false)

  function Unblocked(s: State, now: int, c: Setting): State {
    if s.over && now - s.lastCycle >= c.time * 60 then START else s
  }

  /** The state once the call is counted. */
  function Counted(s: State, now: int): State {
    if now == 0 then s
    else if s.lastCycle == 0 then State(now, s.evtCnt + 1, s.over)
    else if now - s.lastCycle < 60 then s.(evtCnt := s.evtCnt + 1)
    else State(now, 0, s.over)
  }

  predicate Permits(s: State, now: int, c: Setting) {
    var u := Unblocked(s, now, c);
    !u.over && (now == 0 || u.lastCycle == 0 || Counted(u, now).evtCnt <= c.km * 2)
  }

  function Next(s: State, now: int, c: Setting): State {
    var u := Unblocked(s, now, c);
    if u.over || now == 0 then u
    else if Permits(s, now, c) then Counted(u, now).(lastCycle := now)
    else Counted(u, now).(over := true)
  }

  class GpioTiming {
    var lastCycle: int
    var evtCnt: int
    var evt1MinFlag: bool

    ghost function Now(): State reads this { State(lastCycle, evtCnt, evt1MinFlag) }

    constructor ()
      ensures Now() == START
    {
      lastCycle, evtCnt, evt1MinFlag := 0, 0, false;
    }

    method GetGpioSendTiming(curTime: int, c: Setting) returns (send: bool)
      modifies this
      ensures send == Permits(old(Now()), curTime, c)
      ensures Now() == Next(old(Now()), curTime, c)
    {
      var maxSendCnt, resetSendCntSec := c.km * 2, c.time * 60;
      if evt1MinFlag {
        if curTime - lastCycle < resetSendCntSec {
          return false;
        }
        lastCycle, evtCnt, evt1MinFlag := 0, 0, false;
      }
      if curTime == 0 {
        return true;
      }
      if lastCycle == 0 {
        lastCycle := curTime;
        evtCnt := evtCnt + 1;
        return true;
      }
      if curTime - lastCycle < 60 {
        evtCnt := evtCnt + 1;
      } else {
        lastCycle := curTime;
        evtCnt := 0;
      }
      if evtCnt > maxSendCnt {
        evt1MinFlag := true;
        return false;
      }
      evt1MinFlag := false;
      lastCycle := curTime;
      return true;
    }
  }

  /** Call times: positive and never going back. */
  ghost predicate Ordered(run: seq<int>) {
    && (forall i | 0 <= i < |run| :: 0 < run[i])
    && (forall i, j | 0 <= i <= j < |run| :: run[i] <= run[j])
  }

  function After(run: seq<int>, c: Setting): State
    decreases |run|
  {
    if run == [] then START else Next(After(run[..|run| - 1], c), run[|run| - 1], c)
  }

  /** The times of the permitted calls. */
  function Sent(run: seq<int>, c: Setting): seq<int>
    decreases |run|
  {
    if run == [] then [] else
    var before, now := run[..|run| - 1], run[|run| - 1];
    Sent(before, c) + if Permits(After(before, c), now, c) then [now] else []
  }

  /** Each event comes less than 60 seconds after the one before. */
  ghost predicate Burst(times: seq<int>) {
    forall i | 0 < i < |times| :: times[i] - times[i - 1] < 60
  }

  /** How long a burst the last event ends. */
  function Chain(times: seq<int>): (n: nat)
    ensures n <= |times| && (times != [] ==> n >= 1)
    decreases |times|
  {
    var k := |times|;
    if k == 0 then 0
    else if k > 1 && times[k - 1] - times[k - 2] < 60 then 1 + Chain(times[..k - 1])
    else 1
  }

  lemma {:induction false} BurstWithinChain(times: seq<int>, i: nat)
    requires i <= |times| && Burst(times[i..])
    ensures |times| - i <= Chain(times)
    decreases |times|
  {
    var k := |times|;
    if i + 1 < k {
      assert times[i..][k - 1 - i] - times[i..][k - 2 - i] < 60;
      assert times[..k - 1][i..] == times[i..][..k - 1 - i];
      BurstWithinChain(times[..k - 1], i);
    }
  }

  /** The invariant of a run: the count bounds the burst that is under way. */
  ghost predicate Tracks(s: State, sent: seq<int>, c: Setting) {
    if sent == [] then s == START
    else
      && s.lastCycle == sent[|sent| - 1] > 0
      && Chain(sent) <= 2 * c.km + 1
      && (!s.over ==> Chain(sent) <= s.evtCnt + 1 && (s.evtCnt <= 2 * c.km || Chain(sent) == 1))
  }

  lemma TracksStep(s: State, sent: seq<int>, now: int, c: Setting)
    requires Tracks(s, sent, c) && c.time >= 1 && now > 0
    ensures Tracks(Next(s, now, c), sent + if Permits(s, now, c) then [now] else [], c)
  {
    if Permits(s, now, c) {
      assert (sent + [now])[..|sent|] == sent;
    } else {
      assert sent + [] == sent;
    }
  }

  lemma {:induction false} RunTracks(run: seq<int>, c: Setting)
    requires Ordered(run) && c.time >= 1
    ensures Tracks(After(run, c), Sent(run, c), c)
    decreases |run|
  {
    if run != [] {
      var before := run[..|run| - 1];
      RunTracks(before, c);
      TracksStep(After(before, c), Sent(before, c), run[|run| - 1], c);
    }
  }

  /** The last call of the run was refused. */
  predicate LastRefused(run: seq<int>, c: Setting) {
    run != [] && Sent(run, c) == Sent(run[..|run| - 1], c)
  }

  /** The events of the burst under way: those since the last refusal or the last gap of 60 seconds. */
  function Length(run: seq<int>, c: Setting): nat
    decreases |run|
  {
    if run == [] then 0 else
    var before, now := run[..|run| - 1], run[|run| - 1];
    var sent := Sent(before, c);
    if LastRefused(run, c) then Length(before, c)
    else if sent == [] || LastRefused(before, c) || now - sent[|sent| - 1] >= 60 then 1
    else Length(before, c) + 1
  }

  /** That burst began with the very first event, or with the first one after a refusal. */
  predicate Opening(run: seq<int>, c: Setting)
    decreases |run|
  {
    if run == [] then true else
    var before, now := run[..|run| - 1], run[|run| - 1];
    var sent := Sent(before, c);
    if LastRefused(run, c) then Opening(before, c)
    else if sent == [] || LastRefused(before, c) then true
    else now - sent[|sent| - 1] < 60 && Opening(before, c)
  }

  /** What the state remembers of the run. */
  ghost predicate Remembers(s: State, run: seq<int>, c: Setting) {
    var sent := Sent(run, c);
    && s.over == LastRefused(run, c)
    && (if sent == [] then s == START else s.lastCycle == sent[|sent| - 1] > 0)
    && (sent != [] && !s.over ==> s.evtCnt == Length(run, c) - (if Opening(run, c) then 0 else 1))
  }

  /** When the next call is permitted, by the events alone: after a refusal, from the limit time after the
      last sent event on; otherwise when 60 seconds have passed since it, or its burst has less than its
      share, which is one event less for a burst that opens. */
  ghost predicate Due(run: seq<int>, now: int, c: Setting) {
    var sent := Sent(run, c);
    if sent == [] then true
    else if LastRefused(run, c) then now - sent[|sent| - 1] >= c.time * 60
    else now - sent[|sent| - 1] >= 60 || Length(run, c) + (if Opening(run, c) then 1 else 0) <= 2 * c.km
  }

  lemma {:induction false} RunRemembers(run: seq<int>, c: Setting)
    requires Ordered(run)
    ensures Remembers(After(run, c), run, c)
    decreases |run|
  {
    if run != [] {
      var before, now := run[..|run| - 1], run[|run| - 1];
      RunRemembers(before, c);
      assert run == before + [now];
      OneMore(before, now, c);
      hide Sent, After, Length, Opening, Ordered, Remembers, LastRefused;
      RememberStep(After(before, c), before, now, c);
    }
  }

  /** One more call, in terms of what was sent before it. */
  lemma Unfold(before: seq<int>, now: int, c: Setting, permitted: bool)
    requires Sent(before + [now], c) == Sent(before, c) + if permitted then [now] else []
    ensures var run, sent := before + [now], Sent(before, c);
            && LastRefused(run, c) == !permitted
            && Length(run, c) == (if !permitted then Length(before, c)
                                  else if sent == [] || LastRefused(before, c) || now - sent[|sent| - 1] >= 60 then 1
                                  else Length(before, c) + 1)
            && Opening(run, c) == (if !permitted then Opening(before, c)
                                   else if sent == [] || LastRefused(before, c) then true
                                   else now - sent[|sent| - 1] < 60 && Opening(before, c))
  {
    hide Sent;
    var run := before + [now];
    assert run[..|run| - 1] == before && run[|run| - 1] == now;
    if permitted {
      assert |Sent(run, c)| == |Sent(before, c)| + 1;
    } else {
      assert Sent(run, c) == Sent(before, c);
    }
  }

  lemma RememberStep(s: State, before: seq<int>, now: int, c: Setting)
    requires now > 0 && Remembers(s, before, c)
    requires Sent(before + [now], c) == Sent(before, c) + if Permits(s, now, c) then [now] else []
    ensures Remembers(Next(s, now, c), before + [now], c)
  {
    Unfold(before, now, c, Permits(s, now, c));
    hide Sent, Length, Opening, LastRefused;
    var sent := Sent(before, c);
    if Permits(s, now, c) {
      assert (sent + [now])[|sent|] == now;
    } else {
      assert sent + [] == sent;
    }
  }

  /** A call is permitted exactly when it is due. */
  lemma PermittedIff(run: seq<int>, now: int, c: Setting)
    requires Ordered(run + [now])
    ensures Sent(run + [now], c) == Sent(run, c) + if Due(run, now, c) then [now] else []
  {
    assert Ordered(run) by {
      assert forall i | 0 <= i < |run| :: (run + [now])[i] == run[i];
    }
    RunRemembers(run, c);
    OneMore(run, now, c);
    assert (run + [now])[|run|] == now;
    hide Sent, After, Length, Opening, LastRefused;
    assert Due(run, now, c) == Permits(After(run, c), now, c);
  }

  /** Whatever was sent first was sent by a shorter run. */
  lemma {:induction false} SentPrefix(run: seq<int>, c: Setting, j: nat) returns (n: nat)
    requires j <= |Sent(run, c)|
    ensures n <= |run| && Sent(run[..n], c) == Sent(run, c)[..j]
    decreases |run|
  {
    if j == |Sent(run, c)| {
      assert run[..|run|] == run;
      return |run|;
    }
    var before := run[..|run| - 1];
    n := SentPrefix(before, c, j);
    assert before[..n] == run[..n];
  }

  /** No burst of sent events has more than 2 * over_speed_limit_km + 1 members. */
  lemma BurstsAreBounded(run: seq<int>, c: Setting, i: nat, j: nat)
    requires Ordered(run) && c.time >= 1
    requires i <= j <= |Sent(run, c)| && Burst(Sent(run, c)[i..j])
    ensures j - i <= 2 * c.km + 1
  {
    var n := SentPrefix(run, c, j);
    var sent := Sent(run[..n], c);
    assert sent[i..] == Sent(run, c)[i..j];
    BurstWithinChain(sent, i);
    RunTracks(run[..n], c);
  }

  /** One call at 1 s, then n calls at 61 s. */
  function Volley(n: nat): (run: seq<int>)
    ensures |run| == n + 1
  {
    if n == 0 then [1] else Volley(n - 1) + [61]
  }

  lemma {:induction false} VolleyIsOrdered(n: nat)
    ensures Ordered(Volley(n)) && Volley(n)[0] == 1
    ensures forall k | 1 <= k <= n :: Volley(n)[k] == 61
  {
    if n > 0 { VolleyIsOrdered(n - 1); }
  }

  lemma OneMore(run: seq<int>, now: int, c: Setting)
    ensures After(run + [now], c) == Next(After(run, c), now, c)
    ensures Sent(run + [now], c) == Sent(run, c) + if Permits(After(run, c), now, c) then [now] else []
  {
    assert (run + [now])[..|run|] == run;
  }

  lemma FirstCall(c: Setting)
    ensures Sent([1], c) == [1] && After([1], c) == State(1, 1, false)
  {
    OneMore([], 1, c);
    assert [] + [1] == [1];
  }

  lemma VolleyStep(s: State, n: nat, c: Setting)
    requires 1 <= n <= 2 * c.km + 1 && s == if n == 1 then State(1, 1, false) else State(61, n - 2, false)
    ensures Permits(s, 61, c) && Next(s, 61, c) == State(61, n - 1, false)
  {
  }

  lemma VolleyIs(n: nat)
    requires n > 0
    ensures Volley(n) == Volley(n - 1) + [61]
  {
  }

  lemma VolleyGrows(run: seq<int>, n: nat, c: Setting)
    requires 1 <= n <= 2 * c.km + 1 && Sent(run, c) == run
    requires After(run, c) == if n == 1 then State(1, 1, false) else State(61, n - 2, false)
    ensures Sent(run + [61], c) == run + [61] && After(run + [61], c) == State(61, n - 1, false)
  {
    hide *;
    OneMore(run, 61, c);
    VolleyStep(After(run, c), n, c);
  }

  /** The calls of a volley are all permitted until the limit is used up. */
  lemma {:induction false} VolleyIsSent(n: nat, c: Setting)
    requires n <= 2 * c.km + 1
    ensures Sent(Volley(n), c) == Volley(n)
    ensures After(Volley(n), c) == if n == 0 then State(1, 1, false) else State(61, n - 1, false)
  {
    if n == 0 {
      FirstCall(c);
    } else {
      hide *;
      VolleyIsSent(n - 1, c);
      VolleyGrows(Volley(n - 1), n, c);
      VolleyIs(n);
    }
  }

  /** The bound is reached, whatever the settings. */
  lemma BoundIsReached(c: Setting) returns (run: seq<int>)
    ensures Ordered(run) && |Sent(run, c)| == 2 * c.km + 2
    ensures Burst(Sent(run, c)[1..])
  {
    run := Volley(2 * c.km + 1);
    VolleyIsOrdered(2 * c.km + 1);
    VolleyIsSent(2 * c.km + 1, c);
  }

  /** With a limit time of 0 one refusal is all that follows, and the burst goes on. */
  lemma LimitTimeZero(km: nat) returns (run: seq<int>)
    ensures Ordered(run)
    ensures |Sent(run, Setting(km, 0))| == 2 * km + 3 && Burst(Sent(run, Setting(km, 0))[1..])
  {
    hide After, Sent;
    var c, n := Setting(km, 0), 2 * km + 1;
    VolleyIsOrdered(n);
    VolleyIsOrdered(n + 2);
    VolleyIsSent(n, c);
    OneMore(Volley(n), 61, c);
    OneMore(Volley(n) + [61], 61, c);
    assert Volley(n + 1) == Volley(n) + [61];
    run := Volley(n + 2);
    assert Sent(run, c) == (Volley(n) + []) + [61];
  }

  ghost predicate Limits(c: Setting) {
    forall run: seq<int>, i: nat, j: nat | Ordered(run) && i <= j <= |Sent(run, c)| && Burst(Sent(run, c)[i..j]) ::
      j - i <= 2 * c.km + 1
  }

  /** The settings limit every burst exactly when the limit time is not 0. */
  lemma LimitsIff(c: Setting)
    ensures Limits(c) <==> c.time >= 1
  {
    if c.time >= 1 {
      forall run: seq<int>, i: nat, j: nat | Ordered(run) && i <= j <= |Sent(run, c)| && Burst(Sent(run, c)[i..j])
        ensures j - i <= 2 * c.km + 1
      {
        BurstsAreBounded(run, c, i, j);
      }
    } else {
      var run := LimitTimeZero(c.km);
      var sent := Sent(run, c);
      assert sent[1..] == sent[1..|sent|];
    }
  }
}
