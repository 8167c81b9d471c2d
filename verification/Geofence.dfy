/** util/geofence-v2.c: entry and exit events of up to 100 fences, with hold counters. Distances
    are integers supplied by the caller; a negative one stands for a failed computation. */
module Geofence {

  const GEO_FENCE_V2_MAX_COUNT := 100
  const WAIT_TIME_UNTIL_NEXT_GEO_EVENT := 3

  datatype Notification = None | In | Out

  datatype Kind = Unknown | Entry | Exit | EntryExit

  datatype Setup = Setup(enable: bool, range: int, kind: Kind)

  datatype Fence = Fence(setup: Setup, status: Notification, hold: int)

  datatype Event = NoEvent | Event(fence: nat, what: Notification)

  // ---------- one fence ----------

  /** _check_fence_data */
  function CheckFenceData(dist: int, entryRange: int, exitRange: int): Notification {
    if dist <= entryRange then In else if dist > exitRange then Out else None
  }

  /** The side of the fence that a distance calls for; None if it says nothing. */
  function Target(s: Setup, dist: int): Notification {
    if dist < 0 || s.kind == Unknown then None else CheckFenceData(dist, s.range, s.range)
  }

  /** Whether a change to side n is reported or only recorded. */
  predicate Reported(kind: Kind, n: Notification) {
    kind == EntryExit || (kind == Entry && n == In) || (kind == Exit && n == Out)
  }

  /** An enabled fence whose recorded status contradicts the distance. */
  predicate Disagrees(f: Fence, dist: int) {
    f.setup.enable && Target(f.setup, dist) != None && Target(f.setup, dist) != f.status
  }

  predicate Fires(f: Fence, dist: int) {
    f.hold <= 0 && Disagrees(f, dist) && Reported(f.setup.kind, Target(f.setup, dist))
  }

  /** A fence the scan has passed without an event. */
  function Passed(f: Fence, dist: int): Fence {
    if !f.setup.enable then f
    else if f.hold > 0 || !Disagrees(f, dist) then f.(hold := f.hold - 1)
    else f.(hold := f.hold - 1, status := Target(f.setup, dist))
  }

  function Fired(f: Fence, dist: int): Fence {
    f.(status := Target(f.setup, dist), hold := WAIT_TIME_UNTIL_NEXT_GEO_EVENT)
  }

  // ---------- one call ----------

  /** The least index from i on that fires, or |fs|. */
  function FirstFiring(fs: seq<Fence>, ds: seq<int>, i: nat): (k: nat)
    requires |fs| == |ds| && i <= |fs|
    ensures i <= k <= |fs| && (k < |fs| ==> Fires(fs[k], ds[k]))
    ensures forall j | i <= j < k :: !Fires(fs[j], ds[j])
    decreases |fs| - i
  {
    if i == |fs| || Fires(fs[i], ds[i]) then i else FirstFiring(fs, ds, i + 1)
  }

  function EventOf(fs: seq<Fence>, ds: seq<int>): Event
    requires |fs| == |ds|
  {
    var k := FirstFiring(fs, ds, 0);
    if k < |fs| then Event(k, Target(fs[k].setup, ds[k])) else NoEvent
  }

  /** The scan stops behind the first fence that fires: later fences stay as they are. */
  function Step(fs: seq<Fence>, ds: seq<int>): (r: seq<Fence>)
    requires |fs| == |ds|
    ensures |r| == |fs|
    ensures var k := FirstFiring(fs, ds, 0);
            forall j | 0 <= j < |fs| ::
              r[j] == if j < k then Passed(fs[j], ds[j]) else if j == k then Fired(fs[j], ds[j]) else fs[j]
  {
    var k := FirstFiring(fs, ds, 0);
    seq(|fs|, j requires 0 <= j < |fs| =>
      if j < k then Passed(fs[j], ds[j]) else if j == k then Fired(fs[j], ds[j]) else fs[j])
  }

  class FenceTable {
    const setup: array<Setup>
    const status: array<Notification>
    const hold: array<int>

    ghost predicate Valid() {
      && setup.Length == GEO_FENCE_V2_MAX_COUNT
      && status.Length == GEO_FENCE_V2_MAX_COUNT
      && hold.Length == GEO_FENCE_V2_MAX_COUNT
    }

    ghost function Fences(): (fs: seq<Fence>)
      reads setup, status, hold
      requires Valid()
      ensures |fs| == GEO_FENCE_V2_MAX_COUNT
    {
      seq(GEO_FENCE_V2_MAX_COUNT, i requires 0 <= i < GEO_FENCE_V2_MAX_COUNT reads setup, status, hold =>
        Fence(setup[i], status[i], hold[i]))
    }

    /** _init_geo_fence_data */
    constructor ()
      ensures Valid() && fresh(setup) && fresh(status) && fresh(hold)
      ensures forall i | 0 <= i < GEO_FENCE_V2_MAX_COUNT :: Fences()[i] == Fence(Setup(false, 0, Unknown), Out, 0)
    {
      setup := new Setup[GEO_FENCE_V2_MAX_COUNT](_ => Setup(false, 0, Unknown));
      status := new Notification[GEO_FENCE_V2_MAX_COUNT](_ => Out);
      hold := new int[GEO_FENCE_V2_MAX_COUNT](_ => 0);
    }

    /** set_geo_fence_setup_info_v2: status and hold counter of the fence are kept. */
    method SetSetup(idx: int, data: Setup) returns (ret: int)
      requires Valid()
      modifies setup
      ensures ret == if 0 <= idx < GEO_FENCE_V2_MAX_COUNT then 0 else -1
      ensures ret == 0 ==> Fences() == old(Fences())[idx := old(Fences())[idx].(setup := data)]
      ensures ret == -1 ==> Fences() == old(Fences())
    {
      if idx >= GEO_FENCE_V2_MAX_COUNT || idx < 0 {
        return -1;
      }
      setup[idx] := data;
      ret := 0;
    }

    /** _get_notification */
    method GetNotification(idx: nat, dist: int) returns (result: Notification)
      requires Valid() && idx < GEO_FENCE_V2_MAX_COUNT && setup[idx].enable
      modifies status
      ensures forall i | 0 <= i < GEO_FENCE_V2_MAX_COUNT && i != idx :: status[i] == old(status[i])
      ensures var f := old(Fences()[idx]);
              status[idx] == (if Disagrees(f, dist) then Target(f.setup, dist) else f.status)
              && result == (if Disagrees(f, dist) && Reported(f.setup.kind, Target(f.setup, dist))
                            then Target(f.setup, dist) else None)
    {
      if dist < 0 {
        return None;
      }
      result := CheckFenceData(dist, setup[idx].range, setup[idx].range);
      match setup[idx].kind {
        case EntryExit =>
        case Entry =>
        case Exit =>
        case Unknown => result := None;
      }
      if result != None {
        if result != status[idx] {
          status[idx] := result;
          if setup[idx].kind == Entry {
            if result != In {
              result := None;
            }
          } else if setup[idx].kind == Exit {
            if result != Out {
              result := None;
            }
          }
          return;
        }
      }
      result := None;
    }

    /** get_geofence_notification_v2; dists[i] is the distance of fence i. */
    method GetGeofenceNotification(dists: seq<int>) returns (result: Notification, fenceNum: int)
      requires Valid() && |dists| == GEO_FENCE_V2_MAX_COUNT
      modifies status, hold
      ensures Fences() == Step(old(Fences()), dists)
      ensures match EventOf(old(Fences()), dists)
              case NoEvent => result == None
              case Event(fence, what) => result == what && fenceNum == fence && what != None
    {
      hide Target, Reported, CheckFenceData;
      ghost var fs := Fences();
      fenceNum := -1;
      for i := 0 to GEO_FENCE_V2_MAX_COUNT
        invariant FirstFiring(fs, dists, 0) == FirstFiring(fs, dists, i)
        invariant forall j | 0 <= j < i :: Fence(setup[j], status[j], hold[j]) == Passed(fs[j], dists[j])
        invariant forall j | i <= j < GEO_FENCE_V2_MAX_COUNT :: Fence(setup[j], status[j], hold[j]) == fs[j]
      {
        if !setup[i].enable {
          continue;
        }
        hold[i] := hold[i] - 1;
        if hold[i] + 1 > 0 {
          continue;
        }
        result := GetNotification(i, dists[i]);
        if result == None {
          continue;
        }
        hold[i] := WAIT_TIME_UNTIL_NEXT_GEO_EVENT;
        fenceNum := i;
        return;
      }
      result := None;
    }
  }

  // ---------- runs ----------

  /** The fences after the calls in inputs, one vector of distances per call. */
  function Run(fs: seq<Fence>, inputs: seq<seq<int>>): (r: seq<Fence>)
    requires forall c | 0 <= c < |inputs| :: |inputs[c]| == |fs|
    ensures |r| == |fs|
    decreases |inputs|
  {
    if inputs == [] then fs else Step(Run(fs, inputs[..|inputs| - 1]), inputs[|inputs| - 1])
  }

  datatype Report = Report(call: nat, what: Notification)

  /** The events of fence k, oldest first, with the number of the call that reported them. */
  function Reports(fs: seq<Fence>, inputs: seq<seq<int>>, k: nat): seq<Report>
    requires forall c | 0 <= c < |inputs| :: |inputs[c]| == |fs|
    decreases |inputs|
  {
    if inputs == [] then [] else
      var n := |inputs| - 1;
      var before := Reports(fs, inputs[..n], k);
      match EventOf(Run(fs, inputs[..n]), inputs[n])
      case NoEvent => before
      case Event(fence, what) => if fence == k then before + [Report(n, what)] else before
  }

  /** What the event history of fence k says about its present status and hold counter; `start` is the
      status it had at first. */
  ghost predicate HistoryFits(f: Fence, start: Notification, reports: seq<Report>, calls: nat) {
    && SidesFit(f, start, reports)
    && (forall j | 0 <= j < |reports| :: reports[j].call < calls)
    && (forall j | 0 < j < |reports| :: reports[j].call >= reports[j - 1].call + 4)
    && (reports != [] ==> f.hold + calls >= reports[|reports| - 1].call + 4)
  }

  ghost predicate SidesFit(f: Fence, start: Notification, reports: seq<Report>) {
    && (forall j | 0 <= j < |reports| :: Reported(f.setup.kind, reports[j].what) && reports[j].what != None)
    && (f.setup.kind == EntryExit ==>
          && f.status == (if reports == [] then start else reports[|reports| - 1].what)
          && (reports != [] ==> reports[0].what != start)
          && forall j | 0 < j < |reports| :: reports[j].what != reports[j - 1].what)
    && (f.setup.kind == Unknown || !f.setup.enable ==> reports == [])
  }

  /** What one call does to fence k. */
  lemma StepOf(fs: seq<Fence>, ds: seq<int>, k: nat)
    requires |fs| == |ds| && k < |fs|
    ensures var e, f, g := EventOf(fs, ds), fs[k], Step(fs, ds)[k];
            if e.Event? && e.fence == k then Fires(f, ds[k]) && e.what == Target(f.setup, ds[k]) && g == Fired(f, ds[k])
            else g == f || (g == Passed(f, ds[k]) && !Fires(f, ds[k]))
  {
  }

  lemma StepKeepsHistory(fs: seq<Fence>, ds: seq<int>, k: nat, start: Notification, reports: seq<Report>, calls: nat)
    requires |fs| == |ds| && k < |fs| && HistoryFits(fs[k], start, reports, calls)
    ensures var e := EventOf(fs, ds);
            var after := if e.Event? && e.fence == k then reports + [Report(calls, e.what)] else reports;
            Step(fs, ds)[k].setup == fs[k].setup && HistoryFits(Step(fs, ds)[k], start, after, calls + 1)
  {
    StepOf(fs, ds, k);
    hide Step, EventOf;
  }

  lemma {:induction false} RunHistory(fs: seq<Fence>, inputs: seq<seq<int>>, k: nat)
    requires forall c | 0 <= c < |inputs| :: |inputs[c]| == |fs|
    requires k < |fs|
    ensures Run(fs, inputs)[k].setup == fs[k].setup
    ensures HistoryFits(Run(fs, inputs)[k], fs[k].status, Reports(fs, inputs, k), |inputs|)
    decreases |inputs|
  {
    if inputs != [] {
      var n := |inputs| - 1;
      RunHistory(fs, inputs[..n], k);
      StepKeepsHistory(Run(fs, inputs[..n]), inputs[n], k, fs[k].status, Reports(fs, inputs[..n], k), n);
    }
  }

  /** Over any run, from any status and hold counter: an entry-and-exit fence never reports a side twice
      in a row, nor first the side it was on; an entry-only fence reports only In, an exit-only fence only
      Out, any other fence nothing; and two reports of one fence are at least four calls apart. */
  lemma ReportsOfFence(fs: seq<Fence>, inputs: seq<seq<int>>, k: nat)
    requires forall c | 0 <= c < |inputs| :: |inputs[c]| == |fs|
    requires k < |fs|
    ensures var r, kind := Reports(fs, inputs, k), fs[k].setup.kind;
            && (forall j | 0 <= j < |r| :: r[j].what == In || r[j].what == Out)
            && (kind == EntryExit && r != [] ==> r[0].what != fs[k].status)
            && (kind == EntryExit ==> forall j | 0 < j < |r| :: r[j].what != r[j - 1].what)
            && (kind == Entry ==> forall j | 0 <= j < |r| :: r[j].what == In)
            && (kind == Exit ==> forall j | 0 <= j < |r| :: r[j].what == Out)
            && (kind == Unknown || !fs[k].setup.enable ==> r == [])
            && forall i, j | 0 <= i < j < |r| :: r[j].call >= r[i].call + 4
  {
    RunHistory(fs, inputs, k);
    var r := Reports(fs, inputs, k);
    forall i, j | 0 <= i < j < |r| ensures r[j].call >= r[i].call + 4 {
      ReportsSpread(r, i, j);
    }
  }

  lemma {:induction false} ReportsSpread(r: seq<Report>, i: nat, j: nat)
    requires i < j < |r| && forall m | 0 < m < |r| :: r[m].call >= r[m - 1].call + 4
    ensures r[j].call >= r[i].call + 4
    decreases j
  {
    if i < j - 1 {
      ReportsSpread(r, i, j - 1);
    }
  }

  // ---------- what a call does, by the distances ----------

  /** Fence f, at this distance, has reason to report side n. */
  ghost predicate HasNews(f: Fence, dist: int, n: Notification) {
    && f.setup.enable && f.hold <= 0 && dist >= 0
    && n == (if dist <= f.setup.range then In else Out) && n != f.status
    && (f.setup.kind == EntryExit || (f.setup.kind == Entry && n == In) || (f.setup.kind == Exit && n == Out))
  }

  lemma NewsFires(f: Fence, dist: int)
    ensures Fires(f, dist) <==> HasNews(f, dist, In) || HasNews(f, dist, Out)
    ensures forall n :: HasNews(f, dist, n) ==> n == Target(f.setup, dist)
    ensures Fires(f, dist) ==> HasNews(f, dist, Target(f.setup, dist))
  {
  }

  /** A call reports fence k with side n exactly when k is the lowest fence with news, and n is the side the
      distance puts it on. */
  lemma EventIsLowest(fs: seq<Fence>, ds: seq<int>, k: nat, n: Notification)
    requires |fs| == |ds|
    ensures EventOf(fs, ds) == Event(k, n) <==>
              k < |fs| && HasNews(fs[k], ds[k], n) && forall j, m | 0 <= j < k :: !HasNews(fs[j], ds[j], m)
  {
    forall j | 0 <= j < |fs| ensures Fires(fs[j], ds[j]) <==> exists m :: HasNews(fs[j], ds[j], m) {
      NewsFires(fs[j], ds[j]);
    }
    if k < |fs| {
      NewsFires(fs[k], ds[k]);
    }
    hide Fires, HasNews, Target;
  }

  /** What a call does to every fence: those up to the one reported are scanned, and a scanned fence that is
      enabled, of a known kind, not held and whose distance is known takes the side of its distance, reported
      or not. A failed distance or an unknown kind changes no status. */
  lemma CallIs(fs: seq<Fence>, ds: seq<int>, k: nat)
    requires |fs| == |ds| && k < |fs|
    ensures var e, f, g := EventOf(fs, ds), fs[k], Step(fs, ds)[k];
            var scanned := f.setup.enable && (e.Event? ==> k <= e.fence);
            && g.setup == f.setup
            && g.status == (if scanned && f.hold <= 0 && ds[k] >= 0 && f.setup.kind != Unknown
                            then if ds[k] <= f.setup.range then In else Out else f.status)
            && g.hold == (if !scanned then f.hold else if e.Event? && e.fence == k then 3 else f.hold - 1)
  {
  }

  /** Every report of any run says the side of the distance of its call. */
  lemma {:induction false} ReportsAreRight(fs: seq<Fence>, inputs: seq<seq<int>>, k: nat, j: nat)
    requires forall c | 0 <= c < |inputs| :: |inputs[c]| == |fs|
    requires k < |fs| && j < |Reports(fs, inputs, k)|
    ensures var r := Reports(fs, inputs, k)[j];
            && r.call < |inputs| && inputs[r.call][k] >= 0
            && r.what == if inputs[r.call][k] <= fs[k].setup.range then In else Out
    decreases |inputs|
  {
    var n := |inputs| - 1;
    if j < |Reports(fs, inputs[..n], k)| {
      ReportsAreRight(fs, inputs[..n], k, j);
    } else {
      RunHistory(fs, inputs[..n], k);
      EventIsLowest(Run(fs, inputs[..n]), inputs[n], k, Reports(fs, inputs, k)[j].what);
    }
  }

  // ---------- convergence when the vehicle stands still ----------

  /** How many fences from i on contradict the distances. */
  function Wrong(fs: seq<Fence>, ds: seq<int>, i: nat): (n: nat)
    requires |fs| == |ds| && i <= |fs|
    ensures n <= |fs| - i
    ensures n == 0 <==> forall j | i <= j < |fs| :: !Disagrees(fs[j], ds[j])
    decreases |fs| - i
  {
    if i == |fs| then 0 else (if Disagrees(fs[i], ds[i]) then 1 else 0) + Wrong(fs, ds, i + 1)
  }

  lemma {:induction false} WrongShrinks(fs: seq<Fence>, gs: seq<Fence>, ds: seq<int>, i: nat, k: int)
    requires |fs| == |gs| == |ds| && i <= |fs| && k < |fs|
    requires forall j | 0 <= j < |fs| && Disagrees(gs[j], ds[j]) :: Disagrees(fs[j], ds[j])
    requires k >= 0 ==> Disagrees(fs[k], ds[k]) && !Disagrees(gs[k], ds[k])
    ensures Wrong(gs, ds, i) <= Wrong(fs, ds, i) - (if i <= k then 1 else 0)
    decreases |fs| - i
  {
    if i < |fs| {
      WrongShrinks(fs, gs, ds, i + 1, k);
    }
  }

  /** Every fence in disagreement is held for at most h more scans. */
  ghost predicate HeldAtMost(fs: seq<Fence>, ds: seq<int>, h: nat)
    requires |fs| == |ds|
  {
    forall j | 0 <= j < |fs| && Disagrees(fs[j], ds[j]) :: fs[j].hold <= h
  }

  /** A call either reports, and one disagreement is gone, or scans all fences, and every hold
      counter is one closer to zero. */
  lemma StepTowardsAgreement(fs: seq<Fence>, ds: seq<int>, h: nat)
    requires |fs| == |ds| && HeldAtMost(fs, ds, h) && Wrong(fs, ds, 0) > 0
    ensures var gs := Step(fs, ds);
            if EventOf(fs, ds).Event? then Wrong(gs, ds, 0) < Wrong(fs, ds, 0) && HeldAtMost(gs, ds, h)
            else if h > 0 then Wrong(gs, ds, 0) <= Wrong(fs, ds, 0) && HeldAtMost(gs, ds, h - 1)
            else Wrong(gs, ds, 0) == 0 && HeldAtMost(gs, ds, 0)
  {
    var gs, k := Step(fs, ds), FirstFiring(fs, ds, 0);
    WrongShrinks(fs, gs, ds, 0, if k < |fs| then k else -1);
  }

  function Repeat(ds: seq<int>, n: nat): (r: seq<seq<int>>)
    ensures |r| == n && forall c | 0 <= c < n :: r[c] == ds
  {
    if n == 0 then [] else Repeat(ds, n - 1) + [ds]
  }

  /** n calls with the same distances. */
  function Wait(fs: seq<Fence>, ds: seq<int>, n: nat): (r: seq<Fence>)
    requires |fs| == |ds|
    ensures |r| == |fs|
  {
    Run(fs, Repeat(ds, n))
  }

  lemma {:induction false} WaitFirst(fs: seq<Fence>, ds: seq<int>, n: nat)
    requires |fs| == |ds|
    ensures Wait(fs, ds, n + 1) == Wait(Step(fs, ds), ds, n)
    decreases n
  {
    assert Repeat(ds, n + 1)[..n] == Repeat(ds, n);
    if n > 0 {
      WaitFirst(fs, ds, n - 1);
      assert Repeat(ds, n)[..n - 1] == Repeat(ds, n - 1);
    } else {
      assert Run(fs, []) == fs;
    }
  }

  lemma {:induction false} Settle(fs: seq<Fence>, ds: seq<int>, h: nat, n: nat)
    requires |fs| == |ds| && HeldAtMost(fs, ds, h)
    requires n >= Wrong(fs, ds, 0) + h || Wrong(fs, ds, 0) == 0
    ensures Wrong(Wait(fs, ds, n), ds, 0) == 0
    decreases n
  {
    hide Step, EventOf, HeldAtMost, Wrong, Wait;
    if Wrong(fs, ds, 0) == 0 {
      Settled(fs, ds, n);
    } else {
      WaitFirst(fs, ds, n - 1);
      StepTowardsAgreement(fs, ds, h);
      Settle(Step(fs, ds), ds, if EventOf(fs, ds).Event? || h == 0 then h else h - 1, n - 1);
    }
  }

  /** Once every fence agrees, nothing is ever reported and every fence keeps agreeing. */
  lemma {:induction false} Settled(fs: seq<Fence>, ds: seq<int>, n: nat)
    requires |fs| == |ds| && Wrong(fs, ds, 0) == 0
    ensures Wrong(Wait(fs, ds, n), ds, 0) == 0
    ensures EventOf(Wait(fs, ds, n), ds) == NoEvent
    decreases n
  {
    WaitNone(fs, ds);
    hide Wait, Step, Passed, Wrong;
    if n > 0 {
      WaitLast(fs, ds, n);
      var before := Wait(fs, ds, n - 1);
      Settled(fs, ds, n - 1);
      AgreedStep(before, ds);
    } else {
      AgreedStep(fs, ds);
    }
  }

  lemma WaitNone(fs: seq<Fence>, ds: seq<int>)
    requires |fs| == |ds|
    ensures Wait(fs, ds, 0) == fs
  {
  }

  lemma WaitLast(fs: seq<Fence>, ds: seq<int>, n: nat)
    requires |fs| == |ds| && n > 0
    ensures Wait(fs, ds, n) == Step(Wait(fs, ds, n - 1), ds)
  {
    assert Repeat(ds, n)[..n - 1] == Repeat(ds, n - 1);
  }

  lemma AgreedStep(fs: seq<Fence>, ds: seq<int>)
    requires |fs| == |ds| && Wrong(fs, ds, 0) == 0
    ensures EventOf(fs, ds) == NoEvent && Wrong(Step(fs, ds), ds, 0) == 0 && EventOf(Step(fs, ds), ds) == NoEvent
  {
    WrongShrinks(fs, Step(fs, ds), ds, 0, -1);
    hide Wrong;
    NoneFires(fs, ds);
    NoneFires(Step(fs, ds), ds);
  }

  lemma NoneFires(fs: seq<Fence>, ds: seq<int>)
    requires |fs| == |ds| && Wrong(fs, ds, 0) == 0
    ensures EventOf(fs, ds) == NoEvent
  {
    hide Wrong, Target;
  }

  /** Over any run hold counters never exceed 3. */
  lemma {:induction false} HoldBound(fs: seq<Fence>, inputs: seq<seq<int>>)
    requires forall c | 0 <= c < |inputs| :: |inputs[c]| == |fs|
    requires forall j | 0 <= j < |fs| :: fs[j].hold <= 3
    ensures forall j | 0 <= j < |fs| :: Run(fs, inputs)[j].hold <= 3
    decreases |inputs|
  {
    if inputs != [] {
      HoldBound(fs, inputs[..|inputs| - 1]);
    }
  }

  /** Convergence: with D fences in disagreement, D + 3 calls at unchanged distances bring every
      fence into agreement, and from then on no call reports anything. */
  lemma Convergence(fs: seq<Fence>, ds: seq<int>, n: nat)
    requires |fs| == |ds| && forall j | 0 <= j < |fs| :: fs[j].hold <= 3
    requires n >= Wrong(fs, ds, 0) + 3
    ensures forall j | 0 <= j < |fs| :: !Disagrees(Wait(fs, ds, n)[j], ds[j])
    ensures EventOf(Wait(fs, ds, n), ds) == NoEvent
  {
    Settle(fs, ds, 3, n);
    Settled(Wait(fs, ds, n), ds, 0);
    assert Wait(Wait(fs, ds, n), ds, 0) == Wait(fs, ds, n);
  }

  /** The same wherever a run from such a table has led. */
  lemma ConvergenceAfterRun(fs: seq<Fence>, inputs: seq<seq<int>>, ds: seq<int>, n: nat)
    requires forall c | 0 <= c < |inputs| :: |inputs[c]| == |fs|
    requires |fs| == |ds| && forall j | 0 <= j < |fs| :: fs[j].hold <= 3
    requires n >= Wrong(Run(fs, inputs), ds, 0) + 3
    ensures forall j | 0 <= j < |fs| :: !Disagrees(Wait(Run(fs, inputs), ds, n)[j], ds[j])
    ensures EventOf(Wait(Run(fs, inputs), ds, n), ds) == NoEvent
  {
    HoldBound(fs, inputs);
    Convergence(Run(fs, inputs), ds, n);
  }

  /** Where the fences have settled: every enabled fence of a known kind is on the side of its distance. */
  lemma SettledSides(fs: seq<Fence>, ds: seq<int>, n: nat, j: nat)
    requires |fs| == |ds| && j < |fs| && forall i | 0 <= i < |fs| :: fs[i].hold <= 3
    requires n >= Wrong(fs, ds, 0) + 3
    requires fs[j].setup.enable && fs[j].setup.kind != Unknown && ds[j] >= 0
    ensures Wait(fs, ds, n)[j].status == if ds[j] <= fs[j].setup.range then In else Out
  {
    Convergence(fs, ds, n);
    RunHistory(fs, Repeat(ds, n), j);
  }

  // ---------- the bound is reached ----------

  const ROUND := Setup(true, 10, EntryExit)

  /** d fences that should be inside: the first n of them are, the next ones are free to report, and the
      last one is held for h more scans. */
  ghost predicate Stage(fs: seq<Fence>, d: nat, n: nat, h: nat) {
    && n < d == |fs|
    && (forall j | 0 <= j < d :: fs[j].setup == ROUND)
    && (forall j | 0 <= j < n :: fs[j].status == In)
    && (forall j | n <= j < d - 1 :: fs[j].status == Out && fs[j].hold <= 0)
    && fs[d - 1].status == Out && fs[d - 1].hold == h
  }

  /** d distances inside the range. */
  ghost predicate Near(ds: seq<int>, d: nat) {
    |ds| == d && forall j | 0 <= j < d :: ds[j] == 5
  }

  lemma StageAdvances(fs: seq<Fence>, ds: seq<int>, d: nat, n: nat, h: nat)
    requires Stage(fs, d, n, h) && h > 0 && Near(ds, d)
    ensures if n < d - 1 then Stage(Step(fs, ds), d, n + 1, h) else Stage(Step(fs, ds), d, n, h - 1)
  {
    var k := FirstFiring(fs, ds, 0);
    assert forall j | 0 <= j < n :: !Fires(fs[j], ds[j]);
    assert !Fires(fs[d - 1], ds[d - 1]);
    if n < d - 1 {
      assert Fires(fs[n], ds[n]);
      assert k == n;
    } else {
      assert k == d;
    }
  }

  lemma {:induction false} StageAfter(fs: seq<Fence>, ds: seq<int>, d: nat, h: nat, calls: nat)
    requires Stage(fs, d, 0, h) && Near(ds, d) && calls <= d - 1 + h && h > 0
    ensures if calls < d then Stage(Wait(fs, ds, calls), d, calls, h)
            else Stage(Wait(fs, ds, calls), d, d - 1, d - 1 + h - calls)
    decreases calls
  {
    StageSize(fs, ds, d, 0, h);
    hide Stage, Near, Step, Wait;
    if calls == 0 {
      WaitNone(fs, ds);
    } else {
      WaitLast(fs, ds, calls);
      StageAfter(fs, ds, d, h, calls - 1);
      var before := Wait(fs, ds, calls - 1);
      if calls < d {
        StageAdvances(before, ds, d, calls - 1, h);
      } else {
        StageAdvances(before, ds, d, d - 1, d + h - calls);
      }
    }
  }

  lemma StageSize(fs: seq<Fence>, ds: seq<int>, d: nat, n: nat, h: nat)
    requires Stage(fs, d, n, h) && Near(ds, d)
    ensures n < d == |fs| == |ds|
  {
  }

  lemma {:induction false} WrongAll(fs: seq<Fence>, ds: seq<int>, i: nat)
    requires |fs| == |ds| && i <= |fs| && forall j | i <= j < |fs| :: Disagrees(fs[j], ds[j])
    ensures Wrong(fs, ds, i) == |fs| - i
    decreases |fs| - i
  {
    if i < |fs| {
      WrongAll(fs, ds, i + 1);
    }
  }

  /** One call fewer is not enough, for any number d of disagreeing fences. */
  lemma ConvergenceIsTight(d: nat) returns (fs: seq<Fence>, ds: seq<int>)
    requires d >= 1
    ensures |fs| == |ds| == d && forall j | 0 <= j < d :: fs[j].hold <= 3
    ensures Wrong(fs, ds, 0) == d && Wrong(Wait(fs, ds, d + 2), ds, 0) > 0
  {
    fs := seq(d, j requires 0 <= j < d => Fence(ROUND, Out, if j == d - 1 then 3 else 0));
    ds := seq(d, j requires 0 <= j < d => 5);
    WrongAll(fs, ds, 0);
    StageAfter(fs, ds, d, 3, d + 2);
    var gs := Wait(fs, ds, d + 2);
    assert Disagrees(gs[d - 1], ds[d - 1]);
  }
}
