/** model/alloc2/alloc2_daily_info.c: distances of a trip, from a stream of odometer totals. */
module Trip {

  /** The statics keyon_distance, last_keyon_distance and diff_distance. */
  datatype Meter = Meter(base: int, last: int, prev: int)

  function Min(a: int, b: int): int { if a <= b then a else b }

  function Max(a: int, b: int): int { if a >= b then a else b }

  /** chk_keyon_section_distance */
  function AfterSection(m: Meter, total: int): Meter {
    var base := if m.base <= 0 then total else Min(m.base, total);
    m.(base := base, last := Max(total - base, m.last))
  }

  /** get_diff_distance_prev: the new value of the meter, and the distance returned. */
  function AfterDiff(m: Meter, total: int): (Meter, int) {
    (m.(prev := total), if m.prev <= 0 then 0 else Max(total - m.prev, 0))
  }

  class TripMeter {
    var keyon_distance: int
    var last_keyon_distance: int
    var diff_distance: int

    ghost function View(): Meter
      reads this
    {
      Meter(keyon_distance, last_keyon_distance, diff_distance)
    }

    /** The statics after a reboot. */
    constructor ()
      ensures View() == Meter(0, 0, 0)
    {
      keyon_distance, last_keyon_distance, diff_distance := 0, 0, 0;
    }

    method ChkKeyonSectionDistance(total: int) returns (ret: int)
      modifies this
      ensures View() == AfterSection(old(View()), total) && ret == View().last
    {
      if keyon_distance <= 0 {
        keyon_distance := total;
      }
      if total < keyon_distance {
        keyon_distance := total;
      }
      ret := total - keyon_distance;
      if ret < last_keyon_distance {
        ret := last_keyon_distance;
      }
      last_keyon_distance := ret;
    }

    method GetDiffDistancePrev(total: int) returns (ret: int)
      modifies this
      ensures (View(), ret) == AfterDiff(old(View()), total)
    {
      if diff_distance <= 0 {
        diff_distance := total;
      }
      if total < diff_distance {
        diff_distance := total;
      }
      ret := total - diff_distance;
      diff_distance := total;
    }

    method InitKeyonSectionDistance(total: int)
      modifies this
      ensures View() == Meter(total, 0, total)
    {
      keyon_distance := total;
      last_keyon_distance := 0;
      var _ := GetDiffDistancePrev(total);
    }

    /** save_resume_data: the two distances that are stored. */
    method SaveResumeData() returns (keyonDistance: int, diffLastDistance: int)
      ensures keyonDistance == View().base && diffLastDistance == View().prev
    {
      keyonDistance, diffLastDistance := keyon_distance, diff_distance;
    }

    /** load_resume_data when the stored record can be read. */
    method LoadResumeData(keyonDistance: int, diffLastDistance: int)
      modifies this
      ensures View() == Meter(keyonDistance, 0, diffLastDistance)
    {
      InitKeyonSectionDistance(keyonDistance);
      diff_distance := diffLastDistance;
    }

    /** Save, power off, boot and load. */
    method Resume() returns (rebooted: TripMeter)
      ensures rebooted.View() == Resumed(View()) && fresh(rebooted)
    {
      var keyon, diff := SaveResumeData();
      rebooted := new TripMeter();
      rebooted.LoadResumeData(keyon, diff);
    }
  }

  function Resumed(m: Meter): Meter {
    m.(last := 0)
  }

  // ---------- the largest rise ----------

  function Run(m: Meter, totals: seq<int>): Meter
    decreases |totals|
  {
    if totals == [] then m else AfterSection(Run(m, totals[..|totals| - 1]), totals[|totals| - 1])
  }

  function Rise(t: seq<int>, k: nat, j: nat): int
    requires k <= j < |t|
  {
    t[j] - t[k]
  }

  /** rise is the largest difference t[j] - t[k] with k no later than j. */
  ghost predicate LargestRise(t: seq<int>, rise: int) {
    && (exists k: nat, j: nat :: k <= j < |t| && rise == Rise(t, k, j))
    && forall k: nat, j: nat | k <= j < |t| :: Rise(t, k, j) <= rise
  }

  ghost predicate Minimum(t: seq<int>, low: int) {
    low in t && forall k | 0 <= k < |t| :: low <= t[k]
  }

  lemma RiseExtends(t: seq<int>, total: int, low: int, rise: int)
    requires Minimum(t, low) && LargestRise(t, rise)
    ensures Minimum(t + [total], Min(low, total))
    ensures LargestRise(t + [total], Max(total - Min(low, total), rise))
  {
    var u, n, max := t + [total], |t|, Max(total - Min(low, total), rise);
    forall k: nat, j: nat | k <= j < |u| ensures Rise(u, k, j) <= max {
      if j < n {
        assert Rise(u, k, j) == Rise(t, k, j);
      }
    }
    var k: nat, j: nat :| k <= j < n && rise == Rise(t, k, j);
    var a :| 0 <= a < n && low == t[a];
    assert Rise(u, k, j) == rise && Rise(u, a, n) == total - low && Rise(u, n, n) == 0;
    assert Rise(t, 0, 0) <= rise;
    assert u[a] == low && u[n] == total;
  }

  lemma {:induction false} RunIsLargestRise(m: Meter, first: int, totals: seq<int>)
    requires first > 0 && m.base == first && m.last == 0
    requires forall i | 0 <= i < |totals| :: totals[i] > 0
    ensures var r := Run(m, totals);
            Minimum([first] + totals, r.base) && LargestRise([first] + totals, r.last)
    decreases |totals|
  {
    if totals == [] {
      assert [first] + totals == [first] && Rise([first], 0, 0) == 0;
    } else {
      var before := totals[..|totals| - 1];
      RunIsLargestRise(m, first, before);
      hide LargestRise;
      var r := Run(m, before);
      RiseExtends([first] + before, totals[|totals| - 1], r.base, r.last);
      assert [first] + totals == [first] + before + [totals[|totals| - 1]];
    }
  }

  /** For positive totals, one pass returns the largest rise over all totals since the base, whether
      the base was set when the ignition came on or by the first total. */
  lemma SectionIsLargestRise(m: Meter, totals: seq<int>)
    requires m.last == 0 && totals != [] && forall i | 0 <= i < |totals| :: totals[i] > 0
    ensures var since := if m.base > 0 then [m.base] + totals else totals;
            LargestRise(since, Run(m, totals).last)
  {
    if m.base > 0 {
      RunIsLargestRise(m, m.base, totals);
    } else {
      var first := AfterSection(m, totals[0]);
      RunIsLargestRise(first, totals[0], totals[1..]);
      RunFirst(m, totals);
      assert totals == [totals[0]] + totals[1..];
    }
  }

  lemma {:induction false} RunFirst(m: Meter, totals: seq<int>)
    requires totals != []
    ensures Run(m, totals) == Run(AfterSection(m, totals[0]), totals[1..])
    decreases |totals|
  {
    var n := |totals| - 1;
    if n == 0 {
      assert totals[..0] == [] && totals[1..] == [];
    } else {
      RunFirst(m, totals[..n]);
      assert totals[..n][1..] == totals[1..][..n - 1];
    }
  }

  // ---------- increments ----------

  /** The sum of what get_diff_distance_prev returns for these totals. */
  function DiffSum(m: Meter, totals: seq<int>): int
    decreases |totals|
  {
    if totals == [] then 0 else
      var (next, ret) := AfterDiff(m, totals[0]);
      ret + DiffSum(next, totals[1..])
  }

  /** The sum of all increases between neighbouring totals. */
  function Climb(totals: seq<int>): int {
    if |totals| < 2 then 0 else Max(totals[1] - totals[0], 0) + Climb(totals[1..])
  }

  lemma {:induction false} DiffSumIsClimb(m: Meter, totals: seq<int>)
    requires forall i | 0 <= i < |totals| :: totals[i] > 0
    ensures DiffSum(m, totals) == Climb(if m.prev > 0 then [m.prev] + totals else totals)
    decreases |totals|
  {
    if totals != [] {
      var next := AfterDiff(m, totals[0]).0;
      DiffSumIsClimb(next, totals[1..]);
      assert totals == [totals[0]] + totals[1..];
      assert ([m.prev] + totals)[1..] == totals;
    }
  }

  /** The climb bounds every rise, and is the net distance when the totals never fall. */
  lemma {:induction false} ClimbCoversRise(totals: seq<int>, k: nat, j: nat)
    requires k <= j < |totals|
    ensures Climb(totals) >= totals[j] - totals[k]
    ensures (forall a, b | 0 <= a < b < |totals| :: totals[a] <= totals[b]) ==>
              Climb(totals) == totals[|totals| - 1] - totals[0]
    decreases |totals|
  {
    if |totals| >= 2 {
      ClimbCoversRise(totals[1..], if k > 0 then k - 1 else 0, if j > 0 then j - 1 else 0);
    }
  }

  // ---------- save, reboot, load ----------

  /** A call of chk_keyon_section_distance or of get_diff_distance_prev. */
  datatype Query = Section(total: int) | Diff(total: int)

  function After(m: Meter, q: Query): Meter {
    match q
    case Section(total) => AfterSection(m, total)
    case Diff(total) => AfterDiff(m, total).0
  }

  function Answer(m: Meter, q: Query): int {
    match q
    case Section(total) => AfterSection(m, total).last
    case Diff(total) => AfterDiff(m, total).1
  }

  /** What the calls return, in order. */
  function Answers(m: Meter, qs: seq<Query>): seq<int>
    decreases |qs|
  {
    if qs == [] then [] else [Answer(m, qs[0])] + Answers(After(m, qs[0]), qs[1..])
  }

  /** The guard of line 162: the new section distance reaches the one reported last. */
  predicate ReachesLast(m: Meter, total: int) {
    m.last <= if m.base <= 0 then 0 else Max(total - m.base, 0)
  }

  /** The total of the first call of chk_keyon_section_distance, if there is one, reaches it. */
  predicate FirstReachesLast(m: Meter, qs: seq<Query>)
    decreases |qs|
  {
    qs == [] || if qs[0].Section? then ReachesLast(m, qs[0].total) else FirstReachesLast(m, qs[1..])
  }

  lemma {:induction false} SameSection(m: Meter, n: Meter, qs: seq<Query>)
    requires m.base == n.base && m.last == n.last
    ensures FirstReachesLast(m, qs) == FirstReachesLast(n, qs)
    decreases |qs|
  {
    if qs != [] {
      SameSection(m, n, qs[1..]);
    }
  }

  /** A reboot is invisible to all later results of both calls, in any order and whatever the totals,
      exactly when the first total asked for the section distance is at least the base plus the last
      reported distance, or nothing had been reported, or it is not asked for. */
  lemma {:induction false} ResumeIsExactIff(m: Meter, qs: seq<Query>)
    ensures Answers(Resumed(m), qs) == Answers(m, qs) <==> FirstReachesLast(m, qs)
    decreases |qs|
  {
    if qs != [] {
      var q, r := qs[0], Resumed(m);
      assert Answers(m, qs)[0] == Answer(m, q) && Answers(r, qs)[0] == Answer(r, q);
      assert Answers(m, qs)[1..] == Answers(After(m, q), qs[1..]) && Answers(r, qs)[1..] == Answers(After(r, q), qs[1..]);
      match q
      case Section(total) =>
        assert ReachesLast(m, total) ==> After(r, q) == After(m, q);
      case Diff(total) =>
        assert After(r, q) == Resumed(After(m, q)) && Answer(r, q) == Answer(m, q);
        ResumeIsExactIff(After(m, q), qs[1..]);
        SameSection(m, After(m, q), qs[1..]);
    }
  }

  function Totals(qs: seq<Query>): (t: seq<int>)
    ensures |t| == |qs| && forall i | 0 <= i < |qs| :: t[i] == qs[i].total
  {
    seq(|qs|, i requires 0 <= i < |qs| => qs[i].total)
  }

  /** In particular it is invisible when the totals never fall. */
  lemma ResumeOfRisingTotals(m: Meter, before: seq<int>, qs: seq<Query>)
    requires m.base > 0 && m.last == 0
    requires forall i, j | 0 <= i < j < |[m.base] + before + Totals(qs)| ::
               ([m.base] + before + Totals(qs))[i] <= ([m.base] + before + Totals(qs))[j]
    ensures Answers(Resumed(Run(m, before)), qs) == Answers(Run(m, before), qs)
  {
    var t, r := [m.base] + before, Run(m, before);
    RisingParts(t, Totals(qs));
    assert forall i | 0 <= i < |before| :: before[i] == t[1 + i];
    RunIsLargestRise(m, m.base, before);
    hide Run, Minimum, LargestRise;
    forall k | 0 <= k < |qs| ensures ReachesLast(r, qs[k].total) {
      assert Totals(qs)[k] == qs[k].total;
      LastOfRising(t, r, qs[k].total);
    }
    hide Totals, ReachesLast;
    AllReach(r, qs);
    ResumeIsExactIff(r, qs);
  }

  lemma RisingParts(t: seq<int>, u: seq<int>)
    requires t != [] && forall i, j | 0 <= i < j < |t + u| :: (t + u)[i] <= (t + u)[j]
    ensures forall i | 0 <= i < |t| :: t[0] <= t[i]
    ensures forall i, k | 0 <= i < |t| && 0 <= k < |u| :: t[i] <= u[k]
  {
    forall i | 0 <= i < |t| ensures t[0] <= t[i] {
      assert (t + u)[0] <= (t + u)[i];
    }
    forall i, k | 0 <= i < |t| && 0 <= k < |u| ensures t[i] <= u[k] {
      assert (t + u)[i] <= (t + u)[|t| + k];
    }
  }

  lemma {:induction false} AllReach(m: Meter, qs: seq<Query>)
    requires forall k | 0 <= k < |qs| :: ReachesLast(m, qs[k].total)
    ensures FirstReachesLast(m, qs)
    decreases |qs|
  {
    if qs != [] {
      AllReach(m, qs[1..]);
    }
  }

  lemma LastOfRising(t: seq<int>, r: Meter, total: int)
    requires t != [] && t[0] > 0 && forall i | 0 <= i < |t| :: t[0] <= t[i] <= total
    requires Minimum(t, r.base) && LargestRise(t, r.last)
    ensures r.base == t[0] && ReachesLast(r, total)
  {
    var k: nat, j: nat :| k <= j < |t| && r.last == Rise(t, k, j);
  }
}
