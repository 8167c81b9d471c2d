/** base/gpstool.c, _check_distance: the filter that refuses fixes too far from the last valid one.
    Distances between fixes are integers supplied with each fix. */
module GpsJump {

  datatype Config = Config(firstDist: int, ignoreDist: int, distKms: int, maxDist: int)

  /** A fix; id stands for its position. */
  datatype Fix = Fix(active: bool, utcSec: int, id: nat)

  /** is_prev_gps_valid, num_gps_error, is_set_last_gpsdata, last_valid_gpsdata */
  datatype Filter = Filter(prevValid: bool, numError: int, isSet: bool, last: Fix)

  /** C integer division by a positive number. */
  function DivTrunc(a: int, b: int): int
    requires b > 0
  {
    if a >= 0 then a / b else -((-a) / b)
  }

  /** The speed test of line 1308-1310. */
  predicate TooFast(c: Config, dist: int, secs: int)
    requires secs > 0
  {
    DivTrunc(dist, secs) >= DivTrunc(c.distKms * 1000, 3600)
  }

  /** Whether an active fix is refused: first `firstDist` after a restart, then `runDist`. */
  predicate Refused(f: Filter, c: Config, fix: Fix, firstDist: int, runDist: int) {
    if !f.isSet then f.last.active && f.numError < 2 && firstDist > c.firstDist && firstDist >= 0
    else
      && !f.prevValid && runDist >= 0 && runDist >= c.ignoreDist && fix.utcSec > f.last.utcSec
      && ((f.numError < 3 && TooFast(c, runDist, fix.utcSec - f.last.utcSec))
          || (f.numError < 2 && runDist >= c.maxDist))
  }

  /** Whether a failed distance computation lets an active fix through without recording it. */
  predicate Unmeasured(f: Filter, firstDist: int, runDist: int) {
    if !f.isSet then f.last.active && f.numError < 2 && firstDist < 0
    else !f.prevValid && runDist < 0
  }

  /** The filter after a fix: an accepted and measured fix becomes the last valid one. */
  function AfterFix(f: Filter, c: Config, fix: Fix, firstDist: int, runDist: int): Filter {
    if !fix.active then f.(prevValid := false)
    else if Refused(f, c, fix, firstDist, runDist) then
      f.(numError := f.numError + 1, prevValid := f.prevValid && !f.isSet)
    else if Unmeasured(f, firstDist, runDist) then f
    else Filter(true, if f.isSet && f.prevValid then f.numError else 0, true, fix)
  }

  class GpsTool {
    var is_prev_gps_valid: bool
    var num_gps_error: int
    var is_set_last_gpsdata: bool
    var last_valid_gpsdata: Fix

    ghost function View(): Filter
      reads this
    {
      Filter(is_prev_gps_valid, num_gps_error, is_set_last_gpsdata, last_valid_gpsdata)
    }

    constructor (last: Fix)
      ensures View() == Filter(false, 0, false, last)
    {
      is_prev_gps_valid, num_gps_error, is_set_last_gpsdata, last_valid_gpsdata := false, 0, false, last;
    }

    /** _check_distance: 0 accepts the fix, -1 refuses it. */
    method CheckDistance(c: Config, fix: Fix, firstDist: int, runDist: int) returns (ret: int)
      modifies this
      ensures ret == if fix.active && Refused(old(View()), c, fix, firstDist, runDist) then -1 else 0
      ensures View() == AfterFix(old(View()), c, fix, firstDist, runDist)
    {
      if !fix.active {
        is_prev_gps_valid := false;
        return 0;
      }
      var last := last_valid_gpsdata;
      if !is_set_last_gpsdata {
        if last.active && num_gps_error < 2 {
          if firstDist < 0 {
            return 0;
          }
          if firstDist > c.firstDist {
            num_gps_error := num_gps_error + 1;
            return -1;
          }
        }
        num_gps_error := 0;
      }
      if !is_set_last_gpsdata || is_prev_gps_valid {
        is_set_last_gpsdata := true;
        is_prev_gps_valid := true;
        last_valid_gpsdata := fix;
        return 0;
      }
      if runDist < 0 {
        return 0;
      }
      if runDist < c.ignoreDist {
        num_gps_error := 0;
        is_prev_gps_valid := true;
        last_valid_gpsdata := fix;
        return 0;
      }
      var timeSec := fix.utcSec - last.utcSec;
      if timeSec <= 0 {
        num_gps_error := 0;
        is_prev_gps_valid := true;
        last_valid_gpsdata := fix;
        return 0;
      }
      var distDiff := DivTrunc(runDist, timeSec);
      if distDiff >= DivTrunc(c.distKms * 1000, 3600) && num_gps_error < 3 {
        num_gps_error := num_gps_error + 1;
        is_prev_gps_valid := false;
        return -1;
      }
      if runDist >= c.maxDist && num_gps_error < 2 {
        num_gps_error := num_gps_error + 1;
        is_prev_gps_valid := false;
        return -1;
      }
      num_gps_error := 0;
      is_prev_gps_valid := true;
      last_valid_gpsdata := fix;
      ret := 0;
    }

    /** gps_restart_check_distance */
    method RestartCheckDistance()
      modifies this
      ensures View() == old(View()).(isSet := false)
    {
      is_set_last_gpsdata := false;
    }
  }

  // ---------- runs ----------

  datatype Input = Reading(fix: Fix, firstDist: int, runDist: int) | Restart

  datatype Verdict = Refusal | Acceptance | Neither

  function Next(f: Filter, c: Config, input: Input): Filter {
    match input
    case Restart => f.(isSet := false)
    case Reading(fix, firstDist, runDist) => AfterFix(f, c, fix, firstDist, runDist)
  }

  function VerdictOf(f: Filter, c: Config, input: Input): Verdict {
    match input
    case Restart => Neither
    case Reading(fix, firstDist, runDist) =>
      if !fix.active then Neither else if Refused(f, c, fix, firstDist, runDist) then Refusal else Acceptance
  }

  function Run(f: Filter, c: Config, inputs: seq<Input>): Filter
    decreases |inputs|
  {
    if inputs == [] then f else Next(Run(f, c, inputs[..|inputs| - 1]), c, inputs[|inputs| - 1])
  }

  /** How many active fixes in a row the run ends with refusing; inactive fixes and restarts in
      between neither count nor interrupt the row. */
  function Row(f: Filter, c: Config, inputs: seq<Input>): nat
    decreases |inputs|
  {
    if inputs == [] then 0 else
      var n := |inputs| - 1;
      match VerdictOf(Run(f, c, inputs[..n]), c, inputs[n])
      case Refusal => Row(f, c, inputs[..n]) + 1
      case Acceptance => 0
      case Neither => Row(f, c, inputs[..n])
  }

  // ---------- which fix is refused ----------

  /** dist metres in secs seconds are at least the limit in whole metres per second. */
  ghost predicate IsFast(c: Config, dist: int, secs: int) {
    c.distKms < 0 || dist >= secs * (c.distKms * 1000 / 3600)
  }

  lemma FastIs(c: Config, dist: int, secs: int)
    requires secs > 0 && dist >= 0
    ensures TooFast(c, dist, secs) <==> IsFast(c, dist, secs)
  {
    if c.distKms >= 0 {
      QuotientAtLeast(dist, secs, c.distKms * 1000 / 3600);
    }
  }

  lemma QuotientAtLeast(a: int, b: int, q: int)
    requires b > 0
    ensures a / b >= q <==> a >= b * q
  {
    var d := a / b;
    assert a == b * d + a % b;
    if d >= q {
      Scaled(b, q, d);
    } else {
      Scaled(b, d + 1, q);
      assert b * (d + 1) == b * d + b;
    }
  }

  lemma Scaled(b: int, x: int, y: int)
    requires b > 0 && x <= y
    ensures b * x <= b * y
  {
  }

  /** The verdict on an active fix, by the inputs. The first fix after a restart is refused when it is too far
      from an active stored one, at most twice in a row of errors. A later fix is refused only behind an
      inactive or a refused one, not near the stored fix and not without time having passed, when it is too
      fast (up to three errors) or too far (up to two). */
  lemma RefusedIff(f: Filter, c: Config, fix: Fix, firstDist: int, runDist: int)
    ensures VerdictOf(f, c, Reading(fix, firstDist, runDist)) == Refusal <==>
              && fix.active
              && (if !f.isSet then f.last.active && f.numError < 2 && firstDist >= 0 && firstDist > c.firstDist
                  else
                    var secs := fix.utcSec - f.last.utcSec;
                    && !f.prevValid && secs > 0 && runDist >= 0 && runDist >= c.ignoreDist
                    && ((f.numError < 3 && IsFast(c, runDist, secs)) || (f.numError < 2 && runDist >= c.maxDist)))
    ensures VerdictOf(f, c, Reading(fix, firstDist, runDist)) == Neither <==> !fix.active
  {
    if f.isSet && fix.utcSec > f.last.utcSec && runDist >= 0 {
      FastIs(c, runDist, fix.utcSec - f.last.utcSec);
    }
    hide TooFast, IsFast;
  }

  /** A farther fix is refused where a nearer one of the same time is. */
  lemma FartherIsRefused(f: Filter, c: Config, fix: Fix, firstDist: int, runDist: int, first2: int, run2: int)
    requires firstDist <= first2 && runDist <= run2
    requires VerdictOf(f, c, Reading(fix, firstDist, runDist)) == Refusal
    ensures VerdictOf(f, c, Reading(fix, first2, run2)) == Refusal
  {
    RefusedIff(f, c, fix, firstDist, runDist);
    RefusedIff(f, c, fix, first2, run2);
    hide VerdictOf;
  }

  /** What every input does to the filter, by its verdict. An accepted fix whose distance could not be
      computed, where one is needed, changes nothing; any other accepted fix is stored. */
  lemma NextIs(f: Filter, c: Config, input: Input)
    requires f.isSet && f.prevValid ==> f.numError == 0
    ensures var g := Next(f, c, input);
            && (g.isSet && g.prevValid ==> g.numError == 0)
            && match input
               case Restart => g == f.(isSet := false)
               case Reading(fix, firstDist, runDist) =>
                 var unmeasured := if !f.isSet then f.last.active && f.numError < 2 && firstDist < 0
                                   else !f.prevValid && runDist < 0;
                 match VerdictOf(f, c, input)
                 case Neither => g == f.(prevValid := false)
                 case Refusal => g == f.(numError := f.numError + 1, prevValid := if f.isSet then false else f.prevValid)
                 case Acceptance => g == if unmeasured then f else Filter(true, 0, true, fix)
  {
    hide TooFast;
  }

  /** Refusals since a fix was last stored. */
  function Errors(f: Filter, c: Config, inputs: seq<Input>): nat
    decreases |inputs|
  {
    if inputs == [] then 0 else
      var n := |inputs| - 1;
      var g, before := Run(f, c, inputs[..n]), Errors(f, c, inputs[..n]);
      match VerdictOf(g, c, inputs[n])
      case Refusal => before + 1
      case Acceptance => if Unmeasured(g, inputs[n].firstDist, inputs[n].runDist) then before else 0
      case Neither => before
  }

  /** From the start the error counter is the number of refusals since a fix was last stored. */
  lemma {:induction false} CounterIsErrors(f: Filter, c: Config, inputs: seq<Input>)
    requires f.numError == 0
    ensures Run(f, c, inputs).numError == Errors(f, c, inputs)
    ensures Run(f, c, inputs).isSet && Run(f, c, inputs).prevValid ==> Run(f, c, inputs).numError == 0
    decreases |inputs|
  {
    if inputs != [] {
      var n := |inputs| - 1;
      CounterIsErrors(f, c, inputs[..n]);
      NextIs(Run(f, c, inputs[..n]), c, inputs[n]);
    }
  }

  /** Under any interleaving of fixes, inactive fixes and ignition restarts, at most three active
      fixes in a row are refused, and the error counter stays within 0..3. */
  lemma {:induction false} AtMostThreeRefusals(f: Filter, c: Config, inputs: seq<Input>)
    requires 0 <= f.numError <= 3
    ensures Row(f, c, inputs) <= Run(f, c, inputs).numError <= 3
    decreases |inputs|
  {
    if inputs != [] {
      AtMostThreeRefusals(f, c, inputs[..|inputs| - 1]);
    }
  }

  /** The bound is met: a far and fast fix repeated three times is refused three times. */
  lemma ThreeRefusalsHappen(f: Filter, c: Config, fix: Fix, dist: int)
    requires f.isSet && !f.prevValid && f.numError == 0 && fix.active && fix.utcSec > f.last.utcSec
    requires dist >= 0 && dist >= c.ignoreDist && IsFast(c, dist, fix.utcSec - f.last.utcSec)
    ensures var r := Reading(fix, 0, dist);
            Row(f, c, [r, r, r]) == 3
  {
    var r := Reading(fix, 0, dist);
    FastIs(c, dist, fix.utcSec - f.last.utcSec);
    assert [r, r, r][..2] == [r, r] && [r, r][..1] == [r] && [r][..0] == [];
    assert Run(f, c, [r]) == f.(numError := 1);
    assert Run(f, c, [r, r]) == Next(Run(f, c, [r]), c, r) == f.(numError := 2);
    assert Row(f, c, [r]) == 1 && Row(f, c, [r, r]) == 2;
  }

  /** A run that ends with three refusals in a row is followed by an acceptance, wherever the next active
      fix is, and however many inactive fixes and restarts come before it. */
  lemma FourthFixIsAccepted(f: Filter, c: Config, inputs: seq<Input>, next: Input)
    requires 0 <= f.numError <= 3 && Row(f, c, inputs) >= 3
    requires next.Reading? && next.fix.active
    ensures VerdictOf(Run(f, c, inputs), c, next) == Acceptance && Row(f, c, inputs + [next]) == 0
  {
    AtMostThreeRefusals(f, c, inputs);
    assert (inputs + [next])[..|inputs|] == inputs;
  }

  /** An active fix that is neither refused nor let through unmeasured. */
  ghost predicate Recorded(f: Filter, c: Config, inputs: seq<Input>, n: nat)
    requires n < |inputs|
  {
    var g := Run(f, c, inputs[..n]);
    && inputs[n].Reading?
    && VerdictOf(g, c, inputs[n]) == Acceptance
    && !Unmeasured(g, inputs[n].firstDist, inputs[n].runDist)
  }

  /** The stored last valid fix is the newest one that the run accepted and measured, input n, and the
      one known before the run if there is none (n = -1). */
  lemma {:induction false} LastWasAccepted(f: Filter, c: Config, inputs: seq<Input>, n: int)
    requires -1 <= n < |inputs| && (n >= 0 ==> Recorded(f, c, inputs, n))
    requires forall k | n < k < |inputs| :: !Recorded(f, c, inputs, k)
    ensures Run(f, c, inputs).last == if n >= 0 then inputs[n].fix else f.last
    decreases |inputs|
  {
    if inputs != [] {
      var m := |inputs| - 1;
      LastStep(f, c, inputs);
      if n < m {
        forall k | 0 <= k < m ensures Recorded(f, c, inputs[..m], k) == Recorded(f, c, inputs, k) {
          SameBefore(f, c, inputs, m, k);
        }
        LastWasAccepted(f, c, inputs[..m], n);
      }
    }
  }

  lemma SameBefore(f: Filter, c: Config, inputs: seq<Input>, m: nat, n: nat)
    requires n < m <= |inputs|
    ensures Recorded(f, c, inputs[..m], n) == Recorded(f, c, inputs, n)
  {
    assert inputs[..m][..n] == inputs[..n];
  }

  lemma LastStep(f: Filter, c: Config, inputs: seq<Input>)
    requires inputs != []
    ensures var m := |inputs| - 1;
            Run(f, c, inputs).last == if Recorded(f, c, inputs, m) then inputs[m].fix else Run(f, c, inputs[..m]).last
  {
    LastAfter(Run(f, c, inputs[..|inputs| - 1]), c, inputs[|inputs| - 1]);
  }

  lemma LastAfter(g: Filter, c: Config, input: Input)
    ensures Next(g, c, input).last ==
              if VerdictOf(g, c, input) == Acceptance && !Unmeasured(g, input.firstDist, input.runDist)
              then input.fix else g.last
  {
  }
}
