/** Debounce of the ignition line and the power source (base/thread-btn-pwr.c). A line has a debounced
    state and the time its hold was last restarted; both lines are polled by the same code. */
module Debounce {

  /** What power_get_ignition_status and power_get_power_source return: a level, or -1. */
  datatype Reading = Level(on: bool) | Failed

  datatype Line = Line(on: bool, held: int)

  /** A poll of the line, or an input edge on it. */
  datatype Input = Poll(time: int, reading: Reading) | Edge(time: int)

  /** The poll that runs the on or off callback. */
  predicate Fires(s: Line, hold: nat, x: Input) {
    x.Poll? && x.time - s.held >= hold && x.reading == Level(!s.on)
  }

  function Step(s: Line, hold: nat, x: Input): Line {
    match x
    case Edge(now) => s.(held := now)
    case Poll(now, reading) =>
      if now - s.held < hold then
        if reading == Level(s.on) then s.(held := now) else s
      else if reading == Level(!s.on) then Line(!s.on, now)
      else s.(held := now)
  }

  class ButtonPower {
    var ignOn: bool
    var ignHoldTime: int
    var pwrOn: bool
    var pwrHoldTime: int

    ghost function Ignition(): Line reads this { Line(ignOn, ignHoldTime) }

    ghost function Power(): Line reads this { Line(pwrOn, pwrHoldTime) }

    /** The start of thread_btn_pwr: both lines report their state once. */
    constructor (now: int, ignition: Reading, power: Reading, firstPwrStatusOn: bool)
      ensures Ignition() == Line(ignition != Level(false), now)
      ensures Power() == Line(firstPwrStatusOn || power != Level(false), now)
    {
      pwrHoldTime := now;
      if firstPwrStatusOn {
        pwrOn := true;
      } else if power == Level(false) {
        pwrOn := false;
      } else {
        pwrOn := true;
      }
      ignHoldTime := now;
      ignOn := ignition != Level(false);
    }

    /** The hold-time part of _check_btn_pwr_event: an edge of either direction. */
    method CheckBtnPwrEvent(kind: int, code: int, now: int)
      modifies this
      ensures Ignition() == if kind == 0x16 && code == 0x08 then Step(old(Ignition()), 0, Edge(now)) else old(Ignition())
      ensures Power() == if kind == 0x16 && code == 0x09 then Step(old(Power()), 0, Edge(now)) else old(Power())
    {
      if kind == 0x16 {
        if code == 0x08 {
          ignHoldTime := now;
        } else if code == 0x09 {
          pwrHoldTime := now;
        }
      }
    }

    /** _check_ign_onoff; the result says whether a callback ran. */
    method CheckIgnOnOff(now: int, hold: nat, reading: Reading) returns (called: bool)
      modifies this
      ensures called == Fires(old(Ignition()), hold, Poll(now, reading))
      ensures Ignition() == Step(old(Ignition()), hold, Poll(now, reading)) && Power() == old(Power())
    {
      called := false;
      if ignOn {
        if now - ignHoldTime < hold {
          if reading == Level(true) {
            ignHoldTime := now;
          }
          return;
        }
        if reading == Level(false) {
          called := true;
          ignHoldTime := now;
          ignOn := false;
        } else {
          ignHoldTime := now;
        }
      } else {
        if now - ignHoldTime < hold {
          if reading == Level(false) {
            ignHoldTime := now;
          }
          return;
        }
        if reading == Level(true) {
          called := true;
          ignHoldTime := now;
          ignOn := true;
        } else {
          ignHoldTime := now;
        }
      }
    }

    /** _check_pwr_onoff; DC is on, battery is off. */
    method CheckPwrOnOff(now: int, hold: nat, reading: Reading) returns (called: bool)
      modifies this
      ensures called == Fires(old(Power()), hold, Poll(now, reading))
      ensures Power() == Step(old(Power()), hold, Poll(now, reading)) && Ignition() == old(Ignition())
    {
      called := false;
      if pwrOn {
        if now - pwrHoldTime < hold {
          if reading == Level(true) {
            pwrHoldTime := now;
          }
          return;
        }
        if reading == Level(false) {
          called := true;
          pwrHoldTime := now;
          pwrOn := false;
        } else {
          pwrHoldTime := now;
        }
      } else {
        if now - pwrHoldTime < hold {
          if reading == Level(false) {
            pwrHoldTime := now;
          }
          return;
        }
        if reading == Level(true) {
          called := true;
          pwrHoldTime := now;
          pwrOn := true;
        } else {
          pwrHoldTime := now;
        }
      }
    }
  }

  /** Inputs in time order, none before the last restart of the hold. */
  ghost predicate Ordered(s: Line, run: seq<Input>) {
    && (forall i | 0 <= i < |run| :: s.held <= run[i].time)
    && (forall i, j | 0 <= i <= j < |run| :: run[i].time <= run[j].time)
  }

  /** The line before input i of a run. */
  function At(s: Line, hold: nat, run: seq<Input>, i: nat): Line
    requires i <= |run|
  {
    if i == 0 then s else Step(At(s, hold, run, i - 1), hold, run[i - 1])
  }

  ghost predicate FiresAt(s: Line, hold: nat, run: seq<Input>, i: nat)
    requires i < |run|
  {
    Fires(At(s, hold, run, i), hold, run[i])
  }

  /** The hold is never ahead of the clock, and only moves forward. */
  lemma {:induction false} HeldMoves(s: Line, hold: nat, run: seq<Input>, i: nat, j: nat)
    requires Ordered(s, run) && i <= j <= |run|
    ensures At(s, hold, run, i).held <= At(s, hold, run, j).held
    ensures forall k | j <= k < |run| :: At(s, hold, run, j).held <= run[k].time
    decreases j
  {
    if j == 0 {
    } else if i == j {
      HeldMoves(s, hold, run, i - 1, j - 1);
    } else {
      HeldMoves(s, hold, run, i, j - 1);
    }
  }

  /** The debounced state changes only where a callback runs. */
  lemma {:induction false} StateKept(s: Line, hold: nat, run: seq<Input>, i: nat, j: nat)
    requires i <= j <= |run|
    requires forall k | i <= k < j :: !FiresAt(s, hold, run, k)
    ensures At(s, hold, run, i).on == At(s, hold, run, j).on
    decreases j
  {
    if i < j {
      assert !FiresAt(s, hold, run, j - 1);
      StateKept(s, hold, run, i, j - 1);
    }
  }

  /** Between two callbacks of a line with none between, the readings alternate; any two callbacks of a line
      are at least the hold time apart. */
  lemma CallbacksAlternate(s: Line, hold: nat, run: seq<Input>, i: nat, j: nat)
    requires Ordered(s, run) && i < j < |run|
    requires FiresAt(s, hold, run, i) && FiresAt(s, hold, run, j)
    ensures run[j].time - run[i].time >= hold
    ensures (forall k | i < k < j :: !FiresAt(s, hold, run, k)) ==> run[i].reading.on != run[j].reading.on
  {
    HeldMoves(s, hold, run, i + 1, j);
    if forall k | i < k < j :: !FiresAt(s, hold, run, k) {
      StateKept(s, hold, run, i + 1, j);
    }
  }

  /** Input j speaks for leaving state b: a poll that read the other level, or one that read nothing while
      the hold was still running. */
  ghost predicate SpeaksAgainst(s: Line, hold: nat, run: seq<Input>, j: nat, b: bool)
    requires j < |run|
  {
    && run[j].Poll?
    && (run[j].reading == Level(!b) || (run[j].reading == Failed && run[j].time - At(s, hold, run, j).held < hold))
  }

  /** Everything less than a hold time before input i speaks for the change. */
  ghost predicate Steady(s: Line, hold: nat, run: seq<Input>, i: nat)
    requires i < |run|
  {
    forall j | 0 <= j < i && run[j].time > run[i].time - hold ::
      SpeaksAgainst(s, hold, run, j, At(s, hold, run, i).on)
  }

  /** A callback runs at a poll exactly when the poll reads the level the line is not in, the line was
      started at least the hold time before, and in the last hold time there was no edge and no poll that
      read the old level. */
  lemma FiresIff(s: Line, hold: nat, run: seq<Input>, i: nat)
    requires Ordered(s, run) && i < |run|
    ensures FiresAt(s, hold, run, i) <==>
            && run[i].Poll? && run[i].reading == Level(!At(s, hold, run, i).on)
            && run[i].time - s.held >= hold && Steady(s, hold, run, i)
  {
    if FiresAt(s, hold, run, i) {
      HeldMoves(s, hold, run, 0, i);
      FiringIsSteady(s, hold, run, i);
    }
    if run[i].time - s.held >= hold && Steady(s, hold, run, i) {
      SteadyKeepsHeld(s, hold, run, i, i);
    }
  }

  lemma FiringIsSteady(s: Line, hold: nat, run: seq<Input>, i: nat)
    requires Ordered(s, run) && i < |run| && FiresAt(s, hold, run, i)
    ensures Steady(s, hold, run, i)
  {
    forall j | 0 <= j < i && run[j].time > run[i].time - hold
      ensures SpeaksAgainst(s, hold, run, j, At(s, hold, run, i).on)
    {
      forall k | j <= k < i ensures !FiresAt(s, hold, run, k) {
        HeldMoves(s, hold, run, k + 1, i);
        assert run[j].time <= run[k].time;
      }
      StateKept(s, hold, run, j, i);
      HeldMoves(s, hold, run, j + 1, i);
    }
  }

  /** While the inputs speak for leaving b, the state does not come back to b. */
  lemma {:induction false} NoReturn(s: Line, hold: nat, run: seq<Input>, k: nat, i: nat, b: bool)
    requires k <= i <= |run| && At(s, hold, run, k).on != b
    requires forall j | k <= j < i :: SpeaksAgainst(s, hold, run, j, b)
    ensures At(s, hold, run, i).on != b
    decreases i
  {
    if k < i {
      NoReturn(s, hold, run, k, i - 1, b);
      assert SpeaksAgainst(s, hold, run, i - 1, b);
    }
  }

  lemma {:induction false} SteadyKeepsHeld(s: Line, hold: nat, run: seq<Input>, i: nat, k: nat)
    requires Ordered(s, run) && k <= i < |run|
    requires run[i].time - s.held >= hold && Steady(s, hold, run, i)
    ensures At(s, hold, run, k).held <= run[i].time - hold
    decreases k
  {
    if k > 0 {
      SteadyKeepsHeld(s, hold, run, i, k - 1);
      if run[k - 1].time > run[i].time - hold {
        var b := At(s, hold, run, i).on;
        forall j | k - 1 <= j < i ensures SpeaksAgainst(s, hold, run, j, b) {
          assert run[k - 1].time <= run[j].time;
        }
        if At(s, hold, run, k - 1).on != b {
          NoReturn(s, hold, run, k - 1, i, b);
        } else if FiresAt(s, hold, run, k - 1) {
          NoReturn(s, hold, run, k, i, b);
        }
      }
    }
  }
}
