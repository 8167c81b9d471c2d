/** base/error.c: escalation of critical errors, with counters that survive restarts. */
module Escalation {

  const MAX_RETRY_EXIT := 3
  const MAX_RETRY_REBOOT := 3

  datatype Level = LOG | EXIT | REBOOT | FINAL

  /** errorData_t */
  datatype Counters = Counters(noExit: int, noReboot: int)

  /** The counters as the two characters of the data file. */
  datatype DataFile = Missing | Stored(chrNoExit: int, chrNoReboot: int)

  const ZERO := Counters(0, 0)

  /** error_read_datafile: an unreadable file counts as no errors so far. */
  function ReadCounters(f: DataFile): Counters {
    match f
    case Missing => ZERO
    case Stored(e, r) => Counters(e - 0x30, r - 0x30)
  }

  /** error_write_datafile */
  function WriteCounters(c: Counters): DataFile {
    Stored(c.noExit + 0x30, c.noReboot + 0x30)
  }

  /** What error_critical does with an error above LOG, and the counters it leaves. */
  function Escalated(c: Counters, level: Level): (Level, Counters)
    requires level != LOG
  {
    if level == EXIT && c.noExit < MAX_RETRY_EXIT then (EXIT, c.(noExit := c.noExit + 1))
    else if level != FINAL && c.noReboot < MAX_RETRY_REBOOT then
      (REBOOT, Counters(if level == EXIT then 0 else c.noExit, c.noReboot + 1))
    else (FINAL, ZERO)
  }

  /** The same on the data file. */
  function Escalate(f: DataFile, level: Level): (Level, DataFile) {
    if level == LOG then (LOG, f)
    else (Escalated(ReadCounters(f), level).0, WriteCounters(Escalated(ReadCounters(f), level).1))
  }

  class ErrorState {
    var file: DataFile
    var wasChecked: bool

    constructor (file: DataFile)
      ensures this.file == file && !wasChecked
    {
      this.file := file;
      wasChecked := false;
    }

    /** _error_check_working_properly: once per process, a device that has been up for ten minutes
        starts counting afresh. */
    method CheckWorkingProperly(uptime: int)
      modifies this
      ensures wasChecked
      ensures file == if !old(wasChecked) && uptime >= 600 then WriteCounters(ZERO) else old(file)
    {
      if wasChecked {
        return;
      }
      wasChecked := true;
      if uptime >= 600 {
        file := Stored(0x30, 0x30);
      }
    }

    /** The counting part of error_critical (219-251) and the reset of level FINAL (275). */
    method Count(level: Level) returns (doLevel: Level)
      modifies this`file
      ensures (doLevel, file) == Escalate(old(file), level)
    {
      if level == LOG {
        return LOG;
      }
      var errdata := ReadCounters(file);
      doLevel := level;
      if level == EXIT {
        if errdata.noExit >= MAX_RETRY_EXIT {
          errdata := errdata.(noExit := 0);
          doLevel := REBOOT;
        } else {
          file := WriteCounters(errdata.(noExit := errdata.noExit + 1));
        }
      }
      if doLevel == REBOOT {
        if errdata.noReboot >= MAX_RETRY_REBOOT {
          doLevel := FINAL;
        } else {
          file := WriteCounters(errdata.(noReboot := errdata.noReboot + 1));
        }
      }
      if doLevel == FINAL {
        file := WriteCounters(ZERO);
      }
    }

    /** error_critical; the result is the action taken. */
    method ErrorCritical(level: Level, uptime: int) returns (doLevel: Level)
      modifies this
      ensures var start := if level != LOG && !old(wasChecked) && uptime >= 600 then WriteCounters(ZERO) else old(file);
              (doLevel, file) == Escalate(start, level)
    {
      hide Escalate;
      if level != LOG {
        CheckWorkingProperly(uptime);
      }
      doLevel := Count(level);
    }
  }

  // ---------- escalation over any run of restarts ----------

  ghost predicate InRange(f: DataFile) {
    var c := ReadCounters(f);
    0 <= c.noExit <= MAX_RETRY_EXIT && 0 <= c.noReboot <= MAX_RETRY_REBOOT
  }

  function Rank(f: DataFile): int {
    4 * ReadCounters(f).noReboot + ReadCounters(f).noExit
  }

  lemma CountersRise(c: Counters, level: Level)
    requires 0 <= c.noExit <= MAX_RETRY_EXIT && 0 <= c.noReboot <= MAX_RETRY_REBOOT
    requires level == EXIT || level == REBOOT
    ensures var (act, d) := Escalated(c, level); var before, after := 4 * c.noReboot + c.noExit, 4 * d.noReboot + d.noExit;
            && 0 <= d.noExit <= MAX_RETRY_EXIT && 0 <= d.noReboot <= MAX_RETRY_REBOOT
            && (if act == FINAL then after == 0 else before < after <= 15)
            && (level == EXIT ==> (act == FINAL <==> before == 15) && (before < 15 ==> after == before + 1))
  {
  }

  lemma CountersReadBack(c: Counters)
    ensures ReadCounters(WriteCounters(c)) == c
  {
  }

  lemma RankRises(f: DataFile, level: Level)
    requires InRange(f) && (level == EXIT || level == REBOOT)
    ensures var (act, g) := Escalate(f, level);
            InRange(g) && if act == FINAL then Rank(g) == 0 else Rank(f) < Rank(g) <= 15
    ensures level == EXIT ==> (Escalate(f, level).0 == FINAL <==> Rank(f) == 15)
    ensures level == EXIT && Rank(f) < 15 ==> Rank(Escalate(f, level).1) == Rank(f) + 1
  {
    hide Escalated, ReadCounters, WriteCounters;
    CountersRise(ReadCounters(f), level);
    CountersReadBack(Escalated(ReadCounters(f), level).1);
  }

  lemma DigitOf(e: int, r: int)
    requires 0 <= e <= 3 && r >= 0
    ensures (4 * r + e) % 4 == e
  {
  }

  lemma EscalatedIs(c: Counters, level: Level)
    requires 0 <= c.noExit <= 3 && 0 <= c.noReboot <= 3 && level != LOG
    ensures var (act, d) := Escalated(c, level); var before, after := 4 * c.noReboot + c.noExit, 4 * d.noReboot + d.noExit;
            && 0 <= d.noExit <= 3 && 0 <= d.noReboot <= 3
            && (level == EXIT ==>
                  && act == (if before == 15 then FINAL else if c.noExit == 3 then REBOOT else EXIT)
                  && after == if before == 15 then 0 else before + 1)
            && (level == REBOOT ==>
                  && act == (if before >= 12 then FINAL else REBOOT)
                  && after == if before >= 12 then 0 else before + 4)
            && (level == FINAL ==> act == FINAL && d == ZERO)
  {
  }

  /** The action taken for every error, and the rank it leaves: exit errors count up by one, every fourth of
      them reboots and the sixteenth is final; reboot errors count up by four; a final error always starts
      afresh, and one that is only logged changes nothing. */
  lemma ActionIs(f: DataFile, level: Level)
    requires InRange(f)
    ensures var (act, g), rank := Escalate(f, level), Rank(f);
            match level
            case LOG => act == LOG && g == f
            case EXIT =>
              && act == (if rank == 15 then FINAL else if rank % 4 == 3 then REBOOT else EXIT)
              && InRange(g) && Rank(g) == if rank == 15 then 0 else rank + 1
            case REBOOT =>
              && act == (if rank >= 12 then FINAL else REBOOT)
              && InRange(g) && Rank(g) == if rank >= 12 then 0 else rank + 4
            case FINAL => act == FINAL && g == Stored(0x30, 0x30)
  {
    hide Rank, InRange;
    match level
    case LOG =>
    case EXIT => ExitIs(f);
    case REBOOT => RebootIs(f);
    case FINAL => assert WriteCounters(ZERO) == Stored(0x30, 0x30);
  }

  lemma ExitIs(f: DataFile)
    requires InRange(f)
    ensures var (act, g), rank := Escalate(f, EXIT), Rank(f);
            && act == (if rank == 15 then FINAL else if rank % 4 == 3 then REBOOT else EXIT)
            && InRange(g) && Rank(g) == if rank == 15 then 0 else rank + 1
  {
    hide Escalated, ReadCounters, WriteCounters;
    var c := ReadCounters(f);
    DigitOf(c.noExit, c.noReboot);
    EscalatedIs(c, EXIT);
    CountersReadBack(Escalated(c, EXIT).1);
  }

  lemma RebootIs(f: DataFile)
    requires InRange(f)
    ensures var (act, g), rank := Escalate(f, REBOOT), Rank(f);
            && act == (if rank >= 12 then FINAL else REBOOT)
            && InRange(g) && Rank(g) == if rank >= 12 then 0 else rank + 4
  {
    hide Escalated, ReadCounters, WriteCounters;
    EscalatedIs(ReadCounters(f), REBOOT);
    CountersReadBack(Escalated(ReadCounters(f), REBOOT).1);
  }

  /** The data file after these errors. */
  function Run(f: DataFile, levels: seq<Level>): DataFile
    decreases |levels|
  {
    if levels == [] then f else Escalate(Run(f, levels[..|levels| - 1]), levels[|levels| - 1]).1
  }

  function ActionOf(f: DataFile, levels: seq<Level>, j: nat): Level
    requires j < |levels|
  {
    Escalate(Run(f, levels[..j]), levels[j]).0
  }

  lemma {:induction false} RankAfter(f: DataFile, levels: seq<Level>, n: nat)
    requires InRange(f) && n <= |levels| && forall i | 0 <= i < n :: levels[i] == EXIT || levels[i] == REBOOT
    requires forall j | 0 <= j < n :: ActionOf(f, levels, j) != FINAL
    ensures InRange(Run(f, levels[..n])) && Rank(Run(f, levels[..n])) >= Rank(f) + n
    decreases n
  {
    hide Escalate, ReadCounters;
    if n > 0 {
      RankAfter(f, levels, n - 1);
      assert levels[..n][..n - 1] == levels[..n - 1];
      assert ActionOf(f, levels, n - 1) != FINAL;
      RankRises(Run(f, levels[..n - 1]), levels[n - 1]);
    } else {
      assert levels[..0] == [];
    }
  }

  /** Any 16 critical errors in a row, in any mix, reach the final level. */
  lemma FinalWithinSixteen(f: DataFile, levels: seq<Level>) returns (j: nat)
    requires InRange(f) && |levels| == 16 && forall i | 0 <= i < 16 :: levels[i] == EXIT || levels[i] == REBOOT
    ensures j < 16 && ActionOf(f, levels, j) == FINAL
  {
    j := 15;
    if exists i | 0 <= i < 16 :: ActionOf(f, levels, i) == FINAL {
      j :| 0 <= j < 16 && ActionOf(f, levels, j) == FINAL;
    } else {
      RankAfter(f, levels, 15);
      RankRises(Run(f, levels[..15]), levels[15]);
    }
  }

  /** The data file after n exit errors and nothing else. */
  function AfterExits(f: DataFile, n: nat): DataFile {
    if n == 0 then f else Escalate(AfterExits(f, n - 1), EXIT).1
  }

  /** The data file after n reboot errors and nothing else. */
  function AfterReboots(f: DataFile, n: nat): DataFile {
    if n == 0 then f else Escalate(AfterReboots(f, n - 1), REBOOT).1
  }

  /** Exit errors alone, from a clean file: the n-th (from 0) exits the program, except that every fourth
      reboots, and every sixteenth is final and starts afresh. */
  lemma {:induction false} ExitsReachFinal(f: DataFile, n: nat)
    requires f == Missing || f == Stored(0x30, 0x30)
    ensures InRange(AfterExits(f, n)) && Rank(AfterExits(f, n)) == n % 16
    ensures Escalate(AfterExits(f, n), EXIT).0 == if n % 16 == 15 then FINAL else if n % 4 == 3 then REBOOT else EXIT
    decreases n
  {
    hide Escalate, ReadCounters, InRange, Rank;
    if n > 0 {
      ExitsReachFinal(f, n - 1);
      ActionIs(AfterExits(f, n - 1), EXIT);
      Sixteenth(n - 1);
    } else {
      CleanRank(f);
    }
    ActionIs(AfterExits(f, n), EXIT);
    Sixteenth(n);
  }

  lemma CleanRank(f: DataFile)
    requires f == Missing || f == Stored(0x30, 0x30)
    ensures InRange(f) && Rank(f) == 0
  {
  }

  lemma Sixteenth(n: nat)
    ensures (n + 1) % 16 == if n % 16 == 15 then 0 else n % 16 + 1
    ensures n % 16 % 4 == n % 4
  {
    var q, r := n / 16, n % 16;
    assert n == 4 * (4 * q + r / 4) + r % 4;
    DigitOf(r % 4, 4 * q + r / 4);
  }

  /** Reboot errors alone, from a clean file: three reboots, then the final level, and so on. */
  lemma {:induction false} RebootsReachFinal(f: DataFile, n: nat)
    requires f == Missing || f == Stored(0x30, 0x30)
    ensures InRange(AfterReboots(f, n)) && Rank(AfterReboots(f, n)) == 4 * (n % 4)
    ensures Escalate(AfterReboots(f, n), REBOOT).0 == if n % 4 == 3 then FINAL else REBOOT
    decreases n
  {
    hide Escalate, ReadCounters;
    if n > 0 {
      RebootsReachFinal(f, n - 1);
      ActionIs(AfterReboots(f, n - 1), REBOOT);
    } else {
      CleanRank(f);
    }
    ActionIs(AfterReboots(f, n), REBOOT);
  }
}
