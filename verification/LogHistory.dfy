/** insert_log_history (base/error.c:34-85): a log file of fixed-size records, rewritten in place. */
module LogHistory {

  /** write(fd, data) at position pos of a file. */
  function Overwrite<T>(file: seq<T>, pos: nat, data: seq<T>): (r: seq<T>)
    requires pos <= |file|
    ensures |r| == if pos + |data| <= |file| then |file| else pos + |data|
  {
    if pos + |data| <= |file| then file[..pos] + data + file[pos + |data|..] else file[..pos] + data
  }

  class LogFile<T> {
    var bytes: seq<T>

    /** insert_log_history(file, pmsg, unit, max): the new record first, then the old ones. */
    method InsertLogHistory(pmsg: seq<T>, unit: nat, max: nat)
      requires |pmsg| == unit > 0 && max > 0
      modifies this
      ensures bytes == Inserted(old(bytes), pmsg, unit, max)
    {
      var nread := if |bytes| < unit * max then |bytes| else unit * max;
      var pdata := bytes[..nread];
      var nhist := nread / unit;
      KeptFits(nread, unit, max);
      bytes := Overwrite(bytes, 0, pmsg);
      if nhist + 1 > max {
        nhist := nhist - 1;
      }
      bytes := Overwrite(bytes, unit, pdata[..unit * nhist]);
    }
  }

  lemma KeptFits(nread: nat, unit: nat, max: nat)
    requires unit > 0 && nread <= unit * max
    ensures 0 <= nread / unit <= max && unit * (nread / unit) <= nread
    ensures nread / unit == max ==> nread == unit * max && unit * (max - 1) <= nread
  {
    assert nread == unit * (nread / unit) + nread % unit;
    if nread / unit > max {
      MulMonotone(unit, max + 1, nread / unit);
    }
    MulMonotone(unit, max - 1, max);
  }

  /** How many whole old records are kept. */
  function Kept(size: nat, unit: nat, max: nat): nat
    requires unit > 0 && max > 0
  {
    var nread := if size < unit * max then size else unit * max;
    KeptFits(nread, unit, max);
    if nread / unit == max then max - 1 else nread / unit
  }

  function Inserted<T>(file: seq<T>, pmsg: seq<T>, unit: nat, max: nat): seq<T>
    requires |pmsg| == unit > 0 && max > 0
  {
    var nread := if |file| < unit * max then |file| else unit * max;
    KeptFits(nread, unit, max);
    Overwrite(Overwrite(file, 0, pmsg), unit, file[..nread][..unit * Kept(|file|, unit, max)])
  }

  function Flatten<T>(records: seq<seq<T>>): seq<T> {
    if records == [] then [] else records[0] + Flatten(records[1..])
  }

  ghost predicate Records<T>(records: seq<seq<T>>, unit: nat) {
    forall i | 0 <= i < |records| :: |records[i]| == unit
  }

  lemma {:induction false} FlattenPrefix<T>(records: seq<seq<T>>, unit: nat, k: nat)
    requires Records(records, unit) && k <= |records|
    ensures 0 <= unit * k <= |Flatten(records)| == unit * |records|
    ensures Flatten(records)[..unit * k] == Flatten(records[..k])
    decreases |records|
  {
    if records == [] {
    } else if k == 0 {
      FlattenPrefix(records[1..], unit, 0);
      MulNext(unit, |records|);
      assert records[..0] == [];
    } else {
      FlattenPrefix(records[1..], unit, k - 1);
      MulNext(unit, |records|);
      MulNext(unit, k);
      FlattenTake(records, k);
      var keep := unit * (k - 1);
      hide Records;
      PrefixCons(records[0], Flatten(records[1..]), keep);
    }
  }

  lemma MulNext(unit: nat, a: nat)
    requires a > 0
    ensures unit * a == unit + unit * (a - 1) && unit * (a - 1) >= 0
  {
  }

  lemma FlattenTake<T>(records: seq<seq<T>>, k: nat)
    requires 0 < k <= |records|
    ensures Flatten(records[..k]) == records[0] + Flatten(records[1..][..k - 1])
  {
    assert records[..k][0] == records[0] && records[..k][1..] == records[1..][..k - 1];
  }

  lemma PrefixCons<T>(a: seq<T>, b: seq<T>, k: nat)
    requires k <= |b|
    ensures (a + b)[..|a| + k] == a + b[..k]
  {
  }

  /** The newest max records. */
  function Newest<T>(records: seq<seq<T>>, max: nat): (r: seq<seq<T>>)
    ensures |r| <= max
  {
    if |records| <= max then records else records[..max]
  }

  /** A log of at most max records, even one torn within its last record, becomes the new record
      followed by the newest of the old ones, max in all. */
  lemma InsertKeepsNewest<T>(records: seq<seq<T>>, torn: seq<T>, pmsg: seq<T>, unit: nat, max: nat)
    requires |pmsg| == unit > 0 && max > 0 && Records(records, unit)
    requires |torn| < unit && |records| + (if torn == [] then 0 else 1) <= max
    ensures Inserted(Flatten(records) + torn, pmsg, unit, max) == Flatten(Newest([pmsg] + records, max))
  {
    hide Kept, Flatten, Inserted, Newest;
    var k := if |records| == max then max - 1 else |records|;
    var keep := KeepIs(records, torn, unit, max);
    InsertedIs(Flatten(records) + torn, pmsg, unit, max, keep);
    NewestIs(records, pmsg, max, k);
  }

  /** The kept part of the old log is that of its first k records, and the two writes cover the old file. */
  lemma KeepIs<T>(records: seq<seq<T>>, torn: seq<T>, unit: nat, max: nat) returns (keep: nat)
    requires unit > 0 && max > 0 && Records(records, unit)
    requires |torn| < unit && |records| + (if torn == [] then 0 else 1) <= max
    ensures keep == unit * Kept(|Flatten(records) + torn|, unit, max)
    ensures keep <= |Flatten(records) + torn| <= unit + keep
    ensures (Flatten(records) + torn)[..keep] == Flatten(records[..if |records| == max then max - 1 else |records|])
  {
    hide Kept, Flatten, Records;
    var n := |records|;
    var k := if n == max then max - 1 else n;
    KeptIs(n, |torn|, unit, max);
    SizesFit(n, |torn|, unit, max);
    FlattenPrefix(records, unit, n);
    FlattenPrefix(records, unit, k);
    keep := unit * k;
    MulMonotone(unit, k, n);
    TakeOfPrefix(Flatten(records), torn, keep);
  }

  lemma TakeOfPrefix<T>(a: seq<T>, b: seq<T>, k: nat)
    requires k <= |a|
    ensures (a + b)[..k] == a[..k]
  {
  }

  lemma NewestIs<T>(records: seq<seq<T>>, pmsg: seq<T>, max: nat, k: nat)
    requires max > 0 && |records| <= max && k == if |records| == max then max - 1 else |records|
    ensures Flatten(Newest([pmsg] + records, max)) == pmsg + Flatten(records[..k])
  {
    assert Newest([pmsg] + records, max) == [pmsg] + records[..k];
    FlattenCons(pmsg, records[..k]);
  }

  lemma InsertedIs<T>(file: seq<T>, pmsg: seq<T>, unit: nat, max: nat, keep: nat)
    requires |pmsg| == unit > 0 && max > 0 && keep == unit * Kept(|file|, unit, max)
    requires keep <= |file| <= unit + keep
    ensures Inserted(file, pmsg, unit, max) == pmsg + file[..keep]
  {
    var nread := if |file| < unit * max then |file| else unit * max;
    KeptFits(nread, unit, max);
    assert file[..nread][..keep] == file[..keep];
    OverwriteTwice(file, pmsg, file[..keep]);
  }

  lemma FlattenCons<T>(r: seq<T>, records: seq<seq<T>>)
    ensures Flatten([r] + records) == r + Flatten(records)
  {
    assert ([r] + records)[1..] == records;
  }

  lemma OverwriteTwice<T>(file: seq<T>, a: seq<T>, b: seq<T>)
    requires |a| + |b| >= |file|
    ensures Overwrite(Overwrite(file, 0, a), |a|, b) == a + b
  {
    assert Overwrite(file, 0, a)[..|a|] == a;
  }

  lemma KeptIs(n: nat, t: nat, unit: nat, max: nat)
    requires unit > t && max > 0 && n + (if t == 0 then 0 else 1) <= max
    ensures unit * n + t <= unit * max
    ensures Kept(unit * n + t, unit, max) == if n == max then max - 1 else n
  {
    MulMonotone(unit, if t == 0 then n else n + 1, max);
    QuotientIs(n, t, unit);
  }

  lemma QuotientIs(n: nat, t: nat, unit: nat)
    requires t < unit
    ensures (unit * n + t) / unit == n
  {
    var q := (unit * n + t) / unit;
    assert unit * q + (unit * n + t) % unit == unit * n + t;
    if q > n {
      MulMonotone(unit, n + 1, q);
    } else if q < n {
      MulMonotone(unit, q + 1, n);
    }
  }

  lemma MulMonotone(unit: nat, a: int, b: int)
    requires a <= b
    ensures unit * a <= unit * b
    ensures unit * a == unit * (a - 1) + unit
  {
    assert unit * b - unit * a == unit * (b - a) >= 0;
  }

  /** The two writes cover the old file completely. */
  lemma SizesFit(n: nat, t: nat, unit: nat, max: nat)
    requires unit > t && max > 0 && n + (if t == 0 then 0 else 1) <= max
    ensures unit + unit * (if n == max then max - 1 else n) >= unit * n + t
  {
    MulMonotone(unit, n, max);
  }

  /** A longer log, left by a larger max, is never cut: its first max records are the newest ones, and
      what lies beyond them stays. */
  lemma LongLogKeepsTail<T>(file: seq<T>, pmsg: seq<T>, unit: nat, max: nat)
    requires |pmsg| == unit > 0 && max > 0 && unit * max <= |file|
    ensures 0 <= unit * (max - 1) <= unit * max
    ensures Inserted(file, pmsg, unit, max) == pmsg + file[..unit * (max - 1)] + file[unit * max..]
  {
    hide Overwrite;
    MulMonotone(unit, max - 1, max);
    MulMonotone(unit, 0, max - 1);
    MulMonotone(unit, max, max);
    QuotientIs(max, 0, unit);
    WithinFile(file, pmsg, unit * (max - 1), unit * max);
  }

  lemma WithinFile<T>(file: seq<T>, a: seq<T>, keep: nat, nread: nat)
    requires |a| + keep == nread <= |file|
    ensures Overwrite(Overwrite(file, 0, a), |a|, file[..nread][..keep]) == a + file[..keep] + file[nread..]
  {
    var b := file[..nread][..keep];
    assert b == file[..keep];
    var mid := Overwrite(file, 0, a);
    assert mid[..|a|] == a && mid[nread..] == file[nread..];
  }

  function Reversed<T>(s: seq<seq<T>>): (r: seq<seq<T>>)
    ensures |r| == |s|
  {
    if s == [] then [] else [s[|s| - 1]] + Reversed(s[..|s| - 1])
  }

  function LogAfter<T>(msgs: seq<seq<T>>, unit: nat, max: nat): seq<T>
    requires unit > 0 && max > 0 && Records(msgs, unit)
    decreases |msgs|
  {
    if msgs == [] then [] else Inserted(LogAfter(msgs[..|msgs| - 1], unit, max), msgs[|msgs| - 1], unit, max)
  }

  /** After any number of inserts into an empty log it holds the newest max records, newest first. */
  lemma {:induction false} LogHoldsNewest<T>(msgs: seq<seq<T>>, unit: nat, max: nat)
    requires unit > 0 && max > 0 && Records(msgs, unit)
    ensures LogAfter(msgs, unit, max) == Flatten(Newest(Reversed(msgs), max))
    ensures Records(Reversed(msgs), unit)
    decreases |msgs|
  {
    if msgs != [] {
      var before, msg := msgs[..|msgs| - 1], msgs[|msgs| - 1];
      LogHoldsNewest(before, unit, max);
      var kept := Newest(Reversed(before), max);
      assert Flatten(kept) + [] == Flatten(kept);
      InsertKeepsNewest(kept, [], msg, unit, max);
      assert Newest([msg] + kept, max) == Newest([msg] + Reversed(before), max);
    }
  }
}
