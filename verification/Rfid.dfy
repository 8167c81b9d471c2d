/** board/rfidtool.c: the boarding table, 1000 slots of which only the first max_idx + 2 are scanned. */
module Rfid {

  const MAX_RFID_ARRAY := 1000
  const RFID_SKIP_SECS := 30
  const RFID_NOT_USED := 0
  const RFID_GET_ON := 1
  const RFID_GET_OFF := 2
  const UINT_RANGE := 0x1_0000_0000

  /** The four bytes of a card id as one number. */
  type Uid = nat

  /** A kernel time as stored in an unsigned int. */
  type Time = t: int | 0 <= t < UINT_RANGE

  datatype Slot = Slot(uid: Uid, boarding: bool, ktime: Time)

  /** now - ktime, computed in unsigned 32-bit arithmetic. */
  function Elapsed(now: Time, ktime: Time): (e: Time)
    ensures now >= ktime ==> e == now - ktime
  {
    (now - ktime) % UINT_RANGE
  }

  // ---------- reference: the boarded cards and the time each got on ----------

  type Cards = map<Uid, Time>

  /** rfid_check_passenser on the set of boarded cards: the result and the cards afterwards. */
  function Tap(m: Cards, uid: Uid, now: Time): (int, Cards) {
    if uid in m then
      if Elapsed(now, m[uid]) < RFID_SKIP_SECS then (RFID_NOT_USED, m) else (RFID_GET_OFF, m - {uid})
    else if |m| < MAX_RFID_ARRAY then (RFID_GET_ON, m[uid := now])
    else (RFID_GET_ON, m)
  }

  function Boarded(slots: seq<Slot>): Cards {
    if slots == [] then map[] else
      var n := |slots| - 1;
      if slots[n].boarding then Boarded(slots[..n])[slots[n].uid := slots[n].ktime] else Boarded(slots[..n])
  }

  predicate Distinct(slots: seq<Slot>) {
    forall i, j | 0 <= i < j < |slots| && slots[i].boarding && slots[j].boarding :: slots[i].uid != slots[j].uid
  }

  lemma {:induction false} BoardedKeys(slots: seq<Slot>, u: Uid)
    ensures u in Boarded(slots) <==> exists i :: 0 <= i < |slots| && slots[i].boarding && slots[i].uid == u
    decreases |slots|
  {
    if slots != [] {
      var n := |slots| - 1;
      BoardedKeys(slots[..n], u);
      assert forall i | 0 <= i < n :: slots[..n][i] == slots[i];
      if u in Boarded(slots[..n]) {
        var i :| 0 <= i < n && slots[..n][i].boarding && slots[..n][i].uid == u;
        assert slots[i].uid == u;
      }
    }
  }

  lemma {:induction false} BoardedValue(slots: seq<Slot>, i: nat)
    requires Distinct(slots) && i < |slots| && slots[i].boarding
    ensures slots[i].uid in Boarded(slots) && Boarded(slots)[slots[i].uid] == slots[i].ktime
    decreases |slots|
  {
    var n := |slots| - 1;
    if i < n {
      BoardedValue(slots[..n], i);
    }
  }

  /** At most one card per slot; a table of cards as large as the array leaves no slot free. */
  lemma {:induction false} BoardedSize(slots: seq<Slot>)
    requires Distinct(slots)
    ensures |Boarded(slots)| <= |slots|
    ensures |Boarded(slots)| == |slots| <==> forall i | 0 <= i < |slots| :: slots[i].boarding
    decreases |slots|
  {
    if slots != [] {
      var n := |slots| - 1;
      BoardedSize(slots[..n]);
      BoardedKeys(slots[..n], slots[n].uid);
      assert slots == slots[..n] + [slots[n]];
    }
  }

  lemma BoardedDetermined(slots: seq<Slot>, m: Cards)
    requires Distinct(slots)
    requires forall i | 0 <= i < |slots| && slots[i].boarding :: slots[i].uid in m && m[slots[i].uid] == slots[i].ktime
    requires forall u | u in m :: exists i :: 0 <= i < |slots| && slots[i].boarding && slots[i].uid == u
    ensures Boarded(slots) == m
  {
    forall u ensures u in Boarded(slots) <==> u in m {
      BoardedKeys(slots, u);
    }
    forall u | u in m ensures Boarded(slots)[u] == m[u] {
      var i :| 0 <= i < |slots| && slots[i].boarding && slots[i].uid == u;
      BoardedValue(slots, i);
    }
  }

  // ---------- the table ----------

  class RfidTable {
    const arr_rfid: array<Slot>
    var max_idx_rfid: int

    ghost predicate Valid()
      reads this, arr_rfid
    {
      && arr_rfid.Length == MAX_RFID_ARRAY
      && -1 <= max_idx_rfid < MAX_RFID_ARRAY
      && (forall i | max_idx_rfid < i < MAX_RFID_ARRAY :: !arr_rfid[i].boarding)
      && Distinct(arr_rfid[..])
    }

    constructor ()
      ensures Valid() && Boarded(arr_rfid[..]) == map[] && fresh(arr_rfid)
    {
      arr_rfid := new Slot[MAX_RFID_ARRAY](_ => Slot(0, false, 0));
      max_idx_rfid := -1;
      new;
      BoardedDetermined(arr_rfid[..], map[]);
    }

    /** The search loop: the slot of a boarded card, or limit and the first unused slot. */
    method Search(uid: Uid, limit: nat) returns (i: nat, firstEmpty: int)
      requires Valid() && limit <= MAX_RFID_ARRAY
      ensures i <= limit
      ensures i < limit ==> arr_rfid[i].boarding && arr_rfid[i].uid == uid
      ensures i == limit ==> forall j | 0 <= j < limit && arr_rfid[j].boarding :: arr_rfid[j].uid != uid
      ensures i == limit && firstEmpty == -1 ==> forall j | 0 <= j < limit :: arr_rfid[j].boarding
      ensures firstEmpty != -1 ==> 0 <= firstEmpty < limit && !arr_rfid[firstEmpty].boarding
                                   && forall j | 0 <= j < firstEmpty :: arr_rfid[j].boarding
    {
      i, firstEmpty := 0, -1;
      while i < limit
        invariant i <= limit
        invariant forall j | 0 <= j < i && arr_rfid[j].boarding :: arr_rfid[j].uid != uid
        invariant firstEmpty == -1 ==> forall j | 0 <= j < i :: arr_rfid[j].boarding
        invariant firstEmpty != -1 ==> 0 <= firstEmpty < i && !arr_rfid[firstEmpty].boarding
                                       && forall j | 0 <= j < firstEmpty :: arr_rfid[j].boarding
      {
        if !arr_rfid[i].boarding {
          if firstEmpty == -1 {
            firstEmpty := i;
          }
        } else if arr_rfid[i].uid == uid {
          break;
        }
        i := i + 1;
      }
    }

    /** rfid_check_passenser(uid, 4) at kernel time now. */
    method CheckPassenser(uid: Uid, now: Time) returns (board: int)
      requires Valid()
      modifies this, arr_rfid
      ensures Valid()
      ensures (board, Boarded(arr_rfid[..])) == Tap(Boarded(old(arr_rfid[..])), uid, now)
    {
      ghost var before := arr_rfid[..];
      BoardedKeys(before, uid);
      BoardedSize(before);
      var limit := if max_idx_rfid + 2 < MAX_RFID_ARRAY then max_idx_rfid + 2 else MAX_RFID_ARRAY;
      var i, firstEmpty := Search(uid, limit);
      if i >= limit {
        if firstEmpty != -1 {
          arr_rfid[firstEmpty] := Slot(uid, true, now);
          if firstEmpty > max_idx_rfid {
            max_idx_rfid := firstEmpty;
          }
          GetOn(before, firstEmpty, uid, now);
          assert arr_rfid[..] == before[firstEmpty := Slot(uid, true, now)];
          assert !before[firstEmpty].boarding;
          return RFID_GET_ON;
        }
        assert arr_rfid[limit - 1].boarding;
        assert limit == MAX_RFID_ARRAY;
        return RFID_GET_ON;
      }
      BoardedValue(before, i);
      if Elapsed(now, arr_rfid[i].ktime) < RFID_SKIP_SECS {
        return RFID_NOT_USED;
      }
      arr_rfid[i] := arr_rfid[i].(ktime := now, boarding := false);
      GetOff(before, i, now);
      assert arr_rfid[..] == before[i := before[i].(ktime := now, boarding := false)];
      board := RFID_GET_OFF;
    }
  }

  lemma GetOn(slots: seq<Slot>, k: nat, uid: Uid, now: Time)
    requires Distinct(slots) && k < |slots| && !slots[k].boarding
    requires forall i | 0 <= i < |slots| && slots[i].boarding :: slots[i].uid != uid
    ensures var after := slots[k := Slot(uid, true, now)];
            Distinct(after) && Boarded(after) == Boarded(slots)[uid := now]
  {
    var after, m := slots[k := Slot(uid, true, now)], Boarded(slots)[uid := now];
    forall i | 0 <= i < |after| && after[i].boarding ensures after[i].uid in m && m[after[i].uid] == after[i].ktime {
      if i != k {
        BoardedValue(slots, i);
      }
    }
    forall u | u in m ensures exists i :: 0 <= i < |after| && after[i].boarding && after[i].uid == u {
      if u == uid {
        assert after[k].uid == u;
      } else {
        BoardedKeys(slots, u);
        var i :| 0 <= i < |slots| && slots[i].boarding && slots[i].uid == u;
        assert after[i] == slots[i];
      }
    }
    BoardedDetermined(after, m);
  }

  lemma GetOff(slots: seq<Slot>, k: nat, now: Time)
    requires Distinct(slots) && k < |slots| && slots[k].boarding
    ensures var after := slots[k := slots[k].(ktime := now, boarding := false)];
            Distinct(after) && Boarded(after) == Boarded(slots) - {slots[k].uid}
  {
    var after, m := slots[k := slots[k].(ktime := now, boarding := false)], Boarded(slots) - {slots[k].uid};
    forall i | 0 <= i < |after| && after[i].boarding ensures after[i].uid in m && m[after[i].uid] == after[i].ktime {
      BoardedValue(slots, i);
    }
    forall u | u in m ensures exists i :: 0 <= i < |after| && after[i].boarding && after[i].uid == u {
      BoardedKeys(slots, u);
      var i :| 0 <= i < |slots| && slots[i].boarding && slots[i].uid == u;
      assert after[i] == slots[i];
    }
    BoardedDetermined(after, m);
  }

  // ---------- runs ----------

  datatype Read = Read(uid: Uid, now: Time)

  function Run(rs: seq<Read>): Cards
    decreases |rs|
  {
    if rs == [] then map[] else
      var n := |rs| - 1;
      Tap(Run(rs[..n]), rs[n].uid, rs[n].now).1
  }

  function ResultOf(rs: seq<Read>, j: nat): int
    requires j < |rs|
  {
    Tap(Run(rs[..j]), rs[j].uid, rs[j].now).0
  }

  /** Read i put the card on board, and until read j its reads were all skipped. */
  ghost predicate OnSince(rs: seq<Read>, uid: Uid, i: nat, j: nat) {
    && i < j <= |rs| && rs[i].uid == uid && ResultOf(rs, i) == RFID_GET_ON
    && forall k | i < k < j && rs[k].uid == uid :: ResultOf(rs, k) == RFID_NOT_USED
  }

  lemma PrefixResult(rs: seq<Read>, n: nat, j: nat)
    requires j < n <= |rs|
    ensures ResultOf(rs[..n], j) == ResultOf(rs, j)
  {
    assert rs[..n][..j] == rs[..j];
  }

  /** A card that is on board after a read got on by it, or was on board before and was not taken off. */
  lemma OnAfterTap(m: Cards, uid: Uid, read: Read)
    requires uid in Tap(m, read.uid, read.now).1
    ensures var (result, after) := Tap(m, read.uid, read.now);
            if uid in m then after[uid] == m[uid] && (read.uid == uid ==> result == RFID_NOT_USED)
            else read.uid == uid && result == RFID_GET_ON && after[uid] == read.now
  {
  }

  lemma RunLast(rs: seq<Read>)
    requires rs != []
    ensures var n := |rs| - 1;
            Run(rs) == Tap(Run(rs[..n]), rs[n].uid, rs[n].now).1
            && ResultOf(rs, n) == Tap(Run(rs[..n]), rs[n].uid, rs[n].now).0
  {
  }

  /** Every boarded card has a read that put it on board, and its entry is the time of that read. */
  lemma {:induction false} BoardedSince(rs: seq<Read>, uid: Uid) returns (i: nat)
    requires uid in Run(rs)
    ensures OnSince(rs, uid, i, |rs|) && Run(rs)[uid] == rs[i].now
    decreases |rs|
  {
    hide Tap, ResultOf;
    NotEmpty(rs, uid);
    var n := |rs| - 1;
    var before := rs[..n];
    RunLast(rs);
    hide Run;
    OnAfterTap(Run(before), uid, rs[n]);
    if uid in Run(before) {
      i := BoardedSince(before, uid);
      SincePrefix(rs, uid, i, n);
    } else {
      i := n;
    }
  }

  lemma NotEmpty(rs: seq<Read>, uid: Uid)
    requires uid in Run(rs)
    ensures rs != []
  {
  }

  lemma SincePrefix(rs: seq<Read>, uid: Uid, i: nat, n: nat)
    requires n <= |rs| && OnSince(rs[..n], uid, i, n)
    ensures OnSince(rs, uid, i, n) && rs[i] == rs[..n][i]
  {
    hide ResultOf;
    forall k | i <= k < n ensures rs[..n][k] == rs[k] && ResultOf(rs[..n], k) == ResultOf(rs, k) {
      PrefixResult(rs, n, k);
    }
  }

  /** When a boarded card is taken off: 30 seconds or more after its entry, or when the clock has gone back
      by no more than the 32-bit range leaves. */
  lemma TakenOffIff(m: Cards, uid: Uid, now: Time)
    requires uid in m
    ensures Tap(m, uid, now).0 == RFID_GET_OFF <==>
              now - m[uid] >= 30 || (now < m[uid] && m[uid] - now <= UINT_RANGE - 30)
  {
    if now < m[uid] {
      assert (now - m[uid]) % UINT_RANGE == now - m[uid] + UINT_RANGE;
    }
  }

  /** A read of a boarded card takes it off exactly when this holds of the clock at that read and at the
      read that put the card on board; the clock at any other read does not matter. */
  lemma OffIff(rs: seq<Read>, j: nat) returns (i: nat)
    requires j < |rs| && rs[j].uid in Run(rs[..j])
    ensures OnSince(rs, rs[j].uid, i, j)
    ensures var on, now := rs[i].now, rs[j].now;
            ResultOf(rs, j) == RFID_GET_OFF <==> now - on >= 30 || (now < on && on - now <= UINT_RANGE - 30)
  {
    var uid := rs[j].uid;
    i := BoardedSince(rs[..j], uid);
    SincePrefix(rs, uid, i, j);
    TakenOffIff(Run(rs[..j]), uid, rs[j].now);
  }

  /** A card gets off only after a read that put it on, with nothing but skipped reads in between, and 30
      seconds later or more exactly when the clock has not gone back between those two reads. */
  lemma OffThirtySecondsAfterOn(rs: seq<Read>, j: nat) returns (i: nat)
    requires j < |rs| && ResultOf(rs, j) == RFID_GET_OFF
    ensures OnSince(rs, rs[j].uid, i, j)
    ensures rs[j].now - rs[i].now >= 30 <==> rs[i].now <= rs[j].now
  {
    i := OffIff(rs, j);
  }

  /** tools_get_kerneltime reports a failure as 0. At the exit, it takes every card off whose entry time is
      known and does not lie within 30 seconds of the end of the range; at the boarding, it makes the card
      get off at any read from kernel time 30 on, however soon that is. */
  lemma FailedClockSkipsNothing(m: Cards, uid: Uid, now: Time)
    requires uid in m
    ensures Tap(m, uid, 0).0 == RFID_GET_OFF <==> 0 < m[uid] <= UINT_RANGE - 30
    ensures m[uid] == 0 ==> (Tap(m, uid, now).0 == RFID_GET_OFF <==> now >= 30)
  {
    TakenOffIff(m, uid, 0);
    TakenOffIff(m, uid, now);
  }

  /** How many reads from 0 to n - 1 had this result. */
  function Times(rs: seq<Read>, n: nat, what: int): nat
    requires n <= |rs|
  {
    if n == 0 then 0 else Times(rs, n - 1, what) + if ResultOf(rs, n - 1) == what then 1 else 0
  }

  /** Reads of unknown cards while all 1000 slots are taken: reported as boarding, not recorded. */
  function Overflows(rs: seq<Read>, n: nat): nat
    requires n <= |rs|
  {
    if n == 0 then 0 else
      var m := Run(rs[..n - 1]);
      Overflows(rs, n - 1) + if rs[n - 1].uid !in m && |m| >= 1000 then 1 else 0
  }

  /** Passenger count: cards on board = reported boardings - reported exits - overflows. */
  lemma {:induction false} PassengerCount(rs: seq<Read>, n: nat)
    requires n <= |rs|
    ensures |Run(rs[..n])| == Times(rs, n, RFID_GET_ON) - Times(rs, n, RFID_GET_OFF) - Overflows(rs, n)
    ensures |Run(rs[..n])| <= 1000
    decreases n
  {
    if n > 0 {
      PassengerCount(rs, n - 1);
      assert rs[..n][..n - 1] == rs[..n - 1];
      var m, r := Run(rs[..n - 1]), rs[n - 1];
      RemoveSize(m, r.uid);
    }
  }

  lemma RemoveSize(m: Cards, u: Uid)
    ensures u in m ==> |m - {u}| == |m| - 1
  {
    assert (m - {u}).Keys == m.Keys - {u};
  }
}
