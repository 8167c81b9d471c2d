/** One send lane: a pipe (util/pipe.c) with its counters, the producer side and the network thread
    of base/sender.c, and the retry loop of send_packet (model/alloc2/netcom.c). */
module Sender {
  import opened Crc16
  import opened Record

  const PIPE_MAX_NUM := 5000
  const PIPE_MAX_SIZE := 2 * 1024 * 1024
  const MAX_PACKET := 0xFFFF
  const E_MDM_STAT_EVT_FIFO := 0x92
  const E_MDM_GPS_INFO_FIFO := 0x93

  /** pipeData_t; the payload pointer is the number of its allocation. */
  datatype Packet = Packet(op: int, data: nat, size: nat, csum: Byte)

  /** The lane and the fate of every packet it has accepted. mem holds the payloads not yet freed; broken
      records a payload that was read or freed when it was not there any more. */
  datatype State = State(
    queue: seq<Packet>, num: int, size: int,
    flight: seq<Packet>,
    mem: map<nat, seq<Byte>>, nextAlloc: nat, broken: bool,
    accepted: seq<Packet>, sent: seq<Packet>, evicted: seq<Packet>,
    rejected: seq<Packet>, leaked: seq<Packet>)

  // ---------- checksum ----------

  function XorAll(s: seq<Byte>): Byte
    requires s != []
    decreases |s|
  {
    if |s| == 1 then s[0] else ByteXor(XorAll(s[..|s| - 1]), s[|s| - 1])
  }

  /** tools_checksum_xor reads the first byte even when the length is 0. */
  function Checksum(buff: seq<Byte>, len: nat): Byte
    requires 0 < |buff| && len <= |buff|
  {
    if len == 0 then buff[0] else XorAll(buff[..len])
  }

  /** The checksum of one byte is that byte, and changing any byte by d changes the checksum by d. */
  lemma {:induction false} XorChanges(s: seq<Byte>, i: nat, d: Byte)
    requires i < |s|
    ensures XorAll([s[i]]) == s[i]
    ensures XorAll(s[i := ByteXor(s[i], d)]) == ByteXor(XorAll(s), d)
    decreases |s|
  {
    var n := |s| - 1;
    var t := s[i := ByteXor(s[i], d)];
    if n > 0 {
      if i < n {
        XorChanges(s[..n], i, d);
        assert t[..n] == s[..n][i := ByteXor(s[i], d)];
        ByteXorSwap(XorAll(s[..n]), d, s[n]);
      } else {
        assert t[..n] == s[..n];
        ByteXorSwap(XorAll(s[..n]), s[n], d);
        ByteXorJoin(XorAll(s[..n]), s[n], d);
      }
    }
  }

  lemma ByteXorSwap(a: Byte, b: Byte, c: Byte)
    ensures ByteXor(ByteXor(a, b), c) == ByteXor(ByteXor(a, c), b)
  {
  }

  lemma ByteXorJoin(a: Byte, b: Byte, c: Byte)
    ensures ByteXor(a, ByteXor(b, c)) == ByteXor(ByteXor(a, b), c)
  {
  }

  lemma ByteXorSame(a: Byte, d: Byte)
    ensures ByteXor(a, d) == a <==> d == Byte(0)
  {
  }

  /** A single changed byte among those checked changes the checksum, and one behind them does not. For
      length 0 the first byte is checked. */
  lemma ChecksumNotices(m: seq<Byte>, len: nat, i: nat, d: Byte)
    requires i < |m| && len <= |m|
    ensures Checksum(m[i := ByteXor(m[i], d)], len) == Checksum(m, len) <==>
              d == Byte(0) || i >= (if len == 0 then 1 else len)
  {
    var t := m[i := ByteXor(m[i], d)];
    ByteXorSame(m[i], d);
    if len > 0 {
      if i < len {
        assert t[..len] == m[..len][i := ByteXor(m[..len][i], d)];
        XorChanges(m[..len], i, d);
        ByteXorSame(XorAll(m[..len]), d);
      } else {
        assert t[..len] == m[..len];
      }
    }
  }

  method ToolsChecksumXor(buff: seq<Byte>, len: nat) returns (ret: Byte)
    requires 0 < |buff| && len <= |buff|
    ensures ret == Checksum(buff, len)
  {
    ret := buff[0];
    if len > 0 {
      assert buff[..1] == [buff[0]];
      for i := 1 to len
        invariant ret == XorAll(buff[..i])
      {
        assert buff[..i + 1][..i] == buff[..i];
        ret := ByteXor(ret, buff[i]);
      }
    }
  }

  // ---------- the actions ----------

  predicate Fifo(op: int) {
    op == E_MDM_STAT_EVT_FIFO || op == E_MDM_GPS_INFO_FIFO
  }

  predicate Full(s: State) {
    s.num > PIPE_MAX_NUM || s.size > PIPE_MAX_SIZE
  }

  /** All p.size bytes of the payload are there, and the first one that the checksum always reads. */
  predicate Readable(mem: map<nat, seq<Byte>>, p: Packet) {
    p.data in mem && 0 < |mem[p.data]| && p.size <= |mem[p.data]|
  }

  function Used(s: State, p: Packet): State {
    s.(broken := s.broken || !Readable(s.mem, p))
  }

  function Freed(s: State, p: Packet): State {
    s.(mem := s.mem - {p.data}, broken := s.broken || p.data !in s.mem)
  }

  /** A full pipe gives up and frees its oldest packet, and only that one. */
  function MakeRoom(s: State): State {
    if Full(s) && s.queue != [] then
      Freed(s, s.queue[0]).(queue := s.queue[1..], num := s.num - 1, size := s.size - s.queue[0].size,
                            evicted := s.evicted + [s.queue[0]])
    else s
  }

  function Push(s: State, p: Packet): State {
    s.(queue := s.queue + [p], num := s.num + 1, size := s.size + p.size)
  }

  datatype Action =
    | Add(op: int, payload: seq<Byte>, size: nat, writeOk: bool)
    | Take
    | Attempt(ret: int, writeOk: bool)
    | Corrupt(data: nat, bytes: seq<Byte>)

  predicate Enabled(s: State, a: Action) {
    match a
    case Add(_, payload, size, _) => 0 < |payload| && size <= |payload| && size <= MAX_PACKET
    case Take => s.flight == []
    case Attempt(_, _) => |s.flight| == 1
    case Corrupt(data, bytes) => data in s.mem && |bytes| == |s.mem[data]|
  }

  function NewPacket(s: State, op: int, payload: seq<Byte>, size: nat): Packet
    requires 0 < |payload| && size <= |payload|
  {
    Packet(op, s.nextAlloc, size, Checksum(payload, size))
  }

  // ---------- counters ----------

  function SizeOf(q: seq<Packet>): nat {
    if q == [] then 0 else q[0].size + SizeOf(q[1..])
  }

  lemma {:induction false} SizeOfPush(q: seq<Packet>, p: Packet)
    ensures SizeOf(q + [p]) == SizeOf(q) + p.size
    decreases |q|
  {
    if q == [] {
      assert q + [p] == [p];
    } else {
      assert (q + [p])[1..] == q[1..] + [p];
      SizeOfPush(q[1..], p);
    }
  }

  lemma {:induction false} SizeOfAtMost(q: seq<Packet>, m: nat)
    requires forall i | 0 <= i < |q| :: q[i].size <= m
    ensures SizeOf(q) <= |q| * m
    decreases |q|
  {
    if q != [] {
      SizeOfAtMost(q[1..], m);
    }
  }

  /** The counters are exact, and the queue never holds more than 5001 packets. */
  predicate Counted(s: State) {
    && s.num == |s.queue| <= PIPE_MAX_NUM + 1
    && s.size == SizeOf(s.queue)
    && |s.flight| <= 1
  }

  const EMPTY := State([], 0, 0, [], map[], 0, false, [], [], [], [], [])

  function Allocated(s: State, payload: seq<Byte>): State {
    s.(mem := s.mem[s.nextAlloc := payload], nextAlloc := s.nextAlloc + 1)
  }

  /** sender_add_data_to_buffer: a packet that cannot be written is freed by its producer. */
  function Added(s: State, op: int, payload: seq<Byte>, size: nat, writeOk: bool): State
    requires 0 < |payload| && size <= |payload|
  {
    var p, room := NewPacket(s, op, payload, size), MakeRoom(Allocated(s, payload));
    if writeOk then Push(room, p).(accepted := s.accepted + [p]) else Freed(room, p)
  }

  predicate Sound(s: State, p: Packet) {
    Readable(s.mem, p) && Checksum(s.mem[p.data], p.size) == p.csum
  }

  /** pipe_read and pipe_check_csum_data: the oldest packet is now in flight, or rejected and freed. */
  function Taken(s: State): State {
    if s.queue == [] then s else
      var p := s.queue[0];
      var t := Used(s, p).(queue := s.queue[1..], num := s.num - 1, size := s.size - p.size);
      if Sound(s, p) then t.(flight := [p]) else Freed(t, p).(rejected := s.rejected + [p])
  }

  /** One turn of the send loop, which reads the payload. send_packet itself repeats a failed turn for the
      two fifo opcodes; for the others it returns, and sender_tx_data puts the packet back at the tail. */
  function Attempted(s: State, ret: int, writeOk: bool): State
    requires |s.flight| == 1
  {
    var p := s.flight[0];
    var u := Used(s, p);
    if ret >= 0 then Freed(u, p).(flight := [], sent := s.sent + [p])
    else if Fifo(p.op) then u
    else
      var room := MakeRoom(u.(flight := []));
      if writeOk then Push(room, p) else room.(leaked := s.leaked + [p])
  }

  /** One action of the lane. */
  function Apply(s: State, a: Action): State
    requires Enabled(s, a)
  {
    match a
    case Add(op, payload, size, writeOk) => Added(s, op, payload, size, writeOk)
    case Take => Taken(s)
    case Attempt(ret, writeOk) => Attempted(s, ret, writeOk)
    case Corrupt(data, bytes) => s.(mem := s.mem[data := bytes])
  }

  // ---------- runs ----------

  /** t is reached from s by these actions, each enabled at its time. */
  ghost predicate Run(s: State, actions: seq<Action>, t: State)
    decreases |actions|
  {
    if actions == [] then t == s else
      Enabled(s, actions[0]) && Run(Apply(s, actions[0]), actions[1..], t)
  }

  lemma MakeRoomCounted(s: State)
    requires Counted(s)
    ensures Counted(MakeRoom(s)) && MakeRoom(s).num <= PIPE_MAX_NUM
    ensures Full(s) ==> s.queue != []
  {
  }

  lemma PushCounted(s: State, p: Packet)
    requires Counted(s) && s.num <= PIPE_MAX_NUM
    ensures Counted(Push(s, p))
  {
    SizeOfPush(s.queue, p);
  }

  lemma StepCounted(s: State, a: Action)
    requires Counted(s) && Enabled(s, a)
    ensures Counted(Apply(s, a))
  {
    hide MakeRoom, Checksum, Fifo, Readable, Push;
    match a
    case Add(op, payload, size, writeOk) =>
      MakeRoomCounted(Allocated(s, payload));
      PushCounted(MakeRoom(Allocated(s, payload)), NewPacket(s, op, payload, size));
    case Take =>
    case Attempt(ret, writeOk) =>
      var u := Used(s, s.flight[0]).(flight := []);
      MakeRoomCounted(u);
      PushCounted(MakeRoom(u), s.flight[0]);
    case Corrupt(data, bytes) =>
  }

  // ---------- memory ----------

  /** The packets whose payloads nobody has freed. */
  function Held(s: State): seq<Packet> {
    s.flight + s.queue + s.leaked
  }

  function Datas(q: seq<Packet>): set<nat> {
    set p | p in q :: p.data
  }

  ghost predicate Apart(q: seq<Packet>) {
    forall i, j | 0 <= i < j < |q| :: q[i].data != q[j].data
  }

  /** The payloads in memory are exactly those of the packets held, one each, and nothing was ever read or
      freed that was not there. */
  ghost predicate Owned(s: State) {
    && !s.broken
    && Apart(Held(s)) && s.mem.Keys == Datas(Held(s))
    && (forall p | p in Held(s) :: Readable(s.mem, p) && p.size <= MAX_PACKET)
    && (forall d | d in s.mem :: d < s.nextAlloc)
  }

  lemma ApartWithout(a: seq<Packet>, h: Packet, b: seq<Packet>)
    requires Apart(a + [h] + b)
    ensures Apart(a + b) && Datas(a + b) == Datas(a + [h] + b) - {h.data}
    ensures forall p | p in a + b :: p in a + [h] + b && p.data != h.data
  {
    var q, r := a + [h] + b, a + b;
    assert q[|a|] == h;
    forall i | 0 <= i < |r| ensures r[i] == q[if i < |a| then i else i + 1] {
    }
    assert forall p :: p in q <==> p in r || p == h;
  }

  lemma ApartWith(a: seq<Packet>, h: Packet, b: seq<Packet>)
    requires Apart(a + b) && h.data !in Datas(a + b)
    ensures Apart(a + [h] + b) && Datas(a + [h] + b) == Datas(a + b) + {h.data}
    ensures forall p | p in a + [h] + b :: p in a + b || p == h
  {
    var q, r := a + [h] + b, a + b;
    forall i | 0 <= i < |q| ensures q[i] == if i < |a| then r[i] else if i == |a| then h else r[i - 1] {
    }
    assert forall p :: p in q <==> p in r || p == h;
    forall i, j | 0 <= i < j < |q| ensures q[i].data != q[j].data {
      if i == |a| {
        assert r[j - 1].data in Datas(r);
      } else if j == |a| {
        assert r[i].data in Datas(r);
      } else {
        assert r[if i < |a| then i else i - 1].data != r[if j < |a| then j else j - 1].data;
      }
    }
  }

  /** A held packet is freed. */
  lemma OwnedWithout(s: State, t: State, a: seq<Packet>, h: Packet, b: seq<Packet>)
    requires Owned(s) && Held(s) == a + [h] + b && Held(t) == a + b
    requires t.mem == s.mem - {h.data} && t.broken == (s.broken || h.data !in s.mem) && t.nextAlloc == s.nextAlloc
    ensures Owned(t)
  {
    ApartWithout(a, h, b);
    assert h in Held(s);
  }

  /** A packet with a new payload is held. */
  lemma OwnedWith(s: State, t: State, a: seq<Packet>, h: Packet, b: seq<Packet>)
    requires Owned(s) && Held(s) == a + b && Held(t) == a + [h] + b && h.data == s.nextAlloc < t.nextAlloc
    requires t.mem.Keys == s.mem.Keys + {h.data} && (forall d | d in s.mem :: t.mem[d] == s.mem[d])
    requires Readable(t.mem, h) && h.size <= MAX_PACKET && !t.broken
    ensures Owned(t)
  {
    ApartWith(a, h, b);
  }

  /** A held packet changes its place. */
  lemma OwnedMoved(s: State, t: State, a: seq<Packet>, h: Packet, b: seq<Packet>, c: seq<Packet>, d: seq<Packet>)
    requires Owned(s) && Held(s) == a + [h] + b && Held(t) == c + [h] + d && a + b == c + d
    requires t.mem == s.mem && t.broken == s.broken && t.nextAlloc == s.nextAlloc
    ensures Owned(t)
  {
    ApartWithout(a, h, b);
    ApartWith(c, h, d);
    assert h in Held(s);
  }

  lemma MakeRoomHeld(s: State)
    requires Full(s) && s.queue != []
    ensures var t, rest := MakeRoom(s), s.queue[1..] + s.leaked;
            && Held(s) == s.flight + [s.queue[0]] + rest && Held(t) == s.flight + rest
            && t.mem == s.mem - {s.queue[0].data} && t.broken == (s.broken || s.queue[0].data !in s.mem)
            && t.nextAlloc == s.nextAlloc
  {
    assert s.queue == [s.queue[0]] + s.queue[1..];
    assert Held(s) == s.flight + [s.queue[0]] + (s.queue[1..] + s.leaked);
    assert Held(MakeRoom(s)) == s.flight + (s.queue[1..] + s.leaked);
  }

  lemma MakeRoomOwned(s: State)
    requires Owned(s)
    ensures Owned(MakeRoom(s))
  {
    if Full(s) && s.queue != [] {
      MakeRoomHeld(s);
      hide MakeRoom, Owned, Held, Full;
      OwnedWithout(s, MakeRoom(s), s.flight, s.queue[0], s.queue[1..] + s.leaked);
    }
  }

  lemma UpdateThenRemove(m: map<nat, seq<Byte>>, d: nat, payload: seq<Byte>, h: nat)
    requires h != d
    ensures m[d := payload] - {h} == (m - {h})[d := payload]
  {
  }

  /** Making room does not depend on the newest allocation, nor on the packet in flight. */
  lemma MakeRoomOf(s: State, payload: seq<Byte>)
    requires Owned(s)
    ensures var t, r := MakeRoom(Allocated(s, payload)), MakeRoom(s);
            t == r.(mem := r.mem[s.nextAlloc := payload], nextAlloc := s.nextAlloc + 1)
    ensures s.nextAlloc !in MakeRoom(s).mem
    ensures s.flight != [] ==> MakeRoom(s.(flight := [])) == MakeRoom(s).(flight := [])
  {
    NotBroken(s);
    hide Owned;
    RoomOfFlight(s);
    RoomOfAllocated(s, payload);
  }

  lemma RoomOfFlight(s: State)
    ensures MakeRoom(s.(flight := [])) == MakeRoom(s).(flight := [])
  {
  }

  lemma RoomOfAllocated(s: State, payload: seq<Byte>)
    requires s.nextAlloc !in s.mem && (s.queue != [] ==> s.queue[0].data in s.mem)
    ensures var t, r := MakeRoom(Allocated(s, payload)), MakeRoom(s);
            s.nextAlloc !in r.mem && t == r.(mem := r.mem[s.nextAlloc := payload], nextAlloc := s.nextAlloc + 1)
  {
    if s.queue != [] {
      UpdateThenRemove(s.mem, s.nextAlloc, payload, s.queue[0].data);
      var m, u := s.mem[s.nextAlloc := payload] - {s.queue[0].data}, s.mem - {s.queue[0].data};
      assert m == u[s.nextAlloc := payload];
    }
  }

  /** What an add does once room has been made; r is the lane after making room without the new payload. */
  lemma AddedIs(s: State, op: int, payload: seq<Byte>, size: nat, writeOk: bool, r: State)
    requires 0 < |payload| && size <= |payload| && s.nextAlloc !in r.mem && r.nextAlloc == s.nextAlloc
    requires MakeRoom(Allocated(s, payload)) == r.(mem := r.mem[s.nextAlloc := payload], nextAlloc := s.nextAlloc + 1)
    ensures var t, p := Added(s, op, payload, size, writeOk), NewPacket(s, op, payload, size);
            if writeOk then
              && Held(r) == (r.flight + r.queue) + r.leaked && Held(t) == (r.flight + r.queue) + [p] + r.leaked
              && t.mem == r.mem[p.data := payload] && t.broken == r.broken && t.nextAlloc == s.nextAlloc + 1
              && t.queue == r.queue + [p] && t.flight == r.flight && t.rejected == r.rejected && t.leaked == r.leaked
            else t == r.(nextAlloc := s.nextAlloc + 1)
  {
    hide MakeRoom, Checksum, Readable;
    var t := Added(s, op, payload, size, writeOk);
    if !writeOk {
      assert t.mem == r.mem;
    }
  }

  lemma OwnedNext(s: State, t: State)
    requires Owned(s) && t == s.(nextAlloc := s.nextAlloc + 1)
    ensures Owned(t)
  {
    assert Held(t) == Held(s);
  }

  lemma AddOwned(s: State, op: int, payload: seq<Byte>, size: nat, writeOk: bool)
    requires Owned(s) && Enabled(s, Add(op, payload, size, writeOk))
    ensures Owned(Added(s, op, payload, size, writeOk))
  {
    var p, r, t := NewPacket(s, op, payload, size), MakeRoom(s), Added(s, op, payload, size, writeOk);
    MakeRoomOwned(s);
    MakeRoomOf(s, payload);
    AddedIs(s, op, payload, size, writeOk, r);
    NotBroken(r);
    hide MakeRoom, Checksum, Added, Held, Owned;
    if writeOk {
      OwnedWith(r, t, r.flight + r.queue, p, r.leaked);
    } else {
      OwnedNext(r, t);
    }
  }

  lemma NotBroken(s: State)
    requires Owned(s)
    ensures !s.broken && s.nextAlloc !in s.mem
    ensures s.queue != [] ==> Readable(s.mem, s.queue[0]) && Used(s, s.queue[0]) == s
    ensures s.flight != [] ==> Readable(s.mem, s.flight[0]) && Used(s, s.flight[0]) == s
  {
    assert s.queue != [] ==> s.queue[0] in Held(s);
    assert s.flight != [] ==> s.flight[0] in Held(s);
  }

  lemma TakenIs(s: State)
    requires s.queue != [] && s.flight == [] && Used(s, s.queue[0]) == s
    ensures var t, p, rest := Taken(s), s.queue[0], s.queue[1..] + s.leaked;
            && Held(s) == [] + [p] + rest && t.broken == (s.broken || (!Sound(s, p) && p.data !in s.mem))
            && t.nextAlloc == s.nextAlloc
            && if Sound(s, p) then Held(t) == Held(s) && t.mem == s.mem
               else Held(t) == [] + rest && t.mem == s.mem - {p.data}
  {
    hide Sound, Used;
    assert s.queue == [s.queue[0]] + s.queue[1..];
  }

  lemma TakeOwned(s: State)
    requires Owned(s) && s.flight == []
    ensures Owned(Taken(s))
  {
    if s.queue != [] {
      var p, t := s.queue[0], Taken(s);
      NotBroken(s);
      TakenIs(s);
      hide Sound, Taken, Held;
      if Sound(s, p) {
        OwnedSame(s, t);
      } else {
        hide Owned, Used, Readable;
        OwnedWithout(s, t, [], p, s.queue[1..] + s.leaked);
      }
    }
  }

  lemma OwnedSame(s: State, t: State)
    requires Owned(s) && Held(t) == Held(s) && t.mem == s.mem && t.broken == s.broken && t.nextAlloc == s.nextAlloc
    ensures Owned(t)
  {
  }

  /** What a transmission does; r is the lane after making room with the packet still in flight. */
  lemma AttemptedIs(s: State, ret: int, writeOk: bool, r: State)
    requires |s.flight| == 1 && Used(s, s.flight[0]) == s && r.flight == s.flight && r.leaked == s.leaked
    requires MakeRoom(s.(flight := [])) == r.(flight := [])
    ensures var t, p := Attempted(s, ret, writeOk), s.flight[0];
            && Held(s) == [] + [p] + (s.queue + s.leaked) && Held(r) == [] + [p] + (r.queue + r.leaked)
            && (ret >= 0 ==> t == Freed(s, p).(flight := [], sent := s.sent + [p]) && Held(t) == [] + (s.queue + s.leaked))
            && (ret < 0 && Fifo(p.op) ==> t == s)
            && (ret < 0 && !Fifo(p.op) ==>
                  && t.mem == r.mem && t.broken == r.broken && t.nextAlloc == r.nextAlloc && t.flight == []
                  && (writeOk ==> Held(t) == r.queue + [p] + r.leaked && t.queue == r.queue + [p] && t.leaked == r.leaked
                                  && t.rejected == r.rejected)
                  && (!writeOk ==> Held(t) == (r.queue + r.leaked) + [p] + []))
  {
    hide MakeRoom, Used, Fifo;
    assert s.flight == [s.flight[0]];
  }

  /** What making room leaves alone. */
  lemma RoomKeeps(s: State)
    ensures var r := MakeRoom(s); r.flight == s.flight && r.leaked == s.leaked && r.nextAlloc == s.nextAlloc && r.rejected == s.rejected
  {
    hide Full;
  }

  lemma AttemptOwned(s: State, ret: int, writeOk: bool)
    requires Owned(s) && |s.flight| == 1
    ensures Owned(Attempted(s, ret, writeOk))
  {
    var p, t, r := s.flight[0], Attempted(s, ret, writeOk), MakeRoom(s);
    NotBroken(s);
    MakeRoomOwned(s);
    MakeRoomOf(s, []);
    RoomKeeps(s);
    AttemptedIs(s, ret, writeOk, r);
    FreedIs(s, p);
    hide MakeRoom, Attempted, Held, Owned, Fifo, Used, Readable, Freed, Allocated;
    if ret >= 0 {
      OwnedWithout(s, t, [], p, s.queue + s.leaked);
    } else if !Fifo(p.op) {
      if writeOk {
        ReAddOwned(r, t, p);
      } else {
        LeakOwned(r, t, p);
      }
    }
  }

  lemma FreedIs(s: State, p: Packet)
    ensures var t := Freed(s, p);
            t.mem == s.mem - {p.data} && t.broken == (s.broken || p.data !in s.mem) && t.nextAlloc == s.nextAlloc
  {
  }

  lemma ReAddOwned(r: State, t: State, p: Packet)
    requires Owned(r) && Held(r) == [] + [p] + (r.queue + r.leaked) && Held(t) == r.queue + [p] + r.leaked
    requires t.mem == r.mem && t.broken == r.broken && t.nextAlloc == r.nextAlloc
    ensures Owned(t)
  {
    hide Held, Owned;
    assert [] + (r.queue + r.leaked) == r.queue + r.leaked;
    OwnedMoved(r, t, [], p, r.queue + r.leaked, r.queue, r.leaked);
  }

  lemma LeakOwned(r: State, t: State, p: Packet)
    requires Owned(r) && Held(r) == [] + [p] + (r.queue + r.leaked) && Held(t) == (r.queue + r.leaked) + [p] + []
    requires t.mem == r.mem && t.broken == r.broken && t.nextAlloc == r.nextAlloc
    ensures Owned(t)
  {
    hide Held, Owned;
    assert [] + (r.queue + r.leaked) == (r.queue + r.leaked) + [];
    OwnedMoved(r, t, [], p, r.queue + r.leaked, r.queue + r.leaked, []);
  }

  lemma StepOwned(s: State, a: Action)
    requires Owned(s) && Enabled(s, a)
    ensures Owned(Apply(s, a))
  {
    hide Added, Taken, Attempted;
    match a
    case Add(op, payload, size, writeOk) => AddOwned(s, op, payload, size, writeOk);
    case Take => TakeOwned(s);
    case Attempt(ret, writeOk) => AttemptOwned(s, ret, writeOk);
    case Corrupt(data, bytes) =>
      assert Apply(s, a).mem.Keys == s.mem.Keys;
      assert Held(Apply(s, a)) == Held(s);
  }

  ghost predicate Consistent(s: State) {
    Counted(s) && Owned(s)
  }

  lemma {:induction false} RunConsistent(s: State, actions: seq<Action>, t: State)
    requires Consistent(s) && Run(s, actions, t)
    ensures Consistent(t)
    decreases |actions|
  {
    if actions != [] {
      hide Apply, Counted, Owned;
      StepCounted(s, actions[0]);
      StepOwned(s, actions[0]);
      RunConsistent(Apply(s, actions[0]), actions[1..], t);
    }
  }

  /** Queue accounting over any run of adds, reads, re-adds, failures and memory damage: exact counters, at
      most 5001 packets, no 32-bit overflow. */
  lemma LaneCounted(actions: seq<Action>, t: State)
    requires Run(EMPTY, actions, t)
    ensures t.num == |t.queue| <= 5001
    ensures t.size == SizeOf(t.queue) <= 5001 * 65535 < 0x8000_0000
    ensures Full(t) ==> t.queue != []
  {
    EmptyConsistent();
    RunConsistent(EMPTY, actions, t);
    assert forall i | 0 <= i < |t.queue| :: t.queue[i] in Held(t);
    SizeOfAtMost(t.queue, MAX_PACKET);
  }

  lemma EmptyConsistent()
    ensures Consistent(EMPTY)
  {
    assert Held(EMPTY) == [];
  }

  /** Memory over any run: no payload is read or freed after it was freed, and what is in memory are exactly
      the payloads of the packets queued, in flight or leaked, one for each. */
  lemma MemoryIsOwned(actions: seq<Action>, t: State)
    requires Run(EMPTY, actions, t)
    ensures !t.broken
    ensures t.mem.Keys == set p | p in t.flight + t.queue + t.leaked :: p.data
    ensures Apart(t.flight + t.queue + t.leaked)
  {
    EmptyConsistent();
    RunConsistent(EMPTY, actions, t);
  }

  // ---------- the fate of every packet ----------

  function Count(q: seq<Packet>, p: Packet): nat {
    multiset(q)[p]
  }

  lemma CountPush(q: seq<Packet>, x: Packet, p: Packet)
    ensures Count(q + [x], p) == Count(q, p) + (if x == p then 1 else 0)
  {
  }

  lemma CountPop(q: seq<Packet>, p: Packet)
    requires q != []
    ensures Count(q, p) == (if q[0] == p then 1 else 0) + Count(q[1..], p)
  {
    assert q == [q[0]] + q[1..];
  }

  /** In how many places packet p is. */
  function Places(s: State, p: Packet): nat {
    Count(s.queue, p) + Count(s.flight, p) + Count(s.sent, p)
      + Count(s.evicted, p) + Count(s.rejected, p) + Count(s.leaked, p)
  }

  ghost predicate Ascending(q: seq<Packet>, limit: nat) {
    && (forall i, j | 0 <= i < j < |q| :: q[i].data < q[j].data)
    && (forall i | 0 <= i < |q| :: q[i].data < limit)
  }

  /** Accepted packets have distinct allocations, and each is in exactly one place. */
  ghost predicate Ledger(s: State) {
    && Ascending(s.accepted, s.nextAlloc)
    && forall p :: Count(s.accepted, p) == Places(s, p)
  }

  lemma MakeRoomPlaces(s: State, p: Packet)
    ensures Places(MakeRoom(s), p) == Places(s, p)
  {
    hide Count;
    if s.queue != [] {
      CountPop(s.queue, p);
      CountPush(s.evicted, s.queue[0], p);
    }
  }

  lemma AddPlaces(s: State, op: int, payload: seq<Byte>, size: nat, writeOk: bool, p: Packet)
    requires 0 < |payload| && size <= |payload|
    ensures var t := Added(s, op, payload, size, writeOk);
            Places(t, p) - Places(s, p) == Count(t.accepted, p) - Count(s.accepted, p)
  {
    var u, x := Allocated(s, payload), NewPacket(s, op, payload, size);
    MakeRoomPlaces(u, p);
    CountPush(MakeRoom(u).queue, x, p);
    CountPush(s.accepted, x, p);
    hide MakeRoom, Count, Checksum;
  }

  lemma TakePlaces(s: State, p: Packet)
    requires s.flight == []
    ensures Places(Taken(s), p) == Places(s, p) && Taken(s).accepted == s.accepted
  {
    hide Count, Checksum, Readable;
    if s.queue != [] {
      CountPop(s.queue, p);
      assert [] + [s.queue[0]] == [s.queue[0]];
      CountPush([], s.queue[0], p);
      CountPush(s.rejected, s.queue[0], p);
    }
  }

  lemma AttemptPlaces(s: State, ret: int, writeOk: bool, p: Packet)
    requires |s.flight| == 1
    ensures var t := Attempted(s, ret, writeOk); Places(t, p) == Places(s, p) && t.accepted == s.accepted
  {
    hide MakeRoom, Count, Readable, Fifo;
    var x, u := s.flight[0], Used(s, s.flight[0]).(flight := []);
    assert s.flight == [] + [x];
    CountPush([], x, p);
    if ret >= 0 {
      CountPush(s.sent, x, p);
    } else if !Fifo(x.op) {
      CountPush(s.leaked, x, p);
      MakeRoomPlaces(u, p);
      RoomKeeps(u);
      RoomFates(u, u.broken);
      CountPush(MakeRoom(u).queue, x, p);
    }
  }

  lemma StepPlaces(s: State, a: Action, p: Packet)
    requires Enabled(s, a)
    ensures Places(Apply(s, a), p) - Places(s, p) == Count(Apply(s, a).accepted, p) - Count(s.accepted, p)
  {
    hide Count, Added, Taken, Attempted;
    match a
    case Add(op, payload, size, writeOk) => AddPlaces(s, op, payload, size, writeOk, p);
    case Take => TakePlaces(s, p);
    case Attempt(ret, writeOk) => AttemptPlaces(s, ret, writeOk, p);
    case Corrupt(data, bytes) =>
  }

  lemma StepAscending(s: State, a: Action)
    requires Ascending(s.accepted, s.nextAlloc) && Enabled(s, a)
    ensures Ascending(Apply(s, a).accepted, Apply(s, a).nextAlloc)
  {
    hide Checksum, Fifo, Readable, MakeRoom, Used, Freed;
    StepFates(s, a);
    hide Apply;
  }

  /** Only an add changes what is accepted, and by one packet with the newest allocation. */
  lemma StepFates(s: State, a: Action)
    requires Enabled(s, a)
    ensures var t := Apply(s, a);
            if a.Add? && a.writeOk then t.nextAlloc == s.nextAlloc + 1
              && exists p: Packet :: p.data == s.nextAlloc && t.accepted == s.accepted + [p]
            else t.accepted == s.accepted && t.nextAlloc >= s.nextAlloc
  {
    hide Checksum, Fifo, Full, Readable;
    if a.Add? && a.writeOk {
      var p := NewPacket(s, a.op, a.payload, a.size);
      assert p.data == s.nextAlloc && Apply(s, a).accepted == s.accepted + [p];
    }
  }

  lemma StepLedger(s: State, a: Action)
    requires Ledger(s) && Enabled(s, a)
    ensures Ledger(Apply(s, a))
  {
    hide Apply, Enabled, Places, Count, Ascending;
    StepAscending(s, a);
    forall p ensures Count(Apply(s, a).accepted, p) == Places(Apply(s, a), p) {
      StepPlaces(s, a, p);
      assert Count(s.accepted, p) == Places(s, p);
    }
  }

  lemma {:induction false} RunLedger(s: State, actions: seq<Action>, t: State)
    requires Ledger(s) && Run(s, actions, t)
    ensures Ledger(t)
    decreases |actions|
  {
    if actions != [] {
      hide Apply;
      StepLedger(s, actions[0]);
      RunLedger(Apply(s, actions[0]), actions[1..], t);
    }
  }

  lemma {:induction false} DistinctMultiset(q: seq<Packet>, p: Packet)
    requires forall i, j | 0 <= i < j < |q| :: q[i].data < q[j].data
    ensures Count(q, p) == if p in q then 1 else 0
    decreases |q|
  {
    if q != [] {
      var n := |q| - 1;
      assert q == q[..n] + [q[n]];
      DistinctMultiset(q[..n], p);
    }
  }

  /** Packet conservation over any run: every accepted packet is exactly one of queued, in flight,
      sent, evicted, rejected or leaked. */
  lemma Conservation(actions: seq<Action>, t: State, p: Packet)
    requires Run(EMPTY, actions, t)
    ensures Count(t.queue, p) + Count(t.flight, p) + Count(t.sent, p)
              + Count(t.evicted, p) + Count(t.rejected, p) + Count(t.leaked, p)
         == if p in t.accepted then 1 else 0
  {
    RunLedger(EMPTY, actions, t);
    DistinctMultiset(t.accepted, p);
    assert Count(t.accepted, p) == Places(t, p);
  }

  /** Packets are leaked only by a failed write of a re-add, and rejected only if memory changed. */
  ghost predicate Careful(a: Action) {
    !a.Corrupt? && (a.Attempt? ==> a.writeOk)
  }

  ghost predicate Intact(s: State) {
    && (forall i | 0 <= i < |s.queue| :: Sound(s, s.queue[i]))
    && s.rejected == [] && s.leaked == []
  }

  /** A packet stays sound when another one is freed. */
  lemma SoundElsewhere(s: State, t: State, a: seq<Packet>, h: Packet, b: seq<Packet>, p: Packet)
    requires Owned(s) && Held(s) == a + [h] + b && t.mem == s.mem - {h.data} && p in a + b && Sound(s, p)
    ensures Sound(t, p)
  {
    hide Checksum, Held;
    ApartWithout(a, h, b);
  }

  /** The sound packets stay sound when packet h, between the packet in flight and the rest, is freed. */
  lemma FreeingKeepsSound(s: State, t: State, h: Packet, rest: seq<Packet>)
    requires Owned(s) && Intact(s) && s.queue != [] && t.queue == s.queue[1..] && t.flight == s.flight
    requires t.rejected == s.rejected && t.leaked == s.leaked && t.mem == s.mem - {h.data}
    requires rest == s.queue[1..] + s.leaked && Held(s) == s.flight + [h] + rest
    ensures Intact(t) && (FlightSound(s) ==> FlightSound(t))
  {
    hide Sound, Owned, Held;
    forall i | 0 <= i < |t.queue| ensures Sound(t, t.queue[i]) {
      assert t.queue[i] == s.queue[i + 1] == rest[i];
      assert (s.flight + rest)[|s.flight| + i] == rest[i];
      SoundElsewhere(s, t, s.flight, h, rest, t.queue[i]);
    }
    if FlightSound(s) && s.flight != [] {
      assert (s.flight + rest)[0] == s.flight[0];
      SoundElsewhere(s, t, s.flight, h, rest, s.flight[0]);
    }
  }

  /** Freeing the packets that are given up leaves the others sound. */
  lemma MakeRoomIntact(s: State)
    requires Owned(s) && Intact(s)
    ensures Intact(MakeRoom(s)) && (FlightSound(s) ==> FlightSound(MakeRoom(s)))
  {
    if Full(s) && s.queue != [] {
      var t := MakeRoom(s);
      MakeRoomHeld(s);
      RoomKeeps(s);
      assert t.queue == s.queue[1..];
      hide MakeRoom, Full, Owned, Held, Intact, FlightSound;
      FreeingKeepsSound(s, t, s.queue[0], s.queue[1..] + s.leaked);
    }
  }

  /** A sound packet stays sound when another payload is allocated. */
  lemma SoundKept(s: State, t: State, p: Packet, d: nat, payload: seq<Byte>)
    requires Sound(s, p) && d !in s.mem && t.mem == s.mem[d := payload]
    ensures Sound(t, p)
  {
    hide Checksum;
  }

  lemma NewIsSound(s: State, op: int, payload: seq<Byte>, size: nat, t: State)
    requires 0 < |payload| && size <= |payload| && s.nextAlloc in t.mem && t.mem[s.nextAlloc] == payload
    ensures Sound(t, NewPacket(s, op, payload, size))
  {
    hide Checksum;
  }

  lemma PushIntact(r: State, t: State, p: Packet, payload: seq<Byte>)
    requires Intact(r) && FlightSound(r) && Sound(t, p) && p.data !in r.mem && t.mem == r.mem[p.data := payload]
    requires t.queue == r.queue + [p] && t.flight == r.flight && t.rejected == r.rejected && t.leaked == r.leaked
    ensures Intact(t) && FlightSound(t)
  {
    hide Sound;
    forall i | 0 <= i < |r.queue| ensures Sound(t, r.queue[i]) {
      SoundKept(r, t, r.queue[i], p.data, payload);
    }
    if t.flight != [] {
      SoundKept(r, t, t.flight[0], p.data, payload);
    }
  }

  lemma NextIntact(r: State, t: State)
    requires Intact(r) && FlightSound(r) && t == r.(nextAlloc := t.nextAlloc)
    ensures Intact(t) && FlightSound(t)
  {
    hide Checksum;
  }

  lemma AddIntact(s: State, op: int, payload: seq<Byte>, size: nat, writeOk: bool)
    requires Owned(s) && Intact(s) && FlightSound(s) && Enabled(s, Add(op, payload, size, writeOk))
    ensures Intact(Added(s, op, payload, size, writeOk)) && FlightSound(Added(s, op, payload, size, writeOk))
  {
    var r, t := MakeRoom(s), Added(s, op, payload, size, writeOk);
    MakeRoomIntact(s);
    MakeRoomOf(s, payload);
    RoomKeeps(s);
    AddedIs(s, op, payload, size, writeOk, r);
    hide MakeRoom, Checksum, Owned, Added, Held, Intact, FlightSound, Sound, Allocated;
    if writeOk {
      NewIsSound(s, op, payload, size, t);
      PushIntact(r, t, NewPacket(s, op, payload, size), payload);
    } else {
      NextIntact(r, t);
    }
  }

  lemma TakeIntact(s: State)
    requires Intact(s) && s.flight == []
    ensures Intact(Taken(s)) && FlightSound(Taken(s))
  {
    hide Checksum;
  }

  lemma AttemptIntact(s: State, ret: int)
    requires Owned(s) && Intact(s) && |s.flight| == 1 && FlightSound(s)
    ensures Intact(Attempted(s, ret, true)) && FlightSound(Attempted(s, ret, true))
  {
    var p, r, t := s.flight[0], MakeRoom(s), Attempted(s, ret, true);
    NotBroken(s);
    MakeRoomIntact(s);
    MakeRoomOf(s, []);
    RoomKeeps(s);
    AttemptedIs(s, ret, true, r);
    hide MakeRoom, Attempted, Held, Owned, Fifo, Used, Sound;
    if ret >= 0 {
      forall i | 0 <= i < |s.queue| ensures Sound(t, s.queue[i]) {
        assert s.queue[i] in [] + (s.queue + s.leaked);
        SoundElsewhere(s, t, [], p, s.queue + s.leaked, s.queue[i]);
      }
    } else if !Fifo(p.op) {
      forall i | 0 <= i < |t.queue| ensures Sound(t, t.queue[i]) {
        SoundSame(r, t, t.queue[i]);
      }
    }
  }

  lemma SoundSame(s: State, t: State, p: Packet)
    requires t.mem == s.mem
    ensures Sound(s, p) == Sound(t, p)
  {
    hide Checksum;
  }

  lemma StepIntact(s: State, a: Action)
    requires Owned(s) && Intact(s) && FlightSound(s) && Enabled(s, a) && Careful(a)
    ensures Intact(Apply(s, a)) && FlightSound(Apply(s, a))
  {
    hide Added, Attempted, Taken, Owned, Intact, FlightSound;
    match a
    case Add(op, payload, size, writeOk) => AddIntact(s, op, payload, size, writeOk);
    case Take => TakeIntact(s);
    case Attempt(ret, writeOk) => AttemptIntact(s, ret);
  }

  /** The packet in flight passed the checksum test and still would. */
  ghost predicate FlightSound(s: State) {
    s.flight != [] ==> Sound(s, s.flight[0])
  }

  /** Without memory damage and failing writes, the checksum branch is unreachable and no packet
      leaks: every accepted packet is queued, in flight, sent or evicted. */
  lemma {:induction false} NothingLost(s: State, actions: seq<Action>, t: State)
    requires Owned(s) && Intact(s) && FlightSound(s) && Run(s, actions, t)
    requires forall i | 0 <= i < |actions| :: Careful(actions[i])
    ensures t.rejected == [] && t.leaked == []
    decreases |actions|
  {
    if actions != [] {
      hide Apply, Intact, Owned, FlightSound;
      StepIntact(s, actions[0]);
      StepOwned(s, actions[0]);
      NothingLost(Apply(s, actions[0]), actions[1..], t);
    }
  }

  /** What an action leaks: a failed packet of another opcode whose write back fails. */
  function LeakedBy(s: State, a: Action): seq<Packet>
    requires Enabled(s, a)
  {
    if a.Attempt? && a.ret < 0 && !Fifo(s.flight[0].op) && !a.writeOk then [s.flight[0]] else []
  }

  /** What a read rejects: the oldest packet, when its payload no longer has its checksum. */
  function RejectedBy(s: State, a: Action): seq<Packet>
    requires Enabled(s, a)
  {
    if a.Take? && s.queue != [] && !Sound(s, s.queue[0]) then [s.queue[0]] else []
  }

  lemma StepLosses(s: State, a: Action)
    requires Enabled(s, a)
    ensures Apply(s, a).leaked == s.leaked + LeakedBy(s, a)
    ensures Apply(s, a).rejected == s.rejected + RejectedBy(s, a)
  {
    hide Checksum, Readable, Full, Fifo;
  }

  ghost function AllLeaked(s: State, actions: seq<Action>): seq<Packet>
    decreases |actions|
  {
    if actions == [] || !Enabled(s, actions[0]) then []
    else LeakedBy(s, actions[0]) + AllLeaked(Apply(s, actions[0]), actions[1..])
  }

  ghost function AllRejected(s: State, actions: seq<Action>): seq<Packet>
    decreases |actions|
  {
    if actions == [] || !Enabled(s, actions[0]) then []
    else RejectedBy(s, actions[0]) + AllRejected(Apply(s, actions[0]), actions[1..])
  }

  lemma AppendTwice(a: seq<Packet>, b: seq<Packet>, c: seq<Packet>)
    ensures (a + b) + c == a + (b + c)
  {
  }

  lemma LossesFirst(s: State, actions: seq<Action>)
    requires actions != [] && Enabled(s, actions[0])
    ensures AllLeaked(s, actions) == LeakedBy(s, actions[0]) + AllLeaked(Apply(s, actions[0]), actions[1..])
    ensures AllRejected(s, actions) == RejectedBy(s, actions[0]) + AllRejected(Apply(s, actions[0]), actions[1..])
  {
  }

  /** Over any run the leaked packets are exactly those of failed attempts whose write back failed, and the
      rejected ones exactly those read with a payload that had changed. */
  lemma {:induction false} LossesAre(s: State, actions: seq<Action>, t: State)
    requires Run(s, actions, t)
    ensures t.leaked == s.leaked + AllLeaked(s, actions)
    ensures t.rejected == s.rejected + AllRejected(s, actions)
    decreases |actions|
  {
    if actions != [] {
      StepLosses(s, actions[0]);
      LossesFirst(s, actions);
      hide Apply, LeakedBy, RejectedBy, Enabled, AllLeaked, AllRejected;
      var u, rest := Apply(s, actions[0]), actions[1..];
      LossesAre(u, rest, t);
      AppendTwice(s.leaked, LeakedBy(s, actions[0]), AllLeaked(u, rest));
      AppendTwice(s.rejected, RejectedBy(s, actions[0]), AllRejected(u, rest));
    }
  }

  // ---------- what is accepted and sent ----------

  /** An add whose write succeeds accepts one packet with its opcode and size, whose payload is in memory and
      sound; a transmission that succeeds sends the packet in flight; nothing else accepts or sends. */
  lemma AcceptedAndSent(s: State, a: Action)
    requires Owned(s) && Enabled(s, a)
    ensures var t := Apply(s, a);
            && t.sent == s.sent + (if a.Attempt? && a.ret >= 0 then s.flight else [])
            && (if a.Add? && a.writeOk then
                  && |t.accepted| == |s.accepted| + 1 && t.accepted[..|s.accepted|] == s.accepted
                  && var p := t.accepted[|s.accepted|];
                     p.op == a.op && p.size == a.size && p.data == s.nextAlloc && p in t.queue
                     && p.data in t.mem && t.mem[p.data] == a.payload && Sound(t, p)
                else t.accepted == s.accepted)
  {
    match a
    case Add(op, payload, size, writeOk) =>
      var p, r := NewPacket(s, op, payload, size), MakeRoom(s);
      MakeRoomOf(s, payload);
      RoomKeeps(s);
      RoomFates(s, s.broken);
      AddedIs(s, op, payload, size, writeOk, r);
      AddedFates(s, op, payload, size, writeOk);
      NewIsSound(s, op, payload, size, if writeOk then Added(s, op, payload, size, writeOk) else Allocated(s, payload));
      hide MakeRoom, Added, Held, Owned, Sound, Checksum;
    case Take =>
      hide Owned, Checksum, Readable;
    case Attempt(ret, writeOk) =>
      RoomFates(Used(s, s.flight[0]).(flight := []), s.broken);
      hide MakeRoom, Owned, Readable, Fifo;
      assert s.flight == [s.flight[0]];
    case Corrupt(data, bytes) =>
  }

  lemma AddedFates(s: State, op: int, payload: seq<Byte>, size: nat, writeOk: bool)
    requires 0 < |payload| && size <= |payload|
    ensures var t := Added(s, op, payload, size, writeOk);
            t.sent == s.sent && t.accepted == s.accepted + if writeOk then [NewPacket(s, op, payload, size)] else []
  {
    RoomFates(Allocated(s, payload), s.broken);
    hide MakeRoom, Checksum;
  }

  // ---------- what is given up ----------

  /** A failed transmission stays in flight exactly for opcodes 0x92 and 0x93; any other packet leaves. */
  lemma StaysInFlightIff(s: State, ret: int, writeOk: bool)
    requires |s.flight| == 1
    ensures Attempted(s, ret, writeOk).flight == s.flight <==>
              ret < 0 && (s.flight[0].op == 0x92 || s.flight[0].op == 0x93)
  {
    RoomKeeps(Used(s, s.flight[0]).(flight := []));
    hide MakeRoom, Readable;
  }

  /** What an add, or a re-add after a failed transmission, gives up: the oldest packet, when more than 5000
      packets or more than 2 MB are queued. */
  function EvictedBy(s: State, a: Action): seq<Packet>
    requires Enabled(s, a)
  {
    var writes := a.Add? || (a.Attempt? && a.ret < 0 && s.flight[0].op != 0x92 && s.flight[0].op != 0x93);
    if writes && s.queue != [] && (|s.queue| > 5000 || SizeOf(s.queue) > 2 * 1024 * 1024) then [s.queue[0]] else []
  }

  lemma RoomEvicts(s: State)
    requires s.num == |s.queue| && s.size == SizeOf(s.queue)
    ensures MakeRoom(s).evicted ==
              s.evicted + if s.queue != [] && (|s.queue| > 5000 || SizeOf(s.queue) > 2 * 1024 * 1024) then [s.queue[0]] else []
  {
  }

  lemma StepEvicts(s: State, a: Action)
    requires Counted(s) && Enabled(s, a)
    ensures Apply(s, a).evicted == s.evicted + EvictedBy(s, a)
  {
    match a
    case Add(op, payload, size, writeOk) =>
      RoomEvicts(Allocated(s, payload));
      hide MakeRoom, SizeOf, Checksum;
    case Take =>
      hide SizeOf, Checksum, Readable;
    case Attempt(ret, writeOk) =>
      RoomEvicts(Used(s, s.flight[0]).(flight := []));
      hide MakeRoom, SizeOf, Readable;
    case Corrupt(data, bytes) =>
      hide SizeOf;
  }

  ghost function AllEvicted(s: State, actions: seq<Action>): seq<Packet>
    decreases |actions|
  {
    if actions == [] || !Enabled(s, actions[0]) then []
    else EvictedBy(s, actions[0]) + AllEvicted(Apply(s, actions[0]), actions[1..])
  }

  lemma EvictedFirst(s: State, actions: seq<Action>)
    requires actions != [] && Enabled(s, actions[0])
    ensures AllEvicted(s, actions) == EvictedBy(s, actions[0]) + AllEvicted(Apply(s, actions[0]), actions[1..])
  {
  }

  /** Over any run the evicted packets are exactly those: none is given up otherwise. */
  lemma {:induction false} EvictionsAre(s: State, actions: seq<Action>, t: State)
    requires Counted(s) && Run(s, actions, t)
    ensures t.evicted == s.evicted + AllEvicted(s, actions)
    decreases |actions|
  {
    if actions != [] {
      StepEvicts(s, actions[0]);
      StepCounted(s, actions[0]);
      EvictedFirst(s, actions);
      hide Apply, EvictedBy, Enabled, AllEvicted, Counted;
      var u, rest := Apply(s, actions[0]), actions[1..];
      EvictionsAre(u, rest, t);
      AppendTwice(s.evicted, EvictedBy(s, actions[0]), AllEvicted(u, rest));
    }
  }

  /** A single damaged byte of a queued payload, among the bytes to be sent, makes the network thread reject
      the packet, whatever the damage. */
  lemma DamagedPayloadIsRejected(s: State, i: nat, d: Byte) returns (t: State)
    requires s.queue != [] && s.flight == [] && Sound(s, s.queue[0]) && i < s.queue[0].size && d != Byte(0)
    ensures var p := s.queue[0]; var m := s.mem[p.data];
            Run(s, [Corrupt(p.data, m[i := ByteXor(m[i], d)]), Take], t)
    ensures t.rejected == s.rejected + [s.queue[0]] && t.flight == [] && t.queue == s.queue[1..]
  {
    var p := s.queue[0];
    var m := s.mem[p.data];
    var damage := Corrupt(p.data, m[i := ByteXor(m[i], d)]);
    ChecksumNotices(m, p.size, i, d);
    hide Checksum;
    var u := Apply(s, damage);
    assert u.mem[p.data] == m[i := ByteXor(m[i], d)];
    t := Apply(u, Take);
    assert [damage, Take][1..] == [Take] && [Take][1..] == [];
    assert Run(u, [Take], t);
  }

  // ---------- order ----------

  /** The packets of q whose allocation is not in gone, in order. */
  function Without(q: seq<Packet>, gone: set<nat>): seq<Packet> {
    if q == [] then [] else
      Without(q[..|q| - 1], gone) + (if q[|q| - 1].data in gone then [] else [q[|q| - 1]])
  }

  function Gone(s: State): set<nat> {
    (set p | p in s.evicted :: p.data) + (set p | p in s.rejected :: p.data)
  }

  lemma {:induction false} WithoutAppend(a: seq<Packet>, b: seq<Packet>, gone: set<nat>)
    ensures Without(a + b, gone) == Without(a, gone) + Without(b, gone)
    decreases |b|
  {
    if b == [] {
      assert a + b == a;
    } else {
      assert (a + b)[..|a + b| - 1] == a + b[..|b| - 1];
      WithoutAppend(a, b[..|b| - 1], gone);
    }
  }

  lemma {:induction false} WithoutNone(q: seq<Packet>, gone: set<nat>)
    requires forall i | 0 <= i < |q| :: q[i].data !in gone
    ensures Without(q, gone) == q
    decreases |q|
  {
    if q != [] {
      WithoutNone(q[..|q| - 1], gone);
    }
  }

  lemma {:induction false} WithoutTwice(q: seq<Packet>, gone: set<nat>, d: nat)
    ensures Without(q, gone + {d}) == Without(Without(q, gone), {d})
    decreases |q|
  {
    if q != [] {
      var r, p := q[..|q| - 1], q[|q| - 1];
      WithoutTwice(r, gone, d);
      WithoutAppend(Without(r, gone), if p.data in gone then [] else [p], {d});
    }
  }

  lemma {:induction false} WithoutSorted(q: seq<Packet>, gone: set<nat>)
    requires forall i, j | 0 <= i < j < |q| :: q[i].data < q[j].data
    ensures forall i, j | 0 <= i < j < |Without(q, gone)| :: Without(q, gone)[i].data < Without(q, gone)[j].data
    ensures forall i | 0 <= i < |Without(q, gone)| :: Without(q, gone)[i] in q
    decreases |q|
  {
    if q != [] {
      WithoutSorted(q[..|q| - 1], gone);
    }
  }

  lemma OthersDiffer(a: seq<Packet>, h: Packet, b: seq<Packet>)
    requires forall i, j | 0 <= i < j < |a + [h] + b| :: (a + [h] + b)[i].data < (a + [h] + b)[j].data
    ensures forall i | 0 <= i < |a| :: a[i].data != h.data
    ensures forall i | 0 <= i < |b| :: b[i].data != h.data
  {
    var line := a + [h] + b;
    assert line[|a|] == h;
    forall i | 0 <= i < |a| ensures a[i].data != h.data {
      assert line[i] == a[i];
    }
    forall i | 0 <= i < |b| ensures b[i].data != h.data {
      assert line[|a| + 1 + i] == b[i];
    }
  }

  /** Removing one packet from the line. */
  lemma WithoutOne(q: seq<Packet>, gone: set<nat>, a: seq<Packet>, h: Packet, b: seq<Packet>)
    requires forall i, j | 0 <= i < j < |q| :: q[i].data < q[j].data
    requires Without(q, gone) == a + [h] + b
    ensures Without(q, gone + {h.data}) == a + b
  {
    hide *;
    WithoutSorted(q, gone);
    OthersDiffer(a, h, b);
    WithoutTwice(q, gone, h.data);
    WithoutNone(a, {h.data});
    WithoutNone(b, {h.data});
    WithoutSelf(h);
    WithoutAppend(a + [h], b, {h.data});
    WithoutAppend(a, [h], {h.data});
    assert a + [] + b == a + b;
  }

  lemma WithoutSelf(h: Packet)
    ensures Without([h], {h.data}) == []
  {
    assert [h][..0] == [];
  }

  function Line(s: State): seq<Packet> {
    s.sent + s.flight + s.queue
  }

  /** What has been sent, is in flight and is queued is the accept sequence with gaps. */
  ghost predicate InOrder(s: State) {
    && Ledger(s)
    && (forall d | d in Gone(s) :: d < s.nextAlloc)
    && Line(s) == Without(s.accepted, Gone(s))
  }

  lemma GoneMakeRoom(s: State)
    requires Full(s) && s.queue != []
    ensures Gone(MakeRoom(s)) == Gone(s) + {s.queue[0].data}
  {
    var t, h := MakeRoom(s), s.queue[0];
    assert t.evicted == s.evicted + [h];
    assert forall p :: p in t.evicted <==> p in s.evicted || p == h;
  }

  lemma HeadAllocated(s: State)
    requires Ledger(s) && s.queue != []
    ensures s.queue[0].data < s.nextAlloc
  {
    var h := s.queue[0];
    assert Count(s.accepted, h) == Places(s, h) >= Count(s.queue, h) > 0;
    assert h in s.accepted;
  }

  lemma MakeRoomInOrder(s: State)
    requires InOrder(s)
    ensures InOrder(MakeRoom(s))
  {
    var t := MakeRoom(s);
    if t != s {
      var h := s.queue[0];
      GoneMakeRoom(s);
      HeadAllocated(s);
      assert Line(s) == s.sent + s.flight + [h] + s.queue[1..];
      hide Without, Gone, Ascending, Ledger;
      assert Ledger(t) by {
        MakeRoomLedger(s);
      }
      AscendingOf(s);
      WithoutOne(s.accepted, Gone(s), s.sent + s.flight, h, s.queue[1..]);
    }
  }

  lemma AscendingOf(s: State)
    requires Ledger(s)
    ensures forall i, j | 0 <= i < j < |s.accepted| :: s.accepted[i].data < s.accepted[j].data
  {
  }

  lemma MakeRoomLedger(s: State)
    requires Ledger(s)
    ensures Ledger(MakeRoom(s))
  {
    forall p ensures Count(s.accepted, p) == Places(MakeRoom(s), p) {
      MakeRoomPlaces(s, p);
      assert Count(s.accepted, p) == Places(s, p);
    }
  }

  /** A newly accepted packet goes to the end of the line. */
  lemma PushInOrder(t: State, p: Packet)
    requires InOrder(t) && p.data == t.nextAlloc - 1
    requires forall d | d in Gone(t) :: d < p.data
    requires Ledger(Push(t, p).(accepted := t.accepted + [p]))
    ensures InOrder(Push(t, p).(accepted := t.accepted + [p]))
  {
    var v := Push(t, p).(accepted := t.accepted + [p]);
    assert Gone(v) == Gone(t);
    assert Line(v) == Line(t) + [p];
    assert v.accepted[..|v.accepted| - 1] == t.accepted;
    hide Gone, Ledger, Line;
    assert Without(v.accepted, Gone(t)) == Without(t.accepted, Gone(t)) + [p];
  }

  /** Order does not depend on memory. */
  lemma MemInOrder(s: State, u: State)
    requires InOrder(s) && u == s.(mem := u.mem, broken := u.broken, nextAlloc := u.nextAlloc) && s.nextAlloc <= u.nextAlloc
    ensures InOrder(u) && Gone(u) == Gone(s)
  {
    hide Without;
    forall p ensures Count(u.accepted, p) == Places(u, p) {
      assert Count(s.accepted, p) == Places(s, p);
    }
  }

  lemma RoomGone(s: State, u: State)
    requires InOrder(s) && u == s.(mem := u.mem, nextAlloc := s.nextAlloc + 1)
    ensures forall d | d in Gone(MakeRoom(u)) :: d < s.nextAlloc
  {
    MemInOrder(s, u);
    hide Gone, Line, Without, Ledger;
    if Full(u) && u.queue != [] {
      GoneMakeRoom(u);
      HeadAllocated(s);
    }
  }

  lemma AddInOrder(s: State, op: int, payload: seq<Byte>, size: nat, writeOk: bool)
    requires InOrder(s) && Enabled(s, Add(op, payload, size, writeOk))
    ensures InOrder(Added(s, op, payload, size, writeOk))
  {
    hide InOrder, Ledger, Gone, Checksum;
    var u := Allocated(s, payload);
    var t := MakeRoom(u);
    MemInOrder(s, u);
    MakeRoomInOrder(u);
    if writeOk {
      InOrderLedger(s);
      StepLedger(s, Add(op, payload, size, writeOk));
      RoomGone(s, u);
      assert t.nextAlloc == s.nextAlloc + 1 && t.accepted == s.accepted;
      PushInOrder(t, NewPacket(s, op, payload, size));
    } else {
      MemInOrder(t, Added(s, op, payload, size, writeOk));
    }
  }

  lemma InOrderLedger(s: State)
    requires InOrder(s)
    ensures Ledger(s)
  {
  }

  lemma TakeInOrder(s: State)
    requires InOrder(s) && s.flight == []
    ensures InOrder(Taken(s))
  {
    hide Without, Checksum, Ledger, Readable;
    StepLedger(s, Take);
    if s.queue != [] {
      var h, t := s.queue[0], Taken(s);
      HeadAllocated(s);
      assert Line(s) == s.sent + [h] + s.queue[1..];
      if t.rejected != s.rejected {
        assert Gone(t) == Gone(s) + {h.data} by {
          assert forall p :: p in t.rejected <==> p in s.rejected || p == h;
        }
        hide Gone;
        AscendingOf(s);
        WithoutOne(s.accepted, Gone(s), s.sent, h, s.queue[1..]);
      }
    }
  }

  /** The guard of the one branch that can break the order: a failed packet of another opcode goes back to
      the tail, behind whatever is still queued, or is dropped. */
  predicate KeepsPlace(s: State, a: Action)
    requires Enabled(s, a)
  {
    a.Attempt? ==> a.ret >= 0 || Fifo(s.flight[0].op) || (a.writeOk && MakeRoom(s.(flight := [])).queue == [])
  }

  /** A packet that moves from the front of a sorted line to its end leaves it as it was only when there is
      nothing else, and one that leaves it never does. */
  lemma Rotated(q: seq<Packet>, a: seq<Packet>, p: Packet, b: seq<Packet>)
    requires q == a + [p] + b && forall i, j | 0 <= i < j < |q| :: q[i].data < q[j].data
    ensures a + b + [p] == q <==> b == []
    ensures a + b != q
  {
    assert |a + b| < |q|;
    if b != [] {
      assert q[|a|] == p && q[|a| + 1] == b[0] && (a + b + [p])[|a|] == b[0];
    }
  }

  /** What making room leaves alone, and that it does not look at memory. */
  lemma RoomFates(s: State, broken: bool)
    ensures var r, u := MakeRoom(s), MakeRoom(s.(broken := broken));
            && r.sent == s.sent && r.flight == s.flight && r.accepted == s.accepted && r.nextAlloc == s.nextAlloc
            && u.sent == s.sent && u.flight == s.flight && u.accepted == s.accepted && u.nextAlloc == s.nextAlloc
            && u.queue == r.queue && u.evicted == r.evicted && u.rejected == r.rejected
  {
  }

  /** What an attempt does to the line. */
  lemma AttemptLine(s: State, ret: int, writeOk: bool)
    requires |s.flight| == 1
    ensures var t, p, room := Attempted(s, ret, writeOk), s.flight[0], MakeRoom(s.(flight := []));
            && t.accepted == s.accepted && t.nextAlloc == s.nextAlloc
            && (ret >= 0 || Fifo(p.op) ==> Line(t) == Line(s) && t.evicted == s.evicted && t.rejected == s.rejected)
            && (ret < 0 && !Fifo(p.op) ==>
                  && t.evicted == room.evicted && t.rejected == room.rejected
                  && (writeOk ==> Line(t) == s.sent + room.queue + [p])
                  && (!writeOk ==> Line(t) == s.sent + room.queue))
  {
    var p := s.flight[0];
    var u := Used(s, p);
    RoomFates(s.(flight := []), u.broken);
    assert s.flight == [p];
    assert u.(flight := []) == s.(flight := []).(broken := u.broken);
    hide MakeRoom, Used, Fifo;
  }

  lemma RoomLine(s: State)
    requires |s.flight| == 1
    ensures var r, room := MakeRoom(s), MakeRoom(s.(flight := []));
            && Line(r) == s.sent + [s.flight[0]] + room.queue && r.accepted == s.accepted
            && r.evicted == room.evicted && r.rejected == room.rejected && r.nextAlloc == s.nextAlloc
  {
    RoomOfFlight(s);
    RoomFates(s, s.broken);
    hide MakeRoom;
    assert s.flight == [s.flight[0]];
  }

  /** An attempt keeps the line in order exactly when it meets the guard. */
  lemma OrderKeptIff(s: State, ret: int, writeOk: bool)
    requires InOrder(s) && |s.flight| == 1
    ensures var t := Attempted(s, ret, writeOk);
            && (Line(t) == Without(t.accepted, Gone(t)) <==> KeepsPlace(s, Attempt(ret, writeOk)))
            && (Line(t) == Without(t.accepted, Gone(t)) <==> InOrder(t))
  {
    hide Checksum, Readable, Ledger, Fifo, MakeRoom, Attempted, Gone, Without, Line;
    var t, p := Attempted(s, ret, writeOk), s.flight[0];
    InOrderLedger(s);
    StepLedger(s, Attempt(ret, writeOk));
    assert Ledger(t);
    AttemptLine(s, ret, writeOk);
    if ret >= 0 || Fifo(p.op) {
      GoneOfFates(s, t);
    } else {
      var r, room := MakeRoom(s), MakeRoom(s.(flight := []));
      MakeRoomInOrder(s);
      RoomLine(s);
      GoneOfFates(r, t);
      AscendingOf(s);
      WithoutSorted(s.accepted, Gone(r));
      Rotated(Line(r), s.sent, p, room.queue);
    }
  }

  lemma StepInOrder(s: State, a: Action)
    requires InOrder(s) && Enabled(s, a)
    ensures InOrder(Apply(s, a)) <==> KeepsPlace(s, a)
    ensures InOrder(Apply(s, a)) <==> Line(Apply(s, a)) == Without(Apply(s, a).accepted, Gone(Apply(s, a)))
  {
    match a
    case Add(op, payload, size, writeOk) =>
      hide Added, Without, Ledger, Gone, Line;
      AddInOrder(s, op, payload, size, writeOk);
    case Take =>
      hide Taken, Without, Ledger, Gone, Line;
      TakeInOrder(s);
    case Attempt(ret, writeOk) =>
      hide Attempted, Without, Ledger, Gone, Line, InOrder, KeepsPlace;
      OrderKeptIff(s, ret, writeOk);
    case Corrupt(data, bytes) =>
      hide Without, Ledger, Gone;
      StepLedger(s, a);
      assert Gone(Apply(s, a)) == Gone(s) by {
        GoneOfFates(s, Apply(s, a));
      }
  }

  lemma GoneOfFates(s: State, t: State)
    requires s.evicted == t.evicted && s.rejected == t.rejected
    ensures Gone(s) == Gone(t)
  {
  }

  /** A lane right after pipe_init meets what FifoOrder and NothingLost ask of their first state. */
  lemma EmptyLane()
    ensures InOrder(EMPTY) && OnlyFifo(EMPTY) && Intact(EMPTY) && FlightSound(EMPTY) && Consistent(EMPTY)
  {
    EmptyConsistent();
    assert Gone(EMPTY) == {};
    assert Line(EMPTY) == Without(EMPTY.accepted, Gone(EMPTY));
  }

  /** Every attempt of the run meets the guard. */
  ghost predicate AllKeepPlace(s: State, actions: seq<Action>)
    decreases |actions|
  {
    actions == [] || (Enabled(s, actions[0]) && KeepsPlace(s, actions[0]) && AllKeepPlace(Apply(s, actions[0]), actions[1..]))
  }

  /** After every action of the run, what is sent, in flight and queued is, in this order, the accept
      sequence without evicted and rejected packets. */
  ghost predicate AlwaysInOrder(s: State, actions: seq<Action>)
    decreases |actions|
  {
    && Line(s) == Without(s.accepted, Gone(s))
    && (actions == [] || (Enabled(s, actions[0]) && AlwaysInOrder(Apply(s, actions[0]), actions[1..])))
  }

  /** Order over any run, on either pipe: it holds throughout exactly when no failed packet goes back behind
      another one or is dropped. */
  lemma {:induction false} OrderThroughoutIff(s: State, actions: seq<Action>, t: State)
    requires InOrder(s) && Run(s, actions, t)
    ensures AlwaysInOrder(s, actions) <==> AllKeepPlace(s, actions)
    decreases |actions|
  {
    LineOf(s);
    if actions != [] {
      StepInOrder(s, actions[0]);
      hide Apply, InOrder, KeepsPlace, Line, Without, Gone;
      var u := Apply(s, actions[0]);
      if InOrder(u) {
        OrderThroughoutIff(u, actions[1..], t);
      }
    }
  }

  lemma LineOf(s: State)
    requires InOrder(s)
    ensures Line(s) == Without(s.accepted, Gone(s))
  {
  }

  ghost predicate OnlyFifo(s: State) {
    && (forall i | 0 <= i < |s.queue| :: Fifo(s.queue[i].op))
    && (forall i | 0 <= i < |s.flight| :: Fifo(s.flight[i].op))
  }

  lemma RoomQueue(s: State)
    ensures MakeRoom(s).flight == s.flight && (MakeRoom(s).queue == s.queue || (s.queue != [] && MakeRoom(s).queue == s.queue[1..]))
  {
  }

  predicate Present(s: State, p: Packet) {
    p in s.queue || p in s.flight
  }

  /** Whatever is queued or in flight after an action was so before, or was just added. */
  lemma StepPackets(s: State, a: Action, p: Packet)
    requires Enabled(s, a) && Present(Apply(s, a), p)
    ensures Present(s, p) || (a.Add? && p.op == a.op && p.size == a.size)
  {
    match a
    case Add(op, payload, size, writeOk) =>
      RoomQueue(Allocated(s, payload));
      hide MakeRoom, Checksum, Readable;
    case Take =>
      hide Checksum, Readable;
    case Attempt(ret, writeOk) =>
      RoomQueue(Used(s, s.flight[0]).(flight := []));
      hide MakeRoom, Readable, Fifo;
    case Corrupt(data, bytes) =>
  }

  lemma StepOnlyFifo(s: State, a: Action)
    requires OnlyFifo(s) && Enabled(s, a) && (a.Add? ==> Fifo(a.op))
    ensures OnlyFifo(Apply(s, a)) && KeepsPlace(s, a)
  {
    var t := Apply(s, a);
    hide Apply, Enabled, Fifo, MakeRoom;
    forall p | Present(t, p) ensures Fifo(p.op) {
      StepPackets(s, a, p);
    }
    assert forall i | 0 <= i < |t.queue| :: Present(t, t.queue[i]);
    assert forall i | 0 <= i < |t.flight| :: Present(t, t.flight[i]);
    assert a.Attempt? ==> Fifo(s.flight[0].op) by {
      FlightFifo(s, a);
    }
  }

  lemma FlightFifo(s: State, a: Action)
    requires OnlyFifo(s) && Enabled(s, a)
    ensures a.Attempt? ==> |s.flight| == 1 && Fifo(s.flight[0].op)
  {
  }

  lemma {:induction false} FifoKeepsPlace(s: State, actions: seq<Action>, t: State)
    requires OnlyFifo(s) && Run(s, actions, t)
    requires forall i | 0 <= i < |actions| && actions[i].Add? :: Fifo(actions[i].op)
    ensures AllKeepPlace(s, actions)
    decreases |actions|
  {
    if actions != [] {
      hide Apply, OnlyFifo, KeepsPlace;
      StepOnlyFifo(s, actions[0]);
      FifoKeepsPlace(Apply(s, actions[0]), actions[1..], t);
    }
  }

  lemma {:induction false} LastInOrder(s: State, actions: seq<Action>, t: State)
    requires AlwaysInOrder(s, actions) && Run(s, actions, t)
    ensures Line(t) == Without(t.accepted, Gone(t))
    decreases |actions|
  {
    if actions != [] {
      hide Apply, Line, Without, Gone;
      LastInOrder(Apply(s, actions[0]), actions[1..], t);
    }
  }

  /** Hence order on the fifo pipe, over any run whose packets carry the two fifo opcodes. */
  lemma FifoOrder(s: State, actions: seq<Action>, t: State)
    requires InOrder(s) && OnlyFifo(s) && Run(s, actions, t)
    requires forall i | 0 <= i < |actions| && actions[i].Add? :: Fifo(actions[i].op)
    ensures AlwaysInOrder(s, actions)
    ensures t.sent + t.flight + t.queue == Without(t.accepted, Gone(t))
  {
    hide InOrder, OnlyFifo, Without, Gone;
    FifoKeepsPlace(s, actions, t);
    OrderThroughoutIff(s, actions, t);
    LastInOrder(s, actions, t);
  }

  /** On the other pipe order is not kept: after one failed send, the next packet in the queue is
      sent first and the failed one waits behind everything queued. */
  lemma FailedSendIsOvertaken(s: State, p: Packet, q: Packet, rest: seq<Packet>) returns (t: State)
    requires s.flight == [p] && s.queue == [q] + rest && !Full(s) && !Fifo(p.op) && Intact(s) && Owned(s)
    ensures Run(s, [Attempt(-1, true), Take, Attempt(0, true)], t)
    ensures t.sent == s.sent + [q] && t.queue == rest + [p] && t.accepted == s.accepted
  {
    hide Checksum, Owned, Readable;
    NotBroken(s);
    var s1 := Apply(s, Attempt(-1, true));
    assert s1 == Push(s.(flight := []), p) && s1.queue == [q] + (rest + [p]);
    assert Sound(s, s.queue[0]) && Sound(s1, q);
    var s2 := Apply(s1, Take);
    assert s2.flight == [q] && s2.queue == rest + [p];
    t := Apply(s2, Attempt(0, true));
    ThreeSteps(s, Attempt(-1, true), s1, Take, s2, Attempt(0, true), t);
  }

  lemma ThreeSteps(s: State, a: Action, s1: State, b: Action, s2: State, c: Action, t: State)
    requires Enabled(s, a) && s1 == Apply(s, a) && Enabled(s1, b) && s2 == Apply(s1, b) && Enabled(s2, c) && t == Apply(s2, c)
    ensures Run(s, [a, b, c], t)
  {
    hide Apply;
    assert [a, b, c][1..] == [b, c] && [b, c][1..] == [c] && [c][1..] == [];
    assert Run(s2, [c], t);
  }

  // ---------- when the size limit is kept ----------

  /** a packets of size 1 in front of b packets of size m. */
  ghost predicate Shape(s: State, a: nat, b: nat, m: nat) {
    && Counted(s)
    && |s.queue| == a + b
    && (forall i | 0 <= i < a :: s.queue[i].size == 1)
    && (forall i | a <= i < a + b :: s.queue[i].size == m)
  }

  lemma {:induction false} SizeOfShape(q: seq<Packet>, k: nat)
    requires forall i | 0 <= i < |q| :: q[i].size == k
    ensures SizeOf(q) == |q| * k
    decreases |q|
  {
    if q != [] {
      SizeOfShape(q[1..], k);
    }
  }

  lemma {:induction false} RunAppend(s: State, x: seq<Action>, t: State, a: Action)
    requires Run(s, x, t) && Enabled(t, a)
    ensures Run(s, x + [a], Apply(t, a))
    decreases |x|
  {
    if x == [] {
      assert [a][1..] == [];
      assert x + [a] == [a];
    } else {
      hide Apply;
      assert (x + [a])[1..] == x[1..] + [a];
      RunAppend(Apply(s, x[0]), x[1..], t, a);
    }
  }

  lemma AddSmall(s: State, a: nat, x: Byte, m: nat)
    requires Shape(s, a, 0, m) && a <= PIPE_MAX_NUM
    ensures Shape(Added(s, 0, [x], 1, true), a + 1, 0, m)
  {
    hide Checksum;
    StepCounted(s, Add(0, [x], 1, true));
    SizeOfShape(s.queue, 1);
  }

  lemma AddLarge(s: State, a: nat, b: nat, payload: seq<Byte>)
    requires 0 < |payload| <= MAX_PACKET && Shape(s, a, b, |payload|) && a > 0 && a + b == PIPE_MAX_NUM + 1
    ensures Shape(Added(s, 0, payload, |payload|, true), a - 1, b + 1, |payload|)
  {
    hide Checksum;
    StepCounted(s, Add(0, payload, |payload|, true));
  }

  /** No add of the run is larger than m. */
  ghost predicate AddsAtMost(actions: seq<Action>, m: nat) {
    forall i | 0 <= i < |actions| && actions[i].Add? :: actions[i].size <= m
  }

  function Filled(n: nat, x: Byte): (r: seq<Byte>)
    ensures |r| == n
  {
    if n == 0 then [] else Filled(n - 1, x) + [x]
  }

  lemma {:induction false} FillSmall(x: Byte, a: nat, m: nat) returns (actions: seq<Action>, t: State)
    requires a <= PIPE_MAX_NUM + 1 && m > 0
    ensures Run(EMPTY, actions, t) && Shape(t, a, 0, m) && AddsAtMost(actions, m)
    decreases a
  {
    if a == 0 {
      actions, t := [], EMPTY;
    } else {
      var before, s := FillSmall(x, a - 1, m);
      AddSmall(s, a - 1, x, m);
      RunAppend(EMPTY, before, s, Add(0, [x], 1, true));
      actions, t := before + [Add(0, [x], 1, true)], Added(s, 0, [x], 1, true);
    }
  }

  lemma {:induction false} FillLarge(payload: seq<Byte>, x: Byte, b: nat) returns (actions: seq<Action>, t: State)
    requires 0 < |payload| <= MAX_PACKET && b <= PIPE_MAX_NUM + 1
    ensures Run(EMPTY, actions, t) && Shape(t, PIPE_MAX_NUM + 1 - b, b, |payload|) && AddsAtMost(actions, |payload|)
    decreases b
  {
    if b == 0 {
      actions, t := FillSmall(x, PIPE_MAX_NUM + 1, |payload|);
    } else {
      var before, s := FillLarge(payload, x, b - 1);
      var a := Add(0, payload, |payload|, true);
      AddLarge(s, PIPE_MAX_NUM + 2 - b, b - 1, payload);
      RunAppend(EMPTY, before, s, a);
      actions, t := before + [a], Added(s, 0, payload, |payload|, true);
    }
  }

  /** Evicting one packet per add lets the queue fill up with 5001 packets of any one size. */
  lemma SizeBoundReached(m: nat) returns (actions: seq<Action>, t: State)
    requires 0 < m <= MAX_PACKET
    ensures Run(EMPTY, actions, t) && AddsAtMost(actions, m) && t.num == 5001 && t.size == 5001 * m
  {
    actions, t := FillLarge(Filled(m, Byte(0)), Byte(0), PIPE_MAX_NUM + 1);
    SizeOfShape(t.queue, m);
  }

  ghost predicate SizesAtMost(s: State, m: nat) {
    && (forall i | 0 <= i < |s.queue| :: s.queue[i].size <= m)
    && (forall i | 0 <= i < |s.flight| :: s.flight[i].size <= m)
  }

  lemma StepSizes(s: State, a: Action, m: nat)
    requires SizesAtMost(s, m) && Enabled(s, a) && (a.Add? ==> a.size <= m)
    ensures SizesAtMost(Apply(s, a), m)
  {
    var t := Apply(s, a);
    hide Apply, Enabled;
    forall p | Present(t, p) ensures p.size <= m {
      StepPackets(s, a, p);
    }
    assert forall i | 0 <= i < |t.queue| :: Present(t, t.queue[i]);
    assert forall i | 0 <= i < |t.flight| :: Present(t, t.flight[i]);
  }

  lemma {:induction false} RunSizes(s: State, actions: seq<Action>, t: State, m: nat)
    requires SizesAtMost(s, m) && Run(s, actions, t) && AddsAtMost(actions, m)
    ensures SizesAtMost(t, m)
    decreases |actions|
  {
    if actions != [] {
      hide Apply, SizesAtMost;
      StepSizes(s, actions[0], m);
      assert forall i | 0 <= i < |actions[1..]| :: actions[1..][i] == actions[i + 1];
      RunSizes(Apply(s, actions[0]), actions[1..], t, m);
    }
  }

  lemma SizeAtMost(actions: seq<Action>, t: State, m: nat)
    requires Run(EMPTY, actions, t) && AddsAtMost(actions, m)
    ensures t.size <= 5001 * m
  {
    LaneCounted(actions, t);
    RunSizes(EMPTY, actions, t, m);
    SizeOfAtMost(t.queue, m);
    Scaled(|t.queue|, 5001, m);
  }

  lemma Scaled(a: nat, b: nat, m: nat)
    requires a <= b
    ensures a * m <= b * m
  {
  }

  /** Every run whose adds are at most m bytes keeps the queued bytes within PIPE_MAX_SIZE + slack. */
  ghost predicate LimitKept(m: nat, slack: nat) {
    forall actions, t | Run(EMPTY, actions, t) && AddsAtMost(actions, m) :: t.size <= PIPE_MAX_SIZE + slack
  }

  /** PIPE_MAX_SIZE is kept, give or take a number of bytes, exactly when 5001 of the largest packets fit. */
  lemma LimitKeptIff(m: nat, slack: nat)
    requires m <= MAX_PACKET
    ensures LimitKept(m, slack) <==> 5001 * m <= PIPE_MAX_SIZE + slack
  {
    if 5001 * m <= PIPE_MAX_SIZE + slack {
      forall actions, t | Run(EMPTY, actions, t) && AddsAtMost(actions, m) ensures t.size <= PIPE_MAX_SIZE + slack {
        SizeAtMost(actions, t, m);
      }
    } else {
      var actions, t := SizeBoundReached(m);
    }
  }

  /** Hence packets of up to 419 bytes never exceed it, and larger ones can, even by more than one packet. */
  lemma LimitKeptUpTo419(m: nat)
    requires m <= MAX_PACKET
    ensures LimitKept(m, 0) <==> m <= 419
    ensures LimitKept(m, m) <==> m <= 419
  {
    LimitKeptIff(m, 0);
    LimitKeptIff(m, m);
  }

  // ---------- send_packet ----------

  /** The result of send_packet when its transmissions end with the given results one after the
      other; Blocked while every one of them has failed and the opcode is repeated. */
  datatype SendResult = Returned(ret: int) | Blocked

  function SendPacket(op: int, results: seq<int>): SendResult {
    if results == [] then Blocked
    else if results[0] < 0 && Fifo(op) then SendPacket(op, results[1..])
    else Returned(results[0])
  }

  method SendPacketLoop(op: int, results: seq<int>) returns (r: SendResult, fifoPktFailCnt: nat)
    ensures r == SendPacket(op, results)
    ensures forall i | 0 <= i < fifoPktFailCnt :: i < |results| && results[i] < 0
    ensures r.Returned? && Fifo(op) ==> r.ret >= 0
  {
    fifoPktFailCnt := 0;
    r := Blocked;
    while fifoPktFailCnt < |results|
      invariant fifoPktFailCnt <= |results| && r == Blocked
      invariant SendPacket(op, results) == SendPacket(op, results[fifoPktFailCnt..])
      invariant forall i | 0 <= i < fifoPktFailCnt :: results[i] < 0
    {
      var sendPktRet := results[fifoPktFailCnt];
      assert results[fifoPktFailCnt..][1..] == results[fifoPktFailCnt + 1..];
      if sendPktRet < 0 && Fifo(op) {
        fifoPktFailCnt := fifoPktFailCnt + 1;
        continue;
      }
      return Returned(sendPktRet), fifoPktFailCnt;
    }
  }

  /** The attempts of the lane are the turns of that loop: they leave the lane alone until
      send_packet returns, and then do what sender_tx_data does with its result. */
  lemma {:induction false} AttemptsAreSendPacket(s: State, results: seq<int>, writeOk: bool)
    requires Owned(s) && |s.flight| == 1 && SendPacket(s.flight[0].op, results).Returned?
    ensures var r := SendPacket(s.flight[0].op, results).ret;
            exists n: nat :: n < |results| && results[n] == r
              && (forall i | 0 <= i < n :: Attempted(s, results[i], writeOk) == s)
              && (Fifo(s.flight[0].op) ==> r >= 0 && Attempted(s, r, writeOk).sent == s.sent + s.flight)
    decreases |results|
  {
    var op := s.flight[0].op;
    assert s.flight[0] in Held(s);
    if results[0] < 0 && Fifo(op) {
      AttemptsAreSendPacket(s, results[1..], writeOk);
    }
  }

  // ---------- the C functions ----------

  lemma PushAccepts(s: State, p: Packet)
    ensures MakeRoom(s).accepted == s.accepted == Push(MakeRoom(s), p).accepted
    ensures MakeRoom(s).leaked == s.leaked
  {
  }

  lemma TakeCases(s: State)
    requires Consistent(s) && s.flight == []
    ensures Consistent(Taken(s)) && Taken(s) == Apply(s, Take) && (s.queue == [] ==> Taken(s) == s)
    ensures s.queue != [] ==>
              var p := s.queue[0];
              var t := s.(queue := s.queue[1..], num := s.num - 1, size := s.size - p.size);
              && Readable(s.mem, p)
              && (Checksum(s.mem[p.data], p.size) == p.csum ==> Taken(s) == t.(flight := [p]))
              && (Checksum(s.mem[p.data], p.size) != p.csum ==> Taken(s) == Freed(t, p).(rejected := t.rejected + [p]))
  {
    StepCounted(s, Take);
    StepOwned(s, Take);
    NotBroken(s);
    hide Counted, Owned, Checksum;
  }

  lemma AttemptCases(s: State, ret: int, writeOk: bool)
    requires Consistent(s) && |s.flight| == 1
    ensures Consistent(Attempted(s, ret, writeOk))
    ensures Attempted(s, ret, writeOk) == Apply(s, Attempt(ret, writeOk))
    ensures var p, t := s.flight[0], Attempted(s, ret, writeOk);
            && (ret >= 0 ==> t == Freed(s, p).(flight := [], sent := s.sent + [p]))
            && (ret < 0 && Fifo(p.op) ==> t == s)
            && (ret < 0 && !Fifo(p.op) ==>
                  var room := MakeRoom(s.(flight := []));
                  (writeOk ==> t == Push(room, p)) && (!writeOk ==> t == room.(leaked := room.leaked + [p])))
  {
    StepCounted(s, Attempt(ret, writeOk));
    StepOwned(s, Attempt(ret, writeOk));
    NotBroken(s);
    RoomKeeps(s.(flight := []));
    hide Counted, Owned, MakeRoom, Fifo;
  }

  /** pipe_1 or pipe_2 with its network thread. The ghost fields record the fate of packets. */
  class SendLane {
    var queue: seq<Packet>     // what is in the kernel pipe
    var num: int
    var size: int
    var flight: seq<Packet>    // the packet sender_tx_data is working on, if any
    var mem: map<nat, seq<Byte>>
    var nextAlloc: nat
    ghost var broken: bool
    ghost var accepted: seq<Packet>
    ghost var sent: seq<Packet>
    ghost var evicted: seq<Packet>
    ghost var rejected: seq<Packet>
    ghost var leaked: seq<Packet>

    ghost function View(): State
      reads this
    {
      State(queue, num, size, flight, mem, nextAlloc, broken, accepted, sent, evicted, rejected, leaked)
    }

    /** pipe_init */
    constructor ()
      ensures View() == EMPTY
    {
      queue, num, size, flight, mem, nextAlloc := [], 0, 0, [], map[], 0;
      broken, accepted, sent, evicted, rejected, leaked := false, [], [], [], [], [];
    }

    /** free_packet(p.data) */
    method FreePacket(p: Packet)
      modifies this`mem, this`broken
      ensures View() == Freed(old(View()), p)
    {
      broken := broken || p.data !in mem;
      mem := mem - {p.data};
    }

    /** The first part of pipe_add_data and pipe_re_add_data: room for one more packet. */
    method Evict()
      modifies this
      ensures View() == MakeRoom(old(View()))
    {
      if num > PIPE_MAX_NUM || size > PIPE_MAX_SIZE {
        if queue != [] {
          var old0 := queue[0];
          queue := queue[1..];
          num := num - 1;
          size := size - old0.size;
          evicted := evicted + [old0];
          FreePacket(old0);
        }
      }
    }

    /** pipe_add_data: 0, or -1 when the write fails. */
    method PipeAddData(p: Packet, writeOk: bool) returns (res: int)
      modifies this
      ensures res == if writeOk then 0 else -1
      ensures View() == var t := MakeRoom(old(View())); if writeOk then Push(t, p) else t
    {
      hide MakeRoom;
      Evict();
      if !writeOk {
        return -1;
      }
      queue := queue + [p];
      num := num + 1;
      size := size + p.size;
      res := 0;
    }

    /** pipe_read: -1 for an empty pipe. */
    method PipeRead() returns (res: int, p: Packet)
      modifies this`queue, this`num, this`size
      ensures res == if old(queue) == [] then -1 else 0
      ensures res == -1 ==> View() == old(View())
      ensures res == 0 ==> p == old(queue)[0]
                           && View() == old(View()).(queue := old(queue)[1..], num := old(num) - 1, size := old(size) - p.size)
    {
      if queue == [] {
        p := *;
        return -1, p;
      }
      p := queue[0];
      queue := queue[1..];
      size := size - p.size;
      num := num - 1;
      res := 0;
    }

    /** pipe_check_csum_data */
    method PipeCheckCsumData(p: Packet) returns (res: int)
      requires Readable(mem, p)
      ensures res == if Checksum(mem[p.data], p.size) == p.csum then 0 else -1
    {
      var csum := ToolsChecksumXor(mem[p.data], p.size);
      res := if csum == p.csum then 0 else -1;
    }

    /** sender_add_data_to_buffer, once make_packet has produced payload and size. */
    method SenderAddDataToBuffer(op: int, payload: seq<Byte>, packetSize: nat, writeOk: bool) returns (res: int)
      requires Consistent(View()) && Enabled(View(), Add(op, payload, packetSize, writeOk))
      modifies this
      ensures Consistent(View()) && View() == Apply(old(View()), Add(op, payload, packetSize, writeOk))
      ensures res == if writeOk then 0 else -1
    {
      hide Checksum, Counted, Owned, MakeRoom, Push;
      ghost var s := View();
      var csum := ToolsChecksumXor(payload, packetSize);
      var p := Packet(op, nextAlloc, packetSize, csum);
      mem := mem[nextAlloc := payload];
      nextAlloc := nextAlloc + 1;
      ghost var u := View();
      assert u == Allocated(s, payload);
      res := PipeAddData(p, writeOk);
      if writeOk {
        PushAccepts(u, p);
        accepted := accepted + [p];
      } else {
        FreePacket(p);
      }
      assert View() == Added(s, op, payload, packetSize, writeOk);
      StepCounted(s, Add(op, payload, packetSize, writeOk));
      StepOwned(s, Add(op, payload, packetSize, writeOk));
    }

    /** A packet whose payload no longer has its checksum is freed. */
    method Reject(p: Packet)
      modifies this`mem, this`broken, this`rejected
      ensures View() == Freed(old(View()), p).(rejected := old(rejected) + [p])
    {
      FreePacket(p);
      rejected := rejected + [p];
    }

    /** The first half of sender_network_process: read one packet and check it. */
    method NetworkTake() returns (res: int)
      requires Consistent(View()) && flight == []
      modifies this
      ensures Consistent(View()) && View() == Apply(old(View()), Take)
      ensures res == 0 <==> flight != []
    {
      ghost var s := View();
      TakeCases(s);
      hide Consistent, Counted, Owned, Apply, Enabled, Added, Taken, Attempted, Freed, Used, MakeRoom, Full, Push, Fifo, Readable, Checksum;
      var read, p := PipeRead();
      if read < 0 {
        assert View() == Taken(s);
        return -1;
      }
      res := PipeCheckCsumData(p);
      if res < 0 {
        Reject(p);
      } else {
        flight := [p];
      }
      assert View() == Taken(s);
    }

    /** pipe_re_add_data for a packet that is no longer in flight; a failed write is not noticed. */
    method PipeReAddData(p: Packet, writeOk: bool)
      modifies this
      ensures var room := MakeRoom(old(View()));
              && (writeOk ==> View() == Push(room, p))
              && (!writeOk ==> View() == room.(leaked := room.leaked + [p]))
    {
      hide MakeRoom, Push;
      var res := PipeAddData(p, writeOk);
      if res < 0 {
        leaked := leaked + [p];
      }
    }

    /** sender_tx_data after one transmission of send_packet with result ret. */
    method TxData(ret: int, writeOk: bool)
      requires Consistent(View()) && |flight| == 1
      modifies this
      ensures Consistent(View()) && View() == Apply(old(View()), Attempt(ret, writeOk))
    {
      ghost var s := View();
      AttemptCases(s, ret, writeOk);
      hide Consistent, Counted, Owned, Apply, Enabled, Added, Taken, Attempted, Freed, Used, MakeRoom, Full, Push, Fifo, Readable, Checksum;
      var p := flight[0];
      if ret >= 0 {
        FreePacket(p);
        flight := [];
        sent := sent + [p];
      } else if !Fifo(p.op) {
        flight := [];
        assert View() == s.(flight := []);
        PipeReAddData(p, writeOk);
      }
      assert View() == Attempted(s, ret, writeOk);
    }
  }
}
