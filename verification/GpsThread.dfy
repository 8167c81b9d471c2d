/** base/thread-gps.c: the receive buffer of the GPS thread, cut in place. */
module GpsThread {
  import opened Framing

  const GPS_MAX_BUFF_SIZE := 2048
  const CAPACITY := GPS_MAX_BUFF_SIZE - 1

  // ---------- reference: one pass of the thread over pending text and a received chunk ----------

  /** _check_null_data: NULs become spaces. */
  function NoNul(s: string): (r: string)
    ensures |r| == |s|
    ensures forall k | 0 <= k < |s| :: r[k] == if s[k] == '\0' then ' ' else s[k]
  {
    if s == "" then "" else NoNul(s[..|s| - 1]) + [if s[|s| - 1] == '\0' then ' ' else s[|s| - 1]]
  }

  /** A full buffer without a frame is thrown away. */
  function Kept(rest: string): string {
    if |rest| >= CAPACITY then "" else rest
  }

  function Feed(pending: string, chunk: string): (seq<string>, string) {
    if chunk == "" then ([], pending) else
      var (frames, rest) := Split(pending + NoNul(chunk));
      (frames, Kept(rest))
  }

  function Run(pending: string, chunks: seq<string>): (seq<string>, string)
    decreases |chunks|
  {
    if chunks == [] then ([], pending) else
      var (frames, rest) := Feed(pending, chunks[0]);
      var (more, last) := Run(rest, chunks[1..]);
      (frames + more, last)
  }

  /** Every chunk fits behind the pending text, and no buffer is thrown away. */
  predicate Quiet(pending: string, chunks: seq<string>)
    decreases |chunks|
  {
    chunks == [] || (
      && |pending| + |chunks[0]| <= CAPACITY
      && |Split(pending + NoNul(chunks[0])).1| < CAPACITY
      && Quiet(Feed(pending, chunks[0]).1, chunks[1..]))
  }

  // ---------- the thread's state ----------

  class GpsReader {
    var buffer: array<char>
    var pbufferin: nat       // offset of the next byte to receive
    var read_size: nat
    var will_read_size: nat

    /** The first `end` bytes are text without NUL and everything behind is zero, so that strstr
        stops exactly where the text stops. */
    ghost predicate Filled(end: nat)
      reads this, buffer
    {
      && buffer.Length == GPS_MAX_BUFF_SIZE && end <= CAPACITY
      && (forall k | 0 <= k < end :: buffer[k] != '\0')
      && (forall k | end <= k < buffer.Length :: buffer[k] == '\0')
    }

    /** Between two reads: the pending text holds no complete frame and leaves room to read. */
    ghost predicate Valid()
      reads this, buffer
    {
      && Filled(pbufferin) && pbufferin < CAPACITY
      && will_read_size == CAPACITY - pbufferin
      && FrameEnd(Pending()) == 0
    }

    ghost function Pending(): string
      reads this, buffer
      requires pbufferin <= buffer.Length
    {
      buffer[..pbufferin]
    }

    /** gps_init over the zeroed static buffer. */
    constructor ()
      ensures Valid() && Pending() == "" && fresh(buffer)
    {
      buffer := new char[GPS_MAX_BUFF_SIZE](_ => '\0');
      pbufferin, read_size, will_read_size := 0, 0, CAPACITY;
      new;
      assert Pending() == "";
    }

    /** strstr(buffer, "$GPGGA"): the search ends at the first NUL. */
    method StrStr(ghost end: nat) returns (i: int)
      requires Filled(end)
      ensures if FindTag(buffer[..end], 0) < end then i == FindTag(buffer[..end], 0) else i == -1
    {
      i := 0;
      ghost var s := buffer[..end];
      while buffer[i] != '\0'
        invariant 0 <= i <= end
        invariant FindTag(s, 0) == FindTag(s, i)
        decreases buffer.Length - i
      {
        if i + 6 <= buffer.Length && buffer[i] == '$' && buffer[i + 1] == 'G' && buffer[i + 2] == 'P'
           && buffer[i + 3] == 'G' && buffer[i + 4] == 'G' && buffer[i + 5] == 'A'
        {
          assert TagAt(s, i);
          return;
        }
        i := i + 1;
      }
      i := -1;
    }

    /** tools_strnchr(buffer + from, ch, len) */
    method StrNChr(from: nat, ch: char, len: nat) returns (i: int)
      requires from + len <= buffer.Length
      ensures var s := buffer[..from + len];
              if FindChar(s, ch, from) < |s| then i == FindChar(s, ch, from) else i == -1
    {
      ghost var s := buffer[..from + len];
      for k := 0 to len
        invariant FindChar(s, ch, from) == FindChar(s, ch, from + k)
      {
        if buffer[from + k] == ch {
          assert s[from + k] == ch;
          return from + k;
        }
        assert s[from + k] != ch;
      }
      i := -1;
    }

    /** _check_null_data over the bytes just received. */
    method CheckNullData()
      requires pbufferin + read_size <= buffer.Length
      modifies buffer
      ensures forall k | 0 <= k < buffer.Length && !(pbufferin <= k < pbufferin + read_size) :: buffer[k] == old(buffer[k])
      ensures forall k | pbufferin <= k < pbufferin + read_size ::
                buffer[k] == if old(buffer[k]) == '\0' then ' ' else old(buffer[k])
    {
      for i := 0 to read_size
        invariant forall k | 0 <= k < buffer.Length && !(pbufferin <= k < pbufferin + i) :: buffer[k] == old(buffer[k])
        invariant forall k | pbufferin <= k < pbufferin + i ::
                    buffer[k] == if old(buffer[k]) == '\0' then ' ' else old(buffer[k])
      {
        if buffer[pbufferin + i] == '\0' {
          buffer[pbufferin + i] := ' ';
        }
      }
    }

    /** memset(buffer + from, 0, CAPACITY - from) */
    method ClearFrom(from: nat)
      requires from <= CAPACITY < buffer.Length
      modifies buffer
      ensures forall k | 0 <= k < from :: buffer[k] == old(buffer[k])
      ensures forall k | from <= k < CAPACITY :: buffer[k] == '\0'
      ensures forall k | CAPACITY <= k < buffer.Length :: buffer[k] == old(buffer[k])
    {
      forall k | from <= k < CAPACITY {
        buffer[k] := '\0';
      }
    }

    /** memmove(buffer, buffer + from, len) */
    method MoveDown(from: nat, len: nat)
      requires from + len <= buffer.Length
      modifies buffer
      ensures forall k | 0 <= k < len :: buffer[k] == old(buffer[from + k])
      ensures forall k | len <= k < buffer.Length :: buffer[k] == old(buffer[k])
    {
      forall k | 0 <= k < len {
        buffer[k] := buffer[from + k];
      }
    }

    /** Lines 92-113: no complete frame, wait for more or give up on a full buffer. */
    method Wait()
      requires Filled(pbufferin + read_size)
      modifies this, buffer
      ensures buffer == old(buffer) && Filled(pbufferin) && pbufferin < CAPACITY
      ensures will_read_size == CAPACITY - pbufferin
      ensures Pending() == Kept(old(buffer[..pbufferin + read_size]))
    {
      pbufferin := pbufferin + read_size;
      if pbufferin >= CAPACITY {
        pbufferin := 0;
        will_read_size := CAPACITY;
        ClearFrom(0);
      } else {
        will_read_size := CAPACITY - pbufferin;
      }
    }

    /** Lines 117-130: hand the first `size` bytes to gps_parse and move the rest down. */
    method Cut(size: nat) returns (parsed: string)
      requires Filled(pbufferin + read_size) && 0 < size <= pbufferin + read_size
      modifies this, buffer
      ensures buffer == old(buffer) && Filled(pbufferin) && read_size == 0
      ensures will_read_size == CAPACITY - pbufferin
      ensures parsed == old(buffer[..size])
      ensures Pending() == old(buffer[size..pbufferin + read_size])
    {
      var left := pbufferin + read_size - size;
      parsed := buffer[..size];
      MoveDown(size, left);
      read_size := 0;
      ClearFrom(left);
      pbufferin := left;
      will_read_size := CAPACITY - pbufferin;
      assert forall k | 0 <= k < left :: buffer[k] == old(buffer[size + k]);
    }

    /** Lines 81-90: the LF that ends the first frame, or -1. */
    method FindDelimiter() returns (i: int)
      requires Filled(pbufferin + read_size)
      ensures i == FrameEnd(buffer[..pbufferin + read_size]) - 1
    {
      hide FindTag, FindChar;
      var plastbyte := pbufferin + read_size;
      i := StrStr(plastbyte);
      if i >= 0 {
        i := StrNChr(i, '\n', plastbyte - i);
      }
    }

    /** _splite_gps_context: pass the first complete frame to gps_parse, or wait for more. */
    method SpliteGpsContext() returns (res: int, parsed: string)
      requires Filled(pbufferin + read_size)
      modifies this, buffer
      ensures buffer == old(buffer) && Filled(pbufferin) && will_read_size == CAPACITY - pbufferin
      ensures var s := old(buffer[..pbufferin + read_size]);
              if FrameEnd(s) > 0 then
                res == 1 && parsed == s[..FrameEnd(s)] && read_size == 0 && Pending() == s[FrameEnd(s)..]
              else
                res == 0 && Pending() == Kept(s) && pbufferin < CAPACITY
    {
      hide Kept, FrameEnd;
      var delimiter := FindDelimiter();
      if delimiter < 0 {
        Wait();
        res, parsed := 0, "";
      } else {
        parsed := Cut(delimiter + 1);
        res := 1;
      }
    }

    /** The bytes of one read, NULs replaced. */
    method Receive(chunk: string)
      requires Valid() && |chunk| <= will_read_size
      modifies this, buffer
      ensures buffer == old(buffer) && pbufferin == old(pbufferin) && Filled(pbufferin + read_size)
      ensures buffer[..pbufferin + read_size] == old(Pending()) + NoNul(chunk)
    {
      ghost var p := Pending();
      forall k | 0 <= k < |chunk| {
        buffer[pbufferin + k] := chunk[k];
      }
      read_size := |chunk|;
      CheckNullData();
      ghost var t := p + NoNul(chunk);
      forall k | 0 <= k < pbufferin + read_size ensures buffer[k] == t[k] {
      }
    }

    /** The inner loop of thread_gps: cut until no frame is complete. */
    method CutFrames() returns (frames: seq<string>)
      requires Filled(pbufferin + read_size)
      modifies this, buffer
      ensures Valid() && buffer == old(buffer)
      ensures var (cut, rest) := Split(old(buffer[..pbufferin + read_size]));
              frames == cut && Pending() == Kept(rest)
    {
      hide FrameEnd, Split, Kept, IsSplitSoFar;
      ghost var s := buffer[..pbufferin + read_size];
      frames := [];
      SplitStart(s);
      while true
        invariant buffer == old(buffer) && Filled(pbufferin + read_size)
        invariant IsSplitSoFar(s, frames, buffer[..pbufferin + read_size])
        decreases pbufferin + read_size
      {
        ghost var t := buffer[..pbufferin + read_size];
        var res, parsed := SpliteGpsContext();
        SplitStep(s, frames, t);
        if res == 0 {
          KeptHasNoFrame(t);
          break;
        }
        assert buffer[..pbufferin + read_size] == t[FrameEnd(t)..];
        frames := frames + [parsed];
      }
    }

    /** One pass of the thread's loop: read (as many bytes as chunk), replace NULs, cut frames. */
    method OnRead(chunk: string) returns (frames: seq<string>)
      requires Valid() && |chunk| <= will_read_size
      modifies this, buffer
      ensures Valid() && buffer == old(buffer)
      ensures (frames, Pending()) == Feed(old(Pending()), chunk)
    {
      hide Split, Kept;
      if chunk == "" {
        return [];
      }
      Receive(chunk);
      frames := CutFrames();
    }
  }

  /** t is what is left of s after cutting off `frames`. */
  ghost predicate IsSplitSoFar(s: string, frames: seq<string>, t: string) {
    Split(s) == (frames + Split(t).0, Split(t).1)
  }

  lemma SplitStart(s: string)
    ensures IsSplitSoFar(s, [], s)
  {
    assert [] + Split(s).0 == Split(s).0;
  }

  lemma SplitStep(s: string, frames: seq<string>, t: string)
    requires IsSplitSoFar(s, frames, t)
    ensures var e := FrameEnd(t);
            if e == 0 then Split(s) == (frames, t) else IsSplitSoFar(s, frames + [t[..e]], t[e..])
  {
    hide FrameEnd;
    var e := FrameEnd(t);
    if e == 0 {
      assert frames + [] == frames;
    } else {
      var more := Split(t[e..]).0;
      assert frames + ([t[..e]] + more) == frames + [t[..e]] + more;
    }
  }

  lemma KeptHasNoFrame(s: string)
    requires FrameEnd(s) == 0
    ensures FrameEnd(Kept(s)) == 0
  {
  }

  // ---------- the whole stream ----------

  lemma {:induction false} NoNulAppend(s: string, t: string)
    ensures NoNul(s + t) == NoNul(s) + NoNul(t)
  {
  }

  lemma StreamSplit(pending: string, chunks: seq<string>)
    requires chunks != []
    ensures pending + NoNul(Concat(chunks)) == pending + NoNul(chunks[0]) + NoNul(Concat(chunks[1..]))
  {
    NoNulAppend(chunks[0], Concat(chunks[1..]));
  }

  /** Chunk independence: while no buffer is thrown away, the frames handed to gps_parse and the
      text left over are those of one greedy cut of the whole stream, however it was chunked. */
  lemma {:induction false} ChunkIndependence(pending: string, chunks: seq<string>)
    requires Quiet(pending, chunks) && FrameEnd(pending) == 0
    ensures Run(pending, chunks) == Split(pending + NoNul(Concat(chunks)))
    decreases |chunks|
  {
    if chunks == [] {
      assert pending + NoNul("") == pending;
    } else {
      hide Feed, Split, FrameEnd, NoNul, Concat;
      FeedThenRest(pending, chunks[0], NoNul(Concat(chunks[1..])));
      StreamSplit(pending, chunks);
      ChunkIndependence(Feed(pending, chunks[0]).1, chunks[1..]);
    }
  }

  /** Two ways of chunking one stream give the same frames. */
  lemma SameStreamSameFrames(a: seq<string>, b: seq<string>)
    requires Quiet("", a) && Quiet("", b) && Concat(a) == Concat(b)
    ensures Run("", a) == Run("", b)
  {
    ChunkIndependence("", a);
    ChunkIndependence("", b);
  }

  /** No byte of the stream is lost, duplicated or reordered. */
  lemma StreamConserved(chunks: seq<string>)
    requires Quiet("", chunks)
    ensures var (frames, last) := Run("", chunks);
            Concat(frames) + last == NoNul(Concat(chunks)) && FrameEnd(last) == 0
            && forall i | 0 <= i < |frames| :: IsFrame(frames[i])
  {
    ChunkIndependence("", chunks);
    assert "" + NoNul(Concat(chunks)) == NoNul(Concat(chunks));
    SplitIsCut(NoNul(Concat(chunks)));
  }

  /** Text is thrown away exactly when a read fills the buffer to its last byte and no frame is
      complete; a buffer with a frame in it always keeps everything behind the frame. */
  lemma ThrownAwayIff(pending: string, chunk: string)
    requires FrameEnd(pending) == 0 && |pending| < CAPACITY && |pending| + |chunk| <= CAPACITY
    ensures var s := pending + NoNul(chunk);
            Feed(pending, chunk) != Split(s) <==> |s| == CAPACITY && FrameEnd(s) == 0
  {
    var s := pending + NoNul(chunk);
    if chunk == "" {
      assert s == pending;
    }
    SplitShortens(s);
  }

  /** Every frame of every run, also of one in which text was thrown away, ends with the first LF behind its
      first "$GPGGA". */
  lemma {:induction false} FramesAreSentences(pending: string, chunks: seq<string>, i: nat)
    requires i < |Run(pending, chunks).0|
    ensures IsSentence(Run(pending, chunks).0[i])
    decreases |chunks|
  {
    hide IsSentence;
    var (frames, rest) := Feed(pending, chunks[0]);
    if i < |frames| {
      SplitIsCut(pending + NoNul(chunks[0]));
      FrameIsOneSentence(frames[i]);
    } else {
      FramesAreSentences(rest, chunks[1..], i - |frames|);
    }
  }

  /** After text was thrown away nothing is pending; otherwise everything behind the last frame is. */
  lemma PendingIs(pending: string, chunk: string)
    requires FrameEnd(pending) == 0 && |pending| < 2047 && |pending| + |chunk| <= 2047 && chunk != ""
    ensures var s := pending + NoNul(chunk);
            Feed(pending, chunk).1 == if |s| == 2047 && FrameEnd(s) == 0 then "" else Split(s).1
  {
    SplitShortens(pending + NoNul(chunk));
  }

  lemma {:induction false} SplitShortens(s: string)
    ensures |Split(s).1| <= |s| && (|Split(s).1| == |s| <==> FrameEnd(s) == 0)
    decreases |s|
  {
    if FrameEnd(s) > 0 {
      SplitShortens(s[FrameEnd(s)..]);
    }
  }

  /** What one run does is what its parts do one after the other; in particular a run that starts
      behind a thrown-away buffer cuts the remaining stream as if nothing had come before. */
  lemma {:induction false} RunAppend(pending: string, a: seq<string>, b: seq<string>)
    ensures var (frames, rest) := Run(pending, a);
            Run(pending, a + b) == (frames + Run(rest, b).0, Run(rest, b).1)
    decreases |a|
  {
    if a == [] {
      assert a + b == b;
      assert [] + Run(pending, b).0 == Run(pending, b).0;
    } else {
      hide Feed;
      assert (a + b)[0] == a[0] && (a + b)[1..] == a[1..] + b;
      var (first, rest) := Feed(pending, a[0]);
      RunAppend(rest, a[1..], b);
      var (more, last) := Run(rest, a[1..]);
      assert first + (more + Run(last, b).0) == first + more + Run(last, b).0;
    }
  }

  /** Every chunk fits behind the text pending at its time. */
  predicate Fits(pending: string, chunks: seq<string>)
    decreases |chunks|
  {
    chunks == [] || (|pending| + |chunks[0]| <= CAPACITY && Fits(Feed(pending, chunks[0]).1, chunks[1..]))
  }

  /** thread_gps: the buffer in memory behaves as the reference on every sequence of reads. */
  method Listen(reader: GpsReader, chunks: seq<string>) returns (frames: seq<string>)
    requires reader.Valid() && Fits(reader.Pending(), chunks)
    modifies reader, reader.buffer
    ensures reader.Valid() && (frames, reader.Pending()) == Run(old(reader.Pending()), chunks)
  {
    hide Feed;
    ghost var start := reader.Pending();
    frames := [];
    assert [] + Run(start, chunks).0 == Run(start, chunks).0;
    for n := 0 to |chunks|
      invariant reader.Valid() && reader.buffer == old(reader.buffer)
      invariant Fits(reader.Pending(), chunks[n..])
      invariant Run(start, chunks) == (frames + Run(reader.Pending(), chunks[n..]).0, Run(reader.Pending(), chunks[n..]).1)
    {
      assert chunks[n..][0] == chunks[n] && chunks[n..][1..] == chunks[n + 1..];
      ghost var pending := reader.Pending();
      var parsed := reader.OnRead(chunks[n]);
      ghost var more := Run(reader.Pending(), chunks[n + 1..]).0;
      assert frames + (parsed + more) == frames + parsed + more;
      frames := frames + parsed;
    }
    assert chunks[|chunks|..] == [] && frames + [] == frames;
    assert Run(reader.Pending(), []) == ([], reader.Pending());
  }

  lemma FeedThenRest(pending: string, chunk: string, t: string)
    requires FrameEnd(pending) == 0 && |Split(pending + NoNul(chunk)).1| < CAPACITY
    ensures var (frames, rest) := Feed(pending, chunk);
            FrameEnd(rest) == 0
            && Split(pending + NoNul(chunk) + t) == (frames + Split(rest + t).0, Split(rest + t).1)
  {
    hide FrameEnd, IsFrame;
    SplitIsCut(pending + NoNul(chunk));
    SplitAppend(pending + NoNul(chunk), t);
    if chunk == "" {
      assert pending + NoNul(chunk) == pending;
      assert Split(pending) == ([], pending);
      assert [] + Split(pending + t).0 == Split(pending + t).0;
    }
  }
}
