/** util/storage.c and tools_cp (util/tools.c:161-240) over a medium that can stop at any moment. */
module Storage {
  import opened Division
  import opened Crc16
  import opened Record

  type Files = map<string, seq<Byte>>

  const ERR_NONE := 0
  const ERR_FILE_NOT_EXIST := 1
  const ERR_FILE_OPEN := 2
  const ERR_MEM_ALLOC := 3
  const ERR_FILE_READ := 4
  const ERR_DATA_CRC := 5

  function Bak(file: string): (b: string)
    ensures b != file
  {
    assert |file + ".bak"| == |file| + 4;
    file + ".bak"
  }

  // ---------- what a crash can leave behind ----------

  /** Every state while `from` is copied over `to`: untouched, or `to` holds a prefix of `from`. */
  ghost predicate CopyState(fs: Files, from: string, to: string, s: Files) {
    s == fs || (from in fs && exists k: nat :: k <= |fs[from]| && s == CopiedPart(fs, from, to, k))
  }

  function CopiedPart(fs: Files, from: string, to: string, k: nat): Files
    requires from in fs && k <= |fs[from]|
  {
    fs[to := fs[from][..k]]
  }

  /** Some of the data, then some of its CRC: what two write() calls can leave in a file. */
  ghost predicate Torn(c: seq<Byte>, data: seq<Byte>) {
    exists i: nat, j: nat :: i <= |data| && j <= 2 && c == TornPart(data, i, j)
  }

  function TornPart(data: seq<Byte>, i: nat, j: nat): seq<Byte>
    requires i <= |data| && j <= 2
  {
    data[..i] + CrcBytes(Crc(data))[..j]
  }

  /** Every state the files pass through while storage_save_file(file, data) runs on fs: first the
      backup is overwritten with the file, then the file with the new record. */
  ghost predicate SaveState(fs: Files, file: string, data: seq<Byte>, s: Files) {
    CopyState(fs, file, Bak(file), s) || exists mid: Files ::
      CopyState(fs, file, Bak(file), mid) && OverwriteState(mid, file, data, s)
  }

  ghost predicate OverwriteState(mid: Files, file: string, data: seq<Byte>, s: Files) {
    file in s && Torn(s[file], data) && s == mid[file := s[file]]
  }

  /** Every state the files pass through while storage_load_file(file) runs on fs. */
  ghost predicate LoadState(fs: Files, file: string, s: Files) {
    CopyState(fs, Bak(file), file, s)
  }

  // ---------- results ----------

  datatype Outcome = Ok(data: seq<Byte>) | Err(code: int)

  /** _load_file when the device reports no error: the bytes of one file. */
  function LoadOutcome(fs: Files, file: string, n: nat): (o: Outcome)
    ensures o.Err? ==> o.code < 0
  {
    if file !in fs then Err(-ERR_FILE_OPEN)
    else if |fs[file]| < n + 2 then Err(-ERR_FILE_READ)
    else if Accepts(fs[file][..n + 2]) then Ok(fs[file][..n])
    else Err(-ERR_DATA_CRC)
  }

  function Recovered(fs: Files, file: string): Files
    requires Bak(file) in fs
  {
    fs[file := fs[Bak(file)]]
  }

  /** storage_load_file when the device reports no error: outcome and files afterwards. */
  function StorageLoad(fs: Files, file: string, n: nat): (Outcome, Files)
  {
    if file !in fs && Bak(file) !in fs then (Err(-ERR_FILE_NOT_EXIST), fs)
    else
      var fs1 := if file in fs then fs else Recovered(fs, file);
      var o := LoadOutcome(fs1, file, n);
      if o == Err(-ERR_DATA_CRC) && Bak(file) in fs1 then
        (LoadOutcome(Recovered(fs1, file), file, n), Recovered(fs1, file))
      else (o, fs1)
  }

  /** The files after an undisturbed save. */
  function Saved(fs: Files, file: string, data: seq<Byte>): Files {
    (if file in fs then fs[Bak(file) := fs[file]] else fs)[file := Encode(data)]
  }

  // ---------- what can go wrong while a file is read ----------

  /** One open and read: it fails to open, or fails to read, or yields at most this many bytes. */
  datatype Attempt = OpenFails | ReadFails | Reads(most: nat)

  /** The faults during one call of _load_file, which makes up to three attempts. */
  datatype Faults = Faults(noMemory: bool, attempts: seq<Attempt>)

  /** The attempt yields all of the size bytes asked for. */
  predicate Full(fs: Files, file: string, size: nat, a: Attempt) {
    file in fs && a.Reads? && size <= a.most && size <= |fs[file]|
  }

  /** The error of an attempt that does not. */
  function AttemptError(fs: Files, file: string, a: Attempt): int {
    if file !in fs || a.OpenFails? then -ERR_FILE_OPEN else -ERR_FILE_READ
  }

  /** One of the first two attempts is a full read. */
  predicate WasRead(fs: Files, file: string, size: nat, f: Faults)
    requires |f.attempts| == 3
    ensures WasRead(fs, file, size, f) ==> file in fs && size <= |fs[file]|
  {
    !f.noMemory && (Full(fs, file, size, f.attempts[0]) || Full(fs, file, size, f.attempts[1]))
  }

  predicate NoFault(f: Faults, size: nat) {
    !f.noMemory && forall i | 0 <= i < |f.attempts| :: f.attempts[i].Reads? && size <= f.attempts[i].most
  }

  // ---------- the code ----------

  /** The file system. trace records every state of the files, so that "a crash at any point"
      is "any state in trace". A faulty device may fail any call and may take part of a write;
      a healthy one does neither. */
  class FileSystem {
    const healthy: bool
    var files: Files
    ghost var trace: seq<Files>

    constructor (files: Files, healthy: bool)
      ensures this.files == files && this.healthy == healthy && trace == [files]
    {
      this.files := files;
      this.healthy := healthy;
      trace := [files];
    }

    /** open(name, O_WRONLY | O_CREAT | O_TRUNC) */
    method OpenTrunc(name: string) returns (ok: bool)
      modifies this
      ensures healthy ==> ok
      ensures ok ==> files == old(files)[name := []] && trace == old(trace) + [files]
      ensures !ok ==> files == old(files) && trace == old(trace)
    {
      ok := *;
      if healthy || ok {
        ok := true;
        files := files[name := []];
        trace := trace + [files];
      }
    }

    /** write(): the bytes reach the file one at a time; -1 reports an error. */
    method Write(name: string, buf: seq<Byte>) returns (n: int)
      requires name in files
      modifies this
      ensures (n == -1 && !healthy) || (n == 0 && buf == []) || 0 < n <= |buf|
      ensures healthy ==> n == |buf|
      ensures n >= 0 ==> files == Appended(old(files), name, buf, n)
      ensures AppendState(old(files), name, buf, files)
      ensures old(trace) <= trace
      ensures forall t | |old(trace)| <= t < |trace| :: AppendState(old(files), name, buf, trace[t])
    {
      n := |buf|;
      if !healthy && buf != [] {
        n := *;
        n := if 0 < n <= |buf| then n else -1;
      }
      var arrived := *;
      var limit: nat := if n >= 0 then n else if 0 <= arrived <= |buf| then arrived else |buf|;
      assert files[name] + buf[..0] == files[name];
      assert files == Appended(files, name, buf, 0);
      for m := 0 to limit
        invariant files == Appended(old(files), name, buf, m)
        invariant old(trace) <= trace
        invariant forall t | |old(trace)| <= t < |trace| :: AppendState(old(files), name, buf, trace[t])
      {
        assert old(files)[name] + buf[..m + 1] == old(files)[name] + buf[..m] + [buf[m]];
        files := files[name := files[name] + [buf[m]]];
        assert files == Appended(old(files), name, buf, m + 1);
        trace := trace + [files];
      }
    }

    /** The inner loop of tools_cp: write until nothing is left. */
    method WriteAll(name: string, buf: seq<Byte>) returns (ok: bool)
      requires name in files
      modifies this
      ensures healthy ==> ok
      ensures ok ==> files == Appended(old(files), name, buf, |buf|)
      ensures AppendState(old(files), name, buf, files)
      ensures old(trace) <= trace
      ensures forall t | |old(trace)| <= t < |trace| :: AppendState(old(files), name, buf, trace[t])
    {
      var done := 0;
      assert files[name] + buf[..0] == files[name];
      assert files == Appended(files, name, buf, 0);
      while done < |buf|
        invariant 0 <= done <= |buf| && files == Appended(old(files), name, buf, done)
        invariant old(trace) <= trace
        invariant forall t | |old(trace)| <= t < |trace| :: AppendState(old(files), name, buf, trace[t])
      {
        ghost var before := files;
        var n := Write(name, buf[done..]);
        forall s | AppendState(before, name, buf[done..], s) ensures AppendState(old(files), name, buf, s) {
          AppendTwice(old(files), name, buf, done, s);
        }
        if n < 0 {
          return false;
        }
        AppendedTwice(old(files), name, buf, done, n);
        done := done + n;
      }
      ok := true;
    }

    /** tools_cp(from, to, 1) */
    method Copy(from: string, to: string) returns (r: int)
      requires from != to
      modifies this
      ensures r == 0 || r == -1
      ensures healthy ==> (r == 0 <==> from in old(files))
      ensures r == 0 ==> from in old(files) && files == old(files)[to := old(files)[from]]
      ensures from !in old(files) ==> files == old(files) && trace == old(trace)
      ensures CopyState(old(files), from, to, files)
      ensures old(trace) <= trace
      ensures forall t | |old(trace)| <= t < |trace| :: CopyState(old(files), from, to, trace[t])
    {
      var fault := *;
      if from !in files || (!healthy && fault) {
        return -1;
      }
      var isOpen := OpenTrunc(to);
      if !isOpen {
        return -1;
      }
      assert files == CopiedPart(old(files), from, to, 0);
      var pos := 0;
      while pos < |files[from]|
        invariant from in old(files) && from in files && to in files && files[from] == old(files)[from]
        invariant 0 <= pos <= |files[from]| && files == CopiedPart(old(files), from, to, pos)
        invariant old(trace) <= trace
        invariant forall t | |old(trace)| <= t < |trace| :: CopyState(old(files), from, to, trace[t])
      {
        var readFault := *;
        if !healthy && readFault {
          return -1;
        }
        var end := if pos + 4096 <= |files[from]| then pos + 4096 else |files[from]|;
        var buf := files[from][pos..end];
        ghost var before := files;
        var ok := WriteAll(to, buf);
        forall s | AppendState(before, to, buf, s) ensures CopyState(old(files), from, to, s) {
          AppendContinues(old(files), from, to, pos, buf, s);
        }
        if !ok {
          return -1;
        }
        AppendedMore(old(files), from, to, pos, buf, |buf|);
        pos := end;
      }
      var closeFault := *;
      r := if !healthy && closeFault then -1 else 0;
      assert old(files)[from][..pos] == old(files)[from];
    }

    /** Lines 139-150 of storage_save_file. The results of both writes are ignored. */
    method Overwrite(file: string, data: seq<Byte>, crc: Word) returns (ret: int)
      requires crc == Crc(data)
      modifies this
      ensures ret == ERR_NONE || (ret == -ERR_FILE_OPEN && !healthy && files == old(files))
      ensures healthy ==> files == old(files)[file := Encode(data)]
      ensures ret == ERR_NONE ==> OverwriteState(old(files), file, data, files)
      ensures old(trace) <= trace
      ensures forall t | |old(trace)| <= t < |trace| :: OverwriteState(old(files), file, data, trace[t])
    {
      hide Crc, CrcBytes;
      var isOpen := OpenTrunc(file);
      if !isOpen {
        return -ERR_FILE_OPEN;
      }
      TornFromData(old(files), file, data, 0, files);
      ghost var empty := files;
      var _ := Write(file, data);
      forall s | AppendState(empty, file, data, s) ensures OverwriteState(old(files), file, data, s) {
        TornWhileData(old(files), file, data, s);
      }
      ghost var written := files;
      var _ := Write(file, CrcBytes(crc));
      forall s | AppendState(written, file, CrcBytes(crc), s) ensures OverwriteState(old(files), file, data, s) {
        TornWhileCrc(old(files), file, data, written, s);
      }
      assert [] + data[..|data|] + CrcBytes(crc)[..2] == Encode(data);
      ret := ERR_NONE;
    }

    /** storage_save_file(file, pdata, length): the result of the backup is ignored too. */
    method SaveFile(file: string, pdata: array<Byte>) returns (ret: int)
      modifies this
      ensures ret == ERR_NONE || (ret == -ERR_FILE_OPEN && !healthy)
      ensures healthy ==> files == Saved(old(files), file, pdata[..])
      ensures SaveState(old(files), file, pdata[..], files)
      ensures old(trace) <= trace
      ensures forall t | |old(trace)| <= t < |trace| :: SaveState(old(files), file, pdata[..], trace[t])
    {
      hide Crc, CrcBytes, OverwriteState;
      if file in files {
        var _ := Copy(file, Bak(file));
      }
      ghost var mid := files;
      assert CopyState(old(files), file, Bak(file), mid);
      var crc := Crc16Get(pdata, pdata.Length);
      assert pdata[..pdata.Length] == pdata[..];
      ret := Overwrite(file, pdata[..], crc);
      forall s | OverwriteState(mid, file, pdata[..], s) ensures SaveState(old(files), file, pdata[..], s) {
      }
    }

    /** The open-and-read loop of _load_file: a full read counts only on the first two attempts, and one
        that comes on the third leaves the error of the second. */
    method ReadRecord(file: string, size: nat, attempts: seq<Attempt>) returns (err: int, pbuf: seq<Byte>)
      requires |attempts| == 3
      ensures err == ERR_NONE <==> Full(files, file, size, attempts[0]) || Full(files, file, size, attempts[1])
      ensures err == ERR_NONE ==> pbuf == files[file][..size]
      ensures err != ERR_NONE ==>
                err == AttemptError(files, file, if Full(files, file, size, attempts[2]) then attempts[1] else attempts[2])
    {
      var retry := 0;
      err, pbuf := ERR_NONE, [];
      while retry < 3
        invariant 0 <= retry <= 3
        invariant forall k | 0 <= k < retry :: !Full(files, file, size, attempts[k])
        invariant err == if retry == 0 then ERR_NONE else AttemptError(files, file, attempts[retry - 1])
      {
        var attempt := attempts[retry];
        retry := retry + 1;
        if file !in files || attempt.OpenFails? {
          err := -ERR_FILE_OPEN;
        } else {
          var nread := -1;
          if attempt.Reads? {
            var want := if |files[file]| < size then |files[file]| else size;
            nread := if attempt.most < want then attempt.most else want;
          }
          if nread == size {
            if retry >= 3 {
              return err, [];
            }
            return ERR_NONE, files[file][..size];
          }
          err := -ERR_FILE_READ;
        }
      }
    }

    /** _load_file(file, pdata, length) */
    method LoadFile(file: string, pdata: array<Byte>, f: Faults) returns (ret: int)
      requires |f.attempts| == 3 && (healthy ==> NoFault(f, pdata.Length + 2))
      modifies pdata
      ensures healthy ==> ret == Code(LoadOutcome(files, file, pdata.Length))
      ensures var whole := WasRead(files, file, pdata.Length + 2, f);
              && (ret == ERR_NONE <==> whole && Accepts(files[file][..pdata.Length + 2]))
              && (ret == -ERR_DATA_CRC <==> whole && !Accepts(files[file][..pdata.Length + 2]))
              && (ret == -ERR_MEM_ALLOC <==> f.noMemory)
              && (!whole && !f.noMemory ==>
                    ret == AttemptError(files, file, if Full(files, file, pdata.Length + 2, f.attempts[2])
                                                     then f.attempts[1] else f.attempts[2]))
      ensures ret == ERR_NONE ==> LoadOutcome(files, file, pdata.Length) == Ok(pdata[..])
      ensures ret == -ERR_DATA_CRC ==> LoadOutcome(files, file, pdata.Length) == Err(ret)
      ensures ret <= 0 && (ret < 0 ==> forall i | 0 <= i < pdata.Length :: pdata[i] == Byte(0))
      ensures ret != -ERR_FILE_NOT_EXIST
    {
      hide Crc, CrcBytes;
      var length := pdata.Length;
      forall i | 0 <= i < length {
        pdata[i] := Byte(0);
      }
      if f.noMemory {
        return -ERR_MEM_ALLOC;
      }
      var err, pbuf := ReadRecord(file, length + 2, f.attempts);
      if err != ERR_NONE {
        return err;
      }
      if pbuf[length..] != CrcBytes(Crc(pbuf[..length])) {
        return -ERR_DATA_CRC;
      }
      forall i | 0 <= i < length {
        pdata[i] := pbuf[i];
      }
      assert pdata[..] == pbuf[..length] == files[file][..length];
      ret := ERR_NONE;
    }

    /** storage_load_file(file, pdata, length) */
    method StorageLoadFile(file: string, pdata: array<Byte>, first: Faults, second: Faults) returns (ret: int)
      requires |first.attempts| == |second.attempts| == 3
      requires healthy ==> NoFault(first, pdata.Length + 2) && NoFault(second, pdata.Length + 2)
      modifies this, pdata
      ensures healthy ==>
        var (o, fs) := StorageLoad(old(files), file, pdata.Length);
        ret == Code(o) && files == fs && (o.Ok? ==> pdata[..] == o.data)
      ensures ret == ERR_NONE ==> LoadOutcome(files, file, pdata.Length) == Ok(pdata[..])
      ensures ret == -ERR_FILE_NOT_EXIST ==> file !in old(files) && pdata[..] == old(pdata[..])
      ensures Bak(file) !in old(files) ==> files == old(files) && trace == old(trace)
      ensures file in old(files) ==>
                var whole := WasRead(old(files), file, pdata.Length + 2, first);
                var accepted := whole && Accepts(old(files)[file][..pdata.Length + 2]);
                && (!whole || accepted ==> files == old(files) && trace == old(trace) && (ret == ERR_NONE <==> accepted))
                && (whole && !accepted && ret == ERR_NONE ==> WasRead(files, file, pdata.Length + 2, second))
      ensures ret < 0 && ret != -ERR_FILE_NOT_EXIST ==> forall i | 0 <= i < pdata.Length :: pdata[i] == Byte(0)
      ensures ret <= 0 && LoadState(old(files), file, files)
      ensures old(trace) <= trace
      ensures forall t | |old(trace)| <= t < |trace| :: LoadState(old(files), file, trace[t])
    {
      assert CopyState(files, Bak(file), file, files);
      hide LoadOutcome, Accepts, WasRead, NoFault, CopyState;
      if file !in files {
        var r := Copy(Bak(file), file);
        if r != 0 {
          return -ERR_FILE_NOT_EXIST;
        }
      }
      ghost var fs1 := files;
      ret := LoadFile(file, pdata, first);
      if ret == -ERR_DATA_CRC {
        var r := Copy(Bak(file), file);
        forall s | CopyState(fs1, Bak(file), file, s) ensures LoadState(old(files), file, s) {
          RecoverTwice(old(files), file, fs1, s);
        }
        if r == 0 {
          ret := LoadFile(file, pdata, second);
        }
      }
    }
  }

  function Code(o: Outcome): int {
    match o
    case Ok(_) => ERR_NONE
    case Err(code) => code
  }

  lemma TornFromData(mid: Files, file: string, data: seq<Byte>, i: nat, s: Files)
    requires i <= |data| && s == mid[file := data[..i]]
    ensures OverwriteState(mid, file, data, s)
  {
    assert TornPart(data, i, 0) == data[..i];
  }

  lemma TornWhileData(mid: Files, file: string, data: seq<Byte>, s: Files)
    requires AppendState(mid[file := []], file, data, s)
    ensures OverwriteState(mid, file, data, s)
  {
    var m: nat :| m <= |data| && s == Appended(mid[file := []], file, data, m);
    assert [] + data[..m] == data[..m];
    TornFromData(mid, file, data, m, s);
  }

  lemma TornWhileCrc(mid: Files, file: string, data: seq<Byte>, written: Files, s: Files)
    requires AppendState(mid[file := []], file, data, written)
    requires AppendState(written, file, CrcBytes(Crc(data)), s)
    ensures OverwriteState(mid, file, data, s)
  {
    var i: nat :| i <= |data| && written == Appended(mid[file := []], file, data, i);
    var j: nat :| j <= 2 && s == Appended(written, file, CrcBytes(Crc(data)), j);
    assert [] + data[..i] == data[..i];
    TornFromCrc(mid, file, data, i, j, s);
  }

  /** Copying the backup over the file twice is copying it once. */
  lemma RecoverTwice(fs: Files, file: string, fs1: Files, s: Files)
    requires CopyState(fs, Bak(file), file, fs1) && CopyState(fs1, Bak(file), file, s)
    ensures CopyState(fs, Bak(file), file, s)
  {
    if s != fs1 && fs1 != fs {
      var k: nat :| k <= |fs1[Bak(file)]| && s == CopiedPart(fs1, Bak(file), file, k);
      assert s == CopiedPart(fs, Bak(file), file, k);
    }
  }

  lemma TornFromCrc(mid: Files, file: string, data: seq<Byte>, i: nat, j: nat, s: Files)
    requires i <= |data| && j <= 2 && s == mid[file := data[..i] + CrcBytes(Crc(data))[..j]]
    ensures OverwriteState(mid, file, data, s)
  {
    assert s[file] == TornPart(data, i, j);
  }

  function Appended(fs: Files, name: string, buf: seq<Byte>, m: nat): Files
    requires name in fs && m <= |buf|
  {
    fs[name := fs[name] + buf[..m]]
  }

  ghost predicate AppendState(fs: Files, name: string, buf: seq<Byte>, s: Files)
    requires name in fs
  {
    exists m: nat :: m <= |buf| && s == Appended(fs, name, buf, m)
  }

  lemma AppendedTwice(fs: Files, name: string, buf: seq<Byte>, done: nat, m: nat)
    requires name in fs && done + m <= |buf|
    ensures Appended(Appended(fs, name, buf, done), name, buf[done..], m) == Appended(fs, name, buf, done + m)
  {
    assert fs[name] + buf[..done] + buf[done..][..m] == fs[name] + buf[..done + m];
  }

  lemma AppendTwice(fs: Files, name: string, buf: seq<Byte>, done: nat, s: Files)
    requires name in fs && done <= |buf|
    requires AppendState(Appended(fs, name, buf, done), name, buf[done..], s)
    ensures AppendState(fs, name, buf, s)
  {
    var m: nat :| m <= |buf[done..]| && s == Appended(Appended(fs, name, buf, done), name, buf[done..], m);
    AppendedTwice(fs, name, buf, done, m);
  }

  lemma AppendedMore(fs: Files, from: string, to: string, pos: nat, buf: seq<Byte>, m: nat)
    requires from != to && from in fs && m <= |buf| && pos + |buf| <= |fs[from]|
    requires buf == fs[from][pos..pos + |buf|]
    ensures Appended(CopiedPart(fs, from, to, pos), to, buf, m) == CopiedPart(fs, from, to, pos + m)
  {
    assert fs[from][..pos] + buf[..m] == fs[from][..pos + m];
  }

  lemma AppendContinues(fs: Files, from: string, to: string, pos: nat, buf: seq<Byte>, s: Files)
    requires from != to && from in fs && pos + |buf| <= |fs[from]| && buf == fs[from][pos..pos + |buf|]
    requires AppendState(CopiedPart(fs, from, to, pos), to, buf, s)
    ensures CopyState(fs, from, to, s)
  {
    var m: nat :| m <= |buf| && s == Appended(CopiedPart(fs, from, to, pos), to, buf, m);
    AppendedMore(fs, from, to, pos, buf, m);
  }

  // ---------- one save ----------

  lemma LoadOfEncoded(fs: Files, file: string, data: seq<Byte>)
    requires file in fs && fs[file] == Encode(data)
    ensures LoadOutcome(fs, file, |data|) == Ok(data)
    ensures StorageLoad(fs, file, |data|) == (Ok(data), fs)
  {
    assert fs[file][..|data| + 2] == fs[file] && fs[file][..|data|] == data;
    AcceptsIffEncoded(fs[file]);
  }

  /** An undisturbed save is read back. */
  lemma SaveThenLoad(fs: Files, file: string, data: seq<Byte>)
    ensures StorageLoad(Saved(fs, file, data), file, |data|) == (Ok(data), Saved(fs, file, data))
  {
    LoadOfEncoded(Saved(fs, file, data), file, data);
  }

  /** A torn record of n data bytes is either too short to be read or complete. */
  lemma TornIsShortOrWhole(c: seq<Byte>, data: seq<Byte>)
    requires Torn(c, data)
    ensures |c| < |data| + 2 || c == Encode(data)
  {
    var i: nat, j: nat :| i <= |data| && j <= 2 && c == TornPart(data, i, j);
    if |c| >= |data| + 2 {
      assert data[..i] == data && CrcBytes(Crc(data))[..j] == CrcBytes(Crc(data));
    }
  }

  /** A crash at any point of saving b over a: the next load gives all of a or all of b when the
      file holds a whole record, and otherwise the read error, backup or no backup. */
  lemma CrashDuringSave(fs: Files, file: string, a: seq<Byte>, b: seq<Byte>, s: Files)
    requires file in fs && fs[file] == Encode(a) && |a| == |b|
    requires SaveState(fs, file, b, s)
    ensures file in s
    ensures StorageLoad(s, file, |b|).1 == s
    ensures s[file] == Encode(a) ==> StorageLoad(s, file, |b|).0 == Ok(a)
    ensures s[file] == Encode(b) ==> StorageLoad(s, file, |b|).0 == Ok(b)
    ensures s[file] != Encode(a) && s[file] != Encode(b) ==>
              |s[file]| < |b| + 2 && StorageLoad(s, file, |b|).0 == Err(-ERR_FILE_READ)
  {
    if CopyState(fs, file, Bak(file), s) {
      LoadOfEncoded(s, file, a);
    } else {
      TornIsShortOrWhole(s[file], b);
      if s[file] == Encode(b) {
        LoadOfEncoded(s, file, b);
      }
      if s[file] == Encode(a) {
        LoadOfEncoded(s, file, a);
      }
    }
  }

  /** Such a state exists for every length at which the new record can be cut off: the backup holds all
      of a, and the load reports the read error all the same. */
  lemma TornSaveIsNotRecovered(fs: Files, file: string, a: seq<Byte>, b: seq<Byte>, i: nat, j: nat)
    requires file in fs && fs[file] == Encode(a) && |a| == |b|
    requires i <= |b| && j <= 2 && i + j < |b| + 2
    ensures var s := fs[Bak(file) := fs[file]][file := TornPart(b, i, j)];
            && SaveState(fs, file, b, s)
            && s[Bak(file)] == Encode(a)
            && StorageLoad(s, file, |b|) == (Err(-ERR_FILE_READ), s)
  {
    hide Crc, CrcBytes, Accepts;
    var mid := fs[Bak(file) := fs[file]];
    assert mid == CopiedPart(fs, file, Bak(file), |fs[file]|) by {
      assert fs[file][..|fs[file]|] == fs[file];
    }
    TornFromCrc(mid, file, b, i, j, mid[file := TornPart(b, i, j)]);
  }

  // ---------- two saves, then damage ----------

  lemma SavedTwice(fs: Files, file: string, a: seq<Byte>, b: seq<Byte>)
    ensures var s := Saved(Saved(fs, file, a), file, b);
            file in s && s[file] == Encode(b) && Bak(file) in s && s[Bak(file)] == Encode(a)
  {
  }

  /** After saving a and then b, losing the file makes the load return a and restore the file. */
  lemma LostFile(fs: Files, file: string, a: seq<Byte>, b: seq<Byte>)
    requires |a| == |b|
    ensures var s := Saved(Saved(fs, file, a), file, b) - {file};
            StorageLoad(s, file, |b|) == (Ok(a), s[file := Encode(a)])
  {
    var s := Saved(Saved(fs, file, a), file, b) - {file};
    LoadOfEncoded(s[file := Encode(a)], file, a);
  }

  lemma LoadOfRejected(fs: Files, file: string, a: seq<Byte>, r: seq<Byte>)
    requires |r| == |a| + 2 && !Accepts(r)
    requires file in fs && fs[file] == r && Bak(file) in fs && fs[Bak(file)] == Encode(a)
    ensures StorageLoad(fs, file, |a|) == (Ok(a), fs[file := Encode(a)])
  {
    assert r[..|a| + 2] == r;
    LoadOfEncoded(Recovered(fs, file), file, a);
  }

  /** After saving a and then b, damage to the file within two adjacent bytes makes the load return
      a and restore the file, except for the blind spot, which loads the damaged data. */
  lemma DamagedFile(fs: Files, file: string, a: seq<Byte>, b: seq<Byte>, r: seq<Byte>, p: nat)
    requires |a| == |b| && |r| == |b| + 2 && r != Encode(b)
    requires forall k | 0 <= k < |r| && k != p && k != p + 1 :: r[k] == Encode(b)[k]
    ensures var s := Saved(Saved(fs, file, a), file, b)[file := r];
            StorageLoad(s, file, |b|) == if Blind(b, r) then (Ok(r[..|b|]), s) else (Ok(a), s[file := Encode(a)])
  {
    var s := Saved(Saved(fs, file, a), file, b)[file := r];
    SavedTwice(fs, file, a, b);
    TwoByteDamage(b, r, p);
    if Accepts(r) {
      AcceptsIffEncoded(r);
      LoadOfEncoded(s, file, r[..|b|]);
    } else {
      LoadOfRejected(s, file, a, r);
    }
  }

  /** The same for damage anywhere in the file that flips an odd number of bits, with no exception. */
  lemma OddDamagedFile(fs: Files, file: string, a: seq<Byte>, b: seq<Byte>, r: seq<Byte>)
    requires |a| == |b| && |r| == |b| + 2
    requires Odd(Add(MessageBits(r), MessageBits(Encode(b))))
    ensures var s := Saved(Saved(fs, file, a), file, b)[file := r];
            StorageLoad(s, file, |b|) == (Ok(a), s[file := Encode(a)])
  {
    SavedTwice(fs, file, a, b);
    OddDamage(b, r);
    LoadOfRejected(Saved(Saved(fs, file, a), file, b)[file := r], file, a, r);
  }

  // ---------- any number of saves, loads and crashes ----------

  /** Both files, where they exist, hold part of some block that was saved. */
  ghost predicate Genuine(fs: Files, file: string, saved: set<seq<Byte>>) {
    && (file in fs ==> PartOf(fs[file], saved))
    && (Bak(file) in fs ==> PartOf(fs[Bak(file)], saved))
  }

  ghost predicate PartOf(c: seq<Byte>, saved: set<seq<Byte>>) {
    exists d :: d in saved && Torn(c, d)
  }

  lemma PartOfPrefix(c: seq<Byte>, saved: set<seq<Byte>>, k: nat)
    requires PartOf(c, saved) && k <= |c|
    ensures PartOf(c[..k], saved)
  {
    var d :| d in saved && Torn(c, d);
    var i: nat, j: nat :| i <= |d| && j <= 2 && c == TornPart(d, i, j);
    if k <= i {
      assert c[..k] == TornPart(d, k, 0);
    } else {
      assert c[..k] == TornPart(d, i, k - i);
    }
    assert Torn(c[..k], d);
  }

  lemma CopyKeepsGenuine(fs: Files, file: string, saved: set<seq<Byte>>, from: string, to: string, s: Files)
    requires Genuine(fs, file, saved) && CopyState(fs, from, to, s)
    requires (from == file && to == Bak(file)) || (from == Bak(file) && to == file)
    ensures Genuine(s, file, saved)
  {
    if s != fs {
      var k: nat :| k <= |fs[from]| && s == CopiedPart(fs, from, to, k);
      PartOfPrefix(fs[from], saved, k);
    }
  }

  lemma SaveKeepsGenuine(fs: Files, file: string, saved: set<seq<Byte>>, data: seq<Byte>, s: Files)
    requires Genuine(fs, file, saved) && SaveState(fs, file, data, s)
    ensures Genuine(s, file, saved + {data})
  {
    assert Genuine(fs, file, saved + {data}) by {
      Widened(fs, file, saved, data);
    }
    if CopyState(fs, file, Bak(file), s) {
      CopyKeepsGenuine(fs, file, saved + {data}, file, Bak(file), s);
    } else {
      var mid: Files :| CopyState(fs, file, Bak(file), mid) && OverwriteState(mid, file, data, s);
      CopyKeepsGenuine(fs, file, saved + {data}, file, Bak(file), mid);
      assert PartOf(s[file], saved + {data});
    }
  }

  lemma Widened(fs: Files, file: string, saved: set<seq<Byte>>, data: seq<Byte>)
    requires Genuine(fs, file, saved)
    ensures Genuine(fs, file, saved + {data})
  {
    forall c | PartOf(c, saved) ensures PartOf(c, saved + {data}) {
      var d :| d in saved && Torn(c, d);
      assert d in saved + {data};
    }
  }

  /** A call that may be cut off at any of the states it passes through. */
  datatype Call = Save(data: seq<Byte>) | Load

  ghost predicate CallState(fs: Files, file: string, call: Call, s: Files) {
    match call
    case Save(data) => SaveState(fs, file, data, s)
    case Load => LoadState(fs, file, s)
  }

  /** Any number of calls, each complete or cut off by a crash. */
  ghost predicate Run(file: string, calls: seq<Call>, states: seq<Files>) {
    && |states| == |calls| + 1
    && forall i | 0 <= i < |calls| :: CallState(states[i], file, calls[i], states[i + 1])
  }

  function SavedBy(calls: seq<Call>): set<seq<Byte>> {
    set c | c in calls && c.Save? :: c.data
  }

  lemma {:induction false} RunKeepsGenuine(file: string, calls: seq<Call>, states: seq<Files>, saved: set<seq<Byte>>)
    requires Run(file, calls, states) && Genuine(states[0], file, saved)
    ensures Genuine(states[|calls|], file, saved + SavedBy(calls))
    decreases |calls|
  {
    var n := |calls|;
    if n == 0 {
      assert saved + SavedBy(calls) == saved;
    } else {
      var before, call := calls[..n - 1], calls[n - 1];
      assert calls == before + [call];
      RunKeepsGenuine(file, before, states[..n], saved);
      var all := saved + SavedBy(before);
      assert CallState(states[n - 1], file, call, states[n]);
      if call.Save? {
        SaveKeepsGenuine(states[n - 1], file, all, call.data, states[n]);
        assert saved + SavedBy(calls) == all + {call.data};
      } else {
        CopyKeepsGenuine(states[n - 1], file, all, Bak(file), file, states[n]);
        assert saved + SavedBy(calls) == all;
      }
    }
  }

  lemma LoadIsPart(fs: Files, file: string, saved: set<seq<Byte>>, n: nat)
    requires Genuine(fs, file, saved) && forall d | d in saved :: |d| == n
    requires LoadOutcome(fs, file, n).Ok?
    ensures LoadOutcome(fs, file, n).data in saved
  {
    var d :| d in saved && Torn(fs[file], d);
    TornIsShortOrWhole(fs[file], d);
    LoadOfEncoded(fs, file, d);
  }

  /** storage_load_file answers from a state that is as genuine as the one it found. */
  lemma LoadKeepsGenuine(fs: Files, file: string, saved: set<seq<Byte>>, n: nat)
    requires Genuine(fs, file, saved)
    ensures var (o, after) := StorageLoad(fs, file, n);
            Genuine(after, file, saved) && (o.Ok? ==> o == LoadOutcome(after, file, n))
  {
    hide LoadOutcome, Genuine;
    if Bak(file) in fs {
      var fs1 := Recovered(fs, file);
      assert fs[Bak(file)][..|fs[Bak(file)]|] == fs[Bak(file)];
      assert fs1 == CopiedPart(fs, Bak(file), file, |fs[Bak(file)]|) && Recovered(fs1, file) == fs1;
      CopyKeepsGenuine(fs, file, saved, Bak(file), file, fs1);
    }
  }

  lemma LoadIsWhole(fs: Files, file: string, saved: set<seq<Byte>>, n: nat)
    requires Genuine(fs, file, saved) && forall d | d in saved :: |d| == n
    ensures var o := StorageLoad(fs, file, n).0;
            o.Ok? ==> o.data in saved
  {
    hide LoadOutcome, Genuine, StorageLoad;
    LoadKeepsGenuine(fs, file, saved, n);
    if StorageLoad(fs, file, n).0.Ok? {
      LoadIsPart(StorageLoad(fs, file, n).1, file, saved, n);
    }
  }

  /** Whatever saves, loads and crashes came before, a load that succeeds returns one of the blocks
      that were saved, whole: never a mixture. */
  lemma NeverAMixture(file: string, calls: seq<Call>, states: seq<Files>, saved: set<seq<Byte>>, n: nat)
    requires Run(file, calls, states) && Genuine(states[0], file, saved)
    requires forall d | d in saved + SavedBy(calls) :: |d| == n
    ensures var o := StorageLoad(states[|calls|], file, n).0;
            o.Ok? ==> o.data in saved + SavedBy(calls)
  {
    RunKeepsGenuine(file, calls, states, saved);
    LoadIsWhole(states[|calls|], file, saved + SavedBy(calls), n);
  }
}
