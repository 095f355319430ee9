/** The write and verify passes of the disk tester. `write` copies the
    pseudo-random stream to the file chunk by chunk; `verify` reads the file
    back, possibly in short reads, and compares it with the regenerated
    stream. The file is a byte sequence with a cursor; the outcome of every
    write and read call and the abort flag seen after each step are given
    as parameters indexed by the step number. */
module DiskTest {
  import opened Bytes
  import opened StreamAggregator

  // ---------------------------------------------------------------------
  // The stream as bytes.

  /** Byte offset at which global chunk `k` starts in the stream: the
      chunks before it are `cs` bytes each (see `ChunkStartIsProduct`). */
  function ChunkStart(k: nat, cs: nat): nat
  {
    if k == 0 then 0 else ChunkStart(k - 1, cs) + cs
  }

  lemma {:induction false} ChunkStartIsProduct(k: nat, cs: nat)
    ensures ChunkStart(k, cs) == k * cs
  {
    if k > 0 {
      ChunkStartIsProduct(k - 1, cs);
    }
  }

  /** Byte `j` of the stream that starts at global chunk `c`: the chunks
      laid end to end. */
  function StreamByteFrom(gen: Generator, n: nat, cs: nat, c: nat, j: nat): byte
    requires n > 0 && cs > 0 && ChunkSized(gen, cs)
    decreases j
  {
    if j < cs then GlobalChunk(gen, n, c)[j] else StreamByteFrom(gen, n, cs, c + 1, j - cs)
  }

  /** Byte `j` of the stream that starts at global chunk 0. */
  function StreamByte(gen: Generator, n: nat, cs: nat, j: nat): byte
    requires n > 0 && cs > 0 && ChunkSized(gen, cs)
  {
    StreamByteFrom(gen, n, cs, 0, j)
  }

  /** The first `len` bytes of that stream. */
  function StreamPrefix(gen: Generator, n: nat, cs: nat, len: nat): (s: seq<byte>)
    requires n > 0 && cs > 0 && ChunkSized(gen, cs)
    ensures |s| == len && forall j :: 0 <= j < len ==> s[j] == StreamByte(gen, n, cs, j)
  {
    seq(len, j requires 0 <= j < len => StreamByte(gen, n, cs, j))
  }

  lemma {:induction false} ChunkBytesFrom(gen: Generator, n: nat, cs: nat, c: nat, k: nat, i: nat)
    requires n > 0 && cs > 0 && ChunkSized(gen, cs) && i < cs
    ensures StreamByteFrom(gen, n, cs, c, ChunkStart(k, cs) + i) == GlobalChunk(gen, n, c + k)[i]
    decreases k
  {
    if k > 0 {
      ChunkBytesFrom(gen, n, cs, c + 1, k - 1, i);
    }
  }

  /** Inside global chunk `k`, stream byte `k * cs + i` is byte
      `i` of the chunk. */
  lemma ChunkBytes(gen: Generator, n: nat, cs: nat, k: nat, i: nat)
    requires n > 0 && cs > 0 && ChunkSized(gen, cs) && i < cs
    ensures StreamByte(gen, n, cs, ChunkStart(k, cs) + i) == GlobalChunk(gen, n, k)[i]
  {
    ChunkBytesFrom(gen, n, cs, 0, k, i);
  }

  /** Layout of the stream: byte `j` is byte `j % cs` of global chunk
      `j / cs`, i.e. of local chunk `j / cs / n` of thread `j / cs % n`. */
  lemma StreamByteIsChunkByte(gen: Generator, n: nat, cs: nat, j: nat)
    requires n > 0 && cs > 0 && ChunkSized(gen, cs)
    ensures StreamByte(gen, n, cs, j) == gen(j / cs % n, j / cs / n)[j % cs]
  {
    var c, i := j / cs, j % cs;
    ChunkStartIsProduct(c, cs);
    assert j == ChunkStart(c, cs) + i;
    ChunkBytes(gen, n, cs, c, i);
    PlaceIsDivMod(n, c);
  }

  /** The stream is the concatenation of the aggregator's chunks: appending
      a prefix of chunk `k` to the first `k` chunks extends the stream. */
  lemma PrefixExtend(gen: Generator, n: nat, cs: nat, k: nat, len: nat)
    requires n > 0 && cs > 0 && ChunkSized(gen, cs) && len <= cs
    ensures StreamPrefix(gen, n, cs, ChunkStart(k, cs)) + GlobalChunk(gen, n, k)[..len]
            == StreamPrefix(gen, n, cs, ChunkStart(k, cs) + len)
  {
    var lhs := StreamPrefix(gen, n, cs, ChunkStart(k, cs)) + GlobalChunk(gen, n, k)[..len];
    var rhs := StreamPrefix(gen, n, cs, ChunkStart(k, cs) + len);
    forall j | ChunkStart(k, cs) <= j < ChunkStart(k, cs) + len
      ensures lhs[j] == rhs[j]
    {
      ChunkBytes(gen, n, cs, k, j - ChunkStart(k, cs));
    }
    assert lhs == rhs;
  }

  /** Writing the first `stored` bytes of chunk `k` at `at`, right after
      the first `k` chunks (`written` bytes) that were written from `seek`,
      extends the written stream by those bytes. */
  lemma WriteChunkStored(data0: seq<byte>, seek: nat, gen: Generator, n: nat, cs: nat, k: nat,
                         written: nat, at: nat, before: seq<byte>, buf: seq<byte>, stored: nat)
    requires n > 0 && cs > 0 && ChunkSized(gen, cs)
    requires written == ChunkStart(k, cs) && at == seek + written
    requires before == Overwrite(data0, seek, StreamPrefix(gen, n, cs, written))
    requires |buf| <= cs && buf == GlobalChunk(gen, n, k)[..|buf|] && stored <= |buf|
    ensures Overwrite(before, at, buf[..stored]) == Overwrite(data0, seek, StreamPrefix(gen, n, cs, written + stored))
  {
    assert buf[..stored] == GlobalChunk(gen, n, k)[..stored];
    PrefixExtend(gen, n, cs, k, stored);
    OverwriteAppend(data0, seek, StreamPrefix(gen, n, cs, written), buf[..stored]);
  }

  // ---------------------------------------------------------------------
  // The file.

  /** The contents after writing `buf` at position `pos`. Writing nothing
      changes nothing; writing past the end fills the gap with zeros. */
  function Overwrite(data: seq<byte>, pos: nat, buf: seq<byte>): (r: seq<byte>)
    ensures buf == [] ==> r == data
    ensures buf != [] ==> |r| == if pos + |buf| <= |data| then |data| else pos + |buf|
    ensures forall i :: pos <= i < pos + |buf| ==> i < |r| && r[i] == buf[i - pos]
    ensures forall i :: 0 <= i < |r| && (i < pos || pos + |buf| <= i) ==>
              r[i] == if i < |data| then data[i] else 0
  {
    if buf == [] then data
    else
      var head := if pos <= |data| then data[..pos] else data + Zeros(pos - |data|);
      var tail := if pos + |buf| <= |data| then data[pos + |buf|..] else [];
      head + buf + tail
  }

  /** Two writes back to back are one write of both buffers. */
  lemma OverwriteAppend(data: seq<byte>, pos: nat, a: seq<byte>, b: seq<byte>)
    ensures Overwrite(Overwrite(data, pos, a), pos + |a|, b) == Overwrite(data, pos, a + b)
  {
    var lhs := Overwrite(Overwrite(data, pos, a), pos + |a|, b);
    var rhs := Overwrite(data, pos, a + b);
    if a == [] {
      assert a + b == b;
    } else if b == [] {
      assert a + b == a;
    } else {
      assert |lhs| == |rhs|;
      forall i | 0 <= i < |lhs|
        ensures lhs[i] == rhs[i]
      {
        if pos <= i < pos + |a| {
          assert rhs[i] == (a + b)[i - pos];
        } else if pos + |a| <= i < pos + |a| + |b| {
          assert rhs[i] == (a + b)[i - pos];
        }
      }
    }
  }

  /** What a `write_all` call ran into: nothing, a full device (ENOSPC)
      or another error, after `written` bytes had reached the device. */
  datatype WriteFault = NoFault | DeviceFull(written: nat) | WriteFailed(written: nat)

  /** What a `read` call does: return all it was asked for (up to the end
      of the file), return a short count (`n` is clamped to what is
      possible: at least one byte unless at end-of-file, at most what was
      asked for and what is left), or fail. */
  datatype ReadStep = ReadAll | Got(n: nat) | ReadFailed

  datatype IoError = NoSpace | OtherIoError

  /** The outcome of write call `k`; calls without an entry succeed. */
  function FaultAt(faults: map<nat, WriteFault>, k: nat): WriteFault
  {
    if k in faults then faults[k] else NoFault
  }

  /** The behaviour of read call `k`; calls without an entry read all
      they ask for. */
  function ReadAt(steps: map<nat, ReadStep>, k: nat): ReadStep
  {
    if k in steps then steps[k] else ReadAll
  }

  /** Bytes of a `len`-byte write that reach the device under `fault`:
      none of an empty write, all of a successful one. */
  function StoredBytes(len: nat, fault: WriteFault): (s: nat)
    ensures s <= len && (fault.NoFault? ==> s == len)
  {
    match fault
    case NoFault => len
    case DeviceFull(w) => Min(w, len)
    case WriteFailed(w) => Min(w, len)
  }

  /** Bytes left between `pos` and the end of the file. */
  function Available(data: seq<byte>, pos: nat): nat
  {
    if pos <= |data| then |data| - pos else 0
  }

  /** Bytes a read of `requested` bytes returns when `avail` are left. */
  function ReadCount(requested: nat, avail: nat, step: ReadStep): (c: nat)
    ensures c <= requested && c <= avail
    ensures c == 0 <==> requested == 0 || avail == 0
    ensures step.ReadAll? ==> c == Min(requested, avail)
  {
    if requested == 0 || avail == 0 then 0
    else if step.Got? && step.n == 0 then 1
    else if step.Got? then Min(step.n, Min(requested, avail))
    else Min(requested, avail)
  }

  /** An open file: its contents and its cursor. */
  class DiskFile {
    var data: seq<byte>
    var pos: nat

    constructor (data: seq<byte>)
      ensures this.data == data && pos == 0
    {
      this.data := data;
      pos := 0;
    }

    /** `seek(SeekFrom::Start(offset))`. */
    method Seek(offset: nat)
      modifies this
      ensures data == old(data) && pos == offset
    {
      pos := offset;
    }

    /** `write_all(buf)`: an empty buffer succeeds at once; otherwise the
        bytes written before a fault stay written. */
    method WriteAll(buf: seq<byte>, fault: WriteFault) returns (r: Result<(), IoError>)
      modifies this
      ensures var stored := StoredBytes(|buf|, fault);
              && data == Overwrite(old(data), old(pos), buf[..stored])
              && pos == old(pos) + stored
      ensures r == if buf == [] || fault.NoFault? then Ok(())
                   else if fault.DeviceFull? then Err(NoSpace)
                   else Err(OtherIoError)
    {
      if buf == [] {
        assert buf[..0] == [];
        return Ok(());
      }
      var stored := StoredBytes(|buf|, fault);
      data := Overwrite(data, pos, buf[..stored]);
      pos := pos + stored;
      r := match fault
        case NoFault => Ok(())
        case DeviceFull(_) => Err(NoSpace)
        case WriteFailed(_) => Err(OtherIoError);
    }

    /** `read(&mut buf[lo..hi])`: fills `buf[lo..lo + n]` from the cursor
        and returns `n`. */
    method Read(buf: array<byte>, lo: nat, hi: nat, step: ReadStep) returns (r: Result<nat, IoError>)
      requires lo <= hi <= buf.Length
      modifies this, buf
      ensures data == old(data)
      ensures step.ReadFailed? ==> r == Err(OtherIoError) && pos == old(pos) && buf[..] == old(buf[..])
      ensures !step.ReadFailed? ==>
                && r.Ok?
                && r.value == ReadCount(hi - lo, Available(data, old(pos)), step)
                && pos == old(pos) + r.value
                && (forall i :: lo <= i < lo + r.value ==> buf[i] == data[old(pos) + i - lo])
                && (forall i :: 0 <= i < buf.Length && !(lo <= i < lo + r.value) ==> buf[i] == old(buf[i]))
    {
      if step.ReadFailed? {
        return Err(OtherIoError);
      }
      var n := ReadCount(hi - lo, Available(data, pos), step);
      forall i | lo <= i < lo + n {
        buf[i] := data[pos + i - lo];
      }
      pos := pos + n;
      r := Ok(n);
    }
  }

  // ---------------------------------------------------------------------
  // Results of the two passes.

  datatype DiskError = WriteError | ReadError(at: nat) | DataMismatch(at: nat) | AbortedBySignal

  /** `Disktest::new`: a thread count of 0 means one per CPU. */
  function ThreadCount(nrThreads: nat, cpus: nat): (r: nat)
    ensures nrThreads > 0 ==> r == nrThreads
    ensures nrThreads == 0 ==> r == cpus
  {
    if nrThreads == 0 then cpus else nrThreads
  }

  /** How a write pass ends: its result and how many stream bytes reached
      the file (a short chunk may land before ENOSPC or an error). */
  datatype WriteEnd = WriteEnd(result: Result<nat, DiskError>, stored: nat)

  /** What one round of the write loop leads to: the end of the pass, or
      the next round with `left` bytes to go and `written` done. */
  datatype WriteNext = Finish(end: WriteEnd) | Continue(left: nat, written: nat)

  /** One round of the write loop with `left` bytes to go and `written`
      done, chunks of `cs` bytes, write outcome `fault` and abort flag
      `aborted`. ENOSPC ends the pass successfully with the bytes counted
      so far; any other write error fails it; a round that reaches the
      byte limit succeeds; an abort seen after a full round fails it.
      Whatever the outcome, the bytes that reached the device are the
      ones `StoredBytes` says, and only a full chunk lets the loop go on. */
  function WriteOutcome(cs: nat, left: nat, written: nat, fault: WriteFault, aborted: bool): (o: WriteNext)
    requires cs > 0
    ensures var len := Min(cs, left);
            var stored := StoredBytes(len, fault);
            && (o.Finish? ==> o.end.stored == written + stored)
            && (o.Continue? ==> o.written == written + stored && o.written + o.left == written + left)
            && (o.Continue? <==> len > 0 && fault.NoFault? && left > cs && !aborted)
            && (o.Continue? ==> o.written == written + cs && 0 < o.left < left)
            && (o.Finish? && o.end.result.Ok? ==>
                  o.end.result.value == (if len > 0 && fault.DeviceFull? then written else written + len))
            && (o.Finish? && o.end.result.Err? ==>
                  if len > 0 && fault.WriteFailed? then o.end.result.error == WriteError
                  else o.end.result.error == AbortedBySignal && aborted)
    ensures var len := Min(cs, left);
            && (len > 0 && fault.DeviceFull? ==> o.Finish? && o.end.result == Ok(written))
            && (len > 0 && fault.WriteFailed? ==> o.Finish? && o.end.result == Err(WriteError))
            && ((len == 0 || fault.NoFault?) && left <= cs ==> o.Finish? && o.end.result == Ok(written + len))
            && ((len == 0 || fault.NoFault?) && left > cs && aborted ==>
                  o.Finish? && o.end.result == Err(AbortedBySignal))
  {
    var len := Min(cs, left);
    if len > 0 && fault.DeviceFull? then Finish(WriteEnd(Ok(written), written + StoredBytes(len, fault)))
    else if len > 0 && fault.WriteFailed? then Finish(WriteEnd(Err(WriteError), written + StoredBytes(len, fault)))
    else if left - len == 0 then Finish(WriteEnd(Ok(written + len), written + len))
    else if aborted then Finish(WriteEnd(Err(AbortedBySignal), written + len))
    else Continue(left - len, written + len)
  }

  /** The write loop from step `k` on: round `k` writes with outcome
      `FaultAt(faults, k)` and then sees the abort flag `k in abort`. */
  function WriteRun(cs: nat, left: nat, written: nat, k: nat,
                    faults: map<nat, WriteFault>, abort: set<nat>): WriteEnd
    requires cs > 0
    decreases left
  {
    match WriteOutcome(cs, left, written, FaultAt(faults, k), k in abort)
    case Finish(e) => e
    case Continue(l, w) => WriteRun(cs, l, w, k + 1, faults, abort)
  }

  /** One round of the write loop: the run ends with the round's end or
      goes on from the round's counts at the next step. */
  lemma WriteRunNext(cs: nat, left: nat, written: nat, k: nat, faults: map<nat, WriteFault>, abort: set<nat>)
    requires cs > 0
    ensures var o := WriteOutcome(cs, left, written, FaultAt(faults, k), k in abort);
            && (o.Finish? ==> WriteRun(cs, left, written, k, faults, abort) == o.end)
            && (o.Continue? ==> WriteRun(cs, left, written, k, faults, abort) == WriteRun(cs, o.left, o.written, k + 1, faults, abort))
  {
  }

  /** A write pass never counts or stores more than it was asked for, a
      success counts only bytes that were stored, and the only errors are a
      failed write and an abort; ENOSPC is a success. */
  lemma {:induction false} WriteRunBounds(cs: nat, left: nat, written: nat, k: nat,
                                          faults: map<nat, WriteFault>, abort: set<nat>)
    requires cs > 0
    ensures var e := WriteRun(cs, left, written, k, faults, abort);
            && written <= e.stored <= written + left
            && (e.result.Ok? ==> written <= e.result.value <= e.stored)
            && (e.result.Err? ==> e.result.error == WriteError || e.result.error == AbortedBySignal)
    decreases left
  {
    var o := WriteOutcome(cs, left, written, FaultAt(faults, k), k in abort);
    if o.Continue? {
      WriteRunBounds(cs, o.left, o.written, k + 1, faults, abort);
    }
  }

  /** Without faults and aborts a write pass stores and returns exactly
      the number of bytes it was asked for (0 included). */
  lemma {:induction false} WriteRunClean(cs: nat, left: nat, written: nat, k: nat,
                                         faults: map<nat, WriteFault>, abort: set<nat>)
    requires cs > 0
    requires forall j :: j in faults ==> faults[j] == NoFault
    requires abort == {}
    ensures WriteRun(cs, left, written, k, faults, abort) == WriteEnd(Ok(written + left), written + left)
    decreases left
  {
    var o := WriteOutcome(cs, left, written, FaultAt(faults, k), k in abort);
    if o.Continue? {
      WriteRunClean(cs, o.left, o.written, k + 1, faults, abort);
    }
  }

  /** Rounds `j .. k - 1` without a fault or an abort, with more than their
      chunks still to write, each write one full chunk and go on: the pass
      continues at round `k` with those chunks counted. */
  lemma {:induction false} WriteRunSkipsCleanRounds(cs: nat, left: nat, written: nat, j: nat, k: nat,
                                                    faults: map<nat, WriteFault>, abort: set<nat>)
    requires cs > 0 && j <= k && ChunkStart(k - j, cs) < left
    requires forall i :: j <= i < k ==> FaultAt(faults, i).NoFault? && i !in abort
    ensures WriteRun(cs, left, written, j, faults, abort)
            == WriteRun(cs, left - ChunkStart(k - j, cs), written + ChunkStart(k - j, cs), k, faults, abort)
    decreases k - j
  {
    if j < k {
      assert ChunkStart(k - j, cs) == ChunkStart(k - (j + 1), cs) + cs;
      WriteRunSkipsCleanRounds(cs, left - cs, written + cs, j + 1, k, faults, abort);
    }
  }

  /** The first round `k` that meets a fault, an abort or the byte limit
      decides the pass: ENOSPC is a success with the `k` full chunks before
      it, another write error is a failure, an abort with bytes still to go
      is a failure, and reaching the limit cleanly returns all bytes. */
  lemma WriteRunFirstEvent(cs: nat, maxBytes: nat, k: nat, faults: map<nat, WriteFault>, abort: set<nat>)
    requires cs > 0 && ChunkStart(k, cs) < maxBytes
    requires forall i :: 0 <= i < k ==> FaultAt(faults, i).NoFault? && i !in abort
    ensures var e := WriteRun(cs, maxBytes, 0, 0, faults, abort).result;
            && (FaultAt(faults, k).DeviceFull? ==> e == Ok(ChunkStart(k, cs)))
            && (FaultAt(faults, k).WriteFailed? ==> e == Err(WriteError))
            && (FaultAt(faults, k).NoFault? && maxBytes <= ChunkStart(k + 1, cs) ==> e == Ok(maxBytes))
            && (FaultAt(faults, k).NoFault? && ChunkStart(k + 1, cs) < maxBytes && k in abort ==>
                  e == Err(AbortedBySignal))
  {
    WriteRunSkipsCleanRounds(cs, maxBytes, 0, 0, k, faults, abort);
  }

  /** A first-difference search: `FirstDiff(a, b)` is the lowest index at
      which `a` and `b` differ, or their length when they are equal. */
  function FirstDiff(a: seq<byte>, b: seq<byte>): (r: nat)
    requires |a| == |b|
    ensures r <= |a| && a[..r] == b[..r]
    ensures r < |a| ==> a[r] != b[r]
  {
    if a == [] || a[0] != b[0] then 0
    else
      var r := 1 + FirstDiff(a[1..], b[1..]);
      assert a[..r] == [a[0]] + a[1..][..r - 1];
      assert b[..r] == [b[0]] + b[1..][..r - 1];
      r
  }

  /** The comparison of a read buffer with a chunk: the lowest `i` below
      `count` at which the file bytes from `from` differ from `chunk`, or
      `count` when the first `count` bytes all agree. */
  function ChunkDiff(data: seq<byte>, from: nat, chunk: seq<byte>, count: nat): (j: nat)
    requires count <= |chunk| && (count > 0 ==> from + count <= |data|)
    ensures j <= count
    ensures forall i :: 0 <= i < j ==> data[from + i] == chunk[i]
    ensures j < count ==> data[from + j] != chunk[j]
  {
    if count == 0 then 0
    else
      var j := ChunkDiff(data, from, chunk, count - 1);
      if j < count - 1 || data[from + count - 1] != chunk[count - 1] then j else count
  }
  /** `ChunkDiff` is the one position with agreement before it and, below
      `count`, a difference at it. */
  lemma ChunkDiffIs(data: seq<byte>, from: nat, chunk: seq<byte>, count: nat, i: nat)
    requires count <= |chunk| && (count > 0 ==> from + count <= |data|)
    requires i <= count
    requires forall k :: 0 <= k < i ==> data[from + k] == chunk[k]
    requires i < count ==> data[from + i] != chunk[i]
    ensures ChunkDiff(data, from, chunk, count) == i
  {
  }


  /** Bytes a verify pass of at most `m` bytes from `seek` can examine. */
  function VerifyLen(size: nat, seek: nat, m: nat): nat
  {
    if seek >= size then 0 else Min(m, size - seek)
  }

  /** The outcome of a verify pass that no read error and no abort
      interrupts: the number of bytes checked, or the offset (relative to
      `seek`) of the first byte that differs from the stream. */
  function CleanVerify(data: seq<byte>, seek: nat, m: nat, gen: Generator, n: nat, cs: nat): Result<nat, DiskError>
    requires n > 0 && cs > 0 && ChunkSized(gen, cs)
  {
    var len := VerifyLen(|data|, seek, m);
    var found := if seek <= |data| then data[seek..][..len] else [];
    var j := FirstDiff(found, StreamPrefix(gen, n, cs, len));
    if j < len then Err(DataMismatch(j)) else Ok(len)
  }

  /** When every examined byte matches, verify returns how many it
      examined: `min(m, size - seek)`. */
  lemma CleanVerifyMatch(data: seq<byte>, seek: nat, m: nat, gen: Generator, n: nat, cs: nat)
    requires n > 0 && cs > 0 && ChunkSized(gen, cs)
    requires forall j :: 0 <= j < VerifyLen(|data|, seek, m) ==> data[seek + j] == StreamByte(gen, n, cs, j)
    ensures CleanVerify(data, seek, m, gen, n, cs) == Ok(VerifyLen(|data|, seek, m))
  {
    var len := VerifyLen(|data|, seek, m);
    var found := if seek <= |data| then data[seek..][..len] else [];
    assert found == StreamPrefix(gen, n, cs, len);
  }

  /** A verify pass reports the lowest differing offset `j`. */
  lemma CleanVerifyMismatch(data: seq<byte>, seek: nat, m: nat, gen: Generator, n: nat, cs: nat, j: nat)
    requires n > 0 && cs > 0 && ChunkSized(gen, cs)
    requires j < VerifyLen(|data|, seek, m)
    requires forall i :: 0 <= i < j ==> data[seek + i] == StreamByte(gen, n, cs, i)
    requires data[seek + j] != StreamByte(gen, n, cs, j)
    ensures CleanVerify(data, seek, m, gen, n, cs) == Err(DataMismatch(j))
  {
    var len := VerifyLen(|data|, seek, m);
    var found := data[seek..][..len];
    var expected := StreamPrefix(gen, n, cs, len);
    assert found[j] != expected[j];
    assert found[..j] == expected[..j];
  }

  /** A verify pass that stopped at the byte limit or at the end of the
      file, with every byte so far matching, reports the bytes it read. */
  lemma VerifiedAll(data: seq<byte>, seek: nat, m: nat, gen: Generator, n: nat, cs: nat, v: nat)
    requires n > 0 && cs > 0 && ChunkSized(gen, cs)
    requires v == m || (v <= m && seek + v >= |data|)
    requires v > 0 ==> seek + v <= |data|
    requires forall j :: 0 <= j < v ==> data[seek + j] == StreamByte(gen, n, cs, j)
    ensures CleanVerify(data, seek, m, gen, n, cs) == Ok(v)
  {
    CleanVerifyMatch(data, seek, m, gen, n, cs);
  }

  /** A buffer that agrees with chunk `c` extends the verified prefix of
      the stream by the `count` bytes of chunk `c`. */
  lemma ChunkMatches(data: seq<byte>, seek: nat, gen: Generator, n: nat, cs: nat, c: nat, count: nat)
    requires n > 0 && cs > 0 && ChunkSized(gen, cs) && count <= cs
    requires ChunkStart(c, cs) + count > 0 ==> seek + ChunkStart(c, cs) + count <= |data|
    requires forall j :: 0 <= j < ChunkStart(c, cs) ==> data[seek + j] == StreamByte(gen, n, cs, j)
    requires forall i :: 0 <= i < count ==> data[seek + ChunkStart(c, cs) + i] == GlobalChunk(gen, n, c)[i]
    ensures forall j :: 0 <= j < ChunkStart(c, cs) + count ==> data[seek + j] == StreamByte(gen, n, cs, j)
  {
    forall j | ChunkStart(c, cs) <= j < ChunkStart(c, cs) + count
      ensures data[seek + j] == StreamByte(gen, n, cs, j)
    {
      ChunkBytes(gen, n, cs, c, j - ChunkStart(c, cs));
    }
  }

  /** The first byte of chunk `c` that the file does not match, after a
      matching prefix, is what a clean verify pass reports. */
  lemma ChunkMismatch(data: seq<byte>, seek: nat, m: nat, gen: Generator, n: nat, cs: nat, c: nat, i: nat)
    requires n > 0 && cs > 0 && ChunkSized(gen, cs) && i < cs
    requires ChunkStart(c, cs) + i < VerifyLen(|data|, seek, m)
    requires forall j :: 0 <= j < ChunkStart(c, cs) ==> data[seek + j] == StreamByte(gen, n, cs, j)
    requires forall i' :: 0 <= i' < i ==> data[seek + ChunkStart(c, cs) + i'] == GlobalChunk(gen, n, c)[i']
    requires data[seek + ChunkStart(c, cs) + i] != GlobalChunk(gen, n, c)[i]
    ensures CleanVerify(data, seek, m, gen, n, cs) == Err(DataMismatch(ChunkStart(c, cs) + i))
  {
    ChunkMatches(data, seek, gen, n, cs, c, i);
    ChunkBytes(gen, n, cs, c, i);
    CleanVerifyMismatch(data, seek, m, gen, n, cs, ChunkStart(c, cs) + i);
  }

  /** Conversely, every result of a clean verify pass means what it says:
      `Ok(v)` examined `v = min(m, size - seek)` matching bytes, and
      `DataMismatch(j)` names a differing byte with a matching prefix. */
  lemma CleanVerifyMeaning(data: seq<byte>, seek: nat, m: nat, gen: Generator, n: nat, cs: nat)
    requires n > 0 && cs > 0 && ChunkSized(gen, cs)
    ensures var r := CleanVerify(data, seek, m, gen, n, cs);
            r.Ok? ==>
              && r.value == VerifyLen(|data|, seek, m)
              && forall j :: 0 <= j < r.value ==> data[seek + j] == StreamByte(gen, n, cs, j)
    ensures var r := CleanVerify(data, seek, m, gen, n, cs);
            r.Err? ==>
              && r.error.DataMismatch?
              && r.error.at < VerifyLen(|data|, seek, m)
              && data[seek + r.error.at] != StreamByte(gen, n, cs, r.error.at)
              && forall j :: 0 <= j < r.error.at ==> data[seek + j] == StreamByte(gen, n, cs, j)
  {
    var len := VerifyLen(|data|, seek, m);
    var found := if seek <= |data| then data[seek..][..len] else [];
    var expected := StreamPrefix(gen, n, cs, len);
    var r := FirstDiff(found, expected);
    forall j | 0 <= j < r
      ensures data[seek + j] == StreamByte(gen, n, cs, j)
    {
      assert found[..r][j] == expected[..r][j];
    }
    if r < len {
      assert found[r] == data[seek + r];
    }
  }

  /** Round trip: after a clean write of `w` bytes at `seek` over a file
      that ended within them, a verify pass of `m` bytes at `seek` returns
      `min(m, w)`; with the whole range (`m >= w`) that is `w`. A shorter
      pass over a longer file is just as clean. */
  lemma WriteThenVerify(old_data: seq<byte>, seek: nat, w: nat, m: nat, gen: Generator, n: nat, cs: nat)
    requires n > 0 && cs > 0 && ChunkSized(gen, cs)
    requires |old_data| <= seek + w || m <= w
    ensures CleanVerify(Overwrite(old_data, seek, StreamPrefix(gen, n, cs, w)), seek, m, gen, n, cs)
            == Ok(Min(m, w))
  {
    var data := Overwrite(old_data, seek, StreamPrefix(gen, n, cs, w));
    if w == 0 {
      assert VerifyLen(|data|, seek, m) == 0;
    } else {
      assert VerifyLen(|data|, seek, m) == Min(m, w);
    }
    CleanVerifyMatch(data, seek, m, gen, n, cs);
  }

  /** Tamper detection: changing byte `j` of a cleanly written range makes
      a verify pass covering it report exactly offset `j`. */
  lemma TamperDetected(old_data: seq<byte>, seek: nat, w: nat, m: nat, j: nat, x: byte,
                       gen: Generator, n: nat, cs: nat)
    requires n > 0 && cs > 0 && ChunkSized(gen, cs)
    requires j < w && j < m
    requires x != StreamByte(gen, n, cs, j)
    ensures var data := Overwrite(old_data, seek, StreamPrefix(gen, n, cs, w));
            CleanVerify(data[seek + j := x], seek, m, gen, n, cs) == Err(DataMismatch(j))
  {
    var data := Overwrite(old_data, seek, StreamPrefix(gen, n, cs, w));
    CleanVerifyMismatch(data[seek + j := x], seek, m, gen, n, cs, j);
  }

  // ---------------------------------------------------------------------
  // The verify loop, round by round.

  /** The counters of the verify loop between two reads: the global chunk
      to compare next, the bytes checked and still wanted, the bytes waiting
      in the buffer and the bytes the current chunk wants. */
  datatype ScanPoint = ScanPoint(chunk: nat, read: nat, left: nat, count: nat, len: nat)

  /** What one round of the verify loop leads to: the end of the pass with
      its result, or the next round. */
  datatype VerifyNext = Stop(result: Result<nat, DiskError>) | Proceed(next: ScanPoint)

  /** The counters agree with each other: the buffer is short of the
      current chunk (or both are empty at the limit), checked and wanted
      bytes add up to `m`, and anything read lies inside the file. */
  predicate ScanState(data: seq<byte>, seek: nat, m: nat, cs: nat, s: ScanPoint)
  {
    && cs > 0
    && s.len == Min(cs, s.left)
    && (s.count < s.len || s.len == s.count == 0)
    && s.read + s.left == m
    && (s.read + s.count > 0 ==> seek + s.read + s.count <= |data|)
  }

  /** Besides, the next chunk starts at the checked bytes, and every
      checked byte matches the stream. */
  ghost predicate Scanned(data: seq<byte>, seek: nat, m: nat, gen: Generator, n: nat, cs: nat, s: ScanPoint)
  {
    && n > 0 && ChunkSized(gen, cs) && ScanState(data, seek, m, cs, s)
    && ChunkStart(s.chunk, cs) == s.read
    && forall j :: 0 <= j < s.read ==> data[seek + j] == StreamByte(gen, n, cs, j)
  }

  /** The comparison step of a verify round, once the buffer holds
      `s.count + got` bytes and is full or the file ended: compare them with
      the current chunk, stop at the first difference, account for them,
      stop at the byte limit or at end of file (`got == 0`), stop on an
      abort, and otherwise go on with an empty buffer and the next chunk. */
  function CompareRound(data: seq<byte>, seek: nat, m: nat, gen: Generator, n: nat, cs: nat,
                        s: ScanPoint, got: nat, aborted: bool): (o: VerifyNext)
    requires n > 0 && ChunkSized(gen, cs) && ScanState(data, seek, m, cs, s)
    requires s.count + got == s.len || (s.count + got < s.len && got == 0)
    requires s.count + got > 0 ==> seek + s.read + s.count + got <= |data|
    ensures aborted ==> o.Stop?
    ensures o.Stop? && o.result.Err? ==>
              o.result.error.DataMismatch? || (o.result.error == AbortedBySignal && aborted)
    ensures o.Proceed? ==>
              && got > 0 && o.next.chunk == s.chunk + 1 && o.next.read == s.read + cs
              && o.next.read + o.next.count == s.read + s.count + got
              && ScanState(data, seek, m, cs, o.next)
  {
    var count := s.count + got;
    var j := ChunkDiff(data, seek + s.read, GlobalChunk(gen, n, s.chunk), count);
    if j < count then Stop(Err(DataMismatch(s.read + j)))
    else if s.left - count == 0 || got == 0 then Stop(Ok(s.read + count))
    else if aborted then Stop(Err(AbortedBySignal))
    else Proceed(ScanPoint(s.chunk + 1, s.read + count, s.left - count, 0, Min(cs, s.left - count)))
  }

  /** A verify round after its read returned `got` more bytes: the
      comparison when the buffer is full or the file ended; otherwise end of
      file stops the pass, an abort stops it, and the next read goes on
      filling the buffer. */
  function AfterRead(data: seq<byte>, seek: nat, m: nat, gen: Generator, n: nat, cs: nat,
                     s: ScanPoint, got: nat, aborted: bool): (o: VerifyNext)
    requires n > 0 && ChunkSized(gen, cs) && ScanState(data, seek, m, cs, s)
    requires got <= s.len - s.count && got <= Available(data, seek + s.read + s.count)
    ensures aborted ==> o.Stop?
    ensures o.Stop? && o.result.Err? ==>
              o.result.error.DataMismatch? || (o.result.error == AbortedBySignal && aborted)
    ensures o.Proceed? ==>
              && got > 0 && o.next.read + o.next.count == s.read + s.count + got
              && ScanState(data, seek, m, cs, o.next)
              && ((o.next.chunk == s.chunk && o.next.read == s.read)
                  || (o.next.chunk == s.chunk + 1 && o.next.read == s.read + cs))
  {
    var count := s.count + got;
    if count == s.len || (count > 0 && got == 0) then CompareRound(data, seek, m, gen, n, cs, s, got, aborted)
    else if got == 0 then Stop(Ok(s.read))
    else if aborted then Stop(Err(AbortedBySignal))
    else Proceed(ScanPoint(s.chunk, s.read, s.left, count, s.len))
  }

  /** One round of the verify loop from `s`: a read with behaviour `step`
      into the rest of the buffer, then `AfterRead`. A failed read ends the
      pass with a read error at the checked bytes, and an abort ends it
      unless the round already did. */
  function VerifyOutcome(data: seq<byte>, seek: nat, m: nat, gen: Generator, n: nat, cs: nat,
                         s: ScanPoint, step: ReadStep, aborted: bool): (o: VerifyNext)
    requires n > 0 && ChunkSized(gen, cs) && ScanState(data, seek, m, cs, s)
    ensures step.ReadFailed? <==> o == Stop(Err(ReadError(s.read)))
    ensures !step.ReadFailed? && aborted ==> o.Stop?
    ensures o.Stop? && o.result.Err? ==>
              || o.result.error.DataMismatch?
              || (o.result.error.ReadError? && step.ReadFailed?)
              || (o.result.error == AbortedBySignal && aborted)
    ensures o.Proceed? ==>
              && ScanState(data, seek, m, cs, o.next)
              && Available(data, seek + o.next.read + o.next.count) < Available(data, seek + s.read + s.count)
              && ((o.next.chunk == s.chunk && o.next.read == s.read)
                  || (o.next.chunk == s.chunk + 1 && o.next.read == s.read + cs))
  {
    if step.ReadFailed? then Stop(Err(ReadError(s.read)))
    else AfterRead(data, seek, m, gen, n, cs, s,
                   ReadCount(s.len - s.count, Available(data, seek + s.read + s.count), step), aborted)
  }

  /** A verify round whose read returned `got` bytes: the comparison when
      the buffer is full or the file ended, and otherwise end of file, an
      abort, or the next read. */
  lemma VerifyOutcomeRead(data: seq<byte>, seek: nat, m: nat, gen: Generator, n: nat, cs: nat,
                          s: ScanPoint, step: ReadStep, aborted: bool, got: nat)
    requires n > 0 && ChunkSized(gen, cs) && ScanState(data, seek, m, cs, s)
    requires !step.ReadFailed? && got == ReadCount(s.len - s.count, Available(data, seek + s.read + s.count), step)
    ensures s.count + got <= s.len
    ensures s.count + got > 0 ==> seek + s.read + s.count + got <= |data|
    ensures VerifyOutcome(data, seek, m, gen, n, cs, s, step, aborted)
            == if s.count + got == s.len || (s.count + got > 0 && got == 0) then
                 CompareRound(data, seek, m, gen, n, cs, s, got, aborted)
               else if got == 0 then Stop(Ok(s.read))
               else if aborted then Stop(Err(AbortedBySignal))
               else Proceed(ScanPoint(s.chunk, s.read, s.left, s.count + got, s.len))
  {
  }

  /** A successful read of `got` bytes leaves the rest of the round to
      `AfterRead`. */
  lemma VerifyOutcomeAfter(data: seq<byte>, seek: nat, m: nat, gen: Generator, n: nat, cs: nat,
                           s: ScanPoint, step: ReadStep, aborted: bool, got: nat)
    requires n > 0 && ChunkSized(gen, cs) && ScanState(data, seek, m, cs, s)
    requires !step.ReadFailed? && got == ReadCount(s.len - s.count, Available(data, seek + s.read + s.count), step)
    ensures got <= s.len - s.count && got <= Available(data, seek + s.read + s.count)
    ensures VerifyOutcome(data, seek, m, gen, n, cs, s, step, aborted) == AfterRead(data, seek, m, gen, n, cs, s, got, aborted)
  {
  }

  /** A difference at byte `j` of the buffer, the first one against the
      current chunk, is the mismatch a clean verify pass reports. */
  lemma ScanMismatch(data: seq<byte>, seek: nat, m: nat, gen: Generator, n: nat, cs: nat,
                     s: ScanPoint, count: nat, j: nat)
    requires Scanned(data, seek, m, gen, n, cs, s)
    requires j < count <= cs && s.read + count <= m && seek + s.read + count <= |data|
    requires forall i :: 0 <= i < j ==> data[seek + s.read + i] == GlobalChunk(gen, n, s.chunk)[i]
    requires data[seek + s.read + j] != GlobalChunk(gen, n, s.chunk)[j]
    ensures CleanVerify(data, seek, m, gen, n, cs) == Err(DataMismatch(s.read + j))
  {
    ChunkMismatch(data, seek, m, gen, n, cs, s.chunk, j);
  }

  /** The comparison's outcome once the first difference is known. */
  lemma CompareRoundAt(data: seq<byte>, seek: nat, m: nat, gen: Generator, n: nat, cs: nat,
                       s: ScanPoint, got: nat, aborted: bool)
    requires n > 0 && ChunkSized(gen, cs) && ScanState(data, seek, m, cs, s)
    requires s.count + got == s.len || (s.count + got < s.len && got == 0)
    requires s.count + got > 0 ==> seek + s.read + s.count + got <= |data|
    ensures var count := s.count + got;
            var j := ChunkDiff(data, seek + s.read, GlobalChunk(gen, n, s.chunk), count);
            var o := CompareRound(data, seek, m, gen, n, cs, s, got, aborted);
            && (j < count ==> o == Stop(Err(DataMismatch(s.read + j))))
            && (j == count && (s.left == count || got == 0) ==> o == Stop(Ok(s.read + count)))
            && (j == count && s.left != count && got > 0 && !aborted ==>
                  count == cs && o == Proceed(ScanPoint(s.chunk + 1, s.read + cs, s.left - cs, 0, Min(cs, s.left - cs))))
  {
  }

  /** The comparison's outcome when the buffer agrees with the current
      chunk below `i` and, if `i` is below the byte count, differs at `i`. */
  lemma CompareRoundFound(data: seq<byte>, seek: nat, m: nat, gen: Generator, n: nat, cs: nat,
                          s: ScanPoint, got: nat, aborted: bool, i: nat)
    requires n > 0 && ChunkSized(gen, cs) && ScanState(data, seek, m, cs, s)
    requires s.count + got == s.len || (s.count + got < s.len && got == 0)
    requires s.count + got > 0 ==> seek + s.read + s.count + got <= |data|
    requires i <= s.count + got
    requires forall k :: 0 <= k < i ==> data[seek + s.read + k] == GlobalChunk(gen, n, s.chunk)[k]
    requires i < s.count + got ==> data[seek + s.read + i] != GlobalChunk(gen, n, s.chunk)[i]
    ensures var count := s.count + got;
            CompareRound(data, seek, m, gen, n, cs, s, got, aborted)
            == if i < count then Stop(Err(DataMismatch(s.read + i)))
               else if s.left - count == 0 || got == 0 then Stop(Ok(s.read + count))
               else if aborted then Stop(Err(AbortedBySignal))
               else Proceed(ScanPoint(s.chunk + 1, s.read + count, s.left - count, 0, Min(cs, s.left - count)))
  {
    ChunkDiffIs(data, seek + s.read, GlobalChunk(gen, n, s.chunk), s.count + got, i);
    CompareRoundAt(data, seek, m, gen, n, cs, s, got, aborted);
  }

  /** The first difference a comparison finds is the mismatch a clean
      pass reports. */
  lemma CompareRoundMismatch(data: seq<byte>, seek: nat, m: nat, gen: Generator, n: nat, cs: nat,
                             s: ScanPoint, got: nat, aborted: bool)
    requires Scanned(data, seek, m, gen, n, cs, s)
    requires s.count + got == s.len || (s.count + got < s.len && got == 0)
    requires s.count + got > 0 ==> seek + s.read + s.count + got <= |data|
    requires ChunkDiff(data, seek + s.read, GlobalChunk(gen, n, s.chunk), s.count + got) < s.count + got
    ensures CleanVerify(data, seek, m, gen, n, cs)
            == Err(DataMismatch(s.read + ChunkDiff(data, seek + s.read, GlobalChunk(gen, n, s.chunk), s.count + got)))
  {
    var count := s.count + got;
    var j := ChunkDiff(data, seek + s.read, GlobalChunk(gen, n, s.chunk), count);
    assert count <= s.len <= cs && s.read + count <= m;
    ScanMismatch(data, seek, m, gen, n, cs, s, count, j);
  }

  /** A comparison that finds no difference extends the checked prefix by
      the buffer; at the byte limit or at end of file (`got == 0`, which
      happens only there) it ends the pass with the clean count, and
      otherwise, unless aborted, goes on from a state that is again
      `Scanned`. */
  lemma CompareRoundMatch(data: seq<byte>, seek: nat, m: nat, gen: Generator, n: nat, cs: nat,
                          s: ScanPoint, got: nat, aborted: bool)
    requires Scanned(data, seek, m, gen, n, cs, s)
    requires s.count + got == s.len || (s.count + got < s.len && got == 0)
    requires s.count + got > 0 ==> seek + s.read + s.count + got <= |data|
    requires got == 0 ==> seek + s.read + s.count >= |data| || s.left == s.count
    requires ChunkDiff(data, seek + s.read, GlobalChunk(gen, n, s.chunk), s.count + got) == s.count + got
    ensures var o := CompareRound(data, seek, m, gen, n, cs, s, got, aborted);
            && (o.Stop? && o.result.Ok? ==> o.result == CleanVerify(data, seek, m, gen, n, cs))
            && (o.Stop? ==> o.result.Ok? || o.result == Err(AbortedBySignal))
            && (o.Proceed? ==> Scanned(data, seek, m, gen, n, cs, o.next))
  {
    var count := s.count + got;
    var chunk := GlobalChunk(gen, n, s.chunk);
    CompareRoundAt(data, seek, m, gen, n, cs, s, got, aborted);
    assert forall i :: 0 <= i < count ==> data[seek + s.read + i] == chunk[i];
    ChunkMatches(data, seek, gen, n, cs, s.chunk, count);
    if s.left - count == 0 || got == 0 {
      VerifiedAll(data, seek, m, gen, n, cs, s.read + count);
    }
  }

  /** A comparison that ends the pass with a count or a mismatch ends it
      with the clean outcome; one that goes on extends the checked prefix
      by the chunk. */
  lemma CompareRoundMeaning(data: seq<byte>, seek: nat, m: nat, gen: Generator, n: nat, cs: nat,
                            s: ScanPoint, got: nat, aborted: bool)
    requires Scanned(data, seek, m, gen, n, cs, s)
    requires s.count + got == s.len || (s.count + got < s.len && got == 0)
    requires s.count + got > 0 ==> seek + s.read + s.count + got <= |data|
    requires got == 0 ==> seek + s.read + s.count >= |data| || s.left == s.count
    ensures var o := CompareRound(data, seek, m, gen, n, cs, s, got, aborted);
            && (o.Stop? && (o.result.Ok? || o.result.error.DataMismatch?) ==>
                  o.result == CleanVerify(data, seek, m, gen, n, cs))
            && (o.Proceed? ==> Scanned(data, seek, m, gen, n, cs, o.next))
  {
    if ChunkDiff(data, seek + s.read, GlobalChunk(gen, n, s.chunk), s.count + got) < s.count + got {
      CompareRoundAt(data, seek, m, gen, n, cs, s, got, aborted);
      CompareRoundMismatch(data, seek, m, gen, n, cs, s, got, aborted);
    } else {
      CompareRoundMatch(data, seek, m, gen, n, cs, s, got, aborted);
    }
  }

  /** A verify round that ends the pass with a count or a mismatch ends it
      with the clean outcome; one that goes on keeps the checked prefix
      matching the stream. */
  lemma VerifyOutcomeMeaning(data: seq<byte>, seek: nat, m: nat, gen: Generator, n: nat, cs: nat,
                             s: ScanPoint, step: ReadStep, aborted: bool)
    requires Scanned(data, seek, m, gen, n, cs, s)
    ensures var o := VerifyOutcome(data, seek, m, gen, n, cs, s, step, aborted);
            && (o.Stop? && (o.result.Ok? || o.result.error.DataMismatch?) ==>
                  o.result == CleanVerify(data, seek, m, gen, n, cs))
            && (o.Proceed? ==> Scanned(data, seek, m, gen, n, cs, o.next))
  {
    if !step.ReadFailed? {
      var got := ReadCount(s.len - s.count, Available(data, seek + s.read + s.count), step);
      VerifyOutcomeRead(data, seek, m, gen, n, cs, s, step, aborted, got);
      if s.count + got == s.len || (s.count + got > 0 && got == 0) {
        CompareRoundMeaning(data, seek, m, gen, n, cs, s, got, aborted);
      } else if got == 0 {
        VerifiedAll(data, seek, m, gen, n, cs, s.read);
      }
    }
  }

  /** The verify loop from round `k` on: round `k` reads with behaviour
      `ReadAt(readSteps, k)` and then sees the abort flag `k in abort`. */
  function VerifyRun(data: seq<byte>, seek: nat, m: nat, gen: Generator, n: nat, cs: nat,
                     s: ScanPoint, k: nat, readSteps: map<nat, ReadStep>, abort: set<nat>): Result<nat, DiskError>
    requires n > 0 && ChunkSized(gen, cs) && ScanState(data, seek, m, cs, s)
    decreases Available(data, seek + s.read + s.count)
  {
    match VerifyOutcome(data, seek, m, gen, n, cs, s, ReadAt(readSteps, k), k in abort)
    case Stop(r) => r
    case Proceed(t) => VerifyRun(data, seek, m, gen, n, cs, t, k + 1, readSteps, abort)
  }

  /** What a verify pass returns means what it says: a count or a mismatch
      is the clean outcome, a read error comes from a read that failed and
      an abort from an abort flag that was set, at this round or later. */
  lemma {:induction false} VerifyRunMeaning(data: seq<byte>, seek: nat, m: nat, gen: Generator, n: nat, cs: nat,
                                            s: ScanPoint, k: nat, readSteps: map<nat, ReadStep>, abort: set<nat>)
    requires Scanned(data, seek, m, gen, n, cs, s)
    ensures var r := VerifyRun(data, seek, m, gen, n, cs, s, k, readSteps, abort);
            && (r.Ok? || r.error.DataMismatch? ==> r == CleanVerify(data, seek, m, gen, n, cs))
            && (r.Err? && r.error.ReadError? ==> exists j :: k <= j && ReadAt(readSteps, j).ReadFailed?)
            && (r == Err(AbortedBySignal) ==> exists j :: k <= j && j in abort)
            && (r.Err? ==> r.error.DataMismatch? || r.error.ReadError? || r.error == AbortedBySignal)
    decreases Available(data, seek + s.read + s.count)
  {
    var o := VerifyOutcome(data, seek, m, gen, n, cs, s, ReadAt(readSteps, k), k in abort);
    VerifyOutcomeMeaning(data, seek, m, gen, n, cs, s, ReadAt(readSteps, k), k in abort);
    if o.Proceed? {
      VerifyRunMeaning(data, seek, m, gen, n, cs, o.next, k + 1, readSteps, abort);
    }
  }

  /** Without failed reads and aborts a verify pass has the clean outcome. */
  lemma VerifyRunClean(data: seq<byte>, seek: nat, m: nat, gen: Generator, n: nat, cs: nat,
                       s: ScanPoint, k: nat, readSteps: map<nat, ReadStep>, abort: set<nat>)
    requires Scanned(data, seek, m, gen, n, cs, s)
    requires forall j :: j in readSteps ==> !readSteps[j].ReadFailed?
    requires abort == {}
    ensures VerifyRun(data, seek, m, gen, n, cs, s, k, readSteps, abort) == CleanVerify(data, seek, m, gen, n, cs)
  {
    VerifyRunMeaning(data, seek, m, gen, n, cs, s, k, readSteps, abort);
  }

  // ---------------------------------------------------------------------
  // The tester.

  class Disktest {
    const agg: DtStreamAgg
    const file: DiskFile

    ghost predicate Valid()
      reads this, agg, agg.cache
    {
      agg.Valid()
    }

    /** `Disktest::new`: the aggregator gets `nrThreads` streams, or one per
        CPU when `nrThreads` is 0. */
    constructor (gen: Generator, chunkSize: nat, nrThreads: nat, cpus: nat, file: DiskFile)
      requires chunkSize > 0 && ChunkSized(gen, chunkSize)
      requires 0 < ThreadCount(nrThreads, cpus) <= 0x1_0000
      ensures Valid() && fresh(agg) && this.file == file
      ensures agg.numThreads == ThreadCount(nrThreads, cpus)
      ensures agg.gen == gen && agg.chunkSize == chunkSize && !agg.isActive
    {
      var threads := ThreadCount(nrThreads, cpus);
      agg := new DtStreamAgg(gen, chunkSize, threads);
      this.file := file;
    }

    /** One round of the write loop: wait for the next chunk, cut it to the
        bytes still wanted and write it with outcome `fault`. After the first
        `written` bytes of the stream, the file then holds the stream up to
        the stored bytes. */
    method WriteChunk(ghost data0: seq<byte>, seek: nat, ghost written: nat, bytesLeft: nat, fault: WriteFault)
      returns (status: Result<(), IoError>, writeLen: nat)
      requires Writing(data0, seek, agg.position, written)
      modifies file, agg
      ensures Valid() && agg.isActive && agg.position == old(agg.position) + 1
      ensures writeLen == Min(agg.chunkSize, bytesLeft)
      ensures status == if writeLen == 0 || fault.NoFault? then Ok(())
                        else if fault.DeviceFull? then Err(NoSpace)
                        else Err(OtherIoError)
      ensures var stored := StoredBytes(writeLen, fault);
              && file.data == Overwrite(old(file.data), old(file.pos),
                                        GlobalChunk(agg.gen, agg.numThreads, old(agg.position))[..writeLen][..stored])
              && file.pos == old(file.pos) + stored
      ensures var stored := StoredBytes(writeLen, fault);
              && file.data == Overwrite(data0, seek, StreamPrefix(agg.gen, agg.numThreads, agg.chunkSize, written + stored))
              && file.pos == seek + written + stored
    {
      ghost var k, before, at := agg.position, file.data, file.pos;
      var chunk := agg.WaitChunk();
      writeLen := Min(agg.ChunkSize(), bytesLeft);
      status := file.WriteAll(chunk.value.data[..writeLen], fault);
      WriteChunkStored(data0, seek, agg.gen, agg.numThreads, agg.chunkSize, k, written, at, before,
                       chunk.value.data[..writeLen], StoredBytes(writeLen, fault));
    }

    /** The state of the write loop before step `k`: the aggregator is at
        chunk `k`, the first `k` chunks are counted as written and the file
        holds them after `seek`, with its cursor right behind them. */
    ghost predicate Writing(data0: seq<byte>, seek: nat, k: nat, written: nat)
      reads this, agg, agg.cache, file
    {
      && Valid() && agg.isActive && agg.position == k
      && written == ChunkStart(k, agg.chunkSize)
      && file.data == Overwrite(data0, seek, StreamPrefix(agg.gen, agg.numThreads, agg.chunkSize, written))
      && file.pos == seek + written
    }

    /** One pass through the body of the write loop at step `k`: write
        chunk `k` with outcome `fault`, account for it and look at the
        abort flag (`aborted`). The loop ends (`done`) or goes on exactly as
        `WriteOutcome` says, and the stored bytes extend the stream image
        in the file. */
    method WriteStep(ghost data0: seq<byte>, seek: nat, k: nat, bytesWritten: nat, bytesLeft: nat,
                     fault: WriteFault, aborted: bool)
      returns (done: bool, r: Result<nat, DiskError>, written: nat, left: nat)
      requires Writing(data0, seek, k, bytesWritten)
      modifies file, agg
      ensures Valid() && agg.isActive && agg.position == k + 1
      ensures var o := WriteOutcome(agg.chunkSize, bytesLeft, bytesWritten, fault, aborted);
              && done == o.Finish?
              && (done ==> r == o.end.result)
              && (!done ==> written == o.written && left == o.left)
      ensures var stored := StoredBytes(Min(agg.chunkSize, bytesLeft), fault);
              && file.data == Overwrite(data0, seek, StreamPrefix(agg.gen, agg.numThreads, agg.chunkSize, bytesWritten + stored))
              && file.pos == seek + bytesWritten + stored
      ensures !done ==> Writing(data0, seek, k + 1, written)
    {
      var status, writeLen := WriteChunk(data0, seek, bytesWritten, bytesLeft, fault);
      written, left := bytesWritten, bytesLeft;
      match status
      case Err(NoSpace) =>
        // End of device: a success with the bytes counted so far.
        return true, Ok(bytesWritten), written, left;
      case Err(OtherIoError) =>
        return true, Err(WriteError), written, left;
      case Ok(_) =>
        written := bytesWritten + writeLen;
        left := bytesLeft - writeLen;
        if left == 0 {
          return true, Ok(written), written, left;
        }
        if aborted {
          return true, Err(AbortedBySignal), written, left;
        }
        done, r := false, Ok(written);
    }

    /** `write(seek, max_bytes)`: restart the stream at chunk 0, seek to
        `seek` and write successive chunks, the last one cut to the bytes
        still wanted. Step `k` writes with outcome `FaultAt(faults, k)` and then
        reads the abort flag `k in abort`. */
    method Write(seek: nat, maxBytes: nat, faults: map<nat, WriteFault>, abort: set<nat>)
      returns (r: Result<nat, DiskError>)
      requires Valid()
      modifies file, agg
      ensures Valid()
      ensures var e := WriteRun(agg.chunkSize, maxBytes, 0, 0, faults, abort);
              && r == e.result
              && file.data == Overwrite(old(file.data), seek, StreamPrefix(agg.gen, agg.numThreads, agg.chunkSize, e.stored))
              && file.pos == seek + e.stored
    {
      ghost var data0 := file.data;
      ghost var run := WriteRun(agg.chunkSize, maxBytes, 0, 0, faults, abort);
      var bytesLeft := maxBytes;
      var bytesWritten := 0;
      var k := 0;

      var _ := agg.Activate(0);
      file.Seek(seek);

      while true
        invariant Writing(data0, seek, k, bytesWritten)
        invariant WriteRun(agg.chunkSize, bytesLeft, bytesWritten, k, faults, abort) == run
        decreases bytesLeft
      {
        WriteRunNext(agg.chunkSize, bytesLeft, bytesWritten, k, faults, abort);
        var done;
        done, r, bytesWritten, bytesLeft :=
          WriteStep(data0, seek, k, bytesWritten, bytesLeft, FaultAt(faults, k), k in abort);
        if done {
          return;
        }
        k := k + 1;
      }
    }

    /** The state of the verify loop between two reads: the aggregator is
        at chunk `s.chunk`, the file cursor after the `s.read` checked and
        the `s.count` buffered bytes, the checked bytes match the stream
        (`Scanned`) and the buffer holds the bytes read since. */
    ghost predicate Scanning(data: seq<byte>, seek: nat, maxBytes: nat, buffer: array<byte>, s: ScanPoint)
      reads this, agg, agg.cache, file, buffer
    {
      && Valid() && agg.isActive && agg.position == s.chunk
      && file.data == data && buffer.Length == agg.chunkSize
      && file.pos == seek + s.read + s.count
      && Scanned(data, seek, maxBytes, agg.gen, agg.numThreads, agg.chunkSize, s)
      && (forall i :: 0 <= i < s.count ==> buffer[i] == data[seek + s.read + i])
    }

    /** `Scanning`, from its parts. */
    lemma ScanningAt(data: seq<byte>, seek: nat, maxBytes: nat, buffer: array<byte>, t: ScanPoint)
      requires Valid() && agg.isActive && agg.position == t.chunk
      requires file.data == data && buffer.Length == agg.chunkSize && file.pos == seek + t.read + t.count
      requires Scanned(data, seek, maxBytes, agg.gen, agg.numThreads, agg.chunkSize, t)
      requires forall i :: 0 <= i < t.count ==> buffer[i] == data[seek + t.read + i]
      ensures Scanning(data, seek, maxBytes, buffer, t)
    {
    }

    /** The comparison step of a verify round, after a read returned `got`
        bytes and the buffer of `readCount + got` bytes is full or the file
        ended: wait for the next chunk, compare the buffer with it byte by
        byte and report the first difference, account for the bytes, and
        stop at the byte limit, at end of file or on an abort, exactly as
        `CompareRound` says. */
    method CompareStep(ghost data: seq<byte>, seek: nat, maxBytes: nat, buffer: array<byte>, ghost s: ScanPoint,
                       bytesRead: nat, bytesLeft: nat, readCount: nat, readLen: nat, got: nat, aborted: bool)
      returns (done: bool, r: Result<nat, DiskError>, read: nat, left: nat, count: nat, len: nat)
      requires Valid() && agg.isActive && buffer.Length == agg.chunkSize
      requires s == ScanPoint(agg.position, bytesRead, bytesLeft, readCount, readLen)
      requires ScanState(data, seek, maxBytes, agg.chunkSize, s)
      requires readCount + got == readLen || (readCount + got < readLen && got == 0)
      requires readCount + got > 0 ==> seek + bytesRead + readCount + got <= |data|
      requires forall i :: 0 <= i < readCount + got ==> buffer[i] == data[seek + bytesRead + i]
      modifies agg
      ensures Valid() && agg.isActive && agg.position == s.chunk + 1
      ensures var o := CompareRound(data, seek, maxBytes, agg.gen, agg.numThreads, agg.chunkSize, s, got, aborted);
              && done == o.Stop?
              && (done ==> r == o.result)
              && (!done ==> o.next == ScanPoint(agg.position, read, left, count, len))
      ensures !done ==> count == 0 && read == bytesRead + readCount + got
    {
      ghost var from := seek + bytesRead;
      read, left, count, len := bytesRead, bytesLeft, readCount + got, readLen;
      var chunk := agg.WaitChunk();
      var expected := chunk.value.data;
      for i := 0 to count
        invariant forall k :: 0 <= k < i ==> data[from + k] == expected[k]
      {
        if buffer[i] != expected[i] {
          CompareRoundFound(data, seek, maxBytes, agg.gen, agg.numThreads, agg.chunkSize, s, got, aborted, i);
          return true, Err(DataMismatch(read + i)), read, left, count, len;
        }
      }
      CompareRoundFound(data, seek, maxBytes, agg.gen, agg.numThreads, agg.chunkSize, s, got, aborted, count);
      read := read + count;
      left := left - count;
      if left == 0 || got == 0 {
        // The byte limit or the end of the file.
        return true, Ok(read), read, left, count, len;
      }
      if aborted {
        return true, Err(AbortedBySignal), read, left, count, len;
      }
      count := 0;
      len := Min(buffer.Length, left);
      done, r := false, Ok(read);
    }

    /** The rest of a verify round once its read returned `got` more
        bytes: the comparison when the buffer is full or the file ended,
        otherwise the end-of-file check and the look at the abort flag,
        exactly as `AfterRead` says. */
    method AfterReadStep(ghost data: seq<byte>, seek: nat, maxBytes: nat, buffer: array<byte>, ghost s: ScanPoint,
                         bytesRead: nat, bytesLeft: nat, readCount: nat, readLen: nat, got: nat, aborted: bool)
      returns (done: bool, r: Result<nat, DiskError>, read: nat, left: nat, count: nat, len: nat)
      requires Valid() && agg.isActive && buffer.Length == agg.chunkSize
      requires s == ScanPoint(agg.position, bytesRead, bytesLeft, readCount, readLen)
      requires ScanState(data, seek, maxBytes, agg.chunkSize, s)
      requires got <= readLen - readCount && got <= Available(data, seek + bytesRead + readCount)
      requires forall i :: 0 <= i < readCount + got ==> buffer[i] == data[seek + bytesRead + i]
      modifies agg
      ensures Valid() && agg.isActive
      ensures var o := AfterRead(data, seek, maxBytes, agg.gen, agg.numThreads, agg.chunkSize, s, got, aborted);
              && done == o.Stop?
              && (done ==> r == o.result)
              && (!done ==> o.next == ScanPoint(agg.position, read, left, count, len))
      ensures !done ==> forall i :: 0 <= i < count ==> buffer[i] == data[seek + read + i]
    {
      if readCount + got == readLen || (readCount + got > 0 && got == 0) {
        done, r, read, left, count, len :=
          CompareStep(data, seek, maxBytes, buffer, s, bytesRead, bytesLeft, readCount, readLen, got, aborted);
      } else {
        read, left, count, len := bytesRead, bytesLeft, readCount + got, readLen;
        if got == 0 {
          // End of the file.
          done, r := true, Ok(read);
        } else if aborted {
          done, r := true, Err(AbortedBySignal);
        } else {
          done, r := false, Ok(read);
        }
      }
    }

    /** The read of a verify round: up to `len - count` bytes into the
        buffer after the `count` bytes it already holds. */
    method ReadRound(ghost data: seq<byte>, seek: nat, maxBytes: nat, buffer: array<byte>, ghost s: ScanPoint,
                     count: nat, len: nat, step: ReadStep)
      returns (res: Result<nat, IoError>)
      requires Scanning(data, seek, maxBytes, buffer, s) && count == s.count && len == s.len
      modifies file, buffer
      ensures Valid() && agg.isActive && agg.position == s.chunk && file.data == data
      ensures step.ReadFailed? ==> res.Err?
      ensures !step.ReadFailed? ==>
                && res.Ok?
                && res.value == ReadCount(s.len - s.count, Available(data, seek + s.read + s.count), step)
                && file.pos == seek + s.read + s.count + res.value
                && (forall i :: 0 <= i < s.count + res.value ==> buffer[i] == data[seek + s.read + i])
    {
      res := file.Read(buffer, count, len, step);
    }

    /** One pass through the body of the verify loop: a read with
        behaviour `step` into the rest of the buffer, the comparison when
        the buffer is full or the file ended, and the look at the abort
        flag (`aborted`). The loop ends (`done`) or goes on exactly as
        `VerifyOutcome` says: a failed read ends it with a read error at
        the checked bytes, an abort ends it, and a count or a mismatch is
        the clean outcome. */
    method VerifyStep(ghost data: seq<byte>, seek: nat, maxBytes: nat, buffer: array<byte>, ghost s: ScanPoint,
                      bytesRead: nat, bytesLeft: nat, readCount: nat, readLen: nat,
                      step: ReadStep, aborted: bool)
      returns (done: bool, r: Result<nat, DiskError>, read: nat, left: nat, count: nat, len: nat)
      requires s == ScanPoint(agg.position, bytesRead, bytesLeft, readCount, readLen)
      requires Scanning(data, seek, maxBytes, buffer, s)
      modifies file, agg, buffer
      ensures Valid() && file.data == data
      ensures step.ReadFailed? ==> done && r == Err(ReadError(bytesRead))
      ensures !step.ReadFailed? && aborted ==> done
      ensures var o := VerifyOutcome(data, seek, maxBytes, agg.gen, agg.numThreads, agg.chunkSize, s, step, aborted);
              && done == o.Stop?
              && (done ==> r == o.result)
              && (!done ==> o.next == ScanPoint(agg.position, read, left, count, len))
      ensures done && (r.Ok? || r.error.DataMismatch?) ==>
                r == CleanVerify(data, seek, maxBytes, agg.gen, agg.numThreads, agg.chunkSize)
      ensures done && r.Err? ==>
                || r.error.DataMismatch?
                || (r.error.ReadError? && step.ReadFailed?)
                || (r.error == AbortedBySignal && aborted)
      ensures !done ==>
                && Scanning(data, seek, maxBytes, buffer, ScanPoint(agg.position, read, left, count, len))
                && Available(data, file.pos) < Available(data, old(file.pos))
    {
      ghost var o := VerifyOutcome(data, seek, maxBytes, agg.gen, agg.numThreads, agg.chunkSize, s, step, aborted);
      VerifyOutcomeMeaning(data, seek, maxBytes, agg.gen, agg.numThreads, agg.chunkSize, s, step, aborted);
      read, left, count, len := bytesRead, bytesLeft, readCount, readLen;
      var res := ReadRound(data, seek, maxBytes, buffer, s, count, len, step);
      if res.Err? {
        return true, Err(ReadError(read)), read, left, count, len;
      }
      var got := res.value;
      VerifyOutcomeAfter(data, seek, maxBytes, agg.gen, agg.numThreads, agg.chunkSize, s, step, aborted, got);
      done, r, read, left, count, len :=
        AfterReadStep(data, seek, maxBytes, buffer, s, read, left, count, len, got, aborted);
      if !done {
        ghost var t := ScanPoint(agg.position, read, left, count, len);
        assert o.next == t;
        ScanningAt(data, seek, maxBytes, buffer, t);
      }
    }

    /** `verify(seek, max_bytes)`: restart the stream at chunk 0, seek to
        `seek`, gather reads into a chunk-sized buffer and compare each full
        buffer (or the partial one at end-of-file) with the next chunk.
        Read call `k` behaves as `ReadAt(readSteps, k)` and is followed by a
        look at the abort flag `k in abort`. The result is the one
        `VerifyRun` gives. */
    method Verify(seek: nat, maxBytes: nat, readSteps: map<nat, ReadStep>, abort: set<nat>)
      returns (r: Result<nat, DiskError>)
      requires Valid()
      modifies file, agg
      ensures Valid() && file.data == old(file.data)
      ensures r == VerifyRun(file.data, seek, maxBytes, agg.gen, agg.numThreads, agg.chunkSize,
                             ScanPoint(0, 0, maxBytes, 0, Min(agg.chunkSize, maxBytes)), 0, readSteps, abort)
      ensures r.Ok? || r.error.DataMismatch? ==>
                r == CleanVerify(file.data, seek, maxBytes, agg.gen, agg.numThreads, agg.chunkSize)
      ensures r.Err? ==> r.error.DataMismatch? || r.error.ReadError? || r.error == AbortedBySignal
      ensures r.Err? && r.error.ReadError? ==> exists k :: ReadAt(readSteps, k).ReadFailed?
      ensures r == Err(AbortedBySignal) ==> abort != {}
      ensures (forall k :: k in readSteps ==> !readSteps[k].ReadFailed?) && abort == {} ==>
                r == CleanVerify(file.data, seek, maxBytes, agg.gen, agg.numThreads, agg.chunkSize)
    {
      ghost var data := file.data;
      var readbufLen := agg.ChunkSize();
      var buffer := new byte[readbufLen];
      var _ := agg.Activate(0);
      file.Seek(seek);
      var readLen := Min(readbufLen, maxBytes);
      r := VerifyLoop(data, seek, maxBytes, buffer, readLen, readSteps, abort);
      VerifyRunMeaning(data, seek, maxBytes, agg.gen, agg.numThreads, agg.chunkSize,
                       ScanPoint(0, 0, maxBytes, 0, readLen), 0, readSteps, abort);
    }

    /** The loop of `verify`, from the first read on: its result is the
        one `VerifyRun` gives from the start of the stream. */
    method VerifyLoop(ghost data: seq<byte>, seek: nat, maxBytes: nat, buffer: array<byte>, readLen: nat,
                      readSteps: map<nat, ReadStep>, abort: set<nat>)
      returns (r: Result<nat, DiskError>)
      requires Scanning(data, seek, maxBytes, buffer, ScanPoint(0, 0, maxBytes, 0, readLen))
      modifies file, agg, buffer
      ensures Valid() && file.data == data
      ensures r == VerifyRun(data, seek, maxBytes, agg.gen, agg.numThreads, agg.chunkSize,
                             ScanPoint(0, 0, maxBytes, 0, readLen), 0, readSteps, abort)
    {
      ghost var run := VerifyRun(data, seek, maxBytes, agg.gen, agg.numThreads, agg.chunkSize,
                                 ScanPoint(0, 0, maxBytes, 0, readLen), 0, readSteps, abort);
      var bytesLeft := maxBytes;
      var bytesRead := 0;
      var readCount := 0;
      var len := readLen;
      var k := 0;
      while true
        invariant Scanning(data, seek, maxBytes, buffer, ScanPoint(agg.position, bytesRead, bytesLeft, readCount, len))
        invariant VerifyRun(data, seek, maxBytes, agg.gen, agg.numThreads, agg.chunkSize,
                            ScanPoint(agg.position, bytesRead, bytesLeft, readCount, len), k, readSteps, abort) == run
        decreases Available(data, file.pos)
      {
        var done;
        done, r, bytesRead, bytesLeft, readCount, len :=
          VerifyStep(data, seek, maxBytes, buffer, ScanPoint(agg.position, bytesRead, bytesLeft, readCount, len),
                     bytesRead, bytesLeft, readCount, len, ReadAt(readSteps, k), k in abort);
        if done {
          return;
        }
        k := k + 1;
      }
    }
  }
}
