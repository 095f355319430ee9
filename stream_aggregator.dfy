/** The round-robin stream aggregator. `N` generator streams (one per worker
    thread) are interleaved at chunk granularity: global chunk `g` is chunk
    `g / N` of stream `g % N`. The generator threads themselves are replaced
    by a deterministic chunk source `gen(thread, local_chunk)`. */
module StreamAggregator {
  import opened Bytes
  import opened BufferCache

  /** `gen(t, k)` is the `k`-th chunk that the generator of thread `t`
      produces (its seed is derived from the session seed and `t`). */
  type Generator = (nat, nat) -> seq<byte>

  /** Every chunk of every thread is exactly `cs` bytes long. */
  ghost predicate ChunkSized(gen: Generator, cs: nat)
  {
    forall t, k :: |gen(t, k)| == cs
  }

  /** Where a global chunk comes from: local chunk `local` of the stream
      of thread `thread`. */
  datatype Place = Place(thread: nat, local: nat)

  /** The place of global chunk `g`, counted round by round: the first `n`
      global chunks are the first chunks of threads `0 .. n - 1`, and so
      on. `PlaceIsDivMod` gives the closed form `(g % n, g / n)`. */
  function PlaceOf(n: nat, g: nat): (p: Place)
    requires n > 0
    ensures p.thread < n
    decreases g
  {
    if g < n then Place(g, 0)
    else
      var p := PlaceOf(n, g - n);
      Place(p.thread, p.local + 1)
  }

  /** Global chunk `g` of the interleaved sequence. */
  function GlobalChunk(gen: Generator, n: nat, g: nat): seq<byte>
    requires n > 0
  {
    var p := PlaceOf(n, g);
    gen(p.thread, p.local)
  }

  // ---------------------------------------------------------------------
  // Integer facts about the interleaving.

  lemma MulLe(a: nat, b: nat, n: nat)
    ensures a <= b ==> a * n <= b * n
  {
  }

  /** Quotient and remainder are unique. */
  lemma DivModUnique(a: nat, n: nat, q: nat, r: nat)
    requires n > 0 && r < n && a == q * n + r
    ensures a / n == q && a % n == r
  {
    var q', r' := a / n, a % n;
    assert a == q' * n + r';
    MulLe(q' + 1, q, n);
    MulLe(q + 1, q', n);
  }

  /** Stream `i` serves its local chunk `m` as global chunk `m * n + i`. */
  lemma ServedAs(m: nat, n: nat, i: nat)
    requires i < n
    ensures (m * n + i) / n == m && (m * n + i) % n == i
  {
    DivModUnique(m * n + i, n, m, i);
  }

  /** Global chunk `g` is chunk `g / n` of thread `g % n`. */
  lemma {:induction false} PlaceIsDivMod(n: nat, g: nat)
    requires n > 0
    ensures PlaceOf(n, g) == Place(g % n, g / n)
    decreases g
  {
    if g < n {
      DivModUnique(g, n, 0, g);
    } else {
      PlaceIsDivMod(n, g - n);
      var q, r := (g - n) / n, (g - n) % n;
      assert g - n == q * n + r;
      assert g == (q + 1) * n + r;
      DivModUnique(g, n, q + 1, r);
    }
  }

  /** Each place serves exactly one global chunk and each global chunk has
      exactly one place: the interleaving is a partition. */
  lemma {:induction false} ServedOnce(n: nat, g1: nat, g2: nat)
    requires n > 0
    ensures PlaceOf(n, g1) == PlaceOf(n, g2) <==> g1 == g2
    decreases g1
  {
    if g1 >= n && g2 >= n {
      ServedOnce(n, g1 - n, g2 - n);
    }
  }

  /** Local chunk `m` of thread `i` is global chunk `m * n + i`. */
  lemma PlaceOfServed(n: nat, m: nat, i: nat)
    requires i < n
    ensures PlaceOf(n, m * n + i) == Place(i, m)
  {
    PlaceIsDivMod(n, m * n + i);
    ServedAs(m, n, i);
  }

  /** The cursor step `(c + 1) % n` wraps to 0 after the last stream. */
  lemma ModSucc(c: nat, n: nat)
    requires c < n
    ensures (c + 1) % n == if c + 1 < n then c + 1 else 0
  {
    if c + 1 < n {
      DivModUnique(c + 1, n, 0, c + 1);
    } else {
      DivModUnique(c + 1, n, 1, 0);
    }
  }

  /** The next global chunk comes from the next thread in the same round,
      or from thread 0 in the next round. */
  lemma PlaceSucc(n: nat, g: nat)
    requires n > 0
    ensures var p := PlaceOf(n, g);
            PlaceOf(n, g + 1) == if p.thread + 1 < n then Place(p.thread + 1, p.local)
                                 else Place(0, p.local + 1)
  {
    PlaceIsDivMod(n, g);
    var q, c := g / n, g % n;
    assert g == q * n + c;
    if c + 1 < n {
      PlaceOfServed(n, q, c + 1);
    } else {
      assert g + 1 == (q + 1) * n + 0;
      PlaceOfServed(n, q + 1, 0);
    }
  }

  /** Rounds `offset` down to a multiple of the chunk size `cs`. */
  function AlignDown(offset: nat, cs: nat): (r: nat)
    requires cs > 0
    ensures r % cs == 0 && r <= offset < r + cs
    ensures offset % cs == 0 ==> r == offset
  {
    ServedAs(offset / cs, cs, 0);
    if offset % cs != 0 then offset - offset % cs else offset
  }

  /** `AlignDown` is the largest multiple of `cs` not above `offset`. */
  lemma AlignDownIsLargest(offset: nat, cs: nat, m: nat)
    requires cs > 0 && m % cs == 0 && m <= offset
    ensures m <= AlignDown(offset, cs)
  {
    var r := AlignDown(offset, cs);
    var a, b := m / cs, r / cs;
    assert m == a * cs && r == b * cs;
    MulLe(b + 1, a, cs);
  }

  /** The local chunk index at which stream `i` starts when the aggregate
      resumes at global chunk `g`: the thread offset computed by `activate`,
      divided by the chunk size. */
  function FirstLocal(g: nat, n: nat, i: nat): nat
    requires n > 0
  {
    var p := PlaceOf(n, g);
    if i < p.thread then p.local + 1 else p.local
  }

  /** Stream `i` reaches local chunk `m` exactly when global chunk
      `m * n + i` lies at or after the resume point `g`: its start is the
      smallest global index at or after `g` that is congruent to `i`. */
  lemma ServedFrom(g: nat, n: nat, i: nat, m: nat)
    requires i < n
    ensures m * n + i >= g <==> m >= FirstLocal(g, n, i)
  {
    PlaceIsDivMod(n, g);
    var q, r := g / n, g % n;
    assert g == q * n + r;
    MulLe(q + 1, m, n);
    MulLe(m + 1, q, n);
  }

  /** Stream `i`'s first chunk after resuming at `g` is global chunk
      `FirstLocal(g, n, i) * n + i`, the first one at or after `g` that it
      owns. */
  lemma FirstLocalIsFirstServed(g: nat, n: nat, i: nat)
    requires i < n
    ensures var m := FirstLocal(g, n, i);
            && m * n + i >= g
            && PlaceOf(n, m * n + i) == Place(i, m)
            && (m == 0 || (m - 1) * n + i < g)
  {
    var m := FirstLocal(g, n, i);
    ServedFrom(g, n, i, m);
    PlaceOfServed(n, m, i);
    if m > 0 {
      ServedFrom(g, n, i, m - 1);
    }
  }

  /** The byte offset `activate` hands stream `i` when resuming at global
      chunk `chunkIndex`: the start of its next round, or of the current
      round for the streams at or after the cursor. It is a chunk boundary
      and, divided by the chunk size, is `FirstLocal`. */
  function ThreadOffset(chunkIndex: nat, n: nat, i: nat, cs: nat): (r: nat)
    requires n > 0 && cs > 0
    ensures r % cs == 0 && r / cs == FirstLocal(chunkIndex, n, i)
  {
    PlaceIsDivMod(n, chunkIndex);
    var iteration := chunkIndex / n;
    ServedAs(iteration + 1, cs, 0);
    ServedAs(iteration, cs, 0);
    if i < chunkIndex % n then (iteration + 1) * cs else iteration * cs
  }

  // ---------------------------------------------------------------------
  // Streams and the aggregate state as values.

  /** One generator stream: its thread id, whether its worker thread runs,
      and the local index of the next chunk that thread will deliver. */
  datatype DtStream = DtStream(threadId: u32, active: bool, next: nat)
  {
    /** `DtStream::activate(byte_offset)`: restart the worker thread with
        its generator seeked to `byteOffset`. */
    function Activate(byteOffset: nat, cs: nat): DtStream
      requires cs > 0
    {
      DtStream(threadId, true, byteOffset / cs)
    }
  }

  /** What polling the current stream yields: a chunk, nothing yet, or the
      error its worker thread reported. */
  datatype Poll = Ready | Pending | ThreadFailed

  /** The streams right after construction, before any `activate`. */
  function IdleStreams(n: nat): (ss: seq<DtStream>)
    requires n <= 0x1_0000
    ensures |ss| == n
  {
    seq(n, i requires 0 <= i < n => DtStream(i as u32, false, 0))
  }

  /** The streams when the next chunk to deliver is global chunk `g`. */
  function StreamsAt(n: nat, g: nat): (ss: seq<DtStream>)
    requires 0 < n <= 0x1_0000
    ensures |ss| == n
  {
    seq(n, i requires 0 <= i < n => DtStream(i as u32, true, FirstLocal(g, n, i)))
  }

  /** The part of the aggregator that rotates: the streams and the cursor. */
  datatype AggView = AggView(streams: seq<DtStream>, current: nat)

  function ViewAt(n: nat, g: nat): AggView
    requires 0 < n <= 0x1_0000
  {
    AggView(StreamsAt(n, g), PlaceOf(n, g).thread)
  }

  /** One delivered chunk: the current stream moves on to its next local
      chunk and the cursor moves to the next stream. */
  function Step(v: AggView, n: nat): AggView
    requires v.current < |v.streams| && n > 0
  {
    var s := v.streams[v.current];
    AggView(v.streams[v.current := s.(next := s.next + 1)], (v.current + 1) % n)
  }

  /** `k` delivered chunks. */
  function Steps(v: AggView, n: nat, k: nat): AggView
    requires 0 < n <= 0x1_0000 && |v.streams| == n && v.current < n
    decreases k
  {
    if k == 0 then v
    else
      var w := Step(v, n);
      assert |w.streams| == n && w.current < n;
      Steps(w, n, k - 1)
  }

  /** Moving the resume point one chunk on advances only the stream that
      owns the chunk at the old point, and moves the cursor to the next
      stream. */
  lemma FirstLocalSucc(g: nat, n: nat, j: nat)
    requires j < n
    ensures PlaceOf(n, g + 1).thread == (PlaceOf(n, g).thread + 1) % n
    ensures FirstLocal(g + 1, n, j) ==
              if j == PlaceOf(n, g).thread then FirstLocal(g, n, j) + 1 else FirstLocal(g, n, j)
  {
    PlaceSucc(n, g);
    ModSucc(PlaceOf(n, g).thread, n);
  }

  /** Delivering one chunk from the state at global chunk `g` gives the
      state at `g + 1`. */
  lemma StepViewAt(n: nat, g: nat)
    requires 0 < n <= 0x1_0000
    ensures Step(ViewAt(n, g), n) == ViewAt(n, g + 1)
  {
    var lhs, rhs := Step(ViewAt(n, g), n), ViewAt(n, g + 1);
    FirstLocalSucc(g, n, 0);
    forall j | 0 <= j < n
      ensures lhs.streams[j] == rhs.streams[j]
    {
      FirstLocalSucc(g, n, j);
    }
    assert lhs.streams == rhs.streams;
  }

  /** Resuming at global chunk `g` and then delivering `k` chunks leaves the
      aggregator exactly as resuming at `g + k`. */
  lemma {:induction false} StepsViewAt(n: nat, g: nat, k: nat)
    requires 0 < n <= 0x1_0000
    ensures Steps(ViewAt(n, g), n, k) == ViewAt(n, g + k)
    decreases k
  {
    if k > 0 {
      StepViewAt(n, g);
      StepsViewAt(n, g + 1, k - 1);
    }
  }

  /** The chunks delivered, in order, by `k` steps from view `v`. */
  function Delivered(gen: Generator, v: AggView, n: nat, k: nat): (cs: seq<seq<byte>>)
    requires 0 < n <= 0x1_0000 && |v.streams| == n && v.current < n
    ensures |cs| == k
    decreases k
  {
    if k == 0 then []
    else
      var s := v.streams[v.current];
      var w := Step(v, n);
      assert |w.streams| == n && w.current < n;
      [gen(s.threadId as nat, s.next)] + Delivered(gen, w, n, k - 1)
  }

  /** Partition: after resuming at global chunk `g`, the `j`-th delivered
      chunk is global chunk `g + j`, i.e. chunk `(g + j) / n` of stream
      `(g + j) % n` (`PlaceIsDivMod`). Every global chunk from `g` on is delivered once, in
      order, by the stream that owns it. */
  lemma {:induction false} DeliveredInOrder(gen: Generator, n: nat, g: nat, k: nat)
    requires 0 < n <= 0x1_0000
    ensures forall j :: 0 <= j < k ==> Delivered(gen, ViewAt(n, g), n, k)[j] == GlobalChunk(gen, n, g + j)
    decreases k
  {
    if k > 0 {
      StepViewAt(n, g);
      DeliveredInOrder(gen, n, g + 1, k - 1);
      var d := Delivered(gen, ViewAt(n, g), n, k);
      assert d[0] == GlobalChunk(gen, n, g);
      assert d[1..] == Delivered(gen, ViewAt(n, g + 1), n, k - 1);
      forall j | 1 <= j < k
        ensures d[j] == GlobalChunk(gen, n, g + j)
      {
        assert d[j] == d[1..][j - 1];
      }
    }
  }

  // ---------------------------------------------------------------------
  // The aggregator object.

  /** A chunk handed out by the aggregator. Dropping it gives its buffer
      back to the shared cache under `threadId`. */
  datatype DtStreamAggChunk = DtStreamAggChunk(data: seq<byte>, threadId: u32, cache: BufCache)

  /** Errors of the aggregator: a worker thread reported a generator
      failure, or `wait_chunk` was called while stopped (a panic). */
  datatype AggError = StreamThreadFailed | WaitWhileStopped

  /** `Drop for DtStreamAggChunk`: recycle the buffer into the cache. */
  method Drop(chunk: DtStreamAggChunk) returns (s: Status)
    modifies chunk.cache
    ensures s == Done <==> chunk.threadId in old(chunk.cache.queues)
    ensures s == Done ==> chunk.cache.queues == PushQueue(old(chunk.cache.queues), chunk.threadId, chunk.data)
    ensures s == Panicked ==> chunk.cache.queues == old(chunk.cache.queues)
  {
    s := chunk.cache.Push(chunk.threadId, chunk.data);
  }

  class DtStreamAgg {
    const numThreads: nat
    const chunkSize: nat
    const gen: Generator
    const cache: BufCache
    var streams: seq<DtStream>
    var currentIndex: nat
    var isActive: bool
    /** Global index of the next chunk to deliver (meaningful when active). */
    ghost var position: nat

    ghost predicate Valid()
      reads this, cache
    {
      && 0 < numThreads <= 0x1_0000
      && chunkSize > 0
      && ChunkSized(gen, chunkSize)
      && (forall id: u32 :: id as nat < numThreads ==> id in cache.queues)
      && (if isActive then AggView(streams, currentIndex) == ViewAt(numThreads, position)
          else streams == IdleStreams(numThreads) && currentIndex == 0)
    }

    /** `DtStreamAgg::new`: one stream per thread, ids `0 .. numThreads - 1`,
        each registered as a consumer of a new shared buffer cache. */
    constructor (gen: Generator, chunkSize: nat, numThreads: nat)
      requires 0 < numThreads <= 0x1_0000
      requires chunkSize > 0 && ChunkSized(gen, chunkSize)
      ensures Valid() && fresh(cache)
      ensures this.gen == gen && this.chunkSize == chunkSize && this.numThreads == numThreads
      ensures !isActive && currentIndex == 0 && streams == IdleStreams(numThreads)
      ensures forall id: u32 :: id in cache.queues <==> id as nat < numThreads
      ensures forall id :: id in cache.queues ==> cache.queues[id] == []
    {
      var c := new BufCache();
      var ss: seq<DtStream> := [];
      var i := 0;
      while i < numThreads
        invariant 0 <= i <= numThreads
        invariant ss == IdleStreams(numThreads)[..i]
        invariant forall id: u32 :: id in c.queues <==> id as nat < i
        invariant forall id :: id in c.queues ==> c.queues[id] == []
      {
        // DtStream::new for thread i registers it as a cache consumer.
        var cons := c.NewConsumer(i as u32);
        ss := ss + [DtStream(i as u32, false, 0)];
        i := i + 1;
      }
      this.numThreads := numThreads;
      this.chunkSize := chunkSize;
      this.gen := gen;
      cache := c;
      streams := ss;
      currentIndex := 0;
      isActive := false;
      position := 0;
    }

    /** `get_chunk_size`: the size of every chunk any stream delivers. */
    function ChunkSize(): (r: nat)
      reads this, cache
      requires Valid()
      ensures r > 0 && ChunkSized(gen, r)
    {
      chunkSize
    }

    /** `activate(byte_offset)`: align the offset down to a chunk boundary,
        point the cursor at the stream that owns that chunk and restart
        every stream at its first chunk at or after it. */
    method Activate(byteOffset: nat) returns (aligned: nat)
      requires Valid()
      modifies this
      ensures Valid() && isActive
      ensures aligned == AlignDown(byteOffset, chunkSize)
      ensures position == aligned / chunkSize
      ensures currentIndex == PlaceOf(numThreads, position).thread
      ensures forall i :: 0 <= i < numThreads ==> streams[i].next == FirstLocal(position, numThreads, i)
    {
      var offset := byteOffset;
      if offset % chunkSize != 0 {
        // A warning about the unaligned offset is printed here.
        offset := offset - offset % chunkSize;
      }
      var chunkIndex := offset / chunkSize;
      currentIndex := chunkIndex % numThreads;
      PlaceIsDivMod(numThreads, chunkIndex);
      ghost var target := StreamsAt(numThreads, chunkIndex);
      assert forall j :: 0 <= j < numThreads ==> streams[j].threadId as nat == j by {
        if isActive {
          assert streams == StreamsAt(numThreads, position);
        } else {
          assert streams == IdleStreams(numThreads);
        }
      }
      var i := 0;
      while i < numThreads
        invariant 0 <= i <= numThreads && |streams| == numThreads
        invariant currentIndex == chunkIndex % numThreads
        invariant forall j :: 0 <= j < i ==> streams[j] == target[j]
        invariant forall j :: i <= j < numThreads ==> streams[j].threadId as nat == j
      {
        var threadOffset := ThreadOffset(chunkIndex, numThreads, i, chunkSize);
        streams := streams[i := streams[i].Activate(threadOffset, chunkSize)];
        i := i + 1;
      }
      assert streams == target;
      isActive := true;
      position := chunkIndex;
      aligned := offset;
    }

    /** `get_chunk`: poll the current stream; when it has a chunk, advance
        the cursor and hand the chunk out. The chunk is tagged with the
        cursor AFTER the advance, so its buffer is recycled to the next
        stream's consumer id. */
    method GetChunk(poll: Poll) returns (r: Result<Option<DtStreamAggChunk>, AggError>)
      requires Valid()
      modifies this
      ensures Valid()
      ensures !old(isActive) || poll == Pending ==> r == Ok(None) && unchanged(this)
      ensures old(isActive) && poll == ThreadFailed ==> r == Err(StreamThreadFailed) && unchanged(this)
      ensures old(isActive) && poll == Ready ==>
                && isActive && position == old(position) + 1
                && currentIndex == (old(currentIndex) + 1) % numThreads
                && r.Ok? && r.value.Some?
                && r.value.value.data == GlobalChunk(gen, numThreads, old(position))
                && r.value.value.threadId as nat == currentIndex
                && r.value.value.cache == cache
                && r.value.value.threadId in cache.queues
    {
      if !isActive {
        return Ok(None);
      }
      match poll
      case Pending =>
        return Ok(None);
      case ThreadFailed =>
        return Err(StreamThreadFailed);
      case Ready =>
        var s := streams[currentIndex];
        var data := gen(s.threadId as nat, s.next);
        StepViewAt(numThreads, position);
        streams := streams[currentIndex := s.(next := s.next + 1)];
        currentIndex := (currentIndex + 1) % numThreads;
        position := position + 1;
        r := Ok(Some(DtStreamAggChunk(data, currentIndex as u32, cache)));
    }

    /** `wait_chunk`: panics when stopped; otherwise polls until the current
        stream delivers and returns that chunk. */
    method WaitChunk() returns (r: Result<DtStreamAggChunk, AggError>)
      requires Valid()
      modifies this
      ensures Valid()
      ensures !old(isActive) ==> r == Err(WaitWhileStopped) && unchanged(this)
      ensures old(isActive) ==>
                && isActive && position == old(position) + 1
                && r.Ok?
                && r.value.data == GlobalChunk(gen, numThreads, old(position))
                && |r.value.data| == chunkSize
                && r.value.threadId as nat == currentIndex
                && r.value.cache == cache
                && r.value.threadId in cache.queues
    {
      if !isActive {
        return Err(WaitWhileStopped);
      }
      var c := GetChunk(Ready);
      r := Ok(c.value.value);
    }
  }
}
