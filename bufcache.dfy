/** The buffer recycling cache: every consumer id owns a FIFO queue of spare
    byte buffers. Producers push used buffers back under a consumer id; the
    consumer pulls the oldest one (or a fresh one) and resizes it to the
    length it needs. The channel behind each queue is used from a single
    thread, so it is modelled as a plain FIFO sequence. */
module BufferCache {
  import opened Bytes

  type Queues = map<u32, seq<seq<byte>>>

  /** `Vec::resize(len, 0)`: keep the first `len` bytes, padding with zeros. */
  function Resize(buf: seq<byte>, len: nat): (r: seq<byte>)
    ensures |r| == len
    ensures forall i :: 0 <= i < len && i < |buf| ==> r[i] == buf[i]
    ensures forall i :: |buf| <= i < len ==> r[i] == 0
  {
    if len <= |buf| then buf[..len] else buf + Zeros(len - |buf|)
  }

  /** The queues after `push(id, buf)` to a registered consumer. */
  function PushQueue(qs: Queues, id: u32, buf: seq<byte>): (r: Queues)
    requires id in qs
    ensures r.Keys == qs.Keys
    ensures r[id] == qs[id] + [buf]
    ensures forall other :: other in qs && other != id ==> r[other] == qs[other]
  {
    qs[id := qs[id] + [buf]]
  }

  /** What `pull(len)` hands out, and the queues it leaves behind. */
  datatype Pulled = Pulled(buf: seq<byte>, queues: Queues)

  function PullQueue(qs: Queues, id: u32, len: nat): (r: Pulled)
    requires id in qs
    ensures |r.buf| == len
    ensures r.queues.Keys == qs.Keys
    ensures forall other :: other in qs && other != id ==> r.queues[other] == qs[other]
    ensures qs[id] == [] ==> r.buf == Zeros(len) && r.queues == qs
    ensures qs[id] != [] ==> r.buf == Resize(qs[id][0], len) && r.queues[id] == qs[id][1..]
  {
    var q := qs[id];
    if q == [] then
      Pulled(Resize([], len), qs)
    else
      Pulled(Resize(q[0], len), qs[id := q[1..]])
  }

  /** Pushes `bufs` one after the other to consumer `id`. */
  function PushAll(qs: Queues, id: u32, bufs: seq<seq<byte>>): (r: Queues)
    requires id in qs
    ensures id in r
    decreases |bufs|
  {
    if bufs == [] then qs else PushAll(PushQueue(qs, id, bufs[0]), id, bufs[1..])
  }

  /** What `n` successive pulls hand out, and the queues they leave behind. */
  datatype PulledMany = PulledMany(bufs: seq<seq<byte>>, queues: Queues)

  /** Pulls `n` buffers of length `len` from consumer `id`. */
  function PullMany(qs: Queues, id: u32, len: nat, n: nat): (r: PulledMany)
    requires id in qs
    ensures id in r.queues && |r.bufs| == n
    decreases n
  {
    if n == 0 then PulledMany([], qs)
    else
      var first := PullQueue(qs, id, len);
      var rest := PullMany(first.queues, id, len, n - 1);
      PulledMany([first.buf] + rest.bufs, rest.queues)
  }

  /** Pushing a list of buffers appends them, in order, to that consumer's
      queue and to no other. */
  lemma {:induction false} PushAllAppends(qs: Queues, id: u32, bufs: seq<seq<byte>>)
    requires id in qs
    ensures PushAll(qs, id, bufs) == qs[id := qs[id] + bufs]
    decreases |bufs|
  {
    if bufs != [] {
      var next := PushQueue(qs, id, bufs[0]);
      PushAllAppends(next, id, bufs[1..]);
      assert next[id] + bufs[1..] == qs[id] + bufs;
      assert next[id := qs[id] + bufs] == qs[id := qs[id] + bufs];
    } else {
      assert qs[id] + bufs == qs[id];
    }
  }

  /** FIFO: `n` pulls hand out the `n` oldest queued buffers, oldest first,
      each resized to `len`, and drop exactly those from the queue. */
  lemma {:induction false} PullManyFifo(qs: Queues, id: u32, len: nat, n: nat)
    requires id in qs && n <= |qs[id]|
    ensures forall j :: 0 <= j < n ==> PullMany(qs, id, len, n).bufs[j] == Resize(qs[id][j], len)
    ensures PullMany(qs, id, len, n).queues == qs[id := qs[id][n..]]
    decreases n
  {
    if n > 0 {
      var first := PullQueue(qs, id, len);
      PullManyFifo(first.queues, id, len, n - 1);
      assert first.queues[id][n - 1..] == qs[id][n..];
      assert first.queues[id := qs[id][n..]] == qs[id := qs[id][n..]];
    }
  }

  /** Round trip through the cache: buffers pushed to a consumer whose queue
      is empty come back from `pull` in push order, each resized to `len`,
      and the queue is empty again afterwards. */
  lemma PushThenPull(qs: Queues, id: u32, bufs: seq<seq<byte>>, len: nat)
    requires id in qs && qs[id] == []
    ensures var out := PullMany(PushAll(qs, id, bufs), id, len, |bufs|);
            && out.queues == qs
            && forall j :: 0 <= j < |bufs| ==> out.bufs[j] == Resize(bufs[j], len)
  {
    PushAllAppends(qs, id, bufs);
    var pushed := PushAll(qs, id, bufs);
    assert pushed[id] == bufs;
    PullManyFifo(pushed, id, len, |bufs|);
    assert pushed[id := pushed[id][|bufs|..]] == qs;
  }

  /** The cache: a map from consumer id to that consumer's queue. */
  class BufCache {
    var queues: Queues

    constructor ()
      ensures queues == map[]
    {
      queues := map[];
    }

    /** Registers `id` with a fresh, empty queue, replacing any earlier one. */
    method NewConsumer(id: u32) returns (cons: BufCacheCons)
      modifies this
      ensures queues == old(queues)[id := []]
      ensures fresh(cons) && cons.cache == this && cons.id == id
    {
      queues := queues[id := []];
      cons := new BufCacheCons(this, id);
    }

    /** Hands `buf` back to consumer `id`; an unknown id panics. */
    method Push(id: u32, buf: seq<byte>) returns (s: Status)
      modifies this
      ensures s == Done <==> id in old(queues)
      ensures s == Done ==> queues == PushQueue(old(queues), id, buf)
      ensures s == Panicked ==> queues == old(queues)
    {
      if id !in queues {
        return Panicked;
      }
      queues := PushQueue(queues, id, buf);
      s := Done;
    }
  }

  /** The receiving side of one consumer id. */
  class BufCacheCons {
    const cache: BufCache
    const id: u32

    constructor (cache: BufCache, id: u32)
      ensures this.cache == cache && this.id == id
    {
      this.cache := cache;
      this.id := id;
    }

    /** Takes the oldest queued buffer, or an empty one when the queue is
        empty, and resizes it to exactly `len` bytes. */
    method Pull(len: nat) returns (buf: seq<byte>)
      requires id in cache.queues
      modifies cache
      ensures Pulled(buf, cache.queues) == PullQueue(old(cache.queues), id, len)
    {
      var q := cache.queues[id];
      if q != [] {
        buf := q[0];
        cache.queues := cache.queues[id := q[1..]];
      } else {
        buf := [];
      }
      if |buf| != len {
        buf := Resize(buf, len);
      }
    }
  }
}
