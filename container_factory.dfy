/**
 * Model of the buffer pool of mem01/src/memory/ContainerFactory.h.
 *
 * ContainerFactory.h only declares the pool's state and operations; the
 * model does the least the declarations imply: one table of free lists per
 * real location, each free list a FIFO queue of `(pointer, timestamp)` pairs
 * filed under an exact byte count, and a ring of 16 streams with an index. The process-wide static
 * state becomes one `ContainerFactory` object. A ghost ledger records, for
 * every pointer the pool has handed out or holds, whether it is leased to a
 * container, pooled in a free list, or waiting on a deferred release.
 */
module ContainerFactoryModel {

  /** `ContainerLocation`; `Invalid` is `LocationINVALID`, which also counts the real locations. */
  datatype Location = Host | Gpu | Both | Invalid {
    predicate IsReal() {
      this != Invalid
    }

    /** The enumerator's value. */
    function Ordinal(): nat {
      match this
      case Host => 0
      case Gpu => 1
      case Both => 2
      case Invalid => 3
    }
  }

  /** Whether `HAVE_CUDA` is defined: the accelerator build or the host-only build. */
  datatype Build = HostOnly | Accelerated

  /** A buffer address; 0 is the null pointer. */
  type Ptr = nat

  /** `ContainerStreamType`: a runtime stream handle, or a plain `int` tag without the accelerator. */
  type Stream = int

  /** Seconds on the pool's clock. */
  type Time = real

  /** `sm_numberStreams`. */
  const NumberStreams: nat := 16

  /** `sm_deallocationTimeout`, in seconds. */
  const DeallocationTimeout: real := 5.0

  /** A free list is found by its table (the location) and its key (the exact byte count). */
  datatype PoolKey = PoolKey(location: Location, numBytes: nat)

  /** One free-list entry: the pointer and when it was returned. */
  datatype PooledBuffer = PooledBuffer(ptr: Ptr, returnedAt: Time)

  /** A release registered on a stream, to run once the stream's earlier work is done. */
  datatype DeferredRelease = DeferredRelease(stream: Stream, ptr: Ptr, numBytes: nat, location: Location)

  /** What the pool knows about a pointer it has handed out or holds. */
  datatype Holding =
    | Leased(key: PoolKey)
    | Pooled(key: PoolKey, returnedAt: Time)
    | Pending(key: PoolKey)

  /** An entry is old enough to be freed once its age exceeds the timeout. */
  predicate Stale(b: PooledBuffer, now: Time) {
    now - b.returnedAt > DeallocationTimeout
  }

  predicate DistinctPtrs(q: seq<PooledBuffer>) {
    forall i, j | 0 <= i < j < |q| :: q[i].ptr != q[j].ptr
  }

  /** The free list for `key` in `lists`; a missing key is an empty queue. */
  function QueueOf(lists: map<PoolKey, seq<PooledBuffer>>, key: PoolKey): seq<PooledBuffer> {
    if key in lists then lists[key] else []
  }

  /**
   * `acquireMemory`'s choice for `key`: the front of that exact free list,
   * which leaves the list; or, with the list empty, a fresh buffer from the
   * system allocator.
   */
  predicate Acquired(before: map<PoolKey, seq<PooledBuffer>>, nextBefore: Ptr,
                     after: map<PoolKey, seq<PooledBuffer>>, nextAfter: Ptr, key: PoolKey, ptr: Ptr)
  {
    var q := QueueOf(before, key);
    if |q| > 0 then
      ptr == q[0].ptr && after == before[key := q[1..]] && nextAfter == nextBefore
    else
      ptr == nextBefore && after == before && nextAfter == nextBefore + 1
  }

  /** A free list with its old entries freed; the rest keep their order. */
  function KeepRecent(q: seq<PooledBuffer>, now: Time): (r: seq<PooledBuffer>)
    ensures forall b :: b in r <==> b in q && !Stale(b, now)
  {
    if q == [] then []
    else
      var rest := KeepRecent(q[1..], now);
      assert forall b | b in q :: b == q[0] || b in q[1..];
      if Stale(q[0], now) then rest else [q[0]] + rest
  }

  /** Freeing old entries never makes a pointer appear twice in a free list. */
  lemma {:induction false} KeepRecentDistinct(q: seq<PooledBuffer>, now: Time)
    requires DistinctPtrs(q)
    ensures DistinctPtrs(KeepRecent(q, now))
  {
    if q != [] {
      var rest := KeepRecent(q[1..], now);
      KeepRecentDistinct(q[1..], now);
      if !Stale(q[0], now) {
        var r := [q[0]] + rest;
        forall i, j | 0 <= i < j < |r|
          ensures r[i].ptr != r[j].ptr
        {
          if i == 0 {
            assert r[j] in q[1..];
            var m :| 0 <= m < |q[1..]| && q[1..][m] == r[j];
            assert q[m + 1] == r[j];
          } else {
            assert r[i] == rest[i - 1] && r[j] == rest[j - 1];
          }
        }
      }
    }
  }

  /** Bytes freed by popping one entry from each listed free list. */
  function SumBytes(keys: seq<PoolKey>): nat {
    if keys == [] then 0 else SumBytes(keys[..|keys| - 1]) + keys[|keys| - 1].numBytes
  }

  /** The stream index after `k` calls to `getNextStream`, starting from `start`. */
  function IndexAfter(start: nat, k: nat): (i: nat)
    requires start < NumberStreams
    ensures i < NumberStreams
  {
    if k == 0 then start else (IndexAfter(start, k - 1) + 1) % NumberStreams
  }

  lemma {:induction false} IndexAfterIsOffset(start: nat, k: nat)
    requires start < NumberStreams
    ensures IndexAfter(start, k) == (start + k) % NumberStreams
  {
    if k > 0 {
      IndexAfterIsOffset(start, k - 1);
    }
  }

  /** The indices handed out by sixteen consecutive calls. */
  function RingOrder(start: nat): (r: seq<nat>)
    requires start < NumberStreams
    ensures |r| == NumberStreams
  {
    seq(NumberStreams, k requires 0 <= k => IndexAfter(start, k))
  }

  lemma WrapOnce(x: nat)
    requires x < 2 * NumberStreams
    ensures x % NumberStreams == if x < NumberStreams then x else x - NumberStreams
  {
  }

  /** Sixteen consecutive calls visit every stream of the ring exactly once. */
  lemma RoundRobinCoversRing(start: nat)
    requires start < NumberStreams
    ensures forall j | 0 <= j < NumberStreams :: j in RingOrder(start)
    ensures forall k, m | 0 <= k < m < NumberStreams :: RingOrder(start)[k] != RingOrder(start)[m]
  {
    var r := RingOrder(start);
    forall j | 0 <= j < NumberStreams
      ensures j in r
    {
      var k := if j >= start then j - start else j + NumberStreams - start;
      IndexAfterIsOffset(start, k);
      WrapOnce(start + k);
      assert r[k] == j;
    }
    forall k, m | 0 <= k < m < NumberStreams
      ensures r[k] != r[m]
    {
      IndexAfterIsOffset(start, k);
      IndexAfterIsOffset(start, m);
      WrapOnce(start + k);
      WrapOnce(start + m);
    }
  }

  /** The process-wide pool. */
  class ContainerFactory {
    const build: Build
    /** `sm_bufferMaps`, one entry per (table, byte count). */
    var freeLists: map<PoolKey, seq<PooledBuffer>>
    /** `sm_streams` and `sm_streamIndex`. */
    var streams: seq<Stream>
    var streamIndex: nat
    /** Releases registered on streams and not yet run. */
    var pending: seq<DeferredRelease>
    /** Where the system allocator places the next fresh buffer. */
    var nextAddress: Ptr
    ghost var owner: map<Ptr, Holding>

    ghost predicate Valid()
      reads this
    {
      && |streams| == NumberStreams && streamIndex < NumberStreams
      && nextAddress > 0
      && (forall p | p in owner :: 0 < p < nextAddress && owner[p].key.location.IsReal())
      && (forall k | k in freeLists :: k.location.IsReal() && PooledUnder(k, freeLists[k]))
      && PoolHoldsPooled()
      && PendingTracked()
    }

    /** Every pointer the ledger calls pooled sits, with its timestamp, in the free list of its key. */
    ghost predicate PoolHoldsPooled()
      reads this
    {
      forall p :: HeldIfPooled(p)
    }

    ghost predicate HeldIfPooled(p: Ptr)
      reads this
    {
      p in owner && owner[p].Pooled? ==> PooledBuffer(p, owner[p].returnedAt) in QueueOf(freeLists, owner[p].key)
    }

    /** Every entry of the free list `k` is pooled under `k` in the ledger, once. */
    ghost predicate PooledUnder(k: PoolKey, q: seq<PooledBuffer>)
      reads this
    {
      && DistinctPtrs(q)
      && forall i | 0 <= i < |q| :: q[i].ptr in owner && owner[q[i].ptr] == Pooled(k, q[i].returnedAt)
    }

    ghost predicate PendingTracked()
      reads this
    {
      && (forall i | 0 <= i < |pending| ::
            pending[i].ptr in owner && owner[pending[i].ptr] == Pending(PoolKey(pending[i].location, pending[i].numBytes)))
      && (forall i, j | 0 <= i < j < |pending| :: pending[i].ptr != pending[j].ptr)
    }

    /** The pool at start-up: no buffers, `initStreams` has filled the ring. */
    constructor (build: Build, ring: seq<Stream>)
      requires |ring| == NumberStreams
      ensures Valid()
      ensures this.build == build && streams == ring && streamIndex == 0
      ensures freeLists == map[] && pending == [] && owner == map[]
    {
      this.build := build;
      freeLists := map[];
      streams := ring;
      streamIndex := 0;
      pending := [];
      nextAddress := 1;
      owner := map[];
    }

    /**
     * `getNextStream`: hands out the stream at the index and advances the
     * index around the ring.
     */
    method GetNextStream() returns (s: Stream)
      requires Valid()
      modifies this
      ensures Valid()
      ensures s == old(streams[streamIndex]) && streamIndex == IndexAfter(old(streamIndex), 1)
      ensures streams == old(streams) && freeLists == old(freeLists) && pending == old(pending)
      ensures nextAddress == old(nextAddress) && owner == old(owner)
    {
      s := streams[streamIndex];
      streamIndex := (streamIndex + 1) % NumberStreams;
      forall p
        ensures HeldIfPooled(p)
      {
        assert old(HeldIfPooled(p));
      }
    }

    /**
     * `acquireMemory(numBytes, location)`: the front of the free list with
     * exactly that byte count in that location's table, or else a fresh
     * buffer. Never hands out a pointer that is leased or awaiting release.
     */
    method AcquireMemory(numBytes: nat, location: Location) returns (ptr: Ptr)
      requires Valid() && location.IsReal()
      modifies this
      ensures Valid()
      ensures Acquired(old(freeLists), old(nextAddress), freeLists, nextAddress, PoolKey(location, numBytes), ptr)
      ensures ptr > 0 && (ptr in old(owner) ==> old(owner)[ptr].Pooled? && old(owner)[ptr].key == PoolKey(location, numBytes))
      ensures owner == old(owner)[ptr := Leased(PoolKey(location, numBytes))]
      ensures streams == old(streams) && streamIndex == old(streamIndex) && pending == old(pending)
    {
      var key := PoolKey(location, numBytes);
      if key in freeLists && |freeLists[key]| > 0 {
        var q := freeLists[key];
        ptr := q[0].ptr;
        freeLists := freeLists[key := q[1..]];
        owner := owner[ptr := Leased(key)];
        assert PooledUnder(key, q[1..]) by {
          forall i | 0 <= i < |q[1..]|
            ensures q[1..][i].ptr != ptr
          {
            assert q[1..][i] == q[i + 1];
          }
        }
        forall p
          ensures HeldIfPooled(p)
        {
          assert old(HeldIfPooled(p));
          if p in owner && owner[p].Pooled? && owner[p].key == key {
            assert PooledBuffer(p, owner[p].returnedAt) in q && p != q[0].ptr;
          }
        }
      } else {
        ptr := nextAddress;
        nextAddress := nextAddress + 1;
        owner := owner[ptr := Leased(key)];
        forall p
          ensures HeldIfPooled(p)
        {
          assert old(HeldIfPooled(p));
        }
      }
    }

    /**
     * `returnMemory(pointer, numBytes, location)`: files the buffer at the
     * back of the free list for exactly that byte count and location. The
     * ledger admits only a pointer leased under that same key, once.
     */
    method ReturnMemory(ptr: Ptr, numBytes: nat, location: Location, now: Time)
      requires Valid() && ptr in owner && owner[ptr] == Leased(PoolKey(location, numBytes))
      modifies this
      ensures Valid()
      ensures freeLists == old(freeLists)[PoolKey(location, numBytes) := QueueOf(old(freeLists), PoolKey(location, numBytes)) + [PooledBuffer(ptr, now)]]
      ensures owner == old(owner)[ptr := Pooled(PoolKey(location, numBytes), now)]
      ensures streams == old(streams) && streamIndex == old(streamIndex) && pending == old(pending)
      ensures nextAddress == old(nextAddress)
    {
      var key := PoolKey(location, numBytes);
      var q := QueueOf(freeLists, key);
      freeLists := freeLists[key := q + [PooledBuffer(ptr, now)]];
      owner := owner[ptr := Pooled(key, now)];
      forall p
        ensures HeldIfPooled(p)
      {
        assert old(HeldIfPooled(p));
        if p != ptr && p in owner && owner[p].Pooled? && owner[p].key == key {
          assert PooledBuffer(p, owner[p].returnedAt) in q;
        }
      }
    }

    /**
     * The callback a container registers when its stream is still busy: it
     * captures pointer, byte count and location, and the pointer is no longer
     * leased but not yet pooled.
     */
    method DeferRelease(stream: Stream, ptr: Ptr, numBytes: nat, location: Location)
      requires Valid() && ptr in owner && owner[ptr] == Leased(PoolKey(location, numBytes))
      modifies this
      ensures Valid()
      ensures pending == old(pending) + [DeferredRelease(stream, ptr, numBytes, location)]
      ensures owner == old(owner)[ptr := Pending(PoolKey(location, numBytes))]
      ensures freeLists == old(freeLists) && streams == old(streams) && streamIndex == old(streamIndex)
      ensures nextAddress == old(nextAddress)
    {
      pending := pending + [DeferredRelease(stream, ptr, numBytes, location)];
      owner := owner[ptr := Pending(PoolKey(location, numBytes))];
      forall p
        ensures HeldIfPooled(p)
      {
        assert old(HeldIfPooled(p));
      }
    }

    /**
     * A registered callback runs: callbacks on one stream run in the order they
     * were registered, and the captured buffer goes back to the pool.
     */
    method FireDeferredRelease(i: nat, now: Time)
      requires Valid() && i < |pending|
      requires forall j | 0 <= j < i :: pending[j].stream != pending[i].stream
      modifies this
      ensures Valid()
      ensures pending == old(pending[..i] + pending[i + 1..])
      ensures var d := old(pending[i]); var key := PoolKey(d.location, d.numBytes);
        && freeLists == old(freeLists)[key := QueueOf(old(freeLists), key) + [PooledBuffer(d.ptr, now)]]
        && owner == old(owner)[d.ptr := Pooled(key, now)]
      ensures streams == old(streams) && streamIndex == old(streamIndex) && nextAddress == old(nextAddress)
    {
      var d := pending[i];
      ghost var rest := pending[..i] + pending[i + 1..];
      assert forall j | 0 <= j < |rest| :: rest[j] == if j < i then pending[j] else pending[j + 1];
      pending := pending[..i] + pending[i + 1..];
      owner := owner[d.ptr := Leased(PoolKey(d.location, d.numBytes))];
      forall p
        ensures HeldIfPooled(p)
      {
        assert old(HeldIfPooled(p));
      }
      ReturnMemory(d.ptr, d.numBytes, d.location, now);
    }

    /**
     * `freeBuffers(numBytesMin, location)`: frees pooled buffers of that
     * location's table, from the front of their free lists, until at least
     * `numBytesMin` bytes are freed or the table holds no buffer. Which free
     * list goes first is left open.
     */
    method FreeBuffers(numBytesMin: nat, location: Location) returns (freed: nat, ghost freedKeys: seq<PoolKey>)
      requires Valid() && location.IsReal()
      modifies this
      ensures Valid()
      ensures freed >= numBytesMin || forall k | k in freeLists && k.location == location :: freeLists[k] == []
      ensures FreedFrom(old(freeLists), old(owner), freeLists, owner, location, freed, freedKeys)
      ensures streams == old(streams) && streamIndex == old(streamIndex) && pending == old(pending)
      ensures nextAddress == old(nextAddress)
    {
      freed := 0;
      freedKeys := [];
      while freed < numBytesMin && exists k :: k in freeLists && k.location == location && freeLists[k] != []
        invariant Valid()
        invariant FreedFrom(old(freeLists), old(owner), freeLists, owner, location, freed, freedKeys)
        invariant streams == old(streams) && streamIndex == old(streamIndex) && pending == old(pending)
        invariant nextAddress == old(nextAddress)
        decreases |owner.Keys|
      {
        var k :| k in freeLists && k.location == location && freeLists[k] != [];
        FreeFront(k, old(freeLists), old(owner), freed, freedKeys);
        freed := freed + k.numBytes;
        freedKeys := freedKeys + [k];
      }
    }

    /** One step of `freeBuffers`: frees the front of the free list `k` and records it. */
    method FreeFront(k: PoolKey, ghost orig: map<PoolKey, seq<PooledBuffer>>, ghost origOwner: map<Ptr, Holding>,
                     freed: nat, ghost freedKeys: seq<PoolKey>)
      requires Valid() && k in freeLists && freeLists[k] != []
      requires FreedFrom(orig, origOwner, freeLists, owner, k.location, freed, freedKeys)
      modifies this
      ensures Valid()
      ensures FreedFrom(orig, origOwner, freeLists, owner, k.location, freed + k.numBytes, freedKeys + [k])
      ensures |owner.Keys| < |old(owner.Keys)|
      ensures streams == old(streams) && streamIndex == old(streamIndex) && pending == old(pending)
      ensures nextAddress == old(nextAddress)
    {
      ghost var before := freeLists;
      ghost var beforeOwner := owner;
      assert PooledUnder(k, freeLists[k]);
      PopFront(k);
      FreedFromStep(orig, origOwner, before, beforeOwner, k, k.location, freed, freedKeys);
    }

    /** Takes the front entry off the free list `k` and frees it to the system allocator. */
    method PopFront(k: PoolKey)
      requires Valid() && k in freeLists && freeLists[k] != []
      modifies this
      ensures Valid()
      ensures freeLists == old(freeLists)[k := old(freeLists)[k][1..]]
      ensures owner == old(owner) - {old(freeLists)[k][0].ptr}
      ensures old(freeLists)[k][0].ptr in old(owner)
      ensures streams == old(streams) && streamIndex == old(streamIndex) && pending == old(pending)
      ensures nextAddress == old(nextAddress)
    {
      var q := freeLists[k];
      var p := q[0].ptr;
      freeLists := freeLists[k := q[1..]];
      owner := owner - {p};
      assert PooledUnder(k, q[1..]) by {
        forall i | 0 <= i < |q[1..]|
          ensures q[1..][i].ptr != p
        {
          assert q[1..][i] == q[i + 1];
        }
      }
      forall p' | p' in owner && owner[p'].Pooled? && owner[p'].key == k
        ensures HeldIfPooled(p')
      {
        assert old(HeldIfPooled(p'));
        assert PooledBuffer(p', owner[p'].returnedAt) in q && p' != q[0].ptr;
      }
      forall p'
        ensures HeldIfPooled(p')
      {
        assert old(HeldIfPooled(p'));
      }
    }

    /**
     * `freeOldBuffers`: every pooled entry whose age exceeds the timeout is
     * freed; every other entry stays where it was.
     */
    method FreeOldBuffers(now: Time)
      requires Valid()
      modifies this
      ensures Valid()
      ensures freeLists == map k | k in old(freeLists) :: KeepRecent(old(freeLists)[k], now)
      ensures owner == map p | p in old(owner) && !(old(owner)[p].Pooled? && now - old(owner)[p].returnedAt > DeallocationTimeout) :: old(owner)[p]
      ensures streams == old(streams) && streamIndex == old(streamIndex) && pending == old(pending)
      ensures nextAddress == old(nextAddress)
    {
      var before := freeLists;
      freeLists := map k | k in before :: KeepRecent(before[k], now);
      owner := map p | p in owner && !(owner[p].Pooled? && now - owner[p].returnedAt > DeallocationTimeout) :: owner[p];
      forall k | k in freeLists
        ensures PooledUnder(k, freeLists[k])
      {
        var q := freeLists[k];
        KeepRecentDistinct(before[k], now);
        forall i | 0 <= i < |q|
          ensures q[i].ptr in owner && owner[q[i].ptr] == Pooled(k, q[i].returnedAt)
        {
          assert q[i] in before[k];
        }
      }
      forall p
        ensures HeldIfPooled(p)
      {
        assert old(HeldIfPooled(p));
        if p in owner && owner[p].Pooled? {
          var b := PooledBuffer(p, owner[p].returnedAt);
          assert b in QueueOf(before, owner[p].key) && !Stale(b, now);
        }
      }
    }
  }

  /**
   * In a valid pool no buffer is lost: the ledger calls a pointer pooled
   * exactly when some free list holds it.
   */
  lemma PooledIffListed(f: ContainerFactory, p: Ptr)
    requires f.Valid()
    ensures p in f.owner && f.owner[p].Pooled? <==>
      exists k, b | k in f.freeLists && b in f.freeLists[k] :: b.ptr == p
  {
    if p in f.owner && f.owner[p].Pooled? {
      assert f.HeldIfPooled(p);
      var k := f.owner[p].key;
      assert PooledBuffer(p, f.owner[p].returnedAt) in f.freeLists[k];
    }
    if exists k, b | k in f.freeLists && b in f.freeLists[k] :: b.ptr == p {
      var k, b :| k in f.freeLists && b in f.freeLists[k] && b.ptr == p;
      var i :| 0 <= i < |f.freeLists[k]| && f.freeLists[k][i] == b;
      assert f.PooledUnder(k, f.freeLists[k]);
    }
  }

  /**
   * `sm_bufferMaps` has `LocationINVALID` slots: every free list of a valid
   * pool sits in the slot its location's enumerator indexes, and distinct
   * locations use distinct slots.
   */
  lemma TablesIndexedByRealLocations(f: ContainerFactory)
    requires f.Valid()
    ensures forall k | k in f.freeLists :: k.location.Ordinal() < Invalid.Ordinal()
    ensures forall k1, k2 | k1 in f.freeLists && k2 in f.freeLists ::
      k1.location.Ordinal() == k2.location.Ordinal() ==> k1.location == k2.location
  {
  }

  /**
   * What `freeBuffers` has done so far, from the free lists `orig` and the
   * ledger `origOwner`: it popped the listed keys' front entries, all in
   * `location`'s table, freeing `freed` bytes; it freed only pooled pointers
   * of that table and touched nothing else.
   */
  ghost predicate FreedFrom(orig: map<PoolKey, seq<PooledBuffer>>, origOwner: map<Ptr, Holding>,
                            cur: map<PoolKey, seq<PooledBuffer>>, curOwner: map<Ptr, Holding>,
                            location: Location, freed: nat, freedKeys: seq<PoolKey>)
  {
    && freed == SumBytes(freedKeys)
    && (forall j | 0 <= j < |freedKeys| :: freedKeys[j].location == location)
    && cur.Keys == orig.Keys
    && (forall k | k in cur :: k.location != location ==> cur[k] == orig[k])
    && (forall k | k in cur ::
          && |cur[k]| == |orig[k]| - multiset(freedKeys)[k]
          && cur[k] == orig[k][multiset(freedKeys)[k]..])
    && curOwner.Keys <= origOwner.Keys
    && (forall p | p in curOwner :: curOwner[p] == origOwner[p])
    && (forall p | p in origOwner && p !in curOwner :: origOwner[p].Pooled? && origOwner[p].key.location == location)
  }

  /** Popping one more front entry of `location`'s table extends the record by its key. */
  lemma FreedFromStep(orig: map<PoolKey, seq<PooledBuffer>>, origOwner: map<Ptr, Holding>,
                      before: map<PoolKey, seq<PooledBuffer>>, beforeOwner: map<Ptr, Holding>,
                      k: PoolKey, location: Location, freed: nat, freedKeys: seq<PoolKey>)
    requires FreedFrom(orig, origOwner, before, beforeOwner, location, freed, freedKeys)
    requires k in before && before[k] != [] && k.location == location
    requires before[k][0].ptr in beforeOwner && beforeOwner[before[k][0].ptr].Pooled?
    requires beforeOwner[before[k][0].ptr].key == k
    ensures FreedFrom(orig, origOwner, before[k := before[k][1..]], beforeOwner - {before[k][0].ptr},
                      location, freed + k.numBytes, freedKeys + [k])
  {
    var keys := freedKeys + [k];
    assert keys[..|freedKeys|] == freedKeys;
    forall j | 0 <= j < |keys|
      ensures keys[j].location == location
    {
      if j < |freedKeys| {
        assert keys[j] == freedKeys[j];
      }
    }
    var counts := multiset(freedKeys);
    assert multiset(keys) == counts[k := counts[k] + 1];
    var after := before[k := before[k][1..]];
    forall k2 | k2 in after
      ensures |after[k2]| == |orig[k2]| - multiset(keys)[k2]
      ensures after[k2] == orig[k2][multiset(keys)[k2]..]
    {
      if k2 == k {
        DropOneMore(orig[k], counts[k]);
      }
    }
  }

  lemma DropOneMore(q: seq<PooledBuffer>, n: nat)
    requires n < |q|
    ensures q[n..][1..] == q[n + 1..]
  {
  }
}
