/**
 * Model of the typed buffer handle `Container<T>` of
 * mem01/src/memory/Container.h.
 *
 * A container owns `numel` elements, `numel * sizeof(T)` bytes leased from
 * the pool at its location, and gives them back when it is destroyed. The
 * element storage is an array; `ptr` is the address the pool handed out.
 * Copies issued on a stream are modelled as complete when issued; the
 * creation event records whether the source would still have to wait on it.
 */
module ContainerModel {
  import opened Optional
  import opened DataTypes
  import opened ContainerFactoryModel
  import Cuda = CudaUtility

  /** `m_name` holds at most 49 characters and its terminator. */
  const NameCapacity: nat := 50

  /** The bytes `strcpy(m_name, name)` stores: the characters, then the terminator. */
  function NameBytes(name: string): (b: seq<char>)
    ensures |b| == |name| + 1 && b[..|name|] == name && b[|name|] == '\0'
  {
    name + ['\0']
  }

  /** As written, the copy of a name of 50 or more characters runs past the end of `m_name`. */
  lemma NameCopyOverflows(name: string)
    requires |name| >= NameCapacity
    ensures |NameBytes(name)| > NameCapacity
  {
  }

  /** A name whose characters and terminator fit in `m_name`. */
  predicate NameFits(name: Option<string>) {
    name.Some? ==> |NameBytes(name.value)| <= NameCapacity
  }

  /**
   * The name a container keeps: as intended, a copy bounded by `m_name`'s
   * capacity, cut to its first 49 characters when it is longer.
   */
  function StoredName(name: Option<string>): (r: Option<string>)
    ensures r.Some? <==> name.Some?
    ensures r.Some? ==> |r.value| <= |name.value| && r.value == name.value[..|r.value|]
    ensures NameFits(r)
    ensures r.Some? && |name.value| < NameCapacity ==> r == name
    ensures r.Some? && |name.value| >= NameCapacity ==> |r.value| == NameCapacity - 1
  {
    match name
    case None => None
    case Some(n) => if |n| < NameCapacity then name else Some(n[..NameCapacity - 1])
  }

  /** `sizeof(T)` on the x86-64 ABI: each type's width in bytes; `std::string` takes 32. */
  function SizeOf(e: ElementType): (n: nat)
    ensures n > 0
    ensures e.Int8Elem? || e.Uint8Elem? || e.BoolElem? ==> n == 1
    ensures e.Int16Elem? || e.Uint16Elem? ==> n == 2
    ensures e.Int32Elem? || e.Uint32Elem? || e.FloatElem? || e.DataTypeElem? ==> n == 4
    ensures e.Int64Elem? || e.Uint64Elem? || e.DoubleElem? ==> n == 8
  {
    match e
    case BoolElem => 1
    case Int8Elem => 1
    case Uint8Elem => 1
    case Int16Elem => 2
    case Uint16Elem => 2
    case Int32Elem => 4
    case Uint32Elem => 4
    case Int64Elem => 8
    case Uint64Elem => 8
    case FloatElem => 4
    case DoubleElem => 8
    case StringElem => 32
    case DataTypeElem => 4
  }

  /** `m_creationEvent`: never created, created and recorded on the stream, or waited on and destroyed. */
  datatype CreationEvent = NoEvent | Recorded | Destroyed

  /** How a constructor fills a new buffer: an asynchronous copy recording an event, and whether it then waits. */
  datatype CopyPlan = CopyPlan(async: bool, recordsEvent: bool, waits: bool)

  /** The event a constructor leaves behind after following `plan`. */
  function EventAfter(plan: CopyPlan): CreationEvent {
    if !plan.recordsEvent then NoEvent else if plan.waits then Destroyed else Recorded
  }

  /** The vector constructor as written: with the accelerator, it waits whenever asked, event or not. */
  function VectorCopyPlanAsWritten(build: Build, location: Location, waitFinished: bool): (p: CopyPlan)
    ensures build.HostOnly? ==> !p.async && !p.recordsEvent && !p.waits
    ensures build.Accelerated? ==> p.waits == waitFinished
    ensures p.recordsEvent <==> build.Accelerated? && (location.Gpu? || location.Both?)
  {
    if build.HostOnly? then CopyPlan(false, false, false)
    else if location.Gpu? || location.Both? then CopyPlan(true, true, waitFinished)
    else CopyPlan(false, false, waitFinished)
  }

  /** A host-located vector container with the accelerator waits on an event that was never created. */
  lemma VectorCtorWaitsWithoutEvent()
    ensures var p := VectorCopyPlanAsWritten(Accelerated, Host, true); p.waits && !p.recordsEvent
  {
  }

  /** The vector constructor as intended: it waits only on an event it recorded. */
  function VectorCopyPlan(build: Build, location: Location, waitFinished: bool): (p: CopyPlan)
    ensures p.waits ==> p.recordsEvent
    ensures p.recordsEvent <==> build.Accelerated? && (location.Gpu? || location.Both?)
    ensures p.waits <==> p.recordsEvent && waitFinished
    ensures p.recordsEvent ==> p == VectorCopyPlanAsWritten(build, location, waitFinished)
  {
    var w := VectorCopyPlanAsWritten(build, location, waitFinished);
    CopyPlan(w.async, w.recordsEvent, w.recordsEvent && waitFinished)
  }

  /** The range constructor: with the accelerator, always an asynchronous copy and an event. */
  function RangeCopyPlan(build: Build, waitFinished: bool): (p: CopyPlan)
    ensures p.waits ==> p.recordsEvent
    ensures p.recordsEvent <==> build.Accelerated?
    ensures p.async == p.recordsEvent && (p.waits <==> p.recordsEvent && waitFinished)
  {
    if build.HostOnly? then CopyPlan(false, false, false) else CopyPlan(true, true, waitFinished)
  }

  /**
   * The copying constructor: host to host is a plain copy and returns at once;
   * every other pair, with the accelerator, copies on the source's stream.
   */
  function TransferCopyPlan(build: Build, from: Location, to: Location, waitFinished: bool): (p: CopyPlan)
    ensures p.waits ==> p.recordsEvent
    ensures from.Host? && to.Host? ==> !p.async && !p.recordsEvent
    ensures p.recordsEvent <==> build.Accelerated? && !(from.Host? && to.Host?)
    ensures p.async == p.recordsEvent && (p.waits <==> p.recordsEvent && waitFinished)
  {
    if from.Host? && to.Host? then CopyPlan(false, false, false)
    else if build.HostOnly? then CopyPlan(false, false, false)
    else CopyPlan(true, true, waitFinished)
  }

  /** Without the accelerator every container lives on the host, whatever was asked for. */
  function StoredLocation(build: Build, requested: Location): Location {
    if build.HostOnly? then Host else requested
  }

  /** What the destructor does with the buffer. */
  datatype DestructorOutcome = ReturnedNow | Deferred | Skipped | LoggedOnly

  /** The destructor's decision from the build and the stream's status. */
  function DestructorDecision(build: Build, status: Cuda.CudaError): (o: DestructorOutcome)
    ensures o == ReturnedNow <==> build.HostOnly? || status.Success?
    ensures o == Deferred <==> build.Accelerated? && status.NotReady?
    ensures o == Skipped <==> build.Accelerated? && status.CudartUnloading?
    ensures o == LoggedOnly <==> build.Accelerated? && status.OtherError?
  {
    if build.HostOnly? then ReturnedNow
    else if !status.Success? && !status.NotReady? && !status.CudartUnloading? then LoggedOnly
    else if !status.CudartUnloading? then (if status.Success? then ReturnedNow else Deferred)
    else Skipped
  }

  /** The logged error is reported through the named check, which flags it as a failure. */
  lemma LoggedOnlyReportsFailure(status: Cuda.CudaError, file: string, line: int, func: string, name: Option<string>)
    requires DestructorDecision(Accelerated, status) == LoggedOnly
    ensures !Cuda.CudaSafeCall2Named(status, file, line, func, name).ok
  {
  }

  /** `std::copy` of `src` to the front of `dst`. */
  method StdCopy<T>(src: seq<T>, dst: array<T>)
    requires |src| <= dst.Length
    modifies dst
    ensures dst[..|src|] == src && dst[|src|..] == old(dst[|src|..])
  {
    for i := 0 to |src|
      invariant dst[..i] == src[..i] && dst[|src|..] == old(dst[|src|..])
    {
      dst[i] := src[i];
    }
  }

  /** New storage for `|data|` elements, filled by `std::copy` from `data`. */
  method NewFilled<T(0)>(data: seq<T>) returns (a: array<T>)
    ensures fresh(a) && a[..] == data
  {
    a := new T[|data|];
    StdCopy(data, a);
    assert a[..] == a[..|data|];
  }

  class Container<T(0)> {
    const factory: ContainerFactory
    /** `T`, as `getType` names it, and `sizeof(T)`. */
    const elementType: ElementType
    const elemSize: nat
    var numel: nat
    var location: Location
    var stream: Stream
    var buffer: array<T>
    var ptr: Ptr
    var name: Option<string>
    var creationEvent: CreationEvent
    /** False once the destructor has run. */
    var live: bool

    /** The pool key of this container's bytes. */
    function Key(): PoolKey
      reads this
    {
      PoolKey(location, numel * elemSize)
    }

    ghost predicate Valid()
      reads this, factory
    {
      && factory.Valid()
      && Shaped()
      && (live ==> ptr in factory.owner && factory.owner[ptr] == Leased(Key()))
    }

    /** The container's own fields agree: sizes, storage, name and location. */
    ghost predicate Shaped()
      reads this
    {
      && numel > 0 && elemSize == SizeOf(elementType) && buffer.Length == numel
      && NameFits(name)
      && location.IsReal()
      && (factory.build.HostOnly? ==> location == Host)
    }

    /**
     * `acquireMemory(m_numel * sizeof(T), m_location)`, the last step of every
     * constructor: the pool's rule picks the buffer and leases it to this container.
     */
    method Lease()
      requires factory.Valid() && Shaped() && live
      modifies this`ptr, factory
      ensures Valid()
      ensures Acquired(old(factory.freeLists), old(factory.nextAddress), factory.freeLists, factory.nextAddress, Key(), ptr)
      ensures ptr in old(factory.owner) ==> old(factory.owner)[ptr].Pooled?
      ensures factory.owner == old(factory.owner)[ptr := Leased(Key())]
      ensures factory.pending == old(factory.pending) && factory.streams == old(factory.streams)
      ensures factory.streamIndex == old(factory.streamIndex)
    {
      ptr := factory.AcquireMemory(numel * elemSize, location);
    }

    /**
     * The size-only constructor: `numel` elements at the stored location,
     * `numel * sizeof(T)` bytes acquired from the pool; contents unspecified.
     */
    constructor Sized(factory: ContainerFactory, elementType: ElementType, location: Location,
                      associatedStream: Stream, numel: nat, name: Option<string>)
      requires factory.Valid() && numel > 0
      requires factory.build.Accelerated? ==> location.IsReal()
      modifies factory
      ensures Valid() && live && fresh(buffer)
      ensures this.factory == factory && this.elementType == elementType && elemSize == SizeOf(elementType)
      ensures this.numel == numel && this.location == StoredLocation(factory.build, location)
      ensures stream == associatedStream && this.name == StoredName(name) && creationEvent == NoEvent
      ensures Acquired(old(factory.freeLists), old(factory.nextAddress), factory.freeLists, factory.nextAddress, Key(), ptr)
      ensures factory.owner == old(factory.owner)[ptr := Leased(Key())]
      ensures factory.pending == old(factory.pending) && factory.streams == old(factory.streams)
      ensures factory.streamIndex == old(factory.streamIndex)
    {
      this.factory := factory;
      this.elementType := elementType;
      elemSize := SizeOf(elementType);
      this.numel := numel;
      this.location := StoredLocation(factory.build, location);
      stream := associatedStream;
      this.name := StoredName(name);
      buffer := new T[numel];
      creationEvent := NoEvent;
      live := true;
      ptr := 0;
      new;
      Lease();
    }

    /**
     * The constructor from a vector: `data.size()` elements holding `data`.
     * It waits on the creation event only when one was recorded.
     */
    constructor FromVector(factory: ContainerFactory, elementType: ElementType, location: Location,
                           associatedStream: Stream, data: seq<T>, waitFinished: bool, name: Option<string>)
      requires factory.Valid() && |data| > 0
      requires factory.build.Accelerated? ==> location.IsReal()
      modifies factory
      ensures Valid() && live && fresh(buffer)
      ensures this.factory == factory && this.elementType == elementType && elemSize == SizeOf(elementType)
      ensures numel == |data| && buffer[..] == data
      ensures this.location == StoredLocation(factory.build, location) && stream == associatedStream && this.name == StoredName(name)
      ensures creationEvent == EventAfter(VectorCopyPlan(factory.build, location, waitFinished))
      ensures Acquired(old(factory.freeLists), old(factory.nextAddress), factory.freeLists, factory.nextAddress, Key(), ptr)
      ensures factory.owner == old(factory.owner)[ptr := Leased(Key())]
      ensures factory.pending == old(factory.pending) && factory.streams == old(factory.streams)
      ensures factory.streamIndex == old(factory.streamIndex)
    {
      this.factory := factory;
      this.elementType := elementType;
      elemSize := SizeOf(elementType);
      numel := |data|;
      this.location := StoredLocation(factory.build, location);
      stream := associatedStream;
      this.name := StoredName(name);
      var storage := NewFilled(data);
      buffer := storage;
      creationEvent := EventAfter(VectorCopyPlan(factory.build, location, waitFinished));
      live := true;
      ptr := 0;
      new;
      Lease();
    }

    /** The constructor from the range `src[begin..end]`: `end - begin` elements holding it. */
    constructor FromRange(factory: ContainerFactory, elementType: ElementType, location: Location,
                          associatedStream: Stream, src: array<T>, begin: nat, end: nat, waitFinished: bool,
                          name: Option<string>)
      requires factory.Valid() && begin < end <= src.Length
      requires factory.build.Accelerated? ==> location.IsReal()
      modifies factory
      ensures Valid() && live && fresh(buffer)
      ensures this.factory == factory && this.elementType == elementType && elemSize == SizeOf(elementType)
      ensures numel == end - begin && buffer[..] == src[begin..end] && unchanged(src)
      ensures this.location == StoredLocation(factory.build, location) && stream == associatedStream && this.name == StoredName(name)
      ensures creationEvent == EventAfter(RangeCopyPlan(factory.build, waitFinished))
      ensures Acquired(old(factory.freeLists), old(factory.nextAddress), factory.freeLists, factory.nextAddress, Key(), ptr)
      ensures factory.owner == old(factory.owner)[ptr := Leased(Key())]
      ensures factory.pending == old(factory.pending) && factory.streams == old(factory.streams)
      ensures factory.streamIndex == old(factory.streamIndex)
    {
      this.factory := factory;
      this.elementType := elementType;
      elemSize := SizeOf(elementType);
      numel := end - begin;
      this.location := StoredLocation(factory.build, location);
      stream := associatedStream;
      this.name := StoredName(name);
      var storage := NewFilled(src[begin..end]);
      buffer := storage;
      creationEvent := EventAfter(RangeCopyPlan(factory.build, waitFinished));
      live := true;
      ptr := 0;
      new;
      Lease();
    }

    /**
     * The copying constructor: a new buffer at `location` with the source's
     * size, stream and contents; the source is left as it was.
     */
    constructor CopyFrom(location: Location, source: Container<T>, waitFinished: bool, name: Option<string>)
      requires source.Valid() && source.live
      requires source.factory.build.Accelerated? ==> location.IsReal()
      modifies source.factory
      ensures Valid() && live && fresh(buffer)
      ensures factory == source.factory && elementType == source.elementType && elemSize == source.elemSize
      ensures numel == source.numel && GetStream() == source.GetStream() && buffer[..] == source.buffer[..]
      ensures this.location == StoredLocation(factory.build, location) && this.name == StoredName(name)
      ensures creationEvent == EventAfter(TransferCopyPlan(factory.build, source.location, location, waitFinished))
      ensures source.Valid() && unchanged(source, source.buffer) && ptr != source.ptr
      ensures Acquired(old(source.factory.freeLists), old(source.factory.nextAddress), factory.freeLists, factory.nextAddress, Key(), ptr)
      ensures factory.owner == old(source.factory.owner)[ptr := Leased(Key())]
      ensures factory.pending == old(source.factory.pending) && factory.streams == old(source.factory.streams)
      ensures factory.streamIndex == old(source.factory.streamIndex)
    {
      factory := source.factory;
      elementType := source.elementType;
      elemSize := source.elemSize;
      numel := source.numel;
      this.location := StoredLocation(source.factory.build, location);
      stream := source.stream;
      this.name := StoredName(name);
      var storage := NewFilled(source.buffer[..]);
      buffer := storage;
      creationEvent := EventAfter(TransferCopyPlan(source.factory.build, source.location, location, waitFinished));
      live := true;
      ptr := 0;
      new;
      ghost var sourceKey := source.Key();
      assert source.ptr in factory.owner && factory.owner[source.ptr] == Leased(sourceKey);
      Lease();
      assert factory.owner[source.ptr] == Leased(sourceKey);
    }

    /** `waitCreationFinished`: waits on the creation event, if one is recorded, and destroys it. */
    method WaitCreationFinished()
      modifies this
      ensures creationEvent == if old(creationEvent) == Recorded then Destroyed else old(creationEvent)
      ensures numel == old(numel) && location == old(location) && stream == old(stream)
      ensures buffer == old(buffer) && ptr == old(ptr) && name == old(name) && live == old(live)
    {
      if creationEvent == Recorded {
        creationEvent := Destroyed;
      }
    }

    /**
     * The destructor. `status` is what querying the stream reports and `now`
     * the pool's clock. The buffer goes back to the pool with exactly the
     * byte count and location it was acquired with, at once or through a
     * callback on the stream, or not at all.
     */
    method Destroy(status: Cuda.CudaError, now: Time) returns (outcome: DestructorOutcome)
      requires Valid() && live
      modifies this, factory
      ensures Valid() && !live
      ensures outcome == DestructorDecision(factory.build, status)
      ensures numel == old(numel) && location == old(location) && ptr == old(ptr) && stream == old(stream)
      ensures buffer == old(buffer) && name == old(name) && creationEvent == old(creationEvent)
      ensures outcome == ReturnedNow ==>
        && factory.freeLists == old(factory.freeLists)[Key() := QueueOf(old(factory.freeLists), Key()) + [PooledBuffer(ptr, now)]]
        && factory.owner == old(factory.owner)[ptr := Pooled(Key(), now)]
        && factory.pending == old(factory.pending)
      ensures outcome == Deferred ==>
        && factory.pending == old(factory.pending) + [DeferredRelease(stream, ptr, numel * elemSize, location)]
        && factory.owner == old(factory.owner)[ptr := Pending(Key())]
        && factory.freeLists == old(factory.freeLists)
      ensures outcome == Skipped || outcome == LoggedOnly ==>
        && factory.freeLists == old(factory.freeLists) && factory.owner == old(factory.owner)
        && factory.pending == old(factory.pending)
      ensures factory.streams == old(factory.streams) && factory.streamIndex == old(factory.streamIndex)
      ensures factory.nextAddress == old(factory.nextAddress)
    {
      outcome := DestructorDecision(factory.build, status);
      live := false;
      match outcome
      case ReturnedNow =>
        factory.ReturnMemory(ptr, numel * elemSize, location, now);
      case Deferred =>
        factory.DeferRelease(stream, ptr, numel * elemSize, location);
      case Skipped =>
      case LoggedOnly =>
    }

    /** `get`: the buffer. */
    function Get(): (b: array<T>)
      reads this, factory
      requires Valid()
      ensures b.Length == numel
    {
      buffer
    }

    /** `size`: the number of elements the container holds. */
    function Size(): (n: nat)
      reads this, factory
      requires Valid()
      ensures n > 0 && n == buffer.Length
    {
      numel
    }

    predicate IsHost()
      reads this
    {
      location == Host
    }

    predicate IsGpu()
      reads this
    {
      location == Gpu
    }

    predicate IsBoth()
      reads this
    {
      location == Both
    }

    /** `getLocation`: always the host without the accelerator. */
    function GetLocation(): (l: Location)
      reads this, factory
      requires Valid()
      ensures l.IsReal() && (factory.build.HostOnly? ==> l == Host)
      ensures l == Host <==> IsHost()
    {
      location
    }

    /** `getStream`: the stream the container was built on, which no later member changes. */
    function GetStream(): (s: Stream)
      reads this
      ensures s == stream
    {
      stream
    }

    /** `getType`: the element type's tag, never `TypeUnknown`, which only the base class reports. */
    function GetType(): (t: DataType)
      reads this
      ensures t.IsListed() && t != TypeUnknown
      ensures forall other: ElementType :: DataTypeGet(other) == t ==> other == elementType
    {
      DataTypeGetInjectiveAll(elementType);
      DataTypeGet(elementType)
    }

    /**
     * `getCopyHostRaw`: with the accelerator, a new host array holding the
     * contents; without it, the null pointer.
     */
    method GetCopyHostRaw() returns (r: Option<array<T>>)
      requires Valid()
      ensures r.None? <==> factory.build.HostOnly?
      ensures r.Some? ==> fresh(r.value) && r.value[..] == buffer[..]
    {
      if factory.build.HostOnly? {
        return None;
      }
      var a := new T[numel];
      StdCopy(buffer[..], a);
      assert a[..] == a[..numel];
      r := Some(a);
    }

    /**
     * `copyTo(dst, maxSize)`: with the accelerator, the contents go to the
     * front of `dst`; without it nothing happens.
     */
    method CopyTo(dst: array<T>, maxSize: nat)
      requires Valid() && dst != buffer
      requires factory.build.Accelerated? ==> numel <= maxSize <= dst.Length
      modifies dst
      ensures factory.build.Accelerated? ==> dst[..numel] == buffer[..] && dst[numel..] == old(dst[numel..])
      ensures factory.build.HostOnly? ==> dst[..] == old(dst[..])
    {
      if factory.build.Accelerated? {
        StdCopy(buffer[..], dst);
      }
    }
  }

  /** `DataTypeGet` is injective, as `getType` relies on. */
  lemma DataTypeGetInjectiveAll(e: ElementType)
    ensures forall other: ElementType :: DataTypeGet(other) == DataTypeGet(e) ==> other == e
  {
    forall other: ElementType | DataTypeGet(other) == DataTypeGet(e)
      ensures other == e
    {
      DataTypeGetInjective(other, e);
    }
  }

  /** Exactly one of `isHost`, `isGPU` and `isBoth` holds, matching `getLocation`. */
  lemma LocationPredicatesExclusive<T(0)>(c: Container<T>)
    requires c.Valid()
    ensures c.IsHost() <==> c.GetLocation() == Host
    ensures c.IsGpu() <==> c.GetLocation() == Gpu
    ensures c.IsBoth() <==> c.GetLocation() == Both
    ensures (c.IsHost() && !c.IsGpu() && !c.IsBoth()) || (!c.IsHost() && c.IsGpu() && !c.IsBoth())
      || (!c.IsHost() && !c.IsGpu() && c.IsBoth())
  {
  }

  /**
   * 1000 `int32` elements on the host take exactly 4000 bytes; once the
   * container is destroyed on an idle stream, the next such container gets
   * the same buffer back, and the system allocator was asked only once.
   */
  method ReuseScenario(factory: ContainerFactory, stream: Stream, now: Time) returns (first: Container<int>, second: Container<int>)
    requires factory.Valid()
    requires QueueOf(factory.freeLists, PoolKey(Host, 4000)) == []
    modifies factory
    ensures first.numel * first.elemSize == 4000 && first.location == Host
    ensures second.ptr == first.ptr && second.live && !first.live
    ensures factory.nextAddress == old(factory.nextAddress) + 1
  {
    first := new Container.Sized(factory, Int32Elem, Host, stream, 1000, None);
    assert first.Key() == PoolKey(Host, 4000);
    var outcome := first.Destroy(Cuda.Success, now);
    second := new Container.Sized(factory, Int32Elem, Host, stream, 1000, None);
  }
}
