/** One producer, one consumer and one resizer on a queue, interleaved at critical-section granularity
    (frameworks/surface/src/buffer_queue.cpp). */
module BufferQueueSystem {
  import opened BufferQueues
  import opened Wrappers
  import opened Sequences

  /** What a flush hands over to the consumer. */
  datatype Frame = Frame(sequence: int, extra: int, fence: int, damage: Damage, timestamp: int)

  /** A frame that left the dirty list: acquired by the consumer, or dropped with its buffer. */
  datatype Removed = Removed(frame: Frame, acquired: bool)

  datatype Producer = Ready | Asleep(config: Config) | Flushing(f: Flush)
  datatype Consumer = Free | Releasing(sequence: int, fence: int)
  datatype Resizer = Settled | Storing(size: int)

  /** The queue, the program counters of the three threads, and the frame history. */
  datatype System = System(
    q: Queue, producer: Producer, consumer: Consumer, resizer: Resizer, flushed: seq<Frame>, removed: seq<Removed>)

  datatype Action =
    | RequestBuffer(config: Config, alloc: Alloc)
    | WakeUp(alloc: Alloc)
    | CancelBuffer(sequence: int, extra: int)
    | FlushChecks(f: Flush)
    | FlushCommits(listening: bool, cacheFlush: GSError)
    | AcquireBuffer
    | ReleaseChecks(sequence: int, fence: int)
    | ReleaseCallback
    | ReleaseCommits
    | ResizeDeletes(size: int)
    | ResizeStores
    | AttachBuffer(buffer: Buffer)
    | DetachBuffer(sequence: int)
    | CleanCache

  // ----- frames -----

  function FrameOf(q: Queue, s: int): Frame {
    if s in q.cache then
      var e := q.cache[s];
      Frame(s, e.extra, e.fence, e.damage, e.timestamp)
    else Frame(s, 0, 0, Damage(0, 0, 0, 0), 0)
  }

  function Frames(q: Queue, list: seq<int>): seq<Frame> {
    if list == [] then [] else [FrameOf(q, list[0])] + Frames(q, list[1..])
  }

  function FramesRemoved(rs: seq<Removed>): seq<Frame> {
    if rs == [] then [] else [rs[0].frame] + FramesRemoved(rs[1..])
  }

  function Discard(fs: seq<Frame>): seq<Removed> {
    if fs == [] then [] else [Removed(fs[0], false)] + Discard(fs[1..])
  }

  /** The frames that leave the dirty list when q becomes q'. */
  function Lost(q: Queue, q': Queue): seq<Frame> {
    if |q'.dirty| <= |q.dirty| then Frames(q, q.dirty[..|q.dirty| - |q'.dirty|]) else []
  }

  // ----- steps -----

  function Initial(): System { System(NewQueue(), Ready, Free, Settled, [], []) }

  predicate FlushPending(s: System, sequence: int) { s.producer.Flushing? && s.producer.f.sequence == sequence }

  predicate ReleasePending(s: System, sequence: int) { s.consumer.Releasing? && s.consumer.sequence == sequence }

  /** Detaching does not take the entry of a pending commit away. */
  predicate DetachSafe(s: System, x: int) {
    && !(FlushPending(s, x) && InState(s.q, x, Requested))
    && !(ReleasePending(s, x) && InState(s.q, x, Acquired))
  }

  predicate FreshAlloc(q: Queue, alloc: Alloc) { alloc.Allocated? ==> Unknown(q, alloc.sequence) }

  /** When a thread can take the step. Allocation gives unknown numbers, attaching brings in attachable ones; an
      attached buffer is not flushed and released at once, and cleaning and detaching do not hit a pending commit. */
  ghost predicate Enabled(s: System, a: Action) {
    match a
    case RequestBuffer(config, alloc) => s.producer.Ready? && FreshAlloc(s.q, alloc)
    case WakeUp(alloc) => s.producer.Asleep? && FreshAlloc(s.q, alloc)
    case CancelBuffer(_, _) => s.producer.Ready?
    case FlushChecks(f) => s.producer.Ready? && !ReleasePending(s, f.sequence)
    case FlushCommits(_, _) => s.producer.Flushing?
    case AcquireBuffer => s.consumer.Free?
    case ReleaseChecks(sequence, _) => s.consumer.Free? && !FlushPending(s, sequence)
    case ReleaseCallback => s.consumer.Releasing?
    case ReleaseCommits => s.consumer.Releasing?
    case ResizeDeletes(size) => s.resizer.Settled? && SizeCheck(size).OK?
    case ResizeStores => s.resizer.Storing?
    case AttachBuffer(buffer) => Attachable(s.q, buffer.seqNum)
    case DetachBuffer(sequence) => DetachSafe(s, sequence)
    case CleanCache => !s.producer.Flushing? && !s.consumer.Releasing?
  }

  /** The entry a commit works on must be in the cache: the source dereferences it unchecked. */
  predicate CommitsSafe(s: System) {
    && (s.producer.Flushing? ==> s.producer.f.sequence in s.q.cache)
    && (s.consumer.Releasing? ==> s.consumer.sequence in s.q.cache)
  }

  function AfterRequest(s: System, outcome: (Queue, Outcome), config: Config): System {
    s.(q := outcome.0, producer := if outcome.1.Waits? then Asleep(config) else Ready)
  }

  /** The frame a flush hands in, from its own arguments; the time counts only when the CPU cache could be flushed. */
  function FrameGiven(q: Queue, f: Flush, cacheFlush: GSError): Frame
    requires f.sequence in q.cache
  {
    Frame(f.sequence, f.extra, f.fence, f.damage, if cacheFlush.OK? then f.time else q.cache[f.sequence].timestamp)
  }

  function AfterFlush(s: System, f: Flush, cacheFlush: GSError): System
    requires f.sequence in s.q.cache
  {
    var q' := DoFlush(s.q, f, cacheFlush).0;
    s.(q := q', producer := Ready,
       flushed := if s.q.cache[f.sequence].isDeleting then s.flushed else s.flushed + [FrameGiven(s.q, f, cacheFlush)])
  }

  /** q' is reached from the queue by deleting entries: the frames lost are recorded as dropped. */
  function AfterLoss(s: System, q': Queue): System {
    s.(q := q', removed := s.removed + Discard(Lost(s.q, q')))
  }

  ghost function Step(s: System, a: Action): System
    requires Enabled(s, a) && CommitsSafe(s)
    requires (forall x :: x in s.q.free ==> x in s.q.cache) && (s.q.dirty != [] ==> s.q.dirty[0] in s.q.cache)
  {
    match a
    case RequestBuffer(config, alloc) => AfterRequest(s, Take(s.q, config, alloc, Waits), config)
    case WakeUp(alloc) => AfterRequest(s, Take(s.q, s.producer.config, alloc, Failed(NO_BUFFER)), s.producer.config)
    case CancelBuffer(sequence, extra) => s.(q := Cancel(s.q, sequence, extra).0)
    case FlushChecks(f) => if FlushCheck(s.q, f.sequence).OK? then s.(producer := Flushing(f)) else s
    case FlushCommits(listening, cacheFlush) =>
      var f := s.producer.f;
      if listening then AfterFlush(s, f, cacheFlush)
      else s.(q := Cancel(s.q, f.sequence, f.extra).0, producer := Ready)
    case AcquireBuffer =>
      if s.q.dirty == [] then s
      else s.(q := Acquire(s.q), removed := s.removed + [Removed(FrameOf(s.q, s.q.dirty[0]), true)])
    case ReleaseChecks(sequence, fence) =>
      if ReleaseCheck(s.q, sequence).OK? then s.(consumer := Releasing(sequence, fence)) else s
    case ReleaseCallback => s.(consumer := Free)
    case ReleaseCommits =>
      s.(q := Release(s.q, s.consumer.sequence, s.consumer.fence), consumer := Free)
    case ResizeDeletes(size) => AfterLoss(s, Evict(s.q, s.q.queueSize - size)).(resizer := Storing(size))
    case ResizeStores => s.(q := s.q.(queueSize := s.resizer.size), resizer := Settled)
    case AttachBuffer(buffer) => AfterLoss(s, Attach(s.q, buffer).0)
    case DetachBuffer(sequence) => s.(q := Detach(s.q, sequence).0)
    case CleanCache => AfterLoss(s, Clean(s.q))
  }

  // ----- the invariant of the interleaving -----

  /** A passed check still holds: the entry is there, in a checked state, and not under both commits. */
  ghost predicate ChecksHold(s: System) {
    && (s.producer.Flushing? ==> FlushCheck(s.q, s.producer.f.sequence).OK?)
    && (s.consumer.Releasing? ==> ReleaseCheck(s.q, s.consumer.sequence).OK?)
    && (s.producer.Flushing? && s.consumer.Releasing? ==> s.producer.f.sequence != s.consumer.sequence)
    && (s.resizer.Storing? ==> SizeCheck(s.resizer.size).OK?)
  }

  /** Every frame flushed has been acquired, was dropped, or is queued, in flush order. */
  ghost predicate Conserved(s: System) {
    s.flushed == FramesRemoved(s.removed) + Frames(s.q, s.q.dirty)
  }

  ghost predicate SysInv(s: System) { Inv(s.q) && ChecksHold(s) && Conserved(s) }

  lemma SafeToStep(s: System)
    requires Inv(s.q) && ChecksHold(s)
    ensures CommitsSafe(s)
    ensures (forall x :: x in s.q.free ==> x in s.q.cache) && (s.q.dirty != [] ==> s.q.dirty[0] in s.q.cache)
  {
    FreeReleased(s.q);
    if s.q.dirty != [] {
      AcquireKeeps(s.q);
    }
  }

  // ----- frame lemmas -----

  lemma {:induction false} FramesSame(q: Queue, q': Queue, list: seq<int>)
    requires forall x :: x in list ==> x in q.cache && x in q'.cache && q'.cache[x] == q.cache[x]
    ensures Frames(q', list) == Frames(q, list)
  {
    if list != [] {
      var x := list[0];
      assert x in list;
      FramesSame(q, q', list[1..]);
    }
  }

  lemma {:induction false} FramesAppend(q: Queue, a: seq<int>, b: seq<int>)
    ensures Frames(q, a + b) == Frames(q, a) + Frames(q, b)
  {
    if a == [] {
      assert a + b == b;
    } else {
      assert (a + b)[0] == a[0] && (a + b)[1..] == a[1..] + b;
      FramesAppend(q, a[1..], b);
      Regroup([FrameOf(q, a[0])], Frames(q, a[1..]), Frames(q, b));
    }
  }

  lemma {:induction false} FramesRemovedAppend(a: seq<Removed>, b: seq<Removed>)
    ensures FramesRemoved(a + b) == FramesRemoved(a) + FramesRemoved(b)
  {
    if a == [] {
      assert a + b == b;
    } else {
      assert (a + b)[0] == a[0] && (a + b)[1..] == a[1..] + b;
      FramesRemovedAppend(a[1..], b);
      Regroup([a[0].frame], FramesRemoved(a[1..]), FramesRemoved(b));
    }
  }

  lemma {:induction false} DiscardFrames(fs: seq<Frame>)
    ensures FramesRemoved(Discard(fs)) == fs
  {
    if fs != [] {
      DiscardFrames(fs[1..]);
    }
  }

  lemma FrameOne(q: Queue, x: int)
    ensures Frames(q, [x]) == [FrameOf(q, x)]
  {
    assert [x][1..] == [];
  }

  /** Entries of the dirty list are as they were: the frames queued are the same. */
  ghost predicate DirtyKept(q: Queue, q': Queue) {
    q'.dirty == q.dirty && forall x :: x in q.dirty ==> x in q.cache && x in q'.cache && q'.cache[x] == q.cache[x]
  }

  lemma ConservedKept(s: System, s': System)
    requires Conserved(s) && DirtyKept(s.q, s'.q) && s'.flushed == s.flushed && s'.removed == s.removed
    ensures Conserved(s')
  {
    FramesSame(s.q, s'.q, s.q.dirty);
  }

  lemma ConservedFlushed(s: System, s': System, x: int)
    requires Conserved(s) && s'.q.dirty == s.q.dirty + [x] && s'.removed == s.removed
    requires forall y :: y in s.q.dirty ==> y in s.q.cache && y in s'.q.cache && s'.q.cache[y] == s.q.cache[y]
    requires s'.flushed == s.flushed + [FrameOf(s'.q, x)]
    ensures Conserved(s')
  {
    FramesSame(s.q, s'.q, s.q.dirty);
    FramesAppend(s'.q, s.q.dirty, [x]);
    FrameOne(s'.q, x);
  }

  /** The first n frames leave the queue, recorded in gone. */
  lemma ConservedRemoved(s: System, s': System, n: nat, gone: seq<Removed>)
    requires Conserved(s) && n <= |s.q.dirty| && s'.q.dirty == s.q.dirty[n..] && s'.flushed == s.flushed
    requires s'.removed == s.removed + gone && FramesRemoved(gone) == Frames(s.q, s.q.dirty[..n])
    requires forall y :: y in s.q.dirty[n..] ==> y in s.q.cache && y in s'.q.cache && s'.q.cache[y] == s.q.cache[y]
    ensures Conserved(s')
  {
    assert s.q.dirty == s.q.dirty[..n] + s.q.dirty[n..];
    FramesAppend(s.q, s.q.dirty[..n], s.q.dirty[n..]);
    FramesSame(s.q, s'.q, s.q.dirty[n..]);
    FramesRemovedAppend(s.removed, gone);
    Regroup(FramesRemoved(s.removed), Frames(s.q, s.q.dirty[..n]), Frames(s.q, s.q.dirty[n..]));
  }

  // ----- the queue operations, seen from a pending commit -----

  /** A pending commit survives when its entry stays in a state its check accepts. */
  ghost predicate PendingKept(s: System, q': Queue) {
    && (s.producer.Flushing? ==> FlushCheck(q', s.producer.f.sequence).OK?)
    && (s.consumer.Releasing? ==> ReleaseCheck(q', s.consumer.sequence).OK?)
  }

  /** Entries that are neither released nor among those named keep their state. */
  ghost predicate InFlightKept(q: Queue, q': Queue, but: set<int>) {
    forall x :: InFlight(q, x) && x !in but ==> x in q'.cache && q'.cache[x].state == q.cache[x].state
  }

  lemma PendingFromInFlight(s: System, q': Queue, but: set<int>)
    requires ChecksHold(s) && InFlightKept(s.q, q', but)
    requires s.producer.Flushing? ==> s.producer.f.sequence !in but
    requires s.consumer.Releasing? ==> s.consumer.sequence !in but
    ensures PendingKept(s, q')
  {
    if s.producer.Flushing? { assert InFlight(s.q, s.producer.f.sequence); }
    if s.consumer.Releasing? { assert InFlight(s.q, s.consumer.sequence); }
  }

  /** Every entry not in the free list is as it was. */
  ghost predicate Untouched(q: Queue, q': Queue) {
    q'.dirty == q.dirty
    && forall x :: x in q.cache && !q.cache[x].state.Released? ==> x in q'.cache && q'.cache[x] == q.cache[x]
  }

  lemma TakeUntouched(q: Queue, config: Config, alloc: Alloc, onFull: Outcome)
    requires Inv(q) && FreshAlloc(q, alloc) && !onFull.Granted?
    ensures forall x :: x in q.free ==> x in q.cache
    ensures Inv(Take(q, config, alloc, onFull).0) && Untouched(q, Take(q, config, alloc, onFull).0)
  {
    TakeKeeps(q, config, alloc, onFull);
    hide Inv, Take;
    var (q', o) := Take(q, config, alloc, onFull);
    forall x | x in q.cache && !q.cache[x].state.Released? ensures x in q'.cache && q'.cache[x] == q.cache[x] {
      assert o.Granted? && o.reply.buffer.None? ==> InState(q, o.reply.sequence, Released);
    }
  }

  lemma UntouchedDirty(q: Queue, q': Queue)
    requires Inv(q) && Untouched(q, q')
    ensures DirtyKept(q, q')
  {
    ListStates(q);
    hide Inv;
    forall x | x in q.dirty ensures x in q.cache && x in q'.cache && q'.cache[x] == q.cache[x] {
      assert InState(q, x, Flushed);
    }
  }

  lemma UntouchedInFlight(q: Queue, q': Queue)
    requires Untouched(q, q')
    ensures InFlightKept(q, q', {})
  {}

  lemma TakeSeen(q: Queue, config: Config, alloc: Alloc, onFull: Outcome)
    requires Inv(q) && FreshAlloc(q, alloc) && !onFull.Granted?
    ensures forall x :: x in q.free ==> x in q.cache
    ensures var q' := Take(q, config, alloc, onFull).0;
      Inv(q') && DirtyKept(q, q') && InFlightKept(q, q', {})
  {
    TakeUntouched(q, config, alloc, onFull);
    hide Inv, Take, Untouched, DirtyKept, InFlightKept;
    var q' := Take(q, config, alloc, onFull).0;
    UntouchedDirty(q, q');
    UntouchedInFlight(q, q');
  }

  lemma CancelSeen(q: Queue, x: int, extra: int)
    requires Inv(q)
    ensures var q' := Cancel(q, x, extra).0;
      && Inv(q') && DirtyKept(q, q') && InFlightKept(q, q', if InState(q, x, Requested) then {x} else {})
  {
    CancelKeeps(q, x, extra);
    ListStates(q);
    hide Inv;
    assert InState(q, x, Requested) ==> x !in q.dirty;
    forall y | y in q.dirty ensures y in q.cache { assert InState(q, y, Flushed); }
  }

  lemma FlushSeen(q: Queue, f: Flush, cacheFlush: GSError)
    requires Inv(q) && FlushCheck(q, f.sequence).OK?
    ensures var q' := DoFlush(q, f, cacheFlush).0;
      && Inv(q') && InFlightKept(q, q', {f.sequence})
      && (forall y :: y in q.dirty ==> y in q.cache && y in q'.cache && q'.cache[y] == q.cache[y])
  {
    DoFlushKeeps(q, f, cacheFlush);
    ListStates(q);
    hide Inv;
    forall y | y in q.dirty ensures y in q.cache && y != f.sequence { assert InState(q, y, Flushed); }
  }

  lemma AcquireSeen(q: Queue)
    requires Inv(q) && q.dirty != []
    ensures q.dirty[0] in q.cache
    ensures var q' := Acquire(q);
      && Inv(q') && InFlightKept(q, q', {})
      && (forall y :: y in q.dirty[1..] ==> y in q.cache && y in q'.cache && q'.cache[y] == q.cache[y])
  {
    AcquireKeeps(q);
    ListStates(q);
    DirtyDistinct(q);
    hide Inv;
    var d := q.dirty[0];
    assert d in q.dirty;
    assert InState(q, d, Flushed);
    forall y | y in q.dirty[1..] ensures y in q.cache && y != d { assert y in q.dirty; assert InState(q, y, Flushed); }
  }

  lemma DirtyDistinct(q: Queue)
    requires Inv(q)
    ensures Distinct(q.dirty)
  {}

  lemma ReleaseSeen(q: Queue, x: int, fence: int)
    requires Inv(q) && ReleaseCheck(q, x).OK?
    ensures var q' := Release(q, x, fence);
      Inv(q') && DirtyKept(q, q') && InFlightKept(q, q', {x})
  {
    ReleaseKeeps(q, x, fence);
    ListStates(q);
    hide Inv;
    forall y | y in q.dirty ensures y in q.cache && y != x { assert InState(q, y, Flushed); }
  }

  lemma DetachSeen(q: Queue, x: int)
    requires Inv(q)
    ensures var q' := Detach(q, x).0;
      Inv(q') && DirtyKept(q, q') && InFlightKept(q, q', {x})
  {
    DetachKeeps(q, x);
    ListStates(q);
    hide Inv;
    forall y | y in q.dirty ensures y in q.cache { assert InState(q, y, Flushed); }
    assert Detach(q, x).1.OK? ==> !InState(q, x, Flushed);
  }

  // ----- the steps -----

  lemma RequestStep(s: System, config: Config, alloc: Alloc, onFull: Outcome)
    requires SysInv(s) && !s.producer.Flushing? && FreshAlloc(s.q, alloc) && !onFull.Granted?
    ensures forall x :: x in s.q.free ==> x in s.q.cache
    ensures SysInv(AfterRequest(s, Take(s.q, config, alloc, onFull), config))
  {
    TakeSeen(s.q, config, alloc, onFull);
    hide Inv, Take;
    var s' := AfterRequest(s, Take(s.q, config, alloc, onFull), config);
    PendingFromInFlight(s, s'.q, {});
    ConservedKept(s, s');
  }

  lemma CancelStep(s: System, x: int, extra: int)
    requires SysInv(s) && (FlushPending(s, x) || !s.producer.Flushing?)
    ensures SysInv(s.(q := Cancel(s.q, x, extra).0, producer := Ready))
    ensures s.producer.Ready? ==> SysInv(s.(q := Cancel(s.q, x, extra).0))
  {
    CancelSeen(s.q, x, extra);
    hide Inv, Cancel;
    var s' := s.(q := Cancel(s.q, x, extra).0, producer := Ready);
    var but := if InState(s.q, x, Requested) then {x} else {};
    PendingFromInFlight(s.(producer := Ready), s'.q, but);
    ConservedKept(s, s');
  }

  lemma FlushStep(s: System, cacheFlush: GSError)
    requires SysInv(s) && s.producer.Flushing?
    ensures s.producer.f.sequence in s.q.cache && SysInv(AfterFlush(s, s.producer.f, cacheFlush))
  {
    var f := s.producer.f;
    FlushSeen(s.q, f, cacheFlush);
    hide Inv;
    var s' := AfterFlush(s, f, cacheFlush);
    PendingFromInFlight(s.(producer := Ready), s'.q, {f.sequence});
    if s.q.cache[f.sequence].isDeleting {
      ConservedKept(s, s');
    } else {
      assert FrameGiven(s.q, f, cacheFlush) == FrameOf(s'.q, f.sequence);
      ConservedFlushed(s, s', f.sequence);
    }
  }

  lemma AcquireStep(s: System)
    requires SysInv(s) && s.q.dirty != []
    ensures s.q.dirty[0] in s.q.cache
    ensures SysInv(s.(q := Acquire(s.q), removed := s.removed + [Removed(FrameOf(s.q, s.q.dirty[0]), true)]))
  {
    AcquireSeen(s.q);
    hide Inv;
    var gone := [Removed(FrameOf(s.q, s.q.dirty[0]), true)];
    var s' := s.(q := Acquire(s.q), removed := s.removed + gone);
    PendingFromInFlight(s, s'.q, {});
    FrameOne(s.q, s.q.dirty[0]);
    assert s.q.dirty[..1] == [s.q.dirty[0]];
    assert gone[1..] == [];
    ConservedRemoved(s, s', 1, gone);
  }

  lemma ReleaseStep(s: System)
    requires SysInv(s) && s.consumer.Releasing?
    ensures s.consumer.sequence in s.q.cache
    ensures SysInv(s.(q := Release(s.q, s.consumer.sequence, s.consumer.fence), consumer := Free))
  {
    var x := s.consumer.sequence;
    ReleaseSeen(s.q, x, s.consumer.fence);
    hide Inv;
    var s' := s.(q := Release(s.q, x, s.consumer.fence), consumer := Free);
    PendingFromInFlight(s.(consumer := Free), s'.q, {x});
    ConservedKept(s, s');
  }

  /** q' has lost the first frames of the queue, and no entry in flight. */
  lemma ShrinkStep(s: System, q': Queue, n: nat)
    requires SysInv(s) && Inv(q') && LostFrames(s.q, q', n) && PendingKept(s, q')
    ensures SysInv(AfterLoss(s, q'))
  {
    hide Inv;
    DiscardFrames(Lost(s.q, q'));
    ConservedRemoved(s, AfterLoss(s, q'), n, Discard(Lost(s.q, q')));
  }

  lemma ResizeStep(s: System, size: int)
    requires SysInv(s) && SizeCheck(size).OK?
    ensures SysInv(AfterLoss(s, Evict(s.q, s.q.queueSize - size)).(resizer := Storing(size)))
  {
    var count := s.q.queueSize - size;
    EvictKeeps(s.q, count);
    EvictSeen(s.q, count);
    hide Inv, Evict, LostFrames, InFlightKept, Conserved;
    PendingFromInFlight(s, Evict(s.q, count), {});
    ShrinkStep(s, Evict(s.q, count), FromDirty(s.q, count));
    StoringKeeps(AfterLoss(s, Evict(s.q, count)), size);
  }

  lemma StoringKeeps(s: System, size: int)
    requires SysInv(s) && SizeCheck(size).OK?
    ensures SysInv(s.(resizer := Storing(size)))
  {
    hide Inv;
  }

  /** q' has lost its first n frames; the others, and the entries in flight, are as they were. */
  ghost predicate LostFrames(q: Queue, q': Queue, n: nat) {
    && n <= |q.dirty| && q'.dirty == q.dirty[n..]
    && (forall y :: y in q'.dirty ==> y in q.cache && y in q'.cache && q'.cache[y] == q.cache[y])
  }

  lemma EvictSeen(q: Queue, count: int)
    requires Inv(q)
    ensures LostFrames(q, Evict(q, count), FromDirty(q, count)) && InFlightKept(q, Evict(q, count), {})
  {
    EvictEffect(q, count);
    hide Inv, Evict;
  }

  lemma RoomSeen(q: Queue) returns (n: nat)
    requires Inv(q)
    ensures LostFrames(q, Room(q), n) && InFlightKept(q, Room(q), {})
  {
    hide Inv, Evict, LostFrames, InFlightKept;
    if |q.cache| < q.queueSize {
      NothingLost(q);
      n := 0;
    } else {
      var count := |q.cache| - q.queueSize + 1;
      EvictSeen(q, count);
      n := FromDirty(q, count);
    }
  }

  lemma AttachSeen(q: Queue, b: Buffer) returns (n: nat)
    requires Inv(q) && Attachable(q, b.seqNum) && Attach(q, b).1.OK?
    ensures var q' := Attach(q, b).0;
      Inv(q') && LostFrames(q, q', n) && InFlightKept(q, q', {b.seqNum}) && InState(q', b.seqNum, Attached)
  {
    AttachExact(q, b);
    RoomKeeps(q, b);
    n := RoomSeen(q);
    hide Inv, Evict, Attachable, Room, Attach;
  }

  lemma NothingLost(q: Queue)
    requires Inv(q)
    ensures LostFrames(q, q, 0) && InFlightKept(q, q, {})
  {
    ListStates(q);
    hide Inv;
    forall y | y in q.dirty ensures y in q.cache { assert InState(q, y, Flushed); }
  }

  lemma AttachStep(s: System, b: Buffer)
    requires SysInv(s) && Attachable(s.q, b.seqNum)
    ensures SysInv(AfterLoss(s, Attach(s.q, b).0))
  {
    if Attach(s.q, b).1.OK? {
      var n := AttachSeen(s.q, b);
      hide Inv, Attach, Attachable;
      AttachPending(s, Attach(s.q, b).0, b.seqNum);
      ShrinkStep(s, Attach(s.q, b).0, n);
    } else {
      NothingLost(s.q);
      hide Inv, Evict, Attachable;
      ShrinkStep(s, s.q, 0);
    }
  }

  lemma AttachPending(s: System, q': Queue, x: int)
    requires ChecksHold(s) && InFlightKept(s.q, q', {x})
    requires InState(q', x, Attached)
    ensures PendingKept(s, q')
  {
    if s.producer.Flushing? { assert InFlight(s.q, s.producer.f.sequence); }
    if s.consumer.Releasing? { assert InFlight(s.q, s.consumer.sequence); }
  }

  lemma StoreStep(s: System)
    requires SysInv(s) && s.resizer.Storing?
    ensures SysInv(s.(q := s.q.(queueSize := s.resizer.size), resizer := Settled))
  {
    SizeChange(s.q, s.resizer.size);
    ListStates(s.q);
    hide Inv;
    var s' := s.(q := s.q.(queueSize := s.resizer.size), resizer := Settled);
    forall y | y in s.q.dirty ensures y in s.q.cache { assert InState(s.q, y, Flushed); }
    ConservedKept(s, s');
  }

  lemma DetachStep(s: System, x: int)
    requires SysInv(s) && DetachSafe(s, x)
    ensures SysInv(s.(q := Detach(s.q, x).0))
  {
    DetachSeen(s.q, x);
    hide Inv;
    if Detach(s.q, x).1.OK? {
      var s' := s.(q := Detach(s.q, x).0);
      PendingFromInFlight(s, s'.q, {x});
      ConservedKept(s, s');
    }
  }

  lemma CleanStep(s: System)
    requires SysInv(s) && !s.producer.Flushing? && !s.consumer.Releasing?
    ensures SysInv(AfterLoss(s, Clean(s.q)))
  {
    CleanKeeps(s.q);
    hide Inv;
    assert s.q.dirty[|s.q.dirty|..] == [];
    ShrinkStep(s, Clean(s.q), |s.q.dirty|);
  }

  /** Every step of every thread keeps the invariant, with checks and commits as separate steps. */
  lemma StepKeeps(s: System, a: Action)
    requires SysInv(s) && Enabled(s, a)
    ensures CommitsSafe(s)
    ensures (forall x :: x in s.q.free ==> x in s.q.cache) && (s.q.dirty != [] ==> s.q.dirty[0] in s.q.cache)
    ensures SysInv(Step(s, a))
  {
    SafeToStep(s);
    hide SysInv, Take, Cancel, Evict, Attach, Attachable, Acquire, Release, Detach, AfterRequest, AfterFlush, AfterLoss;
    match a
    case RequestBuffer(config, alloc) => RequestStep(s, config, alloc, Waits);
    case WakeUp(alloc) => RequestStep(s, s.producer.config, alloc, Failed(NO_BUFFER));
    case CancelBuffer(sequence, extra) => CancelStep(s, sequence, extra);
    case FlushChecks(f) => if FlushCheck(s.q, f.sequence).OK? { FlushCheckStep(s, f); }
    case FlushCommits(listening, cacheFlush) =>
      if listening { FlushStep(s, cacheFlush); } else { CancelStep(s, s.producer.f.sequence, s.producer.f.extra); }
    case AcquireBuffer => if s.q.dirty != [] { AcquireStep(s); }
    case ReleaseChecks(sequence, fence) => if ReleaseCheck(s.q, sequence).OK? { ReleaseCheckStep(s, sequence, fence); }
    case ReleaseCallback => CallbackStep(s);
    case ReleaseCommits => ReleaseStep(s);
    case ResizeDeletes(size) => ResizeStep(s, size);
    case ResizeStores => StoreStep(s);
    case AttachBuffer(buffer) => AttachStep(s, buffer);
    case DetachBuffer(sequence) => DetachStep(s, sequence);
    case CleanCache => CleanStep(s);
  }

  lemma FlushCheckStep(s: System, f: Flush)
    requires SysInv(s) && !ReleasePending(s, f.sequence) && FlushCheck(s.q, f.sequence).OK?
    ensures SysInv(s.(producer := Flushing(f)))
  {
    hide Inv;
    ConservedPcs(s, s.(producer := Flushing(f)));
  }

  lemma ReleaseCheckStep(s: System, x: int, fence: int)
    requires SysInv(s) && !FlushPending(s, x) && ReleaseCheck(s.q, x).OK?
    ensures SysInv(s.(consumer := Releasing(x, fence)))
  {
    hide Inv;
    ConservedPcs(s, s.(consumer := Releasing(x, fence)));
  }

  lemma CallbackStep(s: System)
    requires SysInv(s)
    ensures SysInv(s.(consumer := Free))
  {
    hide Inv;
    ConservedPcs(s, s.(consumer := Free));
  }

  lemma ConservedPcs(s: System, s': System)
    requires Conserved(s) && s'.q == s.q && s'.flushed == s.flushed && s'.removed == s.removed
    ensures Conserved(s')
  {}

  // ----- runs -----

  /** The actions can be taken one after the other from s. */
  ghost predicate CanRun(s: System, actions: seq<Action>)
    requires SysInv(s)
    decreases |actions|
  {
    actions == []
    || (Enabled(s, actions[0])
        && (StepKeeps(s, actions[0]); CanRun(Step(s, actions[0]), actions[1..])))
  }

  ghost function Run(s: System, actions: seq<Action>): System
    requires SysInv(s) && CanRun(s, actions)
    decreases |actions|
  {
    if actions == [] then s
    else
      StepKeeps(s, actions[0]);
      Run(Step(s, actions[0]), actions[1..])
  }

  lemma InitialInv()
    ensures SysInv(Initial())
  {
    NewQueueInv();
  }

  /** In every reachable state the lists agree with the entry states, every passed check still holds, and the
      frames flushed are those removed followed by those queued. */
  lemma {:induction false} RunKeeps(s: System, actions: seq<Action>)
    requires SysInv(s) && CanRun(s, actions)
    ensures SysInv(Run(s, actions)) && CommitsSafe(Run(s, actions))
    decreases |actions|
  {
    if actions == [] {
      SafeToStep(s);
    } else {
      StepKeeps(s, actions[0]);
      RunKeeps(Step(s, actions[0]), actions[1..]);
    }
  }

  /** Whatever run led to s, the next acquired frame is the oldest one flushed and not yet removed, with the fence,
      damage, extra data and timestamp its flush was given. */
  lemma AcquiredInOrder(s: System)
    requires SysInv(s) && s.q.dirty != []
    ensures |FramesRemoved(s.removed)| < |s.flushed|
    ensures s.q.dirty[0] in s.q.cache
    ensures FrameOf(s.q, s.q.dirty[0]) == s.flushed[|FramesRemoved(s.removed)|]
  {
    SafeToStep(s);
  }

  /** The condition the interleaving puts on attached buffers is needed: an attached entry passes both checks, and
      committing both breaks the invariant. */
  lemma DoubleCommitBreaks(q: Queue, f: Flush, cacheFlush: GSError, fence: int)
    requires Inv(q) && InState(q, f.sequence, Attached) && !q.cache[f.sequence].isDeleting
    ensures FlushCheck(q, f.sequence).OK? && ReleaseCheck(q, f.sequence).OK?
    ensures var q' := DoFlush(q, f, cacheFlush).0;
      f.sequence in q'.cache && !Inv(Release(q', f.sequence, fence))
  {
    var q' := DoFlush(q, f, cacheFlush).0;
    var q2 := Release(q', f.sequence, fence);
    assert q'.dirty[|q'.dirty| - 1] == f.sequence;
    assert f.sequence in q2.dirty;
    assert !InState(q2, f.sequence, Flushed);
  }

  /** For buffers that were never attached the condition is void: no entry passes both checks. */
  lemma ChecksExclusive(q: Queue, x: int)
    ensures FlushCheck(q, x).OK? && ReleaseCheck(q, x).OK? <==> InState(q, x, Attached)
  {}

  /** A clean leaves both commits safe exactly when none is pending. */
  lemma CleanSafeExact(s: System)
    requires SysInv(s)
    ensures CommitsSafe(s.(q := Clean(s.q))) <==> !s.producer.Flushing? && !s.consumer.Releasing?
  {}

  /** Detaching keeps the invariant exactly when it does not hit a requested entry under a pending flush or an acquired
      one under a pending release. */
  lemma DetachSafeExact(s: System, x: int)
    requires SysInv(s)
    ensures SysInv(s.(q := Detach(s.q, x).0)) <==> DetachSafe(s, x)
  {
    if DetachSafe(s, x) {
      DetachStep(s, x);
    } else {
      assert !ChecksHold(s.(q := Detach(s.q, x).0));
    }
  }

  /** A resize whose two sections follow each other at once is SetQueueSize. */
  lemma ResizeIsSetQueueSize(s: System, size: int)
    requires SysInv(s) && Enabled(s, ResizeDeletes(size))
    ensures CommitsSafe(s)
    ensures (forall x :: x in s.q.free ==> x in s.q.cache) && (s.q.dirty != [] ==> s.q.dirty[0] in s.q.cache)
    ensures var s1 := Step(s, ResizeDeletes(size));
      SysInv(s1) && Enabled(s1, ResizeStores) && CommitsSafe(s1)
      && (forall x :: x in s1.q.free ==> x in s1.q.cache) && (s1.q.dirty != [] ==> s1.q.dirty[0] in s1.q.cache)
      && Step(s1, ResizeStores).q == Resized(s.q, size)
  {
    StepKeeps(s, ResizeDeletes(size));
    var s1 := Step(s, ResizeDeletes(size));
    SafeToStep(s1);
    hide SysInv, Evict, CommitsSafe;
  }
}
