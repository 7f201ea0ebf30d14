/** The slot map and the lists of one buffer queue (frameworks/surface/src/buffer_queue.cpp), non-shared mode. */
module BufferQueues {
  import opened Ordered
  import opened Sequences
  import opened Wrappers

  const MAX_QUEUE_SIZE: int := 32
  const DEFAULT_QUEUE_SIZE: int := 3
  const INVALID_FENCE: int := -1
  const EMPTY_EXTRA: int := 0

  datatype GSError =
    | OK
    | NO_CONSUMER
    | INVALID_ARGUMENTS
    | NO_BUFFER
    | NO_ENTRY
    | INVALID_OPERATING
    | OUT_OF_RANGE
    | API_FAILED
    | Other(code: int)

  datatype BufferState = Released | Requested | Flushed | Acquired | Attached
  datatype ColorGamut = SRGB | OtherGamut(code: int)
  datatype Transform = RotateNone | OtherTransform(code: int)
  datatype Scaling = ScaleToWindow | OtherScaling(code: int)
  datatype Damage = Damage(x: int, y: int, w: int, h: int)

  datatype Config = Config(
    width: int, height: int, strideAlignment: int, format: int, usage: int, timeout: int,
    gamut: ColorGamut, transform: Transform, scaling: Scaling)

  datatype Buffer = Buffer(seqNum: int, width: int, height: int, format: int, usage: int)

  /** A cache entry; extra is the extra data its buffer object carries. */
  datatype Element = Element(
    buffer: Buffer, state: BufferState, isDeleting: bool, config: Config,
    fence: int, timestamp: int, damage: Damage, extra: int)

  datatype Queue = Queue(
    queueSize: int, free: seq<int>, dirty: seq<int>, deleting: seq<int>, cache: map<int, Element>)

  /** What allocating and mapping a new buffer gives: its sequence number, or an error. */
  datatype Alloc = Allocated(sequence: int) | Refused(error: GSError)

  datatype Reply = Reply(sequence: int, buffer: Option<Buffer>, fence: int, extra: int, deleting: seq<int>)

  /** A request ends with a reply or an error, or goes to sleep on the condition variable. */
  datatype Outcome = Granted(reply: Reply) | Failed(error: GSError) | Waits

  // ----- the invariant -----

  predicate InState(q: Queue, s: int, state: BufferState) {
    s in q.cache && q.cache[s].state == state
  }

  ghost predicate ListOf(q: Queue, list: seq<int>, state: BufferState) {
    Distinct(list) && forall s :: s in list <==> InState(q, s, state)
  }

  ghost predicate Bounded(q: Queue) {
    1 <= q.queueSize <= MAX_QUEUE_SIZE && |q.cache| <= MAX_QUEUE_SIZE
  }

  ghost predicate Entries(q: Queue) {
    forall s :: s in q.cache ==> q.cache[s].buffer.seqNum == s && (q.cache[s].state.Flushed? ==> !q.cache[s].isDeleting)
  }

  ghost predicate Inv(q: Queue) {
    && Bounded(q)
    && ListOf(q, q.free, Released)
    && ListOf(q, q.dirty, Flushed)
    && Distinct(q.deleting)
    && (forall s :: s in q.deleting ==> s !in q.cache)
    && Entries(q)
  }

  /** A sequence number the queue does not know. */
  predicate Unknown(q: Queue, s: int) { s !in q.cache && s !in q.deleting }

  // ----- the critical sections -----

  function NewQueue(): Queue { Queue(DEFAULT_QUEUE_SIZE, [], [], [], map[]) }

  /** Position in the free list of the entry to hand out: the first of the wanted configuration, else the front. */
  function PopIndex(q: Queue, config: Config, from: nat := 0): (i: nat)
    requires from <= |q.free| && q.free != []
    requires forall s :: s in q.free ==> s in q.cache
    ensures i < |q.free|
    decreases |q.free| - from
  {
    if from == |q.free| then 0
    else
      var s := q.free[from];
      assert s in q.free;
      if q.cache[s].config == config then from else PopIndex(q, config, from + 1)
  }

  function Drop(q: Queue, s: int): Queue {
    if s in q.cache then q.(cache := q.cache - {s}, deleting := q.deleting + [s]) else q
  }

  function NewBuffer(s: int, config: Config): Buffer {
    Buffer(s, config.width, config.height, config.format, config.usage)
  }

  function NewElement(s: int, config: Config): Element {
    Element(NewBuffer(s, config), Requested, false, config, INVALID_FENCE, 0, Damage(0, 0, 0, 0), EMPTY_EXTRA)
  }

  function Put(q: Queue, s: int, e: Element): Queue { q.(cache := q.cache[s := e]) }

  function SetState(q: Queue, s: int, state: BufferState): Queue
    requires s in q.cache
  {
    Put(q, s, q.cache[s].(state := state))
  }

  /** Entry s, just taken off the free list, is handed out again, reallocated if the configuration differs. */
  function Reuse(q: Queue, s: int, config: Config, alloc: Alloc): (Queue, Outcome)
    requires s in q.cache
  {
    var e := q.cache[s];
    if config == e.config then
      (SetState(q, s, Requested).(deleting := []), Granted(Reply(s, None, e.fence, e.extra, q.deleting)))
    else
      var dropped := Drop(q, s);
      match alloc
      case Refused(error) => (dropped, Failed(error))
      case Allocated(n) =>
        (Put(dropped, n, NewElement(n, config)).(deleting := []),
         Granted(Reply(n, Some(NewBuffer(n, config)), INVALID_FENCE, EMPTY_EXTRA, dropped.deleting)))
  }

  function Allocate(q: Queue, config: Config, alloc: Alloc): (Queue, Outcome) {
    match alloc
    case Refused(error) => (q, Failed(error))
    case Allocated(n) =>
      (Put(q, n, NewElement(n, config)),
       Granted(Reply(n, Some(NewBuffer(n, config)), INVALID_FENCE, EMPTY_EXTRA, [])))
  }

  /** RequestBuffer under the lock; onFull is what happens when the free list is empty and the queue full. */
  function Take(q: Queue, config: Config, alloc: Alloc, onFull: Outcome): (Queue, Outcome)
    requires forall s :: s in q.free ==> s in q.cache
  {
    if q.free != [] then
      var i := PopIndex(q, config);
      Reuse(q.(free := Without(q.free, i)), q.free[i], config, alloc)
    else if |q.cache| >= q.queueSize then (q, onFull)
    else Allocate(q, config, alloc)
  }

  function Cancel(q: Queue, s: int, extra: int): (Queue, GSError) {
    if s !in q.cache then (q, NO_ENTRY)
    else if !q.cache[s].state.Requested? then (q, INVALID_OPERATING)
    else (Put(q, s, q.cache[s].(state := Released, extra := extra)).(free := q.free + [s]), OK)
  }

  function FlushCheck(q: Queue, s: int): GSError {
    if s in q.cache && (q.cache[s].state.Requested? || q.cache[s].state.Attached?) then OK else NO_ENTRY
  }

  /** The arguments of a flush; time is the timestamp given, or now when that is 0. */
  datatype Flush = Flush(sequence: int, extra: int, fence: int, damage: Damage, time: int)

  /** The committing half of FlushBuffer; cacheFlush is what FlushCache answers (OK where it is not called). */
  function DoFlush(q: Queue, f: Flush, cacheFlush: GSError): (Queue, GSError)
    requires f.sequence in q.cache
  {
    var s, e := f.sequence, q.cache[f.sequence];
    if e.isDeleting then (Drop(q, s), OK)
    else
      var e' := e.(state := Flushed, extra := f.extra, fence := f.fence, damage := f.damage,
                   timestamp := if cacheFlush.OK? then f.time else e.timestamp);
      (Put(q, s, e').(dirty := q.dirty + [s]), cacheFlush)
  }

  function Acquire(q: Queue): Queue
    requires q.dirty != [] && q.dirty[0] in q.cache
  {
    SetState(q, q.dirty[0], Acquired).(dirty := q.dirty[1..])
  }

  function ReleaseCheck(q: Queue, s: int): GSError {
    if s in q.cache && (q.cache[s].state.Acquired? || q.cache[s].state.Attached?) then OK else NO_ENTRY
  }

  function Release(q: Queue, s: int, fence: int): Queue
    requires s in q.cache
  {
    var released := Put(q, s, q.cache[s].(state := Released, fence := fence));
    if q.cache[s].isDeleting then Drop(released, s) else released.(free := q.free + [s])
  }

  /** The head of the free list is deleted. */
  function DropReleased(q: Queue): Queue
    requires q.free != []
  {
    Drop(q, q.free[0]).(free := q.free[1..])
  }

  function DropFlushed(q: Queue): Queue
    requires q.dirty != []
  {
    Drop(q, q.dirty[0]).(dirty := q.dirty[1..])
  }

  function DropFree(q: Queue, n: int): Queue
    decreases |q.free|
  {
    if n <= 0 || q.free == [] then q else DropFree(DropReleased(q), n - 1)
  }

  function DropDirty(q: Queue, n: int): Queue
    decreases |q.dirty|
  {
    if n <= 0 || q.dirty == [] then q else DropDirty(DropFlushed(q), n - 1)
  }

  function MarkOne(q: Queue, s: int): Queue {
    if s in q.cache then Put(q, s, q.cache[s].(isDeleting := true)) else q
  }

  function MarkKeys(q: Queue, keys: seq<int>, n: int): Queue
    decreases |keys|
  {
    if n <= 0 || keys == [] then q else MarkKeys(MarkOne(q, keys[0]), keys[1..], n - 1)
  }

  /** DeleteBuffers: released entries first, then flushed ones, then marks in key order. */
  ghost function Evict(q: Queue, count: int): Queue {
    var q1 := DropFree(q, count);
    var q2 := DropDirty(q1, count - |q.free|);
    MarkKeys(q2, Enumerate(q2.cache.Keys), count - |q.free| - |q.dirty|)
  }

  function AttachedElement(b: Buffer): Element {
    Element(b, Attached, false,
            Config(b.width, b.height, 8, b.format, b.usage, 0, SRGB, RotateNone, ScaleToWindow),
            INVALID_FENCE, 0, Damage(0, 0, b.width, b.height), EMPTY_EXTRA)
  }

  ghost function Attach(q: Queue, b: Buffer): (Queue, GSError) {
    if |q.cache| < q.queueSize then (Put(q, b.seqNum, AttachedElement(b)), OK)
    else if |q.dirty| + |q.free| >= |q.cache| - q.queueSize + 1 then
      (Put(Evict(q, |q.cache| - q.queueSize + 1), b.seqNum, AttachedElement(b)), OK)
    else (q, OUT_OF_RANGE)
  }

  function Detach(q: Queue, s: int): (Queue, GSError) {
    if s !in q.cache then (q, NO_ENTRY)
    else if q.cache[s].state.Requested? || q.cache[s].state.Acquired? then (q.(cache := q.cache - {s}), OK)
    else (q, NO_ENTRY)
  }

  function Clean(q: Queue): Queue { q.(free := [], dirty := [], deleting := [], cache := map[]) }

  /** SetQueueSize, once the new size is accepted. */
  ghost function Resized(q: Queue, size: int): Queue { Evict(q, q.queueSize - size).(queueSize := size) }

  function SizeCheck(n: int): GSError {
    if n <= 0 || n > MAX_QUEUE_SIZE then INVALID_ARGUMENTS else OK
  }

  // ----- each critical section keeps the invariant -----

  lemma NewQueueInv()
    ensures Inv(NewQueue())
  {}

  /** Everything but entry s and its place in the lists is as before, and s itself is in order. */
  ghost predicate OnlyEntry(q: Queue, q': Queue, s: int) {
    && (forall x :: x != s ==> (x in q.cache <==> x in q'.cache))
    && (forall x :: x != s && x in q.cache ==> q'.cache[x] == q.cache[x])
    && (forall x :: x != s ==> (x in q.free <==> x in q'.free))
    && (forall x :: x != s ==> (x in q.dirty <==> x in q'.dirty))
    && (forall x :: x != s && x in q'.deleting ==> x in q.deleting)
    && (s in q'.free <==> InState(q', s, Released))
    && (s in q'.dirty <==> InState(q', s, Flushed))
    && (s in q'.cache ==> s !in q'.deleting && q'.cache[s].buffer.seqNum == s)
    && (InState(q', s, Flushed) ==> !q'.cache[s].isDeleting)
  }

  lemma OneEntryKeeps(q: Queue, q': Queue, s: int)
    requires Inv(q) && OnlyEntry(q, q', s) && Bounded(q')
    requires Distinct(q'.free) && Distinct(q'.dirty) && Distinct(q'.deleting)
    ensures Inv(q')
  {
    forall x ensures x in q'.free <==> InState(q', x, Released) {
      assert x in q.free <==> InState(q, x, Released);
    }
    forall x ensures x in q'.dirty <==> InState(q', x, Flushed) {
      assert x in q.dirty <==> InState(q, x, Flushed);
    }
    forall x | x in q'.deleting ensures x !in q'.cache {
      assert x != s ==> x in q.deleting;
    }
  }

  lemma DropKeeps(q: Queue, s: int)
    requires Inv(q) && s !in q.free && s !in q.dirty
    ensures Inv(Drop(q, s))
  {
    var q' := Drop(q, s);
    if s in q.cache {
      DistinctAppend(q.deleting, s);
      OneEntryKeeps(q, q', s);
    }
  }

  /** A list with one entry taken out, the entry being no longer in that state. */
  lemma TakenOff(q: Queue, i: nat, e: Element)
    requires Inv(q) && i < |q.free|
    requires e.state !in {Released, Flushed} && e.buffer.seqNum == q.free[i]
    ensures Inv(Put(q.(free := Without(q.free, i)), q.free[i], e))
  {
    var s := q.free[i];
    DistinctWithout(q.free, i);
    assert s in q.free;
    assert InState(q, s, Released);
    var q' := Put(q.(free := Without(q.free, i)), s, e);
    assert q'.cache.Keys == q.cache.Keys;
    OneEntryKeeps(q, q', s);
  }

  lemma ClearedDeletingKeeps(q: Queue)
    requires Inv(q)
    ensures Inv(q.(deleting := []))
  {}

  lemma AddNew(q: Queue, n: int, config: Config)
    requires Inv(q) && Unknown(q, n) && |q.cache| < MAX_QUEUE_SIZE
    ensures Inv(Put(q, n, NewElement(n, config)))
  {
    OneEntryKeeps(q, Put(q, n, NewElement(n, config)), n);
  }

  /** Taking an entry off the free list for reuse, or for deletion and reallocation. */
  lemma ReuseKeeps(q: Queue, i: nat, config: Config, alloc: Alloc)
    requires Inv(q) && i < |q.free| && (alloc.Allocated? ==> Unknown(q, alloc.sequence))
    requires q.free[i] in q.cache
    ensures Inv(Reuse(q.(free := Without(q.free, i)), q.free[i], config, alloc).0)
  {
    var s := q.free[i];
    var e := q.cache[s].(state := Requested);
    var taken := q.(free := Without(q.free, i));
    TakenOff(q, i, e);
    if config == q.cache[s].config {
      ClearedDeletingKeeps(Put(taken, s, e));
    } else {
      DropKeeps(Put(taken, s, e), s);
      assert Drop(Put(taken, s, e), s).cache == Drop(taken, s).cache;
      assert Drop(Put(taken, s, e), s) == Drop(taken, s);
      if alloc.Allocated? {
        AddNew(Drop(taken, s), alloc.sequence, config);
        ClearedDeletingKeeps(Put(Drop(taken, s), alloc.sequence, NewElement(alloc.sequence, config)));
      }
    }
  }

  /** What a request can do to the entry it hands out: reuse a released one, or add the one just allocated. */
  ghost predicate Handed(q: Queue, q': Queue, r: Reply, config: Config, alloc: Alloc) {
    && InState(q', r.sequence, Requested)
    && q'.cache[r.sequence].config == config
    && r.fence == q'.cache[r.sequence].fence && r.extra == q'.cache[r.sequence].extra
    && (r.buffer.None? ==>
          InState(q, r.sequence, Released) && q'.cache == q.cache[r.sequence := q.cache[r.sequence].(state := Requested)]
          && r.deleting == q.deleting && q'.deleting == [])
    && (r.buffer.Some? ==> alloc == Allocated(r.sequence) && r.buffer.value == q'.cache[r.sequence].buffer)
    && (forall s :: s in r.deleting ==> s !in q'.cache && (s in q.deleting || s in q.cache))
  }

  lemma AllocateKeeps(q: Queue, config: Config, alloc: Alloc)
    requires Inv(q) && |q.cache| < q.queueSize && (alloc.Allocated? ==> Unknown(q, alloc.sequence))
    ensures Inv(Allocate(q, config, alloc).0)
  {
    if alloc.Allocated? {
      AddNew(q, alloc.sequence, config);
    }
  }

  lemma TakeInv(q: Queue, config: Config, alloc: Alloc, onFull: Outcome)
    requires Inv(q) && (alloc.Allocated? ==> Unknown(q, alloc.sequence))
    ensures (forall s :: s in q.free ==> s in q.cache) && Inv(Take(q, config, alloc, onFull).0)
  {
    FreeReleased(q);
    hide Inv, Reuse, Allocate, Unknown;
    if q.free != [] {
      var i := PopIndex(q, config);
      var s := q.free[i];
      assert s in q.free;
      ReuseKeeps(q, i, config, alloc);
    } else if |q.cache| < q.queueSize {
      AllocateKeeps(q, config, alloc);
    }
  }

  lemma FreeReleased(q: Queue)
    requires Inv(q)
    ensures forall s :: s in q.free ==> InState(q, s, Released)
    ensures forall s :: s in q.deleting ==> s !in q.cache
    ensures forall s :: s in q.free ==> s in q.cache
  {}

  /** Entries other than the one handed out are untouched; only the released one taken off may be gone. */
  ghost predicate OthersKept(q: Queue, q': Queue, o: Outcome) {
    && q'.queueSize == q.queueSize && q'.dirty == q.dirty
    && (forall s :: s in q'.cache && !(o.Granted? && s == o.reply.sequence) ==> s in q.cache && q'.cache[s] == q.cache[s])
    && (forall s :: s in q.cache && s !in q'.cache ==> InState(q, s, Released))
    && (forall s :: s in q'.deleting ==> s in q.deleting || s in q.cache)
  }

  lemma ReuseEffect(q: Queue, free: seq<int>, s: int, config: Config, alloc: Alloc)
    requires InState(q, s, Released) && (alloc.Allocated? ==> Unknown(q, alloc.sequence))
    requires forall x :: x in q.deleting ==> x !in q.cache
    ensures var (q', o) := Reuse(q.(free := free), s, config, alloc);
      OthersKept(q, q', o) && (o.Granted? ==> Handed(q, q', o.reply, config, alloc)) && |q'.cache| <= |q.cache|
  {
    var (q', o) := Reuse(q.(free := free), s, config, alloc);
    assert |q.cache - {s}| == |q.cache| - 1 by { assert (q.cache - {s}).Keys == q.cache.Keys - {s}; }
  }

  /** A request keeps the invariant, never raises the cache above the queue size, and hands out what it says. */
  lemma TakeKeeps(q: Queue, config: Config, alloc: Alloc, onFull: Outcome)
    requires Inv(q) && (alloc.Allocated? ==> Unknown(q, alloc.sequence)) && !onFull.Granted?
    ensures forall s :: s in q.free ==> s in q.cache
    ensures var (q', o) := Take(q, config, alloc, onFull);
      && Inv(q') && OthersKept(q, q', o)
      && |q'.cache| <= (if |q.cache| < q.queueSize then q.queueSize else |q.cache|)
      && (o.Granted? ==> Handed(q, q', o.reply, config, alloc))
  {
    TakeInv(q, config, alloc, onFull);
    FreeReleased(q);
    hide Inv;
    if q.free != [] {
      hide Reuse, OthersKept, Handed;
      var i := PopIndex(q, config);
      var s := q.free[i];
      assert s in q.free;
      ReuseEffect(q, Without(q.free, i), s, config, alloc);
    }
  }

  /** Cancelling works for a requested entry only; anything else is refused and changes nothing. */
  lemma CancelExact(q: Queue, s: int, extra: int)
    ensures var (q', ret) := Cancel(q, s, extra);
      && (ret == OK <==> InState(q, s, Requested))
      && (ret == NO_ENTRY <==> s !in q.cache)
      && (ret == INVALID_OPERATING <==> s in q.cache && q.cache[s].state != Requested)
      && (ret != OK ==> q' == q)
  {}

  /** What a flush and a release check for. */
  lemma ChecksExact(q: Queue, s: int)
    ensures FlushCheck(q, s) == if InState(q, s, Requested) || InState(q, s, Attached) then OK else NO_ENTRY
    ensures ReleaseCheck(q, s) == if InState(q, s, Acquired) || InState(q, s, Attached) then OK else NO_ENTRY
  {}

  lemma CancelKeeps(q: Queue, s: int, extra: int)
    requires Inv(q)
    ensures Inv(Cancel(q, s, extra).0)
  {
    if InState(q, s, Requested) {
      assert s !in q.free;
      DistinctAppend(q.free, s);
      OneEntryKeeps(q, Cancel(q, s, extra).0, s);
    }
  }

  lemma DoFlushKeeps(q: Queue, f: Flush, cacheFlush: GSError)
    requires Inv(q) && FlushCheck(q, f.sequence).OK?
    ensures Inv(DoFlush(q, f, cacheFlush).0)
  {
    var s := f.sequence;
    assert s !in q.free && s !in q.dirty;
    if q.cache[s].isDeleting {
      DropKeeps(q, s);
    } else {
      DistinctAppend(q.dirty, s);
      OneEntryKeeps(q, DoFlush(q, f, cacheFlush).0, s);
    }
  }

  lemma AcquireKeeps(q: Queue)
    requires Inv(q) && q.dirty != []
    ensures q.dirty[0] in q.cache && Inv(Acquire(q))
  {
    var s := q.dirty[0];
    assert s in q.dirty;
    assert InState(q, s, Flushed);
    DistinctWithout(q.dirty, 0);
    assert Without(q.dirty, 0) == q.dirty[1..];
    OneEntryKeeps(q, Acquire(q), s);
  }

  lemma ReleaseKeeps(q: Queue, s: int, fence: int)
    requires Inv(q) && ReleaseCheck(q, s).OK?
    ensures Inv(Release(q, s, fence))
  {
    assert s !in q.free && s !in q.dirty;
    if q.cache[s].isDeleting {
      DropKeeps(q, s);
      assert Release(q, s, fence) == Drop(q, s);
    } else {
      DistinctAppend(q.free, s);
      OneEntryKeeps(q, Release(q, s, fence), s);
    }
  }

  // ----- which entry a request takes -----

  predicate HasConfig(q: Queue, s: int, config: Config) {
    s in q.cache && q.cache[s].config == config
  }

  lemma {:induction false} PopIndexFirst(q: Queue, config: Config, from: nat, i: nat)
    requires from <= i < |q.free| && HasConfig(q, q.free[i], config)
    requires forall s :: s in q.free ==> s in q.cache
    requires forall j :: from <= j < i ==> !HasConfig(q, q.free[j], config)
    ensures PopIndex(q, config, from) == i
    decreases |q.free| - from
  {
    var s := q.free[from];
    assert s in q.free;
    if from < i {
      PopIndexFirst(q, config, from + 1, i);
    }
  }

  lemma {:induction false} PopIndexFront(q: Queue, config: Config, from: nat)
    requires from <= |q.free| && q.free != []
    requires forall s :: s in q.free ==> s in q.cache
    requires forall j :: from <= j < |q.free| ==> !HasConfig(q, q.free[j], config)
    ensures PopIndex(q, config, from) == 0
    decreases |q.free| - from
  {
    if from < |q.free| {
      var s := q.free[from];
      assert s in q.free;
      PopIndexFront(q, config, from + 1);
    }
  }

  /** A request is granted for the first free entry of its configuration, which leaves the free list and becomes
      requested; no buffer is sent, the waiting deletions are reported, and nothing else changes. */
  lemma TakeFirstMatching(q: Queue, i: nat, config: Config, alloc: Alloc, onFull: Outcome)
    requires Inv(q) && i < |q.free| && HasConfig(q, q.free[i], config)
    requires forall j :: 0 <= j < i ==> !HasConfig(q, q.free[j], config)
    ensures forall s :: s in q.free ==> s in q.cache
    ensures var s := q.free[i];
      Take(q, config, alloc, onFull)
      == (Queue(q.queueSize, Without(q.free, i), q.dirty, [], q.cache[s := q.cache[s].(state := Requested)]),
          Granted(Reply(s, None, q.cache[s].fence, q.cache[s].extra, q.deleting)))
  {
    FreeReleased(q);
    PopIndexFirst(q, config, 0, i);
    hide PopIndex, Inv;
  }

  /** The buffer a request gets allocated. */
  ghost predicate Fresh(q': Queue, o: Outcome, n: int, config: Config) {
    && o.Granted? && o.reply.sequence == n && o.reply.fence == INVALID_FENCE && o.reply.extra == EMPTY_EXTRA
    && o.reply.buffer == Some(Buffer(n, config.width, config.height, config.format, config.usage))
    && InState(q', n, Requested) && q'.cache[n].buffer == o.reply.buffer.value && q'.cache[n].config == config
    && !q'.cache[n].isDeleting
  }

  /** When free entries there are, but none of the configuration, the front one is deleted, and the request gets a new
      buffer if one can be allocated; the deletion is reported with it, or waits to be. */
  lemma TakeNoneMatching(q: Queue, config: Config, alloc: Alloc, onFull: Outcome)
    requires Inv(q) && q.free != [] && (alloc.Allocated? ==> Unknown(q, alloc.sequence))
    requires forall s :: s in q.free ==> !HasConfig(q, s, config)
    ensures forall s :: s in q.free ==> s in q.cache
    ensures var s := q.free[0];
      var (q', o) := Take(q, config, alloc, onFull);
      && s !in q'.cache && q'.free == q.free[1..] && q'.dirty == q.dirty && q'.queueSize == q.queueSize
      && (forall x :: x in q.cache && x != s ==> x in q'.cache && q'.cache[x] == q.cache[x])
      && match alloc {
           case Allocated(n) =>
             && Fresh(q', o, n, config) && o.reply.deleting == q.deleting + [s] && q'.deleting == []
             && q'.cache.Keys == q.cache.Keys - {s} + {n}
           case Refused(error) =>
             o == Failed(error) && q'.deleting == q.deleting + [s] && q'.cache.Keys == q.cache.Keys - {s}
         }
  {
    FreeReleased(q);
    PopIndexFront(q, config, 0);
    hide PopIndex, Inv;
    var s := q.free[0];
    assert s in q.free;
    assert Without(q.free, 0) == q.free[1..];
    ReallocatedExact(q.(free := q.free[1..]), s, config, alloc);
    hide Reuse, Fresh;
  }

  lemma ReallocatedExact(q: Queue, s: int, config: Config, alloc: Alloc)
    requires s in q.cache && q.cache[s].config != config && (alloc.Allocated? ==> Unknown(q, alloc.sequence))
    ensures var (q', o) := Reuse(q, s, config, alloc);
      && s !in q'.cache && q'.free == q.free && q'.dirty == q.dirty && q'.queueSize == q.queueSize
      && (forall x :: x in q.cache && x != s ==> x in q'.cache && q'.cache[x] == q.cache[x])
      && match alloc {
           case Allocated(n) =>
             && Fresh(q', o, n, config) && o.reply.deleting == q.deleting + [s] && q'.deleting == []
             && q'.cache.Keys == q.cache.Keys - {s} + {n}
           case Refused(error) =>
             o == Failed(error) && q'.deleting == q.deleting + [s] && q'.cache.Keys == q.cache.Keys - {s}
         }
  {}

  /** Without a free entry the request waits or fails on a full queue, and gets a new buffer otherwise. */
  lemma TakeNoneFree(q: Queue, config: Config, alloc: Alloc, onFull: Outcome)
    requires Inv(q) && q.free == [] && (alloc.Allocated? ==> Unknown(q, alloc.sequence))
    ensures var (q', o) := Take(q, config, alloc, onFull);
      if |q.cache| >= q.queueSize then (q', o) == (q, onFull)
      else match alloc {
             case Allocated(n) =>
               && Fresh(q', o, n, config) && o.reply.deleting == []
               && q' == q.(cache := q.cache[n := q'.cache[n]])
             case Refused(error) => (q', o) == (q, Failed(error))
           }
  {
    hide Inv;
  }

  /** Cancelling a reuse puts the entry at the end of the free list and changes nothing but its extra data; only the
      deletions reported with the reply are gone. */
  lemma CancelUndoesReuse(q: Queue, i: nat, config: Config, alloc: Alloc, onFull: Outcome, extra: int)
    requires Inv(q) && i < |q.free| && HasConfig(q, q.free[i], config)
    requires forall j :: 0 <= j < i ==> !HasConfig(q, q.free[j], config)
    ensures forall s :: s in q.free ==> s in q.cache
    ensures var s := q.free[i];
      var q1 := Take(q, config, alloc, onFull).0;
      && s in q.cache
      && Cancel(q1, s, extra) == (Queue(q.queueSize, Without(q.free, i) + [s], q.dirty, [],
                                        q.cache[s := q.cache[s].(extra := extra)]), OK)
  {
    var s := q.free[i];
    assert s in q.free;
    TakeFirstMatching(q, i, config, alloc, onFull);
    assert q.cache[s].state == Released by {
      assert InState(q, s, Released) by { FreeReleased(q); }
    }
    hide Take, Inv;
    var e := q.cache[s];
    var q1 := Take(q, config, alloc, onFull).0;
    assert q1.cache[s := e.(extra := extra)] == q.cache[s := e.(extra := extra)];
  }

  /** The consumer acquires the first n frames. */
  function AcquireMany(q: Queue, n: nat): Queue
    requires n <= |q.dirty| && forall x :: x in q.dirty ==> x in q.cache
    decreases n
  {
    if n == 0 then q
    else
      var s := q.dirty[0];
      assert s in q.dirty;
      AcquireMany(Acquire(q), n - 1)
  }

  lemma DirtyCached(q: Queue)
    requires Inv(q)
    ensures forall x :: x in q.dirty ==> x in q.cache
  {
    ListStates(q);
  }

  lemma AcquireEffect(q: Queue)
    requires Inv(q) && q.dirty != []
    ensures q.dirty[0] in q.cache && Inv(Acquire(q))
    ensures var x := q.dirty[0];
      Acquire(q) == q.(cache := q.cache[x := q.cache[x].(state := Acquired)], dirty := q.dirty[1..])
  {
    AcquireKeeps(q);
    hide Inv;
  }

  lemma {:induction false} AcquireManyExact(q: Queue, n: nat)
    requires Inv(q) && n <= |q.dirty|
    ensures forall x :: x in q.dirty ==> x in q.cache
    ensures var q' := AcquireMany(q, n);
      && Inv(q') && q'.free == q.free && q'.dirty == q.dirty[n..]
      && q'.deleting == q.deleting && q'.queueSize == q.queueSize && q'.cache.Keys == q.cache.Keys
      && (forall x :: x in q.cache ==>
            q'.cache[x] == if x in q.dirty[..n] then q.cache[x].(state := Acquired) else q.cache[x])
    decreases n
  {
    hide Inv, Acquire;
    DirtyCached(q);
    if n > 0 {
      AcquireEffect(q);
      var q1 := Acquire(q);
      AcquireManyExact(q1, n - 1);
      assert q.dirty[..n] == [q.dirty[0]] + q1.dirty[..n - 1];
    }
  }

  /** A flush, the acquisition of every frame up to this one, and the release bring an entry to the end of the free list
      with what the flush gave it and the release fence; the frames before it are acquired, and nothing else changes. An
      entry marked for deletion goes at the flush. */
  lemma FrameCycle(q: Queue, f: Flush, cacheFlush: GSError, fence: int)
    requires Inv(q) && FlushCheck(q, f.sequence).OK?
    ensures forall x :: x in q.dirty ==> x in q.cache
    ensures q.cache[f.sequence].isDeleting ==> DoFlush(q, f, cacheFlush) == (Drop(q, f.sequence), OK)
    ensures !q.cache[f.sequence].isDeleting ==>
      var s := f.sequence;
      var (q1, ret) := DoFlush(q, f, cacheFlush);
      && ret == cacheFlush && q1.dirty == q.dirty + [s] && (forall x :: x in q1.dirty ==> x in q1.cache)
      && var q2 := AcquireMany(q1, |q1.dirty|);
      && ReleaseCheck(q2, s).OK?
      && var q3 := Release(q2, s, fence);
      && q3.free == q.free + [s] && q3.dirty == [] && q3.deleting == q.deleting && q3.cache.Keys == q.cache.Keys
      && q3.cache[s] == q.cache[s].(state := Released, extra := f.extra, fence := fence, damage := f.damage,
                                    timestamp := if cacheFlush.OK? then f.time else q.cache[s].timestamp)
      && (forall x :: x in q.cache && x != s ==>
            q3.cache[x] == if x in q.dirty then q.cache[x].(state := Acquired) else q.cache[x])
  {
    hide Inv, AcquireMany, Acquire;
    ListStates(q);
    DoFlushKeeps(q, f, cacheFlush);
    if !q.cache[f.sequence].isDeleting {
      var q1 := DoFlush(q, f, cacheFlush).0;
      AcquireManyExact(q1, |q1.dirty|);
      assert q1.dirty[..|q1.dirty|] == q1.dirty;
      assert q1.cache.Keys == q.cache.Keys;
    }
  }

  /** Releasing an entry marked for deletion deletes it. */
  lemma ReleaseOfMarked(q: Queue, s: int, fence: int)
    requires Inv(q) && ReleaseCheck(q, s).OK? && q.cache[s].isDeleting
    ensures var q' := Release(q, s, fence);
      && q'.cache.Keys == q.cache.Keys - {s} && (forall x :: x in q'.cache ==> q'.cache[x] == q.cache[x])
      && q'.deleting == q.deleting + [s] && q'.free == q.free && q'.dirty == q.dirty && q'.queueSize == q.queueSize
  {
    hide Inv;
  }

  /** Detaching removes exactly a requested or acquired entry, which is not reported as deleted. */
  lemma DetachExact(q: Queue, s: int)
    ensures var (q', ret) := Detach(q, s);
      && (ret.OK? <==> InState(q, s, Requested) || InState(q, s, Acquired))
      && (!ret.OK? ==> ret == NO_ENTRY && q' == q)
      && (ret.OK? ==> && q'.cache.Keys == q.cache.Keys - {s}
                      && (forall x :: x in q'.cache ==> q'.cache[x] == q.cache[x])
                      && q' == q.(cache := q'.cache))
  {}

  lemma DetachKeeps(q: Queue, s: int)
    requires Inv(q)
    ensures Inv(Detach(q, s).0)
  {
    if Detach(q, s).1.OK? {
      assert s !in q.free && s !in q.dirty;
      OneEntryKeeps(q, Detach(q, s).0, s);
    }
  }

  lemma CleanKeeps(q: Queue)
    requires Bounded(q)
    ensures Inv(Clean(q)) && Clean(q) == Queue(q.queueSize, [], [], [], map[])
  {}

  // ----- DeleteBuffers -----

  /** The entries listed in gone were deleted, in that order, and no other. */
  ghost predicate Gone(q: Queue, q': Queue, gone: seq<int>) {
    && q'.queueSize == q.queueSize
    && q'.deleting == q.deleting + gone
    && |q'.cache| == |q.cache| - |gone|
    && (forall s :: s in q'.cache <==> s in q.cache && s !in gone)
    && (forall s :: s in q'.cache ==> q'.cache[s] == q.cache[s])
  }

  lemma GoneThen(q: Queue, q1: Queue, q2: Queue, a: seq<int>, b: seq<int>)
    requires Gone(q, q1, a) && Gone(q1, q2, b)
    ensures Gone(q, q2, a + b)
  {
    assert q.deleting + a + b == q.deleting + (a + b);
  }

  lemma GoneNothing(q: Queue)
    ensures Gone(q, q, [])
  {}

  lemma DropReleasedKeeps(q: Queue)
    requires Inv(q) && q.free != []
    ensures Inv(DropReleased(q)) && Gone(q, DropReleased(q), [q.free[0]])
    ensures DropReleased(q).free == q.free[1..] && DropReleased(q).dirty == q.dirty
  {
    var s := q.free[0];
    assert s in q.free && InState(q, s, Released);
    HeadOff(q.free);
    DistinctAppend(q.deleting, s);
    hide Distinct;
    OneEntryKeeps(q, DropReleased(q), s);
  }

  lemma DropFlushedKeeps(q: Queue)
    requires Inv(q) && q.dirty != []
    ensures Inv(DropFlushed(q)) && Gone(q, DropFlushed(q), [q.dirty[0]])
    ensures DropFlushed(q).dirty == q.dirty[1..] && DropFlushed(q).free == q.free
  {
    var s := q.dirty[0];
    assert s in q.dirty && InState(q, s, Flushed);
    HeadOff(q.dirty);
    DistinctAppend(q.deleting, s);
    hide Distinct;
    OneEntryKeeps(q, DropFlushed(q), s);
  }

  function Least2(a: int, b: nat): nat { if a < 0 then 0 else if a < b then a else b }

  lemma {:induction false} DropFreeExact(q: Queue, n: int)
    requires Inv(q)
    ensures var q' := DropFree(q, n);
      var a := Least2(n, |q.free|);
      Inv(q') && Gone(q, q', q.free[..a]) && q'.free == q.free[a..] && q'.dirty == q.dirty
    decreases |q.free|
  {
    hide Inv, Gone, DropReleased, DropFlushed;
    GoneNothing(q);
    if n > 0 && q.free != [] {
      var q1 := DropReleased(q);
      DropReleasedKeeps(q);
      DropFreeExact(q1, n - 1);
      var a := Least2(n, |q.free|);
      assert [q.free[0]] + q1.free[..a - 1] == q.free[..a];
      GoneThen(q, q1, DropFree(q, n), [q.free[0]], q1.free[..a - 1]);
    }
  }

  lemma {:induction false} DropDirtyExact(q: Queue, n: int)
    requires Inv(q)
    ensures var q' := DropDirty(q, n);
      var b := Least2(n, |q.dirty|);
      Inv(q') && Gone(q, q', q.dirty[..b]) && q'.dirty == q.dirty[b..] && q'.free == q.free
    decreases |q.dirty|
  {
    hide Inv, Gone, DropReleased, DropFlushed;
    GoneNothing(q);
    if n > 0 && q.dirty != [] {
      var q1 := DropFlushed(q);
      DropFlushedKeeps(q);
      DropDirtyExact(q1, n - 1);
      var b := Least2(n, |q.dirty|);
      assert [q.dirty[0]] + q1.dirty[..b - 1] == q.dirty[..b];
      GoneThen(q, q1, DropDirty(q, n), [q.dirty[0]], q1.dirty[..b - 1]);
    }
  }

  /** Exactly the entries in marked got the deletion mark, and nothing else changed. */
  ghost predicate Marked(q: Queue, q': Queue, marked: set<int>) {
    && q' == q.(cache := q'.cache)
    && marked <= q.cache.Keys && q'.cache.Keys == q.cache.Keys
    && (forall s :: s in q.cache ==> q'.cache[s] == if s in marked then q.cache[s].(isDeleting := true) else q.cache[s])
  }

  lemma MarkedThen(q: Queue, q1: Queue, q2: Queue, s: int, m: set<int>)
    requires Marked(q, q1, {s}) && Marked(q1, q2, m)
    ensures Marked(q, q2, {s} + m)
  {}

  lemma MarkOneExact(q: Queue, s: int)
    requires s in q.cache
    ensures Marked(q, MarkOne(q, s), {s})
  {}

  /** Marking along an enumeration of the keys marks the n lowest. */
  lemma {:induction false} MarkKeysExact(q: Queue, keys: seq<int>, n: int) returns (marked: set<int>)
    requires Ascending(keys) && forall s :: s in keys ==> s in q.cache
    ensures Marked(q, MarkKeys(q, keys, n), marked) && |marked| == Least2(n, |keys|)
    ensures forall s :: s in marked ==> s in keys
    ensures forall m, x :: m in marked && x in keys && x !in marked ==> m < x
    decreases |keys|
  {
    marked := {};
    if n > 0 && keys != [] {
      var s, rest := keys[0], keys[1..];
      assert s in keys;
      TailElements(keys);
      MarkOneExact(q, s);
      assert Ascending(rest);
      var m := MarkKeysExact(MarkOne(q, s), rest, n - 1);
      MarkedThen(q, MarkOne(q, s), MarkKeys(q, keys, n), s, m);
      marked := {s} + m;
      forall x | x in keys && x !in marked ensures s < x {
        assert x in rest;
        var j :| 0 <= j < |rest| && rest[j] == x;
        assert keys[j + 1] == x;
      }
    }
  }

  lemma MarkedKeeps(q: Queue, q': Queue, marked: set<int>)
    requires Inv(q) && Marked(q, q', marked) && (marked == {} || q.dirty == [])
    ensures Inv(q')
  {
    forall s ensures s in q'.free <==> InState(q', s, Released) {
      assert s in q.free <==> InState(q, s, Released);
    }
    forall s ensures s in q'.dirty <==> InState(q', s, Flushed) {
      assert s in q.dirty <==> InState(q, s, Flushed);
    }
    assert |q'.cache.Keys| == |q.cache.Keys|;
    forall s | s in q.cache && q.cache[s].state.Flushed? ensures !q'.cache[s].isDeleting {
      assert InState(q, s, Flushed);
    }
  }

  /** How many of the count entries are released ones, and how many flushed ones. */
  function FromFree(q: Queue, count: int): nat { Least2(count, |q.free|) }

  function FromDirty(q: Queue, count: int): nat { Least2(count - |q.free|, |q.dirty|) }

  lemma QueuedExact(q: Queue, count: int)
    requires Inv(q)
    ensures var q2 := DropDirty(DropFree(q, count), count - |q.free|);
      var a, b := FromFree(q, count), FromDirty(q, count);
      Inv(q2) && Gone(q, q2, q.free[..a] + q.dirty[..b]) && q2.free == q.free[a..] && q2.dirty == q.dirty[b..]
  {
    hide Inv, Gone, DropFree, DropDirty;
    var q1 := DropFree(q, count);
    DropFreeExact(q, count);
    DropDirtyExact(q1, count - |q.free|);
    GoneThen(q, q1, DropDirty(q1, count - |q.free|), q.free[..FromFree(q, count)], q.dirty[..FromDirty(q, count)]);
  }

  /** DeleteBuffers deletes or marks exactly min(max(count, 0), cache size) entries: released ones first, in list
      order, then flushed ones, in list order, and then it marks the lowest of the entries in flight. */
  lemma DeleteBuffersExact(q: Queue, count: int) returns (between: Queue, marked: set<int>)
    requires Inv(q)
    ensures var q' := Evict(q, count);
      var a, b := FromFree(q, count), FromDirty(q, count);
      && Inv(q') && q'.queueSize == q.queueSize
      && Gone(q, between, q.free[..a] + q.dirty[..b])
      && between.free == q.free[a..] && between.dirty == q.dirty[b..]
      && Marked(between, q', marked)
      && a + b + |marked| == Least2(count, |q.cache|)
      && (forall m, x :: m in marked && x in q'.cache && x !in marked ==> m < x)
  {
    hide Inv, Gone, MarkKeys, DropFree, DropDirty, Enumerate, Enumerates;
    between := DropDirty(DropFree(q, count), count - |q.free|);
    QueuedExact(q, count);
    var keys := Enumerate(between.cache.Keys);
    KeysEnumerated(between);
    marked := MarkKeysExact(between, keys, count - |q.free| - |q.dirty|);
    MarkedKeeps(between, Evict(q, count), marked);
    GoneCount(q, between, q.free[..FromFree(q, count)] + q.dirty[..FromDirty(q, count)]);
  }

  lemma KeysEnumerated(q: Queue)
    ensures var keys := Enumerate(q.cache.Keys);
      Ascending(keys) && |keys| == |q.cache| && forall s :: s in keys <==> s in q.cache
  {
    EnumerateProperties(q.cache.Keys);
  }

  lemma GoneCount(q: Queue, q': Queue, gone: seq<int>)
    requires Gone(q, q', gone)
    ensures |q'.cache| == |q.cache| - |gone| && q'.queueSize == q.queueSize
  {}

  /** Where each loop of DeleteBuffers returns. */
  lemma EvictCases(q: Queue, count: int)
    ensures count <= 0 ==> Evict(q, count) == q
    ensures count <= |q.free| ==> Evict(q, count) == DropFree(q, count)
    ensures count <= |q.free| + |q.dirty| ==> Evict(q, count) == DropDirty(DropFree(q, count), count - |q.free|)
    ensures var q2 := DropDirty(DropFree(q, count), count - |q.free|);
      Evict(q, count) == MarkKeys(q2, Enumerate(q2.cache.Keys), count - |q.free| - |q.dirty|)
  {
    hide Enumerate, Drop;
  }

  lemma EvictKeeps(q: Queue, count: int)
    requires Inv(q)
    ensures Inv(Evict(q, count)) && Evict(q, count).queueSize == q.queueSize
    ensures |Evict(q, count).cache| == |q.cache| - FromFree(q, count) - FromDirty(q, count)
  {
    var between, marked := DeleteBuffersExact(q, count);
    assert |Evict(q, count).cache.Keys| == |between.cache.Keys|;
  }

  predicate InFlight(q: Queue, s: int) {
    s in q.cache && !q.cache[s].state.Released? && !q.cache[s].state.Flushed?
  }

  /** DeleteBuffers leaves entries in flight in their state, and the frames it keeps untouched. */
  lemma EvictEffect(q: Queue, count: int)
    requires Inv(q)
    ensures var q' := Evict(q, count);
      && q'.dirty == q.dirty[FromDirty(q, count)..]
      && (forall s :: s in q'.dirty ==> s in q.cache && s in q'.cache && q'.cache[s] == q.cache[s])
      && (forall s :: InFlight(q, s) ==> s in q'.cache && q'.cache[s].state == q.cache[s].state)
  {
    var between, marked := DeleteBuffersExact(q, count);
    var a, b := FromFree(q, count), FromDirty(q, count);
    ListStates(q);
    var q' := Evict(q, count);
    hide Inv, Evict;
    forall s | InFlight(q, s) ensures s in q'.cache && q'.cache[s].state == q.cache[s].state {
      PrefixMembers(q.free, a, s);
      PrefixMembers(q.dirty, b, s);
      assert s !in q.free[..a] + q.dirty[..b];
    }
    forall s | s in q'.dirty ensures s in q.cache && s in q'.cache && q'.cache[s] == q.cache[s] {
      ListStates(q');
      assert InState(q', s, Flushed);
      assert marked == {} by { if marked != {} { MarkedNonEmpty(q, count, marked); } }
    }
  }

  /** DeleteBuffers adds no entry, and lists as deleted only entries of the cache. */
  lemma EvictKeys(q: Queue, count: int)
    requires Inv(q)
    ensures var q' := Evict(q, count);
      && (forall s :: s in q'.cache ==> s in q.cache)
      && (forall s :: s in q'.deleting ==> s in q.deleting || s in q.cache)
  {
    var between, marked := DeleteBuffersExact(q, count);
    ListStates(q);
    hide Inv, Evict;
    var gone := q.free[..FromFree(q, count)] + q.dirty[..FromDirty(q, count)];
    forall s | s in gone ensures s in q.cache {
      assert s in q.free || s in q.dirty;
      assert InState(q, s, Released) || InState(q, s, Flushed);
    }
  }

  lemma EntryNumber(q: Queue, s: int)
    requires Inv(q) && s in q.cache
    ensures q.cache[s].buffer.seqNum == s
  {}

  lemma MarkedNonEmpty(q: Queue, count: int, marked: set<int>)
    requires marked != {} && FromFree(q, count) + FromDirty(q, count) + |marked| == Least2(count, |q.cache|)
    ensures FromDirty(q, count) == |q.dirty|
  {}

  lemma PrefixMembers(list: seq<int>, n: nat, s: int)
    requires n <= |list| && s !in list
    ensures s !in list[..n]
  {}

  lemma ListStates(q: Queue)
    requires Inv(q)
    ensures forall s :: s in q.free <==> InState(q, s, Released)
    ensures forall s :: s in q.dirty <==> InState(q, s, Flushed)
    ensures forall s :: s in q.deleting ==> s !in q.cache
  {}

  lemma SizeChange(q: Queue, size: int)
    requires Inv(q) && SizeCheck(size).OK?
    ensures Inv(q.(queueSize := size))
  {
    var q' := q.(queueSize := size);
    forall s ensures s in q'.free <==> InState(q', s, Released) {
      assert s in q.free <==> InState(q, s, Released);
    }
    forall s ensures s in q'.dirty <==> InState(q', s, Flushed) {
      assert s in q.dirty <==> InState(q, s, Flushed);
    }
  }

  lemma ResizedKeeps(q: Queue, size: int)
    requires Inv(q) && SizeCheck(size).OK?
    ensures Inv(Resized(q, size))
  {
    hide Inv, Evict;
    EvictKeeps(q, q.queueSize - size);
    SizeChange(Evict(q, q.queueSize - size), size);
  }

  lemma SizeCheckExact(size: int)
    ensures SizeCheck(size) == if 1 <= size <= 32 then OK else INVALID_ARGUMENTS
  {}

  /** Growing the queue only changes its size. */
  lemma GrownExact(q: Queue, size: int)
    requires Inv(q) && SizeCheck(size).OK? && size >= q.queueSize
    ensures Resized(q, size) == q.(queueSize := size)
  {
    hide Enumerate;
  }

  /** Shrinking it by n deletes or marks n entries as far as there are: the first of the free list, then the first of
      the dirty list, and then it marks the lowest of the entries in flight. */
  lemma ShrunkExact(q: Queue, size: int) returns (between: Queue, marked: set<int>)
    requires Inv(q) && SizeCheck(size).OK? && size < q.queueSize
    ensures var n := q.queueSize - size;
      var a := if n < |q.free| then n else |q.free|;
      var b := if n - a < |q.dirty| then n - a else |q.dirty|;
      && Gone(q, between, q.free[..a] + q.dirty[..b])
      && between.free == q.free[a..] && between.dirty == q.dirty[b..]
      && Marked(between, Resized(q, size).(queueSize := q.queueSize), marked)
      && Resized(q, size).queueSize == size
      && |marked| == (if n < |q.cache| then n else |q.cache|) - a - b
      && (forall m, x :: m in marked && x in Resized(q, size).cache && x !in marked ==> m < x)
  {
    hide Inv, Evict, Gone, Marked;
    var n := q.queueSize - size;
    between, marked := DeleteBuffersExact(q, n);
    var evicted := Evict(q, n);
    assert Resized(q, size) == evicted.(queueSize := size);
    assert Resized(q, size).(queueSize := q.queueSize) == evicted;
    hide Resized;
  }

  /** Neither queued under this number nor waiting to be reported as deleted. */
  ghost predicate Attachable(q: Queue, s: int) {
    !InState(q, s, Released) && !InState(q, s, Flushed) && s !in q.deleting
  }

  lemma PrefixOrSuffix(list: seq<int>, n: nat, s: int)
    requires n <= |list| && s in list
    ensures s in list[..n] || s in list[n..]
  {
    assert list == list[..n] + list[n..];
  }

  /** An entry leaves the two lists only for the deleting list. */
  lemma EvictedMembers(q: Queue, count: int, s: int)
    requires Inv(q)
    ensures var q' := Evict(q, count);
      (s in q'.free || s in q'.dirty || s in q'.deleting) <==> (s in q.free || s in q.dirty || s in q.deleting)
  {
    var between, marked := DeleteBuffersExact(q, count);
    if s in q.free { PrefixOrSuffix(q.free, FromFree(q, count), s); }
    if s in q.dirty { PrefixOrSuffix(q.dirty, FromDirty(q, count), s); }
  }

  /** The queue AttachBuffer puts the new entry into. */
  ghost function Room(q: Queue): Queue {
    if |q.cache| < q.queueSize then q else Evict(q, |q.cache| - q.queueSize + 1)
  }

  lemma RoomKeeps(q: Queue, b: Buffer)
    requires Inv(q) && Attach(q, b).1.OK?
    ensures Inv(Room(q)) && |Room(q).cache| < q.queueSize <= MAX_QUEUE_SIZE
    ensures var s := b.seqNum;
      Attachable(q, s) <==> s !in Room(q).free && s !in Room(q).dirty && s !in Room(q).deleting
    ensures Attach(q, b).0 == Put(Room(q), b.seqNum, AttachedElement(b))
  {
    var s := b.seqNum;
    if |q.cache| >= q.queueSize {
      var n := |q.cache| - q.queueSize + 1;
      EvictKeeps(q, n);
      EvictedMembers(q, n, s);
    }
    assert s in q.free <==> InState(q, s, Released);
    assert s in q.dirty <==> InState(q, s, Flushed);
  }

  lemma AttachedInv(room: Queue, s: int, e: Element)
    requires Inv(room) && |room.cache| < MAX_QUEUE_SIZE && e.state == Attached && e.buffer.seqNum == s
    ensures Inv(Put(room, s, e)) <==> s !in room.free && s !in room.dirty && s !in room.deleting
  {
    var q' := Put(room, s, e);
    if s !in room.free && s !in room.dirty && s !in room.deleting {
      OneEntryKeeps(room, q', s);
    } else {
      assert InState(q', s, Attached);
      assert s in q'.free ==> !ListOf(q', q'.free, Released);
      assert s in q'.dirty ==> !ListOf(q', q'.dirty, Flushed);
    }
  }

  /** Attaching keeps the cache within the queue size, and the invariant exactly when the number is attachable. */
  lemma AttachExact(q: Queue, b: Buffer)
    requires Inv(q) && Attach(q, b).1.OK?
    ensures |Attach(q, b).0.cache| <= q.queueSize
    ensures Inv(Attach(q, b).0) <==> Attachable(q, b.seqNum)
  {
    hide Inv, Room, Attach, Attachable;
    RoomKeeps(q, b);
    AttachedInv(Room(q), b.seqNum, AttachedElement(b));
  }

  ghost predicate AttachedAs(e: Element, b: Buffer) {
    && e.buffer == b && !e.isDeleting
    && e.config.width == b.width && e.config.height == b.height
    && e.config.format == b.format && e.config.usage == b.usage
    && e.config.strideAlignment == 8 && e.config.timeout == 0
    && e.damage == Damage(0, 0, b.width, b.height)
  }

  /** What is attached is the buffer given, as an entry of its own measures; a refusal changes nothing. */
  lemma AttachedEntry(q: Queue, b: Buffer)
    requires Inv(q)
    ensures var (q', ret) := Attach(q, b);
      && (ret.OK? <==> |q.cache| < q.queueSize || |q.dirty| + |q.free| >= |q.cache| - q.queueSize + 1)
      && (!ret.OK? ==> ret == OUT_OF_RANGE && q' == q)
      && (ret.OK? ==> InState(q', b.seqNum, Attached) && AttachedAs(q'.cache[b.seqNum], b))
  {
    hide Inv, Evict;
  }
}
