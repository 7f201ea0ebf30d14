/** One queue, its producer stub and the surfaces of its client processes, as one transition system. */
module BufferCoherence {
  // frameworks/surface/src/buffer_queue_producer.cpp, producer_surface.cpp and buffer_queue.cpp together.

  import opened BufferQueues
  import opened Wrappers
  import opened BufferProducer
  import Sys = BufferQueueSystem

  /** How far the request of a client has come. */
  datatype Phase =
    | Resting
    | Asking(config: Config)
    | Served(reply: Reply)
    | Replied(reply: Reply)

  /** A ProducerSurface, one per process. */
  datatype Client = Client(cache: map<int, Buffer>, phase: Phase)

  /** ours: the sequence numbers this queue ever allocated; next: the process-wide counter. */
  datatype World = World(
    sys: Sys.System, maps: Maps, connectedPid: int, clients: map<int, Client>, ownPid: int, ours: set<int>, next: int)

  datatype Event =
    | Create(pid: int)
    | Destroy(pid: int)
    | CleanCache(pid: int)
    | Connect(pid: int, config: Config)
    | FailEarly(pid: int)
    | Ask(pid: int, alloc: Alloc)
    | Bookkeep(pid: int, alive: bool)
    | Finish(pid: int)
    | Thread(a: Sys.Action)
    | OtherQueues(maps: Maps, next: int)

  function InitialWorld(ownPid: int): World {
    World(Sys.Initial(), Maps(map[], map[]), 0, map[], ownPid, {}, 0)
  }

  predicate At(w: World, pid: int, phase: Phase) { pid in w.clients && w.clients[pid].phase == phase }

  predicate AllRest(w: World) { forall p :: p in w.clients ==> w.clients[p].phase.Resting? }

  predicate MayConnect(w: World, pid: int) { w.connectedPid == 0 || w.connectedPid == pid }

  /** Entry s is being handed to a client. */
  predicate InTransit(w: World, s: int) {
    exists p :: p in w.clients
      && ((w.clients[p].phase.Served? && w.clients[p].phase.reply.sequence == s)
          || (w.clients[p].phase.Replied? && w.clients[p].phase.reply.sequence == s))
  }

  /** Steps of the queue threads; the producer thread flushes and cancels only between requests. */
  ghost predicate ThreadEnabled(w: World, a: Sys.Action) {
    && Sys.Enabled(w.sys, a)
    && match a
       case RequestBuffer(_, _) => false
       case WakeUp(_) => false
       case AttachBuffer(_) => false
       case CleanCache => false
       case CancelBuffer(_, _) => AllRest(w)
       case FlushChecks(_) => AllRest(w)
       case DetachBuffer(s) => !InTransit(w, s)
       case _ => true
  }

  /** Numbers given out are those of the counter, and never come back. */
  predicate CounterAlloc(w: World, alloc: Alloc) { alloc.Allocated? ==> alloc.sequence >= w.next }

  /** The other queues of the process only touch their own numbers. */
  ghost predicate OthersOnly(w: World, maps: Maps, next: int) {
    && next >= w.next
    && forall s :: s in w.ours ==>
         && (s in maps.cache <==> s in w.maps.cache)
         && (s in maps.cache ==> maps.cache[s] == w.maps.cache[s])
         && (forall p :: s in SentTo(maps, p) <==> s in SentTo(w.maps, p))
  }

  ghost predicate Enabled(w: World, e: Event) {
    match e
    case Create(pid) => pid != 0 && pid !in w.clients
    case Destroy(pid) => At(w, pid, Resting) && (MayConnect(w, pid) ==> Sys.Enabled(w.sys, Sys.CleanCache))
    case CleanCache(pid) => At(w, pid, Resting) && (MayConnect(w, pid) ==> Sys.Enabled(w.sys, Sys.CleanCache))
    case Connect(pid, _) => At(w, pid, Resting) && (MayConnect(w, pid) ==> w.sys.producer.Ready?)
    case FailEarly(pid) => pid in w.clients && w.clients[pid].phase.Asking? && w.sys.producer.Ready?
    case Ask(pid, alloc) => pid in w.clients && w.clients[pid].phase.Asking? && CounterAlloc(w, alloc)
                            && !w.sys.producer.Flushing?
    case Bookkeep(pid, alive) => pid in w.clients && w.clients[pid].phase.Served?
                                 && (w.clients[pid].phase.reply.sequence in w.sys.q.cache ==> alive)
    case Finish(pid) => pid in w.clients && w.clients[pid].phase.Replied?
    case Thread(a) => ThreadEnabled(w, a)
    case OtherQueues(maps, next) => OthersOnly(w, maps, next)
  }

  function SetClient(w: World, pid: int, c: Client): World { w.(clients := w.clients[pid := c]) }

  function SetPhase(w: World, pid: int, phase: Phase): World
    requires pid in w.clients
  {
    SetClient(w, pid, w.clients[pid].(phase := phase))
  }

  /** The queue section of a request, first try or after waking up. */
  ghost function Asked(w: World, pid: int, alloc: Alloc): World
    requires pid in w.clients && w.clients[pid].phase.Asking? && Inv(w.sys.q)
  {
    FreeReleased(w.sys.q);
    var config := w.clients[pid].phase.config;
    var onFull := if w.sys.producer.Asleep? then Failed(NO_BUFFER) else Waits;
    var taken := Take(w.sys.q, config, alloc, onFull);
    var w' := w.(sys := Sys.AfterRequest(w.sys, taken, config),
                 ours := if alloc.Allocated? then w.ours + {alloc.sequence} else w.ours,
                 next := if alloc.Allocated? then alloc.sequence + 1 else w.next);
    match taken.1
    case Waits => w'
    case Failed(_) => SetPhase(w', pid, Resting)
    case Granted(reply) => SetPhase(w', pid, Served(reply))
  }

  /** CleanCache on the server: refused while another process is connected. */
  ghost function ServerClean(w: World, pid: int): World {
    if MayConnect(w, pid) then w.(sys := Sys.AfterLoss(w.sys, Clean(w.sys.q))) else w
  }

  ghost function Next(w: World, e: Event): World
    requires Enabled(w, e) && Sys.SysInv(w.sys)
  {
    match e
    case Create(pid) => SetClient(w, pid, Client(map[], Resting))
    case Destroy(pid) =>
      var w' := ServerClean(w, pid);
      w'.(connectedPid := if MayConnect(w, pid) then 0 else w.connectedPid, clients := w.clients - {pid})
    case CleanCache(pid) =>
      var cache := if pid == w.ownPid then w.clients[pid].cache else map[];
      SetClient(ServerClean(w, pid), pid, w.clients[pid].(cache := cache))
    case Connect(pid, config) =>
      if MayConnect(w, pid) then SetPhase(w.(connectedPid := pid), pid, Asking(config)) else w
    case FailEarly(pid) => SetPhase(w, pid, Resting)
    case Ask(pid, alloc) => Asked(w, pid, alloc)
    case Bookkeep(pid, alive) =>
      var (maps, reply) := Record(w.maps, pid, pid == w.ownPid, w.clients[pid].phase.reply, alive);
      SetPhase(w.(maps := maps), pid, Replied(reply))
    case Finish(pid) =>
      SetClient(w, pid, Client(Receive(w.clients[pid].cache, w.clients[pid].phase.reply).0, Resting))
    case Thread(a) => Sys.StepKeeps(w.sys, a); w.(sys := Sys.Step(w.sys, a))
    case OtherQueues(maps, next) => w.(maps := maps, next := next)
  }

  // ----- the coherence invariant -----

  /** The server remembers the buffer and having sent it to the connected process. */
  predicate Remembered(w: World, s: int) {
    s in w.maps.cache && w.maps.cache[s].seqNum == s && s in SentTo(w.maps, w.connectedPid)
  }

  predicate Cached(cache: map<int, Buffer>, s: int) { s in cache && cache[s].seqNum == s }

  /** A reply on its way: its entry is alive, and it does not tell the client to forget a live one. */
  ghost predicate ReplySound(w: World, r: Reply) {
    && InState(w.sys.q, r.sequence, Requested)
    && (forall d :: d in r.deleting ==> d !in w.sys.q.cache && d in w.ours)
    && (r.buffer.Some? ==> r.buffer.value.seqNum == r.sequence)
  }

  /** Live entries not yet remembered: the new one of a reply the server has not recorded. */
  predicate NewAtServer(phase: Phase, s: int) { phase.Served? && phase.reply.buffer.Some? && s == phase.reply.sequence }

  /** Live entries not yet in the client cache: those a reply on its way carries along. */
  predicate NewAtClient(phase: Phase, s: int) {
    (phase.Served? || phase.Replied?) && phase.reply.buffer.Some? && s == phase.reply.sequence
  }

  ghost predicate Coherent(w: World, c: Client) {
    forall s :: s in w.sys.q.cache ==>
      (NewAtServer(c.phase, s) || Remembered(w, s)) && (NewAtClient(c.phase, s) || Cached(c.cache, s))
  }

  ghost predicate PhaseSound(w: World, phase: Phase) {
    match phase
    case Resting => !w.sys.producer.Asleep?
    case Asking(_) => !w.sys.producer.Flushing?
    case Served(r) => w.sys.producer.Ready? && ReplySound(w, r)
    case Replied(r) => w.sys.producer.Ready? && ReplySound(w, r)
  }

  ghost predicate Numbers(w: World) {
    && (forall s :: s in w.sys.q.cache || s in w.sys.q.deleting ==> s in w.ours)
    && (forall s :: s in w.ours ==> s < w.next)
  }

  ghost predicate Connections(w: World) {
    && 0 !in w.clients
    && (w.connectedPid != 0 ==> w.connectedPid in w.clients)
    && (forall p :: p in w.clients && !w.clients[p].phase.Resting? ==> p == w.connectedPid)
    && (w.connectedPid == 0 ==> (forall s :: s !in w.sys.q.cache) && !w.sys.producer.Asleep?)
  }

  ghost predicate WorldInv(w: World) {
    && Sys.SysInv(w.sys)
    && Numbers(w)
    && Connections(w)
    && (w.connectedPid != 0 ==>
          PhaseSound(w, w.clients[w.connectedPid].phase) && Coherent(w, w.clients[w.connectedPid]))
  }

  lemma InitialWorldInv(ownPid: int)
    ensures WorldInv(InitialWorld(ownPid))
  {
    Sys.InitialInv();
  }

  // ----- steps of the queue threads -----

  /** No new entry, and nothing listed as deleted that was not there. */
  ghost predicate KeysShrink(q: Queue, q': Queue) {
    && (forall s :: s in q'.cache ==> s in q.cache)
    && (forall s :: s in q'.deleting ==> s in q.deleting || s in q.cache)
  }

  /** The requested entry x of a reply on its way is left alone. */
  ghost predicate RequestedKept(q: Queue, q': Queue, x: int) {
    InState(q, x, Requested) ==> InState(q', x, Requested)
  }

  lemma EvictLeavesRequested(q: Queue, count: int, x: int)
    requires Inv(q)
    ensures RequestedKept(q, Evict(q, count), x)
  {
    EvictEffect(q, count);
    hide Inv, Evict;
    if InState(q, x, Requested) { assert InFlight(q, x); }
  }

  lemma ConsumerSeen(s: Sys.System, x: int)
    requires Sys.SysInv(s)
    ensures s.q.dirty != [] ==>
      s.q.dirty[0] in s.q.cache && KeysShrink(s.q, Acquire(s.q)) && RequestedKept(s.q, Acquire(s.q), x)
    ensures s.consumer.Releasing? ==>
      s.consumer.sequence in s.q.cache
      && KeysShrink(s.q, Release(s.q, s.consumer.sequence, s.consumer.fence))
      && RequestedKept(s.q, Release(s.q, s.consumer.sequence, s.consumer.fence), x)
  {
    Sys.SafeToStep(s);
    ListStates(s.q);
    hide Inv;
    if s.q.dirty != [] {
      assert s.q.dirty[0] in s.q.dirty;
      assert InState(s.q, s.q.dirty[0], Flushed);
    }
  }

  lemma CancelShrinks(q: Queue, x: int, extra: int)
    ensures KeysShrink(q, Cancel(q, x, extra).0)
  {}

  lemma FlushShrinks(q: Queue, f: Flush, cacheFlush: GSError)
    requires f.sequence in q.cache
    ensures KeysShrink(q, DoFlush(q, f, cacheFlush).0)
  {}

  lemma ProducerSeen(s: Sys.System, a: Sys.Action)
    requires Sys.SysInv(s) && Sys.Enabled(s, a) && (a.CancelBuffer? || a.FlushCommits?)
    ensures Sys.CommitsSafe(s)
    ensures (forall x :: x in s.q.free ==> x in s.q.cache) && (s.q.dirty != [] ==> s.q.dirty[0] in s.q.cache)
    ensures KeysShrink(s.q, Sys.Step(s, a).q) && Sys.Step(s, a).producer.Ready?
  {
    Sys.SafeToStep(s);
    hide Inv, KeysShrink, Cancel, DoFlush, Sys.SysInv;
    if a.CancelBuffer? {
      CancelShrinks(s.q, a.sequence, a.extra);
    } else {
      CancelShrinks(s.q, s.producer.f.sequence, s.producer.f.extra);
      FlushShrinks(s.q, s.producer.f, a.cacheFlush);
    }
  }

  /** What a thread step does to the keys, to a reply on its way, and to the producer thread. */
  lemma ThreadSeen(w: World, a: Sys.Action, x: int)
    requires Sys.SysInv(w.sys) && ThreadEnabled(w, a) && (a.DetachBuffer? ==> a.sequence != x)
    ensures Sys.CommitsSafe(w.sys)
    ensures (forall x :: x in w.sys.q.free ==> x in w.sys.q.cache)
         && (w.sys.q.dirty != [] ==> w.sys.q.dirty[0] in w.sys.q.cache)
    ensures var s' := Sys.Step(w.sys, a);
      && KeysShrink(w.sys.q, s'.q)
      && (!AllRest(w) && !w.sys.producer.Flushing? ==>
            s'.producer == w.sys.producer && RequestedKept(w.sys.q, s'.q, x))
      && (!w.sys.producer.Asleep? ==> !s'.producer.Asleep?)
  {
    Sys.SafeToStep(w.sys);
    hide Inv, Sys.SysInv, Evict, Acquire, Release, Cancel, DoFlush;
    match a
    case CancelBuffer(_, _) => ProducerSeen(w.sys, a);
    case FlushCommits(_, _) => ProducerSeen(w.sys, a);
    case AcquireBuffer => ConsumerSeen(w.sys, x);
    case ReleaseCommits => ConsumerSeen(w.sys, x);
    case ResizeDeletes(size) =>
      SysQueueInv(w.sys);
      EvictKeys(w.sys.q, w.sys.q.queueSize - size);
      EvictLeavesRequested(w.sys.q, w.sys.q.queueSize - size, x);
    case _ =>
  }

  lemma SysQueueInv(s: Sys.System)
    requires Sys.SysInv(s)
    ensures Inv(s.q)
  {}

  // ----- every event keeps the coherence invariant -----

  /** The parts of the invariant about the entries of the queue. */
  ghost predicate EntriesKnown(w: World) {
    Numbers(w) && (w.connectedPid != 0 && w.connectedPid in w.clients ==>
                     Coherent(w, w.clients[w.connectedPid]))
  }

  lemma ShrinkKnown(w: World, w': World)
    requires EntriesKnown(w) && KeysShrink(w.sys.q, w'.sys.q)
    requires w' == w.(sys := w'.sys)
    ensures EntriesKnown(w')
  {
    if w.connectedPid != 0 && w.connectedPid in w.clients {
      var c := w.clients[w.connectedPid];
      forall s | s in w'.sys.q.cache
        ensures (NewAtServer(c.phase, s) || Remembered(w', s)) && (NewAtClient(c.phase, s) || Cached(c.cache, s))
      {
        assert s in w.sys.q.cache;
        assert Remembered(w, s) ==> Remembered(w', s);
      }
    }
  }

  lemma ThreadStep(w: World, a: Sys.Action)
    requires WorldInv(w) && ThreadEnabled(w, a)
    ensures WorldInv(Next(w, Thread(a)))
  {
    var w' := Next(w, Thread(a));
    Sys.StepKeeps(w.sys, a);
    var x := if w.connectedPid != 0 && w.clients[w.connectedPid].phase.Served?
             then w.clients[w.connectedPid].phase.reply.sequence
             else if w.connectedPid != 0 && w.clients[w.connectedPid].phase.Replied?
             then w.clients[w.connectedPid].phase.reply.sequence else w.next;
    assert a.DetachBuffer? && InTransit(w, x) ==> a.sequence != x;
    if a.DetachBuffer? && a.sequence == x {
      assert !InTransit(w, x);
      ThreadSeen(w, a, x + 1);
    } else {
      ThreadSeen(w, a, x);
    }
    ThreadWorld(w, w', x);
  }

  /** The entry of a reply on its way, if there is one. */
  predicate OnItsWay(w: World, x: int) {
    w.connectedPid in w.clients ==>
      match w.clients[w.connectedPid].phase
      case Served(r) => r.sequence == x
      case Replied(r) => r.sequence == x
      case _ => true
  }

  lemma ThreadWorld(w: World, w': World, x: int)
    requires WorldInv(w) && OnItsWay(w, x)
    requires w' == w.(sys := w'.sys) && Sys.SysInv(w'.sys) && KeysShrink(w.sys.q, w'.sys.q)
    requires !AllRest(w) && !w.sys.producer.Flushing? ==>
      w'.sys.producer == w.sys.producer && RequestedKept(w.sys.q, w'.sys.q, x)
    requires !w.sys.producer.Asleep? ==> !w'.sys.producer.Asleep?
    ensures WorldInv(w')
  {
    hide Sys.SysInv, Coherent;
    ShrinkKnown(w, w');
    ThreadPhase(w, w', x);
    hide KeysShrink, Numbers, PhaseSound;
  }

  lemma ThreadPhase(w: World, w': World, x: int)
    requires WorldInv(w) && OnItsWay(w, x)
    requires w' == w.(sys := w'.sys) && KeysShrink(w.sys.q, w'.sys.q)
    requires !AllRest(w) && !w.sys.producer.Flushing? ==>
      w'.sys.producer == w.sys.producer && RequestedKept(w.sys.q, w'.sys.q, x)
    requires !w.sys.producer.Asleep? ==> !w'.sys.producer.Asleep?
    ensures w.connectedPid != 0 ==> PhaseSound(w', w.clients[w.connectedPid].phase)
    ensures Connections(w')
  {
    hide Sys.SysInv, Coherent, Numbers;
    if w.connectedPid != 0 && !w.clients[w.connectedPid].phase.Resting? {
      assert !AllRest(w);
    }
  }

  lemma TakeNumbers(w: World, pid: int, alloc: Alloc)
    requires WorldInv(w) && CounterAlloc(w, alloc)
    ensures Sys.FreshAlloc(w.sys.q, alloc)
  {}

  /** A granted request: its entry is new, or one the client already has; its deletions are not live. */
  lemma GrantedSound(w: World, config: Config, alloc: Alloc, onFull: Outcome)
    requires WorldInv(w) && CounterAlloc(w, alloc) && !onFull.Granted?
    ensures forall x :: x in w.sys.q.free ==> x in w.sys.q.cache
    ensures var (q', o) := Take(w.sys.q, config, alloc, onFull);
      && (forall s :: s in q'.cache ==>
            s in w.sys.q.cache || (o.Granted? && o.reply.buffer.Some? && s == o.reply.sequence && alloc == Allocated(s)))
      && (forall s :: s in q'.deleting ==> s in w.ours)
      && (o.Granted? ==>
            && InState(q', o.reply.sequence, Requested)
            && (forall d :: d in o.reply.deleting ==> d !in q'.cache && d in w.ours)
            && (o.reply.buffer.Some? ==> o.reply.buffer.value.seqNum == o.reply.sequence)
            && (o.reply.buffer.None? ==> o.reply.sequence in w.sys.q.cache))
  {
    TakeNumbers(w, 0, alloc);
    SysQueueInv(w.sys);
    TakeKeeps(w.sys.q, config, alloc, onFull);
    var (q', o) := Take(w.sys.q, config, alloc, onFull);
    if o.Granted? {
      EntryNumber(q', o.reply.sequence);
    }
    hide Sys.SysInv, Inv, Take, Connections, PhaseSound, Coherent;
  }

  /** The world after the queue section of a request, put together from what the section guarantees. */
  lemma AskedWorld(w: World, w': World, pid: int, o: Outcome)
    requires WorldInv(w) && pid in w.clients && w.clients[pid].phase.Asking?
    requires Sys.SysInv(w'.sys) && w'.sys.producer == if o.Waits? then Sys.Asleep(w.clients[pid].phase.config) else Sys.Ready
    requires w' == w.(sys := w'.sys, ours := w'.ours, next := w'.next, clients := w.clients[pid := w.clients[pid].(phase :=
          match o case Waits => w.clients[pid].phase case Failed(_) => Resting case Granted(reply) => Served(reply))])
    requires forall s :: s in w'.sys.q.cache ==>
      s in w.sys.q.cache || (o.Granted? && o.reply.buffer.Some? && s == o.reply.sequence)
    requires Numbers(w') && (o.Granted? ==> ReplySound(w', o.reply))
    ensures WorldInv(w')
  {
    hide Sys.SysInv, Numbers, ReplySound;
    assert pid == w.connectedPid;
    forall s | s in w'.sys.q.cache ensures
      (NewAtServer(w'.clients[pid].phase, s) || Remembered(w', s))
      && (NewAtClient(w'.clients[pid].phase, s) || Cached(w'.clients[pid].cache, s))
    {
      if s in w.sys.q.cache {
        assert Remembered(w, s) && Cached(w.clients[pid].cache, s);
      }
    }
  }

  lemma AskStep(w: World, pid: int, alloc: Alloc)
    requires WorldInv(w) && Enabled(w, Ask(pid, alloc))
    ensures WorldInv(Next(w, Ask(pid, alloc)))
  {
    SysQueueInv(w.sys);
    var config := w.clients[pid].phase.config;
    var onFull := if w.sys.producer.Asleep? then Failed(NO_BUFFER) else Waits;
    TakeNumbers(w, pid, alloc);
    Sys.RequestStep(w.sys, config, alloc, onFull);
    GrantedSound(w, config, alloc, onFull);
    var w' := Next(w, Ask(pid, alloc));
    var o := Take(w.sys.q, config, alloc, onFull).1;
    AskedShape(w, pid, alloc);
    hide Sys.SysInv, Inv, Take, WorldInv, Next, Asked, Connections, PhaseSound, Coherent, Sys.AfterRequest;
    AskedNumbers(w, w', alloc, o);
    hide Numbers;
    AskedWorld(w, w', pid, o);
  }

  lemma AskedShape(w: World, pid: int, alloc: Alloc)
    requires Sys.SysInv(w.sys) && Enabled(w, Ask(pid, alloc))
    ensures forall x :: x in w.sys.q.free ==> x in w.sys.q.cache
    ensures var config := w.clients[pid].phase.config;
      var taken := Take(w.sys.q, config, alloc, if w.sys.producer.Asleep? then Failed(NO_BUFFER) else Waits);
      Next(w, Ask(pid, alloc))
      == w.(sys := Sys.AfterRequest(w.sys, taken, config),
            ours := if alloc.Allocated? then w.ours + {alloc.sequence} else w.ours,
            next := if alloc.Allocated? then alloc.sequence + 1 else w.next,
            clients := w.clients[pid := w.clients[pid].(phase :=
              match taken.1 case Waits => w.clients[pid].phase case Failed(_) => Resting
                            case Granted(reply) => Served(reply))])
      && Sys.AfterRequest(w.sys, taken, config).q == taken.0
      && Sys.AfterRequest(w.sys, taken, config).producer
         == if taken.1.Waits? then Sys.Asleep(w.clients[pid].phase.config) else Sys.Ready
  {
    SysQueueInv(w.sys);
    FreeReleased(w.sys.q);
    hide Sys.SysInv, Inv, Take;
    assert w.clients[pid := w.clients[pid].(phase := w.clients[pid].phase)] == w.clients;
  }

  lemma AskedNumbers(w: World, w': World, alloc: Alloc, o: Outcome)
    requires Numbers(w) && CounterAlloc(w, alloc)
    requires w'.ours == if alloc.Allocated? then w.ours + {alloc.sequence} else w.ours
    requires w'.next == if alloc.Allocated? then alloc.sequence + 1 else w.next
    requires forall s :: s in w'.sys.q.cache ==>
      s in w.sys.q.cache || (o.Granted? && o.reply.buffer.Some? && s == o.reply.sequence && alloc == Allocated(s))
    requires forall s :: s in w'.sys.q.deleting ==> s in w.ours
    ensures Numbers(w')
  {}

  lemma RecordSound(w: World, pid: int, alive: bool)
    requires WorldInv(w) && Enabled(w, Bookkeep(pid, alive))
    ensures pid == w.connectedPid
    ensures var w' := Next(w, Bookkeep(pid, alive));
      Coherent(w', w'.clients[pid]) && PhaseSound(w', w'.clients[pid].phase)
  {
    hide Sys.SysInv, Numbers;
    var w' := Next(w, Bookkeep(pid, alive));
    var r, r' := w.clients[pid].phase.reply, w'.clients[pid].phase.reply;
    forall s | s in w.sys.q.cache ensures
      Remembered(w', s) && (NewAtClient(Replied(r'), s) || Cached(w'.clients[pid].cache, s))
    {
      assert s !in r.deleting;
      assert NewAtServer(w.clients[pid].phase, s) || Remembered(w, s);
    }
    if r.buffer.None? {
      assert Remembered(w, r.sequence);
    }
  }

  lemma BookkeepStep(w: World, pid: int, alive: bool)
    requires WorldInv(w) && Enabled(w, Bookkeep(pid, alive))
    ensures WorldInv(Next(w, Bookkeep(pid, alive)))
  {
    RecordSound(w, pid, alive);
    hide Sys.SysInv, Coherent, PhaseSound;
  }

  /** The request of a client never fails on the client side: the answer carries the buffer of its entry. */
  lemma AnswerDelivered(w: World, pid: int)
    requires WorldInv(w) && Enabled(w, Finish(pid))
    ensures var r := w.clients[pid].phase.reply;
      var answer := Receive(w.clients[pid].cache, r).1;
      answer.Delivered? && answer.sequence == r.sequence && answer.buffer.seqNum == r.sequence
      && InState(w.sys.q, r.sequence, Requested)
  {
    hide Sys.SysInv;
    var r := w.clients[pid].phase.reply;
    assert r.sequence in w.sys.q.cache;
    assert NewAtClient(w.clients[pid].phase, r.sequence) || Cached(w.clients[pid].cache, r.sequence);
  }

  lemma FinishStep(w: World, pid: int)
    requires WorldInv(w) && Enabled(w, Finish(pid))
    ensures WorldInv(Next(w, Finish(pid)))
  {
    AnswerDelivered(w, pid);
    hide Sys.SysInv, Numbers;
    var w' := Next(w, Finish(pid));
    var c, c' := w.clients[pid], w'.clients[pid];
    forall s | s in w.sys.q.cache ensures Remembered(w', s) && Cached(c'.cache, s) {
      assert s !in c.phase.reply.deleting;
      assert Remembered(w, s);
      assert NewAtClient(c.phase, s) || Cached(c.cache, s);
    }
  }

  lemma CleanStep(w: World, pid: int)
    requires WorldInv(w) && Enabled(w, CleanCache(pid))
    ensures WorldInv(Next(w, CleanCache(pid)))
  {
    if MayConnect(w, pid) { Sys.CleanStep(w.sys); }
    hide Sys.SysInv;
  }

  lemma DestroyStep(w: World, pid: int)
    requires WorldInv(w) && Enabled(w, Destroy(pid))
    ensures WorldInv(Next(w, Destroy(pid)))
  {
    if MayConnect(w, pid) { Sys.CleanStep(w.sys); }
    hide Sys.SysInv;
  }

  lemma OtherStep(w: World, maps: Maps, next: int)
    requires WorldInv(w) && OthersOnly(w, maps, next)
    ensures WorldInv(w.(maps := maps, next := next))
  {
    hide Sys.SysInv;
    var w' := w.(maps := maps, next := next);
    forall s | s in w.sys.q.cache && Remembered(w, s) ensures Remembered(w', s) {
      assert s in w.ours;
      assert s in SentTo(maps, w.connectedPid) <==> s in SentTo(w.maps, w.connectedPid);
    }
  }

  lemma ClientStep(w: World, e: Event)
    requires WorldInv(w) && Enabled(w, e) && (e.Create? || e.Connect? || e.FailEarly?)
    ensures WorldInv(Next(w, e))
  {
    hide Sys.SysInv;
  }

  lemma EventKeeps(w: World, e: Event)
    requires WorldInv(w) && Enabled(w, e)
    ensures WorldInv(Next(w, e))
  {
    match e
    case Create(pid) => ClientStep(w, e);
    case Destroy(pid) => DestroyStep(w, pid);
    case CleanCache(pid) => CleanStep(w, pid);
    case Connect(pid, _) => ClientStep(w, e);
    case FailEarly(pid) => ClientStep(w, e);
    case Ask(pid, alloc) => AskStep(w, pid, alloc);
    case Bookkeep(pid, alive) => BookkeepStep(w, pid, alive);
    case Finish(pid) => FinishStep(w, pid);
    case Thread(a) => ThreadStep(w, a);
    case OtherQueues(maps, next) => OtherStep(w, maps, next);
  }

  // ----- runs -----

  ghost predicate CanRun(w: World, events: seq<Event>)
    requires WorldInv(w)
    decreases |events|
  {
    events == []
    || (Enabled(w, events[0]) && (EventKeeps(w, events[0]); CanRun(Next(w, events[0]), events[1..])))
  }

  ghost function Run(w: World, events: seq<Event>): World
    requires WorldInv(w) && CanRun(w, events)
    decreases |events|
  {
    if events == [] then w
    else
      EventKeeps(w, events[0]);
      Run(Next(w, events[0]), events[1..])
  }

  /** Coherence holds in every state a run reaches, whatever the clients, the queue threads and other queues do. */
  lemma {:induction false} RunCoherent(w: World, events: seq<Event>)
    requires WorldInv(w) && CanRun(w, events)
    ensures WorldInv(Run(w, events))
    decreases |events|
  {
    if events != [] {
      EventKeeps(w, events[0]);
      RunCoherent(Next(w, events[0]), events[1..]);
    }
  }

  /** On every run from the start, a request that was granted ends with the buffer of its sequence number. */
  lemma NoApiFailure(ownPid: int, events: seq<Event>, pid: int)
    requires (InitialWorldInv(ownPid); CanRun(InitialWorld(ownPid), events))
    requires (InitialWorldInv(ownPid); Enabled(Run(InitialWorld(ownPid), events), Finish(pid)))
    ensures (InitialWorldInv(ownPid);
      var w := Run(InitialWorld(ownPid), events);
      var r := w.clients[pid].phase.reply;
      var answer := Receive(w.clients[pid].cache, r).1;
      answer.Delivered? && answer.sequence == r.sequence && answer.buffer.seqNum == r.sequence)
  {
    InitialWorldInv(ownPid);
    RunCoherent(InitialWorld(ownPid), events);
    AnswerDelivered(Run(InitialWorld(ownPid), events), pid);
  }

  // ----- what a client keeps -----

  predicate Listed(q: Queue, s: int) {
    s in q.cache || s in q.deleting
  }

  predicate Carries(phase: Phase, s: int) {
    (phase.Served? || phase.Replied?) && s in phase.reply.deleting
  }

  /** Only the connected client has buffers, and each of them is alive, waits to be reported as deleted, is reported by
      the reply on its way, or is among those that left without a report. */
  ghost predicate Trimmed(w: World, unreported: set<int>) {
    && (forall p, s :: p in w.clients && p != w.connectedPid ==> s !in w.clients[p].cache)
    && (w.connectedPid in w.clients ==>
          forall s :: s in w.clients[w.connectedPid].cache ==>
            Listed(w.sys.q, s) || s in unreported || Carries(w.clients[w.connectedPid].phase, s))
  }

  /** The numbers that leave the queue without a report: detached ones, and all when the queue is cleaned. */
  function Unreported(w: World, e: Event): set<int> {
    match e
    case Thread(a) => if a.DetachBuffer? then {a.sequence} else {}
    case CleanCache(pid) => if MayConnect(w, pid) then w.sys.q.cache.Keys + Members(w.sys.q.deleting) else {}
    case Destroy(pid) => if MayConnect(w, pid) then w.sys.q.cache.Keys + Members(w.sys.q.deleting) else {}
    case _ => {}
  }

  lemma TakeReports(q: Queue, config: Config, alloc: Alloc, onFull: Outcome, s: int)
    requires Inv(q) && Listed(q, s) && !onFull.Granted?
    ensures forall x :: x in q.free ==> x in q.cache
    ensures var (q', o) := Take(q, config, alloc, onFull);
      Listed(q', s) || (o.Granted? && s in o.reply.deleting)
  {
    FreeReleased(q);
    hide Inv, PopIndex;
  }

  lemma EvictReports(q: Queue, count: int, s: int)
    requires Inv(q) && Listed(q, s)
    ensures Listed(Evict(q, count), s)
  {
    var between, marked := DeleteBuffersExact(q, count);
    hide Inv, Evict;
  }

  /** The short sections move entries from the cache to the deleted ones at most; detaching alone loses one. */
  lemma SectionReports(q: Queue, x: int, f: Flush, cacheFlush: GSError, s: int, n: int)
    requires Listed(q, x)
    ensures Listed(Cancel(q, s, n).0, x)
    ensures f.sequence in q.cache ==> Listed(DoFlush(q, f, cacheFlush).0, x)
    ensures q.dirty != [] && q.dirty[0] in q.cache ==> Listed(Acquire(q), x)
    ensures s in q.cache ==> Listed(Release(q, s, n), x)
    ensures s != x ==> Listed(Detach(q, s).0, x)
    ensures Listed(q.(queueSize := n), x)
  {}

  lemma ThreadReports(s: Sys.System, a: Sys.Action, x: int)
    requires Sys.SysInv(s) && Sys.Enabled(s, a) && Listed(s.q, x)
    requires !a.RequestBuffer? && !a.WakeUp? && !a.AttachBuffer? && !a.CleanCache?
    ensures (Sys.StepKeeps(s, a); Listed(Sys.Step(s, a).q, x) || a == Sys.DetachBuffer(x))
  {
    hide Sys.SysInv, Sys.Conserved, Evict, Cancel, DoFlush, Acquire, Release, Detach, Listed, Sys.DetachSafe, Inv;
    Sys.StepKeeps(s, a);
    match a
    case ResizeDeletes(size) =>
      SysQueueInv(s);
      EvictReports(s.q, s.q.queueSize - size, x);
    case FlushCommits(_, cacheFlush) =>
      SectionReports(s.q, x, s.producer.f, cacheFlush, s.producer.f.sequence, s.producer.f.extra);
    case CancelBuffer(n, extra) => SectionReports(s.q, x, Flush(n, 0, 0, Damage(0, 0, 0, 0), 0), OK, n, extra);
    case AcquireBuffer => SectionReports(s.q, x, Flush(0, 0, 0, Damage(0, 0, 0, 0), 0), OK, 0, 0);
    case ReleaseCommits =>
      SectionReports(s.q, x, Flush(0, 0, 0, Damage(0, 0, 0, 0), 0), OK, s.consumer.sequence, s.consumer.fence);
    case ResizeStores => SectionReports(s.q, x, Flush(0, 0, 0, Damage(0, 0, 0, 0), 0), OK, 0, s.resizer.size);
    case DetachBuffer(n) => SectionReports(s.q, x, Flush(0, 0, 0, Damage(0, 0, 0, 0), 0), OK, n, 0);
    case _ =>
  }

  /** What the queue section of a request leaves of the numbers a client caches. */
  lemma AskReports(w: World, pid: int, alloc: Alloc, s: int)
    requires Inv(w.sys.q) && pid in w.clients && w.clients[pid].phase.Asking? && Listed(w.sys.q, s)
    ensures var w' := Asked(w, pid, alloc);
      pid in w'.clients && (Listed(w'.sys.q, s) || Carries(w'.clients[pid].phase, s))
  {
    var onFull := if w.sys.producer.Asleep? then Failed(NO_BUFFER) else Waits;
    TakeReports(w.sys.q, w.clients[pid].phase.config, alloc, onFull, s);
    hide Inv, Take, Listed;
  }

  lemma AskTrims(w: World, pid: int, alloc: Alloc, u: set<int>)
    requires WorldInv(w) && Trimmed(w, u) && Enabled(w, Ask(pid, alloc))
    ensures Trimmed(Next(w, Ask(pid, alloc)), u)
  {
    SysQueueInv(w.sys);
    hide Sys.SysInv, Coherent, PhaseSound, Inv, Take, Listed;
    var w' := Asked(w, pid, alloc);
    assert pid == w.connectedPid;
    assert !Carries(w.clients[pid].phase, 0);
    forall s | Listed(w.sys.q, s) ensures Listed(w'.sys.q, s) || Carries(w'.clients[pid].phase, s) {
      AskReports(w, pid, alloc, s);
    }
  }

  lemma FinishTrims(w: World, pid: int, u: set<int>)
    requires WorldInv(w) && Trimmed(w, u) && Enabled(w, Finish(pid))
    ensures Trimmed(Next(w, Finish(pid)), u)
  {
    AnswerDelivered(w, pid);
    ReceiveErases(w.clients[pid].cache, w.clients[pid].phase.reply);
    hide Sys.SysInv, Coherent, PhaseSound, Receive;
  }

  lemma ThreadTrims(w: World, a: Sys.Action, u: set<int>)
    requires WorldInv(w) && Trimmed(w, u) && Enabled(w, Thread(a))
    ensures Trimmed(Next(w, Thread(a)), u + Unreported(w, Thread(a)))
  {
    Sys.StepKeeps(w.sys, a);
    forall s | Listed(w.sys.q, s) ensures Listed(Sys.Step(w.sys, a).q, s) || a == Sys.DetachBuffer(s) {
      ThreadReports(w.sys, a, s);
    }
    hide Sys.SysInv, Coherent, PhaseSound, Sys.Step, Listed;
  }

  lemma CleanTrims(w: World, e: Event, u: set<int>)
    requires WorldInv(w) && Trimmed(w, u) && Enabled(w, e) && (e.CleanCache? || e.Destroy?)
    ensures Trimmed(Next(w, e), u + Unreported(w, e))
  {
    hide Sys.SysInv, Coherent, PhaseSound;
    assert forall s :: Listed(w.sys.q, s) ==> s in w.sys.q.cache.Keys + Members(w.sys.q.deleting);
  }

  lemma EventTrims(w: World, e: Event, u: set<int>)
    requires WorldInv(w) && Trimmed(w, u) && Enabled(w, e)
    ensures Trimmed(Next(w, e), u + Unreported(w, e))
  {
    match e
    case Ask(pid, alloc) =>
      AskTrims(w, pid, alloc, u);
      assert u + {} == u;
    case Finish(pid) =>
      FinishTrims(w, pid, u);
      assert u + {} == u;
    case Thread(a) => ThreadTrims(w, a, u);
    case CleanCache(_) => CleanTrims(w, e, u);
    case Destroy(_) => CleanTrims(w, e, u);
    case _ =>
      hide Sys.SysInv, Coherent, PhaseSound;
      assert u + {} == u;
  }

  ghost function UnreportedBy(w: World, events: seq<Event>): set<int>
    requires WorldInv(w) && CanRun(w, events)
    decreases |events|
  {
    if events == [] then {}
    else
      EventKeeps(w, events[0]);
      Unreported(w, events[0]) + UnreportedBy(Next(w, events[0]), events[1..])
  }

  /** Over every run a client keeps no deleted buffer longer than until the reply that reports it: what it caches is
      alive, waits to be reported, is reported by the reply on its way, or was detached or cleaned away. */
  lemma {:induction false} RunTrims(w: World, events: seq<Event>, u: set<int>)
    requires WorldInv(w) && Trimmed(w, u) && CanRun(w, events)
    ensures Trimmed(Run(w, events), u + UnreportedBy(w, events))
    decreases |events|
  {
    if events == [] {
      assert u + {} == u;
    } else {
      EventKeeps(w, events[0]);
      EventTrims(w, events[0], u);
      hide WorldInv, Trimmed, Next, Enabled, Unreported;
      var w', u' := Next(w, events[0]), u + Unreported(w, events[0]);
      RunTrims(w', events[1..], u');
      assert u' + UnreportedBy(w', events[1..]) == u + UnreportedBy(w, events);
    }
  }

  lemma InitialTrimmed(ownPid: int)
    ensures Trimmed(InitialWorld(ownPid), {})
  {}

  /** When one request fails on the client side, for any server maps and any client cache: the queue reused an entry
      the client does not have, and the server either believes it has sent it or cannot produce it. */
  lemma ApiFailureExact(m: Maps, pid: int, local: bool, r: Reply, alive: bool, cache: map<int, Buffer>)
    ensures Receive(cache, Record(m, pid, local, r, alive).1).1.ApiFailed?
      <==> && r.buffer.None? && r.sequence !in cache
           && ((!local && r.sequence in SentTo(m, pid)) || r.sequence !in m.cache || !alive)
  {}

  /** A queue whose only free entry has the configuration asked for hands it out without its buffer. */
  lemma TakeOnlyFree(q: Queue, s: int, config: Config, alloc: Alloc)
    requires q.free == [s] && s in q.cache && q.cache[s].config == config
    ensures var (q', o) := Take(q, config, alloc, Waits); o.Granted? && o.reply.sequence == s && o.reply.buffer.None?
  {
    assert PopIndex(q, config) == 0;
  }

  /** The first failure happens to a second surface of a remote process: the first one is given a new buffer and cancels
      it, and the second asks for the same configuration. */
  lemma SecondSurfaceFails(
      q: Queue, m: Maps, config: Config, n: int, pid: int, extra: int, alloc: Alloc, alive: bool, cache: map<int, Buffer>)
    requires q.free == [] && |q.cache| < q.queueSize && Unknown(q, n) && n !in cache
    ensures var (q1, o1) := Take(q, config, Allocated(n), Waits);
      && o1.Granted?
      && var (m1, r1) := Record(m, pid, false, o1.reply, alive);
      && Receive(map[], r1).1 == Delivered(n, NewBuffer(n, config))
      && var (q2, ret) := Cancel(q1, n, extra);
      && ret.OK? && (forall x :: x in q2.free ==> x in q2.cache)
      && var (q3, o3) := Take(q2, config, alloc, Waits);
      && o3.Granted?
      && Receive(cache, Record(m1, pid, false, o3.reply, alive).1).1.ApiFailed?
  {
    var (q1, o1) := Take(q, config, Allocated(n), Waits);
    var (m1, r1) := Record(m, pid, false, o1.reply, alive);
    assert n in SentTo(m1, pid);
    var q2 := Cancel(q1, n, extra).0;
    TakeOnlyFree(q2, n, config, alloc);
    hide Take, Record;
    ApiFailureExact(m1, pid, false, Take(q2, config, alloc, Waits).1.reply, alive, cache);
  }

  /** The second failure happens to a buffer that was attached: once it has been flushed, acquired and released, the
      queue hands it out and neither the server nor the surface knows it. */
  lemma AttachedFails(
      q: Queue, m: Maps, b: Buffer, f: Flush, fence: int, alloc: Alloc, pid: int, local: bool, alive: bool,
      cache: map<int, Buffer>)
    requires Inv(q) && q.free == [] && q.dirty == [] && |q.cache| < q.queueSize && Unknown(q, b.seqNum)
    requires f.sequence == b.seqNum && b.seqNum !in m.cache && b.seqNum !in cache
    ensures var s := b.seqNum;
      var (q1, ret) := Attach(q, b);
      && ret.OK? && FlushCheck(q1, s).OK?
      && var q2 := DoFlush(q1, f, OK).0;
      && q2.dirty == [s] && s in q2.cache
      && var q3 := Acquire(q2);
      && ReleaseCheck(q3, s).OK?
      && var q4 := Release(q3, s, fence);
      && (forall x :: x in q4.free ==> x in q4.cache)
      && var o := Take(q4, AttachedElement(b).config, alloc, Waits).1;
      && o.Granted?
      && Receive(cache, Record(m, pid, local, o.reply, alive).1).1.ApiFailed?
  {
    var s := b.seqNum;
    var q1 := Attach(q, b).0;
    var q4 := Release(Acquire(DoFlush(q1, f, OK).0), s, fence);
    assert q4.free == [s] && q4.cache[s].config == AttachedElement(b).config;
    TakeOnlyFree(q4, s, AttachedElement(b).config, alloc);
    hide Take, Record, Inv;
    ApiFailureExact(m, pid, local, Take(q4, AttachedElement(b).config, alloc, Waits).1.reply, alive, cache);
  }
}
