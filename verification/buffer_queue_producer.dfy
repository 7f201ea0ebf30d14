/** Server and client side of a buffer request: what the producer stub remembers having sent
    (frameworks/surface/src/buffer_queue_producer.cpp) and what the surface caches
    (frameworks/surface/src/producer_surface.cpp). */
module BufferProducer {
  import opened BufferQueues
  import opened Wrappers
  import opened BufferQueueObject

  /** The static maps of BufferQueueProducer::RequestBuffer, shared by all queues of the process. */
  datatype Maps = Maps(cache: map<int, Buffer>, sendeds: map<int, set<int>>)

  function SentTo(m: Maps, pid: int): set<int> { if pid in m.sendeds then m.sendeds[pid] else {} }

  function Members(s: seq<int>): set<int> { set x | x in s }

  /** Promotion of the weak pointer: null unless somebody still holds the buffer. */
  function Promote(m: Maps, s: int, alive: bool): Option<Buffer> {
    if s in m.cache && alive then Some(m.cache[s]) else None
  }

  /** The bookkeeping after a granted request: remember a new buffer, attach a known one where the caller needs it. */
  function Attached(m: Maps, pid: int, local: bool, r: Reply, alive: bool): (Maps, Reply) {
    var s, sent := r.sequence, SentTo(m, pid);
    if r.buffer.Some? then
      (Maps(m.cache[s := r.buffer.value], m.sendeds[pid := sent + {s}]), r)
    else if local then (m.(sendeds := m.sendeds[pid := sent]), r.(buffer := Promote(m, s, alive)))
    else if s !in sent then (m.(sendeds := m.sendeds[pid := sent + {s}]), r.(buffer := Promote(m, s, alive)))
    else (m, r)
  }

  function Forgotten(m: Maps, pid: int, gone: seq<int>): Maps {
    Maps(m.cache - Members(gone), m.sendeds[pid := SentTo(m, pid) - Members(gone)])
  }

  function Record(m: Maps, pid: int, local: bool, r: Reply, alive: bool): (Maps, Reply) {
    var (m', r') := Attached(m, pid, local, r, alive);
    (Forgotten(m', pid, r.deleting), r')
  }

  /** What ProducerSurface::RequestBuffer returns. */
  datatype Answer = Delivered(sequence: int, buffer: Buffer) | ApiFailed

  /** The client side: cache a new buffer, look a known one up, drop the deleted ones. */
  function Receive(cache: map<int, Buffer>, r: Reply): (map<int, Buffer>, Answer) {
    var s := r.sequence;
    if r.buffer.Some? then
      (cache[s := r.buffer.value] - Members(r.deleting), Delivered(s, r.buffer.value))
    else if s !in cache then (cache, ApiFailed)
    else (cache - Members(r.deleting), Delivered(s, cache[s]))
  }

  /** The answer of a request is a failure exactly when neither the reply nor the client cache has the buffer. */
  lemma ReceiveExact(cache: map<int, Buffer>, r: Reply)
    ensures Receive(cache, r).1.ApiFailed? <==> r.buffer.None? && r.sequence !in cache
    ensures Receive(cache, r).1.Delivered? ==> Receive(cache, r).1.sequence == r.sequence
  {}

  /** On a delivery the deleted buffers leave the client cache, the delivered one is in it unless it is among them, and
      every other one stays; on a failure nothing changes. */
  lemma ReceiveErases(cache: map<int, Buffer>, r: Reply)
    ensures var (cache', answer) := Receive(cache, r);
      match answer {
        case ApiFailed => cache' == cache
        case Delivered(s, buffer) =>
          && s == r.sequence && (if r.buffer.Some? then buffer == r.buffer.value else s in cache && buffer == cache[s])
          && (forall x :: x in cache' <==> x !in r.deleting && (x == s || x in cache))
          && (forall x :: x in cache' ==> cache'[x] == if x == s then buffer else cache[x])
      }
  {}

  /** On the server the deleted buffers are forgotten, by the map of buffers and as sent to the caller; a new buffer is
      remembered, as sent too, a known one as sent when the caller is remote; and nothing else changes. */
  lemma RecordForgets(m: Maps, pid: int, local: bool, r: Reply, alive: bool)
    ensures var (m', r') := Record(m, pid, local, r, alive);
      && r' == r.(buffer := r'.buffer)
      && (forall x :: x in m'.cache <==> x !in r.deleting && (x in m.cache || (r.buffer.Some? && x == r.sequence)))
      && (forall x :: x in m'.cache ==>
            m'.cache[x] == if r.buffer.Some? && x == r.sequence then r.buffer.value else m.cache[x])
      && (forall x :: x in SentTo(m', pid) <==>
            x !in r.deleting && (x in SentTo(m, pid) || (x == r.sequence && (r.buffer.Some? || !local))))
      && (forall p :: p != pid ==> SentTo(m', p) == SentTo(m, p))
  {}

  // ----- the classes -----

  class ServerMaps {
    var cache: map<int, Buffer>
    var sendeds: map<int, set<int>>

    ghost function State(): Maps
      reads this
    {
      Maps(cache, sendeds)
    }

    constructor ()
      ensures State() == Maps(map[], map[])
    {
      cache, sendeds := map[], map[];
    }
  }

  class BufferQueueProducer {
    var connectedPid: int
    const statics: ServerMaps
    const queue: BufferQueue

    constructor (statics: ServerMaps, queue: BufferQueue)
      ensures connectedPid == 0 && this.statics == statics && this.queue == queue
    {
      connectedPid := 0;
      this.statics, this.queue := statics, queue;
    }

    /** The connection check at the head of RequestBuffer. */
    method Connect(callingPid: int) returns (ret: GSError)
      modifies this`connectedPid
      ensures ret == if old(connectedPid) != 0 && old(connectedPid) != callingPid then INVALID_OPERATING else OK
      ensures connectedPid == if ret.OK? then callingPid else old(connectedPid)
    {
      if connectedPid != 0 && connectedPid != callingPid {
        return INVALID_OPERATING;
      }
      connectedPid := callingPid;
      return OK;
    }

    /** The bookkeeping section of RequestBuffer for a granted request. */
    method RecordReply(callingPid: int, ownPid: int, reply: Reply, alive: bool) returns (sent: Reply)
      modifies statics
      ensures (statics.State(), sent) == Record(old(statics.State()), callingPid, callingPid == ownPid, reply, alive)
    {
      sent := reply;
      var sended := if callingPid in statics.sendeds then statics.sendeds[callingPid] else {};
      if reply.buffer.Some? {
        statics.cache := statics.cache[reply.sequence := reply.buffer.value];
        sended := sended + {reply.sequence};
      } else if callingPid == ownPid {
        sent := reply.(buffer := Promote(Maps(statics.cache, statics.sendeds), reply.sequence, alive));
      } else if reply.sequence !in sended {
        sent := reply.(buffer := Promote(Maps(statics.cache, statics.sendeds), reply.sequence, alive));
        sended := sended + {reply.sequence};
      }
      ghost var kept := sended;
      ghost var before := statics.cache;
      var i := 0;
      while i < |reply.deleting|
        invariant i <= |reply.deleting|
        invariant statics.cache == before - Members(reply.deleting[..i])
        invariant sended == kept - Members(reply.deleting[..i])
        invariant statics.sendeds == old(statics.sendeds)
      {
        MembersNext(reply.deleting, i);
        statics.cache := statics.cache - {reply.deleting[i]};
        sended := sended - {reply.deleting[i]};
        i := i + 1;
      }
      assert reply.deleting[..i] == reply.deleting;
      statics.sendeds := statics.sendeds[callingPid := sended];
      assert statics.sendeds == Record(old(statics.State()), callingPid, callingPid == ownPid, reply, alive).0.sendeds;
    }

    method CheckConnectLocked(callingPid: int) returns (ret: GSError)
      ensures ret == if connectedPid != 0 && connectedPid != callingPid then INVALID_OPERATING else OK
    {
      if connectedPid == 0 {
        return OK;
      }
      ret := if connectedPid != callingPid then INVALID_OPERATING else OK;
    }

    method CleanCache(callingPid: int) returns (ret: GSError)
      requires queue.Valid()
      modifies queue
      ensures queue.Valid()
      ensures ret == if connectedPid != 0 && connectedPid != callingPid then INVALID_OPERATING else OK
      ensures queue.State() == if ret.OK? then Clean(old(queue.State())) else old(queue.State())
    {
      ret := CheckConnectLocked(callingPid);
      if ret.OK? {
        queue.CleanCache();
      }
    }

    method Disconnect(callingPid: int) returns (ret: GSError)
      requires queue.Valid()
      modifies this`connectedPid, queue
      ensures queue.Valid()
      ensures ret == if old(connectedPid) != 0 && old(connectedPid) != callingPid then INVALID_OPERATING else OK
      ensures connectedPid == if ret.OK? then 0 else old(connectedPid)
      ensures queue.State() == if ret.OK? then Clean(old(queue.State())) else old(queue.State())
    {
      ret := CheckConnectLocked(callingPid);
      if ret.OK? {
        connectedPid := 0;
        queue.CleanCache();
      }
    }
  }

  lemma MembersNext(s: seq<int>, i: nat)
    requires i < |s|
    ensures Members(s[..i + 1]) == Members(s[..i]) + {s[i]}
  {
    assert s[..i + 1] == s[..i] + [s[i]];
  }

  class ProducerSurface {
    var bufferProducerCache: map<int, Buffer>

    constructor ()
      ensures bufferProducerCache == map[]
    {
      bufferProducerCache := map[];
    }

    /** RequestBuffer once the producer has answered. */
    method ReceiveReply(reply: Reply) returns (answer: Answer)
      modifies this
      ensures (bufferProducerCache, answer) == Receive(old(bufferProducerCache), reply)
    {
      if reply.buffer.Some? {
        bufferProducerCache := bufferProducerCache[reply.sequence := reply.buffer.value];
        answer := Delivered(reply.sequence, reply.buffer.value);
      } else if reply.sequence !in bufferProducerCache {
        return ApiFailed;
      } else {
        answer := Delivered(reply.sequence, bufferProducerCache[reply.sequence]);
      }
      ghost var before := bufferProducerCache;
      var i := 0;
      while i < |reply.deleting|
        invariant i <= |reply.deleting|
        invariant bufferProducerCache == before - Members(reply.deleting[..i])
      {
        MembersNext(reply.deleting, i);
        bufferProducerCache := bufferProducerCache - {reply.deleting[i]};
        i := i + 1;
      }
      assert reply.deleting[..i] == reply.deleting;
    }

    /** The client half of CleanCache. */
    method CleanCache(remote: bool)
      modifies this
      ensures bufferProducerCache == if remote then map[] else old(bufferProducerCache)
    {
      if remote {
        bufferProducerCache := map[];
      }
    }
  }
}
