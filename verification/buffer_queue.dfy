/**
 * The buffer queue object, one method per critical section
 * (frameworks/surface/src/buffer_queue.cpp).
 */
module BufferQueueObject {
  import opened Ordered
  import opened BufferQueues
  import opened Sequences
  import opened Wrappers

  class BufferQueue {
    var queueSize: int
    var freeList: seq<int>
    var dirtyList: seq<int>
    var deletingList: seq<int>
    var cache: map<int, Element>
    /** Whether a consumer listener is registered. */
    var listening: bool

    ghost function State(): Queue
      reads this
    {
      Queue(queueSize, freeList, dirtyList, deletingList, cache)
    }

    ghost predicate Valid()
      reads this
    {
      Inv(State())
    }

    constructor ()
      ensures Valid() && State() == NewQueue() && !listening
    {
      queueSize := DEFAULT_QUEUE_SIZE;
      freeList, dirtyList, deletingList, cache := [], [], [], map[];
      listening := false;
    }

    method PopFromFreeList(config: Config) returns (found: Option<int>)
      requires Valid()
      modifies this`freeList
      ensures found.None? <==> old(freeList) == []
      ensures found.None? ==> freeList == old(freeList)
      ensures found.Some? ==>
        var i := PopIndex(old(State()), config);
        found.value == old(freeList)[i] && freeList == Without(old(freeList), i)
    {
      var it := 0;
      while it < |freeList|
        invariant it <= |freeList| && freeList == old(freeList)
        invariant freeList != [] ==> PopIndex(State(), config) == PopIndex(State(), config, it)
      {
        var s := freeList[it];
        assert s in freeList;
        assert InState(State(), s, Released);
        if cache[s].config == config {
          freeList := Without(freeList, it);
          return Some(s);
        }
        it := it + 1;
      }
      if freeList == [] {
        return None;
      }
      found := Some(freeList[0]);
      freeList := Without(freeList, 0);
    }

    method DeleteBufferInCache(sequence: int)
      modifies this`cache, this`deletingList
      ensures State() == Drop(old(State()), sequence)
    {
      if sequence in cache {
        cache := cache - {sequence};
        deletingList := deletingList + [sequence];
      }
    }

    method AllocBuffer(config: Config, alloc: Alloc) returns (outcome: Outcome)
      modifies this`cache
      ensures (State(), outcome) == Allocate(old(State()), config, alloc)
    {
      match alloc
      case Refused(error) => outcome := Failed(error);
      case Allocated(n) =>
        cache := cache[n := NewElement(n, config)];
        outcome := Granted(Reply(n, Some(NewBuffer(n, config)), INVALID_FENCE, EMPTY_EXTRA, []));
    }

    method ReuseBuffer(sequence: int, config: Config, alloc: Alloc) returns (outcome: Outcome)
      requires sequence in cache
      modifies this`cache, this`deletingList
      ensures (State(), outcome) == Reuse(old(State()), sequence, config, alloc)
    {
      var current := sequence;
      var buffer: Option<Buffer> := None;
      if config != cache[sequence].config {
        DeleteBufferInCache(sequence);
        var fresher := AllocBuffer(config, alloc);
        if fresher.Failed? {
          return fresher;
        }
        current := fresher.reply.sequence;
        buffer := fresher.reply.buffer;
      }
      cache := cache[current := cache[current].(state := Requested)];
      assert cache == Reuse(old(State()), sequence, config, alloc).0.cache;
      outcome := Granted(Reply(current, buffer, cache[current].fence, cache[current].extra, deletingList));
      deletingList := [];
    }

    /** The part both critical sections of RequestBuffer share. */
    method TakeBuffer(config: Config, alloc: Alloc, onFull: Outcome) returns (outcome: Outcome)
      requires Valid()
      modifies this`freeList, this`cache, this`deletingList
      ensures (State(), outcome) == Take(old(State()), config, alloc, onFull)
    {
      var found := PopFromFreeList(config);
      if found.Some? {
        assert found.value in old(freeList);
        assert InState(old(State()), found.value, Released);
        outcome := ReuseBuffer(found.value, config, alloc);
      } else if |cache| >= queueSize {
        outcome := onFull;
      } else {
        outcome := AllocBuffer(config, alloc);
      }
    }

    /** RequestBuffer up to its reply or up to going to sleep; checked is what CheckRequestConfig answers. */
    method RequestBuffer(config: Config, checked: GSError, alloc: Alloc) returns (outcome: Outcome)
      requires Valid() && (alloc.Allocated? ==> Unknown(State(), alloc.sequence))
      modifies this`freeList, this`cache, this`deletingList
      ensures Valid()
      ensures if !listening then outcome == Failed(NO_CONSUMER) && State() == old(State())
              else if !checked.OK? then outcome == Failed(checked) && State() == old(State())
              else (State(), outcome) == Take(old(State()), config, alloc, Waits)
    {
      hide Inv, Take;
      if !listening {
        return Failed(NO_CONSUMER);
      }
      if !checked.OK? {
        return Failed(checked);
      }
      TakeKeeps(State(), config, alloc, Waits);
      outcome := TakeBuffer(config, alloc, Waits);
    }

    /** RequestBuffer once it has been woken up or has timed out. */
    method RequestBufferAwake(config: Config, alloc: Alloc) returns (outcome: Outcome)
      requires Valid() && (alloc.Allocated? ==> Unknown(State(), alloc.sequence))
      modifies this`freeList, this`cache, this`deletingList
      ensures Valid() && (State(), outcome) == Take(old(State()), config, alloc, Failed(NO_BUFFER))
    {
      hide Inv, Take;
      TakeKeeps(State(), config, alloc, Failed(NO_BUFFER));
      outcome := TakeBuffer(config, alloc, Failed(NO_BUFFER));
    }

    method CancelBuffer(sequence: int, extra: int) returns (ret: GSError)
      requires Valid()
      modifies this`freeList, this`cache
      ensures Valid() && (State(), ret) == Cancel(old(State()), sequence, extra)
    {
      CancelKeeps(State(), sequence, extra);
      if sequence !in cache {
        return NO_ENTRY;
      }
      if !cache[sequence].state.Requested? {
        return INVALID_OPERATING;
      }
      cache := cache[sequence := cache[sequence].(state := Released)];
      freeList := freeList + [sequence];
      cache := cache[sequence := cache[sequence].(extra := extra)];
      assert cache == Cancel(old(State()), sequence, extra).0.cache;
      return OK;
    }

    /** The checking section of FlushBuffer. */
    method FlushBufferCheck(sequence: int) returns (ret: GSError)
      ensures ret == FlushCheck(State(), sequence)
    {
      if sequence !in cache {
        return NO_ENTRY;
      }
      var state := cache[sequence].state;
      ret := if !state.Requested? && !state.Attached? then NO_ENTRY else OK;
    }

    /** The committing section of FlushBuffer. */
    method DoFlushBuffer(f: Flush, cacheFlush: GSError) returns (ret: GSError)
      requires Valid() && FlushCheck(State(), f.sequence).OK?
      modifies this`cache, this`dirtyList, this`deletingList
      ensures Valid() && (State(), ret) == DoFlush(old(State()), f, cacheFlush)
    {
      DoFlushKeeps(State(), f, cacheFlush);
      if cache[f.sequence].isDeleting {
        DeleteBufferInCache(f.sequence);
        return OK;
      }
      cache := cache[f.sequence := cache[f.sequence].(state := Flushed)];
      dirtyList := dirtyList + [f.sequence];
      cache := cache[f.sequence := cache[f.sequence].(extra := f.extra, fence := f.fence, damage := f.damage)];
      if cacheFlush.OK? {
        cache := cache[f.sequence := cache[f.sequence].(timestamp := f.time)];
      }
      assert cache == DoFlush(old(State()), f, cacheFlush).0.cache;
      return cacheFlush;
    }

    method AcquireBuffer() returns (ret: GSError, taken: Option<Element>)
      requires Valid()
      modifies this`cache, this`dirtyList
      ensures Valid()
      ensures if old(dirtyList) == [] then ret == NO_BUFFER && taken == None && State() == old(State())
              else && ret == OK
                   && old(dirtyList[0]) in old(cache) && taken == Some(old(cache[dirtyList[0]]))
                   && State() == Acquire(old(State()))
    {
      if dirtyList == [] {
        return NO_BUFFER, None;
      }
      AcquireKeeps(State());
      var sequence := dirtyList[0];
      taken := Some(cache[sequence]);
      dirtyList := dirtyList[1..];
      cache := cache[sequence := cache[sequence].(state := Acquired)];
      ret := OK;
    }

    /** The checking section of ReleaseBuffer. */
    method ReleaseBufferCheck(sequence: int) returns (ret: GSError)
      ensures ret == ReleaseCheck(State(), sequence)
    {
      if sequence !in cache {
        return NO_ENTRY;
      }
      var state := cache[sequence].state;
      ret := if !state.Acquired? && !state.Attached? then NO_ENTRY else OK;
    }

    /** The committing section of ReleaseBuffer. */
    method ReleaseBufferCommit(sequence: int, fence: int)
      requires Valid() && ReleaseCheck(State(), sequence).OK?
      modifies this`cache, this`freeList, this`deletingList
      ensures Valid() && State() == Release(old(State()), sequence, fence)
    {
      ReleaseKeeps(State(), sequence, fence);
      cache := cache[sequence := cache[sequence].(state := Released, fence := fence)];
      if cache[sequence].isDeleting {
        DeleteBufferInCache(sequence);
      } else {
        freeList := freeList + [sequence];
      }
    }

    method DeleteReleased(count: int) returns (left: int)
      requires count > 0
      modifies this`cache, this`freeList, this`deletingList
      ensures State() == DropFree(old(State()), count)
      ensures left == count - Least2(count, old(|freeList|))
    {
      left := count;
      while freeList != []
        invariant DropFree(State(), left) == DropFree(old(State()), count)
        invariant left > 0 && count - left == old(|freeList|) - |freeList|
        decreases |freeList|
      {
        DeleteBufferInCache(freeList[0]);
        freeList := freeList[1..];
        left := left - 1;
        if left <= 0 {
          return;
        }
      }
    }

    method DeleteFlushed(count: int) returns (left: int)
      requires count > 0
      modifies this`cache, this`dirtyList, this`deletingList
      ensures State() == DropDirty(old(State()), count)
      ensures left == count - Least2(count, old(|dirtyList|))
    {
      left := count;
      while dirtyList != []
        invariant DropDirty(State(), left) == DropDirty(old(State()), count)
        invariant left > 0 && count - left == old(|dirtyList|) - |dirtyList|
        decreases |dirtyList|
      {
        DeleteBufferInCache(dirtyList[0]);
        dirtyList := dirtyList[1..];
        left := left - 1;
        if left <= 0 {
          return;
        }
      }
    }

    /** Marks entries in key order until count is used up. */
    method MarkInFlight(count: int)
      requires count > 0
      modifies this`cache
      ensures State() == MarkKeys(old(State()), Enumerate(old(cache.Keys)), count)
    {
      hide Enumerate;
      var keys := KeysInOrder(cache.Keys);
      var i, left := 0, count;
      while i < |keys|
        invariant i <= |keys| && left > 0
        invariant cache.Keys == old(cache.Keys)
        invariant MarkKeys(State(), keys[i..], left) == MarkKeys(old(State()), keys, count)
      {
        var s := keys[i];
        assert s in keys;
        assert keys[i..][1..] == keys[i + 1..];
        cache := cache[s := cache[s].(isDeleting := true)];
        left := left - 1;
        if left <= 0 {
          break;
        }
        i := i + 1;
      }
    }

    method DeleteBuffers(count: int)
      requires Valid()
      modifies this`cache, this`freeList, this`dirtyList, this`deletingList
      ensures Valid() && State() == Evict(old(State()), count)
    {
      hide Inv, Gone, Enumerate, DropFree, DropDirty, MarkKeys, Evict;
      ghost var q := State();
      EvictKeeps(q, count);
      EvictCases(q, count);
      if count <= 0 {
        return;
      }
      DropFreeExact(q, count);
      var left := DeleteReleased(count);
      if left <= 0 {
        return;
      }
      DropDirtyExact(State(), left);
      left := DeleteFlushed(left);
      if left <= 0 {
        return;
      }
      MarkInFlight(left);
    }

    /** Both lock acquisitions of the source taken as one critical section. */
    method AttachBuffer(buffer: Buffer) returns (ret: GSError)
      requires Valid()
      modifies this`cache, this`freeList, this`dirtyList, this`deletingList
      ensures (State(), ret) == Attach(old(State()), buffer)
      ensures Valid() <==> (ret.OK? ==> Attachable(old(State()), buffer.seqNum))
    {
      hide Inv, Evict, Attachable;
      if Attach(State(), buffer).1.OK? {
        AttachExact(State(), buffer);
      }
      var used := |cache|;
      if used >= queueSize {
        var freeSize := |dirtyList| + |freeList|;
        if freeSize >= used - queueSize + 1 {
          DeleteBuffers(used - queueSize + 1);
          cache := cache[buffer.seqNum := AttachedElement(buffer)];
          return OK;
        }
        return OUT_OF_RANGE;
      }
      cache := cache[buffer.seqNum := AttachedElement(buffer)];
      return OK;
    }

    method DetachBuffer(sequence: int) returns (ret: GSError)
      requires Valid()
      modifies this`cache
      ensures Valid() && (State(), ret) == Detach(old(State()), sequence)
    {
      DetachKeeps(State(), sequence);
      if sequence !in cache {
        return NO_ENTRY;
      }
      if !cache[sequence].state.Requested? && !cache[sequence].state.Acquired? {
        return NO_ENTRY;
      }
      cache := cache - {sequence};
      return OK;
    }

    method SetQueueSize(size: int) returns (ret: GSError)
      requires Valid() && size >= 0
      modifies this`queueSize, this`cache, this`freeList, this`dirtyList, this`deletingList
      ensures Valid() && ret == SizeCheck(size)
      ensures State() == if ret.OK? then Resized(old(State()), size) else old(State())
    {
      hide Inv, Evict;
      if size <= 0 || size > MAX_QUEUE_SIZE {
        return INVALID_ARGUMENTS;
      }
      ResizedKeeps(State(), size);
      DeleteBuffers(queueSize - size);
      queueSize := size;
      return OK;
    }

    method CleanCache()
      requires Valid()
      modifies this`cache, this`freeList, this`dirtyList, this`deletingList
      ensures Valid() && State() == Clean(old(State()))
    {
      cache, freeList, dirtyList, deletingList := map[], [], [], [];
    }
  }
}
