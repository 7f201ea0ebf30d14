# Models of the graphic subsystem's state machines

This project models the stateful cores of the graphic subsystem and proves what they keep.

- `rects.dfy`, `layout_controller.dfy`: rectangle-list subtraction as an in-place worklist, and the default window
  layouts built on it. The meaning of a list is the number of its rectangles over each integer point.
- `buffer_queue_state.dfy` gives every critical section of the buffer queue as a function on values and proves its
  invariant; `buffer_queue.dfy` is the queue object, each method tied to its function; `buffer_queue_system.dfy`
  interleaves a producer, a consumer and a resizing thread section by section, with a history of frames.
- `buffer_queue_producer.dfy` has the server maps and the client cache of buffers; `buffer_coherence.dfy` runs queue,
  server and clients of several processes together.
- `graphic_dumper_log.dfy`: the two log buffers, the saver thread and the block store. Lines are strings of one-byte
  characters.
- `singleton_container.dfy`: reference counts, and the destructor as a sequence of passes in key order.
- `split_mode.dfy`: the 8 by 8 split-screen table over the window list, with windows destroyed at any moment.
- `buffer_extra_data.dfy`: typed extra data and its parcel, a sequence of typed tokens.
- `vsync_module.dfy`, `vsync_helper.dfy`: the bounded vsync queue, stepped finer than its lock, and the divisor list with
  32-bit arithmetic.
- `window_ids.dfy`: the bitmap of window ids per connection, on 32-bit vectors.
- `ordered.dfy`, `sequences.dfy`, `wrappers.dfy`: enumeration of integer keys in increasing order, as the source's ordered
  maps are walked; sequences without duplicates; optional values and the conversion of real numbers to integers.

Objects are classes whose methods change the fields in place; each method is proved against a function on the object's
abstract value, and the properties are lemmas about those functions and about runs of them. A run is a sequence of
events, each enabled where it happens; what may happen is stated by `Enabled` in each module. Allocation, mapping,
cache flushing, the animation service, the layout library and listener callbacks answer as they like.

Where the code falls short of what one would expect, the model follows the code, and a lemma says exactly when it does
what it should: `DumperLog.TornViewExact` (when a reader sees every line) and `EvictionDefinedExact` (how long lines may
be), `DumperLog.UnpackExact`, `BufferExtraData.RoundTripExact` (1001 entries, one more than the documented limit),
`VsyncHelper.TestsExact` and `DescendingExact`, `VsyncModule.StopEndsExact`, `Singletons.CountsExact` and
`TeardownEndsExact`, `SplitModes.StuckExact`, `BufferQueues.AttachExact`, `BufferQueueSystem.CleanSafeExact` and
`DetachSafeExact`, `BufferCoherence.ApiFailureExact`. The failing states are reached: `DumperLog.OversizedRuns`,
`VsyncModule.HungReached`, `SplitModes.StuckReached`, `BufferQueueSystem.DoubleCommitBreaks`,
`BufferCoherence.SecondSurfaceFails` and `AttachedFails`. The log line of the edge case in To7TouchUp6 says that split
mode is exited, yet the mode becomes TOUCH_UP (`SplitModes.DraggedOut`).

## Model

| member | source | states |
|---|---|---|
| RectSets.DifferenceCount | frameworks/wmserver/src/rects.cpp:146-176 | for any two lists and every integer point, the number of left rectangles remaining over the point is max(0, left count - right count); no disjointness is assumed on either side |
| RectSets.TurnShrinks | frameworks/wmserver/src/rects.cpp:146-176 | each turn of the endless loop lowers (area of the right list, its length) lexicographically, whatever the rectangles, so the loop ends on every input |
| RectSets.TurnCount | frameworks/wmserver/src/rects.cpp:146-176 | one turn keeps the surplus of left over right at every point |
| RectSets.PiecesCount | frameworks/wmserver/src/rects.cpp:116-144 | cutting the intersection out of a rectangle leaves pieces that cover each of its other points once and nothing else |
| RectSets.DifferencePositive | frameworks/wmserver/src/rects.cpp:146-176 | a left operand without empty rectangles leaves none |
| RectSets.MinusCovers | frameworks/wmserver/src/rects.cpp:75-100 | a point is covered by the result of operator- exactly when the left operand covers it more often than the right one, coalescing included |
| RectSets.MinusOfDisjoint | frameworks/wmserver/src/rects.cpp:75-100 | for a disjoint left operand the result covers exactly the set difference, each point once, and is pairwise disjoint |
| RectSets.MinusCoalesces | frameworks/wmserver/src/rects.cpp:81-97 | a non-empty remainder becomes one rectangle exactly when it fills the bounding box it has together with the origin |
| RectSets.EmptinessTest | frameworks/wmserver/src/rects.cpp:93-97 | subtracting the remainder from its box leaves nothing exactly when the remainder fills the box |
| RectSets.OriginBoxLeast | frameworks/wmserver/src/rects.cpp:82-91 | the accumulated box is the smallest one around the remainder and the origin |
| RectSets.NoOverflow | frameworks/wmserver/src/rects.cpp:108-144 | with edges inside 30 bits no 32-bit operation of Intersect or Subtrace overflows, and the pieces stay inside |
| RectSets.Rects.RectsSubtrace | frameworks/wmserver/src/rects.cpp:146-176 | the loop computes the specified difference of the two lists |
| RectSets.Rects.Subtrace | frameworks/wmserver/src/rects.cpp:116-144 | pushes the specified pieces, in order |
| RectSets.Rects.FindMeeting | frameworks/wmserver/src/rects.cpp:150-159 | finds the first left rectangle that meets the given one, and the intersection |
| RectSets.Rects.BoxAroundOrigin | frameworks/wmserver/src/rects.cpp:82-91 | accumulates the box of the rectangles and the origin |
| RectSets.Rects.Subtract | frameworks/wmserver/src/rects.cpp:75-100 | operator- returns the specified result in a new object and leaves both operands alone |
| RectSets.Rects.SubtractInPlace | frameworks/wmserver/src/rects.cpp:102-106 | operator-= replaces the object's rectangles by that result |
| LayoutControl.NormalRectSucceeds | frameworks/wmserver/src/layout_controller.cpp:177-204 | for every positive display size the normal rectangle exists and is the display less the two bars |
| LayoutControl.BarsEitherOrder | frameworks/wmserver/src/layout_controller.cpp:184-196 | subtracting the two bars gives the same single rectangle in either order, coalescing included |
| LayoutControl.DefaultLayoutWithin | frameworks/wmserver/src/layout_controller.cpp:80-126 | exactly the window types the tables list have a default layout; it lies inside the display and, when relative, inside the normal rectangle |
| LayoutControl.DefaultLayoutExact | frameworks/wmserver/src/layout_controller.cpp:96-125 | for any tables and any display: sizes and free offsets are the whole numbers next below their percentages of the frame (up to the tolerance), LFT and TOP start and RGH and BTM end at the frame's edge, and MID leaves margins that differ by at most one |
| LayoutControl.PositionWithin | frameworks/wmserver/src/layout_controller.cpp:96-125 | placing a box of the given size by its position type keeps it inside the rectangle it is placed in |
| LayoutControl.LayoutController.InitByDefaultValue | frameworks/wmserver/src/layout_controller.cpp:143-170 | fills the three tables with the default layouts |
| LayoutControl.LayoutController.CalcWindowDefaultLayout | frameworks/wmserver/src/layout_controller.cpp:80-126 | computes the specified default layout, or fails when the type is not in the table; the recursion with CalcNormalRect terminates |
| LayoutControl.LayoutController.CalcNormalRect | frameworks/wmserver/src/layout_controller.cpp:177-204 | the loop over the static windows computes the specified normal rectangle, or fails when the rest is not one rectangle |
| BufferQueues.TakeKeeps | frameworks/surface/src/buffer_queue.cpp:188-285 | a request keeps the invariant, never raises the cache above the queue size, hands out an entry in state REQUESTED with the wanted configuration, sends no buffer only for a reuse, and leaves other entries alone |
| BufferQueues.TakeFirstMatching | frameworks/surface/src/buffer_queue.cpp:82-106 | a request is granted for the first free entry of its configuration, without a buffer, and that entry alone leaves the free list |
| BufferQueues.TakeNoneMatching | frameworks/surface/src/buffer_queue.cpp:240-285 | without a free entry of the configuration the front one is deleted and reported, and a new buffer of the configuration's measures is handed out, or the allocation's error |
| BufferQueues.TakeNoneFree | frameworks/surface/src/buffer_queue.cpp:205-238 | without a free entry a request waits or fails on a full queue, and gets a new buffer of its measures otherwise |
| BufferQueues.CancelExact | frameworks/surface/src/buffer_queue.cpp:295-311 | cancelling works exactly for a requested entry; the two refusals change nothing |
| BufferQueues.ChecksExact | frameworks/surface/src/buffer_queue.cpp:325-347 | what the two checks accept |
| BufferQueues.ReleaseOfMarked | frameworks/surface/src/buffer_queue.cpp:486-508 | releasing an entry marked for deletion deletes and lists it |
| BufferQueues.DetachExact | frameworks/surface/src/buffer_queue.cpp:645-675 | detaching removes exactly a requested or acquired entry and does not list it as deleted |
| BufferQueues.CancelKeeps | frameworks/surface/src/buffer_queue.cpp:287-312 | cancelling keeps the invariant |
| BufferQueues.CancelUndoesReuse | frameworks/surface/src/buffer_queue.cpp:240-312 | cancelling a reuse restores the queue but for the list position, the extra data and the deletions already reported |
| BufferQueues.FrameCycle | frameworks/surface/src/buffer_queue.cpp:391-508 | whatever frames are queued, flush, acquisition of every frame up to this one, and release bring an entry to the end of the free list with the flush's data and the release fence; the frames before it are acquired and nothing else changes; an entry marked for deletion goes at the flush |
| BufferQueues.AcquireManyExact | frameworks/surface/src/buffer_queue.cpp:108-123 | acquiring n times takes the first n frames in order, changes their states only, and keeps the invariant |
| BufferQueues.DoFlushKeeps | frameworks/surface/src/buffer_queue.cpp:391-429 | a commit after a passed check keeps the invariant |
| BufferQueues.AcquireKeeps | frameworks/surface/src/buffer_queue.cpp:432-459 | acquiring keeps the invariant, and the head of the dirty list is always an entry |
| BufferQueues.ReleaseKeeps | frameworks/surface/src/buffer_queue.cpp:486-508 | a release commit after a passed check keeps the invariant |
| BufferQueues.DetachKeeps | frameworks/surface/src/buffer_queue.cpp:645-675 | detaching keeps the invariant |
| BufferQueues.CleanKeeps | frameworks/surface/src/buffer_queue.cpp:781-795 | cleaning establishes the invariant |
| BufferQueues.DeleteBuffersExact | frameworks/surface/src/buffer_queue.cpp:560-594 | deletes or marks exactly min(max(count, 0), cache size) entries: released in list order, flushed in list order, then marks the lowest in flight; the invariant is kept |
| BufferQueues.EvictEffect | frameworks/surface/src/buffer_queue.cpp:560-594 | entries in flight keep their state and the frames that stay are untouched |
| BufferQueues.ResizedKeeps | frameworks/surface/src/buffer_queue.cpp:677-700 | an accepted resize keeps the invariant |
| BufferQueues.GrownExact | frameworks/surface/src/buffer_queue.cpp:695-696 | growing the queue changes its size only |
| BufferQueues.ShrunkExact | frameworks/surface/src/buffer_queue.cpp:695-696 | shrinking by n deletes the first n of the free list, then of the dirty list, and marks the lowest in flight for the rest |
| BufferQueues.SizeCheckExact | frameworks/surface/src/buffer_queue.cpp:684-693 | sizes from 1 to 32 are accepted, no others |
| BufferQueues.AttachExact | frameworks/surface/src/buffer_queue.cpp:596-643 | attaching never raises the cache above the queue size, and keeps the invariant exactly when the number is neither free, nor flushed, nor waiting to be reported as deleted |
| BufferQueues.AttachedEntry | frameworks/surface/src/buffer_queue.cpp:606-641 | when an attach is accepted, that the entry is the buffer given with its own measures, and that a refusal changes nothing |
| BufferQueueObject.BufferQueue.PopFromFreeList | frameworks/surface/src/buffer_queue.cpp:82-106 | takes the first free entry of the wanted configuration, else the front, off the list |
| BufferQueueObject.BufferQueue.RequestBuffer | frameworks/surface/src/buffer_queue.cpp:188-238 | ties the method to the specified request step, and keeps the lists in agreement with the entries |
| BufferQueueObject.BufferQueue.RequestBufferAwake | frameworks/surface/src/buffer_queue.cpp:211-238 | the second half of a request that waited, from any valid state |
| BufferQueueObject.BufferQueue.ReuseBuffer | frameworks/surface/src/buffer_queue.cpp:240-285 | hands the entry out again or reallocates it |
| BufferQueueObject.BufferQueue.CancelBuffer | frameworks/surface/src/buffer_queue.cpp:287-312 | cancel with its error cases |
| BufferQueueObject.BufferQueue.FlushBufferCheck | frameworks/surface/src/buffer_queue.cpp:325-347 | answers OK exactly for a requested or attached entry |
| BufferQueueObject.BufferQueue.DoFlushBuffer | frameworks/surface/src/buffer_queue.cpp:391-429 | commits a flush |
| BufferQueueObject.BufferQueue.AcquireBuffer | frameworks/surface/src/buffer_queue.cpp:432-459 | takes the head of the dirty list with its stored data, or NO_BUFFER |
| BufferQueueObject.BufferQueue.ReleaseBufferCheck | frameworks/surface/src/buffer_queue.cpp:470-484 | answers OK exactly for an acquired or attached entry |
| BufferQueueObject.BufferQueue.ReleaseBufferCommit | frameworks/surface/src/buffer_queue.cpp:486-508 | commits a release |
| BufferQueueObject.BufferQueue.DeleteBufferInCache | frameworks/surface/src/buffer_queue.cpp:543-553 | drops the entry and lists it as deleted |
| BufferQueueObject.BufferQueue.DeleteBuffers | frameworks/surface/src/buffer_queue.cpp:560-594 | the three loops compute the specified eviction |
| BufferQueueObject.BufferQueue.AttachBuffer | frameworks/surface/src/buffer_queue.cpp:596-643 | attach with its eviction and its refusal |
| BufferQueueObject.BufferQueue.DetachBuffer | frameworks/surface/src/buffer_queue.cpp:645-675 | detach with its error cases |
| BufferQueueObject.BufferQueue.SetQueueSize | frameworks/surface/src/buffer_queue.cpp:677-700 | resize with its range check |
| BufferQueueObject.BufferQueue.CleanCache | frameworks/surface/src/buffer_queue.cpp:781-795 | empties the lists and the cache |
| BufferQueueSystem.StepKeeps | frameworks/surface/src/buffer_queue.cpp:188-700 | each critical section of a producer, a consumer and a resizing thread keeps the list invariant, every passed check and the conservation of frames |
| BufferQueueSystem.RunKeeps | frameworks/surface/src/buffer_queue.cpp:325-508 | over every interleaving of those sections the lists agree with the entry states, a checked entry is still there at its commit, and frames flushed = frames removed ++ frames queued |
| BufferQueueSystem.AcquiredInOrder | frameworks/surface/src/buffer_queue.cpp:432-459 | the next acquired frame is the oldest not yet acquired or dropped, with the fence, damage, extra data and time its flush was given |
| BufferQueueSystem.DoubleCommitBreaks | frameworks/surface/src/buffer_queue.cpp:325-508 | an attached entry passes both checks, and committing both breaks the invariant: the exclusion of attached buffers is needed |
| BufferQueueSystem.ChecksExclusive | frameworks/surface/src/buffer_queue.cpp:325-484 | an entry passes both checks exactly when it is attached |
| BufferQueueSystem.CleanSafeExact | frameworks/surface/src/buffer_queue.cpp:781-795 | a clean leaves the commits safe if and only if neither a flush nor a release commit is pending |
| BufferQueueSystem.ResizeIsSetQueueSize | frameworks/surface/src/buffer_queue.cpp:695-696 | the two sections of a resize, one at once after the other, are SetQueueSize |
| BufferQueueSystem.DetachSafeExact | frameworks/surface/src/buffer_queue.cpp:645-675 | detaching keeps the invariant if and only if it does not hit a requested entry under a pending flush or an acquired one under a pending release |
| BufferProducer.ReceiveExact | frameworks/surface/src/producer_surface.cpp:65-102 | a surface's request fails exactly when the reply brings no buffer and its cache has none; otherwise the answer is for the reply's sequence number |
| BufferProducer.ReceiveErases | frameworks/surface/src/producer_surface.cpp:76-102 | on a delivery the deleted buffers leave the client cache and nothing else does; a failure changes nothing |
| BufferProducer.RecordForgets | frameworks/surface/src/buffer_queue_producer.cpp:289-310 | the server forgets the deleted buffers, remembers a new one, marks what it sends as sent, and touches no other process |
| BufferProducer.BufferQueueProducer.Connect | frameworks/surface/src/buffer_queue_producer.cpp:276-283 | a second process is refused while another is connected; otherwise the caller becomes the connected one |
| BufferProducer.BufferQueueProducer.RecordReply | frameworks/surface/src/buffer_queue_producer.cpp:266-312 | the bookkeeping of the static maps on a granted request, and the buffer it adds to the reply |
| BufferProducer.BufferQueueProducer.CleanCache | frameworks/surface/src/buffer_queue_producer.cpp:403-418 | cleans the queue unless another process is connected |
| BufferProducer.BufferQueueProducer.Disconnect | frameworks/surface/src/buffer_queue_producer.cpp:455-469 | cleans the queue and ends the connection unless it is another process's |
| BufferProducer.ProducerSurface.ReceiveReply | frameworks/surface/src/producer_surface.cpp:74-102 | inserts, looks up and evicts as the reply says |
| BufferProducer.ProducerSurface.CleanCache | frameworks/surface/src/producer_surface.cpp:275-283 | empties the client cache of a remote producer |
| BufferCoherence.EventKeeps | frameworks/surface/src/buffer_queue_producer.cpp:266-312 | each step of clients, server and queue threads keeps the three levels coherent |
| BufferCoherence.RunCoherent | frameworks/surface/src/buffer_queue_producer.cpp:266-312 | over every run each entry of the queue is known to the server as sent to the connected process and is in that process's cache under its own number, unless the reply on its way carries it |
| BufferCoherence.RunTrims | frameworks/surface/src/producer_surface.cpp:99-101 | over every run what a client caches is alive, waits to be reported as deleted, is reported by the reply on its way, or was detached or cleaned away; clients not connected cache nothing |
| BufferCoherence.EventTrims | frameworks/surface/src/producer_surface.cpp:99-101 | each step keeps that bound |
| BufferCoherence.NoApiFailure | frameworks/surface/src/producer_surface.cpp:85-99 | on every run from the start a granted request ends with a buffer that has the reply's sequence number: the API_FAILED branch is never taken |
| BufferCoherence.AnswerDelivered | frameworks/surface/src/producer_surface.cpp:74-102 | the same for any coherent state |
| BufferCoherence.ApiFailureExact | frameworks/surface/src/buffer_queue_producer.cpp:266-312 | with any maps and any client cache the request fails exactly when the queue reused an entry the client lacks and the server believes it sent it or cannot produce it |
| BufferCoherence.SecondSurfaceFails | frameworks/surface/src/producer_surface.cpp:78-84 | a second surface of a remote process gets API_FAILED: the first one is given a new buffer and cancels it, and the second asks for the same configuration |
| BufferCoherence.AttachedFails | frameworks/surface/src/producer_surface.cpp:78-84 | an attached buffer leads to API_FAILED once it has been flushed, acquired and released |
| DumperLog.UnpackPack | frameworks/dumper/src/graphic_dumper_server.cpp:279-294 | reading a packed block gives its lines back, once and in order, when they hold no NUL |
| DumperLog.UnpackExact | frameworks/dumper/src/graphic_dumper_server.cpp:279-294 | and only then |
| DumperLog.RunKeeps | frameworks/dumper/src/graphic_dumper_server.cpp:496-551 | over every interleaving of logger and saver: blocks ++ other buffer ++ current buffer are the lines logged less a prefix of evicted blocks, and each phase finds its buffer full or empty as it must |
| DumperLog.AppendExact | frameworks/dumper/src/graphic_dumper_server.cpp:533-549 | a line goes to the end of the current buffer; the saver is spawned where it may be and more than half of the bytes are used, and the buffer is given up at the full size |
| DumperLog.SaveExact | frameworks/dumper/src/graphic_dumper_server.cpp:499-526 | the other buffer is packed behind the blocks and emptied; the oldest block goes exactly when all would exceed the store |
| DumperLog.SwapLandsOnEmpty | frameworks/dumper/src/graphic_dumper_server.cpp:542-549 | the logger never changes to a buffer that still holds lines |
| DumperLog.ViewIsSuffix | frameworks/dumper/src/graphic_dumper_server.cpp:267-320 | a reader sees every line not evicted, once and in order |
| DumperLog.TornViewExact | frameworks/dumper/src/graphic_dumper_server.cpp:277-317 | a reader that takes the three locks at any moments of a run sees every line not evicted when it began, once and in order, if and only if nothing is saved between the first two sections and no buffers are changed between the last two |
| DumperLog.EventMoves | frameworks/dumper/src/graphic_dumper_server.cpp:496-551 | only a save adds to the stored lines, only a change of buffers to the closed ones, and lines are only added |
| DumperLog.TornViewLoses | frameworks/dumper/src/graphic_dumper_server.cpp:277-317 | a saver that runs between the first two locks hides a whole buffer from that reader |
| DumperLog.StoreBound | frameworks/dumper/src/graphic_dumper_server.cpp:517-526 | at most 20 blocks are kept and the recorded size is the sum of theirs |
| DumperLog.EvictionAlwaysDefined | frameworks/dumper/src/graphic_dumper_server.cpp:518-522 | the saver evicts only when there is a block |
| DumperLog.EvictionDefinedExact | frameworks/dumper/src/graphic_dumper_server.cpp:518-522 | for every n: on all runs with lines of at most n characters a saver that must evict has a block to evict, if and only if n is at most LOG_BLOCK_SIZE_MAX - LOG_BUF_SIZE_MAX |
| DumperLog.OversizedRuns | frameworks/dumper/src/graphic_dumper_server.cpp:518-522 | beyond that bound two lines and a third spawn a saver that must evict from an empty store |
| DumperLog.GraphicDumperServer.LogHandle | frameworks/dumper/src/graphic_dumper_server.cpp:529-542 | appends the line and spawns the saver at half full |
| DumperLog.GraphicDumperServer.ChangeBuffers | frameworks/dumper/src/graphic_dumper_server.cpp:543-549 | joins the saver and changes buffers |
| DumperLog.GraphicDumperServer.PackLines | frameworks/dumper/src/graphic_dumper_server.cpp:507-516 | copies the lines with their terminators into the block |
| DumperLog.GraphicDumperServer.SaveLogThread | frameworks/dumper/src/graphic_dumper_server.cpp:496-527 | saves the other buffer as one block, with eviction |
| DumperLog.GraphicDumperServer.ReadBlock | frameworks/dumper/src/graphic_dumper_server.cpp:279-294 | walks the byte offsets of a block and gets the specified strings |
| DumperLog.GraphicDumperServer.StrLogRomveTag | frameworks/dumper/src/graphic_dumper_server.cpp:52-67 | appends what is shown of a line for the tag asked for |
| DumperLog.GraphicDumperServer.SendBlocks | frameworks/dumper/src/graphic_dumper_server.cpp:277-293 | the first locked section: one message for each block |
| DumperLog.GraphicDumperServer.SendOther | frameworks/dumper/src/graphic_dumper_server.cpp:295-304 | the second locked section: the text of the buffer not being filled |
| DumperLog.GraphicDumperServer.SendCurrent | frameworks/dumper/src/graphic_dumper_server.cpp:308-317 | the third locked section: the text of the buffer being filled |
| DumperLog.GraphicDumperServer.GetLog | frameworks/dumper/src/graphic_dumper_server.cpp:267-320 | the three sections in order; with nothing between them they send the text of the specified view |
| DumperLog.SentText | frameworks/dumper/src/graphic_dumper_server.cpp:267-320 | what the three sections send, each at its own moment, is the text of the lines TornViewExact is about |
| DumperLog.ShownOfLine | frameworks/dumper/src/graphic_dumper_server.cpp:52-67 | of a line of the log the text behind the bar is shown when all is asked for or the line begins with what is asked for, and nothing otherwise |
| DumperLog.ShownOfUnmarked | frameworks/dumper/src/graphic_dumper_server.cpp:52-67 | a line without a mark is shown whole or not at all |
| Singletons.CountsExact | frameworks/wm/src/singleton_container.cpp:67-109 | over every run of calls each count is the number of live dependents, unless a dependency was declared before the first registration and something was registered since |
| Singletons.AddExact | frameworks/wm/src/singleton_container.cpp:67-78 | a registration keeps the counts exact unless its id is taken already |
| Singletons.RegisteringFound | frameworks/wm/src/singleton_container.cpp:67-78 | a new name gets the next id, its value and a count of zero; a known one changes nothing |
| Singletons.SettingFound | frameworks/wm/src/singleton_container.cpp:80-98 | the value given is found under the name and every name of the same id, and no other value changes |
| Singletons.DependingExact | frameworks/wm/src/singleton_container.cpp:100-109 | a dependency adds its edge and no other, counts it exactly when it is new, and changes no value |
| Singletons.EarlyNameIsAlias | frameworks/wm/src/singleton_container.cpp:67-109 | a name used in a dependency before it is registered becomes an alias of the first singleton |
| Singletons.EraseKeeps | frameworks/wm/src/singleton_container.cpp:44-62 | removing a singleton nobody depends on decrements live counts only, never an erased one, and leaves all counts exact |
| Singletons.PassRemovesFree | frameworks/wm/src/singleton_container.cpp:42-63 | a pass removes every singleton whose count is zero when the iterator has yet to reach it |
| Singletons.EffectiveExact | frameworks/wm/src/singleton_container.cpp:67-109 | after every run of calls the counts are exact for the dependencies, less the edge from 0 to 0 where they have slipped |
| Singletons.UnloopedVisit | frameworks/wm/src/singleton_container.cpp:44-62 | the destructor does not notice the edge from 0 to 0: on every container each visit is the same without it |
| Singletons.TeardownEndsExact | frameworks/wm/src/singleton_container.cpp:39-65 | after every run of calls the destructor ends if and only if those dependencies have no cycle |
| Singletons.TeardownOrder | frameworks/wm/src/singleton_container.cpp:39-65 | after every run of calls and any number of passes nothing was removed twice, nothing before all its dependents, and a finished teardown has removed everything |
| Singletons.UnknownDependentHangs | frameworks/wm/src/singleton_container.cpp:100-109 | a dependency of an unregistered name on the first singleton makes the destructor run for ever |
| Singletons.FreeExists | frameworks/wm/src/singleton_container.cpp:41-48 | a non-empty acyclic graph has a singleton without dependents |
| Singletons.SingletonContainer.AddSingleton | frameworks/wm/src/singleton_container.cpp:67-78 | registers a new name under the next id with count 0, and ignores a known one |
| Singletons.SingletonContainer.SetSingleton | frameworks/wm/src/singleton_container.cpp:80-88 | replaces the value of a known name, registers a new one |
| Singletons.SingletonContainer.DependOn | frameworks/wm/src/singleton_container.cpp:100-109 | adds the edge and counts it once; unknown names are entered with id 0 |
| Singletons.SingletonContainer.GetSingleton | frameworks/wm/src/singleton_container.cpp:90-98 | the value under a name, or the empty one |
| Singletons.SingletonContainer.Remove | frameworks/wm/src/singleton_container.cpp:49-62 | lowers the counts of the dependencies and erases the singleton |
| Singletons.SingletonContainer.Sweep | frameworks/wm/src/singleton_container.cpp:42-63 | the inner loop makes one pass of the specified teardown |
| Singletons.SingletonContainer.Destroy | frameworks/wm/src/singleton_container.cpp:39-65 | the loops end with nothing left and every singleton removed once, dependents first, also where the counts have slipped |
| SplitModes.RunKeeps | frameworks/wmserver/src/split_mode.cpp:161-602 | over every run of requests, creations, destructions and client changes the number of split windows is 0 in NULL, at most 1 in UNENABLE, 1 in SINGLE and SELECT, 2 in CONFIRM and TOUCH_MOVE, 1 or 2 in TOUCH_DOWN and TOUCH_UP, and from SINGLE on the destroy listener is set |
| SplitModes.TableArrows | frameworks/wmserver/src/split_mode.cpp:544-554 | every entry of the table makes a change of mode the diagram allows |
| SplitModes.RequestKeeps | frameworks/wmserver/src/split_mode.cpp:556-602 | one request keeps that invariant |
| SplitModes.RequestExact | frameworks/wmserver/src/split_mode.cpp:556-602 | in every reachable state a request is answered OK exactly when the table has an entry and the windows and service it needs are there; only then does the mode change, and to the one asked for |
| SplitModes.DestroyEndsSplit | frameworks/wmserver/src/split_mode.cpp:214-247 | destroying a split window in any mode from SINGLE on returns to NULL with no window split |
| SplitModes.DestroyedExact | frameworks/wmserver/src/split_mode.cpp:214-247 | the other window that was split gets exactly the area and is told after the line window; every other window stays as it was |
| SplitModes.NulledExact | frameworks/wmserver/src/split_mode.cpp:161-183 | every window that was split gets exactly the area and is told in list order, then the line window; the others stay |
| SplitModes.GivenUpExact | frameworks/wmserver/src/split_mode.cpp:496-515 | at an edge the higher window, the upper one on a tie, gets the area and stays; the other one and the line are told to go; nothing else moves |
| SplitModes.UnenabledExact | frameworks/wmserver/src/split_mode.cpp:185-194 | the first NORMAL window is marked and told |
| SplitModes.SingledWhich | frameworks/wmserver/src/split_mode.cpp:262-301 | which window SINGLE takes, and that the listener is set in any case |
| SplitModes.SingledLayout | frameworks/wmserver/src/split_mode.cpp:249-260 | a margin of a twentieth above, nine tenths high, inside the area; the other windows stay |
| SplitModes.SelectedLayout | frameworks/wmserver/src/split_mode.cpp:303-337 | a touch below the middle puts the split window at the upper edge, another one at the lower, nine twentieths high |
| SplitModes.ReselectedLayout | frameworks/wmserver/src/split_mode.cpp:339-374 | it changes sides exactly when the touch does |
| SplitModes.TellExact | frameworks/wmserver/src/split_mode.cpp:428-438 | every split window is told, in list order, and nothing else happens |
| SplitModes.LiftedExact | frameworks/wmserver/src/split_mode.cpp:462-494 | both windows are told and nothing else happens |
| SplitModes.RequestReply | frameworks/wmserver/src/split_mode.cpp:563-585 | which refusal is answered when, and when the touch position is taken over |
| SplitModes.CreatedFirst | frameworks/wmserver/src/wmserver.c:1620-1640 | a new window is not split and is the one found first |
| SplitModes.DraggedOut | frameworks/wmserver/src/split_mode.cpp:476-516 | giving up the split at an edge leaves the mode TOUCH_UP, not NULL, with one window split |
| SplitModes.StuckExact | frameworks/wmserver/src/split_mode.cpp:544-602 | no request changes the mode in exactly two situations: TOUCH_DOWN with one window split, and NULL without a NORMAL window |
| SplitModes.StuckReached | frameworks/wmserver/src/split_mode.cpp:428-516 | from what DraggedOut leaves, touching the line again is answered OK and leads into the first of them |
| SplitModes.ConfirmedLayout | frameworks/wmserver/src/split_mode.cpp:406-421 | confirming leaves one window at the upper and one at the lower edge, both nine twentieths high, the one split before in the half it was in; both are told and no other window moves |
| SplitModes.MovedLayout | frameworks/wmserver/src/split_mode.cpp:440-460 | with the upper window at the top of the area and the whole line inside, dragging leaves two windows inside the area that do not overlap and end and begin within one unit of the line |
| SplitModes.PairExact | frameworks/wmserver/src/split_mode.cpp:136-159 | two split windows are found exactly when there are two |
| SplitModes.FirstFrom | frameworks/wmserver/src/split_mode.cpp:95-105 | the search gives the first window that meets the condition |
| SplitModes.SplitMode.GetWindow | frameworks/wmserver/src/split_mode.cpp:95-105 | the loop over the window list gives that window |
| SplitModes.SplitMode.To0Null | frameworks/wmserver/src/split_mode.cpp:161-183 | gives every split window the whole area, tells the line window, and clears the listener |
| SplitModes.SplitMode.To1Unenable | frameworks/wmserver/src/split_mode.cpp:185-194 | marks the first NORMAL window |
| SplitModes.SplitMode.To2Single0 | frameworks/wmserver/src/split_mode.cpp:262-290 | sets the listener before it may fail, then splits the first NORMAL window |
| SplitModes.SplitMode.To2Single3 | frameworks/wmserver/src/split_mode.cpp:292-301 | places the split window in the middle again |
| SplitModes.SplitMode.To3Select2 | frameworks/wmserver/src/split_mode.cpp:303-337 | puts the split window opposite the touch |
| SplitModes.SplitMode.To3Select3 | frameworks/wmserver/src/split_mode.cpp:339-374 | moves it only when the touch has changed sides |
| SplitModes.SplitMode.To4Confirm | frameworks/wmserver/src/split_mode.cpp:376-426 | splits a second NORMAL window into the other half |
| SplitModes.SplitMode.To5TouchDown | frameworks/wmserver/src/split_mode.cpp:428-438 | tells every split window |
| SplitModes.SplitMode.To6TouchMove | frameworks/wmserver/src/split_mode.cpp:440-460 | resizes both windows to the line |
| SplitModes.SplitMode.To7TouchUp5 | frameworks/wmserver/src/split_mode.cpp:462-474 | tells both windows |
| SplitModes.SplitMode.To7TouchUp6 | frameworks/wmserver/src/split_mode.cpp:476-516 | keeps the split, or gives the longer window the area and the mode NULL |
| SplitModes.SplitMode.ControllerSetSplitMode | frameworks/wmserver/src/split_mode.cpp:556-602 | range check, table, touch position, transition, and the new mode on success |
| SplitModes.SplitMode.OnSurfaceDestroy | frameworks/wmserver/src/split_mode.cpp:214-247 | ends split mode and restores the other split window |
| SplitModes.SplitMode.SurfaceDestroy | frameworks/wmserver/src/wmserver.c:1487-1504 | calls the listener, if set, and takes the window off the list |
| BufferExtraData.RoundTripExact | frameworks/surface/src/buffer_extra_data_impl.cpp:27-111 | a written object read into a fresh one comes back the same, consuming exactly its tokens, if and only if it has at most 1001 entries |
| BufferExtraData.RunRoundTrip | frameworks/surface/src/buffer_extra_data_impl.cpp:27-111 | the round trip of every object the typed calls and loaded parcels can build, written in any order of its entries |
| BufferExtraData.ReadMerges | frameworks/surface/src/buffer_extra_data_impl.cpp:27-60 | reading into a used object merges the two when their keys fit |
| BufferExtraData.RunKeeps | frameworks/surface/src/buffer_extra_data_impl.cpp:171-181 | whatever is set or loaded, every value has its entry's type and there are at most 1001 entries |
| BufferExtraData.StoredExact | frameworks/surface/src/buffer_extra_data_impl.cpp:171-181 | setting fails exactly for a new key on top of 1001 entries; otherwise the value is found again and no other key is touched |
| BufferExtraData.FoundExact | frameworks/surface/src/buffer_extra_data_impl.cpp:153-169 | NO_ENTRY for an unknown key, TYPE_ERROR for another type, and the value otherwise |
| BufferExtraData.EverySizeReached | frameworks/surface/src/buffer_extra_data_impl.cpp:171-181 | all sizes up to 1001, one more than the documented limit, are reached |
| BufferExtraData.BufferExtraDataImpl.ExtraSet | frameworks/surface/src/buffer_extra_data_impl.cpp:171-181 | stores the value or answers OUT_OF_RANGE |
| BufferExtraData.BufferExtraDataImpl.ExtraGet | frameworks/surface/src/buffer_extra_data_impl.cpp:153-169 | the value, NO_ENTRY or TYPE_ERROR |
| BufferExtraData.BufferExtraDataImpl.ReadFromParcel | frameworks/surface/src/buffer_extra_data_impl.cpp:27-60 | the loop over a parcel of any content: magic error, merging, unknown kinds |
| BufferExtraData.BufferExtraDataImpl.WriteToParcel | frameworks/surface/src/buffer_extra_data_impl.cpp:62-111 | writes magic, size and the entries in some order of the keys |
| VsyncModule.RunDelivers | frameworks/vsync/src/vsync_module_impl.cpp:64-83 | over every interleaving of triggers, the vsync thread and a stop: at most ten timestamps wait, permits and a thread past the semaphore account for each, no pop meets an empty queue, deliveries are a subsequence of pushes, and a dropped timestamp had ten newer ones behind it |
| VsyncModule.StepKeeps | frameworks/vsync/src/vsync_module_impl.cpp:64-145 | each step inside or outside the lock keeps the accounting, also between the semaphore and the push |
| VsyncModule.PopKeeps | frameworks/vsync/src/vsync_module_impl.cpp:138-145 | the queue is not empty where it is popped |
| VsyncModule.StopEndsExact | frameworks/vsync/src/vsync_module_impl.cpp:85-101 | after a stop every schedule is bounded; every one that cannot go on has let the vsync thread end, if and only if the thread does not wait for a permit with no trigger under way; otherwise none does and the join never returns |
| VsyncModule.EverySchedule | frameworks/vsync/src/vsync_module_impl.cpp:85-158 | after a stop no schedule is longer than the rank of the state, and none leads into that deadlock from outside |
| VsyncModule.HungReached | frameworks/vsync/src/vsync_module_impl.cpp:85-158 | the deadlock is reached: a stop while the vsync thread waits for the first trigger |
| VsyncModule.HungIsDeadlock | frameworks/vsync/src/vsync_module_impl.cpp:85-158 | in that situation nothing can happen any more |
| VsyncModule.VsyncModuleImpl.Trigger | frameworks/vsync/src/vsync_module_impl.cpp:64-83 | one trigger: refuses when stopped, makes room or a permit, and pushes |
| VsyncModule.VsyncModuleImpl.WaitNextVsync | frameworks/vsync/src/vsync_module_impl.cpp:138-145 | takes a permit and the oldest timestamp |
| VsyncHelper.GetSupportedVsyncFrequencys | frameworks/vsync/src/vsync_helper_impl.cpp:228-248 | ends on every frequency; below the square of 65535 it lists every divisor once, in descending order exactly below 2^31; nothing for 0 |
| VsyncHelper.TestsExact | frameworks/vsync/src/vsync_helper_impl.cpp:236 | the 32-bit square in the loop test is the true one on every test reached if and only if the frequency is below the square of 65535 |
| VsyncHelper.DescendingExact | frameworks/vsync/src/vsync_helper_impl.cpp:245-246 | the signed comparison sorts divisors in descending order exactly below 2^31 |
| WindowIds.RunIds | frameworks/wmserver/src/wmserver.c:277-342 | through all connections, creations, failed creations and destructions a bit is set exactly when that connection has a live window with that id; ids of live windows are distinct and give back process and bit |
| WindowIds.StepKeeps | frameworks/wmserver/src/wmserver.c:1487-1652 | each of those steps keeps that invariant |
| WindowIds.FailedCreation | frameworks/wmserver/src/wmserver.c:1574-1636 | a creation that fails after its id was chosen leaves no trace |
| WindowIds.SuccessfulCreation | frameworks/wmserver/src/wmserver.c:1605-1652 | a successful one puts one window with a new id at the head of the list |
| WindowIds.FreshId | frameworks/wmserver/src/wmserver.c:314-342 | no id is given exactly when there are 1024 windows or all 32 ids of the connection are live; else the id is of no live window |
| WindowIds.LowestId | frameworks/wmserver/src/wmserver.c:331-337 | all lower ids of the connection are live |
| WindowIds.DestroyWindowExact | frameworks/wmserver/src/wmserver.c:1527-1554 | a destroy request succeeds exactly for a live window of the same connection and removes that one only |
| WindowIds.DestructionKeeps | frameworks/wmserver/src/wmserver.c:1487-1504 | destroying a window clears its bit and no other |
| WindowIds.UnboundKeeps | frameworks/wmserver/src/wmserver.c:2009-2032 | a connection that ends takes its windows with it, and no others |
| WindowIds.ChangedBitExact | frameworks/wmserver/src/wmserver.c:122-135 | setting and clearing a bit touches that bit only |
| WindowIds.IdDecodes | frameworks/wmserver/src/wmserver.c:277-288 | for 0 < pid < 2^26 an id decodes to its process and bit and is never the invalid one |
| WindowIds.WmServer.GetWindowId | frameworks/wmserver/src/wmserver.c:314-342 | the loop takes the lowest clear bit |
| WindowIds.WmServer.ClearWindowId | frameworks/wmserver/src/wmserver.c:304-312 | clears the bit of the id if set |
| WindowIds.WmServer.CreateWindow | frameworks/wmserver/src/wmserver.c:1605-1652 | creation after its arguments have been accepted, with its failures |
| WindowIds.WmServer.SurfaceDestroy | frameworks/wmserver/src/wmserver.c:1487-1504 | clears the id and takes the window off the list |
| WindowIds.WmServer.FindSurface | frameworks/wmserver/src/wmserver.c:290-302 | finds the first window with the id |
| WindowIds.WmServer.ControllerDestroyWindow | frameworks/wmserver/src/wmserver.c:1527-1554 | process check, search, destruction, and the replies |
| WindowIds.WmServer.UnbindWmsController | frameworks/wmserver/src/wmserver.c:2009-2032 | destroys the connection's windows in one walk over the list |

## Left out

- Transport between processes, parcels as bytes, death notices, logging, tracing, EGL, the graphics allocator, fence file
  descriptors, Wayland and layout-library calls, JSON and zip handling: none of them decides a branch modelled here.
- Shared-queue mode of the buffer queue (`isShared_`): it skips the state checks and never pops its lists.
- BufferQueueObject.BufferQueue.RequestBuffer: the range checks of CheckRequestConfig (buffer_queue.cpp:125-173) enter as
  one answer, because their bounds come from headers that are not part of this model.
- BufferQueueObject.BufferQueue.RequestBufferAwake: the timed wait is a step boundary; how long it takes is not modelled.
- BufferQueueObject.BufferQueue.AttachBuffer: one critical section; that DeleteBuffers takes the same mutex again is not
  modelled.
- BufferQueueSystem.RunKeeps: attached buffers are not flushed and released at once, and detach and clean do not hit a
  pending commit; `DoubleCommitBreaks`, `DetachSafeExact` and `CleanSafeExact` show that none of this can be left out.
- BufferCoherence.NoApiFailure: one surface per process and queue, no attach, no lost message; `SecondSurfaceFails` and
  `AttachedFails` show what happens otherwise. One thread produces on the queue: a surface has one request outstanding at
  a time, and flushing and cancelling wait until no request is under way. A surface cleans or is destroyed only between
  its requests and with no flush or release commit pending (`CleanSafeExact`). An entry that a reply carries to its client
  is not detached meanwhile.
- RectSets.NoOverflow: the other rectangle lemmas are about unbounded integers; outside 30-bit edges the 32-bit sums of the
  source may wrap.
- LayoutControl.DefaultLayoutWithin: layouts are real numbers with exact floors; the rounding of doubles is not modelled.
  Parsing of style files is left out.
- LayoutControl.LayoutController.CalcNormalRect: the display size is set in the constructor instead of Init.
- SplitModes.MovedLayout: line heights are the real numbers 0.05, 0.1 and 0.2, without the rounding of doubles.
- SplitModes.RunKeeps: assumes a NORMAL window for UNENABLE and a line window where the split is given up, because the
  source follows those pointers unchecked. Windows are positions in a list of values, not shared objects.
- DumperLog.RunKeeps: one logger thread; two threads that log at once could each spawn a saver. What LogHandle sends on to
  listeners once somebody has asked for the log is left out.
- DumperLog.GraphicDumperServer.GetLog: its three sections run without a step of others between them; `TornViewExact` and
  `SentText` are about them at different moments. A mark at the very end of a line, where the source's substring would
  throw, shows nothing.
- Singletons.SingletonContainer.Destroy: requires what every run of calls gives (`EffectiveExact`) and no cycle, without
  which the loop does not end (`TeardownEndsExact`). The name looked up for the log line is left out.
- BufferExtraData.BufferExtraDataImpl.ReadFromParcel: a read of the wrong token type gives the default and consumes nothing,
  where bytes would be reinterpreted.
- VsyncModule.VsyncModuleImpl.WaitNextVsync: the value is read before the pop; the source keeps a reference to the popped
  element.
- VsyncHelper.GetSupportedVsyncFrequencys: promises nothing about the list from the square of 65535 on, where the squares
  of the loop test wrap (`TestsExact`). The library sort is an insertion sort under the same comparison.
- Callback dispatch of the vsync client, whose heap does not promise that every due callback runs.
- WindowIds.RunIds: process numbers between 1 and 2^26 - 1, beyond which ids do not fit; one connection per process; a
  second one is told apart only by the layout library refusing an id that is in use.
- Option and attribute setters, factories, the dumper's tag tree, drawing tests and build scripts: easy members only.
