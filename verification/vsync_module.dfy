/** The bounded queue of vsync timestamps (frameworks/vsync/src/vsync_module_impl.cpp). */
module VsyncModule {
  import Sequences

  // A semaphore counts the timestamps, a lock guards the queue, and a full queue overwrites its oldest entry.

  const OVERWRITE_TOP := 10

  /** Who holds the lock, and how far that critical section has come. */
  datatype Lock =
    | Free
    | Entering(stamp: int)
    | Pushing(stamp: int)
    | Popping

  /** Where the vsync thread is: testing the running flag, waiting for the semaphore, past it, or gone. */
  datatype Thread = Looping | AtSemaphore | PastSemaphore | Done

  datatype Removed = Removed(stamp: int, delivered: bool)

  /** `pending` are the triggers past their test of the running flag; `pushed` and `removed` record what went through
      the queue. */
  datatype Module = Module(
    running: bool,
    pending: seq<int>,
    lock: Lock,
    permits: nat,
    promises: seq<int>,
    thread: Thread,
    pushed: seq<int>,
    removed: seq<Removed>)

  function Started(): Module {
    Module(true, [], Free, 0, [], Looping, [], [])
  }

  // ----- the pieces of the critical sections -----

  /** A full queue loses its oldest entry; otherwise there is one more permit. */
  function MakeRoom(s: Module, stamp: int): Module {
    var s' := s.(lock := Pushing(stamp));
    if |s.promises| < OVERWRITE_TOP then s'.(permits := s.permits + 1)
    else s'.(promises := s.promises[1..], removed := s.removed + [Removed(s.promises[0], false)])
  }

  function Push(s: Module, stamp: int): Module {
    s.(lock := Free, promises := s.promises + [stamp], pushed := s.pushed + [stamp])
  }

  function Pop(s: Module): Module
    requires s.promises != []
  {
    s.(lock := Free, promises := s.promises[1..], removed := s.removed + [Removed(s.promises[0], true)],
       thread := Looping)
  }

  // ----- steps -----

  datatype Event =
    | Trigger(stamp: int)
    | TriggerLocks(i: nat)
    | TriggerMakesRoom
    | TriggerPushes
    | ThreadLoops
    | ThreadDecs
    | ThreadLocks
    | ThreadPops
    | Stop

  predicate Enabled(s: Module, e: Event) {
    match e
    case Trigger(_) => s.running
    case TriggerLocks(i) => s.lock.Free? && i < |s.pending|
    case TriggerMakesRoom => s.lock.Entering?
    case TriggerPushes => s.lock.Pushing?
    case ThreadLoops => s.thread.Looping?
    case ThreadDecs => s.thread.AtSemaphore? && s.permits > 0
    case ThreadLocks => s.lock.Free? && s.thread.PastSemaphore?
    case ThreadPops => s.lock.Popping?
    case Stop => s.running
  }

  function Step(s: Module, e: Event): Module
    requires Enabled(s, e) && (e.ThreadPops? ==> s.promises != [])
  {
    match e
    case Trigger(stamp) => s.(pending := s.pending + [stamp])
    case TriggerLocks(i) => s.(lock := Entering(s.pending[i]), pending := s.pending[..i] + s.pending[i + 1..])
    case TriggerMakesRoom => MakeRoom(s, s.lock.stamp)
    case TriggerPushes => Push(s, s.lock.stamp)
    case ThreadLoops => s.(thread := if s.running then AtSemaphore else Done)
    case ThreadDecs => s.(permits := s.permits - 1, thread := PastSemaphore)
    case ThreadLocks => s.(lock := Popping)
    case ThreadPops => Pop(s)
    case Stop => s.(running := false)
  }

  // ----- the invariant -----

  function Stamps(r: seq<Removed>): seq<int> {
    seq(|r|, i requires 0 <= i < |r| => r[i].stamp)
  }

  function Delivered(r: seq<Removed>): seq<int> {
    if r == [] then []
    else if r[|r| - 1].delivered then Delivered(r[..|r| - 1]) + [r[|r| - 1].stamp]
    else Delivered(r[..|r| - 1])
  }

  function PastDec(s: Module): nat {
    if s.thread.PastSemaphore? then 1 else 0
  }

  function Promised(s: Module): nat {
    if s.lock.Pushing? then 1 else 0
  }

  ghost predicate Inv(s: Module) {
    && s.permits + PastDec(s) == |s.promises| + Promised(s) <= OVERWRITE_TOP
    && (s.lock.Popping? ==> s.thread.PastSemaphore?)
    && Stamps(s.removed) + s.promises == s.pushed
    && (forall i :: 0 <= i < |s.removed| && !s.removed[i].delivered ==> i + OVERWRITE_TOP < |s.pushed| + Promised(s))
  }

  lemma StampsAppend(r: seq<Removed>, x: Removed)
    ensures Stamps(r + [x]) == Stamps(r) + [x.stamp]
  {}

  lemma HeadMoves(a: seq<int>, q: seq<int>)
    requires q != []
    ensures a + q == (a + [q[0]]) + q[1..]
  {}

  lemma RoomKeeps(s: Module)
    requires Inv(s) && s.lock.Entering?
    ensures Inv(MakeRoom(s, s.lock.stamp))
  {
    if |s.promises| >= OVERWRITE_TOP {
      StampsAppend(s.removed, Removed(s.promises[0], false));
      HeadMoves(Stamps(s.removed), s.promises);
      hide Stamps;
    }
  }

  lemma PushKeeps(s: Module)
    requires Inv(s) && s.lock.Pushing?
    ensures Inv(Push(s, s.lock.stamp))
  {
    Sequences.Regroup(Stamps(s.removed), s.promises, [s.lock.stamp]);
    hide Stamps;
  }

  /** No pop meets an empty queue. */
  lemma PopKeeps(s: Module)
    requires Inv(s) && s.lock.Popping?
    ensures s.promises != [] && Inv(Pop(s))
  {
    StampsAppend(s.removed, Removed(s.promises[0], true));
    HeadMoves(Stamps(s.removed), s.promises);
    hide Stamps;
  }

  lemma StepKeeps(s: Module, e: Event)
    requires Inv(s) && Enabled(s, e)
    ensures e.ThreadPops? ==> s.promises != []
    ensures Inv(Step(s, e))
  {
    hide Stamps;
    match e
    case TriggerMakesRoom => RoomKeeps(s);
    case TriggerPushes => PushKeeps(s);
    case ThreadPops => PopKeeps(s);
    case _ =>
  }

  // ----- runs -----

  ghost predicate CanRun(s: Module, events: seq<Event>)
    requires Inv(s)
    decreases |events|
  {
    events == []
    || (Enabled(s, events[0]) && (StepKeeps(s, events[0]); CanRun(Step(s, events[0]), events[1..])))
  }

  ghost function Run(s: Module, events: seq<Event>): Module
    requires Inv(s) && CanRun(s, events)
    decreases |events|
  {
    if events == [] then s
    else
      StepKeeps(s, events[0]);
      Run(Step(s, events[0]), events[1..])
  }

  lemma {:induction false} RunKeeps(s: Module, events: seq<Event>)
    requires Inv(s) && CanRun(s, events)
    ensures Inv(Run(s, events))
    decreases |events|
  {
    if events != [] {
      StepKeeps(s, events[0]);
      RunKeeps(Step(s, events[0]), events[1..]);
    }
  }

  /** One sequence is obtained from the other by leaving elements out. */
  ghost predicate Subsequence(a: seq<int>, b: seq<int>)
    decreases |b|
  {
    if b == [] then a == []
    else if a != [] && a[|a| - 1] == b[|b| - 1] then Subsequence(a[..|a| - 1], b[..|b| - 1])
    else Subsequence(a, b[..|b| - 1])
  }

  lemma {:induction false} EmptySubsequence(b: seq<int>)
    ensures Subsequence([], b)
  {
    if b != [] {
      EmptySubsequence(b[..|b| - 1]);
    }
  }

  lemma {:induction false} ShorterSubsequence(a: seq<int>, b: seq<int>)
    requires a != [] && Subsequence(a, b)
    ensures Subsequence(a[..|a| - 1], b)
    decreases |b|, 0
  {
    if b != [] {
      if a[|a| - 1] == b[|b| - 1] {
        SubsequenceOfLonger(a[..|a| - 1], b[..|b| - 1], b[|b| - 1]);
        assert b[..|b| - 1] + [b[|b| - 1]] == b;
      } else {
        ShorterSubsequence(a, b[..|b| - 1]);
        SubsequenceOfLonger(a[..|a| - 1], b[..|b| - 1], b[|b| - 1]);
        assert b[..|b| - 1] + [b[|b| - 1]] == b;
      }
    }
  }

  lemma {:induction false} SubsequenceOfLonger(a: seq<int>, b: seq<int>, x: int)
    requires Subsequence(a, b)
    ensures Subsequence(a, b + [x])
    decreases |b|, 1
  {
    assert (b + [x])[..|b|] == b;
    if a != [] && a[|a| - 1] == x {
      ShorterSubsequence(a, b);
    }
  }

  lemma {:induction false} DeliveredSubsequence(r: seq<Removed>, rest: seq<int>)
    ensures Subsequence(Delivered(r), Stamps(r) + rest)
    decreases |rest|, |r|
  {
    if rest != [] {
      DeliveredSubsequence(r, rest[..|rest| - 1]);
      assert Stamps(r) + rest == (Stamps(r) + rest[..|rest| - 1]) + [rest[|rest| - 1]];
      SubsequenceOfLonger(Delivered(r), Stamps(r) + rest[..|rest| - 1], rest[|rest| - 1]);
    } else if r != [] {
      var front, x := r[..|r| - 1], r[|r| - 1];
      DeliveredSubsequence(front, []);
      assert r == front + [x];
      StampsAppend(front, x);
      assert Stamps(front) + [] == Stamps(front) && Stamps(r) + [] == Stamps(r);
      if x.delivered {
        assert Delivered(r)[..|Delivered(r)| - 1] == Delivered(front);
        assert Stamps(r)[..|Stamps(r)| - 1] == Stamps(front);
      } else {
        SubsequenceOfLonger(Delivered(front), Stamps(front), x.stamp);
      }
    }
  }

  /** Over every interleaving of triggers, the vsync thread and a stop: at most ten timestamps wait; permits and a
      thread past the semaphore account for each of them; what the thread delivered is what was pushed, in order, less
      some of the oldest; and a timestamp was only dropped when ten newer ones stood behind it. */
  lemma RunDelivers(events: seq<Event>)
    requires CanRun(Started(), events)
    ensures var s := Run(Started(), events);
      && |s.promises| <= OVERWRITE_TOP
      && (s.lock.Free? ==> s.permits + PastDec(s) == |s.promises|)
      && (s.lock.Popping? ==> s.promises != [])
      && Stamps(s.removed) + s.promises == s.pushed
      && Subsequence(Delivered(s.removed), s.pushed)
      && (s.lock.Free? ==>
            forall i :: 0 <= i < |s.removed| && !s.removed[i].delivered ==> i + OVERWRITE_TOP < |s.pushed|)
  {
    RunKeeps(Started(), events);
    var s := Run(Started(), events);
    DeliveredSubsequence(s.removed, s.promises);
  }

  // ----- stopping -----

  /** The vsync thread waits for a permit nobody will give. */
  ghost predicate Hung(s: Module) {
    !s.running && s.thread.AtSemaphore? && s.permits == 0 && s.pending == [] && !s.lock.Entering?
  }

  /** Then nothing can happen any more. */
  lemma HungIsDeadlock(s: Module, e: Event)
    requires Inv(s) && Hung(s)
    ensures !Enabled(s, e)
  {
    hide Stamps;
  }

  function Rank(s: Module): nat {
    7 * |s.pending|
    + (match s.lock case Free => 0 case Entering(_) => 6 case Pushing(_) => 1 case Popping => 0)
    + (match s.thread
       case Done => 0
       case Looping => 1
       case AtSemaphore => 6
       case PastSemaphore => if s.lock.Popping? then 3 else 4)
  }

  /** Some step that brings a stopped module nearer to the end of its thread. */
  function Onward(s: Module): Event {
    match s.lock
    case Entering(_) => TriggerMakesRoom
    case Pushing(_) => TriggerPushes
    case Popping => ThreadPops
    case Free =>
      match s.thread
      case AtSemaphore => if s.permits > 0 then ThreadDecs else TriggerLocks(0)
      case PastSemaphore => ThreadLocks
      case _ => ThreadLoops
  }

  lemma OnwardStep(s: Module)
    requires Inv(s) && !s.running && !s.thread.Done? && !Hung(s)
    ensures Enabled(s, Onward(s)) && (Onward(s).ThreadPops? ==> s.promises != [])
    ensures var s' := Step(s, Onward(s)); !s'.running && !Hung(s') && Rank(s') < Rank(s)
  {
    hide Stamps;
  }

  lemma {:induction false} Finishes(s: Module) returns (events: seq<Event>)
    requires Inv(s) && !s.running && !Hung(s)
    ensures CanRun(s, events) && Run(s, events).thread.Done?
    decreases Rank(s)
  {
    events := [];
    if !s.thread.Done? {
      OnwardStep(s);
      StepKeeps(s, Onward(s));
      hide Inv, Hung, Step, Enabled, Rank;
      var rest := Finishes(Step(s, Onward(s)));
      events := [Onward(s)] + rest;
      assert events[1..] == rest;
    }
  }

  /** Every step of a stopped module lowers the rank, and none leads into the deadlock. */
  lemma StoppedStep(s: Module, e: Event)
    requires Inv(s) && !s.running && Enabled(s, e) && (e.ThreadPops? ==> s.promises != [])
    ensures var s' := Step(s, e); !s'.running && Rank(s') < Rank(s) && !Hung(s')
  {
    hide Stamps;
  }

  lemma {:induction false} EverySchedule(s: Module, events: seq<Event>)
    requires Inv(s) && !s.running && CanRun(s, events)
    ensures |events| <= Rank(s) && !Run(s, events).running && Inv(Run(s, events))
    ensures !Hung(s) ==> !Hung(Run(s, events))
    decreases |events|
  {
    if events != [] {
      StepKeeps(s, events[0]);
      StoppedStep(s, events[0]);
      hide Inv, Hung, Step, Enabled, Rank;
      EverySchedule(Step(s, events[0]), events[1..]);
    }
  }

  /** Nothing can happen. */
  ghost predicate Final(s: Module) {
    forall e :: !Enabled(s, e)
  }

  /** After a stop every schedule is at most as long as the rank. Unless the vsync thread waits for a permit with no
      trigger under way, every schedule that cannot go on has let it end; if it does wait, no schedule ever does, and
      the join in Stop never returns. */
  lemma StopEndsExact(s: Module)
    requires Inv(s) && !s.running
    ensures forall events :: CanRun(s, events) ==> |events| <= Rank(s)
    ensures (forall events :: CanRun(s, events) && Final(Run(s, events)) ==> Run(s, events).thread.Done?) <==> !Hung(s)
    ensures (exists events :: CanRun(s, events) && Run(s, events).thread.Done?) <==> !Hung(s)
  {
    forall events | CanRun(s, events) ensures |events| <= Rank(s) {
      EverySchedule(s, events);
    }
    if Hung(s) {
      forall e ensures !Enabled(s, e) {
        HungIsDeadlock(s, e);
      }
      assert CanRun(s, []) && Final(Run(s, []));
      forall events | CanRun(s, events) ensures !Run(s, events).thread.Done? {
        if events != [] {
          HungIsDeadlock(s, events[0]);
        }
      }
    } else {
      var events := Finishes(s);
      hide Inv, Hung, Rank;
      forall events | CanRun(s, events) && Final(Run(s, events)) ensures Run(s, events).thread.Done? {
        EverySchedule(s, events);
        if !Run(s, events).thread.Done? {
          OnwardStep(Run(s, events));
        }
      }
    }
  }

  /** The deadlock is reached: a stop while the vsync thread waits for the first trigger. */
  lemma HungReached()
    ensures CanRun(Started(), [ThreadLoops, Stop]) && Hung(Run(Started(), [ThreadLoops, Stop]))
  {
    var s1 := Step(Started(), ThreadLoops);
    StepKeeps(Started(), ThreadLoops);
    StepKeeps(s1, Stop);
    assert [ThreadLoops, Stop][1..] == [Stop] && [Stop][1..] == [];
    assert CanRun(s1, [Stop]);
    assert Run(s1, [Stop]) == Step(s1, Stop);
  }

  // ----- the module object -----

  class VsyncModuleImpl {
    var vsyncThreadRunning: bool
    var promisesSem: nat
    var promises: seq<int>
    ghost var pushed: seq<int>
    ghost var removed: seq<Removed>

    /** The module when nobody is inside a critical section and the vsync thread is at the given place. */
    ghost function State(thread: Thread): Module
      reads this
    {
      Module(vsyncThreadRunning, [], Free, promisesSem, promises, thread, pushed, removed)
    }

    constructor ()
      ensures State(Looping) == Started() && Inv(State(Looping))
    {
      vsyncThreadRunning, promisesSem, promises, pushed, removed := true, 0, [], [], [];
    }

    method Trigger(occurTimestamp: int) returns (ok: bool)
      modifies this
      ensures ok == old(vsyncThreadRunning)
      ensures ok ==> forall t :: State(t) == Push(MakeRoom(old(State(t)), occurTimestamp), occurTimestamp)
      ensures !ok ==> forall t :: State(t) == old(State(t))
    {
      if !vsyncThreadRunning {
        return false;
      }
      if |promises| < OVERWRITE_TOP {
        promisesSem := promisesSem + 1;
      } else {
        removed := removed + [Removed(promises[0], false)];
        promises := promises[1..];
      }
      promises := promises + [occurTimestamp];
      pushed := pushed + [occurTimestamp];
      ok := true;
    }

    /** Called where the semaphore can be taken at once. */
    method WaitNextVsync() returns (ret: int)
      requires Inv(State(AtSemaphore)) && promisesSem > 0
      modifies this
      ensures old(promises) != [] && ret == old(promises[0])
      ensures State(Looping) == Pop(old(State(AtSemaphore)).(permits := old(promisesSem) - 1))
    {
      promisesSem := promisesSem - 1;
      ret := promises[0];
      removed := removed + [Removed(ret, true)];
      promises := promises[1..];
    }
  }
}
