/** The double-buffered log and its saver thread (frameworks/dumper/src/graphic_dumper_server.cpp). */
module DumperLog {
  import opened Sequences

  const LOG_BUF_SIZE_MAX: int := 192 * 1024
  const LOG_BLOCK_SIZE_MAX: int := 4 * 1000 * 1024
  const LOG_VEC_SIZE: int := 2
  const MAX_BLOCKS: int := 20
  const NUL: char := '\0'

  /** A saved block: its size and its bytes. */
  datatype Block = Block(size: int, data: string)

  datatype Saver = NoThread | Spawned | Finished

  /** swapping: the logger has filled its buffer and is about to join the saver and change buffers. */
  datatype Server = Server(
    canSave: bool, needSave: bool, index: nat, size: seq<int>, vec: seq<seq<string>>,
    blocks: seq<Block>, blockSize: int, saver: Saver, swapping: bool)

  // ----- packing -----

  /** Lines one after the other, each with its terminator. */
  function Pack(lines: seq<string>): string {
    if lines == [] then [] else lines[0] + [NUL] + Pack(lines[1..])
  }

  function FirstNul(s: string): (n: nat)
    ensures n <= |s|
    ensures n < |s| ==> s[n] == NUL
    ensures forall i :: 0 <= i < n ==> s[i] != NUL
  {
    if s == [] || s[0] == NUL then 0 else FirstNul(s[1..]) + 1
  }

  function Tail(data: string, k: nat): string { if k <= |data| then data[k..] else [] }

  /** The C strings read off a block until its size is used up. */
  function Unpack(data: string): seq<string>
    decreases |data|
  {
    if data == [] then []
    else
      var n := FirstNul(data);
      [data[..n]] + Unpack(Tail(data, n + 1))
  }

  predicate NulFree(line: string) { NUL !in line }

  predicate AllNulFree(lines: seq<string>) { forall l :: l in lines ==> NulFree(l) }

  function CountNul(s: string): nat {
    if s == [] then 0 else (if s[0] == NUL then 1 else 0) + CountNul(s[1..])
  }

  lemma {:induction false} FirstNulAppend(s: string, t: string)
    requires NulFree(s)
    ensures FirstNul(s + [NUL] + t) == |s|
  {
    var whole := s + [NUL] + t;
    if |s| > 0 {
      assert s[0] in s;
      assert forall x :: x in s[1..] ==> x in s;
      FirstNulAppend(s[1..], t);
      assert whole[1..] == s[1..] + [NUL] + t;
    }
  }

  /** Reading a block back gives the lines saved, when no line contains a terminator. */
  lemma {:induction false} UnpackPack(lines: seq<string>)
    requires AllNulFree(lines)
    ensures Unpack(Pack(lines)) == lines
  {
    if lines != [] {
      assert lines[0] in lines;
      FirstNulAppend(lines[0], Pack(lines[1..]));
      var data := Pack(lines);
      assert data[..|lines[0]|] == lines[0];
      assert data[|lines[0]| + 1..] == Pack(lines[1..]);
      UnpackPack(lines[1..]);
    }
  }

  lemma {:induction false} CountNulAppend(s: string, t: string)
    ensures CountNul(s + t) == CountNul(s) + CountNul(t)
  {
    if s == [] {
      assert s + t == t;
    } else {
      CountNulAppend(s[1..], t);
      assert (s + t)[1..] == s[1..] + t;
    }
  }

  lemma {:induction false} CountNulFree(s: string)
    ensures CountNul(s) == 0 <==> NulFree(s)
  {
    if s != [] {
      CountNulFree(s[1..]);
      assert forall x :: x in s <==> x == s[0] || x in s[1..];
    }
  }

  lemma {:induction false} PackCount(lines: seq<string>)
    ensures CountNul(Pack(lines)) >= |lines|
    ensures CountNul(Pack(lines)) == |lines| <==> AllNulFree(lines)
  {
    if lines != [] {
      PackCount(lines[1..]);
      CountNulAppend(lines[0] + [NUL], Pack(lines[1..]));
      CountNulAppend(lines[0], [NUL]);
      assert CountNul([NUL]) == 1 by { assert [NUL][1..] == []; }
      CountNulFree(lines[0]);
      assert forall l :: l in lines <==> l == lines[0] || l in lines[1..];
    }
  }

  lemma CountFirst(data: string, n: nat)
    requires n < |data| && data[n] == NUL && NulFree(data[..n])
    ensures CountNul(data) == 1 + CountNul(data[n + 1..])
  {
    CountNulFree(data[..n]);
    CountNulAppend(data[..n], data[n..]);
    assert data == data[..n] + data[n..];
    assert data[n..][1..] == data[n + 1..];
  }

  lemma EndsWithNul(data: string)
    requires data != [] && data[|data| - 1] == NUL
    ensures FirstNul(data) < |data|
  {}

  /** A block that ends with a terminator unpacks to as many strings as it has terminators. */
  lemma {:induction false} UnpackCount(data: string)
    requires data == [] || data[|data| - 1] == NUL
    ensures |Unpack(data)| == CountNul(data)
    decreases |data|
  {
    if data != [] {
      EndsWithNul(data);
      var n := FirstNul(data);
      hide FirstNul;
      CountFirst(data, n);
      UnpackCount(data[n + 1..]);
    }
  }

  lemma {:induction false} PackEnds(lines: seq<string>)
    ensures Pack(lines) == [] || Pack(lines)[|Pack(lines)| - 1] == NUL
  {
    if lines != [] {
      PackEnds(lines[1..]);
    }
  }

  /** The block format keeps the lines apart exactly when none of them contains a terminator. */
  lemma UnpackExact(lines: seq<string>)
    ensures Unpack(Pack(lines)) == lines <==> AllNulFree(lines)
  {
    if AllNulFree(lines) {
      UnpackPack(lines);
    } else {
      PackEnds(lines);
      UnpackCount(Pack(lines));
      PackCount(lines);
    }
  }

  lemma {:induction false} PackAppend(a: seq<string>, b: seq<string>)
    ensures Pack(a + b) == Pack(a) + Pack(b)
  {
    if a == [] {
      assert a + b == b;
    } else {
      PackAppend(a[1..], b);
      assert (a + b)[1..] == a[1..] + b;
    }
  }

  lemma PackOne(line: string)
    ensures Pack([line]) == line + [NUL]
  {
    assert [line][1..] == [];
  }

  // ----- the steps -----

  function InitialServer(): Server { Server(false, false, 0, [0, 0], [[], []], [], 0, NoThread, false) }

  predicate Shape(s: Server) { s.index < LOG_VEC_SIZE && |s.size| == LOG_VEC_SIZE && |s.vec| == LOG_VEC_SIZE }

  function Other(s: Server): nat { (s.index + 1) % LOG_VEC_SIZE }

  /** LogHandle up to the point where the buffer is found full or not. */
  function Append(s: Server, line: string): Server
    requires Shape(s)
  {
    var size := s.size[s.index] + |line| + 1;
    var s1 := s.(size := s.size[s.index := size], vec := s.vec[s.index := s.vec[s.index] + [line]],
                 swapping := size >= LOG_BUF_SIZE_MAX);
    if s.canSave && size > LOG_BUF_SIZE_MAX / LOG_VEC_SIZE
    then s1.(saver := Spawned, needSave := true, canSave := false)
    else s1
  }

  /** The saver drops the first block when the total would exceed the limit: there must be one. */
  predicate EvictionDefined(s: Server)
    requires Shape(s)
  {
    s.blockSize + s.size[Other(s)] > LOG_BLOCK_SIZE_MAX ==> s.blocks != []
  }

  predicate Evicts(s: Server)
    requires Shape(s)
  {
    s.blockSize + s.size[Other(s)] > LOG_BLOCK_SIZE_MAX
  }

  function SaveLog(s: Server): Server
    requires Shape(s) && EvictionDefined(s)
  {
    var j := Other(s);
    var blocks := if Evicts(s) then s.blocks[1..] else s.blocks;
    var blockSize := if Evicts(s) then s.blockSize - s.blocks[0].size else s.blockSize;
    s.(blocks := blocks + [Block(s.size[j], Pack(s.vec[j]))], blockSize := blockSize + s.size[j],
       vec := s.vec[j := []], size := s.size[j := 0], saver := Finished)
  }

  /** LogHandle once the saver, if there is one, has been joined. */
  function Swap(s: Server): Server
    requires Shape(s)
  {
    s.(needSave := false, saver := if s.needSave then NoThread else s.saver, index := Other(s), canSave := true,
       swapping := false)
  }

  function UnpackBlocks(blocks: seq<Block>): seq<string> {
    if blocks == [] then [] else Unpack(blocks[0].data) + UnpackBlocks(blocks[1..])
  }

  function OtherLines(s: Server): seq<string>
    requires Shape(s)
  {
    if s.canSave || s.needSave then s.vec[Other(s)] else []
  }

  /** What GetLog sends, read in one go. */
  function View(s: Server): seq<string>
    requires Shape(s)
  {
    UnpackBlocks(s.blocks) + OtherLines(s) + s.vec[s.index]
  }

  // ----- runs -----

  datatype Event = Log(line: string) | Save | Change

  /** The server, the lines saved in each block, the lines of evicted blocks, and all lines logged. */
  datatype History = History(s: Server, saved: seq<seq<string>>, evicted: seq<string>, logged: seq<string>)

  function InitialHistory(): History { History(InitialServer(), [], [], []) }

  /** A message small enough that a buffer holding it still fits the block store. */
  const SMALL: int := LOG_BLOCK_SIZE_MAX - LOG_BUF_SIZE_MAX

  /** When an event can happen, whatever the length of the line. */
  predicate Ready(h: History, e: Event) {
    match e
    case Log(line) => !h.s.swapping
    case Save => h.s.saver == Spawned
    case Change => h.s.swapping && (h.s.needSave ==> h.s.saver == Finished)
  }

  predicate UpTo(e: Event, n: int) {
    e.Log? ==> |e.line| <= n
  }

  predicate Enabled(h: History, e: Event) {
    Ready(h, e) && UpTo(e, SMALL)
  }

  function Step(h: History, e: Event): History
    requires Shape(h.s) && (e.Save? ==> EvictionDefined(h.s)) && |h.saved| == |h.s.blocks|
  {
    match e
    case Log(line) => h.(s := Append(h.s, line), logged := h.logged + [line])
    case Save =>
      h.(s := SaveLog(h.s),
         saved := (if Evicts(h.s) then h.saved[1..] else h.saved) + [h.s.vec[Other(h.s)]],
         evicted := if Evicts(h.s) then h.evicted + h.saved[0] else h.evicted)
    case Change => h.(s := Swap(h.s))
  }

  function Flatten(ls: seq<seq<string>>): seq<string> {
    if ls == [] then [] else ls[0] + Flatten(ls[1..])
  }

  function TotalSize(blocks: seq<Block>): int {
    if blocks == [] then 0 else blocks[0].size + TotalSize(blocks[1..])
  }

  ghost predicate SizesRight(s: Server)
    requires Shape(s)
  {
    s.size[0] == |Pack(s.vec[0])| && s.size[1] == |Pack(s.vec[1])|
  }

  /** Which buffer is filling, full or empty in which phase. */
  ghost predicate Phases(s: Server)
    requires Shape(s)
  {
    && (s.needSave <==> s.saver != NoThread) && !(s.canSave && s.needSave)
    && (s.swapping <==> s.size[s.index] >= LOG_BUF_SIZE_MAX)
    && s.size[s.index] <= LOG_BLOCK_SIZE_MAX && s.size[Other(s)] <= LOG_BLOCK_SIZE_MAX
    && (s.canSave ==> s.size[s.index] <= LOG_BUF_SIZE_MAX / LOG_VEC_SIZE)
    && (if s.canSave || s.saver == Spawned then s.size[Other(s)] >= LOG_BUF_SIZE_MAX
        else s.vec[Other(s)] == [] && s.size[Other(s)] == 0)
  }

  ghost predicate Store(h: History) {
    && |h.saved| == |h.s.blocks| <= MAX_BLOCKS
    && h.s.blockSize == TotalSize(h.s.blocks)
    && (forall k :: 0 <= k < |h.saved| ==>
          h.s.blocks[k].data == Pack(h.saved[k]) && h.s.blocks[k].size == |h.s.blocks[k].data| >= LOG_BUF_SIZE_MAX)
  }

  ghost predicate Conserved(h: History)
    requires Shape(h.s)
  {
    h.logged == h.evicted + Flatten(h.saved) + h.s.vec[Other(h.s)] + h.s.vec[h.s.index]
  }

  ghost predicate LogInv(h: History) {
    Shape(h.s) && SizesRight(h.s) && Phases(h.s) && Store(h) && Conserved(h)
  }

  lemma InitialLogInv()
    ensures LogInv(InitialHistory())
  {}

  lemma {:induction false} TotalSizeAppend(a: seq<Block>, b: Block)
    ensures TotalSize(a + [b]) == TotalSize(a) + b.size
  {
    if a == [] {
      assert [b][1..] == [];
      assert a + [b] == [b];
    } else {
      TotalSizeAppend(a[1..], b);
      assert (a + [b])[1..] == a[1..] + [b];
    }
  }

  lemma {:induction false} TotalSizeAtLeast(blocks: seq<Block>)
    requires forall k :: 0 <= k < |blocks| ==> blocks[k].size >= LOG_BUF_SIZE_MAX
    ensures TotalSize(blocks) >= |blocks| * LOG_BUF_SIZE_MAX
  {
    if blocks != [] {
      TotalSizeAtLeast(blocks[1..]);
    }
  }

  lemma {:induction false} FlattenAppend(a: seq<seq<string>>, b: seq<string>)
    ensures Flatten(a + [b]) == Flatten(a) + b
  {
    if a == [] {
      assert [b][1..] == [];
      assert a + [b] == [b];
    } else {
      FlattenAppend(a[1..], b);
      assert (a + [b])[1..] == a[1..] + [b];
    }
  }

  lemma AppendSizes(s: Server, line: string)
    requires Shape(s) && SizesRight(s)
    ensures SizesRight(Append(s, line))
  {
    PackAppend(s.vec[s.index], [line]);
    PackOne(line);
  }

  lemma LogStep(h: History, line: string)
    requires LogInv(h) && Enabled(h, Log(line))
    ensures LogInv(h.(s := Append(h.s, line), logged := h.logged + [line]))
  {
    AppendSizes(h.s, line);
  }

  /** A line goes to the end of the buffer being filled; the saver is spawned where it may be and more than half of
      the buffer's bytes are used, and the buffer is given up where all of them are. */
  lemma AppendExact(s: Server, line: string)
    requires Shape(s) && SizesRight(s)
    ensures var s' := Append(s, line);
      var packed := |Pack(s.vec[s.index] + [line])|;
      && s'.vec == s.vec[s.index := s.vec[s.index] + [line]]
      && (s'.swapping <==> packed >= 192 * 1024)
      && (if s.canSave && packed > 96 * 1024 then s'.saver == Spawned && s'.needSave && !s'.canSave
          else s'.saver == s.saver && s'.needSave == s.needSave && s'.canSave == s.canSave)
      && s'.index == s.index && s'.blocks == s.blocks && s'.blockSize == s.blockSize
  {
    PackAppend(s.vec[s.index], [line]);
    PackOne(line);
    hide Pack;
  }

  /** A save puts the other buffer, packed, behind the stored blocks and empties it; the oldest block is evicted exactly
      when all of them would be larger than the store. */
  lemma SaveExact(h: History)
    requires LogInv(h) && Enabled(h, Save)
    ensures EvictionDefined(h.s)
    ensures var s', j := SaveLog(h.s), Other(h.s);
      var packed := Pack(h.s.vec[j]);
      && s'.blocks == (if TotalSize(h.s.blocks) + |packed| > 4 * 1000 * 1024 then h.s.blocks[1..] else h.s.blocks)
                      + [Block(|packed|, packed)]
      && s'.vec == h.s.vec[j := []] && s'.saver == Finished
      && s'.index == h.s.index && s'.canSave == h.s.canSave && s'.needSave == h.s.needSave
  {
    EvictionAlwaysDefined(h);
    hide Pack, TotalSize, Flatten;
    assert h.s.size[Other(h.s)] == |Pack(h.s.vec[Other(h.s)])|;
  }

  /** With small lines the saver always finds a block to evict when it must. */
  lemma EvictionAlwaysDefined(h: History)
    requires LogInv(h)
    ensures EvictionDefined(h.s)
  {}

  lemma SaveStore(h: History)
    requires LogInv(h) && Enabled(h, Save)
    ensures EvictionDefined(h.s) && Store(Step(h, Save))
  {
    var j := Other(h.s);
    var kept := if Evicts(h.s) then h.s.blocks[1..] else h.s.blocks;
    var b := Block(h.s.size[j], Pack(h.s.vec[j]));
    TotalSizeAppend(kept, b);
    var h' := Step(h, Save);
    assert h'.s.blocks == kept + [b];
    if !Evicts(h.s) {
      TotalSizeAtLeast(h.s.blocks);
    }
  }

  lemma SaveConserved(h: History)
    requires LogInv(h) && Enabled(h, Save)
    ensures EvictionDefined(h.s) && Conserved(Step(h, Save))
  {
    var kept := if Evicts(h.s) then h.saved[1..] else h.saved;
    FlattenAppend(kept, h.s.vec[Other(h.s)]);
  }

  lemma EventKeeps(h: History, e: Event)
    requires LogInv(h) && Enabled(h, e)
    ensures EvictionDefined(h.s) && LogInv(Step(h, e))
  {
    match e
    case Log(line) => LogStep(h, line);
    case Save => SaveStore(h); SaveConserved(h);
    case Change =>
  }

  /** The events can happen one after the other from h. */
  ghost predicate CanRun(h: History, events: seq<Event>)
    requires LogInv(h)
    decreases |events|
  {
    events == []
    || (Enabled(h, events[0]) && (EventKeeps(h, events[0]); CanRun(Step(h, events[0]), events[1..])))
  }

  ghost function Run(h: History, events: seq<Event>): History
    requires LogInv(h) && CanRun(h, events)
    decreases |events|
  {
    if events == [] then h
    else
      EventKeeps(h, events[0]);
      Run(Step(h, events[0]), events[1..])
  }

  /** Conservation, the bound on the store and the phase discipline hold however logger and saver interleave. */
  lemma {:induction false} RunKeeps(h: History, events: seq<Event>)
    requires LogInv(h) && CanRun(h, events)
    ensures LogInv(Run(h, events))
    decreases |events|
  {
    if events != [] {
      EventKeeps(h, events[0]);
      RunKeeps(Step(h, events[0]), events[1..]);
    }
  }

  /** The logger never changes to a buffer that still holds lines. */
  lemma SwapLandsOnEmpty(h: History)
    requires LogInv(h) && Enabled(h, Change)
    ensures h.s.vec[Other(h.s)] == [] && h.s.size[Other(h.s)] == 0
    ensures var s' := Swap(h.s);
      && s'.vec[s'.index] == [] && s'.vec[Other(s')] == h.s.vec[h.s.index]
      && s'.canSave && !s'.needSave && !s'.swapping && s'.blocks == h.s.blocks
  {}

  lemma {:induction false} UnpackSaved(blocks: seq<Block>, saved: seq<seq<string>>)
    requires |blocks| == |saved| && forall k :: 0 <= k < |saved| ==> blocks[k].data == Pack(saved[k])
    requires AllNulFree(Flatten(saved))
    ensures UnpackBlocks(blocks) == Flatten(saved)
  {
    if saved != [] {
      assert forall l :: l in saved[0] ==> l in Flatten(saved);
      assert forall l :: l in Flatten(saved[1..]) ==> l in Flatten(saved);
      UnpackPack(saved[0]);
      forall k | 0 <= k < |saved[1..]| ensures blocks[1..][k].data == Pack(saved[1..][k]) {
        assert blocks[1..][k] == blocks[k + 1] && saved[1..][k] == saved[k + 1];
      }
      UnpackSaved(blocks[1..], saved[1..]);
    }
  }

  /** A reader sees every line that was not evicted, once and in order. */
  lemma ViewIsSuffix(h: History)
    requires LogInv(h) && AllNulFree(h.logged)
    ensures h.logged == h.evicted + View(h.s)
  {
    assert forall l :: l in Flatten(h.saved) ==> l in h.logged;
    UnpackSaved(h.s.blocks, h.saved);
    hide Unpack, Pack, Flatten, UnpackBlocks;
    assert OtherLines(h.s) == h.s.vec[Other(h.s)];
    Regroup(h.evicted, Flatten(h.saved), h.s.vec[Other(h.s)]);
    Regroup(h.evicted, Flatten(h.saved) + h.s.vec[Other(h.s)], h.s.vec[h.s.index]);
  }

  /** GetLog takes its three locks one after the other: blocks first, then the other buffer, then the current one. */
  function TornView(first: Server, second: Server, third: Server): seq<string>
    requires Shape(first) && Shape(second) && Shape(third)
  {
    UnpackBlocks(first.blocks) + OtherLines(second) + third.vec[third.index]
  }

  /** The lines logged that have gone to the store, and those whose buffer is closed. */
  function Stored(h: History): nat {
    |h.evicted| + |Flatten(h.saved)|
  }

  function Closed(h: History): nat
    requires Shape(h.s)
  {
    Stored(h) + |h.s.vec[Other(h.s)]|
  }

  /** Where the parts a reader asks for stand among the lines logged. */
  lemma ViewParts(h: History)
    requires LogInv(h) && AllNulFree(h.logged)
    ensures Shape(h.s) && Stored(h) <= Closed(h) <= |h.logged|
    ensures h.evicted + UnpackBlocks(h.s.blocks) == h.logged[..Stored(h)]
    ensures OtherLines(h.s) == h.logged[Stored(h)..Closed(h)]
    ensures h.s.vec[h.s.index] == h.logged[Closed(h)..]
  {
    assert forall l :: l in Flatten(h.saved) ==> l in h.logged;
    UnpackSaved(h.s.blocks, h.saved);
    hide Unpack, Pack, Flatten, UnpackBlocks;
    assert OtherLines(h.s) == h.s.vec[Other(h.s)];
  }

  lemma SavedFull(h: History)
    requires LogInv(h) && Enabled(h, Save)
    ensures h.s.vec[Other(h.s)] != []
  {
    assert |Pack(h.s.vec[Other(h.s)])| == h.s.size[Other(h.s)];
  }

  lemma ChangedFull(h: History)
    requires LogInv(h) && Enabled(h, Change)
    ensures h.s.vec[h.s.index] != [] && h.s.vec[Other(h.s)] == []
  {
    assert |Pack(h.s.vec[h.s.index])| == h.s.size[h.s.index];
  }

  lemma StoredBySave(h: History)
    requires LogInv(h) && Enabled(h, Save)
    ensures EvictionDefined(h.s)
    ensures Stored(Step(h, Save)) == Closed(h) && Closed(Step(h, Save)) == Closed(h) && Stored(h) < Closed(h)
  {
    SavedFull(h);
    FlattenAppend(if Evicts(h.s) then h.saved[1..] else h.saved, h.s.vec[Other(h.s)]);
  }

  /** Only a save lengthens the store, only a change of buffers what is closed, and lines are only added. */
  lemma EventMoves(h: History, e: Event)
    requires LogInv(h) && Enabled(h, e)
    ensures EvictionDefined(h.s) && LogInv(Step(h, e))
    ensures var h' := Step(h, e);
      && h.logged <= h'.logged
      && (if e.Save? then Stored(h) < Stored(h') else Stored(h) == Stored(h'))
      && (if e.Change? then Closed(h) < Closed(h') else Closed(h) == Closed(h'))
  {
    EventKeeps(h, e);
    match e
    case Log(line) =>
    case Save => StoredBySave(h);
    case Change => ChangedFull(h);
  }

  lemma {:induction false} RunMoves(h: History, events: seq<Event>)
    requires LogInv(h) && CanRun(h, events)
    ensures LogInv(Run(h, events)) && Shape(h.s) && Shape(Run(h, events).s)
    ensures var h' := Run(h, events);
      && h.logged <= h'.logged && Stored(h) <= Stored(h') && Closed(h) <= Closed(h')
      && (Stored(h) == Stored(h') <==> Save !in events)
      && (Closed(h) == Closed(h') <==> Change !in events)
    decreases |events|
  {
    if events != [] {
      EventMoves(h, events[0]);
      hide LogInv, Step, Stored, Closed, Enabled;
      RunMoves(Step(h, events[0]), events[1..]);
      assert events == [events[0]] + events[1..];
    }
  }

  /** A reader that takes the three locks at h1, h2 and h3 sees every line that was not evicted when it began, once and
      in order, if and only if nothing was saved between the first two sections and no buffers were changed between
      the last two. */
  lemma TornViewExact(h1: History, e1: seq<Event>, h2: History, e2: seq<Event>, h3: History)
    requires LogInv(h1) && CanRun(h1, e1) && h2 == Run(h1, e1)
    requires LogInv(h2) && CanRun(h2, e2) && h3 == Run(h2, e2)
    requires AllNulFree(h3.logged)
    ensures LogInv(h3)
    ensures h3.logged == h1.evicted + TornView(h1.s, h2.s, h3.s) <==> Save !in e1 && Change !in e2
  {
    hide LogInv, Stored, Closed, UnpackBlocks, OtherLines, Run, CanRun, AllNulFree;
    RunMoves(h1, e1);
    RunMoves(h2, e2);
    var all := h3.logged;
    NulFreePrefix(h1.logged, all);
    NulFreePrefix(h2.logged, all);
    ViewParts(h1);
    ViewParts(h2);
    ViewParts(h3);
    var s1, s2, c2, c3 := Stored(h1), Stored(h2), Closed(h2), Closed(h3);
    Slices(h1.logged, h2.logged, all, s1, s2, c2);
    Regroup(h1.evicted, UnpackBlocks(h1.s.blocks), OtherLines(h2.s));
    Regroup(h1.evicted, UnpackBlocks(h1.s.blocks) + OtherLines(h2.s), h3.s.vec[h3.s.index]);
    ThreeSlices(all, s1, s2, c2, c3);
  }

  lemma NulFreePrefix(part: seq<string>, all: seq<string>)
    requires part <= all && AllNulFree(all)
    ensures AllNulFree(part)
  {
    assert forall l :: l in part ==> l in all;
  }

  lemma Slices(first: seq<string>, second: seq<string>, all: seq<string>, a: nat, b: nat, c: nat)
    requires first <= all && second <= all && a <= |first| && b <= c <= |second|
    ensures first[..a] == all[..a] && second[b..c] == all[b..c]
  {}

  lemma ThreeSlices(all: seq<string>, a: nat, b: nat, c: nat, d: nat)
    requires a <= b <= c <= d <= |all|
    ensures all == all[..a] + all[b..c] + all[d..] <==> a == b && c == d
  {
    assert |all[..a] + all[b..c] + all[d..]| == |all| - (b - a) - (d - c);
  }

  /** A saver running between the first two sections hides a whole buffer from the reader. */
  lemma TornViewLoses(h: History)
    requires LogInv(h) && Enabled(h, Save) && AllNulFree(h.logged)
    ensures EvictionDefined(h.s)
    ensures var s' := SaveLog(h.s);
      && h.s.vec[Other(h.s)] != []
      && |TornView(h.s, s', s')| == |View(h.s)| - |h.s.vec[Other(h.s)]|
  {
    SavedFull(h);
  }

  // ----- what a reader sends -----

  /** Position of the first bar, blank or bracket. */
  function FirstMark(line: string): (n: nat)
    ensures n <= |line|
  {
    if line == [] || line[0] == '|' || line[0] == ' ' || line[0] == '[' then 0 else 1 + FirstMark(line[1..])
  }

  /** What is sent of a line: all of it behind its tag when everything or its tag is asked for. */
  function Shown(tag: string, line: string): string {
    var n := FirstMark(line);
    if tag == "--all" || tag <= line then (if n == |line| then line else Tail(line, n + 2)) else []
  }

  predicate Unmarked(s: string) {
    '|' !in s && ' ' !in s && '[' !in s
  }

  lemma {:induction false} FirstMarkBehind(tag: string, rest: string)
    requires Unmarked(tag) && (rest == [] || rest[0] == '|' || rest[0] == ' ' || rest[0] == '[')
    ensures FirstMark(tag + rest) == |tag|
  {
    if tag == [] {
      assert tag + rest == rest;
    } else {
      assert tag[0] in tag && (forall c :: c in tag[1..] ==> c in tag);
      assert (tag + rest)[0] == tag[0] && (tag + rest)[1..] == tag[1..] + rest;
      FirstMarkBehind(tag[1..], rest);
    }
  }

  /** Of a line as LogHandle makes it, tag and bar are cut off, when everything is asked for or the line begins with what
      is asked for; otherwise nothing is shown of it. */
  lemma ShownOfLine(asked: string, tag: string, info: string)
    requires Unmarked(tag)
    ensures var line := tag + " | " + info;
      Shown(asked, line) == if asked == "--all" || asked <= line then " " + info else []
  {
    var line := tag + " | " + info;
    assert line == tag + (" | " + info);
    FirstMarkBehind(tag, " | " + info);
    assert line[|tag| + 2..] == " " + info;
  }

  /** A line without any mark is shown whole or not at all. */
  lemma ShownOfUnmarked(asked: string, line: string)
    requires Unmarked(line)
    ensures Shown(asked, line) == if asked == "--all" || asked <= line then line else []
  {
    FirstMarkBehind(line, []);
    assert line + [] == line;
  }

  function Text(tag: string, lines: seq<string>): string {
    if lines == [] then [] else Shown(tag, lines[0]) + Text(tag, lines[1..])
  }

  lemma {:induction false} TextParts(tag: string, a: seq<string>, b: seq<string>)
    ensures Text(tag, a + b) == Text(tag, a) + Text(tag, b)
  {
    if a == [] {
      assert a + b == b;
    } else {
      hide Shown;
      assert (a + b)[0] == a[0] && (a + b)[1..] == a[1..] + b;
      TextParts(tag, a[1..], b);
      Regroup(Shown(tag, a[0]), Text(tag, a[1..]), Text(tag, b));
    }
  }

  function Messages(tag: string, blocks: seq<Block>): seq<string> {
    if blocks == [] then [] else Messages(tag, blocks[..|blocks| - 1]) + [Text(tag, Unpack(blocks[|blocks| - 1].data))]
  }

  function Joined(texts: seq<string>): string {
    if texts == [] then [] else Joined(texts[..|texts| - 1]) + texts[|texts| - 1]
  }

  // ----- the bound on messages -----

  /** The events can happen from h with lines of at most n characters. The saver runs only where it has a block to evict
      or need not evict. */
  ghost predicate CanRunUpTo(h: History, n: int, events: seq<Event>)
    requires Shape(h.s) && |h.saved| == |h.s.blocks|
    decreases |events|
  {
    events == []
    || (Ready(h, events[0]) && UpTo(events[0], n) && (events[0].Save? ==> EvictionDefined(h.s))
        && CanRunUpTo(Step(h, events[0]), n, events[1..]))
  }

  ghost function RunUpTo(h: History, n: int, events: seq<Event>): (r: History)
    requires Shape(h.s) && |h.saved| == |h.s.blocks| && CanRunUpTo(h, n, events)
    ensures Shape(r.s)
    decreases |events|
  {
    if events == [] then h else RunUpTo(Step(h, events[0]), n, events[1..])
  }

  lemma {:induction false} SmallRunsKeep(h: History, n: int, events: seq<Event>)
    requires LogInv(h) && n <= SMALL && CanRunUpTo(h, n, events)
    ensures LogInv(RunUpTo(h, n, events))
    decreases |events|
  {
    if events != [] {
      EventKeeps(h, events[0]);
      SmallRunsKeep(Step(h, events[0]), n, events[1..]);
    }
  }

  /** Two lines that leave the saver with a buffer too large for the store and no block to evict; with a third it is
      spawned. */
  function Oversized(): seq<Event> {
    var line := seq(SMALL + 1, _ => 'x');
    [Log(line[..LOG_BUF_SIZE_MAX - 2]), Log(line), Change, Log(line)]
  }

  lemma {:induction false} OversizedRuns(n: int)
    requires n > SMALL
    ensures CanRunUpTo(InitialHistory(), n, Oversized())
    ensures var s := RunUpTo(InitialHistory(), n, Oversized()).s; s.saver == Spawned && !EvictionDefined(s)
  {
    var events := Oversized();
    var h0 := InitialHistory();
    var h1 := Step(h0, events[0]);
    var h2 := Step(h1, events[1]);
    var h3 := Step(h2, events[2]);
    var h4 := Step(h3, events[3]);
    assert h1.s.size == [LOG_BUF_SIZE_MAX - 1, 0];
    assert h2.s.size == [LOG_BLOCK_SIZE_MAX + 1, 0];
    assert h4.s.saver == Spawned && !EvictionDefined(h4.s);
    assert events[4..] == [];
    assert CanRunUpTo(h4, n, events[4..]) && RunUpTo(h4, n, events[4..]) == h4;
    assert events[3..][1..] == events[4..];
    assert CanRunUpTo(h3, n, events[3..]) && RunUpTo(h3, n, events[3..]) == h4;
    assert events[2..][1..] == events[3..];
    assert CanRunUpTo(h2, n, events[2..]) && RunUpTo(h2, n, events[2..]) == h4;
    assert events[1..][1..] == events[2..];
    assert CanRunUpTo(h1, n, events[1..]) && RunUpTo(h1, n, events[1..]) == h4;
  }

  /** On all runs with lines of at most n characters a saver that must evict has a block to evict, if and only if n is
      at most the size of the store less that of a buffer. */
  lemma EvictionDefinedExact(n: int)
    ensures (forall events :: CanRunUpTo(InitialHistory(), n, events) ==>
               EvictionDefined(RunUpTo(InitialHistory(), n, events).s)) <==> n <= SMALL
    ensures (forall events :: CanRunUpTo(InitialHistory(), n, events) ==>
               var s := RunUpTo(InitialHistory(), n, events).s; s.saver == Spawned ==> EvictionDefined(s)) <==> n <= SMALL
  {
    if n <= SMALL {
      InitialLogInv();
      forall events | CanRunUpTo(InitialHistory(), n, events)
        ensures EvictionDefined(RunUpTo(InitialHistory(), n, events).s)
      {
        SmallRunsKeep(InitialHistory(), n, events);
        EvictionAlwaysDefined(RunUpTo(InitialHistory(), n, events));
      }
    } else {
      OversizedRuns(n);
    }
  }

  /** At most 20 blocks are kept, and the size on record is the sum of their sizes. */
  lemma StoreBound(h: History)
    requires LogInv(h)
    ensures |h.s.blocks| <= MAX_BLOCKS && h.s.blockSize == TotalSize(h.s.blocks)
    ensures |h.s.blocks| * LOG_BUF_SIZE_MAX <= h.s.blockSize
  {
    TotalSizeAtLeast(h.s.blocks);
  }

  lemma UnpackEmpty()
    ensures Unpack([]) == []
  {}

  lemma UnpackStep(data: string)
    requires data != []
    ensures Unpack(data) == [data[..FirstNul(data)]] + Unpack(Tail(data, FirstNul(data) + 1))
  {
    hide FirstNul;
  }

  lemma UnpackNext(data: string, offset: nat)
    requires offset < |data|
    ensures var n := FirstNul(data[offset..]);
      Unpack(Tail(data, offset)) == [data[offset..][..n]] + Unpack(Tail(data, offset + n + 1))
  {
    hide FirstNul, Unpack;
    var rest := data[offset..];
    assert Tail(data, offset) == rest;
    UnpackStep(rest);
  }

  // ----- the server object -----

  class GraphicDumperServer {
    var canSave: bool
    var needSave: bool
    var index: nat
    var size: seq<int>
    var vec: seq<seq<string>>
    var logBlockVector: seq<Block>
    var logBlockSize: int
    var thread: Saver
    var swapping: bool

    ghost function State(): Server
      reads this
    {
      Server(canSave, needSave, index, size, vec, logBlockVector, logBlockSize, thread, swapping)
    }

    constructor ()
      ensures State() == InitialServer()
    {
      canSave, needSave, index, size, vec := false, false, 0, [0, 0], [[], []];
      logBlockVector, logBlockSize, thread, swapping := [], 0, NoThread, false;
    }

    /** LogHandle up to joining the saver. */
    method LogHandle(log: string)
      requires Shape(State())
      modifies this
      ensures State() == Append(old(State()), log)
    {
      size := size[index := size[index] + |log| + 1];
      vec := vec[index := vec[index] + [log]];
      if canSave && size[index] > LOG_BUF_SIZE_MAX / LOG_VEC_SIZE {
        thread := Spawned;
        needSave := true;
        canSave := false;
      }
      swapping := size[index] >= LOG_BUF_SIZE_MAX;
    }

    /** The rest of LogHandle, after the join. */
    method ChangeBuffers()
      requires Shape(State()) && swapping && (needSave ==> thread == Finished)
      modifies this
      ensures State() == Swap(old(State()))
    {
      if needSave {
        thread := NoThread;
        needSave := false;
      }
      index := (index + 1) % LOG_VEC_SIZE;
      canSave := true;
      swapping := false;
    }

    static method CopyTo(data: array<char>, offset: nat, str: string)
      requires offset + |str| + 1 <= data.Length
      modifies data
      ensures data[..offset + |str| + 1] == old(data[..offset]) + str + [NUL]
    {
      var i := 0;
      while i < |str|
        invariant i <= |str|
        invariant data[..offset + i] == old(data[..offset]) + str[..i]
      {
        data[offset + i] := str[i];
        i := i + 1;
      }
      data[offset + |str|] := NUL;
    }

    /** The packing loop of SaveLog. */
    static method PackLines(lines: seq<string>, size: int) returns (data: array<char>)
      requires size == |Pack(lines)|
      ensures fresh(data) && data.Length == size + 1 && data[..size] == Pack(lines)
    {
      data := new char[size + 1];
      var offset, i := 0, 0;
      while i < |lines|
        invariant i <= |lines|
        invariant offset == |Pack(lines[..i])| && offset + |Pack(lines[i..])| == size
        invariant data[..offset] == Pack(lines[..i])
      {
        PackAppend(lines[..i], [lines[i]]);
        PackOne(lines[i]);
        assert lines[..i + 1] == lines[..i] + [lines[i]];
        assert lines[i..][1..] == lines[i + 1..];
        CopyTo(data, offset, lines[i]);
        offset := offset + |lines[i]| + 1;
        i := i + 1;
      }
      assert lines[..i] == lines;
    }

    /** The saver thread. */
    method SaveLogThread()
      requires Shape(State()) && SizesRight(State()) && EvictionDefined(State())
      modifies this
      ensures State() == SaveLog(old(State()))
    {
      var j := (index + 1) % LOG_VEC_SIZE;
      var data := PackLines(vec[j], size[j]);
      var block := Block(size[j], data[..size[j]]);
      if logBlockSize + size[j] > LOG_BLOCK_SIZE_MAX {
        logBlockSize := logBlockSize - logBlockVector[0].size;
        logBlockVector := logBlockVector[1..];
      }
      logBlockVector := logBlockVector + [block];
      logBlockSize := logBlockSize + size[j];
      vec := vec[j := []];
      size := size[j := 0];
      thread := Finished;
    }

    /** The strings GetLog reads off one block. */
    static method ReadBlock(block: Block) returns (lines: seq<string>)
      requires block.size == |block.data|
      ensures lines == Unpack(block.data)
    {
      UnpackEmpty();
      hide Unpack, FirstNul;
      lines := [];
      var offset := 0;
      while offset < block.size
        invariant 0 <= offset
        invariant lines + Unpack(Tail(block.data, offset)) == Unpack(block.data)
      {
        var n := FirstNul(block.data[offset..]);
        UnpackNext(block.data, offset);
        Regroup(lines, [block.data[offset..][..n]], Unpack(Tail(block.data, offset + n + 1)));
        lines := lines + [block.data[offset..][..n]];
        offset := offset + n + 1;
      }
    }

    /** StrLogRomveTag. */
    static method StrLogRomveTag(getAll: bool, tag: string, strIn: string, strOut: string) returns (r: string)
      requires getAll <==> tag == "--all"
      ensures r == strOut + Shown(tag, strIn)
    {
      var pos := FirstMark(strIn);
      if pos == |strIn| {
        pos := 0;
      } else {
        pos := pos + 2;
      }
      r := strOut;
      if getAll || tag <= strIn {
        r := r + Tail(strIn, pos);
      }
    }

    static method TextOf(tag: string, lines: seq<string>) returns (text: string)
      ensures text == Text(tag, lines)
    {
      text := "";
      var i := 0;
      while i < |lines|
        invariant i <= |lines|
        invariant text == Text(tag, lines[..i])
      {
        assert lines[..i + 1] == lines[..i] + [lines[i]];
        TextParts(tag, lines[..i], [lines[i]]);
        text := StrLogRomveTag(tag == "--all", tag, lines[i], text);
        i := i + 1;
      }
      assert lines[..i] == lines;
    }

    /** The first section of GetLog: one message for each block. */
    method SendBlocks(tag: string) returns (sent: seq<string>)
      requires forall k :: 0 <= k < |logBlockVector| ==> logBlockVector[k].size == |logBlockVector[k].data|
      ensures sent == Messages(tag, logBlockVector)
    {
      hide Unpack, Text;
      sent := [];
      var i := 0;
      while i < |logBlockVector|
        invariant i <= |logBlockVector|
        invariant sent == Messages(tag, logBlockVector[..i])
      {
        assert logBlockVector[..i + 1][..i] == logBlockVector[..i];
        var lines := ReadBlock(logBlockVector[i]);
        var text := TextOf(tag, lines);
        sent := sent + [text];
        i := i + 1;
      }
      assert logBlockVector[..i] == logBlockVector;
    }

    /** The second section: the buffer that is not being filled. */
    method SendOther(tag: string) returns (text: string)
      requires Shape(State())
      ensures text == Text(tag, OtherLines(State()))
    {
      text := "";
      if canSave || needSave {
        text := TextOf(tag, vec[(index + 1) % LOG_VEC_SIZE]);
      }
    }

    /** The third section: the buffer being filled. */
    method SendCurrent(tag: string) returns (text: string)
      requires Shape(State())
      ensures text == Text(tag, vec[index])
    {
      text := TextOf(tag, vec[index]);
    }

    /** GetLog without a step of anybody else between its sections. */
    method GetLog(tag: string) returns (sent: seq<string>)
      requires Shape(State())
      requires forall k :: 0 <= k < |logBlockVector| ==> logBlockVector[k].size == |logBlockVector[k].data|
      ensures sent == Messages(tag, logBlockVector) + [Text(tag, OtherLines(State())), Text(tag, vec[index])]
      ensures Joined(sent) == Text(tag, View(State()))
    {
      sent := SendBlocks(tag);
      var other := SendOther(tag);
      var current := SendCurrent(tag);
      SentText(tag, State(), State(), State());
      sent := sent + [other, current];
    }
  }

  lemma MessagesLast(tag: string, blocks: seq<Block>)
    requires blocks != []
    ensures var front, last := blocks[..|blocks| - 1], blocks[|blocks| - 1];
      Joined(Messages(tag, blocks)) == Joined(Messages(tag, front)) + Text(tag, Unpack(last.data))
  {
    hide Text, Unpack;
    var texts := Messages(tag, blocks);
    assert texts[..|texts| - 1] == Messages(tag, blocks[..|blocks| - 1]);
  }

  lemma NoMessages(tag: string)
    ensures Joined(Messages(tag, [])) == Text(tag, UnpackBlocks([]))
  {}

  lemma {:induction false} BlocksText(tag: string, blocks: seq<Block>)
    ensures Joined(Messages(tag, blocks)) == Text(tag, UnpackBlocks(blocks))
    decreases |blocks|
  {
    NoMessages(tag);
    hide Text, Unpack, Messages, Joined, UnpackBlocks;
    if blocks != [] {
      var front, last := blocks[..|blocks| - 1], blocks[|blocks| - 1];
      BlocksText(tag, front);
      UnpackBlocksAppend(front, last);
      assert blocks == front + [last];
      TextParts(tag, UnpackBlocks(front), Unpack(last.data));
      MessagesLast(tag, blocks);
    }
  }

  lemma {:induction false} UnpackBlocksAppend(blocks: seq<Block>, b: Block)
    ensures UnpackBlocks(blocks + [b]) == UnpackBlocks(blocks) + Unpack(b.data)
  {
    hide Unpack;
    if blocks == [] {
      assert [] + [b] == [b] && [b][1..] == [];
    } else {
      assert (blocks + [b])[0] == blocks[0] && (blocks + [b])[1..] == blocks[1..] + [b];
      UnpackBlocksAppend(blocks[1..], b);
      Regroup(Unpack(blocks[0].data), UnpackBlocks(blocks[1..]), Unpack(b.data));
    }
  }

  /** What the three sections send is, put together, the text of what they see. */
  lemma SentText(tag: string, first: Server, second: Server, third: Server)
    requires Shape(first) && Shape(second) && Shape(third)
    ensures Joined(Messages(tag, first.blocks) + [Text(tag, OtherLines(second)), Text(tag, third.vec[third.index])])
      == Text(tag, TornView(first, second, third))
  {
    var m := Messages(tag, first.blocks);
    var a, b := Text(tag, OtherLines(second)), Text(tag, third.vec[third.index]);
    BlocksText(tag, first.blocks);
    TextParts(tag, UnpackBlocks(first.blocks), OtherLines(second));
    TextParts(tag, UnpackBlocks(first.blocks) + OtherLines(second), third.vec[third.index]);
    hide Text, Messages;
    assert (m + [a, b])[..|m| + 1] == m + [a] && (m + [a])[..|m|] == m;
  }
}
