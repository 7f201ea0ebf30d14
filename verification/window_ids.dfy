/** Window ids of the window server (frameworks/wmserver/src/wmserver.c):
    each client connection has a bitmap of 32 ids, an id carries the process
    it belongs to, and windows come and go on one list. */
module WindowIds {

  // WINDOW_ID_BIT is 5, WINDOW_ID_LIMIT 32, WINDOW_ID_FLAGS_FILL_ALL 0xFFFFFFFF and WINDOW_ID_INVALID 0.

  const NUM_MAX := 1024

  // ----- bits and ids -----

  function Bit(n: bv32): bv32
    requires n < 32
  {
    1 << n
  }

  function GetBit(flags: bv32, n: bv32): bv32
    requires n < 32
  {
    flags & Bit(n)
  }

  function SetBit(flags: bv32, n: bv32): bv32
    requires n < 32
  {
    flags | Bit(n)
  }

  function ClearBit(flags: bv32, n: bv32): bv32
    requires n < 32
  {
    flags & !Bit(n)
  }

  predicate IsSet(flags: bv32, n: bv32) {
    n < 32 && GetBit(flags, n) != 0
  }

  function IdOf(pid: bv32, i: bv32): bv32 {
    pid * 32 + i
  }

  function PidOf(id: bv32): bv32 {
    id >> 5
  }

  function BitOf(id: bv32): (i: bv32)
    ensures i < 32
  {
    id % 32
  }

  lemma DifferentBits(n: bv32, k: bv32)
    requires n < 32 && k < 32 && n != k
    ensures Bit(n) & Bit(k) == 0
  {}

  ghost predicate Changed(flags: bv32, p: bv32, r: bv32) {
    r == flags | p || r == flags & !p
  }

  lemma OtherMask(flags: bv32, p: bv32, q: bv32, r: bv32)
    requires p & q == 0 && Changed(flags, p, r)
    ensures r & q == flags & q
  {}

  lemma OwnBit(flags: bv32, n: bv32)
    requires n < 32
    ensures GetBit(SetBit(flags, n), n) != 0
    ensures GetBit(ClearBit(flags, n), n) == 0
  {}

  lemma OtherBit(flags: bv32, n: bv32, k: bv32, r: bv32)
    requires n < 32 && k < 32 && n != k && Changed(flags, Bit(n), r)
    ensures r & Bit(k) == flags & Bit(k)
  {
    hide Bit, Changed;
    DifferentBits(n, k);
    OtherMask(flags, Bit(n), Bit(k), r);
  }

  lemma SameMasked(flags: bv32, k: bv32, r: bv32)
    requires k < 32 && r & Bit(k) == flags & Bit(k)
    ensures GetBit(r, k) == GetBit(flags, k)
  {
    hide Bit;
  }

  lemma ChangedBits(flags: bv32, n: bv32)
    requires n < 32
    ensures Changed(flags, Bit(n), SetBit(flags, n)) && Changed(flags, Bit(n), ClearBit(flags, n))
  {
    hide Bit;
  }

  lemma OtherBitSame(flags: bv32, n: bv32, k: bv32, r: bv32)
    requires n < 32 && k < 32 && n != k && Changed(flags, Bit(n), r)
    ensures GetBit(r, k) == GetBit(flags, k)
  {
    hide Bit, GetBit, Changed;
    OtherBit(flags, n, k, r);
    SameMasked(flags, k, r);
  }

  lemma OtherBits(flags: bv32, n: bv32, k: bv32)
    requires n < 32 && k < 32 && n != k
    ensures GetBit(SetBit(flags, n), k) == GetBit(flags, k)
    ensures GetBit(ClearBit(flags, n), k) == GetBit(flags, k)
  {
    hide Bit, GetBit, SetBit, ClearBit, Changed;
    ChangedBits(flags, n);
    OtherBitSame(flags, n, k, SetBit(flags, n));
    OtherBitSame(flags, n, k, ClearBit(flags, n));
  }

  /** Setting and clearing a bit touches that bit only. */
  lemma ChangedBitExact(flags: bv32, n: bv32, k: bv32)
    requires n < 32 && k < 32
    ensures IsSet(SetBit(flags, n), k) <==> k == n || IsSet(flags, k)
    ensures IsSet(ClearBit(flags, n), k) <==> k != n && IsSet(flags, k)
  {
    hide GetBit, SetBit, ClearBit;
    if n == k {
      OwnBit(flags, n);
    } else {
      OtherBits(flags, n, k);
    }
  }

  lemma SetThenClear(flags: bv32, n: bv32)
    requires n < 32 && !IsSet(flags, n)
    ensures ClearBit(SetBit(flags, n), n) == flags
  {}

  /** An id gives its process and its bit back, and is never the invalid one. */
  lemma IdDecodes(pid: bv32, i: bv32)
    requires 0 < pid < 0x400_0000 && i < 32
    ensures PidOf(IdOf(pid, i)) == pid && BitOf(IdOf(pid, i)) == i && IdOf(pid, i) != 0
  {}

  /** The lowest clear bit from i on; 32 when there is none. */
  function FreeBit(flags: bv32, i: bv32): bv32
    requires i <= 32
    decreases 32 - i
  {
    if i == 32 || GetBit(flags, i) == 0 then i else FreeBit(flags, i + 1)
  }

  lemma {:induction false} FreeBitExact(flags: bv32, i: bv32)
    requires i <= 32
    ensures i <= FreeBit(flags, i) <= 32 && !IsSet(flags, FreeBit(flags, i))
    ensures forall k: bv32 :: i <= k < FreeBit(flags, i) ==> IsSet(flags, k)
    decreases 32 - i
  {
    hide Bit;
    if i < 32 && GetBit(flags, i) != 0 {
      FreeBitExact(flags, i + 1);
    }
  }

  lemma FullIsFull(k: bv32)
    requires k < 32
    ensures IsSet(0xFFFF_FFFF, k)
  {}

  // ----- the server -----

  datatype Controller = Controller(pid: bv32, windowIdFlags: bv32)

  datatype Window = Window(surfaceId: bv32, controller: int)

  /** Connections by number, and the window list, newest first. */
  datatype Server = Server(controllers: map<int, Controller>, windows: seq<Window>)

  function WithFlags(s: Server, c: int, flags: bv32): Server
    requires c in s.controllers
  {
    s.(controllers := s.controllers[c := s.controllers[c].(windowIdFlags := flags)])
  }

  function Cleared(s: Server, c: int, id: bv32): Server
    requires c in s.controllers
  {
    var flags := s.controllers[c].windowIdFlags;
    if IsSet(flags, BitOf(id)) then WithFlags(s, c, ClearBit(flags, BitOf(id))) else s
  }

  /** The id to use, or the invalid one. */
  function ChosenId(s: Server, c: int): (Server, bv32)
    requires c in s.controllers
  {
    var flags := s.controllers[c].windowIdFlags;
    if |s.windows| >= NUM_MAX || flags == 0xFFFF_FFFF then (s, 0)
    else
      var i := FreeBit(flags, 0);
      if i < 32 then (WithFlags(s, c, SetBit(flags, i)), IdOf(s.controllers[c].pid, i)) else (s, 0)
  }

  /** Allocation, the layout surface or the layer may fail: `ok` says whether none does. */
  function Created(s: Server, c: int, ok: bool): Server
    requires c in s.controllers
  {
    var (s', id) := ChosenId(s, c);
    if id == 0 then s
    else if ok then s'.(windows := [Window(id, c)] + s'.windows)
    else Cleared(s', c, id)
  }

  function Destroyed(s: Server, k: nat): Server
    requires k < |s.windows| && s.windows[k].controller in s.controllers
  {
    var s' := Cleared(s, s.windows[k].controller, s.windows[k].surfaceId);
    s'.(windows := s.windows[..k] + s.windows[k + 1..])
  }

  /** Position of the first window with the id; the length of the list when there is none. */
  function GetSurface(windows: seq<Window>, id: bv32): (k: nat)
    ensures k <= |windows| && (k < |windows| ==> windows[k].surfaceId == id)
    ensures forall j :: 0 <= j < k ==> windows[j].surfaceId != id
  {
    if windows == [] || windows[0].surfaceId == id then 0 else 1 + GetSurface(windows[1..], id)
  }

  datatype Reply = Ok | PidCheck | InvalidParam

  function DestroyWindow(s: Server, c: int, id: bv32): (Server, Reply)
    requires c in s.controllers && Owned(s)
  {
    if PidOf(id) != s.controllers[c].pid then (s, PidCheck)
    else
      var k := GetSurface(s.windows, id);
      if k == |s.windows| then (s, InvalidParam) else (Destroyed(s, k), Ok)
  }

  predicate Owned(s: Server) {
    forall k :: 0 <= k < |s.windows| ==> s.windows[k].controller in s.controllers
  }

  /** Destroys the windows of a connection from position k on. */
  function DestroyedFrom(s: Server, c: int, k: nat): (r: Server)
    requires k <= |s.windows| && Owned(s)
    ensures Owned(r) && r.controllers.Keys == s.controllers.Keys
    decreases |s.windows| - k
  {
    if k == |s.windows| then s
    else if s.windows[k].controller == c then DestroyedFrom(Destroyed(s, k), c, k)
    else DestroyedFrom(s, c, k + 1)
  }

  function Unbound(s: Server, c: int): Server
    requires Owned(s)
  {
    var s' := DestroyedFrom(s, c, 0);
    s'.(controllers := s'.controllers - {c})
  }

  // ----- the invariant -----

  ghost predicate Fits(w: Window, pid: bv32, i: bv32) {
    i < 32 && w.surfaceId == IdOf(pid, i)
  }

  /** Each window has an id of its own connection. */
  ghost predicate IdsFit(s: Server) {
    forall w :: w in s.windows ==>
      w.controller in s.controllers && exists i :: Fits(w, s.controllers[w.controller].pid, i)
  }

  ghost predicate IdsDistinct(s: Server) {
    forall j, k :: 0 <= j < k < |s.windows| ==> s.windows[j].surfaceId != s.windows[k].surfaceId
  }

  ghost predicate PidsDistinct(s: Server) {
    && (forall c :: c in s.controllers ==> 0 < s.controllers[c].pid < 0x400_0000)
    && (forall c, d :: c in s.controllers && d in s.controllers && s.controllers[c].pid == s.controllers[d].pid ==> c == d)
  }

  ghost predicate Live(s: Server, c: int, i: bv32)
    requires c in s.controllers
  {
    Window(IdOf(s.controllers[c].pid, i), c) in s.windows
  }

  /** A bit is set exactly when the window with that id is live. */
  ghost predicate BitsExact(s: Server) {
    forall c, i: bv32 :: c in s.controllers && i < 32 ==> (IsSet(s.controllers[c].windowIdFlags, i) <==> Live(s, c, i))
  }

  ghost predicate Inv(s: Server) {
    && PidsDistinct(s)
    && IdsFit(s)
    && IdsDistinct(s)
    && BitsExact(s)
    && |s.windows| <= NUM_MAX
  }

  lemma IdInjective(p: bv32, i: bv32, q: bv32, j: bv32)
    requires 0 < p < 0x400_0000 && 0 < q < 0x400_0000 && i < 32 && j < 32
    ensures IdOf(p, i) == IdOf(q, j) <==> p == q && i == j
  {
    IdDecodes(p, i);
    IdDecodes(q, j);
    hide IdOf, PidOf, BitOf;
  }

  // ----- creation -----

  /** The id of a bit that is clear, and of no live window. */
  ghost predicate NewId(s: Server, c: int, i: bv32, id: bv32)
    requires c in s.controllers
  {
    i < 32 && !IsSet(s.controllers[c].windowIdFlags, i) && id == IdOf(s.controllers[c].pid, i) && id != 0
  }

  lemma FreshId(s: Server, c: int)
    requires Inv(s) && c in s.controllers
    ensures var (s', id) := ChosenId(s, c);
      && (id == 0 ==> s' == s)
      && (id != 0 ==> exists i: bv32 ::
            NewId(s, c, i, id) && s' == WithFlags(s, c, SetBit(s.controllers[c].windowIdFlags, i)))
    ensures ChosenId(s, c).1 == 0 <==> |s.windows| == NUM_MAX || forall i: bv32 :: i < 32 ==> Live(s, c, i)
  {
    var flags := s.controllers[c].windowIdFlags;
    var i := FreeBit(flags, 0);
    FreeBitExact(flags, 0);
    hide FreeBit, GetBit, IdOf, SetBit, IsSet, IdsFit, IdsDistinct, PidsDistinct;
    if flags == 0xFFFF_FFFF {
      forall k: bv32 | k < 32 ensures Live(s, c, k) {
        FullIsFull(k);
      }
    }
    if i < 32 {
      FullIsFull(i);
      NonZeroId(s, c, i);
      assert !Live(s, c, i);
      assert NewId(s, c, i, IdOf(s.controllers[c].pid, i));
    }
  }

  /** The id given is that of the lowest bit free. */
  lemma LowestId(s: Server, c: int, i: bv32)
    requires Inv(s) && c in s.controllers && ChosenId(s, c).1 != 0 && i < FreeBit(s.controllers[c].windowIdFlags, 0)
    ensures i < 32 && Live(s, c, i)
    ensures ChosenId(s, c).1 == IdOf(s.controllers[c].pid, FreeBit(s.controllers[c].windowIdFlags, 0))
  {
    FreeBitExact(s.controllers[c].windowIdFlags, 0);
    hide FreeBit, GetBit, IdOf, SetBit, IsSet, IdsFit, IdsDistinct, PidsDistinct;
  }

  lemma NonZeroId(s: Server, c: int, i: bv32)
    requires Inv(s) && c in s.controllers && i < 32
    ensures IdOf(s.controllers[c].pid, i) != 0
  {
    IdDecodes(s.controllers[c].pid, i);
  }

  /** A creation that fails after its id was chosen leaves no trace. */
  lemma FailedCreation(s: Server, c: int)
    requires Inv(s) && c in s.controllers
    ensures Created(s, c, false) == s
  {
    FreshId(s, c);
    var (s', id) := ChosenId(s, c);
    hide ChosenId, Inv, FreeBit;
    if id != 0 {
      var i :| NewId(s, c, i, id) && s' == WithFlags(s, c, SetBit(s.controllers[c].windowIdFlags, i));
      BitComesBack(s, c, i, id);
      BitUndone(s, c, i);
      hide IsSet, SetBit, ClearBit, IdOf, BitOf;
    }
  }

  lemma BitUndone(s: Server, c: int, i: bv32)
    requires c in s.controllers && i < 32 && !IsSet(s.controllers[c].windowIdFlags, i)
    ensures var s' := WithFlags(s, c, SetBit(s.controllers[c].windowIdFlags, i));
      && IsSet(s'.controllers[c].windowIdFlags, i)
      && WithFlags(s', c, ClearBit(s'.controllers[c].windowIdFlags, i)) == s
  {
    SetThenClear(s.controllers[c].windowIdFlags, i);
    ChangedBitExact(s.controllers[c].windowIdFlags, i, i);
    hide IsSet, SetBit, ClearBit;
  }

  lemma BitComesBack(s: Server, c: int, i: bv32, id: bv32)
    requires Inv(s) && c in s.controllers && NewId(s, c, i, id)
    ensures BitOf(id) == i
  {
    IdDecodes(s.controllers[c].pid, i);
  }

  lemma NewIdIsNew(s: Server, c: int, i: bv32, id: bv32, w: Window)
    requires Inv(s) && c in s.controllers && NewId(s, c, i, id) && w in s.windows
    ensures w.surfaceId != id
  {
    var j :| Fits(w, s.controllers[w.controller].pid, j);
    IdInjective(s.controllers[c].pid, i, s.controllers[w.controller].pid, j);
    hide IdOf, IsSet;
    assert !Live(s, c, i) && w == Window(w.surfaceId, w.controller);
  }

  lemma SuccessfulCreation(s: Server, c: int)
    requires Inv(s) && c in s.controllers
    ensures Inv(Created(s, c, true))
    ensures var (_, id) := ChosenId(s, c);
      id != 0 ==> Created(s, c, true).windows == [Window(id, c)] + s.windows
  {
    FreshId(s, c);
    var (s', id) := ChosenId(s, c);
    if id != 0 {
      var i :| NewId(s, c, i, id) && s' == WithFlags(s, c, SetBit(s.controllers[c].windowIdFlags, i));
      assert |s.windows| < NUM_MAX;
      hide ChosenId;
      AddedKeeps(s, c, i, id);
    }
  }

  lemma AddedKeeps(s: Server, c: int, i: bv32, id: bv32)
    requires Inv(s) && c in s.controllers && NewId(s, c, i, id) && |s.windows| < NUM_MAX
    ensures Inv(WithFlags(s, c, SetBit(s.controllers[c].windowIdFlags, i)).(windows := [Window(id, c)] + s.windows))
  {
    var s1 := WithFlags(s, c, SetBit(s.controllers[c].windowIdFlags, i));
    var s' := s1.(windows := [Window(id, c)] + s.windows);
    assert forall w :: w in s'.windows <==> w == Window(id, c) || w in s.windows;
    hide IdOf, SetBit, IsSet;
    forall k | 0 <= k < |s.windows| ensures s.windows[k].surfaceId != id {
      NewIdIsNew(s, c, i, id, s.windows[k]);
    }
    assert IdsDistinct(s');
    AddedFits(s, c, i, s');
    AddedBits(s, c, i, s');
    hide BitsExact, IdsFit, IdsDistinct;
  }

  lemma AddedFits(s: Server, c: int, i: bv32, s': Server)
    requires IdsFit(s) && c in s.controllers && i < 32
    requires s' == WithFlags(s, c, SetBit(s.controllers[c].windowIdFlags, i)).(windows := s'.windows)
    requires forall w :: w in s'.windows <==> w in s.windows || w == Window(IdOf(s.controllers[c].pid, i), c)
    ensures IdsFit(s')
  {
    hide IdOf, SetBit;
    forall w | w in s'.windows
      ensures w.controller in s'.controllers && exists j :: Fits(w, s'.controllers[w.controller].pid, j)
    {
      if w in s.windows {
        var j :| Fits(w, s.controllers[w.controller].pid, j);
        assert Fits(w, s'.controllers[w.controller].pid, j);
      } else {
        assert Fits(w, s'.controllers[c].pid, i);
      }
    }
  }

  lemma AddedBits(s: Server, c: int, i: bv32, s': Server)
    requires PidsDistinct(s) && BitsExact(s) && c in s.controllers && i < 32
    requires s' == WithFlags(s, c, SetBit(s.controllers[c].windowIdFlags, i)).(windows := s'.windows)
    requires forall w :: w in s'.windows <==> w in s.windows || w == Window(IdOf(s.controllers[c].pid, i), c)
    ensures BitsExact(s')
  {
    hide IdOf, IsSet, SetBit;
    forall d, j: bv32 | d in s'.controllers && j < 32
      ensures IsSet(s'.controllers[d].windowIdFlags, j) <==> Live(s', d, j)
    {
      IdInjective(s.controllers[c].pid, i, s.controllers[d].pid, j);
      ChangedBitExact(s.controllers[c].windowIdFlags, i, j);
    }
  }

  // ----- destruction -----

  lemma InvOwned(s: Server)
    requires Inv(s)
    ensures Owned(s)
  {
    forall k | 0 <= k < |s.windows| ensures s.windows[k].controller in s.controllers {
      assert s.windows[k] in s.windows;
    }
  }

  lemma WithoutOne(s: Server, k: nat, w: Window)
    requires IdsDistinct(s) && k < |s.windows|
    ensures w in s.windows[..k] + s.windows[k + 1..] <==> w in s.windows && w != s.windows[k]
  {
    if w in s.windows && w != s.windows[k] {
      var j :| 0 <= j < |s.windows| && s.windows[j] == w;
      if j > k {
        assert s.windows[k + 1..][j - k - 1] == w;
      } else {
        assert s.windows[..k][j] == w;
      }
    }
  }

  lemma DestructionKeeps(s: Server, k: nat)
    requires Inv(s) && k < |s.windows|
    ensures Owned(s) && Inv(Destroyed(s, k))
    ensures forall w :: w in Destroyed(s, k).windows <==> w in s.windows && w != s.windows[k]
  {
    InvOwned(s);
    var w0 := s.windows[k];
    assert w0 in s.windows;
    var c := w0.controller;
    var i :| Fits(w0, s.controllers[c].pid, i);
    IdDecodes(s.controllers[c].pid, i);
    assert BitOf(w0.surfaceId) == i;
    var s' := Destroyed(s, k);
    hide IdOf, IsSet, ClearBit, BitOf;
    assert Live(s, c, i);
    assert s' == WithFlags(s, c, ClearBit(s.controllers[c].windowIdFlags, i)).(windows := s'.windows);
    forall w ensures w in s'.windows <==> w in s.windows && w != w0 {
      WithoutOne(s, k, w);
    }
    RemovedKeeps(s, c, i, s');
  }

  lemma RemovedKeeps(s: Server, c: int, i: bv32, s': Server)
    requires Inv(s) && c in s.controllers && i < 32 && IdsDistinct(s') && |s'.windows| <= |s.windows|
    requires s' == WithFlags(s, c, ClearBit(s.controllers[c].windowIdFlags, i)).(windows := s'.windows)
    requires forall w :: w in s'.windows <==> w in s.windows && w != Window(IdOf(s.controllers[c].pid, i), c)
    ensures Inv(s')
  {
    hide IdOf, IsSet, ClearBit;
    forall w | w in s'.windows
      ensures w.controller in s'.controllers && exists j :: Fits(w, s'.controllers[w.controller].pid, j)
    {
      var j :| Fits(w, s.controllers[w.controller].pid, j);
      assert Fits(w, s'.controllers[w.controller].pid, j);
    }
    RemovedBits(s, c, i, s');
    hide BitsExact, Fits;
  }

  lemma RemovedBits(s: Server, c: int, i: bv32, s': Server)
    requires PidsDistinct(s) && BitsExact(s) && c in s.controllers && i < 32
    requires s' == WithFlags(s, c, ClearBit(s.controllers[c].windowIdFlags, i)).(windows := s'.windows)
    requires forall w :: w in s'.windows <==> w in s.windows && w != Window(IdOf(s.controllers[c].pid, i), c)
    ensures BitsExact(s')
  {
    hide IdOf, IsSet, ClearBit;
    forall d, j: bv32 | d in s'.controllers && j < 32
      ensures IsSet(s'.controllers[d].windowIdFlags, j) <==> Live(s', d, j)
    {
      IdInjective(s.controllers[c].pid, i, s.controllers[d].pid, j);
      ChangedBitExact(s.controllers[c].windowIdFlags, i, j);
    }
  }

  lemma {:induction false} GetSurfaceExact(windows: seq<Window>, id: bv32)
    ensures GetSurface(windows, id) < |windows| <==> exists c :: Window(id, c) in windows
    decreases |windows|
  {
    var k := GetSurface(windows, id);
    if k < |windows| {
      assert windows[k] == Window(id, windows[k].controller);
      assert windows[k] in windows;
    } else {
      assert forall w :: w in windows ==> w.surfaceId != id;
    }
  }

  /** A client can destroy a window of its own and no other: the request succeeds exactly when the id is that of a live
      window of the same connection. */
  lemma DestroyWindowExact(s: Server, c: int, id: bv32)
    requires Inv(s) && c in s.controllers
    ensures Owned(s)
    ensures var (s', reply) := DestroyWindow(s, c, id);
      && (reply.Ok? <==> Window(id, c) in s.windows)
      && (reply.PidCheck? <==> PidOf(id) != s.controllers[c].pid)
      && (!reply.Ok? ==> s' == s)
      && (reply.Ok? ==> Inv(s') && forall w :: w in s'.windows <==> w in s.windows && w != Window(id, c))
  {
    InvOwned(s);
    GetSurfaceExact(s.windows, id);
    forall d | Window(id, d) in s.windows ensures PidOf(id) == s.controllers[d].pid {
      WindowDecodes(s, Window(id, d));
    }
    hide IdOf, PidOf;
    var k := GetSurface(s.windows, id);
    if k < |s.windows| {
      assert s.windows[k] in s.windows;
      assert s.windows[k] == Window(id, s.windows[k].controller);
      DestructionKeeps(s, k);
      hide Destroyed, BitsExact, IdsFit, IdsDistinct, GetSurface;
    }
  }

  /** A live window's id names the process of its connection. */
  lemma WindowDecodes(s: Server, w: Window)
    requires Inv(s) && w in s.windows
    ensures w.controller in s.controllers && PidOf(w.surfaceId) == s.controllers[w.controller].pid
    ensures w.surfaceId != 0 && IsSet(s.controllers[w.controller].windowIdFlags, BitOf(w.surfaceId))
  {
    var pid := s.controllers[w.controller].pid;
    var i :| Fits(w, pid, i);
    IdDecodes(pid, i);
    hide IdOf, IsSet, PidOf, BitOf;
    assert w == Window(IdOf(pid, i), w.controller);
    assert Live(s, w.controller, i);
  }

  lemma {:induction false} DestroyedFromKeeps(s: Server, c: int, k: nat)
    requires Inv(s) && Owned(s) && k <= |s.windows|
    requires forall j :: 0 <= j < k ==> s.windows[j].controller != c
    ensures Inv(DestroyedFrom(s, c, k))
    ensures forall w :: w in DestroyedFrom(s, c, k).windows <==> w in s.windows && w.controller != c
    decreases |s.windows| - k
  {
    hide Inv;
    if k == |s.windows| {
    } else if s.windows[k].controller == c {
      DestructionKeeps(s, k);
      DestroyedFromKeeps(Destroyed(s, k), c, k);
    } else {
      DestroyedFromKeeps(s, c, k + 1);
    }
  }

  /** A connection that ends takes its windows with it, and no others. */
  lemma UnboundKeeps(s: Server, c: int)
    requires Inv(s)
    ensures Owned(s) && Inv(Unbound(s, c))
    ensures forall w :: w in Unbound(s, c).windows <==> w in s.windows && w.controller != c
  {
    InvOwned(s);
    DestroyedFromKeeps(s, c, 0);
    var s1 := DestroyedFrom(s, c, 0);
    hide IdOf, IsSet, DestroyedFrom;
    var s' := s1.(controllers := s1.controllers - {c});
    forall w | w in s'.windows
      ensures w.controller in s'.controllers && exists j :: Fits(w, s'.controllers[w.controller].pid, j)
    {
      var j :| Fits(w, s1.controllers[w.controller].pid, j);
      assert Fits(w, s'.controllers[w.controller].pid, j);
    }
    forall d, j: bv32 | d in s'.controllers && j < 32
      ensures IsSet(s'.controllers[d].windowIdFlags, j) <==> Live(s', d, j)
    {
      assert Live(s1, d, j) == Live(s', d, j);
    }
  }

  // ----- runs -----

  datatype Event =
    | Bind(c: int, pid: bv32)
    | Create(c: int, ok: bool)
    | Request(c: int, id: bv32)
    | SurfaceGone(k: nat)
    | Unbind(c: int)

  /** At most one connection a process, and process numbers whose ids fit 32 bits. */
  predicate Enabled(s: Server, e: Event) {
    match e
    case Bind(c, pid) =>
      c !in s.controllers && 0 < pid < 0x400_0000 && forall d :: d in s.controllers ==> s.controllers[d].pid != pid
    case Create(c, _) => c in s.controllers
    case Request(c, _) => c in s.controllers
    case SurfaceGone(k) => k < |s.windows|
    case Unbind(c) => c in s.controllers
  }

  function Step(s: Server, e: Event): Server
    requires Owned(s) && Enabled(s, e)
  {
    match e
    case Bind(c, pid) => s.(controllers := s.controllers[c := Controller(pid, 0)])
    case Create(c, ok) => Created(s, c, ok)
    case Request(c, id) => DestroyWindow(s, c, id).0
    case SurfaceGone(k) => Destroyed(s, k)
    case Unbind(c) => Unbound(s, c)
  }

  lemma NoBits(i: bv32)
    ensures !IsSet(0, i)
  {}

  lemma BindKeeps(s: Server, c: int, pid: bv32)
    requires Inv(s) && c !in s.controllers && 0 < pid < 0x400_0000
    requires forall d :: d in s.controllers ==> s.controllers[d].pid != pid
    ensures Inv(s.(controllers := s.controllers[c := Controller(pid, 0)]))
  {
    var s' := s.(controllers := s.controllers[c := Controller(pid, 0)]);
    hide IdOf, IsSet;
    forall w | w in s'.windows
      ensures w.controller in s'.controllers && exists j :: Fits(w, s'.controllers[w.controller].pid, j)
    {
      var j :| Fits(w, s.controllers[w.controller].pid, j);
      assert Fits(w, s'.controllers[w.controller].pid, j);
    }
    forall d, j: bv32 | d in s'.controllers && j < 32
      ensures IsSet(s'.controllers[d].windowIdFlags, j) <==> Live(s', d, j)
    {
      NoBits(j);
      if d == c {
        assert Window(IdOf(pid, j), c) !in s.windows;
      } else {
        assert Live(s, d, j) == Live(s', d, j);
      }
    }
  }

  lemma StepKeeps(s: Server, e: Event)
    requires Inv(s) && Enabled(s, e)
    ensures Owned(s) && Inv(Step(s, e))
  {
    InvOwned(s);
    match e
    case Bind(c, pid) => BindKeeps(s, c, pid);
    case Create(c, ok) =>
      SuccessfulCreation(s, c);
      FailedCreation(s, c);
    case Request(c, id) => DestroyWindowExact(s, c, id);
    case SurfaceGone(k) => DestructionKeeps(s, k);
    case Unbind(c) => UnboundKeeps(s, c);
  }

  ghost predicate CanRun(s: Server, events: seq<Event>)
    requires Inv(s)
    decreases |events|
  {
    events == []
    || (Enabled(s, events[0]) && (StepKeeps(s, events[0]); CanRun(Step(s, events[0]), events[1..])))
  }

  ghost function Run(s: Server, events: seq<Event>): Server
    requires Inv(s) && CanRun(s, events)
    decreases |events|
  {
    if events == [] then s
    else
      StepKeeps(s, events[0]);
      Run(Step(s, events[0]), events[1..])
  }

  lemma {:induction false} RunKeeps(s: Server, events: seq<Event>)
    requires Inv(s) && CanRun(s, events)
    ensures Inv(Run(s, events)) && Owned(Run(s, events))
    decreases |events|
  {
    if events == [] {
      InvOwned(s);
    } else {
      StepKeeps(s, events[0]);
      RunKeeps(Step(s, events[0]), events[1..]);
    }
  }

  /** Through all connections, creations, failed creations and destructions: a bit of a connection's bitmap is set
      exactly when it has a live window with that id, and an id names its process, its bit and at most one window. */
  lemma RunIds(events: seq<Event>, c: int, i: bv32)
    requires CanRun(Server(map[], []), events) && c in Run(Server(map[], []), events).controllers && i < 32
    ensures var s := Run(Server(map[], []), events);
      var id := IdOf(s.controllers[c].pid, i);
      && (IsSet(s.controllers[c].windowIdFlags, i) <==> Window(id, c) in s.windows)
      && PidOf(id) == s.controllers[c].pid && BitOf(id) == i && id != 0
      && forall j, k :: 0 <= j < k < |s.windows| ==> s.windows[j].surfaceId != s.windows[k].surfaceId
  {
    RunKeeps(Server(map[], []), events);
    StateIds(Run(Server(map[], []), events), c, i);
    hide IdOf, IsSet, PidOf, BitOf, Inv, Run, CanRun;
  }

  lemma StateIds(s: Server, c: int, i: bv32)
    requires Inv(s) && c in s.controllers && i < 32
    ensures var id := IdOf(s.controllers[c].pid, i);
      && (IsSet(s.controllers[c].windowIdFlags, i) <==> Window(id, c) in s.windows)
      && PidOf(id) == s.controllers[c].pid && BitOf(id) == i && id != 0
    ensures forall j, k :: 0 <= j < k < |s.windows| ==> s.windows[j].surfaceId != s.windows[k].surfaceId
  {
    BitIsLive(s, c, i);
    ControllerIds(s, c, i);
    hide IdOf, IsSet, PidOf, BitOf, PidsDistinct, BitsExact, IdsFit;
  }

  lemma BitIsLive(s: Server, c: int, i: bv32)
    requires BitsExact(s) && c in s.controllers && i < 32
    ensures IsSet(s.controllers[c].windowIdFlags, i) <==> Live(s, c, i)
  {
    hide IdOf, IsSet;
  }

  lemma ControllerIds(s: Server, c: int, i: bv32)
    requires PidsDistinct(s) && c in s.controllers && i < 32
    ensures var id := IdOf(s.controllers[c].pid, i); PidOf(id) == s.controllers[c].pid && BitOf(id) == i && id != 0
  {
    IdDecodes(s.controllers[c].pid, i);
    hide IdOf, PidOf, BitOf;
  }

  // ----- the server object -----

  class WmServer {
    var controllers: map<int, Controller>
    var wlListWindow: seq<Window>

    ghost function State(): Server
      reads this
    {
      Server(controllers, wlListWindow)
    }

    constructor ()
      ensures State() == Server(map[], []) && Inv(State())
    {
      controllers, wlListWindow := map[], [];
    }

    method ClearWindowId(c: int, windowId: bv32)
      requires c in controllers
      modifies this`controllers
      ensures State() == Cleared(old(State()), c, windowId)
    {
      var n := windowId % 32;
      var flags := controllers[c].windowIdFlags;
      if GetBit(flags, n) != 0 {
        controllers := controllers[c := controllers[c].(windowIdFlags := ClearBit(flags, n))];
      }
    }

    method GetWindowId(c: int) returns (windowId: bv32)
      requires c in controllers
      modifies this`controllers
      ensures (State(), windowId) == ChosenId(old(State()), c)
    {
      hide GetBit, SetBit, IdOf;
      if |wlListWindow| >= NUM_MAX {
        return 0;
      }
      var flags := controllers[c].windowIdFlags;
      if flags == 0xFFFF_FFFF {
        return 0;
      }
      windowId := 0;
      var i: bv32 := 0;
      while i < 32
        invariant i <= 32 && FreeBit(flags, 0) == FreeBit(flags, i)
        invariant controllers == old(controllers) && windowId == 0
        decreases 32 - i
      {
        if GetBit(flags, i) == 0 {
          controllers := controllers[c := controllers[c].(windowIdFlags := SetBit(flags, i))];
          windowId := IdOf(controllers[c].pid, i);
          return;
        }
        i := i + 1;
      }
    }

    /** ControllerCreateWindow once its arguments have been accepted. */
    method CreateWindow(c: int, ok: bool) returns (windowId: bv32)
      requires c in controllers && Inv(State())
      modifies this
      ensures State() == Created(old(State()), c, ok)
      ensures windowId == if ok then ChosenId(old(State()), c).1 else 0
    {
      FreshId(State(), c);
      hide Inv, ChosenId, Cleared;
      windowId := GetWindowId(c);
      if windowId != 0 {
        if ok {
          wlListWindow := [Window(windowId, c)] + wlListWindow;
        } else {
          ClearWindowId(c, windowId);
          windowId := 0;
        }
      }
    }

    method SurfaceDestroy(k: nat)
      requires k < |wlListWindow| && wlListWindow[k].controller in controllers
      modifies this
      ensures State() == Destroyed(old(State()), k)
    {
      ClearWindowId(wlListWindow[k].controller, wlListWindow[k].surfaceId);
      wlListWindow := wlListWindow[..k] + wlListWindow[k + 1..];
    }

    method FindSurface(surfaceId: bv32) returns (k: nat)
      ensures k == GetSurface(wlListWindow, surfaceId)
    {
      k := 0;
      while k < |wlListWindow|
        invariant k <= |wlListWindow|
        invariant GetSurface(wlListWindow, surfaceId) == k + GetSurface(wlListWindow[k..], surfaceId)
      {
        if wlListWindow[k].surfaceId == surfaceId {
          return;
        }
        k := k + 1;
      }
    }

    method ControllerDestroyWindow(c: int, windowId: bv32) returns (reply: Reply)
      requires c in controllers && Owned(State())
      modifies this
      ensures (State(), reply) == DestroyWindow(old(State()), c, windowId)
    {
      if windowId >> 5 != controllers[c].pid {
        return PidCheck;
      }
      var windowSurface := FindSurface(windowId);
      if windowSurface == |wlListWindow| {
        return InvalidParam;
      }
      SurfaceDestroy(windowSurface);
      reply := Ok;
    }

    method UnbindWmsController(c: int)
      requires Owned(State())
      modifies this
      ensures State() == Unbound(old(State()), c)
    {
      var k := 0;
      while k < |wlListWindow|
        invariant k <= |wlListWindow| && Owned(State())
        invariant DestroyedFrom(old(State()), c, 0) == DestroyedFrom(State(), c, k)
        decreases |wlListWindow| - k
      {
        if wlListWindow[k].controller == c {
          SurfaceDestroy(k);
        } else {
          k := k + 1;
        }
      }
      controllers := controllers - {c};
    }
  }
}
