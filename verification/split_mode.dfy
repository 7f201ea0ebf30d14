/** Split-screen mode (frameworks/wmserver/src/split_mode.cpp): an 8 by 8 table of transitions over the window list,
    and windows that clients destroy at any moment. */
module SplitModes {
  import opened Wrappers

  datatype Kind = Normal | SplitLine | OtherKind

  datatype Window = Window(surfaceId: int, kind: Kind, isSplited: bool, x: int, y: int, width: int, height: int)

  datatype Status = Clear | Vague | Retain | Destroy

  datatype Message = Message(surfaceId: int, status: Status)

  /** The normal area of the screen, which the layout tables give. */
  datatype Area = Area(x: int, y: int, w: int, h: int)

  /** The window list, newest first, the current mode, whether the destroy listener is set, and the two globals the
      transitions use; `sent` collects the split messages sent to clients. */
  datatype Screen = Screen(
    windows: seq<Window>,
    mode: nat,
    listener: bool,
    y: int,
    align: int,
    sent: seq<Message>)

  const NULL := 0
  const UNENABLE := 1
  const SINGLE := 2
  const SELECT := 3
  const CONFIRM := 4
  const TOUCH_DOWN := 5
  const TOUCH_MOVE := 6
  const TOUCH_UP := 7
  const MODE_MAX := 8

  const LINE_HEIGHT := 0.1
  const LINE_HEIGHT_HALF := 0.05
  const EXITING_POSITION := 0.2

  // ----- windows -----

  /** What a search of the window list looks for. */
  datatype Wanted = Splited | SplitedBut(index: nat) | NormalKind | NormalUnsplit | LineKind

  predicate Meets(w: Window, i: nat, wanted: Wanted) {
    match wanted
    case Splited => w.isSplited
    case SplitedBut(index) => w.isSplited && i != index
    case NormalKind => w.kind.Normal?
    case NormalUnsplit => w.kind.Normal? && !w.isSplited
    case LineKind => w.kind.SplitLine?
  }

  /** The first window from position k on that is wanted. */
  function FirstFrom(ws: seq<Window>, wanted: Wanted, k: nat): (r: Option<nat>)
    requires k <= |ws|
    ensures r.Some? ==> k <= r.value < |ws| && Meets(ws[r.value], r.value, wanted)
    ensures r.None? ==> forall i :: k <= i < |ws| ==> !Meets(ws[i], i, wanted)
    ensures r.Some? ==> forall i :: k <= i < r.value ==> !Meets(ws[i], i, wanted)
    decreases |ws| - k
  {
    if k == |ws| then None
    else if Meets(ws[k], k, wanted) then Some(k)
    else FirstFrom(ws, wanted, k + 1)
  }

  function First(ws: seq<Window>, wanted: Wanted): (r: Option<nat>)
    ensures r.Some? ==> r.value < |ws| && Meets(ws[r.value], r.value, wanted)
    ensures r.None? ==> forall i :: 0 <= i < |ws| ==> !Meets(ws[i], i, wanted)
  {
    FirstFrom(ws, wanted, 0)
  }

  function Max0(n: int): int {
    if n < 0 then 0 else n
  }

  function Half(n: int): int {
    if n >= 0 then n / 2 else -((-n) / 2)
  }

  function Placed(w: Window, x: int, y: int): Window {
    w.(x := x, y := y)
  }

  function Sized(w: Window, width: int, height: int): Window {
    w.(width := Max0(width), height := Max0(height))
  }

  function Restored(w: Window, a: Area): Window {
    Sized(Placed(w.(isSplited := false), a.x, a.y), a.w, a.h)
  }

  function Put(s: Screen, i: nat, w: Window): Screen
    requires i < |s.windows|
  {
    s.(windows := s.windows[i := w])
  }

  function Tell(s: Screen, i: nat, status: Status): Screen
    requires i < |s.windows|
  {
    s.(sent := s.sent + [Message(s.windows[i].surfaceId, status)])
  }

  function TellLine(s: Screen): Screen {
    match First(s.windows, LineKind)
    case None => s
    case Some(i) => Tell(s, i, Destroy)
  }

  // ----- the transitions -----

  /** Gives every split window from position k on the whole area back. */
  function RestoreFrom(s: Screen, k: nat, a: Area): (r: Screen)
    requires k <= |s.windows|
    ensures |r.windows| == |s.windows|
    decreases |s.windows| - k
  {
    if k == |s.windows| then s
    else if !s.windows[k].isSplited then RestoreFrom(s, k + 1, a)
    else RestoreFrom(Tell(Put(s, k, Restored(s.windows[k], a)), k, Retain), k + 1, a)
  }

  function Nulled(s: Screen, a: Area): Screen {
    TellLine(RestoreFrom(s, 0, a)).(listener := false)
  }

  function Unenabled(s: Screen): Screen
    requires First(s.windows, NormalKind).Some?
  {
    var i := First(s.windows, NormalKind).value;
    Tell(Put(s, i, s.windows[i].(isSplited := true)), i, Vague)
  }

  function Singled(s: Screen, i: nat, a: Area): Screen
    requires i < |s.windows|
  {
    var w := Placed(s.windows[i], a.x, Truncate(a.y as real + a.h as real * LINE_HEIGHT_HALF));
    var w' := Sized(w, a.w, Truncate(a.h as real * (1.0 - LINE_HEIGHT)));
    Tell(Put(s, i, w'.(isSplited := true)), i, Vague)
  }

  /** The listener is set even when the transition then fails. */
  function SingledFirst(s: Screen, a: Area, animation: bool): (Screen, bool) {
    var s' := s.(listener := true);
    match First(s.windows, NormalKind)
    case None => (s', false)
    case Some(i) => if animation then (Singled(s', i, a), true) else (s', false)
  }

  function SingledAgain(s: Screen, a: Area): (Screen, bool) {
    match First(s.windows, Splited)
    case None => (s, false)
    case Some(i) => (Singled(s, i, a), true)
  }

  function HalfHeight(a: Area): int {
    Truncate(a.h as real * (1.0 - LINE_HEIGHT) / 2.0)
  }

  predicate BelowMiddle(s: Screen, a: Area) {
    s.y > a.y + Half(a.h)
  }

  /** The window takes the top half when the touch selects the bottom one. */
  function Aligned(s: Screen, i: nat, a: Area, align: int): Screen
    requires i < |s.windows|
  {
    var h := HalfHeight(a);
    var y := if align == 0 then a.y else a.y + a.h - h;
    Put(s, i, Sized(Placed(s.windows[i], a.x, y), a.w, h)).(align := align)
  }

  function Selected(s: Screen, a: Area): (Screen, bool) {
    match First(s.windows, Splited)
    case None => (s, false)
    case Some(i) => (Tell(Aligned(s, i, a, if BelowMiddle(s, a) then 0 else 1), i, Vague), true)
  }

  function Reselected(s: Screen, a: Area): (Screen, bool) {
    match First(s.windows, Splited)
    case None => (s, false)
    case Some(i) =>
      if BelowMiddle(s, a) && s.align != 0 then (Aligned(s, i, a, 0), true)
      else if !BelowMiddle(s, a) && s.align != 1 then (Aligned(s, i, a, 1), true)
      else (s, true)
  }

  function Confirmed(s: Screen, a: Area, animation: bool): (Screen, bool) {
    if !animation then (s, false)
    else
      match (First(s.windows, NormalUnsplit), First(s.windows, Splited))
      case (Some(i), Some(j)) =>
        var h := HalfHeight(a);
        var upper := s.windows[j].y <= a.y + Half(a.h);
        var y1 := if upper then a.y + a.h - h else a.y;
        var y2 := if upper then a.y else a.y + a.h - h;
        var s1 := Put(s, i, Sized(Placed(s.windows[i].(isSplited := true), a.x, y1), a.w, h));
        var s2 := Put(s1, j, Sized(Placed(s1.windows[j], a.x, y2), a.w, h));
        (Tell(Tell(s2, i, Clear), j, Clear), true)
      case _ => (s, false)
  }

  /** Tells every split window from position k on. */
  function TellFrom(s: Screen, k: nat, status: Status): (r: Screen)
    requires k <= |s.windows|
    decreases |s.windows| - k
  {
    if k == |s.windows| then s
    else if s.windows[k].isSplited then TellFrom(Tell(s, k, status), k + 1, status)
    else TellFrom(s, k + 1, status)
  }

  /** The first two split windows, the upper one first. */
  function SplitPair(ws: seq<Window>): (r: Option<(nat, nat)>)
    ensures r.Some? ==>
      r.value.0 < |ws| && r.value.1 < |ws| && r.value.0 != r.value.1
      && ws[r.value.0].isSplited && ws[r.value.1].isSplited && ws[r.value.0].y <= ws[r.value.1].y
  {
    match First(ws, Splited)
    case None => None
    case Some(i) =>
      match First(ws, SplitedBut(i))
      case None => None
      case Some(j) => if ws[i].y > ws[j].y then Some((j, i)) else Some((i, j))
  }

  function Moved(s: Screen, a: Area): (Screen, bool) {
    match SplitPair(s.windows)
    case None => (s, false)
    case Some((top, bottom)) =>
      var gap := a.h as real * LINE_HEIGHT_HALF;
      var w1 := Sized(s.windows[top], a.w, Truncate((s.y - a.y) as real - gap));
      var w2 := Placed(s.windows[bottom], a.x, Truncate(s.y as real + gap));
      var w2' := Sized(w2, a.w, Truncate((a.y + a.h - s.y) as real - gap));
      (Tell(Put(Tell(Put(s, top, w1), top, Vague), bottom, w2'), bottom, Vague), true)
  }

  function Lifted(s: Screen): (Screen, bool) {
    match SplitPair(s.windows)
    case None => (s, false)
    case Some((top, bottom)) => (Tell(Tell(s, top, Clear), bottom, Clear), true)
  }

  /** The line is left near an edge, and the split is to be given up. */
  predicate Exits(s: Screen, a: Area) {
    var diff := (s.y - a.y) as real;
    !(EXITING_POSITION * a.h as real <= diff <= a.h as real * (1.0 - EXITING_POSITION))
  }

  function LiftedMoving(s: Screen, a: Area): (Screen, bool)
    requires SplitPair(s.windows).Some? && Exits(s, a) ==> First(s.windows, LineKind).Some?
  {
    match SplitPair(s.windows)
    case None => (s, false)
    case Some((top, bottom)) =>
      if !Exits(s, a) then (Tell(Tell(s, top, Clear), bottom, Clear), true)
      else
        var lower := s.windows[bottom].height > s.windows[top].height;
        var long := if lower then bottom else top;
        var short := if lower then top else bottom;
        var s1 := TellLine(Tell(s, short, Destroy));
        (Tell(Put(s1, long, Restored(s.windows[long], a)), long, Retain).(mode := NULL), true)
  }

  // ----- the table and the request -----

  datatype Handler =
    | Nil | Ignore | ToNull | ToUnenable | ToSingle0 | ToSingle3 | ToSelect2 | ToSelect3
    | ToConfirm | ToTouchDown | ToTouchMove | ToTouchUp5 | ToTouchUp6

  /** Row: the mode asked for. Column: the current mode. */
  const StateMachine: seq<seq<Handler>> := [
    [Ignore, ToNull, ToNull, Nil, Nil, Nil, Nil, ToNull],
    [ToUnenable, Ignore, Nil, Nil, Nil, Nil, Nil, Nil],
    [ToSingle0, Nil, Ignore, ToSingle3, Nil, Nil, Nil, Nil],
    [Nil, Nil, ToSelect2, ToSelect3, Nil, Nil, Nil, Nil],
    [Nil, Nil, ToConfirm, ToConfirm, Nil, Nil, Nil, Nil],
    [Nil, Nil, Nil, Nil, ToTouchDown, Nil, Nil, ToTouchDown],
    [Nil, Nil, Nil, Nil, Nil, ToTouchMove, ToTouchMove, Nil],
    [Nil, Nil, Nil, Nil, Nil, ToTouchUp5, ToTouchUp6, Nil]]

  function HandlerOf(target: nat, current: nat): Handler
    requires target < MODE_MAX && current < MODE_MAX
  {
    StateMachine[target][current]
  }

  /** Where the source follows a window pointer without looking: the window must be there. */
  predicate Guarded(h: Handler, s: Screen, a: Area) {
    match h
    case ToUnenable => First(s.windows, NormalKind).Some?
    case ToTouchUp6 => SplitPair(s.windows).Some? && Exits(s, a) ==> First(s.windows, LineKind).Some?
    case _ => true
  }

  function Perform(h: Handler, s: Screen, a: Area, animation: bool): (Screen, bool)
    requires Guarded(h, s, a)
  {
    match h
    case Nil => (s, false)
    case Ignore => (s, true)
    case ToNull => (Nulled(s, a), true)
    case ToUnenable => (Unenabled(s), true)
    case ToSingle0 => SingledFirst(s, a, animation)
    case ToSingle3 => SingledAgain(s, a)
    case ToSelect2 => Selected(s, a)
    case ToSelect3 => Reselected(s, a)
    case ToConfirm => Confirmed(s, a, animation)
    case ToTouchDown => (TellFrom(s, 0, Vague), true)
    case ToTouchMove => Moved(s, a)
    case ToTouchUp5 => Lifted(s)
    case ToTouchUp6 => LiftedMoving(s, a)
  }

  datatype Reply = Ok | InvalidParam | InvalidOperation | ApiFailed

  /** What one request brings: the mode asked for, where the touch is, the area, and the animation service's answer. */
  datatype Request = Request(target: nat, y: int, area: Area, animation: bool)

  function Touched(s: Screen, r: Request): Screen {
    if r.target == SELECT || r.target == TOUCH_MOVE then s.(y := r.y) else s
  }

  predicate RequestGuarded(s: Screen, r: Request)
    requires s.mode < MODE_MAX
  {
    r.target < MODE_MAX ==> Guarded(HandlerOf(r.target, s.mode), Touched(s, r), r.area)
  }

  function Requested(s: Screen, r: Request): (Screen, Reply)
    requires s.mode < MODE_MAX && RequestGuarded(s, r)
  {
    if r.target >= MODE_MAX then (s, InvalidParam)
    else
      var h := HandlerOf(r.target, s.mode);
      if h.Nil? then (s, InvalidOperation)
      else
        var (s', ok) := Perform(h, Touched(s, r), r.area, r.animation);
        if ok then (s'.(mode := r.target), Ok) else (s', ApiFailed)
  }

  // ----- windows that come and go -----

  function Noticed(s: Screen, i: nat, a: Area): (r: Screen)
    requires i < |s.windows|
    ensures |r.windows| == |s.windows|
  {
    if !s.windows[i].isSplited then s
    else
      var s1 := TellLine(s.(listener := false, mode := NULL));
      match First(s1.windows, SplitedBut(i))
      case None => s1
      case Some(j) => Tell(Put(s1, j, Restored(s1.windows[j], a)), j, Retain)
  }

  function Destroyed(s: Screen, i: nat, a: Area): Screen
    requires i < |s.windows|
  {
    var s1 := if s.listener then Noticed(s, i, a) else s;
    s1.(windows := s1.windows[..i] + s1.windows[i + 1..])
  }

  function WithWindow(s: Screen, w: Window): Screen {
    s.(windows := [w.(isSplited := false)] + s.windows)
  }

  // ----- counting split windows -----

  function Weight(w: Window): nat {
    if w.isSplited then 1 else 0
  }

  function SplitCount(ws: seq<Window>): nat {
    if ws == [] then 0 else Weight(ws[0]) + SplitCount(ws[1..])
  }

  lemma {:induction false} CountParts(a: seq<Window>, b: seq<Window>)
    ensures SplitCount(a + b) == SplitCount(a) + SplitCount(b)
  {
    if a == [] {
      assert a + b == b;
    } else {
      assert (a + b)[0] == a[0] && (a + b)[1..] == a[1..] + b;
      CountParts(a[1..], b);
    }
  }

  lemma CountAt(ws: seq<Window>, i: nat)
    requires i < |ws|
    ensures SplitCount(ws) == SplitCount(ws[..i]) + Weight(ws[i]) + SplitCount(ws[i + 1..])
  {
    assert ws == ws[..i] + ws[i..];
    CountParts(ws[..i], ws[i..]);
    assert ws[i..][1..] == ws[i + 1..];
  }

  lemma CountPut(ws: seq<Window>, i: nat, w: Window)
    requires i < |ws|
    ensures SplitCount(ws[i := w]) + Weight(ws[i]) == SplitCount(ws) + Weight(w)
  {
    CountAt(ws, i);
    CountAt(ws[i := w], i);
    assert ws[i := w][..i] == ws[..i] && ws[i := w][i + 1..] == ws[i + 1..];
  }

  lemma CountDrop(ws: seq<Window>, i: nat)
    requires i < |ws|
    ensures SplitCount(ws[..i] + ws[i + 1..]) + Weight(ws[i]) == SplitCount(ws)
  {
    CountAt(ws, i);
    CountParts(ws[..i], ws[i + 1..]);
  }

  lemma {:induction false} CountZero(ws: seq<Window>)
    ensures SplitCount(ws) == 0 <==> forall i :: 0 <= i < |ws| ==> !ws[i].isSplited
  {
    if ws != [] {
      CountZero(ws[1..]);
      assert forall i :: 0 <= i < |ws[1..]| ==> ws[1..][i] == ws[i + 1];
      assert (forall i :: 0 <= i < |ws| ==> !ws[i].isSplited) <==>
        !ws[0].isSplited && forall i :: 0 <= i < |ws[1..]| ==> !ws[1..][i].isSplited by {
        if !ws[0].isSplited && forall i :: 0 <= i < |ws[1..]| ==> !ws[1..][i].isSplited {
          forall i | 0 <= i < |ws| ensures !ws[i].isSplited {
            assert i > 0 ==> ws[i] == ws[1..][i - 1];
          }
        }
      }
    }
  }

  lemma FirstSplitExact(ws: seq<Window>)
    ensures First(ws, Splited).Some? <==> SplitCount(ws) > 0
  {
    CountZero(ws);
    if First(ws, Splited).None? {
      assert forall i :: 0 <= i < |ws| ==> !Meets(ws[i], i, Splited);
    }
  }

  lemma OtherSplitExact(ws: seq<Window>, i: nat)
    requires i < |ws| && ws[i].isSplited
    ensures First(ws, SplitedBut(i)).Some? <==> SplitCount(ws) > 1
  {
    var off := ws[i := ws[i].(isSplited := false)];
    CountPut(ws, i, ws[i].(isSplited := false));
    CountZero(off);
    var r := First(ws, SplitedBut(i));
    if r.None? {
      forall k | 0 <= k < |off| ensures !off[k].isSplited {
        assert !Meets(ws[k], k, SplitedBut(i));
      }
    } else {
      assert off[r.value].isSplited;
    }
  }

  lemma PairExact(ws: seq<Window>)
    ensures SplitPair(ws).Some? <==> SplitCount(ws) > 1
  {
    FirstSplitExact(ws);
    if First(ws, Splited).Some? {
      OtherSplitExact(ws, First(ws, Splited).value);
    }
  }

  lemma {:induction false} RestoreCount(s: Screen, k: nat, a: Area)
    requires k <= |s.windows|
    ensures SplitCount(RestoreFrom(s, k, a).windows) == SplitCount(s.windows[..k])
    ensures RestoreFrom(s, k, a).mode == s.mode && RestoreFrom(s, k, a).listener == s.listener
    decreases |s.windows| - k
  {
    if k == |s.windows| {
      assert s.windows[..k] == s.windows;
    } else {
      var s' := if s.windows[k].isSplited then Tell(Put(s, k, Restored(s.windows[k], a)), k, Retain) else s;
      RestoreCount(s', k + 1, a);
      assert s'.windows[..k + 1] == s.windows[..k] + [s'.windows[k]];
      CountParts(s.windows[..k], [s'.windows[k]]);
    }
  }

  lemma {:induction false} TellKeeps(s: Screen, k: nat, status: Status)
    requires k <= |s.windows|
    ensures TellFrom(s, k, status) == s.(sent := TellFrom(s, k, status).sent)
    decreases |s.windows| - k
  {
    if k < |s.windows| {
      TellKeeps(if s.windows[k].isSplited then Tell(s, k, status) else s, k + 1, status);
    }
  }

  // ----- the invariant -----

  ghost predicate CountFits(mode: nat, count: nat) {
    match mode
    case 0 => count == 0
    case 1 => count <= 1
    case 2 => count == 1
    case 3 => count == 1
    case 4 => count == 2
    case 5 => 1 <= count <= 2
    case 6 => count == 2
    case 7 => 1 <= count <= 2
    case _ => false
  }

  ghost predicate ModeInv(s: Screen) {
    && s.mode < MODE_MAX
    && CountFits(s.mode, SplitCount(s.windows))
    && (s.mode >= SINGLE ==> s.listener)
  }

  lemma NullKeeps(s: Screen, a: Area)
    ensures SplitCount(Nulled(s, a).windows) == 0
  {
    RestoreCount(s, 0, a);
  }

  lemma UnenableKeeps(s: Screen)
    requires First(s.windows, NormalKind).Some?
    ensures SplitCount(s.windows) == 0 ==> SplitCount(Unenabled(s).windows) == 1
    ensures Unenabled(s).listener == s.listener
  {
    var i := First(s.windows, NormalKind).value;
    CountPut(s.windows, i, s.windows[i].(isSplited := true));
    CountZero(s.windows);
  }

  lemma SingleKeeps(s: Screen, i: nat, a: Area)
    requires i < |s.windows|
    ensures var s' := Singled(s, i, a);
      && SplitCount(s'.windows) + Weight(s.windows[i]) == SplitCount(s.windows) + 1
      && s'.listener == s.listener && s'.mode == s.mode
  {
    CountPut(s.windows, i, Singled(s, i, a).windows[i]);
    hide Truncate;
  }

  lemma Single0Keeps(s: Screen, a: Area, animation: bool)
    requires SplitCount(s.windows) == 0
    ensures var (s', ok) := SingledFirst(s, a, animation);
      SplitCount(s'.windows) == (if ok then 1 else 0) && s'.listener && s'.mode == s.mode
  {
    CountZero(s.windows);
    var s1 := s.(listener := true);
    match First(s.windows, NormalKind)
    case None =>
    case Some(i) => SingleKeeps(s1, i, a);
  }

  lemma Single3Keeps(s: Screen, a: Area)
    ensures var (s', ok) := SingledAgain(s, a);
      && SplitCount(s'.windows) == SplitCount(s.windows) && s'.listener == s.listener && s'.mode == s.mode
      && (ok <==> SplitCount(s.windows) > 0)
  {
    FirstSplitExact(s.windows);
    match First(s.windows, Splited)
    case None =>
    case Some(i) => SingleKeeps(s, i, a);
  }

  lemma AlignedKeeps(s: Screen, i: nat, a: Area, align: int)
    requires i < |s.windows|
    ensures var s' := Aligned(s, i, a, align);
      SplitCount(s'.windows) == SplitCount(s.windows) && s'.listener == s.listener && s'.mode == s.mode
  {
    CountPut(s.windows, i, Aligned(s, i, a, align).windows[i]);
    hide HalfHeight;
  }

  lemma SelectKeeps(s: Screen, a: Area)
    ensures var (s', ok) := Selected(s, a);
      && SplitCount(s'.windows) == SplitCount(s.windows) && s'.listener == s.listener && s'.mode == s.mode
      && (ok <==> SplitCount(s.windows) > 0)
    ensures var (s', ok) := Reselected(s, a);
      && SplitCount(s'.windows) == SplitCount(s.windows) && s'.listener == s.listener && s'.mode == s.mode
      && (ok <==> SplitCount(s.windows) > 0)
  {
    FirstSplitExact(s.windows);
    match First(s.windows, Splited)
    case None =>
    case Some(i) =>
      AlignedKeeps(s, i, a, 0);
      AlignedKeeps(s, i, a, 1);
      hide Aligned;
  }

  lemma ConfirmKeeps(s: Screen, a: Area, animation: bool)
    ensures var (s', ok) := Confirmed(s, a, animation);
      && SplitCount(s'.windows) == SplitCount(s.windows) + (if ok then 1 else 0)
      && s'.listener == s.listener && s'.mode == s.mode
  {
    var (s', ok) := Confirmed(s, a, animation);
    if ok {
      var i, j := First(s.windows, NormalUnsplit).value, First(s.windows, Splited).value;
      var s1 := Put(s, i, s'.windows[i]);
      CountPut(s.windows, i, s'.windows[i]);
      CountPut(s1.windows, j, s'.windows[j]);
      assert s'.windows == s1.windows[j := s'.windows[j]] by {
        hide HalfHeight, First;
      }
    }
  }

  lemma MoveKeeps(s: Screen, a: Area)
    ensures var (s', ok) := Moved(s, a);
      && SplitCount(s'.windows) == SplitCount(s.windows)
      && s'.listener == s.listener && s'.mode == s.mode
      && (ok <==> SplitCount(s.windows) > 1)
  {
    PairExact(s.windows);
    var (s', ok) := Moved(s, a);
    match SplitPair(s.windows)
    case None =>
    case Some((top, bottom)) =>
      var s1 := Put(s, top, s'.windows[top]);
      CountPut(s.windows, top, s'.windows[top]);
      CountPut(s1.windows, bottom, s'.windows[bottom]);
      assert s'.windows == s1.windows[bottom := s'.windows[bottom]];
  }

  lemma Up5Keeps(s: Screen)
    ensures var (s', ok) := Lifted(s);
      s'.windows == s.windows && s'.listener == s.listener && s'.mode == s.mode && (ok <==> SplitCount(s.windows) > 1)
  {
    PairExact(s.windows);
  }

  lemma UpKeeps(s: Screen, a: Area)
    requires SplitPair(s.windows).Some? && Exits(s, a) ==> First(s.windows, LineKind).Some?
    ensures var (s', ok) := LiftedMoving(s, a);
      && (ok <==> SplitCount(s.windows) > 1)
      && s'.listener == s.listener
      && SplitCount(s'.windows) == SplitCount(s.windows) - (if ok && Exits(s, a) then 1 else 0)
      && s'.mode == (if ok && Exits(s, a) then NULL else s.mode)
  {
    PairExact(s.windows);
    match SplitPair(s.windows)
    case None =>
    case Some((top, bottom)) =>
      CountPut(s.windows, top, Restored(s.windows[top], a));
      CountPut(s.windows, bottom, Restored(s.windows[bottom], a));
  }

  /** The arrows of the machine: which change of mode each transition makes. */
  predicate Arrow(h: Handler, current: nat, target: nat) {
    match h
    case Nil => true
    case Ignore => current == target && target <= SINGLE
    case ToNull => (current == UNENABLE || current == SINGLE || current == TOUCH_UP) && target == NULL
    case ToUnenable => current == NULL && target == UNENABLE
    case ToSingle0 => current == NULL && target == SINGLE
    case ToSingle3 => current == SELECT && target == SINGLE
    case ToSelect2 => current == SINGLE && target == SELECT
    case ToSelect3 => current == SELECT && target == SELECT
    case ToConfirm => (current == SINGLE || current == SELECT) && target == CONFIRM
    case ToTouchDown => (current == CONFIRM || current == TOUCH_UP) && target == TOUCH_DOWN
    case ToTouchMove => (current == TOUCH_DOWN || current == TOUCH_MOVE) && target == TOUCH_MOVE
    case ToTouchUp5 => current == TOUCH_DOWN && target == TOUCH_UP
    case ToTouchUp6 => current == TOUCH_MOVE && target == TOUCH_UP
  }

  lemma TableArrows(target: nat, current: nat)
    requires target < MODE_MAX && current < MODE_MAX
    ensures Arrow(HandlerOf(target, current), current, target)
  {}

  lemma PerformKeeps(h: Handler, s: Screen, a: Area, animation: bool, target: nat)
    requires ModeInv(s) && Guarded(h, s, a) && Arrow(h, s.mode, target) && !h.Nil?
    ensures var (s', ok) := Perform(h, s, a, animation);
      if ok then ModeInv(s'.(mode := target)) else ModeInv(s')
  {
    PairExact(s.windows);
    hide SplitCount, First, SplitPair, Nulled, Unenabled, SingledFirst, SingledAgain, Selected, Reselected,
      Confirmed, Moved, LiftedMoving, TellFrom, Exits, Tell;
    match h
    case Ignore =>
    case ToNull => NullKeeps(s, a);
    case ToUnenable => UnenableKeeps(s);
    case ToSingle0 => Single0Keeps(s, a, animation);
    case ToSingle3 => Single3Keeps(s, a);
    case ToSelect2 => SelectKeeps(s, a);
    case ToSelect3 => SelectKeeps(s, a);
    case ToConfirm => ConfirmKeeps(s, a, animation);
    case ToTouchDown => TellKeeps(s, 0, Vague);
    case ToTouchMove => MoveKeeps(s, a);
    case ToTouchUp5 => Up5Keeps(s);
    case ToTouchUp6 => UpKeeps(s, a);
  }

  /** A request keeps the invariant whatever it asks for and whatever the animation service answers. */
  lemma RequestKeeps(s: Screen, r: Request)
    requires ModeInv(s) && RequestGuarded(s, r)
    ensures ModeInv(Requested(s, r).0)
  {
    if r.target < MODE_MAX {
      var h := HandlerOf(r.target, s.mode);
      TableArrows(r.target, s.mode);
      hide Perform, HandlerOf, Guarded, Arrow, CountFits;
      if !h.Nil? {
        PerformKeeps(h, Touched(s, r), r.area, r.animation, r.target);
      }
    }
  }

  lemma OnDestroyCount(s: Screen, i: nat, a: Area)
    requires i < |s.windows| && s.windows[i].isSplited && SplitCount(s.windows) <= 2
    ensures var s' := Noticed(s, i, a);
      SplitCount(s'.windows) == 1 && s'.windows[i].isSplited && s'.mode == NULL && !s'.listener
  {
    OtherSplitExact(s.windows, i);
    CountZero(s.windows);
    match First(s.windows, SplitedBut(i))
    case None =>
    case Some(j) => CountPut(s.windows, j, Restored(s.windows[j], a));
  }

  lemma DestroyKeeps(s: Screen, i: nat, a: Area)
    requires ModeInv(s) && i < |s.windows|
    ensures ModeInv(Destroyed(s, i, a))
  {
    if s.listener && s.windows[i].isSplited {
      OnDestroyCount(s, i, a);
      CountDrop(Noticed(s, i, a).windows, i);
    } else {
      CountDrop(s.windows, i);
      CountZero(s.windows);
    }
  }

  /** Destroying a split window in any mode from SINGLE on ends split mode and leaves no window split. */
  lemma DestroyEndsSplit(s: Screen, i: nat, a: Area)
    requires ModeInv(s) && s.mode >= SINGLE && i < |s.windows| && s.windows[i].isSplited
    ensures var s' := Destroyed(s, i, a);
      && s'.mode == NULL && !s'.listener
      && |s'.windows| == |s.windows| - 1
      && forall k :: 0 <= k < |s'.windows| ==> !s'.windows[k].isSplited
  {
    OnDestroyCount(s, i, a);
    CountDrop(Noticed(s, i, a).windows, i);
    CountZero(Destroyed(s, i, a).windows);
  }

  // ----- runs -----

  /** Clients also move, resize and retype their windows; only the split mark is out of their reach. */
  datatype Event =
    | Ask(r: Request)
    | Gone(i: nat, area: Area)
    | Created(w: Window)
    | Adjusted(i: nat, w: Window)

  predicate Enabled(s: Screen, e: Event)
    requires s.mode < MODE_MAX
  {
    match e
    case Ask(r) => RequestGuarded(s, r)
    case Gone(i, _) => i < |s.windows|
    case Created(w) => true
    case Adjusted(i, w) => i < |s.windows| && w.isSplited == s.windows[i].isSplited
  }

  function Step(s: Screen, e: Event): Screen
    requires s.mode < MODE_MAX && Enabled(s, e)
  {
    match e
    case Ask(r) => Requested(s, r).0
    case Gone(i, area) => Destroyed(s, i, area)
    case Created(w) => WithWindow(s, w)
    case Adjusted(i, w) => Put(s, i, w)
  }

  lemma StepKeeps(s: Screen, e: Event)
    requires ModeInv(s) && Enabled(s, e)
    ensures ModeInv(Step(s, e))
  {
    match e
    case Ask(r) => RequestKeeps(s, r);
    case Gone(i, area) => DestroyKeeps(s, i, area);
    case Created(w) =>
      assert WithWindow(s, w).windows[1..] == s.windows;
    case Adjusted(i, w) => CountPut(s.windows, i, w);
  }

  ghost predicate CanRun(s: Screen, events: seq<Event>)
    requires ModeInv(s)
    decreases |events|
  {
    events == []
    || (Enabled(s, events[0]) && (StepKeeps(s, events[0]); CanRun(Step(s, events[0]), events[1..])))
  }

  ghost function Run(s: Screen, events: seq<Event>): Screen
    requires ModeInv(s) && CanRun(s, events)
    decreases |events|
  {
    if events == [] then s
    else
      StepKeeps(s, events[0]);
      Run(Step(s, events[0]), events[1..])
  }

  /** Over every run the number of split windows fits the mode, and from SINGLE on a destroyed window is noticed. */
  lemma {:induction false} RunKeeps(s: Screen, events: seq<Event>)
    requires ModeInv(s) && CanRun(s, events)
    ensures ModeInv(Run(s, events))
    decreases |events|
  {
    if events != [] {
      StepKeeps(s, events[0]);
      RunKeeps(Step(s, events[0]), events[1..]);
    }
  }

  // ----- when a request succeeds -----

  /** What a transition needs, in terms of the windows there are and the animation service's answer. */
  ghost predicate Possible(h: Handler, ws: seq<Window>, animation: bool) {
    match h
    case Nil => false
    case ToSingle0 => animation && exists i :: 0 <= i < |ws| && ws[i].kind.Normal?
    case ToConfirm => animation && exists i :: 0 <= i < |ws| && ws[i].kind.Normal? && !ws[i].isSplited
    case ToTouchMove => SplitCount(ws) == 2
    case ToTouchUp5 => SplitCount(ws) == 2
    case ToTouchUp6 => SplitCount(ws) == 2
    case _ => true
  }

  lemma FirstExact(ws: seq<Window>, wanted: Wanted)
    ensures First(ws, wanted).Some? <==> exists i :: 0 <= i < |ws| && Meets(ws[i], i, wanted)
  {}

  lemma PerformExact(h: Handler, s: Screen, a: Area, animation: bool, target: nat)
    requires ModeInv(s) && Guarded(h, s, a) && Arrow(h, s.mode, target) && !h.Nil?
    ensures Perform(h, s, a, animation).1 <==> Possible(h, s.windows, animation)
  {
    PairExact(s.windows);
    FirstSplitExact(s.windows);
    FirstExact(s.windows, NormalKind);
    FirstExact(s.windows, NormalUnsplit);
    SelectKeeps(s, a);
    hide SplitCount, First, SplitPair, Exits, Moved;
    if h.ToTouchMove? {
      MoveKeeps(s, a);
    }
  }

  /** In every reachable state a request is answered OK exactly when the table has an entry and its windows, and
      the animation service where it is used, are there; only then does the mode become the one asked for. */
  lemma RequestExact(s: Screen, r: Request)
    requires ModeInv(s) && RequestGuarded(s, r)
    ensures var (s', reply) := Requested(s, r);
      && (reply.Ok? <==> r.target < MODE_MAX && Possible(HandlerOf(r.target, s.mode), s.windows, r.animation))
      && s'.mode == (if reply.Ok? then r.target else s.mode)
  {
    if r.target < MODE_MAX {
      var h := HandlerOf(r.target, s.mode);
      TableArrows(r.target, s.mode);
      if !h.Nil? {
        PerformExact(h, Touched(s, r), r.area, r.animation, r.target);
        FailedKeepsMode(h, Touched(s, r), r.area, r.animation);
      }
      hide Perform, HandlerOf, Guarded, Arrow, Possible, CountFits;
    }
  }

  lemma FailedKeepsMode(h: Handler, s: Screen, a: Area, animation: bool)
    requires Guarded(h, s, a)
    ensures var (s', ok) := Perform(h, s, a, animation); ok || s'.mode == s.mode
  {
    hide First, SplitPair, Exits;
  }

  /** Giving up the split by dragging the line to an edge does not end split mode: the mode becomes TOUCH_UP, not NULL,
      and the shorter window stays split. */
  lemma DraggedOut(s: Screen, r: Request)
    requires ModeInv(s) && s.mode == TOUCH_MOVE && r.target == TOUCH_UP && RequestGuarded(s, r)
    ensures var s' := Requested(s, r).0;
      s'.mode == TOUCH_UP && SplitCount(s'.windows) == if Exits(s, r.area) then 1 else 2
  {
    UpKeeps(s, r.area);
    hide LiftedMoving;
  }

  /** No request changes the mode. */
  ghost predicate Stuck(s: Screen)
    requires s.mode < MODE_MAX
  {
    forall r: Request :: RequestGuarded(s, r) ==> Requested(s, r).0.mode == s.mode
  }

  /** A screen is stuck in two ways only: touching the line when one window is left split, and outside split mode
      without a NORMAL window. */
  lemma StuckExact(s: Screen)
    requires ModeInv(s)
    ensures Stuck(s) <==>
      (s.mode == TOUCH_DOWN && SplitCount(s.windows) == 1)
      || (s.mode == NULL && forall i :: 0 <= i < |s.windows| ==> !s.windows[i].kind.Normal?)
  {
    FirstExact(s.windows, NormalKind);
    if (s.mode == TOUCH_DOWN && SplitCount(s.windows) == 1) || (s.mode == NULL && First(s.windows, NormalKind).None?) {
      forall r: Request | RequestGuarded(s, r) ensures Requested(s, r).0.mode == s.mode {
        RequestExact(s, r);
        if r.target < MODE_MAX {
          TableArrows(r.target, s.mode);
          hide Requested;
        }
      }
    } else {
      var target := WayOn(s.mode);
      var r := Request(target, s.y, Area(0, s.y, 0, 0), true);
      assert RequestGuarded(s, r);
      RequestExact(s, r);
      hide Requested;
      assert Requested(s, r).0.mode == target;
    }
  }

  /** The mode to ask for next. */
  function WayOn(mode: nat): nat {
    if mode == UNENABLE || mode == SINGLE || mode == TOUCH_UP then NULL
    else if mode == NULL || mode == SELECT then SINGLE
    else mode + 1
  }

  /** It is reached from what DraggedOut leaves: the user touches the line again before the short window is gone. */
  lemma StuckReached(s: Screen, r: Request)
    requires ModeInv(s) && s.mode == TOUCH_UP && SplitCount(s.windows) == 1 && r.target == TOUCH_DOWN
    ensures RequestGuarded(s, r)
    ensures var (s', reply) := Requested(s, r);
      reply.Ok? && s'.mode == TOUCH_DOWN && SplitCount(s'.windows) == 1
  {
    TellKeeps(s, 0, Vague);
    hide TellFrom, SplitCount;
  }

  // ----- leaving the split -----

  /** The window left the split and has exactly the area, its sizes not below 0. */
  predicate HasArea(w: Window, was: Window, a: Area) {
    && w.surfaceId == was.surfaceId && w.kind == was.kind && !w.isSplited
    && w.x == a.x && w.y == a.y
    && (if a.w >= 0 then w.width == a.w else w.width == 0)
    && (if a.h >= 0 then w.height == a.h else w.height == 0)
  }

  /** Every window that was split has the area, and every other one is as it was. */
  predicate SplitGotArea(ws: seq<Window>, ws': seq<Window>, a: Area) {
    |ws'| == |ws|
    && forall k :: 0 <= k < |ws| ==> if ws[k].isSplited then HasArea(ws'[k], ws[k], a) else ws'[k] == ws[k]
  }

  /** One message to each split window from position k on, in the order of the list. */
  function Told(ws: seq<Window>, k: nat, status: Status): seq<Message>
    requires k <= |ws|
    decreases |ws| - k
  {
    if k == |ws| then []
    else (if ws[k].isSplited then [Message(ws[k].surfaceId, status)] else []) + Told(ws, k + 1, status)
  }

  /** The message to the line window, where there is one. */
  function LineTold(ws: seq<Window>): seq<Message> {
    match First(ws, LineKind)
    case None => []
    case Some(i) => [Message(ws[i].surfaceId, Destroy)]
  }

  lemma {:induction false} FirstLineSame(ws: seq<Window>, ws': seq<Window>, k: nat)
    requires |ws'| == |ws| && k <= |ws|
    requires forall i :: 0 <= i < |ws| ==> ws'[i].kind == ws[i].kind && ws'[i].surfaceId == ws[i].surfaceId
    ensures FirstFrom(ws', LineKind, k) == FirstFrom(ws, LineKind, k)
    decreases |ws| - k
  {
    if k < |ws| {
      FirstLineSame(ws, ws', k + 1);
    }
  }

  lemma {:induction false} ToldSame(ws: seq<Window>, ws': seq<Window>, k: nat, status: Status)
    requires |ws'| == |ws| && k <= |ws| && forall i :: k <= i < |ws| ==> ws'[i] == ws[i]
    ensures Told(ws', k, status) == Told(ws, k, status)
    decreases |ws| - k
  {
    if k < |ws| {
      ToldSame(ws, ws', k + 1, status);
    }
  }

  lemma {:induction false} RestoreFromExact(s: Screen, k: nat, a: Area)
    requires k <= |s.windows|
    ensures var s' := RestoreFrom(s, k, a);
      && (forall i :: 0 <= i < k ==> s'.windows[i] == s.windows[i])
      && (forall i :: k <= i < |s.windows| ==>
            if s.windows[i].isSplited then HasArea(s'.windows[i], s.windows[i], a) else s'.windows[i] == s.windows[i])
      && s' == s.(windows := s'.windows, sent := s.sent + Told(s.windows, k, Retain))
    decreases |s.windows| - k
  {
    if k < |s.windows| {
      if s.windows[k].isSplited {
        var s1 := Tell(Put(s, k, Restored(s.windows[k], a)), k, Retain);
        RestoreFromExact(s1, k + 1, a);
        ToldSame(s.windows, s1.windows, k + 1, Retain);
      } else {
        RestoreFromExact(s, k + 1, a);
      }
    }
  }

  /** Going to NULL gives every split window the area and tells it, in the order of the list, then the line window. */
  lemma NulledExact(s: Screen, a: Area)
    ensures var s' := Nulled(s, a);
      && SplitGotArea(s.windows, s'.windows, a)
      && s' == s.(windows := s'.windows, listener := false,
                  sent := s.sent + Told(s.windows, 0, Retain) + LineTold(s.windows))
  {
    RestoreFromExact(s, 0, a);
    FirstLineSame(s.windows, RestoreFrom(s, 0, a).windows, 0);
    hide RestoreFrom, FirstFrom, Told;
  }

  /** Touching the line tells every split window and changes nothing else. */
  lemma {:induction false} TellExact(s: Screen, k: nat, status: Status)
    requires k <= |s.windows|
    ensures TellFrom(s, k, status) == s.(sent := s.sent + Told(s.windows, k, status))
    decreases |s.windows| - k
  {
    if k < |s.windows| {
      if s.windows[k].isSplited {
        TellExact(Tell(s, k, status), k + 1, status);
      } else {
        TellExact(s, k + 1, status);
      }
    }
  }

  /** Of at most two split windows there is at most one besides a given one. */
  lemma OnlyOther(ws: seq<Window>, i: nat, j: nat, k: nat)
    requires i < |ws| && j < |ws| && k < |ws| && i != j && i != k && SplitCount(ws) <= 2
    requires ws[i].isSplited && ws[j].isSplited && ws[k].isSplited
    ensures j == k
  {
    if j != k {
      var off := ws[i := ws[i].(isSplited := false)];
      CountPut(ws, i, ws[i].(isSplited := false));
      CountPut(off, j, off[j].(isSplited := false));
      var none := off[j := off[j].(isSplited := false)];
      assert none[k].isSplited;
      CountZero(none);
    }
  }

  lemma NoticedExact(s: Screen, i: nat, a: Area)
    requires ModeInv(s) && i < |s.windows| && s.windows[i].isSplited
    ensures var s' := Noticed(s, i, a);
      && s'.windows[i] == s.windows[i]
      && (forall k :: 0 <= k < |s.windows| && k != i ==>
            if s.windows[k].isSplited then HasArea(s'.windows[k], s.windows[k], a) else s'.windows[k] == s.windows[k])
      && s' == s.(windows := s'.windows, listener := false, mode := NULL,
                  sent := s.sent + LineTold(s.windows)
                          + match First(s.windows, SplitedBut(i)) {
                              case None => []
                              case Some(j) => [Message(s.windows[j].surfaceId, Retain)]
                            })
  {
    var other := First(s.windows, SplitedBut(i));
    forall k | 0 <= k < |s.windows| && k != i && s.windows[k].isSplited ensures other == Some(k) {
      assert Meets(s.windows[k], k, SplitedBut(i));
      OnlyOther(s.windows, i, other.value, k);
    }
    hide First, SplitCount;
  }

  /** When a split window is destroyed in a mode from SINGLE on, the other window that was split gets exactly the area
      and is told, the line window is told before it, and every other window stays as it was. */
  lemma DestroyedExact(s: Screen, i: nat, a: Area)
    requires ModeInv(s) && s.mode >= SINGLE && i < |s.windows| && s.windows[i].isSplited
    ensures var s' := Destroyed(s, i, a);
      && |s'.windows| == |s.windows| - 1
      && SplitGotArea(s.windows[..i] + s.windows[i + 1..], s'.windows, a)
      && s' == s.(windows := s'.windows, listener := false, mode := NULL, sent := s'.sent)
      && s'.sent == s.sent + LineTold(s.windows)
                    + match First(s.windows, SplitedBut(i)) {
                        case None => []
                        case Some(j) => [Message(s.windows[j].surfaceId, Retain)]
                      }
  {
    NoticedExact(s, i, a);
    hide Noticed, First, LineTold, HasArea;
    var ws, ws' := s.windows, Noticed(s, i, a).windows;
    var kept, kept' := ws[..i] + ws[i + 1..], ws'[..i] + ws'[i + 1..];
    forall k | 0 <= k < |kept|
      ensures if kept[k].isSplited then HasArea(kept'[k], kept[k], a) else kept'[k] == kept[k]
    {
      assert kept[k] == ws[if k < i then k else k + 1] && kept'[k] == ws'[if k < i then k else k + 1];
    }
  }

  /** Giving up the split at an edge: of the pair the higher window, the upper one on a tie, gets the area and is told to
      stay, the other one and the line window are told to go, and no other window moves. */
  lemma GivenUpExact(s: Screen, a: Area, top: nat, bottom: nat)
    requires SplitPair(s.windows) == Some((top, bottom)) && Exits(s, a) && First(s.windows, LineKind).Some?
    ensures top < |s.windows| && bottom < |s.windows|
    ensures var (s', ok) := LiftedMoving(s, a);
      var (long, short) :=
        if s.windows[top].height >= s.windows[bottom].height then (top, bottom) else (bottom, top);
      && ok && HasArea(s'.windows[long], s.windows[long], a)
      && s' == s.(windows := s.windows[long := s'.windows[long]], mode := NULL, sent := s'.sent)
      && s'.sent == s.sent + [Message(s.windows[short].surfaceId, Destroy)] + LineTold(s.windows)
                    + [Message(s.windows[long].surfaceId, Retain)]
  {
    hide First, SplitPair, Exits;
  }

  /** Leaving NULL for UNENABLE marks the first NORMAL window, and that one is told. */
  lemma UnenabledExact(s: Screen, i: nat)
    requires First(s.windows, NormalKind) == Some(i)
    ensures i < |s.windows|
    ensures Unenabled(s) == s.(windows := s.windows[i := s.windows[i].(isSplited := true)],
                               sent := s.sent + [Message(s.windows[i].surfaceId, Vague)])
  {}

  /** SINGLE takes the first NORMAL window, or again the one that is split. The listener is set in any case. */
  lemma SingledWhich(s: Screen, a: Area, animation: bool)
    ensures var (s', ok) := SingledFirst(s, a, animation);
      match First(s.windows, NormalKind) {
        case None => !ok && s' == s.(listener := true)
        case Some(i) =>
          (ok <==> animation) && s' == if ok then Singled(s.(listener := true), i, a) else s.(listener := true)
      }
    ensures var (s', ok) := SingledAgain(s, a);
      match First(s.windows, Splited) {
        case None => !ok && s' == s
        case Some(i) => ok && s' == Singled(s, i, a)
      }
  {}

  /** Lifting the finger tells both windows and changes nothing else, also after moving unless the line is at an edge. */
  lemma LiftedExact(s: Screen, a: Area, top: nat, bottom: nat)
    requires SplitPair(s.windows) == Some((top, bottom))
    ensures top < |s.windows| && bottom < |s.windows|
    ensures var told := s.(sent := s.sent + [Message(s.windows[top].surfaceId, Clear),
                                             Message(s.windows[bottom].surfaceId, Clear)]);
      Lifted(s) == (told, true) && (!Exits(s, a) ==> LiftedMoving(s, a) == (told, true))
  {
    hide First, SplitPair, Exits;
    assert Tell(Tell(s, top, Clear), bottom, Clear).sent
      == s.sent + [Message(s.windows[top].surfaceId, Clear), Message(s.windows[bottom].surfaceId, Clear)];
  }

  lemma PerformKeepsTouch(h: Handler, s: Screen, a: Area, animation: bool)
    requires Guarded(h, s, a)
    ensures Perform(h, s, a, animation).0.y == s.y
  {
    NulledExact(s, a);
    TellExact(s, 0, Vague);
    hide Nulled, TellFrom, First, SplitPair, Exits, Told, LineTold, SplitGotArea, Truncate;
  }

  /** Why a request is refused; and the touch position is the request's for SELECT and TOUCH_MOVE, once the table has an
      entry, and is not changed otherwise. */
  lemma RequestReply(s: Screen, r: Request)
    requires ModeInv(s) && RequestGuarded(s, r)
    ensures var (s', reply) := Requested(s, r);
      && (reply.InvalidParam? <==> r.target >= MODE_MAX)
      && (reply.InvalidOperation? <==> r.target < MODE_MAX && HandlerOf(r.target, s.mode).Nil?)
      && (reply.InvalidParam? || reply.InvalidOperation? ==> s' == s)
      && (reply.Ok? || reply.ApiFailed? ==>
            s'.y == if r.target == SELECT || r.target == TOUCH_MOVE then r.y else s.y)
  {
    if r.target < MODE_MAX {
      PerformKeepsTouch(HandlerOf(r.target, s.mode), Touched(s, r), r.area, r.animation);
    }
    hide Perform, HandlerOf, Guarded;
  }

  /** A window just created is the one found first. */
  lemma CreatedFirst(s: Screen, w: Window)
    requires w.kind.Normal?
    ensures First(WithWindow(s, w).windows, NormalKind) == Some(0) && !WithWindow(s, w).windows[0].isSplited
    ensures WithWindow(s, w).windows[1..] == s.windows
  {}

  // ----- layouts -----

  predicate Above(upper: Window, lower: Window) {
    upper.y + upper.height <= lower.y
  }

  predicate Inside(w: Window, a: Area) {
    w.x == a.x && w.width == a.w && a.y <= w.y && w.y + w.height <= a.y + a.h
  }

  /** The whole number next below a share of the height. */
  predicate ShareOf(n: int, h: int, share: real) {
    n as real <= h as real * share < n as real + 1.0
  }

  /** Less than one unit from a point. */
  predicate Near(n: int, v: real) {
    -1.0 < n as real - v < 1.0
  }

  /** In the middle: a margin of a twentieth above, and nine tenths high. */
  lemma SingledLayout(s: Screen, i: nat, a: Area)
    requires i < |s.windows| && a.w >= 0 && a.h >= 0
    ensures var w := Singled(s, i, a).windows[i];
      Inside(w, a) && Near(w.y, a.y as real + a.h as real * 0.05) && ShareOf(w.height, a.h, 0.9) && w.isSplited
    ensures forall k :: 0 <= k < |s.windows| && k != i ==> Singled(s, i, a).windows[k] == s.windows[k]
    ensures Singled(s, i, a).sent == s.sent + [Message(s.windows[i].surfaceId, Vague)]
  {}

  /** As wide as the area, nine twentieths high, and at its upper or lower edge. */
  predicate Halved(w: Window, a: Area, upper: bool) {
    Inside(w, a) && ShareOf(w.height, a.h, 0.45) && if upper then w.y == a.y else w.y + w.height == a.y + a.h
  }

  lemma AlignedLayout(s: Screen, i: nat, a: Area, align: int)
    requires i < |s.windows| && a.w >= 0 && a.h >= 0
    ensures Halved(Aligned(s, i, a, align).windows[i], a, align == 0)
    ensures forall k :: 0 <= k < |s.windows| && k != i ==> Aligned(s, i, a, align).windows[k] == s.windows[k]
    ensures Aligned(s, i, a, align).windows[i].surfaceId == s.windows[i].surfaceId
  {}

  /** A touch below the middle puts the split window into the upper half, one above it into the lower half. */
  lemma SelectedLayout(s: Screen, a: Area)
    requires a.w >= 0 && a.h >= 0 && First(s.windows, Splited).Some?
    ensures var i := First(s.windows, Splited).value;
      var (s', ok) := Selected(s, a);
      var below := s.y > a.y + a.h / 2;
      && ok && s'.sent == s.sent + [Message(s.windows[i].surfaceId, Vague)]
      && Halved(s'.windows[i], a, below) && (s'.align == 0 <==> below) && (s'.align == 1 <==> !below)
      && (forall k :: 0 <= k < |s.windows| && k != i ==> s'.windows[k] == s.windows[k])
  {
    AlignedLayout(s, First(s.windows, Splited).value, a, if BelowMiddle(s, a) then 0 else 1);
    hide Aligned, Halved, First;
  }

  /** Moving on, the window changes sides when the touch does and stays where it is otherwise. */
  lemma ReselectedLayout(s: Screen, a: Area)
    requires a.w >= 0 && a.h >= 0 && First(s.windows, Splited).Some?
    ensures var i := First(s.windows, Splited).value;
      var (s', ok) := Reselected(s, a);
      var side := if s.y > a.y + a.h / 2 then 0 else 1;
      && ok && s'.align == side && s'.sent == s.sent
      && (if s.align == side then s' == s else Halved(s'.windows[i], a, side == 0))
      && (forall k :: 0 <= k < |s.windows| && k != i ==> s'.windows[k] == s.windows[k])
  {
    AlignedLayout(s, First(s.windows, Splited).value, a, 0);
    AlignedLayout(s, First(s.windows, Splited).value, a, 1);
    hide Aligned, Halved, First;
  }

  /** Confirming leaves one window at the upper and one at the lower edge of the area, both nine twentieths high; the one
      split before stays in the half it was in. */
  lemma ConfirmedLayout(s: Screen, a: Area)
    requires a.w >= 0 && a.h >= 0 && Confirmed(s, a, true).1
    ensures var i, j := First(s.windows, NormalUnsplit).value, First(s.windows, Splited).value;
      var ws := Confirmed(s, a, true).0.windows;
      var upper := s.windows[j].y <= a.y + a.h / 2;
      && Confirmed(s, a, true).0.sent
         == s.sent + [Message(s.windows[i].surfaceId, Clear), Message(s.windows[j].surfaceId, Clear)]
      && (forall k :: 0 <= k < |s.windows| && k != i && k != j ==> ws[k] == s.windows[k])
      && Halved(ws[j], a, upper) && Halved(ws[i], a, !upper)
      && if upper then Above(ws[j], ws[i]) else Above(ws[i], ws[j])
  {
    hide First;
  }

  /** Dragging the line leaves the two windows on its two sides: when the upper one starts at the top of the area and
      the whole line stays inside, neither overlaps the other or leaves the area, the upper one ends within one unit
      of the line's upper edge, and the lower one starts within one of its lower edge and ends within two of the end
      of the area. */
  lemma MovedLayout(s: Screen, a: Area)
    requires a.w >= 0 && a.h >= 0 && SplitPair(s.windows).Some?
    requires var w := s.windows[SplitPair(s.windows).value.0]; w.x == a.x && w.y == a.y
    requires a.h as real * 0.05 <= (s.y - a.y) as real
    requires a.h as real * 0.05 <= (a.y + a.h - s.y) as real
    ensures var (top, bottom) := SplitPair(s.windows).value;
      var ws := Moved(s, a).0.windows;
      var gap := a.h as real * 0.05;
      && Moved(s, a).0.sent
         == s.sent + [Message(s.windows[top].surfaceId, Vague), Message(s.windows[bottom].surfaceId, Vague)]
      && (forall k :: 0 <= k < |s.windows| && k != top && k != bottom ==> ws[k] == s.windows[k])
      && Inside(ws[top], a) && Inside(ws[bottom], a) && Above(ws[top], ws[bottom])
      && Near(ws[top].y + ws[top].height, s.y as real - gap) && Near(ws[bottom].y, s.y as real + gap)
      && a.y + a.h - 2 < ws[bottom].y + ws[bottom].height
  {
    hide First;
  }

  // ----- the machine object -----

  class SplitMode {
    var windows: seq<Window>
    var mode: nat
    var listener: bool
    var y: int
    var align: int
    var sent: seq<Message>

    ghost function State(): Screen
      reads this
    {
      Screen(windows, mode, listener, y, align, sent)
    }

    constructor ()
      ensures State() == Screen([], NULL, false, 0, 0, [])
      ensures ModeInv(State())
    {
      windows, mode, listener, y, align, sent := [], NULL, false, 0, 0, [];
    }

    /** The position of the first window wanted. */
    method GetWindow(wanted: Wanted) returns (r: Option<nat>)
      ensures r == First(windows, wanted)
    {
      var i := 0;
      while i < |windows|
        invariant i <= |windows|
        invariant First(windows, wanted) == FirstFrom(windows, wanted, i)
      {
        if Meets(windows[i], i, wanted) {
          return Some(i);
        }
        i := i + 1;
      }
      r := None;
    }

    method ChangeSplitMode(i: nat, status: Status)
      requires i < |windows|
      modifies this`sent
      ensures State() == Tell(old(State()), i, status)
    {
      sent := sent + [Message(windows[i].surfaceId, status)];
    }

    method ChangeWindowPosition(i: nat, x: int, y: int)
      requires i < |windows|
      modifies this`windows
      ensures windows == old(windows)[i := Placed(old(windows[i]), x, y)]
    {
      windows := windows[i := windows[i].(x := x, y := y)];
    }

    method ChangeWindowSize(i: nat, w: int, h: int)
      requires i < |windows|
      modifies this`windows
      ensures windows == old(windows)[i := Sized(old(windows[i]), w, h)]
    {
      var w', h' := w, h;
      if w' < 0 {
        w' := 0;
      }
      if h' < 0 {
        h' := 0;
      }
      windows := windows[i := windows[i].(width := w', height := h')];
    }

    method GetSplitedWindows() returns (r: Option<(nat, nat)>)
      ensures r == SplitPair(windows)
    {
      var top := GetWindow(Splited);
      if top.None? {
        return None;
      }
      var bottom := GetWindow(SplitedBut(top.value));
      if bottom.None? {
        return None;
      }
      r := if windows[top.value].y > windows[bottom.value].y
      then Some((bottom.value, top.value)) else Some((top.value, bottom.value));
    }

    method TellLineWindow()
      modifies this`sent
      ensures State() == TellLine(old(State()))
    {
      var line := GetWindow(LineKind);
      if line.Some? {
        ChangeSplitMode(line.value, Destroy);
      }
    }

    /** What a window gets when it leaves the split. */
    method Restore(i: nat, a: Area)
      requires i < |windows|
      modifies this`windows, this`sent
      ensures State() == Tell(Put(old(State()), i, Restored(old(windows[i]), a)), i, Retain)
    {
      windows := windows[i := windows[i].(isSplited := false)];
      ChangeWindowPosition(i, a.x, a.y);
      ChangeWindowSize(i, a.w, a.h);
      ChangeSplitMode(i, Retain);
    }

    method To0Null(a: Area)
      modifies this`windows, this`sent, this`listener
      ensures State() == Nulled(old(State()), a)
    {
      var i := 0;
      while i < |windows|
        invariant i <= |windows|
        invariant RestoreFrom(old(State()), 0, a) == RestoreFrom(State(), i, a)
      {
        if windows[i].isSplited {
          Restore(i, a);
        }
        i := i + 1;
      }
      TellLineWindow();
      listener := false;
    }

    method To1Unenable()
      requires First(windows, NormalKind).Some?
      modifies this`windows, this`sent
      ensures State() == Unenabled(old(State()))
    {
      var ws := GetWindow(NormalKind);
      windows := windows[ws.value := windows[ws.value].(isSplited := true)];
      ChangeSplitMode(ws.value, Vague);
    }

    method To2Single(i: nat, a: Area)
      requires i < |windows|
      modifies this`windows, this`sent
      ensures State() == Singled(old(State()), i, a)
    {
      ChangeWindowPosition(i, a.x, Truncate(a.y as real + a.h as real * LINE_HEIGHT_HALF));
      ChangeWindowSize(i, a.w, Truncate(a.h as real * (1.0 - LINE_HEIGHT)));
      windows := windows[i := windows[i].(isSplited := true)];
      ChangeSplitMode(i, Vague);
    }

    method To2Single0(a: Area, animation: bool) returns (ok: bool)
      modifies this`windows, this`sent, this`listener
      ensures (State(), ok) == SingledFirst(old(State()), a, animation)
    {
      listener := true;
      var ws := GetWindow(NormalKind);
      if ws.None? || !animation {
        return false;
      }
      To2Single(ws.value, a);
      ok := true;
    }

    method To2Single3(a: Area) returns (ok: bool)
      modifies this`windows, this`sent
      ensures (State(), ok) == SingledAgain(old(State()), a)
    {
      var ws := GetWindow(Splited);
      if ws.None? {
        return false;
      }
      To2Single(ws.value, a);
      ok := true;
    }

    method Align(i: nat, a: Area, side: int)
      requires i < |windows|
      modifies this`windows, this`align
      ensures State() == Aligned(old(State()), i, a, side)
    {
      var height := HalfHeight(a);
      align := side;
      ChangeWindowPosition(i, a.x, if side == 0 then a.y else a.y + a.h - height);
      ChangeWindowSize(i, a.w, height);
    }

    method To3Select2(a: Area) returns (ok: bool)
      modifies this`windows, this`sent, this`align
      ensures (State(), ok) == Selected(old(State()), a)
    {
      var ws := GetWindow(Splited);
      if ws.None? {
        return false;
      }
      if y > a.y + Half(a.h) {
        Align(ws.value, a, 0);
      } else {
        Align(ws.value, a, 1);
      }
      ChangeSplitMode(ws.value, Vague);
      ok := true;
    }

    method To3Select3(a: Area) returns (ok: bool)
      modifies this`windows, this`align
      ensures (State(), ok) == Reselected(old(State()), a)
    {
      var ws := GetWindow(Splited);
      if ws.None? {
        return false;
      }
      if y > a.y + Half(a.h) && align != 0 {
        Align(ws.value, a, 0);
      } else if y <= a.y + Half(a.h) && align != 1 {
        Align(ws.value, a, 1);
      }
      ok := true;
    }

    method To4Confirm(a: Area, animation: bool) returns (ok: bool)
      modifies this`windows, this`sent
      ensures (State(), ok) == Confirmed(old(State()), a, animation)
    {
      if !animation {
        return false;
      }
      var win1 := GetWindow(NormalUnsplit);
      if win1.None? {
        return false;
      }
      var win2 := GetWindow(Splited);
      if win2.None? {
        return false;
      }
      var y1, y2, winHeight := 0, 0, HalfHeight(a);
      if windows[win2.value].y <= a.y + Half(a.h) {
        y1, y2 := a.y + a.h - winHeight, a.y;
      } else {
        y1, y2 := a.y, a.y + a.h - winHeight;
      }
      windows := windows[win1.value := windows[win1.value].(isSplited := true)];
      ChangeWindowPosition(win1.value, a.x, y1);
      ChangeWindowSize(win1.value, a.w, winHeight);
      ghost var first := windows;
      assert first == old(windows)[win1.value := first[win1.value]];
      ChangeWindowPosition(win2.value, a.x, y2);
      ChangeWindowSize(win2.value, a.w, winHeight);
      assert windows == first[win2.value := windows[win2.value]];
      ChangeSplitMode(win1.value, Clear);
      ChangeSplitMode(win2.value, Clear);
      ok := true;
    }

    method To5TouchDown()
      modifies this`sent
      ensures State() == TellFrom(old(State()), 0, Vague)
    {
      var i := 0;
      while i < |windows|
        invariant i <= |windows|
        invariant TellFrom(old(State()), 0, Vague) == TellFrom(State(), i, Vague)
      {
        if windows[i].isSplited {
          ChangeSplitMode(i, Vague);
        }
        i := i + 1;
      }
    }

    method To6TouchMove(a: Area) returns (ok: bool)
      modifies this`windows, this`sent
      ensures (State(), ok) == Moved(old(State()), a)
    {
      hide Truncate, First;
      var pair := GetSplitedWindows();
      if pair.None? {
        return false;
      }
      var (top, bottom) := pair.value;
      var gap := a.h as real * LINE_HEIGHT_HALF;
      ChangeWindowSize(top, a.w, Truncate((y - a.y) as real - gap));
      ChangeSplitMode(top, Vague);
      ghost var first := windows;
      ChangeWindowPosition(bottom, a.x, Truncate(y as real + gap));
      ChangeWindowSize(bottom, a.w, Truncate((a.y + a.h - y) as real - gap));
      assert windows == first[bottom := windows[bottom]];
      ChangeSplitMode(bottom, Vague);
      ok := true;
    }

    method To7TouchUp5() returns (ok: bool)
      modifies this`sent
      ensures (State(), ok) == Lifted(old(State()))
    {
      var pair := GetSplitedWindows();
      if pair.None? {
        return false;
      }
      var (top, bottom) := pair.value;
      ChangeSplitMode(top, Clear);
      ChangeSplitMode(bottom, Clear);
      ok := true;
    }

    method To7TouchUp6(a: Area) returns (ok: bool)
      requires SplitPair(windows).Some? && Exits(State(), a) ==> First(windows, LineKind).Some?
      modifies this`windows, this`sent, this`mode
      ensures (State(), ok) == LiftedMoving(old(State()), a)
    {
      var pair := GetSplitedWindows();
      if pair.None? {
        return false;
      }
      var (top, bottom) := pair.value;
      var diff := (y - a.y) as real;
      if EXITING_POSITION * a.h as real <= diff && diff <= a.h as real * (1.0 - EXITING_POSITION) {
        ChangeSplitMode(top, Clear);
        ChangeSplitMode(bottom, Clear);
        return true;
      }
      var longWindow, shortWindow := top, bottom;
      if windows[bottom].height > windows[top].height {
        longWindow, shortWindow := bottom, top;
      }
      ChangeSplitMode(shortWindow, Destroy);
      TellLineWindow();
      Restore(longWindow, a);
      mode := NULL;
      ok := true;
    }

    /** Runs the transition the table names. */
    method Call(h: Handler, a: Area, animation: bool) returns (ok: bool)
      requires Guarded(h, State(), a)
      modifies this
      ensures (State(), ok) == Perform(h, old(State()), a, animation)
    {
      hide Nulled, Unenabled, SingledFirst, SingledAgain, Selected, Reselected, Confirmed, TellFrom, Moved, Lifted,
        LiftedMoving, First, SplitPair, Exits;
      ok := true;
      match h
      case Nil => ok := false;
      case Ignore =>
      case ToNull => To0Null(a);
      case ToUnenable => To1Unenable();
      case ToSingle0 => ok := To2Single0(a, animation);
      case ToSingle3 => ok := To2Single3(a);
      case ToSelect2 => ok := To3Select2(a);
      case ToSelect3 => ok := To3Select3(a);
      case ToConfirm => ok := To4Confirm(a, animation);
      case ToTouchDown => To5TouchDown();
      case ToTouchMove => ok := To6TouchMove(a);
      case ToTouchUp5 => ok := To7TouchUp5();
      case ToTouchUp6 => ok := To7TouchUp6(a);
    }

    method ControllerSetSplitMode(r: Request) returns (reply: Reply)
      requires mode < MODE_MAX && RequestGuarded(State(), r)
      modifies this
      ensures (State(), reply) == Requested(old(State()), r)
    {
      hide Perform, Guarded, HandlerOf;
      if r.target >= MODE_MAX {
        return InvalidParam;
      }
      var func := HandlerOf(r.target, mode);
      if func.Nil? {
        return InvalidOperation;
      }
      if r.target == SELECT || r.target == TOUCH_MOVE {
        y := r.y;
      }
      var ret := Call(func, r.area, r.animation);
      if ret {
        mode := r.target;
        reply := Ok;
      } else {
        reply := ApiFailed;
      }
    }

    method OnSurfaceDestroy(i: nat, a: Area)
      requires i < |windows|
      modifies this
      ensures State() == Noticed(old(State()), i, a)
    {
      if !windows[i].isSplited {
        return;
      }
      listener := false;
      mode := NULL;
      TellLineWindow();
      var ws2 := GetWindow(SplitedBut(i));
      if ws2.Some? {
        Restore(ws2.value, a);
      }
    }

    method SurfaceDestroy(i: nat, a: Area)
      requires i < |windows|
      modifies this
      ensures State() == Destroyed(old(State()), i, a)
    {
      if listener {
        OnSurfaceDestroy(i, a);
      }
      windows := windows[..i] + windows[i + 1..];
    }

    method CreateWindow(w: Window)
      modifies this`windows
      ensures State() == WithWindow(old(State()), w)
    {
      windows := [w.(isSplited := false)] + windows;
    }
  }
}
