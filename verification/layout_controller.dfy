/**
 * Default window layouts (frameworks/wmserver/src/layout_controller.cpp),
 * over reals and floors.
 */
module LayoutControl {
  import opened RectSets
  import opened Sequences
  import opened Wrappers
  import opened Ordered

  datatype PositionType = Relative | Static | Fixed
  datatype XPosition = UnsetX | Lft | MidX | Rgh
  datatype YPosition = UnsetY | Top | MidY | Btm
  datatype Box = Box(x: real, y: real, w: real, h: real)
  datatype Layout = Layout(zIndex: int, positionType: PositionType, pTypeX: XPosition, pTypeY: YPosition, layout: Box)

  type Table = map<int, Layout>

  /** One table per window mode. */
  type Modes = m: seq<Table> | |m| == 3 witness [map[], map[], map[]]

  const MODE_UNSET := 0
  const MODE_FREE := 2
  const MODE_MAX := 3
  const NORMAL := 0
  const STATUS_BAR := 1
  const NAVI_BAR := 2
  const ALARM_SCREEN := 3
  const SYSTEM_UI := 4
  const LAUNCHER := 5
  const VIDEO := 6
  const INPUT_METHOD := 7
  const INPUT_METHOD_SELECTOR := 8
  const VOLUME_OVERLAY := 9
  const NOTIFICATION_SHADE := 10
  const FLOAT := 11

  const EPS := 0.000001
  const FULL := 100.0

  // ----- arithmetic -----

  function FloorInt(v: real): int { (v + EPS).Floor }

  function Floor(v: real): real { FloorInt(v) as real }

  /** Horizontal position in a frame at `at` of width `total`, for a window of width w offset by x. */
  function PlaceX(pType: XPosition, at: real, total: real, x: real, w: real): real {
    match pType
    case Lft => Floor(at)
    case MidX => Floor(at + (total - w) / 2.0)
    case Rgh => Floor(at + total - w)
    case UnsetX => x + Floor(at)
  }

  function PlaceY(pType: YPosition, at: real, total: real, y: real, h: real): real {
    match pType
    case Top => Floor(at)
    case MidY => Floor(at + (total - h) / 2.0)
    case Btm => Floor(at + total - h)
    case UnsetY => y + Floor(at)
  }

  function Percent(total: real, p: real): real { total * p / FULL }

  /** The percentages of l resolved against rect. */
  function Place(l: Layout, rect: Box): Layout {
    var x := Floor(Percent(rect.w, l.layout.x));
    var y := Floor(Percent(rect.h, l.layout.y));
    var w := Floor(Percent(rect.w, l.layout.w));
    var h := Floor(Percent(rect.h, l.layout.h));
    l.(layout := Box(PlaceX(l.pTypeX, rect.x, rect.w, x, w), PlaceY(l.pTypeY, rect.y, rect.h, y, h), w, h))
  }

  function Lookup(modes: Modes, kind: int, mode: int): Option<Layout>
    requires 0 <= mode < MODE_MAX
  {
    if kind in modes[mode] then Some(modes[mode][kind])
    else if mode != MODE_UNSET && kind in modes[MODE_UNSET] then Some(modes[MODE_UNSET][kind])
    else None
  }

  function Display(width: int, height: int): Box { Box(0.0, 0.0, width as real, height as real) }

  function ToRect(b: Box): Rect {
    Rect(Truncate(b.x + EPS), Truncate(b.y + EPS), Truncate(b.w + EPS), Truncate(b.h + EPS))
  }

  /** The kinds among keys that are laid out STATIC. */
  function StaticKinds(t: Table, keys: seq<int>): seq<int> {
    if keys == [] then []
    else
      (if keys[0] in t && t[keys[0]].positionType.Static? then [keys[0]] else []) + StaticKinds(t, keys[1..])
  }

  function ToBox(r: Rect): Box { Box(r.x as real, r.y as real, r.w as real, r.h as real) }

  predicate IsStatic(t: Table, kind: int) { kind in t && t[kind].positionType.Static? }

  /** The layout of a window: the percentages of its entry, resolved in the display or in the normal rectangle. */
  ghost function DefaultLayout(modes: Modes, width: int, height: int, kind: int, mode: int): Option<Layout>
    requires 0 <= mode < MODE_MAX
    decreases match Lookup(modes, kind, mode) case Some(l) => (if l.positionType.Relative? then 3 else 0) case None => 0, 0
  {
    match Lookup(modes, kind, mode)
    case None => None
    case Some(l) =>
      if l.positionType.Relative? then
        var n := NormalRect(modes, width, height);
        Some(Place(l, if n.Some? then n.value else Display(width, height)))
      else Some(Place(l, Display(width, height)))
  }

  /** The display minus the static windows, when that is a single rectangle. */
  ghost function NormalRect(modes: Modes, width: int, height: int): Option<Box>
    decreases 2, 0
  {
    var total := SubtractStatic(modes, Enumerate(modes[MODE_UNSET].Keys), width, height, [Rect(0, 0, width, height)]);
    if |total| == 1 then Some(ToBox(total[0])) else None
  }

  ghost function StaticRect(modes: Modes, kind: int, width: int, height: int): Rect
    requires IsStatic(modes[MODE_UNSET], kind)
    decreases 1, 0
  {
    ToRect(DefaultLayout(modes, width, height, kind, MODE_UNSET).value.layout)
  }

  /** Subtracts the static windows among keys, in that order. */
  ghost function SubtractStatic(modes: Modes, keys: seq<int>, width: int, height: int, total: seq<Rect>): seq<Rect>
    decreases 1, |keys| + 1
  {
    if keys == [] then total
    else
      SubtractStatic(modes, keys[1..], width, height,
        if IsStatic(modes[MODE_UNSET], keys[0])
        then Minus(total, [StaticRect(modes, keys[0], width, height)])
        else total)
  }

  // ----- the table InitByDefaultValue fills in -----

  function Pos(zIndex: int, lt: PositionType, ptx: XPosition, pty: YPosition, w: real, h: real): Layout {
    Layout(zIndex, lt, ptx, pty, Box(0.0, 0.0, w, h))
  }

  function UnsetLayout(kind: int): Layout {
    match kind
    case 0 => Pos(NORMAL, Relative, MidX, MidY, FULL, FULL)
    case 1 => Pos(STATUS_BAR, Static, MidX, Top, FULL, 7.0)
    case 2 => Pos(NAVI_BAR, Static, MidX, Btm, FULL, 7.0)
    case 3 => Pos(ALARM_SCREEN, Fixed, MidX, MidY, 80.0, 30.0)
    case 4 => Pos(SYSTEM_UI, Fixed, MidX, MidY, FULL, FULL)
    case 5 => Pos(LAUNCHER, Relative, MidX, MidY, FULL, FULL)
    case 6 => Pos(VIDEO, Fixed, MidX, MidY, FULL, FULL)
    case 7 => Pos(INPUT_METHOD, Relative, MidX, Btm, FULL, 33.3)
    case 8 => Pos(INPUT_METHOD_SELECTOR, Relative, MidX, Btm, 90.0, 33.3)
    case 9 => Layout(VOLUME_OVERLAY, Fixed, UnsetX, UnsetY, Box(2.5, 2.5, 95.0, 40.0))
    case 10 => Pos(NOTIFICATION_SHADE, Fixed, MidX, Top, FULL, 50.0)
    case _ => Layout(FLOAT, Relative, UnsetX, UnsetY, Box(7.5, 7.5, 85.0, 50.0))
  }

  function UnsetTable(): Table { map kind: int | NORMAL <= kind <= FLOAT :: UnsetLayout(kind) }

  function DefaultModes(): Modes {
    [UnsetTable(), map[], map[NORMAL := Pos(51, Fixed, MidX, MidY, FULL, FULL)]]
  }

  // ----- the normal rectangle -----

  function BarHeight(height: int): int { (height as real * 7.0 / FULL + EPS).Floor }

  function StatusRect(width: int, height: int): Rect { Rect(0, 0, width, BarHeight(height)) }

  function NaviRect(width: int, height: int): Rect {
    Rect(0, height - BarHeight(height), width, BarHeight(height))
  }

  lemma BarPlaced(l: Layout, width: int, height: int)
    requires width > 0 && height > 0
    requires l.pTypeX.MidX? && l.layout == Box(0.0, 0.0, FULL, 7.0)
    ensures l.pTypeY.Top? ==> ToRect(Place(l, Display(width, height)).layout) == StatusRect(width, height)
    ensures l.pTypeY.Btm? ==> ToRect(Place(l, Display(width, height)).layout) == NaviRect(width, height)
  {
    FloorOfInt(width);
    FloorOfInt(0);
    FloorOfInt(BarHeight(height));
    FloorOfInt(height - BarHeight(height));
    assert width as real * FULL / FULL == width as real;
  }

  /** Where the table puts the two bars. */
  lemma BarsPlaced(width: int, height: int)
    requires width > 0 && height > 0
    ensures StaticRect(DefaultModes(), STATUS_BAR, width, height) == StatusRect(width, height)
    ensures StaticRect(DefaultModes(), NAVI_BAR, width, height) == NaviRect(width, height)
  {
    BarPlaced(UnsetLayout(STATUS_BAR), width, height);
    BarPlaced(UnsetLayout(NAVI_BAR), width, height);
  }

  lemma CoalesceSingle(r: Rect)
    requires Positive(r) && r.x == 0 && r.y >= 0
    ensures Coalesce([r]) == [r]
  {
    assert [r][..0] == [];
    assert Extent([r], Rect(0, 0, 0, 0)) == Rect(0, 0, r.w, r.y + r.h);
    if r.y > 0 {
      CountOne(r, 0, 0);
      assert Covers(OriginBox([r]), 0, 0);
    }
  }

  /** r is a strip across l, at its top or its bottom, and rest is the other part of l. */
  predicate Strip(l: Rect, r: Rect, rest: Rect) {
    && Positive(l) && r.w == l.w && r.x == l.x && 0 <= r.h < l.h
    && rest.x == l.x && rest.w == l.w && rest.h == l.h - r.h
    && ((r.y == l.y && rest.y == l.y + r.h) || (r.y == l.y + l.h - r.h && rest.y == l.y))
  }

  lemma StripDifference(l: Rect, r: Rect, rest: Rect)
    requires Strip(l, r, rest)
    ensures Difference([l], [r]) == [rest]
  {
    assert [r][1..] == [];
    if r.h > 0 {
      assert Intersect(r, l) == r;
      assert FirstMeeting(r, [l]) == 0;
      assert Pieces(r, r) == [];
      assert Pieces(l, r) == [rest];
      assert Without([l], 0) == [];
      assert Turn([l], [r]) == Lists([rest], []);
    } else {
      assert [l][1..] == [];
      assert FirstMeeting(r, [l]) == 1;
      assert Turn([l], [r]) == Lists([l], []);
    }
  }

  /** Cutting a full-width strip off the top or the bottom of a single rectangle leaves a single rectangle. */
  lemma StripCut(l: Rect, r: Rect, rest: Rect)
    requires Strip(l, r, rest) && l.x == 0 && l.y >= 0
    ensures Minus([l], [r]) == [rest]
  {
    StripDifference(l, r, rest);
    CoalesceSingle(rest);
  }

  function Middle(width: int, height: int): Rect {
    Rect(0, BarHeight(height), width, height - 2 * BarHeight(height))
  }

  lemma TwoStrips(l: Rect, a: Rect, b: Rect, r1: Rect, r2: Rect)
    requires Strip(l, a, r1) && Strip(r1, b, r2) && l.x == 0 && l.y >= 0
    ensures Minus([l], [a]) == [r1] && Minus([r1], [b]) == [r2]
  {
    StripCut(l, a, r1);
    StripCut(r1, b, r2);
  }

  /** The display without the two bars is the same single rectangle whichever bar goes first. */
  lemma BarsEitherOrder(width: int, height: int)
    requires width > 0 && height > 0
    ensures exists below, above ::
      && Minus([Rect(0, 0, width, height)], [StatusRect(width, height)]) == [below]
      && Minus([below], [NaviRect(width, height)]) == [Middle(width, height)]
      && Minus([Rect(0, 0, width, height)], [NaviRect(width, height)]) == [above]
      && Minus([above], [StatusRect(width, height)]) == [Middle(width, height)]
  {
    var b := BarHeight(height);
    TwoStrips(Rect(0, 0, width, height), StatusRect(width, height), NaviRect(width, height),
      Rect(0, b, width, height - b), Middle(width, height));
    TwoStrips(Rect(0, 0, width, height), NaviRect(width, height), StatusRect(width, height),
      Rect(0, 0, width, height - b), Middle(width, height));
  }

  lemma {:induction false} StaticKindsMembers(t: Table, keys: seq<int>)
    requires Ascending(keys)
    ensures Ascending(StaticKinds(t, keys))
    ensures forall k :: k in StaticKinds(t, keys) <==> k in keys && k in t && t[k].positionType.Static?
  {
    if keys != [] {
      assert Ascending(keys[1..]);
      TailElements(keys);
      StaticKindsMembers(t, keys[1..]);
      var rest := StaticKinds(t, keys[1..]);
      forall i | 0 <= i < |rest| ensures keys[0] < rest[i] {
        assert rest[i] in rest;
        var j :| 0 <= j < |keys[1..]| && keys[1..][j] == rest[i];
        assert keys[j + 1] == rest[i];
      }
    }
  }

  lemma StaticsOf(t: Table)
    requires forall kind :: kind in t && t[kind].positionType.Static? <==> kind == STATUS_BAR || kind == NAVI_BAR
    ensures StaticKinds(t, Enumerate(t.Keys)) == [STATUS_BAR] + ([NAVI_BAR] + [])
  {
    EnumerateProperties(t.Keys);
    StaticKindsMembers(t, Enumerate(t.Keys));
    AscendingUnique([STATUS_BAR] + ([NAVI_BAR] + []), StaticKinds(t, Enumerate(t.Keys)));
  }

  lemma TableStatics()
    ensures StaticKinds(UnsetTable(), Enumerate(UnsetTable().Keys)) == [STATUS_BAR] + ([NAVI_BAR] + [])
  {
    forall kind
      ensures kind in UnsetTable() && UnsetTable()[kind].positionType.Static?
              <==> kind == STATUS_BAR || kind == NAVI_BAR
    {}
    StaticsOf(UnsetTable());
  }

  lemma {:induction false} StaticOnly(modes: Modes, keys: seq<int>, width: int, height: int, total: seq<Rect>)
    ensures SubtractStatic(modes, keys, width, height, total)
            == SubtractStatic(modes, StaticKinds(modes[MODE_UNSET], keys), width, height, total)
    decreases |keys|
  {
    if keys != [] {
      var rest := StaticKinds(modes[MODE_UNSET], keys[1..]);
      if IsStatic(modes[MODE_UNSET], keys[0]) {
        var total' := Minus(total, [StaticRect(modes, keys[0], width, height)]);
        StaticOnly(modes, keys[1..], width, height, total');
        StaticCons(modes, keys[0], rest, width, height, total, total');
      } else {
        StaticOnly(modes, keys[1..], width, height, total);
        assert [] + rest == rest;
      }
    }
  }

  lemma StaticCons(modes: Modes, k: int, rest: seq<int>, width: int, height: int, total: seq<Rect>, total': seq<Rect>)
    requires IsStatic(modes[MODE_UNSET], k) && Minus(total, [StaticRect(modes, k, width, height)]) == total'
    ensures SubtractStatic(modes, [k] + rest, width, height, total)
            == SubtractStatic(modes, rest, width, height, total')
  {
    assert ([k] + rest)[1..] == rest;
  }

  lemma NormalRectOf(modes: Modes, width: int, height: int, s: Rect, below: Rect, n: Rect, m: Rect)
    requires StaticKinds(modes[MODE_UNSET], Enumerate(modes[MODE_UNSET].Keys)) == [STATUS_BAR] + ([NAVI_BAR] + [])
    requires IsStatic(modes[MODE_UNSET], STATUS_BAR) && IsStatic(modes[MODE_UNSET], NAVI_BAR)
    requires StaticRect(modes, STATUS_BAR, width, height) == s && StaticRect(modes, NAVI_BAR, width, height) == n
    requires Minus([Rect(0, 0, width, height)], [s]) == [below] && Minus([below], [n]) == [m]
    ensures NormalRect(modes, width, height) == Some(ToBox(m))
  {
    StaticOnly(modes, Enumerate(modes[MODE_UNSET].Keys), width, height, [Rect(0, 0, width, height)]);
    StaticCons(modes, STATUS_BAR, [NAVI_BAR] + [], width, height, [Rect(0, 0, width, height)], [below]);
    StaticCons(modes, NAVI_BAR, [], width, height, [below], [m]);
  }

  /** CalcNormalRect succeeds on every positive display: the display minus the two bars. */
  lemma NormalRectSucceeds(width: int, height: int)
    requires width > 0 && height > 0
    ensures NormalRect(DefaultModes(), width, height) == Some(ToBox(Middle(width, height)))
  {
    TableStatics();
    BarsPlaced(width, height);
    BarsEitherOrder(width, height);
    var below :| Minus([Rect(0, 0, width, height)], [StatusRect(width, height)]) == [below]
              && Minus([below], [NaviRect(width, height)]) == [Middle(width, height)];
    NormalRectOf(DefaultModes(), width, height, StatusRect(width, height), below, NaviRect(width, height),
      Middle(width, height));
  }

  // ----- every default layout lies inside its frame -----

  predicate Within(inner: Box, outer: Box) {
    outer.x <= inner.x && inner.x + inner.w <= outer.x + outer.w
    && outer.y <= inner.y && inner.y + inner.h <= outer.y + outer.h
    && inner.w >= 0.0 && inner.h >= 0.0
  }

  predicate Whole(b: Box) {
    IsInt(b.x) && IsInt(b.y) && IsInt(b.w) && IsInt(b.h)
    && b.x >= 0.0 && b.y >= 0.0 && b.w >= 0.0 && b.h >= 0.0
  }

  predicate Percentages(l: Layout) {
    l.layout.x >= 0.0 && l.layout.y >= 0.0 && l.layout.w >= 0.0 && l.layout.h >= 0.0
    && l.layout.x + l.layout.w <= FULL && l.layout.y + l.layout.h <= FULL
  }

  predicate IsInt(v: real) { v == v.Floor as real }

  lemma FloorOfInt(n: int)
    ensures FloorInt(n as real) == n
    ensures n >= 0 ==> Truncate(n as real + EPS) == n
  {}

  /** Two margins that differ by nothing, or the second one by one unit. */
  predicate Even(before: real, after: real) {
    after == before || after == before + 1.0
  }

  lemma HalfFloor(at: int, half: int, odd: bool)
    ensures FloorInt((at + half) as real + if odd then 0.5 else 0.0) == at + half
  {}

  lemma MiddleExact(at: int, total: int, size: int)
    ensures var v := Floor(at as real + (total as real - size as real) / 2.0);
      v == (at + (total - size) / 2) as real && Even(v - at as real, (at + total) as real - (v + size as real))
  {
    var k := total - size;
    var half := k / 2;
    assert k == 2 * half || k == 2 * half + 1;
    HalfFloor(at, half, k != 2 * half);
    hide FloorInt;
    assert at as real + (total as real - size as real) / 2.0
      == (at + half) as real + if k != 2 * half then 0.5 else 0.0;
  }

  lemma AxisExact(px: XPosition, py: YPosition, at: int, total: int, offset: int, size: int)
    ensures var v := PlaceX(px, at as real, total as real, offset as real, size as real);
      match px
      case Lft => v == at as real
      case Rgh => v + size as real == (at + total) as real
      case MidX => Even(v - at as real, (at + total) as real - (v + size as real))
      case UnsetX => v == (at + offset) as real
    ensures var v := PlaceY(py, at as real, total as real, offset as real, size as real);
      match py
      case Top => v == at as real
      case Btm => v + size as real == (at + total) as real
      case MidY => Even(v - at as real, (at + total) as real - (v + size as real))
      case UnsetY => v == (at + offset) as real
  {
    FloorOfInt(at);
    FloorOfInt(at + total - size);
    MiddleExact(at, total, size);
    hide FloorInt, Even;
  }

  lemma PositionWithin(px: XPosition, py: YPosition, at: int, total: int, offset: int, s: int)
    requires 0 <= s <= total && 0 <= offset && offset + s <= total
    ensures at as real <= PlaceX(px, at as real, total as real, offset as real, s as real) <= (at + total - s) as real
    ensures at as real <= PlaceY(py, at as real, total as real, offset as real, s as real) <= (at + total - s) as real
  {
    FloorOfInt(at);
    FloorOfInt(at + total - s);
    MiddleExact(at, total, s);
    hide FloorInt;
  }

  lemma PlaceWithin(l: Layout, rect: Box)
    requires Whole(rect) && Percentages(l)
    ensures Within(Place(l, rect).layout, rect)
  {
    ResolvedWithin(l, rect, Percent(rect.w, l.layout.x), Percent(rect.h, l.layout.y),
      Percent(rect.w, l.layout.w), Percent(rect.h, l.layout.h));
  }

  lemma ResolvedWithin(l: Layout, rect: Box, x: real, y: real, w: real, h: real)
    requires Whole(rect) && x >= 0.0 && y >= 0.0 && w >= 0.0 && h >= 0.0 && x + w <= rect.w && y + h <= rect.h
    ensures Within(Box(PlaceX(l.pTypeX, rect.x, rect.w, Floor(x), Floor(w)),
                       PlaceY(l.pTypeY, rect.y, rect.h, Floor(y), Floor(h)), Floor(w), Floor(h)), rect)
  {
    PositionWithin(l.pTypeX, l.pTypeY, rect.x.Floor, rect.w.Floor, FloorInt(x), FloorInt(w));
    PositionWithin(l.pTypeX, l.pTypeY, rect.y.Floor, rect.h.Floor, FloorInt(y), FloorInt(h));
  }

  lemma TablePercentages(kind: int, mode: int)
    requires 0 <= mode < MODE_MAX
    ensures var l := Lookup(DefaultModes(), kind, mode);
      (l.Some? <==> 0 <= kind <= FLOAT) && (l.Some? ==> Percentages(l.value))
  {}

  /** Every default layout lies inside the display, and the RELATIVE ones inside the normal rectangle. */
  lemma DefaultLayoutWithin(width: int, height: int, kind: int, mode: int)
    requires width > 0 && height > 0 && 0 <= mode < MODE_MAX
    ensures var l := DefaultLayout(DefaultModes(), width, height, kind, mode);
      && (l.Some? <==> NORMAL <= kind <= FLOAT)
      && (l.Some? ==>
            && Within(l.value.layout, Display(width, height))
            && (l.value.positionType.Relative? ==> Within(l.value.layout, ToBox(Middle(width, height)))))
  {
    TablePercentages(kind, mode);
    NormalRectSucceeds(width, height);
    var l := Lookup(DefaultModes(), kind, mode);
    if l.Some? {
      PlaceWithin(l.value, ToBox(Middle(width, height)));
      PlaceWithin(l.value, Display(width, height));
    }
  }

  // ----- where a layout lies in its frame -----

  /** The whole number next below a percentage, but for the tolerance of the source. */
  predicate WholeShare(total: real, percent: real, v: real) {
    IsInt(v) && v <= total * percent / 100.0 + EPS < v + 1.0
  }

  /** The entry's percentages and position types, read in a frame. */
  predicate LiesIn(l: Layout, f: Box, r: Box) {
    && WholeShare(f.w, l.layout.w, r.w) && WholeShare(f.h, l.layout.h, r.h)
    && (match l.pTypeX
        case Lft => r.x == f.x
        case Rgh => r.x + r.w == f.x + f.w
        case MidX => Even(r.x - f.x, f.x + f.w - (r.x + r.w))
        case UnsetX => WholeShare(f.w, l.layout.x, r.x - f.x))
    && (match l.pTypeY
        case Top => r.y == f.y
        case Btm => r.y + r.h == f.y + f.h
        case MidY => Even(r.y - f.y, f.y + f.h - (r.y + r.h))
        case UnsetY => WholeShare(f.h, l.layout.y, r.y - f.y))
  }

  predicate WholeFrame(f: Box) {
    IsInt(f.x) && IsInt(f.y) && IsInt(f.w) && IsInt(f.h)
  }

  lemma ShareExact(total: real, percent: real)
    ensures WholeShare(total, percent, Floor(Percent(total, percent)))
  {}

  lemma PlaceExact(l: Layout, f: Box)
    requires WholeFrame(f)
    ensures LiesIn(l, f, Place(l, f).layout) && Place(l, f) == l.(layout := Place(l, f).layout)
  {
    ShareExact(f.w, l.layout.x);
    ShareExact(f.h, l.layout.y);
    ShareExact(f.w, l.layout.w);
    ShareExact(f.h, l.layout.h);
    var x, y := FloorInt(Percent(f.w, l.layout.x)), FloorInt(Percent(f.h, l.layout.y));
    var w, h := FloorInt(Percent(f.w, l.layout.w)), FloorInt(Percent(f.h, l.layout.h));
    AxisExact(l.pTypeX, l.pTypeY, f.x.Floor, f.w.Floor, x, w);
    AxisExact(l.pTypeX, l.pTypeY, f.y.Floor, f.h.Floor, y, h);
    hide Percent, FloorInt, PlaceX, PlaceY;
  }

  /** The frame of an entry: the normal rectangle for a RELATIVE one where there is one, and the display otherwise. */
  ghost function Frame(modes: Modes, width: int, height: int, l: Layout): Box {
    if l.positionType.Relative? && NormalRect(modes, width, height).Some? then NormalRect(modes, width, height).value
    else Display(width, height)
  }

  /** For any tables and any display, the default layout of a window lies in its frame as its entry says; a window
      without an entry has none. */
  lemma DefaultLayoutExact(modes: Modes, width: int, height: int, kind: int, mode: int)
    requires 0 <= mode < MODE_MAX
    ensures var entry, r := Lookup(modes, kind, mode), DefaultLayout(modes, width, height, kind, mode);
      && (r.Some? <==> entry.Some?)
      && (r.Some? ==>
            && r.value == entry.value.(layout := r.value.layout)
            && LiesIn(entry.value, Frame(modes, width, height, entry.value), r.value.layout))
  {
    var entry := Lookup(modes, kind, mode);
    if entry.Some? {
      PlaceExact(entry.value, Frame(modes, width, height, entry.value));
      hide Place, LiesIn;
    }
  }

  // ----- the class -----

  class LayoutController {
    var displayWidth: int
    var displayHeight: int
    var modeLayoutMap: Modes

    constructor ()
      ensures displayWidth == 0 && displayHeight == 0 && modeLayoutMap == [map[], map[], map[]]
    {
      displayWidth, displayHeight := 0, 0;
      modeLayoutMap := [map[], map[], map[]];
    }

    method InitByDefaultValue()
      modifies this`modeLayoutMap
      ensures modeLayoutMap == DefaultModes()
    {
      var unset: Table := map[];
      unset := unset[NORMAL := Pos(NORMAL, Relative, MidX, MidY, FULL, FULL)];
      var free: Table := map[NORMAL := Pos(51, Fixed, MidX, MidY, FULL, FULL)];
      unset := unset[STATUS_BAR := Pos(STATUS_BAR, Static, MidX, Top, FULL, 7.0)];
      unset := unset[NAVI_BAR := Pos(NAVI_BAR, Static, MidX, Btm, FULL, 7.0)];
      unset := unset[ALARM_SCREEN := Pos(ALARM_SCREEN, Fixed, MidX, MidY, 80.0, 30.0)];
      unset := unset[SYSTEM_UI := Pos(SYSTEM_UI, Fixed, MidX, MidY, FULL, FULL)];
      unset := unset[LAUNCHER := Pos(LAUNCHER, Relative, MidX, MidY, FULL, FULL)];
      unset := unset[VIDEO := Pos(VIDEO, Fixed, MidX, MidY, FULL, FULL)];
      unset := unset[INPUT_METHOD := Pos(INPUT_METHOD, Relative, MidX, Btm, FULL, 33.3)];
      unset := unset[INPUT_METHOD_SELECTOR := Pos(INPUT_METHOD_SELECTOR, Relative, MidX, Btm, 90.0, 33.3)];
      unset := unset[VOLUME_OVERLAY := Layout(VOLUME_OVERLAY, Fixed, UnsetX, UnsetY, Box(2.5, 2.5, 95.0, 40.0))];
      unset := unset[NOTIFICATION_SHADE := Pos(NOTIFICATION_SHADE, Fixed, MidX, Top, FULL, 50.0)];
      unset := unset[FLOAT := Layout(FLOAT, Relative, UnsetX, UnsetY, Box(7.5, 7.5, 85.0, 50.0))];
      assert unset == UnsetTable();
      modeLayoutMap := [unset, map[], free];
    }

    /** Looks the window up, the UNSET mode standing in for modes without an entry, and resolves its percentages. */
    method CalcWindowDefaultLayout(kind: int, mode: int) returns (ret: int, outLayout: Option<Layout>)
      requires 0 <= mode < MODE_MAX
      ensures outLayout == DefaultLayout(modeLayoutMap, displayWidth, displayHeight, kind, mode)
      ensures ret == if outLayout.Some? then 0 else 1
      decreases match Lookup(modeLayoutMap, kind, mode)
                case Some(l) => (if l.positionType.Relative? then 3 else 0)
                case None => 0
    {
      var found := Lookup(modeLayoutMap, kind, mode);
      if found.None? {
        return 1, None;
      }
      var rect := Display(displayWidth, displayHeight);
      if found.value.positionType.Relative? {
        var ok, normal := CalcNormalRect();
        if ok {
          rect := normal;
        }
      }
      return 0, Some(Place(found.value, rect));
    }

    /** Where CalcNormalRect finds a static window. */
    method StaticWindow(kind: int) returns (r: Rect)
      requires IsStatic(modeLayoutMap[MODE_UNSET], kind)
      ensures r == StaticRect(modeLayoutMap, kind, displayWidth, displayHeight)
      decreases 1
    {
      var ret, now := CalcWindowDefaultLayout(kind, MODE_UNSET);
      r := ToRect(now.value.layout);
    }

    method CalcNormalRect() returns (ok: bool, layout: Box)
      ensures ok == NormalRect(modeLayoutMap, displayWidth, displayHeight).Some?
      ensures ok ==> layout == NormalRect(modeLayoutMap, displayWidth, displayHeight).value
      decreases 2
    {
      var keys := KeysInOrder(modeLayoutMap[MODE_UNSET].Keys);
      var totalRects := new Rects([Rect(0, 0, displayWidth, displayHeight)]);
      ghost var goal := SubtractStatic(modeLayoutMap, keys, displayWidth, displayHeight, totalRects.rects);
      var i := 0;
      while i < |keys|
        invariant i <= |keys|
        invariant fresh(totalRects)
        invariant SubtractStatic(modeLayoutMap, keys[i..], displayWidth, displayHeight, totalRects.rects) == goal
      {
        assert keys[i..][1..] == keys[i + 1..];
        assert keys[i] in modeLayoutMap[MODE_UNSET].Keys;
        if modeLayoutMap[MODE_UNSET][keys[i]].positionType.Static? {
          var r := StaticWindow(keys[i]);
          var rect := new Rects([r]);
          totalRects.SubtractInPlace(rect);
        }
        i := i + 1;
      }
      if |totalRects.rects| == 1 {
        return true, ToBox(totalRects.rects[0]);
      }
      return false, Box(0.0, 0.0, 0.0, 0.0);
    }
  }
}
