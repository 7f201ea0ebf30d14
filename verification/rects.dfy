/** Rectangle sets and their subtraction (frameworks/wmserver/src/rects.cpp). */
module RectSets {
  import opened Sequences

  datatype Rect = Rect(x: int, y: int, w: int, h: int)

  function Max(a: int, b: int): int { if a > b then a else b }

  function Min(a: int, b: int): int { if a < b then a else b }

  // ----- meaning: the integer points a rectangle covers -----

  predicate Covers(r: Rect, px: int, py: int) {
    r.x <= px < r.x + r.w && r.y <= py < r.y + r.h
  }

  function One(b: bool): nat { if b then 1 else 0 }

  /** How many rectangles of the list cover the point. */
  function Count(rs: seq<Rect>, px: int, py: int): nat {
    if rs == [] then 0 else One(Covers(rs[0], px, py)) + Count(rs[1..], px, py)
  }

  predicate Positive(r: Rect) { r.w > 0 && r.h > 0 }

  predicate AllPositive(rs: seq<Rect>) { forall r :: r in rs ==> Positive(r) }

  /** r lies inside box, edges included. */
  predicate Inside(r: Rect, box: Rect) {
    box.x <= r.x && r.x + r.w <= box.x + box.w && box.y <= r.y && r.y + r.h <= box.y + box.h
  }

  predicate Meets(a: Rect, b: Rect) { Positive(Intersect(a, b)) }

  predicate PairwiseDisjoint(rs: seq<Rect>) {
    forall i, j :: 0 <= i < j < |rs| ==> !Meets(rs[i], rs[j])
  }

  // ----- the arithmetic of the source -----

  function Intersect(a: Rect, b: Rect): Rect {
    var x, y := Max(a.x, b.x), Max(a.y, b.y);
    Rect(x, y, Min(a.x + a.w, b.x + b.w) - x, Min(a.y + a.h, b.y + b.h) - y)
  }

  function Piece(r: Rect, extent: int): seq<Rect> { if extent > 0 then [r] else [] }

  /** The pieces left of rect once inner is cut out: above, below, left, right. */
  function Pieces(rect: Rect, inner: Rect): seq<Rect> {
    var top := inner.y - rect.y;
    var bottom := rect.y + rect.h - inner.y - inner.h;
    var left := inner.x - rect.x;
    var right := rect.x + rect.w - inner.x - inner.w;
    Piece(Rect(rect.x, rect.y, rect.w, top), top)
    + Piece(Rect(rect.x, rect.y + rect.h - bottom, rect.w, bottom), bottom)
    + (if inner.h > 0 then
         Piece(Rect(rect.x, inner.y, left, inner.h), left)
         + Piece(Rect(inner.x + inner.w, inner.y, right, inner.h), right)
       else [])
  }

  /** Position of the first rectangle of ls that meets r, |ls| if there is none. */
  function FirstMeeting(r: Rect, ls: seq<Rect>): (j: nat)
    ensures j <= |ls|
    ensures j < |ls| ==> Meets(r, ls[j])
    ensures forall i :: 0 <= i < j ==> !Meets(r, ls[i])
  {
    if ls == [] then 0 else if Meets(r, ls[0]) then 0 else FirstMeeting(r, ls[1..]) + 1
  }

  // ----- termination measure -----

  function Area(r: Rect): nat {
    if Positive(r) then
      assert r.w * r.h >= 0 by { ProductNonNegative(r.w, r.h); }
      r.w * r.h
    else 0
  }

  function TotalArea(rs: seq<Rect>): nat {
    if rs == [] then 0 else Area(rs[0]) + TotalArea(rs[1..])
  }

  lemma ProductNonNegative(a: int, b: int)
    requires a >= 0 && b >= 0
    ensures a * b >= 0
  {}

  lemma {:induction false} TotalAreaAppend(a: seq<Rect>, b: seq<Rect>)
    ensures TotalArea(a + b) == TotalArea(a) + TotalArea(b)
  {
    if a == [] {
      assert a + b == b;
    } else {
      TotalAreaAppend(a[1..], b);
      assert (a + b)[1..] == a[1..] + b;
    }
  }

  lemma TotalAreaPiece(r: Rect, extent: int)
    requires extent > 0 ==> Positive(r)
    ensures TotalArea(Piece(r, extent)) == if extent > 0 then r.w * r.h else 0
  {
    assert extent > 0 ==> [r][1..] == [];
  }

  lemma TotalAreaFour(a: seq<Rect>, b: seq<Rect>, c: seq<Rect>, d: seq<Rect>)
    ensures TotalArea(a + b + (c + d)) == TotalArea(a) + TotalArea(b) + TotalArea(c) + TotalArea(d)
  {
    TotalAreaAppend(a, b);
    TotalAreaAppend(c, d);
    TotalAreaAppend(a + b, c + d);
  }

  /** Cutting inner out of rect removes exactly its area. */
  lemma PiecesArea(rect: Rect, inner: Rect)
    requires Positive(inner) && Inside(inner, rect)
    ensures TotalArea(Pieces(rect, inner)) == Area(rect) - Area(inner)
  {
    var top := inner.y - rect.y;
    var bottom := rect.y + rect.h - inner.y - inner.h;
    var left := inner.x - rect.x;
    var right := rect.x + rect.w - inner.x - inner.w;
    var a := Rect(rect.x, rect.y, rect.w, top);
    var b := Rect(rect.x, rect.y + rect.h - bottom, rect.w, bottom);
    var c := Rect(rect.x, inner.y, left, inner.h);
    var d := Rect(inner.x + inner.w, inner.y, right, inner.h);
    TotalAreaFour(Piece(a, top), Piece(b, bottom), Piece(c, left), Piece(d, right));
    TotalAreaPiece(a, top);
    TotalAreaPiece(b, bottom);
    TotalAreaPiece(c, left);
    TotalAreaPiece(d, right);
    Cut(rect.w, rect.h, top, bottom, left, right, inner.w, inner.h);
  }

  /** The areas of the four pieces and of inner add up. */
  lemma Cut(w: int, h: int, top: int, bottom: int, left: int, right: int, iw: int, ih: int)
    requires top + bottom + ih == h && left + right + iw == w
    ensures w * top + w * bottom + left * ih + right * ih == w * h - iw * ih
  {
    assert w * h == w * top + w * bottom + w * ih;
    assert w * ih == left * ih + right * ih + iw * ih;
  }

  lemma IntersectInside(a: Rect, b: Rect)
    requires Meets(a, b)
    ensures Inside(Intersect(a, b), a) && Inside(Intersect(a, b), b)
  {}

  lemma AreaPositive(r: Rect)
    requires Positive(r)
    ensures Area(r) > 0
  {
    assert r.w * r.h >= r.h by { assert r.w * r.h == (r.w - 1) * r.h + r.h; ProductNonNegative(r.w - 1, r.h); }
  }

  // ----- the subtraction, as a function of the two lists -----

  datatype Lists = Lists(left: seq<Rect>, right: seq<Rect>)

  /** What remains on both sides once rectangle j of the left list has met r, the head of the right list. */
  function Match(ls: seq<Rect>, j: nat, r: Rect, rest: seq<Rect>): Lists
    requires j < |ls|
  {
    var inter := Intersect(r, ls[j]);
    Lists(Without(ls, j) + Pieces(ls[j], inter), rest + Pieces(r, inter))
  }

  /** One turn of the worklist loop: the first right rectangle against the first left one it meets. */
  function Turn(ls: seq<Rect>, rs: seq<Rect>): Lists
    requires rs != []
  {
    var j := FirstMeeting(rs[0], ls);
    if j == |ls| then Lists(ls, rs[1..]) else Match(ls, j, rs[0], rs[1..])
  }

  lemma MatchShrinks(ls: seq<Rect>, j: nat, r: Rect, rest: seq<Rect>)
    requires j < |ls| && Meets(r, ls[j])
    ensures TotalArea(Match(ls, j, r, rest).right) < Area(r) + TotalArea(rest)
  {
    var inter := Intersect(r, ls[j]);
    PiecesArea(r, inter);
    TotalAreaAppend(rest, Pieces(r, inter));
    AreaPositive(inter);
  }

  lemma TurnShrinks(ls: seq<Rect>, rs: seq<Rect>)
    requires rs != []
    ensures var r' := Turn(ls, rs).right;
      TotalArea(r') < TotalArea(rs) || (TotalArea(r') == TotalArea(rs) && |r'| < |rs|)
  {
    var j := FirstMeeting(rs[0], ls);
    if j < |ls| {
      MatchShrinks(ls, j, rs[0], rs[1..]);
    }
  }

  /** The left list when the worklist is empty. */
  function Difference(ls: seq<Rect>, rs: seq<Rect>): seq<Rect>
    decreases TotalArea(rs), |rs|
  {
    if rs == [] then ls
    else
      TurnShrinks(ls, rs);
      Difference(Turn(ls, rs).left, Turn(ls, rs).right)
  }

  /** How many turns the worklist loop takes. */
  function Turns(ls: seq<Rect>, rs: seq<Rect>): nat
    decreases TotalArea(rs), |rs|
  {
    if rs == [] then 0
    else
      TurnShrinks(ls, rs);
      1 + Turns(Turn(ls, rs).left, Turn(ls, rs).right)
  }

  // ----- counting -----

  lemma {:induction false} CountAppend(a: seq<Rect>, b: seq<Rect>, px: int, py: int)
    ensures Count(a + b, px, py) == Count(a, px, py) + Count(b, px, py)
  {
    if a == [] {
      assert a + b == b;
    } else {
      CountAppend(a[1..], b, px, py);
      assert (a + b)[1..] == a[1..] + b;
    }
  }

  lemma CountWithout(s: seq<Rect>, j: nat, px: int, py: int)
    requires j < |s|
    ensures Count(s, px, py) == Count(Without(s, j), px, py) + One(Covers(s[j], px, py))
  {
    assert s == s[..j] + ([s[j]] + s[j + 1..]);
    assert ([s[j]] + s[j + 1..])[1..] == s[j + 1..];
    CountAppend(s[..j], [s[j]] + s[j + 1..], px, py);
    CountAppend(s[..j], s[j + 1..], px, py);
  }

  lemma CountPiece(r: Rect, extent: int, px: int, py: int)
    ensures Count(Piece(r, extent), px, py) == One(extent > 0 && Covers(r, px, py))
  {
    assert extent > 0 ==> [r][1..] == [];
  }

  /** The pieces tile rect minus inner: each point of the difference lies in exactly one piece. */
  lemma PiecesCount(rect: Rect, inner: Rect, px: int, py: int)
    requires Positive(inner) && Inside(inner, rect)
    ensures Count(Pieces(rect, inner), px, py) == One(Covers(rect, px, py)) - One(Covers(inner, px, py))
  {
    var top := inner.y - rect.y;
    var bottom := rect.y + rect.h - inner.y - inner.h;
    var left := inner.x - rect.x;
    var right := rect.x + rect.w - inner.x - inner.w;
    var a := Piece(Rect(rect.x, rect.y, rect.w, top), top);
    var b := Piece(Rect(rect.x, rect.y + rect.h - bottom, rect.w, bottom), bottom);
    var c := Piece(Rect(rect.x, inner.y, left, inner.h), left);
    var d := Piece(Rect(inner.x + inner.w, inner.y, right, inner.h), right);
    CountAppend(a, b, px, py);
    CountAppend(c, d, px, py);
    CountAppend(a + b, c + d, px, py);
    CountPiece(Rect(rect.x, rect.y, rect.w, top), top, px, py);
    CountPiece(Rect(rect.x, rect.y + rect.h - bottom, rect.w, bottom), bottom, px, py);
    CountPiece(Rect(rect.x, inner.y, left, inner.h), left, px, py);
    CountPiece(Rect(inner.x + inner.w, inner.y, right, inner.h), right, px, py);
  }

  lemma {:induction false} NoneMeetingNoneCovering(r: Rect, ls: seq<Rect>, px: int, py: int)
    requires forall l :: l in ls ==> !Meets(r, l)
    requires Covers(r, px, py)
    ensures Count(ls, px, py) == 0
  {
    if ls != [] {
      assert ls[0] in ls;
      NoneMeetingNoneCovering(r, ls[1..], px, py);
    }
  }

  /** One match removes the common part once from each side. */
  lemma MatchCount(ls: seq<Rect>, j: nat, r: Rect, rest: seq<Rect>, px: int, py: int)
    requires j < |ls| && Meets(r, ls[j])
    ensures var common := One(Covers(Intersect(r, ls[j]), px, py));
      && Count(Match(ls, j, r, rest).left, px, py) == Count(ls, px, py) - common
      && Count(Match(ls, j, r, rest).right, px, py) == One(Covers(r, px, py)) + Count(rest, px, py) - common
  {
    var inter := Intersect(r, ls[j]);
    IntersectInside(r, ls[j]);
    PiecesCount(ls[j], inter, px, py);
    PiecesCount(r, inter, px, py);
    CountWithout(ls, j, px, py);
    CountAppend(Without(ls, j), Pieces(ls[j], inter), px, py);
    CountAppend(rest, Pieces(r, inter), px, py);
  }

  lemma TurnCount(ls: seq<Rect>, rs: seq<Rect>, px: int, py: int)
    requires rs != []
    ensures var t := Turn(ls, rs);
      Max(0, Count(t.left, px, py) - Count(t.right, px, py)) == Max(0, Count(ls, px, py) - Count(rs, px, py))
  {
    var j := FirstMeeting(rs[0], ls);
    if j < |ls| {
      MatchCount(ls, j, rs[0], rs[1..], px, py);
    } else if Covers(rs[0], px, py) {
      NoneMeetingNoneCovering(rs[0], ls, px, py);
    }
  }

  lemma NextTurn(ls: seq<Rect>, rs: seq<Rect>, px: int, py: int) returns (l: seq<Rect>, r: seq<Rect>)
    requires rs != []
    ensures Difference(ls, rs) == Difference(l, r) && Turns(l, r) < Turns(ls, rs)
    ensures Max(0, Count(l, px, py) - Count(r, px, py)) == Max(0, Count(ls, px, py) - Count(rs, px, py))
  {
    TurnCount(ls, rs, px, py);
    l, r := Turn(ls, rs).left, Turn(ls, rs).right;
  }

  /** Exact meaning of the subtraction at every point, with no disjointness assumed on either side. */
  lemma {:induction false} DifferenceCount(ls: seq<Rect>, rs: seq<Rect>, px: int, py: int)
    ensures Count(Difference(ls, rs), px, py) == Max(0, Count(ls, px, py) - Count(rs, px, py))
    decreases Turns(ls, rs)
  {
    if rs != [] {
      var l, r := NextTurn(ls, rs, px, py);
      DifferenceCount(l, r, px, py);
    }
  }

  lemma {:induction false} CountPositive(rs: seq<Rect>, px: int, py: int)
    ensures Count(rs, px, py) > 0 <==> exists r :: r in rs && Covers(r, px, py)
  {
    if rs != [] {
      CountPositive(rs[1..], px, py);
      assert forall r :: r in rs <==> r == rs[0] || r in rs[1..];
    }
  }

  /** r is a part of some rectangle of the list, and positive if that one is. */
  ghost predicate PartOf(r: Rect, ls: seq<Rect>) {
    exists l :: l in ls && Inside(r, l) && (Positive(l) ==> Positive(r))
  }

  lemma TurnParts(ls: seq<Rect>, rs: seq<Rect>, r: Rect)
    requires rs != [] && r in Turn(ls, rs).left
    ensures PartOf(r, ls)
  {
    var j := FirstMeeting(rs[0], ls);
    if r in ls {
    } else {
      IntersectInside(rs[0], ls[j]);
      assert r in Pieces(ls[j], Intersect(rs[0], ls[j]));
      PieceInside(ls[j], Intersect(rs[0], ls[j]), r);
    }
  }

  /** Every rectangle left over is a part of one of the rectangles started from. */
  lemma {:induction false} DifferenceParts(ls: seq<Rect>, rs: seq<Rect>, r: Rect)
    requires r in Difference(ls, rs)
    ensures PartOf(r, ls)
    decreases Turns(ls, rs)
  {
    if rs != [] {
      var t := Turn(ls, rs);
      DifferenceParts(t.left, t.right, r);
      var m :| m in t.left && Inside(r, m) && (Positive(m) ==> Positive(r));
      TurnParts(ls, rs, m);
    }
  }

  lemma PieceInside(rect: Rect, inner: Rect, p: Rect)
    requires Positive(inner) && Inside(inner, rect) && p in Pieces(rect, inner)
    ensures Inside(p, rect) && Positive(p)
  {}

  lemma DifferencePositive(ls: seq<Rect>, rs: seq<Rect>)
    requires AllPositive(ls)
    ensures AllPositive(Difference(ls, rs))
  {
    forall r | r in Difference(ls, rs) ensures Positive(r) { DifferenceParts(ls, rs, r); }
  }

  lemma {:induction false} DisjointCount(rs: seq<Rect>, px: int, py: int)
    requires PairwiseDisjoint(rs)
    ensures Count(rs, px, py) <= 1
  {
    if rs != [] {
      var rest := rs[1..];
      assert PairwiseDisjoint(rest) by {
        forall i, j | 0 <= i < j < |rest| ensures !Meets(rest[i], rest[j]) {
          assert rest[i] == rs[i + 1] && rest[j] == rs[j + 1];
        }
      }
      DisjointCount(rest, px, py);
      if Covers(rs[0], px, py) {
        forall l | l in rest ensures !Meets(rs[0], l) {
          var k :| 0 <= k < |rest| && rest[k] == l;
          assert rs[k + 1] == l;
        }
        NoneMeetingNoneCovering(rs[0], rest, px, py);
      }
    }
  }

  lemma {:induction false} MeetingCountsTwo(rs: seq<Rect>, i: nat, j: nat)
    requires i < j < |rs| && Meets(rs[i], rs[j])
    ensures var c := Intersect(rs[i], rs[j]); Count(rs, c.x, c.y) >= 2
  {
    var c := Intersect(rs[i], rs[j]);
    CountWithout(rs, i, c.x, c.y);
    var rest := Without(rs, i);
    assert rest[j - 1] == rs[j];
    CountWithout(rest, j - 1, c.x, c.y);
  }

  ghost predicate AtMostOnce(rs: seq<Rect>) { forall px, py :: Count(rs, px, py) <= 1 }

  /** Disjointness, in terms of points. */
  lemma DisjointMeansAtMostOne(rs: seq<Rect>)
    ensures PairwiseDisjoint(rs) <==> AtMostOnce(rs)
  {
    if PairwiseDisjoint(rs) {
      forall px, py ensures Count(rs, px, py) <= 1 { DisjointCount(rs, px, py); }
    } else {
      var i, j :| 0 <= i < j < |rs| && Meets(rs[i], rs[j]);
      MeetingCountsTwo(rs, i, j);
    }
  }

  // ----- operator - -----

  /** Bounding box of the list taken together with the origin, as operator- accumulates it. */
  function Extent(rs: seq<Rect>, acc: Rect): Rect {
    if rs == [] then acc
    else
      var r := rs[|rs| - 1];
      var e := Extent(rs[..|rs| - 1], acc);
      Rect(Min(e.x, r.x), Min(e.y, r.y), Max(e.w, r.x + r.w), Max(e.h, r.y + r.h))
  }

  lemma ExtentStep(rs: seq<Rect>, i: nat)
    requires i < |rs|
    ensures var r := rs[i];
      var e := Extent(rs[..i], Rect(0, 0, 0, 0));
      Extent(rs[..i + 1], Rect(0, 0, 0, 0))
      == Rect(Min(e.x, r.x), Min(e.y, r.y), Max(e.w, r.x + r.w), Max(e.h, r.y + r.h))
  {
    assert rs[..i + 1][..i] == rs[..i];
  }

  function OriginBox(rs: seq<Rect>): Rect {
    var e := Extent(rs, Rect(0, 0, 0, 0));
    Rect(e.x, e.y, e.w - e.x, e.h - e.y)
  }

  ghost predicate Fills(rs: seq<Rect>, box: Rect) {
    forall px, py :: Covers(box, px, py) ==> Count(rs, px, py) > 0
  }

  /** One box for a remainder that fills its (positive) box, the remainder itself otherwise. */
  ghost function Coalesce(rest: seq<Rect>): seq<Rect> {
    var box := OriginBox(rest);
    if Positive(box) && Fills(rest, box) then [box] else rest
  }

  /** What operator- promises: the surplus of the left list, coalesced. */
  ghost function Minus(ls: seq<Rect>, rs: seq<Rect>): seq<Rect> {
    Coalesce(Difference(ls, rs))
  }

  lemma {:induction false} OriginBoxEncloses(rs: seq<Rect>)
    ensures forall r :: r in rs ==> Inside(r, OriginBox(rs))
    ensures OriginBox(rs).x <= 0 <= OriginBox(rs).x + OriginBox(rs).w
    ensures OriginBox(rs).y <= 0 <= OriginBox(rs).y + OriginBox(rs).h
  {
    if rs != [] {
      OriginBoxEncloses(rs[..|rs| - 1]);
      assert forall r :: r in rs <==> r == rs[|rs| - 1] || r in rs[..|rs| - 1];
    }
  }

  /** OriginBox is the least rectangle around the origin and the list. */
  lemma {:induction false} OriginBoxLeast(rs: seq<Rect>, box: Rect)
    requires forall r :: r in rs ==> Inside(r, box)
    requires box.x <= 0 <= box.x + box.w && box.y <= 0 <= box.y + box.h
    ensures Inside(OriginBox(rs), box)
  {
    if rs != [] {
      assert rs[|rs| - 1] in rs;
      OriginBoxLeast(rs[..|rs| - 1], box);
    }
  }

  lemma OriginBoxOfBox(box: Rect)
    requires box.x <= 0 <= box.x + box.w && box.y <= 0 <= box.y + box.h
    ensures OriginBox([box]) == box
  {
    assert [box][..0] == [];
    assert Extent([box], Rect(0, 0, 0, 0)) == Rect(box.x, box.y, box.x + box.w, box.y + box.h);
  }

  ghost predicate Dominates(rs: seq<Rect>, ls: seq<Rect>) {
    forall px, py :: Count(ls, px, py) <= Count(rs, px, py)
  }

  lemma CountOne(box: Rect, px: int, py: int)
    ensures Count([box], px, py) == One(Covers(box, px, py))
  {
    assert [box][1..] == [];
  }

  lemma DominatesOne(rs: seq<Rect>, box: Rect)
    ensures Dominates(rs, [box]) <==> Fills(rs, box)
  {
    forall px, py ensures Count([box], px, py) == One(Covers(box, px, py)) { CountOne(box, px, py); }
  }

  /** rest holds, at every point, the surplus of ls over rs. */
  ghost predicate Residue(ls: seq<Rect>, rs: seq<Rect>, rest: seq<Rect>) {
    forall px, py :: Count(rest, px, py) == Max(0, Count(ls, px, py) - Count(rs, px, py))
  }

  lemma DifferenceIsResidue(ls: seq<Rect>, rs: seq<Rect>)
    ensures Residue(ls, rs, Difference(ls, rs))
    ensures AllPositive(ls) ==> AllPositive(Difference(ls, rs))
  {
    forall px, py
      ensures Count(Difference(ls, rs), px, py) == Max(0, Count(ls, px, py) - Count(rs, px, py))
    {
      DifferenceCount(ls, rs, px, py);
    }
    if AllPositive(ls) {
      DifferencePositive(ls, rs);
    }
  }

  lemma HeadCounts(rs: seq<Rect>)
    requires rs != [] && AllPositive(rs)
    ensures Count(rs, rs[0].x, rs[0].y) > 0
  {
    assert rs[0] in rs;
  }

  /** Nothing is left over exactly when the right list covers every point at least as often as the left one. */
  lemma EmptyMeansDominates(ls: seq<Rect>, rs: seq<Rect>, rest: seq<Rect>)
    requires Residue(ls, rs, rest) && AllPositive(rest)
    ensures rest == [] <==> Dominates(rs, ls)
  {
    if rest == [] {
      forall px, py ensures Count(ls, px, py) <= Count(rs, px, py) {
        assert Count(rest, px, py) == 0;
      }
    } else {
      var x, y := rest[0].x, rest[0].y;
      HeadCounts(rest);
      assert Count(ls, x, y) > Count(rs, x, y);
    }
  }

  /** The emptiness test of operator- decides, for every remainder, whether it fills its box. */
  lemma EmptinessTest(rest: seq<Rect>, left: seq<Rect>)
    requires left == Difference([OriginBox(rest)], rest)
    ensures left == [] <==> Positive(OriginBox(rest)) && Fills(rest, OriginBox(rest))
  {
    var box := OriginBox(rest);
    if Positive(box) {
      DifferenceIsResidue([box], rest);
      EmptyMeansDominates([box], rest, left);
      DominatesOne(rest, box);
    } else {
      FlatUntouched(box, rest);
    }
  }

  lemma {:induction false} FlatUntouched(box: Rect, rs: seq<Rect>)
    requires !Positive(box)
    ensures Difference([box], rs) == [box]
    decreases |rs|
  {
    if rs != [] {
      assert [box][1..] == [];
      assert FirstMeeting(rs[0], [box]) == 1;
      FlatUntouched(box, rs[1..]);
    }
  }

  lemma BoxPositive(rest: seq<Rect>)
    requires AllPositive(rest) && rest != []
    ensures Positive(OriginBox(rest))
  {
    OriginBoxEncloses(rest);
    assert rest[0] in rest;
  }

  /** Coalescing keeps the points covered, and keeps a point covered once covered once. */
  lemma CoalesceCount(rest: seq<Rect>, px: int, py: int)
    requires AllPositive(rest)
    ensures Count(Coalesce(rest), px, py) > 0 <==> Count(rest, px, py) > 0
    ensures Count(rest, px, py) <= 1 ==> Count(Coalesce(rest), px, py) == Count(rest, px, py)
  {
    OriginBoxEncloses(rest);
    CountPositive(rest, px, py);
    CountOne(OriginBox(rest), px, py);
  }

  /** Point-set meaning of operator-, for any list of positive rectangles on the left. */
  lemma MinusCovers(ls: seq<Rect>, rs: seq<Rect>, px: int, py: int)
    requires AllPositive(ls)
    ensures Count(Minus(ls, rs), px, py) > 0 <==> Count(ls, px, py) > Count(rs, px, py)
  {
    var rest := Difference(ls, rs);
    DifferenceIsResidue(ls, rs);
    CoalesceCount(rest, px, py);
  }

  lemma CoalesceDisjoint(ls: seq<Rect>, rs: seq<Rect>, rest: seq<Rect>)
    requires Residue(ls, rs, rest) && AllPositive(rest) && PairwiseDisjoint(ls)
    ensures forall px, py :: Count(Coalesce(rest), px, py) == One(Count(ls, px, py) > 0 && Count(rs, px, py) == 0)
    ensures PairwiseDisjoint(Coalesce(rest))
  {
    DisjointMeansAtMostOne(ls);
    forall px, py
      ensures Count(Coalesce(rest), px, py) == One(Count(ls, px, py) > 0 && Count(rs, px, py) == 0)
    {
      assert Count(ls, px, py) <= 1;
      CoalesceCount(rest, px, py);
    }
    DisjointMeansAtMostOne(Coalesce(rest));
  }

  /** For a disjoint left operand: exactly the set difference, disjoint again. */
  lemma MinusOfDisjoint(ls: seq<Rect>, rs: seq<Rect>)
    requires AllPositive(ls) && PairwiseDisjoint(ls)
    ensures forall px, py :: Count(Minus(ls, rs), px, py) == One(Count(ls, px, py) > 0 && Count(rs, px, py) == 0)
    ensures PairwiseDisjoint(Minus(ls, rs))
  {
    DifferenceIsResidue(ls, rs);
    CoalesceDisjoint(ls, rs, Difference(ls, rs));
  }

  lemma CoalesceBox(rest: seq<Rect>)
    requires AllPositive(rest) && rest != []
    ensures var res := Coalesce(rest);
      && OriginBox(res) == OriginBox(rest)
      && (res == [OriginBox(res)] <==> Fills(res, OriginBox(res)))
  {
    var box := OriginBox(rest);
    BoxPositive(rest);
    OriginBoxEncloses(rest);
    OriginBoxOfBox(box);
    DominatesOne([box], box);
    assert Dominates([box], [box]);
  }

  /** A non-empty remainder comes back as one box exactly when it fills its bounding box drawn around the origin. */
  lemma MinusCoalesces(ls: seq<Rect>, rs: seq<Rect>)
    requires AllPositive(ls) && Minus(ls, rs) != []
    ensures var res := Minus(ls, rs);
      res == [OriginBox(res)] <==> Fills(res, OriginBox(res))
    ensures OriginBox(Minus(ls, rs)) == OriginBox(Difference(ls, rs))
  {
    DifferenceIsResidue(ls, rs);
    CoalesceBox(Difference(ls, rs));
  }

  // ----- int32_t arithmetic -----

  predicate Int32(v: int) { -0x8000_0000 <= v < 0x8000_0000 }

  /** Edges within 30 bits: what keeps every sum and difference of the source in range. */
  predicate Fits(r: Rect) {
    -0x4000_0000 <= r.x < 0x4000_0000 && -0x4000_0000 <= r.x + r.w < 0x4000_0000 &&
    -0x4000_0000 <= r.y < 0x4000_0000 && -0x4000_0000 <= r.y + r.h < 0x4000_0000
  }

  predicate AllFit(rs: seq<Rect>) { forall r :: r in rs ==> Fits(r) }

  /** No operation of Intersect overflows, nor any of Subtrace when the rectangles meet, and the pieces fit again. */
  lemma NoOverflow(a: Rect, b: Rect)
    requires Fits(a) && Fits(b)
    ensures Int32(a.x + a.w) && Int32(a.y + a.h) && Int32(Intersect(a, b).w) && Int32(Intersect(a, b).h)
    ensures Meets(a, b) ==>
      var i := Intersect(a, b);
      && Int32(i.y - a.y) && Int32(a.y + a.h - i.y) && Int32(a.y + a.h - i.y - i.h)
      && Int32(i.x - a.x) && Int32(a.x + a.w - i.x) && Int32(a.x + a.w - i.x - i.w)
      && AllFit(Pieces(a, i)) && AllFit(Pieces(b, i))
  {
    if Meets(a, b) {
      var i := Intersect(a, b);
      forall p | p in Pieces(a, i) ensures Fits(p) { PieceInside(a, i, p); }
      forall p | p in Pieces(b, i) ensures Fits(p) { PieceInside(b, i, p); }
    }
  }

  // ----- the class -----

  class Rects {
    var rects: seq<Rect>

    constructor (rs: seq<Rect>)
      ensures rects == rs
    {
      rects := rs;
    }

    static method FindMeeting(r: Rect, ls: seq<Rect>) returns (j: nat, inter: Rect)
      ensures j == FirstMeeting(r, ls)
      ensures j < |ls| ==> inter == Intersect(r, ls[j])
    {
      inter := Rect(0, 0, 0, 0);
      j := 0;
      while j < |ls|
        invariant j <= |ls|
        invariant FirstMeeting(r, ls) == j + FirstMeeting(r, ls[j..])
      {
        inter := Intersect(r, ls[j]);
        if inter.w > 0 && inter.h > 0 {
          return;
        }
        assert ls[j..][1..] == ls[j + 1..];
        j := j + 1;
      }
    }

    /** Pushes what is left of rect outside inner onto result. */
    static method Subtrace(rect: Rect, inner: Rect, result: seq<Rect>) returns (pushed: seq<Rect>)
      ensures pushed == result + Pieces(rect, inner)
    {
      pushed := result;
      var topDiff := inner.y - rect.y;
      if topDiff > 0 {
        pushed := pushed + [Rect(rect.x, rect.y, rect.w, topDiff)];
      }
      var bottomDiff := rect.y + rect.h - inner.y - inner.h;
      if bottomDiff > 0 {
        pushed := pushed + [Rect(rect.x, rect.y + rect.h - bottomDiff, rect.w, bottomDiff)];
      }
      var middleYDiff := inner.h;
      if middleYDiff > 0 {
        var leftDiff := inner.x - rect.x;
        if leftDiff > 0 {
          pushed := pushed + [Rect(rect.x, inner.y, leftDiff, middleYDiff)];
        }
        var rightDiff := rect.x + rect.w - inner.x - inner.w;
        if rightDiff > 0 {
          pushed := pushed + [Rect(inner.x + inner.w, inner.y, rightDiff, middleYDiff)];
        }
      }
    }

    /** The worklist loop; terminates on every pair of lists. */
    static method RectsSubtrace(ls: seq<Rect>, rs: seq<Rect>) returns (lrects: seq<Rect>)
      ensures lrects == Difference(ls, rs)
      ensures forall px, py :: Count(lrects, px, py) == Max(0, Count(ls, px, py) - Count(rs, px, py))
    {
      lrects := ls;
      var rrects := rs;
      while rrects != []
        invariant Difference(lrects, rrects) == Difference(ls, rs)
        decreases TotalArea(rrects), |rrects|
      {
        var rrect := rrects[0];
        TurnShrinks(lrects, rrects);
        var j, inter := FindMeeting(rrect, lrects);
        if j == |lrects| {
          rrects := rrects[1..];
        } else {
          rrects := Subtrace(rrect, inter, rrects[1..]);
          lrects := Subtrace(lrects[j], inter, Without(lrects, j));
        }
      }
      forall px, py ensures Count(lrects, px, py) == Max(0, Count(ls, px, py) - Count(rs, px, py)) {
        DifferenceCount(ls, rs, px, py);
      }
    }

    /** The accumulating loop at the head of operator-. */
    static method BoxAroundOrigin(lrects: seq<Rect>) returns (totalRect: Rect)
      ensures totalRect == OriginBox(lrects)
    {
      totalRect := Rect(0, 0, 0, 0);
      var i := 0;
      while i < |lrects|
        invariant i <= |lrects|
        invariant totalRect == Extent(lrects[..i], Rect(0, 0, 0, 0))
      {
        var r := lrects[i];
        ExtentStep(lrects, i);
        totalRect := Rect(Min(totalRect.x, r.x), Min(totalRect.y, r.y),
                          Max(totalRect.w, r.x + r.w), Max(totalRect.h, r.y + r.h));
        i := i + 1;
      }
      assert lrects[..i] == lrects;
      totalRect := totalRect.(w := totalRect.w - totalRect.x, h := totalRect.h - totalRect.y);
    }

    method Subtract(other: Rects) returns (result: Rects)
      ensures fresh(result) && result.rects == Minus(rects, other.rects)
    {
      var lrects := RectsSubtrace(rects, other.rects);
      var totalRect := BoxAroundOrigin(lrects);
      var totalRects := RectsSubtrace([totalRect], lrects);
      EmptinessTest(lrects, totalRects);
      if |totalRects| == 0 {
        lrects := [totalRect];
      }
      result := new Rects(lrects);
    }

    method SubtractInPlace(other: Rects)
      modifies this
      ensures rects == Minus(old(rects), old(other.rects))
    {
      var result := this.Subtract(other);
      rects := result.rects;
    }
  }
}
