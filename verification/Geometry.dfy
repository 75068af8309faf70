/** Rectangle arithmetic of server/rect.c, given meaning as sets of screen pixels.

    A REC is described by its corner and its size only; the redundant fields x1 and y1
    are not read by any of the functions modelled here.  A REC list is a sequence whose
    first element is the head of the list, so prepending is `[r] + list`. */
module Geometry {

  datatype Pixel = Pixel(x: int, y: int) {
    function Plus(dx: int, dy: int): Pixel { Pixel(x + dx, y + dy) }
  }

  datatype Rect = Rect(x0: int, y0: int, w: int, h: int) {
    function XR(): int { x0 + w }

    function YU(): int { y0 + h }

    /** rect_cont_point */
    predicate Has(p: Pixel) {
      x0 <= p.x < XR() && y0 <= p.y < YU()
    }

    predicate Positive() { 0 < w && 0 < h }

    predicate Proper() { 0 <= w && 0 <= h }

    function Shift(dx: int, dy: int): Rect {
      Rect(x0 + dx, y0 + dy, w, h)
    }
  }

  function Max(a: int, b: int): int { if a > b then a else b }

  function Min(a: int, b: int): int { if a < b then a else b }

  /** rect_cont_rect */
  predicate Contains(outer: Rect, inner: Rect) {
    outer.x0 <= inner.x0 && inner.XR() <= outer.XR() &&
    outer.y0 <= inner.y0 && inner.YU() <= outer.YU()
  }

  /** The common part of two rectangles, as computed by rect_clip and rect_intersect. */
  function Common(a: Rect, b: Rect): Rect {
    var x1, y1 := Max(a.x0, b.x0), Max(a.y0, b.y0);
    Rect(x1, y1, Min(a.XR(), b.XR()) - x1, Min(a.YU(), b.YU()) - y1)
  }

  /** rect_intersect, without the output rectangle */
  predicate Intersects(a: Rect, b: Rect) {
    Common(a, b).Positive()
  }

  // ----- Lists of rectangles -----

  ghost predicate Covers(recs: seq<Rect>, p: Pixel) {
    exists r :: r in recs && r.Has(p)
  }

  ghost predicate AllPositive(recs: seq<Rect>) {
    forall r :: r in recs ==> r.Positive()
  }

  ghost predicate AllProper(recs: seq<Rect>) {
    forall r :: r in recs ==> r.Proper()
  }

  /** No pixel lies in two rectangles of the list. */
  ghost predicate Disjoint(recs: seq<Rect>) {
    forall i, j :: 0 <= i < j < |recs| ==> !Intersects(recs[i], recs[j])
  }

  lemma {:induction false} IntersectsMeaning(a: Rect, b: Rect)
    ensures Intersects(a, b) <==> exists p: Pixel :: a.Has(p) && b.Has(p)
    ensures forall p: Pixel :: Common(a, b).Has(p) <==> a.Has(p) && b.Has(p)
  {
    if Intersects(a, b) {
      var p := Pixel(Common(a, b).x0, Common(a, b).y0);
      assert a.Has(p) && b.Has(p);
    }
  }

  // ----- rect_compare and rect_subtract -----

  /** Position of B's extent relative to A's on the horizontal axis (rect_compare). */
  datatype XRelation = XLL | XLM | XLR | XMM | XMR | XRR

  /** The same on the vertical axis. */
  datatype YRelation = YOO | YOM | YOU | YMM | YMU | YUU

  function Compare(a: Rect, b: Rect): (XRelation, YRelation) {
    (if b.x0 <= a.x0 then
       if b.XR() - 1 < a.x0 then XLL else if b.XR() - 1 < a.XR() - 1 then XLM else XLR
     else if b.x0 <= a.XR() - 1 then
       if b.XR() - 1 < a.XR() - 1 then XMM else XMR
     else XRR,
     if b.y0 <= a.y0 then
       if b.YU() - 1 < a.y0 then YOO else if b.YU() - 1 < a.YU() - 1 then YOM else YOU
     else if b.y0 <= a.YU() - 1 then
       if b.YU() - 1 < a.YU() - 1 then YMM else YMU
     else YUU)
  }

  /** The pieces that rect_subtract adds, in the order of its rect_add calls,
      and the flag it stores in `*cut`. */
  function Pieces(a: Rect, b: Rect): (seq<Rect>, bool) {
    match Compare(a, b)
    case (XMR, YMU) => ([Rect(a.x0, a.y0, a.w, b.y0 - a.y0),
                         Rect(a.x0, b.y0, b.x0 - a.x0, a.YU() - b.y0)], true)
    case (XMR, YOM) => ([Rect(a.x0, a.y0, b.x0 - a.x0, b.YU() - a.y0),
                         Rect(a.x0, b.YU(), a.w, a.YU() - b.YU())], true)
    case (XLM, YOM) => ([Rect(b.XR(), a.y0, a.XR() - b.XR(), b.YU() - a.y0),
                         Rect(a.x0, b.YU(), a.w, a.YU() - b.YU())], true)
    case (XLM, YMU) => ([Rect(a.x0, a.y0, a.w, b.y0 - a.y0),
                         Rect(b.XR(), b.y0, a.XR() - b.XR(), a.YU() - b.y0)], true)
    case (XMR, YMM) => ([Rect(a.x0, a.y0, a.w, b.y0 - a.y0),
                         Rect(a.x0, b.y0, b.x0 - a.x0, b.h),
                         Rect(a.x0, b.YU(), a.w, a.YU() - b.YU())], true)
    case (XMM, YOM) => ([Rect(a.x0, a.y0, b.x0 - a.x0, a.h),
                         Rect(b.x0, b.YU(), b.w, a.YU() - b.YU()),
                         Rect(b.XR(), a.y0, a.XR() - b.XR(), a.h)], true)
    case (XLM, YMM) => ([Rect(a.x0, a.y0, a.w, b.y0 - a.y0),
                         Rect(b.XR(), b.y0, a.XR() - b.XR(), b.h),
                         Rect(a.x0, b.YU(), a.w, a.YU() - b.YU())], true)
    case (XMM, YMU) => ([Rect(a.x0, a.y0, b.x0 - a.x0, a.h),
                         Rect(b.x0, a.y0, b.w, b.y0 - a.y0),
                         Rect(b.XR(), a.y0, a.XR() - b.XR(), a.h)], true)
    case (XMR, YOU) => ([Rect(a.x0, a.y0, b.x0 - a.x0, a.h)], true)
    case (XLR, YOM) => ([Rect(a.x0, b.YU(), a.w, a.YU() - b.YU())], true)
    case (XLM, YOU) => ([Rect(b.XR(), a.y0, a.XR() - b.XR(), a.h)], true)
    case (XLR, YMU) => ([Rect(a.x0, a.y0, a.w, b.y0 - a.y0)], true)
    case (XLR, YMM) => ([Rect(a.x0, a.y0, a.w, b.y0 - a.y0),
                         Rect(a.x0, b.YU(), a.w, a.YU() - b.YU())], true)
    case (XMM, YOU) => ([Rect(a.x0, a.y0, b.x0 - a.x0, a.h),
                         Rect(b.XR(), a.y0, a.XR() - b.XR(), a.h)], true)
    case (XLR, YOU) => ([], true)
    case (XMM, YMM) => ([Rect(a.x0, a.y0, a.w, b.y0 - a.y0),
                         Rect(a.x0, b.y0, b.x0 - a.x0, b.h),
                         Rect(b.XR(), b.y0, a.XR() - b.XR(), b.h),
                         Rect(a.x0, b.YU(), a.w, a.YU() - b.YU())], true)
    case _ => ([a], false)
  }

  /** Prepend the elements of `added`, one after the other, to the list `list`. */
  function Prepend(added: seq<Rect>, list: seq<Rect>): seq<Rect> {
    if added == [] then list else Prepend(added[1..], [added[0]] + list)
  }

  lemma {:induction false} PrependMembers(added: seq<Rect>, list: seq<Rect>)
    ensures forall r :: r in Prepend(added, list) <==> r in added || r in list
  {
    if added != [] {
      PrependMembers(added[1..], [added[0]] + list);
    }
  }

  lemma {:induction false} PrependDisjoint(added: seq<Rect>, list: seq<Rect>)
    requires Disjoint(added) && Disjoint(list)
    requires forall a, r :: a in added && r in list ==> !Intersects(a, r)
    ensures Disjoint(Prepend(added, list))
  {
    if added != [] {
      var list' := [added[0]] + list;
      assert added[0] in added;
      forall a, r | a in added[1..] && r in list' ensures !Intersects(a, r) {
        assert a in added;
        if r == added[0] {
          var i :| 0 <= i < |added[1..]| && added[1..][i] == a;
          assert !Intersects(added[0], added[i + 1]);
        }
      }
      PrependDisjoint(added[1..], list');
    }
  }

  /** rect_subtract (A, B, R, &cut) */
  function Subtract(a: Rect, b: Rect, list: seq<Rect>): (seq<Rect>, bool) {
    var (pieces, cut) := Pieces(a, b);
    (Prepend(pieces, list), cut)
  }

  /** The 16 overlapping cases and the disjoint one, pixel by pixel: the pieces hold
      exactly the pixels of A that are not in B. */
  lemma {:induction false} PiecesMeaning(a: Rect, b: Rect, p: Pixel)
    requires a.Proper() && b.Proper()
    ensures Covers(Pieces(a, b).0, p) <==> a.Has(p) && !b.Has(p)
  {
    var pieces := Pieces(a, b).0;
    assert |pieces| <= 4;
    if a.Has(p) && !b.Has(p) {
      assert exists i :: 0 <= i < |pieces| && pieces[i].Has(p) by {
        if |pieces| > 0 && pieces[0].Has(p) {
        } else if |pieces| > 1 && pieces[1].Has(p) {
        } else if |pieces| > 2 && pieces[2].Has(p) {
        } else {
          assert |pieces| > 3 && pieces[3].Has(p);
        }
      }
    }
  }

  /** The open extents of the two rectangles meet; B may be without pixels. */
  predicate Overlaps(a: Rect, b: Rect) {
    a.x0 < b.XR() && b.x0 < a.XR() && a.y0 < b.YU() && b.y0 < a.YU()
  }

  /** At most four pieces, no two overlapping, all inside A.  When B has pixels none of the
      pieces is empty, and `cut` says whether A and B overlap. */
  lemma {:induction false} PiecesShape(a: Rect, b: Rect)
    requires a.Proper() && b.Proper()
    ensures |Pieces(a, b).0| <= 4 && AllProper(Pieces(a, b).0) && Disjoint(Pieces(a, b).0)
    ensures forall r :: r in Pieces(a, b).0 ==> Contains(a, r)
    ensures a.Positive() && b.Positive() ==> AllPositive(Pieces(a, b).0) && (Pieces(a, b).1 <==> Intersects(a, b))
  {
    PiecesInside(a, b);
    PiecesApart(a, b);
  }

  lemma {:induction false} PiecesInside(a: Rect, b: Rect)
    requires a.Proper() && b.Proper()
    ensures |Pieces(a, b).0| <= 4 && AllProper(Pieces(a, b).0)
    ensures forall r :: r in Pieces(a, b).0 ==> Contains(a, r)
    ensures a.Positive() && b.Positive() ==> AllPositive(Pieces(a, b).0) && (Pieces(a, b).1 <==> Intersects(a, b))
  {
  }

  lemma {:induction false} PiecesApart(a: Rect, b: Rect)
    requires a.Proper() && b.Proper()
    ensures Disjoint(Pieces(a, b).0)
  {
    var pieces := Pieces(a, b).0;
    assert |pieces| <= 4;
    assert |pieces| > 1 ==> !Intersects(pieces[0], pieces[1]);
    assert |pieces| > 2 ==> !Intersects(pieces[0], pieces[2]) && !Intersects(pieces[1], pieces[2]);
    assert |pieces| > 3 ==> !Intersects(pieces[0], pieces[3]) && !Intersects(pieces[1], pieces[3]) && !Intersects(pieces[2], pieces[3]);
    hide Pieces, Intersects;
  }

  /** Whatever B is, `cut` says whether the open extents meet, and otherwise A stays as it is. */
  lemma {:induction false} PiecesCut(a: Rect, b: Rect)
    requires a.Positive() && b.Proper()
    ensures Pieces(a, b).1 <==> Overlaps(a, b)
    ensures !Overlaps(a, b) ==> Pieces(a, b).0 == [a]
  {
  }

  /** The flag `cut` is wrong in exactly one situation: B has no pixels and lies inside A's
      open extent.  Then a cut is reported although nothing is removed. */
  lemma {:induction false} CutIsExact(a: Rect, b: Rect)
    requires a.Positive() && b.Proper()
    ensures (Pieces(a, b).1 <==> exists p :: a.Has(p) && b.Has(p)) <==> b.Positive() || !Overlaps(a, b)
  {
    IntersectsMeaning(a, b);
  }

  /** rect_clip (A, B, R, &cut) */
  function Clip(a: Rect, b: Rect, list: seq<Rect>): (seq<Rect>, bool) {
    var r := Common(a, b);
    if r.Positive() then ([r] + list, r != a) else (list, true)
  }

  // ----- rect_list_subtract and rect_list_clip -----

  /** The two list operations differ only in what they do with one rectangle. */
  datatype Cutter = Without(b: Rect) | Within(b: Rect) {
    ghost predicate Keeps(p: Pixel) {
      match this
      case Without(b) => !b.Has(p)
      case Within(b) => b.Has(p)
    }

    function One(a: Rect, list: seq<Rect>): (seq<Rect>, bool) {
      match this
      case Without(b) => Subtract(a, b, list)
      case Within(b) => Clip(a, b, list)
    }

    /** The loop over the list A: what has been produced so far is `done`. */
    function All(list: seq<Rect>, done: seq<Rect>, cut: bool): (seq<Rect>, bool)
      decreases list
    {
      if list == [] then (done, cut)
      else var (done', c) := One(list[0], done); All(list[1..], done', cut || c)
    }
  }

  /** rect_list_subtract (A, B, 1, &cut) */
  method ListSubtract(list: seq<Rect>, b: Rect) returns (recs: seq<Rect>, cut: bool)
    ensures (recs, cut) == Without(b).All(list, [], false)
  {
    recs, cut := [], false;
    var i := 0;
    while i < |list|
      invariant 0 <= i <= |list|
      invariant Without(b).All(list[i..], recs, cut) == Without(b).All(list, [], false)
    {
      var (r, c) := Subtract(list[i], b, recs);
      assert list[i..][1..] == list[i + 1..];
      recs, cut, i := r, cut || c, i + 1;
    }
  }

  /** rect_list_clip (A, B, 1, &cut) */
  method ListClip(list: seq<Rect>, b: Rect) returns (recs: seq<Rect>, cut: bool)
    ensures (recs, cut) == Within(b).All(list, [], false)
  {
    recs, cut := [], false;
    var i := 0;
    while i < |list|
      invariant 0 <= i <= |list|
      invariant Within(b).All(list[i..], recs, cut) == Within(b).All(list, [], false)
    {
      var (r, c) := Clip(list[i], b, recs);
      assert list[i..][1..] == list[i + 1..];
      recs, cut, i := r, cut || c, i + 1;
    }
  }

  /** One rectangle, either operation: exactly the kept pixels are added, as disjoint
      rectangles inside A.  If all have pixels, so have the added ones, and `cut` says whether a
      pixel of A was lost. */
  lemma {:induction false} OneMeaning(c: Cutter, a: Rect, list: seq<Rect>)
    requires a.Proper() && c.b.Proper() && AllProper(list) && Disjoint(list)
    requires forall r :: r in list ==> !Intersects(a, r)
    ensures AllProper(c.One(a, list).0) && Disjoint(c.One(a, list).0)
    ensures forall p :: Covers(c.One(a, list).0, p) <==> Covers(list, p) || (a.Has(p) && c.Keeps(p))
    ensures forall r :: r in c.One(a, list).0 ==> r in list || Contains(a, r)
    ensures a.Positive() && c.b.Positive() ==> (c.One(a, list).1 <==> exists p :: a.Has(p) && !c.Keeps(p))
    ensures a.Positive() && c.b.Positive() && AllPositive(list) ==> AllPositive(c.One(a, list).0)
  {
    match c
    case Without(b) =>
      var pieces := Pieces(a, b).0;
      PrependMembers(pieces, list);
      PiecesShape(a, b);
      PrependDisjoint(pieces, list);
      IntersectsMeaning(a, b);
      forall p ensures Covers(c.One(a, list).0, p) <==> Covers(list, p) || (a.Has(p) && c.Keeps(p)) {
        PiecesMeaning(a, b, p);
      }
      assert (exists p :: a.Has(p) && b.Has(p)) <==> exists p :: a.Has(p) && !c.Keeps(p) by {
        if p :| a.Has(p) && b.Has(p) { assert !c.Keeps(p); }
        if p :| a.Has(p) && !c.Keeps(p) { assert b.Has(p); }
      }
    case Within(b) =>
      ClipMeaning(a, b, list);
  }

  lemma {:induction false} ClipMeaning(a: Rect, b: Rect, list: seq<Rect>)
    requires a.Proper() && b.Proper() && AllProper(list) && Disjoint(list)
    requires forall r :: r in list ==> !Intersects(a, r)
    ensures var (recs, cut) := Clip(a, b, list);
            && AllProper(recs) && Disjoint(recs) && (AllPositive(list) ==> AllPositive(recs))
            && (forall p :: Covers(recs, p) <==> Covers(list, p) || (a.Has(p) && b.Has(p)))
            && (a.Positive() ==> (cut <==> exists p :: a.Has(p) && !b.Has(p)))
            && (forall r :: r in recs ==> r in list || Contains(a, r))
  {
    ClipPixels(a, b, list);
    hide Covers, Rect.Has;
    var (recs, cut) := Clip(a, b, list);
    var r := Common(a, b);
    if r.Positive() {
      assert recs == [r] + list;
      forall s | s in list ensures !Intersects(r, s) { ContainedApart(a, r, s); }
      assert forall i :: 1 <= i < |recs| ==> recs[i] == list[i - 1] && recs[i] in list;
    }
  }

  lemma {:induction false} ClipPixels(a: Rect, b: Rect, list: seq<Rect>)
    ensures var (recs, cut) := Clip(a, b, list);
            && (forall p :: Covers(recs, p) <==> Covers(list, p) || (a.Has(p) && b.Has(p)))
            && (a.Positive() ==> (cut <==> exists p :: a.Has(p) && !b.Has(p)))
  {
    IntersectsMeaning(a, b);
    var (recs, cut) := Clip(a, b, list);
    if cut && a.Positive() { LostCorner(a, b); }
    if Common(a, b).Positive() {
      assert recs == [Common(a, b)] + list;
      forall p ensures Covers(recs, p) <==> Common(a, b).Has(p) || Covers(list, p) { CoversCons(recs, p); }
    }
  }

  lemma {:induction false} LostCorner(a: Rect, b: Rect)
    requires a.Positive() && Common(a, b) != a
    ensures exists p :: a.Has(p) && !b.Has(p)
  {
    var p0, p1 := Pixel(a.x0, a.y0), Pixel(a.XR() - 1, a.YU() - 1);
    assert a.Has(p0) && a.Has(p1);
    assert !b.Has(p0) || !b.Has(p1);
  }

  /** A whole list, either operation. */
  lemma {:induction false} AllMeaning(c: Cutter, list: seq<Rect>, done: seq<Rect>, cut: bool)
    requires c.b.Proper() && AllProper(list + done) && Disjoint(list + done)
    ensures AllProper(c.All(list, done, cut).0) && Disjoint(c.All(list, done, cut).0)
    ensures forall p :: Covers(c.All(list, done, cut).0, p) <==> Covers(done, p) || (Covers(list, p) && c.Keeps(p))
    ensures c.b.Positive() && AllPositive(list + done) ==>
              AllPositive(c.All(list, done, cut).0) && (c.All(list, done, cut).1 <==> cut || exists p :: Covers(list, p) && !c.Keeps(p))
    decreases list
  {
    if list == [] {
      assert list + done == done;
    } else {
      var a, rest := list[0], list[1..];
      var (done', c1) := c.One(a, done);
      assert [a] + rest + done == list + done;
      AllSplit(a, rest, done);
      OneMeaning(c, a, done);
      forall r, s | r in rest && s in done' ensures !Intersects(r, s) {
        if s !in done { ContainedApart(a, s, r); }
      }
      AllJoin(rest, done');
      AllMeaning(c, rest, done', cut || c1);
      forall p ensures Covers(list, p) <==> a.Has(p) || Covers(rest, p) { CoversCons(list, p); }
    }
  }

  lemma {:induction false} CoversCons(list: seq<Rect>, p: Pixel)
    requires list != []
    ensures Covers(list, p) <==> list[0].Has(p) || Covers(list[1..], p)
  {
    if Covers(list, p) {
      var r :| r in list && r.Has(p);
      assert r == list[0] || r in list[1..];
    }
  }

  lemma {:induction false} ContainedApart(a: Rect, s: Rect, r: Rect)
    requires Contains(a, s) && !Intersects(a, r)
    ensures !Intersects(r, s)
  {
  }

  lemma {:induction false} AllSplit(a: Rect, rest: seq<Rect>, done: seq<Rect>)
    requires AllProper([a] + rest + done) && Disjoint([a] + rest + done)
    ensures a.Proper() && AllProper(rest) && AllProper(done) && Disjoint(rest) && Disjoint(done)
    ensures AllPositive([a] + rest + done) ==> a.Positive() && AllPositive(rest) && AllPositive(done)
    ensures forall r :: r in rest || r in done ==> !Intersects(a, r)
    ensures forall r, s :: r in rest && s in done ==> !Intersects(r, s)
  {
    var all := [a] + rest + done;
    var n := 1 + |rest|;
    assert all[0] == a;
    assert forall i :: 0 <= i < |rest| ==> rest[i] == all[i + 1];
    assert forall i :: 0 <= i < |done| ==> done[i] == all[i + n];
  }

  lemma {:induction false} AllJoin(rest: seq<Rect>, done: seq<Rect>)
    requires AllProper(rest) && AllProper(done) && Disjoint(rest) && Disjoint(done)
    requires forall r, s :: r in rest && s in done ==> !Intersects(r, s)
    ensures AllProper(rest + done) && Disjoint(rest + done)
    ensures AllPositive(rest) && AllPositive(done) ==> AllPositive(rest + done)
  {
  }
}
