/** Runs that end with old pixels on the screen. */
module Witnesses {
  import opened Geometry
  import opened WindowTree
  import opened Orders
  import opened Visibility
  import opened VisibleRects
  import opened Steps
  import opened Visitors
  import opened Backing
  import opened Coherence
  import opened Opening
  import opened Closing
  import opened Moving
  import opened Reordering
  import opened Lifecycle
  import opened Rooted
  import opened Drawing
  import opened Runs
  import opened Borders

  // ----- A state with a stale border -----

  const SCREEN := Rect(0, 0, 100, 100)

  /** On the background lies a window with a border of width 4, and in its upper left corner
      a child of size 3 by 3, which the border hides.  The frame has been drawn on the screen
      (colour 1) but is not in the bitmap yet (colour 0). */
  ghost function Framed4(root: Window, background: Window, up: Window, w: Window): State {
    var t := FramedTree(root, background, up, w);
    var pl := FramedPlaces(root, background, up, w);
    var zero: Picture := (p: Pixel) => 0;
    var one: Picture := (p: Pixel) => 1;
    State(t, pl, map x | x in t :: if x in pl then Build(t, pl, x) else Shown([], true),
          map x | x in t :: Store(if x == up then zero else one, x == up, Rect(0, 0, 0, 0)),
          map x | x in t :: one, one)
  }

  ghost function Four(root: Window, background: Window, up: Window, w: Window): set<Window> {
    {root, background, up, w}
  }

  ghost function FramedTree(root: Window, background: Window, up: Window, w: Window): (t: Tree)
    ensures t.Keys == {root, background, up, w}
  {
    map x | x in Four(root, background, up, w) ::
      if x == root then Node(null, null, null, background, [background], 0)
      else if x == background then Node(null, null, root, up, [up], 1)
      else if x == up then Node(null, null, background, w, [w], 2)
      else Node(null, null, up, null, [], 3)
  }

  ghost function FramedPlaces(root: Window, background: Window, up: Window, w: Window): (pl: Places)
    ensures pl.Keys == {root, background, up, w}
  {
    map x | x in Four(root, background, up, w) ::
      if x == up then Place(Rect(10, 10, 20, 20), Rect(14, 14, 12, 12), Rect(4, 4, 12, 12), true)
      else if x == w then Place(Rect(10, 10, 3, 3), Rect(10, 10, 3, 3), Rect(0, 0, 3, 3), true)
      else Place(SCREEN, SCREEN, SCREEN, true)
  }

  lemma {:induction false} FramedTreeOK(root: Window, background: Window, up: Window, w: Window)
    requires Distinct([root, background, up, w])
    ensures var t := FramedTree(root, background, up, w);
            && TreeOK(t, root, 3) && HasParent(t, background) && HasParent(t, up) && HasParent(t, w) && !HasParent(t, root)
            && LeftOf(t, root) == LeftOf(t, background) == LeftOf(t, up) == LeftOf(t, w) == []
  {
    var t, all := FramedTree(root, background, up, w), [root, background, up, w];
    assert all[0] == root && all[1] == background && all[2] == up && all[3] == w;
    assert KidsOK(t, root, 3) && KidsOK(t, background, 3) && KidsOK(t, up, 3) && KidsOK(t, w, 3);
    assert ParentOK(t, background) && ParentOK(t, up) && ParentOK(t, w);
  }

  /** The window with the border is visible as a whole. */
  lemma {:induction false} FramedVisible(root: Window, background: Window, up: Window, w: Window, p: Pixel)
    requires Distinct([root, background, up, w]) && Rect(10, 10, 20, 20).Has(p)
    ensures Vis(FramedTree(root, background, up, w), FramedPlaces(root, background, up, w), up, p)
  {
    hide Shape;
    var t, pl, all := FramedTree(root, background, up, w), FramedPlaces(root, background, up, w), [root, background, up, w];
    assert all[0] == root && all[1] == background && all[2] == up && all[3] == w;
    FramedTreeOK(root, background, up, w);
    assert AllOpen(t, pl, root) && AllOpen(t, pl, background) && AllOpen(t, pl, up);
    assert Reach(t, pl, root, p) && Reach(t, pl, background, p) && Reach(t, pl, up, p);
  }

  /** Every window is in order, and yet closing `w` would leave the border of its parent wrong,
      and so would moving it away. */
  lemma {:induction false} StaleBorderHappens(root: Window, background: Window, up: Window, w: Window)
    requires Distinct([root, background, up, w])
    ensures var s := Framed4(root, background, up, w);
            && Fine(s, root, background, 3) && AllCoherent(s) && w in s.tree && AllOpen(s.tree, s.place, w)
            && StaleBorder(s, w) && StaleMove(s, w, 50, 50)
  {
    hide Shape, Vis, Build, TreeOK;
    var s, all := Framed4(root, background, up, w), [root, background, up, w];
    assert all[0] == root && all[1] == background && all[2] == up && all[3] == w;
    FramedTreeOK(root, background, up, w);
    FramedPlacesOK(root, background, up, w);
    FramedSound(root, background, up, w);
    FramedCoherent(root, background, up, w);
    assert AllOpen(s.tree, s.place, root) && AllOpen(s.tree, s.place, background) && AllOpen(s.tree, s.place, up);
    assert s.place[up].pos.Has(Pixel(10, 10)) && s.place[w].pos.Has(Pixel(10, 10));
  }

  lemma {:induction false} FramedPlacesOK(root: Window, background: Window, up: Window, w: Window)
    ensures PlacesOK(FramedTree(root, background, up, w), FramedPlaces(root, background, up, w))
  {
    var pl := FramedPlaces(root, background, up, w);
    assert PlaceOK(Place(SCREEN, SCREEN, SCREEN, true));
    assert PlaceOK(Place(Rect(10, 10, 20, 20), Rect(14, 14, 12, 12), Rect(4, 4, 12, 12), true));
    assert PlaceOK(Place(Rect(10, 10, 3, 3), Rect(10, 10, 3, 3), Rect(0, 0, 3, 3), true));
    hide PlaceOK;
    forall x | x in pl ensures PlaceOK(pl[x]) {}
  }

  lemma {:induction false} FramedSound(root: Window, background: Window, up: Window, w: Window)
    requires Distinct([root, background, up, w])
    ensures Fine(Framed4(root, background, up, w), root, background, 3)
  {
    hide Shape, TreeOK, ShownOK, Build;
    var s, all := Framed4(root, background, up, w), [root, background, up, w];
    assert all[0] == root && all[1] == background && all[2] == up && all[3] == w;
    FramedTreeOK(root, background, up, w);
    FramedPlacesOK(root, background, up, w);
    forall x | x in s.tree ensures ShownOK(s.tree, s.place, x, s.shown[x]) { BuildMeaning(s.tree, s.place, x); }
    MakeSound(s, root, 3);
  }

  lemma {:induction false} FramedCoherent(root: Window, background: Window, up: Window, w: Window)
    requires Distinct([root, background, up, w])
    ensures AllCoherent(Framed4(root, background, up, w))
  {
    hide Shape, TreeOK, Build, Vis, Sound;
    var s, all := Framed4(root, background, up, w), [root, background, up, w];
    assert all[0] == root && all[1] == background && all[2] == up && all[3] == w;
    FramedSound(root, background, up, w);
    SoundAt(s, root, 3, up);
    forall p | s.place[up].pos.Has(p) ensures Vis(s.tree, s.place, up, p) { FramedVisible(root, background, up, w, p); }
    forall x | x in s.tree ensures Coherent(s, x) {
      assert s.store[x].isDirty ==> x == up;
    }
  }

  /** There the operations leave old pixels behind. */
  lemma {:induction false} StaleBorderStays(root: Window, background: Window, up: Window, w: Window)
    requires Distinct([root, background, up, w])
    ensures var s := Framed4(root, background, up, w);
            && Usable(s, root, 3, w) && AllCoherent(s)
            && CloseResult(s, root, 3, w).Domains() && !AllCoherent(CloseResult(s, root, 3, w))
            && var free := FreeMove(s.tree, s.place, MovedTo(s.tree, s.place, w, 50, 50), w);
               MoveResult(s, root, 3, w, 50, 50, free).Domains() && !AllCoherent(MoveResult(s, root, 3, w, 50, 50, free))
  {
    hide Fine, TreeOK, Shape, AllCoherent, CloseResult, MoveResult, MovedTo, FreeMove, StaleBorder, AllOpen;
    var s, all := Framed4(root, background, up, w), [root, background, up, w];
    assert all[0] == root && all[2] == up && all[3] == w;
    StaleBorderHappens(root, background, up, w);
    FineUsable(s, root, background, 3, w);
    SpoiledNow(s, root, background, 3, w, 50, 50);
  }

  // ----- A run that ends there -----

  /** A bordered window is created and opened, and in it a borderless child in the corner of
      its border; then the frame is drawn, and the child is closed. */
  ghost function FramedRun(background: Window, up: Window, w: Window, c: Color): seq<Request> {
    [ToCreate(background, 12, 12, true, false, 0), ToOpen(up, 10, 10), ToCreate(up, 3, 3, false, false, 0), ToOpen(w, 10, 10),
     ToDecorate(up, Rect(1, 1, 18, 18), (q, b) => c), ToClose(w)]
  }

  lemma {:induction false} AllFour(root: Window, background: Window, up: Window, w: Window)
    requires Distinct([root, background, up, w])
    ensures root != background && up != root && up != background && w != root && w != background && w != up
  {
    var all := [root, background, up, w];
    assert all[0] == root && all[1] == background && all[2] == up && all[3] == w;
  }

  ghost function OneTree(root: Window, background: Window, up: Window): (t: Tree)
  {
    map[root := Node(null, null, null, background, [background], 0), background := Node(null, null, root, up, [up], 1),
        up := Node(null, null, background, null, [], 2)]
  }

  lemma {:induction false} TreesGrow(root: Window, background: Window, up: Window, w: Window, screen: Picture, copy: Picture)
    requires Distinct([root, background, up, w])
    ensures var t := Initial(root, background, SCREEN, screen, copy).tree;
            background in t && up !in t && t[background].depth == 1 && Planted(t, background, up) == OneTree(root, background, up)
    ensures var t := OneTree(root, background, up);
            up in t && w !in t && t[up].depth == 2 && Planted(t, up, w) == FramedTree(root, background, up, w)
  {
    hide Planted;
    AllFour(root, background, up, w);
    PlantedAlone(Initial(root, background, SCREEN, screen, copy).tree, background, up);
    PlantedAlone(OneTree(root, background, up), up, w);
  }

  /** The first child of a window */
  lemma {:induction false} PlantedAlone(t: Tree, parent: Window, w: Window)
    requires parent in t && w !in t && t[parent].kids == []
    ensures Planted(t, parent, w) == t[parent := t[parent].(kids := [w], childs := w)][w := Node(null, null, parent, null, [], t[parent].depth + 1)]
  {
    assert [w] + [] == [w] && Before([w], w) == [] && After([w], w) == [];
  }

  /** Opening a window that nothing lies below */
  lemma {:induction false} OpenedAlone(t: Tree, pl: Places, w: Window, x: int, y: int)
    requires w in pl && forall v :: v in pl && v != w ==> v in t && w in t && t[v].depth < t[w].depth
    ensures Opened(t, pl, w, x, y) == pl[w := Moved(pl[w], x - pl[w].pos.x0, y - pl[w].pos.y0).(isOpen := true)]
  {
    hide Above, Moved;
    forall v | v in pl && v != w ensures !Above(t, w, v) { if Above(t, w, v) { AboveDepth(t, w, v); } }
  }

  lemma {:induction false} FramedNew()
    ensures NewPlace(12, 12, true, false, 0) == Place(Rect(0, 0, 20, 20), Rect(4, 4, 12, 12), Rect(4, 4, 12, 12), false)
    ensures NewPlace(3, 3, false, false, 0) == Place(Rect(0, 0, 3, 3), Rect(0, 0, 3, 3), Rect(0, 0, 3, 3), false)
  {
  }

  lemma {:induction false} PlacesGrow(root: Window, background: Window, up: Window, w: Window)
    requires Distinct([root, background, up, w])
    ensures var pl0 := map[root := Place(SCREEN, SCREEN, SCREEN, true), background := Place(SCREEN, SCREEN, SCREEN, true)];
            var pl1 := pl0[up := NewPlace(12, 12, true, false, 0)];
            var pl2 := Opened(OneTree(root, background, up), pl1, up, 10, 10);
            var pl3 := pl2[w := NewPlace(3, 3, false, false, 0)];
            Opened(FramedTree(root, background, up, w), pl3, w, 10, 10) == FramedPlaces(root, background, up, w)
  {
    hide Opened, NewPlace, Margins, PlaceOK;
    AllFour(root, background, up, w);
    FramedNew();
    var pl0 := map[root := Place(SCREEN, SCREEN, SCREEN, true), background := Place(SCREEN, SCREEN, SCREEN, true)];
    var pl1 := pl0[up := NewPlace(12, 12, true, false, 0)];
    OpenedAlone(OneTree(root, background, up), pl1, up, 10, 10);
    var pl3 := Opened(OneTree(root, background, up), pl1, up, 10, 10)[w := NewPlace(3, 3, false, false, 0)];
    OpenedAlone(FramedTree(root, background, up, w), pl3, w, 10, 10);
  }

  /** A window is created and opened: what StepTheorem says of these two requests, with the
      tree and the places that they lead to. */
  lemma {:induction false} CreateAndOpen(a: World, root: Window, background: Window, parent: Window, w: Window, width: int, height: int, border: bool, x: int, y: int)
      returns (b: World, c: World)
    requires Fine(a.s, root, background, a.maxDepth) && a.s.Domains() && AllCoherent(a.s) && parent in a.s.tree && w !in a.s.tree
    requires 0 < width && 0 < height
    ensures Step(a, ToCreate(parent, width, height, border, false, 0), b, root, background) && Step(b, ToOpen(w, x, y), c, root, background)
    ensures Fine(c.s, root, background, c.maxDepth) && c.s.Domains() && AllCoherent(c.s) && c.maxDepth == DepthWith(a.s.tree, a.maxDepth, parent)
    ensures c.s.tree == Planted(a.s.tree, parent, w)
    ensures c.s.place == Opened(c.s.tree, a.s.place[w := NewPlace(width, height, border, false, 0)], w, x, y)
    ensures b.s.Domains() && AllCoherent(b.s)
  {
    hide *;
    var place := NewPlace(width, height, border, false, 0);
    b := World(Created(a.s, parent, w, place, (p: Pixel) => 0), DepthWith(a.s.tree, a.maxDepth, parent), a.cache);
    FineParts(a.s, root, background, a.maxDepth);
    CreateReady(a.s, root, background, a.maxDepth, parent, w, place, (p: Pixel) => 0);
    FineParts(b.s, root, background, b.maxDepth);
    StepCreates(a, parent, width, height, border, b, w, root, background);
    TreeParts(a.s.tree, root, a.maxDepth);
    FineUsable(b.s, root, background, b.maxDepth, w);
    OpenKeeps(b.s, root, background, b.maxDepth, w, x, y);
    c := b.(s := OpenResult(b.s, root, b.maxDepth, w, x, y));
    FineParts(c.s, root, background, c.maxDepth);
    StepOpens(b, w, x, y, root, background);
  }

  lemma {:induction false} StepCreates(a: World, parent: Window, width: int, height: int, border: bool, b: World, w: Window, root: Window, background: Window)
    requires 0 < width && 0 < height && a.s.Domains() && parent in a.s.tree && w !in a.s.tree && w in b.s.tree
    requires b == World(Created(a.s, parent, w, NewPlace(width, height, border, false, 0), (p: Pixel) => 0), DepthWith(a.s.tree, a.maxDepth, parent), a.cache)
    ensures Step(a, ToCreate(parent, width, height, border, false, 0), b, root, background)
  {
    hide Created, NewPlace, Creates;
    CreatesIs(a, parent, NewPlace(width, height, border, false, 0), b, w);
  }

  lemma {:induction false} StepOpens(b: World, w: Window, x: int, y: int, root: Window, background: Window)
    requires Usable(b.s, root, b.maxDepth, w) && w in b.s.place && !b.s.place[w].isOpen
    ensures Step(b, ToOpen(w, x, y), b.(s := OpenResult(b.s, root, b.maxDepth, w, x, y)), root, background)
  {
    hide OpenResult, Usable, DoOpen;
    DoOpenIs(b.s, root, b.maxDepth, w, x, y);
  }

  lemma {:induction false} StepDecorates(a: World, w: Window, r: Rect, paint: Paint, root: Window, background: Window)
    requires a.s.Domains() && w in a.s.tree && w in a.s.place && w != root
    ensures Step(a, ToDecorate(w, r, paint), a.(s := Drawn(a.s, w, paint, r, Whole(a.s.place[w]))), root, background)
  {
    hide DoDraw, Drawn;
    DoDrawIs(a.s, root, w, paint, r, Whole(a.s.place[w]));
  }

  lemma {:induction false} StepCloses(a: World, w: Window, root: Window, background: Window)
    requires Usable(a.s, root, a.maxDepth, w) && AllOpen(a.s.tree, a.s.place, w) && w != root && w != background
    ensures Step(a, ToClose(w), a.(s := CloseResult(a.s, root, a.maxDepth, w)), root, background)
  {
    hide CloseResult, Usable, DoClose, AllOpen;
    DoCloseIs(a.s, root, a.maxDepth, w);
  }

  /** Before the frame is drawn, the parent is visible as a whole. */
  lemma {:induction false} FramedReady(s: State, root: Window, background: Window, up: Window, w: Window)
    requires Distinct([root, background, up, w]) && Fine(s, root, background, 3)
    requires s.tree == FramedTree(root, background, up, w) && s.place == FramedPlaces(root, background, up, w)
    ensures s.Domains() && Usable(s, root, 3, w) && AllOpen(s.tree, s.place, w) && w != background && up != root && w != root
    ensures s.tree[w].parent == up && up in s.tree && s.place[up].isOpen && !s.shown[up].hidden
    ensures s.place[up].pos == Rect(10, 10, 20, 20) && s.place[w].pos == Rect(10, 10, 3, 3)
  {
    hide Shape, Vis, TreeOK, Sound;
    var all := [root, background, up, w];
    assert all[0] == root && all[1] == background && all[2] == up && all[3] == w;
    FramedTreeOK(root, background, up, w);
    FineParts(s, root, background, 3);
    FineUsable(s, root, background, 3, w);
    assert AllOpen(s.tree, s.place, root) && AllOpen(s.tree, s.place, background) && AllOpen(s.tree, s.place, up);
    SoundAt(s, root, 3, up);
    forall p | s.place[up].pos.Has(p) ensures Vis(s.tree, s.place, up, p) { FramedVisible(root, background, up, w, p); }
  }

  lemma {:induction false} InitialPlaced(root: Window, background: Window, all: Rect, screen: Picture, copy: Picture)
    ensures Initial(root, background, all, screen, copy).place == map[root := Place(all, all, all, true), background := Place(all, all, all, true)]
    ensures all == SCREEN ==> all.Positive() && all.x0 == 0 && all.y0 == 0
  {
  }

  lemma {:induction false} Depths(t: Tree, maxDepth: nat, parent: Window)
    requires parent in t && t[parent].depth == maxDepth
    ensures DepthWith(t, maxDepth, parent) == maxDepth + 1
  {
  }

  lemma {:induction false} FrameHas(p: Pixel, r: Rect)
    requires p == Pixel(11, 11) && r == Rect(1, 1, 18, 18)
    ensures Rect(10, 10, 20, 20).Has(p) && Rect(10, 10, 3, 3).Has(p) && r.Has(p.Plus(-10, -10))
  {
  }

  lemma {:induction false} FramedRunAt(background: Window, up: Window, w: Window, c: Color)
    ensures FramedRun(background, up, w, c) ==
              [ToCreate(background, 12, 12, true, false, 0), ToOpen(up, 10, 10), ToCreate(up, 3, 3, false, false, 0), ToOpen(w, 10, 10),
               ToDecorate(up, Rect(1, 1, 18, 18), (q, b) => c), ToClose(w)]
  {
  }

  lemma {:induction false} SixSteps(trace: seq<World>, q: seq<Request>, root: Window, background: Window)
    requires |trace| == 7 && |q| == 6 && Step(trace[0], q[0], trace[1], root, background) && Step(trace[1], q[1], trace[2], root, background)
    requires Step(trace[2], q[2], trace[3], root, background) && Step(trace[3], q[3], trace[4], root, background)
    requires Step(trace[4], q[4], trace[5], root, background) && Step(trace[5], q[5], trace[6], root, background)
    ensures IsRun(trace, q, root, background)
  {
    hide Step;
  }

  /** The last step of this run leaves the parent's border wrong on the screen. */
  lemma {:induction false} FramedRunSpoils(root: Window, background: Window, up: Window, w: Window, screen: Picture, copy: Picture)
      returns (c: Color, trace: seq<World>)
    requires Distinct([root, background, up, w]) && forall p :: SCREEN.Has(p) ==> copy(p) == screen(p)
    ensures |trace| == 7 && IsRun(trace, FramedRun(background, up, w, c), root, background)
    ensures trace[0] == World(Initial(root, background, SCREEN, screen, copy), 1, null)
    ensures forall i :: 0 <= i < 6 ==> trace[i].s.Domains() && AllCoherent(trace[i].s)
    ensures trace[6].s.Domains() && !AllCoherent(trace[6].s)
  {
    hide *;
    AllFour(root, background, up, w);
    InitialPlaced(root, background, SCREEN, screen, copy);
    InitialOK(root, background, SCREEN, screen, copy);
    TreesGrow(root, background, up, w, screen, copy);
    PlacesGrow(root, background, up, w);
    var a0 := World(Initial(root, background, SCREEN, screen, copy), 1, null);
    FineParts(a0.s, root, background, 1);
    Depths(a0.s.tree, 1, background);
    Depths(OneTree(root, background, up), 2, up);
    var a1, a2 := CreateAndOpen(a0, root, background, background, up, 12, 12, true, 10, 10);
    var a3, a4 := CreateAndOpen(a2, root, background, up, w, 3, 3, false, 10, 10);
    FramedReady(a4.s, root, background, up, w);
    var p, r := Pixel(11, 11), Rect(1, 1, 18, 18);
    c := BitmapAt(a4.s, up, p) + 1;
    FrameHas(p, r);
    DrawnSpoils(a4.s, root, background, 3, w, r, c, p, 0, 0);
    var a5 := a4.(s := Drawn(a4.s, up, (q, b) => c, r, Whole(a4.s.place[up])));
    var a6 := a5.(s := CloseResult(a5.s, root, 3, w));
    StepDecorates(a4, up, r, (q, b) => c, root, background);
    StepCloses(a5, w, root, background);
    FramedRunAt(background, up, w, c);
    trace := [a0, a1, a2, a3, a4, a5, a6];
    SixSteps(trace, FramedRun(background, up, w, c), root, background);
  }

  // ----- Drawing into the root -----

  /** Right after the start, a client that inverts one pixel of the window with handle 1
      leaves the background incoherent: its bitmap never learns of the change. */
  lemma {:induction false} RootPlotSpoils(root: Window, background: Window, screen: Picture, copy: Picture)
    requires root != background && forall p :: SCREEN.Has(p) ==> copy(p) == screen(p)
    ensures var s := Initial(root, background, SCREEN, screen, copy);
            var q := ToPlot(root, 5, 5, (q, b) => b + 1);
            && AllCoherent(s) && Spoils(World(s, 1, null), q, root, background)
            && forall b :: Step(World(s, 1, null), q, b, root, background) ==> b.s.Domains() && !AllCoherent(b.s)
  {
    hide Fine, AllCoherent, Initial, Step, Spoils;
    var s, q := Initial(root, background, SCREEN, screen, copy), ToPlot(root, 5, 5, (q, b) => b + 1);
    InitialOK(root, background, SCREEN, screen, copy);
    FineParts(s, root, background, 1);
    PlotDefaces(root, background, screen, copy);
    forall b | Step(World(s, 1, null), q, b, root, background) ensures b.s.Domains() && !AllCoherent(b.s) {
      StepTheorem(World(s, 1, null), q, b, root, background);
      FineParts(b.s, root, background, b.maxDepth);
    }
  }

  lemma {:induction false} PlotDefaces(root: Window, background: Window, screen: Picture, copy: Picture)
    requires root != background
    ensures Spoils(World(Initial(root, background, SCREEN, screen, copy), 1, null), ToPlot(root, 5, 5, (q, b) => b + 1), root, background)
  {
    hide Painted;
    var s, p := Initial(root, background, SCREEN, screen, copy), Pixel(5, 5);
    var r := BoxAt(SCREEN, 5, 5, 1, 1);
    PaintedAt(s.screen, (q, b) => b + 1, r, SCREEN, 0, 0, p);
    assert SCREEN in s.shown[background].recs && Covers(s.shown[background].recs, p);
    assert !DirtyOnScreen(s, background).Has(p);
  }
}
