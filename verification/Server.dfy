/** The window manager itself: the operations of server/window.c. */
module Server {
  import opened Geometry
  import opened WindowTree
  import opened Orders
  import opened Visibility
  import opened VisibleRects
  import opened Changes
  import opened Steps
  import opened Visitors
  import opened Coherence
  import opened Phases
  import opened Opening
  import opened Closing
  import opened Moving
  import opened Linking
  import opened Restacking
  import opened Reordering
  import opened Drawing
  import opened Finding
  import opened Lifecycle
  import opened Runs
  import opened Borders
  import opened Effects
  import opened Killing
  import opened Rooted

  class Server {
    const root: Window          // glob_rootwindow
    const background: Window    // glob_backgroundwin
    var findCache: Window?      // window_find_cache
    var links: map<Window, Links>
    var place: Places           // pos, work, area[AREA_WORK], is_open
    var shown: map<Window, Shown>
    var store: map<Window, Store>
    var screen: Picture         // glob_screen->bm
    ghost var tree: Tree        // the links and the shape they have
    ghost var content: map<Window, Picture>
    ghost var maxDepth: nat

    ghost function Now(): State
      reads `tree, `place, `shown, `store, `content, `screen
    {
      State(tree, place, shown, store, content, screen)
    }

    /** The links are those of a well-formed tree. */
    ghost predicate Linked()
      reads `links, `tree, `maxDepth
    {
      && LinksAre(links, tree)
      && TreeOK(tree, root, maxDepth) && Shape(tree, maxDepth)
    }

    /** The invariant of the window manager. */
    ghost predicate Valid()
      reads this
    {
      Linked() && Fine(Now(), root, background, maxDepth) && (findCache != null ==> findCache in tree)
    }

    /** window_init: the root and, covering it, the background window. */
    constructor (width: int, height: int, initial: Picture, blank: Picture)
      requires 0 < width && 0 < height
      ensures Valid() && AllCoherent(Now()) && Flat(tree, place, background) && fresh(root) && fresh(background)
      ensures var all := Rect(0, 0, width, height);
              Now() == Initial(root, background, all, initial, BitBlk(initial, all, blank, 0, 0)) && maxDepth == 1
      ensures Starts(Now(), root, background, width, height, initial) && findCache == null
    {
      var all := Rect(0, 0, width, height);
      var r := new Window();
      var b := new Window();
      root, background, findCache := r, b, null;
      links := map[r := Links(null, null, null, b), b := Links(null, null, r, null)];
      place := map[r := Place(all, all, all, true), b := Place(all, all, all, true)];
      shown := map[r := Shown([], true), b := Shown([all], false)];
      var copy := BitBlk(initial, all, blank, 0, 0);
      store := map[r := Store(initial, false, Rect(0, 0, 0, 0)), b := Store(copy, false, Rect(0, 0, 0, 0))];
      screen := initial;
      tree := Initial(r, b, all, initial, copy).tree;
      content := Initial(r, b, all, initial, copy).content;
      maxDepth := 1;
      new;
      hide Fine, TreeOK, Shape, AllCoherent;
      BackgroundCopy(initial, all, blank);
      InitialOK(r, b, all, initial, copy);
      assert Now() == Initial(r, b, all, initial, copy);
      FineParts(Now(), root, background, maxDepth);
      InitialFlat(r, b, all, initial, copy);
      InitialStarts(r, b, width, height, initial, blank);
      MakeLinked();
      MakeValid();
    }

    // ----- Building rectangle lists -----

    /** window_build_recs for an open window; allocation always succeeds. */
    method BuildRecs(w: Window)
      requires w in tree && Linked() && Now().Domains() && place[w].isOpen
      modifies `shown
      ensures shown == old(shown)[w := Build(tree, place, w)]
    {
      var above := AncestorsOpen(w);
      if above {
        var recs, hidden := BuildShown(w);
        shown := shown[w := Shown(recs, hidden)];
      } else {
        shown := shown[w := Shown([], true)];
      }
    }

    /** The first loop of window_build_recs: no ancestor is closed. */
    method AncestorsOpen(w: Window) returns (open: bool)
      requires w in tree && Linked() && Now().Domains()
      ensures open <==> !HasParent(tree, w) || AllOpen(tree, place, tree[w].parent)
    {
      var wp := links[w].parent;
      assert wp != null ==> ParentOK(tree, w) && KidsOK(tree, wp, maxDepth);
      while wp != null
        invariant wp != null ==> wp in tree
        invariant (!HasParent(tree, w) || AllOpen(tree, place, tree[w].parent)) <==> (wp == null || AllOpen(tree, place, wp))
        decreases if wp == null then 0 else tree[wp].depth + 1
      {
        assert links[wp].parent != null ==> ParentOK(tree, wp) && KidsOK(tree, links[wp].parent, maxDepth);
        if !place[wp].isOpen {
          return false;
        }
        wp := links[wp].parent;
      }
      return true;
    }

    /** The rest of window_build_recs: walk up, then subtract the children. */
    method BuildShown(w: Window) returns (recs: seq<Rect>, hidden: bool)
      requires w in tree && Linked() && Now().Domains()
      ensures Shown(recs, hidden) ==
              SubtractKids(place, tree[w].kids, place[w].work, WalkUp(tree, place, w, Shown([place[w].pos], false)))
    {
      ghost var goal := WalkUp(tree, place, w, Shown([place[w].pos], false));
      recs, hidden := [place[w].pos], false;
      var wp := w;
      while true
        invariant wp in tree
        invariant WalkUp(tree, place, wp, Shown(recs, hidden)) == goal
        decreases tree[wp].depth
      {
        recs, hidden := LeftSubtracted(wp, recs, hidden);
        var up := links[wp].parent;
        if up == null {
          break;
        }
        assert ParentOK(tree, wp) && KidsOK(tree, up, maxDepth);
        if place[up].isOpen {
          var cut;
          recs, cut := ListClip(recs, place[up].work);
          hidden := hidden || cut;
        }
        wp := up;
      }
      recs, hidden := KidsSubtracted(w, recs, hidden);
    }

    /** Subtract the open windows on top of `w`, nearest first. */
    method LeftSubtracted(w: Window, recs0: seq<Rect>, hidden0: bool) returns (recs: seq<Rect>, hidden: bool)
      requires w in tree && Linked() && Now().Domains()
      ensures Shown(recs, hidden) == SubtractLeft(place, LeftOf(tree, w), Shown(recs0, hidden0))
    {
      hide TreeOK, Shape, LeftOf;
      recs, hidden := recs0, hidden0;
      var wp := w;
      SiblingLinks(tree, maxDepth, root, w);
      while links[wp].prev != null
        invariant wp in tree
        invariant SubtractLeft(place, LeftOf(tree, wp), Shown(recs, hidden)) == SubtractLeft(place, LeftOf(tree, w), Shown(recs0, hidden0))
        invariant links[wp].prev == (if LeftOf(tree, wp) == [] then null else LeftOf(tree, wp)[|LeftOf(tree, wp)| - 1])
        decreases |LeftOf(tree, wp)|
      {
        StepLeft(tree, maxDepth, root, wp);
        wp := links[wp].prev;
        if place[wp].isOpen {
          var cut;
          recs, cut := ListSubtract(recs, place[wp].pos);
          hidden := hidden || cut;
        }
      }
    }

    /** Subtract the open children of `w`, clipped to its working area. */
    method KidsSubtracted(w: Window, recs0: seq<Rect>, hidden0: bool) returns (recs: seq<Rect>, hidden: bool)
      requires w in tree && Linked() && Now().Domains()
      ensures Shown(recs, hidden) == SubtractKids(place, tree[w].kids, place[w].work, Shown(recs0, hidden0))
    {
      ghost var kids, work := tree[w].kids, place[w].work;
      recs, hidden := recs0, hidden0;
      var wp := links[w].childs;
      ghost var i := 0;
      assert KidsOK(tree, w, maxDepth);
      while wp != null
        invariant 0 <= i <= |kids| && wp == (if i < |kids| then kids[i] else null)
        invariant SubtractKids(place, kids[i..], work, Shown(recs, hidden)) == SubtractKids(place, kids, work, Shown(recs0, hidden0))
        decreases |kids| - i
      {
        assert kids[i] in kids && wp in tree && wp == kids[i];
        assert kids[i..][0] == wp && kids[i..][1..] == kids[i + 1..];
        if place[wp].isOpen && Intersects(place[wp].pos, place[w].work) {
          var cut;
          recs, cut := ListSubtract(recs, Common(place[wp].pos, place[w].work));
          hidden := hidden || cut;
        }
        assert tree[kids[i]].next == links[wp].next;
        wp := links[wp].next;
        i := i + 1;
      }
    }

    // ----- Saving and redrawing -----

    /** Save the visible rectangles of `w` with real_window_save.  It is never called for the
        root, whose `save` is a null pointer. */
    method SavedBitmap(w: Window) returns (bitmap: Picture)
      requires w in tree && Now().Domains() && (w == root ==> shown[w].recs == [])
      ensures bitmap == SaveRecs(screen, store[w].bitmap, place[w].pos, shown[w].recs)
    {
      var recs, pos := shown[w].recs, place[w].pos;
      bitmap := store[w].bitmap;
      var i := 0;
      while i < |recs|
        invariant 0 <= i <= |recs|
        invariant bitmap == SaveRecs(screen, store[w].bitmap, pos, recs[..i])
      {
        assert w != root;
        assert recs[..i + 1][..i] == recs[..i];
        bitmap := BitBlk(screen, recs[i], bitmap, recs[i].x0 - pos.x0, recs[i].y0 - pos.y0);
        i := i + 1;
      }
      assert recs[..|recs|] == recs;
    }

    /** real_window_redraw.  The root's `redraw` is a null pointer. */
    method RealRedraw(w: Window, r: Rect)
      requires w in tree && Now().Domains() && w != root
      modifies `screen
      ensures screen == RedrawRect(old(screen), store[w].bitmap, place[w].pos, r)
    {
      var pos := place[w].pos;
      screen := BitBlk(store[w].bitmap, Rect(r.x0 - pos.x0, r.y0 - pos.y0, r.w, r.h), screen, r.x0, r.y0);
    }

    /** window_save_contents */
    method SaveWindow(w: Window, r: Rect)
      requires w in tree && Linked() && RootBare(Now(), root)
      modifies `store
      ensures Now() == Save(old(Now()), w, r)
    {
      hide Linked, SaveRecs;
      if !place[w].isOpen || !store[w].isDirty || shown[w].hidden {
        store := store[w := store[w].(isDirty := false)];
      } else if Intersects(place[w].pos, r) {
        var bitmap := SavedBitmap(w);
        store := store[w := store[w].(isDirty := false, bitmap := bitmap)];
      }
    }

    /** The loop over vis_recs in window_redraw_contents_rect, for one rectangle. */
    method RedrawInside(w: Window, r: Rect)
      requires w in tree && Linked() && RootBare(Now(), root)
      modifies `screen
      ensures screen == RedrawRecs(old(screen), store[w].bitmap, place[w].pos, shown[w].recs, r)
    {
      hide Linked, RedrawRect;
      var recs, i := shown[w].recs, 0;
      while i < |recs|
        invariant 0 <= i <= |recs|
        invariant screen == RedrawRecs(old(screen), store[w].bitmap, place[w].pos, recs[..i], r)
      {
        if Intersects(recs[i], r) {
          RealRedraw(w, Common(recs[i], r));
        }
        assert recs[..i + 1][..i] == recs[..i];
        i := i + 1;
      }
      assert recs[..|recs|] == recs;
    }

    /** window_redraw_contents_rect */
    method RedrawWindow(w: Window, rs: seq<Rect>)
      requires w in tree && Linked() && RootBare(Now(), root)
      modifies `screen, `store
      ensures Now() == Redraw(old(Now()), w, rs)
    {
      hide Linked, RedrawRecs, RedrawList, Flush;
      if !place[w].isOpen {
        return;
      }
      FlushWindow(w);
      RedrawRects(w, rs);
    }

    /** The pixels that wait to be redrawn, once the window is shown as a whole. */
    method FlushWindow(w: Window)
      requires w in tree && Linked() && RootBare(Now(), root)
      modifies `screen, `store
      ensures Now() == Flush(old(Now()), w)
    {
      hide Linked, RedrawRecs;
      if !shown[w].hidden && store[w].dirty.w > 0 && store[w].dirty.h > 0 {
        RedrawInside(w, store[w].dirty.Shift(place[w].pos.x0, place[w].pos.y0));
        store := store[w := store[w].(dirty := store[w].dirty.(w := 0, h := 0))];
      }
    }

    /** The loop over the given rectangles in window_redraw_contents_rect. */
    method RedrawRects(w: Window, rs: seq<Rect>)
      requires w in tree && Linked() && RootBare(Now(), root)
      modifies `screen
      ensures screen == RedrawList(old(screen), store[w].bitmap, place[w].pos, shown[w].recs, rs)
    {
      hide Linked, RedrawRecs;
      var i := 0;
      while i < |rs|
        invariant 0 <= i <= |rs|
        invariant screen == RedrawList(old(screen), store[w].bitmap, place[w].pos, shown[w].recs, rs[..i])
      {
        RedrawInside(w, rs[i]);
        assert rs[..i + 1][..i] == rs[..i];
        i := i + 1;
      }
      assert rs[..|rs|] == rs;
    }

    // ----- The visitors -----

    /** The loop over the rectangles in window_rebuild_recs. */
    method TouchesOne(w: Window, rs: seq<Rect>) returns (hit: bool)
      requires w in tree && Now().Domains()
      ensures hit <==> Touches(rs, place[w].pos)
    {
      var i := 0;
      while i < |rs| && !Intersects(place[w].pos, rs[i])
        invariant 0 <= i <= |rs|
        invariant forall j :: 0 <= j < i ==> !Intersects(place[w].pos, rs[j])
      {
        i := i + 1;
      }
      return i < |rs|;
    }

    /** window_rebuild_recs */
    method RebuildWindow(w: Window, rs: seq<Rect>) returns (r: int)
      requires w in tree && Linked() && Now().Domains()
      modifies `shown
      ensures Now() == Apply(old(Now()), RebuildRecs(rs), w)
      ensures r == if w in Cut(place, rs) then 1 else 0
    {
      hide Linked, Build, Touches;
      if !place[w].isOpen {
        return 0;
      }
      var hit := TouchesOne(w, rs);
      if hit {
        BuildRecs(w);
        return 0;
      }
      return 1;
    }

    /** redrawIfDirty */
    method RedrawDirtyWindow(w: Window)
      requires w in tree && Linked() && RootBare(Now(), root)
      modifies `screen, `store
      ensures Now() == RedrawDirty(old(Now()), w)
    {
      hide Linked, Redraw;
      RedrawFrame(Now(), w, [DirtyOnScreen(Now(), w)]);
      var r := store[w].dirty;
      if r.w != 0 {
        RedrawWindow(w, [r.Shift(place[w].pos.x0, place[w].pos.y0)]);
        store := store[w := store[w].(dirty := store[w].dirty.(w := 0))];
      }
    }

    /** window_close_one */
    method CloseWindow(w: Window, top: Window)
      requires w in tree && Linked() && RootBare(Now(), root)
      modifies `store, `shown, `place
      ensures Now() == Close(old(Now()), w, top)
    {
      if !place[w].isOpen {
        return;
      }
      var above := AncestorsOpen(w);
      if !above {
        return;
      }
      assert AllOpen(tree, place, w);
      SaveWindow(w, place[w].pos);
      Unmap(w, top);
    }

    /** The rest of window_close_one: delete the rectangles and mark the window. */
    method Unmap(w: Window, top: Window)
      requires w in tree && Now().Domains()
      modifies `shown, `place
      ensures Now() == Closed(old(Now()), w, top)
    {
      if w == top {
        shown := shown[w := shown[w].(recs := [])];
        place := place[w := place[w].(isOpen := false)];
      } else {
        shown := shown[w := Shown([], true)];
      }
    }

    /** window_move_one */
    method MoveWindow(w: Window, dx: int, dy: int)
      requires w in tree && Now().Domains()
      modifies `place
      ensures Now() == Apply(old(Now()), MoveOne(dx, dy), w)
    {
      if place[w].isOpen {
        place := place[w := Moved(place[w], dx, dy)];
      }
    }

    /** window_move_recs */
    method MoveRectangles(w: Window, dx: int, dy: int)
      requires w in tree && Now().Domains()
      modifies `shown
      ensures Now() == Apply(old(Now()), MoveRecs(dx, dy), w)
    {
      if place[w].isOpen {
        var recs, i := shown[w].recs, 0;
        while i < |recs|
          invariant 0 <= i <= |recs| == |shown[w].recs|
          invariant forall j :: 0 <= j < |recs| ==> recs[j] == if j < i then shown[w].recs[j].Shift(dx, dy) else shown[w].recs[j]
        {
          recs := recs[i := recs[i].Shift(dx, dy)];
          i := i + 1;
        }
        assert recs == ShiftRecs(shown[w].recs, dx, dy);
        shown := shown[w := shown[w].(recs := recs)];
      }
    }

    /** Call the visitor's function for one window. */
    method Visit(v: Visitor, w: Window) returns (r: int)
      requires w in tree && Linked() && NullSafe(Now(), root, v)
      modifies `place, `shown, `store, `screen
      ensures Now() == Apply(old(Now()), v, w)
      ensures r == if w in Turns(old(Now()), v) then 1 else 0
    {
      r := 0;
      match v
      case SaveContents(rect) => SaveWindow(w, rect);
      case MoveOne(dx, dy) => MoveWindow(w, dx, dy);
      case MoveRecs(dx, dy) => MoveRectangles(w, dx, dy);
      case RebuildRecs(rs) => r := RebuildWindow(w, rs);
      case RedrawContents(rs) => RedrawWindow(w, rs);
      case RedrawIfDirty => RedrawDirtyWindow(w);
      case CloseOne(top) => CloseWindow(w, top);
    }

    // ----- The traversals -----

    /** wtree_traverse_pre: no recursion and no stack, only the links and one flag. */
    method TraversePre(top: Window, v: Visitor)
      requires top in tree && Linked() && NullSafe(Now(), root, v)
      modifies `place, `shown, `store, `screen
      ensures Now() == Fold(old(Now()), v, Pre(tree, maxDepth, Turns(old(Now()), v), top))
      ensures RootBare(Now(), root)
    {
      hide TreeOK, Shape, Turns, NullSafe, Fold, Apply, Pre, Todo, NextPre;
      ghost var cut := Turns(Now(), v);
      ghost var goal := Fold(Now(), v, Pre(tree, maxDepth, cut, top));
      var at := Stand(top, false);
      TodoStart(tree, maxDepth, cut, top);
      while at.w != null
        invariant Inside(tree, top, at) && NullSafe(Now(), root, v) && Turns(Now(), v) == cut
        invariant Fold(Now(), v, Todo(tree, maxDepth, cut, top, at)) == goal
        decreases |Todo(tree, maxDepth, cut, top, at)|, at.visited, if at.w == null then 0 else tree[at.w].depth
      {
        at := StepPre(v, cut, top, at);
      }
      TodoEnd(tree, maxDepth, cut, top, at);
      FoldNothing(Now(), v);
      NullSafeBare(Now(), root, v);
    }

    /** One round of the loop of wtree_traverse_pre. */
    method StepPre(v: Visitor, ghost cut: set<Window>, top: Window, at: Stand) returns (next: Stand)
      requires at.w != null && Linked() && Inside(tree, top, at) && NullSafe(Now(), root, v) && Turns(Now(), v) == cut
      modifies `place, `shown, `store, `screen
      ensures Inside(tree, top, next) && NullSafe(Now(), root, v) && Turns(Now(), v) == cut
      ensures Fold(Now(), v, Todo(tree, maxDepth, cut, top, next)) == Fold(old(Now()), v, Todo(tree, maxDepth, cut, top, at))
      ensures if at.visited then Todo(tree, maxDepth, cut, top, next) == Todo(tree, maxDepth, cut, top, at)
              else |Todo(tree, maxDepth, cut, top, next)| < |Todo(tree, maxDepth, cut, top, at)|
      ensures next.visited ==> next.w != null && tree[next.w].depth < tree[at.w].depth
    {
      hide TreeOK, Shape, Turns, NullSafe, Fold, Apply, Pre, Todo, NextPre;
      var r := 0;
      NextPreTodo(tree, maxDepth, cut, root, top, at);
      if !at.visited {
        r := VisitNext(v, at.w, Todo(tree, maxDepth, cut, top, NextPre(tree, cut, top, at)));
      }
      next := StandNext(top, at, r, cut);
    }

    /** A visit in the course of a traversal that has still to visit the windows `rest`. */
    method VisitNext(v: Visitor, w: Window, ghost rest: seq<Window>) returns (r: int)
      requires w in tree && Linked() && NullSafe(Now(), root, v)
      modifies `place, `shown, `store, `screen
      ensures NullSafe(Now(), root, v) && Turns(Now(), v) == Turns(old(Now()), v)
      ensures Fold(Now(), v, rest) == Fold(old(Now()), v, [w] + rest)
      ensures r == if w in Turns(old(Now()), v) then 1 else 0
    {
      VisitKeeps(Now(), root, v, w);
      FoldFirst(Now(), v, w, rest);
      r := Visit(v, w);
    }

    /** The branches of wtree_traverse_pre that choose the next window. */
    method StandNext(top: Window, at: Stand, r: int, ghost cut: set<Window>) returns (next: Stand)
      requires at.w != null && at.w in tree && Linked()
      requires !at.visited ==> r == if at.w in cut then 1 else 0
      ensures next == NextPre(tree, cut, top, at)
    {
      var w: Window := at.w;
      if !at.visited && r == 0 && links[w].childs != null {
        next := Stand(links[w].childs, false);
      } else if w == top {
        next := Stand(null, false);
      } else if links[w].next != null {
        next := Stand(links[w].next, false);
      } else {
        next := Stand(links[w].parent, true);
      }
    }

    /** wtree_traverse_post */
    method TraversePost(top: Window, v: Visitor)
      requires top in tree && Linked() && NullSafe(Now(), root, v)
      modifies `place, `shown, `store, `screen
      ensures Now() == Fold(old(Now()), v, Post(tree, maxDepth, top))
      ensures RootBare(Now(), root)
    {
      hide TreeOK, Shape, Turns, NullSafe, Fold, Apply, Post, TodoPost, NextPost;
      ghost var goal := Fold(Now(), v, Post(tree, maxDepth, top));
      var at := Stand(top, false);
      TodoStart(tree, maxDepth, {}, top);
      while at.w != null
        invariant Inside(tree, top, at) && NullSafe(Now(), root, v)
        invariant Fold(Now(), v, TodoPost(tree, maxDepth, top, at)) == goal
        decreases |TodoPost(tree, maxDepth, top, at)|, if at.w == null then 0 else maxDepth + 1 - tree[at.w].depth
      {
        NextPostTodo(tree, maxDepth, root, top, at);
        var next := StandNextPost(top, at);
        if at.visited || links[at.w].childs == null {
          var r := VisitNext(v, at.w, TodoPost(tree, maxDepth, top, next));
        }
        at := next;
      }
      TodoEnd(tree, maxDepth, {}, top, at);
      FoldNothing(Now(), v);
      NullSafeBare(Now(), root, v);
    }

    /** The branches of wtree_traverse_post that choose the next window. */
    method StandNextPost(top: Window, at: Stand) returns (next: Stand)
      requires at.w != null && at.w in tree && Linked()
      ensures next == NextPost(tree, top, at)
    {
      var w: Window := at.w;
      if !at.visited && links[w].childs != null {
        next := Stand(links[w].childs, false);
      } else if w == top {
        next := Stand(null, false);
      } else if links[w].next != null {
        next := Stand(links[w].next, false);
      } else {
        next := Stand(links[w].parent, true);
      }
    }

    /** wtree_list_traverse_pre, from `first` to its right */
    method TraverseListPre(first: Window?, v: Visitor)
      requires (first != null ==> first in tree) && Linked() && NullSafe(Now(), root, v)
      modifies `place, `shown, `store, `screen
      ensures Now() == Fold(old(Now()), v, ListPre(tree, maxDepth, Turns(old(Now()), v), first))
      ensures RootBare(Now(), root)
    {
      hide TreeOK, Shape, Turns, NullSafe, Fold, Apply, Pre, ListPre;
      ghost var goal, cut := Fold(Now(), v, ListPre(tree, maxDepth, Turns(Now(), v), first)), Turns(Now(), v);
      var w := first;
      while w != null
        invariant (w != null ==> w in tree) && NullSafe(Now(), root, v) && Turns(Now(), v) == cut
        invariant Fold(Now(), v, ListPre(tree, maxDepth, cut, w)) == goal
        decreases if w == null then 0 else 1 + |RightOf(tree, w)|
      {
        ListPreStep(tree, maxDepth, cut, root, w);
        var next := links[w].next;
        ghost var visits := Pre(tree, maxDepth, cut, w);
        FoldConcat(Now(), v, visits, ListPre(tree, maxDepth, cut, next));
        FoldKeeps(Now(), root, v, visits);
        TraversePre(w, v);
        w := next;
      }
      NoListPre(tree, maxDepth, cut);
      FoldNothing(Now(), v);
      NullSafeBare(Now(), root, v);
    }

    lemma {:induction false} LinkFacts(w: Window)
      requires Linked() && w in tree && w != root
      ensures TreeOK(tree, root, maxDepth) && Shape(tree, maxDepth)
      ensures w in links && links[w] == Links(tree[w].next, tree[w].prev, tree[w].parent, tree[w].childs)
      ensures tree[w].parent != null && tree[w].parent in tree
      ensures (tree[w].next != null ==> tree[w].next in tree) && (tree[w].childs != null ==> tree[w].childs in tree)
    {
      NextIn(tree, maxDepth, root, w);
    }

    /** A list traversal of the right siblings of `w`, and then one visit of its parent. */
    method TraverseRightAndParent(w: Window, v: Visitor)
      requires Linked() && NullSafe(Now(), root, v) && w in tree && w != root
      modifies `place, `shown, `store, `screen
      ensures links[w].parent != null && (links[w].next != null ==> links[w].next in tree)
      ensures Now() == Fold(old(Now()), v, RightAndParent(tree, maxDepth, Turns(old(Now()), v), w))
      ensures RootBare(Now(), root)
    {
      hide Linked, RootBare, Fold, Turns, Apply, NullSafe, ListPre, TreeOK, Shape;
      LinkFacts(w);
      ghost var list := ListPre(tree, maxDepth, Turns(Now(), v), links[w].next);
      FoldKeeps(Now(), root, v, list);
      FoldKeeps(Now(), root, v, list + [links[w].parent]);
      FoldStep(Now(), v, list, links[w].parent);
      TraverseListPre(links[w].next, v);
      var r := Visit(v, links[w].parent);
      NullSafeBare(Now(), root, v);
    }

    /** The same, beginning with `w` itself. */
    method TraverseHereAndParent(w: Window, v: Visitor)
      requires Linked() && NullSafe(Now(), root, v) && w in tree && w != root
      modifies `place, `shown, `store, `screen
      ensures links[w].parent != null
      ensures Now() == Fold(old(Now()), v, HereAndParent(tree, maxDepth, Turns(old(Now()), v), w))
      ensures RootBare(Now(), root)
    {
      hide Linked, RootBare, Fold, Turns, Apply, NullSafe, ListPre, TreeOK, Shape;
      LinkFacts(w);
      ghost var list := ListPre(tree, maxDepth, Turns(Now(), v), w);
      FoldKeeps(Now(), root, v, list);
      FoldKeeps(Now(), root, v, list + [links[w].parent]);
      FoldStep(Now(), v, list, links[w].parent);
      TraverseListPre(w, v);
      var r := Visit(v, links[w].parent);
      NullSafeBare(Now(), root, v);
    }

    // ----- The operations -----

    lemma {:induction false} NowFields()
      ensures Now() == State(tree, place, shown, store, content, screen)
    {
    }

    lemma {:induction false} ValidParts()
      requires Valid()
      ensures Linked() && Fine(Now(), root, background, maxDepth) && Now().Domains() && RootBare(Now(), root)
      ensures findCache != null ==> findCache in tree
      ensures TreeOK(tree, root, maxDepth) && Shape(tree, maxDepth) && root in tree
    {
      hide Linked, Fine;
      FineParts(Now(), root, background, maxDepth);
    }

    lemma {:induction false} IsUsable(w: Window)
      requires Valid() && w in tree && w != root
      ensures Linked() && Fine(Now(), root, background, maxDepth) && Usable(Now(), root, maxDepth, w) && RootBare(Now(), root)
      ensures Now().Domains() && w in links && w in place && (findCache != null ==> findCache in tree)
      ensures links[w] == Links(tree[w].next, tree[w].prev, tree[w].parent, tree[w].childs)
    {
      ValidParts();
      FineUsable(Now(), root, background, maxDepth, w);
    }

    /** The tests with which the operations begin. */
    lemma {:induction false} Cases(w: Window)
      requires Valid() && w in tree
      ensures Linked() && Now().Domains() && w in links && w in place && (links[w].parent == null <==> w == root)
      ensures w == root ==> place[w].isOpen
      ensures AllOpen(tree, place, w) <==> place[w].isOpen && (!HasParent(tree, w) || AllOpen(tree, place, tree[w].parent))
    {
      ValidParts();
    }

    // ----- window_open -----

    /** The assignments to pos, work and is_open. */
    method PlaceAt(w: Window, x: int, y: int, dx: int, dy: int)
      requires Now().Domains() && w in tree && RootBare(Now(), root)
      requires dx == x - place[w].pos.x0 && dy == y - place[w].pos.y0
      modifies `place
      ensures Now() == OpenStart(old(Now()), w, x, y)
      ensures RootBare(Now(), root) && w in place && place == Now().place
    {
      place := place[w := Place(Rect(x, y, place[w].pos.w, place[w].pos.h), place[w].work.Shift(dx, dy), place[w].area, true)];
    }

    /** Place the window and save the windows that it may cover. */
    method OpenSaving(w: Window, x: int, y: int, ghost s: State)
      requires Linked() && RootBare(Now(), root) && w in tree && w != root && s.tree == tree && Usable(s, root, maxDepth, w)
      requires Now() == s
      modifies `place, `shown, `store, `screen
      ensures Now() == OpenSaved(s, root, maxDepth, w, x, y) && RootBare(Now(), root)
    {
      hide *;
      UsableTree(s, root, maxDepth, w);
      LinkFacts(w);
      OpenSaves(s, root, maxDepth, w, x, y);
      NowFields();
      PlaceAt(w, x, y, x - place[w].pos.x0, y - place[w].pos.y0);
      NullSafeBare(Now(), root, SaveContents(place[w].pos));
      NoTurns(Now(), SaveContents(place[w].pos));
      TraverseRightAndParent(w, SaveContents(place[w].pos));
    }

    /** Move the children along. */
    method OpenMoving(w: Window, x: int, y: int, dx: int, dy: int, ghost s: State)
      requires Linked() && RootBare(Now(), root) && w in tree && w != root && s.tree == tree && Usable(s, root, maxDepth, w)
      requires dx == x - s.place[w].pos.x0 && dy == y - s.place[w].pos.y0
      requires Now() == OpenSaved(s, root, maxDepth, w, x, y)
      modifies `place, `shown, `store, `screen
      ensures Now() == OpenPlaced(s, root, maxDepth, w, x, y) && RootBare(Now(), root)
    {
      hide *;
      UsableTree(s, root, maxDepth, w);
      LinkFacts(w);
      OpenMoves(s, root, maxDepth, w, x, y);
      NoTurns(Now(), MoveOne(dx, dy));
      NullSafeBare(Now(), root, MoveOne(dx, dy));
      TraverseListPre(links[w].childs, MoveOne(dx, dy));
    }

    /** Rebuild the rectangles of the window, its children, the right siblings and the parent. */
    method OpenRebuild(w: Window, x: int, y: int, ghost s: State)
      requires Linked() && RootBare(Now(), root) && w in tree && w != root && s.tree == tree && Usable(s, root, maxDepth, w)
      requires Fine(s, root, background, maxDepth) && !s.place[w].isOpen
      requires Now() == OpenPlaced(s, root, maxDepth, w, x, y)
      modifies `place, `shown, `store, `screen
      ensures Now() == OpenPrepared(s, root, maxDepth, w, x, y) && RootBare(Now(), root)
    {
      hide *;
      UsableTree(s, root, maxDepth, w);
      LinkFacts(w);
      NowFields();
      OpenChain(s, root, maxDepth, w, x, y, Now());
      OpenKeeps(s, root, background, maxDepth, w, x, y);
      NullSafeBare(Now(), root, RebuildRecs([place[w].pos]));
      TraverseHereAndParent(w, RebuildRecs([place[w].pos]));
    }

    /** Redraw the window and its children. */
    method OpenRedraw(w: Window, x: int, y: int, ghost s: State)
      requires Linked() && RootBare(Now(), root) && w in tree && w != root && s.tree == tree && Usable(s, root, maxDepth, w)
      requires Now() == OpenPrepared(s, root, maxDepth, w, x, y)
      modifies `place, `shown, `store, `screen
      ensures Now() == OpenResult(s, root, maxDepth, w, x, y)
    {
      hide *;
      UsableTree(s, root, maxDepth, w);
      LinkFacts(w);
      NowFields();
      OpenIs(s, root, maxDepth, w, x, y);
      NullSafeBare(Now(), root, RedrawContents([place[w].pos]));
      NoTurns(Now(), RedrawContents([place[w].pos]));
      TraversePre(w, RedrawContents([place[w].pos]));
    }

    /** window_open */
    method WindowOpen(w: Window, x: int, y: int) returns (r: int)
      requires Valid() && w in tree
      modifies `place, `shown, `store, `screen
      ensures Valid()
      ensures r == 0 && Now() == DoOpen(old(Now()), root, maxDepth, w, x, y)
      ensures if old(place[w].isOpen) then Now() == old(Now()) else PutAt(old(Now()), Now(), w, x, y)
      ensures place == if old(place[w].isOpen) then old(place) else Opened(tree, old(place), w, x, y)
      ensures AllCoherent(old(Now())) ==> AllCoherent(Now())
    {
      hide *;
      Cases(w);
      NowFields();
      DoOpenIs(Now(), root, maxDepth, w, x, y);
      if place[w].isOpen {
        return 0;
      }
      ValidParts();
      OpenPuts(Now(), root, background, maxDepth, w, x, y);
      if links[w].parent == null {
        return -1;
      }
      OpenHidden(w, x, y);
      return 0;
    }

    /** The four phases */
    method OpenSteps(w: Window, x: int, y: int, ghost s: State)
      requires Linked() && RootBare(Now(), root) && w in tree && w != root && Usable(s, root, maxDepth, w)
      requires Fine(s, root, background, maxDepth) && !s.place[w].isOpen && Now() == s && w in place
      modifies `place, `shown, `store, `screen
      ensures Now() == OpenResult(s, root, maxDepth, w, x, y)
    {
      hide *;
      NowFields();
      var dx, dy := x - place[w].pos.x0, y - place[w].pos.y0;
      OpenSaving(w, x, y, s);
      OpenMoving(w, x, y, dx, dy, s);
      OpenRebuild(w, x, y, s);
      OpenRedraw(w, x, y, s);
    }

    /** window_open of a closed window */
    method OpenHidden(w: Window, x: int, y: int)
      requires Valid() && w in tree && w != root && !place[w].isOpen
      modifies `place, `shown, `store, `screen
      ensures Usable(old(Now()), root, maxDepth, w) && Now() == OpenResult(old(Now()), root, maxDepth, w, x, y)
      ensures Valid() && place == Opened(tree, old(place), w, x, y)
      ensures AllCoherent(old(Now())) ==> AllCoherent(Now())
    {
      hide *;
      IsUsable(w);
      NowFields();
      ghost var s := Now();
      OpenSteps(w, x, y, s);
      OpenKeeps(s, root, background, maxDepth, w, x, y);
      NowFields();
      MakeValid();
    }

    // ----- window_close -----

    /** Unmap the subtree, children first. */
    method CloseUnmap(w: Window, ghost s: State)
      requires Linked() && RootBare(Now(), root) && w in tree && w != root && s.tree == tree && Usable(s, root, maxDepth, w)
      requires AllOpen(s.tree, s.place, w) && Now() == s
      modifies `place, `shown, `store, `screen
      ensures Now() == CloseUnmapped(s, w, Post(tree, maxDepth, w)) && RootBare(Now(), root)
    {
      hide *;
      UsableTree(s, root, maxDepth, w);
      CloseEffect(s, root, maxDepth, w);
      NullSafeBare(Now(), root, CloseOne(w));
      TraversePost(w, CloseOne(w));
    }

    /** Rebuild the rectangles of the right siblings and the parent. */
    method CloseRebuild(w: Window, r: Rect, ghost s: State)
      requires Linked() && RootBare(Now(), root) && w in tree && w != root && s.tree == tree && Usable(s, root, maxDepth, w)
      requires AllOpen(s.tree, s.place, w) && Fine(s, root, background, maxDepth) && w != background && r == s.place[w].pos
      requires Now() == CloseUnmapped(s, w, Post(tree, maxDepth, w))
      modifies `place, `shown, `store, `screen
      ensures Now() == ClosePrepared(s, root, maxDepth, w) && RootBare(Now(), root)
    {
      hide *;
      UsableTree(s, root, maxDepth, w);
      NowFields();
      CloseChain(s, root, maxDepth, w);
      CloseKeeps(s, root, background, maxDepth, w);
      NullSafeBare(Now(), root, RebuildRecs([r]));
      TraverseRightAndParent(w, RebuildRecs([r]));
    }

    /** Redraw the area that has become free. */
    method CloseRedraw(w: Window, r: Rect, ghost s: State)
      requires Linked() && RootBare(Now(), root) && w in tree && w != root && s.tree == tree && Usable(s, root, maxDepth, w)
      requires Now() == ClosePrepared(s, root, maxDepth, w) && r == s.place[w].pos
      modifies `place, `shown, `store, `screen
      ensures Now() == CloseResult(s, root, maxDepth, w)
    {
      hide *;
      UsableTree(s, root, maxDepth, w);
      CloseIs(s, root, maxDepth, w);
      NullSafeBare(Now(), root, RedrawContents([r]));
      NoTurns(Now(), RedrawContents([r]));
      TraverseRightAndParent(w, RedrawContents([r]));
    }

    /** window_close.  The background window is never closed: client_close refuses its handle. */
    method WindowClose(w: Window) returns (r: int)
      requires Valid() && w in tree && w != background
      modifies `place, `shown, `store, `screen
      ensures Valid()
      ensures r == if w == root then -1 else 0
      ensures Now() == DoClose(old(Now()), root, maxDepth, w)
      ensures w == root || !Mapped(tree, old(place), w) ==> Now() == old(Now())
      ensures w != root && Mapped(tree, old(place), w) ==> Unmaps(old(Now()), Now(), w)
      ensures w != root && AllOpen(tree, old(place), w) ==> place == old(place)[w := old(place[w]).(isOpen := false)]
      ensures AllCoherent(old(Now())) ==>
                (AllCoherent(Now()) <==> w == root || !AllOpen(tree, old(place), w) || !StaleBorder(old(Now()), w))
    {
      hide *;
      Cases(w);
      NowFields();
      DoCloseIs(Now(), root, maxDepth, w);
      if !place[w].isOpen {
        CloseSame(w);
        return 0;
      }
      if links[w].parent == null {
        return -1;
      }
      CloseSame(w);
      var above := AncestorsOpen(w);
      if !above {
        return 0;
      }
      CloseShown(w);
      return 0;
    }

    lemma {:induction false} CloseSame(w: Window)
      requires Valid() && w in tree && w != background
      ensures w != root && Mapped(tree, place, w) ==> Unmaps(Now(), DoClose(Now(), root, maxDepth, w), w)
      ensures !Mapped(tree, place, w) ==> DoClose(Now(), root, maxDepth, w) == Now()
    {
      hide *;
      ValidParts();
      NowFields();
      if w == root {
        RootMapped();
      } else {
        MakePlain(w);
        CloseUnmaps(Now(), root, background, maxDepth, w);
      }
    }

    lemma {:induction false} RootMapped()
      requires Valid()
      ensures Mapped(tree, place, root)
    {
      ValidParts();
      RootAlone();
      AllOpenMapped(tree, place, maxDepth, root, root);
    }

    lemma {:induction false} MakePlain(w: Window)
      requires w != root && w != background
      ensures Plain(root, background, w)
    {
    }

    /** window_close of a window that is open all the way up */
    method CloseShown(w: Window)
      requires Valid() && w in tree && w != root && w != background && AllOpen(tree, place, w)
      modifies `place, `shown, `store, `screen
      ensures Usable(old(Now()), root, maxDepth, w) && Now() == CloseResult(old(Now()), root, maxDepth, w)
      ensures Valid() && place == old(place)[w := old(place[w]).(isOpen := false)]
      ensures AllCoherent(old(Now())) ==> (AllCoherent(Now()) <==> !StaleBorder(old(Now()), w))
    {
      hide *;
      IsUsable(w);
      NowFields();
      ghost var s := Now();
      var pos := place[w].pos;
      CloseUnmap(w, s);
      CloseRebuild(w, pos, s);
      CloseRedraw(w, pos, s);
      CloseKeeps(s, root, background, maxDepth, w);
      NowFields();
      MakeValid();
    }

    // ----- window_move -----

    /** An open window on top of `w`, on its level, intersects `pos`. */
    method LeftHides(w: Window, pos: Rect) returns (hit: bool)
      requires w in tree && Linked() && Now().Domains()
      ensures hit <==> OpenHits(place, LeftOf(tree, w), pos)
    {
      hide TreeOK, Shape, OpenHits, LeftOf;
      var wp := w;
      SiblingLinks(tree, maxDepth, root, w);
      while links[wp].prev != null
        invariant wp in tree && (OpenHits(place, LeftOf(tree, wp), pos) <==> OpenHits(place, LeftOf(tree, w), pos))
        invariant links[wp].prev == (if LeftOf(tree, wp) == [] then null else LeftOf(tree, wp)[|LeftOf(tree, wp)| - 1])
        decreases |LeftOf(tree, wp)|
      {
        OpenHitsLast(place, LeftOf(tree, wp), pos);
        StepLeft(tree, maxDepth, root, wp);
        wp := links[wp].prev;
        if place[wp].isOpen && Intersects(pos, place[wp].pos) {
          return true;
        }
      }
      NoOpenHits(place, pos);
      return false;
    }

    /** window_is_hidden */
    method IsHidden(w: Window) returns (hidden: bool)
      requires w in tree && Linked() && Now().Domains()
      ensures hidden <==> HiddenFrom(tree, place, place[w].pos, w)
      ensures PlacesOK(tree, place) && place[w].isOpen ==>
                (!hidden <==> AllOpen(tree, place, w) && forall p :: place[w].pos.Has(p) ==> Reach(tree, place, w, p))
    {
      hide AllOpen, Reach;
      var pos := place[w].pos;
      if PlacesOK(tree, place) && place[w].isOpen {
        PositiveAt(tree, place, w);
        HiddenMeaning(tree, place, pos, w);
      }
      var wp := w;
      while true
        invariant wp in tree && (HiddenFrom(tree, place, pos, wp) <==> HiddenFrom(tree, place, pos, w))
        decreases tree[wp].depth
      {
        var hit := LeftHides(wp, pos);
        if hit {
          return true;
        }
        var up := links[wp].parent;
        if up == null {
          return false;
        }
        assert ParentOK(tree, wp) && KidsOK(tree, up, maxDepth);
        if !place[up].isOpen || !Contains(place[up].work, pos) {
          return true;
        }
        wp := up;
      }
    }

    /** Save the subtree, and the windows that it may cover at its new place. */
    method MoveSaving(w: Window, oldpos: Rect, dx: int, dy: int, ghost s: State)
      requires Linked() && RootBare(Now(), root) && w in tree && w != root && s.tree == tree && Usable(s, root, maxDepth, w)
      requires Now() == s && oldpos == s.place[w].pos
      modifies `place, `shown, `store, `screen
      ensures Now() == MoveSaved(s, root, maxDepth, w, dx, dy) && RootBare(Now(), root)
    {
      hide *;
      UsableTree(s, root, maxDepth, w);
      MoveSaves(s, root, maxDepth, w, dx, dy);
      NullSafeBare(Now(), root, SaveContents(oldpos));
      NoTurns(Now(), SaveContents(oldpos));
      TraversePre(w, SaveContents(oldpos));
      var newpos := oldpos.Shift(dx, dy);
      NullSafeBare(Now(), root, SaveContents(newpos));
      NoTurns(Now(), SaveContents(newpos));
      TraverseRightAndParent(w, SaveContents(newpos));
    }

    /** Move the subtree. */
    method MovePlacing(w: Window, dx: int, dy: int, ghost s: State)
      requires Linked() && RootBare(Now(), root) && w in tree && w != root && s.tree == tree && Usable(s, root, maxDepth, w)
      requires Now() == MoveSaved(s, root, maxDepth, w, dx, dy)
      modifies `place, `shown, `store, `screen
      ensures Now() == MovePlaced(s, root, maxDepth, w, dx, dy) && RootBare(Now(), root)
    {
      hide *;
      UsableTree(s, root, maxDepth, w);
      MoveMoves(s, root, maxDepth, w, dx, dy);
      NullSafeBare(Now(), root, MoveOne(dx, dy));
      NoTurns(Now(), MoveOne(dx, dy));
      TraversePre(w, MoveOne(dx, dy));
    }

    /** Shift the rectangles of the subtree. */
    method MoveShifting(w: Window, dx: int, dy: int, free: bool, ghost s: State)
      requires Linked() && RootBare(Now(), root) && w in tree && w != root && s.tree == tree && Usable(s, root, maxDepth, w)
      requires Now() == MovePlaced(s, root, maxDepth, w, dx, dy)
      modifies `place, `shown, `store, `screen
      ensures Now() == MoveShifted(s, root, maxDepth, w, dx, dy, free) && RootBare(Now(), root)
    {
      hide *;
      UsableTree(s, root, maxDepth, w);
      MoveShifts(s, root, maxDepth, w, dx, dy);
      if free {
        NullSafeBare(Now(), root, MoveRecs(dx, dy));
        NoTurns(Now(), MoveRecs(dx, dy));
        TraversePre(w, MoveRecs(dx, dy));
      }
    }

    /** Rebuild the rectangles that both positions may concern. */
    method MoveRebuild(w: Window, oldpos: Rect, newpos: Rect, dx: int, dy: int, free: bool, ghost s: State)
      requires Linked() && RootBare(Now(), root) && w in tree && w != root && s.tree == tree && Usable(s, root, maxDepth, w)
      requires Fine(s, root, background, maxDepth) && w != background && s.place[w].isOpen
      requires free ==> FreeMove(s.tree, s.place, MovedTo(s.tree, s.place, w, dx, dy), w)
      requires [oldpos, newpos] == BothPos(s, w, dx, dy) && Now() == MoveShifted(s, root, maxDepth, w, dx, dy, free)
      modifies `place, `shown, `store, `screen
      ensures Now() == MovePrepared(s, root, maxDepth, w, dx, dy, free) && RootBare(Now(), root)
    {
      hide *;
      UsableTree(s, root, maxDepth, w);
      LinkFacts(w);
      MoveChain(s, root, maxDepth, w, dx, dy, free);
      MoveKeeps(s, root, background, maxDepth, w, dx, dy, free);
      NullSafeBare(Now(), root, RebuildRecs([oldpos, newpos]));
      VisitsAre(tree, maxDepth, Turns(Now(), RebuildRecs([oldpos, newpos])), w, free);
      if free {
        TraverseRightAndParent(w, RebuildRecs([oldpos, newpos]));
      } else {
        TraverseHereAndParent(w, RebuildRecs([oldpos, newpos]));
      }
    }

    /** Draw the window at its new place: copy the screen, or redraw. */
    method MoveDrawing(w: Window, oldpos: Rect, newpos: Rect, dx: int, dy: int, free: bool, ghost s: State)
      requires Linked() && RootBare(Now(), root) && w in tree && w != root && s.tree == tree && Usable(s, root, maxDepth, w)
      requires oldpos == s.place[w].pos && newpos == oldpos.Shift(dx, dy)
      requires Now() == MovePrepared(s, root, maxDepth, w, dx, dy, free)
      modifies `place, `shown, `store, `screen
      ensures Now() == MoveDrawn(s, root, maxDepth, w, dx, dy, free) && RootBare(Now(), root)
    {
      hide *;
      UsableTree(s, root, maxDepth, w);
      if free {
        FreeDrawn(s, root, maxDepth, w, dx, dy);
        ShiftedCorner(oldpos, dx, dy);
        CopyOnScreen(oldpos, newpos);
      } else {
        SlowDrawn(s, root, maxDepth, w, dx, dy);
        NullSafeBare(Now(), root, RedrawContents([newpos]));
        NoTurns(Now(), RedrawContents([newpos]));
        TraversePre(w, RedrawContents([newpos]));
      }
    }

    /** real_window_bitblk */
    method CopyOnScreen(from: Rect, to: Rect)
      requires RootBare(Now(), root)
      modifies `screen
      ensures Now() == old(Now()).(screen := BitBlk(old(Now()).screen, from, old(Now()).screen, to.x0, to.y0)) && RootBare(Now(), root)
    {
      screen := BitBlk(screen, from, screen, to.x0, to.y0);
    }

    /** Redraw the area that the window has left. */
    method MoveUncover(w: Window, oldpos: Rect, dx: int, dy: int, free: bool, ghost s: State)
      requires Linked() && RootBare(Now(), root) && w in tree && w != root && s.tree == tree && Usable(s, root, maxDepth, w)
      requires oldpos == s.place[w].pos && Now() == MoveDrawn(s, root, maxDepth, w, dx, dy, free)
      modifies `place, `shown, `store, `screen
      ensures Now() == MoveResult(s, root, maxDepth, w, dx, dy, free)
    {
      hide *;
      UsableTree(s, root, maxDepth, w);
      MoveIs(s, root, maxDepth, w, dx, dy, free);
      NullSafeBare(Now(), root, RedrawContents([oldpos]));
      NoTurns(Now(), RedrawContents([oldpos]));
      TraverseRightAndParent(w, RedrawContents([oldpos]));
    }

    /** window_move.  The background window is never moved: client_move wants W_MOVE. */
    method WindowMove(w: Window, x: int, y: int) returns (r: int)
      requires Valid() && w in tree && w != background
      modifies `place, `shown, `store, `screen
      ensures Valid()
      ensures r == if old(place[w].isOpen) && w != root then 0 else -1
      ensures Now() == DoMove(old(Now()), root, maxDepth, w, x, y)
      ensures r != 0 ==> Now() == old(Now())
      ensures r == 0 ==> place == MovedTo(tree, old(place), w, x - old(place[w].pos.x0), y - old(place[w].pos.y0))
      ensures r == 0 && !(x == old(place[w].pos.x0) && y == old(place[w].pos.y0)) ==> PutAt(old(Now()), Now(), w, x, y)
      ensures r == 0 && AllCoherent(old(Now())) ==>
                (AllCoherent(Now()) <==> (x == old(place[w].pos.x0) && y == old(place[w].pos.y0))
                                         || !StaleMove(old(Now()), w, x - old(place[w].pos.x0), y - old(place[w].pos.y0)))
    {
      hide *;
      Cases(w);
      NowFields();
      DoMoveIs(Now(), root, maxDepth, w, x, y);
      if !place[w].isOpen || links[w].parent == null {
        return -1;
      }
      if x == place[w].pos.x0 && y == place[w].pos.y0 {
        MovedNowhere(tree, place, w);
        return 0;
      }
      IsUsable(w);
      MakePlain(w);
      MovePuts(Now(), root, background, maxDepth, w, x, y);
      MoveOpen(w, x - place[w].pos.x0, y - place[w].pos.y0);
      return 0;
    }

    /** window_move of an open window to a different place */
    method MoveOpen(w: Window, dx: int, dy: int)
      requires Valid() && w in tree && w != root && w != background && place[w].isOpen
      modifies `place, `shown, `store, `screen
      ensures Usable(old(Now()), root, maxDepth, w)
      ensures Now() == MoveResult(old(Now()), root, maxDepth, w, dx, dy, FreeMove(tree, old(place), MovedTo(tree, old(place), w, dx, dy), w))
      ensures Valid() && place == MovedTo(tree, old(place), w, dx, dy)
      ensures AllCoherent(old(Now())) ==> (AllCoherent(Now()) <==> !StaleMove(old(Now()), w, dx, dy))
    {
      hide *;
      IsUsable(w);
      NowFields();
      ghost var s := Now();
      var hidden := IsHidden(w);
      var oldpos := place[w].pos;
      MoveSaving(w, oldpos, dx, dy, s);
      MovePlacing(w, dx, dy, s);
      var free := MoveFree(w, hidden, dx, dy, s);
      MoveFinish(w, oldpos, dx, dy, free, s);
      MoveKeeps(s, root, background, maxDepth, w, dx, dy, free);
      NowFields();
      MakeValid();
    }

    /** The second test of window_is_hidden */
    method MoveFree(w: Window, hidden: bool, dx: int, dy: int, ghost s: State) returns (free: bool)
      requires Linked() && w in tree && w != root && s.tree == tree && Usable(s, root, maxDepth, w)
      requires Now() == MovePlaced(s, root, maxDepth, w, dx, dy) && (hidden <==> HiddenFrom(s.tree, s.place, s.place[w].pos, w))
      ensures free <==> FreeMove(s.tree, s.place, MovedTo(s.tree, s.place, w, dx, dy), w)
    {
      hide *;
      UsableTree(s, root, maxDepth, w);
      NowFields();
      var again := IsHidden(w);
      free := !hidden && !again;
      FreeIs(s.tree, s.place, place, w);
    }

    /** Everything after the move of the subtree */
    method MoveFinish(w: Window, oldpos: Rect, dx: int, dy: int, free: bool, ghost s: State)
      requires Linked() && RootBare(Now(), root) && w in tree && w != root && s.tree == tree && Usable(s, root, maxDepth, w)
      requires Fine(s, root, background, maxDepth) && w != background && s.place[w].isOpen && oldpos == s.place[w].pos
      requires free ==> FreeMove(s.tree, s.place, MovedTo(s.tree, s.place, w, dx, dy), w)
      requires Now() == MovePlaced(s, root, maxDepth, w, dx, dy)
      modifies `place, `shown, `store, `screen
      ensures Now() == MoveResult(s, root, maxDepth, w, dx, dy, free)
    {
      hide *;
      UsableTree(s, root, maxDepth, w);
      BothPosAre(s, w, dx, dy);
      var newpos := oldpos.Shift(dx, dy);
      MoveShifting(w, dx, dy, free, s);
      MoveRebuild(w, oldpos, newpos, dx, dy, free, s);
      MoveDrawing(w, oldpos, newpos, dx, dy, free, s);
      MoveUncover(w, oldpos, dx, dy, free, s);
    }

    // ----- window_restack -----

    /** wtree_remove */
    method TreeRemove(w: Window)
      requires Linked() && w in tree && w != root
      modifies `links
      ensures tree[w].parent != null && tree[w].parent in tree
      ensures LinksAre(links, Relinked(tree, tree[w].parent, Dropped(tree[tree[w].parent].kids, w)))
    {
      NextIn(tree, maxDepth, root, w);
      assert ParentOK(tree, w);
      RemovedLinks(tree, maxDepth, w, links);
      NeighbourLinks(w);
      if links[w].prev != null {
        links := links[links[w].prev := links[links[w].prev].(next := links[w].next)];
      } else if links[w].parent != null {
        links := links[links[w].parent := links[links[w].parent].(childs := links[w].next)];
      }
      if links[w].next != null {
        links := links[links[w].next := links[links[w].next].(prev := links[w].prev)];
      }
      assert links == Removed(old(links), w);
    }

    lemma {:induction false} NeighbourLinks(w: Window)
      requires Linked() && w in tree && w != root
      ensures w in links && (links[w].prev != null ==> links[w].prev in links && links[w].prev != w)
      ensures links[w].next != null ==> links[w].next in links && links[w].next != w && links[w].next != links[w].prev
      ensures links[w].parent != null && links[w].parent in links && links[w].parent != w && links[w].parent != links[w].next
    {
      assert ParentOK(tree, w);
      var up := tree[w].parent;
      KidsAt(tree, maxDepth, up);
      var kids := tree[up].kids;
      var i :| 0 <= i < |kids| && kids[i] == w;
      ChainAt(tree, kids, i);
      if 0 < i { assert kids[i - 1] in kids && kids[i - 1] != kids[i]; }
      if i + 1 < |kids| {
        assert kids[i + 1] in kids && kids[i] != kids[i + 1];
        if 0 < i { assert kids[i - 1] != kids[i + 1]; }
      }
    }

    /** wtree_add_before; `kids` are the children of `parent`. */
    method TreeAddBefore(parent: Window, at: Window?, w: Window, ghost t: Tree, ghost kids: seq<Window>, ghost i: nat)
      requires LinksButParent(links, t, parent, w) && Distinct(kids) && parent in t && parent !in kids && w !in kids && w != parent
      requires (forall k :: k in kids ==> k in t) && ChainOK(t, kids) && t[parent].childs == First(kids) && i <= |kids|
      requires if at == null then kids == [] else i < |kids| && at == kids[i]
      modifies `links
      ensures LinksAre(links, Relinked(t, parent, kids[..i] + [w] + kids[i..]))
    {
      hide ChainOK, Distinct, LinksAre, Relinked;
      ghost var after := AddedBefore(links, parent, at, w);
      AddedLinks(t, links, parent, kids, i, w, after);
      links := links[w := links[w].(next := at, prev := null)];
      if at != null {
        AddFacts(t, old(links), parent, kids, i, w);
        if links[at].prev != null {
          links := links[w := links[w].(prev := links[at].prev)];
          links := links[links[at].prev := links[links[at].prev].(next := w)];
        }
        links := links[at := links[at].(prev := w)];
      }
      links := links[w := links[w].(parent := parent)];
      if links[w].prev == null {
        links := links[parent := links[parent].(childs := w)];
      }
      assert links == after;
    }

    /** wtree_add_after, behind an existing window */
    method TreeAddAfter(parent: Window, at: Window, w: Window, ghost t: Tree, ghost kids: seq<Window>, ghost i: nat)
      requires LinksButParent(links, t, parent, w) && Distinct(kids) && parent in t && parent !in kids && w !in kids && w != parent
      requires (forall k :: k in kids ==> k in t) && ChainOK(t, kids) && t[parent].childs == First(kids)
      requires 0 < i <= |kids| && at == kids[i - 1]
      modifies `links
      ensures LinksAre(links, Relinked(t, parent, kids[..i] + [w] + kids[i..]))
    {
      hide ChainOK, Distinct, LinksAre, Relinked;
      ghost var after := AddedAfter(links, parent, at, w);
      AddedLinks(t, links, parent, kids, i, w, after);
      AddFacts(t, links, parent, kids, i - 1, w);
      links := links[w := links[w].(prev := at, next := null)];
      if links[at].next != null {
        links := links[w := links[w].(next := links[at].next)];
        links := links[links[at].next := links[links[at].next].(prev := w)];
      }
      links := links[at := links[at].(next := w)];
      links := links[w := links[w].(parent := parent)];
      // `w` has got a predecessor, so the parent's first child stays.
      assert links[w].prev == at;
      assert links == after;
    }

    /** The search of window_restack from `w2` to the right: `w` is below it, so it moves up. */
    method IsRightOf(w: Window, w2: Window) returns (found: bool)
      requires Linked() && w in tree && w2 in tree && w != w2
      ensures found <==> w in RightOf(tree, w2)
    {
      var wp: Window? := w2;
      while wp != null && wp != w
        invariant wp != null ==> wp in tree
        invariant w in RightOf(tree, w2) <==> wp != null && (wp == w || w in RightOf(tree, wp))
        decreases if wp == null then 0 else 1 + |RightOf(tree, wp)|
      {
        SiblingLinks(tree, maxDepth, root, wp);
        RightLevel(tree, maxDepth, wp);
        ghost var right := RightOf(tree, wp);
        assert right != [] ==> right == [right[0]] + right[1..];
        wp := links[wp].next;
      }
      return wp != null;
    }

    /** Take `w` out of the tree and put it in again next to `w2`. */
    method Relink(w: Window, w2: Window, onTop: bool)
      requires Linked() && w in tree && w2 in tree && w != w2 && w != root && tree[w].parent == tree[w2].parent
      modifies `links, `tree
      ensures old(tree)[w].parent != null && old(tree)[w].parent in old(tree)
      ensures tree == Relinked(old(tree), old(tree)[w].parent, NewOrder(old(tree)[old(tree)[w].parent].kids, w, w2, onTop))
      ensures LinksAre(links, tree)
    {
      hide *;
      LinkFacts(w);
      var parent: Window := links[w].parent;
      ghost var t0, kids := tree, tree[parent].kids;
      KidsAt(t0, maxDepth, parent);
      RightIndex(t0, root, maxDepth, w, w2);
      ghost var rest := Dropped(kids, w);
      ghost var t1 := Relinked(t0, parent, rest);
      DroppedTree(t0, parent, kids, w, links);
      TreeRemove(w);
      RemovedButParent(links, t1, parent, w);
      PutIn(w, w2, onTop, parent, t1, kids);
      OrderMore(kids, w, w2, onTop);
      RelinkedTwice(t0, parent, rest, NewOrder(kids, w, w2, onTop));
      tree := Relinked(t1, parent, NewOrder(kids, w, w2, onTop));
    }

    /** The call of wtree_add_fn: wtree_add_before or wtree_add_after */
    method PutIn(w: Window, w2: Window, onTop: bool, parent: Window, ghost t: Tree, ghost kids: seq<Window>)
      requires Distinct(kids) && w in kids && w2 in kids && w != w2 && LinksButParent(links, t, parent, w)
      requires var rest := Dropped(kids, w);
               && Distinct(rest) && parent in t && parent !in rest && w !in rest && w != parent
               && (forall k :: k in rest ==> k in t) && ChainOK(t, rest) && t[parent].childs == First(rest)
      modifies `links
      ensures LinksAre(links, Relinked(t, parent, NewOrder(kids, w, w2, onTop)))
    {
      hide *;
      PassageIs(kids, w, w2, onTop);
      ghost var rest, n := Dropped(kids, w), NewIndex(kids, w, w2, onTop);
      if onTop {
        TreeAddBefore(parent, w2, w, t, rest, n);
      } else {
        TreeAddAfter(parent, w2, w, t, rest, n);
      }
    }

    /** `for (wp = first; wp != w; wp = wp->prev)`, or `wp->next`: traverse the subtrees of the
        siblings that the window has passed. */
    method TraverseBlock(first: Window, w: Window, up: bool, v: Visitor, ghost order: seq<Window>)
      requires Linked() && NullSafe(Now(), root, v) && Level(tree, maxDepth, w, order) && LedTo(tree, order, w, up)
      requires first == if order == [] then w else order[0]
      modifies `place, `shown, `store, `screen
      ensures Shape(tree, maxDepth) && w in tree && OnLevel(tree, order, tree[w].depth)
      ensures Now() == Fold(old(Now()), v, PreSeq(tree, maxDepth, Turns(old(Now()), v), order, tree[w].depth))
      ensures NullSafe(Now(), root, v) && Turns(Now(), v) == Turns(old(Now()), v)
    {
      hide *;
      LevelParts(tree, maxDepth, w, order);
      LedApart(tree, order, w, up);
      ghost var d, cut := tree[w].depth, Turns(Now(), v);
      ghost var goal := Fold(Now(), v, PreSeq(tree, maxDepth, cut, order, d));
      BlockStart(Now(), root, v, tree, maxDepth, order, d);
      var wp := first;
      ghost var i := 0;
      while wp != w
        invariant 0 <= i <= |order| && wp == (if i < |order| then order[i] else w)
        invariant BlockAt(Now(), root, v, cut, tree, maxDepth, order, d, i, goal)
        decreases |order| - i
      {
        BlockRound(Now(), root, v, cut, tree, maxDepth, order, d, i, goal);
        TraversePre(wp, v);
        wp := Neighbour(wp, w, up, order, i);
        i := i + 1;
      }
      BlockEnd(Now(), root, v, cut, tree, maxDepth, order, d, goal);
    }

    /** One step of these loops */
    method Neighbour(wp: Window, w: Window, up: bool, ghost order: seq<Window>, ghost i: nat) returns (next: Window)
      requires Linked() && LedTo(tree, order, w, up) && i < |order| && wp == order[i]
      ensures wp != w && next == if i + 1 < |order| then order[i + 1] else w
    {
      assert LedAt(tree, order, w, up, i);
      if up {
        next := links[wp].prev;
      } else {
        next := links[wp].next;
      }
    }

    /** Save the passed siblings, when the window has moved up, and the window itself. */
    method RestackSaving(first: Window, w: Window, r: Rect, up: bool, ghost s1: State, ghost order: seq<Window>)
      requires Linked() && RootBare(Now(), root) && s1.tree == tree && Level(tree, maxDepth, w, order) && LedTo(tree, order, w, up)
      requires Distinct(order) && w !in order && first == (if order == [] then w else order[0])
      requires Now() == s1 && s1.Domains() && w in s1.place && r == s1.place[w].pos
      modifies `place, `shown, `store, `screen
      ensures Now() == RestackSaved(s1, maxDepth, w, order, up) && RootBare(Now(), root)
    {
      hide *;
      LevelParts(tree, maxDepth, w, order);
      RestackSaves(s1, maxDepth, w, order, up);
      VisitsParts(tree, maxDepth, {}, w, order, up);
      NullSafeBare(Now(), root, SaveContents(r));
      NoTurns(Now(), SaveContents(r));
      if up {
        FoldConcat(s1, SaveContents(r), PreSeq(tree, maxDepth, {}, order, tree[w].depth), Pre(tree, maxDepth, {}, w));
        TraverseBlock(first, w, up, SaveContents(r), order);
      }
      TraversePre(w, SaveContents(r));
    }

    /** Rebuild the rectangles of the passed siblings and of the window. */
    method RestackRebuild(first: Window, w: Window, r: Rect, up: bool, ghost s1: State, ghost order: seq<Window>)
      requires Linked() && RootBare(Now(), root) && s1.tree == tree && Level(tree, maxDepth, w, order) && LedTo(tree, order, w, up)
      requires Distinct(order) && w !in order && first == (if order == [] then w else order[0])
      requires s1.Domains() && w in s1.place && r == s1.place[w].pos && root in s1.tree && Build(s1.tree, s1.place, root) == Shown([], true)
      requires Now() == RestackSaved(s1, maxDepth, w, order, up)
      modifies `place, `shown, `store, `screen
      ensures Now() == RestackPrepared(s1, maxDepth, w, order, up) && RootBare(Now(), root)
    {
      hide *;
      LevelParts(tree, maxDepth, w, order);
      SavedPlaces(s1, maxDepth, w, order, up);
      RestackRebuilds(s1, maxDepth, w, order, up);
      ghost var cut := Turns(Now(), RebuildRecs([r]));
      VisitsParts(tree, maxDepth, cut, w, order, up);
      NullSafeBare(Now(), root, RebuildRecs([r]));
      FoldConcat(Now(), RebuildRecs([r]), PreSeq(tree, maxDepth, cut, order, tree[w].depth), Pre(tree, maxDepth, cut, w));
      TraverseBlock(first, w, up, RebuildRecs([r]), order);
      TraversePre(w, RebuildRecs([r]));
    }

    /** Redraw what has become visible: the window, or the siblings that it has passed. */
    method RestackRedraw(first: Window, w: Window, r: Rect, up: bool, ghost s1: State, ghost order: seq<Window>)
      requires Linked() && RootBare(Now(), root) && s1.tree == tree && Level(tree, maxDepth, w, order) && LedTo(tree, order, w, up)
      requires Distinct(order) && w !in order && first == (if order == [] then w else order[0])
      requires s1.Domains() && w in s1.place && r == s1.place[w].pos
      requires Now() == RestackPrepared(s1, maxDepth, w, order, up)
      modifies `place, `shown, `store, `screen
      ensures Now() == RestackResult(s1, maxDepth, w, order, up)
    {
      hide *;
      LevelParts(tree, maxDepth, w, order);
      RestackIs(s1, maxDepth, w, order, up);
      VisitsParts(tree, maxDepth, {}, w, order, up);
      NullSafeBare(Now(), root, RedrawContents([r]));
      NoTurns(Now(), RedrawContents([r]));
      if up {
        TraversePre(w, RedrawContents([r]));
      } else {
        TraverseBlock(first, w, up, RedrawContents([r]), order);
      }
    }

    /** window_restack: put `w` just above (`onTop`) or just below `w2`. */
    method WindowRestack(w: Window, w2: Window, onTop: bool) returns (r: int)
      requires Valid() && w in tree && w2 in tree
      modifies `links, `tree, `place, `shown, `store, `screen
      ensures Valid() && place == old(place) && content == old(content)
      ensures r == if w == root || old(tree)[w].parent != old(tree)[w2].parent || w == w2 then -1 else 0
      ensures r != 0 ==> Now() == old(Now())
      ensures r == 0 ==> old(tree)[w].parent != null && old(tree)[w].parent in old(tree)
                         && tree == Relinked(old(tree), old(tree)[w].parent, NewOrder(old(tree)[old(tree)[w].parent].kids, w, w2, onTop))
      ensures r == 0 ==> Now() == DoStack(old(Now()), root, maxDepth, w, w2, onTop)
      ensures r == 0 ==> Restacks(old(Now()), Now(), w) && NextTo(tree, w, w2, onTop)
      ensures AllCoherent(old(Now())) ==> AllCoherent(Now())
    {
      hide *;
      Cases(w);
      Cases(w2);
      NowFields();
      LinksAt(w);
      LinksAt(w2);
      if links[w].parent == null || links[w].parent != links[w2].parent || w == w2 {
        return -1;
      }
      IsUsable(w);
      LinkFacts(w);
      ghost var d := WherePassed(w, w2, onTop);
      DoStackIs(Now(), root, maxDepth, w, w2, onTop);
      StackHere(w, w2, onTop);
      if (if onTop then links[w].next == w2 else links[w].prev == w2) {
        RelinkedSame(tree, maxDepth, links[w].parent);
        return 0;
      }
      var up := IsRightOf(w, w2);
      var oldnext, oldprev := links[w].next, links[w].prev;
      ghost var s := Now();
      RestackMoving(w, w2, onTop, up, if up then oldprev else oldnext, d);
      RestackEnds(s, Now(), maxDepth, w, d);
      NowFields();
      return 0;
    }

    lemma {:induction false} AreSiblings(w: Window, w2: Window)
      requires Valid() && w in tree && w2 in tree && w != w2 && w != root && tree[w].parent == tree[w2].parent
      ensures Siblings(Now(), root, maxDepth, w, w2)
    {
      hide Linked, Fine;
      IsUsable(w);
      ParentAt(tree, maxDepth, root, w);
      ParentAt(tree, maxDepth, root, w2);
    }

    lemma {:induction false} StackHere(w: Window, w2: Window, onTop: bool)
      requires Valid() && w in tree && w2 in tree && w != w2 && w != root && tree[w].parent == tree[w2].parent
      ensures var s' := DoStack(Now(), root, maxDepth, w, w2, onTop); Restacks(Now(), s', w) && NextTo(s'.tree, w, w2, onTop)
    {
      hide *;
      ValidParts();
      NowFields();
      AreSiblings(w, w2);
      StackRestacks(Now(), root, background, maxDepth, w, w2, onTop);
    }

    /** The passage that the request stands for. */
    lemma {:induction false} WherePassed(w: Window, w2: Window, onTop: bool) returns (d: Passage)
      requires Valid() && w in tree && w2 in tree && w != w2 && w != root && tree[w].parent == tree[w2].parent
      ensures Passes(Now(), root, maxDepth, w, d)
      ensures tree[w].parent != null && tree[w].parent in tree
      ensures w in tree[tree[w].parent].kids && w2 in tree[tree[w].parent].kids && d == PassageOf(tree[tree[w].parent].kids, w, w2, onTop)
      ensures d.New(w) == NewOrder(tree[tree[w].parent].kids, w, w2, onTop)
      ensures (if onTop then tree[w].next == w2 else tree[w].prev == w2) <==> d.passed == []
      ensures d.passed == [] ==> NewOrder(tree[tree[w].parent].kids, w, w2, onTop) == tree[tree[w].parent].kids
      ensures d.up <==> w in RightOf(tree, w2)
      ensures d.passed != [] ==> d.Order() != [] && (if d.up then tree[w].prev else tree[w].next) == d.Order()[0]
    {
      hide Linked, Fine, TreeOK, Shape, NewOrder, Before, After, RightOf, LeftOf;
      IsUsable(w);
      LinkFacts(w);
      RightIndex(tree, root, maxDepth, w, w2);
      var kids := tree[tree[w].parent].kids;
      KidsAt(tree, maxDepth, tree[w].parent);
      d := PassageOf(kids, w, w2, onTop);
      PassageIs(kids, w, w2, onTop);
      AlreadyThere(kids, w, w2, onTop);
      NextAndPrev(tree, maxDepth, tree[w].parent, w);
      if d.passed != [] { FirstPassed(tree, w, d); }
    }

    lemma {:induction false} LinksAt(w: Window)
      requires Linked() && w in tree
      ensures w in links && links[w] == Links(tree[w].next, tree[w].prev, tree[w].parent, tree[w].childs)
    {
    }

    /** window_restack once it is clear that the window moves */
    method RestackMoving(w: Window, w2: Window, onTop: bool, up: bool, first: Window?, ghost d: Passage)
      requires Valid() && w in tree && w2 in tree && w != w2 && w != root && tree[w].parent == tree[w2].parent
      requires Passes(Now(), root, maxDepth, w, d) && tree[w].parent != null && tree[w].parent in tree && d.up == up
      requires d.New(w) == NewOrder(tree[tree[w].parent].kids, w, w2, onTop) && d.Order() != [] && first == d.Order()[0]
      modifies `links, `tree, `place, `shown, `store, `screen
      ensures Valid() && place == old(place) && content == old(content)
      ensures tree == Relinked(old(tree), old(tree)[w].parent, NewOrder(old(tree)[old(tree)[w].parent].kids, w, w2, onTop))
      ensures old(Now()).Domains() && RestackEnd(old(Now()), Now(), maxDepth, w, d)
      ensures AllCoherent(old(Now())) ==> AllCoherent(Now())
    {
      hide *;
      IsUsable(w);
      NowFields();
      ghost var s := Now();
      IsRelinked(s, w, d);
      Relink(w, w2, onTop);
      NowFields();
      RestackFinish(w, up, first, s, d);
    }

    /** The rest of window_restack, after the links have been changed */
    method RestackFinish(w: Window, up: bool, first: Window, ghost s: State, ghost d: Passage)
      requires LinksAre(links, tree) && Passes(s, root, maxDepth, w, d) && Fine(s, root, background, maxDepth)
      requires s.Domains() && w in s.tree && s.tree[w].parent != null && (findCache != null ==> findCache in tree)
      requires Now() == Restacked(s, w, d) && d.up == up && d.Order() != [] && first == d.Order()[0]
      modifies `place, `shown, `store, `screen
      ensures Valid() && place == s.place && (AllCoherent(s) ==> AllCoherent(Now())) && RestackEnd(s, Now(), maxDepth, w, d)
    {
      hide *;
      NowFields();
      PassedTree(s, root, maxDepth, w, d);
      RestackedPlaces(s, w, d);
      MakeLinked();
      if place[w].isOpen {
        RestackOpen(w, place[w].pos, up, first, s, d);
        NowFields();
      }
      RestackEndIs(s, Now(), maxDepth, w, d);
      RestackGood(s, Now(), root, background, maxDepth, w, d);
      MakeValid();
    }

    /** window_restack of an open window, after the links have been changed */
    method RestackOpen(w: Window, r: Rect, up: bool, first: Window, ghost s: State, ghost d: Passage)
      requires Linked() && Passes(s, root, maxDepth, w, d) && Fine(s, root, background, maxDepth) && s.place[w].isOpen
      requires s.Domains() && w in s.tree && s.tree[w].parent != null
      requires Now() == Restacked(s, w, d) && r == s.place[w].pos && d.up == up && d.Order() != [] && first == d.Order()[0]
      modifies `place, `shown, `store, `screen
      ensures Level(Restacked(s, w, d).tree, maxDepth, w, d.Order())
      ensures Now() == RestackResult(Restacked(s, w, d), maxDepth, w, d.Order(), d.up)
    {
      hide *;
      NowFields();
      FineParts(s, root, background, maxDepth);
      PassedTree(s, root, maxDepth, w, d);
      RestackKeeps(s, root, background, maxDepth, w, d);
      RestackedPlaces(s, w, d);
      ghost var s1, order := Restacked(s, w, d), d.Order();
      PassedLed(s, root, maxDepth, w, d);
      RestackSaving(first, w, r, up, s1, order);
      RestackRebuild(first, w, r, up, s1, order);
      RestackRedraw(first, w, r, up, s1, order);
    }

    lemma {:induction false} MakeLinked()
      requires LinksAre(links, tree) && TreeOK(tree, root, maxDepth)
      ensures Linked()
    {
    }

    /** window_to_top */
    method WindowToTop(w: Window) returns (r: int)
      requires Valid() && w in tree
      modifies `links, `tree, `place, `shown, `store, `screen
      ensures Valid() && place == old(place) && content == old(content)
      ensures r == if w == root then -1 else 0
      ensures Now() == DoTop(old(Now()), root, maxDepth, w)
      ensures w != root ==> Restacks(old(Now()), Now(), w) && w in tree && LeftOf(tree, w) == []
      ensures w != root ==> old(tree)[w].parent != null && old(tree)[w].parent in old(tree)
                            && (var kids := old(tree)[old(tree)[w].parent].kids;
                                tree == Relinked(old(tree), old(tree)[w].parent, [w] + Dropped(kids, w)))
      ensures AllCoherent(old(Now())) ==> AllCoherent(Now())
    {
      hide *;
      Cases(w);
      NowFields();
      EndsHere(w);
      if links[w].parent == null {
        return -1;
      }
      IsUsable(w);
      LinkFacts(w);
      var parent: Window := links[w].parent;
      ghost var kids := tree[parent].kids;
      EndsOf(w);
      if links[w].prev == null {
        RelinkedSame(tree, maxDepth, parent);
        return 0;
      }
      LinksAt(parent);
      r := WindowRestack(w, links[parent].childs, true);
      NowFields();
    }

    /** window_to_bottom */
    method WindowToBottom(w: Window) returns (r: int)
      requires Valid() && w in tree
      modifies `links, `tree, `place, `shown, `store, `screen
      ensures Valid() && place == old(place) && content == old(content) && r == 0
      ensures Now() == DoBottom(old(Now()), root, maxDepth, w)
      ensures w != root ==> Restacks(old(Now()), Now(), w) && w in tree && RightOf(tree, w) == []
      ensures w != root ==> old(tree)[w].parent != null && old(tree)[w].parent in old(tree)
                            && (var kids := old(tree)[old(tree)[w].parent].kids;
                                tree == Relinked(old(tree), old(tree)[w].parent, Dropped(kids, w) + [w]))
      ensures AllCoherent(old(Now())) ==> AllCoherent(Now())
    {
      hide *;
      Cases(w);
      NowFields();
      EndsHere(w);
      if w == root {
        RootEnd();
        return 0;
      }
      IsUsable(w);
      LinkFacts(w);
      EndsOf(w);
      if links[w].next == null {
        RelinkedSame(tree, maxDepth, tree[w].parent);
        return 0;
      }
      BelowLast(w);
      NowFields();
      return 0;
    }

    /** The rest of window_to_bottom, when there is a lower sibling */
    method BelowLast(w: Window)
      requires Valid() && w in tree && w != root && tree[w].parent != null && tree[w].parent in tree
      requires var kids := tree[tree[w].parent].kids; kids != [] && w != kids[|kids| - 1]
      modifies `links, `tree, `place, `shown, `store, `screen
      ensures Valid() && place == old(place)
      ensures var t := old(tree);
              && t[w].parent != null && t[w].parent in t && t[t[w].parent].kids != []
              && var kids := t[t[w].parent].kids;
                 && Now() == DoStack(old(Now()), root, maxDepth, w, kids[|kids| - 1], false)
                 && tree == Relinked(t, t[w].parent, Dropped(kids, w) + [w])
      ensures AllCoherent(old(Now())) ==> AllCoherent(Now())
    {
      hide *;
      EndsOf(w);
      var last := LastSibling(w);
      var r := WindowRestack(w, last, false);
    }

    /** Where window_to_top and window_to_bottom lead. */
    lemma {:induction false} EndsHere(w: Window)
      requires Valid() && w in tree
      ensures w == root ==> DoTop(Now(), root, maxDepth, w) == DoBottom(Now(), root, maxDepth, w) == Now()
      ensures w != root ==> var s' := DoTop(Now(), root, maxDepth, w); Restacks(Now(), s', w) && w in s'.tree && LeftOf(s'.tree, w) == []
      ensures w != root ==> var s' := DoBottom(Now(), root, maxDepth, w); Restacks(Now(), s', w) && w in s'.tree && RightOf(s'.tree, w) == []
      ensures w != root ==> tree[w].parent != null && tree[w].parent in tree && tree[tree[w].parent].kids != []
      ensures w != root ==> var kids := tree[tree[w].parent].kids;
                && DoTop(Now(), root, maxDepth, w) == (if w == kids[0] then Now() else DoStack(Now(), root, maxDepth, w, kids[0], true))
                && DoBottom(Now(), root, maxDepth, w) == (if w == kids[|kids| - 1] then Now() else DoStack(Now(), root, maxDepth, w, kids[|kids| - 1], false))
    {
      hide *;
      ValidParts();
      NowFields();
      EndsEffect(Now(), root, background, maxDepth, w);
      DoEndsAre(Now(), root, maxDepth, w);
      if w != root {
        IsUsable(w);
        EndsOf(w);
      }
    }

    /** The loop of window_to_bottom. */
    method LastSibling(w: Window) returns (last: Window)
      requires Valid() && w in tree && w != root
      ensures tree[w].parent != null && tree[w].parent in tree && tree[tree[w].parent].kids != []
      ensures var kids := tree[tree[w].parent].kids; last == kids[|kids| - 1]
    {
      hide *;
      ValidParts();
      LinkFacts(w);
      ghost var parent, kids := tree[w].parent, tree[tree[w].parent].kids;
      EndsOf(w);
      last := w;
      ghost var i := IndexOf(kids, w);
      while links[last].next != null
        invariant 0 <= i < |kids| && kids[i] == last && last in links
        decreases |kids| - i
      {
        KidLinks(parent, kids, i);
        last := links[last].next;
        i := i + 1;
      }
      KidLinks(parent, kids, i);
    }

    lemma {:induction false} KidLinks(parent: Window, kids: seq<Window>, i: nat)
      requires Linked() && parent in tree && kids == tree[parent].kids && i < |kids|
      ensures kids[i] in links && links[kids[i]].next == if i + 1 < |kids| then kids[i + 1] else null
      ensures i + 1 < |kids| ==> kids[i + 1] in links
    {
      hide TreeOK, Shape;
      KidsAt(tree, maxDepth, parent);
      assert kids[i] in kids;
      if i + 1 < |kids| { assert kids[i + 1] in kids; }
      ChainAt(tree, kids, i);
    }

    /** The topmost and the bottommost sibling */
    lemma {:induction false} EndsOf(w: Window)
      requires Valid() && w in tree && w != root
      ensures tree[w].parent != null && tree[w].parent in tree && Shape(tree, maxDepth)
      ensures var kids := tree[tree[w].parent].kids;
              && w in kids && Distinct(kids) && tree[tree[w].parent].childs == kids[0]
              && (tree[w].prev == null <==> w == kids[0]) && (tree[w].next == null <==> w == kids[|kids| - 1])
              && kids[0] in tree && kids[|kids| - 1] in tree
              && tree[kids[0]].parent == tree[w].parent && tree[kids[|kids| - 1]].parent == tree[w].parent
              && (w == kids[0] ==> [w] + Dropped(kids, w) == kids)
              && (w != kids[0] ==> NewOrder(kids, w, kids[0], true) == [w] + Dropped(kids, w))
              && (w == kids[|kids| - 1] ==> Dropped(kids, w) + [w] == kids)
              && (w != kids[|kids| - 1] ==> NewOrder(kids, w, kids[|kids| - 1], false) == Dropped(kids, w) + [w])
    {
      hide Linked, Fine;
      ValidParts();
      NextIn(tree, maxDepth, root, w);
      assert ParentOK(tree, w);
      KidsAt(tree, maxDepth, tree[w].parent);
      var kids := tree[tree[w].parent].kids;
      var i := IndexOf(kids, w);
      ChainAt(tree, kids, i);
      assert kids[0] in kids && kids[|kids| - 1] in kids;
      OrderEnds(kids, w);
    }

    lemma {:induction false} RootEnd()
      requires Valid()
      ensures root in tree && root in links && links[root].next == null
    {
    }

    // ----- window_find -----

    /** The inner loop: the first open window of a sibling list that contains the point. */
    method FirstOpen(first: Window?, p: Pixel, ghost list: seq<Window>) returns (hit: Window?)
      requires Linked() && Now().Domains() && (forall k :: k in list ==> k in tree) && ChainOK(tree, list)
      requires first == if list == [] then null else list[0]
      ensures hit == FirstHit(place, list, p)
    {
      hide TreeOK, Shape, FirstHit, ChainOK;
      var wp := first;
      ghost var i := 0;
      assert list[0..] == list;
      while wp != null
        invariant 0 <= i <= |list| && wp == (if i < |list| then list[i] else null)
        invariant FirstHit(place, list[i..], p) == FirstHit(place, list, p)
        decreases |list| - i
      {
        FirstHitStep(place, list, i, p);
        assert list[i] in list;
        ChainAt(tree, list, i);
        if place[wp].isOpen && place[wp].pos.Has(p) {
          return wp;
        }
        wp := links[wp].next;
        i := i + 1;
      }
      NoMoreHits(place, list, p);
      return null;
    }

    /** The search from the root. */
    method Search(p: Pixel) returns (found: Window?)
      requires Valid()
      ensures Shape(tree, maxDepth) && root in tree && found == Find(tree, maxDepth, place, root, p)
      ensures found != null ==> found in tree
    {
      hide Linked, Fine, TreeOK, Shape, FindFrom, FirstHit;
      ValidParts();
      RootAlone();
      var hit := FirstOpen(root, p, [root]);
      if hit == null {
        return null;
      }
      var wp: Window := hit;
      while place[wp].work.Has(p)
        invariant wp in tree && FindFrom(tree, maxDepth, place, wp, p) == Find(tree, maxDepth, place, root, p)
        decreases maxDepth + 1 - tree[wp].depth
      {
        SearchStep(tree, maxDepth, place, wp, p);
        KidsAt(tree, maxDepth, wp);
        LinksAt(wp);
        hit := FirstOpen(links[wp].childs, p, tree[wp].kids);
        if hit == null {
          return wp;
        }
        KidHasParent(tree, maxDepth, wp, hit);
        DepthBound(tree, maxDepth, hit);
        wp := hit;
      }
      SearchStep(tree, maxDepth, place, wp, p);
      return wp;
    }

    lemma {:induction false} RootAlone()
      requires Valid()
      ensures root in tree && ChainOK(tree, [root]) && Now().Domains() && root in place
      ensures tree.Keys == place.Keys
    {
    }

    /** The loop over the rectangles of the cached window: the index of the one that contains
        the point, or the length of the list. */
    method RectAt(recs: seq<Rect>, p: Pixel) returns (i: nat)
      ensures i <= |recs| && (i < |recs| ==> recs[i].Has(p)) && forall j :: 0 <= j < i ==> !recs[j].Has(p)
    {
      i := 0;
      while i < |recs| && !recs[i].Has(p)
        invariant 0 <= i <= |recs| && forall j :: 0 <= j < i ==> !recs[j].Has(p)
      {
        i := i + 1;
      }
    }

    /** window_find */
    method WindowFind(x: int, y: int, useCache: bool) returns (found: Window?)
      requires Valid()
      modifies `findCache, `shown
      ensures Valid() && Shape(tree, maxDepth) && root in tree && found == Find(tree, maxDepth, place, root, Pixel(x, y))
      ensures shown.Keys == old(shown).Keys
      ensures forall w, p :: w in tree && w in old(shown) && w in shown ==> (Covers(shown[w].recs, p) <==> Covers(old(shown[w]).recs, p))
      ensures found != null ==> found in tree && Vis(tree, place, found, Pixel(x, y))
      ensures found == null ==> forall w :: w in tree ==> !Vis(tree, place, w, Pixel(x, y))
      ensures useCache ==> Seeks(World(old(Now()), maxDepth, old(findCache)), World(Now(), maxDepth, findCache), Pixel(x, y))
      ensures !useCache ==> Now() == old(Now()) && findCache == old(findCache)
      ensures World(Now(), maxDepth, findCache) == DoFind(World(old(Now()), maxDepth, old(findCache)), root, Pixel(x, y), useCache)
      ensures AllCoherent(old(Now())) ==> AllCoherent(Now())
    {
      hide *;
      ValidParts();
      NowFields();
      RootAlone();
      var p := Pixel(x, y);
      DoFindIs(World(Now(), maxDepth, findCache), root, p, useCache);
      CacheLive();
      FindSeeks(World(Now(), maxDepth, findCache), root, background, p);
      FindOwns(Now(), root, background, maxDepth, p);
      if useCache && findCache != null && place[findCache].isOpen {
        var w: Window := findCache;
        ShownKeys();
        FineParts(Now(), root, background, maxDepth);
        var i := RectAt(shown[w].recs, p);
        FirstAt(shown[w].recs, p, i);
        if i < |shown[w].recs| {
          CacheHit(Now(), root, maxDepth, w, i, p);
          MoveToFront(w, i);
          NowFields();
          return w;
        }
      }
      found := Search(p);
      if useCache {
        findCache := found;
      }
      NowFields();
      CacheKept();
    }

    lemma {:induction false} ShownKeys()
      requires Now().Domains()
      ensures shown.Keys == tree.Keys
    {
    }

    /** Put the i-th rectangle of `w` to the front of its list. */
    method MoveToFront(w: Window, i: nat)
      requires Valid() && w in tree && w in shown && i < |shown[w].recs|
      modifies `shown
      ensures Valid() && shown.Keys == old(shown).Keys && old(Now()).Domains() && old(Now()).shown == old(shown)
      ensures Now() == Finding.Reordered(old(Now()), w, i)
      ensures forall x, p :: x in tree && x in old(shown) && x in shown ==> (Covers(shown[x].recs, p) <==> Covers(old(shown[x]).recs, p))
      ensures AllCoherent(old(Now())) ==> AllCoherent(Now())
    {
      hide Linked, Fine, Sound, AllCoherent, Covers, TreeOK, Shape;
      ghost var s := Now();
      ValidParts();
      FineParts(s, root, background, maxDepth);
      ReorderedOK(s, root, maxDepth, w, i);
      var recs := shown[w].recs;
      shown := shown[w := shown[w].(recs := [recs[i]] + recs[..i] + recs[i + 1..])];
      assert Now() == Reordered(s, w, i);
      FineAgain(s, Now(), root, background, maxDepth);
      MakeValid();
    }

    lemma {:induction false} CacheKept()
      requires Linked() && Fine(Now(), root, background, maxDepth) && (findCache != null ==> findCache in tree)
      ensures Valid()
    {
    }

    // ----- Drawing -----

    /** The first half of the branch that all drawing functions have in common: the window is
        shown as a whole, so draw on the screen.  Coordinates are relative to the window. */
    method DrawOnScreen(w: Window, paint: Paint, r: Rect, clip: Rect)
      requires Now().Domains() && w in tree && place[w].isOpen && !shown[w].hidden
      modifies `store, `screen, `content
      ensures Now() == Drawn(old(Now()), w, paint, r, clip)
    {
      hide Painted;
      screen := Painted(screen, paint, r, clip, place[w].pos.x0, place[w].pos.y0);
      store := store[w := store[w].(isDirty := true)];
      content := content[w := Painted(content[w], paint, r, clip, 0, 0)];
    }

    /** The other half: draw into the bitmap, and remember what to redraw later. */
    method DrawInBitmap(w: Window, paint: Paint, r: Rect, clip: Rect)
      requires Now().Domains() && w in tree && !(place[w].isOpen && !shown[w].hidden)
      modifies `store, `content
      ensures Now() == Drawn(old(Now()), w, paint, r, clip)
    {
      hide Painted, DirtyWith;
      var n := store[w];
      if place[w].isOpen {
        store := store[w := n.(bitmap := Painted(n.bitmap, paint, r, clip, 0, 0), dirty := DirtyWith(n.dirty, r))];
      } else {
        store := store[w := n.(bitmap := Painted(n.bitmap, paint, r, clip, 0, 0))];
      }
      content := content[w := Painted(content[w], paint, r, clip, 0, 0)];
    }

    /** The same for the root, which counts as hidden: its bitmap is that of the screen. */
    method DrawInRoot(paint: Paint, r: Rect, clip: Rect)
      requires Now().Domains() && root in tree
      modifies `store, `screen
      ensures Now() == RootDrawn(old(Now()), root, paint, r, clip)
    {
      hide Painted, DirtyWith;
      screen := Painted(screen, paint, r, clip, 0, 0);
      store := store[root := store[root].(dirty := DirtyWith(store[root].dirty, r))];
    }

    method Draw(w: Window, paint: Paint, r: Rect, clip: Rect)
      requires Valid() && w in tree && Contains(Rect(0, 0, place[w].pos.w, place[w].pos.h), clip)
      modifies `store, `screen, `content
      ensures Valid() && Now() == DoDraw(old(Now()), root, w, paint, r, clip)
      ensures w != root ==> content == old(content)[w := Painted(old(content[w]), paint, r, clip, 0, 0)]
      ensures AllCoherent(old(Now())) ==> (AllCoherent(Now()) <==> !(w == root && Defaces(old(Now()), paint, r, clip)))
    {
      hide *;
      ghost var s := Now();
      ValidParts();
      NowFields();
      RootAlone();
      ShownKeys();
      FineParts(s, root, background, maxDepth);
      DoDrawIs(s, root, w, paint, r, clip);
      if w == root {
        BareIs(s, root);
        RootDrawTheorem(s, root, maxDepth, paint, r, clip);
        DrawInRoot(paint, r, clip);
        NowFields();
        FineAgain(s, Now(), root, background, maxDepth);
        MakeValid();
        return;
      }
      DrawTheorem(s, root, maxDepth, w, paint, r, clip);
      if place[w].isOpen && !shown[w].hidden {
        DrawOnScreen(w, paint, r, clip);
      } else {
        DrawInBitmap(w, paint, r, clip);
      }
      NowFields();
      FineAgain(s, Now(), root, background, maxDepth);
      MakeValid();
    }

    /** client_plot: one pixel of the working area */
    method ClientPlot(w: Window, x0: int, y0: int, paint: Paint)
      requires Valid() && w in tree
      modifies `store, `screen, `content
      ensures Valid() && w in place && Now() == DoDraw(old(Now()), root, w, paint, BoxAt(place[w].area, x0, y0, 1, 1), place[w].area)
      ensures var area := place[w].area; Draws(old(Now()), Now(), root, w, paint, p => AtPlot(area, x0, y0, p))
      ensures AllCoherent(old(Now())) ==>
                (AllCoherent(Now()) <==> !(w == root && Defaces(old(Now()), paint, BoxAt(place[w].area, x0, y0, 1, 1), place[w].area)))
    {
      hide Valid, Linked, Fine, AllCoherent, Painted, Defaces, DoDraw, Draws;
      AreaInside(w);
      DrawKeys(w);
      PlotDraws(Now(), root, w, x0, y0, paint);
      Draw(w, paint, Rect(x0 + place[w].area.x0, y0 + place[w].area.y0, 1, 1), place[w].area);
    }

    lemma {:induction false} DrawKeys(w: Window)
      requires Valid() && w in tree
      ensures Now().Domains() && w in Now().tree && w in Now().place && Now().place[w] == place[w]
    {
      ValidParts();
    }

    lemma {:induction false} AreaInside(w: Window)
      requires Valid() && w in tree
      ensures w in place && Contains(Rect(0, 0, place[w].pos.w, place[w].pos.h), place[w].area)
    {
      assert PlaceOK(place[w]);
    }

    /** client_box for a filled box; a negative width or height means that the box extends to
        the left of, or above, the given point. */
    method ClientBox(w: Window, x0: int, y0: int, width: int, height: int, paint: Paint)
      requires Valid() && w in tree
      modifies `store, `screen, `content
      ensures Valid() && w in place && Now() == DoDraw(old(Now()), root, w, paint, BoxAt(place[w].area, x0, y0, width, height), place[w].area)
      ensures var area := place[w].area; Draws(old(Now()), Now(), root, w, paint, p => InBox(area, x0, y0, width, height, p))
      ensures AllCoherent(old(Now())) ==>
                (AllCoherent(Now()) <==> !(w == root && Defaces(old(Now()), paint, BoxAt(place[w].area, x0, y0, width, height), place[w].area)))
    {
      hide Valid, Linked, Fine, AllCoherent, Painted, Defaces, DoDraw, Draws;
      AreaInside(w);
      DrawKeys(w);
      BoxDraws(Now(), root, w, x0, y0, width, height, paint);
      var x, y, wd, ht := x0 + place[w].area.x0, y0 + place[w].area.y0, width, height;
      if wd < 0 {
        x, wd := x + wd, -wd;
      }
      if ht < 0 {
        y, ht := y + ht, -ht;
      }
      Draw(w, paint, Rect(x, y, wd, ht), place[w].area);
    }

    /** The picture that a copy reads. */
    method Snapshot(v: Window) returns (source: Picture)
      requires Now().Domains() && v in tree
      ensures source == Source(Now(), root, v)
    {
      if place[v].isOpen && !shown[v].hidden {
        source := SeenFrom(screen, place[v].pos.x0, place[v].pos.y0);
      } else if v == root {
        source := screen;
      } else {
        source := store[v].bitmap;
      }
    }

    /** client_bitblk2; client_bitblk is the case that both windows are the same. */
    method ClientBitblk2(v: Window, x0: int, y0: int, width: int, height: int, w: Window, x1: int, y1: int)
      requires Valid() && v in tree && w in tree
      modifies `store, `screen, `content
      ensures Valid() && Now() == DoCopy(old(Now()), root, v, x0, y0, width, height, w, x1, y1)
      ensures AllCoherent(old(Now())) && w != root ==> AllCoherent(Now())
      ensures v == root || AllCoherent(old(Now())) ==> Copies(old(Now()), Now(), root, v, x0, y0, width, height, w, x1, y1)
    {
      hide *;
      ValidParts();
      NowFields();
      RootAlone();
      AreaInside(w);
      ghost var s := Now();
      FineParts(s, root, background, maxDepth);
      CopyIs(s, root, v, x0, y0, width, height, w, x1, y1);
      if v != root && AllCoherent(s) { CoherentAt(s, v); }
      if v == root || AllCoherent(s) { CopyTransfers(s, root, background, maxDepth, v, x0, y0, width, height, w, x1, y1); }
      var from, to := place[v].area, place[w].area;
      var source := Snapshot(v);
      Draw(w, CopyPaint(source, from, to.x0 + x1 - from.x0 - x0, to.y0 + y1 - from.y0 - y0), Rect(to.x0 + x1, to.y0 + y1, width, height), to);
    }

    /** windowActivate and windowDeactivate: draw the frame, anywhere in the window.  The
        background and windows without a border have no frame. */
    method DrawFrame(w: Window, paint: Paint)
      requires Valid() && w in tree && w != root
      modifies `store, `screen, `content
      ensures Valid() && w in place && (AllCoherent(old(Now())) ==> AllCoherent(Now()))
      ensures var pos, work := place[w].pos, place[w].work;
              var r, clip := Rect(1, 1, pos.w - 2, pos.h - 2), Whole(place[w]);
              if w == background || !place[w].isOpen || work == pos then Now() == old(Now())
              else Now() == DoDraw(old(Now()), root, w, paint, r, clip)
                   && Draws(old(Now()), Now(), root, w, paint, p => r.Has(p) && clip.Has(p))
    {
      hide Valid, Linked, Fine, AllCoherent, Painted, Defaces, DoDraw, Draws;
      AreaInside(w);
      DrawKeys(w);
      if w == background || !place[w].isOpen || place[w].work == place[w].pos {
        return;
      }
      var pos := place[w].pos;
      ghost var r, clip := Rect(1, 1, pos.w - 2, pos.h - 2), Whole(place[w]);
      DrawDraws(Now(), root, w, paint, r, clip, p => r.Has(p) && clip.Has(p));
      Draw(w, paint, Rect(1, 1, pos.w - 2, pos.h - 2), Whole(place[w]));
    }

    /** Titles and gadgets: drawn anywhere in a window other than the root. */
    method Decorate(w: Window, r: Rect, paint: Paint)
      requires Valid() && w in tree && w != root
      modifies `store, `screen, `content
      ensures Valid() && (AllCoherent(old(Now())) ==> AllCoherent(Now()))
      ensures w in place && Now() == DoDraw(old(Now()), root, w, paint, r, Whole(place[w]))
      ensures var a := place[w]; Draws(old(Now()), Now(), root, w, paint, p => InWindow(a, r, p))
    {
      hide Valid, Linked, Fine, AllCoherent, Painted, Defaces, DoDraw, Draws;
      AreaInside(w);
      DrawKeys(w);
      DecorateDraws(Now(), root, w, r, paint);
      Draw(w, paint, r, Whole(place[w]));
    }

    /** windowRedrawAllIfDirty: afterwards the screen shows, at every pixel, the content of the
        window that owns the pixel. */
    method RedrawAllIfDirty()
      requires Valid()
      modifies `place, `shown, `store, `screen
      ensures Valid() && place == old(place) && content == old(content)
      ensures Now() == DoRefresh(old(Now()), root, maxDepth) && Refreshes(old(Now()), Now())
      ensures AllCoherent(old(Now())) ==> AllCoherent(Now()) && Sound(Now(), root, maxDepth) && UpToDate(Now(), root, maxDepth)
    {
      hide *;
      ValidParts();
      NowFields();
      FineParts(Now(), root, background, maxDepth);
      RedrawAllKeeps(Now(), root, background, maxDepth);
      DoRefreshIs(Now(), root, maxDepth);
      RefreshRefreshes(Now(), root, background, maxDepth);
      NullSafeBare(Now(), root, RedrawIfDirty);
      NoTurns(Now(), RedrawIfDirty);
      TraversePre(root, RedrawIfDirty);
      NowFields();
      MakeValid();
    }

    // ----- window_create -----

    /** window_create: a new window, closed, on top of the children of `parent`. */
    method WindowCreate(parent: Window, width: int, height: int, border: bool, title: bool, titleHeight: int) returns (w: Window)
      requires Valid() && parent in tree && 0 < width && 0 < height && 0 <= titleHeight
      modifies `links, `tree, `place, `shown, `store, `content, `maxDepth
      ensures Valid() && fresh(w) && w in tree && tree == Planted(old(tree), parent, w)
      ensures NewWindow(old(Now()), Now(), parent, w, width, height, border, title, titleHeight)
      ensures place == old(place)[w := NewPlace(width, height, border, title, titleHeight)]
      ensures old(Now()).Domains() && parent in old(Now()).tree && w in Now().tree
      ensures Creates(World(old(Now()), old(maxDepth), old(findCache)), parent, NewPlace(width, height, border, title, titleHeight), World(Now(), maxDepth, findCache), w)
      ensures AllCoherent(old(Now())) ==> AllCoherent(Now())
    {
      hide *;
      w := new Window();
      ValidParts();
      NowFields();
      RootAlone();
      assert w !in tree;
      ghost var a := World(Now(), maxDepth, findCache);
      PutNew(parent, w, NewPlace(width, height, border, title, titleHeight));
      CreateNew(a, parent, width, height, border, title, titleHeight, World(Now(), maxDepth, findCache), w, root, background);
    }

    method PutNew(parent: Window, w: Window, a: Place)
      requires Valid() && parent in tree && w !in tree && PlaceOK(a) && !a.isOpen
      modifies `links, `tree, `place, `shown, `store, `content, `maxDepth
      ensures Valid() && tree == Planted(old(tree), parent, w) && place == old(place)[w := a]
      ensures old(Now()).Domains() && parent in old(Now()).tree && w in Now().tree
      ensures Creates(World(old(Now()), old(maxDepth), old(findCache)), parent, a, World(Now(), maxDepth, findCache), w)
      ensures AllCoherent(old(Now())) ==> AllCoherent(Now())
    {
      hide *;
      ValidParts();
      NowFields();
      ghost var s := Now();
      ghost var more := DepthWith(s.tree, maxDepth, parent);
      var blank: Picture := (p: Pixel) => 0;
      CreateReady(s, root, background, maxDepth, parent, w, a, blank);
      LinkNew(parent, w, more);
      InitNew(w, a, blank);
      NowFields();
      CreatesIs(World(s, old(maxDepth), findCache), parent, a, World(Now(), maxDepth, findCache), w);
      MakeLinked();
      MakeValid();
    }

    /** The fields of a new window. */
    method InitNew(w: Window, a: Place, blank: Picture)
      modifies `place, `shown, `store, `content
      ensures Now() == State(tree, old(place)[w := a], old(shown)[w := Shown([], false)],
                             old(store)[w := Store(blank, false, Rect(0, 0, 0, 0))], old(content)[w := blank], screen)
      ensures place == Now().place
    {
      place := place[w := a];
      shown := shown[w := Shown([], false)];
      store := store[w := Store(blank, false, Rect(0, 0, 0, 0))];
      content := content[w := blank];
    }

    /** The links of a new window. */
    method LinkNew(parent: Window, w: Window, ghost more: nat)
      requires Linked() && parent in tree && w !in tree && parent != w && TreeOK(tree, root, more) && Shape(tree, more)
      modifies `links, `tree, `maxDepth
      ensures tree == Planted(old(tree), parent, w) && maxDepth == more && LinksAre(links, tree)
    {
      hide TreeOK, Shape, Relinked, ChainOK, Distinct;
      ghost var t, kids := tree, tree[parent].kids;
      KidsAt(t, more, parent);
      NewKids(t, more, parent, w);
      ChainSown(t, parent, w, kids);
      LinksAt(parent);
      links := links[w := Links(null, null, null, null)];
      FirstIndex(kids, w);
      TreeAddBefore(parent, links[parent].childs, w, Sown(t, parent, w), kids, 0);
      tree := Planted(t, parent, w);
      maxDepth := more;
    }

    // ----- window_delete -----

    /** window_delete_one: unlink the window, drop it, and forget it in the cache. */
    method DeleteOne(n: Window)
      requires Valid() && n in tree && n != root && n != background && tree[n].kids == []
      requires tree[n].parent != null && tree[n].parent in tree && Fine(Deleted(Now(), n), root, background, maxDepth)
      modifies `links, `tree, `place, `shown, `store, `content, `findCache
      ensures Valid() && Now() == Deleted(old(Now()), n) && findCache == if old(findCache) == n then null else old(findCache)
    {
      hide *;
      ValidParts();
      NowFields();
      ghost var s := Now();
      TreeRemove(n);
      WithoutIs(s.tree, n);
      LinksDropped(links, Relinked(s.tree, s.tree[n].parent, Dropped(s.tree[s.tree[n].parent].kids, n)), n);
      DeletedIs(s, n);
      Forget(n);
      FineParts(Now(), root, background, maxDepth);
      MakeLinked();
      MakeValid();
    }

    /** The fields of a freed window are gone. */
    method Forget(n: Window)
      requires n in tree && tree[n].parent != null && tree[n].parent in tree
      modifies `links, `tree, `place, `shown, `store, `content, `findCache
      ensures Now() == State(WithoutLeaf(old(tree), n), old(place) - {n}, old(shown) - {n}, old(store) - {n}, old(content) - {n}, screen)
      ensures links == old(links) - {n} && tree == Now().tree
      ensures findCache == if old(findCache) == n then null else old(findCache)
    {
      hide WithoutLeaf;
      tree := WithoutLeaf(tree, n);
      links := links - {n};
      place, shown, store, content := place - {n}, shown - {n}, store - {n}, content - {n};
      if findCache == n {
        findCache := null;
      }
    }

    /** wtree_traverse_post with window_delete_one: the window the loop stands at is freed, so
        the next one is looked up first. */
    method TraverseDelete(top: Window)
      requires Valid() && top in tree && top != root && top != background && !AllOpen(tree, place, top)
      modifies `links, `tree, `place, `shown, `store, `content, `findCache
      ensures Valid() && old(Now()).Domains() && top in old(Now()).tree && old(Now()).tree[top].parent != null && old(Now()).tree[top].parent in old(Now()).tree
      ensures Now() == Pruned(old(Now()), top)
      ensures findCache == Remembered(old(findCache), tree)
    {
      hide *;
      ValidParts();
      NowFields();
      ghost var s0 := Now();
      DeleteStart(s0, top);
      var at := Stand(top, false);
      DeletingToIs(tree, place, s0.tree, top, at);
      RememberedIs(findCache, tree);
      while at.w != null
        invariant Valid() && Now().Domains() && Untouched(s0, Now()) && tree.Keys <= s0.tree.Keys
        invariant findCache == Remembered(old(findCache), tree)
        invariant DeletingTo(tree, place, s0.tree, top, at)
        decreases |tree|, Height(tree, maxDepth, at)
      {
        ghost var t, was, c := tree, at, findCache;
        at := DeleteNext(top, at, s0);
        ValidParts();
        NearerIs(t, tree, maxDepth, was, at);
        RememberedIs(old(findCache), t);
        RememberedIs(old(findCache), tree);
        RememberedIs(c, tree);
      }
      NowFields();
      DeletingToIs(tree, place, s0.tree, top, at);
      ShornIs(s0.tree, tree, top);
      UntouchedPruned(s0, Now(), top);
    }

    /** One round of this loop. */
    method DeleteNext(top: Window, at: Stand, ghost s0: State) returns (next: Stand)
      requires Valid() && at.w != null && DeletingTo(tree, place, s0.tree, top, at) && Untouched(s0, Now())
      requires top != root && top != background && TreeOK(s0.tree, root, maxDepth)
      modifies `links, `tree, `place, `shown, `store, `content, `findCache
      ensures Valid() && Untouched(s0, Now()) && tree.Keys <= old(tree).Keys
      ensures findCache == Remembered(old(findCache), tree)
      ensures DeletingTo(tree, place, s0.tree, top, next) && Nearer(old(tree), tree, maxDepth, at, next)
    {
      hide *;
      ValidParts();
      NowFields();
      RootAlone();
      var w: Window := at.w;
      ghost var s := Now();
      DeletingToIs(tree, place, s0.tree, top, at);
      RememberedIs(findCache, tree);
      DeletingHas(tree, place, s0.tree, top, at);
      LinksAt(w);
      if !at.visited && links[w].childs != null {
        PathDown(tree, maxDepth, top, w);
        next := Stand(links[w].childs, false);
        DeletingDown(tree, place, s0.tree, top, at, next);
        DeletingToIs(tree, place, s0.tree, top, next);
        NearerIs(tree, tree, maxDepth, at, next);
        return;
      }
      LeafHere(tree, maxDepth, w, at.visited);
      DeleteStep(s0, Now(), root, background, maxDepth, top, w);
      if w == top {
        next := Stand(null, false);
      } else {
        PathOn(tree, maxDepth, root, top, w);
        if links[w].next != null {
          next := Stand(links[w].next, false);
        } else {
          next := Stand(links[w].parent, true);
        }
      }
      DeleteOne(w);
      NowFields();
      KeysFewer(s.tree, w, tree);
      DeletedTree(s, w);
      if w != top { DeletingOn(tree, place, s0.tree, top, next); }
      DeletingToIs(tree, place, s0.tree, top, next);
      ShornIs(s0.tree, tree, top);
      NearerIs(s.tree, tree, maxDepth, at, next);
      RememberedIs(old(findCache), tree);
    }

    /** window_delete.  The background window is never deleted: client_delete refuses its handle. */
    method WindowDelete(w: Window) returns (r: int)
      requires Valid() && w in tree && w != background
      modifies `links, `tree, `place, `shown, `store, `screen, `content, `findCache
      ensures Valid() && r == if w == root then -1 else 0
      ensures World(Now(), maxDepth, findCache) == Deletion(World(old(Now()), maxDepth, old(findCache)), root, w)
      ensures w != root ==> Shorn(old(tree), tree, w) && Deletes(old(Now()), Now(), w)
      ensures AllCoherent(old(Now())) ==>
                (AllCoherent(Now()) <==> w == root || !AllOpen(old(tree), old(place), w) || !StaleBorder(old(Now()), w))
    {
      hide *;
      Cases(w);
      NowFields();
      ValidParts();
      if links[w].parent == null {
        DoDeleteIs(Now(), root, maxDepth, w);
        DeletionIs(World(Now(), maxDepth, findCache), root, w);
        RememberedIs(findCache, tree);
        return -1;
      }
      DeletesHere(w);
      DeleteUsable(w);
      return 0;
    }

    lemma {:induction false} DeletesHere(w: Window)
      requires Valid() && w in tree && w != root && w != background
      ensures Deletes(Now(), Deletion(World(Now(), maxDepth, findCache), root, w).s, w)
    {
      hide *;
      ValidParts();
      NowFields();
      CacheLive();
      MakePlain(w);
      DeleteDeletes(World(Now(), maxDepth, findCache), root, background, w);
    }

    /** window_delete of a window other than the root */
    method DeleteUsable(w: Window)
      requires Valid() && w in tree && w != root && w != background
      modifies `links, `tree, `place, `shown, `store, `screen, `content, `findCache
      ensures Valid() && Shorn(old(tree), tree, w)
      ensures World(Now(), maxDepth, findCache) == Deletion(World(old(Now()), maxDepth, old(findCache)), root, w)
      ensures AllCoherent(old(Now())) ==>
                (AllCoherent(Now()) <==> !AllOpen(old(tree), old(place), w) || !StaleBorder(old(Now()), w))
    {
      hide *;
      IsUsable(w);
      NowFields();
      ghost var s := Now();
      DeleteTheorem(s, root, background, maxDepth, w);
      DoDeleteIs(s, root, maxDepth, w);
      DeletionIs(World(s, maxDepth, findCache), root, w);
      CloseFirst(w);
      TraverseDelete(w);
      NowFields();
      DeleteIs(s, root, maxDepth, w);
      ShornIs(s.tree, tree, w);
    }

    /** The window is closed first, if it is open. */
    method CloseFirst(w: Window)
      requires Valid() && w in tree && w != root && w != background
      modifies `place, `shown, `store, `screen
      ensures Valid() && !AllOpen(tree, place, w) && w in old(place)
      ensures Usable(old(Now()), root, maxDepth, w)
      ensures Now() == if AllOpen(tree, old(place), w) then CloseResult(old(Now()), root, maxDepth, w) else old(Now())
    {
      hide *;
      IsUsable(w);
      NowFields();
      ghost var s := Now();
      DoCloseIs(s, root, maxDepth, w);
      if place[w].isOpen {
        var closed := WindowClose(w);
        NowFields();
        if AllOpen(s.tree, s.place, w) { JustClosed(s, Now(), w); }
      } else {
        NotOpen(tree, place, w);
      }
    }

    // ----- windowKillClient -----

    /** killClient: delete the window if it is one of the client's.  client_delete refuses the
        root and the background. */
    method KillOne(w: Window, mine: set<Window>, ghost a: World, ghost log0: Log) returns (ghost log: Log)
      requires Valid() && w in tree && w != root && Killed(a, World(Now(), maxDepth, findCache), log0, mine - {root, background}, root, background)
      modifies `links, `tree, `place, `shown, `store, `screen, `content, `findCache
      ensures Valid() && Killed(a, World(Now(), maxDepth, findCache), log, mine - {root, background}, root, background)
      ensures w !in mine - {root, background} ==> tree == old(tree)
      ensures w in mine - {root, background} ==> Shorn(old(tree), tree, w)
    {
      hide *;
      NowFields();
      ValidParts();
      ghost var b, kill := World(Now(), maxDepth, findCache), mine - {root, background};
      log := log0;
      if w in mine && w != background {
        KilledOn(a, b, log0, kill, w, root, background);
        var r := WindowDelete(w);
        log := Logged(log0, w, World(Now(), maxDepth, findCache));
        NowFields();
        ShornIs(b.s.tree, tree, w);
      }
    }

    /** One round of wtree_traverse_post with killClient: the next window is looked up before
        the visit, for the visited one may be gone afterwards. */
    method KillRound(top: Window, at: Stand, mine: set<Window>, ghost next: Window?, ghost a: World, ghost log0: Log)
        returns (on: Stand, ghost log: Log)
      requires Valid() && at.w != null && KillAt(tree, mine - {root, background}, root, top, at, next) && Killed(a, World(Now(), maxDepth, findCache), log0, mine - {root, background}, root, background)
      modifies `links, `tree, `place, `shown, `store, `screen, `content, `findCache
      ensures Valid() && KillAt(tree, mine - {root, background}, root, top, on, next) && Killed(a, World(Now(), maxDepth, findCache), log, mine - {root, background}, root, background)
      ensures Falls(old(tree), tree, maxDepth, top, at, on)
    {
      hide *;
      ValidParts();
      NowFields();
      var w: Window := at.w;
      ghost var t, kill := tree, mine - {root, background};
      KillAtParts(t, kill, maxDepth, root, top, at, next);
      RankFalls(t, kill, maxDepth, root, top, at, next);
      LinksAt(w);
      on := StandNextPost(top, at);
      NextPostIs(t, top, at);
      log := log0;
      if !at.visited && links[w].childs != null {
        KillDown(t, kill, maxDepth, root, top, at, next);
      } else {
        if w in kill {
          KillGone(t, kill, maxDepth, root, top, at, next);
          FewerFalls(t, maxDepth, top, at, on, w);
        } else {
          KillKept(t, kill, maxDepth, root, top, at, next);
        }
        log := KillOne(w, mine, a, log0);
        ShornIs(t, tree, w);
      }
    }

    /** wtree_traverse_post of one child of the root */
    method KillIn(top: Window, mine: set<Window>, ghost a: World, ghost log0: Log) returns (ghost log: Log)
      requires Valid() && KillNext(tree, mine - {root, background}, root, top) && Killed(a, World(Now(), maxDepth, findCache), log0, mine - {root, background}, root, background)
      modifies `links, `tree, `place, `shown, `store, `screen, `content, `findCache
      ensures top in old(tree)
      ensures Valid() && KillNext(tree, mine - {root, background}, root, old(tree[top]).next) && Killed(a, World(Now(), maxDepth, findCache), log, mine - {root, background}, root, background)
      ensures |tree| < |old(tree)| || tree == old(tree)
    {
      hide *;
      ghost var kill := mine - {root, background};
      KillStart(tree, kill, root, top);
      ghost var next := tree[top].next;
      var at := Stand(top, false);
      log := log0;
      while at.w != null
        invariant Valid() && KillAt(tree, kill, root, top, at, next) && Killed(a, World(Now(), maxDepth, findCache), log, kill, root, background)
        invariant |tree| < |old(tree)| || tree == old(tree)
        decreases |tree|, Rank(tree, maxDepth, top, at), Height(tree, maxDepth, at)
      {
        ghost var t, was := tree, at;
        at, log := KillRound(top, at, mine, next, a, log);
        FallsParts(t, tree, maxDepth, top, was, at);
      }
      KillDone(tree, kill, root, top, at, next);
    }

    /** windowKillClient, given the windows of the client: wtree_list_traverse_post over the
        children of the root.  It amounts to a run of delete requests, and it leaves exactly the
        windows that neither belong to the client nor lie below one that does. */
    method WindowKillClient(mine: set<Window>) returns (ghost log: Log)
      requires Valid()
      modifies `links, `tree, `place, `shown, `store, `screen, `content, `findCache
      ensures Valid()
      ensures KillRun(log, World(old(Now()), maxDepth, old(findCache)), World(Now(), maxDepth, findCache), mine - {root, background}, root, background)
      ensures Thinned(old(Now()), Now(), mine - {root, background})
      ensures forall x :: x in old(tree) ==> (x in tree <==> Spared(old(tree), mine - {root, background}, x))
      ensures |log.trace| == |log.requests| + 1
      ensures forall i :: 0 <= i < |log.requests| ==> Effect(log.trace[i], log.requests[i], log.trace[i + 1], root, background)
      ensures AllCoherent(old(Now())) && Unspoiled(log.trace, log.requests, |log.requests|, root, background) ==> AllCoherent(Now())
      ensures AllCoherent(old(Now())) && Flat(old(tree), old(place), background) ==> AllCoherent(Now()) && Flat(tree, place, background)
    {
      hide *;
      ValidParts();
      NowFields();
      ghost var a, kill := World(Now(), maxDepth, findCache), mine - {root, background};
      CacheLive();
      KilledStart(a, kill, root, background);
      log := Log([], [a]);
      KillBegin(tree, kill, maxDepth, root);
      LinksAt(root);
      var next := links[root].childs;
      while next != null
        invariant Valid() && KillNext(tree, kill, root, next) && Killed(a, World(Now(), maxDepth, findCache), log, kill, root, background)
        decreases |tree|, if next != null && next in tree then 1 + |RightOf(tree, next)| else 0
      {
        ValidParts();
        KillNextParts(tree, kill, maxDepth, root, next);
        LinksAt(next);
        var top: Window := next;
        next := links[top].next;
        log := KillIn(top, mine, a, log);
      }
      ValidParts();
      NowFields();
      KilledEnd(a, World(Now(), maxDepth, findCache), log, kill, root, background);
      KillRunEffects(log, a, World(Now(), maxDepth, findCache), kill, root, background);
      if AllCoherent(a.s) { KillRunCoherent(log, a, World(Now(), maxDepth, findCache), kill, root, background); }
    }

    // ----- Whole runs -----

    /** The server serves the requests one after the other.  Without looking at them: the
        invariant holds in every world on the way.  Unless one of them spoils it, the backing
        store stays coherent, and a final refresh brings the whole screen up to date. */
    method Serve(requests: seq<Request>) returns (ghost trace: seq<World>)
      requires Valid()
      modifies this
      ensures Valid() && IsRun(trace, requests, root, background)
      ensures trace[0] == World(old(Now()), old(maxDepth), old(findCache)) && trace[|requests|] == World(Now(), maxDepth, findCache)
      ensures forall i :: 0 <= i < |trace| ==> Fine(trace[i].s, root, background, trace[i].maxDepth) && CacheOK(trace[i])
      ensures forall i :: 0 <= i < |requests| ==> Effect(trace[i], requests[i], trace[i + 1], root, background)
      ensures AllCoherent(old(Now())) && Unspoiled(trace, requests, |requests|, root, background) ==>
                AllCoherent(Now()) && (requests != [] && requests[|requests| - 1] == ToRefresh ==> UpToDate(Now(), root, maxDepth))
    {
      hide *;
      ValidParts();
      NowFields();
      CacheLive();
      trace := [World(Now(), maxDepth, findCache)];
      RunStart(trace[0], root, background);
      var i := 0;
      assert requests[..0] == [];
      while i < |requests|
        invariant 0 <= i <= |requests| && Valid() && |trace| == i + 1 && IsRun(trace, requests[..i], root, background)
        invariant trace[0] == World(old(Now()), old(maxDepth), old(findCache)) && trace[i] == World(Now(), maxDepth, findCache)
      {
        ghost var q := requests[i];
        ServeOne(requests[i]);
        NowFields();
        RunOn(trace, requests, i, World(Now(), maxDepth, findCache), root, background);
        trace := trace + [World(Now(), maxDepth, findCache)];
        i := i + 1;
      }
      assert requests[..i] == requests;
      RunsWell(trace, requests, root, background);
      RunEffects(trace, requests, root, background);
    }

    /** One request */
    method ServeOne(q: Request)
      requires Valid()
      modifies this
      ensures Valid() && Step(World(old(Now()), old(maxDepth), old(findCache)), q, World(Now(), maxDepth, findCache), root, background)
    {
      hide *;
      if q.Draws() {
        ServeDrawing(q);
      } else if q.Looks() {
        ServeLooking(q);
      } else {
        ServeChange(q);
      }
    }

    /** A request that may change the tree or the places */
    method ServeChange(q: Request)
      requires Valid() && !q.Draws() && !q.Looks()
      modifies this
      ensures Valid() && Step(World(old(Now()), old(maxDepth), old(findCache)), q, World(Now(), maxDepth, findCache), root, background)
    {
      hide Valid, Linked, Fine, AllCoherent, DoOpen, DoClose, DoMove, DoTop, DoBottom, DoDelete, DoDraw, DoRefresh, Creates, Deletion, DoFind, DoCopy, Whole, NewPlace, BoxAt, Painted, Defaces, Opened, StaleBorder, StaleMove, Relinked, Dropped, Planted, WithoutSubtree, TreeOK, Shape, UpToDate, Sound, Find, AllOpen, RootCovered, RootBare;
      ValidParts();
      LinkKeys();
      match q
      case ToCreate(parent, width, height, border, title, titleHeight) =>
        if parent in links && 0 < width && 0 < height && 0 <= titleHeight {
          var w := WindowCreate(parent, width, height, border, title, titleHeight);
        }
      case ToOpen(w, x, y) =>
        if w in links {
          var r := WindowOpen(w, x, y);
        }
      case ToClose(w) =>
        if w in links && w != root && w != background {
          var r := WindowClose(w);
        }
      case ToMove(w, x, y) =>
        if w in links && w != root && w != background {
          var r := WindowMove(w, x, y);
        }
      case ToTop(w) =>
        if w in links {
          var r := WindowToTop(w);
        }
      case ToBottom(w) =>
        if w in links {
          var r := WindowToBottom(w);
        }
      case ToDelete(w) =>
        CacheLive();
        DeletionIs(World(Now(), maxDepth, findCache), root, w);
        if w in links && w != root && w != background {
          var r := WindowDelete(w);
        }
      case _ =>
    }

    /** A request that draws */
    method ServeDrawing(q: Request)
      requires Valid() && q.Draws()
      modifies this
      ensures Valid() && Step(World(old(Now()), old(maxDepth), old(findCache)), q, World(Now(), maxDepth, findCache), root, background)
    {
      hide Valid, Linked, Fine, AllCoherent, DoOpen, DoClose, DoMove, DoTop, DoBottom, DoDelete, DoDraw, DoRefresh, Creates, Deletion, DoFind, DoCopy, Whole, NewPlace, BoxAt, Painted, Defaces, Opened, StaleBorder, StaleMove, Relinked, Dropped, Planted, WithoutSubtree, TreeOK, Shape, UpToDate, Sound, Find, AllOpen, RootCovered, RootBare;
      ValidParts();
      LinkKeys();
      match q
      case ToPlot(w, x, y, paint) =>
        if w in links {
          ClientPlot(w, x, y, paint);
        }
      case ToBox(w, x, y, width, height, paint) =>
        if w in links {
          ClientBox(w, x, y, width, height, paint);
        }
      case ToDecorate(w, r, paint) =>
        if w in links && w != root {
          Decorate(w, r, paint);
        }
      case ToCopy(v, x0, y0, width, height, w, x1, y1) =>
        if v in links && w in links {
          ClientBitblk2(v, x0, y0, width, height, w, x1, y1);
        }
      case _ =>
    }

    /** A search, or a refresh */
    method ServeLooking(q: Request)
      requires Valid() && q.Looks()
      modifies this
      ensures Valid() && Step(World(old(Now()), old(maxDepth), old(findCache)), q, World(Now(), maxDepth, findCache), root, background)
    {
      hide Valid, Linked, Fine, AllCoherent, DoOpen, DoClose, DoMove, DoTop, DoBottom, DoDelete, DoDraw, DoRefresh, Creates, Deletion, DoFind, DoCopy, Whole, NewPlace, BoxAt, Painted, Defaces, Opened, StaleBorder, StaleMove, Relinked, Dropped, Planted, WithoutSubtree, TreeOK, Shape, UpToDate, Sound, Find, AllOpen, RootCovered, RootBare;
      ValidParts();
      LinkKeys();
      match q
      case ToFind(x, y, useCache) =>
        var found := WindowFind(x, y, useCache);
      case ToRefresh =>
        RedrawAllIfDirty();
      case _ =>
    }

    lemma {:induction false} CacheLive()
      requires Valid()
      ensures CacheOK(World(Now(), maxDepth, findCache))
    {
    }

    lemma {:induction false} LinkKeys()
      requires Valid()
      ensures links.Keys == tree.Keys == place.Keys && forall w :: w !in links ==> w !in Now().tree && Inert(Now(), root, maxDepth, w)
    {
      forall w | w !in links ensures Inert(Now(), root, maxDepth, w) { Unknown(Now(), root, maxDepth, w); }
    }

    lemma {:induction false} MakeValid()
      requires Linked() && Fine(Now(), root, background, maxDepth) && (findCache != null ==> findCache in tree)
      ensures Valid()
    {
    }
  }

  lemma {:induction false} BackgroundCopy(initial: Picture, all: Rect, blank: Picture)
    requires all.x0 == 0 && all.y0 == 0
    ensures forall p :: all.Has(p) ==> BitBlk(initial, all, blank, 0, 0)(p) == initial(p)
  {
    forall p: Pixel ensures p.Plus(0, 0) == p {}
  }

  // ----- Links and sibling lists -----

  lemma {:induction false} StepLeft(t: Tree, maxDepth: nat, root: Window, w: Window)
    requires TreeOK(t, root, maxDepth) && w in t && LeftOf(t, w) != []
    ensures var left := LeftOf(t, w);
            var u := left[|left| - 1];
            && u in t && LeftOf(t, u) == left[..|left| - 1]
            && t[u].prev == (if LeftOf(t, u) == [] then null else LeftOf(t, u)[|LeftOf(t, u)| - 1])
  {
    hide Shape, Before, After, TreeOK;
    LevelsUp(t, maxDepth, root, w);
    KidsLevel(t, maxDepth, w);
    var kids := t[t[w].parent].kids;
    var i :| 0 <= i < |kids| && kids[i] == w;
    SplitAt(kids, i);
    SplitAt(kids, i - 1);
    assert kids[i - 1] in kids;
    SiblingLinks(t, maxDepth, root, kids[i - 1]);
  }

  lemma {:induction false} LevelsUp(t: Tree, maxDepth: nat, root: Window, w: Window)
    requires TreeOK(t, root, maxDepth) && w in t && LeftOf(t, w) != []
    ensures Shape(t, maxDepth) && HasParent(t, w)
  {
  }
}
