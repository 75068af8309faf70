/** The window tree of server/window.c.

    A WINDOW is known by its identity; its fields are kept in maps from windows to field
    values, which the server reassigns where the C code writes through a pointer.  A freed
    window is one that the maps no longer contain. */
module WindowTree {
  import opened Geometry

  type Color = int

  /** The content of a bitmap or of the screen. */
  type Picture = Pixel -> Color

  /** The identity of a window: what a WINDOW pointer denotes. */
  class Window {
    constructor () {}
  }

  /** The link fields of struct _window. */
  datatype Links = Links(next: Window?, prev: Window?, parent: Window?, childs: Window?)

  /** The links together with the shape they must have: the child list, topmost first, and
      the level of the window. */
  datatype Node = Node(next: Window?, prev: Window?, parent: Window?, childs: Window?,
                       kids: seq<Window>, depth: nat)

  /** Position: the whole window and its working area in screen coordinates, the working
      area relative to the window, and is_open. */
  datatype Place = Place(pos: Rect, work: Rect, area: Rect, isOpen: bool)

  type Tree = map<Window, Node>

  type Places = map<Window, Place>

  // ----- Well-formed links -----

  ghost predicate Distinct<T>(s: seq<T>) {
    forall i, j :: 0 <= i < j < |s| ==> s[i] != s[j]
  }

  ghost predicate KidsOK(t: Tree, w: Window, maxDepth: nat)
    requires w in t
  {
    && t[w].depth <= maxDepth
    && Distinct(t[w].kids)
    && (forall k :: k in t[w].kids ==> k in t && t[k].parent == w && t[k].depth == t[w].depth + 1)
    && t[w].childs == (if t[w].kids == [] then null else t[w].kids[0])
    && ChainOK(t, t[w].kids)
  }

  /** The prev/next links of the windows in `list` make it a doubly linked list. */
  ghost predicate ChainOK(t: Tree, list: seq<Window>)
    requires forall k :: k in list ==> k in t
  {
    forall i :: 0 <= i < |list| ==>
      && t[list[i]].next == (if i + 1 < |list| then list[i + 1] else null)
      && t[list[i]].prev == (if 0 < i then list[i - 1] else null)
  }

  ghost predicate ParentOK(t: Tree, w: Window)
    requires w in t
  {
    var p := t[w].parent;
    p != null && p in t && w in t[p].kids
  }

  ghost predicate Shape(t: Tree, maxDepth: nat) {
    && (forall w {:trigger KidsOK(t, w, maxDepth)} :: w in t ==> KidsOK(t, w, maxDepth))
    && (forall w {:trigger ParentOK(t, w)} :: w in t && t[w].parent != null ==> ParentOK(t, w))
  }

  ghost predicate TreeOK(t: Tree, root: Window, maxDepth: nat) {
    && Shape(t, maxDepth)
    && root in t
    && t[root].next == null && t[root].prev == null && t[root].depth == 0
    && (forall w :: w in t ==> (t[w].parent == null <==> w == root))
  }

  /** `a` is `x` or one of its ancestors. */
  ghost predicate Above(t: Tree, a: Window, x: Window)
    decreases if x in t then t[x].depth else 0
  {
    x in t && (a == x || (HasParent(t, x) && Above(t, a, t[x].parent)))
  }

  /** `x` has a parent, one level up. */
  ghost predicate HasParent(t: Tree, x: Window)
    requires x in t
  {
    t[x].parent != null && t[x].parent in t && t[t[x].parent].depth < t[x].depth
  }

  lemma {:induction false} TreeParts(t: Tree, root: Window, maxDepth: nat)
    requires TreeOK(t, root, maxDepth)
    ensures Shape(t, maxDepth) && root in t && t[root].parent == null
  {
  }

  /** Every window but the root is a child of its parent. */
  lemma {:induction false} ParentAt(t: Tree, maxDepth: nat, root: Window, w: Window)
    requires TreeOK(t, root, maxDepth) && w in t && w != root
    ensures ParentOK(t, w) && HasParent(t, w)
    ensures t[w].parent != null && t[w].parent in t && w in t[t[w].parent].kids
  {
    assert ParentOK(t, w) && KidsOK(t, t[w].parent, maxDepth);
  }

  // ----- Siblings -----

  /** The elements of `s` before the first occurrence of `x`. */
  ghost function Before<T>(s: seq<T>, x: T): seq<T> {
    if s == [] || s[0] == x then [] else [s[0]] + Before(s[1..], x)
  }

  /** The elements of `s` after the first occurrence of `x`. */
  ghost function After<T>(s: seq<T>, x: T): seq<T> {
    if s == [] then [] else if s[0] == x then s[1..] else After(s[1..], x)
  }

  /** The siblings of `x` on top of it, topmost first. */
  ghost function LeftOf(t: Tree, x: Window): seq<Window>
    requires x in t
  {
    if HasParent(t, x) then Before(t[t[x].parent].kids, x) else []
  }

  /** The siblings of `x` below it. */
  ghost function RightOf(t: Tree, x: Window): seq<Window>
    requires x in t
  {
    if HasParent(t, x) then After(t[t[x].parent].kids, x) else []
  }

  lemma {:induction false} SplitAt<T>(s: seq<T>, i: nat)
    requires Distinct(s) && i < |s|
    ensures Before(s, s[i]) == s[..i] && After(s, s[i]) == s[i + 1..]
  {
    if i != 0 {
      SplitAt(s[1..], i - 1);
      assert s[1..][..i - 1] == s[1..i];
    }
  }
}
