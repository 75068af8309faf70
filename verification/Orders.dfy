/** The visiting orders of the stackless traversals (server/window.c:137-302), and what
    they contain.  `cut` is the set of windows whose children are not visited because the
    visitor returned a positive value for them. */
module Orders {
  import opened WindowTree

  /** All windows of `list` are on level `d`. */
  ghost predicate OnLevel(t: Tree, list: seq<Window>, d: nat) {
    forall w :: w in list ==> w in t && t[w].depth == d
  }

  ghost function Pre(t: Tree, maxDepth: nat, cut: set<Window>, w: Window): seq<Window>
    requires Shape(t, maxDepth) && w in t
    decreases maxDepth + 1 - t[w].depth, 0, 0
  {
    assert KidsOK(t, w, maxDepth);
    [w] + if w in cut then [] else PreSeq(t, maxDepth, cut, t[w].kids, t[w].depth + 1)
  }

  ghost function PreSeq(t: Tree, maxDepth: nat, cut: set<Window>, list: seq<Window>, d: nat): seq<Window>
    requires Shape(t, maxDepth) && OnLevel(t, list, d)
    decreases maxDepth + 1 - d, 1, |list|
  {
    if list == [] then []
    else
      assert KidsOK(t, list[0], maxDepth);
      Pre(t, maxDepth, cut, list[0]) + PreSeq(t, maxDepth, cut, list[1..], d)
  }

  ghost function Post(t: Tree, maxDepth: nat, w: Window): seq<Window>
    requires Shape(t, maxDepth) && w in t
    decreases maxDepth + 1 - t[w].depth, 0, 0
  {
    assert KidsOK(t, w, maxDepth);
    PostSeq(t, maxDepth, t[w].kids, t[w].depth + 1) + [w]
  }

  ghost function PostSeq(t: Tree, maxDepth: nat, list: seq<Window>, d: nat): seq<Window>
    requires Shape(t, maxDepth) && OnLevel(t, list, d)
    decreases maxDepth + 1 - d, 1, |list|
  {
    if list == [] then []
    else
      assert KidsOK(t, list[0], maxDepth);
      Post(t, maxDepth, list[0]) + PostSeq(t, maxDepth, list[1..], d)
  }

  // ----- Ancestry -----

  lemma {:induction false} AboveTrans(t: Tree, a: Window, b: Window, x: Window)
    requires Above(t, a, b) && Above(t, b, x)
    ensures Above(t, a, x)
    decreases t[x].depth
  {
    if b != x {
      AboveTrans(t, a, b, t[x].parent);
    }
  }

  lemma {:induction false} AboveDepth(t: Tree, a: Window, x: Window)
    requires Above(t, a, x)
    ensures a in t && x in t && t[a].depth <= t[x].depth
    ensures t[a].depth == t[x].depth ==> a == x
    decreases t[x].depth
  {
    if a != x {
      AboveDepth(t, a, t[x].parent);
    }
  }

  /** Two ancestors of the same window are ancestors of one another; on one level they
      are the same. */
  lemma {:induction false} AboveUnique(t: Tree, a: Window, b: Window, x: Window)
    requires a in t && b in t && Above(t, a, x) && Above(t, b, x) && t[a].depth == t[b].depth
    ensures a == b
    decreases t[x].depth
  {
    if a == x {
      AboveDepth(t, b, x);
    } else if b == x {
      AboveDepth(t, a, x);
    } else {
      AboveUnique(t, a, b, t[x].parent);
    }
  }

  lemma {:induction false} DepthBound(t: Tree, maxDepth: nat, w: Window)
    requires Shape(t, maxDepth) && w in t
    ensures t[w].depth <= maxDepth
  {
    assert KidsOK(t, w, maxDepth);
  }

  lemma {:induction false} KidHasParent(t: Tree, maxDepth: nat, w: Window, k: Window)
    requires Shape(t, maxDepth) && w in t && k in t[w].kids
    ensures k in t && HasParent(t, k) && t[k].parent == w && t[k].depth == t[w].depth + 1
    ensures Above(t, w, k)
  {
    assert KidsOK(t, w, maxDepth);
    assert Above(t, w, w);
  }

  // ----- What the orders contain -----

  lemma {:induction false} PreAbove(t: Tree, maxDepth: nat, cut: set<Window>, w: Window)
    requires Shape(t, maxDepth) && w in t
    ensures forall x :: x in Pre(t, maxDepth, cut, w) ==> Above(t, w, x)
    decreases maxDepth + 1 - t[w].depth, 0, 0
  {
    assert KidsOK(t, w, maxDepth);
    if w !in cut {
      PreSeqAbove(t, maxDepth, cut, t[w].kids, t[w].depth + 1);
      forall x | x in Pre(t, maxDepth, cut, w) && x != w ensures Above(t, w, x) {
        assert x in PreSeq(t, maxDepth, cut, t[w].kids, t[w].depth + 1);
        var k :| k in t[w].kids && Above(t, k, x);
        KidHasParent(t, maxDepth, w, k);
        AboveTrans(t, w, k, x);
      }
    }
  }

  lemma {:induction false} PreSeqAbove(t: Tree, maxDepth: nat, cut: set<Window>, list: seq<Window>, d: nat)
    requires Shape(t, maxDepth) && OnLevel(t, list, d)
    ensures forall x :: x in PreSeq(t, maxDepth, cut, list, d) ==> exists a :: a in list && Above(t, a, x)
    decreases maxDepth + 1 - d, 1, |list|
  {
    if list != [] {
      assert KidsOK(t, list[0], maxDepth);
      PreAbove(t, maxDepth, cut, list[0]);
      PreSeqAbove(t, maxDepth, cut, list[1..], d);
      forall x | x in PreSeq(t, maxDepth, cut, list, d) ensures exists a :: a in list && Above(t, a, x) {
        if x in Pre(t, maxDepth, cut, list[0]) {
          assert list[0] in list;
        } else {
          assert x in PreSeq(t, maxDepth, cut, list[1..], d);
          var a :| a in list[1..] && Above(t, a, x);
          assert a in list;
        }
      }
    }
  }

  lemma {:induction false} ConcatDistinct<T>(a: seq<T>, b: seq<T>)
    requires Distinct(a) && Distinct(b) && forall x :: x in a ==> x !in b
    ensures Distinct(a + b)
  {
    forall i, j | 0 <= i < j < |a + b| ensures (a + b)[i] != (a + b)[j] {
      if i < |a| <= j { assert a[i] in a && b[j - |a|] in b; }
    }
  }

  lemma {:induction false} PreDistinct(t: Tree, maxDepth: nat, cut: set<Window>, w: Window)
    requires Shape(t, maxDepth) && w in t
    ensures Distinct(Pre(t, maxDepth, cut, w))
    decreases maxDepth + 1 - t[w].depth, 0, 0
  {
    assert KidsOK(t, w, maxDepth);
    if w !in cut {
      var below := PreSeq(t, maxDepth, cut, t[w].kids, t[w].depth + 1);
      PreSeqDistinct(t, maxDepth, cut, t[w].kids, t[w].depth + 1);
      PreSeqAbove(t, maxDepth, cut, t[w].kids, t[w].depth + 1);
      if w in below {
        var k :| k in t[w].kids && Above(t, k, w);
        AboveDepth(t, k, w);
      }
      ConcatDistinct([w], below);
    }
  }

  lemma {:induction false} PreSeqDistinct(t: Tree, maxDepth: nat, cut: set<Window>, list: seq<Window>, d: nat)
    requires Shape(t, maxDepth) && OnLevel(t, list, d) && Distinct(list)
    ensures Distinct(PreSeq(t, maxDepth, cut, list, d))
    decreases maxDepth + 1 - d, 1, |list|
  {
    if list != [] {
      assert KidsOK(t, list[0], maxDepth);
      var first, others := Pre(t, maxDepth, cut, list[0]), PreSeq(t, maxDepth, cut, list[1..], d);
      PreDistinct(t, maxDepth, cut, list[0]);
      PreSeqDistinct(t, maxDepth, cut, list[1..], d);
      PreAbove(t, maxDepth, cut, list[0]);
      PreSeqAbove(t, maxDepth, cut, list[1..], d);
      forall x | x in first ensures x !in others {
        if x in others {
          var a :| a in list[1..] && Above(t, a, x);
          AboveUnique(t, a, list[0], x);
        }
      }
      ConcatDistinct(first, others);
    }
  }

  /** A window below `w` that the preorder leaves out lies strictly below a pruned one. */
  lemma {:induction false} PreMissing(t: Tree, maxDepth: nat, cut: set<Window>, w: Window, x: Window) returns (a: Window)
    requires Shape(t, maxDepth) && w in t && Above(t, w, x) && x !in Pre(t, maxDepth, cut, w)
    ensures a in cut && a != x && Above(t, w, a) && Above(t, a, x)
    decreases maxDepth + 1 - t[w].depth, 0, 0
  {
    assert KidsOK(t, w, maxDepth);
    assert Above(t, w, w);
    if w in cut {
      a := w;
    } else {
      var k := KidTowards(t, maxDepth, w, x);
      KidHasParent(t, maxDepth, w, k);
      PreInSeq(t, maxDepth, cut, t[w].kids, t[w].depth + 1, k);
      a := PreMissing(t, maxDepth, cut, k, x);
      AboveTrans(t, w, k, a);
    }
  }

  lemma {:induction false} PreInSeq(t: Tree, maxDepth: nat, cut: set<Window>, list: seq<Window>, d: nat, k: Window)
    requires Shape(t, maxDepth) && OnLevel(t, list, d) && k in list
    ensures forall x :: x in Pre(t, maxDepth, cut, k) ==> x in PreSeq(t, maxDepth, cut, list, d)
    decreases |list|
  {
    if list[0] != k {
      PreInSeq(t, maxDepth, cut, list[1..], d, k);
    }
  }

  /** The child of `w` on the way down to `x`. */
  lemma {:induction false} KidTowards(t: Tree, maxDepth: nat, w: Window, x: Window) returns (k: Window)
    requires Shape(t, maxDepth) && w in t && Above(t, w, x) && w != x
    ensures k in t[w].kids && Above(t, k, x)
    decreases t[x].depth
  {
    assert ParentOK(t, x);
    var p := t[x].parent;
    if p == w {
      k := x;
    } else {
      k := KidTowards(t, maxDepth, w, p);
      assert Above(t, p, p) && Above(t, p, x);
      AboveTrans(t, k, p, x);
    }
  }

  // ----- The order of the visits -----

  /** `x` lies in a subtree to the left of one in which `y` lies. */
  ghost predicate LeftTo(t: Tree, x: Window, y: Window) {
    exists a, b :: a in t && b in t && a in LeftOf(t, b) && Above(t, a, x) && Above(t, b, y)
  }

  /** Preorder: of two windows, the one above the other comes first, or else the one to the left. */
  lemma {:induction false} PreOrdered(t: Tree, maxDepth: nat, cut: set<Window>, w: Window, i: nat, j: nat)
    requires Shape(t, maxDepth) && w in t && i < j < |Pre(t, maxDepth, cut, w)|
    ensures var list := Pre(t, maxDepth, cut, w); Above(t, list[i], list[j]) || LeftTo(t, list[i], list[j])
    decreases maxDepth + 1 - t[w].depth, 0, 0
  {
    assert KidsOK(t, w, maxDepth);
    var list := Pre(t, maxDepth, cut, w);
    PreAbove(t, maxDepth, cut, w);
    if i == 0 {
      assert list[j] in list;
    } else {
      assert t[w].kids[0..] == t[w].kids;
      PreSeqOrdered(t, maxDepth, cut, w, 0, i - 1, j - 1);
    }
  }

  lemma {:induction false} PreSeqOrdered(t: Tree, maxDepth: nat, cut: set<Window>, w: Window, m: nat, i: nat, j: nat)
    requires Shape(t, maxDepth) && w in t && m <= |t[w].kids| && OnLevel(t, t[w].kids[m..], t[w].depth + 1)
    requires i < j < |PreSeq(t, maxDepth, cut, t[w].kids[m..], t[w].depth + 1)|
    ensures var list := PreSeq(t, maxDepth, cut, t[w].kids[m..], t[w].depth + 1); Above(t, list[i], list[j]) || LeftTo(t, list[i], list[j])
    decreases maxDepth - t[w].depth, 1, |t[w].kids| - m
  {
    hide Shape, KidsOK, Above, LeftTo, Pre;
    var d, kids := t[w].depth + 1, t[w].kids;
    PreSeqSplit(t, maxDepth, cut, w, m);
    var list := PreSeq(t, maxDepth, cut, kids[m..], d);
    var first, others := Pre(t, maxDepth, cut, kids[m]), PreSeq(t, maxDepth, cut, kids[m + 1..], d);
    if j < |first| {
      PreOrdered(t, maxDepth, cut, kids[m], i, j);
    } else if |first| <= i {
      PreSeqOrdered(t, maxDepth, cut, w, m + 1, i - |first|, j - |first|);
    } else {
      PreAbove(t, maxDepth, cut, kids[m]);
      PreSeqAbove(t, maxDepth, cut, kids[m + 1..], d);
      assert list[i] in first && list[j] == others[j - |first|] && list[j] in others;
      KidsLeftTo(t, maxDepth, w, m, list[i], list[j]);
    }
  }

  lemma {:induction false} PreSeqSplit(t: Tree, maxDepth: nat, cut: set<Window>, w: Window, m: nat)
    requires Shape(t, maxDepth) && w in t && m <= |t[w].kids| && OnLevel(t, t[w].kids[m..], t[w].depth + 1)
    requires PreSeq(t, maxDepth, cut, t[w].kids[m..], t[w].depth + 1) != []
    ensures m < |t[w].kids|
    ensures var k, d, rest := t[w].kids[m], t[w].depth + 1, t[w].kids[m + 1..];
            && k in t && t[k].depth == d <= maxDepth && OnLevel(t, rest, d)
            && PreSeq(t, maxDepth, cut, t[w].kids[m..], d) == Pre(t, maxDepth, cut, k) + PreSeq(t, maxDepth, cut, rest, d)
  {
    var kids := t[w].kids;
    assert kids[m..] != [];
    assert kids[m..][0] == kids[m] && kids[m..][1..] == kids[m + 1..] && kids[m] in kids;
    assert KidsOK(t, w, maxDepth) && KidsOK(t, kids[m], maxDepth);
  }

  /** One window below the m-th child, another below a later one. */
  lemma {:induction false} KidsLeftTo(t: Tree, maxDepth: nat, w: Window, m: nat, x: Window, y: Window)
    requires Shape(t, maxDepth) && w in t && m < |t[w].kids| && Above(t, t[w].kids[m], x)
    requires exists b :: b in t[w].kids[m + 1..] && Above(t, b, y)
    ensures LeftTo(t, x, y)
  {
    var kids := t[w].kids;
    assert KidsOK(t, w, maxDepth);
    var b :| b in kids[m + 1..] && Above(t, b, y);
    var n :| m + 1 <= n < |kids| && kids[n] == b;
    KidHasParent(t, maxDepth, w, b);
    SplitAt(kids, n);
    assert kids[m] == kids[..n][m] && kids[m] in LeftOf(t, b);
    assert kids[m] in kids;
  }

  /** Postorder: of two windows, the one below the other comes first, or else the one to the left. */
  lemma {:induction false} PostOrdered(t: Tree, maxDepth: nat, w: Window, i: nat, j: nat)
    requires Shape(t, maxDepth) && w in t && i < j < |Post(t, maxDepth, w)|
    ensures var list := Post(t, maxDepth, w); Above(t, list[j], list[i]) || LeftTo(t, list[i], list[j])
    decreases maxDepth + 1 - t[w].depth, 0, 0
  {
    assert KidsOK(t, w, maxDepth);
    var list := Post(t, maxDepth, w);
    if j == |list| - 1 {
      PostMembers(t, maxDepth, w, list[i]);
      assert list[i] in list;
    } else {
      assert t[w].kids[0..] == t[w].kids;
      PostSeqOrdered(t, maxDepth, w, 0, i, j);
    }
  }

  lemma {:induction false} PostSeqOrdered(t: Tree, maxDepth: nat, w: Window, m: nat, i: nat, j: nat)
    requires Shape(t, maxDepth) && w in t && m <= |t[w].kids| && OnLevel(t, t[w].kids[m..], t[w].depth + 1)
    requires i < j < |PostSeq(t, maxDepth, t[w].kids[m..], t[w].depth + 1)|
    ensures var list := PostSeq(t, maxDepth, t[w].kids[m..], t[w].depth + 1); Above(t, list[j], list[i]) || LeftTo(t, list[i], list[j])
    decreases maxDepth - t[w].depth, 1, |t[w].kids| - m
  {
    hide Shape, KidsOK, Above, LeftTo, Post;
    var d, kids := t[w].depth + 1, t[w].kids;
    PostSeqSplit(t, maxDepth, w, m);
    var list := PostSeq(t, maxDepth, kids[m..], d);
    var first, others := Post(t, maxDepth, kids[m]), PostSeq(t, maxDepth, kids[m + 1..], d);
    if j < |first| {
      PostOrdered(t, maxDepth, kids[m], i, j);
    } else if |first| <= i {
      PostSeqOrdered(t, maxDepth, w, m + 1, i - |first|, j - |first|);
    } else {
      assert list[i] in first && list[j] == others[j - |first|] && list[j] in others;
      PostMembers(t, maxDepth, kids[m], list[i]);
      PostSeqMembers(t, maxDepth, kids[m + 1..], d, list[j]);
      KidsLeftTo(t, maxDepth, w, m, list[i], list[j]);
    }
  }

  lemma {:induction false} PostSeqSplit(t: Tree, maxDepth: nat, w: Window, m: nat)
    requires Shape(t, maxDepth) && w in t && m <= |t[w].kids| && OnLevel(t, t[w].kids[m..], t[w].depth + 1)
    requires PostSeq(t, maxDepth, t[w].kids[m..], t[w].depth + 1) != []
    ensures m < |t[w].kids|
    ensures var k, d, rest := t[w].kids[m], t[w].depth + 1, t[w].kids[m + 1..];
            && k in t && t[k].depth == d <= maxDepth && OnLevel(t, rest, d)
            && PostSeq(t, maxDepth, t[w].kids[m..], d) == Post(t, maxDepth, k) + PostSeq(t, maxDepth, rest, d)
  {
    var kids := t[w].kids;
    assert kids[m..] != [];
    assert kids[m..][0] == kids[m] && kids[m..][1..] == kids[m + 1..] && kids[m] in kids;
    assert KidsOK(t, w, maxDepth) && KidsOK(t, kids[m], maxDepth);
  }

  /** Pruned preorder: exactly the windows of the subtree with nothing cut above them. */
  lemma {:induction false} PrunedMembers(t: Tree, maxDepth: nat, cut: set<Window>, w: Window, x: Window)
    requires Shape(t, maxDepth) && w in t
    ensures x in Pre(t, maxDepth, cut, w) <==> Above(t, w, x) && forall a :: Above(t, w, a) && Above(t, a, x) && a != x ==> a !in cut
    decreases maxDepth + 1 - t[w].depth
  {
    PreAbove(t, maxDepth, cut, w);
    if Above(t, w, x) && x !in Pre(t, maxDepth, cut, w) {
      var a := PreMissing(t, maxDepth, cut, w, x);
    }
    if x in Pre(t, maxDepth, cut, w) {
      forall a | Above(t, w, a) && Above(t, a, x) && a != x ensures a !in cut { PreUncut(t, maxDepth, cut, w, a, x); }
    }
  }

  lemma {:induction false} PreUncut(t: Tree, maxDepth: nat, cut: set<Window>, w: Window, a: Window, x: Window)
    requires Shape(t, maxDepth) && w in t && x in Pre(t, maxDepth, cut, w) && Above(t, w, a) && Above(t, a, x) && a != x
    ensures a !in cut
    decreases maxDepth + 1 - t[w].depth
  {
    assert KidsOK(t, w, maxDepth);
    AboveDepth(t, w, a);
    AboveDepth(t, a, x);
    if a != w {
      var d, kids := t[w].depth + 1, t[w].kids;
      var k := KidTowards(t, maxDepth, w, a);
      AboveTrans(t, k, a, x);
      KidHasParent(t, maxDepth, w, k);
      PreSeqOf(t, maxDepth, cut, kids, d, k, x);
      PreUncut(t, maxDepth, cut, k, a, x);
    }
  }

  /** What is below a child and visited is visited in the course of the child. */
  lemma {:induction false} PreSeqOf(t: Tree, maxDepth: nat, cut: set<Window>, list: seq<Window>, d: nat, k: Window, x: Window)
    requires Shape(t, maxDepth) && OnLevel(t, list, d) && k in list && Above(t, k, x) && x in PreSeq(t, maxDepth, cut, list, d)
    ensures x in Pre(t, maxDepth, cut, k)
    decreases |list|
  {
    assert KidsOK(t, list[0], maxDepth);
    if k != list[0] {
      if x in Pre(t, maxDepth, cut, list[0]) {
        PreAbove(t, maxDepth, cut, list[0]);
        AboveUnique(t, list[0], k, x);
      }
      PreSeqOf(t, maxDepth, cut, list[1..], d, k, x);
    } else if x !in Pre(t, maxDepth, cut, k) {
      PreSeqAbove(t, maxDepth, cut, list[1..], d);
      var b :| b in list[1..] && Above(t, b, x);
      AboveUnique(t, b, k, x);
      PreSeqOf(t, maxDepth, cut, list[1..], d, k, x);
    }
  }

  // ----- Where the stackless loops stand -----

  lemma {:induction false} KidsLevel(t: Tree, maxDepth: nat, w: Window)
    requires Shape(t, maxDepth) && w in t && HasParent(t, w)
    ensures var kids := t[t[w].parent].kids;
            w in kids && Distinct(kids) && OnLevel(t, kids, t[w].depth) && forall k :: k in kids ==> k in t && t[k].parent == t[w].parent
  {
    assert ParentOK(t, w) && KidsOK(t, t[w].parent, maxDepth);
  }

  lemma {:induction false} RightLevel(t: Tree, maxDepth: nat, w: Window)
    requires Shape(t, maxDepth) && w in t
    ensures OnLevel(t, RightOf(t, w), t[w].depth)
    ensures RightOf(t, w) != [] ==>
              && RightOf(t, w)[0] in t && HasParent(t, RightOf(t, w)[0]) && t[RightOf(t, w)[0]].parent == t[w].parent
              && RightOf(t, RightOf(t, w)[0]) == RightOf(t, w)[1..]
  {
    hide Shape, Before, After;
    if HasParent(t, w) {
      KidsLevel(t, maxDepth, w);
      var kids := t[t[w].parent].kids;
      var i :| 0 <= i < |kids| && kids[i] == w;
      SplitAt(kids, i);
      assert forall u :: u in kids[i + 1..] ==> u in kids;
      if i + 1 < |kids| {
        SplitAt(kids, i + 1);
        assert kids[i + 1] in kids;
      }
    }
  }

  /** What is visited after the subtree of `w` when the traversal started at `top`. */
  ghost function Climb(t: Tree, maxDepth: nat, cut: set<Window>, top: Window, w: Window): seq<Window>
    requires Shape(t, maxDepth) && w in t && Above(t, top, w)
    decreases t[w].depth
  {
    if w == top then []
    else
      RightLevel(t, maxDepth, w);
      PreSeq(t, maxDepth, cut, RightOf(t, w), t[w].depth) + Climb(t, maxDepth, cut, top, t[w].parent)
  }

  /** Where a traversal loop stands: the window, null at the end, and whether the loop has
      come back to it from its last child. */
  datatype Stand = Stand(w: Window?, visited: bool)

  /** The loop stands within the subtree it started from. */
  ghost predicate Inside(t: Tree, top: Window, at: Stand) {
    at.w != null ==> at.w in t && Above(t, top, at.w)
  }

  /** The three-way branch that both loops use when they do not go down. */
  ghost function Onwards(t: Tree, top: Window, w: Window): Stand
    requires w in t
  {
    if w == top then Stand(null, false)
    else if t[w].next != null then Stand(t[w].next, false)
    else Stand(t[w].parent, true)
  }

  /** What the preorder loop has still to visit. */
  ghost function Todo(t: Tree, maxDepth: nat, cut: set<Window>, top: Window, at: Stand): seq<Window>
    requires Shape(t, maxDepth) && Inside(t, top, at)
  {
    if at.w == null then []
    else (if at.visited then [] else Pre(t, maxDepth, cut, at.w)) + Climb(t, maxDepth, cut, top, at.w)
  }

  lemma {:induction false} TodoStart(t: Tree, maxDepth: nat, cut: set<Window>, top: Window)
    requires Shape(t, maxDepth) && top in t
    ensures Inside(t, top, Stand(top, false))
    ensures Todo(t, maxDepth, cut, top, Stand(top, false)) == Pre(t, maxDepth, cut, top)
    ensures TodoPost(t, maxDepth, top, Stand(top, false)) == Post(t, maxDepth, top)
  {
  }

  lemma {:induction false} TodoEnd(t: Tree, maxDepth: nat, cut: set<Window>, top: Window, at: Stand)
    requires Shape(t, maxDepth) && at.w == null
    ensures Inside(t, top, at) && Todo(t, maxDepth, cut, top, at) == [] && TodoPost(t, maxDepth, top, at) == []
  {
  }

  lemma {:induction false} FirstKid(t: Tree, maxDepth: nat, top: Window, w: Window)
    requires Shape(t, maxDepth) && w in t && Above(t, top, w) && t[w].kids != []
    ensures var k := t[w].kids[0];
            && k in t && HasParent(t, k) && t[k].parent == w && t[k].depth == t[w].depth + 1
            && Above(t, top, k) && k != top && RightOf(t, k) == t[w].kids[1..]
  {
    assert KidsOK(t, w, maxDepth);
    var k := t[w].kids[0];
    KidHasParent(t, maxDepth, w, k);
    AboveTrans(t, top, w, k);
    SplitAt(t[w].kids, 0);
    AboveDepth(t, top, w);
  }

  lemma {:induction false} Regroup<T>(a: seq<T>, b: seq<T>, c: seq<T>)
    ensures (a + b) + c == a + (b + c)
  {
  }

  /** Going down to the first child. */
  lemma {:induction false} TodoDown(t: Tree, maxDepth: nat, cut: set<Window>, top: Window, w: Window)
    requires Shape(t, maxDepth) && w in t && Above(t, top, w) && w !in cut && t[w].kids != []
    ensures Inside(t, top, Stand(t[w].kids[0], false))
    ensures Todo(t, maxDepth, cut, top, Stand(w, false)) == [w] + Todo(t, maxDepth, cut, top, Stand(t[w].kids[0], false))
  {
    FirstKid(t, maxDepth, top, w);
    assert KidsOK(t, w, maxDepth);
    var kids, d, up := t[w].kids, t[w].depth + 1, Climb(t, maxDepth, cut, top, w);
    var first, others := Pre(t, maxDepth, cut, kids[0]), PreSeq(t, maxDepth, cut, kids[1..], d);
    assert Climb(t, maxDepth, cut, top, kids[0]) == others + up;
    assert PreSeq(t, maxDepth, cut, kids, d) == first + others;
    Regroup([w], first + others, up);
    Regroup(first, others, up);
  }

  /** Going on after `w`: nowhere, to the next sibling, or back to the parent. */
  lemma {:induction false} ClimbOn(t: Tree, maxDepth: nat, cut: set<Window>, root: Window, top: Window, w: Window)
    requires TreeOK(t, root, maxDepth) && w in t && Above(t, top, w)
    ensures Inside(t, top, Onwards(t, top, w))
    ensures Climb(t, maxDepth, cut, top, w) == Todo(t, maxDepth, cut, top, Onwards(t, top, w))
    ensures Onwards(t, top, w).visited ==> Onwards(t, top, w).w != null && t[Onwards(t, top, w).w].depth < t[w].depth
  {
    RightLevel(t, maxDepth, w);
    SiblingLinks(t, maxDepth, root, w);
    if w != top && RightOf(t, w) != [] {
      StaysInside(t, maxDepth, top, w);
    }
  }

  /** The siblings of a window strictly below `top` are strictly below `top`. */
  lemma {:induction false} StaysInside(t: Tree, maxDepth: nat, top: Window, w: Window)
    requires Shape(t, maxDepth) && w in t && Above(t, top, w) && w != top && RightOf(t, w) != []
    ensures var n := RightOf(t, w)[0];
            n in t && Above(t, top, n) && n != top && HasParent(t, n) && t[n].parent == t[w].parent
            && t[n].depth == t[w].depth && RightOf(t, n) == RightOf(t, w)[1..]
  {
    RightLevel(t, maxDepth, w);
    var n := RightOf(t, w)[0];
    assert Above(t, top, t[w].parent);
    if n == top { AboveDepth(t, top, t[w].parent); }
  }

  lemma {:induction false} SiblingLinks(t: Tree, maxDepth: nat, root: Window, w: Window)
    requires TreeOK(t, root, maxDepth) && w in t
    ensures t[w].prev == (if LeftOf(t, w) == [] then null else LeftOf(t, w)[|LeftOf(t, w)| - 1])
    ensures t[w].next == (if RightOf(t, w) == [] then null else RightOf(t, w)[0])
  {
    if w != root {
      assert ParentOK(t, w);
      var kids := t[t[w].parent].kids;
      assert KidsOK(t, t[w].parent, maxDepth);
      var i :| 0 <= i < |kids| && kids[i] == w;
      SplitAt(kids, i);
      ChainAt(t, kids, i);
    }
  }

  lemma {:induction false} ChainAt(t: Tree, list: seq<Window>, i: nat)
    requires i < |list| && (forall k :: k in list ==> k in t) && ChainOK(t, list)
    ensures list[i] in t && t[list[i]].next == (if i + 1 < |list| then list[i + 1] else null)
    ensures t[list[i]].prev == (if 0 < i then list[i - 1] else null)
  {
  }

  /** The preorder loop after it has dealt with the window it stands at. */
  ghost function NextPre(t: Tree, cut: set<Window>, top: Window, at: Stand): Stand
    requires at.w != null && at.w in t
  {
    if !at.visited && at.w !in cut && t[at.w].childs != null then Stand(t[at.w].childs, false)
    else Onwards(t, top, at.w)
  }

  lemma {:induction false} NextPreTodo(t: Tree, maxDepth: nat, cut: set<Window>, root: Window, top: Window, at: Stand)
    requires TreeOK(t, root, maxDepth) && at.w != null && Inside(t, top, at)
    ensures Inside(t, top, NextPre(t, cut, top, at))
    ensures var now, next := Todo(t, maxDepth, cut, top, at), Todo(t, maxDepth, cut, top, NextPre(t, cut, top, at));
            if at.visited then now == next else now == [at.w] + next && |next| < |now|
    ensures NextPre(t, cut, top, at).visited ==> NextPre(t, cut, top, at).w != null && t[NextPre(t, cut, top, at).w].depth < t[at.w].depth
  {
    assert KidsOK(t, at.w, maxDepth);
    if !at.visited && at.w !in cut && t[at.w].childs != null {
      TodoDown(t, maxDepth, cut, top, at.w);
    } else {
      ClimbOn(t, maxDepth, cut, root, top, at.w);
      assert Pre(t, maxDepth, cut, at.w) == [at.w] || at.visited;
    }
  }

  // ----- The same for the postorder loop -----

  ghost function ClimbPost(t: Tree, maxDepth: nat, top: Window, w: Window): seq<Window>
    requires Shape(t, maxDepth) && w in t && Above(t, top, w)
    decreases t[w].depth
  {
    if w == top then []
    else
      RightLevel(t, maxDepth, w);
      PostSeq(t, maxDepth, RightOf(t, w), t[w].depth) + [t[w].parent] + ClimbPost(t, maxDepth, top, t[w].parent)
  }

  ghost function TodoPost(t: Tree, maxDepth: nat, top: Window, at: Stand): seq<Window>
    requires Shape(t, maxDepth) && Inside(t, top, at)
  {
    if at.w == null then []
    else (if at.visited then [at.w] else Post(t, maxDepth, at.w)) + ClimbPost(t, maxDepth, top, at.w)
  }

  lemma {:induction false} TodoPostDown(t: Tree, maxDepth: nat, top: Window, w: Window)
    requires Shape(t, maxDepth) && w in t && Above(t, top, w) && t[w].kids != []
    ensures Inside(t, top, Stand(t[w].kids[0], false))
    ensures TodoPost(t, maxDepth, top, Stand(w, false)) == TodoPost(t, maxDepth, top, Stand(t[w].kids[0], false))
  {
    FirstKid(t, maxDepth, top, w);
    assert KidsOK(t, w, maxDepth);
    var kids, d, up := t[w].kids, t[w].depth + 1, ClimbPost(t, maxDepth, top, w);
    var first, others := Post(t, maxDepth, kids[0]), PostSeq(t, maxDepth, kids[1..], d);
    assert ClimbPost(t, maxDepth, top, kids[0]) == others + [w] + up;
    assert PostSeq(t, maxDepth, kids, d) == first + others;
    Regroup(first, others + [w], up);
    Regroup(first, others, [w]);
  }

  lemma {:induction false} ClimbPostOn(t: Tree, maxDepth: nat, root: Window, top: Window, w: Window)
    requires TreeOK(t, root, maxDepth) && w in t && Above(t, top, w)
    ensures Inside(t, top, Onwards(t, top, w))
    ensures ClimbPost(t, maxDepth, top, w) == TodoPost(t, maxDepth, top, Onwards(t, top, w))
  {
    SiblingLinks(t, maxDepth, root, w);
    if w != top {
      RightLevel(t, maxDepth, w);
      if RightOf(t, w) != [] {
        StaysInside(t, maxDepth, top, w);
        var n := RightOf(t, w)[0];
        var first, others := Post(t, maxDepth, n), PostSeq(t, maxDepth, RightOf(t, w)[1..], t[w].depth);
        var up := [t[w].parent] + ClimbPost(t, maxDepth, top, t[w].parent);
        assert PostSeq(t, maxDepth, RightOf(t, w), t[w].depth) == first + others;
        assert ClimbPost(t, maxDepth, top, n) == others + up;
        Regroup(first, others, up);
      }
    }
  }

  /** The postorder loop's next stand. */
  ghost function NextPost(t: Tree, top: Window, at: Stand): Stand
    requires at.w != null && at.w in t
  {
    if !at.visited && t[at.w].childs != null then Stand(t[at.w].childs, false) else Onwards(t, top, at.w)
  }

  lemma {:induction false} NextPostTodo(t: Tree, maxDepth: nat, root: Window, top: Window, at: Stand)
    requires TreeOK(t, root, maxDepth) && at.w != null && Inside(t, top, at)
    ensures var next := NextPost(t, top, at);
            var visits := at.visited || t[at.w].childs == null;
            && Inside(t, top, next)
            && (visits ==> TodoPost(t, maxDepth, top, at) == [at.w] + TodoPost(t, maxDepth, top, next)
                           && |TodoPost(t, maxDepth, top, next)| < |TodoPost(t, maxDepth, top, at)|)
            && (!visits ==> TodoPost(t, maxDepth, top, at) == TodoPost(t, maxDepth, top, next))
            && (!visits ==> next.w != null && t[at.w].depth < t[next.w].depth <= maxDepth)
  {
    assert KidsOK(t, at.w, maxDepth);
    if !at.visited && t[at.w].childs != null {
      FirstKid(t, maxDepth, top, at.w);
      assert KidsOK(t, t[at.w].kids[0], maxDepth);
      TodoPostDown(t, maxDepth, top, at.w);
    } else {
      ClimbPostOn(t, maxDepth, root, top, at.w);
      assert t[at.w].childs == null ==> Post(t, maxDepth, at.w) == [at.w];
    }
  }

  /** The postorder visits exactly the windows of the subtree. */
  lemma {:induction false} PostMembers(t: Tree, maxDepth: nat, w: Window, x: Window)
    requires Shape(t, maxDepth) && w in t
    ensures x in Post(t, maxDepth, w) <==> Above(t, w, x)
    decreases maxDepth + 1 - t[w].depth, 0, 0
  {
    assert KidsOK(t, w, maxDepth);
    PostSeqMembers(t, maxDepth, t[w].kids, t[w].depth + 1, x);
    if x in PostSeq(t, maxDepth, t[w].kids, t[w].depth + 1) {
      var k :| k in t[w].kids && Above(t, k, x);
      KidHasParent(t, maxDepth, w, k);
      AboveTrans(t, w, k, x);
    }
    if Above(t, w, x) && x != w {
      var k := KidTowards(t, maxDepth, w, x);
    }
  }

  lemma {:induction false} PostSeqMembers(t: Tree, maxDepth: nat, list: seq<Window>, d: nat, x: Window)
    requires Shape(t, maxDepth) && OnLevel(t, list, d)
    ensures x in PostSeq(t, maxDepth, list, d) <==> exists a :: a in list && Above(t, a, x)
    decreases maxDepth + 1 - d, 1, |list|
  {
    if list != [] {
      assert KidsOK(t, list[0], maxDepth);
      PostMembers(t, maxDepth, list[0], x);
      PostSeqMembers(t, maxDepth, list[1..], d, x);
      assert forall a :: a in list <==> a == list[0] || a in list[1..];
    }
  }

  lemma {:induction false} PostDistinct(t: Tree, maxDepth: nat, w: Window)
    requires Shape(t, maxDepth) && w in t
    ensures Distinct(Post(t, maxDepth, w))
    decreases maxDepth + 1 - t[w].depth, 0, 0
  {
    assert KidsOK(t, w, maxDepth);
    var below := PostSeq(t, maxDepth, t[w].kids, t[w].depth + 1);
    PostSeqDistinct(t, maxDepth, t[w].kids, t[w].depth + 1);
    PostSeqMembers(t, maxDepth, t[w].kids, t[w].depth + 1, w);
    if w in below {
      var k :| k in t[w].kids && Above(t, k, w);
      AboveDepth(t, k, w);
    }
    ConcatDistinct(below, [w]);
  }

  lemma {:induction false} PostSeqDistinct(t: Tree, maxDepth: nat, list: seq<Window>, d: nat)
    requires Shape(t, maxDepth) && OnLevel(t, list, d) && Distinct(list)
    ensures Distinct(PostSeq(t, maxDepth, list, d))
    decreases maxDepth + 1 - d, 1, |list|
  {
    if list != [] {
      assert KidsOK(t, list[0], maxDepth);
      var first, others := Post(t, maxDepth, list[0]), PostSeq(t, maxDepth, list[1..], d);
      PostDistinct(t, maxDepth, list[0]);
      PostSeqDistinct(t, maxDepth, list[1..], d);
      forall x | x in first ensures x !in others {
        PostMembers(t, maxDepth, list[0], x);
        PostSeqMembers(t, maxDepth, list[1..], d, x);
        if x in others {
          var a :| a in list[1..] && Above(t, a, x);
          AboveUnique(t, a, list[0], x);
        }
      }
      ConcatDistinct(first, others);
    }
  }

  // ----- Traversals of a list of siblings -----

  /** The visits of a list traversal that starts at `w`. */
  ghost function ListPre(t: Tree, maxDepth: nat, cut: set<Window>, w: Window?): seq<Window>
    requires Shape(t, maxDepth) && (w != null ==> w in t)
  {
    if w == null then []
    else
      RightLevel(t, maxDepth, w);
      PreSeq(t, maxDepth, cut, [w] + RightOf(t, w), t[w].depth)
  }

  lemma {:induction false} NoListPre(t: Tree, maxDepth: nat, cut: set<Window>)
    requires Shape(t, maxDepth)
    ensures ListPre(t, maxDepth, cut, null) == []
  {
  }

  lemma {:induction false} ListPreStep(t: Tree, maxDepth: nat, cut: set<Window>, root: Window, w: Window)
    requires TreeOK(t, root, maxDepth) && w in t
    ensures t[w].next != null ==> t[w].next in t && |RightOf(t, t[w].next)| < |RightOf(t, w)|
    ensures ListPre(t, maxDepth, cut, w) == Pre(t, maxDepth, cut, w) + ListPre(t, maxDepth, cut, t[w].next)
  {
    RightLevel(t, maxDepth, w);
    SiblingLinks(t, maxDepth, root, w);
    var right := RightOf(t, w);
    assert ([w] + right)[1..] == right;
    if right != [] {
      RightLevel(t, maxDepth, right[0]);
      assert [right[0]] + RightOf(t, right[0]) == right;
    } else {
      assert PreSeq(t, maxDepth, cut, right, t[w].depth) == [];
    }
  }

  /** Without turning points the preorder visits exactly the subtree. */
  lemma {:induction false} PreMembers(t: Tree, maxDepth: nat, w: Window, x: Window)
    requires Shape(t, maxDepth) && w in t
    ensures x in Pre(t, maxDepth, {}, w) <==> Above(t, w, x)
  {
    PreAbove(t, maxDepth, {}, w);
    if Above(t, w, x) && x !in Pre(t, maxDepth, {}, w) {
      var a := PreMissing(t, maxDepth, {}, w, x);
    }
  }

  /** What a list traversal visits: windows below `first` or a sibling to its right, each
      of them once. */
  lemma {:induction false} ListPreVisits(t: Tree, maxDepth: nat, cut: set<Window>, root: Window, first: Window)
    requires TreeOK(t, root, maxDepth) && first in t
    ensures Distinct(ListPre(t, maxDepth, cut, first))
    ensures forall x :: x in ListPre(t, maxDepth, cut, first) ==> x in t && exists a :: a in [first] + RightOf(t, first) && Above(t, a, x)
    ensures forall a :: a in [first] + RightOf(t, first) ==> a in t && forall x :: x in Pre(t, maxDepth, cut, a) ==> x in ListPre(t, maxDepth, cut, first)
  {
    var list := [first] + RightOf(t, first);
    RightLevel(t, maxDepth, first);
    FromHereDistinct(t, maxDepth, root, first);
    PreSeqDistinct(t, maxDepth, cut, list, t[first].depth);
    PreSeqAbove(t, maxDepth, cut, list, t[first].depth);
    forall x | x in ListPre(t, maxDepth, cut, first) ensures x in t && exists a :: a in list && Above(t, a, x) {
      var a :| a in list && Above(t, a, x);
      AboveDepth(t, a, x);
    }
    forall a | a in list ensures a in t && forall x :: x in Pre(t, maxDepth, cut, a) ==> x in ListPre(t, maxDepth, cut, first) {
      PreInSeq(t, maxDepth, cut, list, t[first].depth, a);
    }
  }

  lemma {:induction false} FromHereDistinct(t: Tree, maxDepth: nat, root: Window, first: Window)
    requires TreeOK(t, root, maxDepth) && first in t
    ensures Distinct([first] + RightOf(t, first))
  {
    if first != root {
      assert ParentOK(t, first);
      var kids := t[t[first].parent].kids;
      assert KidsOK(t, t[first].parent, maxDepth);
      var i :| 0 <= i < |kids| && kids[i] == first;
      SplitAt(kids, i);
      assert [first] + kids[i + 1..] == kids[i..];
    }
  }
}
