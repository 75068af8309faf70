/** Changes of the tree itself: restacking a window among its siblings, adding and removing
    a window that is not shown. */
module Restacking {
  import opened Geometry
  import opened WindowTree
  import opened Orders
  import opened Visibility
  import opened VisibleRects
  import opened Changes
  import opened Steps
  import opened Linking

  /** `w` exchanges its place with the neighbouring block `between` of its siblings; `a`
      and `c` are the siblings on either side. */
  ghost predicate Exchanged(kids0: seq<Window>, kids1: seq<Window>, a: seq<Window>, w: Window, between: seq<Window>, c: seq<Window>) {
    || (kids0 == a + [w] + between + c && kids1 == a + between + [w] + c)
    || (kids1 == a + [w] + between + c && kids0 == a + between + [w] + c)
  }

  lemma {:induction false} BeforeExchanged(a: seq<Window>, w: Window, b: seq<Window>, c: seq<Window>, x: Window)
    requires Distinct(a + [w] + b + c) && x != w && x in a + b + c
    ensures Distinct(a + b + [w] + c)
    ensures SameBut(Before(a + [w] + b + c, x), Before(a + b + [w] + c, x), [w])
    ensures x !in b ==> (w in Before(a + [w] + b + c, x) <==> w in Before(a + b + [w] + c, x))
  {
    var s, s' := a + [w] + b + c, a + b + [w] + c;
    ExchangedDistinct(a, w, b, c);
    assert x in a || x in b || x in c;
    assert x in s;
    var i :| 0 <= i < |s| && s[i] == x;
    SplitAt(s, i);
    if i < |a| {
      assert s'[i] == x;
      SplitAt(s', i);
      assert s[..i] == s'[..i];
    } else if i < |a| + 1 + |b| {
      assert s'[i - 1] == x;
      SplitAt(s', i - 1);
      assert s[..i] == a + [w] + b[..i - 1 - |a|] && s'[..i - 1] == a + b[..i - 1 - |a|];
      assert b[i - 1 - |a|] == x;
    } else {
      assert s'[i] == x;
      SplitAt(s', i);
      var n := i - 1 - |a| - |b|;
      assert s[..i] == a + [w] + b + c[..n] && s'[..i] == a + b + [w] + c[..n];
    }
  }

  lemma {:induction false} ExchangedDistinct(a: seq<Window>, w: Window, b: seq<Window>, c: seq<Window>)
    ensures Distinct(a + [w] + b + c) <==> Distinct(a + b + [w] + c)
    ensures forall x :: x in a + [w] + b + c <==> x in a + b + [w] + c
  {
    var s, s' := a + [w] + b + c, a + b + [w] + c;
    var n, m := |a|, |a| + |b|;
    assert forall i :: 0 <= i < |s| ==> s[i] == s'[if i < n then i else if i == n then m else if i <= m then i - 1 else i];
    assert forall i :: 0 <= i < |s| ==> s'[i] == s[if i < n then i else if i == m then n else if i < m then i + 1 else i];
  }

  lemma {:induction false} ExchangeAffects(t0: Tree, maxDepth: nat, root: Window, pl: Places, kids1: seq<Window>,
                                          a: seq<Window>, w: Window, between: seq<Window>, c: seq<Window>)
    requires TreeOK(t0, root, maxDepth) && w in t0 && t0.Keys == pl.Keys && t0[w].parent != null && t0[w].parent in t0
    requires Exchanged(t0[t0[w].parent].kids, kids1, a, w, between, c)
    ensures var t1 := Relinked(t0, t0[w].parent, kids1);
            && TreeOK(t1, root, maxDepth) && OnlyDiffersAt(t0, pl, t1, pl, w)
            && OnlyAffects(t0, pl, t1, pl, w, between)
    ensures forall b :: b in between ==> b in t0 && t0[b].parent == t0[w].parent && t0[b].depth == t0[w].depth && !Above(t0, w, b)
    ensures Distinct(between)
  {
    hide Shape, Exchanged, SameBut, Relinked, LeftOf, OnlyDiffersAt;
    var up := t0[w].parent;
    var t1 := Relinked(t0, up, kids1);
    KidsAt(t0, maxDepth, up);
    ExchangedSame(t0[up].kids, kids1, a, w, between, c);
    RelinkedOK(t0, maxDepth, root, up, kids1);
    forall x | x in t0 && x != w
      ensures x in t1 && SameBut(LeftOf(t0, x), LeftOf(t1, x), [w])
      ensures x !in between ==> (w in LeftOf(t0, x) <==> w in LeftOf(t1, x))
    {
      LeftExchanged(t0, maxDepth, kids1, a, w, between, c, x);
    }
    RelinkedDiffers(t0, pl, up, kids1, w);
    BlockMembers(t0, maxDepth, kids1, a, w, between, c);
  }

  lemma {:induction false} ExchangedSame(kids0: seq<Window>, kids1: seq<Window>, a: seq<Window>, w: Window, between: seq<Window>, c: seq<Window>)
    requires Exchanged(kids0, kids1, a, w, between, c) && Distinct(kids0)
    ensures Distinct(kids1) && SameBut(kids0, kids1, []) && forall x :: x in kids1 <==> x in kids0
  {
    ExchangedDistinct(a, w, between, c);
  }

  lemma {:induction false} RelinkedDiffers(t0: Tree, pl: Places, up: Window, kids1: seq<Window>, w: Window)
    requires t0.Keys == pl.Keys && w in t0 && up in t0 && SameBut(t0[up].kids, kids1, [])
    requires forall x :: x in t0 && x != w ==> SameBut(LeftOf(t0, x), LeftOf(Relinked(t0, up, kids1), x), [w])
    ensures OnlyDiffersAt(t0, pl, Relinked(t0, up, kids1), pl, w)
  {
    hide LeftOf;
    assert forall s: seq<Window> :: SameBut(s, s, []);
  }

  lemma {:induction false} BlockMembers(t0: Tree, maxDepth: nat, kids1: seq<Window>,
                                        a: seq<Window>, w: Window, between: seq<Window>, c: seq<Window>)
    requires Shape(t0, maxDepth) && w in t0 && t0[w].parent != null && t0[w].parent in t0
    requires Exchanged(t0[t0[w].parent].kids, kids1, a, w, between, c)
    ensures forall b :: b in between ==> b in t0 && t0[b].parent == t0[w].parent && t0[b].depth == t0[w].depth && !Above(t0, w, b)
    ensures Distinct(between)
  {
    var up := t0[w].parent;
    assert KidsOK(t0, up, maxDepth) && ParentOK(t0, w);
    ExchangedDistinct(a, w, between, c);
    forall b | b in between ensures b in t0 && t0[b].parent == up && t0[b].depth == t0[w].depth && !Above(t0, w, b) {
      assert b in t0[up].kids;
      BlockApart(a, w, between, c, b);
      if Above(t0, w, b) { AboveDepth(t0, w, b); }
    }
    forall i, j | 0 <= i < j < |between| ensures between[i] != between[j] {
      assert (a + [w] + between + c)[|a| + 1 + i] == between[i] && (a + [w] + between + c)[|a| + 1 + j] == between[j];
    }
  }

  lemma {:induction false} LeftExchanged(t0: Tree, maxDepth: nat, kids1: seq<Window>,
                                        a: seq<Window>, w: Window, between: seq<Window>, c: seq<Window>, x: Window)
    requires Shape(t0, maxDepth) && w in t0 && x in t0 && x != w && t0[w].parent != null && t0[w].parent in t0
    requires Exchanged(t0[t0[w].parent].kids, kids1, a, w, between, c)
    ensures var t1 := Relinked(t0, t0[w].parent, kids1);
            && SameBut(LeftOf(t0, x), LeftOf(t1, x), [w])
            && (x !in between ==> (w in LeftOf(t0, x) <==> w in LeftOf(t1, x)))
  {
    var up := t0[w].parent;
    var t1 := Relinked(t0, up, kids1);
    assert KidsOK(t0, up, maxDepth);
    assert HasParent(t0, x) <==> HasParent(t1, x);
    if HasParent(t0, x) && t0[x].parent == up {
      assert ParentOK(t0, x);
      ExchangedDistinct(a, w, between, c);
      BeforeExchanged(a, w, between, c, x);
    }
  }

  lemma {:induction false} BlockApart(a: seq<Window>, w: Window, b: seq<Window>, c: seq<Window>, x: Window)
    requires Distinct(a + [w] + b + c) && x in b
    ensures x != w
  {
    var s := a + [w] + b + c;
    var i :| 0 <= i < |b| && b[i] == x;
    assert s[|a|] == w && s[|a| + 1 + i] == x;
  }

  /** window_restack: rebuilding the windows of the block and `w` itself is enough. */
  lemma {:induction false} RestackRestores(t0: Tree, maxDepth: nat, root: Window, pl: Places, kids1: seq<Window>,
                                           a: seq<Window>, w: Window, between: seq<Window>, c: seq<Window>,
                                           visited: seq<Window>, sh0: map<Window, Shown>, sh1: map<Window, Shown>, x: Window)
    requires TreeOK(t0, root, maxDepth) && PlacesOK(t0, pl) && w in t0 && x in t0 && t0[w].parent != null && t0[w].parent in t0
    requires Exchanged(t0[t0[w].parent].kids, kids1, a, w, between, c)
    requires var t1 := Relinked(t0, t0[w].parent, kids1);
             && Shape(t1, maxDepth) && Visits(t1, maxDepth, pl, [pl[w].pos], w, visited)
             && (forall b :: b in between ==> b in t1 && Visits(t1, maxDepth, pl, [pl[w].pos], b, visited))
             && Rebuilt(t1, pl, [pl[w].pos], visited, sh0, sh1)
    requires AllShownOK(t0, pl, sh0)
    ensures ShownOK(Relinked(t0, t0[w].parent, kids1), pl, x, sh1[x])
  {
    var t1 := Relinked(t0, t0[w].parent, kids1);
    var rs := [pl[w].pos];
    ExchangeAffects(t0, maxDepth, root, pl, kids1, a, w, between, c);
    AboveSame(t0, t1, w, x);
    if !Above(t0, w, x) {
      OutsideRestored(t0, maxDepth, pl, t1, pl, w, rs, between, visited, sh0, sh1, x);
    } else if x in visited && Hit(pl, rs, x) {
      BuildMeaning(t1, pl, x);
    } else {
      if pl[x].isOpen {
        var b := Skipped(t1, maxDepth, pl, rs, w, x);
        assert rs[0] in rs;
        AboveSame(t0, t1, w, b);
        AboveSame(t0, t1, b, x);
        forall p ensures !Vis(t0, pl, x, p) && !Vis(t1, pl, x, p) {
          ApartShowsNothing(t0, pl, w, b, x, p);
          ApartShowsNothing(t1, pl, w, b, x, p);
        }
      }
      assert ShownOK(t0, pl, x, sh0[x]);
      ShownKept(t0, pl, t1, pl, x, sh0[x]);
    }
  }

  // ----- A window that is not shown comes or goes -----

  /** `big` is `small` with one more leaf, `n`, that is not open all the way up. */
  ghost predicate HiddenLeaf(big: Tree, plB: Places, small: Tree, plS: Places, n: Window) {
    && n in big && big.Keys == plB.Keys && small.Keys == plS.Keys == big.Keys - {n}
    && !AllOpen(big, plB, n)
    && (forall x :: x in small ==> small[x].parent == big[x].parent && small[x].depth == big[x].depth && plS[x] == plB[x])
    && (forall x :: x in small ==> big[x].parent != n)
    && (forall x :: x in small ==> n !in small[x].kids && SameBut(big[x].kids, small[x].kids, [n]))
    && (forall x :: x in small ==> n !in LeftOf(small, x) && SameBut(LeftOf(big, x), LeftOf(small, x), [n]))
    && (forall x :: x in small && n in big[x].kids ==> big[n].parent == x && HasParent(big, n))
    && (forall x :: x in small && n in LeftOf(big, x) ==> HasParent(big, x) && big[n].parent == big[x].parent && HasParent(big, n))
  }

  lemma {:induction false} InWithoutLeaf(big: Tree, plB: Places, small: Tree, plS: Places, n: Window, x: Window, p: Pixel)
    requires HiddenLeaf(big, plB, small, plS, n) && x in small
    ensures AllOpen(big, plB, x) <==> AllOpen(small, plS, x)
    ensures AllOpen(big, plB, x) ==> (Reach(big, plB, x, p) <==> Reach(small, plS, x, p))
    decreases big[x].depth
  {
    assert HasParent(big, x) <==> HasParent(small, x);
    if HasParent(big, x) { InWithoutLeaf(big, plB, small, plS, n, big[x].parent, p); }
    if AllOpen(big, plB, x) {
      assert n in LeftOf(big, x) ==> !plB[n].isOpen;
      CoversWithoutLeaf(plB, plS, LeftOf(big, x), LeftOf(small, x), n, p);
    }
  }

  lemma {:induction false} CoversWithoutLeaf(plB: Places, plS: Places, big: seq<Window>, small: seq<Window>, n: Window, p: Pixel)
    requires plS.Keys == plB.Keys - {n} && n in plB && forall x :: x in plS ==> plS[x] == plB[x]
    requires SameBut(big, small, [n]) && n !in small && (n in big ==> !plB[n].isOpen)
    ensures OpenCovers(plB, big, p) <==> OpenCovers(plS, small, p)
  {
  }

  /** Nothing changes for the other windows. */
  lemma {:induction false} VisWithoutLeaf(big: Tree, plB: Places, small: Tree, plS: Places, n: Window, x: Window, p: Pixel)
    requires HiddenLeaf(big, plB, small, plS, n) && x in small
    ensures Vis(big, plB, x, p) <==> Vis(small, plS, x, p)
  {
    InWithoutLeaf(big, plB, small, plS, n, x, p);
    if AllOpen(big, plB, x) {
      assert n in big[x].kids ==> !plB[n].isOpen;
      CoversWithoutLeaf(plB, plS, big[x].kids, small[x].kids, n, p);
    }
  }

  lemma {:induction false} ShownWithoutLeaf(big: Tree, plB: Places, small: Tree, plS: Places, n: Window, x: Window, s: Shown)
    requires HiddenLeaf(big, plB, small, plS, n) && x in small
    ensures ShownOK(big, plB, x, s) <==> ShownOK(small, plS, x, s)
  {
    forall p ensures Vis(big, plB, x, p) <==> Vis(small, plS, x, p) {
      VisWithoutLeaf(big, plB, small, plS, n, x, p);
    }
    if ShownOK(big, plB, x, s) { ShownKept(big, plB, small, plS, x, s); }
    if ShownOK(small, plS, x, s) { ShownKept(small, plS, big, plB, x, s); }
  }

  /** window_delete_one on a leaf: relink its siblings, then drop it. */
  ghost function WithoutLeaf(t: Tree, n: Window): Tree
    requires n in t && t[n].parent != null && t[n].parent in t
  {
    Relinked(t, t[n].parent, Dropped(t[t[n].parent].kids, n)) - {n}
  }

  lemma {:induction false} LeafRemoved(t: Tree, maxDepth: nat, root: Window, pl: Places, n: Window)
    requires TreeOK(t, root, maxDepth) && t.Keys == pl.Keys && n in t && t[n].kids == [] && n != root && !AllOpen(t, pl, n)
    ensures t[n].parent != null && t[n].parent in t
    ensures TreeOK(WithoutLeaf(t, n), root, maxDepth)
    ensures HiddenLeaf(t, pl, WithoutLeaf(t, n), pl - {n}, n)
  {
    hide Shape, AllOpen, LeftOf, SameBut;
    ParentAt(t, maxDepth, root, n);
    LeafRemovedOK(t, maxDepth, root, n);
    forall x | x in t && x != n ensures LeafGone(t, WithoutLeaf(t, n), n, x) {
      LeafGoneAt(t, maxDepth, root, n, x);
    }
  }

  /** One of the other windows, before and after the leaf `n` is removed. */
  ghost predicate LeafGone(t: Tree, t': Tree, n: Window, x: Window)
    requires x in t && n in t
  {
    && x in t' && t[x].parent != n && t'[x].parent == t[x].parent && t'[x].depth == t[x].depth
    && n !in t'[x].kids && SameBut(t[x].kids, t'[x].kids, [n])
    && n !in LeftOf(t', x) && SameBut(LeftOf(t, x), LeftOf(t', x), [n])
    && (n in t[x].kids ==> t[n].parent == x)
    && (n in LeftOf(t, x) ==> HasParent(t, x) && t[n].parent == t[x].parent)
  }

  lemma {:induction false} LeafGoneAt(t: Tree, maxDepth: nat, root: Window, n: Window, x: Window)
    requires TreeOK(t, root, maxDepth) && n in t && t[n].kids == [] && ParentOK(t, n) && x in t && x != n
    ensures LeafGone(t, WithoutLeaf(t, n), n, x)
  {
    hide Shape;
    KidsAt(t, maxDepth, x);
    var up := t[n].parent;
    KidsAt(t, maxDepth, up);
    var kids := t[up].kids;
    WithoutDistinct(kids, n);
    if t[x].parent != null { ParentAt(t, maxDepth, root, x); }
    LeftWithoutLeaf(t, maxDepth, root, n, x);
    var t' := WithoutLeaf(t, n);
    assert t'[x].kids == if x == up then Dropped(kids, n) else t[x].kids;
    assert t[x].parent != n && SameBut(t[x].kids, t'[x].kids, [n]);
  }

  lemma {:induction false} LeftWithoutLeaf(t: Tree, maxDepth: nat, root: Window, n: Window, x: Window)
    requires TreeOK(t, root, maxDepth) && n in t && ParentOK(t, n) && x in t && x != n && t[n].kids == []
    ensures var t' := WithoutLeaf(t, n);
            && x in t' && n !in LeftOf(t', x) && SameBut(LeftOf(t, x), LeftOf(t', x), [n])
            && (n in LeftOf(t, x) ==> HasParent(t, x) && t[n].parent == t[x].parent)
  {
    var t' := WithoutLeaf(t, n);
    if x != root {
      ParentAt(t, maxDepth, root, x);
      ParentAt(t, maxDepth, root, n);
      var q := t[x].parent;
      KidsAt(t, maxDepth, q);
      KidsAt(t, maxDepth, t[n].parent);
      assert q != n && HasParent(t', x);
      if q == t[n].parent {
        BeforeWithout(t[q].kids, n, x);
      } else {
        SplitAround(t[q].kids, x);
      }
    }
  }

  lemma {:induction false} BeforeWithout(s: seq<Window>, n: Window, x: Window)
    requires Distinct(s) && n in s && x in s && x != n
    ensures n !in Before(Dropped(s, n), x)
    ensures SameBut(Before(s, x), Before(Dropped(s, n), x), [n])
    ensures x in Dropped(s, n)
  {
    hide Distinct, Dropped;
    DroppedStep(s, n);
    DistinctTail(s);
    if s[0] == n {
      BeforeMembers(s[1..], x);
    } else if s[0] != x {
      BeforeWithout(s[1..], n, x);
      assert forall u :: u in Before(s, x) <==> u == s[0] || u in Before(s[1..], x);
    }
  }

  lemma {:induction false} BeforeMembers(s: seq<Window>, x: Window)
    ensures forall l :: l in Before(s, x) ==> l in s
  {
    if s != [] && s[0] != x { BeforeMembers(s[1..], x); }
  }

  lemma {:induction false} DistinctTail(s: seq<Window>)
    requires Distinct(s) && s != []
    ensures Distinct(s[1..]) && s[0] !in s[1..]
  {
    forall i, j | 0 <= i < j < |s[1..]| ensures s[1..][i] != s[1..][j] { assert s[i + 1] != s[j + 1]; }
  }

  lemma {:induction false} DroppedStep(s: seq<Window>, n: Window)
    requires s != []
    ensures Dropped(s, n) == if s[0] == n then s[1..] else [s[0]] + Dropped(s[1..], n)
  {
  }

  lemma {:induction false} LeafRemovedOK(t: Tree, maxDepth: nat, root: Window, n: Window)
    requires TreeOK(t, root, maxDepth) && n in t && t[n].kids == [] && n != root && ParentOK(t, n)
    ensures TreeOK(WithoutLeaf(t, n), root, maxDepth)
  {
    var up := t[n].parent;
    var kids := t[up].kids;
    var kids' := Dropped(kids, n);
    var t' := WithoutLeaf(t, n);
    assert KidsOK(t, up, maxDepth);
    SplitAround(kids, n);
    WithoutDistinct(kids, n);
    assert KidsOK(t, n, maxDepth);
    forall x | x in t' ensures KidsOK(t', x, maxDepth) {
      KidsWithoutLeaf(t, maxDepth, n, x);
    }
    forall x | x in t' && t'[x].parent != null ensures ParentOK(t', x) {
      assert ParentOK(t, x);
    }
  }

  lemma {:induction false} KidsWithoutLeaf(t: Tree, maxDepth: nat, n: Window, x: Window)
    requires Shape(t, maxDepth) && n in t && ParentOK(t, n) && x in WithoutLeaf(t, n)
    ensures KidsOK(WithoutLeaf(t, n), x, maxDepth)
  {
    var up := t[n].parent;
    var kids' := Dropped(t[up].kids, n);
    assert KidsOK(t, up, maxDepth) && KidsOK(t, x, maxDepth);
    WithoutDistinct(t[up].kids, n);
    if x == up {
      forall k | k in kids' ensures k in t && t[k].parent == up && t[k].depth == t[up].depth + 1 {
        WithoutMember(t[up].kids, n, k);
      }
      ChainRelinked(t, up, kids');
      ChainRestricted(Relinked(t, up, kids'), n, kids');
    } else {
      ChainKept(t, up, kids', t[x].kids);
      ChainRestricted(Relinked(t, up, kids'), n, t[x].kids);
    }
  }

  lemma {:induction false} WithoutMember(s: seq<Window>, n: Window, k: Window)
    requires Distinct(s) && n in s
    ensures k in Dropped(s, n) <==> k in s && k != n
  {
    SplitAround(s, n);
  }

  lemma {:induction false} WithoutDistinct(s: seq<Window>, n: Window)
    requires Distinct(s) && n in s
    ensures Distinct(Dropped(s, n)) && n !in Dropped(s, n)
    ensures forall k :: k in Dropped(s, n) <==> k in s && k != n
  {
    SplitAround(s, n);
    var i := |Before(s, n)|;
    var s' := Dropped(s, n);
    assert forall j :: 0 <= j < |s'| ==> s'[j] == s[if j < i then j else j + 1];
  }

  lemma {:induction false} ChainRestricted(t: Tree, n: Window, list: seq<Window>)
    requires (forall k :: k in list ==> k in t && k != n) && ChainOK(t, list)
    ensures ChainOK(t - {n}, list)
  {
    forall i | 0 <= i < |list| ensures list[i] in t - {n} && (t - {n})[list[i]] == t[list[i]] {
      assert list[i] in list;
    }
  }
}
