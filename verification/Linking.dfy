/** Child lists as values, and the trees that result from relinking one of them
    (wtree_remove, wtree_add_after, wtree_add_before: server/window.c:78-134). */
module Linking {
  import opened WindowTree
  import opened Orders

  ghost function First(s: seq<Window>): Window? {
    if s == [] then null else s[0]
  }

  ghost function Last(s: seq<Window>): Window? {
    if s == [] then null else s[|s| - 1]
  }

  /** The tree in which the children of `up` are `kids`, correctly linked. */
  ghost function Relinked(t: Tree, up: Window, kids: seq<Window>): (m: Tree)
    ensures m.Keys == t.Keys
  {
    map x | x in t ::
      if x == up then t[x].(kids := kids, childs := First(kids))
      else if x in kids then t[x].(next := First(After(kids, x)), prev := Last(Before(kids, x)))
      else t[x]
  }

  ghost function Dropped(s: seq<Window>, w: Window): seq<Window> {
    Before(s, w) + After(s, w)
  }

  ghost function InsertedBefore(s: seq<Window>, at: Window, w: Window): seq<Window> {
    Before(s, at) + [w, at] + After(s, at)
  }

  ghost function InsertedAfter(s: seq<Window>, at: Window, w: Window): seq<Window> {
    Before(s, at) + [at, w] + After(s, at)
  }

  lemma {:induction false} SplitAround<T>(s: seq<T>, w: T)
    requires w in s
    ensures s == Before(s, w) + [w] + After(s, w) && w !in Before(s, w)
    ensures Distinct(s) ==> w !in After(s, w)
  {
    if s[0] != w {
      SplitAround(s[1..], w);
      assert s == [s[0]] + s[1..];
    }
  }

  /** Before and After of a concatenation around `w`. */
  lemma {:induction false} SplitOf<T>(a: seq<T>, w: T, b: seq<T>)
    requires Distinct(a + [w] + b)
    ensures Before(a + [w] + b, w) == a && After(a + [w] + b, w) == b
  {
    assert (a + [w] + b)[|a|] == w;
    SplitAt(a + [w] + b, |a|);
  }

  /** The neighbours of the i-th element. */
  lemma {:induction false} Neighbours(s: seq<Window>, i: nat)
    requires Distinct(s) && i < |s|
    ensures First(After(s, s[i])) == (if i + 1 < |s| then s[i + 1] else null)
    ensures Last(Before(s, s[i])) == (if 0 < i then s[i - 1] else null)
  {
    SplitAt(s, i);
  }

  /** Relinking keeps the tree well formed when the new children are exactly the windows
      that name `up` as their parent. */
  lemma {:induction false} RelinkedOK(t: Tree, maxDepth: nat, root: Window, up: Window, kids: seq<Window>)
    requires TreeOK(t, root, maxDepth) && up in t && Distinct(kids)
    requires forall k :: k in kids <==> k in t[up].kids
    ensures TreeOK(Relinked(t, up, kids), root, maxDepth)
  {
    var t' := Relinked(t, up, kids);
    forall x | x in t ensures KidsOK(t', x, maxDepth) {
      assert KidsOK(t, x, maxDepth) && KidsOK(t, up, maxDepth);
      if x == up {
        ChainRelinked(t, up, kids);
      } else {
        ChainKept(t, up, kids, t[x].kids);
      }
    }
    forall x | x in t && t'[x].parent != null ensures ParentOK(t', x) {
      assert ParentOK(t, x);
    }
    assert KidsOK(t, up, maxDepth);
  }

  lemma {:induction false} ChainRelinked(t: Tree, up: Window, kids: seq<Window>)
    requires Distinct(kids) && up !in kids && forall k :: k in kids ==> k in t
    ensures ChainOK(Relinked(t, up, kids), kids)
  {
    var t' := Relinked(t, up, kids);
    forall i | 0 <= i < |kids|
      ensures t'[kids[i]].next == (if i + 1 < |kids| then kids[i + 1] else null)
      ensures t'[kids[i]].prev == (if 0 < i then kids[i - 1] else null)
    {
      Neighbours(kids, i);
      assert kids[i] in kids;
    }
  }

  lemma {:induction false} ChainKept(t: Tree, up: Window, kids: seq<Window>, list: seq<Window>)
    requires (forall k :: k in list ==> k in t && k !in kids) && ChainOK(t, list)
    ensures ChainOK(Relinked(t, up, kids), list)
  {
    var t' := Relinked(t, up, kids);
    forall i | 0 <= i < |list| ensures t'[list[i]].next == t[list[i]].next && t'[list[i]].prev == t[list[i]].prev {
      assert list[i] in list;
    }
  }

  // ----- The pointer assignments -----

  function LinksOf(n: Node): Links {
    Links(n.next, n.prev, n.parent, n.childs)
  }

  /** The links are those of the tree. */
  ghost predicate LinksAre(links: map<Window, Links>, t: Tree) {
    links.Keys == t.Keys && forall x :: x in t ==> links[x] == LinksOf(t[x])
  }

  /** The neighbours of the i-th element, and its other links as they were. */
  function Neighboured(l: Links, kids: seq<Window>, i: nat): Links
    requires i < |kids|
  {
    l.(next := if i + 1 < |kids| then kids[i + 1] else null, prev := if 0 < i then kids[i - 1] else null)
  }

  /** Links that chain up `kids` and start at `up` are those of the relinked tree. */
  lemma {:induction false} LinksRelinked(t: Tree, up: Window, kids: seq<Window>, links: map<Window, Links>)
    requires links.Keys == t.Keys && up in t && up !in kids && Distinct(kids)
    requires links[up] == LinksOf(t[up]).(childs := First(kids))
    requires forall i :: 0 <= i < |kids| ==> kids[i] in t && links[kids[i]] == Neighboured(LinksOf(t[kids[i]]), kids, i)
    requires forall x :: x in t && x != up && x !in kids ==> links[x] == LinksOf(t[x])
    ensures LinksAre(links, Relinked(t, up, kids))
  {
    var t' := Relinked(t, up, kids);
    forall x | x in t ensures links[x] == LinksOf(t'[x]) {
      if x in kids {
        var i :| 0 <= i < |kids| && kids[i] == x;
        Neighbours(kids, i);
      }
    }
  }

  lemma {:induction false} RelinkedTwice(t: Tree, up: Window, kids1: seq<Window>, kids2: seq<Window>)
    requires forall x :: x in kids1 ==> x in kids2
    ensures Relinked(Relinked(t, up, kids1), up, kids2) == Relinked(t, up, kids2)
  {
  }

  /** wtree_remove */
  function Removed(links: map<Window, Links>, w: Window): map<Window, Links> {
    if w !in links then links
    else
      var l := links[w];
      var links1 :=
        if l.prev != null then if l.prev in links then links[l.prev := links[l.prev].(next := l.next)] else links
        else if l.parent != null && l.parent in links then links[l.parent := links[l.parent].(childs := l.next)]
        else links;
      if l.next != null && l.next in links1 then links1[l.next := links1[l.next].(prev := l.prev)] else links1
  }

  lemma {:induction false} RemovedAt(links: map<Window, Links>, up: Window, kids: seq<Window>, i: nat, x: Window)
    requires Distinct(kids) && i < |kids| && up in links && up !in kids && (forall k :: k in kids ==> k in links) && x in links
    requires links[kids[i]].next == (if i + 1 < |kids| then kids[i + 1] else null)
    requires links[kids[i]].prev == (if 0 < i then kids[i - 1] else null) && links[kids[i]].parent == up
    ensures var links', l := Removed(links, kids[i]), links[kids[i]];
            && links'.Keys == links.Keys
            && links'[x] == if 0 < i && x == kids[i - 1] then links[x].(next := l.next)
                            else if i + 1 < |kids| && x == kids[i + 1] then links[x].(prev := l.prev)
                            else if i == 0 && x == up then links[x].(childs := l.next)
                            else links[x]
  {
    if 0 < i { assert kids[i - 1] in kids; }
    if i + 1 < |kids| { assert kids[i + 1] in kids; }
    assert kids[i] in kids;
  }

  lemma {:induction false} RemovedKid(t: Tree, links: map<Window, Links>, up: Window, kids: seq<Window>, i: nat, j: nat)
    requires LinksAre(links, t) && Distinct(kids) && i < |kids| && j < |kids| && i != j && up in t && up !in kids
    requires (forall k :: k in kids ==> k in t) && ChainOK(t, kids) && t[kids[i]].parent == up
    ensures var kids', links', n := kids[..i] + kids[i + 1..], Removed(links, kids[i]), if j < i then j else j - 1;
            kids[j] in links' && kids'[n] == kids[j] && links'[kids[j]] == Neighboured(LinksOf(t[kids[j]]), kids', n)
  {
    hide Removed;
    assert kids[i] in kids && kids[j] in kids;
    ChainAt(t, kids, i);
    ChainAt(t, kids, j);
    RemovedAt(links, up, kids, i, kids[j]);
  }

  lemma {:induction false} RemovedLinks(t: Tree, maxDepth: nat, w: Window, links: map<Window, Links>)
    requires Shape(t, maxDepth) && w in t && t[w].parent != null && ParentOK(t, w) && LinksAre(links, t)
    ensures LinksAre(Removed(links, w), Relinked(t, t[w].parent, Dropped(t[t[w].parent].kids, w)))
  {
    hide Removed, Shape;
    var up := t[w].parent;
    var kids := t[up].kids;
    KidsAt(t, maxDepth, up);
    var i :| 0 <= i < |kids| && kids[i] == w;
    SplitAt(kids, i);
    var kids', links' := Dropped(kids, w), Removed(links, w);
    ChainAt(t, kids, i);
    RemovedAt(links, up, kids, i, up);
    forall j | 0 <= j < |kids'| ensures kids'[j] in t && links'[kids'[j]] == Neighboured(LinksOf(t[kids'[j]]), kids', j) {
      var k := if j < i then j else j + 1;
      assert kids[k] in kids;
      RemovedKid(t, links, up, kids, i, k);
    }
    forall x | x in t && x != up && x !in kids' ensures links'[x] == LinksOf(t[x]) {
      RemovedAt(links, up, kids, i, x);
      if 0 < i { assert kids'[i - 1] == kids[i - 1]; }
      if i + 1 < |kids| { assert kids'[i] == kids[i + 1]; }
    }
    RemovedChain(kids, i);
    LinksRelinked(t, up, kids', links');
  }

  lemma {:induction false} RemovedChain(kids: seq<Window>, i: nat)
    requires Distinct(kids) && i < |kids|
    ensures Distinct(kids[..i] + kids[i + 1..]) && forall k :: k in kids[..i] + kids[i + 1..] ==> k in kids
  {
  }

  lemma {:induction false} KidsAt(t: Tree, maxDepth: nat, up: Window)
    requires Shape(t, maxDepth) && up in t
    ensures Distinct(t[up].kids) && (forall k :: k in t[up].kids ==> k in t && t[k].parent == up && t[k].depth == t[up].depth + 1)
    ensures t[up].childs == First(t[up].kids) && ChainOK(t, t[up].kids) && up !in t[up].kids
  {
    assert KidsOK(t, up, maxDepth);
  }

  // ----- Insertion -----

  /** wtree_add_before */
  function AddedBefore(links: map<Window, Links>, parent: Window, at: Window?, w: Window): map<Window, Links> {
    if w !in links || parent !in links then links
    else
      var links1 := links[w := links[w].(next := at, prev := null)];
      var links2 := if at != null && at in links1 then PutBefore(links1, at, w) else links1;
      var links3 := links2[w := links2[w].(parent := parent)];
      if links3[w].prev == null then links3[parent := links3[parent].(childs := w)] else links3
  }

  /** The links of the neighbours: of `at` and of what was before it. */
  function PutBefore(links: map<Window, Links>, at: Window, w: Window): (m: map<Window, Links>)
    requires at in links && w in links
    ensures m.Keys == links.Keys
  {
    var p := links[at].prev;
    var links1 := if p != null && p in links then links[w := links[w].(prev := p)] else links;
    var links2 := if p != null && p in links then links1[p := links1[p].(next := w)] else links1;
    links2[at := links2[at].(prev := w)]
  }

  /** wtree_add_after */
  function AddedAfter(links: map<Window, Links>, parent: Window, at: Window, w: Window): map<Window, Links> {
    if w !in links || at !in links then links
    else
      var links1 := links[w := links[w].(prev := at, next := null)];
      var links2 := PutAfter(links1, at, w);
      links2[w := links2[w].(parent := parent)]
  }

  function PutAfter(links: map<Window, Links>, at: Window, w: Window): (m: map<Window, Links>)
    requires at in links && w in links
    ensures m.Keys == links.Keys
  {
    var n := links[at].next;
    var links1 := if n != null && n in links then links[w := links[w].(next := n)] else links;
    var links2 := if n != null && n in links then links1[n := links1[n].(prev := w)] else links1;
    links2[at := links2[at].(next := w)]
  }

  /** Both put `w` between two neighbours, at index `i`; the other links stay. */
  ghost function Inserted(links: map<Window, Links>, up: Window, kids: seq<Window>, i: nat, w: Window, x: Window): Links
    requires x in links && i <= |kids|
  {
    var next, prev := (if i < |kids| then kids[i] else null), (if 0 < i then kids[i - 1] else null);
    if x == w then links[w].(next := next, prev := prev, parent := up)
    else if x == prev then links[x].(next := w)
    else if x == next then links[x].(prev := w)
    else if i == 0 && x == up then links[x].(childs := w)
    else links[x]
  }

  /** `links'` is the result of one of the insertions at index `i`. */
  ghost predicate IsAdded(links: map<Window, Links>, up: Window, kids: seq<Window>, i: nat, w: Window, links': map<Window, Links>) {
    i <= |kids| && ((i < |kids| && links' == AddedBefore(links, up, kids[i], w)) || (kids == [] && links' == AddedBefore(links, up, null, w))
                    || (0 < i && links' == AddedAfter(links, up, kids[i - 1], w)))
  }

  /** The i-th window of the list is linked to its neighbours. */
  ghost predicate ChainedAt(links: map<Window, Links>, kids: seq<Window>, j: nat)
    requires j < |kids|
  {
    kids[j] in links && links[kids[j]].next == (if j + 1 < |kids| then kids[j + 1] else null)
    && links[kids[j]].prev == (if 0 < j then kids[j - 1] else null)
  }

  ghost predicate Chained(links: map<Window, Links>, kids: seq<Window>) {
    forall j {:trigger ChainedAt(links, kids, j)} :: 0 <= j < |kids| ==> ChainedAt(links, kids, j)
  }

  lemma {:induction false} AddedBeforeAt(links: map<Window, Links>, up: Window, kids: seq<Window>, i: nat, w: Window, x: Window)
    requires Distinct(kids) && up in links && up !in kids && Chained(links, kids) && x in links && w in links && w !in kids && w != up
    requires i < |kids|
    ensures var links' := AddedBefore(links, up, kids[i], w);
            links'.Keys == links.Keys && links'[x] == Inserted(links, up, kids, i, w, x)
  {
    var at := kids[i];
    assert at in kids && ChainedAt(links, kids, i);
    if 0 < i {
      assert ChainedAt(links, kids, i - 1) && kids[i - 1] in kids && kids[i - 1] != at;
    }
  }

  lemma {:induction false} AddedAfterAt(links: map<Window, Links>, up: Window, kids: seq<Window>, i: nat, w: Window, x: Window)
    requires Distinct(kids) && up in links && up !in kids && Chained(links, kids) && x in links && w in links && w !in kids && w != up
    requires 0 < i <= |kids|
    ensures var links' := AddedAfter(links, up, kids[i - 1], w);
            links'.Keys == links.Keys && links'[x] == Inserted(links, up, kids, i, w, x)
  {
    var at := kids[i - 1];
    assert at in kids && ChainedAt(links, kids, i - 1);
    if i < |kids| {
      assert ChainedAt(links, kids, i) && kids[i] in kids && kids[i] != at;
    }
  }

  lemma {:induction false} AddedAt(links: map<Window, Links>, up: Window, kids: seq<Window>, i: nat, w: Window, links': map<Window, Links>, x: Window)
    requires Distinct(kids) && up in links && up !in kids && Chained(links, kids) && x in links && w in links && w !in kids && w != up
    requires IsAdded(links, up, kids, i, w, links')
    ensures links'.Keys == links.Keys && links'[x] == Inserted(links, up, kids, i, w, x)
  {
    hide Chained, Distinct;
    if i < |kids| { AddedBeforeAt(links, up, kids, i, w, x); }
    if 0 < i { AddedAfterAt(links, up, kids, i, w, x); }
  }

  /** `links` are those of `t`, except that `w` has not got its parent yet. */
  ghost predicate LinksButParent(links: map<Window, Links>, t: Tree, up: Window, w: Window) {
    links.Keys == t.Keys && w in t && links[w].(parent := up) == LinksOf(t[w]) && forall x :: x in t && x != w ==> links[x] == LinksOf(t[x])
  }

  lemma {:induction false} AddedKid(t: Tree, links: map<Window, Links>, up: Window, kids: seq<Window>, i: nat, w: Window, links': map<Window, Links>, n: nat)
    requires LinksButParent(links, t, up, w) && Distinct(kids) && up in t && up !in kids && w !in kids && w != up
    requires Chained(links, kids) && n <= |kids| && IsAdded(links, up, kids, i, w, links')
    ensures var kids' := kids[..i] + [w] + kids[i..];
            kids'[n] in links' && kids'[n] in t && links'[kids'[n]] == Neighboured(LinksOf(t[kids'[n]]), kids', n)
  {
    hide IsAdded;
    AddedSize(links, up, kids, i, w, links');
    var kids' := kids[..i] + [w] + kids[i..];
    if n == i {
      AddedAt(links, up, kids, i, w, links', w);
    } else {
      var k := if n < i then n else n - 1;
      assert kids'[n] == kids[k] && kids[k] in kids;
      if 0 < i && k != i - 1 { assert kids[k] != kids[i - 1]; }
      if i < |kids| && k != i { assert kids[k] != kids[i]; }
      assert ChainedAt(links, kids, k);
      AddedAt(links, up, kids, i, w, links', kids[k]);
    }
  }

  lemma {:induction false} AddedSize(links: map<Window, Links>, up: Window, kids: seq<Window>, i: nat, w: Window, links': map<Window, Links>)
    requires IsAdded(links, up, kids, i, w, links')
    ensures i <= |kids|
  {
  }

  lemma {:induction false} ChainLinks(t: Tree, links: map<Window, Links>, up: Window, kids: seq<Window>, w: Window)
    requires LinksButParent(links, t, up, w) && w !in kids && (forall k :: k in kids ==> k in t) && ChainOK(t, kids)
    ensures Chained(links, kids)
  {
    forall j | 0 <= j < |kids| ensures ChainedAt(links, kids, j) {
      assert kids[j] in kids;
      ChainAt(t, kids, j);
    }
  }

  /** An insertion gives the links of the tree with the longer child list. */
  lemma {:induction false} AddedLinks(t: Tree, links: map<Window, Links>, up: Window, kids: seq<Window>, i: nat, w: Window, links': map<Window, Links>)
    requires LinksButParent(links, t, up, w) && Distinct(kids) && up in t && up !in kids && w !in kids && w != up
    requires (forall k :: k in kids ==> k in t) && ChainOK(t, kids) && t[up].childs == First(kids)
    requires IsAdded(links, up, kids, i, w, links')
    ensures i <= |kids| && LinksAre(links', Relinked(t, up, kids[..i] + [w] + kids[i..]))
  {
    hide IsAdded;
    AddedSize(links, up, kids, i, w, links');
    var kids' := kids[..i] + [w] + kids[i..];
    ChainLinks(t, links, up, kids, w);
    AddedAt(links, up, kids, i, w, links', up);
    forall n | 0 <= n < |kids'| ensures kids'[n] in t && links'[kids'[n]] == Neighboured(LinksOf(t[kids'[n]]), kids', n) {
      AddedKid(t, links, up, kids, i, w, links', n);
    }
    AddedChain(kids, i, w);
    forall x | x in t && x != up && x !in kids' ensures links'[x] == LinksOf(t[x]) {
      AddedAt(links, up, kids, i, w, links', x);
    }
    LinksRelinked(t, up, kids', links');
  }

  lemma {:induction false} AddedChain(kids: seq<Window>, i: nat, w: Window)
    requires Distinct(kids) && i <= |kids| && w !in kids
    ensures var kids' := kids[..i] + [w] + kids[i..]; Distinct(kids') && forall k :: k in kids' <==> k == w || k in kids
  {
    var kids' := kids[..i] + [w] + kids[i..];
    assert kids'[i] == w;
    forall k | k in kids ensures k in kids' {
      var j :| 0 <= j < |kids| && kids[j] == k;
      assert kids'[if j < i then j else j + 1] == k;
    }
  }

  /** What the insertions need to know about the links that they follow. */
  lemma {:induction false} AddFacts(t: Tree, links: map<Window, Links>, up: Window, kids: seq<Window>, i: nat, w: Window)
    requires LinksButParent(links, t, up, w) && Distinct(kids) && up in t && up !in kids && w !in kids && w != up
    requires (forall k :: k in kids ==> k in t) && ChainOK(t, kids) && i < |kids|
    ensures var at := kids[i];
            && at in links && at != w && at != up && up in links && w in links
            && (links[at].prev != null ==> links[at].prev in links && links[at].prev !in {w, at, up})
            && (links[at].next != null ==> links[at].next in links && links[at].next !in {w, at, up})
  {
    assert kids[i] in kids;
    ChainAt(t, kids, i);
    if 0 < i { assert kids[i - 1] in kids && kids[i - 1] != kids[i]; }
    if i + 1 < |kids| { assert kids[i + 1] in kids && kids[i] != kids[i + 1]; }
  }

  /** The tree after wtree_remove, as the insertion finds it. */
  lemma {:induction false} DroppedTree(t: Tree, up: Window, kids: seq<Window>, w: Window, links: map<Window, Links>)
    requires Distinct(kids) && w in kids && up in t && up !in kids && (forall k :: k in kids ==> k in t && t[k].parent == up)
    ensures var rest := Dropped(kids, w);
            var t1 := Relinked(t, up, rest);
            && Distinct(rest) && w !in rest && up !in rest && w != up && w in t1 && up in t1 && t1[w].parent == up
            && (forall k :: k in rest ==> k in t1) && ChainOK(t1, rest) && t1[up].childs == First(rest)
  {
    hide ChainOK;
    SplitAround(kids, w);
    var i :| 0 <= i < |kids| && kids[i] == w;
    SplitAt(kids, i);
    RemovedChain(kids, i);
    ChainRelinked(t, up, Dropped(kids, w));
  }

  lemma {:induction false} RemovedButParent(links: map<Window, Links>, t: Tree, up: Window, w: Window)
    requires LinksAre(links, t) && w in t && t[w].parent == up
    ensures LinksButParent(links, t, up, w)
  {
  }
}
