/** What the page writes of a deletion do to the lists and to the tree held in the file. */
module DirDeletePages {
  import opened DirNames
  import opened DirTree
  import opened DirInsert
  import opened DirDelete
  import opened DirPages

  /** A page cleared and put in front of the reclaim list. */
  function Reclaimed(pos: int, gcHead: int): Page {
    Page(pos, [], [0], gcHead, 0, 0)
  }

  lemma TailDrop(w: seq<int>, k: nat)
    requires k < |w| && Distinct(w) && w[k] != Tail(w)
    ensures Drop(w, k) != [] && Tail(Drop(w, k)) == Tail(w)
  {
  }

  lemma PartsDrop(d: Disk, d': Disk, gcHead: int, end: int, w: seq<int>, g: seq<int>, k: nat)
    requires Parts(d, gcHead, end, w, g) && k < |w|
    requires (forall p :: p in d <==> p in d') && (forall p :: p in d' ==> d'[p].pos == p)
    requires w[k] in d' && d'[w[k]].gcNext == gcHead
    requires forall p :: p in g && p in d ==> d'[p].gcNext == d[p].gcNext
    ensures Parts(d', w[k], end, Drop(w, k), [w[k]] + g)
  {
    var v, u := Drop(w, k), [w[k]] + g;
    DropMembers(w, k);
    assert w[k] in w;
    forall i | 0 <= i < |u| ensures Chained(d', u, i) {
      if i > 0 { assert Chained(d, g, i - 1) && u[i] == g[i - 1] && g[i - 1] in g; }
    }
    forall p ensures p in u <==> p == w[k] || p in g {
      if p in g {
        var i :| 0 <= i < |g| && g[i] == p;
        assert u[i + 1] == p;
      }
    }
    forall i, j | 0 <= i < j < |u| ensures u[i] != u[j] {
      assert u[j] == g[j - 1] && g[j - 1] in g;
    }
  }

  /** The file as it will be once the two pages held in memory are written back. */
  function Overlay(d: Disk, left: Page, tnode: Page): Disk {
    d[left.pos := left][tnode.pos := tnode]
  }

  function SetPrev(d: Disk, n: int, v: int): Disk {
    if n in d then d[n := d[n].(walkPrev := v)] else d
  }

  function SetNext(d: Disk, n: int, v: int): Disk {
    if n in d then d[n := d[n].(walkNext := v)] else d
  }

  /** The links of a dropped page lead on, so patching its neighbours keeps all links safe. */
  lemma SafeDrop(d: Disk, d1: Disk, walkHead: int, w: seq<int>, k: nat)
    requires Safe(d, walkHead, w) && Distinct(w) && k < |w| && w[k] != Tail(w) && w[k] in d
    requires (forall p :: p in d <==> p in d1) &&
             (forall p :: p in d && p in d1 && p != w[k] ==> SameLinks(d1[p], d[p]))
    ensures var n, v := d[w[k]].walkNext, d[w[k]].walkPrev;
            Safe(SetNext(SetPrev(d1, n, v), v, n), if walkHead == w[k] then n else walkHead, Drop(w, k))
  {
    var n, v := d[w[k]].walkNext, d[w[k]].walkPrev;
    var d2 := SetNext(SetPrev(d1, n, v), v, n);
    assert LinkSafe(d, Tail(w), w[k]);
    DropMembers(w, k);
    TailDrop(w, k);
    forall p | p in Drop(w, k) ensures LinkSafe(d2, Tail(Drop(w, k)), p) { assert LinkSafe(d, Tail(w), p); }
  }

  /** Patching both neighbours of a dropped page takes it out of the walk list. */
  lemma WalkPatched(d: Disk, d1: Disk, walkHead: int, w: seq<int>, k: nat)
    requires Walk(d, walkHead, w) && Distinct(w) && 0 !in d && k < |w| && w[k] in d
    requires (forall p :: p in d <==> p in d1) &&
             (forall p :: p in d && p in d1 && p != w[k] ==> SameLinks(d1[p], d[p]))
    ensures var n, v := d[w[k]].walkNext, d[w[k]].walkPrev;
            Walk(SetNext(SetPrev(d1, n, v), v, n), if walkHead == w[k] then n else walkHead, Drop(w, k))
  {
    var n, v := d[w[k]].walkNext, d[w[k]].walkPrev;
    var d2 := SetNext(SetPrev(d1, n, v), v, n);
    assert Linked(d, w, k) && Linked(d, w, 0);
    forall j | 0 <= j < |w| && j != k
      ensures w[j] in d && w[j] in d2
      ensures d2[w[j]].walkNext == (if j == k - 1 then n else d[w[j]].walkNext)
      ensures d2[w[j]].walkPrev == (if j == k + 1 then v else d[w[j]].walkPrev)
    {
      assert Linked(d, w, j);
    }
    WalkDrop(d, d2, w, k);
  }

  /** Dropping a page other than the tail: it goes in front of the reclaim list, and its neighbours
      are patched to point past it. */
  lemma PatchedDrop(sure: bool, d: Disk, d1: Disk, walkHead: int, gcHead: int, end: int, w: seq<int>, g: seq<int>,
                    k: nat)
    requires Lists(sure, d, walkHead, gcHead, end, w, g) && k < |w| && w[k] in d && w[k] != Tail(w)
    requires (forall p :: p in d <==> p in d1) && (forall p :: p in d1 ==> d1[p].pos == p)
    requires forall p :: p in d && p in d1 && p != w[k] ==> SameLinks(d1[p], d[p])
    requires d1[w[k]].gcNext == gcHead
    ensures var d2 := SetNext(SetPrev(d1, d[w[k]].walkNext, d[w[k]].walkPrev), d[w[k]].walkPrev, d[w[k]].walkNext);
            Lists(sure, d2, if walkHead == w[k] then d[w[k]].walkNext else walkHead, w[k], end, Drop(w, k), [w[k]] + g)
  {
    hide Safe, Walk, Gc, Spaced, Distinct;
    var n, v := d[w[k]].walkNext, d[w[k]].walkPrev;
    var d2 := SetNext(SetPrev(d1, n, v), v, n);
    SafeDrop(d, d1, walkHead, w, k);
    if sure { WalkPatched(d, d1, walkHead, w, k); }
    forall p | p in g && p in d ensures d2[p].gcNext == d[p].gcNext { assert w[k] in w; }
    PartsDrop(d, d2, gcHead, end, w, g, k);
  }

  ghost predicate SameBodies(d: Disk, d': Disk) {
    && (forall p :: p in d <==> p in d')
    && (forall p :: p in d && p in d' ==> SameBody(d'[p], d[p]))
  }

  /** The merge's unlinking, seen on the file with the two in-memory pages laid over it. */
  lemma OverlayDrop(sure: bool, d: Disk, left: Page, tnode: Page, walkHead: int, gcHead: int, end: int, w: seq<int>,
                    g: seq<int>, k: nat)
    requires Lists(sure, d, walkHead, gcHead, end, w, g) && k < |w| && w[k] in d && left.pos in d && tnode.pos in d
    requires w[k] != Tail(w)
    requires left.pos != w[k] && tnode.pos != w[k] && left.pos != tnode.pos
    requires SameLinks(left, d[left.pos]) && SameLinks(tnode, d[tnode.pos])
    ensures var d1 := Overlay(d[w[k] := Reclaimed(w[k], gcHead)], left, tnode);
            var d2 := SetNext(SetPrev(d1, d[w[k]].walkNext, d[w[k]].walkPrev), d[w[k]].walkPrev, d[w[k]].walkNext);
            Lists(sure, d2, if walkHead == w[k] then d[w[k]].walkNext else walkHead, w[k], end, Drop(w, k), [w[k]] + g)
  {
    PatchedDrop(sure, d, Overlay(d[w[k] := Reclaimed(w[k], gcHead)], left, tnode), walkHead, gcHead, end, w, g, k);
  }

  lemma SameBodiesTrans(d0: Disk, d1: Disk, d2: Disk, q: int, page: Page, page': Page)
    requires SameBody(page, page') && SameBodies(d0[q := page], d1) && SameBodies(d1, d2)
    ensures SameBodies(d0[q := page'], d2)
  {
  }

  /** Dropping the old root while the new root is still only in memory. */
  lemma RootDrop(sure: bool, d: Disk, left: Page, tnode: Page, walkHead: int, gcHead: int, end: int, w: seq<int>,
                 g: seq<int>, k: nat)
    requires left.pos in d && tnode.pos in d && left.pos != tnode.pos
    requires Lists(sure, Overlay(d, left, tnode), walkHead, gcHead, end, w, g) && k < |w| &&
             w[k] == tnode.pos != Tail(w)
    ensures var d1 := d[tnode.pos := Reclaimed(tnode.pos, gcHead)][left.pos := left];
            var d2 := SetNext(SetPrev(d1, tnode.walkNext, tnode.walkPrev), tnode.walkPrev, tnode.walkNext);
            && Lists(sure, d2, if walkHead == w[k] then tnode.walkNext else walkHead, w[k], end, Drop(w, k), [w[k]] + g)
            && tnode.walkNext in d && (tnode.walkPrev == 0 || tnode.walkPrev in d)
            && 0 !in d
  {
    var o := Overlay(d, left, tnode);
    var d1 := d[tnode.pos := Reclaimed(tnode.pos, gcHead)][left.pos := left];
    assert LinkSafe(o, Tail(w), w[k]);
    assert forall p :: p in o <==> p in d;
    PatchedDrop(sure, o, d1, walkHead, gcHead, end, w, g, k);
  }

  // ----- the tree after a merge or an evening-out

  /** Outside the pages of `c` the two files agree on page bodies. */
  ghost predicate AgreeOff(d: Disk, d': Disk, c: set<int>) {
    && (forall p :: p !in c ==> (p in d <==> p in d'))
    && (forall p :: p !in c && p in d && p in d' ==> SameBody(d'[p], d[p]))
  }

  lemma HoldsOff(d: Disk, d': Disk, c: set<int>, t: Tree)
    requires Holds(d, t) && AgreeOff(d, d', c) && forall p :: p in c ==> Uses(t, p) == 0
    ensures Holds(d', t)
  {
    HoldsFrame(d, d', t);
  }

  /** The kids of two neighbouring kids use none of the three pages that are rewritten. */
  lemma InnerApart(t: Tree, j: nat)
    requires Single(t) && j + 1 < |t.kids|
    ensures var l, r := t.kids[j], t.kids[j + 1];
            && t.pos != l.pos && t.pos != r.pos && l.pos != r.pos
            && (forall i :: 0 <= i < |l.kids| ==>
                Uses(l.kids[i], t.pos) == 0 && Uses(l.kids[i], l.pos) == 0 && Uses(l.kids[i], r.pos) == 0)
            && (forall i :: 0 <= i < |r.kids| ==>
                Uses(r.kids[i], t.pos) == 0 && Uses(r.kids[i], l.pos) == 0 && Uses(r.kids[i], r.pos) == 0)
            && (forall i :: 0 <= i < |t.kids| && i != j && i != j + 1 ==>
                  Uses(t.kids[i], t.pos) == 0 && Uses(t.kids[i], l.pos) == 0 && Uses(t.kids[i], r.pos) == 0)
  {
    var l, r := t.kids[j], t.kids[j + 1];
    KidsApart(t, j);
    KidsApart(t, j + 1);
    UsesSelf(l);
    UsesSelf(r);
    forall i | 0 <= i < |l.kids|
      ensures Uses(l.kids[i], t.pos) == 0 && Uses(l.kids[i], l.pos) == 0 && Uses(l.kids[i], r.pos) == 0
    {
      KidsApart(l, i);
      UsesKid(l, i, t.pos);
      UsesKid(l, i, r.pos);
    }
    forall i | 0 <= i < |r.kids|
      ensures Uses(r.kids[i], t.pos) == 0 && Uses(r.kids[i], l.pos) == 0 && Uses(r.kids[i], r.pos) == 0
    {
      KidsApart(r, i);
      UsesKid(r, i, t.pos);
      UsesKid(r, i, l.pos);
    }
    forall i | 0 <= i < |t.kids| && i != j && i != j + 1
      ensures Uses(t.kids[i], t.pos) == 0 && Uses(t.kids[i], l.pos) == 0 && Uses(t.kids[i], r.pos) == 0
    {
      KidsApart(t, i);
    }
  }

  lemma PoolPositions(l: Tree, m: Entry, r: Tree, h: nat)
    requires Shaped(l, h) && Shaped(r, h)
    ensures ChildPos(Pool(l, m, r)) == ChildPos(l) + ChildPos(r)
  {
  }

  /** The kids of the rewritten pages are still held. */
  lemma InnerHeld(d: Disk, d': Disk, t: Tree, j: nat)
    requires Holds(d, t) && Single(t) && j + 1 < |t.kids|
    requires AgreeOff(d, d', {t.pos, t.kids[j].pos, t.kids[j + 1].pos})
    ensures var l, r := t.kids[j], t.kids[j + 1];
            && (forall i :: 0 <= i < |l.kids| ==> Holds(d', l.kids[i]))
            && (forall i :: 0 <= i < |r.kids| ==> Holds(d', r.kids[i]))
    ensures forall i :: 0 <= i < |t.kids| && i != j && i != j + 1 ==> Holds(d', t.kids[i])
  {
    var l, r := t.kids[j], t.kids[j + 1];
    var c := {t.pos, l.pos, r.pos};
    InnerApart(t, j);
    assert Holds(d, l) && Holds(d, r);
    forall i | 0 <= i < |l.kids| ensures Holds(d', l.kids[i]) { HoldsOff(d, d', c, l.kids[i]); }
    forall i | 0 <= i < |r.kids| ensures Holds(d', r.kids[i]) { HoldsOff(d, d', c, r.kids[i]); }
    forall i | 0 <= i < |t.kids| && i != j && i != j + 1 ensures Holds(d', t.kids[i]) { HoldsOff(d, d', c, t.kids[i]); }
  }

  lemma PoolHeld(d: Disk, d': Disk, t: Tree, j: nat)
    requires Holds(d, t) && Single(t) && |t.kids| == |t.entries| + 1 && j < |t.entries|
    requires AgreeOff(d, d', {t.pos, t.kids[j].pos, t.kids[j + 1].pos})
    requires var p := Pool(t.kids[j], t.entries[j], t.kids[j + 1]); p.pos in d' && Stores(d'[p.pos], p)
    ensures Holds(d', Pool(t.kids[j], t.entries[j], t.kids[j + 1]))
  {
    var l, r := t.kids[j], t.kids[j + 1];
    InnerHeld(d, d', t, j);
    assert Holds(d, l);
    var p := Pool(l, t.entries[j], r);
    forall i | 0 <= i < |p.kids| ensures Holds(d', p.kids[i]) {
      if i < |l.kids| { assert p.kids[i] == l.kids[i]; } else { assert p.kids[i] == r.kids[i - |l.kids|]; }
    }
  }

  lemma MergedHeld(d: Disk, d': Disk, t: Tree, j: nat)
    requires Holds(d, t) && Single(t) && |t.kids| == |t.entries| + 1 && j < |t.entries|
    requires AgreeOff(d, d', {t.pos, t.kids[j].pos, t.kids[j + 1].pos})
    requires var p := Pool(t.kids[j], t.entries[j], t.kids[j + 1]); p.pos in d' && Stores(d'[p.pos], p)
    requires t.pos in d' && Stores(d'[t.pos], Merged(t, j))
    ensures Holds(d', Merged(t, j))
  {
    var g := Merged(t, j);
    PoolHeld(d, d', t, j);
    InnerHeld(d, d', t, j);
    forall i | 0 <= i < |g.kids| ensures Holds(d', g.kids[i]) {
      if i < j { assert g.kids[i] == t.kids[i]; }
      else if i == j { assert g.kids[i] == Pool(t.kids[j], t.entries[j], t.kids[j + 1]); }
      else { assert g.kids[i] == t.kids[i + 1]; }
    }
  }

  lemma EvenedHeld(d: Disk, d': Disk, t: Tree, h: nat, j: nat)
    requires h > 0 && Shaped(t, h) && Holds(d, t) && Single(t) && j < |t.entries|
    requires AgreeOff(d, d', {t.pos, t.kids[j].pos, t.kids[j + 1].pos})
    requires var p := Pool(t.kids[j], t.entries[j], t.kids[j + 1]);
             var lo, hi := LowHalf(p), HighHalf(p, t.kids[j + 1].pos);
             && lo.pos in d' && Stores(d'[lo.pos], lo) && hi.pos in d' && Stores(d'[hi.pos], hi)
             && t.pos in d' && Stores(d'[t.pos], Evened(t, j))
    ensures Holds(d', Evened(t, j))
  {
    var l, r, g := t.kids[j], t.kids[j + 1], Evened(t, j);
    var p := Pool(l, t.entries[j], r);
    var lo, hi := LowHalf(p), HighHalf(p, r.pos);
    InnerHeld(d, d', t, j);
    assert Holds(d, l) && Holds(d, r);
    forall i | 0 <= i < |p.kids| ensures Holds(d', p.kids[i]) {
      if i < |l.kids| { assert p.kids[i] == l.kids[i]; } else { assert p.kids[i] == r.kids[i - |l.kids|]; }
    }
    HalfHeld(d', p, r.pos);
    forall i | 0 <= i < |g.kids| ensures Holds(d', g.kids[i]) {
      if i == j {
        assert g.kids[i] == lo;
      } else if i == j + 1 {
        assert g.kids[i] == hi;
      } else {
        assert g.kids[i] == t.kids[i];
      }
    }
  }

  lemma HalfHeld(d: Disk, p: Tree, pos: int)
    requires p.entries != [] && forall i :: 0 <= i < |p.kids| ==> Holds(d, p.kids[i])
    requires p.pos != 0 && pos != 0
    requires var lo, hi := LowHalf(p), HighHalf(p, pos);
             lo.pos in d && Stores(d[lo.pos], lo) && hi.pos in d && Stores(d[hi.pos], hi)
    ensures Holds(d, LowHalf(p)) && Holds(d, HighHalf(p, pos))
  {
    var lo, hi, m := LowHalf(p), HighHalf(p, pos), |p.entries| / 2;
    forall i | 0 <= i < |lo.kids| ensures Holds(d, lo.kids[i]) { assert lo.kids[i] == p.kids[i]; }
    forall i | 0 <= i < |hi.kids| ensures Holds(d, hi.kids[i]) { assert hi.kids[i] == p.kids[m + 1 + i]; }
  }

  lemma MergedPositions(t: Tree, j: nat)
    requires |t.kids| == |t.entries| + 1 && j < |t.entries|
    ensures ChildPos(Merged(t, j)) == ChildPos(t)[..j + 1] + ChildPos(t)[j + 2..]
  {
    var g, c := Merged(t, j), ChildPos(t);
    forall i | 0 <= i < |g.kids| ensures g.kids[i].pos == (c[..j + 1] + c[j + 2..])[i] {
      if i < j { assert g.kids[i] == t.kids[i]; } else if i > j { assert g.kids[i] == t.kids[i + 1]; }
    }
  }

  lemma HalfPositions(p: Tree, pos: int, h: nat)
    requires p.entries != [] && (h == 0 ==> p.kids == []) && (h > 0 ==> |p.kids| == |p.entries| + 1)
    ensures var m := |p.entries| / 2;
            && |ChildPos(p)| == |p.entries| + 1
            && ChildPos(LowHalf(p)) == ChildPos(p)[..m + 1] && ChildPos(HighHalf(p, pos)) == ChildPos(p)[m + 1..]
  {
  }

  lemma EvenedPositions(t: Tree, j: nat)
    requires |t.kids| == |t.entries| + 1 && j < |t.entries|
    ensures ChildPos(Evened(t, j)) == ChildPos(t)
  {
    var g := Evened(t, j);
    assert forall i :: 0 <= i < |t.kids| ==> g.kids[i].pos == t.kids[i].pos;
  }

  // ----- the lists after several pages were dropped

  /** The walk list without the dropped pages, order kept. */
  function Without(w: seq<int>, dropped: seq<int>): seq<int> {
    if w == [] then [] else Kept(w[0], dropped) + Without(w[1..], dropped)
  }

  function Kept(p: int, dropped: seq<int>): seq<int> {
    if p in dropped then [] else [p]
  }

  /** The reclaim list with the dropped pages in front, the last one first. */
  function Pushed(g: seq<int>, dropped: seq<int>): seq<int>
    decreases |dropped|
  {
    if dropped == [] then g else Pushed([dropped[0]] + g, dropped[1..])
  }

  lemma {:induction false} PushedMeans(g: seq<int>, dropped: seq<int>)
    ensures |Pushed(g, dropped)| == |dropped| + |g| && Pushed(g, dropped)[|dropped|..] == g
    ensures forall k :: 0 <= k < |dropped| ==> Pushed(g, dropped)[k] == dropped[|dropped| - 1 - k]
    decreases |dropped|
  {
    if dropped != [] {
      var p := Pushed(g, dropped);
      PushedMeans([dropped[0]] + g, dropped[1..]);
      assert p[|dropped| - 1] == p[|dropped| - 1..][0] == dropped[0];
      assert p[|dropped|..] == p[|dropped| - 1..][1..] == g;
    }
  }

  lemma {:induction false} WithoutMembers(w: seq<int>, d: seq<int>, p: int)
    ensures p in Without(w, d) <==> p in w && p !in d
  {
    if w != [] { WithoutMembers(w[1..], d, p); }
  }

  lemma {:induction false} WithoutNone(w: seq<int>, d: seq<int>)
    requires forall i :: 0 <= i < |w| ==> w[i] !in d
    ensures Without(w, d) == w
  {
    if w != [] {
      WithoutNone(w[1..], d);
      assert w == [w[0]] + w[1..];
    }
  }

  lemma {:induction false} WithoutJoin(a: seq<int>, b: seq<int>, d: seq<int>)
    ensures Without(a + b, d) == Without(a, d) + Without(b, d)
  {
    hide Kept;
    if a == [] {
      assert a + b == b;
    } else {
      WithoutJoin(a[1..], b, d);
      assert (a + b)[0] == a[0] && (a + b)[1..] == a[1..] + b;
      Assoc(Kept(a[0], d), Without(a[1..], d), Without(b, d));
    }
  }

  lemma {:induction false} WithoutTwice(w: seq<int>, d: seq<int>, e: seq<int>)
    ensures Without(Without(w, d), e) == Without(w, d + e)
  {
    if w != [] {
      WithoutTwice(w[1..], d, e);
      WithoutJoin(if w[0] in d then [] else [w[0]], Without(w[1..], d), e);
      if w[0] !in d { assert Without([w[0]], e) == (if w[0] in e then [] else [w[0]]) + Without([w[0]][1..], e); }
    }
  }

  lemma {:induction false} DropIsWithout(w: seq<int>, k: nat)
    requires k < |w| && Distinct(w)
    ensures Drop(w, k) == Without(w, [w[k]])
  {
    var u := w[1..];
    assert forall i :: 0 <= i < |u| ==> u[i] == w[i + 1];
    if k == 0 {
      WithoutNone(u, [w[0]]);
    } else {
      DropIsWithout(u, k - 1);
      assert Drop(w, k) == [w[0]] + Drop(u, k - 1);
    }
  }

  lemma {:induction false} PushedTwice(g: seq<int>, d: seq<int>, e: seq<int>)
    ensures Pushed(Pushed(g, d), e) == Pushed(g, d + e)
    decreases |d|
  {
    if d == [] {
      assert d + e == e;
    } else {
      PushedTwice([d[0]] + g, d[1..], e);
      assert (d + e)[0] == d[0] && (d + e)[1..] == d[1..] + e;
    }
  }

  lemma PushedOne(g: seq<int>, p: int)
    ensures Pushed(g, [p]) == [p] + g
  {
    assert Pushed(g, [p]) == Pushed([p] + g, [p][1..]);
  }

  // ----- what a deletion step starts from and leaves behind

  /** If the last page of `w` is in the tree at all, it is the leftmost leaf. */
  ghost predicate Tailed(t: Tree, w: seq<int>) {
    Uses(t, Tail(w)) > 0 ==> Tail(w) == Leftmost(t)
  }

  ghost predicate Deleting(sure: bool, d: Disk, walkHead: int, gcHead: int, end: int, t: Tree, h: nat, w: seq<int>,
                           g: seq<int>) {
    && Holds(d, t) && Shaped(t, h) && Single(t)
    && Lists(sure, d, walkHead, gcHead, end, w, g) && (forall p :: Uses(t, p) > 0 ==> p in w) && Tailed(t, w)
  }

  /** The file holds `t'` where it held `t`; the dropped pages are on the reclaim list, and no listed
      page outside the subtree changed its body. The walk links are safe, no more. */
  ghost predicate DeletedBody(d: Disk, d': Disk, walkHead: int, gcHead: int, end: int,
                              t: Tree, t': Tree, dropped: seq<int>, w: seq<int>, g: seq<int>)
  {
    && Holds(d', t')
    && Parts(d', gcHead, end, Without(w, dropped), Pushed(g, dropped))
    && Safe(d', walkHead, Without(w, dropped))
    && (forall p :: p in w && Uses(t, p) == 0 ==> p in d && p in d' && SameBody(d'[p], d[p]))
  }

  /** The same, and when `sure` the walk list runs through the remaining pages. */
  ghost predicate Deleted(sure: bool, d: Disk, d': Disk, walkHead: int, gcHead: int, end: int,
                          t: Tree, t': Tree, dropped: seq<int>, w: seq<int>, g: seq<int>)
  {
    (sure ==> Walk(d', walkHead, Without(w, dropped))) &&
    DeletedBody(d, d', walkHead, gcHead, end, t, t', dropped, w, g)
  }

  /** Neither a node with kids nor a page right of another one is the leftmost leaf. */
  lemma LeftmostAbove(t: Tree, h: nat, j: nat)
    requires h > 0 && Shaped(t, h) && Single(t) && j < |t.entries|
    ensures Leftmost(t) != t.pos && Leftmost(t) != t.kids[j + 1].pos
  {
    hide Flat, Single;
    LeftmostUsed(t.kids[0]);
    KidsApart(t, 0);
    UsesSelf(t.kids[j + 1]);
  }

  /** Where the two pages around a merge lie. */
  lemma PairListed(sure: bool, d: Disk, walkHead: int, gcHead: int, end: int, t: Tree, h: nat, w: seq<int>, g: seq<int>,
                   j: nat)
    returns (k: nat)
    requires Deleting(sure, d, walkHead, gcHead, end, t, h, w, g) && h > 0 && j < |t.entries|
    ensures var l, r := t.kids[j], t.kids[j + 1];
            && l.pos in w && r.pos in w && t.pos in w && k < |w| && w[k] == r.pos
            && l.pos in d && r.pos in d && t.pos in d
            && Stores(d[l.pos], l) && Stores(d[r.pos], r) && Stores(d[t.pos], t)
            && l.pos != r.pos && l.pos != t.pos && r.pos != t.pos
            && Shaped(l, h - 1) && Shaped(r, h - 1) && r.pos != Tail(w) && t.pos != Tail(w)
  {
    var l, r := t.kids[j], t.kids[j + 1];
    InnerApart(t, j);
    LeftmostAbove(t, h, j);
    assert Holds(d, l) && Holds(d, r);
    UsesSelf(t); UsesSelf(l); UsesSelf(r);
    UsesKid(t, j, l.pos);
    UsesKid(t, j + 1, r.pos);
    k :| 0 <= k < |w| && w[k] == r.pos;
  }

  lemma AgreeFrame(d: Disk, d': Disk, t: Tree, w: seq<int>, j: nat)
    requires j + 1 < |t.kids| && AgreeOff(d, d', {t.pos, t.kids[j].pos, t.kids[j + 1].pos})
    requires forall p :: p in w ==> p in d
    ensures forall p :: p in w && Uses(t, p) == 0 ==> p in d && p in d' && SameBody(d'[p], d[p])
  {
    UsesSelf(t); UsesSelf(t.kids[j]); UsesSelf(t.kids[j + 1]);
    UsesKid(t, j, t.kids[j].pos);
    UsesKid(t, j + 1, t.kids[j + 1].pos);
  }

  /** The file after the right page was merged into the left one below a node that stays. */
  lemma MergeDone(sure: bool, d: Disk, d': Disk, walkHead: int, gcHead: int, end: int, walkHead': int, gcHead': int,
                  t: Tree, h: nat, w: seq<int>, g: seq<int>, j: nat, k: nat)
    requires Deleting(sure, d, walkHead, gcHead, end, t, h, w, g) && h > 0 && j < |t.entries|
    requires k < |w| && w[k] == t.kids[j + 1].pos
    requires AgreeOff(d, d', {t.pos, t.kids[j].pos, t.kids[j + 1].pos})
    requires var p := Pool(t.kids[j], t.entries[j], t.kids[j + 1]); p.pos in d' && Stores(d'[p.pos], p)
    requires t.pos in d' && Stores(d'[t.pos], Merged(t, j))
    requires Lists(sure, d', walkHead', gcHead', end, Drop(w, k), [w[k]] + g)
    ensures Deleted(sure, d, d', walkHead', gcHead', end, t, Merged(t, j), [t.kids[j + 1].pos], w, g)
  {
    MergedHeld(d, d', t, j);
    AgreeFrame(d, d', t, w, j);
    DropIsWithout(w, k);
    PushedOne(g, w[k]);
  }

  /** The file after the only two kids of a root were merged and the root was dropped. */
  lemma LowerDone(sure: bool, d: Disk, d': Disk, walkHead: int, gcHead: int, end: int, walkHead': int, gcHead': int,
                  t: Tree, h: nat, w: seq<int>, g: seq<int>, k: nat, k2: nat)
    requires Deleting(sure, d, walkHead, gcHead, end, t, h, w, g) && h > 0 && |t.entries| == 1
    requires k < |w| && w[k] == t.kids[1].pos && k2 < |w| - 1 && Drop(w, k)[k2] == t.pos
    requires AgreeOff(d, d', {t.pos, t.kids[0].pos, t.kids[1].pos})
    requires var p := Pool(t.kids[0], t.entries[0], t.kids[1]); p.pos in d' && Stores(d'[p.pos], p)
    requires Lists(sure, d', walkHead', gcHead', end, Drop(Drop(w, k), k2), [t.pos] + ([w[k]] + g))
    ensures Deleted(sure, d, d', walkHead', gcHead', end, t, Pool(t.kids[0], t.entries[0], t.kids[1]),
                    [t.kids[1].pos, t.pos], w, g)
  {
    hide Spaced, Safe, Walk, Gc, Flat, Single, Leftmost, AgreeOff, Pushed, Without, Drop;
    PoolHeld(d, d', t, 0);
    AgreeFrame(d, d', t, w, 0);
    TwoDropped(w, g, k, k2);
  }

  lemma TwoDropped(w: seq<int>, g: seq<int>, k: nat, k2: nat)
    requires Distinct(w) && k < |w| && k2 < |w| - 1
    ensures var p, q := w[k], Drop(w, k)[k2];
            && Without(w, [p, q]) == Drop(Drop(w, k), k2) && Pushed(g, [p, q]) == [q] + ([p] + g)
  {
    var p, q := w[k], Drop(w, k)[k2];
    DropIsWithout(w, k);
    DropMembers(w, k);
    DropIsWithout(Drop(w, k), k2);
    WithoutTwice(w, [p], [q]);
    PushedTwice(g, [p], [q]);
    PushedOne(g, p);
    PushedOne([p] + g, q);
    assert [p] + [q] == [p, q];
  }

  lemma EvenDone(sure: bool, d: Disk, d': Disk, walkHead: int, gcHead: int, end: int,
                 t: Tree, h: nat, w: seq<int>, g: seq<int>, j: nat)
    requires Deleting(sure, d, walkHead, gcHead, end, t, h, w, g) && h > 0 && j < |t.entries|
    requires AgreeOff(d, d', {t.pos, t.kids[j].pos, t.kids[j + 1].pos})
    requires var p := Pool(t.kids[j], t.entries[j], t.kids[j + 1]);
             var lo, hi := LowHalf(p), HighHalf(p, t.kids[j + 1].pos);
             && lo.pos in d' && Stores(d'[lo.pos], lo) && hi.pos in d' && Stores(d'[hi.pos], hi)
             && t.pos in d' && Stores(d'[t.pos], Evened(t, j))
    requires Lists(sure, d', walkHead, gcHead, end, w, g)
    ensures Deleted(sure, d, d', walkHead, gcHead, end, t, Evened(t, j), [], w, g)
  {
    EvenedHeld(d, d', t, h, j);
    AgreeFrame(d, d', t, w, j);
    WithoutNone(w, []);
  }

  lemma EvenWritten(sure: bool, d: Disk, walkHead: int, gcHead: int, end: int, t: Tree, h: nat, w: seq<int>,
                    g: seq<int>, j: nat,
                    left: Page, right: Page, node: Page)
    requires Deleting(sure, d, walkHead, gcHead, end, t, h, w, g) && h > 0 && j < |t.entries| && t.kids[j].pos in d &&
             t.kids[j + 1].pos in d
    requires var l, r := d[t.kids[j].pos], d[t.kids[j + 1].pos];
             var es, cs := l.entries + [d[t.pos].entries[j]] + r.entries, l.children + r.children;
             var m := |es| / 2;
             && m < |cs| && left == l.(entries := es[..m], children := cs[..m + 1])
             && right == r.(entries := es[m + 1..], children := cs[m + 1..])
             && node == d[t.pos].(entries := d[t.pos].entries[j := es[m]])
    ensures Deleted(sure, d, d[left.pos := left][right.pos := right][node.pos := node], walkHead, gcHead, end, t,
                    Evened(t, j), [], w, g)
  {
    hide Spaced, Safe, Walk, Gc, Leftmost, Flat, Uses, Single, Distinct;
    var k := PairListed(sure, d, walkHead, gcHead, end, t, h, w, g, j);
    EvenBodies(t, h, j, d[t.pos], d[t.kids[j].pos], d[t.kids[j + 1].pos], left, right, node);
    ListsRewrite3(sure, d, walkHead, gcHead, end, w, g, left, right, node);
    ThreeWritten(d, left, right, node);
    EvenDone(sure, d, d[left.pos := left][right.pos := right][node.pos := node], walkHead, gcHead, end, t, h, w, g, j);
  }

  lemma ThreeWritten(d: Disk, a: Page, b: Page, c: Page)
    requires a.pos != b.pos && a.pos != c.pos && b.pos != c.pos
    ensures var d' := d[a.pos := a][b.pos := b][c.pos := c];
            d'[a.pos] == a && d'[b.pos] == b && d'[c.pos] == c && AgreeOff(d, d', {c.pos, a.pos, b.pos})
  {
  }

  lemma EvenBodies(t: Tree, h: nat, j: nat, node0: Page, l: Page, r: Page, left: Page, right: Page, node: Page)
    requires h > 0 && Shaped(t, h) && j < |t.entries|
    requires Stores(node0, t) && Stores(l, t.kids[j]) && Stores(r, t.kids[j + 1])
    requires Shaped(t.kids[j], h - 1) && Shaped(t.kids[j + 1], h - 1)
    requires var es, cs := l.entries + [node0.entries[j]] + r.entries, l.children + r.children;
             var m := |es| / 2;
             && m < |cs| && SameBody(left, l.(entries := es[..m], children := cs[..m + 1]))
             && SameBody(right, r.(entries := es[m + 1..], children := cs[m + 1..]))
             && SameBody(node, node0.(entries := node0.entries[j := es[m]]))
    ensures var p := Pool(t.kids[j], t.entries[j], t.kids[j + 1]);
            && Stores(left, LowHalf(p)) && Stores(right, HighHalf(p, t.kids[j + 1].pos)) && Stores(node, Evened(t, j))
  {
    var p := Pool(t.kids[j], t.entries[j], t.kids[j + 1]);
    PoolSound(t.kids[j], t.entries[j], t.kids[j + 1], h - 1);
    PoolPositions(t.kids[j], t.entries[j], t.kids[j + 1], h - 1);
    HalfPositions(p, right.pos, h - 1);
    EvenedPositions(t, j);
  }

  lemma ListsRewrite3(sure: bool, d: Disk, walkHead: int, gcHead: int, end: int, w: seq<int>, g: seq<int>, a: Page,
                      b: Page, c: Page)
    requires Lists(sure, d, walkHead, gcHead, end, w, g) && a.pos in d && b.pos in d && c.pos in d
    requires a.pos != b.pos && a.pos != c.pos && b.pos != c.pos
    requires SameLinks(a, d[a.pos]) && SameLinks(b, d[b.pos]) && SameLinks(c, d[c.pos])
    ensures Lists(sure, d[a.pos := a][b.pos := b][c.pos := c], walkHead, gcHead, end, w, g)
  {
    ListsRewrite(sure, d, walkHead, gcHead, end, w, g, a);
    ListsRewrite(sure, d[a.pos := a], walkHead, gcHead, end, w, g, b);
    ListsRewrite(sure, d[a.pos := a][b.pos := b], walkHead, gcHead, end, w, g, c);
  }

  /** From the dropped right page and the dropped root to the file with the merged page written. */
  lemma LowerWritten(d: Disk, d1: Disk, d2: Disk, left: Page, t: Tree, h: nat)
    requires h > 0 && Shaped(t, h) && Holds(d, t) && |t.entries| == 1 && Single(t)
    requires t.kids[1].pos in d && t.pos in d1 && left.pos == t.kids[0].pos
    requires SameBodies(d[t.kids[1].pos := Reclaimed(t.kids[1].pos, 0)], d1)
    requires SameBodies(d1[t.pos := Reclaimed(t.pos, 0)], d2)
    ensures AgreeOff(d, d2[left.pos := left], {t.pos, t.kids[0].pos, t.kids[1].pos})
  {
    assert Holds(d, t.kids[0]);
  }

  // ----- putting steps together

  /** After a step the rest of the deletion can start from what it left. */
  lemma DeletingNext(sure: bool, d: Disk, d': Disk, walkHead: int, gcHead: int, end: int, t: Tree, t': Tree, h': nat,
                     dropped: seq<int>, w: seq<int>, g: seq<int>)
    requires Single(t) && (forall p :: Uses(t, p) > 0 ==> p in w) && Shaped(t', h')
    requires Deleted(sure, d, d', walkHead, gcHead, end, t, t', dropped, w, g)
    requires (forall p :: Released(t, t', dropped, p)) && Tailed(t, w) && Leftmost(t') == Leftmost(t)
    ensures Deleting(sure, d', walkHead, gcHead, end, t', h', Without(w, dropped), Pushed(g, dropped))
  {
    forall p ensures Uses(t', p) <= 1 && (Uses(t', p) > 0 ==> p in Without(w, dropped)) {
      assert Released(t, t', dropped, p) && Uses(t, p) <= 1;
      WithoutMembers(w, dropped, p);
      if p in dropped { TimesIn(dropped, p); }
    }
    TailKept(t, t', dropped, w);
  }

  lemma WithoutTail(w: seq<int>, dropped: seq<int>)
    requires w != [] && Tail(w) !in dropped
    ensures Without(w, dropped) != [] && Tail(Without(w, dropped)) == Tail(w)
  {
    WithoutSplit(w, |w| - 1, dropped);
    assert w[|w|..] == [];
  }

  /** The last page of the walk list is not dropped. */
  lemma TailKept(t: Tree, t': Tree, dropped: seq<int>, w: seq<int>)
    requires w != [] && Single(t) && Tailed(t, w) && Leftmost(t') == Leftmost(t)
    requires forall p :: Released(t, t', dropped, p)
    ensures Without(w, dropped) != [] && Tail(Without(w, dropped)) == Tail(w) && Tailed(t', Without(w, dropped))
  {
    var z := Tail(w);
    assert Released(t, t', dropped, z) && Uses(t, z) <= 1;
    LeftmostUsed(t');
    if z in dropped { TimesIn(dropped, z); }
    WithoutTail(w, dropped);
  }

  lemma {:induction false} TimesIn(s: seq<int>, p: int)
    requires p in s
    ensures Times(s, p) > 0
  {
    if s[0] != p { TimesIn(s[1..], p); }
  }

  lemma DeletedThen(sure: bool, d: Disk, d1: Disk, d2: Disk, walkHead1: int, gcHead1: int, walkHead2: int, gcHead2: int,
                    end: int,
                    t: Tree, t1: Tree, t2: Tree, a: seq<int>, b: seq<int>, w: seq<int>, g: seq<int>)
    requires Deleted(sure, d, d1, walkHead1, gcHead1, end, t, t1, a, w, g)
    requires DeletedBody(d1, d2, walkHead2, gcHead2, end, t1, t2, b, Without(w, a), Pushed(g, a))
    requires forall p :: Released(t, t1, a, p)
    ensures DeletedBody(d, d2, walkHead2, gcHead2, end, t, t2, a + b, w, g)
    ensures Without(Without(w, a), b) == Without(w, a + b)
  {
    WithoutTwice(w, a, b);
    PushedTwice(g, a, b);
    forall p | p in w && Uses(t, p) == 0 ensures p in d && p in d2 && SameBody(d2[p], d[p]) {
      assert Released(t, t1, a, p);
      WithoutMembers(w, a, p);
      if p in a { TimesIn(a, p); }
    }
  }

  lemma DeletedInKid(d: Disk, d': Disk, walkHead: int, gcHead: int, end: int, t: Tree, i: nat, k: Tree,
                     dropped: seq<int>, w: seq<int>, g: seq<int>)
    requires Holds(d, t) && Single(t) && (forall p :: Uses(t, p) > 0 ==> p in w) && i < |t.kids|
    requires DeletedBody(d, d', walkHead, gcHead, end, t.kids[i], k, dropped, w, g) && k.pos == t.kids[i].pos
    ensures DeletedBody(d, d', walkHead, gcHead, end, t, t.(kids := t.kids[i := k]), dropped, w, g)
    ensures ChangedBelow(d, d', t, i)
  {
    forall p | p in w && Uses(t, p) == 0 ensures Uses(t.kids[i], p) == 0 { UsesKid(t, i, p); }
    ReplacedHeld(d, d', t, i, k);
  }

  lemma KidDeleting(sure: bool, d: Disk, walkHead: int, gcHead: int, end: int, t: Tree, h: nat, w: seq<int>,
                    g: seq<int>, i: nat)
    requires Deleting(sure, d, walkHead, gcHead, end, t, h, w, g) && h > 0 && i <= |t.entries|
    ensures Deleting(sure, d, walkHead, gcHead, end, t.kids[i], h - 1, w, g)
    ensures t.kids[i].pos in d && t.pos in w
  {
    KidsApart(t, i);
    UsesSelf(t);
    assert Holds(d, t.kids[i]);
    forall p | Uses(t.kids[i], p) > 0 ensures p in w { UsesKid(t, i, p); }
    UsesKid(t, i, Tail(w));
    LeftmostUsed(t.kids[0]);
    KidsApart(t, 0);
  }

  lemma LeafStored(d: Disk, t: Tree, es: seq<Entry>)
    requires Holds(d, t) && t.kids == [] && |es| + 1 == |t.entries|
    ensures |d[t.pos].children| > |es|
    ensures Holds(d[t.pos := d[t.pos].(entries := es, children := d[t.pos].children[..|es| + 1])], t.(entries := es))
  {
    assert ChildPos(t.(entries := es)) == ChildPos(t)[..|es| + 1];
  }

  /** A leaf written back one entry shorter. */
  lemma LeafShortened(sure: bool, d: Disk, walkHead: int, gcHead: int, end: int, t: Tree, w: seq<int>, g: seq<int>,
                      es: seq<Entry>)
    requires Deleting(sure, d, walkHead, gcHead, end, t, 0, w, g) && |es| + 1 == |t.entries| && t.pos in d &&
             |d[t.pos].children| > |es|
    ensures Deleted(sure, d, d[t.pos := d[t.pos].(entries := es, children := d[t.pos].children[..|es| + 1])],
                    walkHead, gcHead, end, t, t.(entries := es), [], w, g)
  {
    hide Weave, Uses, Flat, Holds, Spaced, Walk, Gc, Safe, Leftmost, Without, Single, Distinct;
    LeafStored(d, t, es);
    ListsRewrite(sure, d, walkHead, gcHead, end, w, g,
                 d[t.pos].(entries := es, children := d[t.pos].children[..|es| + 1]));
    WithoutNone(w, []);
    UsesSelf(t);
  }

  // ----- the stale links of a replaced entry

  /** Page `p` of the walk list `w` has a neighbour among the dropped pages. */
  ghost predicate NeighbourDropped(w: seq<int>, p: int, dropped: seq<int>) {
    exists k :: 0 <= k < |w| && w[k] == p && (At(w, k + 1) in dropped || At(w, k - 1) in dropped)
  }

  lemma WithoutSplit(w: seq<int>, k: nat, dropped: seq<int>)
    requires k < |w| && w[k] !in dropped
    ensures Without(w, dropped) == Without(w[..k], dropped) + [w[k]] + Without(w[k + 1..], dropped)
  {
    assert w == w[..k] + w[k..] && w[k..][1..] == w[k + 1..] && w[k..][0] == w[k];
    WithoutJoin(w[..k], w[k..], dropped);
  }

  /** Dropping pages moves the links of a remaining page exactly when a neighbour is dropped. */
  lemma LinksMoved(w: seq<int>, k: nat, dropped: seq<int>) returns (k': nat)
    requires k < |w| && Distinct(w) && w[k] !in dropped && 0 !in w && 0 !in dropped
    ensures var v := Without(w, dropped);
            && k' < |v| && v[k'] == w[k]
            && (At(v, k' + 1) == At(w, k + 1) <==> At(w, k + 1) !in dropped)
            && (At(v, k' - 1) == At(w, k - 1) <==> At(w, k - 1) !in dropped)
  {
    var a, b, v := w[..k], w[k + 1..], Without(w, dropped);
    WithoutSplit(w, k, dropped);
    k' := |Without(a, dropped)|;
    var a', b' := Without(a, dropped), Without(b, dropped);
    assert v == a' + [w[k]] + b';
    NextKept(b, dropped);
    PrevKept(a, dropped);
    assert At(v, k' + 1) == At(b', 0) && At(w, k + 1) == At(b, 0);
    assert At(v, k' - 1) == At(a', |a'| - 1) && At(w, k - 1) == At(a, |a| - 1);
  }

  lemma NextKept(b: seq<int>, dropped: seq<int>)
    requires 0 !in b && 0 !in dropped
    ensures At(Without(b, dropped), 0) == At(b, 0) <==> At(b, 0) !in dropped
  {
    if b != [] {
      WithoutMembers(b, dropped, b[0]);
      var v := Without(b, dropped);
      if b[0] in dropped && v != [] { assert v[0] in v; }
    }
  }

  lemma PrevKept(a: seq<int>, dropped: seq<int>)
    requires 0 !in a && 0 !in dropped
    ensures var v := Without(a, dropped);
            At(v, |v| - 1) == At(a, |a| - 1) <==> At(a, |a| - 1) !in dropped
  {
    if a != [] {
      var n, v := |a| - 1, Without(a, dropped);
      WithoutMembers(a, dropped, a[n]);
      if a[n] in dropped {
        if v != [] { assert v[|v| - 1] in v; }
      } else {
        WithoutSplit(a, n, dropped);
        assert a[n + 1..] == [];
      }
    }
  }

  /** Writing back page `w[k]` with the links it had before other pages were dropped: the walk list
      survives exactly when none of its neighbours was dropped. */
  lemma StaleWrite(d: Disk, d1: Disk, walkHead: int, walkHead1: int, w: seq<int>, dropped: seq<int>, page: Page)
    requires Walk(d, walkHead, w) && Distinct(w) && 0 !in w && 0 !in dropped
    requires Walk(d1, walkHead1, Without(w, dropped)) && Distinct(Without(w, dropped))
    requires page.pos in w && page.pos !in dropped && page.pos in d && page.pos in d1
    requires page.walkNext == d[page.pos].walkNext && page.walkPrev == d[page.pos].walkPrev
    ensures Walk(d1[page.pos := page], walkHead1, Without(w, dropped)) <==> !NeighbourDropped(w, page.pos, dropped)
  {
    var k :| 0 <= k < |w| && w[k] == page.pos;
    var v := Without(w, dropped);
    var k' := LinksMoved(w, k, dropped);
    var d2 := d1[page.pos := page];
    assert Linked(d, w, k) && Linked(d1, v, k');
    assert NeighbourDropped(w, page.pos, dropped) <==> At(w, k + 1) in dropped || At(w, k - 1) in dropped;
    assert Linked(d2, v, k') <==> !NeighbourDropped(w, page.pos, dropped);
    if !NeighbourDropped(w, page.pos, dropped) {
      forall i | 0 <= i < |v| ensures Linked(d2, v, i) { assert Linked(d1, v, i); }
    }
  }

  // ----- one level of the recursions, for the page-by-page methods

  /** A rebalancing leaves the leftmost leaf where it is. */
  lemma RebalanceLeftmost(t: Tree, h: nat, i: nat)
    requires h > 0 && Shaped(t, h) && 0 < |t.entries| && i <= |t.entries|
    ensures var r := Rebalance(t, h, i); r.Keep? || Leftmost(r.tree) == Leftmost(t)
  {
    hide Flat, HighHalf, LowHalf, Pool;
    assert Shaped(t.kids[0], h - 1) && Shaped(t.kids[1], h - 1);
    PooledLeftmost(t.kids[0], t.entries[0], t.kids[1], h - 1);
  }

  lemma PooledLeftmost(l: Tree, m: Entry, r: Tree, h: nat)
    requires Shaped(l, h) && Shaped(r, h)
    ensures Leftmost(Pool(l, m, r)) == Leftmost(LowHalf(Pool(l, m, r))) == Leftmost(l)
  {
  }

  lemma {:induction false} ExtractLeftmost(t: Tree, h: nat)
    requires Shaped(t, h) && Ready(t, h, |t.entries|)
    ensures Leftmost(Extract(t, h).tree) == Leftmost(t)
    decreases h, Low(t.kids)
  {
    if h > 0 {
      var r, s1 := ExtractLevel(t, h, Extract(t, h));
      ExtractLeftmost(if r.Keep? then t.kids[|t.entries|] else r.tree, if r.Keep? then h - 1 else h);
    }
  }

  lemma {:induction false} DeleteLeftmost(x: bool, t: Tree, h: nat, name: string, top: bool)
    requires Deletable(x, t, h, name, top)
    ensures Leftmost(Delete(x, t, h, name, top).tree) == Leftmost(t)
    decreases h, Low(t.kids)
  {
    hide Delete, Flat, Sorted, Extract, Rebalance;
    if h > 0 {
      var i := Slot(x, t.entries, name);
      if !Rebalance(t, h, i).Keep? {
        var b, h1, r1, stale1 := AgainLevel(x, t, h, name, top, []);
        DeleteLeftmost(x, b.tree, h1, name, top);
      } else if Locate(x, t.entries, name).Hit? {
        var s := HitLevel(x, t, h, name, top, []);
        ExtractLeftmost(t.kids[i], h - 1);
      } else {
        var r1, stale1 := MissLevel(x, t, h, name, top, []);
        DeleteLeftmost(x, t.kids[i], h - 1, name, false);
      }
    } else {
      LeafDeleted(x, t, name, top, []);
    }
  }

  lemma LeafDeleted(x: bool, t: Tree, name: string, top: bool, w: seq<int>)
    requires Deletable(x, t, 0, name, top)
    ensures !StaleLinks(x, t, 0, name, top, w)
    ensures var r := Delete(x, t, 0, name, top);
            && Leftmost(r.tree) == Leftmost(t) && r.dropped == []
            && match Locate(x, t.entries, name)
               case Hit(i) => r.found && r.tree == t.(entries := t.entries[..i] + t.entries[i + 1..])
               case Miss(_) => !r.found && r.tree == t
  {
  }

  lemma LeafExtracted(t: Tree)
    requires Shaped(t, 0) && Ready(t, 0, |t.entries|)
    ensures |t.entries| > 0
    ensures Extract(t, 0) == Ext(t.(entries := t.entries[..|t.entries| - 1]), t.entries[|t.entries| - 1], [])
  {
  }

  /** What the extraction does at an internal page: go down, or start over at the rebalanced page. */
  lemma ExtractLevel(t: Tree, h: nat, s: Ext) returns (r: Reb, s1: Ext)
    requires h > 0 && Shaped(t, h) && Ready(t, h, |t.entries|) && s == Extract(t, h)
    ensures 0 < |t.entries| && r == Rebalance(t, h, |t.entries|) && !r.Lowered?
    ensures r.Keep? ==>
              var kid := t.kids[|t.entries|];
              && Ready(kid, h - 1, |kid.entries|) && Shaped(kid, h - 1) && s1 == Extract(kid, h - 1) &&
                 s1.tree.pos == kid.pos
              && s == Ext(t.(kids := t.kids[|t.entries| := s1.tree]), s1.largest, s1.dropped)
    ensures r.Changed? ==>
              && r.tree.pos == t.pos && Shaped(r.tree, h) && Low(r.tree.kids) < Low(t.kids)
              && Ready(r.tree, h, |r.tree.entries|) && s1 == Extract(r.tree, h)
              && s == Ext(s1.tree, s1.largest, r.dropped + s1.dropped) && Leftmost(r.tree) == Leftmost(t)
              && (forall p :: Released(t, r.tree, r.dropped, p))
  {
    var n := |t.entries|;
    RebalanceSound(t, h, n);
    RebalanceLeftmost(t, h, n);
    r := Rebalance(t, h, n);
    if r.Keep? {
      s1 := Extract(t.kids[n], h - 1);
      ExtractSound(t.kids[n], h - 1);
    } else if r.Changed? {
      s1 := Extract(r.tree, h);
      forall p ensures Released(t, r.tree, r.dropped, p) { RebalanceUses(t, h, n, p); }
    } else {
      s1 := s;
    }
  }

  /** Whether the deletion of `name` writes a page back with links that have meanwhile moved (lines
      573-577): the name sits in an internal page, and taking its predecessor out of the left subtree
      drops a page next to that page in the walk list `w`. */
  ghost predicate StaleLinks(x: bool, t: Tree, h: nat, name: string, top: bool, w: seq<int>)
    requires Deletable(x, t, h, name, top)
    decreases h, Low(t.kids)
  {
    if h == 0 then false
    else
      var p := Locate(x, t.entries, name);
      DeleteAdvances(x, t, h, name, top);
      match Rebalance(t, h, p.at)
      case Lowered(t', d) => StaleLinks(x, t', h - 1, name, true, Without(w, d))
      case Changed(t', d) => StaleLinks(x, t', h, name, top, Without(w, d))
      case Keep =>
        if p.Hit? then NeighbourDropped(w, t.pos, Extract(t.kids[p.at], h - 1).dropped)
        else StaleLinks(x, t.kids[p.at], h - 1, name, false, w)
  }

  /** Everything a deletion below page `t.pos` starts from; `r` is what it will come to, and `stale`
      whether it writes stale links. */
  ghost predicate Removing(sure: bool, x: bool, d: Disk, walkHead: int, gcHead: int, end: int, t: Tree, h: nat,
                           name: string,
                           top: bool, w: seq<int>, g: seq<int>, r: Del, stale: bool)
  {
    && Deleting(sure, d, walkHead, gcHead, end, t, h, w, g) && Deletable(x, t, h, name, top)
    && r == Delete(x, t, h, name, top) && stale == StaleLinks(x, t, h, name, top, w)
  }

  /** The name is in this page and nothing needs rebalancing: its predecessor replaces it. */
  lemma HitLevel(x: bool, t: Tree, h: nat, name: string, top: bool, w: seq<int>) returns (s: Ext)
    requires h > 0 && Deletable(x, t, h, name, top) && Locate(x, t.entries, name).Hit?
    requires Rebalance(t, h, Slot(x, t.entries, name)).Keep?
    ensures var i := Slot(x, t.entries, name);
            && Shaped(t.kids[i], h - 1) && Ready(t.kids[i], h - 1, |t.kids[i].entries|)
            && s == Extract(t.kids[i], h - 1) && s.tree.pos == t.kids[i].pos
            && Delete(x, t, h, name, top) ==
               Del(true, Tree(t.pos, t.entries[i := s.largest], t.kids[i := s.tree]), h, s.dropped)
            && StaleLinks(x, t, h, name, top, w) == NeighbourDropped(w, t.pos, s.dropped)
  {
    hide Delete, Rebalance, Extract, Flat, Sorted, Shaped;
    var i := Slot(x, t.entries, name);
    DeleteAdvances(x, t, h, name, top);
    s := Extract(t.kids[i], h - 1);
    ExtractSound(t.kids[i], h - 1);
  }

  /** The name can only be below, and nothing needs rebalancing: the deletion goes on in kid `i`. */
  lemma MissLevel(x: bool, t: Tree, h: nat, name: string, top: bool, w: seq<int>) returns (r1: Del, stale1: bool)
    requires h > 0 && Deletable(x, t, h, name, top) && Locate(x, t.entries, name).Miss?
    requires Rebalance(t, h, Slot(x, t.entries, name)).Keep?
    ensures var i := Slot(x, t.entries, name);
            && Deletable(x, t.kids[i], h - 1, name, false)
            && r1 == Delete(x, t.kids[i], h - 1, name, false) && r1.tree.pos == t.kids[i].pos
            && stale1 == StaleLinks(x, t.kids[i], h - 1, name, false, w)
            && Delete(x, t, h, name, top) == Del(r1.found, t.(kids := t.kids[i := r1.tree]), h, r1.dropped)
            && StaleLinks(x, t, h, name, top, w) == stale1
  {
    hide Delete, Rebalance, Extract, Flat, Sorted, Shaped;
    var i := Slot(x, t.entries, name);
    DeleteAdvances(x, t, h, name, top);
    r1, stale1 := Delete(x, t.kids[i], h - 1, name, false), StaleLinks(x, t.kids[i], h - 1, name, false, w);
    DeleteSound(x, t.kids[i], h - 1, name, false);
  }

  /** The page was rebalanced: the deletion starts over at the page that took its place. */
  lemma AgainLevel(x: bool, t: Tree, h: nat, name: string, top: bool, w: seq<int>)
    returns (b: Reb, h1: nat, r1: Del, stale1: bool)
    requires h > 0 && Deletable(x, t, h, name, top)
    requires !Rebalance(t, h, Slot(x, t.entries, name)).Keep?
    ensures b == Rebalance(t, h, Slot(x, t.entries, name)) && !b.Keep?
    ensures b.Lowered? ==> top && h1 == h - 1
    ensures b.Changed? ==> h1 == h && b.tree.pos == t.pos && Low(b.tree.kids) < Low(t.kids)
    ensures Deletable(x, b.tree, h1, name, top)
    ensures r1 == Delete(x, b.tree, h1, name, top) &&
            stale1 == StaleLinks(x, b.tree, h1, name, top, Without(w, b.dropped))
    ensures Delete(x, t, h, name, top) == r1.(dropped := b.dropped + r1.dropped)
    ensures StaleLinks(x, t, h, name, top, w) == stale1 && Leftmost(b.tree) == Leftmost(t)
    ensures forall p :: Released(t, b.tree, b.dropped, p)
  {
    hide Delete, Rebalance, Extract, Flat, Sorted, Shaped;
    var i := Slot(x, t.entries, name);
    DeleteAdvances(x, t, h, name, top);
    RebalanceLeftmost(t, h, i);
    b := Rebalance(t, h, i);
    h1 := if b.Lowered? then h - 1 else h;
    r1, stale1 := Delete(x, b.tree, h1, name, top), StaleLinks(x, b.tree, h1, name, top, Without(w, b.dropped));
    forall p ensures Released(t, b.tree, b.dropped, p) { RebalanceUses(t, h, i, p); }
  }

  /** Replacing an entry by its predecessor, through a copy of the page read before the extraction. */
  lemma ReplaceHere(sure: bool, d: Disk, d1: Disk, walkHead: int, gcHead: int, end: int, walkHead1: int, gcHead1: int,
                    t: Tree, h: nat, w: seq<int>, g: seq<int>, i: nat, s: Ext, page: Page)
    requires Deleting(sure, d, walkHead, gcHead, end, t, h, w, g) && h > 0 && i < |t.entries|
    requires Deleted(sure, d, d1, walkHead1, gcHead1, end, t.kids[i], s.tree, s.dropped, w, g) &&
             s.tree.pos == t.kids[i].pos
    requires forall p :: Released(t.kids[i], s.tree, s.dropped, p)
    requires t.pos in d && page == d[t.pos].(entries := d[t.pos].entries[i := s.largest])
    ensures DeletedBody(d, d1[t.pos := page], walkHead1, gcHead1, end, t,
                        Tree(t.pos, t.entries[i := s.largest], t.kids[i := s.tree]), s.dropped, w, g)
    ensures sure ==>
              (Walk(d1[t.pos := page], walkHead1, Without(w, s.dropped)) <==> !NeighbourDropped(w, t.pos, s.dropped))
  {
    hide Spaced, Safe, Gc, Leftmost, Flat, Weave, Without, Pushed, NeighbourDropped, Walk;
    KidsApart(t, i);
    UsesSelf(t);
    DroppedOutside(sure, d, walkHead, gcHead, end, t, h, w, g, i, s);
    DeletedInKid(d, d1, walkHead1, gcHead1, end, t, i, s.tree, s.dropped, w, g);
    OthersHeld(d, d1, t, i);
    WithoutMembers(w, s.dropped, t.pos);
    forall j | 0 <= j < |t.kids| ensures Uses(t.kids[j], t.pos) == 0 { KidsApart(t, j); }
    ReplacedHere(d1, t, i, s, page);
    PartsRewrite(d1, gcHead1, end, Without(w, s.dropped), Pushed(g, s.dropped), page);
    StaleSafe(sure, d, d1, walkHead, gcHead, end, walkHead1, gcHead1, t, h, w, g, i, s, page);
    if sure { StaleWrite(d, d1, walkHead, walkHead1, w, s.dropped, page); }
  }

  lemma {:induction false} PushedMembers(g: seq<int>, dropped: seq<int>, p: int)
    ensures p in Pushed(g, dropped) <==> p in g || p in dropped
    decreases |dropped|
  {
    if dropped != [] { PushedMembers([dropped[0]] + g, dropped[1..], p); }
  }

  /** Even stale links lead to pages of the file. */
  lemma StaleSafe(sure: bool, d: Disk, d1: Disk, walkHead: int, gcHead: int, end: int, walkHead1: int, gcHead1: int,
                  t: Tree, h: nat, w: seq<int>, g: seq<int>, i: nat, s: Ext, page: Page)
    requires Deleting(sure, d, walkHead, gcHead, end, t, h, w, g) && h > 0 && i < |t.entries| && t.pos in w
    requires DeletedBody(d, d1, walkHead1, gcHead1, end, t.kids[i], s.tree, s.dropped, w, g)
    requires page.pos == t.pos && t.pos in d && page.walkNext == d[t.pos].walkNext && page.walkPrev == d[t.pos].walkPrev
    ensures Safe(d1[t.pos := page], walkHead1, Without(w, s.dropped))
  {
    hide Holds, Shaped, Gc, Spaced, Distinct, Walk;
    LeftmostAbove(t, h, i);
    UsesSelf(t);
    assert t.pos != Tail(w) && LinkSafe(d, Tail(w), t.pos);
    forall p | p in d ensures p in d1 {
      WithoutMembers(w, s.dropped, p);
      PushedMembers(g, s.dropped, p);
    }
    SafeRewrite(d1, walkHead1, Without(w, s.dropped), page);
  }

  lemma DroppedOutside(sure: bool, d: Disk, walkHead: int, gcHead: int, end: int, t: Tree, h: nat, w: seq<int>,
                       g: seq<int>, i: nat, s: Ext)
    requires Deleting(sure, d, walkHead, gcHead, end, t, h, w, g) && h > 0 && i < |t.entries|
    requires forall p :: Released(t.kids[i], s.tree, s.dropped, p)
    ensures t.pos !in s.dropped && Uses(s.tree, t.pos) == 0 && 0 !in s.dropped && 0 !in w
  {
    KidsApart(t, i);
    assert Released(t.kids[i], s.tree, s.dropped, t.pos) && Released(t.kids[i], s.tree, s.dropped, 0);
    if t.pos in s.dropped { TimesIn(s.dropped, t.pos); }
    assert 0 !in w by { assert Parts(d, gcHead, end, w, g); }
    if 0 in s.dropped {
      TimesIn(s.dropped, 0);
      UsesKid(t, i, 0);
    }
  }

  lemma ReplacedHere(d1: Disk, t: Tree, i: nat, s: Ext, page: Page)
    requires |t.kids| == |t.entries| + 1 && i < |t.entries| && Holds(d1, t.(kids := t.kids[i := s.tree]))
    requires s.tree.pos == t.kids[i].pos && page.pos == t.pos
    requires (forall j :: 0 <= j < |t.kids| && j != i ==> Uses(t.kids[j], t.pos) == 0) && Uses(s.tree, t.pos) == 0
    requires page.entries == t.entries[i := s.largest] && page.children == ChildPos(t)
    ensures Holds(d1[t.pos := page], Tree(t.pos, t.entries[i := s.largest], t.kids[i := s.tree]))
  {
    var t' := Tree(t.pos, t.entries[i := s.largest], t.kids[i := s.tree]);
    assert ChildPos(t') == ChildPos(t);
    forall j | 0 <= j < |t'.kids| ensures Holds(d1[t.pos := page], t'.kids[j]) {
      assert Holds(d1, t'.kids[j]);
      WriteElsewhere(d1, t.pos, page, t'.kids[j]);
    }
  }

  lemma PartsRewrite(d: Disk, gcHead: int, end: int, w: seq<int>, g: seq<int>, page: Page)
    requires Parts(d, gcHead, end, w, g) && page.pos in w && page.pos in d
    ensures Parts(d[page.pos := page], gcHead, end, w, g)
  {
    var d' := d[page.pos := page];
    forall i | 0 <= i < |g| ensures Chained(d', g, i) { assert Chained(d, g, i) && g[i] in g; }
  }

  /** After a whole deletion everything but the walk list is in order. */
  lemma RootedAfterDelete(x: bool, d: Disk, d': Disk, root: int, gcHead: int, walkHead': int, gcHead': int, end: int,
                          total: int,
                          t: Tree, h: nat, w: seq<int>, g: seq<int>, name: string, r: Del)
    requires Rooted(x, d, root, gcHead, end, total, t, h, w, g) && Holds(d, t)
    requires Deletable(x, t, h, name, true) && r == Delete(x, t, h, name, true)
    requires DeletedBody(d, d', walkHead', gcHead', end, t, r.tree, r.dropped, w, g)
    ensures Rooted(x, d', r.tree.pos, gcHead', end, if r.found then total - 1 else total,
                   r.tree, r.height, Without(w, r.dropped), Pushed(g, r.dropped))
    ensures (r.found <==> Has(x, Flat(t), name)) && Flat(r.tree) == RemoveNamed(x, Flat(t), name)
  {
    hide Spaced, Gc, Delete, Holds;
    DeleteRootSound(x, t, h, name);
    DeleteLeftmost(x, t, h, name, true);
    LeftmostUsed(t);
    LocateSplits(x, Flat(t), name);
    forall p ensures Released(t, r.tree, r.dropped, p) { DeleteUses(x, t, h, name, true, p); }
    PagesAfterDelete(t, r.tree, r.dropped, w);
    TailKept(t, r.tree, r.dropped, w);
  }

  lemma PagesAfterDelete(t: Tree, t': Tree, dropped: seq<int>, w: seq<int>)
    requires (forall p :: Released(t, t', dropped, p)) && (forall p :: Uses(t, p) == if p in w then 1 else 0)
    ensures forall p :: Uses(t', p) == if p in Without(w, dropped) then 1 else 0
  {
    forall p ensures Uses(t', p) == if p in Without(w, dropped) then 1 else 0 {
      assert Released(t, t', dropped, p);
      WithoutMembers(w, dropped, p);
      if p in dropped { TimesIn(dropped, p); } else { TimesZero(dropped, p); }
    }
  }
}
