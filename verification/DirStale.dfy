/** When a deletion loses the walk list, told from the tree as it is before the call. */
module DirStale {
  import opened DirNames
  import opened DirTree
  import opened DirInsert
  import opened DirDelete
  import opened DirPages
  import opened DirDeletePages

  /** Of the last pages on the way down to the largest entry, those with no entry to spare next to a
      sibling small enough to merge with. */
  ghost function SpineDrops(t: Tree, h: nat): seq<int>
    requires Shaped(t, h)
    decreases h
  {
    var n := |t.entries|;
    if h == 0 || n == 0 then []
    else
      var l, r := t.kids[n - 1], t.kids[n];
      (if |r.entries| <= MIN_ENTRIES && |l.entries| < MAX_ENTRIES / 2 then [r.pos] else []) + SpineDrops(r, h - 1)
  }

  /** Only the last two kids matter. */
  lemma SpineSame(t: Tree, u: Tree, h: nat)
    requires Shaped(t, h) && Shaped(u, h) && |t.entries| > 0 && |u.entries| > 0
    requires h > 0 ==> t.kids[|t.entries|] == u.kids[|u.entries|] && t.kids[|t.entries| - 1] == u.kids[|u.entries| - 1]
    ensures SpineDrops(t, h) == SpineDrops(u, h)
  {
  }

  /** Taking out the largest entry drops exactly those pages. */
  lemma {:induction false} ExtractDrops(t: Tree, h: nat)
    requires Shaped(t, h) && Ready(t, h, |t.entries|)
    ensures Extract(t, h).dropped == SpineDrops(t, h)
    decreases h, Low(t.kids)
  {
    hide Flat, Extract, Leftmost, Released, Uses;
    if h == 0 {
      LeafExtracted(t);
    } else {
      var n := |t.entries|;
      var r, s1 := ExtractLevel(t, h, Extract(t, h));
      if r.Keep? {
        ExtractDrops(t.kids[n], h - 1);
      } else {
        ExtractDrops(r.tree, h);
        SpineAfter(t, h, r);
      }
    }
  }

  lemma SpineAfter(t: Tree, h: nat, r: Reb)
    requires h > 0 && Shaped(t, h) && 0 < |t.entries| && r == Rebalance(t, h, |t.entries|) && r.Changed?
    ensures Shaped(r.tree, h) && SpineDrops(t, h) == r.dropped + SpineDrops(r.tree, h)
  {
    hide Flat, SpineDrops, Merged, Evened, Pool, Low, HighHalf, LowHalf, Rebalance, Pair;
    var n := |t.entries|;
    RebalanceSound(t, h, n);
    LastAfter(t, h, r);
    var last := r.tree.kids[|r.tree.entries|];
    LastSpine(t, h, last);
    SpineStep(t, h);
    SpineStep(r.tree, h);
    assert SpineDrops(r.tree, h) == [] + SpineDrops(last, h - 1) == SpineDrops(t.kids[n], h - 1);
  }

  lemma LastSpine(t: Tree, h: nat, last: Tree)
    requires h > 0 && Shaped(t, h) && 0 < |t.entries| && |t.kids[|t.entries|].entries| <= MIN_ENTRIES
    requires var n := |t.entries|; last == if Merges(t, n) then Pair(t, n) else HighHalf(Pair(t, n), t.kids[n].pos)
    ensures Shaped(last, h - 1) && |last.entries| > MIN_ENTRIES &&
            SpineDrops(last, h - 1) == SpineDrops(t.kids[|t.entries|], h - 1)
  {
    hide Flat, SpineDrops, HighHalf, LowHalf, Merges;
    var n := |t.entries|;
    PairShaped(t, h, n);
    KidShaped(t, h, n - 1);
    KidShaped(t, h, n);
    if Merges(t, n) {
      PoolSpine(t.kids[n - 1], t.entries[n - 1], t.kids[n], h - 1);
    } else {
      HalfSpine(t.kids[n - 1], t.entries[n - 1], t.kids[n], h - 1);
    }
  }

  lemma LastAfter(t: Tree, h: nat, r: Reb)
    requires h > 0 && Shaped(t, h) && 0 < |t.entries| && r == Rebalance(t, h, |t.entries|) && r.Changed?
    ensures var n := |t.entries|;
            var l, u := t.kids[n - 1], t.kids[n];
            && |r.tree.kids| == |r.tree.entries| + 1 && 0 < |r.tree.entries| && |u.entries| <= MIN_ENTRIES
            && (if Merges(t, n) then r.dropped == [u.pos] && r.tree.kids[|r.tree.entries|] == Pair(t, n)
                else r.dropped == [] && r.tree.kids[|r.tree.entries|] == HighHalf(Pair(t, n), u.pos))
  {
    hide Flat, HighHalf, LowHalf;
  }

  lemma SpineStep(t: Tree, h: nat)
    requires h > 0 && Shaped(t, h) && 0 < |t.entries|
    ensures var l, r := t.kids[|t.entries| - 1], t.kids[|t.entries|];
            SpineDrops(t, h) ==
            (if |r.entries| <= MIN_ENTRIES && |l.entries| < MAX_ENTRIES / 2 then [r.pos] else []) + SpineDrops(r, h - 1)
  {
  }

  lemma PoolSpine(l: Tree, m: Entry, r: Tree, h: nat)
    requires Shaped(l, h) && Shaped(r, h) && Shaped(Pool(l, m, r), h) && |r.entries| > 0
    ensures SpineDrops(Pool(l, m, r), h) == SpineDrops(r, h)
  {
    hide Flat, SpineDrops;
    SpineSame(Pool(l, m, r), r, h);
  }

  lemma HalfSpine(l: Tree, m: Entry, r: Tree, h: nat)
    requires Shaped(l, h) && Shaped(r, h) && |r.entries| > 0 && Shaped(HighHalf(Pool(l, m, r), r.pos), h)
    requires |HighHalf(Pool(l, m, r), r.pos).entries| > 0
    ensures SpineDrops(HighHalf(Pool(l, m, r), r.pos), h) == SpineDrops(r, h)
  {
    hide Flat, SpineDrops;
    SpineSame(HighHalf(Pool(l, m, r), r.pos), r, h);
  }

  /** The pair of kids around entry `LeftOf(t, i)`, pooled. */
  function Pair(t: Tree, i: nat): Tree
    requires 0 < |t.entries| && i <= |t.entries| && |t.kids| == |t.entries| + 1
  {
    var j := LeftOf(t, i);
    Pool(t.kids[j], t.entries[j], t.kids[j + 1])
  }

  predicate Merges(t: Tree, i: nat)
    requires 0 < |t.entries| && i <= |t.entries| && |t.kids| == |t.entries| + 1
  {
    |t.kids[if i == |t.entries| then i - 1 else i + 1].entries| < MAX_ENTRIES / 2
  }

  lemma PairShaped(t: Tree, h: nat, i: nat)
    requires h > 0 && Shaped(t, h) && 0 < |t.entries| && i <= |t.entries| && |t.kids[i].entries| <= MIN_ENTRIES
    ensures Merges(t, i) ==> Shaped(Pair(t, i), h - 1) && |Pair(t, i).entries| > MIN_ENTRIES
    ensures !Merges(t, i) ==>
              var p := Pair(t, i);
              var lo, hi := LowHalf(p), HighHalf(p, t.kids[LeftOf(t, i) + 1].pos);
              Shaped(lo, h - 1) && Shaped(hi, h - 1) && |lo.entries| > MIN_ENTRIES && |hi.entries| > MIN_ENTRIES
  {
    hide Flat, LowHalf, HighHalf;
    var j := LeftOf(t, i);
    assert Shaped(t.kids[j], h - 1) && Shaped(t.kids[j + 1], h - 1);
    PoolSound(t.kids[j], t.entries[j], t.kids[j + 1], h - 1);
    if !Merges(t, i) { HalvesSound(Pair(t, i), t.kids[j + 1].pos, h - 1); }
  }

  /** What a deletion does at an internal page: put the predecessor from below `page` in the place of
      the name, or go on at `page`, with some pages dropped. */
  datatype Course = Replaces(page: Tree) | Descends(page: Tree, dropped: seq<int>)

  /** Two pages shared out evenly: the middle entry moves up, and the name is on one side of it. */
  ghost function EvenCourse(x: bool, pool: Tree, pos: int, name: string): Course
    requires pool.entries != []
  {
    var m := pool.entries[|pool.entries| / 2];
    if Same(x, m.name, name) then Replaces(LowHalf(pool))
    else Descends(if Lt(x, m.name, name) then HighHalf(pool, pos) else LowHalf(pool), [])
  }

  /** Where the next page has entries to spare it is taken as it is; where it has none, it and its
      sibling are merged or shared out evenly. */
  ghost function CourseAt(x: bool, t: Tree, name: string): Course
    requires 0 < |t.entries| && |t.kids| == |t.entries| + 1
  {
    var p := Locate(x, t.entries, name);
    var kid := t.kids[p.at];
    if |kid.entries| > MIN_ENTRIES then
      if p.Hit? then Replaces(kid) else Descends(kid, [])
    else
      var pool, r := Pair(t, p.at), t.kids[LeftOf(t, p.at) + 1].pos;
      if Merges(t, p.at) then Descends(pool, if |t.entries| == 1 then [r, t.pos] else [r])
      else EvenCourse(x, pool, r, name)
  }

  lemma CourseShaped(x: bool, t: Tree, h: nat, name: string)
    requires h > 0 && Shaped(t, h) && 0 < |t.entries|
    ensures var c := CourseAt(x, t, name); Shaped(c.page, h - 1) && 0 < |c.page.entries|
  {
    hide Flat, Locate, Pair, Merges, LowHalf, HighHalf;
    var p := Locate(x, t.entries, name);
    KidShaped(t, h, p.at);
    if |t.kids[p.at].entries| <= MIN_ENTRIES { PairShaped(t, h, p.at); }
  }

  lemma KidShaped(t: Tree, h: nat, i: nat)
    requires h > 0 && Shaped(t, h) && i <= |t.entries|
    ensures |t.kids| == |t.entries| + 1 && Shaped(t.kids[i], h - 1)
  {
  }

  /** Whether deleting `name` leaves stale walk links behind, from the tree before the call: the name
      is replaced by its predecessor, and a page next to its page in the walk list is dropped on the
      way down to the predecessor. */
  ghost predicate LinksLost(x: bool, t: Tree, h: nat, name: string, w: seq<int>)
    requires Shaped(t, h) && (h > 0 ==> 0 < |t.entries|)
    decreases h
  {
    h > 0 &&
    (CourseShaped(x, t, h, name);
    match CourseAt(x, t, name)
    case Replaces(left) => NeighbourDropped(w, t.pos, SpineDrops(left, h - 1))
    case Descends(kid, dropped) => LinksLost(x, kid, h - 1, name, Without(w, dropped)))
  }

  /** The page-by-page account and the one read off the tree agree. */
  lemma {:induction false} StaleForeseen(x: bool, t: Tree, h: nat, name: string, top: bool, w: seq<int>)
    requires Deletable(x, t, h, name, top)
    ensures h > 0 ==> 0 < |t.entries|
    ensures StaleLinks(x, t, h, name, top, w) <==> LinksLost(x, t, h, name, w)
    decreases h, 1
  {
    hide Delete, Flat, Sorted, Rebalance, StaleLinks, Extract, LinksLost;
    if h == 0 {
      LeafDeleted(x, t, name, top, w);
      LeafKept(x, t, name, w);
    } else {
      var i := Slot(x, t.entries, name);
      if Rebalance(t, h, i).Keep? {
        KeptForeseen(x, t, h, name, top, w);
      } else {
        var b, h1, r1, stale1 := AgainLevel(x, t, h, name, top, w);
        NodeInOrder(x, t, h, name, top);
        if b.Lowered? {
          StaleForeseen(x, b.tree, h - 1, name, top, Without(w, b.dropped));
          LoweredLost(x, t, h, name, w);
        } else {
          ChangedLost(x, t, h, name, w);
          KeptForeseen(x, b.tree, h, name, top, Without(w, b.dropped));
        }
      }
    }
  }

  lemma {:induction false} KeptForeseen(x: bool, t: Tree, h: nat, name: string, top: bool, w: seq<int>)
    requires h > 0 && Deletable(x, t, h, name, top) && Rebalance(t, h, Slot(x, t.entries, name)).Keep?
    ensures 0 < |t.entries|
    ensures StaleLinks(x, t, h, name, top, w) <==> LinksLost(x, t, h, name, w)
    decreases h, 0
  {
    hide Delete, Flat, Sorted, Rebalance, StaleLinks, Extract, LinksLost;
    var i := Slot(x, t.entries, name);
    NodeInOrder(x, t, h, name, top);
    RebalanceSound(t, h, i);
    KeptLost(x, t, h, name, w);
    if Locate(x, t.entries, name).Hit? {
      var s := HitLevel(x, t, h, name, top, w);
      ExtractDrops(t.kids[i], h - 1);
    } else {
      var r1, stale1 := MissLevel(x, t, h, name, top, w);
      StaleForeseen(x, t.kids[i], h - 1, name, false, w);
    }
  }

  // ----- the foresight, one case at a time

  lemma KeptCourse(x: bool, t: Tree, h: nat, name: string)
    requires h > 0 && Shaped(t, h) && 0 < |t.entries|
    requires |t.kids[Locate(x, t.entries, name).at].entries| > MIN_ENTRIES
    ensures var p := Locate(x, t.entries, name);
            CourseAt(x, t, name) == if p.Hit? then Replaces(t.kids[p.at]) else Descends(t.kids[p.at], [])
  {
    hide Flat, Locate;
  }

  lemma LostStep(x: bool, t: Tree, h: nat, name: string, w: seq<int>)
    requires h > 0 && Shaped(t, h) && 0 < |t.entries|
    ensures var c := CourseAt(x, t, name);
            && Shaped(c.page, h - 1) && 0 < |c.page.entries|
            && LinksLost(x, t, h, name, w) ==
              match c
              case Replaces(left) => NeighbourDropped(w, t.pos, SpineDrops(left, h - 1))
              case Descends(kid, dropped) => LinksLost(x, kid, h - 1, name, Without(w, dropped))
  {
    hide CourseAt, Flat, NeighbourDropped, SpineDrops;
    CourseShaped(x, t, h, name);
  }

  lemma KeptLost(x: bool, t: Tree, h: nat, name: string, w: seq<int>)
    requires h > 0 && Shaped(t, h) && 0 < |t.entries|
    requires |t.kids[Locate(x, t.entries, name).at].entries| > MIN_ENTRIES
    ensures var p := Locate(x, t.entries, name);
            && Shaped(t.kids[p.at], h - 1)
            && (LinksLost(x, t, h, name, w) <==>
                  if p.Hit? then NeighbourDropped(w, t.pos, SpineDrops(t.kids[p.at], h - 1))
                  else LinksLost(x, t.kids[p.at], h - 1, name, w))
  {
    hide CourseAt, Flat, NeighbourDropped, SpineDrops, LinksLost, Locate;
    KeptCourse(x, t, h, name);
    LostStep(x, t, h, name, w);
    WithoutNone(w, []);
  }

  lemma LoweredLost(x: bool, t: Tree, h: nat, name: string, w: seq<int>)
    requires h > 0 && Shaped(t, h) && 0 < |t.entries|
    requires Rebalance(t, h, Slot(x, t.entries, name)).Lowered?
    ensures var b := Rebalance(t, h, Slot(x, t.entries, name));
            && Shaped(b.tree, h - 1) && 0 < |b.tree.entries|
            && (LinksLost(x, t, h, name, w) <==> LinksLost(x, b.tree, h - 1, name, Without(w, b.dropped)))
  {
    hide CourseAt, Flat, NeighbourDropped, SpineDrops, LinksLost;
    var i := Slot(x, t.entries, name);
    RebalanceSound(t, h, i);
    PairCourse(x, t, h, name);
    LostStep(x, t, h, name, w);
  }

  lemma PairCourse(x: bool, t: Tree, h: nat, name: string)
    requires h > 0 && Shaped(t, h) && 0 < |t.entries| && |t.kids[Slot(x, t.entries, name)].entries| <= MIN_ENTRIES
    ensures var i := Slot(x, t.entries, name);
            var j, pool := LeftOf(t, i), Pair(t, i);
            var r := t.kids[j + 1].pos;
            CourseAt(x, t, name) ==
              if Merges(t, i) then Descends(pool, if |t.entries| == 1 then [r, t.pos] else [r])
              else EvenCourse(x, pool, r, name)
  {
    hide Flat, EvenCourse, Pair, Merges;
  }

  lemma ChangedLost(x: bool, t: Tree, h: nat, name: string, w: seq<int>)
    requires h > 0 && Shaped(t, h) && 0 < |t.entries| && Sorted(x, t.entries)
    requires Rebalance(t, h, Slot(x, t.entries, name)).Changed?
    ensures var b := Rebalance(t, h, Slot(x, t.entries, name));
            && Shaped(b.tree, h) && 0 < |b.tree.entries| && Rebalance(b.tree, h, Slot(x, b.tree.entries, name)).Keep?
            && (LinksLost(x, t, h, name, w) <==> LinksLost(x, b.tree, h, name, Without(w, b.dropped)))
  {
    hide SpineDrops, NeighbourDropped, Flat, LinksLost, Sorted, CourseAt, Merged, Evened, Without, Slot;
    var i := Slot(x, t.entries, name);
    RebalanceSound(t, h, i);
    RebalanceReady(x, t, h, name);
    var b := Rebalance(t, h, i);
    PairCourse(x, t, h, name);
    LostStep(x, t, h, name, w);
    KeptLost(x, b.tree, h, name, Without(w, b.dropped));
    if Merges(t, i) {
      MergedPlace(x, t, h, name);
    } else {
      WithoutNone(w, []);
      EvenedPlace(x, t, h, name);
    }
  }

  lemma MergedPlace(x: bool, t: Tree, h: nat, name: string)
    requires h > 0 && Shaped(t, h) && 0 < |t.entries| && Sorted(x, t.entries)
    ensures var i := Slot(x, t.entries, name);
            var j := LeftOf(t, i);
            var g := Merged(t, j);
            Locate(x, g.entries, name) == Miss(j) && j < |g.kids| && g.kids[j] == Pair(t, i)
  {
    hide Flat;
    var j := LeftOf(t, Slot(x, t.entries, name));
    SlotAfterMerge(x, t.entries, name, j);
    if j + 1 < |t.entries| { PastNext(x, t.entries, name, j); }
  }

  lemma EvenedPlace(x: bool, t: Tree, h: nat, name: string)
    requires h > 0 && Shaped(t, h) && 0 < |t.entries| && Sorted(x, t.entries)
    ensures var i := Slot(x, t.entries, name);
            var j, pool := LeftOf(t, i), Pair(t, i);
            var g := Evened(t, j);
            var p, c := Locate(x, g.entries, name), EvenCourse(x, pool, t.kids[j + 1].pos, name);
            p.at < |g.kids| && c == if p.Hit? then Replaces(g.kids[p.at]) else Descends(g.kids[p.at], [])
  {
    hide Flat, LowHalf, HighHalf;
    var i := Slot(x, t.entries, name);
    var j, pool := LeftOf(t, i), Pair(t, i);
    SlotEvened(x, t.entries, name, j, pool.entries[|pool.entries| / 2]);
  }

  /** An entry after the slot is not the name. */
  lemma PastNext(x: bool, es: seq<Entry>, name: string, j: nat)
    requires Sorted(x, es) && j + 1 < |es| && j == Slot(x, es, name)
    ensures !Same(x, es[j + 1].name, name) && Lt(x, name, es[j + 1].name)
  {
    OrderLaws(x, es[j].name, name, name);
    OrderLaws(x, name, es[j].name, es[j + 1].name);
    OrderLaws(x, name, es[j + 1].name, name);
    OrderLaws(x, es[j + 1].name, name, name);
  }

  lemma SlotEvened(x: bool, es: seq<Entry>, name: string, j: nat, m: Entry)
    requires Sorted(x, es) && j < |es|
    requires var i := Slot(x, es, name); j == i || (i == |es| && j == i - 1)
    ensures Locate(x, es[j := m], name) ==
            if Same(x, m.name, name) then Hit(j) else if Lt(x, m.name, name) then Miss(j + 1) else Miss(j)
  {
    var es' := es[j := m];
    OrderLaws(x, m.name, name, name);
    if j + 1 < |es| && j == Slot(x, es, name) {
      PastNext(x, es, name, j);
      OrderLaws(x, name, es[j + 1].name, name);
    }
    SlotUnique(x, es', name, if Lt(x, m.name, name) then j + 1 else j);
  }

  lemma LeafKept(x: bool, t: Tree, name: string, w: seq<int>)
    requires Shaped(t, 0)
    ensures !LinksLost(x, t, 0, name, w)
  {
  }

  lemma NodeInOrder(x: bool, t: Tree, h: nat, name: string, top: bool)
    requires h > 0 && Deletable(x, t, h, name, top)
    ensures 0 < |t.entries| && Sorted(x, t.entries)
  {
    DescendSplits(x, t, name);
  }
}
