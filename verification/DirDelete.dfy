/** Deletion from the directory B-tree: pages are merged or evened out on the way down, and the
    search starts again at the page just changed. */
module DirDelete {
  import opened DirNames
  import opened DirTree

  /** Outcome of `rebalance_btree`: nothing to do, the node changed, or the node is gone and its
      only remaining child is the new root. `dropped` lists the released pages in order. */
  datatype Reb =
    | Keep
    | Changed(tree: Tree, dropped: seq<int>)
    | Lowered(tree: Tree, dropped: seq<int>)

  function Pool(l: Tree, m: Entry, r: Tree): Tree {
    Tree(l.pos, l.entries + [m] + r.entries, l.kids + r.kids)
  }

  /** The left one of the two kids that are pooled when kid `i` runs low. */
  function LeftOf(t: Tree, i: nat): nat
    requires 0 < |t.entries| && i <= |t.entries|
  {
    if i == |t.entries| then i - 1 else i
  }

  function LowHalf(pool: Tree): Tree {
    var m := |pool.entries| / 2;
    Tree(pool.pos, pool.entries[..m], if |pool.kids| > m then pool.kids[..m + 1] else [])
  }

  function HighHalf(pool: Tree, pos: int): Tree
    requires pool.entries != []
  {
    var m := |pool.entries| / 2;
    Tree(pos, pool.entries[m + 1..], if |pool.kids| > m then pool.kids[m + 1..] else [])
  }

  function Merged(t: Tree, j: nat): Tree
    requires |t.kids| == |t.entries| + 1 && j < |t.entries|
  {
    Tree(t.pos, t.entries[..j] + t.entries[j + 1..],
         t.kids[..j] + [Pool(t.kids[j], t.entries[j], t.kids[j + 1])] + t.kids[j + 2..])
  }

  function Evened(t: Tree, j: nat): Tree
    requires |t.kids| == |t.entries| + 1 && j < |t.entries|
  {
    var pool := Pool(t.kids[j], t.entries[j], t.kids[j + 1]);
    Tree(t.pos, t.entries[j := pool.entries[|pool.entries| / 2]],
         t.kids[j := LowHalf(pool)][j + 1 := HighHalf(pool, t.kids[j + 1].pos)])
  }

  ghost function Rebalance(t: Tree, h: nat, i: nat): Reb
    requires h > 0 && Shaped(t, h) && 0 < |t.entries| && i <= |t.entries|
  {
    if |t.kids[i].entries| > MIN_ENTRIES then Keep
    else
      var j := LeftOf(t, i);
      var sibling := if i == |t.entries| then i - 1 else i + 1;
      if |t.kids[sibling].entries| < MAX_ENTRIES / 2 then
        if |t.entries| == 1 then Lowered(Pool(t.kids[0], t.entries[0], t.kids[1]), [t.kids[1].pos, t.pos])
        else Changed(Merged(t, j), [t.kids[j + 1].pos])
      else Changed(Evened(t, j), [])
  }

  /** How many kids are at the lower limit; every rebalancing removes at least one. */
  function Low(ks: seq<Tree>): nat {
    if ks == [] then 0 else (if |ks[0].entries| <= MIN_ENTRIES then 1 else 0) + Low(ks[1..])
  }

  lemma {:induction false} LowJoin(a: seq<Tree>, b: seq<Tree>)
    ensures Low(a + b) == Low(a) + Low(b)
  {
    if a == [] {
      assert a + b == b;
    } else {
      LowJoin(a[1..], b);
      assert (a + b)[0] == a[0] && (a + b)[1..] == a[1..] + b;
    }
  }

  lemma LowPair(a: Tree, b: Tree)
    ensures Low([a, b]) == (if |a.entries| <= MIN_ENTRIES then 1 else 0) + (if |b.entries| <= MIN_ENTRIES then 1 else 0)
  {
    assert [a, b][1..] == [b] && Low([b]) == (if |b.entries| <= MIN_ENTRIES then 1 else 0) + Low([b][1..]);
  }

  lemma LowAround(ks: seq<Tree>, j: nat)
    requires j + 1 < |ks|
    ensures Low(ks) == Low(ks[..j]) + Low([ks[j], ks[j + 1]]) + Low(ks[j + 2..])
  {
    hide Low;
    assert ks == ks[..j] + [ks[j], ks[j + 1]] + ks[j + 2..];
    LowJoin(ks[..j] + [ks[j], ks[j + 1]], ks[j + 2..]);
    LowJoin(ks[..j], [ks[j], ks[j + 1]]);
  }

  lemma PoolSound(l: Tree, m: Entry, r: Tree, h: nat)
    requires Shaped(l, h) && Shaped(r, h)
    ensures var p := Pool(l, m, r);
            && Flat(p) == Flat(l) + [m] + Flat(r)
            && (h == 0 ==> p.kids == []) && (h > 0 ==> |p.kids| == |p.entries| + 1)
            && (forall i :: 0 <= i < |p.kids| ==>
                h > 0 && Shaped(p.kids[i], h - 1) && |p.kids[i].entries| >= MIN_ENTRIES)
            && (|p.entries| <= MAX_ENTRIES ==> Shaped(p, h))
  {
    WeaveJoin(l.entries, l.kids, m, r.entries, r.kids);
  }

  lemma MergedSound(t: Tree, h: nat, j: nat)
    requires h > 0 && Shaped(t, h) && j < |t.entries|
    requires |t.kids[j].entries| + |t.kids[j + 1].entries| < MAX_ENTRIES
    requires |t.kids[j].entries| <= MIN_ENTRIES || |t.kids[j + 1].entries| <= MIN_ENTRIES
    ensures var t' := Merged(t, j);
            Shaped(t', h) && Flat(t') == Flat(t) && Low(t'.kids) < Low(t.kids)
            && |t'.kids[j].entries| > MIN_ENTRIES
  {
    var l, m, r := t.kids[j], t.entries[j], t.kids[j + 1];
    var p, t' := Pool(l, m, r), Merged(t, j);
    PoolSound(l, m, r, h - 1);
    WeaveMerge(t.entries, t.kids, j, p);
    LowAround(t.kids, j);
    LowPair(l, r);
    LowJoin(t.kids[..j] + [p], t.kids[j + 2..]);
    LowJoin(t.kids[..j], [p]);
    assert Low([p]) == Low([p][1..]);
  }

  lemma EvenedSound(t: Tree, h: nat, j: nat)
    requires h > 0 && Shaped(t, h) && j < |t.entries|
    requires |t.kids[j].entries| + |t.kids[j + 1].entries| >= MIN_ENTRIES + MAX_ENTRIES / 2
    requires |t.kids[j].entries| <= MIN_ENTRIES || |t.kids[j + 1].entries| <= MIN_ENTRIES
    ensures var t' := Evened(t, j);
            Shaped(t', h) && Flat(t') == Flat(t) && Low(t'.kids) < Low(t.kids)
            && |t'.kids[j].entries| > MIN_ENTRIES && |t'.kids[j + 1].entries| > MIN_ENTRIES
  {
    hide Weave, Low;
    var l, r := t.kids[j], t.kids[j + 1];
    var p := Pool(l, t.entries[j], r);
    var lo, hi := LowHalf(p), HighHalf(p, r.pos);
    PoolSound(l, t.entries[j], r, h - 1);
    HalvesSound(p, r.pos, h - 1);
    EvenedFlat(t, j, lo, p.entries[|p.entries| / 2], hi);
    EvenedLow(t, j, lo, hi);
    TwoShaped(t, h, j, lo, p.entries[|p.entries| / 2], hi);
  }

  lemma TwoShaped(t: Tree, h: nat, j: nat, lo: Tree, m: Entry, hi: Tree)
    requires h > 0 && Shaped(t, h) && j < |t.entries|
    requires Shaped(lo, h - 1) && Shaped(hi, h - 1) && |lo.entries| >= MIN_ENTRIES && |hi.entries| >= MIN_ENTRIES
    ensures Shaped(Tree(t.pos, t.entries[j := m], t.kids[j := lo][j + 1 := hi]), h)
  {
  }

  lemma HalvesSound(p: Tree, pos: int, h: nat)
    requires 2 * MIN_ENTRIES + 3 <= |p.entries| <= 2 * MAX_ENTRIES
    requires (h == 0 ==> p.kids == []) && (h > 0 ==> |p.kids| == |p.entries| + 1)
    requires forall i :: 0 <= i < |p.kids| ==> h > 0 && Shaped(p.kids[i], h - 1) && |p.kids[i].entries| >= MIN_ENTRIES
    ensures var lo, hi := LowHalf(p), HighHalf(p, pos);
            && Shaped(lo, h) && Shaped(hi, h) && |lo.entries| > MIN_ENTRIES && |hi.entries| > MIN_ENTRIES
            && Flat(p) == Flat(lo) + [p.entries[|p.entries| / 2]] + Flat(hi)
  {
    var c := |p.entries| / 2;
    if h > 0 {
      CutInner(p.pos, p.entries, p.kids, pos, c, h);
    } else {
      assert p.entries == p.entries[..c] + [p.entries[c]] + p.entries[c + 1..];
    }
  }

  lemma EvenedLow(t: Tree, j: nat, lo: Tree, hi: Tree)
    requires j + 1 < |t.kids| && |lo.entries| > MIN_ENTRIES && |hi.entries| > MIN_ENTRIES
    requires |t.kids[j].entries| <= MIN_ENTRIES || |t.kids[j + 1].entries| <= MIN_ENTRIES
    ensures Low(t.kids[j := lo][j + 1 := hi]) < Low(t.kids)
  {
    var ks := t.kids[j := lo][j + 1 := hi];
    LowAround(t.kids, j);
    LowAround(ks, j);
    LowPair(t.kids[j], t.kids[j + 1]);
    LowPair(lo, hi);
    assert ks[..j] == t.kids[..j] && ks[j + 2..] == t.kids[j + 2..];
  }

  lemma EvenedFlat(t: Tree, j: nat, lo: Tree, m: Entry, hi: Tree)
    requires |t.kids| == |t.entries| + 1 && j < |t.entries|
    requires Flat(lo) + [m] + Flat(hi) == Flat(t.kids[j]) + [t.entries[j]] + Flat(t.kids[j + 1])
    ensures Weave(t.entries[j := m], t.kids[j := lo][j + 1 := hi]) == Flat(t)
  {
    var es, ks := t.entries[..j] + t.entries[j + 1..], t.kids[..j] + t.kids[j + 1..];
    assert t.entries == es[..j] + [t.entries[j]] + es[j..];
    assert t.kids == ks[..j] + [t.kids[j], t.kids[j + 1]] + ks[j + 1..];
    assert t.entries[j := m] == es[..j] + [m] + es[j..];
    assert t.kids[j := lo][j + 1 := hi] == ks[..j] + [lo, hi] + ks[j + 1..];
    WeaveSplit(es, ks, j, t.kids[j], t.entries[j], t.kids[j + 1]);
    WeaveSplit(es, ks, j, lo, m, hi);
  }

  /** What a rebalancing step means: the entries and their order stay, no page overflows, the region
      around the chosen kid ends up above the lower limit, and the node itself goes only when it had
      a single entry. */
  ghost predicate RebalanceMeaning(t: Tree, h: nat, i: nat, r: Reb)
    requires h > 0 && Shaped(t, h) && 0 < |t.entries| && i <= |t.entries|
  {
    match r
    case Keep => |t.kids[i].entries| > MIN_ENTRIES
    case Changed(t', _) =>
      && t'.pos == t.pos && Shaped(t', h) && Flat(t') == Flat(t) && Low(t'.kids) < Low(t.kids)
      && (|t'.entries| == |t.entries| || (|t.entries| > 1 && |t'.entries| == |t.entries| - 1))
      && |t'.kids[LeftOf(t, i)].entries| > MIN_ENTRIES
      && (|t'.entries| == |t.entries| ==> |t'.kids[LeftOf(t, i) + 1].entries| > MIN_ENTRIES)
    case Lowered(t', _) =>
      |t.entries| == 1 && Shaped(t', h - 1) && Flat(t') == Flat(t) && |t'.entries| > MIN_ENTRIES
  }

  lemma RebalanceSound(t: Tree, h: nat, i: nat)
    requires h > 0 && Shaped(t, h) && 0 < |t.entries| && i <= |t.entries|
    ensures RebalanceMeaning(t, h, i, Rebalance(t, h, i))
  {
    hide Flat, Low, Pool, Merged, Evened, RebalanceMeaning;
    if |t.kids[i].entries| <= MIN_ENTRIES {
      var sibling := if i == |t.entries| then i - 1 else i + 1;
      if |t.kids[sibling].entries| >= MAX_ENTRIES / 2 {
        EvenedMeans(t, h, i);
      } else if |t.entries| > 1 {
        MergedMeans(t, h, i);
      } else {
        LoweredMeans(t, h, i);
      }
    } else {
      KeepMeans(t, h, i);
    }
  }

  lemma KeepMeans(t: Tree, h: nat, i: nat)
    requires h > 0 && Shaped(t, h) && 0 < |t.entries| && i <= |t.entries| && |t.kids[i].entries| > MIN_ENTRIES
    ensures RebalanceMeaning(t, h, i, Keep)
  {
  }

  lemma LoweredMeans(t: Tree, h: nat, i: nat)
    requires h > 0 && Shaped(t, h) && |t.entries| == 1 && |t.kids[0].entries| + |t.kids[1].entries| < MAX_ENTRIES &&
             i <= 1
    ensures RebalanceMeaning(t, h, i, Lowered(Pool(t.kids[0], t.entries[0], t.kids[1]), [t.kids[1].pos, t.pos]))
  {
    hide Flat, Weave, Low;
    PoolSound(t.kids[0], t.entries[0], t.kids[1], h - 1);
    PairFlat(t);
  }

  lemma MergedMeans(t: Tree, h: nat, i: nat)
    requires h > 0 && Shaped(t, h) && 1 < |t.entries| && i <= |t.entries| && |t.kids[i].entries| <= MIN_ENTRIES
    requires |t.kids[LeftOf(t, i)].entries| + |t.kids[LeftOf(t, i) + 1].entries| < MAX_ENTRIES
    ensures var j := LeftOf(t, i); RebalanceMeaning(t, h, i, Changed(Merged(t, j), [t.kids[j + 1].pos]))
  {
    hide Flat, Low, Shaped, Pool;
    MergedSound(t, h, LeftOf(t, i));
  }

  lemma EvenedMeans(t: Tree, h: nat, i: nat)
    requires h > 0 && Shaped(t, h) && 0 < |t.entries| && i <= |t.entries| && |t.kids[i].entries| <= MIN_ENTRIES
    requires |t.kids[LeftOf(t, i)].entries| + |t.kids[LeftOf(t, i) + 1].entries| >= MIN_ENTRIES + MAX_ENTRIES / 2
    ensures RebalanceMeaning(t, h, i, Changed(Evened(t, LeftOf(t, i)), []))
  {
    hide Flat, Low, Shaped, Pool;
    EvenedSound(t, h, LeftOf(t, i));
  }

  lemma PairFlat(t: Tree)
    requires |t.entries| == 1 && |t.kids| == 2
    ensures Flat(t) == Flat(t.kids[0]) + [t.entries[0]] + Flat(t.kids[1])
  {
    WeaveHead(t.entries, t.kids, 0);
    assert t.entries[0..] == t.entries && t.kids[0..] == t.kids && t.entries[1..] == [] && t.kids[1..] == [t.kids[1]];
  }

  /** After a rebalancing step the page that the search for `name` enters next is above the limit,
      so no page is rebalanced against twice in a row. */
  lemma RebalanceReady(x: bool, t: Tree, h: nat, name: string)
    requires h > 0 && Shaped(t, h) && 0 < |t.entries| && Sorted(x, t.entries)
    ensures var i := Slot(x, t.entries, name);
            var r := Rebalance(t, h, i);
            r.Changed? ==>
              && |r.tree.kids| == |r.tree.entries| + 1
              && |r.tree.kids[Slot(x, r.tree.entries, name)].entries| > MIN_ENTRIES
  {
    hide Weave, Flat, Compare, Low, Slot, LowHalf, HighHalf, Sorted;
    var i := Slot(x, t.entries, name);
    RebalanceSound(t, h, i);
    SlotAfterMerge(x, t.entries, name, LeftOf(t, i));
    var j, p := LeftOf(t, i), Pool(t.kids[LeftOf(t, i)], t.entries[LeftOf(t, i)], t.kids[LeftOf(t, i) + 1]);
    SlotAfterEven(x, t.entries, name, j, p.entries[|p.entries| / 2]);
  }

  lemma SlotAfterMerge(x: bool, es: seq<Entry>, name: string, j: nat)
    requires Sorted(x, es) && j < |es|
    requires var i := Slot(x, es, name); j == i || (i == |es| && j == i - 1)
    ensures Slot(x, es[..j] + es[j + 1..], name) == j
  {
    if j + 1 < |es| { NotLtNext(x, es, j, name); }
    SlotUnique(x, es[..j] + es[j + 1..], name, j);
  }

  lemma SlotAfterEven(x: bool, es: seq<Entry>, name: string, j: nat, m: Entry)
    requires Sorted(x, es) && j < |es|
    requires var i := Slot(x, es, name); j == i || (i == |es| && j == i - 1)
    ensures Slot(x, es[j := m], name) == j || Slot(x, es[j := m], name) == j + 1
  {
    if j + 1 < |es| { NotLtNext(x, es, j, name); }
    SlotUnique(x, es[j := m], name, if Lt(x, m.name, name) then j + 1 else j);
  }

  lemma NotLtNext(x: bool, es: seq<Entry>, i: nat, name: string)
    requires Sorted(x, es) && i + 1 < |es| && !Lt(x, es[i].name, name)
    ensures !Lt(x, es[i + 1].name, name)
  {
    OrderLaws(x, es[i].name, es[i + 1].name, name);
  }

  /** A page below the root may lose an entry: it is above the limit, or at it and no merge of its
      kid `i` is due. */
  ghost predicate Ready(t: Tree, h: nat, i: nat) {
    || |t.entries| > MIN_ENTRIES
    || (h > 0 && |t.entries| == MIN_ENTRIES && i < |t.kids| && |t.kids[i].entries| > MIN_ENTRIES)
  }

  // ----- taking out the largest entry

  datatype Ext = Ext(tree: Tree, largest: Entry, dropped: seq<int>)

  ghost function Extract(t: Tree, h: nat): Ext
    requires Shaped(t, h) && Ready(t, h, |t.entries|)
    decreases h, Low(t.kids)
  {
    var n := |t.entries|;
    if h == 0 then Ext(t.(entries := t.entries[..n - 1]), t.entries[n - 1], [])
    else
      RebalanceSound(t, h, n);
      match Rebalance(t, h, n)
      case Keep =>
        var s := Extract(t.kids[n], h - 1);
        Ext(t.(kids := t.kids[n := s.tree]), s.largest, s.dropped)
      case Changed(t', d) =>
        var s := Extract(t', h);
        s.(dropped := d + s.dropped)
      case Lowered(_, _) => assert false; Ext(t, Entry("", 0, 0), [])
  }

  /** What an extraction means: exactly the last entry is gone, and the page keeps its depth and place. */
  ghost predicate ExtractMeaning(t: Tree, h: nat, s: Ext) {
    && Flat(t) == Flat(s.tree) + [s.largest]
    && Shaped(s.tree, h) && |s.tree.entries| >= MIN_ENTRIES && s.tree.pos == t.pos
  }

  lemma {:induction false} ExtractSound(t: Tree, h: nat)
    requires Shaped(t, h) && Ready(t, h, |t.entries|)
    ensures ExtractMeaning(t, h, Extract(t, h))
    decreases h, Low(t.kids)
  {
    var n := |t.entries|;
    if h > 0 {
      RebalanceSound(t, h, n);
      match Rebalance(t, h, n)
      case Keep =>
        ExtractSound(t.kids[n], h - 1);
        ExtractKeep(t, h, Extract(t.kids[n], h - 1));
      case Changed(t', d) => ExtractSound(t', h);
      case Lowered(_, _) => assert false;
    }
  }

  lemma ExtractKeep(t: Tree, h: nat, s: Ext)
    requires h > 0 && Shaped(t, h) && |t.entries| >= MIN_ENTRIES && ExtractMeaning(t.kids[|t.entries|], h - 1, s)
    ensures ExtractMeaning(t, h, Ext(t.(kids := t.kids[|t.entries| := s.tree]), s.largest, s.dropped))
  {
    WeaveAround(t.entries, t.kids, |t.entries|);
    WeaveReplace(t.entries, t.kids, |t.entries|, s.tree);
  }

  // ----- deleting a name

  datatype Del = Del(found: bool, tree: Tree, height: nat, dropped: seq<int>)

  /** What a caller of the deletion owes: a whole tree at the top, a page that can spare an entry
      below it. */
  ghost predicate Deletable(x: bool, t: Tree, h: nat, name: string, top: bool) {
    && Shaped(t, h) && Sorted(x, Flat(t))
    && (if top then h > 0 ==> t.entries != [] else Ready(t, h, Slot(x, t.entries, name)))
  }

  function Passed(r: Del, d: seq<int>): Del {
    r.(dropped := d + r.dropped)
  }

  function BelowKid(t: Tree, h: nat, i: nat, r: Del): Del
    requires i < |t.kids|
  {
    Del(r.found, t.(kids := t.kids[i := r.tree]), h, r.dropped)
  }

  function Refilled(t: Tree, h: nat, i: nat, s: Ext): Del
    requires i < |t.kids| && i < |t.entries|
  {
    Del(true, Tree(t.pos, t.entries[i := s.largest], t.kids[i := s.tree]), h, s.dropped)
  }

  ghost function Delete(x: bool, t: Tree, h: nat, name: string, top: bool): Del
    requires Deletable(x, t, h, name, top)
    decreases h, Low(t.kids)
  {
    var p := Locate(x, t.entries, name);
    if h == 0 then
      match p
      case Hit(i) => Del(true, t.(entries := t.entries[..i] + t.entries[i + 1..]), 0, [])
      case Miss(_) => Del(false, t, 0, [])
    else
      RebalanceSound(t, h, p.at);
      DescendSplits(x, t, name);
      RebalanceReady(x, t, h, name);
      match Rebalance(t, h, p.at)
      case Lowered(t', d) =>
        Passed(Delete(x, t', h - 1, name, true), d)
      case Changed(t', d) =>
        Passed(Delete(x, t', h, name, top), d)
      case Keep =>
        if p.Hit? then Refilled(t, h, p.at, Extract(t.kids[p.at], h - 1))
        else BelowKid(t, h, p.at, Delete(x, t.kids[p.at], h - 1, name, false))
  }

  /** What a deletion means: it finds the name exactly when it is there, and leaves the old entries
      without it; leaf depth and occupancy survive, and only a top page may lose a level. */
  ghost predicate DeleteMeaning(x: bool, t: Tree, h: nat, name: string, top: bool, r: Del) {
    && (r.found <==> Has(x, Flat(t), name))
    && Flat(r.tree) == RemoveNamed(x, Flat(t), name)
    && Shaped(r.tree, r.height)
    && (top ==> r.height <= h && (r.height > 0 ==> r.tree.entries != []))
    && (!top ==> r.height == h && |r.tree.entries| >= MIN_ENTRIES && r.tree.pos == t.pos)
  }

  /** One step of the deletion: it starts over at a page with the same entries, or goes on below. */
  ghost predicate Advances(x: bool, t: Tree, h: nat, name: string, top: bool)
    requires Deletable(x, t, h, name, top) && h > 0
  {
    var p, r := Locate(x, t.entries, name), Delete(x, t, h, name, top);
    match Rebalance(t, h, p.at)
    case Lowered(t', d) =>
      && top && Deletable(x, t', h - 1, name, true) && Flat(t') == Flat(t)
      && r == Passed(Delete(x, t', h - 1, name, true), d)
    case Changed(t', d) =>
      && Deletable(x, t', h, name, top) && Flat(t') == Flat(t) && Low(t'.kids) < Low(t.kids) && t'.pos == t.pos
      && r == Passed(Delete(x, t', h, name, top), d)
    case Keep =>
      && p.at < |t.kids| && |t.kids[p.at].entries| > MIN_ENTRIES && Shaped(t.kids[p.at], h - 1)
      && (p.Miss? ==> Deletable(x, t.kids[p.at], h - 1, name, false)
                      && r == BelowKid(t, h, p.at, Delete(x, t.kids[p.at], h - 1, name, false)))
      && (p.Hit? ==> p.at < |t.entries| && r == Refilled(t, h, p.at, Extract(t.kids[p.at], h - 1)))
  }

  lemma DeleteAdvances(x: bool, t: Tree, h: nat, name: string, top: bool)
    requires Deletable(x, t, h, name, top) && h > 0
    ensures Advances(x, t, h, name, top)
  {
    RebalanceSound(t, h, Slot(x, t.entries, name));
    DescendSplits(x, t, name);
    RebalanceReady(x, t, h, name);
  }

  lemma {:induction false} DeleteSound(x: bool, t: Tree, h: nat, name: string, top: bool)
    requires Deletable(x, t, h, name, top)
    ensures DeleteMeaning(x, t, h, name, top, Delete(x, t, h, name, top))
    decreases h, Low(t.kids)
  {
    hide Delete, Rebalance, Extract, Shaped, Flat, Sorted, Has, RemoveNamed;
    if h == 0 {
      DeleteLeafSound(x, t, name, top);
    } else {
      var p := Locate(x, t.entries, name);
      DeleteAdvances(x, t, h, name, top);
      match Rebalance(t, h, p.at)
      case Lowered(t', d) =>
        DeleteSound(x, t', h - 1, name, true);
        PassUp(x, t, h, top, t', h - 1, true, name, Delete(x, t', h - 1, name, true), d);
      case Changed(t', d) =>
        DeleteSound(x, t', h, name, top);
        PassUp(x, t, h, top, t', h, top, name, Delete(x, t', h, name, top), d);
      case Keep =>
        if p.Hit? {
          ExtractSound(t.kids[p.at], h - 1);
          DeleteHere(x, t, h, name, top, p.at, Extract(t.kids[p.at], h - 1));
        } else {
          DeleteSound(x, t.kids[p.at], h - 1, name, false);
          DeleteBelow(x, t, h, name, top, p.at, Delete(x, t.kids[p.at], h - 1, name, false));
        }
    }
  }

  lemma DeleteLeafSound(x: bool, t: Tree, name: string, top: bool)
    requires Deletable(x, t, 0, name, top)
    ensures DeleteMeaning(x, t, 0, name, top, Delete(x, t, 0, name, top))
  {
    LocateSplits(x, t.entries, name);
  }

  /** Starting over at a rebalanced page deletes from the same entries. */
  lemma PassUp(x: bool, t: Tree, h: nat, top: bool, t': Tree, h': nat, top': bool, name: string, r: Del, d: seq<int>)
    requires Flat(t') == Flat(t) && DeleteMeaning(x, t', h', name, top', r)
    requires h' <= h && (top' ==> top) && (!top ==> !top' && h' == h && t'.pos == t.pos) && (!top' ==> !top)
    ensures DeleteMeaning(x, t, h, name, top, Passed(r, d))
  {
  }

  lemma DeleteHere(x: bool, t: Tree, h: nat, name: string, top: bool, i: nat, s: Ext)
    requires h > 0 && Deletable(x, t, h, name, top) && Locate(x, t.entries, name) == Hit(i)
    requires ExtractMeaning(t.kids[i], h - 1, s) && |t.kids[i].entries| > MIN_ENTRIES
    ensures DeleteMeaning(x, t, h, name, top, Refilled(t, h, i, s))
  {
    RefillFlat(t, i, s);
    var a, b := Front(t.entries, t.kids, i) + Flat(t.kids[i]), Weave(t.entries[i + 1..], t.kids[i + 1..]);
    RemoveMiddle(x, a, t.entries[i], b, name);
  }

  lemma RefillFlat(t: Tree, i: nat, s: Ext)
    requires |t.kids| == |t.entries| + 1 && i < |t.entries| && Flat(t.kids[i]) == Flat(s.tree) + [s.largest]
    ensures var a, b := Front(t.entries, t.kids, i) + Flat(t.kids[i]), Weave(t.entries[i + 1..], t.kids[i + 1..]);
            Flat(t) == a + [t.entries[i]] + b
            && Weave(t.entries[i := s.largest], t.kids[i := s.tree]) == a + b
  {
    var es, ks := t.entries[i := s.largest], t.kids[i := s.tree];
    WeaveAtEntry(t.entries, t.kids, i);
    WeaveAtEntry(es, ks, i);
    assert es[i + 1..] == t.entries[i + 1..] && ks[i + 1..] == t.kids[i + 1..] && ks[..i] == t.kids[..i];
    assert Front(es, ks, i) == Front(t.entries, t.kids, i) by {
      if i > 0 { assert es[..i - 1] == t.entries[..i - 1]; }
    }
  }

  lemma RemoveMiddle(x: bool, a: seq<Entry>, e: Entry, b: seq<Entry>, name: string)
    requires Sorted(x, a + [e] + b) && Same(x, e.name, name)
    ensures RemoveNamed(x, a + [e] + b, name) == a + b && Has(x, a + [e] + b, name)
  {
    var w := a + [e] + b;
    assert w[|a|] == e;
    LocateSplits(x, w, name);
    var p := Locate(x, w, name);
    if p.at != |a| { LtNotSame(x, w, p.at, |a|); }
  }

  lemma DeleteBelow(x: bool, t: Tree, h: nat, name: string, top: bool, i: nat, r: Del)
    requires h > 0 && Deletable(x, t, h, name, top) && Locate(x, t.entries, name) == Miss(i)
    requires |t.kids[i].entries| > MIN_ENTRIES
    requires DeleteMeaning(x, t.kids[i], h - 1, name, false, r)
    ensures DeleteMeaning(x, t, h, name, top, BelowKid(t, h, i, r))
  {
    WeaveReplace(t.entries, t.kids, i, r.tree);
    RemoveAround(x, t, name, i);
  }

  lemma RemoveAround(x: bool, t: Tree, name: string, i: nat)
    requires |t.kids| == |t.entries| + 1 && Sorted(x, Flat(t)) && Locate(x, t.entries, name) == Miss(i)
    ensures RemoveNamed(x, Flat(t), name) ==
            Front(t.entries, t.kids, i) + RemoveNamed(x, Flat(t.kids[i]), name) + Back(t.entries, t.kids, i)
    ensures Has(x, Flat(t), name) <==> Has(x, Flat(t.kids[i]), name)
  {
    DescendSplits(x, t, name);
    var f, k, b := Front(t.entries, t.kids, i), Flat(t.kids[i]), Back(t.entries, t.kids, i);
    WeaveAround(t.entries, t.kids, i);
    RemoveInContext(x, f, k, b, name);
    SlotInContext(x, f, k, b, name);
    LocateSplits(x, Flat(t), name);
    LocateSplits(x, k, name);
  }

  /** Deleting from a whole directory tree. */
  lemma DeleteRootSound(x: bool, t: Tree, h: nat, name: string)
    requires WellFormed(x, t, h)
    ensures var r := Delete(x, t, h, name, true);
            && (r.found <==> Has(x, Flat(t), name))
            && WellFormed(x, r.tree, r.height) && r.height <= h
            && Flat(r.tree) == RemoveNamed(x, Flat(t), name)
            && (!r.found ==> Flat(r.tree) == Flat(t))
  {
    DeleteSound(x, t, h, name, true);
    LocateSplits(x, Flat(t), name);
    RemoveKeepsSorted(x, Flat(t), name);
  }

  // ----- released pages

  lemma PoolUses(l: Tree, m: Entry, r: Tree, p: int)
    ensures Uses(l, p) + Uses(r, p) == Uses(Pool(l, m, r), p) + (if r.pos == p then 1 else 0)
  {
    UsesJoin(l.kids, r.kids, p);
  }

  lemma MergedUses(t: Tree, j: nat, p: int)
    requires |t.kids| == |t.entries| + 1 && j < |t.entries|
    ensures Uses(t, p) == Uses(Merged(t, j), p) + (if t.kids[j + 1].pos == p then 1 else 0)
  {
    var l, r, ks := t.kids[j], t.kids[j + 1], Merged(t, j).kids;
    assert ks[..j] + [l, r] + ks[j + 1..] == t.kids && ks[j] == Pool(l, t.entries[j], r);
    UsesSplit(ks, j, l, r, p);
    PoolUses(l, t.entries[j], r, p);
  }

  lemma HalvesUses(pool: Tree, pos: int, p: int)
    requires pool.entries != [] && (pool.kids == [] || |pool.kids| == |pool.entries| + 1)
    ensures Uses(LowHalf(pool), p) + Uses(HighHalf(pool, pos), p) == Uses(pool, p) + (if pos == p then 1 else 0)
  {
    var lo, hi := LowHalf(pool), HighHalf(pool, pos);
    assert pool.kids == lo.kids + hi.kids;
    UsesJoin(lo.kids, hi.kids, p);
  }

  lemma EvenedUses(t: Tree, h: nat, j: nat, p: int)
    requires h > 0 && Shaped(t, h) && j < |t.entries|
    ensures Uses(Evened(t, j), p) == Uses(t, p)
  {
    var l, r := t.kids[j], t.kids[j + 1];
    var pool := Pool(l, t.entries[j], r);
    PoolSound(l, t.entries[j], r, h - 1);
    HalvesUses(pool, r.pos, p);
    PoolUses(l, t.entries[j], r, p);
    TwoUses(t.kids, j, LowHalf(pool), HighHalf(pool, r.pos), p);
  }

  lemma TwoUses(ks: seq<Tree>, j: nat, lo: Tree, hi: Tree, p: int)
    requires j + 1 < |ks|
    ensures UsesOf(ks[j := lo][j + 1 := hi], p) + Uses(ks[j], p) + Uses(ks[j + 1], p)
            == UsesOf(ks, p) + Uses(lo, p) + Uses(hi, p)
  {
    UsesReplace(ks, j, lo, p);
    UsesReplace(ks[j := lo], j + 1, hi, p);
  }

  /** A rebalancing step releases exactly the pages it lists and keeps all others. */
  lemma RebalanceUses(t: Tree, h: nat, i: nat, p: int)
    requires h > 0 && Shaped(t, h) && 0 < |t.entries| && i <= |t.entries|
    ensures var r := Rebalance(t, h, i);
            !r.Keep? ==> Released(t, r.tree, r.dropped, p)
  {
    var j, r := LeftOf(t, i), Rebalance(t, h, i);
    if r.Lowered? {
      UsesPair(t.kids[0], t.kids[1], p);
      assert t.kids == [t.kids[0], t.kids[1]];
      PoolUses(t.kids[0], t.entries[0], t.kids[1], p);
      TimesJoin([t.kids[1].pos], [t.pos], p);
      TimesOne(t.kids[1].pos, p);
      TimesOne(t.pos, p);
    } else if r.Changed? {
      if r.dropped == [] { EvenedUses(t, h, j, p); } else { MergedUses(t, j, p); TimesOne(t.kids[j + 1].pos, p); }
    }
  }

  /** Page `p` is still in the tree, or it is among the released pages. */
  ghost predicate Released(t: Tree, t': Tree, dropped: seq<int>, p: int) {
    Uses(t, p) == Uses(t', p) + Times(dropped, p)
  }

  lemma ReleasedMore(t: Tree, t1: Tree, t2: Tree, d: seq<int>, e: seq<int>, p: int)
    requires Released(t, t1, d, p) && Released(t1, t2, e, p)
    ensures Released(t, t2, d + e, p)
  {
    TimesJoin(d, e, p);
  }

  lemma ReleasedBelow(t: Tree, i: nat, es: seq<Entry>, k: Tree, d: seq<int>, p: int)
    requires i < |t.kids| && Released(t.kids[i], k, d, p)
    ensures Released(t, Tree(t.pos, es, t.kids[i := k]), d, p)
  {
    UsesReplace(t.kids, i, k, p);
  }

  lemma {:induction false} ExtractUses(t: Tree, h: nat, p: int)
    requires Shaped(t, h) && Ready(t, h, |t.entries|)
    ensures var s := Extract(t, h); Released(t, s.tree, s.dropped, p)
    decreases h, Low(t.kids)
  {
    var n := |t.entries|;
    if h > 0 {
      RebalanceSound(t, h, n);
      match Rebalance(t, h, n)
      case Keep =>
        var s := Extract(t.kids[n], h - 1);
        ExtractUses(t.kids[n], h - 1, p);
        ReleasedBelow(t, n, t.entries, s.tree, s.dropped, p);
      case Changed(t', d) =>
        var s := Extract(t', h);
        RebalanceUses(t, h, n, p);
        ExtractUses(t', h, p);
        ReleasedMore(t, t', s.tree, d, s.dropped, p);
      case Lowered(_, _) => assert false;
    }
  }

  /** A deletion keeps every page of the tree except the ones it lists as released. */
  lemma {:induction false} DeleteUses(x: bool, t: Tree, h: nat, name: string, top: bool, p: int)
    requires Deletable(x, t, h, name, top)
    ensures var r := Delete(x, t, h, name, top); Released(t, r.tree, r.dropped, p)
    decreases h, Low(t.kids)
  {
    if h > 0 { DeleteUsesAbove(x, t, h, name, top, p); }
  }

  lemma {:induction false} DeleteUsesAbove(x: bool, t: Tree, h: nat, name: string, top: bool, p: int)
    requires Deletable(x, t, h, name, top) && h > 0
    ensures var r := Delete(x, t, h, name, top); Released(t, r.tree, r.dropped, p)
    decreases h, Low(t.kids), 0
  {
    hide Delete, Rebalance, Extract, Flat, Released, Sorted;
    var q := Locate(x, t.entries, name);
    DeleteAdvances(x, t, h, name, top);
    RebalanceUses(t, h, q.at, p);
    match Rebalance(t, h, q.at)
    case Lowered(t', d) =>
      var r := Delete(x, t', h - 1, name, true);
      DeleteUses(x, t', h - 1, name, true, p);
      ReleasedMore(t, t', r.tree, d, r.dropped, p);
    case Changed(t', d) =>
      var r := Delete(x, t', h, name, top);
      DeleteUses(x, t', h, name, top, p);
      ReleasedMore(t, t', r.tree, d, r.dropped, p);
    case Keep =>
      if q.Hit? {
        var s := Extract(t.kids[q.at], h - 1);
        ExtractUses(t.kids[q.at], h - 1, p);
        ReleasedBelow(t, q.at, t.entries[q.at := s.largest], s.tree, s.dropped, p);
      } else {
        var r := Delete(x, t.kids[q.at], h - 1, name, false);
        DeleteUses(x, t.kids[q.at], h - 1, name, false, p);
        ReleasedBelow(t, q.at, t.entries, r.tree, r.dropped, p);
      }
  }
}
