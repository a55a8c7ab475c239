/** Insertion into the directory B-tree, with splits travelling upwards and pages taken from the
    reclaim list before the file is extended. */
module DirInsert {
  import opened DirNames
  import opened DirTree

  /** Bytes of one directory entry page in the file. */
  const PAGE_SIZE: int := 27673

  /** Where new pages come from: the reclaim list first, then the end of the file. */
  datatype Alloc = Alloc(gc: seq<int>, end: int)

  function NewPage(a: Alloc): int {
    if a.gc != [] then a.gc[0] else a.end
  }

  function Rest(a: Alloc): Alloc {
    if a.gc != [] then Alloc(a.gc[1..], a.end) else Alloc([], a.end + PAGE_SIZE)
  }

  function After(a: Alloc, n: nat): Alloc
    decreases n
  {
    if n == 0 then a else After(Rest(a), n - 1)
  }

  /** The first `n` pages the allocator hands out. */
  function Fresh(a: Alloc, n: nat): (s: seq<int>)
    ensures |s| == n
    decreases n
  {
    if n == 0 then [] else [NewPage(a)] + Fresh(Rest(a), n - 1)
  }

  /** Reclaimed pages first, in their order, then new ones side by side at the end of the file. */
  lemma {:induction false} FreshMeans(a: Alloc, n: nat)
    ensures forall k :: 0 <= k < n ==>
              Fresh(a, n)[k] == if k < |a.gc| then a.gc[k] else a.end + (k - |a.gc|) * PAGE_SIZE
    ensures After(a, n) ==
            if n <= |a.gc| then Alloc(a.gc[n..], a.end) else Alloc([], a.end + (n - |a.gc|) * PAGE_SIZE)
    decreases n
  {
    if n > 0 {
      FreshMeans(Rest(a), n - 1);
      var f := Fresh(Rest(a), n - 1);
      forall k | 0 < k < n
        ensures Fresh(a, n)[k] == if k < |a.gc| then a.gc[k] else a.end + (k - |a.gc|) * PAGE_SIZE
      {
        assert Fresh(a, n)[k] == f[k - 1];
      }
    }
  }

  lemma {:induction false} FreshNext(a: Alloc, n: nat)
    ensures Fresh(a, n + 1) == Fresh(a, n) + [NewPage(After(a, n))]
    ensures After(a, n + 1) == Rest(After(a, n))
    decreases n
  {
    if n > 0 {
      FreshNext(Rest(a), n - 1);
      assert Fresh(a, n + 1) == [NewPage(a)] + Fresh(Rest(a), n);
    } else {
      assert Fresh(a, 1) == [NewPage(a)] + Fresh(Rest(a), 0);
      assert After(a, 1) == After(Rest(a), 0);
    }
  }

  /** Outcome of an insertion below some page; `taken` counts the pages allocated. */
  datatype Ins =
    | Exists
    | NoSpace
    | Done(tree: Tree, taken: nat)
    | Overflow(left: Tree, median: Entry, right: Tree, taken: nat)

  /** Left half stays in page `pos`, the right half goes to page `newPos`, the median goes up. */
  function Split(pos: int, es: seq<Entry>, ks: seq<Tree>, newPos: int, taken: nat): Ins
    requires |es| == MAX_ENTRIES + 1 && (ks == [] || |ks| == |es| + 1)
  {
    var m := |es| / 2;
    Overflow(
      Tree(pos, es[..m], if ks == [] then [] else ks[..m + 1]),
      es[m],
      Tree(newPos, es[m + 1..], if ks == [] then [] else ks[m + 1..]),
      taken)
  }

  ghost function Insert(x: bool, t: Tree, h: nat, e: Entry, a: Alloc, full: bool): Ins
    requires Shaped(t, h)
    decreases h
  {
    match Locate(x, t.entries, e.name)
    case Hit(_) => Exists
    case Miss(s) =>
      if h == 0 then
        var es := t.entries[..s] + [e] + t.entries[s..];
        if |t.entries| < MAX_ENTRIES then Done(t.(entries := es), 0)
        else if a.gc == [] && full then NoSpace
        else Split(t.pos, es, [], NewPage(a), 1)
      else
        Lift(t, s, Insert(x, t.kids[s], h - 1, e, a, full), a)
  }

  /** What a node makes of the outcome in its kid `s`. */
  function Lift(t: Tree, s: nat, r: Ins, a: Alloc): Ins
    requires |t.kids| == |t.entries| + 1 && s <= |t.entries| <= MAX_ENTRIES
  {
    match r
    case Exists => Exists
    case NoSpace => NoSpace
    case Done(k, n) => Done(t.(kids := t.kids[s := k]), n)
    case Overflow(l, m, u, n) =>
      if |t.entries| < MAX_ENTRIES then Done(Widen(t, s, l, m, u), n)
      else
        var g := Widen(t, s, l, m, u);
        Split(t.pos, g.entries, g.kids, NewPage(After(a, n)), n + 1)
  }

  /** Kid `s` replaced by two halves around a median. */
  function Widen(t: Tree, s: nat, l: Tree, m: Entry, u: Tree): (g: Tree)
    requires |t.kids| == |t.entries| + 1 && s <= |t.entries|
    ensures |g.entries| == |t.entries| + 1 && |g.kids| == |g.entries| + 1
  {
    Tree(t.pos, t.entries[..s] + [m] + t.entries[s..], t.kids[..s] + [l, u] + t.kids[s + 1..])
  }

  ghost predicate KidsShaped(es: seq<Entry>, ks: seq<Tree>, h: nat) {
    && (h == 0 ==> ks == [])
    && (h > 0 ==>
          && |ks| == |es| + 1
          && forall i :: 0 <= i < |ks| ==> Shaped(ks[i], h - 1) && |ks[i].entries| >= MIN_ENTRIES)
  }

  lemma SplitSound(pos: int, es: seq<Entry>, ks: seq<Tree>, newPos: int, taken: nat, h: nat)
    requires |es| == MAX_ENTRIES + 1 && KidsShaped(es, ks, h)
    ensures var r := Split(pos, es, ks, newPos, taken);
            && Shaped(r.left, h) && Shaped(r.right, h)
            && |r.left.entries| >= MIN_ENTRIES && |r.right.entries| >= MIN_ENTRIES
            && Flat(r.left) + [r.median] + Flat(r.right) == Weave(es, ks)
  {
    var m := |es| / 2;
    if h > 0 { CutInner(pos, es, ks, newPos, m, h); } else { assert es == es[..m] + [es[m]] + es[m + 1..]; }
  }

  lemma SplitUses(pos: int, es: seq<Entry>, ks: seq<Tree>, newPos: int, taken: nat, p: int)
    requires |es| == MAX_ENTRIES + 1 && (ks == [] || |ks| == |es| + 1)
    ensures var r := Split(pos, es, ks, newPos, taken);
            Uses(r.left, p) + Uses(r.right, p) == Uses(Tree(pos, es, ks), p) + (if newPos == p then 1 else 0)
  {
    var r := Split(pos, es, ks, newPos, taken);
    UsesJoin(r.left.kids, r.right.kids, p);
    assert ks == r.left.kids + r.right.kids;
  }

  /** What an insertion means: it fails exactly on a name already there (or when no page can be had),
      and otherwise the entries are the old ones with the new one in its sorted place, all leaves
      stay at one depth, and a split yields two pages within the occupancy limits. */
  ghost predicate InsertMeaning(x: bool, t: Tree, h: nat, e: Entry, a: Alloc, full: bool, r: Ins)
  {
    match r
    case Exists => Has(x, Flat(t), e.name)
    case NoSpace => !Has(x, Flat(t), e.name) && full && a.gc == []
    case Done(t', n) =>
      && !Has(x, Flat(t), e.name)
      && Shaped(t', h) && t'.pos == t.pos && |t'.entries| >= |t.entries|
      && Flat(t') == InsertSorted(x, Flat(t), e)
    case Overflow(l, m, u, n) =>
      && !Has(x, Flat(t), e.name)
      && Shaped(l, h) && Shaped(u, h) && l.pos == t.pos
      && |l.entries| >= MIN_ENTRIES && |u.entries| >= MIN_ENTRIES
      && Flat(l) + [m] + Flat(u) == InsertSorted(x, Flat(t), e)
  }

  /** Page `p` is in the outcome as often as before, plus each time it was taken from the allocator. */
  ghost predicate Accounted(t: Tree, a: Alloc, r: Ins, p: int) {
    match r
    case Exists => true
    case NoSpace => true
    case Done(t', n) => Uses(t', p) == Uses(t, p) + Times(Fresh(a, n), p)
    case Overflow(l, m, u, n) =>
      && n > 0 && u.pos == Fresh(a, n)[n - 1]
      && Uses(l, p) + Uses(u, p) == Uses(t, p) + Times(Fresh(a, n), p)
  }

  lemma {:induction false} InsertSound(x: bool, t: Tree, h: nat, e: Entry, a: Alloc, full: bool)
    requires Shaped(t, h) && Sorted(x, Flat(t))
    ensures InsertMeaning(x, t, h, e, a, full, Insert(x, t, h, e, a, full))
    decreases h
  {
    if h == 0 {
      InsertLeafSound(x, t, e, a, full);
    } else {
      DescendSplits(x, t, e.name);
      match Locate(x, t.entries, e.name)
      case Hit(i) => HasInNode(x, t, e.name, i);
      case Miss(s) =>
        InsertSound(x, t.kids[s], h - 1, e, a, full);
        LiftSound(x, t, h, e, a, full, s, Insert(x, t.kids[s], h - 1, e, a, full));
    }
  }

  /** Every new page was taken from the reclaim list or the file end, exactly once; none was lost. */
  lemma {:induction false} InsertAccounted(x: bool, t: Tree, h: nat, e: Entry, a: Alloc, full: bool, p: int)
    requires Shaped(t, h)
    ensures Accounted(t, a, Insert(x, t, h, e, a, full), p)
    decreases h
  {
    var q := Locate(x, t.entries, e.name);
    if q.Miss? {
      if h == 0 {
        FreshNext(a, 0);
        TimesOne(NewPage(a), p);
        var es := t.entries[..q.at] + [e] + t.entries[q.at..];
        if |t.entries| == MAX_ENTRIES { SplitUses(t.pos, es, [], NewPage(a), 1, p); }
      } else {
        InsertAccounted(x, t.kids[q.at], h - 1, e, a, full, p);
        LiftAccounted(t, a, q.at, Insert(x, t.kids[q.at], h - 1, e, a, full), p);
      }
    }
  }

  lemma LiftAccounted(t: Tree, a: Alloc, s: nat, r: Ins, p: int)
    requires |t.kids| == |t.entries| + 1 && s <= |t.entries| <= MAX_ENTRIES
    requires Accounted(t.kids[s], a, r, p)
    ensures Accounted(t, a, Lift(t, s, r, a), p)
  {
    match r
    case Exists =>
    case NoSpace =>
    case Done(k, n) => UsesReplace(t.kids, s, k, p);
    case Overflow(l, m, u, n) =>
      var g := Widen(t, s, l, m, u);
      UsesSplit(t.kids, s, l, u, p);
      if |t.entries| == MAX_ENTRIES {
        SplitUses(t.pos, g.entries, g.kids, NewPage(After(a, n)), n + 1, p);
        FreshNext(a, n);
        TimesJoin(Fresh(a, n), [NewPage(After(a, n))], p);
        TimesOne(NewPage(After(a, n)), p);
      }
  }

  lemma HasInNode(x: bool, t: Tree, name: string, i: nat)
    requires |t.kids| == |t.entries| + 1 && i < |t.entries| && Same(x, t.entries[i].name, name)
    ensures Has(x, Flat(t), name)
  {
    WeaveCut(t.entries, t.kids, i);
    var a := Weave(t.entries[..i], t.kids[..i + 1]);
    assert Flat(t)[|a|] == t.entries[i];
  }

  lemma InsertLeafSound(x: bool, t: Tree, e: Entry, a: Alloc, full: bool)
    requires Shaped(t, 0) && Sorted(x, Flat(t))
    ensures InsertMeaning(x, t, 0, e, a, full, Insert(x, t, 0, e, a, full))
  {
    LocateSplits(x, t.entries, e.name);
    var r := Insert(x, t, 0, e, a, full);
    if r.Overflow? {
      var s := Slot(x, t.entries, e.name);
      SplitSound(t.pos, t.entries[..s] + [e] + t.entries[s..], [], NewPage(a), 1, 0);
    }
  }

  /** The name is among the entries of the node iff it is among those of the kid it descends into. */
  lemma HasBelow(x: bool, t: Tree, name: string)
    requires |t.kids| == |t.entries| + 1 && Sorted(x, Flat(t)) && Locate(x, t.entries, name).Miss?
    ensures var s := Locate(x, t.entries, name).at;
            Has(x, Flat(t), name) <==> Has(x, Flat(t.kids[s]), name)
  {
    DescendSplits(x, t, name);
    var s := Locate(x, t.entries, name).at;
    WeaveAround(t.entries, t.kids, s);
    var f, k, b := Front(t.entries, t.kids, s), Flat(t.kids[s]), Back(t.entries, t.kids, s);
    LocateSplits(x, Flat(t), name);
    LocateSplits(x, k, name);
    SlotInContext(x, f, k, b, name);
  }

  /** The kid's part of an insertion: what is known when the node takes over. */
  ghost predicate Lifting(x: bool, t: Tree, h: nat, e: Entry, a: Alloc, full: bool, s: nat, r: Ins) {
    h > 0 && Shaped(t, h) && Sorted(x, Flat(t)) && Locate(x, t.entries, e.name) == Miss(s) && s < |t.kids| &&
    InsertMeaning(x, t.kids[s], h - 1, e, a, full, r)
  }

  lemma LiftSound(x: bool, t: Tree, h: nat, e: Entry, a: Alloc, full: bool, s: nat, r: Ins)
    requires Lifting(x, t, h, e, a, full, s, r)
    ensures InsertMeaning(x, t, h, e, a, full, Lift(t, s, r, a))
  {
    match r
    case Exists => HasBelow(x, t, e.name);
    case NoSpace => HasBelow(x, t, e.name);
    case Done(k, n) => LiftDone(x, t, h, e, a, full, s, k, n);
    case Overflow(l, m, u, n) => LiftOverflow(x, t, h, e, a, full, s, l, m, u, n);
  }

  lemma LiftDone(x: bool, t: Tree, h: nat, e: Entry, a: Alloc, full: bool, s: nat, k: Tree, n: nat)
    requires Lifting(x, t, h, e, a, full, s, Done(k, n))
    ensures InsertMeaning(x, t, h, e, a, full, Lift(t, s, Done(k, n), a))
  {
    hide Weave, InsertSorted, Locate;
    HasBelow(x, t, e.name);
    InsertAround(x, t, e, s);
    WeaveReplace(t.entries, t.kids, s, k);
  }

  lemma LiftOverflow(x: bool, t: Tree, h: nat, e: Entry, a: Alloc, full: bool, s: nat, l: Tree, m: Entry, u: Tree,
                     n: nat)
    requires Lifting(x, t, h, e, a, full, s, Overflow(l, m, u, n))
    ensures InsertMeaning(x, t, h, e, a, full, Lift(t, s, Overflow(l, m, u, n), a))
  {
    HasBelow(x, t, e.name);
    InsertAround(x, t, e, s);
    WidenSound(t, h, s, l, m, u);
    if |t.entries| == MAX_ENTRIES {
      var g := Widen(t, s, l, m, u);
      SplitSound(t.pos, g.entries, g.kids, NewPage(After(a, n)), n + 1, h);
    }
  }

  lemma InsertAround(x: bool, t: Tree, e: Entry, s: nat)
    requires |t.kids| == |t.entries| + 1 && Sorted(x, Flat(t)) && Locate(x, t.entries, e.name) == Miss(s)
    ensures InsertSorted(x, Flat(t), e) ==
            Front(t.entries, t.kids, s) + InsertSorted(x, Flat(t.kids[s]), e) + Back(t.entries, t.kids, s)
  {
    DescendSplits(x, t, e.name);
    WeaveAround(t.entries, t.kids, s);
    InsertInContext(x, Front(t.entries, t.kids, s), Flat(t.kids[s]), Back(t.entries, t.kids, s), e);
  }

  lemma WidenSound(t: Tree, h: nat, s: nat, l: Tree, m: Entry, u: Tree)
    requires h > 0 && Shaped(t, h) && s <= |t.entries|
    requires Shaped(l, h - 1) && Shaped(u, h - 1) && |l.entries| >= MIN_ENTRIES && |u.entries| >= MIN_ENTRIES
    ensures var g := Widen(t, s, l, m, u);
            && KidsShaped(g.entries, g.kids, h)
            && Flat(g) == Front(t.entries, t.kids, s) + (Flat(l) + [m] + Flat(u)) + Back(t.entries, t.kids, s)
  {
    WeaveSplit(t.entries, t.kids, s, l, m, u);
  }

  // ----- growing a new root

  /** The whole insertion as its callers do it: an overflowing root gets a new root above it. */
  ghost function InsertRoot(x: bool, t: Tree, h: nat, e: Entry, a: Alloc, full: bool): Ins
    requires Shaped(t, h)
  {
    match Insert(x, t, h, e, a, full)
    case Overflow(l, m, r, n) => Done(Tree(NewPage(After(a, n)), [m], [l, r]), n + 1)
    case other => other
  }

  ghost function InsertRootHeight(x: bool, t: Tree, h: nat, e: Entry, a: Alloc, full: bool): nat
    requires Shaped(t, h)
  {
    if Insert(x, t, h, e, a, full).Overflow? then h + 1 else h
  }

  lemma InsertRootSound(x: bool, t: Tree, h: nat, e: Entry, a: Alloc, full: bool)
    requires WellFormed(x, t, h)
    ensures var r := InsertRoot(x, t, h, e, a, full);
            && !r.Overflow?
            && (r.Exists? <==> Has(x, Flat(t), e.name))
            && (r.NoSpace? ==> full && a.gc == [])
            && (r.Done? ==>
                  && WellFormed(x, r.tree, InsertRootHeight(x, t, h, e, a, full))
                  && Flat(r.tree) == InsertSorted(x, Flat(t), e))
  {
    InsertSound(x, t, h, e, a, full);
    var r := Insert(x, t, h, e, a, full);
    if !r.Exists? { InsertKeepsSorted(x, Flat(t), e); }
    if r.Overflow? { NewRoot(r.left, r.median, r.right, NewPage(After(a, r.taken)), h); }
  }

  lemma InsertRootAccounted(x: bool, t: Tree, h: nat, e: Entry, a: Alloc, full: bool, p: int)
    requires Shaped(t, h)
    ensures Accounted(t, a, InsertRoot(x, t, h, e, a, full), p)
  {
    InsertAccounted(x, t, h, e, a, full, p);
    var r := Insert(x, t, h, e, a, full);
    if r.Overflow? { NewRootUses(t, a, r, p); }
  }

  lemma NewRootUses(t: Tree, a: Alloc, r: Ins, p: int)
    requires r.Overflow? && Accounted(t, a, r, p)
    ensures Accounted(t, a, Done(Tree(NewPage(After(a, r.taken)), [r.median], [r.left, r.right]), r.taken + 1), p)
  {
    UsesPair(r.left, r.right, p);
    FreshNext(a, r.taken);
    TimesJoin(Fresh(a, r.taken), [NewPage(After(a, r.taken))], p);
    TimesOne(NewPage(After(a, r.taken)), p);
  }

  lemma NewRoot(l: Tree, m: Entry, r: Tree, pos: int, h: nat)
    requires Shaped(l, h) && Shaped(r, h) && |l.entries| >= MIN_ENTRIES && |r.entries| >= MIN_ENTRIES
    ensures var g := Tree(pos, [m], [l, r]);
            Shaped(g, h + 1) && Flat(g) == Flat(l) + [m] + Flat(r)
  {
    WeaveHead([m], [l, r], 0);
    assert [m][0..] == [m] && [l, r][0..] == [l, r] && [m][1..] == [] && [l, r][1..] == [r];
  }
}
