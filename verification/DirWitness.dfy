/** Two runs of a directory, from its creation on, in which the page-by-page routines go wrong: an
    insertion that splits a page with a stale first child position, and a deletion that writes back
    stale walk links. */
module DirWitness {
  import opened DirNames
  import opened DirTree
  import opened DirInsert
  import opened DirInsertPages
  import opened DirDelete
  import opened DirPages
  import opened DirDeletePages
  import opened DirStale
  import opened DirHistory
  import opened DirFile
  import opened DirRun

  // ----- names of four digits

  function Digit(d: nat): char
    requires d < 10
  {
    '0' + d as char
  }

  function Ten(c: nat): nat
    requires c <= 4
  {
    [1, 10, 100, 1000, 10000][c]
  }

  /** The last `c` decimal digits of `i`, leading zeros included. */
  function Digits(i: nat, c: nat): (s: string)
    requires c <= 4 && i < Ten(c)
    ensures |s| == c
  {
    if c == 0 then "" else Parted(i, c); [Digit(i / Ten(c - 1))] + Digits(i % Ten(c - 1), c - 1)
  }

  lemma Parted(i: nat, c: nat)
    requires 0 < c <= 4 && i < Ten(c)
    ensures i / Ten(c - 1) < 10 && i % Ten(c - 1) < Ten(c - 1)
  {
  }

  lemma {:induction false} DigitsAscend(i: nat, j: nat, c: nat)
    requires c <= 4 && i < j < Ten(c)
    ensures StrCmp(Digits(i, c), Digits(j, c)) < 0
  {
    if c > 0 {
      var p := Ten(c - 1);
      Parted(i, c);
      Parted(j, c);
      assert i / p <= j / p && (i / p == j / p ==> i % p < j % p);
      if i / p == j / p { DigitsAscend(i % p, j % p, c - 1); }
    }
  }

  /** "0000" to "9999". */
  function Name(i: nat): string
    requires i < 10000
  {
    Digits(i, 4)
  }

  function Item(i: nat): Entry
    requires i < 10000
  {
    Entry(Name(i), 0, 0)
  }

  function Items(start: nat, n: nat): (s: seq<Entry>)
    requires start + n <= 10000
    ensures |s| == n && forall i :: 0 <= i < n ==> s[i] == Item(start + i)
  {
    seq(n, i requires 0 <= i < n => Item(start + i))
  }

  lemma NamesAscend(i: nat, j: nat)
    requires i < j < 10000
    ensures Lt(false, Name(i), Name(j))
  {
    DigitsAscend(i, j, 4);
  }

  // ----- where a name goes in a page

  lemma MissThere(es: seq<Entry>, name: string, s: nat)
    requires s <= |es| && (forall i :: 0 <= i < s ==> Lt(false, es[i].name, name)) &&
             (s < |es| ==> Lt(false, name, es[s].name))
    ensures Locate(false, es, name) == Miss(s)
  {
    if s < |es| { OrderLaws(false, es[s].name, name, name); OrderLaws(false, name, es[s].name, name); }
    SlotUnique(false, es, name, s);
  }

  lemma HitThere(es: seq<Entry>, name: string, s: nat)
    requires s < |es| && (forall i :: 0 <= i < s ==> Lt(false, es[i].name, name)) && es[s].name == name
    ensures Locate(false, es, name) == Hit(s)
  {
    OrderLaws(false, name, name, name);
    SlotUnique(false, es, name, s);
  }

  // ----- one insertion, level by level

  lemma LeafTakes(t: Tree, e: Entry, at: nat, a: Alloc)
    requires Shaped(t, 0) && Locate(false, t.entries, e.name) == Miss(at)
    ensures var es := t.entries[..at] + [e] + t.entries[at..];
            Insert(false, t, 0, e, a, false) ==
              if |t.entries| < MAX_ENTRIES then Done(t.(entries := es), 0) else Split(t.pos, es, [], NewPage(a), 1)
  {
  }

  lemma NodeTakes(t: Tree, h: nat, e: Entry, at: nat, a: Alloc)
    requires h > 0 && Shaped(t, h) && Locate(false, t.entries, e.name) == Miss(at)
    ensures Insert(false, t, h, e, a, false) == Lift(t, at, Insert(false, t.kids[at], h - 1, e, a, false), a)
  {
  }

  lemma StepDone(s: State, e: Entry, t: Tree, n: nat)
    requires Good(false, s) && Insert(false, s.tree, s.height, e, s.alloc, false) == Done(t, n)
    ensures Step(false, s, Add(e, false)) == State(t, s.height, After(s.alloc, n), Listed(s.alloc, n, s.walk))
  {
  }

  lemma StepGrow(s: State, e: Entry, l: Tree, m: Entry, u: Tree, n: nat)
    requires Good(false, s) && Insert(false, s.tree, s.height, e, s.alloc, false) == Overflow(l, m, u, n)
    ensures var s' := Step(false, s, Add(e, false));
            && s'.tree == Tree(NewPage(After(s.alloc, n)), [m], [l, u]) && s'.height == s.height + 1
            && s'.walk == [NewPage(After(s.alloc, n))] + Listed(s.alloc, n, s.walk)
  {
    hide Insert, Flat, Sorted, Shaped;
  }

  lemma StepGood(s: State, e: Entry)
    requires Good(false, s)
    ensures Good(false, Step(false, s, Add(e, false)))
    ensures Leftmost(Step(false, s, Add(e, false)).tree) == Leftmost(s.tree)
  {
    StepIsMapStep(false, s, Add(e, false));
    InsertLeftmost(false, s.tree, s.height, e, s.alloc, false);
  }

  // ----- the climb: names in ascending order, until the root above the leaves is full

  /** The number of the `j`-th name; after 2600 of them a hundred numbers are left free. */
  function Number(j: nat): nat {
    if j < 2600 then 100 + j else 200 + j
  }

  function It(j: nat): Entry
    requires j < 9800
  {
    Item(Number(j))
  }

  function Run(a: nat, c: nat): (s: seq<Entry>)
    requires a + c <= 9800
    ensures |s| == c && forall i :: 0 <= i < c ==> s[i] == It(a + i)
  {
    seq(c, i requires 0 <= i < c => It(a + i))
  }

  lemma ItsAscend(i: nat, j: nat)
    requires i < j < 9800
    ensures Lt(false, It(i).name, It(j).name)
  {
    NamesAscend(Number(i), Number(j));
  }

  lemma RunNext(a: nat, c: nat)
    requires a + c < 9800
    ensures Run(a, c)[..c] + [It(a + c)] + Run(a, c)[c..] == Run(a, c + 1)
    ensures Locate(false, Run(a, c), It(a + c).name) == Miss(c)
  {
    forall i | 0 <= i < c ensures Lt(false, Run(a, c)[i].name, It(a + c).name) { ItsAscend(a + i, a + c); }
    MissThere(Run(a, c), It(a + c).name, c);
  }

  /** A full leaf takes one more and splits. */
  lemma RunSplit(t: Tree, a: nat, al: Alloc)
    requires a + 100 <= 9800 && Shaped(t, 0) && t.entries == Run(a, 99)
    ensures var r := Insert(false, t, 0, It(a + 99), al, false);
            && r == Overflow(t.(entries := Run(a, 50)), It(a + 50), Tree(NewPage(al), Run(a + 51, 49), []), 1)
  {
    hide Name, Number, It;
    RunNext(a, 99);
    LeafTakes(t, It(a + 99), 99, al);
    var es := Run(a, 100);
    assert es[..50] == Run(a, 50) && es[51..] == Run(a + 51, 49);
  }

  /** `k` leaves of fifty entries, the entries between them, and a last leaf with `n`. */
  ghost predicate Ramp(t: Tree, k: nat, n: nat) {
    && 0 < k <= 99 && n <= 99 && |t.entries| == k && |t.kids| == k + 1
    && (forall i :: 0 <= i < k ==> t.entries[i] == It(51 * i + 50))
    && (forall i :: 0 <= i < k ==> t.kids[i].entries == Run(51 * i, 50))
    && t.kids[k].entries == Run(51 * k, n)
  }

  lemma RampPlace(t: Tree, k: nat, n: nat)
    requires Ramp(t, k, n)
    ensures Locate(false, t.entries, It(51 * k + n).name) == Miss(k)
  {
    hide Name, Number, It;
    forall i | 0 <= i < k ensures Lt(false, t.entries[i].name, It(51 * k + n).name) {
      ItsAscend(51 * i + 50, 51 * k + n);
    }
    MissThere(t.entries, It(51 * k + n).name, k);
  }

  lemma RampGrows(s: State, k: nat, n: nat)
    requires Good(false, s) && s.height == 1 && Ramp(s.tree, k, n) && n < 99
    ensures var s' := Step(false, s, Add(It(51 * k + n), false)); s'.height == 1 && Ramp(s'.tree, k, n + 1)
  {
    hide Name, Number, It, Flat, Sorted;
    var t, e := s.tree, It(51 * k + n);
    RampPlace(t, k, n);
    RunNext(51 * k, n);
    LeafTakes(t.kids[k], e, n, s.alloc);
    NodeTakes(t, 1, e, k, s.alloc);
    StepDone(s, e, t.(kids := t.kids[k := t.kids[k].(entries := Run(51 * k, n + 1))]), 0);
  }

  lemma RampSplits(s: State, k: nat)
    requires Good(false, s) && s.height == 1 && Ramp(s.tree, k, 99) && k < 99
    ensures var s' := Step(false, s, Add(It(51 * k + 99), false)); s'.height == 1 && Ramp(s'.tree, k + 1, 49)
  {
    hide Name, Number, It, Flat, Sorted, Step, Insert;
    var t, e := s.tree, It(51 * k + 99);
    RampPlace(t, k, 99);
    RunSplit(t.kids[k], 51 * k, s.alloc);
    NodeTakes(t, 1, e, k, s.alloc);
    var r := Insert(false, t.kids[k], 0, e, s.alloc, false);
    StepDone(s, e, Widen(t, k, r.left, r.median, r.right), 1);
  }

  lemma FirstSplits(s: State)
    requires Good(false, s) && s.height == 0 && s.tree.entries == Run(0, 99)
    ensures var s' := Step(false, s, Add(It(99), false)); s'.height == 1 && Ramp(s'.tree, 1, 49)
  {
    hide Name, Number, It, Flat, Sorted;
    RunSplit(s.tree, 0, s.alloc);
    var r := Insert(false, s.tree, 0, It(99), s.alloc, false);
    StepGrow(s, It(99), r.left, r.median, r.right, 1);
  }

  lemma FirstGrows(s: State, n: nat)
    requires n < 99 && Good(false, s) && s.height == 0 && s.tree.entries == Run(0, n)
    ensures var s' := Step(false, s, Add(It(n), false)); s'.height == 0 && s'.tree.entries == Run(0, n + 1)
  {
    hide Name, Number, It, Flat, Sorted;
    RunNext(0, n);
    LeafTakes(s.tree, It(n), n, s.alloc);
    StepDone(s, It(n), s.tree.(entries := Run(0, n + 1)), 0);
  }

  lemma RampClean(t: Tree, k: nat, n: nat, slot: int)
    requires Shaped(t, 1) && Ramp(t, k, n)
    ensures Clean(false, t, 1, It(51 * k + n).name, slot)
  {
    hide Name, Number, It;
    RampPlace(t, k, n);
  }

  /** Everything is in order, and the leftmost leaf is in the first page. */
  ghost predicate Fine(f: MetaFile, header: int)
    reads f
  {
    f.Valid() && !f.external && Leftmost(f.tree) == header
  }

  lemma StoredGood(f: MetaFile)
    requires f.Stored()
    ensures Good(f.external, f.View())
  {
  }

  /** One insertion with any content of the buffer slot that suits it. */
  method Enter(f: MetaFile, e: Entry, slot: int, ghost header: int)
    requires Fine(f, header) && Good(false, f.View()) && Clean(false, f.tree, f.height, e.name, slot)
    modifies f
    ensures Fine(f, header) && Good(false, f.View()) && f.View() == Step(false, old(f.View()), Add(e, false))
  {
    hide Clean, Step, Flat, Holds, Walk, Frame;
    StepGood(f.View(), e);
    var _ := Perform(f, Put(e, false, slot));
  }

  /** The first leaf fills and splits. */
  method FirstLeaf(header: int, slot: int) returns (f: MetaFile)
    requires header > 0
    ensures fresh(f) && Fine(f, header) && Good(false, f.View()) && f.height == 1 && Ramp(f.tree, 1, 49)
  {
    hide Step, Holds, Walk, Frame, Ramp, It, Flat;
    f := new MetaFile(false, header);
    StoredGood(f);
    var i := 0;
    while i < 99
      invariant i <= 99 && fresh(f) && Fine(f, header) && Good(false, f.View()) && f.height == 0 &&
                f.tree.entries == Run(0, i)
    {
      FirstGrows(f.View(), i);
      LeafClean(f.tree, It(i).name, slot);
      Enter(f, It(i), slot, header);
      i := i + 1;
    }
    FirstSplits(f.View());
    LeafClean(f.tree, It(99).name, slot);
    Enter(f, It(99), slot, header);
  }

  lemma LeafClean(t: Tree, name: string, slot: int)
    requires Shaped(t, 0)
    ensures Clean(false, t, 0, name, slot)
  {
  }

  /** The root fills, and then its last leaf. */
  method Climb(header: int, slot: int) returns (f: MetaFile)
    requires header > 0
    ensures fresh(f) && Fine(f, header) && Good(false, f.View()) && f.height == 1 && Ramp(f.tree, 99, 99)
  {
    hide Step, Holds, Walk, Frame, It, Clean;
    f := FirstLeaf(header, slot);
    var k, n := 1, 49;
    while k < 99 || n < 99
      invariant 0 < k <= 99 && n <= 99 && fresh(f) && Fine(f, header) && Good(false, f.View()) && f.height == 1 &&
                Ramp(f.tree, k, n)
      decreases 99 - k, 99 - n
    {
      RampClean(f.tree, k, n, slot);
      if n < 99 {
        RampGrows(f.View(), k, n);
        Enter(f, It(51 * k + n), slot, header);
        n := n + 1;
      } else {
        RampSplits(f.View(), k);
        Enter(f, It(51 * k + n), slot, header);
        k, n := k + 1, 49;
      }
    }
  }

  // ----- a split with a stale first child position

  /** A full root, with `n` more entries in front of the first leaf. */
  ghost predicate Slope(t: Tree, n: nat) {
    && n <= 49 && |t.entries| == 99 && |t.kids| == 100 && t.entries[0] == Item(150)
    && t.kids[0].entries == Items(100 - n, 50 + n)
  }

  lemma RampSlope(t: Tree)
    requires Ramp(t, 99, 99)
    ensures Slope(t, 0)
  {
    assert Run(0, 50) == Items(100, 50);
  }

  /** A name in front of all others goes to the front of the first leaf. */
  lemma SlopePlace(t: Tree, n: nat)
    requires Slope(t, n)
    ensures Locate(false, t.entries, Name(99 - n)) == Miss(0) &&
            Locate(false, t.kids[0].entries, Name(99 - n)) == Miss(0)
  {
    hide Name;
    NamesAscend(99 - n, 150);
    NamesAscend(99 - n, 100 - n);
    MissThere(t.entries, Name(99 - n), 0);
    MissThere(t.kids[0].entries, Name(99 - n), 0);
  }

  lemma SlopeGrows(s: State, n: nat)
    requires n < 49 && Good(false, s) && s.height == 1 && Slope(s.tree, n)
    ensures var s' := Step(false, s, Add(Item(99 - n), false)); s'.height == 1 && Slope(s'.tree, n + 1)
  {
    hide Name, Flat, Sorted;
    var t, e := s.tree, Item(99 - n);
    SlopePlace(t, n);
    LeafTakes(t.kids[0], e, 0, s.alloc);
    NodeTakes(t, 1, e, 0, s.alloc);
    var es := t.kids[0].entries;
    assert es[..0] + [e] + es[0..] == Items(99 - n, 51 + n);
    StepDone(s, e, t.(kids := t.kids[0 := t.kids[0].(entries := Items(99 - n, 51 + n))]), 0);
  }

  lemma SlopeClean(t: Tree, n: nat, slot: int)
    requires Shaped(t, 1) && Slope(t, n)
    ensures FullPath(false, t, 1, Name(99 - n)) <==> n == 49
    ensures Clean(false, t, 1, Name(99 - n), slot) <==> n < 49 || slot == t.kids[0].pos
  {
    hide Name;
    SlopePlace(t, n);
  }

  /** Names in ascending order fill the root and names in front of them the first leaf, with any content
      of the buffer slot; one more name in front splits the leaf and then the root, entered at index 0.
      The insertion is reported as done, but the pages hold the new tree only if slot 0 of the buffer,
      which nobody has written, happens to hold the position of the first page. */
  method StaleSplit(header: int, slot: int, first: int) returns (f: MetaFile, ret: int)
    requires header > 0
    ensures fresh(f) && ret == 0 && f.Framed() && (Holds(f.pages, f.tree) <==> first == header)
  {
    hide FullPath, Clean, Has, Insert, Holds, Frame, Walk, Name, Flat;
    f := Climb(header, slot);
    RampSlope(f.tree);
    var n := 0;
    while n < 49
      invariant n <= 49 && fresh(f) && Fine(f, header) && Good(false, f.View()) && f.height == 1 && Slope(f.tree, n)
    {
      SlopeClean(f.tree, n, slot);
      SlopeGrows(f.View(), n);
      Enter(f, Item(99 - n), slot, header);
      n := n + 1;
    }
    SlopeClean(f.tree, 49, first);
    SlopeFirst(f.tree);
    OverflowsWhen(false, f.tree, 1, Item(50), Alloc(f.gc, f.end), false);
    ret := f.AddEntry(Item(50), first, false);
  }

  lemma SlopeFirst(t: Tree)
    requires Shaped(t, 1) && Slope(t, 49)
    ensures Leftmost(t) == t.kids[0].pos
  {
  }

  // ----- a deletion that loses walk links

  /** A root with the one entry "2800"; the last leaf of its left side is `Items(2650, 50 + n)`, and the
      root is the first page of the walk list. */
  ghost predicate Ridge(s: State, n: nat) {
    && n <= 49 && s.height == 2 && s.tree.entries == [Item(2800)] && |s.tree.kids| == 2
    && s.walk != [] && s.walk[0] == s.tree.pos
    && Shoulder(s.tree.kids[0], n)
  }

  ghost predicate Shoulder(u: Tree, n: nat) {
    && n <= 49 && |u.entries| == 50 && |u.kids| == 51 && u.kids[50].entries == Items(2650, 50 + n)
    && (forall i :: 0 <= i < 50 ==> Lt(false, u.entries[i].name, Name(2650)))
  }

  /** One more name splits the full root in two. */
  lemma Peak(s: State)
    requires Good(false, s) && s.height == 1 && Ramp(s.tree, 99, 99)
    ensures Ridge(Step(false, s, Add(It(5148), false)), 0)
  {
    hide Name, Flat, Sorted, Number, It, Step, Insert, Ramp, Lt;
    var r := PeakSplits(s.tree, s.alloc);
    StepGrow(s, It(5148), r.left, r.median, r.right, 2);
  }

  lemma PeakSplits(t: Tree, a: Alloc) returns (r: Ins)
    requires Shaped(t, 1) && Ramp(t, 99, 99)
    ensures r == Insert(false, t, 1, It(5148), a, false) && r.Overflow? && r.taken == 2
    ensures Shoulder(r.left, 0) && r.median == Item(2800)
  {
    hide Name, Flat, Sorted, Number, It, Insert, Shoulder;
    RampPlace(t, 99, 99);
    RunSplit(t.kids[99], 5049, a);
    NodeTakes(t, 1, It(5148), 99, a);
    var k := Insert(false, t.kids[99], 0, It(5148), a, false);
    var g := Widen(t, 99, k.left, k.median, k.right);
    r := Insert(false, t, 1, It(5148), a, false);
    assert r == Split(t.pos, g.entries, g.kids, NewPage(After(a, 1)), 2);
    PeakLeft(t, g, r.left, r.median);
  }

  lemma PeakLeft(t: Tree, g: Tree, l: Tree, m: Entry)
    requires Ramp(t, 99, 99) && |g.entries| == 100 && |g.kids| == 101
    requires g.entries[..99] == t.entries && g.kids[..99] == t.kids[..99]
    requires l.entries == g.entries[..50] && l.kids == g.kids[..51] && m == g.entries[50]
    ensures Shoulder(l, 0) && m == Item(2800)
  {
    hide Name;
    assert m == t.entries[50] == It(2600);
    assert l.kids[50] == t.kids[50];
    assert Run(2550, 50) == Items(2650, 50);
    forall i | 0 <= i < 50 ensures Lt(false, l.entries[i].name, Name(2650)) {
      assert l.entries[i] == t.entries[i] == It(51 * i + 50);
      NamesAscend(Number(51 * i + 50), 2650);
    }
  }

  lemma RidgePlace(s: State, n: nat)
    requires Ridge(s, n)
    ensures Locate(false, s.tree.entries, Name(2700 + n)) == Miss(0)
    ensures Locate(false, s.tree.kids[0].entries, Name(2700 + n)) == Miss(50)
    ensures Locate(false, s.tree.kids[0].kids[50].entries, Name(2700 + n)) == Miss(50 + n)
  {
    hide Name;
    var u, name := s.tree.kids[0], Name(2700 + n);
    NamesAscend(2700 + n, 2800);
    MissThere(s.tree.entries, name, 0);
    NamesAscend(2650, 2700 + n);
    forall i | 0 <= i < 50 ensures Lt(false, u.entries[i].name, name) {
      OrderLaws(false, u.entries[i].name, Name(2650), name);
    }
    MissThere(u.entries, name, 50);
    forall i | 0 <= i < 50 + n ensures Lt(false, u.kids[50].entries[i].name, name) { NamesAscend(2650 + i, 2700 + n); }
    MissThere(u.kids[50].entries, name, 50 + n);
  }

  lemma RidgeClean(s: State, n: nat, slot: int)
    requires Good(false, s) && Ridge(s, n)
    ensures Clean(false, s.tree, 2, Name(2700 + n), slot)
  {
    hide Name, Flat, Sorted;
    RidgePlace(s, n);
  }

  lemma RidgeGrows(s: State, n: nat)
    requires Good(false, s) && Ridge(s, n) && n < 49
    ensures Ridge(Step(false, s, Add(Item(2700 + n), false)), n + 1)
  {
    hide Name, Flat, Sorted, Lt;
    var t, u, e := s.tree, s.tree.kids[0], Item(2700 + n);
    var z := u.kids[50];
    assert Shaped(u, 1) && Shaped(z, 0);
    RidgePlace(s, n);
    assert z.entries[..50 + n] + [e] + z.entries[50 + n..] == Items(2650, 51 + n);
    LeafTakes(z, e, 50 + n, s.alloc);
    NodeTakes(u, 1, e, 50, s.alloc);
    NodeTakes(t, 2, e, 0, s.alloc);
    var u' := u.(kids := u.kids[50 := z.(entries := Items(2650, 51 + n))]);
    StepDone(s, e, t.(kids := t.kids[0 := u']), 0);
  }

  /** The last leaf of the left side is `Items(2701, m)`, in the page linked in front of the root; its
      sibling is `Items(2650, c)`. */
  ghost predicate Valley(s: State, m: nat, c: nat) {
    && m <= 49 && c <= 50 && s.height == 2 && s.tree.entries == [Item(2800)] && |s.tree.kids| == 2
    && Floor(s.tree.kids[0], m, c)
    && |s.walk| > 1 && s.walk[0] == s.tree.kids[0].kids[51].pos && s.walk[1] == s.tree.pos
  }

  ghost predicate Floor(u: Tree, m: nat, c: nat) {
    && m <= 49 && c <= 50 && |u.entries| == 51 && |u.kids| == 52
    && (forall i :: 0 <= i < 50 ==> Lt(false, u.entries[i].name, Name(2650))) && u.entries[50] == Item(2700)
    && u.kids[50].entries == Items(2650, c) && u.kids[51].entries == Items(2701, m)
  }

  lemma ShoulderSplits(u: Tree, a: Alloc)
    requires Shaped(u, 1) && Shoulder(u, 49) && Locate(false, u.entries, Name(2749)) == Miss(50)
    requires Locate(false, u.kids[50].entries, Name(2749)) == Miss(99)
    ensures var r := Insert(false, u, 1, Item(2749), a, false);
            r.Done? && r.taken == 1 && Floor(r.tree, 49, 50) && r.tree.kids[51].pos == NewPage(a)
  {
    hide Name, Flat, Lt;
    var z, e, es := u.kids[50], Item(2749), Items(2650, 100);
    assert z.entries[..99] + [e] + z.entries[99..] == es;
    LeafTakes(z, e, 99, a);
    NodeTakes(u, 1, e, 50, a);
    assert es[..50] == Items(2650, 50) && es[51..] == Items(2701, 49) && es[50] == Item(2700);
  }

  lemma RidgeSplits(s: State)
    requires Good(false, s) && Ridge(s, 49)
    ensures Valley(Step(false, s, Add(Item(2749), false)), 49, 50)
  {
    hide Name, Flat, Sorted, Lt;
    var t, u, e := s.tree, s.tree.kids[0], Item(2749);
    RidgePlace(s, 49);
    ShoulderSplits(u, s.alloc);
    NodeTakes(t, 2, e, 0, s.alloc);
    var r := Insert(false, u, 1, e, s.alloc, false);
    StepDone(s, e, t.(kids := t.kids[0 := r.tree]), 1);
    assert Listed(s.alloc, 1, s.walk) == [NewPage(s.alloc)] + s.walk;
  }

  /** An entry is cut out of leaf `j` of the left side when nothing on the way needs rebalancing. */
  lemma CutBelow(s: State, name: string, j: nat, i: nat)
    requires Good(false, s) && s.height == 2 && |s.tree.entries| == 1 && Locate(false, s.tree.entries, name) == Miss(0)
    requires var u := s.tree.kids[0];
             && |u.entries| > MIN_ENTRIES && j < |u.kids| && Locate(false, u.entries, name) == Miss(j)
             && |u.kids[j].entries| > MIN_ENTRIES && Locate(false, u.kids[j].entries, name) == Hit(i)
    ensures var u := s.tree.kids[0];
            var z := u.kids[j].(entries := CutAt(u.kids[j].entries, i));
            Step(false, s, Remove(name)) == s.(tree := s.tree.(kids := s.tree.kids[0 := u.(kids := u.kids[j := z])]))
    ensures !LinksLost(false, s.tree, 2, name, s.walk)
  {
    hide Delete, Flat, Sorted, StaleLinks, LinksLost;
    var t := s.tree;
    var u := t.kids[0];
    var r1, stale1 := MissLevel(false, t, 2, name, true, s.walk);
    var r2, stale2 := MissLevel(false, u, 1, name, false, s.walk);
    LeafDeleted(false, u.kids[j], name, false, s.walk);
    WithoutNone(s.walk, []);
    KeptLost(false, t, 2, name, s.walk);
    KeptLost(false, u, 1, name, s.walk);
    LeafKept(false, u.kids[j], name, s.walk);
  }

  lemma ValleyPlace(s: State, m: nat, c: nat, i: nat)
    requires Valley(s, m, c) && i < c
    ensures Locate(false, s.tree.entries, Name(2650 + i)) == Miss(0)
    ensures Locate(false, s.tree.kids[0].entries, Name(2650 + i)) == Miss(50)
    ensures Locate(false, s.tree.kids[0].kids[50].entries, Name(2650 + i)) == Hit(i)
  {
    hide Name;
    var u, name := s.tree.kids[0], Name(2650 + i);
    NamesAscend(2650 + i, 2800);
    MissThere(s.tree.entries, name, 0);
    if i > 0 { NamesAscend(2650, 2650 + i); }
    forall k | 0 <= k < 50 ensures Lt(false, u.entries[k].name, name) {
      OrderLaws(false, u.entries[k].name, Name(2650), name);
    }
    NamesAscend(2650 + i, 2700);
    MissThere(u.entries, name, 50);
    forall k | 0 <= k < i ensures Lt(false, u.kids[50].entries[k].name, name) { NamesAscend(2650 + k, 2650 + i); }
    HitThere(u.kids[50].entries, name, i);
  }

  lemma ValleyLast(s: State, m: nat, c: nat, i: nat)
    requires Valley(s, m, c) && i < m
    ensures Locate(false, s.tree.entries, Name(2701 + i)) == Miss(0)
    ensures Locate(false, s.tree.kids[0].entries, Name(2701 + i)) == Miss(51)
    ensures Locate(false, s.tree.kids[0].kids[51].entries, Name(2701 + i)) == Hit(i)
  {
    hide Name;
    var u, name := s.tree.kids[0], Name(2701 + i);
    NamesAscend(2701 + i, 2800);
    MissThere(s.tree.entries, name, 0);
    NamesAscend(2650, 2701 + i);
    NamesAscend(2700, 2701 + i);
    forall k | 0 <= k < 51 ensures Lt(false, u.entries[k].name, name) {
      OrderLaws(false, u.entries[k].name, Name(2650), name);
    }
    MissThere(u.entries, name, 51);
    forall k | 0 <= k < i ensures Lt(false, u.kids[51].entries[k].name, name) { NamesAscend(2701 + k, 2701 + i); }
    HitThere(u.kids[51].entries, name, i);
  }

  lemma ValleySinks(s: State, m: nat, c: nat)
    requires Good(false, s) && Valley(s, m, c) && m > 30
    ensures !LinksLost(false, s.tree, 2, Name(2700 + m), s.walk) &&
            Valley(Step(false, s, Remove(Name(2700 + m))), m - 1, c)
  {
    hide Name, Flat, Sorted, Lt, LinksLost;
    ValleyLast(s, m, c, m - 1);
    CutBelow(s, Name(2700 + m), 51, m - 1);
    assert CutAt(Items(2701, m), m - 1) == Items(2701, m - 1);
  }

  lemma ValleyNarrows(s: State, m: nat, c: nat)
    requires Good(false, s) && Valley(s, m, c) && c > 31
    ensures !LinksLost(false, s.tree, 2, Name(2649 + c), s.walk) &&
            Valley(Step(false, s, Remove(Name(2649 + c))), m, c - 1)
  {
    hide Name, Flat, Sorted, Lt, LinksLost;
    ValleyPlace(s, m, c, c - 1);
    CutBelow(s, Name(2649 + c), 50, c - 1);
    assert CutAt(Items(2650, c), c - 1) == Items(2650, c - 1);
  }

  /** Deleting the root's entry takes its predecessor from the last leaf of the left side, merges that
      leaf away, and then writes the root back still pointing at it. */
  lemma RootLost(s: State)
    requires Good(false, s) && Valley(s, 30, 48)
    ensures Has(false, Flat(s.tree), Name(2800)) && LinksLost(false, s.tree, 2, Name(2800), s.walk)
  {
    hide Name, Lt;
    var t, u, w := s.tree, s.tree.kids[0], s.walk;
    var z := u.kids[51].pos;
    OrderLaws(false, Name(2800), Name(2800), Name(2800));
    HasInNode(false, t, Name(2800), 0);
    HitThere(t.entries, Name(2800), 0);
    KeptLost(false, t, 2, Name(2800), w);
    SpineStep(u, 1);
    assert SpineDrops(u, 1) == [z];
    assert w[1] == t.pos && At(w, 0) in [z];
    assert NeighbourDropped(w, t.pos, [z]);
  }

  /** One deletion that loses no links. */
  method Leave(f: MetaFile, name: string)
    requires f.Valid() && !f.external && Good(false, f.View()) && !LinksLost(false, f.tree, f.height, name, f.walk)
    modifies f
    ensures f.Valid() && Good(false, f.View()) && f.View() == Step(false, old(f.View()), Remove(name))
  {
    hide Step, Flat, Holds, Walk, Frame, LinksLost;
    StepIsMapStep(false, f.View(), Remove(name));
    var _ := Perform(f, Erase(name));
  }

  /** Names in ascending order make a tree of three levels; names behind the last leaf of its left side
      split that leaf, so that the new page is linked in front of the root. */
  method Ascend(header: int, slot: int) returns (f: MetaFile)
    requires header > 0
    ensures fresh(f) && f.Valid() && !f.external && Good(false, f.View()) && Valley(f.View(), 49, 50)
  {
    hide Clean, Holds, Frame, Walk, Name, Flat, Ramp, Ridge, Valley, Step;
    f := Climb(header, slot);
    RampClean(f.tree, 99, 99, slot);
    Peak(f.View());
    Enter(f, It(5148), slot, header);
    var n := 0;
    while n < 49
      invariant n <= 49 && fresh(f) && Fine(f, header) && Good(false, f.View()) && Ridge(f.View(), n)
    {
      RidgeHeight(f.View(), n);
      RidgeClean(f.View(), n, slot);
      RidgeGrows(f.View(), n);
      Enter(f, Item(2700 + n), slot, header);
      n := n + 1;
    }
    RidgeHeight(f.View(), 49);
    RidgeClean(f.View(), 49, slot);
    RidgeSplits(f.View());
    Enter(f, Item(2749), slot, header);
  }

  lemma RidgeHeight(s: State, n: nat)
    requires Ridge(s, n)
    ensures s.height == 2
  {
  }

  lemma ValleyHeight(s: State, m: nat, c: nat)
    requires Valley(s, m, c)
    ensures s.height == 2
  {
  }

  /** That page and its sibling lose entries until they can be merged; up to here the directory is sound.
      Then the root's entry is deleted: it goes and the pages hold the new tree, but the walk list is
      broken. */
  method StaleDelete(header: int, slot: int) returns (f: MetaFile, ret: int)
    requires header > 0
    ensures fresh(f) && ret == 0 && f.Stored() && !f.Walkable()
  {
    hide Has, LinksLost, Holds, Frame, Walk, Flat, Step, Deletable, Name, Valley;
    f := Ascend(header, slot);
    var m, c := 49, 50;
    while m > 30
      invariant 30 <= m <= 49 && fresh(f) && f.Valid() && Good(false, f.View()) && Valley(f.View(), m, c)
    {
      ValleyHeight(f.View(), m, c);
      ValleySinks(f.View(), m, c);
      Leave(f, Name(2700 + m));
      m := m - 1;
    }
    while c > 48
      invariant 48 <= c <= 50 && fresh(f) && f.Valid() && Good(false, f.View()) && Valley(f.View(), 30, c)
    {
      ValleyHeight(f.View(), 30, c);
      ValleyNarrows(f.View(), 30, c);
      Leave(f, Name(2649 + c));
      c := c - 1;
    }
    ValleyHeight(f.View(), 30, 48);
    RootLost(f.View());
    ret := f.RemoveEntry(Name(2800));
  }
}
