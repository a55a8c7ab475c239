/** The directory B-tree as a value: which page holds which entries and which pages hang below it.
    The paged file of `DirFile` is proved to store exactly such a tree. */
module DirTree {
  import opened DirNames

  const MAX_ENTRIES: nat := 99
  const MIN_ENTRIES: nat := 30

  /** `kids` is empty in a leaf; otherwise there is one more kid than there are entries. */
  datatype Tree = Tree(pos: int, entries: seq<Entry>, kids: seq<Tree>)

  /** The entries of a tree in search order. */
  function Flat(t: Tree): seq<Entry>
    decreases t, 1
  {
    Weave(t.entries, t.kids)
  }

  function Weave(es: seq<Entry>, ks: seq<Tree>): seq<Entry>
    decreases ks, 0
  {
    if ks == [] then es
    else if es == [] then Flat(ks[0])
    else Flat(ks[0]) + [es[0]] + Weave(es[1..], ks[1..])
  }

  /** How often page `p` occurs in a tree: once in a sound file, if at all. */
  ghost function Uses(t: Tree, p: int): nat
    decreases t, 1
  {
    (if t.pos == p then 1 else 0) + UsesOf(t.kids, p)
  }

  ghost function UsesOf(ks: seq<Tree>, p: int): nat
    decreases ks, 0
  {
    if ks == [] then 0 else Uses(ks[0], p) + UsesOf(ks[1..], p)
  }

  /** All leaves at depth `h`, one more kid than entries, and the occupancy limits of every page
      below the root. */
  ghost predicate Shaped(t: Tree, h: nat) {
    && |t.entries| <= MAX_ENTRIES
    && (h == 0 ==> t.kids == [])
    && (h > 0 ==>
          && |t.kids| == |t.entries| + 1
          && forall i :: 0 <= i < |t.kids| ==> Shaped(t.kids[i], h - 1) && |t.kids[i].entries| >= MIN_ENTRIES)
  }

  /** A whole directory tree: a root that is not a leaf has at least one entry. */
  ghost predicate WellFormed(x: bool, t: Tree, h: nat) {
    && Shaped(t, h)
    && (h > 0 ==> t.entries != [])
    && Sorted(x, Flat(t))
  }

  // ----- weaving entries and subtrees

  /** Every entry before kid `i`, and every entry after it. */
  function Front(es: seq<Entry>, ks: seq<Tree>, i: nat): seq<Entry>
    requires |ks| == |es| + 1 && i < |ks|
  {
    if i == 0 then [] else Weave(es[..i - 1], ks[..i]) + [es[i - 1]]
  }

  function Back(es: seq<Entry>, ks: seq<Tree>, i: nat): seq<Entry>
    requires |ks| == |es| + 1 && i < |ks|
  {
    if i == |es| then [] else [es[i]] + Weave(es[i + 1..], ks[i + 1..])
  }

  /** Joining two runs of subtrees around a separator joins their entries around it. */
  lemma {:induction false} WeaveJoin(e1: seq<Entry>, k1: seq<Tree>, m: Entry, e2: seq<Entry>, k2: seq<Tree>)
    requires (k1 == [] && k2 == []) || (|k1| == |e1| + 1 && |k2| == |e2| + 1)
    ensures Weave(e1 + [m] + e2, k1 + k2) == Weave(e1, k1) + [m] + Weave(e2, k2)
    decreases |e1|
  {
    var es, ks := e1 + [m] + e2, k1 + k2;
    if k1 != [] {
      assert ks[0] == k1[0];
      if e1 == [] {
        assert es[0] == m && es[1..] == e2 && ks[1..] == k2;
      } else {
        WeaveJoin(e1[1..], k1[1..], m, e2, k2);
        assert es[0] == e1[0] && es[1..] == e1[1..] + [m] + e2 && ks[1..] == k1[1..] + k2;
      }
    }
  }

  lemma WeaveCut(es: seq<Entry>, ks: seq<Tree>, i: nat)
    requires |ks| == |es| + 1 && i < |es|
    ensures Weave(es, ks) == Weave(es[..i], ks[..i + 1]) + [es[i]] + Weave(es[i + 1..], ks[i + 1..])
  {
    assert es == es[..i] + [es[i]] + es[i + 1..];
    assert ks == ks[..i + 1] + ks[i + 1..];
    WeaveJoin(es[..i], ks[..i + 1], es[i], es[i + 1..], ks[i + 1..]);
  }

  /** Cutting an inner page at entry `m` gives two pages of the same depth. */
  lemma CutInner(pos: int, es: seq<Entry>, ks: seq<Tree>, newPos: int, m: nat, h: nat)
    requires h > 0 && |ks| == |es| + 1 && m < |es| && m <= MAX_ENTRIES && |es| - m - 1 <= MAX_ENTRIES
    requires forall i :: 0 <= i < |ks| ==> Shaped(ks[i], h - 1) && |ks[i].entries| >= MIN_ENTRIES
    ensures var l, r := Tree(pos, es[..m], ks[..m + 1]), Tree(newPos, es[m + 1..], ks[m + 1..]);
            Shaped(l, h) && Shaped(r, h) && Flat(l) + [es[m]] + Flat(r) == Weave(es, ks)
  {
    hide Weave;
    WeaveCut(es, ks, m);
  }

  lemma WeaveHead(es: seq<Entry>, ks: seq<Tree>, i: nat)
    requires |ks| == |es| + 1 && i < |ks|
    ensures Weave(es[i..], ks[i..]) == Flat(ks[i]) + Back(es, ks, i)
  {
    var e2, k2 := es[i..], ks[i..];
    assert k2[0] == ks[i];
    if i < |es| {
      assert e2[0] == es[i] && e2[1..] == es[i + 1..] && k2[1..] == ks[i + 1..];
    }
  }

  lemma WeaveAround(es: seq<Entry>, ks: seq<Tree>, i: nat)
    requires |ks| == |es| + 1 && i < |ks|
    ensures Weave(es, ks) == Front(es, ks, i) + Flat(ks[i]) + Back(es, ks, i)
  {
    WeaveHead(es, ks, i);
    if i == 0 {
      assert es[0..] == es && ks[0..] == ks;
    } else {
      WeaveCut(es, ks, i - 1);
      var w, w2 := Weave(es[..i - 1], ks[..i]), Weave(es[i..], ks[i..]);
      assert Weave(es, ks) == w + [es[i - 1]] + w2;
      Assoc(w + [es[i - 1]], Flat(ks[i]), Back(es, ks, i));
    }
  }

  lemma Assoc<T>(a: seq<T>, b: seq<T>, c: seq<T>)
    ensures a + (b + c) == a + b + c
  {
  }

  /** Entry `i` sits between the entries of kid `i` and the rest. */
  lemma WeaveAtEntry(es: seq<Entry>, ks: seq<Tree>, i: nat)
    requires |ks| == |es| + 1 && i < |es|
    ensures Weave(es, ks) ==
            Front(es, ks, i) + Flat(ks[i]) + [es[i]] + Weave(es[i + 1..], ks[i + 1..])
  {
    WeaveAround(es, ks, i);
  }

  /** Putting another subtree in place of kid `i` replaces just its entries. */
  lemma WeaveReplace(es: seq<Entry>, ks: seq<Tree>, i: nat, k: Tree)
    requires |ks| == |es| + 1 && i < |ks|
    ensures Weave(es, ks[i := k]) == Front(es, ks, i) + Flat(k) + Back(es, ks, i)
  {
    var ks' := ks[i := k];
    WeaveAround(es, ks', i);
    assert ks'[..i] == ks[..i];
    if i < |es| { assert ks'[i + 1..] == ks[i + 1..]; }
  }

  /** Splitting kid `i` in two around a new separator. */
  lemma WeaveSplit(es: seq<Entry>, ks: seq<Tree>, i: nat, l: Tree, m: Entry, r: Tree)
    requires |ks| == |es| + 1 && i < |ks|
    ensures Weave(es[..i] + [m] + es[i..], ks[..i] + [l, r] + ks[i + 1..]) ==
            Front(es, ks, i) + (Flat(l) + [m] + Flat(r)) + Back(es, ks, i)
  {
    hide Weave, Flat;
    var es', ks' := es[..i] + [m] + es[i..], ks[..i] + [l, r] + ks[i + 1..];
    WeaveAround(es', ks', i);
    assert ks'[..i] == ks[..i] && es'[..i] == es[..i];
    assert Front(es', ks', i) == Front(es, ks, i) by {
      if i > 0 { assert es'[..i - 1] == es'[..i][..i - 1] == es[..i][..i - 1] == es[..i - 1]; }
    }
    assert es'[i + 1..] == es[i..] && ks'[i + 1..] == [r] + ks[i + 1..];
    WeaveReplace0(es, ks, i, r);
    Regroup(Front(es, ks, i), Flat(l), m, Flat(r), Back(es, ks, i));
  }

  lemma Regroup(a: seq<Entry>, b: seq<Entry>, m: Entry, c: seq<Entry>, d: seq<Entry>)
    ensures a + b + ([m] + (c + d)) == a + (b + [m] + c) + d
  {
  }

  lemma WeaveReplace0(es: seq<Entry>, ks: seq<Tree>, i: nat, r: Tree)
    requires |ks| == |es| + 1 && i < |ks|
    ensures Weave(es[i..], [r] + ks[i + 1..]) == Flat(r) + Back(es, ks, i)
  {
    var ks' := ks[i := r];
    WeaveHead(es, ks', i);
    assert ks'[i..] == [r] + ks[i + 1..];
    if i < |es| { assert ks'[i + 1..] == ks[i + 1..]; }
  }

  /** Merging kids `i` and `i + 1` with the separator between them. */
  lemma WeaveMerge(es: seq<Entry>, ks: seq<Tree>, i: nat, k: Tree)
    requires |ks| == |es| + 1 && i < |es|
    requires Flat(k) == Flat(ks[i]) + [es[i]] + Flat(ks[i + 1])
    ensures Weave(es[..i] + es[i + 1..], ks[..i] + [k] + ks[i + 2..]) == Weave(es, ks)
  {
    hide Weave, Flat, Front, Back;
    var es', ks' := es[..i] + es[i + 1..], ks[..i] + [k] + ks[i + 2..];
    assert es'[..i] + [es[i]] + es'[i..] == es;
    assert ks'[..i] + [ks[i], ks[i + 1]] + ks'[i + 1..] == ks;
    WeaveSplit(es', ks', i, ks[i], es[i], ks[i + 1]);
    WeaveAround(es', ks', i);
  }

  // ----- pages

  function Times(s: seq<int>, p: int): nat {
    if s == [] then 0 else (if s[0] == p then 1 else 0) + Times(s[1..], p)
  }

  lemma {:induction false} TimesJoin(a: seq<int>, b: seq<int>, p: int)
    ensures Times(a + b, p) == Times(a, p) + Times(b, p)
  {
    if a == [] {
      assert a + b == b;
    } else {
      TimesJoin(a[1..], b, p);
      assert (a + b)[0] == a[0] && (a + b)[1..] == a[1..] + b;
    }
  }

  lemma TimesOne(q: int, p: int)
    ensures Times([q], p) == if p == q then 1 else 0
  {
    assert Times([q], p) == (if q == p then 1 else 0) + Times([q][1..], p);
  }

  lemma {:induction false} UsesJoin(a: seq<Tree>, b: seq<Tree>, p: int)
    ensures UsesOf(a + b, p) == UsesOf(a, p) + UsesOf(b, p)
  {
    if a == [] {
      assert a + b == b;
    } else {
      UsesJoin(a[1..], b, p);
      assert (a + b)[0] == a[0] && (a + b)[1..] == a[1..] + b;
    }
  }

  lemma UsesPair(l: Tree, r: Tree, p: int)
    ensures UsesOf([l, r], p) == Uses(l, p) + Uses(r, p)
  {
    assert [l, r][1..] == [r];
    assert UsesOf([r], p) == Uses(r, p) + UsesOf([r][1..], p);
  }

  lemma UsesAround(ks: seq<Tree>, i: nat, p: int)
    requires i < |ks|
    ensures UsesOf(ks, p) == UsesOf(ks[..i], p) + Uses(ks[i], p) + UsesOf(ks[i + 1..], p)
  {
    assert ks == ks[..i] + ks[i..];
    UsesJoin(ks[..i], ks[i..], p);
    assert ks[i..][1..] == ks[i + 1..];
  }

  lemma UsesSplit(ks: seq<Tree>, i: nat, l: Tree, r: Tree, p: int)
    requires i < |ks|
    ensures UsesOf(ks[..i] + [l, r] + ks[i + 1..], p) + Uses(ks[i], p) == UsesOf(ks, p) + Uses(l, p) + Uses(r, p)
  {
    UsesAround(ks, i, p);
    UsesJoin(ks[..i] + [l, r], ks[i + 1..], p);
    UsesJoin(ks[..i], [l, r], p);
    UsesPair(l, r, p);
  }

  lemma UsesReplace(ks: seq<Tree>, i: nat, k: Tree, p: int)
    requires i < |ks|
    ensures UsesOf(ks[i := k], p) + Uses(ks[i], p) == UsesOf(ks, p) + Uses(k, p)
  {
    UsesAround(ks, i, p);
    UsesAround(ks[i := k], i, p);
    assert ks[i := k][..i] == ks[..i] && ks[i := k][i + 1..] == ks[i + 1..];
  }

  /** Where a name lies relative to the kids when the whole tree is sorted. */
  lemma DescendSplits(x: bool, t: Tree, name: string)
    requires |t.kids| == |t.entries| + 1 && Sorted(x, Flat(t))
    ensures Sorted(x, t.entries)
    ensures forall i :: 0 <= i < |t.kids| ==> Sorted(x, Flat(t.kids[i]))
    ensures var p := Locate(x, t.entries, name);
            && (p.Miss? ==> Below(x, Front(t.entries, t.kids, p.at), name))
            && (p.Miss? ==> Above(x, Back(t.entries, t.kids, p.at), name))
  {
    var es, ks := t.entries, t.kids;
    forall i | 0 <= i < |ks| ensures Sorted(x, Flat(ks[i])) {
      WeaveAround(es, ks, i);
      SortedParts(x, Front(es, ks, i) + Flat(ks[i]), Back(es, ks, i));
      SortedParts(x, Front(es, ks, i), Flat(ks[i]));
    }
    EntriesSorted(x, es, ks);
    LocateSplits(x, es, name);
    var p := Locate(x, es, name);
    if p.Miss? { MissSides(x, es, ks, name, p.at); }
  }

  lemma {:induction false} EntriesSorted(x: bool, es: seq<Entry>, ks: seq<Tree>)
    requires |ks| == |es| + 1 && Sorted(x, Weave(es, ks))
    ensures Sorted(x, es)
    decreases |es|
  {
    forall i, j | 0 <= i < j < |es| ensures Lt(x, es[i].name, es[j].name) {
      WeaveCut(es, ks, j);
      var w := Weave(es, ks);
      var a := Weave(es[..j], ks[..j + 1]);
      WeaveCut(es[..j], ks[..j + 1], i);
      var b := Weave(es[..j][..i], ks[..j + 1][..i + 1]);
      assert w[|b|] == es[i] && w[|a|] == es[j];
    }
  }

  lemma MissSides(x: bool, es: seq<Entry>, ks: seq<Tree>, name: string, s: nat)
    requires |ks| == |es| + 1 && Sorted(x, Weave(es, ks)) && s <= |es|
    requires Below(x, es[..s], name) && Above(x, es[s..], name)
    ensures Below(x, Front(es, ks, s), name) && Above(x, Back(es, ks, s), name)
  {
    WeaveAround(es, ks, s);
    var f, b, w := Front(es, ks, s), Back(es, ks, s), Weave(es, ks);
    forall i | 0 <= i < |f| ensures Lt(x, f[i].name, name) {
      assert es[..s][s - 1] == es[s - 1] && f[|f| - 1] == es[s - 1];
      assert i < |f| - 1 ==> Lt(x, w[i].name, w[|f| - 1].name);
      OrderLaws(x, f[i].name, es[s - 1].name, name);
    }
    forall i | 0 <= i < |b| ensures Lt(x, name, b[i].name) {
      assert es[s..][0] == es[s] && b[0] == es[s];
      var o := |w| - |b|;
      assert w[o + i] == b[i] && w[o] == b[0];
      OrderLaws(x, name, es[s].name, b[i].name);
    }
  }
}
