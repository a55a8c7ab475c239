/** Walking the tree-walk list visits every entry of the directory exactly once. */
module DirListing {
  import opened DirNames
  import opened DirTree
  import opened DirInsert
  import opened DirPages

  /** The entries of the pages `w`, page after page. */
  function Gather(d: Disk, w: seq<int>): seq<Entry>
    requires forall i :: 0 <= i < |w| ==> w[i] in d
  {
    if w == [] then [] else d[w[0]].entries + Gather(d, w[1..])
  }

  lemma {:induction false} GatherJoin(d: Disk, a: seq<int>, b: seq<int>)
    requires (forall i :: 0 <= i < |a| ==> a[i] in d) && (forall i :: 0 <= i < |b| ==> b[i] in d)
    ensures Gather(d, a + b) == Gather(d, a) + Gather(d, b)
  {
    if a == [] {
      assert a + b == b;
    } else {
      GatherJoin(d, a[1..], b);
      assert (a + b)[0] == a[0] && (a + b)[1..] == a[1..] + b;
    }
  }

  /** The pages of a tree, parents first. */
  function PageSeq(t: Tree): seq<int>
    decreases t, 1
  {
    [t.pos] + PageSeqOf(t.kids)
  }

  function PageSeqOf(ks: seq<Tree>): seq<int>
    decreases ks, 0
  {
    if ks == [] then [] else PageSeq(ks[0]) + PageSeqOf(ks[1..])
  }

  lemma {:induction false} PageSeqUses(t: Tree, p: int)
    ensures Times(PageSeq(t), p) == Uses(t, p)
    decreases t, 1
  {
    TimesJoin([t.pos], PageSeqOf(t.kids), p);
    TimesOne(t.pos, p);
    PageSeqOfUses(t.kids, p);
  }

  lemma {:induction false} PageSeqOfUses(ks: seq<Tree>, p: int)
    ensures Times(PageSeqOf(ks), p) == UsesOf(ks, p)
    decreases ks, 0
  {
    if ks != [] {
      PageSeqUses(ks[0], p);
      PageSeqOfUses(ks[1..], p);
      TimesJoin(PageSeq(ks[0]), PageSeqOf(ks[1..]), p);
    }
  }

  function Count(es: seq<Entry>, e: Entry): nat {
    multiset(es)[e]
  }

  /** The pages of a held tree carry exactly the entries of the tree. */
  lemma {:induction false} HeldEntries(d: Disk, t: Tree, h: nat, e: Entry)
    requires Holds(d, t) && Shaped(t, h)
    ensures forall i :: 0 <= i < |PageSeq(t)| ==> PageSeq(t)[i] in d
    ensures Count(Gather(d, PageSeq(t)), e) == Count(Flat(t), e)
    decreases t, 1
  {
    HeldEntriesOf(d, t.entries, t.kids, h, e);
    GatherJoin(d, [t.pos], PageSeqOf(t.kids));
    assert Gather(d, [t.pos]) == d[t.pos].entries + Gather(d, [t.pos][1..]);
  }

  lemma {:induction false} HeldEntriesOf(d: Disk, es: seq<Entry>, ks: seq<Tree>, h: nat, e: Entry)
    requires (forall i :: 0 <= i < |ks| ==> h > 0 && Holds(d, ks[i]) && Shaped(ks[i], h - 1))
    requires ks == [] || |ks| == |es| + 1
    ensures forall i :: 0 <= i < |PageSeqOf(ks)| ==> PageSeqOf(ks)[i] in d
    ensures Count(Gather(d, PageSeqOf(ks)), e) + Count(es, e) == Count(Weave(es, ks), e)
    decreases ks, 0
  {
    hide Count, Holds, Shaped;
    CountNone(e);
    if ks != [] {
      HeldEntries(d, ks[0], h - 1, e);
      var a, k := PageSeq(ks[0]), Flat(ks[0]);
      if es == [] {
        assert ks[1..] == [] && PageSeqOf(ks) == a + [] == a;
      } else {
        HeldEntriesOf(d, es[1..], ks[1..], h, e);
        GatherJoin(d, a, PageSeqOf(ks[1..]));
        CountJoin(Gather(d, a), Gather(d, PageSeqOf(ks[1..])), e);
        CountJoin([es[0]], es[1..], e);
        assert es == [es[0]] + es[1..];
        CountJoin(k + [es[0]], Weave(es[1..], ks[1..]), e);
        CountJoin(k, [es[0]], e);
      }
    }
  }

  lemma CountJoin(a: seq<Entry>, b: seq<Entry>, e: Entry)
    ensures Count(a + b, e) == Count(a, e) + Count(b, e)
  {
  }

  lemma CountNone(e: Entry)
    ensures Count([], e) == 0
  {
  }

  lemma HeadCounts(b: seq<int>)
    requires b != []
    ensures Times(b, b[0]) > 0
  {
  }

  lemma WalkNonZero(d: Disk, head: int, w: seq<int>, k: nat)
    requires Walk(d, head, w) && k < |w|
    ensures At(w, k) != 0
  {
    assert Linked(d, w, k);
  }

  /** Gathering depends on which pages are visited, not on their order. */
  lemma {:induction false} GatherPermuted(d: Disk, a: seq<int>, b: seq<int>, e: Entry)
    requires (forall i :: 0 <= i < |a| ==> a[i] in d) && (forall i :: 0 <= i < |b| ==> b[i] in d)
    requires forall p :: Times(a, p) == Times(b, p)
    ensures Count(Gather(d, a), e) == Count(Gather(d, b), e)
    decreases |a|
  {
    hide Count;
    if a == [] {
      forall p ensures Times(b, p) == 0 { assert Times(a, p) == Times(b, p); }
      if b != [] { HeadCounts(b); }
    } else {
      assert Times(a, a[0]) > 0;
      TimesSome(b, a[0]);
      var k :| 0 <= k < |b| && b[k] == a[0];
      var b1, b2 := b[..k], b[k + 1..];
      assert b == b1 + ([a[0]] + b2);
      GatherJoin(d, b1, [a[0]] + b2);
      GatherJoin(d, [a[0]], b2);
      GatherJoin(d, b1, b2);
      GatherJoin(d, [a[0]], a[1..]);
      assert a == [a[0]] + a[1..];
      forall p ensures Times(a[1..], p) == Times(b1 + b2, p) {
        TimesJoin(b1, [a[0]] + b2, p);
        TimesJoin([a[0]], b2, p);
        TimesJoin(b1, b2, p);
        TimesJoin([a[0]], a[1..], p);
        assert Times(a, p) == Times(b, p);
      }
      GatherPermuted(d, a[1..], b1 + b2, e);
      var x, y, z := Gather(d, b1), Gather(d, [a[0]]), Gather(d, b2);
      CountJoin(x, y + z, e);
      CountJoin(y, z, e);
      CountJoin(x, z, e);
      CountJoin(y, Gather(d, a[1..]), e);
    }
  }

  lemma {:induction false} DistinctTimes(w: seq<int>, p: int)
    requires Distinct(w)
    ensures Times(w, p) == if p in w then 1 else 0
  {
    if w != [] {
      var u := w[1..];
      assert forall i :: 0 <= i < |u| ==> u[i] == w[i + 1];
      DistinctTimes(u, p);
      assert w == [w[0]] + u;
      assert w[0] !in u;
    }
  }

  /** Walking the list yields each entry of the directory as often as it is there: once. */
  lemma WalkListsAll(d: Disk, t: Tree, h: nat, w: seq<int>)
    requires Holds(d, t) && Shaped(t, h) && Distinct(w) && (forall i :: 0 <= i < |w| ==> w[i] in d)
    requires forall p :: Uses(t, p) == if p in w then 1 else 0
    ensures multiset(Gather(d, w)) == multiset(Flat(t))
  {
    forall e ensures multiset(Gather(d, w))[e] == multiset(Flat(t))[e] {
      HeldEntries(d, t, h, e);
      forall p ensures Times(w, p) == Times(PageSeq(t), p) {
        DistinctTimes(w, p);
        PageSeqUses(t, p);
      }
      GatherPermuted(d, w, PageSeq(t), e);
      assert Count(Gather(d, w), e) == Count(Flat(t), e);
    }
  }

  lemma GatherNext(d: Disk, w: seq<int>, k: nat)
    requires k < |w| && forall i :: 0 <= i < |w| ==> w[i] in d
    ensures Gather(d, w[..k + 1]) == Gather(d, w[..k]) + d[w[k]].entries
  {
    assert w[..k + 1] == w[..k] + [w[k]];
    GatherJoin(d, w[..k], [w[k]]);
    assert Gather(d, [w[k]]) == d[w[k]].entries + Gather(d, [w[k]][1..]);
  }

  /** The inner loop of the listing: the entries of one page go to the end of the buffer. */
  method CopyEntries(buf0: seq<Entry>, entries: seq<Entry>) returns (buf: seq<Entry>, copied: nat)
    ensures buf == buf0 + entries && copied == |entries|
  {
    buf, copied := buf0, 0;
    for count := 0 to |entries|
      invariant buf == buf0 + entries[..count] && copied == count
    {
      buf := buf + [entries[count]];
      copied := copied + 1;
    }
    assert entries[..|entries|] == entries;
  }

  lemma WalkCounts(d: Disk, head: int, t: Tree, h: nat, w: seq<int>)
    requires Holds(d, t) && Shaped(t, h) && Distinct(w) && Walk(d, head, w)
    requires forall p :: Uses(t, p) == if p in w then 1 else 0
    ensures forall i :: 0 <= i < |w| ==> w[i] in d
    ensures multiset(Gather(d, w)) == multiset(Flat(t)) && |Gather(d, w)| == |Flat(t)|
  {
    forall i | 0 <= i < |w| ensures w[i] in d { assert Linked(d, w, i); }
    WalkListsAll(d, t, h, w);
    assert |multiset(Gather(d, w))| == |Gather(d, w)| && |multiset(Flat(t))| == |Flat(t)|;
  }

  lemma WalkStep(d: Disk, head: int, w: seq<int>, k: nat)
    requires Walk(d, head, w) && k <= |w| && At(w, k) != 0 && forall i :: 0 <= i < |w| ==> w[i] in d
    ensures k < |w| && At(w, k) in d && d[At(w, k)].walkNext == At(w, k + 1)
    ensures Gather(d, w[..k + 1]) == Gather(d, w[..k]) + d[At(w, k)].entries
  {
    assert Linked(d, w, k);
    GatherNext(d, w, k);
  }

  lemma WalkEnd(d: Disk, head: int, w: seq<int>, k: nat)
    requires Walk(d, head, w) && k <= |w| && At(w, k) == 0
    ensures k == |w| && w[..k] == w
  {
    if k < |w| { WalkNonZero(d, head, w, k); }
  }
}
