/** A run of the alias group in which a request turns around a missing child. */
module AliasWitness {
  import opened AvlTree
  import opened AliasNodes
  import opened AliasBook
  import opened AliasWorld
  import opened AliasGroup
  import opened AliasHistory
  import AliasName
  import AvlWitness

  // ----- what the trees say about the numbers

  lemma NewReal(w: World, h: Heap, issued: nat, n: int)
    requires AliasWorld.Good(w, h, issued) && !HasKey(Items(w.reals), n)
    ensures forall q :: q in w.family && q in h ==> h[q].ino != n
  {
    TreesApart(w, h, issued);
    forall q | q in w.family && q in h ensures h[q].ino != n { IdsAreItems(h, BY_INO, w.reals, q); }
  }

  lemma OldReal(w: World, h: Heap, issued: nat, n: int)
    requires AliasWorld.Good(w, h, issued) && HasKey(Items(w.reals), n)
    ensures KnownReal(View(BookOf(w), h, issued), n)
  {
    var i :| 0 <= i < |Items(w.reals)| && Items(w.reals)[i].key == n;
    var p := Items(w.reals)[i].id;
    assert Item(p, n) in Items(w.reals);
    IdsAreItems(h, BY_INO, w.reals, p);
    RealKnown(BookOf(w), h, issued, n);
  }

  /** A number of an alias in use is not that of one out of use. */
  lemma NotShelved(w: World, h: Heap, issued: nat, x: Alias)
    requires AliasWorld.Good(w, h, issued) && x in View(BookOf(w), h, issued).active
    ensures !HasKey(Items(w.unused), x.ino)
  {
    var s := View(BookOf(w), h, issued);
    ViewSane(BookOf(w), h, issued);
    forall q | q in Ids(w.unused) && q in h ensures KeyOf(h[q], BY_INO) != x.ino {
      TidyOwned(BookOf(w), h, issued);
      assert AliasAt(h, q) in s.removed;
    }
    NoNumber(h, BY_INO, w.unused, x.ino);
  }

  /** With at most one alias in use, the tree of those in use admits every number. */
  lemma FewActive(w: World, h: Heap, issued: nat, x: Alias, n: int)
    requires AliasWorld.Good(w, h, issued) && View(BookOf(w), h, issued).active <= {x}
    ensures Admits(w.order, n)
  {
    var t := w.order;
    if t.Node? {
      SearchApart(h, BY_INO, t);
      if t.left.Node? { SameActive(w, h, issued, x, t.id, t.left.id); }
      if t.right.Node? { SameActive(w, h, issued, x, t.id, t.right.id); }
    }
  }

  lemma SameActive(w: World, h: Heap, issued: nat, x: Alias, a: int, b: int)
    requires AliasWorld.Good(w, h, issued) && View(BookOf(w), h, issued).active <= {x} && a in Ids(w.order) &&
             b in Ids(w.order)
    ensures a == b
  {
    var s := View(BookOf(w), h, issued);
    TidyOwned(BookOf(w), h, issued);
    assert AliasAt(h, a) in s.active && AliasAt(h, b) in s.active;
    assert SameNumber(h, a, b);
  }

  // ----- the run

  /** A first alias of a new real inode: it goes through if the inode's number can be inserted. */
  method Meet(g: Aliases, n: int, ghost id: int, ghost t: Tree, ghost x: Alias)
    returns (ok: bool, ino: int, ghost y: Alias)
    requires g.Valid() && Alike(g.w.reals, t) && n <= MIN_ALIAS && !HasKey(Items(t), n)
    requires g.Now().active <= {x}
    modifies g, g.mem
    ensures ok == Insert(t, id, n).Ok?
    ensures ok ==> g.Valid() && Alike(g.w.reals, Insert(t, id, n).tree) && g.w.unused == old(g.w.unused)
    ensures ok ==> y.ino == ino && g.Now().active == old(g.Now().active) + {y} && ino > MIN_ALIAS
  {
    hide SeekFits, Tidy, Held;
    var name: AliasName.Name := [97];
    ghost var bits := AliasName.Bitmap(name);
    AlikeKeys(g.w.reals, t, n);
    NewReal(g.w, g.mem.heap, g.issued, n);
    SeekNew(g.w, g.mem.heap, g.issued, n, bits);
    NewHasNone(g.Now(), n, bits, bits);
    FewActive(g.w, g.mem.heap, g.issued, x, MIN_ALIAS + g.issued + 1);
    AlikeInsert(g.w.reals, t, 0, id, n);
    AlikeInsert(g.w.reals, t, g.top, id, n);
    ok, ino := g.SeekAndAdd(n, name, name);
    y := Alias(ino, n, bits);
  }

  /** The alias goes out of use again. */
  method Part(g: Aliases, ino: int, ghost t: Tree, ghost y: Alias)
    requires g.Valid() && Alike(g.w.reals, t) && g.Now().active == {y} && y.ino == ino > MIN_ALIAS &&
             Balanced(g.w.unused)
    modifies g, g.mem
    ensures g.Valid() && Alike(g.w.reals, t) && g.Now().active == {} && Balanced(g.w.unused)
  {
    NotShelved(g.w, g.mem.heap, g.issued, y);
    BalancedAdmits(g.w.unused, ino);
    var ok, rc := g.Delete(ino);
  }

  /** A real inode goes. */
  method Lose(g: Aliases, n: int, ghost t: Tree)
    requires g.Valid() && Alike(g.w.reals, t) && n <= MIN_ALIAS && HasKey(Items(t), n) && Exact(t)
    modifies g, g.mem
    ensures g.Valid() && Alike(g.w.reals, AvlTree.Delete(t, n)) && g.Now().active <= old(g.Now().active)
  {
    hide Tidy;
    AlikeKeys(g.w.reals, t, n);
    OldReal(g.w, g.mem.heap, g.issued, n);
    AlikeDelete(g.w.reals, t, n);
    var ok, rc := g.Delete(n);
  }

  /** Any balanced tree of real inodes comes about; of each of them one alias was in use for a while. */
  method Populate(t: Tree) returns (g: Aliases)
    requires Balanced(t) && AvlWitness.Good(t) && AvlWitness.Under(t, MIN_ALIAS)
    ensures fresh(g) && fresh(g.mem) && g.Valid() && Alike(g.w.reals, t) && g.Now().active == {} && Balanced(g.w.unused)
    decreases |Items(t)|
  {
    hide Tidy, Held, AvlWitness.Under, AvlWitness.Trimmed, AvlWitness.Last;
    if t.Nil? {
      g := new Aliases();
      return;
    }
    var u, m := AvlWitness.Trimmed(t), AvlWitness.Last(t);
    AvlWitness.TrimmedBack(t);
    AvlWitness.TrimmedItems(t);
    AvlWitness.DroppedLength(Items(t), m);
    DroppedSorted(Items(t), m.key);
    AvlWitness.TrimmedUnder(t, MIN_ALIAS);
    g := Populate(u);
    ghost var y;
    var ok, ino;
    ok, ino, y := Meet(g, m.key, m.id, u, Alias(0, 0, []));
    Part(g, ino, t, y);
  }

  lemma Taken(t: Tree, n: int, t': Tree)
    requires AvlWitness.Leads(t, AvlWitness.Take(n), t')
    ensures Exact(t) && AvlTree.Delete(t, n) == t'
  {
  }

  lemma Entered(t: Tree, n: int, t': Tree)
    requires AvlWitness.Leads(t, AvlWitness.Put(Item(n, n)), t') && !HasKey(Items(t), n)
    ensures Insert(t, n, n) == Ok(t')
  {
  }

  /** `k + 3` and `k + 13` go, `k + 2` and `k + 14` come. */
  method Exchange(g: Aliases, k: int)
    requires k + 24 <= MIN_ALIAS && g.Valid() && Alike(g.w.reals, AvlWitness.Start(k)) && g.Now().active == {}
    modifies g, g.mem
    ensures g.Valid() && Alike(g.w.reals, AvlWitness.Fourth(k))
  {
    hide Tidy, Held, Insert, HasKey, Items, AvlWitness.Leads, AvlWitness.Start, AvlWitness.First, AvlWitness.Second,
         AvlWitness.Third, AvlWitness.Fourth, Alike;
    ghost var x, y;
    var ok, ino;
    AvlWitness.Present(k);
    AvlWitness.Lead1(k);
    Taken(AvlWitness.Start(k), k + 3, AvlWitness.First(k));
    Lose(g, k + 3, AvlWitness.Start(k));
    AvlWitness.LedTo(AvlWitness.Start(k), AvlWitness.Take(k + 3), AvlWitness.First(k));
    AvlWitness.Lead2(k);
    Entered(AvlWitness.First(k), k + 2, AvlWitness.Second(k));
    ok, ino, x := Meet(g, k + 2, k + 2, AvlWitness.First(k), Alias(0, 0, []));
    AvlWitness.LedTo(AvlWitness.First(k), AvlWitness.Put(Item(k + 2, k + 2)), AvlWitness.Second(k));
    AvlWitness.Lead3(k);
    Taken(AvlWitness.Second(k), k + 13, AvlWitness.Third(k));
    Lose(g, k + 13, AvlWitness.Second(k));
    AvlWitness.LedTo(AvlWitness.Second(k), AvlWitness.Take(k + 13), AvlWitness.Third(k));
    AvlWitness.Lead4(k);
    Entered(AvlWitness.Third(k), k + 14, AvlWitness.Fourth(k));
    ok, ino, y := Meet(g, k + 14, k + 14, AvlWitness.Third(k), x);
  }

  lemma FourthGood(k: int)
    ensures AvlWitness.Good(AvlWitness.Fourth(k))
  {
    hide AvlWitness.Start, AvlWitness.First, AvlWitness.Second, AvlWitness.Third, AvlWitness.Fourth, AvlWitness.Step,
         AvlWitness.Good;
    AvlWitness.Lead1(k);
    AvlWitness.Lead2(k);
    AvlWitness.Lead3(k);
    AvlWitness.Lead4(k);
  }

  lemma StuckThere(t: Tree, n: int)
    requires AvlWitness.Good(t) && AvlWitness.Step(t, AvlWitness.Put(Item(n, n))) == Stuck && !HasKey(Items(t), n)
    ensures Insert(t, n, n) == Stuck
  {
  }

  /** No alias of the inode can be asked for, whatever its spelling. */
  ghost predicate Barred(w: World, h: Heap, issued: nat, n: int)
    requires AliasWorld.Good(w, h, issued)
  {
    forall bits :: !SeekFits(w, h, issued, n, bits)
  }

  lemma NoneFits(w: World, h: Heap, issued: nat, n: int, t: Tree)
    requires AliasWorld.Good(w, h, issued) && Alike(w.reals, t) && !HasKey(Items(t), n) && Insert(t, n, n) == Stuck
    ensures Barred(w, h, issued, n)
  {
    hide Tidy, Held, SeekFits, Insert, Alike;
    AlikeKeys(w.reals, t, n);
    NewReal(w, h, issued, n);
    AlikeInsert(w.reals, t, 0, n, n);
    forall bits ensures !SeekFits(w, h, issued, n, bits) { SeekNew(w, h, issued, n, bits); }
  }

  /** Real inodes come and go as in `AvlWitness.Tail`, and leave a group in which `k + 8` can have
      no alias. */
  method StuckGroup(k: int) returns (g: Aliases)
    requires k + 24 <= MIN_ALIAS
    ensures fresh(g) && fresh(g.mem) && g.Valid() && Barred(g.w, g.mem.heap, g.issued, k + 8)
  {
    hide Tidy, Held, Insert, HasKey, Items, AvlWitness.Leads, AvlWitness.Start, AvlWitness.Fourth, AvlWitness.Fifth,
         AvlWitness.Good, AvlWitness.Step, Alike, Barred;
    AvlWitness.StartIsGood(k);
    AvlWitness.StartUnder(k);
    AvlWitness.UnderMore(AvlWitness.Start(k), k + 24, MIN_ALIAS);
    g := Populate(AvlWitness.Start(k));
    Exchange(g, k);
    FourthGood(k);
    AvlWitness.Present(k);
    AvlWitness.Lead5(k);
    Taken(AvlWitness.Fourth(k), k + 19, AvlWitness.Fifth(k));
    Lose(g, k + 19, AvlWitness.Fourth(k));
    AvlWitness.LedTo(AvlWitness.Fourth(k), AvlWitness.Take(k + 19), AvlWitness.Fifth(k));
    AvlWitness.Lead6(k);
    StuckThere(AvlWitness.Fifth(k), k + 8);
    NoneFits(g.w, g.mem.heap, g.issued, k + 8, AvlWitness.Fifth(k));
  }

  /** The request for an alias of `k + 8` then meets a missing child. */
  method StuckRequest(k: int, realName: AliasName.Name, aliasName: AliasName.Name) returns (g: Aliases, ok: bool)
    requires k + 24 <= MIN_ALIAS
    requires |realName| <= AliasName.GROUP * AliasName.WORDS && |aliasName| <= AliasName.GROUP * AliasName.WORDS
    ensures fresh(g) && !ok
  {
    hide SeekFits, Sought;
    g := StuckGroup(k);
    var ino;
    ok, ino := g.SeekAndAdd(k + 8, realName, aliasName);
  }
}
