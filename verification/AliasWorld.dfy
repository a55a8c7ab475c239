/** The alias trees in memory: the real inodes in one tree, the aliases in use in another and in the
    family tree of their real inode, the aliases out of use in a third. */
module AliasWorld {
  import opened AvlTree
  import opened AliasNodes
  import opened AliasBook

  /** `reals`, `order` and `unused` go by inode number; `family` has a tree by bitmap for each real inode. */
  datatype World = World(reals: Tree, order: Tree, unused: Tree, family: map<int, Tree>)

  ghost predicate Planted(h: Heap, i: nat, t: Tree) {
    Stores(h, i, t) && Search(t) && Exact(t)
  }

  ghost predicate FamilyHeld(w: World, h: Heap, p: int)
    requires p in w.family
  {
    p in h && h[p].family == Root(w.family[p]) && Planted(h, BY_BITMAP, w.family[p])
  }

  /** Every tree is in memory. */
  ghost predicate Held(w: World, h: Heap) {
    Planted(h, BY_INO, w.reals) && Planted(h, BY_INO, w.order) && Planted(h, BY_INO, w.unused) &&
    forall p {:trigger FamilyHeld(w, h, p)} :: p in w.family ==> FamilyHeld(w, h, p)
  }

  ghost function BookOf(w: World): Book {
    Book(Ids(w.reals), Ids(w.order), Ids(w.unused), map p | p in w.family :: Ids(w.family[p]))
  }

  ghost predicate Good(w: World, h: Heap, issued: nat) {
    Held(w, h) && Tidy(BookOf(w), h, issued)
  }

  // ----- what stays in memory under a change

  /** The entries `s` have the same links in set `i`, and the same keys. */
  ghost predicate Kept(h: Heap, h': Heap, i: nat, s: set<int>) {
    forall q :: q in s && q in h ==> q in h' && LinkOf(h'[q], i) == LinkOf(h[q], i) && KeyOf(h'[q], i) == KeyOf(h[q], i)
  }

  lemma {:induction false} KeptStores(h: Heap, h': Heap, i: nat, t: Tree)
    requires Stores(h, i, t) && Kept(h, h', i, Ids(t))
    ensures Stores(h', i, t)
  {
    if t.Node? {
      KeptStores(h, h', i, t.left);
      KeptStores(h, h', i, t.right);
    }
  }

  lemma KeptPlanted(h: Heap, h': Heap, i: nat, t: Tree)
    requires Planted(h, i, t) && Kept(h, h', i, Ids(t))
    ensures Planted(h', i, t)
  {
    KeptStores(h, h', i, t);
  }

  /** Rearranging link set `i` of the entries `s` leaves the other set alone, and other entries. */
  lemma KeptTouched(h: Heap, h': Heap, i: nat, s: set<int>, k: nat, ids: set<int>)
    requires Touches(h, h', i, s)
    requires (i == BY_INO) != (k == BY_INO) || (i == k && ids !! s)
    ensures Kept(h, h', k, ids)
  {
  }

  /** The trees by number, and the families but that of `p`. */
  ghost predicate KeepsAll(w: World, h: Heap, h': Heap) {
    Kept(h, h', BY_INO, Ids(w.reals)) && Kept(h, h', BY_INO, Ids(w.order)) && Kept(h, h', BY_INO, Ids(w.unused)) &&
    forall p {:trigger KeepsFamily(w, h, h', p)} :: p in w.family ==> KeepsFamily(w, h, h', p)
  }

  ghost predicate KeepsFamily(w: World, h: Heap, h': Heap, p: int)
    requires p in w.family
  {
    (p in h ==> p in h' && h'[p].family == h[p].family) && Kept(h, h', BY_BITMAP, Ids(w.family[p]))
  }

  lemma KeepsHeld(w: World, h: Heap, h': Heap)
    requires Held(w, h) && KeepsAll(w, h, h')
    ensures Held(w, h')
  {
    KeptPlanted(h, h', BY_INO, w.reals);
    KeptPlanted(h, h', BY_INO, w.order);
    KeptPlanted(h, h', BY_INO, w.unused);
    forall p | p in w.family ensures FamilyHeld(w, h', p) {
      assert FamilyHeld(w, h, p) && KeepsFamily(w, h, h', p);
      KeptPlanted(h, h', BY_BITMAP, w.family[p]);
    }
  }

  /** Families do not notice what happens to the links by number. */
  lemma FamiliesHeld(w: World, h: Heap, h': Heap, s: set<int>)
    requires Held(w, h) && Touches(h, h', BY_INO, s)
    ensures forall p :: p in w.family ==> FamilyHeld(w, h', p)
  {
    forall p | p in w.family ensures FamilyHeld(w, h', p) {
      assert FamilyHeld(w, h, p);
      KeptTouched(h, h', BY_INO, s, BY_BITMAP, Ids(w.family[p]));
      KeptPlanted(h, h', BY_BITMAP, w.family[p]);
    }
  }

  lemma OrderHeld(w: World, h: Heap, h': Heap, s: set<int>, t: Tree)
    requires Held(w, h) && Touches(h, h', BY_INO, s) && Ids(w.reals) !! s && Ids(w.unused) !! s &&
             Planted(h', BY_INO, t)
    ensures Held(w.(order := t), h')
  {
    FamiliesHeld(w, h, h', s);
    KeptTouched(h, h', BY_INO, s, BY_INO, Ids(w.reals));
    KeptTouched(h, h', BY_INO, s, BY_INO, Ids(w.unused));
    KeptPlanted(h, h', BY_INO, w.reals);
    KeptPlanted(h, h', BY_INO, w.unused);
    FamiliesOnly(w, w.(order := t), h');
  }

  lemma FamiliesOnly(w: World, w': World, h: Heap)
    requires (forall p :: p in w.family ==> FamilyHeld(w, h, p)) && w'.family == w.family
    ensures forall p :: p in w'.family ==> FamilyHeld(w', h, p)
  {
    forall p | p in w'.family ensures FamilyHeld(w', h, p) { assert FamilyHeld(w, h, p); }
  }

  lemma UnusedHeld(w: World, h: Heap, h': Heap, s: set<int>, t: Tree)
    requires Held(w, h) && Touches(h, h', BY_INO, s) && Ids(w.reals) !! s && Ids(w.order) !! s && Planted(h', BY_INO, t)
    ensures Held(w.(unused := t), h')
  {
    FamiliesHeld(w, h, h', s);
    KeptTouched(h, h', BY_INO, s, BY_INO, Ids(w.reals));
    KeptTouched(h, h', BY_INO, s, BY_INO, Ids(w.order));
    KeptPlanted(h, h', BY_INO, w.reals);
    KeptPlanted(h, h', BY_INO, w.order);
    FamiliesOnly(w, w.(unused := t), h');
  }

  lemma RealsHeld(w: World, h: Heap, h': Heap, s: set<int>, t: Tree)
    requires Held(w, h) && Touches(h, h', BY_INO, s) && Ids(w.order) !! s && Ids(w.unused) !! s &&
             Planted(h', BY_INO, t)
    ensures Held(w.(reals := t), h')
  {
    FamiliesHeld(w, h, h', s);
    KeptTouched(h, h', BY_INO, s, BY_INO, Ids(w.order));
    KeptTouched(h, h', BY_INO, s, BY_INO, Ids(w.unused));
    KeptPlanted(h, h', BY_INO, w.order);
    KeptPlanted(h, h', BY_INO, w.unused);
    FamiliesOnly(w, w.(reals := t), h');
  }

  /** A family tree is rearranged to `t`, and its real inode made to point to the new root. */
  lemma FamilyChanged(w: World, h: Heap, h1: Heap, s: set<int>, p: int, t: Tree)
    requires Held(w, h) && p in w.family && p in h1 && Touches(h, h1, BY_BITMAP, s) && Planted(h1, BY_BITMAP, t)
    requires forall q :: q in w.family && q != p ==> Ids(w.family[q]) !! s
    ensures Held(w.(family := w.family[p := t]), h1[p := h1[p].(family := Root(t))])
  {
    var w', h2 := w.(family := w.family[p := t]), h1[p := h1[p].(family := Root(t))];
    KeptTouched(h, h1, BY_BITMAP, s, BY_INO, Ids(w.reals));
    KeptTouched(h, h1, BY_BITMAP, s, BY_INO, Ids(w.order));
    KeptTouched(h, h1, BY_BITMAP, s, BY_INO, Ids(w.unused));
    KeptPlanted(h, h2, BY_INO, w.reals);
    KeptPlanted(h, h2, BY_INO, w.order);
    KeptPlanted(h, h2, BY_INO, w.unused);
    forall q | q in w'.family ensures FamilyHeld(w', h2, q) {
      if q == p {
        KeptPlanted(h1, h2, BY_BITMAP, t);
      } else {
        assert FamilyHeld(w, h, q);
        KeptTouched(h, h1, BY_BITMAP, s, BY_BITMAP, Ids(w.family[q]));
        KeptPlanted(h, h2, BY_BITMAP, w.family[q]);
      }
    }
  }

  // ----- finding

  /** A key found in a tree by number belongs to the one entry with that number. */
  lemma FoundByNumber(h: Heap, t: Tree, r: int, n: int)
    requires Planted(h, BY_INO, t) && (r == 0 <==> !HasKey(Items(t), n)) && (r != 0 ==> Item(r, n) in Items(t))
    ensures r != 0 ==> r in Ids(t) && r in h && h[r].ino == n
    ensures forall q :: q in Ids(t) && q in h && h[q].ino == n ==> q == r != 0
  {
    if r != 0 { IdsAreItems(h, BY_INO, t, r); }
    forall q | q in Ids(t) && q in h && h[q].ino == n ensures q == r != 0 {
      IdsAreItems(h, BY_INO, t, q);
      var k :| 0 <= k < |Items(t)| && Items(t)[k] == Item(q, n);
      assert HasKey(Items(t), n);
      SameKey(Items(t), Item(q, n), Item(r, n));
    }
  }
}
