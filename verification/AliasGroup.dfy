/** The operations on alias inodes, on the trees in memory. */
module AliasGroup {
  import opened AvlTree
  import opened AliasNodes
  import opened AliasBook
  import opened AliasWorld
  import AliasName
  import AvlOutlook

  const ENOENT := 2

  /** Inserting the key does not turn around a missing child; whose key it is does not matter. */
  ghost predicate Admits(t: Tree, key: int) { Insert(t, 0, key).Ok? }

  /** The two trees differ in their pointers only. */
  ghost predicate Alike(t: Tree, u: Tree) {
    if t.Nil? || u.Nil? then t.Nil? && u.Nil?
    else t.key == u.key && t.height == u.height && Alike(t.left, u.left) && Alike(t.right, u.right)
  }

  lemma AlikeSettled(t: Tree, u: Tree, key: int)
    requires t.Node? && u.Node? && Alike(t, u)
    ensures Settled(t, key).Ok? == Settled(u, key).Ok?
    ensures Settled(t, key).Ok? ==> Alike(Settled(t, key).tree, Settled(u, key).tree)
  {
    var a, b := Updated(t), Updated(u);
    assert Alike(t.left, u.left) && Alike(t.right, u.right) && Alike(a, b);
    AlikeKids(a.left, b.left);
    AlikeKids(a.right, b.right);
    if !(-1 <= Factor(a) <= 1) && Settled(t, key).Ok? { AlikeTurned(a, b, InsertTurn(a, key)); }
  }

  lemma AlikeKids(t: Tree, u: Tree)
    requires Alike(t, u)
    ensures t.Nil? == u.Nil? && H(t) == H(u) &&
            (t.Node? ==> t.key == u.key && t.left.Nil? == u.left.Nil? && t.right.Nil? == u.right.Nil?)
  {
  }

  lemma AlikeTurned(t: Tree, u: Tree, turn: Turn)
    requires Alike(t, u) && CanTurn(t, turn)
    ensures CanTurn(u, turn) && Alike(Turned(t, turn), Turned(u, turn))
  {
    match turn
    case LL => AlikeRight(t, u);
    case RR => AlikeLeft(t, u);
    case LR =>
      AlikeLeft(t.left, u.left);
      AlikeRight(t.(left := LeftRotated(t.left)), u.(left := LeftRotated(u.left)));
    case RL =>
      AlikeRight(t.right, u.right);
      AlikeLeft(t.(right := RightRotated(t.right)), u.(right := RightRotated(u.right)));
  }

  lemma AlikeLeft(t: Tree, u: Tree)
    requires Alike(t, u) && t.Node? && t.right.Node?
    ensures u.Node? && u.right.Node? && Alike(LeftRotated(t), LeftRotated(u))
  {
    var a, b := t.right, u.right;
    AlikeKids(t.left, u.left);
    AlikeKids(a.left, b.left);
    AlikeKids(a.right, b.right);
    assert Alike(Updated(t.(right := a.left)), Updated(u.(right := b.left)));
  }

  lemma AlikeRight(t: Tree, u: Tree)
    requires Alike(t, u) && t.Node? && t.left.Node?
    ensures u.Node? && u.left.Node? && Alike(RightRotated(t), RightRotated(u))
  {
    var a, b := t.left, u.left;
    AlikeKids(t.right, u.right);
    AlikeKids(a.left, b.left);
    AlikeKids(a.right, b.right);
    assert Alike(Updated(t.(left := a.right)), Updated(u.(left := b.right)));
  }

  lemma {:induction false} AlikeSelf(t: Tree)
    ensures Alike(t, t)
  {
    if t.Node? {
      AlikeSelf(t.left);
      AlikeSelf(t.right);
    }
  }

  /** Whose key is inserted, and whose keys are there already, does not matter. */
  lemma {:induction false} AlikeInsert(t: Tree, u: Tree, id: int, id': int, key: int)
    requires Alike(t, u)
    ensures Insert(t, id, key).Ok? == Insert(u, id', key).Ok?
    ensures Insert(t, id, key).Ok? ==> Alike(Insert(t, id, key).tree, Insert(u, id', key).tree)
  {
    if t.Node? {
      if key < t.key {
        AlikeInsert(t.left, u.left, id, id', key);
        if Insert(t.left, id, key).Ok? {
          AlikeSettled(t.(left := Insert(t.left, id, key).tree), u.(left := Insert(u.left, id', key).tree), key);
        }
      } else {
        AlikeInsert(t.right, u.right, id, id', key);
        if Insert(t.right, id, key).Ok? {
          AlikeSettled(t.(right := Insert(t.right, id, key).tree), u.(right := Insert(u.right, id', key).tree), key);
        }
      }
    }
  }

  lemma AnyPointer(t: Tree, id: int, key: int)
    ensures Insert(t, id, key).Ok? == Admits(t, key)
  {
    AlikeSelf(t);
    AlikeInsert(t, t, id, 0, key);
  }

  lemma AlikeRebalanced(t: Tree, u: Tree)
    requires t.Node? && Alike(t, u) && Exact(t.left) && Exact(t.right) && Exact(u.left) && Exact(u.right)
    ensures Alike(Rebalanced(t), Rebalanced(u))
  {
    var a, b := Updated(t), Updated(u);
    AlikeKids(t.left, u.left);
    AlikeKids(t.right, u.right);
    assert Alike(a, b);
    if !(-1 <= Factor(a) <= 1) {
      DeleteCanTurn(a);
      if a.left.Node? { AlikeFactor(a.left, b.left); }
      if a.right.Node? { AlikeFactor(a.right, b.right); }
      AlikeTurned(a, b, DeleteTurn(a));
    }
  }

  lemma AlikeFactor(t: Tree, u: Tree)
    requires Alike(t, u) && t.Node?
    ensures u.Node? && Factor(t) == Factor(u)
  {
    AlikeKids(t.left, u.left);
    AlikeKids(t.right, u.right);
  }

  lemma {:induction false} AlikeMin(t: Tree, u: Tree)
    requires Alike(t, u) && t.Node?
    ensures u.Node? && MinOf(t).key == MinOf(u).key
  {
    if t.left.Node? { AlikeMin(t.left, u.left); }
  }

  lemma {:induction false} AlikeDelete(t: Tree, u: Tree, key: int)
    requires Alike(t, u) && Exact(t) && Exact(u)
    ensures Alike(Delete(t, key), Delete(u, key))
    decreases t
  {
    if t.Node? {
      if key < t.key {
        AlikeDelete(t.left, u.left, key);
        AlikeRebalanced(t.(left := Delete(t.left, key)), u.(left := Delete(u.left, key)));
      } else if key > t.key {
        AlikeDelete(t.right, u.right, key);
        AlikeRebalanced(t.(right := Delete(t.right, key)), u.(right := Delete(u.right, key)));
      } else if t.left.Nil? || t.right.Nil? {
        var a, b := if t.left.Nil? then t.right else t.left, if u.left.Nil? then u.right else u.left;
        assert Alike(a, b);
        if a.Node? { AlikeRebalanced(a, b); }
      } else {
        var m, m' := MinOf(t.right), MinOf(u.right);
        AlikeMin(t.right, u.right);
        AlikeDelete(t.right, u.right, m.key);
        AlikeRebalanced(Node(m.id, m.key, t.left, Delete(t.right, m.key), t.height),
                        Node(m'.id, m'.key, u.left, Delete(u.right, m'.key), u.height));
      }
    }
  }

  lemma {:induction false} AlikeKeys(t: Tree, u: Tree, key: int)
    requires Alike(t, u)
    ensures HasKey(Items(t), key) <==> HasKey(Items(u), key)
  {
    if t.Node? {
      AlikeKeys(t.left, u.left, key);
      AlikeKeys(t.right, u.right, key);
      HasKeyParts(Items(t.left), Item(t.id, t.key), Items(t.right), key);
      HasKeyParts(Items(u.left), Item(u.id, u.key), Items(u.right), key);
    }
  }

  /** A balanced tree admits every new key. */
  lemma BalancedAdmits(t: Tree, key: int)
    requires Balanced(t) && Exact(t) && !HasKey(Items(t), key)
    ensures Admits(t, key)
  {
    InsertBalanced(t, 0, key);
  }

  /** And any search tree admits a new key exactly when the way there is clear beforehand. */
  lemma AdmitsWhen(t: Tree, key: int)
    requires Search(t) && Exact(t) && !HasKey(Items(t), key)
    ensures Admits(t, key) <==> AvlOutlook.Foresee(t, key).Clear?
  {
    AvlOutlook.InsertGoesThrough(t, 0, key);
  }

  /** Entries keep number, bitmap and family pointer. */
  ghost predicate SameInfo(h: Heap, h': Heap) {
    h'.Keys == h.Keys && forall q :: q in h ==>
      h'[q].ino == h[q].ino && h'[q].bitmap == h[q].bitmap && h'[q].family == h[q].family
  }

  lemma TouchesInfo(h: Heap, h': Heap, i: nat, s: set<int>)
    requires Touches(h, h', i, s)
    ensures SameInfo(h, h')
  {
  }

  lemma NoNumber(h: Heap, i: nat, t: Tree, key: int)
    requires Stores(h, i, t) && forall q :: q in Ids(t) && q in h ==> KeyOf(h[q], i) != key
    ensures !HasKey(Items(t), key)
  {
    forall k | 0 <= k < |Items(t)| ensures Items(t)[k].key != key {
      var m := Items(t)[k];
      IdsAreItems(h, i, t, m.id);
      assert m == Item(m.id, m.key) && m in Items(t);
    }
  }

  /** The sets of entries the trees hold do not overlap. */
  lemma TreesApart(w: World, h: Heap, issued: nat)
    requires Good(w, h, issued)
    ensures Ids(w.reals) !! Ids(w.order) && Ids(w.reals) !! Ids(w.unused) && Ids(w.order) !! Ids(w.unused)
    ensures w.family.Keys == Ids(w.reals) && h.Keys == Ids(w.reals) + Ids(w.order) + Ids(w.unused)
    ensures forall p, a :: p in w.family && a in Ids(w.family[p]) ==> a in Ids(w.order) && a in h && h[a].family == p
    ensures forall a :: a in Ids(w.order) ==> a in h && h[a].family in w.family && a in Ids(w.family[h[a].family])
  {
    var b := BookOf(w);
    forall p, a | p in w.family && a in Ids(w.family[p]) ensures a in Ids(w.order) && a in h && h[a].family == p {
      assert OwnMembers(b, h, p);
      assert a in b.members[p];
    }
    forall a | a in Ids(w.order) ensures a in h && h[a].family in w.family && a in Ids(w.family[h[a].family]) {
      assert InFamily(b, h, a);
    }
  }

  /** A new entry, in no tree yet. */
  lemma EntryHeld(w: World, h: Heap, e: int, entry: Entry)
    requires Held(w, h) && e !in h
    ensures Held(w, h[e := entry])
  {
    var h' := h[e := entry];
    forall p | p in w.family ensures KeepsFamily(w, h, h', p) { assert FamilyHeld(w, h, p); }
    KeepsHeld(w, h, h');
  }

  lemma NewFamilyHeld(w: World, h: Heap, p: int)
    requires Held(w, h) && p in h && p !in w.family && h[p].family == 0
    ensures Held(w.(family := w.family[p := Nil]), h)
  {
    var w' := w.(family := w.family[p := Nil]);
    forall q | q in w'.family ensures FamilyHeld(w', h, q) { if q != p { assert FamilyHeld(w, h, q); } }
  }

  /** `r` is what the number `n` stands for. */
  ghost predicate Resolves(s: State, n: int, r: int) {
    (exists x :: x in s.active + s.removed && x.ino == n && r == x.owner) ||
    ((forall x :: x in s.active + s.removed ==> x.ino != n) && r == n)
  }

  lemma KnownAlias(b: Book, h: Heap, issued: nat, a: int)
    requires Tidy(b, h, issued) && a in b.order + b.unused
    ensures a in h && h[a].family in h && AliasAt(h, a) in View(b, h, issued).active + View(b, h, issued).removed
  {
    TidyOwned(b, h, issued);
  }

  lemma NotAnAlias(b: Book, h: Heap, issued: nat, n: int)
    requires Tidy(b, h, issued) && forall a :: a in b.order + b.unused && a in h ==> h[a].ino != n
    ensures forall x :: x in View(b, h, issued).active + View(b, h, issued).removed ==> x.ino != n
  {
    TidyOwned(b, h, issued);
  }

  lemma RealEntered(w: World, h: Heap, w': World, h': Heap, p: int, n: int, bits: seq<nat>, issued: nat)
    requires Good(w, h, issued) && Held(w', h') && p !in h && p !in w.family && n <= MIN_ALIAS && AliasName.Legit(bits)
    requires w' == w.(reals := w'.reals, family := w.family[p := Nil]) && Ids(w'.reals) == Ids(w.reals) + {p}
    requires SameInfo(h[p := Entry(n, bits, 0, RESET, RESET)], h')
    requires forall q :: q in w.family && q in h ==> h[q].ino != n
    ensures Good(w', h', issued) && p in h' && h'[p].ino == n
    ensures View(BookOf(w'), h', issued) == WithReal(View(BookOf(w), h, issued), Real(n, bits))
  {
    TreesApart(w, h, issued);
    BookEntered(w, w', p);
    InfoEntered(BookOf(w), h, h', p, n, bits, issued);
    EnteredTidy(BookOf(w), h, h', p, n, bits, issued);
  }

  lemma BookEntered(w: World, w': World, p: int)
    requires w' == w.(reals := w'.reals, family := w.family[p := Nil]) && Ids(w'.reals) == Ids(w.reals) + {p}
    ensures BookOf(w') == Entered(BookOf(w), p)
  {
    assert BookOf(w').members == BookOf(w).members[p := {}];
  }

  lemma InfoEntered(b: Book, h: Heap, h': Heap, p: int, n: int, bits: seq<nat>, issued: nat)
    requires Tidy(b, h, issued) && p !in h && n <= MIN_ALIAS && AliasName.Legit(bits)
    requires SameInfo(h[p := Entry(n, bits, 0, RESET, RESET)], h') && forall q :: q in b.reals && q in h ==>
               h[q].ino != n
    ensures Enters(b, h, h', p, n, bits)
  {
  }

  /** Pointing an alias to its real inode does not matter to the trees. */
  lemma OwnerHeld(w: World, h: Heap, e: int, p: int)
    requires Held(w, h) && e in h && e !in w.family
    ensures Held(w, h[e := h[e].(family := p)])
  {
    var h' := h[e := h[e].(family := p)];
    forall q | q in w.family ensures KeepsFamily(w, h, h', q) { assert FamilyHeld(w, h, q); }
    KeepsHeld(w, h, h');
  }

  /** A new entry that points to `p`; otherwise only the family pointer of `p` may have changed. */
  ghost predicate InfoEntering(h: Heap, h': Heap, p: int, e: int, n: int, bits: seq<nat>) {
    e !in h && p in h && h'.Keys == h.Keys + {e} && h'[e].family == p && h'[e].ino == n && h'[e].bitmap == bits &&
    SameButFamily(h, h', p)
  }

  lemma InfoJoined(b: Book, h: Heap, h1: Heap, h3: Heap, p: int, e: int, bits: seq<nat>, issued: nat)
    requires p in b.members && AliasName.Legit(bits) && InfoEntering(h, h1, p, e, MIN_ALIAS + issued + 1, bits)
    requires SameInfo(h1, h3) && forall a :: a in b.members[p] && a in h ==> h[a].bitmap != bits
    ensures Joins(b, h, h3, p, e, bits, issued)
  {
  }

  ghost predicate FamilyJoined(w: World, w': World, p: int, e: int) {
    p in w.family && w'.family.Keys == w.family.Keys && Ids(w'.family[p]) == Ids(w.family[p]) + {e} &&
    w'.reals == w.reals && w'.unused == w.unused &&
    forall q :: q in w.family && q != p ==> w'.family[q] == w.family[q]
  }

  lemma BookJoined(w: World, w': World, p: int, e: int)
    requires FamilyJoined(w, w', p, e) && Ids(w'.order) == Ids(w.order) + {e}
    ensures BookOf(w') == Joined(BookOf(w), p, e)
  {
    var m, m' := BookOf(w).members, BookOf(w').members;
    forall q | q in m' ensures m'[q] == if q == p then m[p] + {e} else m[q] { assert q in w'.family && q in w.family; }
    assert m' == m[p := m[p] + {e}];
  }

  lemma AliasEntered(w: World, h: Heap, w': World, h1: Heap, h': Heap, p: int, e: int, bits: seq<nat>, issued: nat)
    requires Good(w, h, issued) && Held(w', h') && FamilyJoined(w, w', p, e) && Ids(w'.order) == Ids(w.order) + {e}
    requires AliasName.Legit(bits) && !HasKey(Items(w.family[p]), AliasName.MapKey(bits))
    requires InfoEntering(h, h1, p, e, MIN_ALIAS + issued + 1, bits) && SameInfo(h1, h')
    ensures Good(w', h', issued + 1) && h'.Keys == h.Keys + {e} && h'[e].ino == MIN_ALIAS + issued + 1
    ensures View(BookOf(w'), h', issued + 1) ==
            WithAlias(View(BookOf(w), h, issued), Alias(MIN_ALIAS + issued + 1, h[p].ino, bits))
  {
    NewBits(w, h, p, bits, issued);
    BookJoined(w, w', p, e);
    InfoJoined(BookOf(w), h, h1, h', p, e, bits, issued);
    JoinedTidy(BookOf(w), h, h', p, e, bits, issued);
  }

  /** No alias of the family has these bits. */
  lemma NewBits(w: World, h: Heap, p: int, bits: seq<nat>, issued: nat)
    requires Good(w, h, issued) && p in w.family && !HasKey(Items(w.family[p]), AliasName.MapKey(bits))
    ensures forall a :: a in Ids(w.family[p]) && a in h ==> h[a].bitmap != bits
  {
    var t := w.family[p];
    assert FamilyHeld(w, h, p);
    forall a | a in Ids(t) && a in h ensures h[a].bitmap != bits {
      IdsAreItems(h, BY_BITMAP, t, a);
      var k :| 0 <= k < |Items(t)| && Items(t)[k] == Item(a, KeyOf(h[a], BY_BITMAP));
    }
  }

  /** The next number is not in use. */
  lemma NewNumber(b: Book, h: Heap, issued: nat, t: Tree, h': Heap)
    requires Tidy(b, h, issued) && Ids(t) == b.order && Stores(h', BY_INO, t)
    requires forall q :: q in b.order ==> q in h' && q in h && h'[q].ino == h[q].ino
    ensures !HasKey(Items(t), MIN_ALIAS + issued + 1)
  {
    NoNumber(h', BY_INO, t, MIN_ALIAS + issued + 1);
  }

  ghost predicate Bounded(h: Heap, top: int) { top > 0 && forall p :: p in h ==> p < top }

  lemma BoundedMore(h: Heap, h': Heap, e: int)
    requires Bounded(h, e) && h'.Keys == h.Keys + {e}
    ensures Bounded(h', e + 1) && e !in h && e != 0
  {
  }

  /** A new pointer is in no tree. */
  ghost predicate Unseen(w: World, e: int) {
    e !in Ids(w.reals) && e !in Ids(w.order) && e !in Ids(w.unused) && e !in w.family &&
    forall q :: q in w.family ==> e !in Ids(w.family[q])
  }

  lemma NewPointer(w: World, h: Heap, e: int)
    requires Held(w, h) && e !in h
    ensures Unseen(w, e)
  {
    IdsAreItems(h, BY_INO, w.reals, e);
    IdsAreItems(h, BY_INO, w.order, e);
    IdsAreItems(h, BY_INO, w.unused, e);
    forall q | q in w.family ensures e !in Ids(w.family[q]) && q in h {
      assert FamilyHeld(w, h, q);
      IdsAreItems(h, BY_BITMAP, w.family[q], e);
    }
  }

  /** The family of `p` shares nothing with the others. */
  ghost predicate FamilyApart(w: World, p: int) {
    p in w.family && forall q :: q in w.family && q != p ==> Ids(w.family[q]) !! Ids(w.family[p])
  }

  lemma FamiliesApart(w: World, h: Heap, issued: nat, p: int)
    requires Good(w, h, issued) && p in w.family
    ensures FamilyApart(w, p)
  {
    var b := BookOf(w);
    forall q | q in w.family && q != p ensures Ids(w.family[q]) !! Ids(w.family[p]) {
      MembersApart(b, h, p, q);
    }
  }

  lemma CanPlace(h: Heap, i: nat, t: Tree, e: int)
    requires Planted(h, i, t) && e != 0 && e in h && e !in Ids(t) && LinkOf(h[e], i) == RESET
    requires !HasKey(Items(t), KeyOf(h[e], i))
    ensures Placeable(h, i, t, e)
  {
  }

  /** All is ready for the new entry to get into `order`. */
  lemma OrderReady(w: World, h: Heap, w': World, h': Heap, p: int, e: int, bits: seq<nat>, issued: nat)
    requires Good(w, h, issued) && Held(w', h') && FamilyJoined(w, w', p, e) && w'.order == w.order
    requires e != 0 && InfoEntering(h, h', p, e, MIN_ALIAS + issued + 1, bits) && LinkOf(h'[e], BY_INO) == RESET
    ensures Placeable(h', BY_INO, w'.order, e)
    ensures Ids(w'.reals) !! Ids(w'.order) + {e} && Ids(w'.unused) !! Ids(w'.order) + {e}
  {
    NewPointer(w, h, e);
    TreesApart(w, h, issued);
    NewNumber(BookOf(w), h, issued, w'.order, h');
    CanPlace(h', BY_INO, w'.order, e);
  }

  ghost predicate KnownReal(s: State, n: int) { exists x :: x in s.names && x.ino == n }

  /** Some alias of `n` in use has these bits. */
  ghost predicate KnownBits(s: State, n: int, bits: seq<nat>) {
    exists x :: x in s.active && x.owner == n && x.bitmap == bits
  }

  lemma RealKnown(b: Book, h: Heap, issued: nat, n: int)
    requires Tidy(b, h, issued)
    ensures KnownReal(View(b, h, issued), n) <==> exists p :: p in b.reals && p in h && h[p].ino == n
  {
    TidyOwned(b, h, issued);
    var s := View(b, h, issued);
    if p :| p in b.reals && p in h && h[p].ino == n {
      assert RealAt(h, p) in s.names;
    }
  }

  /** What a search of the family tree by bitmap tells about the aliases in use. */
  lemma FoundByBits(w: World, h: Heap, issued: nat, p: int, r: int, bits: seq<nat>)
    requires Good(w, h, issued) && p in w.family && p in h && AliasName.Legit(bits)
    requires r == 0 <==> !HasKey(Items(w.family[p]), AliasName.MapKey(bits))
    requires r != 0 ==> Item(r, AliasName.MapKey(bits)) in Items(w.family[p])
    ensures r != 0 ==> r in h && r in Ids(w.family[p]) && h[r].bitmap == bits && h[r].family == p && r in Ids(w.order)
    ensures r == 0 ==> forall a :: a in Ids(w.order) && a in h && h[a].family == p ==> h[a].bitmap != bits
  {
    TreesApart(w, h, issued);
    if r != 0 {
      assert FamilyHeld(w, h, p);
      IdsAreItems(h, BY_BITMAP, w.family[p], r);
      AliasName.MapKeyUnique(h[r].bitmap, bits);
    } else {
      NewBits(w, h, p, bits, issued);
    }
  }

  lemma BitsKnown(b: Book, h: Heap, issued: nat, p: int, bits: seq<nat>)
    requires Tidy(b, h, issued) && p in b.reals && p in h
    ensures KnownBits(View(b, h, issued), h[p].ino, bits) <==>
            exists a :: a in b.order && a in h && h[a].family == p && h[a].bitmap == bits
  {
    TidyOwned(b, h, issued);
    var s := View(b, h, issued);
    if a :| a in b.order && a in h && h[a].family == p && h[a].bitmap == bits {
      assert AliasAt(h, a) in s.active;
    }
    if KnownBits(s, h[p].ino, bits) {
      var x :| x in s.active && x.owner == h[p].ino && x.bitmap == bits;
      var a :| a in b.order && x == AliasAt(h, a);
      if h[a].family != p { DifferentNumbers(h, h[a].family, p); }
    }
  }

  /** What a seek does: the real inode is known from then on, and the alias found or issued. */
  ghost predicate Sought(s: State, s': State, n: int, realBits: seq<nat>, bits: seq<nat>, ino: int) {
    var s1 := if KnownReal(s, n) then s else WithReal(s, Real(n, realBits));
    if KnownBits(s1, n, bits) then s' == s1 && Alias(ino, n, bits) in s1.active
    else ino == MIN_ALIAS + s.issued + 1 && s' == WithAlias(s1, Alias(ino, n, bits))
  }

  ghost predicate FamilyLeft(w: World, w': World, p: int, a: int) {
    p in w.family && w'.family.Keys == w.family.Keys && Ids(w'.family[p]) == Ids(w.family[p]) - {a} &&
    w'.reals == w.reals && forall q :: q in w.family && q != p ==> w'.family[q] == w.family[q]
  }

  lemma BookRetired(w: World, w': World, p: int, a: int)
    requires FamilyLeft(w, w', p, a) && Ids(w'.order) == Ids(w.order) - {a} && Ids(w'.unused) == Ids(w.unused) + {a}
    ensures BookOf(w') == Retired(BookOf(w), p, a)
  {
    var m, m' := BookOf(w).members, BookOf(w').members;
    forall q | q in m' ensures m'[q] == if q == p then m[p] - {a} else m[q] { assert q in w'.family && q in w.family; }
    assert m' == m[p := m[p] - {a}];
  }

  /** An alias of the family of `p` may be taken out of both its trees. */
  lemma CanLeave(w: World, h: Heap, issued: nat, p: int, a: int)
    requires Good(w, h, issued) && p in w.family && a in Ids(w.family[p])
    ensures Removable(h, BY_BITMAP, w.family[p], a) && a in Ids(w.order) && a in h && p in h && h[a].family == p &&
            a != p
    ensures FamilyApart(w, p)
  {
    MemberFacts(BookOf(w), h, issued, p, a);
    FamiliesApart(w, h, issued, p);
    assert FamilyHeld(w, h, p);
  }

  /** `a` is in no tree by number any more, and its number is not among the unused. */
  lemma UnusedReady(w: World, h: Heap, issued: nat, w': World, h': Heap, p: int, a: int)
    requires Good(w, h, issued) && Held(w', h') && p in w.family && a in Ids(w.family[p])
    requires w'.reals == w.reals && w'.unused == w.unused && Ids(w'.order) == Ids(w.order) - {a}
    requires h'.Keys == h.Keys && SameButFamily(h, h', p) && a in h' && LinkOf(h'[a], BY_INO) == RESET
    ensures Placeable(h', BY_INO, w'.unused, a)
    ensures Ids(w'.reals) !! Ids(w'.unused) + {a} && Ids(w'.order) !! Ids(w'.unused) + {a}
  {
    TreesApart(w, h, issued);
    IdsAreItems(h', BY_INO, w'.unused, a);
    forall q | q in Ids(w'.unused) && q in h' ensures h'[q].ino != h'[a].ino { DifferentNumbers(h, q, a); }
    NoNumber(h', BY_INO, w'.unused, h'[a].ino);
    NotNull(w, h, p, a);
    CanPlace(h', BY_INO, w'.unused, a);
  }

  lemma NotNull(w: World, h: Heap, p: int, a: int)
    requires Held(w, h) && p in w.family && a in Ids(w.family[p])
    ensures a != 0
  {
    assert FamilyHeld(w, h, p);
    IdsAreItems(h, BY_BITMAP, w.family[p], a);
  }

  lemma AliasRetired(w: World, h: Heap, issued: nat, w': World, h1: Heap, h': Heap, p: int, a: int)
    requires Good(w, h, issued) && Held(w', h') && FamilyLeft(w, w', p, a) && a in Ids(w.family[p])
    requires Ids(w'.order) == Ids(w.order) - {a} && Ids(w'.unused) == Ids(w.unused) + {a}
    requires h1.Keys == h.Keys && SameButFamily(h, h1, p) && SameInfo(h1, h')
    ensures Good(w', h', issued) && h'.Keys == h.Keys && a in h && p in h
    ensures View(BookOf(w'), h', issued) == Shelved(View(BookOf(w), h, issued), Alias(h[a].ino, h[p].ino, h[a].bitmap))
  {
    CanLeave(w, h, issued, p, a);
    BookRetired(w, w', p, a);
    RetiredTidy(BookOf(w), h, h', p, a, issued);
  }

  lemma SameBound(h: Heap, h': Heap, top: int)
    requires Bounded(h, top) && h'.Keys <= h.Keys
    ensures Bounded(h', top)
  {
  }

  function Renamed(s: State, x: Real, bits: seq<nat>): State { WithReal(WithoutReal(s, x), Real(x.ino, bits)) }

  /** The alias of `n` in use with these bits goes out of use, if there is one. */
  ghost predicate BitsDropped(s: State, s': State, n: int, bits: seq<nat>) {
    if KnownBits(s, n, bits) then exists x :: x in s.active && x.owner == n && x.bitmap == bits && s' == Shelved(s, x)
    else s' == s
  }

  /** The real inode gets its new name, and the alias of that name goes out of use. */
  ghost predicate NewName(s: State, s': State, n: int, bits: seq<nat>) {
    if KnownReal(s, n) then exists x :: x in s.names && x.ino == n && BitsDropped(Renamed(s, x, bits), s', n, bits)
    else s' == s
  }

  /** The alias of `n` in use with these bits, if there is one, can be put among the unused. */
  ghost predicate ShelfFits(s: State, unused: Tree, n: int, bits: seq<nat>) {
    forall x :: x in s.active && x.owner == n && x.bitmap == bits ==> Admits(unused, x.ino)
  }

  /** Trees by number do not go by bitmap, and no real inode is in a family tree. */
  lemma NameHeld(w: World, h: Heap, p: int, bits: seq<nat>, issued: nat)
    requires Good(w, h, issued) && p in w.family && p in h
    ensures Held(w, h[p := h[p].(bitmap := bits)])
  {
    hide Tidy;
    var h' := h[p := h[p].(bitmap := bits)];
    TreesApart(w, h, issued);
    forall q | q in w.family ensures KeepsFamily(w, h, h', q) { assert FamilyHeld(w, h, q); }
    KeepsHeld(w, h, h');
  }

  /** An entry that is in no tree may be freed. */
  lemma FreeHeld(w: World, h: Heap, a: int)
    requires Held(w, h) && Unseen(w, a)
    ensures Held(w, h - {a})
  {
    var h' := h - {a};
    forall q | q in w.family ensures KeepsFamily(w, h, h', q) { assert FamilyHeld(w, h, q); }
    KeepsHeld(w, h, h');
  }

  /** Entries that are in `order` and in no other tree of `w`. */
  ghost predicate OnlyOrder(w: World, s: set<int>) {
    s <= Ids(w.order) && s !! Ids(w.reals) && s !! Ids(w.unused) && s !! w.family.Keys &&
    forall q :: q in w.family ==> s !! Ids(w.family[q])
  }

  lemma OnlyOrderLater(w: World, w': World, s: set<int>, s': set<int>)
    requires OnlyOrder(w, s') && w' == w.(order := w'.order) && Ids(w'.order) == Ids(w.order) - s && s !! s'
    ensures OnlyOrder(w', s')
  {
  }

  lemma OnlyOrderParts(w: World, t: Tree)
    requires OnlyOrder(w, Ids(t)) && t.Node?
    ensures OnlyOrder(w, Ids(t.left)) && OnlyOrder(w, Ids(t.right)) && OnlyOrder(w, {t.id})
  {
  }

  ghost predicate NumbersApart(w: World) {
    Ids(w.reals) !! Ids(w.order) && Ids(w.reals) !! Ids(w.unused) && Ids(w.order) !! Ids(w.unused)
  }

  /** The entries `s` are gone; of the others only links by number may have changed. */
  ghost predicate Freed(h: Heap, h': Heap, s: set<int>) {
    h'.Keys == h.Keys - s && forall q :: q in h' ==> SameApart(h[q], h'[q])
  }

  predicate SameApart(e: Entry, e': Entry) { e' == e.(byIno := e'.byIno) }

  lemma FreedTwice(h: Heap, h1: Heap, h': Heap, s: set<int>, s': set<int>)
    requires Freed(h, h1, s) && Freed(h1, h', s')
    ensures Freed(h, h', s + s')
  {
    forall q | q in h' ensures SameApart(h[q], h'[q]) { assert SameApart(h[q], h1[q]) && SameApart(h1[q], h'[q]); }
  }

  lemma FreedStores(h: Heap, h': Heap, s: set<int>, t: Tree)
    requires Freed(h, h', s) && Stores(h, BY_BITMAP, t) && Ids(t) !! s
    ensures Stores(h', BY_BITMAP, t)
  {
    IdsIn(h, BY_BITMAP, t);
    KeptStores(h, h', BY_BITMAP, t);
  }

  lemma {:induction false} IdsIn(h: Heap, i: nat, t: Tree)
    requires Stores(h, i, t)
    ensures forall q :: q in Ids(t) ==> q in h && q != 0
  {
    if t.Node? {
      IdsIn(h, i, t.left);
      IdsIn(h, i, t.right);
    }
  }

  ghost predicate OwnersKnown(h: Heap, s: set<int>) { forall a :: a in s ==> a in h && h[a].family in h }

  /** `a` points to a real inode with number `n`. */
  ghost predicate OwnedBy(h: Heap, a: int, n: int) { a in h && h[a].family in h && h[h[a].family].ino == n }

  /** No unused entry is in a family tree. */
  ghost predicate UnusedApart(w: World) {
    w.family.Keys !! Ids(w.unused) && forall q :: q in w.family ==> Ids(w.family[q]) !! Ids(w.unused)
  }

  /** Some unused aliases of `p` are gone, and nothing else. */
  ghost predicate Purged(w: World, h: Heap, w': World, h': Heap, p: int, gone: set<int>) {
    gone <= Ids(w.unused) && Ids(w'.unused) == Ids(w.unused) - gone && Freed(h, h', gone) &&
    (forall a :: a in gone ==> a in h && h[a].family == p)
  }

  lemma PurgeOne(w: World, h: Heap, w': World, h': Heap, p: int, n: int, gone: set<int>, a: int)
    requires Purgeable(w, h, p, n) && w' == w.(unused := w'.unused) && Purged(w, h, w', h', p, gone)
    requires a in Ids(w'.unused) && OwnedBy(h', a, n)
    ensures a in h && h[a].family == p && UnusedApart(w') && NumbersApart(w')
  {
    assert SameApart(h[a], h'[a]) && SameApart(h[h'[a].family], h'[h'[a].family]);
    if h[a].family != p { DifferentNumbers(h, h[a].family, p); }
  }

  lemma PurgeNext(w: World, h: Heap, w1: World, h1: Heap, w': World, h': Heap, p: int, n: int, gone: set<int>, a: int)
    requires Purgeable(w, h, p, n) && Purged(w, h, w1, h1, p, gone) && a in Ids(w1.unused) && a in h && h[a].family == p
    requires Ids(w'.unused) == Ids(w1.unused) - {a} && Freed(h1, h', {a})
    ensures Purged(w, h, w', h', p, gone + {a}) && OwnersKnown(h', Ids(w'.unused))
  {
    FreedTwice(h, h1, h', gone, {a});
    forall c | c in Ids(w'.unused) ensures c in h' && h'[c].family in h' {
      assert c in h && h[c].family in h && h[c].family !in Ids(w.unused);
      assert c in h';
      assert SameApart(h[c], h'[c]);
    }
  }

  lemma PurgeEnd(w: World, h: Heap, w': World, h': Heap, p: int, n: int, gone: set<int>)
    requires Purgeable(w, h, p, n) && Purged(w, h, w', h', p, gone)
    requires forall q :: q in Ids(w'.unused) ==> !OwnedBy(h', q, n)
    ensures forall a :: a in Ids(w'.unused) && a in h ==> h[a].family != p
  {
    forall a | a in Ids(w'.unused) && a in h ensures h[a].family != p {
      assert a in h' && SameApart(h[a], h'[a]);
      assert p in h' && SameApart(h[p], h'[p]);
      assert !OwnedBy(h', a, n);
    }
  }

  /** What the loop can count on. */
  ghost predicate Purgeable(w: World, h: Heap, p: int, n: int) {
    NumbersApart(w) && UnusedApart(w) && OwnersKnown(h, Ids(w.unused)) && NumbersDiffer(h) &&
    p in Ids(w.reals) && p in h && h[p].ino == n && forall a :: a in Ids(w.unused) ==> h[a].family !in Ids(w.unused)
  }

  lemma FewerFamilies(w: World, h: Heap, p: int)
    requires Held(w, h)
    ensures Held(w.(family := w.family - {p}), h)
  {
    var w' := w.(family := w.family - {p});
    forall q | q in w'.family ensures FamilyHeld(w', h, q) { assert FamilyHeld(w, h, q); }
  }

  /** The family of `p` is in `order` and in no other tree. */
  lemma FamilyAlone(w: World, h: Heap, issued: nat, p: int)
    requires Good(w, h, issued) && p in w.family
    ensures var w' := w.(family := w.family - {p}); OnlyOrder(w', Ids(w.family[p])) && NumbersApart(w')
    ensures p !in Ids(w.family[p])
  {
    hide Tidy, Held;
    var b, w' := BookOf(w), w.(family := w.family - {p});
    MembersAlone(b, h, issued, p);
    BookApart(w, h, issued);
    forall q | q in w'.family ensures Ids(w.family[p]) !! Ids(w'.family[q]) {
      assert b.members[q] == Ids(w'.family[q]);
    }
  }

  lemma BookApart(w: World, h: Heap, issued: nat)
    requires Good(w, h, issued)
    ensures NumbersApart(w) && w.family.Keys == Ids(w.reals)
  {
    assert BookOf(w).members.Keys == w.family.Keys;
  }

  /** The aliases in use of `p` are gone, and `p` points to none. */
  ghost predicate FamilyGone(w: World, h: Heap, w': World, h': Heap, p: int) {
    p in w.family && w' == w.(order := w'.order, family := w.family - {p}) &&
    Ids(w'.order) == Ids(w.order) - Ids(w.family[p]) && p in h' && h'.Keys == h.Keys - Ids(w.family[p]) &&
    SameButFamily(h, h', p)
  }

  lemma StillPurgeable(w: World, h: Heap, issued: nat, w': World, h': Heap, p: int)
    requires Good(w, h, issued) && FamilyGone(w, h, w', h', p) && p in h
    ensures Purgeable(w', h', p, h[p].ino)
  {
    hide Tidy, Held;
    BookApart(w, h, issued);
    MembersAlone(BookOf(w), h, issued, p);
    UnusedOwners(BookOf(w), h, issued);
    StillDiffer(h, h', p);
    forall q | q in w'.family ensures Ids(w'.family[q]) !! Ids(w'.unused) { MembersAlone(BookOf(w), h, issued, q); }
  }

  lemma CanDrop(w: World, h: Heap, issued: nat, w1: World, h1: Heap, w2: World, h2: Heap, p: int, gone: set<int>)
    requires Good(w, h, issued) && FamilyGone(w, h, w1, h1, p) && w2 == w1.(unused := w2.unused)
    requires Purged(w1, h1, w2, h2, p, gone)
    ensures NumbersApart(w2) && p in h2 && p in Ids(w2.reals) && p !in w2.family
    ensures forall q :: q in w2.family ==> p !in Ids(w2.family[q])
  {
    TreesApart(w, h, issued);
  }

  lemma FamilyDropped(w: World, h: Heap, issued: nat, w1: World, h1: Heap, w2: World, h2: Heap, w': World, h': Heap,
                      p: int, gone: set<int>)
    requires Good(w, h, issued) && p in h && FamilyGone(w, h, w1, h1, p)
    requires w2 == w1.(unused := w2.unused) && Purged(w1, h1, w2, h2, p, gone)
    requires forall a :: a in Ids(w2.unused) && a in h1 ==> h1[a].family != p
    requires w' == w2.(reals := w'.reals) && Ids(w'.reals) == Ids(w2.reals) - {p} && Freed(h2, h', {p}) && Held(w', h')
    ensures Good(w', h', issued) && h'.Keys <= h.Keys
    ensures View(BookOf(w'), h', issued) == WithoutFamily(View(BookOf(w), h, issued), RealAt(h, p))
  {
    TreesApart(w, h, issued);
    GoneUnused(w, h, w1, h1, w2, h2, p, gone, issued);
    BookDropped(w, w', p, gone);
    InfoDropped(w, h, w1, h1, h2, h', p, gone);
    DroppedTidy(BookOf(w), h, h', p, issued);
  }

  lemma GoneUnused(w: World, h: Heap, w1: World, h1: Heap, w2: World, h2: Heap, p: int, gone: set<int>, issued: nat)
    requires Good(w, h, issued) && p in h && FamilyGone(w, h, w1, h1, p) && Purged(w1, h1, w2, h2, p, gone)
    requires forall a :: a in Ids(w2.unused) && a in h1 ==> h1[a].family != p
    ensures gone == UnusedOf(BookOf(w), h, p)
  {
    hide Tidy, Held;
    BookApart(w, h, issued);
    MembersAlone(BookOf(w), h, issued, p);
    UnusedOwners(BookOf(w), h, issued);
    forall a | a in Ids(w.unused) ensures a in h && a in h1 && h1[a].family == h[a].family { }
    var u := UnusedOf(BookOf(w), h, p);
    forall a ensures a in gone <==> a in u { }
  }

  lemma BookDropped(w: World, w': World, p: int, gone: set<int>)
    requires p in w.family && w'.family == w.family - {p} && Ids(w'.reals) == Ids(w.reals) - {p}
    requires Ids(w'.order) == Ids(w.order) - Ids(w.family[p]) && Ids(w'.unused) == Ids(w.unused) - gone
    ensures BookOf(w') == AliasBook.Dropped(BookOf(w), p, gone)
  {
    assert BookOf(w').members == BookOf(w).members - {p};
  }

  lemma InfoDropped(w: World, h: Heap, w1: World, h1: Heap, h2: Heap, h': Heap, p: int, gone: set<int>)
    requires FamilyGone(w, h, w1, h1, p) && Freed(h1, h2, gone) && Freed(h2, h', {p})
    ensures h'.Keys == h.Keys - {p} - Ids(w.family[p]) - gone && SameButFamily(h, h', p)
  {
    forall q | q in h' ensures SameApart(h1[q], h2[q]) && SameApart(h2[q], h'[q]) { }
  }

  ghost predicate KnownIn(s: set<Alias>, n: int) { exists x :: x in s && x.ino == n }

  /** What a deletion does, by what the number is. */
  ghost predicate DeletedNumber(s: State, s': State, n: int, rc: int) {
    if n > MIN_ALIAS then
      if KnownIn(s.active, n) then rc == 0 && exists x :: x in s.active && x.ino == n && s' == Shelved(s, x)
      else s' == s && rc == if KnownIn(s.removed, n) then 0 else -ENOENT
    else if KnownReal(s, n) then rc == 0 && exists x :: x in s.names && x.ino == n && s' == WithoutFamily(s, x)
    else s' == s && rc == -ENOENT
  }

  ghost predicate SpelledBy(name: seq<int>, lower: AliasName.Name, bits: seq<nat>)
    requires |lower| <= AliasName.GROUP * AliasName.WORDS
  {
    |bits| == AliasName.WORDS && |name| == |lower| &&
    forall k: nat :: k < |lower| ==> name[k] == lower[k] - 32 * AliasName.CaseBit(|lower|, bits, k)
  }

  ghost predicate NamedReal(s: State, n: int, lower: AliasName.Name, found: bool, name: seq<int>)
    requires |lower| <= AliasName.GROUP * AliasName.WORDS
  {
    found == KnownReal(s, n) && (found ==> exists x :: x in s.names && x.ino == n && SpelledBy(name, lower, x.bitmap))
  }

  ghost predicate HasAlias(s: State, n: int) { exists x :: x in s.active && x.owner == n }

  ghost predicate NamedAlias(s: State, s': State, n: int, lower: AliasName.Name, found: bool, name: seq<int>, ino: int)
    requires |lower| <= AliasName.GROUP * AliasName.WORDS
  {
    found == HasAlias(s, n) &&
    if !found then s' == s
    else exists x ::
      x in s.active && x.owner == n && x.ino == ino && s' == Shelved(s, x) && SpelledBy(name, lower, x.bitmap)
  }

  lemma RealListed(b: Book, h: Heap, issued: nat, p: int)
    requires Tidy(b, h, issued) && p in b.reals
    ensures p in h && RealAt(h, p) in View(b, h, issued).names && AliasName.Legit(h[p].bitmap)
  {
    TidyOwned(b, h, issued);
  }

  lemma OwnerIsReal(b: Book, h: Heap, issued: nat)
    requires Tidy(b, h, issued)
    ensures forall x :: x in View(b, h, issued).active + View(b, h, issued).removed ==>
              KnownReal(View(b, h, issued), x.owner)
  {
    TidyOwned(b, h, issued);
    var s := View(b, h, issued);
    forall x | x in s.active + s.removed ensures KnownReal(s, x.owner) {
      var a :| a in b.order + b.unused && x == AliasAt(h, a);
      if a in b.order { assert InFamily(b, h, a); }
      assert RealAt(h, h[a].family) in s.names;
    }
  }

  /** A number that leads to no real inode is no alias. */
  lemma NoOwner(w: World, h: Heap, issued: nat, n: int, r: int)
    requires Good(w, h, issued) && Resolves(View(BookOf(w), h, issued), n, r)
    requires forall q :: q in w.family && q in h ==> h[q].ino != r
    ensures !KnownIn(View(BookOf(w), h, issued).active, n) && !KnownIn(View(BookOf(w), h, issued).removed, n)
  {
    hide Held;
    BookApart(w, h, issued);
    OwnerIsReal(BookOf(w), h, issued);
    RealKnown(BookOf(w), h, issued, r);
    AliasUnique(BookOf(w), h, issued);
  }

  lemma AliasUnique(b: Book, h: Heap, issued: nat)
    requires Tidy(b, h, issued)
    ensures var s := View(b, h, issued);
            forall x, y :: x in s.active + s.removed && y in s.active + s.removed && x.ino == y.ino ==> x == y
  {
    TidyOwned(b, h, issued);
    var s := View(b, h, issued);
    forall x, y | x in s.active + s.removed && y in s.active + s.removed && x.ino == y.ino ensures x == y {
      var a :| a in b.order + b.unused && x == AliasAt(h, a);
      var c :| c in b.order + b.unused && y == AliasAt(h, c);
      assert SameNumber(h, a, c);
    }
  }

  lemma OnlyRemoved(w: World, h: Heap, issued: nat, n: int, r: int, p: int)
    requires Good(w, h, issued) && Resolves(View(BookOf(w), h, issued), n, r) && n > MIN_ALIAS
    requires p in w.family && p in h && h[p].ino == r && forall a :: a in Ids(w.order) && a in h ==> h[a].ino != n
    ensures !KnownIn(View(BookOf(w), h, issued).active, n) && KnownIn(View(BookOf(w), h, issued).removed, n)
  {
    TidyOwned(BookOf(w), h, issued);
    TreesApart(w, h, issued);
  }

  lemma OwnOwner(w: World, h: Heap, issued: nat, n: int, r: int, p: int, a: int)
    requires Good(w, h, issued) && Resolves(View(BookOf(w), h, issued), n, r) && a in Ids(w.order) && a in h &&
             h[a].ino == n
    requires p in w.family && p in h && h[p].ino == r
    ensures a in Ids(w.family[p]) && h[a].family == p
  {
    TreesApart(w, h, issued);
    KnownAlias(BookOf(w), h, issued, a);
    AliasUnique(BookOf(w), h, issued);
    if h[a].family != p { DifferentNumbers(h, h[a].family, p); }
  }

  lemma EmptyFamily(w: World, h: Heap, issued: nat, p: int)
    requires Good(w, h, issued) && p in w.family && p in h && h[p].family == 0
    ensures !HasAlias(View(BookOf(w), h, issued), h[p].ino)
  {
    var b := BookOf(w);
    assert FamilyHeld(w, h, p);
    RootHeight(h, BY_BITMAP, w.family[p]);
    TidyOwned(b, h, issued);
    forall x | x in View(b, h, issued).active ensures x.owner != h[p].ino {
      var a :| a in b.order && x == AliasAt(h, a);
      assert InFamily(b, h, a);
      DifferentNumbers(h, h[a].family, p);
    }
  }

  /** Only one alias in use of a real inode has its bits. */
  lemma OneWithBits(b: Book, h: Heap, issued: nat, a: int)
    requires Tidy(b, h, issued) && a in b.order
    ensures a in h && h[a].family in h
    ensures forall x :: x in View(b, h, issued).active && x.owner == h[h[a].family].ino && x.bitmap == h[a].bitmap ==>
              x == AliasAt(h, a)
  {
    TidyOwned(b, h, issued);
    var s := View(b, h, issued);
    forall x | x in s.active && x.owner == h[h[a].family].ino && x.bitmap == h[a].bitmap ensures x == AliasAt(h, a) {
      var c :| c in b.order && x == AliasAt(h, c);
      assert SameNumber(h, h[a].family, h[c].family);
      assert SamePlace(b, h, a, c);
    }
  }

  /** A real inode has one entry; without it there is no alias of it either. */
  lemma OwnersOnce(w: World, h: Heap, issued: nat, n: int, bits: seq<nat>)
    requires Good(w, h, issued)
    ensures forall p, q :: p in w.family && q in w.family && p in h && q in h && h[p].ino == n == h[q].ino ==> p == q
    ensures var s := View(BookOf(w), h, issued);
            !KnownReal(s, n) ==> !KnownBits(s, n, bits) && forall p :: p in w.family && p in h ==> h[p].ino != n
  {
    var b, s := BookOf(w), View(BookOf(w), h, issued);
    TreesApart(w, h, issued);
    forall p, q | p in w.family && q in w.family && p in h && q in h && h[p].ino == n == h[q].ino ensures p == q {
      assert SameNumber(h, p, q);
    }
    OwnerIsReal(b, h, issued);
    RealKnown(b, h, issued, n);
  }

  // ----- what every operation may rely on

  function All(s: State): set<Alias> { s.active + s.removed }

  /** Numbers are unique, were issued, and stand for a known real inode; a real inode has one name; in
      one family the aliases in use have different bits. */
  ghost predicate Sane(s: State) {
    (forall x :: x in All(s) ==> MIN_ALIAS < x.ino <= MIN_ALIAS + s.issued && KnownReal(s, x.owner)) &&
    (forall x, y :: x in All(s) && y in All(s) && x.ino == y.ino ==> x == y) &&
    s.active !! s.removed &&
    (forall x, y :: x in s.names && y in s.names && x.ino == y.ino ==> x == y) &&
    (forall x :: x in s.names ==> x.ino <= MIN_ALIAS) &&
    (forall x, y :: x in s.active && y in s.active && x.owner == y.owner && x.bitmap == y.bitmap ==> x == y)
  }

  /** The trees in memory always stand for a sane book. */
  lemma ViewSane(b: Book, h: AliasNodes.Heap, issued: nat)
    requires Tidy(b, h, issued)
    ensures Sane(View(b, h, issued))
  {
    var s := View(b, h, issued);
    TidyOwned(b, h, issued);
    OwnerIsReal(b, h, issued);
    AliasUnique(b, h, issued);
    forall x, y | x in s.names && y in s.names && x.ino == y.ino ensures x == y {
      var p :| p in b.reals && x == RealAt(h, p);
      var q :| q in b.reals && y == RealAt(h, q);
      assert SameNumber(h, p, q);
    }
    forall x, y | x in s.active && y in s.active && x.owner == y.owner && x.bitmap == y.bitmap ensures x == y {
      var a :| a in b.order && x == AliasAt(h, a);
      var c :| c in b.order && y == AliasAt(h, c);
      assert SameNumber(h, h[a].family, h[c].family);
      assert SamePlace(b, h, a, c);
    }
    forall x | x in s.active ensures x !in s.removed {
      var a :| a in b.order && x == AliasAt(h, a);
      if x in s.removed {
        var c :| c in b.unused && x == AliasAt(h, c);
        assert SameNumber(h, a, c);
      }
    }
  }

  // ----- the operations in plain sets

  /** Only the alias asked for is new, and only if it was not there; so is the real inode. */
  lemma SoughtMeans(s: State, s': State, n: int, realBits: seq<nat>, bits: seq<nat>, ino: int)
    requires Sane(s) && Sought(s, s', n, realBits, bits, ino)
    ensures Alias(ino, n, bits) in s'.active && s'.removed == s.removed
    ensures forall x :: x in s'.active <==> x in s.active || x == Alias(ino, n, bits)
    ensures forall x :: x in s'.names <==> x in s.names || (x == Real(n, realBits) && !KnownReal(s, n))
    ensures s'.issued == if KnownBits(s, n, bits) then s.issued else s.issued + 1
    ensures !KnownBits(s, n, bits) ==> ino == MIN_ALIAS + s'.issued
  {
    assert forall x :: x in s.active ==> x in All(s) && KnownReal(s, x.owner);
  }

  /** The real inode has the new spelling and no other, the alias of that spelling is out of use, and
      nothing else is changed. */
  lemma NewNameMeans(s: State, s': State, n: int, bits: seq<nat>)
    requires Sane(s) && NewName(s, s', n, bits)
    ensures !KnownReal(s, n) ==> s' == s
    ensures KnownReal(s, n) ==>
              (forall x: Real :: x in s'.names <==> if x.ino == n then x.bitmap == bits else x in s.names) &&
              (forall y :: y in s'.active <==> y in s.active && !(y.owner == n && y.bitmap == bits)) &&
              (forall y :: y in s'.removed <==>
                 y in s.removed || (y in s.active && y.owner == n && y.bitmap == bits)) &&
              s'.issued == s.issued
  {
    if KnownReal(s, n) {
      var x :| x in s.names && x.ino == n && BitsDropped(Renamed(s, x, bits), s', n, bits);
      forall z: Real ensures z in s'.names <==> if z.ino == n then z.bitmap == bits else z in s.names {
        if z.ino == n { assert z.bitmap == bits ==> z == Real(n, bits); }
      }
    }
  }

  /** An alias in use goes out of use; a real inode goes with all its aliases; nothing else is changed. */
  lemma DeletedMeans(s: State, s': State, n: int, rc: int)
    requires Sane(s) && DeletedNumber(s, s', n, rc)
    ensures rc == if (n > MIN_ALIAS && KnownIn(All(s), n)) || (n <= MIN_ALIAS && KnownReal(s, n)) then 0 else -ENOENT
    ensures s'.issued == s.issued
    ensures forall x :: x in s'.names <==> x in s.names && (n > MIN_ALIAS || x.ino != n)
    ensures forall x :: x in s'.active <==> x in s.active && x.ino != n && (n > MIN_ALIAS || x.owner != n)
    ensures forall x :: x in s'.removed <==>
              (x in s.removed && (n > MIN_ALIAS || x.owner != n)) || (n > MIN_ALIAS && x in s.active && x.ino == n)
  {
    if n <= MIN_ALIAS && !KnownReal(s, n) {
      forall x | x in All(s) ensures x.owner != n { assert KnownReal(s, x.owner); }
    }
    assert forall x :: x in All(s) ==> x.ino > MIN_ALIAS;
  }

  /** The alias that was given goes out of use, and nothing else is changed. */
  lemma NamedMeans(s: State, s': State, n: int, lower: AliasName.Name, found: bool, name: seq<int>, ino: int)
    requires Sane(s) && |lower| <= AliasName.GROUP * AliasName.WORDS && NamedAlias(s, s', n, lower, found, name, ino)
    ensures found <==> exists x :: x in s.active && x.owner == n
    ensures s'.names == s.names && s'.issued == s.issued
    ensures forall x :: x in s'.active <==> x in s.active && !(found && x.ino == ino)
    ensures forall x :: x in s'.removed <==> x in s.removed || (found && x in s.active && x.ino == ino)
    ensures found ==> exists x :: x in s.active && x.owner == n && x.ino == ino && SpelledBy(name, lower, x.bitmap)
  {
    if found {
      var x :| x in s.active && x.owner == n && x.ino == ino && s' == Shelved(s, x);
      forall y | y in s.active && y.ino == ino ensures y == x { assert x in All(s) && y in All(s); }
    }
  }

  /** Nothing a seek inserts meets a missing child. */
  ghost predicate SeekFits(w: World, h: Heap, issued: nat, n: int, bits: seq<nat>)
    requires Good(w, h, issued)
  {
    var s := View(BookOf(w), h, issued);
    (KnownReal(s, n) || Admits(w.reals, n)) &&
    (KnownBits(s, n, bits) ||
     (Admits(w.order, MIN_ALIAS + issued + 1) &&
      forall p :: p in w.family && p in h && h[p].ino == n ==> Admits(w.family[p], AliasName.MapKey(bits))))
  }

  lemma SeekNew(w: World, h: Heap, issued: nat, n: int, bits: seq<nat>)
    requires Good(w, h, issued) && forall q :: q in w.family && q in h ==> h[q].ino != n
    ensures var s := View(BookOf(w), h, issued);
            !KnownReal(s, n) && !KnownBits(s, n, bits) && Admits(Nil, AliasName.MapKey(bits)) &&
            SeekFits(w, h, issued, n, bits) == (Admits(w.reals, n) && Admits(w.order, MIN_ALIAS + issued + 1))
  {
    hide Tidy, Held;
    OwnersOnce(w, h, issued, n, bits);
    BookApart(w, h, issued);
    RealKnown(BookOf(w), h, issued, n);
  }

  lemma SeekKnown(w: World, h: Heap, issued: nat, n: int, bits: seq<nat>, p: int)
    requires Good(w, h, issued) && p in w.family && p in h && h[p].ino == n
    ensures var s := View(BookOf(w), h, issued);
            KnownReal(s, n) &&
            SeekFits(w, h, issued, n, bits) ==
              (KnownBits(s, n, bits) ||
               (Admits(w.order, MIN_ALIAS + issued + 1) && Admits(w.family[p], AliasName.MapKey(bits))))
  {
    hide Tidy, Admits;
    OwnersOnce(w, h, issued, n, bits);
    TreesApart(w, h, issued);
    RealKnown(BookOf(w), h, issued, n);
  }

  lemma NewHasNone(s: State, n: int, name: seq<nat>, bits: seq<nat>)
    ensures KnownBits(WithReal(s, Real(n, name)), n, bits) == KnownBits(s, n, bits)
  {
  }

  /** The alias whose name is asked for, the one at the top of its family tree, can be put among the unused. */
  ghost predicate NameFits(w: World, h: Heap, issued: nat, n: int, wantAlias: bool)
    requires Good(w, h, issued)
  {
    wantAlias ==> forall p :: p in w.family && p in h && h[p].ino == n && h[p].family != 0 && h[p].family in h ==>
      Admits(w.unused, h[h[p].family].ino)
  }

  lemma NameAt(w: World, h: Heap, issued: nat, p: int)
    requires Good(w, h, issued) && p in w.family && p in h
    ensures NameFits(w, h, issued, h[p].ino, true) ==
            (h[p].family != 0 ==> h[p].family in h && Admits(w.unused, h[h[p].family].ino))
  {
    hide Tidy;
    OwnersOnce(w, h, issued, h[p].ino, []);
    assert FamilyHeld(w, h, p);
    RootHeight(h, BY_BITMAP, w.family[p]);
  }

  class Aliases {
    const mem: AliasMemory
    var alias: int    // the root of the real inodes
    var order: int    // the root of the aliases in use
    var unused: int   // the root of the aliases out of use
    var issued: nat
    var top: int      // the next free pointer
    ghost var w: World

    ghost predicate Rooted()
      reads this`alias, this`order, this`unused, this`w
    {
      alias == Root(w.reals) && order == Root(w.order) && unused == Root(w.unused)
    }

    ghost predicate Valid()
      reads this, mem
    {
      Rooted() && Good(w, mem.heap, issued) && Bounded(mem.heap, top)
    }

    ghost function Now(): State
      requires Valid()
      reads this, mem
    {
      View(BookOf(w), mem.heap, issued)
    }

    constructor ()
      ensures Valid() && fresh(mem) && Now() == State({}, {}, {}, 0) && w == World(Nil, Nil, Nil, map[])
    {
      mem := new AliasMemory(map[]);
      alias, order, unused, issued, top := 0, 0, 0, 0, 1;
      w := World(Nil, Nil, Nil, map[]);
    }

    // ----- single trees

    method PlantOrder(e: int) returns (ok: bool)
      requires Rooted() && Held(w, mem.heap) && Placeable(mem.heap, BY_INO, w.order, e)
      requires Ids(w.reals) !! Ids(w.order) + {e} && Ids(w.unused) !! Ids(w.order) + {e}
      modifies this`order, this`w, mem
      ensures ok == Admits(old(w.order), old(mem.heap)[e].ino)
      ensures ok ==>
                Rooted() && Held(w, mem.heap) && w == old(w).(order := w.order) &&
                Ids(w.order) == old(Ids(w.order)) + {e}
      ensures ok ==> SameInfo(old(mem.heap), mem.heap)
    {
      ghost var h := mem.heap;
      AnyPointer(w.order, e, KeyOf(h[e], BY_INO));
      var r;
      ok, r := mem.InsertInto(order, e, BY_INO, w.order);
      if !ok { return; }
      order := r;
      ghost var t := WithEntry(h, BY_INO, w.order, e);
      InsertSound(w.order, e, KeyOf(h[e], BY_INO));
      InsertIds(w.order, e, KeyOf(h[e], BY_INO));
      OrderHeld(w, h, mem.heap, Ids(w.order) + {e}, t);
      TouchesInfo(h, mem.heap, BY_INO, Ids(w.order) + {e});
      w := w.(order := t);
    }

    method PlantUnused(e: int) returns (ok: bool)
      requires Rooted() && Held(w, mem.heap) && Placeable(mem.heap, BY_INO, w.unused, e)
      requires Ids(w.reals) !! Ids(w.unused) + {e} && Ids(w.order) !! Ids(w.unused) + {e}
      modifies this`unused, this`w, mem
      ensures ok == Admits(old(w.unused), old(mem.heap)[e].ino)
      ensures ok ==> Rooted() && Held(w, mem.heap) && w == old(w).(unused := w.unused)
      ensures ok ==> Ids(w.unused) == old(Ids(w.unused)) + {e} && SameInfo(old(mem.heap), mem.heap)
      ensures ok && Balanced(old(w.unused)) ==> Balanced(w.unused)
    {
      ghost var h := mem.heap;
      AnyPointer(w.unused, e, KeyOf(h[e], BY_INO));
      var r;
      ok, r := mem.InsertInto(unused, e, BY_INO, w.unused);
      if !ok { return; }
      unused := r;
      ghost var t := WithEntry(h, BY_INO, w.unused, e);
      InsertSound(w.unused, e, KeyOf(h[e], BY_INO));
      if Balanced(w.unused) { InsertBalanced(w.unused, e, KeyOf(h[e], BY_INO)); }
      InsertIds(w.unused, e, KeyOf(h[e], BY_INO));
      UnusedHeld(w, h, mem.heap, Ids(w.unused) + {e}, t);
      TouchesInfo(h, mem.heap, BY_INO, Ids(w.unused) + {e});
      w := w.(unused := t);
    }

    method PlantReal(e: int) returns (ok: bool)
      requires Rooted() && Held(w, mem.heap) && Placeable(mem.heap, BY_INO, w.reals, e)
      requires Ids(w.order) !! Ids(w.reals) + {e} && Ids(w.unused) !! Ids(w.reals) + {e}
      modifies this`alias, this`w, mem
      ensures ok == Admits(old(w.reals), old(mem.heap)[e].ino)
      ensures ok ==> Rooted() && Held(w, mem.heap) && w == old(w).(reals := w.reals)
      ensures ok ==> Ids(w.reals) == old(Ids(w.reals)) + {e} && SameInfo(old(mem.heap), mem.heap)
      ensures ok ==> Ok(w.reals) == Insert(old(w.reals), e, old(mem.heap)[e].ino)
    {
      ghost var h := mem.heap;
      AnyPointer(w.reals, e, KeyOf(h[e], BY_INO));
      var r;
      ok, r := mem.InsertInto(alias, e, BY_INO, w.reals);
      if !ok { return; }
      alias := r;
      ghost var t := WithEntry(h, BY_INO, w.reals, e);
      InsertSound(w.reals, e, KeyOf(h[e], BY_INO));
      InsertIds(w.reals, e, KeyOf(h[e], BY_INO));
      RealsHeld(w, h, mem.heap, Ids(w.reals) + {e}, t);
      TouchesInfo(h, mem.heap, BY_INO, Ids(w.reals) + {e});
      w := w.(reals := t);
    }

    method PullOrder(a: int)
      requires Rooted() && Held(w, mem.heap) && Removable(mem.heap, BY_INO, w.order, a)
      requires Ids(w.reals) !! Ids(w.order) && Ids(w.unused) !! Ids(w.order)
      modifies this`order, this`w, mem
      ensures Rooted() && Held(w, mem.heap) && w == old(w).(order := w.order) && Ids(w.order) == old(Ids(w.order)) - {a}
      ensures SameInfo(old(mem.heap), mem.heap) && LinkOf(mem.heap[a], BY_INO) == RESET
      ensures Touches(old(mem.heap), mem.heap, BY_INO, old(Ids(w.order)))
    {
      ghost var h := mem.heap;
      ghost var t := WithoutEntry(h, BY_INO, w.order, a);
      DeleteSound(w.order, KeyOf(h[a], BY_INO));
      DeleteIds(h, BY_INO, w.order, a);
      order := mem.DeleteFrom(order, a, BY_INO, w.order);
      OrderHeld(w, h, mem.heap, Ids(w.order), t);
      TouchesInfo(h, mem.heap, BY_INO, Ids(w.order));
      w := w.(order := t);
    }

    method PullUnused(a: int)
      requires Rooted() && Held(w, mem.heap) && Removable(mem.heap, BY_INO, w.unused, a)
      requires Ids(w.reals) !! Ids(w.unused) && Ids(w.order) !! Ids(w.unused)
      modifies this`unused, this`w, mem
      ensures Rooted() && Held(w, mem.heap) && w == old(w).(unused := w.unused) &&
              Ids(w.unused) == old(Ids(w.unused)) - {a}
      ensures Touches(old(mem.heap), mem.heap, BY_INO, old(Ids(w.unused)))
    {
      ghost var h := mem.heap;
      ghost var t := WithoutEntry(h, BY_INO, w.unused, a);
      DeleteSound(w.unused, KeyOf(h[a], BY_INO));
      DeleteIds(h, BY_INO, w.unused, a);
      unused := mem.DeleteFrom(unused, a, BY_INO, w.unused);
      UnusedHeld(w, h, mem.heap, Ids(w.unused), t);
      w := w.(unused := t);
    }

    method PullReal(a: int)
      requires Rooted() && Held(w, mem.heap) && Removable(mem.heap, BY_INO, w.reals, a)
      requires Ids(w.order) !! Ids(w.reals) && Ids(w.unused) !! Ids(w.reals)
      modifies this`alias, this`w, mem
      ensures Rooted() && Held(w, mem.heap) && w == old(w).(reals := w.reals) && Ids(w.reals) == old(Ids(w.reals)) - {a}
      ensures Touches(old(mem.heap), mem.heap, BY_INO, old(Ids(w.reals)))
      ensures w.reals == WithoutEntry(old(mem.heap), BY_INO, old(w.reals), a)
    {
      ghost var h := mem.heap;
      ghost var t := WithoutEntry(h, BY_INO, w.reals, a);
      DeleteSound(w.reals, KeyOf(h[a], BY_INO));
      DeleteIds(h, BY_INO, w.reals, a);
      alias := mem.DeleteFrom(alias, a, BY_INO, w.reals);
      RealsHeld(w, h, mem.heap, Ids(w.reals), t);
      w := w.(reals := t);
    }

    /** `e` enters the family tree of `p`; the links by number are not touched. */
    method PlantFamily(p: int, e: int) returns (ok: bool)
      requires Rooted() && Held(w, mem.heap) && FamilyApart(w, p) && Unseen(w, e)
      requires Placeable(mem.heap, BY_BITMAP, w.family[p], e) && p in mem.heap
      modifies this`w, mem
      ensures ok == Admits(old(w).family[p], AliasName.MapKey(old(mem.heap)[e].bitmap))
      ensures ok ==>
                Rooted() && Held(w, mem.heap) && w == old(w).(family := w.family) && w.family.Keys == old(w.family.Keys)
      ensures ok ==> Ids(w.family[p]) == old(Ids(w.family[p])) + {e}
      ensures ok ==> forall q :: q in w.family && q != p ==> w.family[q] == old(w).family[q]
      ensures ok ==> mem.heap.Keys == old(mem.heap.Keys) && SameButFamily(old(mem.heap), mem.heap, p)
      ensures ok ==> forall q :: q in mem.heap ==> LinkOf(mem.heap[q], BY_INO) == LinkOf(old(mem.heap)[q], BY_INO)
    {
      ghost var h := mem.heap;
      assert FamilyHeld(w, h, p);
      AnyPointer(w.family[p], e, KeyOf(h[e], BY_BITMAP));
      var root;
      ok, root := mem.InsertInto(mem.heap[p].family, e, BY_BITMAP, w.family[p]);
      if !ok { return; }
      ghost var t := WithEntry(h, BY_BITMAP, w.family[p], e);
      InsertSound(w.family[p], e, KeyOf(h[e], BY_BITMAP));
      InsertIds(w.family[p], e, KeyOf(h[e], BY_BITMAP));
      ghost var h1 := mem.heap;
      FamilyChanged(w, h, h1, Ids(w.family[p]) + {e}, p, t);
      TouchesInfo(h, h1, BY_BITMAP, Ids(w.family[p]) + {e});
      mem.heap := mem.heap[p := mem.heap[p].(family := root)];
      w := w.(family := w.family[p := t]);
    }

    method PullFamily(p: int, a: int)
      requires Rooted() && Held(w, mem.heap) && FamilyApart(w, p)
      requires Removable(mem.heap, BY_BITMAP, w.family[p], a) && p in mem.heap
      modifies this`w, mem
      ensures Rooted() && Held(w, mem.heap) && w == old(w).(family := w.family) && w.family.Keys == old(w.family.Keys)
      ensures Ids(w.family[p]) == old(Ids(w.family[p])) - {a}
      ensures forall q :: q in w.family && q != p ==> w.family[q] == old(w).family[q]
      ensures mem.heap.Keys == old(mem.heap.Keys) && SameButFamily(old(mem.heap), mem.heap, p)
      ensures forall q :: q in mem.heap ==> LinkOf(mem.heap[q], BY_INO) == LinkOf(old(mem.heap)[q], BY_INO)
    {
      ghost var h := mem.heap;
      ghost var t := WithoutEntry(h, BY_BITMAP, w.family[p], a);
      DeleteSound(w.family[p], KeyOf(h[a], BY_BITMAP));
      DeleteIds(h, BY_BITMAP, w.family[p], a);
      assert FamilyHeld(w, h, p);
      var root := mem.DeleteFrom(mem.heap[p].family, a, BY_BITMAP, w.family[p]);
      ghost var h1 := mem.heap;
      FamilyChanged(w, h, h1, Ids(w.family[p]), p, t);
      TouchesInfo(h, h1, BY_BITMAP, Ids(w.family[p]));
      mem.heap := mem.heap[p := mem.heap[p].(family := root)];
      w := w.(family := w.family[p := t]);
    }

    // ----- looking up

    method FindReal(n: int) returns (p: int)
      requires Valid()
      ensures p != 0 ==> p in w.family && p in mem.heap && mem.heap[p].ino == n
      ensures forall q :: q in w.family && q in mem.heap && mem.heap[q].ino == n ==> q == p != 0
    {
      TreesApart(w, mem.heap, issued);
      p := mem.Find(alias, n, BY_INO, w.reals);
      FoundByNumber(mem.heap, w.reals, p, n);
    }

    /** An alias number gives the real inode it stands for, any other number itself. */
    method GetReal(n: int) returns (r: int)
      requires Valid()
      ensures Resolves(Now(), n, r)
    {
      ghost var b, h := BookOf(w), mem.heap;
      var a := mem.Find(unused, n, BY_INO, w.unused);
      FoundByNumber(h, w.unused, a, n);
      if a == 0 {
        a := mem.Find(order, n, BY_INO, w.order);
        FoundByNumber(h, w.order, a, n);
        if a == 0 {
          NotAnAlias(b, h, issued, n);
          return n;
        }
      }
      KnownAlias(b, h, issued, a);
      return mem.heap[mem.heap[a].family].ino;
    }

    // ----- new entries
    // Each reports whether it got through; if not, the source has gone through a null pointer.

    /** The memory side of a new real inode. */
    method EnterReal(n: int, bits: seq<nat>) returns (ok: bool, p: int)
      requires Valid() && forall q :: q in w.family && q in mem.heap ==> mem.heap[q].ino != n
      modifies this, mem
      ensures ok == Admits(old(w.reals), n)
      ensures ok ==> Rooted() && Held(w, mem.heap) && w == old(w).(reals := w.reals, family := old(w).family[p := Nil])
      ensures ok ==>
                p == old(top) && top == p + 1 && p !in old(mem.heap) && p !in old(w).family && issued == old(issued)
      ensures ok ==> Ids(w.reals) == old(Ids(w.reals)) + {p}
      ensures ok ==> SameInfo(old(mem.heap)[p := Entry(n, bits, 0, RESET, RESET)], mem.heap)
      ensures ok ==> Ok(w.reals) == Insert(old(w.reals), p, n)
    {
      hide Admits, Tidy;
      ghost var h := mem.heap;
      TreesApart(w, h, issued);
      p := top;
      top := top + 1;
      EntryHeld(w, h, p, Entry(n, bits, 0, RESET, RESET));
      mem.heap := mem.heap[p := Entry(n, bits, 0, RESET, RESET)];
      NoNumber(mem.heap, BY_INO, w.reals, n);
      ok := PlantReal(p);
      if !ok { return; }
      NewFamilyHeld(w, mem.heap, p);
      w := w.(family := w.family[p := Nil]);
    }

    method AddReal(n: int, bits: seq<nat>) returns (ok: bool, p: int)
      requires Valid() && n <= MIN_ALIAS && AliasName.Legit(bits)
      requires forall q :: q in w.family && q in mem.heap ==> mem.heap[q].ino != n
      modifies this, mem
      ensures ok == Admits(old(w.reals), n)
      ensures ok ==> Valid() && Now() == WithReal(old(Now()), Real(n, bits))
      ensures ok ==> p in w.family && p in mem.heap && mem.heap[p].ino == n && issued == old(issued)
      ensures ok ==> w == old(w).(reals := w.reals, family := old(w).family[p := Nil])
      ensures ok ==> p == old(top) && Ok(w.reals) == Insert(old(w.reals), p, n)
    {
      hide Admits, Tidy, Held;
      ghost var w0, h := w, mem.heap;
      TreesApart(w, h, issued);
      ok, p := EnterReal(n, bits);
      if ok { RealEntered(w0, h, w, mem.heap, p, n, bits, issued); }
    }

    /** A new entry in the family tree of `p`. */
    method EnterFamily(p: int, e: int, n: int, bits: seq<nat>) returns (ok: bool)
      requires Rooted() && Held(w, mem.heap) && FamilyApart(w, p) && p in mem.heap && e !in mem.heap && e != 0
      requires !HasKey(Items(w.family[p]), AliasName.MapKey(bits))
      modifies this`w, mem
      ensures ok == Admits(old(w).family[p], AliasName.MapKey(bits))
      ensures ok ==> Rooted() && Held(w, mem.heap) && FamilyJoined(old(w), w, p, e) && w.order == old(w).order
      ensures ok ==> InfoEntering(old(mem.heap), mem.heap, p, e, n, bits) && LinkOf(mem.heap[e], BY_INO) == RESET
    {
      ghost var w0, h := w, mem.heap;
      NewPointer(w, h, e);
      EntryHeld(w, h, e, Entry(n, bits, 0, RESET, RESET));
      mem.heap := mem.heap[e := Entry(n, bits, 0, RESET, RESET)];
      assert FamilyHeld(w, mem.heap, p);
      CanPlace(mem.heap, BY_BITMAP, w.family[p], e);
      ok := PlantFamily(p, e);
      if !ok { return; }
      OwnerHeld(w, mem.heap, e, p);
      mem.heap := mem.heap[e := mem.heap[e].(family := p)];
    }

    /** The new entry is in its family and about to get into `order`. */
    ghost predicate Joining(w0: World, h: Heap, p: int, e: int, n: int, bits: seq<nat>)
      reads this, mem
    {
      Rooted() && Held(w, mem.heap) && FamilyJoined(w0, w, p, e) && w.order == w0.order &&
      InfoEntering(h, mem.heap, p, e, n, bits) && Placeable(mem.heap, BY_INO, w.order, e) &&
      Ids(w.reals) !! Ids(w.order) + {e} && Ids(w.unused) !! Ids(w.order) + {e}
    }

    method JoinFamily(p: int, e: int, bits: seq<nat>) returns (ok: bool)
      requires Valid() && p in w.family && p in mem.heap && e == top
      requires !HasKey(Items(w.family[p]), AliasName.MapKey(bits))
      modifies this`w, mem
      ensures ok == Admits(old(w).family[p], AliasName.MapKey(bits))
      ensures ok ==> Joining(old(w), old(mem.heap), p, e, MIN_ALIAS + issued + 1, bits)
    {
      ghost var w0, h := w, mem.heap;
      FamiliesApart(w, h, issued, p);
      ok := EnterFamily(p, e, MIN_ALIAS + issued + 1, bits);
      if ok { OrderReady(w0, h, w, mem.heap, p, e, bits, issued); }
    }

    method AddAlias(p: int, bits: seq<nat>) returns (ok: bool, e: int)
      requires Valid() && p in w.family && p in mem.heap
      requires !HasKey(Items(w.family[p]), AliasName.MapKey(bits)) && AliasName.Legit(bits)
      modifies this, mem
      ensures ok ==
              (Admits(old(w).family[p], AliasName.MapKey(bits)) && Admits(old(w.order), MIN_ALIAS + old(issued) + 1))
      ensures ok ==> Valid() && e in mem.heap && mem.heap[e].ino == MIN_ALIAS + old(issued) + 1
      ensures ok ==> Now() == WithAlias(old(Now()), Alias(MIN_ALIAS + old(issued) + 1, old(mem.heap)[p].ino, bits))
      ensures ok ==> w.reals == old(w.reals) && w.unused == old(w.unused)
    {
      hide Tidy, Admits, Held;
      ghost var w0, h := w, mem.heap;
      e := top;
      ok := JoinFamily(p, e, bits);
      if !ok { return; }
      ghost var h1 := mem.heap;
      ok := Count(e);
      if !ok { return; }
      AliasEntered(w0, h, w, h1, mem.heap, p, e, bits, old(issued));
      BoundedMore(h, mem.heap, e);
    }

    /** The new entry gets into `order`, and its number counts as issued. */
    method Count(e: int) returns (ok: bool)
      requires Rooted() && Held(w, mem.heap) && Placeable(mem.heap, BY_INO, w.order, e)
      requires Ids(w.reals) !! Ids(w.order) + {e} && Ids(w.unused) !! Ids(w.order) + {e}
      modifies this, mem
      ensures ok == Admits(old(w.order), old(mem.heap)[e].ino)
      ensures ok ==> Rooted() && Held(w, mem.heap) && w == old(w).(order := w.order)
      ensures ok ==> Ids(w.order) == old(Ids(w.order)) + {e}
      ensures ok ==> SameInfo(old(mem.heap), mem.heap) && issued == old(issued) + 1 && top == old(top) + 1
    {
      ok := PlantOrder(e);
      issued := issued + 1;
      top := top + 1;
    }

    // ----- the operations of the group

    /** The number for a spelling of the name of a real inode, a new one if need be. It gets through
        exactly when nothing it inserts meets a missing child. */
    method SeekAndAdd(n: int, realName: AliasName.Name, aliasName: AliasName.Name) returns (ok: bool, ino: int)
      requires Valid() && n <= MIN_ALIAS
      requires |realName| <= AliasName.GROUP * AliasName.WORDS && |aliasName| <= AliasName.GROUP * AliasName.WORDS
      modifies this, mem
      ensures ok == SeekFits(old(w), old(mem.heap), old(issued), n, AliasName.Bitmap(aliasName))
      ensures ok ==>
                Valid() && Sought(old(Now()), Now(), n, AliasName.Bitmap(realName), AliasName.Bitmap(aliasName), ino)
      ensures ok ==> w.unused == old(w.unused)
      ensures ok ==>
                Ok(w.reals) == if KnownReal(old(Now()), n) then Ok(old(w.reals)) else Insert(old(w.reals), old(top), n)
    {
      hide SeekFits, Sought, Tidy, Held;
      var realBits := AliasName.NameToBitmap(realName);
      var bits := AliasName.NameToBitmap(aliasName);
      AliasName.BitmapLegit(realName);
      AliasName.BitmapLegit(aliasName);
      var p := FindReal(n);
      if p == 0 {
        ok, ino := SeekForNew(n, realBits, bits);
      } else {
        ok, ino := SeekForKnown(n, p, realBits, bits);
      }
    }

    method SeekForKnown(n: int, p: int, ghost realBits: seq<nat>, bits: seq<nat>) returns (ok: bool, ino: int)
      requires Valid() && p in w.family && p in mem.heap && mem.heap[p].ino == n && AliasName.Legit(bits)
      modifies this, mem
      ensures ok == SeekFits(old(w), old(mem.heap), old(issued), n, bits)
      ensures ok ==> Valid() && Sought(old(Now()), Now(), n, realBits, bits, ino)
      ensures ok ==> w.reals == old(w.reals) && w.unused == old(w.unused)
      ensures KnownReal(old(Now()), n)
    {
      hide SeekFits, Tidy, Admits, Held, KnownReal, KnownBits;
      SeekKnown(w, mem.heap, issued, n, bits, p);
      ok, ino := NeedAlias(p, bits);
    }

    method SeekForNew(n: int, realBits: seq<nat>, bits: seq<nat>) returns (ok: bool, ino: int)
      requires Valid() && n <= MIN_ALIAS && AliasName.Legit(realBits) && AliasName.Legit(bits)
      requires forall q :: q in w.family && q in mem.heap ==> mem.heap[q].ino != n
      modifies this, mem
      ensures ok == SeekFits(old(w), old(mem.heap), old(issued), n, bits)
      ensures ok ==> Valid() && Sought(old(Now()), Now(), n, realBits, bits, ino)
      ensures !KnownReal(old(Now()), n) &&
              (ok ==> Ok(w.reals) == Insert(old(w.reals), old(top), n) && w.unused == old(w.unused))
    {
      hide SeekFits, Tidy, Admits, Held, KnownReal, KnownBits;
      SeekNew(w, mem.heap, issued, n, bits);
      NewHasNone(Now(), n, realBits, bits);
      ino := 0;
      var p;
      ok, p := AddReal(n, realBits);
      if ok { ok, ino := NeedAlias(p, bits); }
    }

    method NeedAlias(p: int, bits: seq<nat>) returns (ok: bool, ino: int)
      requires Valid() && p in w.family && p in mem.heap && AliasName.Legit(bits)
      modifies this, mem
      ensures ok == (KnownBits(old(Now()), old(mem.heap)[p].ino, bits) ||
                     (Admits(old(w).family[p], AliasName.MapKey(bits)) &&
                      Admits(old(w.order), MIN_ALIAS + old(issued) + 1)))
      ensures ok ==> Valid()
      ensures var n := old(mem.heap)[p].ino;
              ok ==> if KnownBits(old(Now()), n, bits) then Now() == old(Now()) && Alias(ino, n, bits) in Now().active
                     else ino == MIN_ALIAS + old(issued) + 1 && Now() == WithAlias(old(Now()), Alias(ino, n, bits))
      ensures ok ==> w.reals == old(w.reals) && w.unused == old(w.unused)
    {
      hide Admits, Tidy;
      ok, ino := true, 0;
      assert FamilyHeld(w, mem.heap, p);
      TreesApart(w, mem.heap, issued);
      BitsKnown(BookOf(w), mem.heap, issued, p, bits);
      var child := mem.Find(mem.heap[p].family, AliasName.MapKey(bits), BY_BITMAP, w.family[p]);
      FoundByBits(w, mem.heap, issued, p, child, bits);
      if child == 0 {
        ok, child := AddAlias(p, bits);
        if !ok { return; }
      } else {
        KnownAlias(BookOf(w), mem.heap, issued, child);
      }
      ino := mem.heap[child].ino;
    }

    // ----- aliases going out of use

    /** `a` has left its family and `order`. */
    ghost predicate Leaving(w0: World, h: Heap, p: int, a: int)
      reads this, mem
    {
      Rooted() && Held(w, mem.heap) && FamilyLeft(w0, w, p, a) && Ids(w.order) == Ids(w0.order) - {a} &&
      w.unused == w0.unused && mem.heap.Keys == h.Keys && SameButFamily(h, mem.heap, p) &&
      Placeable(mem.heap, BY_INO, w.unused, a) &&
      Ids(w.reals) !! Ids(w.unused) + {a} && Ids(w.order) !! Ids(w.unused) + {a}
    }

    method Unhook(p: int, a: int)
      requires Valid() && p in w.family && a in Ids(w.family[p])
      modifies this`order, this`w, mem
      ensures Leaving(old(w), old(mem.heap), p, a)
    {
      ghost var w0, h := w, mem.heap;
      CanLeave(w, h, issued, p, a);
      TreesApart(w, h, issued);
      PullFamily(p, a);
      PullOrder(a);
      UnusedReady(w0, h, issued, w, mem.heap, p, a);
    }

    /** Out of the family and of `order`, into the unused. */
    method Retire(p: int, a: int) returns (ok: bool)
      requires Valid() && p in w.family && a in Ids(w.family[p])
      modifies this`order, this`unused, this`w, mem
      ensures a in old(mem.heap) && p in old(mem.heap) && ok == Admits(old(w.unused), old(mem.heap)[a].ino)
      ensures ok ==> Valid()
      ensures ok ==>
                Now() == Shelved(old(Now()), Alias(old(mem.heap)[a].ino, old(mem.heap)[p].ino, old(mem.heap)[a].bitmap))
      ensures ok ==> w.reals == old(w.reals) && (Balanced(old(w.unused)) ==> Balanced(w.unused))
    {
      hide Tidy;
      ghost var w0, h := w, mem.heap;
      CanLeave(w, h, issued, p, a);
      Unhook(p, a);
      ghost var h1 := mem.heap;
      ok := PlantUnused(a);
      if !ok { return; }
      AliasRetired(w0, h, issued, w, h1, mem.heap, p, a);
      SameBound(h, mem.heap, top);
    }

    /** The real inode takes a new name; an alias of that very name goes out of use. */
    method Update(n: int, name: AliasName.Name) returns (ok: bool, rc: int)
      requires Valid() && |name| <= AliasName.GROUP * AliasName.WORDS
      modifies this, mem
      ensures ok == (KnownReal(old(Now()), n) ==> ShelfFits(old(Now()), old(w.unused), n, AliasName.Bitmap(name)))
      ensures ok ==> Valid() && rc == if KnownReal(old(Now()), n) then 0 else -ENOENT
      ensures ok ==> NewName(old(Now()), Now(), n, AliasName.Bitmap(name))
      ensures ok && KnownReal(old(Now()), n) ==> forall x: Real :: x in Now().names <==>
                if x.ino == n then x.bitmap == AliasName.Bitmap(name) else x in old(Now()).names
    {
      ok := true;
      ghost var s := Now();
      ViewSane(BookOf(w), mem.heap, issued);
      var p := FindReal(n);
      RealKnown(BookOf(w), mem.heap, issued, n);
      TreesApart(w, mem.heap, issued);
      if p == 0 { return true, -ENOENT; }
      var bits := AliasName.NameToBitmap(name);
      AliasName.BitmapLegit(name);
      Rename(p, bits);
      ok := DropBits(p, bits);
      rc := 0;
      if ok { NewNameMeans(s, Now(), n, bits); }
    }

    method Rename(p: int, bits: seq<nat>)
      requires Valid() && p in w.family && p in mem.heap && AliasName.Legit(bits)
      modifies mem
      ensures Valid() && p in mem.heap && mem.heap[p].ino == old(mem.heap)[p].ino
      ensures Now() == Renamed(old(Now()), RealAt(old(mem.heap), p), bits)
    {
      ghost var h := mem.heap;
      TreesApart(w, h, issued);
      RenamedTidy(BookOf(w), h, p, bits, issued);
      mem.heap := mem.heap[p := mem.heap[p].(bitmap := bits)];
      NameHeld(w, h, p, bits, issued);
    }

    /** The alias of the family with these bits, if any, goes out of use. */
    method DropBits(p: int, bits: seq<nat>) returns (ok: bool)
      requires Valid() && p in w.family && p in mem.heap && AliasName.Legit(bits)
      modifies this, mem
      ensures ok == ShelfFits(old(Now()), old(w.unused), old(mem.heap)[p].ino, bits)
      ensures ok ==> Valid() && BitsDropped(old(Now()), Now(), old(mem.heap)[p].ino, bits)
    {
      ok := true;
      assert FamilyHeld(w, mem.heap, p);
      TreesApart(w, mem.heap, issued);
      BitsKnown(BookOf(w), mem.heap, issued, p, bits);
      var child := mem.Find(mem.heap[p].family, AliasName.MapKey(bits), BY_BITMAP, w.family[p]);
      FoundByBits(w, mem.heap, issued, p, child, bits);
      if child != 0 {
        KnownAlias(BookOf(w), mem.heap, issued, child);
        OneWithBits(BookOf(w), mem.heap, issued, child);
        ok := Retire(p, child);
      }
    }

    // ----- freeing entries

    method Free(a: int)
      requires a in mem.heap && Held(w, mem.heap) && Unseen(w, a)
      modifies mem
      ensures mem.heap == old(mem.heap) - {a} && Held(w, mem.heap)
    {
      FreeHeld(w, mem.heap, a);
      mem.heap := mem.heap - {a};
    }

    /** Takes a whole family tree out of `order` and frees its entries, from the leaves up. */
    method DeleteAll(root: int, ghost t: Tree)
      requires Rooted() && Held(w, mem.heap) && root == Root(t) && Stores(mem.heap, BY_BITMAP, t) && Search(t)
      requires OnlyOrder(w, Ids(t)) && NumbersApart(w)
      modifies this`order, this`w, mem
      ensures Rooted() && Held(w, mem.heap) && w == old(w).(order := w.order) &&
              Ids(w.order) == old(Ids(w.order)) - Ids(t)
      ensures Freed(old(mem.heap), mem.heap, Ids(t)) && NumbersApart(w)
      decreases t
    {
      if root == 0 { return; }
      hide OnlyOrder, Held;
      ghost var w0, h := w, mem.heap;
      SearchApart(h, BY_BITMAP, t);
      OnlyOrderParts(w0, t);
      RootHeight(h, BY_BITMAP, t);
      DeleteAll(LinkOf(mem.heap[root], BY_BITMAP).left, t.left);
      OnlyOrderLater(w0, w, Ids(t.left), Ids(t.right));
      ghost var h1 := mem.heap;
      FreedStores(h, h1, Ids(t.left), t.right);
      DeleteAll(LinkOf(mem.heap[root], BY_BITMAP).right, t.right);
      OnlyOrderLater(w0, w, Ids(t.left) + Ids(t.right), {root});
      ghost var h2 := mem.heap;
      FreedTwice(h, h1, h2, Ids(t.left), Ids(t.right));
      FreeOne(root);
      FreedTwice(h, h2, mem.heap, Ids(t.left) + Ids(t.right), {root});
      assert Ids(t.left) + Ids(t.right) + {root} == Ids(t);
    }

    method FreeOne(a: int)
      requires Rooted() && Held(w, mem.heap) && OnlyOrder(w, {a}) && NumbersApart(w) && a in mem.heap
      modifies this`order, this`w, mem
      ensures Rooted() && Held(w, mem.heap) && w == old(w).(order := w.order) && Ids(w.order) == old(Ids(w.order)) - {a}
      ensures Freed(old(mem.heap), mem.heap, {a}) && NumbersApart(w)
    {
      PullOrder(a);
      Free(a);
    }

    /** Some entry of the tree whose real inode has number `n`, or 0. */
    method FindUnused(root: int, n: int, ghost t: Tree) returns (a: int)
      requires root == Root(t) && Stores(mem.heap, BY_INO, t) && OwnersKnown(mem.heap, Ids(t))
      ensures a != 0 ==> a in Ids(t) && OwnedBy(mem.heap, a, n)
      ensures a == 0 ==> forall q :: q in Ids(t) ==> !OwnedBy(mem.heap, q, n)
      decreases t
    {
      if root == 0 { return 0; }
      RootHeight(mem.heap, BY_INO, t);
      if mem.heap[mem.heap[root].family].ino == n { return root; }
      a := FindUnused(LinkOf(mem.heap[root], BY_INO).left, n, t.left);
      if a == 0 { a := FindUnused(LinkOf(mem.heap[root], BY_INO).right, n, t.right); }
    }

    /** Frees the unused aliases of real inode `p`, one after the other. */
    method FreeUnused(p: int, n: int) returns (ghost gone: set<int>)
      requires Rooted() && Held(w, mem.heap) && Purgeable(w, mem.heap, p, n)
      modifies this`unused, this`w, mem
      ensures Rooted() && Held(w, mem.heap) && w == old(w).(unused := w.unused)
      ensures Purged(old(w), old(mem.heap), w, mem.heap, p, gone)
      ensures forall a :: a in Ids(w.unused) && a in old(mem.heap) ==> old(mem.heap)[a].family != p
    {
      gone := {};
      ghost var w0, h := w, mem.heap;
      var a := FindUnused(unused, n, w.unused);
      while a != 0
        invariant Rooted() && Held(w, mem.heap) && w == w0.(unused := w.unused)
        invariant Purged(w0, h, w, mem.heap, p, gone)
        invariant a != 0 ==> a in Ids(w.unused) && OwnedBy(mem.heap, a, n)
        invariant a == 0 ==> forall q :: q in Ids(w.unused) ==> !OwnedBy(mem.heap, q, n)
        decreases Ids(w.unused), a != 0
      {
        PurgeOne(w0, h, w, mem.heap, p, n, gone, a);
        ghost var w1, h1 := w, mem.heap;
        FreeUnusedOne(a);
        PurgeNext(w0, h, w1, h1, w, mem.heap, p, n, gone, a);
        gone := gone + {a};
        a := FindUnused(unused, n, w.unused);
      }
      PurgeEnd(w0, h, w, mem.heap, p, n, gone);
    }

    method FreeUnusedOne(a: int)
      requires Rooted() && Held(w, mem.heap) && UnusedApart(w) && NumbersApart(w) && a in mem.heap && a in Ids(w.unused)
      modifies this`unused, this`w, mem
      ensures Rooted() && Held(w, mem.heap) && w == old(w).(unused := w.unused) &&
              Ids(w.unused) == old(Ids(w.unused)) - {a}
      ensures Freed(old(mem.heap), mem.heap, {a}) && NumbersApart(w)
    {
      PullUnused(a);
      Free(a);
    }

    // ----- a real inode goes

    /** The aliases in use of `p` are freed. */
    method DropFamily(p: int)
      requires Valid() && p in w.family && p in mem.heap
      modifies this`order, this`w, mem
      ensures Rooted() && Held(w, mem.heap) && FamilyGone(old(w), old(mem.heap), w, mem.heap, p)
    {
      ghost var w0, h, t := w, mem.heap, w.family[p];
      assert FamilyHeld(w, h, p);
      FamilyAlone(w, h, issued, p);
      w := w.(family := w.family - {p});
      FewerFamilies(w0, h, p);
      DeleteAll(mem.heap[p].family, t);
      ghost var h1 := mem.heap;
      OwnerHeld(w, h1, p, 0);
      mem.heap := mem.heap[p := mem.heap[p].(family := 0)];
    }

    method DropReal(p: int, n: int)
      requires Valid() && p in w.family && p in mem.heap && mem.heap[p].ino == n
      modifies this, mem
      ensures Valid() && Now() == WithoutFamily(old(Now()), RealAt(old(mem.heap), p))
      ensures w.reals == AvlTree.Delete(old(w.reals), n)
    {
      hide Tidy, Held;
      ghost var w0, h := w, mem.heap;
      DropFamily(p);
      ghost var w1, h1 := w, mem.heap;
      StillPurgeable(w0, h, issued, w1, h1, p);
      ghost var gone := FreeUnused(p, n);
      ghost var w2, h2 := w, mem.heap;
      CanDrop(w0, h, issued, w1, h1, w2, h2, p, gone);
      FreeReal(p);
      FamilyDropped(w0, h, issued, w1, h1, w2, h2, w, mem.heap, p, gone);
    }

    method FreeReal(p: int)
      requires Rooted() && Held(w, mem.heap) && NumbersApart(w) && p in mem.heap && p in Ids(w.reals)
      requires p !in w.family && forall q :: q in w.family ==> p !in Ids(w.family[q])
      modifies this`alias, this`w, mem
      ensures Rooted() && Held(w, mem.heap) && w == old(w).(reals := w.reals) && Ids(w.reals) == old(Ids(w.reals)) - {p}
      ensures Freed(old(mem.heap), mem.heap, {p})
      ensures w.reals == AvlTree.Delete(old(w.reals), old(mem.heap)[p].ino)
    {
      PullReal(p);
      Free(p);
    }

    /** An alias in use goes out of use; a real inode goes with all its aliases. */
    method Delete(n: int) returns (ok: bool, rc: int)
      requires Valid()
      modifies this, mem
      ensures ok == (n > MIN_ALIAS && KnownIn(old(Now()).active, n) ==> Admits(old(w.unused), n))
      ensures ok ==> Valid() && DeletedNumber(old(Now()), Now(), n, rc)
      ensures ok && n > MIN_ALIAS ==> w.reals == old(w.reals) && (Balanced(old(w.unused)) ==> Balanced(w.unused))
      ensures ok && n <= MIN_ALIAS ==>
                w.reals == if KnownReal(old(Now()), n) then AvlTree.Delete(old(w.reals), n) else old(w.reals)
    {
      if n > MIN_ALIAS {
        ok, rc := DeleteAlias(n);
      } else {
        ok := true;
        var p := FindReal(n);
        RealKnown(BookOf(w), mem.heap, issued, n);
        TreesApart(w, mem.heap, issued);
        if p == 0 { return true, -ENOENT; }
        RealListed(BookOf(w), mem.heap, issued, p);
        DropReal(p, n);
        rc := 0;
      }
    }

    method DeleteAlias(n: int) returns (ok: bool, rc: int)
      requires Valid() && n > MIN_ALIAS
      modifies this, mem
      ensures ok == (KnownIn(old(Now()).active, n) ==> Admits(old(w.unused), n))
      ensures ok ==> Valid() && DeletedNumber(old(Now()), Now(), n, rc)
      ensures ok ==> w.reals == old(w.reals) && (Balanced(old(w.unused)) ==> Balanced(w.unused))
    {
      ghost var b, h := BookOf(w), mem.heap;
      TreesApart(w, h, issued);
      var r := GetReal(n);
      var p := FindReal(r);
      if p == 0 {
        NoOwner(w, h, issued, n, r);
        return true, -ENOENT;
      }
      var a := mem.Find(order, n, BY_INO, w.order);
      FoundByNumber(h, w.order, a, n);
      if a == 0 {
        OnlyRemoved(w, h, issued, n, r, p);
        return true, 0;
      }
      KnownAlias(b, h, issued, a);
      OwnOwner(w, h, issued, n, r, p, a);
      ok := Retire(p, a);
      rc := 0;
    }

    /** The name of the real inode, or of some alias in use, which then goes out of use. */
    method GetName(n: int, lower: AliasName.Name, wantAlias: bool) 
      returns (ok: bool, found: bool, name: seq<int>, ino: int)
      requires Valid() && |lower| <= AliasName.GROUP * AliasName.WORDS
      modifies this, mem
      ensures ok == NameFits(old(w), old(mem.heap), old(issued), n, wantAlias)
      ensures ok ==> Valid()
      ensures ok && wantAlias ==> NamedAlias(old(Now()), Now(), n, lower, found, name, ino)
      ensures ok && !wantAlias ==> Now() == old(Now()) && NamedReal(Now(), n, lower, found, name)
    {
      ok := true;
      var p := FindReal(n);
      ino := 0;
      RealKnown(BookOf(w), mem.heap, issued, n);
      TreesApart(w, mem.heap, issued);
      if p == 0 {
        OwnerIsReal(BookOf(w), mem.heap, issued);
        return true, false, [], 0;
      }
      RealListed(BookOf(w), mem.heap, issued, p);
      if !wantAlias {
        name := AliasName.BitmapToName(lower, mem.heap[p].bitmap);
        return true, true, name, 0;
      }
      ok, found, name, ino := TakeAlias(p, lower);
    }

    method TakeAlias(p: int, lower: AliasName.Name) returns (ok: bool, found: bool, name: seq<int>, ino: int)
      requires Valid() && |lower| <= AliasName.GROUP * AliasName.WORDS && p in w.family && p in mem.heap
      modifies this, mem
      ensures ok == NameFits(old(w), old(mem.heap), old(issued), old(mem.heap)[p].ino, true)
      ensures ok ==> Valid() && NamedAlias(old(Now()), Now(), old(mem.heap)[p].ino, lower, found, name, ino)
    {
      assert FamilyHeld(w, mem.heap, p);
      NameAt(w, mem.heap, issued, p);
      var child := mem.heap[p].family;
      if child == 0 {
        EmptyFamily(w, mem.heap, issued, p);
        return true, false, [], 0;
      }
      RootHeight(mem.heap, BY_BITMAP, w.family[p]);
      CanLeave(w, mem.heap, issued, p, child);
      KnownAlias(BookOf(w), mem.heap, issued, child);
      var bits := mem.heap[child].bitmap;
      ino := mem.heap[child].ino;
      ok := Retire(p, child);
      name := AliasName.BitmapToName(lower, bits);
      found := true;
    }
  }
}
