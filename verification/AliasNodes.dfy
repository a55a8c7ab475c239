/** Alias entries in memory. Each has two sets of tree links: one for the trees ordered by inode
    number, one for the family tree ordered by bitmap. */
module AliasNodes {
  import opened AvlTree
  import AliasName

  const BY_INO: nat := 0
  const BY_BITMAP: nat := 1

  /** Pointers are numbers, 0 being null. */
  datatype Link = Link(left: int, right: int, height: int)

  const RESET := Link(0, 0, 1)

  datatype Entry = Entry(ino: int, bitmap: seq<nat>, family: int, byIno: Link, byMap: Link)

  type Heap = map<int, Entry>

  function LinkOf(e: Entry, i: nat): Link { if i == BY_INO then e.byIno else e.byMap }

  function KeyOf(e: Entry, i: nat): int { if i == BY_INO then e.ino else AliasName.MapKey(e.bitmap) }

  /** An entry with one of its links replaced. */
  function Relinked(e: Entry, i: nat, l: Link): Entry {
    if i == BY_INO then e.(byIno := l) else e.(byMap := l)
  }

  function Put(h: Heap, p: int, i: nat, l: Link): Heap
    requires p in h
  {
    h[p := Relinked(h[p], i, l)]
  }

  // ----- a tree in memory

  function Root(t: Tree): int { if t.Nil? then 0 else t.id }

  function Ids(t: Tree): set<int> { if t.Nil? then {} else Ids(t.left) + {t.id} + Ids(t.right) }

  ghost predicate StoresNode(h: Heap, i: nat, t: Tree)
    requires t.Node?
  {
    t.id != 0 && t.id in h && KeyOf(h[t.id], i) == t.key &&
    LinkOf(h[t.id], i) == Link(Root(t.left), Root(t.right), t.height)
  }

  ghost predicate Stores(h: Heap, i: nat, t: Tree) {
    t.Node? ==> StoresNode(h, i, t) && Stores(h, i, t.left) && Stores(h, i, t.right)
  }

  /** Entries in `s` may have changed in link set `i`; nothing else has. */
  ghost predicate Touches(h: Heap, h': Heap, i: nat, s: set<int>) {
    h'.Keys == h.Keys &&
    forall p :: p in h ==> h'[p] == (if p in s then Relinked(h[p], i, LinkOf(h'[p], i)) else h[p])
  }

  lemma TouchesTrans(h: Heap, h1: Heap, h': Heap, i: nat, s: set<int>, s': set<int>)
    requires Touches(h, h1, i, s) && Touches(h1, h', i, s')
    ensures Touches(h, h', i, s + s')
  {
    forall p | p in h
      ensures h'[p] == (if p in s + s' then Relinked(h[p], i, LinkOf(h'[p], i)) else h[p])
    {
      assert h1[p] == (if p in s then Relinked(h[p], i, LinkOf(h1[p], i)) else h[p]);
    }
  }

  lemma TouchesMore(h: Heap, h': Heap, i: nat, s: set<int>, s': set<int>)
    requires Touches(h, h', i, s) && s <= s'
    ensures Touches(h, h', i, s')
  {
  }

  /** A tree none of whose entries is touched is still there, and so is one held by the other links. */
  lemma {:induction false} StoresKept(h: Heap, h': Heap, i: nat, s: set<int>, t: Tree)
    requires Stores(h, i, t) && Touches(h, h', i, s) && Ids(t) !! s
    ensures Stores(h', i, t)
  {
    if t.Node? {
      assert t.id in Ids(t);
      StoresKept(h, h', i, s, t.left);
      StoresKept(h, h', i, s, t.right);
    }
  }

  lemma {:induction false} StoresOther(h: Heap, h': Heap, i: nat, s: set<int>, k: nat, t: Tree)
    requires Stores(h, k, t) && Touches(h, h', i, s) && (i == BY_INO) != (k == BY_INO)
    ensures Stores(h', k, t)
  {
    if t.Node? {
      StoresOther(h, h', i, s, k, t.left);
      StoresOther(h, h', i, s, k, t.right);
    }
  }

  lemma {:induction false} IdsAreItems(h: Heap, i: nat, t: Tree, p: int)
    requires Stores(h, i, t)
    ensures p in Ids(t) ==> p != 0 && p in h && Item(p, KeyOf(h[p], i)) in Items(t)
    ensures forall k :: Item(p, k) in Items(t) ==> p in Ids(t) && k == KeyOf(h[p], i)
  {
    if t.Node? {
      IdsAreItems(h, i, t.left, p);
      IdsAreItems(h, i, t.right, p);
    }
  }

  /** The two subtrees and the root share no entry. */
  ghost predicate Apart(t: Tree) {
    t.Node? ==> Ids(t.left) !! Ids(t.right) && t.id !in Ids(t.left) && t.id !in Ids(t.right)
  }

  lemma SearchApart(h: Heap, i: nat, t: Tree)
    requires Stores(h, i, t) && Search(t)
    ensures Apart(t)
    ensures t.Node? ==> Search(t.left) && Search(t.right)
  {
    if t.Node? {
      var l, r, m := Items(t.left), Items(t.right), Item(t.id, t.key);
      SortedParts(l, m, r);
      forall p
        ensures !(p in Ids(t.left) && p in Ids(t.right)) && (p == t.id ==> p !in Ids(t.left) && p !in Ids(t.right))
      {
        IdsAreItems(h, i, t.left, p);
        IdsAreItems(h, i, t.right, p);
      }
    }
  }

  function IdSet(s: seq<Item>): set<int> { set m | m in s :: m.id }

  lemma {:induction false} IdsOfItems(t: Tree)
    ensures Ids(t) == IdSet(Items(t))
  {
    if t.Node? {
      IdsOfItems(t.left);
      IdsOfItems(t.right);
      IdSetJoin(Items(t.left), Item(t.id, t.key), Items(t.right));
    }
  }

  lemma IdSetJoin(l: seq<Item>, m: Item, r: seq<Item>)
    ensures IdSet(l + [m] + r) == IdSet(l) + {m.id} + IdSet(r)
  {
    forall n | n in l + [m] + r ensures n in l || n == m || n in r { }
    assert m in l + [m] + r;
    forall p | p in IdSet(l) + {m.id} + IdSet(r) ensures p in IdSet(l + [m] + r) {
      if p in IdSet(l) {
        var n :| n in l && n.id == p;
        assert n in l + [m] + r;
      } else if p in IdSet(r) {
        var n :| n in r && n.id == p;
        assert n in l + [m] + r;
      }
    }
  }

  lemma InsertIds(t: Tree, id: int, key: int)
    requires Search(t) && Exact(t) && !HasKey(Items(t), key) && Insert(t, id, key).Ok?
    ensures Ids(Insert(t, id, key).tree) == Ids(t) + {id}
  {
    InsertSound(t, id, key);
    AddedSorted(Items(t), Item(id, key));
    IdsOfItems(t);
    IdsOfItems(Insert(t, id, key).tree);
    IdSetAdded(Items(t), Items(Insert(t, id, key).tree), Item(id, key));
  }

  lemma IdSetAdded(s: seq<Item>, s': seq<Item>, it: Item)
    requires forall m :: m in s' <==> m in s || m == it
    ensures IdSet(s') == IdSet(s) + {it.id}
  {
    assert it in s';
    forall p | p in IdSet(s) ensures p in IdSet(s') {
      var n :| n in s && n.id == p;
      assert n in s';
    }
  }

  /** A deletion takes exactly the entry it is for out of the tree. */
  lemma DeleteIds(h: Heap, i: nat, t: Tree, p: int)
    requires Stores(h, i, t) && Search(t) && Exact(t) && p in Ids(t) && p in h
    ensures Ids(Delete(t, KeyOf(h[p], i))) == Ids(t) - {p}
  {
    var key := KeyOf(h[p], i);
    DeleteSound(t, key);
    DroppedSorted(Items(t), key);
    IdsOfItems(t);
    IdsOfItems(Delete(t, key));
    var s, s' := Items(t), Items(Delete(t, key));
    IdsAreItems(h, i, t, p);
    forall q ensures q in IdSet(s') <==> q in IdSet(s) && q != p {
      IdsAreItems(h, i, t, q);
      if q in IdSet(s) && q != p {
        var n :| n in s && n.id == q;
        if n.key == key { SameKey(s, n, Item(p, key)); }
        assert n in s';
      }
    }
  }

  lemma SameKey(s: seq<Item>, m: Item, n: Item)
    requires Sorted(s) && m in s && n in s && m.key == n.key
    ensures m == n
  {
  }

  // ----- changing one node

  /** Writing the links of the root of `t`, whose subtrees are in memory, stores `t`. */
  lemma PutRoot(h: Heap, i: nat, t: Tree)
    requires t.Node? && t.id != 0 && t.id in h && KeyOf(h[t.id], i) == t.key && Apart(t)
    requires Stores(h, i, t.left) && Stores(h, i, t.right)
    ensures var h' := Put(h, t.id, i, Link(Root(t.left), Root(t.right), t.height));
            Stores(h', i, t) && Touches(h, h', i, {t.id})
  {
    var h' := Put(h, t.id, i, Link(Root(t.left), Root(t.right), t.height));
    StoresKept(h, h', i, {t.id}, t.left);
    StoresKept(h, h', i, {t.id}, t.right);
  }

  /** Linking a new left or right subtree. */
  lemma ReplacedLeft(h: Heap, h': Heap, i: nat, s: set<int>, t: Tree, l: Tree)
    requires t.Node? && Stores(h, i, t) && Apart(t) && Touches(h, h', i, s) && Stores(h', i, l)
    requires t.id !in s && Ids(t.right) !! s && Apart(t.(left := l))
    ensures var h1 := Put(h', t.id, i, Link(Root(l), Root(t.right), Updated(t.(left := l)).height));
            Stores(h1, i, Updated(t.(left := l))) && Touches(h, h1, i, s + {t.id})
  {
    var u := Updated(t.(left := l));
    StoresKept(h, h', i, s, t.right);
    assert h'[t.id] == h[t.id];
    PutRoot(h', i, u);
    TouchesTrans(h, h', Put(h', t.id, i, Link(Root(l), Root(t.right), u.height)), i, s, {t.id});
  }

  lemma ReplacedRight(h: Heap, h': Heap, i: nat, s: set<int>, t: Tree, r: Tree)
    requires t.Node? && Stores(h, i, t) && Apart(t) && Touches(h, h', i, s) && Stores(h', i, r)
    requires t.id !in s && Ids(t.left) !! s && Apart(t.(right := r))
    ensures var h1 := Put(h', t.id, i, Link(Root(t.left), Root(r), Updated(t.(right := r)).height));
            Stores(h1, i, Updated(t.(right := r))) && Touches(h, h1, i, s + {t.id})
  {
    var u := Updated(t.(right := r));
    StoresKept(h, h', i, s, t.left);
    assert h'[t.id] == h[t.id];
    PutRoot(h', i, u);
    TouchesTrans(h, h', Put(h', t.id, i, Link(Root(t.left), Root(r), u.height)), i, s, {t.id});
  }

  lemma RightApart(t: Tree)
    requires t.Node? && t.left.Node? && Apart(t) && Apart(t.left)
    ensures Apart(t.(left := t.left.right)) && Apart(RightRotated(t)) && Ids(RightRotated(t)) == Ids(t)
    ensures t.left.id in Ids(t) && t.id in Ids(t)
  {
  }

  lemma LeftApart(t: Tree)
    requires t.Node? && t.right.Node? && Apart(t) && Apart(t.right)
    ensures Apart(t.(right := t.right.left)) && Apart(LeftRotated(t)) && Ids(LeftRotated(t)) == Ids(t)
    ensures t.right.id in Ids(t) && t.id in Ids(t)
  {
  }

  lemma RootHeight(h: Heap, i: nat, t: Tree)
    requires Stores(h, i, t)
    ensures Root(t) == 0 || (Root(t) in h && Root(t) in Ids(t))
    ensures Root(t) == 0 <==> t.Nil?
    ensures H(t) == if Root(t) == 0 then 0 else LinkOf(h[Root(t)], i).height
  {
  }

  lemma FindStep(u: Tree, key: int)
    requires u.Node? && Search(u)
    ensures HasKey(Items(u), key) <==>
            if key == u.key then true else if key < u.key then HasKey(Items(u.left), key)
            else HasKey(Items(u.right), key)
    ensures Item(u.id, u.key) in Items(u)
  {
    var l, m, r := Items(u.left), Item(u.id, u.key), Items(u.right);
    SortedParts(l, m, r);
    HasKeyParts(l, m, r, key);
  }

  lemma HasKeyParts(l: seq<Item>, m: Item, r: seq<Item>, key: int)
    ensures HasKey(l + [m] + r, key) <==> HasKey(l, key) || m.key == key || HasKey(r, key)
    ensures m in l + [m] + r
  {
    var s := l + [m] + r;
    if !HasKey(s, key) {
      KeyBelow(l, m, r, key);
    } else {
      var k :| 0 <= k < |s| && s[k].key == key;
      assert s[k] == if k < |l| then l[k] else if k == |l| then m else r[k - |l| - 1];
    }
    assert s[|l|] == m;
  }

  /** `curr` is an entry outside the tree with clean links and a new key. */
  ghost predicate Placeable(h: Heap, i: nat, t: Tree, curr: int) {
    Stores(h, i, t) && Search(t) && Exact(t) && curr != 0 && curr in h && curr !in Ids(t) &&
    LinkOf(h[curr], i) == RESET && !HasKey(Items(t), KeyOf(h[curr], i))
  }

  /** Its insertion does not turn around a missing child. */
  ghost predicate Insertable(h: Heap, i: nat, t: Tree, curr: int) {
    Placeable(h, i, t, curr) && Insert(t, curr, KeyOf(h[curr], i)).Ok?
  }

  ghost function WithEntry(h: Heap, i: nat, t: Tree, curr: int): Tree
    requires Insertable(h, i, t, curr)
  {
    Insert(t, curr, KeyOf(h[curr], i)).tree
  }

  lemma PlaceLeft(h: Heap, i: nat, t: Tree, curr: int)
    requires Placeable(h, i, t, curr) && t.Node? && KeyOf(h[curr], i) < t.key
    ensures Placeable(h, i, t.left, curr) && Apart(t)
    ensures Insert(t.left, curr, KeyOf(h[curr], i)).Stuck? ==> Insert(t, curr, KeyOf(h[curr], i)).Stuck?
  {
    SearchApart(h, i, t);
    KeyBelow(Items(t.left), Item(t.id, t.key), Items(t.right), KeyOf(h[curr], i));
  }

  lemma InsertLeft(h: Heap, i: nat, t: Tree, curr: int)
    requires Placeable(h, i, t, curr) && t.Node? && KeyOf(h[curr], i) < t.key && Insertable(h, i, t.left, curr)
    ensures var t1, key := t.(left := WithEntry(h, i, t.left, curr)), KeyOf(h[curr], i);
            Apart(t1) && Search(t1) && Settled(t1, key) == Insert(t, curr, key) && Ids(t1) == Ids(t) + {curr}
  {
    var key := KeyOf(h[curr], i);
    SearchApart(h, i, t);
    KeyBelow(Items(t.left), Item(t.id, t.key), Items(t.right), key);
    InsertSound(t.left, curr, key);
    InsertIds(t.left, curr, key);
    EntryLeft(t, Insert(t.left, curr, key).tree, Item(curr, key));
  }

  lemma EntryLeft(t: Tree, l: Tree, m: Item)
    requires t.Node? && Search(t) && !HasKey(Items(t), m.key) && m.key < t.key && Items(l) == Added(Items(t.left), m)
    ensures Search(t.(left := l))
  {
    AddedLeft(Items(t.left), Item(t.id, t.key), Items(t.right), m);
    AddedSorted(Items(t), m);
  }

  lemma PlaceRight(h: Heap, i: nat, t: Tree, curr: int)
    requires Placeable(h, i, t, curr) && t.Node? && KeyOf(h[curr], i) >= t.key
    ensures Placeable(h, i, t.right, curr) && Apart(t)
    ensures Insert(t.right, curr, KeyOf(h[curr], i)).Stuck? ==> Insert(t, curr, KeyOf(h[curr], i)).Stuck?
  {
    SearchApart(h, i, t);
    KeyBelow(Items(t.left), Item(t.id, t.key), Items(t.right), KeyOf(h[curr], i));
  }

  lemma InsertRight(h: Heap, i: nat, t: Tree, curr: int)
    requires Placeable(h, i, t, curr) && t.Node? && KeyOf(h[curr], i) >= t.key && Insertable(h, i, t.right, curr)
    ensures var t1, key := t.(right := WithEntry(h, i, t.right, curr)), KeyOf(h[curr], i);
            Apart(t1) && Search(t1) && Settled(t1, key) == Insert(t, curr, key) && Ids(t1) == Ids(t) + {curr}
  {
    var key := KeyOf(h[curr], i);
    SearchApart(h, i, t);
    KeyBelow(Items(t.left), Item(t.id, t.key), Items(t.right), key);
    InsertSound(t.right, curr, key);
    InsertIds(t.right, curr, key);
    EntryRight(t, Insert(t.right, curr, key).tree, Item(curr, key));
  }

  lemma EntryRight(t: Tree, r: Tree, m: Item)
    requires t.Node? && Search(t) && !HasKey(Items(t), m.key) && m.key >= t.key && Items(r) == Added(Items(t.right), m)
    ensures Search(t.(right := r))
  {
    SortedParts(Items(t.left), Item(t.id, t.key), Items(t.right));
    AddedRight(Items(t.left), Item(t.id, t.key), Items(t.right), m);
    AddedSorted(Items(t), m);
  }

  ghost predicate Removable(h: Heap, i: nat, t: Tree, curr: int) {
    Stores(h, i, t) && Search(t) && Exact(t) && curr in Ids(t) && curr in h
  }

  ghost function WithoutEntry(h: Heap, i: nat, t: Tree, curr: int): Tree
    requires Removable(h, i, t, curr)
  {
    Delete(t, KeyOf(h[curr], i))
  }

  lemma RemoveSide(h: Heap, i: nat, t: Tree, curr: int)
    requires Removable(h, i, t, curr)
    ensures t.Node? && Apart(t) && t.id in h && Search(t.left) && Search(t.right)
    ensures var key := KeyOf(h[curr], i);
            if key < t.key then Removable(h, i, t.left, curr)
            else if key > t.key then Removable(h, i, t.right, curr) else curr == t.id
  {
    var key := KeyOf(h[curr], i);
    var l, m, r := Items(t.left), Item(t.id, t.key), Items(t.right);
    SearchApart(h, i, t);
    SortedParts(l, m, r);
    IdsAreItems(h, i, t.left, curr);
    IdsAreItems(h, i, t.right, curr);
  }

  lemma RemoveLeft(h: Heap, i: nat, t: Tree, curr: int)
    requires Removable(h, i, t, curr) && t.Node? && Removable(h, i, t.left, curr) && KeyOf(h[curr], i) < t.key
    ensures var t1 := t.(left := WithoutEntry(h, i, t.left, curr));
            Apart(t1) && Search(t1) && Exact(t1.left) && Exact(t1.right) && Ids(t1) == Ids(t) - {curr} &&
            Rebalanced(t1) == WithoutEntry(h, i, t, curr)
  {
    var key := KeyOf(h[curr], i);
    SearchApart(h, i, t);
    DeleteIds(h, i, t.left, curr);
    DeleteSound(t, key);
  }

  lemma RemoveRight(h: Heap, i: nat, t: Tree, curr: int)
    requires Removable(h, i, t, curr) && t.Node? && Removable(h, i, t.right, curr) && KeyOf(h[curr], i) > t.key
    ensures var t1 := t.(right := WithoutEntry(h, i, t.right, curr));
            Apart(t1) && Search(t1) && Exact(t1.left) && Exact(t1.right) && Ids(t1) == Ids(t) - {curr} &&
            Rebalanced(t1) == WithoutEntry(h, i, t, curr)
  {
    var key := KeyOf(h[curr], i);
    SearchApart(h, i, t);
    DeleteIds(h, i, t.right, curr);
    DeleteSound(t, key);
  }

  lemma RemoveMin(h: Heap, i: nat, t: Tree)
    requires t.Node? && Removable(h, i, t, t.id) && t.left.Node? && t.right.Node? && Apart(t)
    ensures var m := MinOf(t.right); Removable(h, i, t.right, m.id) && KeyOf(h[m.id], i) == m.key
  {
    var m := MinOf(t.right);
    SearchApart(h, i, t);
    MinFirst(t.right);
    IdsAreItems(h, i, t.right, m.id);
  }

  /** The tree with its least right entry in place of the root. */
  ghost predicate MinInPlace(h: Heap, i: nat, t: Tree, t1: Tree) {
    t.Node? && t.left.Node? && t.right.Node? && Removable(h, i, t, t.id) && Apart(t) &&
    Removable(h, i, t.right, MinOf(t.right).id) && KeyOf(h[MinOf(t.right).id], i) == MinOf(t.right).key &&
    t1 == Node(MinOf(t.right).id, MinOf(t.right).key, t.left, WithoutEntry(h, i, t.right, MinOf(t.right).id), t.height)
  }

  ghost function MinPut(h1: Heap, i: nat, t: Tree, t1: Tree): Heap
    requires t.Node? && t1.Node? && t.id in h1 && t1.id in h1
  {
    Put(Put(h1, t.id, i, RESET), t1.id, i, Link(Root(t1.left), Root(t1.right), Updated(t1).height))
  }

  lemma MinTreeShape(h: Heap, i: nat, t: Tree, t1: Tree)
    requires MinInPlace(h, i, t, t1)
    ensures Rebalanced(t1) == WithoutEntry(h, i, t, t.id) && Search(t1) && Exact(t1.left) && Exact(t1.right)
    ensures Ids(t1) == Ids(t) - {t.id} && Apart(t1) && t1.id in Ids(t.right) && t.id !in Ids(t1.right)
  {
    DeleteSound(t, t.key);
    SearchApart(h, i, t);
    DeleteIds(h, i, t.right, t1.id);
  }

  /** After the least entry has been taken out of the right subtree. */
  ghost predicate MinTaken(h: Heap, h1: Heap, i: nat, t: Tree, t1: Tree) {
    MinInPlace(h, i, t, t1) && Touches(h, h1, i, Ids(t.right)) && Stores(h1, i, t1.right)
  }

  ghost predicate MinReady(h: Heap, h1: Heap, i: nat, t: Tree, t1: Tree) {
    t.Node? && t1.Node? && t.id in h1 && t1.id in h1 && t1.id != t.id && t1.id != 0 && KeyOf(h1[t1.id], i) == t1.key &&
    t1.id in Ids(t.right) && t.id !in Ids(t1) && Apart(t1) && Stores(h1, i, t1.left) && Stores(h1, i, t1.right) &&
    LinkOf(h1[t.id], i).left == Root(t1.left) && Touches(h, h1, i, Ids(t.right)) &&
    ClearOf(h1, i, t1.left, t.id, t1.id) && ClearOf(h1, i, t1.right, t.id, t1.id)
  }

  /** The root of `t` is neither of two given entries, and has its height in memory. */
  ghost predicate ClearOf(h: Heap, i: nat, t: Tree, p: int, q: int) {
    Root(t) != p && Root(t) != q && (Root(t) == 0 || Root(t) in h) &&
    H(t) == if Root(t) == 0 then 0 else LinkOf(h[Root(t)], i).height
  }

  lemma RootClear(h: Heap, i: nat, t: Tree, p: int, q: int)
    requires Stores(h, i, t) && p !in Ids(t) && q !in Ids(t) && p != 0 && q != 0
    ensures ClearOf(h, i, t, p, q)
  {
  }

  lemma MinEntries(h: Heap, h1: Heap, i: nat, t: Tree, t1: Tree)
    requires MinTaken(h, h1, i, t, t1)
    ensures MinReady(h, h1, i, t, t1)
  {
    MinTreeShape(h, i, t, t1);
    StoresKept(h, h1, i, Ids(t.right), t.left);
    IdsAreItems(h, i, t.right, t1.id);
    RootClear(h1, i, t1.left, t.id, t1.id);
    RootClear(h1, i, t1.right, t.id, t1.id);
  }

  lemma UpdatedApart(t: Tree)
    requires t.Node? && Apart(t)
    ensures Apart(Updated(t)) && Ids(Updated(t)) == Ids(t)
  {
  }

  /** Clearing `p` and then writing the root of `t`. */
  lemma PutAfterReset(h: Heap, i: nat, t: Tree, p: int)
    requires t.Node? && Apart(t) && Stores(h, i, t.left) && Stores(h, i, t.right) && p !in Ids(t) && p in h
    requires t.id != 0 && t.id in h && KeyOf(h[t.id], i) == t.key
    ensures var h' := Put(Put(h, p, i, RESET), t.id, i, Link(Root(t.left), Root(t.right), t.height));
            Stores(h', i, t) && Touches(h, h', i, {p} + {t.id}) && LinkOf(h'[p], i) == RESET
  {
    var h1 := Put(h, p, i, RESET);
    assert Touches(h, h1, i, {p});
    StoresKept(h, h1, i, {p}, t.left);
    StoresKept(h, h1, i, {p}, t.right);
    PutRoot(h1, i, t);
    TouchesTrans(h, h1, Put(h1, t.id, i, Link(Root(t.left), Root(t.right), t.height)), i, {p}, {t.id});
  }

  lemma MinTouches(h: Heap, h1: Heap, h2: Heap, i: nat, t: Tree, p: int)
    requires t.Node? && p in Ids(t.right) && Touches(h, h1, i, Ids(t.right)) && Touches(h1, h2, i, {t.id} + {p})
    ensures Touches(h, h2, i, Ids(t))
  {
    TouchesTrans(h, h1, h2, i, Ids(t.right), {t.id} + {p});
    TouchesMore(h, h2, i, Ids(t.right) + ({t.id} + {p}), Ids(t));
  }

  lemma OneChild(h: Heap, i: nat, t: Tree)
    requires t.Node? && Removable(h, i, t, t.id) && (t.left.Nil? || t.right.Nil?)
    ensures var sub := if t.left.Nil? then t.right else t.left;
            if sub.Nil? then WithoutEntry(h, i, t, t.id) == Nil && LinkOf(h[t.id], i) == RESET
            else
              && Exact(sub.left) && Exact(sub.right) && Updated(sub) == sub
              && WithoutEntry(h, i, t, t.id) == Rebalanced(sub)
  {
    var sub := if t.left.Nil? then t.right else t.left;
    assert Exact(sub);
  }

  /** What the links tell about the children a turn needs. */
  lemma InnerLinks(h: Heap, i: nat, t: Tree)
    requires t.Node? && Stores(h, i, t)
    ensures (t.left.Nil? <==> LinkOf(h[t.id], i).left == 0) && (t.right.Nil? <==> LinkOf(h[t.id], i).right == 0)
    ensures t.left.Node? ==> t.left.id in h && KeyOf(h[t.left.id], i) == t.left.key
                             && (t.left.right.Nil? <==> LinkOf(h[t.left.id], i).right == 0)
    ensures t.right.Node? ==> t.right.id in h && KeyOf(h[t.right.id], i) == t.right.key
                              && (t.right.left.Nil? <==> LinkOf(h[t.right.id], i).left == 0)
  {
    RootHeight(h, i, t.left);
    RootHeight(h, i, t.right);
  }

  class AliasMemory {
    var heap: Heap

    constructor (h: Heap)
      ensures heap == h
    {
      heap := h;
    }

    function Height(p: int, i: nat): int
      requires p == 0 || p in heap
      reads this
    {
      if p == 0 then 0 else LinkOf(heap[p], i).height
    }

    method UpdateHeight(p: int, i: nat)
      requires p in heap
      requires var l := LinkOf(heap[p], i); (l.left == 0 || l.left in heap) && (l.right == 0 || l.right in heap)
      modifies this
      ensures var l := LinkOf(old(heap)[p], i);
              heap == Put(old(heap), p, i, l.(height := Max(old(Height(l.left, i)), old(Height(l.right, i))) + 1))
    {
      var l := LinkOf(heap[p], i);
      heap := Put(heap, p, i, l.(height := Max(Height(l.left, i), Height(l.right, i)) + 1));
    }

    /** Sets one child and recomputes the height. */
    method SetLeft(p: int, l: int, i: nat, ghost h0: Heap, ghost s: set<int>, ghost t: Tree, ghost left: Tree)
      requires p == Root(t) && l == Root(left) && t.Node? && Stores(h0, i, t) && Apart(t) && Touches(h0, heap, i, s)
      requires Stores(heap, i, left) && t.id !in s && Ids(t.right) !! s && Apart(t.(left := left))
      modifies this
      ensures Stores(heap, i, Updated(t.(left := left))) && Touches(h0, heap, i, s + {t.id})
      ensures Touches(old(heap), heap, i, {t.id})
    {
      hide Ids;
      ReplacedLeft(h0, heap, i, s, t, left);
      StoresKept(h0, heap, i, s, t.right);
      ghost var h1 := heap;
      heap := Put(heap, p, i, LinkOf(heap[p], i).(left := l));
      RootHeight(h1, i, left);
      RootHeight(h1, i, t.right);
      UpdateHeight(p, i);
      assert heap == Put(h1, p, i, Link(l, Root(t.right), Updated(t.(left := left)).height));
    }

    method SetRight(p: int, r: int, i: nat, ghost h0: Heap, ghost s: set<int>, ghost t: Tree, ghost right: Tree)
      requires p == Root(t) && r == Root(right) && t.Node? && Stores(h0, i, t) && Apart(t) && Touches(h0, heap, i, s)
      requires Stores(heap, i, right) && t.id !in s && Ids(t.left) !! s && Apart(t.(right := right))
      modifies this
      ensures Stores(heap, i, Updated(t.(right := right))) && Touches(h0, heap, i, s + {t.id})
      ensures Touches(old(heap), heap, i, {t.id})
    {
      hide Ids;
      ReplacedRight(h0, heap, i, s, t, right);
      StoresKept(h0, heap, i, s, t.left);
      ghost var h1 := heap;
      heap := Put(heap, p, i, LinkOf(heap[p], i).(right := r));
      RootHeight(h1, i, t.left);
      RootHeight(h1, i, right);
      UpdateHeight(p, i);
      assert heap == Put(h1, p, i, Link(Root(t.left), r, Updated(t.(right := right)).height));
    }

    method RightRotate(p: int, i: nat, ghost t: Tree) returns (r: int)
      requires p == Root(t) && t.Node? && t.left.Node? && Stores(heap, i, t) && Apart(t) && Apart(t.left)
      modifies this
      ensures r == Root(RightRotated(t)) && Stores(heap, i, RightRotated(t)) && Touches(old(heap), heap, i, Ids(t))
      ensures Ids(RightRotated(t)) == Ids(t)
    {
      ghost var h := heap;
      RightApart(t);
      r := LinkOf(heap[p], i).left;
      ghost var low := Updated(t.(left := t.left.right));
      SetLeft(p, LinkOf(heap[r], i).right, i, h, {}, t, t.left.right);
      SetRight(r, p, i, h, {p}, t.left, low);
      TouchesMore(h, heap, i, {p} + {r}, Ids(t));
    }

    method LeftRotate(p: int, i: nat, ghost t: Tree) returns (r: int)
      requires p == Root(t) && t.Node? && t.right.Node? && Stores(heap, i, t) && Apart(t) && Apart(t.right)
      modifies this
      ensures r == Root(LeftRotated(t)) && Stores(heap, i, LeftRotated(t)) && Touches(old(heap), heap, i, Ids(t))
      ensures Ids(LeftRotated(t)) == Ids(t)
    {
      ghost var h := heap;
      LeftApart(t);
      r := LinkOf(heap[p], i).right;
      ghost var low := Updated(t.(right := t.right.left));
      SetRight(p, LinkOf(heap[r], i).left, i, h, {}, t, t.right.left);
      SetLeft(r, p, i, h, {p}, t.right, low);
      TouchesMore(h, heap, i, {p} + {r}, Ids(t));
    }

    /** Replaces one child only; the height stays. */
    method LinkLeft(p: int, l: int, i: nat, ghost h0: Heap, ghost s: set<int>, ghost t: Tree, ghost left: Tree)
      requires p == Root(t) && l == Root(left) && t.Node? && Stores(h0, i, t) && Apart(t) && Touches(h0, heap, i, s)
      requires Stores(heap, i, left) && t.id !in s && Ids(t.right) !! s && Apart(t.(left := left))
      modifies this
      ensures Stores(heap, i, t.(left := left)) && Touches(h0, heap, i, s + {t.id})
    {
      ghost var h1 := heap;
      StoresKept(h0, heap, i, s, t.right);
      PutRoot(heap, i, t.(left := left));
      heap := Put(heap, p, i, LinkOf(heap[p], i).(left := l));
      assert heap == Put(h1, p, i, Link(l, Root(t.right), t.height));
      TouchesTrans(h0, h1, heap, i, s, {p});
    }

    method LinkRight(p: int, r: int, i: nat, ghost h0: Heap, ghost s: set<int>, ghost t: Tree, ghost right: Tree)
      requires p == Root(t) && r == Root(right) && t.Node? && Stores(h0, i, t) && Apart(t) && Touches(h0, heap, i, s)
      requires Stores(heap, i, right) && t.id !in s && Ids(t.left) !! s && Apart(t.(right := right))
      modifies this
      ensures Stores(heap, i, t.(right := right)) && Touches(h0, heap, i, s + {t.id})
    {
      ghost var h1 := heap;
      StoresKept(h0, heap, i, s, t.left);
      PutRoot(heap, i, t.(right := right));
      heap := Put(heap, p, i, LinkOf(heap[p], i).(right := r));
      assert heap == Put(h1, p, i, Link(Root(t.left), r, t.height));
      TouchesTrans(h0, h1, heap, i, s, {p});
    }

    method Balance(p: int, turn: Turn, i: nat, ghost t: Tree) returns (r: int)
      requires p == Root(t) && CanTurn(t, turn) && Stores(heap, i, t) && Search(t)
      modifies this
      ensures r == Root(Turned(t, turn)) && Stores(heap, i, Turned(t, turn)) && Touches(old(heap), heap, i, Ids(t))
    {
      ghost var h := heap;
      SearchApart(heap, i, t);
      SearchApart(heap, i, t.left);
      SearchApart(heap, i, t.right);
      match turn {
        case LL => r := RightRotate(p, i, t);
        case RR => r := LeftRotate(p, i, t);
        case LR => r := BalanceLR(p, i, t);
        case RL => r := BalanceRL(p, i, t);
      }
    }

    method BalanceLR(p: int, i: nat, ghost t: Tree) returns (r: int)
      requires p == Root(t) && CanTurn(t, LR) && Stores(heap, i, t) && Search(t) && Apart(t) && Apart(t.left)
      requires Search(t.left)
      modifies this
      ensures r == Root(Turned(t, LR)) && Stores(heap, i, Turned(t, LR)) && Touches(old(heap), heap, i, Ids(t))
    {
      ghost var h := heap;
      SearchApart(heap, i, t.left);
      SearchApart(heap, i, t.left.right);
      LeftApart(t.left);
      ghost var t1 := t.(left := LeftRotated(t.left));
      var l := LeftRotate(LinkOf(heap[p], i).left, i, t.left);
      LinkLeft(p, l, i, h, Ids(t.left), t, t1.left);
      ghost var h1 := heap;
      r := RightRotate(p, i, t1);
      TouchesTrans(h, h1, heap, i, Ids(t.left) + {p}, Ids(t1));
      TouchesMore(h, heap, i, Ids(t.left) + {p} + Ids(t1), Ids(t));
    }

    method BalanceRL(p: int, i: nat, ghost t: Tree) returns (r: int)
      requires p == Root(t) && CanTurn(t, RL) && Stores(heap, i, t) && Search(t) && Apart(t) && Apart(t.right)
      requires Search(t.right)
      modifies this
      ensures r == Root(Turned(t, RL)) && Stores(heap, i, Turned(t, RL)) && Touches(old(heap), heap, i, Ids(t))
    {
      ghost var h := heap;
      SearchApart(heap, i, t.right);
      SearchApart(heap, i, t.right.left);
      RightApart(t.right);
      ghost var t1 := t.(right := RightRotated(t.right));
      var q := RightRotate(LinkOf(heap[p], i).right, i, t.right);
      LinkRight(p, q, i, h, Ids(t.right), t, t1.right);
      ghost var h1 := heap;
      r := LeftRotate(p, i, t1);
      TouchesTrans(h, h1, heap, i, Ids(t.right) + {p}, Ids(t1));
      TouchesMore(h, heap, i, Ids(t.right) + {p} + Ids(t1), Ids(t));
    }

    /** Goes left or right until the key or a null pointer is met. */
    method Find(root: int, key: int, i: nat, ghost t: Tree) returns (r: int)
      requires root == Root(t) && Stores(heap, i, t) && Search(t)
      ensures r == 0 <==> !HasKey(Items(t), key)
      ensures r != 0 ==> r in heap && Item(r, key) in Items(t)
    {
      var p := root;
      ghost var u := t;
      while p != 0
        invariant p == Root(u) && Stores(heap, i, u) && Search(u)
        invariant HasKey(Items(u), key) <==> HasKey(Items(t), key)
        invariant forall m :: m in Items(u) ==> m in Items(t)
        decreases u
      {
        RootHeight(heap, i, u);
        FindStep(u, key);
        SearchApart(heap, i, u);
        var k := KeyOf(heap[p], i);
        if key == k { return p; }
        if key < k {
          p, u := LinkOf(heap[p], i).left, u.left;
        } else {
          p, u := LinkOf(heap[p], i).right, u.right;
        }
      }
      return 0;
    }

    // ----- insertion

    /** Turns the root if its new height has put it out of balance; `ok` is false when the turn would go
        around a child that is not there. */
    method Settle(p: int, key: int, i: nat, ghost t: Tree) returns (ok: bool, r: int)
      requires t.Node? && p == t.id && Stores(heap, i, Updated(t)) && Search(t)
      modifies this
      ensures ok == Settled(t, key).Ok?
      ensures ok ==> r == Root(Settled(t, key).tree) && Stores(heap, i, Settled(t, key).tree)
      ensures ok ==> Touches(old(heap), heap, i, Ids(t))
    {
      ghost var u := Updated(t);
      var l, q := LinkOf(heap[p], i).left, LinkOf(heap[p], i).right;
      RootHeight(heap, i, u.left);
      RootHeight(heap, i, u.right);
      InnerLinks(heap, i, u);
      var level := Height(l, i) - Height(q, i);
      ok, r := true, p;
      if level > 1 {
        if l == 0 || (key >= KeyOf(heap[l], i) && LinkOf(heap[l], i).right == 0) { return false, p; }
        r := Balance(p, if key < KeyOf(heap[l], i) then LL else LR, i, u);
      } else if level < -1 {
        if q == 0 || (key <= KeyOf(heap[q], i) && LinkOf(heap[q], i).left == 0) { return false, p; }
        r := Balance(p, if key > KeyOf(heap[q], i) then RR else RL, i, u);
      }
    }

    /** Inserts an entry; `ok` is false exactly when the tree insertion is stuck, and then the source has
        gone through a null pointer. */
    method InsertInto(root: int, curr: int, i: nat, ghost t: Tree) returns (ok: bool, r: int)
      requires root == Root(t) && Placeable(heap, i, t, curr)
      modifies this
      ensures ok == Insert(t, curr, KeyOf(old(heap)[curr], i)).Ok?
      ensures ok ==> r == Root(WithEntry(old(heap), i, t, curr)) && Stores(heap, i, WithEntry(old(heap), i, t, curr))
      ensures ok ==> Touches(old(heap), heap, i, Ids(t) + {curr})
      decreases t
    {
      if root == 0 { return true, curr; }
      ghost var h := heap;
      var key := KeyOf(heap[curr], i);
      RootHeight(heap, i, t);
      if key < KeyOf(heap[root], i) {
        ok, r := InsertUnderLeft(root, curr, i, t);
      } else {
        ok, r := InsertUnderRight(root, curr, i, t);
      }
    }

    method InsertUnderLeft(root: int, curr: int, i: nat, ghost t: Tree) returns (ok: bool, r: int)
      requires root == Root(t) && Placeable(heap, i, t, curr) && t.Node? && KeyOf(heap[curr], i) < t.key
      modifies this
      ensures ok == Insert(t, curr, KeyOf(old(heap)[curr], i)).Ok?
      ensures ok ==> r == Root(WithEntry(old(heap), i, t, curr)) && Stores(heap, i, WithEntry(old(heap), i, t, curr))
      ensures ok ==> Touches(old(heap), heap, i, Ids(t) + {curr})
      decreases t, 0
    {
      ghost var h := heap;
      var key := KeyOf(heap[curr], i);
      RootHeight(heap, i, t);
      PlaceLeft(h, i, t, curr);
      var l;
      ok, l := InsertInto(LinkOf(heap[root], i).left, curr, i, t.left);
      if !ok { return false, root; }
      ghost var l1 := WithEntry(h, i, t.left, curr);
      InsertLeft(h, i, t, curr);
      SetLeft(root, l, i, h, Ids(t.left) + {curr}, t, l1);
      ok, r := SettleAfter(root, key, i, h, t, t.(left := l1), curr, Ids(t.left) + {curr});
    }

    method InsertUnderRight(root: int, curr: int, i: nat, ghost t: Tree) returns (ok: bool, r: int)
      requires root == Root(t) && Placeable(heap, i, t, curr) && t.Node? && KeyOf(heap[curr], i) >= t.key
      modifies this
      ensures ok == Insert(t, curr, KeyOf(old(heap)[curr], i)).Ok?
      ensures ok ==> r == Root(WithEntry(old(heap), i, t, curr)) && Stores(heap, i, WithEntry(old(heap), i, t, curr))
      ensures ok ==> Touches(old(heap), heap, i, Ids(t) + {curr})
      decreases t, 0
    {
      ghost var h := heap;
      var key := KeyOf(heap[curr], i);
      RootHeight(heap, i, t);
      PlaceRight(h, i, t, curr);
      var q;
      ok, q := InsertInto(LinkOf(heap[root], i).right, curr, i, t.right);
      if !ok { return false, root; }
      ghost var r1 := WithEntry(h, i, t.right, curr);
      InsertRight(h, i, t, curr);
      SetRight(root, q, i, h, Ids(t.right) + {curr}, t, r1);
      ok, r := SettleAfter(root, key, i, h, t, t.(right := r1), curr, Ids(t.right) + {curr});
    }

    method SettleAfter(p: int, key: int, i: nat, ghost h: Heap, ghost t: Tree, ghost t1: Tree, ghost curr: int,
                       ghost s: set<int>) returns (ok: bool, r: int)
      requires t1.Node? && p == t1.id && Stores(heap, i, Updated(t1)) && Search(t1)
      requires Ids(t1) == Ids(t) + {curr} && Touches(h, heap, i, s + {p}) && s + {p} <= Ids(t1)
      modifies this
      ensures ok == Settled(t1, key).Ok?
      ensures ok ==> r == Root(Settled(t1, key).tree) && Stores(heap, i, Settled(t1, key).tree)
      ensures ok ==> Touches(h, heap, i, Ids(t) + {curr})
    {
      ghost var h1 := heap;
      ok, r := Settle(p, key, i, t1);
      if ok {
        TouchesTrans(h, h1, heap, i, s + {p}, Ids(t1));
        TouchesMore(h, heap, i, s + {p} + Ids(t1), Ids(t) + {curr});
      }
    }

    // ----- deletion

    method ResetEntry(p: int, i: nat)
      requires p in heap
      modifies this
      ensures heap == Put(old(heap), p, i, RESET)
    {
      heap := Put(heap, p, i, RESET);
    }

    /** Turns a node whose height has just been set, if it is out of balance. */
    method Rebalance(p: int, i: nat, ghost t: Tree) returns (r: int)
      requires t.Node? && p == t.id && Stores(heap, i, Updated(t)) && Search(t) && Exact(t.left) && Exact(t.right)
      modifies this
      ensures r == Root(Rebalanced(t)) && Stores(heap, i, Rebalanced(t)) && Touches(old(heap), heap, i, Ids(t))
    {
      ghost var u := Updated(t);
      UpdatedSame(t);
      var l, q := LinkOf(heap[p], i).left, LinkOf(heap[p], i).right;
      RootHeight(heap, i, u.left);
      RootHeight(heap, i, u.right);
      var level := Height(l, i) - Height(q, i);
      r := p;
      if level > 1 {
        DeleteCanTurn(u);
        r := Balance(p, if Factor1(l, i, u.left) > 0 then LL else LR, i, u);
      } else if level < -1 {
        DeleteCanTurn(u);
        r := Balance(p, if Factor1(q, i, u.right) < 0 then RR else RL, i, u);
      }
    }

    function Factor1(p: int, i: nat, ghost t: Tree): (f: int)
      requires p == Root(t) && t.Node? && Stores(heap, i, t)
      reads this
      ensures f == Factor(t)
    {
      RootHeight(heap, i, t.left);
      RootHeight(heap, i, t.right);
      Height(LinkOf(heap[p], i).left, i) - Height(LinkOf(heap[p], i).right, i)
    }

    method DeleteFrom(root: int, curr: int, i: nat, ghost t: Tree) returns (r: int)
      requires root == Root(t) && Removable(heap, i, t, curr)
      modifies this
      ensures r == Root(WithoutEntry(old(heap), i, t, curr)) && Stores(heap, i, WithoutEntry(old(heap), i, t, curr))
      ensures Touches(old(heap), heap, i, Ids(t)) && LinkOf(heap[curr], i) == RESET
      decreases t
    {
      ghost var h := heap;
      RemoveSide(h, i, t, curr);
      var key, k := KeyOf(heap[curr], i), KeyOf(heap[root], i);
      if key < k {
        RemoveLeft(h, i, t, curr);
        ghost var l1 := WithoutEntry(h, i, t.left, curr);
        var l := DeleteFrom(LinkOf(heap[root], i).left, curr, i, t.left);
        SetLeft(root, l, i, h, Ids(t.left), t, l1);
        r := Finish(root, curr, i, h, t, t.(left := l1), Ids(t.left));
      } else if key > k {
        RemoveRight(h, i, t, curr);
        ghost var r1 := WithoutEntry(h, i, t.right, curr);
        var q := DeleteFrom(LinkOf(heap[root], i).right, curr, i, t.right);
        SetRight(root, q, i, h, Ids(t.right), t, r1);
        r := Finish(root, curr, i, h, t, t.(right := r1), Ids(t.right));
      } else {
        r := DeleteHere(root, i, t);
      }
    }

    method Finish(p: int, curr: int, i: nat, ghost h: Heap, ghost t: Tree, ghost t1: Tree, ghost s: set<int>)
      returns (r: int)
      requires t1.Node? && p == t1.id && Stores(heap, i, Updated(t1)) && Search(t1) && Exact(t1.left) && Exact(t1.right)
      requires Ids(t1) == Ids(t) - {curr} && Touches(h, heap, i, s + {p}) && s + {p} <= Ids(t)
      requires curr in heap && LinkOf(heap[curr], i) == RESET
      modifies this
      ensures r == Root(Rebalanced(t1)) && Stores(heap, i, Rebalanced(t1))
      ensures Touches(h, heap, i, Ids(t)) && LinkOf(heap[curr], i) == RESET
    {
      ghost var h1 := heap;
      ResetEntry(curr, i);
      assert heap == h1;
      r := Rebalance(p, i, t1);
      TouchesTrans(h, h1, heap, i, s + {p}, Ids(t1));
      TouchesMore(h, heap, i, s + {p} + Ids(t1), Ids(t));
    }

    /** The leftmost entry. */
    method MinEntry(root: int, i: nat, ghost t: Tree) returns (r: int)
      requires root == Root(t) && t.Node? && Stores(heap, i, t)
      ensures r in heap && Item(r, KeyOf(heap[r], i)) == MinOf(t)
    {
      r := root;
      ghost var u := t;
      while LinkOf(heap[r], i).left != 0
        invariant r == Root(u) && u.Node? && Stores(heap, i, u) && MinOf(u) == MinOf(t)
        decreases u
      {
        r, u := LinkOf(heap[r], i).left, u.left;
      }
    }

    method DeleteHere(root: int, i: nat, ghost t: Tree) returns (r: int)
      requires t.Node? && root == t.id && Removable(heap, i, t, root)
      modifies this
      ensures r == Root(WithoutEntry(old(heap), i, t, root)) && Stores(heap, i, WithoutEntry(old(heap), i, t, root))
      ensures Touches(old(heap), heap, i, Ids(t)) && LinkOf(heap[root], i) == RESET
      decreases t, 0
    {
      ghost var h := heap;
      RemoveSide(h, i, t, root);
      RootHeight(h, i, t.left);
      RootHeight(h, i, t.right);
      var l, q := LinkOf(heap[root], i).left, LinkOf(heap[root], i).right;
      if l == 0 || q == 0 {
        r := ReplaceByChild(root, i, t, if l == 0 then q else l);
      } else {
        var child := MinEntry(q, i, t.right);
        RemoveMin(h, i, t);
        ghost var t1 := Node(child, MinOf(t.right).key, t.left, WithoutEntry(h, i, t.right, child), t.height);
        var q1 := DeleteFrom(q, child, i, t.right);
        r := ReplaceByMin(root, child, q1, i, h, t, t1);
      }
    }

    /** At most one child: it takes the place of the root. */
    method ReplaceByChild(root: int, i: nat, ghost t: Tree, child: int) returns (r: int)
      requires t.Node? && root == t.id && Removable(heap, i, t, root) && Apart(t)
      requires (t.left.Nil? && child == Root(t.right)) || (t.right.Nil? && child == Root(t.left))
      requires Search(t.left) && Search(t.right)
      modifies this
      ensures r == Root(WithoutEntry(old(heap), i, t, root)) && Stores(heap, i, WithoutEntry(old(heap), i, t, root))
      ensures Touches(old(heap), heap, i, Ids(t)) && LinkOf(heap[root], i) == RESET
    {
      ghost var h := heap;
      ghost var sub := if t.left.Nil? then t.right else t.left;
      OneChild(h, i, t);
      RootHeight(h, i, sub);
      if child == 0 { return 0; }
      ResetEntry(root, i);
      r := Promote(root, child, i, h, sub);
      TouchesMore(h, heap, i, {root} + Ids(sub), Ids(t));
    }

    method Promote(ghost root: int, child: int, i: nat, ghost h: Heap, ghost sub: Tree) returns (r: int)
      requires root in h && heap == Put(h, root, i, RESET) && Stores(h, i, sub) && Search(sub) && root !in Ids(sub)
      requires sub.Node? && child == sub.id && Exact(sub.left) && Exact(sub.right) && Updated(sub) == sub
      modifies this
      ensures r == Root(Rebalanced(sub)) && Stores(heap, i, Rebalanced(sub)) && Touches(h, heap, i, {root} + Ids(sub))
      ensures LinkOf(heap[root], i) == RESET
    {
      assert Touches(h, heap, i, {root});
      StoresKept(h, heap, i, {root}, sub);
      RootHeight(heap, i, sub.left);
      RootHeight(heap, i, sub.right);
      ghost var h1 := heap;
      UpdateHeight(child, i);
      assert heap == h1;
      r := Rebalance(child, i, sub);
      TouchesTrans(h, h1, heap, i, {root}, Ids(sub));
    }

    /** Two children: the least entry on the right, already taken out there, takes the place of the root. */
    method ReplaceByMin(root: int, child: int, q: int, i: nat, ghost h: Heap, ghost t: Tree, ghost t1: Tree)
      returns (r: int)
      requires MinTaken(h, heap, i, t, t1) && root == t.id && child == t1.id && q == Root(t1.right)
      modifies this
      ensures r == Root(WithoutEntry(h, i, t, root)) && Stores(heap, i, WithoutEntry(h, i, t, root))
      ensures Touches(h, heap, i, Ids(t)) && LinkOf(heap[root], i) == RESET
    {
      ghost var h1 := heap;
      MinTreeShape(h, i, t, t1);
      MinEntries(h, h1, i, t, t1);
      MoveMin(root, child, q, i, h, t, t1);
      ghost var h2 := heap;
      r := Rebalance(child, i, t1);
      TouchesTrans(h, h2, heap, i, Ids(t), Ids(t1));
      TouchesMore(h, heap, i, Ids(t) + Ids(t1), Ids(t));
    }

    method MoveMin(root: int, child: int, q: int, i: nat, ghost h: Heap, ghost t: Tree, ghost t1: Tree)
      requires MinReady(h, heap, i, t, t1) && root == t.id && child == t1.id && q == Root(t1.right)
      modifies this
      ensures Stores(heap, i, Updated(t1)) && Touches(h, heap, i, Ids(t)) && LinkOf(heap[root], i) == RESET
    {
      ghost var h1 := heap;
      UpdatedApart(t1);
      PutAfterReset(h1, i, Updated(t1), root);
      SwapLinks(root, child, q, i);
      assert heap == MinPut(h1, i, t, t1);
      MinTouches(h, h1, heap, i, t, child);
    }

    /** The moves of the replacement: the child takes over the root's links and the root's are cleared. */
    method SwapLinks(root: int, child: int, q: int, i: nat)
      requires root in heap && child in heap && root != child && q != root && q != child && (q == 0 || q in heap)
      requires var l := LinkOf(heap[root], i).left; l != root && l != child && (l == 0 || l in heap)
      modifies this
      ensures var l := LinkOf(old(heap)[root], i).left;
              heap == Put(Put(old(heap), root, i, RESET), child, i,
                          Link(l, q, Max(old(Height(l, i)), old(Height(q, i))) + 1))
    {
      heap := Put(heap, root, i, LinkOf(heap[root], i).(right := q));
      var link := LinkOf(heap[root], i);
      heap := Put(heap, child, i, LinkOf(heap[child], i).(left := link.left, right := link.right));
      ResetEntry(root, i);
      UpdateHeight(child, i);
    }
  }
}
