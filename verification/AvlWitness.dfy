/** A run of insertions and deletions after which an insertion turns around a missing child. */
module AvlWitness {
  import opened AvlTree

  // ----- runs

  datatype Op = Put(item: Item) | Take(key: int)

  ghost predicate Good(t: Tree) { Search(t) && Exact(t) }

  /** A key already there is not inserted again. */
  ghost function Step(t: Tree, op: Op): Result
    requires Good(t)
  {
    match op
    case Put(m) => if HasKey(Items(t), m.key) then Ok(t) else Insert(t, m.id, m.key)
    case Take(key) => Ok(Delete(t, key))
  }

  lemma StepGood(t: Tree, op: Op)
    requires Good(t) && Step(t, op).Ok?
    ensures Good(Step(t, op).tree)
  {
    match op
    case Put(m) => if !HasKey(Items(t), m.key) { InsertSound(t, m.id, m.key); }
    case Take(key) => DeleteSound(t, key);
  }

  ghost function Play(t: Tree, ops: seq<Op>): Result
    requires Good(t)
    decreases |ops|
  {
    if ops == [] then Ok(t)
    else if Step(t, ops[0]).Stuck? then Stuck
    else StepGood(t, ops[0]); Play(Step(t, ops[0]).tree, ops[1..])
  }

  lemma {:induction false} PlayJoin(t: Tree, a: seq<Op>, b: seq<Op>)
    requires Good(t) && Play(t, a).Ok?
    ensures Good(Play(t, a).tree) && Play(t, a + b) == Play(Play(t, a).tree, b)
    decreases |a|
  {
    hide Step, Good;
    if a == [] {
      assert a + b == b;
    } else {
      StepGood(t, a[0]);
      PlayJoin(Step(t, a[0]).tree, a[1..], b);
      assert (a + b)[0] == a[0] && (a + b)[1..] == a[1..] + b;
    }
  }

  // ----- every balanced tree comes about by insertions

  predicate LeftWay(t: Tree)
    requires t.Node?
  {
    t.left.Node? && Factor(t) >= 0
  }

  /** The leaf at the end of the way along the taller sides. */
  function Last(t: Tree): Item
    requires t.Node?
  {
    if t.left.Nil? && t.right.Nil? then Item(t.id, t.key)
    else if LeftWay(t) || t.right.Nil? then Last(t.left)
    else Last(t.right)
  }

  function Trimmed(t: Tree): Tree
    requires t.Node?
  {
    if t.left.Nil? && t.right.Nil? then Nil
    else if LeftWay(t) || t.right.Nil? then Updated(t.(left := Trimmed(t.left)))
    else Updated(t.(right := Trimmed(t.right)))
  }

  lemma {:induction false} TrimmedItems(t: Tree)
    requires t.Node? && Search(t)
    ensures Last(t) in Items(t) && Items(Trimmed(t)) == Dropped(Items(t), Last(t).key)
  {
    var l, r, m := Items(t.left), Items(t.right), Item(t.id, t.key);
    SortedParts(l, m, r);
    if t.left.Nil? && t.right.Nil? {
      DroppedHere(l, m, r);
    } else if LeftWay(t) || t.right.Nil? {
      TrimmedItems(t.left);
      DroppedLeft(l, m, r, Last(t).key);
    } else {
      TrimmedItems(t.right);
      DroppedRight(l, m, r, Last(t).key);
    }
  }

  /** Without that leaf the tree is still balanced, and inserting the leaf makes the tree again. */
  lemma {:induction false} TrimmedBack(t: Tree)
    requires t.Node? && Balanced(t) && Good(t)
    ensures Balanced(Trimmed(t)) && Exact(Trimmed(t)) && H(t) - 1 <= H(Trimmed(t)) <= H(t)
    ensures Insert(Trimmed(t), Last(t).id, Last(t).key) == Ok(t)
  {
    hide Insert, Updated, Sorted;
    var l, r, m := Items(t.left), Items(t.right), Item(t.id, t.key);
    SortedParts(l, m, r);
    if t.left.Nil? && t.right.Nil? {
      LeafBack(t);
    } else if LeftWay(t) || t.right.Nil? {
      TrimmedBack(t.left);
      TrimmedItems(t.left);
      LeftBack(t, Trimmed(t.left), Last(t.left));
    } else {
      TrimmedBack(t.right);
      TrimmedItems(t.right);
      RightBack(t, Trimmed(t.right), Last(t.right));
    }
  }

  lemma LeafBack(t: Tree)
    requires t.Node? && t.left.Nil? && t.right.Nil? && Exact(t)
    ensures Trimmed(t) == Nil && Insert(Nil, t.id, t.key) == Ok(t) && Last(t) == Item(t.id, t.key) && H(t) == 1
  {
  }

  lemma LeftBack(t: Tree, l: Tree, m: Item)
    requires t.Node? && t.left.Node? && Balanced(t) && Exact(t) && Factor(t) >= 0 && m.key < t.key
    requires Balanced(l) && Exact(l) && H(t.left) - 1 <= H(l) <= H(t.left) && Insert(l, m.id, m.key) == Ok(t.left)
    ensures var u := Updated(t.(left := l));
            Balanced(u) && Exact(u) && H(t) - 1 <= H(u) <= H(t) && Insert(u, m.id, m.key) == Ok(t)
  {
    var u := Updated(t.(left := l));
    assert u.(left := t.left, height := t.height) == t;
    assert Updated(u.(left := t.left)) == t;
  }

  lemma RightBack(t: Tree, r: Tree, m: Item)
    requires t.Node? && t.right.Node? && Balanced(t) && Exact(t) && Factor(t) <= 0 && m.key > t.key
    requires Balanced(r) && Exact(r) && H(t.right) - 1 <= H(r) <= H(t.right) && Insert(r, m.id, m.key) == Ok(t.right)
    ensures var u := Updated(t.(right := r));
            Balanced(u) && Exact(u) && H(t) - 1 <= H(u) <= H(t) && Insert(u, m.id, m.key) == Ok(t)
  {
    var u := Updated(t.(right := r));
    assert Updated(u.(right := t.right)) == t;
  }

  lemma {:induction false} DroppedLength(s: seq<Item>, m: Item)
    requires m in s && Sorted(s)
    ensures |Dropped(s, m.key)| == |s| - 1 && !HasKey(Dropped(s, m.key), m.key)
  {
    if s[0].key == m.key {
      assert forall i :: 0 <= i < |s[1..]| ==> s[1..][i] == s[i + 1];
    } else {
      SortedTail(s);
      DroppedLength(s[1..], m);
    }
  }

  /** An order of insertions that makes the tree. */
  ghost function Order(t: Tree): seq<Op>
    requires Balanced(t) && Good(t)
    decreases |Items(t)|
  {
    if t.Nil? then []
    else
      TrimmedBack(t);
      TrimmedItems(t);
      DroppedLength(Items(t), Last(t));
      DroppedSorted(Items(t), Last(t).key);
      Order(Trimmed(t)) + [Put(Last(t))]
  }

  lemma {:induction false} BalancedReached(t: Tree)
    requires Balanced(t) && Good(t)
    ensures Play(Nil, Order(t)) == Ok(t)
    decreases |Items(t)|
  {
    if t.Node? {
      TrimmedBack(t);
      TrimmedItems(t);
      DroppedLength(Items(t), Last(t));
      DroppedSorted(Items(t), Last(t).key);
      BalancedReached(Trimmed(t));
      PlayJoin(Nil, Order(Trimmed(t)), [Put(Last(t))]);
      assert [Put(Last(t))][1..] == [];
      assert Play(Trimmed(t), [Put(Last(t))]) == Ok(t);
    }
  }

  // ----- the run

  function N(l: Tree, k: int, r: Tree, h: int): Tree { Node(k, k, l, r, h) }

  function High(k: int): Tree {
    N(N(Leaf(k + 18), k + 19, Nil, 2), k + 20, N(Leaf(k + 21), k + 22, N(Leaf(k + 23), k + 24, Nil, 2), 3), 4)
  }

  function Middle(k: int): Tree { N(Leaf(k + 12), k + 13, N(Nil, k + 15, Leaf(k + 16), 2), 3) }

  function Nine(k: int): Tree { N(Leaf(k + 9), k + 10, Nil, 2) }

  function Start(k: int): Tree {
    N(N(N(N(Leaf(k + 1), k + 3, Nil, 2), k + 4, N(N(Leaf(k + 5), k + 6, Nil, 2), k + 7, Nine(k), 3), 4), k + 11,
        Middle(k), 5), k + 17, High(k), 6)
  }

  /** 3 is gone, and 6 stands where 4 stood. */
  function First(k: int): Tree {
    N(N(N(N(Leaf(k + 1), k + 4, Leaf(k + 5), 2), k + 6, N(Nil, k + 7, Nine(k), 3), 4), k + 11, Middle(k), 5), k + 17,
      High(k), 6)
  }

  function Four(k: int): Tree { N(N(Nil, k + 1, Leaf(k + 2), 2), k + 4, Leaf(k + 5), 3) }

  function Second(k: int): Tree {
    N(N(N(Four(k), k + 6, N(Nil, k + 7, Nine(k), 3), 4), k + 11, Middle(k), 5), k + 17, High(k), 6)
  }

  /** 13 is gone, and 6 has nothing on its right. */
  function Third(k: int): Tree {
    N(N(N(Four(k), k + 6, Nil, 4), k + 7, N(Nine(k), k + 11, N(Leaf(k + 12), k + 15, Leaf(k + 16), 2), 3), 5), k + 17,
      High(k), 6)
  }

  function Fourth(k: int): Tree {
    N(N(N(Four(k), k + 6, Nil, 4), k + 7,
        N(Nine(k), k + 11, N(N(Nil, k + 12, Leaf(k + 14), 2), k + 15, Leaf(k + 16), 3), 4), 5), k + 17, High(k), 6)
  }

  /** 19 is gone, and 7 has 6 on its left, four levels, and two levels on its right. */
  function Fifth(k: int): Tree {
    N(N(N(Four(k), k + 6, Nil, 4), k + 7, Nine(k), 5), k + 11,
      N(N(N(Nil, k + 12, Leaf(k + 14), 2), k + 15, Leaf(k + 16), 3), k + 17,
        N(N(Leaf(k + 18), k + 20, Leaf(k + 21), 2), k + 22, N(Leaf(k + 23), k + 24, Nil, 2), 3), 4), 6)
  }

  /** A search tree with all keys between the two. */
  ghost predicate Within(t: Tree, lo: int, hi: int) {
    Search(t) && forall m :: m in Items(t) ==> lo < m.key < hi
  }

  lemma Joined(l: Tree, k: int, r: Tree, h: int, lo: int, hi: int)
    requires Within(l, lo, k) && Within(r, k, hi) && lo < k < hi
    ensures Within(N(l, k, r, h), lo, hi)
  {
    var a, b := Items(l), Items(r);
    var s := Items(N(l, k, r, h));
    assert s == a + [Item(k, k)] + b;
    forall i, j | 0 <= i < j < |s| ensures s[i].key < s[j].key {
      if j < |a| {
        assert s[i] == a[i] && s[j] == a[j];
      } else if i > |a| {
        assert s[i] == b[i - |a| - 1] && s[j] == b[j - |a| - 1];
      } else {
        assert i < |a| ==> s[i] in a;
        assert j > |a| ==> s[j] == b[j - |a| - 1] && s[j] in b;
      }
    }
  }

  lemma Alone(k: int, lo: int, hi: int)
    requires lo < k < hi
    ensures Within(Leaf(k), lo, hi) && Within(Nil, lo, hi) && Exact(Leaf(k)) && Balanced(Leaf(k)) && H(Leaf(k)) == 1
  {
  }

  lemma Even(l: Tree, k: int, r: Tree, h: int)
    requires Exact(l) && Exact(r) && Balanced(l) && Balanced(r) && -1 <= H(l) - H(r) <= 1 && h == 1 + Max(H(l), H(r))
    ensures Exact(N(l, k, r, h)) && Balanced(N(l, k, r, h)) && H(N(l, k, r, h)) == h
  {
  }

  /** A balanced search tree of keys between the two, `h` levels. */
  ghost predicate Fine(t: Tree, lo: int, hi: int, h: int) {
    Within(t, lo, hi) && Exact(t) && Balanced(t) && H(t) == h
  }

  lemma Whole(l: Tree, k: int, r: Tree, lo: int, hi: int, hl: int, hr: int)
    requires Fine(l, lo, k, hl) && Fine(r, k, hi, hr) && lo < k < hi && -1 <= hl - hr <= 1
    ensures Fine(N(l, k, r, 1 + Max(hl, hr)), lo, hi, 1 + Max(hl, hr))
  {
    Joined(l, k, r, 1 + Max(hl, hr), lo, hi);
    Even(l, k, r, 1 + Max(hl, hr));
  }

  lemma FineNil(lo: int, hi: int)
    ensures Fine(Nil, lo, hi, 0)
  {
  }

  lemma FineLeaf(k: int, lo: int, hi: int)
    requires lo < k < hi
    ensures Fine(Leaf(k), lo, hi, 1)
  {
    Alone(k, lo, hi);
  }

  lemma HighFine(k: int)
    ensures Fine(High(k), k + 17, k + 25, 4)
  {
    hide Fine;
    FineLeaf(k + 18, k + 17, k + 19);
    FineNil(k + 19, k + 20);
    Whole(Leaf(k + 18), k + 19, Nil, k + 17, k + 20, 1, 0);
    FineLeaf(k + 23, k + 22, k + 24);
    FineNil(k + 24, k + 25);
    Whole(Leaf(k + 23), k + 24, Nil, k + 22, k + 25, 1, 0);
    FineLeaf(k + 21, k + 20, k + 22);
    Whole(Leaf(k + 21), k + 22, N(Leaf(k + 23), k + 24, Nil, 2), k + 20, k + 25, 1, 2);
    Whole(N(Leaf(k + 18), k + 19, Nil, 2), k + 20, N(Leaf(k + 21), k + 22, N(Leaf(k + 23), k + 24, Nil, 2), 3), k + 17,
          k + 25, 2, 3);
  }

  lemma MiddleFine(k: int)
    ensures Fine(Middle(k), k + 11, k + 17, 3)
  {
    hide Fine;
    FineLeaf(k + 16, k + 15, k + 17);
    FineNil(k + 13, k + 15);
    Whole(Nil, k + 15, Leaf(k + 16), k + 13, k + 17, 0, 1);
    FineLeaf(k + 12, k + 11, k + 13);
    Whole(Leaf(k + 12), k + 13, N(Nil, k + 15, Leaf(k + 16), 2), k + 11, k + 17, 1, 2);
  }

  lemma NineFine(k: int)
    ensures Fine(Nine(k), k + 7, k + 11, 2)
  {
    hide Fine;
    FineLeaf(k + 9, k + 7, k + 10);
    FineNil(k + 10, k + 11);
    Whole(Leaf(k + 9), k + 10, Nil, k + 7, k + 11, 1, 0);
  }

  lemma StartFine(k: int)
    ensures Fine(Start(k), k + 0, k + 25, 6)
  {
    hide Fine;
    HighFine(k);
    MiddleFine(k);
    NineFine(k);
    FineLeaf(k + 1, k + 0, k + 3);
    FineNil(k + 3, k + 4);
    Whole(Leaf(k + 1), k + 3, Nil, k + 0, k + 4, 1, 0);
    FineLeaf(k + 5, k + 4, k + 6);
    FineNil(k + 6, k + 7);
    Whole(Leaf(k + 5), k + 6, Nil, k + 4, k + 7, 1, 0);
    var seven := N(N(Leaf(k + 5), k + 6, Nil, 2), k + 7, Nine(k), 3);
    Whole(N(Leaf(k + 5), k + 6, Nil, 2), k + 7, Nine(k), k + 4, k + 11, 2, 2);
    var four := N(N(Leaf(k + 1), k + 3, Nil, 2), k + 4, seven, 4);
    Whole(N(Leaf(k + 1), k + 3, Nil, 2), k + 4, seven, k + 0, k + 11, 2, 3);
    Whole(four, k + 11, Middle(k), k + 0, k + 17, 4, 3);
    Whole(N(four, k + 11, Middle(k), 5), k + 17, High(k), k + 0, k + 25, 5, 4);
  }

  // ----- nodes on the way that keep their height

  lemma DeleteLeft(t: Tree, key: int, l: Tree)
    requires t.Node? && Exact(t) && -1 <= Factor(t) <= 1 && key < t.key && Delete(t.left, key) == l && H(l) == H(t.left)
    ensures Delete(t, key) == t.(left := l)
  {
  }

  lemma InsertLeft(t: Tree, key: int, l: Tree)
    requires t.Node? && Exact(t) && -1 <= Factor(t) <= 1 && key < t.key && Insert(t.left, key, key) == Ok(l) &&
             H(l) == H(t.left)
    ensures Insert(t, key, key) == Ok(t.(left := l))
  {
  }

  // ----- the turns, with subtrees of which only the height matters

  ghost predicate Sub(t: Tree, h: int) { Exact(t) && H(t) == h && (h > 0 ==> t.Node?) }

  lemma Turn1(k: int, one: Tree, five: Tree, nine: Tree)
    requires Sub(one, 1) && Sub(five, 1) && Sub(nine, 2)
    ensures var t := N(N(one, k + 3, Nil, 2), k + 4, N(N(five, k + 6, Nil, 2), k + 7, nine, 3), 4);
            Exact(t) && Delete(t, k + 3) == N(N(one, k + 4, five, 2), k + 6, N(Nil, k + 7, nine, 3), 4)
  {
    var t := N(N(one, k + 3, Nil, 2), k + 4, N(N(five, k + 6, Nil, 2), k + 7, nine, 3), 4);
    assert Updated(one) == one && Exact(one.left) && Exact(one.right);
    assert Delete(t.left, k + 3) == one;
  }

  lemma Turn2(k: int, five: Tree, seven: Tree)
    requires Sub(five, 1) && Sub(seven, 3)
    ensures Insert(N(N(Leaf(k + 1), k + 4, five, 2), k + 6, seven, 4), k + 2, k + 2) ==
            Ok(N(N(N(Nil, k + 1, Leaf(k + 2), 2), k + 4, five, 3), k + 6, seven, 4))
  {
    var f := N(Leaf(k + 1), k + 4, five, 2);
    assert Insert(Leaf(k + 1), k + 2, k + 2) == Ok(N(Nil, k + 1, Leaf(k + 2), 2));
    assert Insert(f, k + 2, k + 2) == Ok(N(N(Nil, k + 1, Leaf(k + 2), 2), k + 4, five, 3));
  }

  lemma Turn3(k: int, four: Tree, nine: Tree, twelve: Tree, sixteen: Tree)
    requires Sub(four, 3) && Sub(nine, 2) && Sub(twelve, 1) && Sub(sixteen, 1)
    ensures var t :=
              N(N(four, k + 6, N(Nil, k + 7, nine, 3), 4), k + 11, N(twelve, k + 13, N(Nil, k + 15, sixteen, 2), 3), 5);
            Exact(t) &&
            Delete(t, k + 13) == N(N(four, k + 6, Nil, 4), k + 7, N(nine, k + 11, N(twelve, k + 15, sixteen, 2), 3), 5)
  {
    var t := N(N(four, k + 6, N(Nil, k + 7, nine, 3), 4), k + 11, N(twelve, k + 13, N(Nil, k + 15, sixteen, 2), 3), 5);
    assert Updated(sixteen) == sixteen && Exact(sixteen.left) && Exact(sixteen.right);
    assert Delete(N(Nil, k + 15, sixteen, 2), k + 15) == sixteen;
    assert Delete(t.right, k + 13) == N(twelve, k + 15, sixteen, 2);
  }

  lemma Turn4(k: int, six: Tree, nine: Tree, sixteen: Tree)
    requires Sub(six, 4) && Sub(nine, 2) && Sub(sixteen, 1)
    ensures Insert(N(six, k + 7, N(nine, k + 11, N(Leaf(k + 12), k + 15, sixteen, 2), 3), 5), k + 14, k + 14) ==
            Ok(N(six, k + 7, N(nine, k + 11, N(N(Nil, k + 12, Leaf(k + 14), 2), k + 15, sixteen, 3), 4), 5))
  {
    var f := N(Leaf(k + 12), k + 15, sixteen, 2);
    assert Insert(Leaf(k + 12), k + 14, k + 14) == Ok(N(Nil, k + 12, Leaf(k + 14), 2));
    assert Insert(f, k + 14, k + 14) == Ok(N(N(Nil, k + 12, Leaf(k + 14), 2), k + 15, sixteen, 3));
    assert Insert(N(nine, k + 11, f, 3), k + 14, k + 14) ==
           Ok(N(nine, k + 11, N(N(Nil, k + 12, Leaf(k + 14), 2), k + 15, sixteen, 3), 4));
  }

  lemma Turn5(k: int, six: Tree, nine: Tree, fifteen: Tree, a: Tree, b: Tree, c: Tree)
    requires Sub(six, 4) && Sub(nine, 2) && Sub(fifteen, 3) && Sub(a, 1) && Sub(b, 1) && Sub(c, 2)
    ensures var t :=
              N(N(six, k + 7, N(nine, k + 11, fifteen, 4), 5), k + 17,
                N(N(a, k + 19, Nil, 2), k + 20, N(b, k + 22, c, 3), 4), 6);
            Exact(t) &&
            Delete(t, k + 19) ==
            N(N(six, k + 7, nine, 5), k + 11, N(fifteen, k + 17, N(N(a, k + 20, b, 2), k + 22, c, 3), 4), 6)
  {
    var t :=
      N(N(six, k + 7, N(nine, k + 11, fifteen, 4), 5), k + 17, N(N(a, k + 19, Nil, 2), k + 20, N(b, k + 22, c, 3), 4),
        6);
    assert Updated(a) == a && Exact(a.left) && Exact(a.right);
    assert Delete(t.right.left, k + 19) == a;
    assert Delete(t.right, k + 19) == N(N(a, k + 20, b, 2), k + 22, c, 3);
  }

  lemma Turn6(k: int, six: Tree, ten: Tree, ten': Tree, rest: Tree)
    requires Sub(six, 4) && six.key < k + 8 && six.right.Nil? && Insert(ten, k + 8, k + 8) == Ok(ten') && H(ten') == 2
    ensures Insert(N(N(six, k + 7, ten, 5), k + 11, rest, 6), k + 8, k + 8) == Stuck
  {
    assert Insert(N(six, k + 7, ten, 5), k + 8, k + 8) == Stuck;
  }

  lemma Eight(k: int)
    ensures Insert(Nine(k), k + 8, k + 8) == Ok(N(Leaf(k + 8), k + 9, Leaf(k + 10), 2))
  {
    assert Insert(Leaf(k + 9), k + 8, k + 8) == Ok(N(Leaf(k + 8), k + 9, Nil, 2));
  }

  // ----- which keys are there

  predicate Found(t: Tree, key: int) {
    t.Node? && (key == t.key || Found(if key < t.key then t.left else t.right, key))
  }

  lemma {:induction false} ThereFound(t: Tree, key: int)
    requires Found(t, key)
    ensures HasKey(Items(t), key)
  {
    var l, m, r := Items(t.left), Item(t.id, t.key), Items(t.right);
    if key == t.key {
      assert Items(t)[|l|] == m;
    } else if key < t.key {
      ThereFound(t.left, key);
      var i :| 0 <= i < |l| && l[i].key == key;
      assert Items(t)[i] == l[i];
    } else {
      ThereFound(t.right, key);
      var i :| 0 <= i < |r| && r[i].key == key;
      assert Items(t)[|l| + 1 + i] == r[i];
    }
  }

  lemma Found3(k: int, a: Tree, b: Tree, c: Tree, d: Tree)
    ensures Found(N(N(N(N(a, k + 3, Nil, 2), k + 4, b, 4), k + 11, c, 5), k + 17, d, 6), k + 3)
  {
    assert Found(N(a, k + 3, Nil, 2), k + 3);
    assert Found(N(N(a, k + 3, Nil, 2), k + 4, b, 4), k + 3);
    assert Found(N(N(N(a, k + 3, Nil, 2), k + 4, b, 4), k + 11, c, 5), k + 3);
  }

  lemma Found13(k: int, a: Tree, b: Tree, c: Tree, d: Tree)
    ensures Found(N(N(a, k + 11, N(b, k + 13, c, 3), 5), k + 17, d, 6), k + 13)
  {
    assert Found(N(b, k + 13, c, 3), k + 13);
    assert Found(N(a, k + 11, N(b, k + 13, c, 3), 5), k + 13);
  }

  lemma Found19(k: int, a: Tree, b: Tree, c: Tree)
    ensures Found(N(a, k + 17, N(N(b, k + 19, Nil, 2), k + 20, c, 4), 6), k + 19)
  {
    assert Found(N(b, k + 19, Nil, 2), k + 19);
    assert Found(N(N(b, k + 19, Nil, 2), k + 20, c, 4), k + 19);
  }

  /** The three keys taken out are there. */
  lemma Present(k: int)
    ensures HasKey(Items(Start(k)), k + 3) && HasKey(Items(Second(k)), k + 13) && HasKey(Items(Fourth(k)), k + 19)
  {
    hide Items, HasKey;
    Found3(k, Leaf(k + 1), N(N(Leaf(k + 5), k + 6, Nil, 2), k + 7, Nine(k), 3), Middle(k), High(k));
    ThereFound(Start(k), k + 3);
    Found13(k, Second(k).left.left, Leaf(k + 12), N(Nil, k + 15, Leaf(k + 16), 2), High(k));
    ThereFound(Second(k), k + 13);
    Found19(k, Fourth(k).left, Leaf(k + 18), High(k).right);
    ThereFound(Fourth(k), k + 19);
  }

  /** No key above `b`. */
  predicate Under(t: Tree, b: int) {
    t.Nil? || (t.key <= b && Under(t.left, b) && Under(t.right, b))
  }

  lemma UnderHere(k: int, l: Tree, r: Tree, h: int, b: int)
    requires k <= b && Under(l, b) && Under(r, b)
    ensures Under(N(l, k, r, h), b)
  {
  }

  lemma StartUnder(k: int)
    ensures Under(Start(k), k + 24)
  {
    hide Under;
    var b := k + 24;
    LeafUnder(b);
    UnderHere(k + 3, Leaf(k + 1), Nil, 2, b);
    UnderHere(k + 6, Leaf(k + 5), Nil, 2, b);
    UnderHere(k + 10, Leaf(k + 9), Nil, 2, b);
    UnderHere(k + 7, N(Leaf(k + 5), k + 6, Nil, 2), Nine(k), 3, b);
    UnderHere(k + 4, N(Leaf(k + 1), k + 3, Nil, 2), N(N(Leaf(k + 5), k + 6, Nil, 2), k + 7, Nine(k), 3), 4, b);
    UnderHere(k + 15, Nil, Leaf(k + 16), 2, b);
    UnderHere(k + 13, Leaf(k + 12), N(Nil, k + 15, Leaf(k + 16), 2), 3, b);
    UnderHere(k + 11, Start(k).left.left, Middle(k), 5, b);
    UnderHere(k + 19, Leaf(k + 18), Nil, 2, b);
    UnderHere(k + 24, Leaf(k + 23), Nil, 2, b);
    UnderHere(k + 22, Leaf(k + 21), N(Leaf(k + 23), k + 24, Nil, 2), 3, b);
    UnderHere(k + 20, N(Leaf(k + 18), k + 19, Nil, 2), N(Leaf(k + 21), k + 22, N(Leaf(k + 23), k + 24, Nil, 2), 3), 4,
              b);
    UnderHere(k + 17, Start(k).left, High(k), 6, b);
  }

  lemma {:induction false} UnderMore(t: Tree, b: int, c: int)
    requires Under(t, b) && b <= c
    ensures Under(t, c)
  {
    if t.Node? {
      UnderMore(t.left, b, c);
      UnderMore(t.right, b, c);
    }
  }

  lemma LeafUnder(b: int)
    ensures Under(Nil, b) && forall k :: k <= b ==> Under(Leaf(k), b)
  {
    forall k | k <= b ensures Under(Leaf(k), b) { }
  }

  lemma {:induction false} TrimmedUnder(t: Tree, b: int)
    requires t.Node? && Under(t, b)
    ensures Under(Trimmed(t), b) && Last(t).key <= b
  {
    if t.left.Nil? && t.right.Nil? {
    } else if LeftWay(t) || t.right.Nil? {
      TrimmedUnder(t.left, b);
    } else {
      TrimmedUnder(t.right, b);
    }
  }

  lemma {:induction false} FoundThere(t: Tree, key: int)
    requires Search(t) && HasKey(Items(t), key)
    ensures Found(t, key)
  {
    var l, r, m := Items(t.left), Items(t.right), Item(t.id, t.key);
    SortedParts(l, m, r);
    var i :| 0 <= i < |Items(t)| && Items(t)[i].key == key;
    assert Items(t)[|l|] == m;
    if i < |l| {
      assert Items(t)[i] == l[i];
      FoundThere(t.left, key);
    } else if i > |l| {
      assert Items(t)[i] == r[i - |l| - 1];
      FoundThere(t.right, key);
    }
  }

  lemma Missing2(k: int, a: Tree, b: Tree, c: Tree, d: Tree)
    ensures !Found(N(N(N(N(Leaf(k + 1), k + 4, a, 2), k + 6, b, 4), k + 11, c, 5), k + 17, d, 6), k + 2)
  {
    assert !Found(Leaf(k + 1), k + 2);
    assert !Found(N(Leaf(k + 1), k + 4, a, 2), k + 2);
    assert !Found(N(N(Leaf(k + 1), k + 4, a, 2), k + 6, b, 4), k + 2);
  }

  lemma Missing14(k: int, a: Tree, b: Tree, c: Tree, d: Tree)
    ensures !Found(N(N(a, k + 7, N(b, k + 11, N(Leaf(k + 12), k + 15, c, 2), 3), 5), k + 17, d, 6), k + 14)
  {
    assert !Found(Leaf(k + 12), k + 14);
    assert !Found(N(Leaf(k + 12), k + 15, c, 2), k + 14);
    assert !Found(N(b, k + 11, N(Leaf(k + 12), k + 15, c, 2), 3), k + 14);
  }

  lemma Missing8(k: int, a: Tree, b: Tree)
    ensures !Found(N(N(a, k + 7, Nine(k), 5), k + 11, b, 6), k + 8)
  {
    assert !Found(Leaf(k + 9), k + 8);
    assert !Found(Nine(k), k + 8);
  }

  // ----- the steps of the run

  /** One step of a run. */
  ghost predicate Leads(t: Tree, op: Op, t': Tree) { Good(t) && Good(t') && Step(t, op) == Ok(t') }

  lemma LedTo(t: Tree, op: Op, t': Tree)
    requires Leads(t, op, t')
    ensures Good(t')
  {
  }

  lemma Parts(k: int)
    ensures Sub(Leaf(k), 1)
  {
  }

  lemma Pair(l: Tree, k: int, r: Tree, hl: int, hr: int)
    requires Sub(l, hl) && Sub(r, hr)
    ensures Sub(N(l, k, r, 1 + Max(hl, hr)), 1 + Max(hl, hr))
  {
  }

  lemma None()
    ensures Sub(Nil, 0)
  {
  }

  lemma FourSub(k: int)
    ensures Sub(Four(k), 3) && Sub(N(Four(k), k + 6, Nil, 4), 4)
  {
    Parts(k + 2);
    Parts(k + 5);
    None();
    Pair(Nil, k + 1, Leaf(k + 2), 0, 1);
    Pair(N(Nil, k + 1, Leaf(k + 2), 2), k + 4, Leaf(k + 5), 2, 1);
    Pair(Four(k), k + 6, Nil, 3, 0);
  }

  lemma NineSub(k: int)
    ensures Sub(Nine(k), 2) && Sub(N(Nil, k + 7, Nine(k), 3), 3)
  {
    Parts(k + 9);
    None();
    Pair(Leaf(k + 9), k + 10, Nil, 1, 0);
    Pair(Nil, k + 7, Nine(k), 0, 2);
  }

  lemma FifteenSub(k: int)
    ensures Sub(N(N(Nil, k + 12, Leaf(k + 14), 2), k + 15, Leaf(k + 16), 3), 3)
  {
    Parts(k + 14);
    Parts(k + 16);
    None();
    Pair(Nil, k + 12, Leaf(k + 14), 0, 1);
    Pair(N(Nil, k + 12, Leaf(k + 14), 2), k + 15, Leaf(k + 16), 2, 1);
  }

  lemma Lead1(k: int)
    ensures Leads(Start(k), Take(k + 3), First(k))
  {
    var t := Start(k);
    StartFine(k);
    Parts(k + 1);
    Parts(k + 5);
    NineSub(k);
    Turn1(k, Leaf(k + 1), Leaf(k + 5), Nine(k));
    DeleteLeft(t.left, k + 3, First(k).left.left);
    DeleteLeft(t, k + 3, First(k).left);
    StepGood(t, Take(k + 3));
  }

  lemma Lead2(k: int)
    requires Good(First(k))
    ensures Leads(First(k), Put(Item(k + 2, k + 2)), Second(k)) && !HasKey(Items(First(k)), k + 2)
  {
    var t := First(k);
    Parts(k + 5);
    NineSub(k);
    Turn2(k, Leaf(k + 5), N(Nil, k + 7, Nine(k), 3));
    InsertLeft(t.left, k + 2, Second(k).left.left);
    InsertLeft(t, k + 2, Second(k).left);
    Missing2(k, Leaf(k + 5), N(Nil, k + 7, Nine(k), 3), Middle(k), High(k));
    Absent(t, k + 2);
    StepGood(t, Put(Item(k + 2, k + 2)));
  }

  lemma Absent(t: Tree, key: int)
    requires Search(t) && !Found(t, key)
    ensures !HasKey(Items(t), key)
  {
    if HasKey(Items(t), key) { FoundThere(t, key); }
  }

  lemma Lead3(k: int)
    requires Good(Second(k))
    ensures Leads(Second(k), Take(k + 13), Third(k))
  {
    var t := Second(k);
    FourSub(k);
    NineSub(k);
    Parts(k + 12);
    Parts(k + 16);
    Turn3(k, Four(k), Nine(k), Leaf(k + 12), Leaf(k + 16));
    DeleteLeft(t, k + 13, Third(k).left);
    StepGood(t, Take(k + 13));
  }

  lemma Lead4(k: int)
    requires Good(Third(k))
    ensures Leads(Third(k), Put(Item(k + 14, k + 14)), Fourth(k)) && !HasKey(Items(Third(k)), k + 14)
  {
    var t := Third(k);
    FourSub(k);
    NineSub(k);
    Parts(k + 16);
    Turn4(k, N(Four(k), k + 6, Nil, 4), Nine(k), Leaf(k + 16));
    InsertLeft(t, k + 14, Fourth(k).left);
    Missing14(k, N(Four(k), k + 6, Nil, 4), Nine(k), Leaf(k + 16), High(k));
    Absent(t, k + 14);
    StepGood(t, Put(Item(k + 14, k + 14)));
  }

  lemma Lead5(k: int)
    requires Good(Fourth(k))
    ensures Leads(Fourth(k), Take(k + 19), Fifth(k))
  {
    var t := Fourth(k);
    FourSub(k);
    NineSub(k);
    FifteenSub(k);
    Parts(k + 18);
    Parts(k + 21);
    Parts(k + 23);
    None();
    Pair(Leaf(k + 23), k + 24, Nil, 1, 0);
    Turn5(k, N(Four(k), k + 6, Nil, 4), Nine(k), N(N(Nil, k + 12, Leaf(k + 14), 2), k + 15, Leaf(k + 16), 3),
          Leaf(k + 18), Leaf(k + 21), N(Leaf(k + 23), k + 24, Nil, 2));
    StepGood(t, Take(k + 19));
  }

  lemma Lead6(k: int)
    requires Good(Fifth(k))
    ensures Step(Fifth(k), Put(Item(k + 8, k + 8))) == Stuck && !HasKey(Items(Fifth(k)), k + 8)
  {
    var t := Fifth(k);
    FourSub(k);
    Eight(k);
    Turn6(k, N(Four(k), k + 6, Nil, 4), Nine(k), N(Leaf(k + 8), k + 9, Leaf(k + 10), 2), t.right);
    Missing8(k, N(Four(k), k + 6, Nil, 4), t.right);
    Absent(t, k + 8);
  }

  function Tail(k: int): seq<Op> {
    [Take(k + 3), Put(Item(k + 2, k + 2)), Take(k + 13), Put(Item(k + 14, k + 14)), Take(k + 19),
     Put(Item(k + 8, k + 8))]
  }

  lemma PlayLeads(t: Tree, ops: seq<Op>, t': Tree)
    requires ops != [] && Leads(t, ops[0], t')
    ensures Play(t, ops) == Play(t', ops[1..])
  {
  }

  /** From an empty tree: twenty-one insertions, three deletions with two more insertions between them,
      and the next insertion turns around a child that is not there. */
  lemma ReachesStuck(k: int)
    ensures Balanced(Start(k)) && Good(Start(k)) && Play(Nil, Order(Start(k)) + Tail(k)) == Stuck
  {
    hide Leads, Step, Play, Order, Start;
    StartIsGood(k);
    BalancedReached(Start(k));
    PlayJoin(Nil, Order(Start(k)), Tail(k));
    PlaysTail(k);
  }

  lemma StartIsGood(k: int)
    ensures Balanced(Start(k)) && Good(Start(k))
  {
    StartFine(k);
  }

  lemma PlaysTail(k: int)
    requires Good(Start(k))
    ensures Play(Start(k), Tail(k)) == Stuck
  {
    hide Step, Good, Start, First, Second, Third, Fourth, Fifth;
    var ops := Tail(k);
    Lead1(k);
    PlayLeads(Start(k), ops, First(k));
    Lead2(k);
    PlayLeads(First(k), ops[1..], Second(k));
    Lead3(k);
    PlayLeads(Second(k), ops[2..], Third(k));
    Lead4(k);
    PlayLeads(Third(k), ops[3..], Fourth(k));
    Lead5(k);
    PlayLeads(Fourth(k), ops[4..], Fifth(k));
    Lead6(k);
    assert ops[5..][0] == Put(Item(k + 8, k + 8));
  }
}
