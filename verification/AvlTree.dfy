/** The height-balanced search trees of the alias inodes, as values. */
module AvlTree {
  /** A node: which inode entry it is, its search key, and the height field as stored. */
  datatype Tree = Nil | Node(id: int, key: int, left: Tree, right: Tree, height: int)

  datatype Item = Item(id: int, key: int)

  // ----- meaning

  /** The entries in order. */
  function Items(t: Tree): seq<Item> {
    if t.Nil? then [] else Items(t.left) + [Item(t.id, t.key)] + Items(t.right)
  }

  ghost predicate Sorted(s: seq<Item>) { forall i, j :: 0 <= i < j < |s| ==> s[i].key < s[j].key }

  ghost predicate Search(t: Tree) { Sorted(Items(t)) }

  /** Some entry has the key. */
  ghost predicate HasKey(s: seq<Item>, key: int) { exists i :: 0 <= i < |s| && s[i].key == key }

  /** The entries with one more in its place. */
  function Added(s: seq<Item>, it: Item): seq<Item> {
    if s == [] || it.key < s[0].key then [it] + s else [s[0]] + Added(s[1..], it)
  }

  /** The entries without the one with `key`. */
  function Dropped(s: seq<Item>, key: int): seq<Item> {
    if s == [] then [] else if s[0].key == key then s[1..] else [s[0]] + Dropped(s[1..], key)
  }

  lemma SortedParts(a: seq<Item>, m: Item, b: seq<Item>)
    requires Sorted(a + [m] + b)
    ensures Sorted(a) && Sorted(b)
    ensures forall i :: 0 <= i < |a| ==> a[i].key < m.key
    ensures forall i :: 0 <= i < |b| ==> m.key < b[i].key
  {
    var s := a + [m] + b;
    assert forall i :: 0 <= i < |a| ==> s[i] == a[i];
    assert s[|a|] == m;
    assert forall i :: 0 <= i < |b| ==> s[|a| + 1 + i] == b[i];
  }

  lemma {:induction false} AddedLeft(a: seq<Item>, m: Item, b: seq<Item>, it: Item)
    requires it.key < m.key
    ensures Added(a + [m] + b, it) == Added(a, it) + [m] + b
  {
    var s := a + [m] + b;
    if a != [] && it.key >= a[0].key {
      AddedLeft(a[1..], m, b, it);
      assert s[1..] == a[1..] + [m] + b;
    } else {
      assert [it] + s == [it] + a + [m] + b;
    }
  }

  lemma {:induction false} AddedRight(a: seq<Item>, m: Item, b: seq<Item>, it: Item)
    requires m.key <= it.key && forall i :: 0 <= i < |a| ==> a[i].key <= it.key
    ensures Added(a + [m] + b, it) == a + [m] + Added(b, it)
  {
    var s := a + [m] + b;
    if a == [] {
      assert s[1..] == b;
    } else {
      AddedRight(a[1..], m, b, it);
      assert s[1..] == a[1..] + [m] + b;
    }
  }

  lemma {:induction false} DroppedLeft(a: seq<Item>, m: Item, b: seq<Item>, key: int)
    requires key < m.key && forall i :: 0 <= i < |b| ==> m.key < b[i].key
    ensures Dropped(a + [m] + b, key) == Dropped(a, key) + [m] + b
  {
    var s := a + [m] + b;
    if a == [] {
      assert s == [m] + b && s[1..] == b;
      DroppedNone(b, key);
    } else {
      assert s[1..] == a[1..] + [m] + b;
      if a[0].key != key { DroppedLeft(a[1..], m, b, key); }
    }
  }

  lemma {:induction false} DroppedNone(s: seq<Item>, key: int)
    requires forall i :: 0 <= i < |s| ==> s[i].key != key
    ensures Dropped(s, key) == s
  {
    if s != [] {
      DroppedNone(s[1..], key);
      assert s == [s[0]] + s[1..];
    }
  }

  lemma {:induction false} DroppedRight(a: seq<Item>, m: Item, b: seq<Item>, key: int)
    requires m.key < key && forall i :: 0 <= i < |a| ==> a[i].key < key
    ensures Dropped(a + [m] + b, key) == a + [m] + Dropped(b, key)
  {
    var s := a + [m] + b;
    if a == [] {
      assert s[1..] == b;
    } else {
      DroppedRight(a[1..], m, b, key);
      assert s[1..] == a[1..] + [m] + b;
    }
  }

  lemma {:induction false} DroppedHere(a: seq<Item>, m: Item, b: seq<Item>)
    requires forall i :: 0 <= i < |a| ==> a[i].key < m.key
    ensures Dropped(a + [m] + b, m.key) == a + b
  {
    var s := a + [m] + b;
    if a == [] {
      assert s[1..] == b;
    } else {
      DroppedHere(a[1..], m, b);
      assert s[1..] == a[1..] + [m] + b;
      assert a + b == [a[0]] + (a[1..] + b);
    }
  }

  /** Adding a new key keeps the order; what is there afterwards is what was there, and the new entry. */
  lemma {:induction false} AddedSorted(s: seq<Item>, it: Item)
    requires Sorted(s) && !HasKey(s, it.key)
    ensures Sorted(Added(s, it))
    ensures forall m :: m in Added(s, it) <==> m in s || m == it
  {
    if s != [] && it.key >= s[0].key {
      var r := s[1..];
      assert forall i :: 0 <= i < |r| ==> r[i] == s[i + 1];
      AddedSorted(r, it);
      assert s == [s[0]] + r;
      assert s[0].key != it.key;
      var r' := Added(r, it);
      forall i | 0 <= i < |r'| ensures s[0].key < r'[i].key { assert r'[i] in r'; }
    }
  }

  lemma SortedTail(s: seq<Item>)
    requires s != [] && Sorted(s)
    ensures Sorted(s[1..]) && forall m :: m in s[1..] ==> s[0].key < m.key
  {
    var r := s[1..];
    assert forall i :: 0 <= i < |r| ==> r[i] == s[i + 1];
  }

  lemma SortedCons(m: Item, r: seq<Item>)
    requires Sorted(r) && forall n :: n in r ==> m.key < n.key
    ensures Sorted([m] + r)
  {
    var s := [m] + r;
    forall i, j | 0 <= i < j < |s| ensures s[i].key < s[j].key {
      assert s[j] == r[j - 1];
      if i > 0 { assert s[i] == r[i - 1]; }
    }
  }

  lemma {:induction false} DroppedSorted(s: seq<Item>, key: int)
    requires Sorted(s)
    ensures Sorted(Dropped(s, key))
    ensures forall m :: m in Dropped(s, key) <==> m in s && m.key != key
  {
    hide Sorted;
    if s != [] {
      var r := s[1..];
      SortedTail(s);
      assert s == [s[0]] + r;
      if s[0].key != key {
        DroppedSorted(r, key);
        SortedCons(s[0], Dropped(r, key));
      }
    }
  }

  function H(t: Tree): int { if t.Nil? then 0 else t.height }

  function Max(a: int, b: int): int { if a > b then a else b }

  /** Every stored height is one more than the greater of those below it. */
  ghost predicate Exact(t: Tree) {
    t.Node? ==> t.height == Max(H(t.left), H(t.right)) + 1 > 0 && Exact(t.left) && Exact(t.right)
  }

  /** The longest path. */
  function Depth(t: Tree): nat {
    if t.Nil? then 0 else 1 + if Depth(t.left) > Depth(t.right) then Depth(t.left) else Depth(t.right)
  }

  lemma {:induction false} ExactIsDepth(t: Tree)
    requires Exact(t)
    ensures H(t) == Depth(t)
  {
    if t.Node? {
      ExactIsDepth(t.left);
      ExactIsDepth(t.right);
    }
  }

  function Factor(t: Tree): int
    requires t.Node?
  {
    H(t.left) - H(t.right)
  }

  ghost predicate Balanced(t: Tree) {
    t.Node? ==> -1 <= Factor(t) <= 1 && Balanced(t.left) && Balanced(t.right)
  }

  // ----- rotations

  /** A node with its height recomputed. */
  function Updated(t: Tree): Tree
    requires t.Node?
  {
    t.(height := Max(H(t.left), H(t.right)) + 1)
  }

  function LeftRotated(t: Tree): Tree
    requires t.Node? && t.right.Node?
  {
    Updated(t.right.(left := Updated(t.(right := t.right.left))))
  }

  function RightRotated(t: Tree): Tree
    requires t.Node? && t.left.Node?
  {
    Updated(t.left.(right := Updated(t.(left := t.left.right))))
  }

  datatype Turn = LL | LR | RR | RL

  /** The children a turn takes apart are there. */
  predicate CanTurn(t: Tree, turn: Turn) {
    t.Node? &&
    match turn
    case LL => t.left.Node?
    case LR => t.left.Node? && t.left.right.Node?
    case RR => t.right.Node?
    case RL => t.right.Node? && t.right.left.Node?
  }

  function Turned(t: Tree, turn: Turn): Tree
    requires CanTurn(t, turn)
  {
    match turn
    case LL => RightRotated(t)
    case LR => RightRotated(t.(left := LeftRotated(t.left)))
    case RR => LeftRotated(t)
    case RL => LeftRotated(t.(right := RightRotated(t.right)))
  }

  /** A turn keeps the entries in order, and leaves right heights. */
  lemma TurnedSame(t: Tree, turn: Turn)
    requires CanTurn(t, turn) && Exact(t.left) && Exact(t.right)
    ensures Items(Turned(t, turn)) == Items(t) && Exact(Turned(t, turn))
  {
    match turn
    case LL => RightRotatedSame(t);
    case RR => LeftRotatedSame(t);
    case LR =>
      LeftRotatedSame(t.left);
      RightRotatedSame(t.(left := LeftRotated(t.left)));
    case RL =>
      RightRotatedSame(t.right);
      LeftRotatedSame(t.(right := RightRotated(t.right)));
  }

  lemma Regroup(a: seq<Item>, m: Item, b: seq<Item>, n: Item, c: seq<Item>)
    ensures (a + [m] + b) + [n] + c == a + [m] + (b + [n] + c)
  {
  }

  lemma UpdatedSame(t: Tree)
    requires t.Node? && Exact(t.left) && Exact(t.right)
    ensures Exact(Updated(t)) && Items(Updated(t)) == Items(t.left) + [Item(t.id, t.key)] + Items(t.right)
  {
  }

  lemma LeftRotatedSame(t: Tree)
    requires t.Node? && t.right.Node? && Exact(t.left) && Exact(t.right)
    ensures Items(LeftRotated(t)) == Items(t) && Exact(LeftRotated(t))
  {
    var r := t.right;
    var low := Updated(t.(right := r.left));
    UpdatedSame(t.(right := r.left));
    UpdatedSame(r.(left := low));
    Regroup(Items(t.left), Item(t.id, t.key), Items(r.left), Item(r.id, r.key), Items(r.right));
  }

  lemma RightRotatedSame(t: Tree)
    requires t.Node? && t.left.Node? && Exact(t.left) && Exact(t.right)
    ensures Items(RightRotated(t)) == Items(t) && Exact(RightRotated(t))
  {
    var l := t.left;
    var low := Updated(t.(left := l.right));
    UpdatedSame(t.(left := l.right));
    UpdatedSame(l.(right := low));
    Regroup(Items(l.left), Item(l.id, l.key), Items(l.right), Item(t.id, t.key), Items(t.right));
  }

  // ----- insertion

  datatype Result = Stuck | Ok(tree: Tree)

  /** The turn an insertion of `key` makes at a node that is out of balance. */
  function InsertTurn(t: Tree, key: int): Turn
    requires t.Node? && (Factor(t) > 1 ==> t.left.Node?) && (Factor(t) < -1 ==> t.right.Node?)
  {
    if Factor(t) > 1 then (if key < t.left.key then LL else LR)
    else if Factor(t) < -1 && key > t.right.key then RR else RL
  }

  /** After an insertion below it, a node's height is set and the node turned if need be. */
  function Settled(t: Tree, key: int): Result
    requires t.Node?
  {
    var u := Updated(t);
    if -1 <= Factor(u) <= 1 then Ok(u)
    else if (if Factor(u) > 1 then u.left.Nil? else u.right.Nil?) then Stuck
    else var turn := InsertTurn(u, key); if CanTurn(u, turn) then Ok(Turned(u, turn)) else Stuck
  }

  /** `Stuck` is a turn around a child that is not there. */
  function Insert(t: Tree, id: int, key: int): Result {
    if t.Nil? then Ok(Node(id, key, Nil, Nil, 1))
    else if key < t.key then
      (match Insert(t.left, id, key) case Stuck => Stuck case Ok(l) => Settled(t.(left := l), key))
    else
      (match Insert(t.right, id, key) case Stuck => Stuck case Ok(r) => Settled(t.(right := r), key))
  }

  lemma SettledSame(t: Tree, key: int)
    requires t.Node? && Exact(t.left) && Exact(t.right) && Settled(t, key).Ok?
    ensures var t' := Settled(t, key).tree; Items(t') == Items(t) && Exact(t')
  {
    var u := Updated(t);
    assert Exact(u);
    if !(-1 <= Factor(u) <= 1) { TurnedSame(u, InsertTurn(u, key)); }
  }

  /** An insertion that gets through adds exactly the new entry, in its place, and leaves right heights. */
  lemma {:induction false} InsertSound(t: Tree, id: int, key: int)
    requires Search(t) && Exact(t) && !HasKey(Items(t), key) && Insert(t, id, key).Ok?
    ensures var t' := Insert(t, id, key).tree;
            Items(t') == Added(Items(t), Item(id, key)) && Search(t') && Exact(t')
  {
    if t.Node? {
      var l, r, m := Items(t.left), Items(t.right), Item(t.id, t.key);
      SortedParts(l, m, r);
      assert Items(t)[|l|] == m;
      if key < t.key {
        KeyBelow(l, m, r, key);
        InsertSound(t.left, id, key);
        SettledSame(t.(left := Insert(t.left, id, key).tree), key);
        AddedLeft(l, m, r, Item(id, key));
      } else {
        KeyBelow(l, m, r, key);
        InsertSound(t.right, id, key);
        SettledSame(t.(right := Insert(t.right, id, key).tree), key);
        AddedRight(l, m, r, Item(id, key));
      }
    }
    AddedSorted(Items(t), Item(id, key));
  }

  lemma KeyBelow(l: seq<Item>, m: Item, r: seq<Item>, key: int)
    requires !HasKey(l + [m] + r, key)
    ensures !HasKey(l, key) && !HasKey(r, key) && m.key != key
  {
    var s := l + [m] + r;
    assert forall i :: 0 <= i < |l| ==> s[i] == l[i];
    assert s[|l|] == m;
    assert forall i :: 0 <= i < |r| ==> s[|l| + 1 + i] == r[i];
  }

  /** How a balanced tree may grow: by one level at most, and then on the side of the new key. */
  ghost predicate Grown(t: Tree, t': Tree, key: int) {
    Balanced(t') && Exact(t') && t'.Node? && H(t) <= H(t') <= H(t) + 1 &&
    (H(t') > H(t) && t.Node? ==> t'.key == t.key && Factor(t') == if key < t.key then 1 else -1)
  }

  lemma LeftSettled(t: Tree, l: Tree, key: int)
    requires t.Node? && Balanced(t) && Exact(t) && key < t.key && Grown(t.left, l, key)
    ensures Settled(t.(left := l), key).Ok? && Grown(t, Settled(t.(left := l), key).tree, key)
  {
    var u := Updated(t.(left := l));
    if Factor(u) > 1 { TurnBalanced(u, InsertTurn(u, key)); }
  }

  lemma RightSettled(t: Tree, r: Tree, key: int)
    requires t.Node? && Balanced(t) && Exact(t) && key > t.key && Grown(t.right, r, key)
    requires t.right.Node? ==> key != t.right.key
    ensures Settled(t.(right := r), key).Ok? && Grown(t, Settled(t.(right := r), key).tree, key)
  {
    var u := Updated(t.(right := r));
    if Factor(u) < -1 { TurnBalanced(u, InsertTurn(u, key)); }
  }

  /** The turn that fits the lean of the taller child restores the balance and takes a level off. */
  lemma TurnBalanced(t: Tree, turn: Turn)
    requires t.Node? && Exact(t) && Balanced(t.left) && Balanced(t.right) && CanTurn(t, turn)
    requires match turn
             case LL => Factor(t) == 2 && Factor(t.left) == 1
             case LR => Factor(t) == 2 && Factor(t.left) == -1
             case RR => Factor(t) == -2 && Factor(t.right) == -1
             case RL => Factor(t) == -2 && Factor(t.right) == 1
    ensures Balanced(Turned(t, turn)) && Exact(Turned(t, turn)) && Turned(t, turn).Node? &&
            H(Turned(t, turn)) == H(t) - 1
  {
    TurnedSame(t, turn);
    match turn
    case LL => assert Balanced(Updated(t.(left := t.left.right)));
    case RR => assert Balanced(Updated(t.(right := t.right.left)));
    case LR => DoubleBalanced(t.left, t.left.right, t);
    case RL => DoubleBalancedToo(t, t.right.left, t.right);
  }

  lemma DoubleBalanced(l: Tree, g: Tree, t: Tree)
    requires t.Node? && l.Node? && g.Node? && t.left == l && l.right == g && Exact(t)
    requires Balanced(l) && Balanced(t.right) && Factor(t) == 2 && Factor(l) == -1
    ensures Balanced(Turned(t, LR)) && H(Turned(t, LR)) == H(t) - 1
  {
    var h := H(t.right);
    assert H(l) == h + 2 && H(g) == h + 1 && H(l.left) == h;
    assert Balanced(g) && Exact(g);
    assert h - 1 <= H(g.left) <= h && h - 1 <= H(g.right) <= h;
    var low, high := Updated(l.(right := g.left)), Updated(t.(left := g.right));
    assert Balanced(low) && Balanced(high) && H(low) == H(high) == H(g);
    assert Turned(t, LR).left == low && Turned(t, LR).right == high;
  }

  lemma DoubleBalancedToo(t: Tree, g: Tree, r: Tree)
    requires t.Node? && r.Node? && g.Node? && t.right == r && r.left == g && Exact(t)
    requires Balanced(r) && Balanced(t.left) && Factor(t) == -2 && Factor(r) == 1
    ensures Balanced(Turned(t, RL)) && H(Turned(t, RL)) == H(t) - 1
  {
    var h := H(t.left);
    assert H(r) == h + 2 && H(g) == h + 1 && H(r.right) == h;
    assert Balanced(g) && Exact(g);
    assert h - 1 <= H(g.left) <= h && h - 1 <= H(g.right) <= h;
    var low, high := Updated(t.(right := g.left)), Updated(r.(left := g.right));
    assert Balanced(low) && Balanced(high) && H(low) == H(high) == H(g);
    assert Turned(t, RL).left == low && Turned(t, RL).right == high;
  }

  /** On a balanced tree without the key an insertion never gets stuck, and the tree stays balanced. */
  lemma {:induction false} InsertBalanced(t: Tree, id: int, key: int)
    requires Balanced(t) && Exact(t) && !HasKey(Items(t), key)
    ensures Insert(t, id, key).Ok? && Grown(t, Insert(t, id, key).tree, key)
  {
    if t.Node? {
      KeyBelow(Items(t.left), Item(t.id, t.key), Items(t.right), key);
      if key < t.key {
        InsertBalanced(t.left, id, key);
        LeftSettled(t, Insert(t.left, id, key).tree, key);
      } else {
        InsertBalanced(t.right, id, key);
        if t.right.Node? { KeyBelow(Items(t.right.left), Item(t.right.id, t.right.key), Items(t.right.right), key); }
        RightSettled(t, Insert(t.right, id, key).tree, key);
      }
    }
  }

  // ----- deletion

  function MinOf(t: Tree): Item
    requires t.Node?
  {
    if t.left.Nil? then Item(t.id, t.key) else MinOf(t.left)
  }

  /** An even child is turned like one that leans inward. */
  function DeleteTurn(t: Tree): Turn
    requires t.Node? && (Factor(t) > 1 ==> t.left.Node?) && (Factor(t) < -1 ==> t.right.Node?)
  {
    if Factor(t) > 1 then (if Factor(t.left) > 0 then LL else LR)
    else if Factor(t) < -1 && Factor(t.right) < 0 then RR else RL
  }

  /** With right heights, the children a deletion turns around are always there. */
  lemma DeleteCanTurn(t: Tree)
    requires t.Node? && Exact(t) && !(-1 <= Factor(t) <= 1)
    ensures (Factor(t) > 1 ==> t.left.Node?) && (Factor(t) < -1 ==> t.right.Node?) && CanTurn(t, DeleteTurn(t))
  {
    assert Exact(t.left) && Exact(t.right);
  }

  ghost function Rebalanced(t: Tree): (t': Tree)
    requires t.Node? && Exact(t.left) && Exact(t.right)
    ensures Exact(t') && t'.Node? && Items(t') == Items(t)
  {
    UpdatedSame(t);
    var u := Updated(t);
    if -1 <= Factor(u) <= 1 then u
    else DeleteCanTurn(u); TurnedSame(u, DeleteTurn(u)); Turned(u, DeleteTurn(u))
  }

  ghost function Delete(t: Tree, key: int): (t': Tree)
    requires Exact(t)
    ensures Exact(t')
    decreases t
  {
    if t.Nil? then Nil
    else if key < t.key then Rebalanced(t.(left := Delete(t.left, key)))
    else if key > t.key then Rebalanced(t.(right := Delete(t.right, key)))
    else if t.left.Nil? || t.right.Nil? then
      var child := if t.left.Nil? then t.right else t.left;
      assert Exact(child);
      if child.Nil? then Nil else Rebalanced(child)
    else
      var m := MinOf(t.right);
      Rebalanced(Node(m.id, m.key, t.left, Delete(t.right, m.key), t.height))
  }

  lemma {:induction false} MinFirst(t: Tree)
    requires t.Node?
    ensures Items(t) != [] && Items(t)[0] == MinOf(t)
  {
    if t.left.Node? { MinFirst(t.left); }
  }

  /** A deletion takes out exactly the entry with the key, if there is one, and keeps the others in order. */
  lemma {:induction false} DeleteSound(t: Tree, key: int)
    requires Search(t) && Exact(t)
    ensures Items(Delete(t, key)) == Dropped(Items(t), key) && Search(Delete(t, key))
    decreases t
  {
    if t.Node? {
      var l, r, m := Items(t.left), Items(t.right), Item(t.id, t.key);
      SortedParts(l, m, r);
      if key < t.key {
        DeleteSound(t.left, key);
        DroppedLeft(l, m, r, key);
      } else if key > t.key {
        DeleteSound(t.right, key);
        DroppedRight(l, m, r, key);
      } else {
        DroppedHere(l, m, r);
        if t.left.Node? && t.right.Node? {
          var n := MinOf(t.right);
          DeleteSound(t.right, n.key);
          MinFirst(t.right);
          Closing(l, n, r);
        } else {
          assert l + r == if t.left.Nil? then r else l;
        }
      }
    }
    DroppedSorted(Items(t), key);
  }

  lemma Closing(l: seq<Item>, n: Item, r: seq<Item>)
    requires r != [] && r[0] == n
    ensures l + [n] + Dropped(r, n.key) == l + r
  {
    assert r == [n] + r[1..];
  }

  // ----- when a deletion keeps the balance

  /** The taller child is even and its inner child leans outward: the double turn leaves a node two out. */
  predicate EvenLean(t: Tree)
    requires t.Node?
  {
    (Factor(t) > 1 && t.left.Node? && Factor(t.left) == 0 && t.left.right.Node? && Factor(t.left.right) < 0) ||
    (Factor(t) < -1 && t.right.Node? && Factor(t.right) == 0 && t.right.left.Node? && Factor(t.right.left) > 0)
  }

  /** Some node on the way to `key` meets that case. */
  ghost predicate Leans(t: Tree, key: int)
    requires Exact(t)
    decreases t
  {
    t.Node? &&
    if key < t.key then Leans(t.left, key) || EvenLean(Updated(t.(left := Delete(t.left, key))))
    else if key > t.key then Leans(t.right, key) || EvenLean(Updated(t.(right := Delete(t.right, key))))
    else t.left.Node? && t.right.Node? &&
         (Leans(t.right, MinOf(t.right).key) || EvenLean(Updated(t.(right := Delete(t.right, MinOf(t.right).key)))))
  }

  /** One turn of a deletion, with a balanced taller child. */
  lemma TurnKeepsBalance(t: Tree)
    requires t.Node? && Exact(t)
    requires (Factor(t) == 2 && Balanced(t.left)) || (Factor(t) == -2 && Balanced(t.right))
    ensures (Factor(t) > 1 ==> t.left.Node?) && (Factor(t) < -1 ==> t.right.Node?) && CanTurn(t, DeleteTurn(t))
    ensures H(t) - 1 <= H(Turned(t, DeleteTurn(t))) <= H(t)
    ensures Balanced(Turned(t, DeleteTurn(t))) <==>
            Balanced(if Factor(t) > 0 then t.right else t.left) && !EvenLean(t)
  {
    DeleteCanTurn(t);
    match DeleteTurn(t)
    case LL => SingleRight(t);
    case LR => DoubleRight(t, t.left, t.left.right);
    case RR => SingleLeft(t);
    case RL => DoubleLeft(t, t.right, t.right.left);
  }

  lemma SingleRight(t: Tree)
    requires t.Node? && Exact(t) && Factor(t) == 2 && Balanced(t.left) && t.left.Node? && Factor(t.left) == 1
    ensures H(Turned(t, LL)) == H(t) - 1 && (Balanced(Turned(t, LL)) <==> Balanced(t.right))
  {
    var low := Updated(t.(left := t.left.right));
    assert Exact(t.left) && Exact(t.left.right);
    assert Balanced(low) <==> Balanced(t.right);
  }

  lemma SingleLeft(t: Tree)
    requires t.Node? && Exact(t) && Factor(t) == -2 && Balanced(t.right) && t.right.Node? && Factor(t.right) == -1
    ensures H(Turned(t, RR)) == H(t) - 1 && (Balanced(Turned(t, RR)) <==> Balanced(t.left))
  {
    var low := Updated(t.(right := t.right.left));
    assert Exact(t.right) && Exact(t.right.left);
    assert Balanced(low) <==> Balanced(t.left);
  }

  lemma DoubleRight(t: Tree, l: Tree, g: Tree)
    requires t.Node? && Exact(t) && Factor(t) == 2 && t.left == l && Balanced(l) && l.Node? && l.right == g && g.Node?
    requires Factor(l) <= 0
    ensures H(t) - 1 <= H(Turned(t, LR)) <= H(t)
    ensures Balanced(Turned(t, LR)) <==> Balanced(t.right) && !(Factor(l) == 0 && Factor(g) < 0)
  {
    var h := H(t.right);
    assert Balanced(g) && Exact(g);
    assert H(l) == h + 2 && H(g) == h + 1 && h <= H(l.left) <= h + 1;
    assert h - 1 <= H(g.left) <= h && h - 1 <= H(g.right) <= h;
    var low, high := Updated(l.(right := g.left)), Updated(t.(left := g.right));
    assert Turned(t, LR).left == low && Turned(t, LR).right == high;
    assert Balanced(low) <==> !(Factor(l) == 0 && Factor(g) < 0);
    assert Balanced(high) <==> Balanced(t.right);
  }

  lemma DoubleLeft(t: Tree, r: Tree, g: Tree)
    requires t.Node? && Exact(t) && Factor(t) == -2 && t.right == r && Balanced(r) && r.Node? && r.left == g && g.Node?
    requires Factor(r) >= 0
    ensures H(t) - 1 <= H(Turned(t, RL)) <= H(t)
    ensures Balanced(Turned(t, RL)) <==> Balanced(t.left) && !(Factor(r) == 0 && Factor(g) > 0)
  {
    var h := H(t.left);
    assert Balanced(g) && Exact(g);
    assert H(r) == h + 2 && H(g) == h + 1 && h <= H(r.right) <= h + 1;
    assert h - 1 <= H(g.left) <= h && h - 1 <= H(g.right) <= h;
    var low, high := Updated(t.(right := g.left)), Updated(r.(left := g.right));
    assert Turned(t, RL).left == low && Turned(t, RL).right == high;
    assert Balanced(high) <==> !(Factor(r) == 0 && Factor(g) > 0);
    assert Balanced(low) <==> Balanced(t.left);
  }

  /** A node one of whose children may have lost a level. */
  lemma RebalancedKeeps(t: Tree)
    requires t.Node? && Exact(t.left) && Exact(t.right) && -2 <= H(t.left) - H(t.right) <= 2
    requires (H(t.left) - H(t.right) == 2 ==> Balanced(t.left)) && (H(t.left) - H(t.right) == -2 ==> Balanced(t.right))
    ensures var u := Updated(t);
            H(u) - 1 <= H(Rebalanced(t)) <= H(u) && (-1 <= Factor(u) <= 1 ==> Rebalanced(t) == u) &&
            (Balanced(Rebalanced(t)) <==> Balanced(t.left) && Balanced(t.right) && !EvenLean(u))
  {
    var u := Updated(t);
    UpdatedSame(t);
    if !(-1 <= Factor(u) <= 1) { TurnKeepsBalance(u); }
  }

  /** Deleting from a balanced tree takes at most a level off, and leaves it balanced exactly when no
      node on the way meets the even case. */
  lemma {:induction false} DeleteBalance(t: Tree, key: int)
    requires Exact(t) && Balanced(t)
    ensures H(t) - 1 <= H(Delete(t, key)) <= H(t)
    ensures Balanced(Delete(t, key)) <==> !Leans(t, key)
    decreases t
  {
    if t.Node? {
      if key < t.key {
        DeleteBalance(t.left, key);
        assert Exact(t.left) && Balanced(t.right);
        RebalancedKeeps(t.(left := Delete(t.left, key)));
      } else if key > t.key {
        DeleteBalance(t.right, key);
        RebalancedKeeps(t.(right := Delete(t.right, key)));
      } else if t.left.Node? && t.right.Node? {
        var m := MinOf(t.right);
        DeleteBalance(t.right, m.key);
        RebalancedKeeps(Node(m.id, m.key, t.left, Delete(t.right, m.key), t.height));
      } else {
        var child := if t.left.Nil? then t.right else t.left;
        if child.Node? { RebalancedKeeps(child); }
      }
    }
  }

  /** Deleting `key` takes a level off a balanced tree: it does so below, and the node was taller on that
      side, or taller on the other with a child there that is not even. */
  ghost predicate Shortens(t: Tree, key: int)
    decreases t
  {
    t.Node? &&
    if key < t.key then
      Shortens(t.left, key) && (Factor(t) == 1 || (Factor(t) == -1 && t.right.Node? && Factor(t.right) != 0))
    else if key > t.key then
      Shortens(t.right, key) && (Factor(t) == -1 || (Factor(t) == 1 && t.left.Node? && Factor(t.left) != 0))
    else t.left.Nil? || t.right.Nil? ||
         (Shortens(t.right, MinOf(t.right).key) && (Factor(t) == -1 || (Factor(t) == 1 && Factor(t.left) != 0)))
  }

  /** The left child is the taller one, even, and its inner child leans to the right. */
  predicate LeftTips(t: Tree)
    requires t.Node?
  {
    Factor(t) == 1 && t.left.Node? && Factor(t.left) == 0 && t.left.right.Node? && Factor(t.left.right) < 0
  }

  predicate RightTips(t: Tree)
    requires t.Node?
  {
    Factor(t) == -1 && t.right.Node? && Factor(t.right) == 0 && t.right.left.Node? && Factor(t.right.left) > 0
  }

  /** Some node on the way to `key` is about to lose a level on its lower side and tips over. */
  ghost predicate Tips(t: Tree, key: int)
    decreases t
  {
    t.Node? &&
    if key < t.key then Tips(t.left, key) || (Shortens(t.left, key) && RightTips(t))
    else if key > t.key then Tips(t.right, key) || (Shortens(t.right, key) && LeftTips(t))
    else t.left.Node? && t.right.Node? &&
         (Tips(t.right, MinOf(t.right).key) || (Shortens(t.right, MinOf(t.right).key) && LeftTips(t)))
  }

  lemma TurnHeight(t: Tree)
    requires t.Node? && Exact(t)
    requires (Factor(t) == 2 && Balanced(t.left)) || (Factor(t) == -2 && Balanced(t.right))
    ensures (Factor(t) > 1 ==> t.left.Node?) && (Factor(t) < -1 ==> t.right.Node?) && CanTurn(t, DeleteTurn(t))
    ensures H(Turned(t, DeleteTurn(t))) ==
            H(t) - if Factor(if Factor(t) > 1 then t.left else t.right) == 0 then 0 else 1
  {
    DeleteCanTurn(t);
    match DeleteTurn(t)
    case LL => SingleRight(t);
    case LR => assert Exact(t.left) && Exact(t.left.right);
    case RR => SingleLeft(t);
    case RL => assert Exact(t.right) && Exact(t.right.left);
  }

  /** A node whose left or right side, balanced no longer perhaps, has the height it had or one less. */
  lemma LeftLost(t: Tree, l: Tree, lost: bool)
    requires t.Node? && Exact(t) && Balanced(t) && Exact(l) && H(l) == H(t.left) - if lost then 1 else 0
    ensures H(Rebalanced(t.(left := l))) ==
            H(t) -
            if lost && (Factor(t) == 1 || (Factor(t) == -1 && t.right.Node? && Factor(t.right) != 0)) then 1 else 0
    ensures EvenLean(Updated(t.(left := l))) <==> lost && RightTips(t)
  {
    var u := Updated(t.(left := l));
    assert Exact(u) && Exact(t.right);
    if Factor(u) < -1 { TurnHeight(u); }
  }

  lemma RightLost(t: Tree, r: Tree, lost: bool)
    requires t.Node? && Exact(t) && Balanced(t) && Exact(r) && H(r) == H(t.right) - if lost then 1 else 0
    ensures H(Rebalanced(t.(right := r))) ==
            H(t) - if lost && (Factor(t) == -1 || (Factor(t) == 1 && t.left.Node? && Factor(t.left) != 0)) then 1 else 0
    ensures EvenLean(Updated(t.(right := r))) <==> lost && LeftTips(t)
  {
    var u := Updated(t.(right := r));
    assert Exact(u) && Exact(t.left);
    if Factor(u) > 1 { TurnHeight(u); }
  }

  /** Both can be told from the tree before the deletion. */
  lemma {:induction false} DeleteForeseen(t: Tree, key: int)
    requires Exact(t) && Balanced(t)
    ensures H(Delete(t, key)) == H(t) - if Shortens(t, key) then 1 else 0
    ensures Leans(t, key) <==> Tips(t, key)
    decreases t
  {
    if t.Node? {
      if key < t.key {
        DeleteForeseen(t.left, key);
        LeftLost(t, Delete(t.left, key), Shortens(t.left, key));
      } else if key > t.key {
        DeleteForeseen(t.right, key);
        RightLost(t, Delete(t.right, key), Shortens(t.right, key));
      } else if t.left.Node? && t.right.Node? {
        var m := MinOf(t.right);
        DeleteForeseen(t.right, m.key);
        RightLost(t.(id := m.id, key := m.key), Delete(t.right, m.key), Shortens(t.right, m.key));
      }
    }
  }

  /** Deleting from a balanced tree leaves it balanced exactly when no node on the way tips over. */
  lemma DeleteBalanced(t: Tree, key: int)
    requires Exact(t) && Balanced(t)
    ensures Balanced(Delete(t, key)) <==> !Tips(t, key)
  {
    DeleteBalance(t, key);
    DeleteForeseen(t, key);
  }

  function Leaf(k: int): Tree { Node(k, k, Nil, Nil, 1) }

  /** A balanced tree on which deleting the last key leaves a node two levels out. */
  function Uneven(k: int): Tree { Node(k + 6, k + 6, UnevenLeft(k), UnevenRight(k), 4) }

  function UnevenLeft(k: int): Tree { Node(k + 3, k + 3, UnevenLow(k), UnevenHigh(k), 3) }

  function UnevenLow(k: int): Tree { Node(k + 2, k + 2, Leaf(k + 1), Nil, 2) }

  function UnevenHigh(k: int): Tree { Node(k + 4, k + 4, Nil, Leaf(k + 5), 2) }

  function UnevenRight(k: int): Tree { Node(k + 7, k + 7, Nil, Leaf(k + 8), 2) }

  lemma UnevenGood(k: int)
    ensures Exact(Uneven(k)) && Balanced(Uneven(k))
  {
    var a, b, r := UnevenLow(k), UnevenHigh(k), UnevenRight(k);
    assert Exact(Nil) && Exact(Leaf(k + 1)) && Exact(Leaf(k + 5)) && Exact(Leaf(k + 8));
    assert Balanced(Nil) && Balanced(Leaf(k + 1)) && Balanced(Leaf(k + 5)) && Balanced(Leaf(k + 8));
    assert Exact(a) && Exact(b) && Balanced(a) && Balanced(b);
    assert Exact(UnevenLeft(k)) && Balanced(UnevenLeft(k));
    assert Exact(r) && Balanced(r);
  }

  lemma UnevenSearch(k: int)
    ensures Search(Uneven(k))
  {
    var a, b, r := UnevenLow(k), UnevenHigh(k), UnevenRight(k);
    assert Items(a) == [Item(k + 1, k + 1), Item(k + 2, k + 2)];
    assert Items(b) == [Item(k + 4, k + 4), Item(k + 5, k + 5)];
    assert Items(r) == [Item(k + 7, k + 7), Item(k + 8, k + 8)];
    assert Items(UnevenLeft(k)) == Items(a) + [Item(k + 3, k + 3)] + Items(b);
    assert Items(Uneven(k)) == Items(UnevenLeft(k)) + [Item(k + 6, k + 6)] + Items(r);
  }

  lemma DeleteUnbalances(k: int)
    ensures Search(Uneven(k)) && Exact(Uneven(k)) && Balanced(Uneven(k)) && !Balanced(Delete(Uneven(k), k + 8))
  {
    UnevenSearch(k);
    UnevenGood(k);
    var t, r := Uneven(k), UnevenRight(k);
    assert Delete(r.right, k + 8) == Nil;
    assert Delete(r, k + 8) == Rebalanced(r.(right := Nil));
    assert H(Delete(r, k + 8)) == 1;
    assert EvenLean(Updated(t.(right := Delete(r, k + 8))));
    assert Leans(t, k + 8);
    DeleteBalance(t, k + 8);
  }
}
