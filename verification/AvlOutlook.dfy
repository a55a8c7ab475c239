/** When an insertion into a search tree that deletions have left out of balance turns around a child
    that is not there, told from the tree before the insertion. */
module AvlOutlook {
  import opened AvlTree

  // ----- what can be told beforehand

  /** One side of the new entry's node: its height, and the heights below it if a turn has just made it. */
  datatype Side = Whole(total: int) | Fork(low: int, high: int)

  function Height(s: Side): int {
    match s
    case Whole(n) => n
    case Fork(low, high) => 1 + Max(low, high)
  }

  /** The way down to the new entry, with the heights of the subtrees beside it. */
  datatype Way = Here(left: Side, right: Side) | Left(off: int, rest: Way) | Right(off: int, rest: Way)

  function Span(w: Way): int {
    match w
    case Here(l, r) => 1 + Max(Height(l), Height(r))
    case Left(off, rest) => 1 + Max(off, Span(rest))
    case Right(off, rest) => 1 + Max(off, Span(rest))
  }

  /** The insertion meets a missing child, or goes through and leaves this way. */
  datatype Outlook = Blocked | Clear(way: Way)

  /** A node whose left side, with the entry in it, is two or more levels taller than `other` is turned. */
  function TurnLeft(w: Way, other: int): Way {
    match w
    case Left(o, rest) => Left(1 + Max(o, other), rest)
    case Right(o, Here(l, r)) => Here(Fork(o, Height(l)), Fork(Height(r), other))
    case Right(o, Left(u, rest)) => Left(1 + Max(u, other), Right(o, rest))
    case Right(o, Right(u, rest)) => Right(1 + Max(o, u), Left(other, rest))
    case Here(l, r) => if r.Fork? then Left(1 + Max(r.high, other), Here(l, Whole(r.low))) else w
  }

  function TurnRight(w: Way, other: int): Way {
    match w
    case Right(o, rest) => Right(1 + Max(o, other), rest)
    case Left(o, Here(l, r)) => Here(Fork(other, Height(l)), Fork(Height(r), o))
    case Left(o, Left(u, rest)) => Left(1 + Max(u, o), Right(other, rest))
    case Left(o, Right(u, rest)) => Right(1 + Max(other, u), Left(o, rest))
    case Here(l, r) => if l.Fork? then Right(1 + Max(other, l.low), Here(Whole(l.high), r)) else w
  }

  /** A node with the entry on its left and `s` on its right. When `s` is two or more levels taller, the
      turn is around the left child of `s`, which has to be there. */
  function LeftOutlook(s: Tree, w: Way): Outlook {
    if H(s) >= Span(w) + 2 then
      if s.Node? && s.left.Node? then Clear(Left(1 + Max(H(s.left.right), H(s.right)), Left(H(s.left.left), w)))
      else Blocked
    else if Span(w) >= H(s) + 2 then Clear(TurnLeft(w, H(s)))
    else Clear(Left(H(s), w))
  }

  function RightOutlook(s: Tree, w: Way): Outlook {
    if H(s) >= Span(w) + 2 then
      if s.Node? && s.right.Node? then Clear(Right(1 + Max(H(s.left), H(s.right.left)), Right(H(s.right.right), w)))
      else Blocked
    else if Span(w) >= H(s) + 2 then Clear(TurnRight(w, H(s)))
    else Clear(Right(H(s), w))
  }

  function Foresee(t: Tree, key: int): Outlook {
    if t.Nil? then Clear(Here(Whole(0), Whole(0)))
    else if key < t.key then
      match Foresee(t.left, key)
      case Blocked => Blocked
      case Clear(w) => LeftOutlook(t.right, w)
    else
      match Foresee(t.right, key)
      case Blocked => Blocked
      case Clear(w) => RightOutlook(t.left, w)
  }

  // ----- what it means

  ghost predicate SideIs(t: Tree, s: Side) {
    H(t) == Height(s) && (s.Fork? ==> t.Node? && H(t.left) == s.low && H(t.right) == s.high)
  }

  ghost predicate WayIs(t: Tree, key: int, w: Way)
    decreases w
  {
    t.Node? &&
    match w
    case Here(l, r) => t.key == key && SideIs(t.left, l) && SideIs(t.right, r)
    case Left(off, rest) => key < t.key && H(t.right) == off && WayIs(t.left, key, rest)
    case Right(off, rest) => t.key < key && H(t.left) == off && WayIs(t.right, key, rest)
  }

  /** An entry at the top of its subtree is alone there, or a turn has just put it there. */
  ghost predicate Apt(w: Way) {
    w.Here? ==> Span(w) == 1 || (w.left.Fork? && w.right.Fork?)
  }

  ghost predicate Comes(o: Outlook, r: Result, key: int) {
    match o
    case Blocked => r.Stuck?
    case Clear(w) => r.Ok? && WayIs(r.tree, key, w) && Apt(w)
  }

  lemma {:induction false} WaySpan(t: Tree, key: int, w: Way)
    requires Exact(t) && WayIs(t, key, w)
    ensures H(t) == Span(w)
  {
    if w.Left? { WaySpan(t.left, key, w.rest); } else if w.Right? { WaySpan(t.right, key, w.rest); }
  }

  /** What an insertion that goes through leaves: right heights, all keys on their side. */
  lemma InsertLeaves(t: Tree, id: int, key: int)
    requires Search(t) && Exact(t) && !HasKey(Items(t), key) && Insert(t, id, key).Ok?
    ensures Exact(Insert(t, id, key).tree) && Search(Insert(t, id, key).tree)
  {
    InsertSound(t, id, key);
    AddedSorted(Items(t), Item(id, key));
  }

  lemma RootKey(t: Tree)
    requires t.Node?
    ensures Item(t.id, t.key) in Items(t)
    ensures t.left.Node? ==> Item(t.left.id, t.left.key) in Items(t)
    ensures t.right.Node? ==> Item(t.right.id, t.right.key) in Items(t)
  {
    var l, r := Items(t.left), Items(t.right);
    assert Items(t)[|l|] == Item(t.id, t.key);
    if t.left.Node? {
      assert Items(t.left)[|Items(t.left.left)|] == Item(t.left.id, t.left.key) == Items(t)[|Items(t.left.left)|];
    }
    if t.right.Node? {
      var k := |Items(t.right.left)|;
      assert Items(t.right)[k] == Item(t.right.id, t.right.key) == Items(t)[|l| + 1 + k];
    }
  }

  lemma Sides(t: Tree)
    requires t.Node? && Search(t)
    ensures Search(t.left) && Search(t.right)
    ensures t.left.Node? ==> t.left.key < t.key && (t.left.right.Node? ==> t.left.right.key < t.key)
    ensures t.right.Node? ==> t.key < t.right.key && (t.right.left.Node? ==> t.key < t.right.left.key)
  {
    SortedParts(Items(t.left), Item(t.id, t.key), Items(t.right));
    if t.left.Node? { RootKey(t.left); }
    if t.right.Node? { RootKey(t.right); }
  }

  // ----- one level, on the right and on the left

  lemma TurnLeftWay(t: Tree, key: int, w: Way)
    requires t.Node? && Exact(t) && Factor(t) >= 2 && key < t.key && WayIs(t.left, key, w) && Apt(w) && Span(w) >= 2 &&
             Search(t.left)
    ensures var turn := InsertTurn(t, key);
            CanTurn(t, turn) && WayIs(Turned(t, turn), key, TurnLeft(w, H(t.right))) && Apt(TurnLeft(w, H(t.right)))
  {
    assert Exact(t.left) && Exact(t.right);
    var c := t.left;
    Sides(c);
    if w.Right? { assert Exact(c.right); }
  }

  lemma TurnRightWay(t: Tree, key: int, w: Way)
    requires t.Node? && Exact(t) && Factor(t) <= -2 && t.key < key && WayIs(t.right, key, w) && Apt(w) &&
             Span(w) >= 2 && Search(t.right)
    ensures var turn := InsertTurn(t, key);
            CanTurn(t, turn) && WayIs(Turned(t, turn), key, TurnRight(w, H(t.left))) && Apt(TurnRight(w, H(t.left)))
  {
    assert Exact(t.left) && Exact(t.right);
    var c := t.right;
    Sides(c);
    if w.Left? { assert Exact(c.left); }
  }

  lemma FarLeft(t: Tree, key: int, w: Way)
    requires t.Node? && t.right.Node? && t.right.left.Node? && Exact(t) && WayIs(t.left, key, w) && key < t.key &&
             key < t.right.left.key
    ensures var s := t.right;
            WayIs(Turned(t, RL), key, Left(1 + Max(H(s.left.right), H(s.right)), Left(H(s.left.left), w)))
  {
    hide Exact, WayIs;
    FarWay(Turned(t, RL), key, w);
  }

  lemma FarWay(t: Tree, key: int, w: Way)
    requires t.Node? && t.left.Node? && key < t.key && key < t.left.key && WayIs(t.left.left, key, w)
    ensures WayIs(t, key, Left(H(t.right), Left(H(t.left.right), w)))
  {
  }

  lemma FarRight(t: Tree, key: int, w: Way)
    requires t.Node? && t.left.Node? && t.left.right.Node? && Exact(t) && WayIs(t.right, key, w) && t.key < key &&
             t.left.right.key < key
    ensures var s := t.left;
            WayIs(Turned(t, LR), key, Right(1 + Max(H(s.left), H(s.right.left)), Right(H(s.right.right), w)))
  {
    hide Exact, WayIs;
    FarWayRight(Turned(t, LR), key, w);
  }

  lemma FarWayRight(t: Tree, key: int, w: Way)
    requires t.Node? && t.right.Node? && t.key < key && t.right.key < key && WayIs(t.right.right, key, w)
    ensures WayIs(t, key, Right(H(t.left), Right(H(t.right.left), w)))
  {
  }

  lemma LeftStep(t: Tree, l: Tree, key: int, w: Way)
    requires t.Node? && Exact(t.right) && Exact(l) && Search(l) && WayIs(l, key, w) && Apt(w) && key < t.key
    requires t.right.Node? ==> key < t.right.key
    requires t.right.Node? && t.right.left.Node? ==> key < t.right.left.key
    ensures Comes(LeftOutlook(t.right, w), Settled(t.(left := l), key), key)
  {
    var u := Updated(t.(left := l));
    WaySpan(l, key, w);
    HeightPositive(t.right);
    HeightPositive(l);
    assert Exact(u);
    if Factor(u) >= 2 { TurnLeftWay(u, key, w); }
    else if Factor(u) <= -2 && u.right.left.Node? { FarLeft(u, key, w); }
  }

  lemma RightStep(t: Tree, r: Tree, key: int, w: Way)
    requires t.Node? && Exact(t.left) && Exact(r) && Search(r) && WayIs(r, key, w) && Apt(w) && t.key < key
    requires t.left.Node? ==> t.left.key < key
    requires t.left.Node? && t.left.right.Node? ==> t.left.right.key < key
    ensures Comes(RightOutlook(t.left, w), Settled(t.(right := r), key), key)
  {
    var u := Updated(t.(right := r));
    WaySpan(r, key, w);
    HeightPositive(t.left);
    HeightPositive(r);
    assert Exact(u);
    if Factor(u) <= -2 { TurnRightWay(u, key, w); }
    else if Factor(u) >= 2 && u.left.right.Node? { FarRight(u, key, w); }
  }

  lemma {:induction false} HeightPositive(t: Tree)
    requires Exact(t)
    ensures H(t) >= 0 && (t.Node? ==> H(t) > 0)
  {
    if t.Node? {
      HeightPositive(t.left);
      HeightPositive(t.right);
    }
  }

  /** What is foreseen comes. */
  lemma {:induction false} Foreseen(t: Tree, id: int, key: int)
    requires Search(t) && Exact(t) && !HasKey(Items(t), key)
    ensures Comes(Foresee(t, key), Insert(t, id, key), key)
  {
    if t.Node? {
      Sides(t);
      KeyBelow(Items(t.left), Item(t.id, t.key), Items(t.right), key);
      if key < t.key {
        Foreseen(t.left, id, key);
        if Foresee(t.left, key).Clear? {
          InsertLeaves(t.left, id, key);
          LeftStep(t, Insert(t.left, id, key).tree, key, Foresee(t.left, key).way);
        }
      } else {
        Foreseen(t.right, id, key);
        if Foresee(t.right, key).Clear? {
          InsertLeaves(t.right, id, key);
          RightStep(t, Insert(t.right, id, key).tree, key, Foresee(t.right, key).way);
        }
      }
    }
  }

  /** Exactly when an insertion goes through, and how tall the tree is then, told from the tree before. */
  lemma InsertGoesThrough(t: Tree, id: int, key: int)
    requires Search(t) && Exact(t) && !HasKey(Items(t), key)
    ensures Insert(t, id, key).Ok? <==> Foresee(t, key).Clear?
    ensures Insert(t, id, key).Ok? ==> H(Insert(t, id, key).tree) == Span(Foresee(t, key).way)
  {
    Foreseen(t, id, key);
    if Foresee(t, key).Clear? {
      InsertSound(t, id, key);
      WaySpan(Insert(t, id, key).tree, key, Foresee(t, key).way);
    }
  }

  // ----- growth

  /** All nodes on the way to `key` are even. */
  predicate EvenWay(t: Tree, key: int) {
    t.Nil? || (Factor(t) == 0 && EvenWay(if key < t.key then t.left else t.right, key))
  }

  /** The way grows the tree by one level if it was even and not otherwise; if it was, nothing turned. */
  ghost predicate Grows(w: Way, height: int, even: bool) {
    && Span(w) <= height + 1 && (Span(w) == height + 1 <==> even)
    && (even && height > 0 ==> !w.Here? && w.off == height - 1)
  }

  lemma TurnLeftGrows(w: Way, other: int, h: int, even: bool)
    requires h >= 0 && other >= 0 && Grows(w, h, even) && Span(w) >= other + 2 && Apt(w)
    ensures Span(TurnLeft(w, other)) <= h + 1
  {
    match w
    case Left(o, rest) =>
    case Right(o, Here(l, r)) =>
    case Right(o, Left(u, rest)) =>
    case Right(o, Right(u, rest)) =>
    case Here(l, r) =>
  }

  lemma TurnRightGrows(w: Way, other: int, h: int, even: bool)
    requires h >= 0 && other >= 0 && Grows(w, h, even) && Span(w) >= other + 2 && Apt(w)
    ensures Span(TurnRight(w, other)) <= h + 1
  {
    match w
    case Right(o, rest) =>
    case Left(o, Here(l, r)) =>
    case Left(o, Left(u, rest)) =>
    case Left(o, Right(u, rest)) =>
    case Here(l, r) =>
  }

  lemma TallSides(s: Tree)
    requires Exact(s) && s.Node?
    ensures H(s.left) < H(s) && H(s.right) < H(s)
    ensures s.left.Node? ==> H(s.left.left) < H(s) - 1 && H(s.left.right) < H(s) - 1
    ensures s.right.Node? ==> H(s.right.left) < H(s) - 1 && H(s.right.right) < H(s) - 1
  {
    assert Exact(s.left) && Exact(s.right);
  }

  lemma LeftGrows(s: Tree, w: Way, h: int, even: bool)
    requires Exact(s) && h >= 0 && Grows(w, h, even) && Apt(w) && LeftOutlook(s, w).Clear?
    ensures Grows(LeftOutlook(s, w).way, 1 + Max(H(s), h), even && H(s) == h)
  {
    hide TurnLeft, TurnRight, Exact;
    HeightPositive(s);
    if H(s) >= Span(w) + 2 {
      TallSides(s);
      assert Span(Left(H(s.left.left), w)) == 1 + Max(H(s.left.left), Span(w));
    } else if Span(w) >= H(s) + 2 {
      TurnLeftGrows(w, H(s), h, even);
    }
  }

  lemma RightGrows(s: Tree, w: Way, h: int, even: bool)
    requires Exact(s) && h >= 0 && Grows(w, h, even) && Apt(w) && RightOutlook(s, w).Clear?
    ensures Grows(RightOutlook(s, w).way, 1 + Max(H(s), h), even && H(s) == h)
  {
    hide TurnLeft, TurnRight, Exact;
    HeightPositive(s);
    if H(s) >= Span(w) + 2 {
      TallSides(s);
      assert Span(Right(H(s.right.right), w)) == 1 + Max(H(s.right.right), Span(w));
    } else if Span(w) >= H(s) + 2 {
      TurnRightGrows(w, H(s), h, even);
    }
  }

  /** An insertion that goes through takes the tree one level up if all nodes on the way are even, and
      never otherwise. */
  lemma {:induction false} InsertGrows(t: Tree, id: int, key: int)
    requires Search(t) && Exact(t) && !HasKey(Items(t), key) && Foresee(t, key).Clear?
    ensures H(t) >= 0 && Grows(Foresee(t, key).way, H(t), EvenWay(t, key))
  {
    if t.Node? {
      Sides(t);
      KeyBelow(Items(t.left), Item(t.id, t.key), Items(t.right), key);
      if key < t.key {
        InsertGrows(t.left, id, key);
        Foreseen(t.left, id, key);
        LeftGrows(t.right, Foresee(t.left, key).way, H(t.left), EvenWay(t.left, key));
      } else {
        InsertGrows(t.right, id, key);
        Foreseen(t.right, id, key);
        RightGrows(t.left, Foresee(t.right, key).way, H(t.right), EvenWay(t.right, key));
      }
    }
  }
}
