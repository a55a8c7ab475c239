/** Which inodes are pinned, and how much space that takes. */
module PinBook {
  const P_UNPIN := 0
  const P_PIN := 1
  const P_HIGH_PRI_PIN := 2

  /** `File` is a fifo or socket: it has a pin flag but takes no pinned space. A directory lists its
      children that are not directories and those that are. */
  datatype Inode = Regular(size: int) | File | Link | Dir(leaves: seq<int>, dirs: seq<int>)

  /** The inodes, in some order without repetition, and a rank that goes down from parent to child. */
  datatype Tree = Tree(nodes: map<int, Inode>, order: seq<int>, rank: map<int, nat>)

  type Flags = map<int, int>

  predicate IsPin(p: int) { p == P_PIN || p == P_HIGH_PRI_PIN }

  function Round(size: int): int {
    if size >= 0 then (size + 4095) / 4096 * 4096 else -((-size + 4095) / 4096 * 4096)
  }

  lemma RoundsUp(size: int)
    requires size >= 0
    ensures size <= Round(size) < size + 4096 && Round(size) % 4096 == 0
  {
  }

  function RankOf(t: Tree, i: int): nat { if i in t.rank then t.rank[i] else 0 }

  ghost predicate Below(t: Tree, s: seq<int>, n: nat) { forall k :: 0 <= k < |s| ==> RankOf(t, s[k]) < n }

  /** A directory's children rank below it; a file has a size. */
  ghost predicate Proper(t: Tree, i: int)
    requires i in t.nodes
  {
    match t.nodes[i]
    case Dir(leaves, dirs) => Below(t, leaves, RankOf(t, i)) && Below(t, dirs, RankOf(t, i))
    case Regular(size) => size >= 0
    case _ => true
  }

  /** The directories form a forest; files may be linked from many places. */
  ghost predicate Sound(t: Tree) {
    (forall i :: i in t.nodes <==> i in t.order) &&
    (forall j, k :: 0 <= j < k < |t.order| ==> t.order[j] != t.order[k]) &&
    (forall i {:trigger Proper(t, i)} :: i in t.nodes ==> Proper(t, i))
  }

  // ----- everything at or below an inode

  ghost function Reach(t: Tree, i: int): set<int>
    requires Sound(t)
    decreases RankOf(t, i)
  {
    if i !in t.nodes then {}
    else if t.nodes[i].Dir? then
      assert Proper(t, i); {i} + ReachAll(t, t.nodes[i].leaves, RankOf(t, i)) +
             ReachAll(t, t.nodes[i].dirs, RankOf(t, i))
    else {i}
  }

  ghost function ReachAll(t: Tree, s: seq<int>, n: nat): set<int>
    requires Sound(t) && Below(t, s, n)
    decreases n, |s|
  {
    if s == [] then {} else Reach(t, s[0]) + ReachAll(t, s[1..], n)
  }

  lemma {:induction false} ReachAllSnoc(t: Tree, s: seq<int>, x: int, n: nat)
    requires Sound(t) && Below(t, s, n) && RankOf(t, x) < n
    ensures Below(t, s + [x], n) && ReachAll(t, s + [x], n) == ReachAll(t, s, n) + Reach(t, x)
    decreases |s|
  {
    if s == [] {
      assert (s + [x])[1..] == [];
    } else {
      ReachAllSnoc(t, s[1..], x, n);
      assert (s + [x])[1..] == s[1..] + [x];
    }
  }

  /** `j` is listed in directory `i`. */
  predicate ChildOf(t: Tree, i: int, j: int) {
    i in t.nodes && t.nodes[i].Dir? && j in t.nodes && (j in t.nodes[i].leaves || j in t.nodes[i].dirs)
  }

  lemma {:induction false} ReachAllHas(t: Tree, s: seq<int>, n: nat, k: int, j: int)
    requires Sound(t) && Below(t, s, n) && k in s && j in Reach(t, k)
    ensures j in ReachAll(t, s, n)
    decreases |s|
  {
    if k != s[0] {
      assert k in s[1..];
      ReachAllHas(t, s[1..], n, k, j);
    }
  }

  /** Together with a directory everything listed in it is reached. */
  lemma {:induction false} ReachCloses(t: Tree, i: int, d: int, j: int)
    requires Sound(t) && d in Reach(t, i) && ChildOf(t, d, j)
    ensures j in Reach(t, i)
    decreases RankOf(t, i), 1
  {
    assert Proper(t, d) && Proper(t, i);
    if d == i {
      var n := RankOf(t, i);
      if j in t.nodes[i].leaves {
        ReachAllHas(t, t.nodes[i].leaves, n, j, j);
      } else {
        ReachAllHas(t, t.nodes[i].dirs, n, j, j);
      }
    } else if d in ReachAll(t, t.nodes[i].leaves, RankOf(t, i)) {
      ReachAllCloses(t, t.nodes[i].leaves, RankOf(t, i), d, j);
    } else {
      ReachAllCloses(t, t.nodes[i].dirs, RankOf(t, i), d, j);
    }
  }

  lemma {:induction false} ReachAllCloses(t: Tree, s: seq<int>, n: nat, d: int, j: int)
    requires Sound(t) && Below(t, s, n) && d in ReachAll(t, s, n) && ChildOf(t, d, j)
    ensures j in ReachAll(t, s, n)
    decreases n, 0, |s|
  {
    if d in Reach(t, s[0]) { ReachCloses(t, s[0], d, j); } else { ReachAllCloses(t, s[1..], n, d, j); }
  }

  /** The set has everything listed in its directories. */
  ghost predicate Closed(t: Tree, c: set<int>) { forall d, j :: d in c && ChildOf(t, d, j) ==> j in c }

  /** Nothing else is: what is reached from an inode is in every closed set that has the inode. */
  lemma {:induction false} ReachLeast(t: Tree, i: int, c: set<int>)
    requires Sound(t) && Closed(t, c) && i in c
    ensures Reach(t, i) <= c
    decreases RankOf(t, i), 1
  {
    if i in t.nodes && t.nodes[i].Dir? {
      assert Proper(t, i);
      ReachAllLeast(t, i, t.nodes[i].leaves, RankOf(t, i), c);
      ReachAllLeast(t, i, t.nodes[i].dirs, RankOf(t, i), c);
    }
  }

  lemma {:induction false} ReachAllLeast(t: Tree, i: int, s: seq<int>, n: nat, c: set<int>)
    requires Sound(t) && Below(t, s, n) && Closed(t, c) && i in c
    requires forall k :: k in s && k in t.nodes ==> ChildOf(t, i, k)
    ensures ReachAll(t, s, n) <= c
    decreases n, 0, |s|
  {
    if s != [] {
      if s[0] in t.nodes {
        assert ChildOf(t, i, s[0]);
        ReachLeast(t, s[0], c);
      }
      ReachAllLeast(t, i, s[1..], n, c);
    }
  }

  /** What a request reaches is the least set with its inodes that has everything listed in its directories. */
  lemma ReachMeans(t: Tree, i: int)
    requires Sound(t) && i in t.nodes
    ensures i in Reach(t, i) && Closed(t, Reach(t, i))
    ensures forall c :: Closed(t, c) && i in c ==> Reach(t, i) <= c
  {
    forall d, j | d in Reach(t, i) && ChildOf(t, d, j) ensures j in Reach(t, i) { ReachCloses(t, i, d, j); }
    forall c | Closed(t, c) && i in c ensures Reach(t, i) <= c { ReachLeast(t, i, c); }
  }

  /** For a list of inodes, what is reached from one of them. */
  lemma {:induction false} ReachAllMeans(t: Tree, s: seq<int>, n: nat, j: int)
    requires Sound(t) && Below(t, s, n)
    ensures j in ReachAll(t, s, n) <==> exists k :: k in s && j in Reach(t, k)
    decreases |s|
  {
    if s != [] {
      ReachAllMeans(t, s[1..], n, j);
      if k :| k in s && j in Reach(t, k) { assert k == s[0] || k in s[1..]; }
      assert s[0] in s;
    }
  }

  // ----- the space taken

  function Space(t: Tree, flags: Flags, i: int): int {
    if i in t.nodes && t.nodes[i].Regular? && i in flags && IsPin(flags[i]) then Round(t.nodes[i].size) else 0
  }

  function SumOf(t: Tree, flags: Flags, s: seq<int>): int {
    if s == [] then 0 else Space(t, flags, s[0]) + SumOf(t, flags, s[1..])
  }

  /** The rounded sizes of the pinned regular files, each counted once. */
  function Sum(t: Tree, flags: Flags): int { SumOf(t, flags, t.order) }

  lemma {:induction false} SumChange(t: Tree, flags: Flags, i: int, p: int, s: seq<int>)
    requires forall j, k :: 0 <= j < k < |s| ==> s[j] != s[k]
    ensures SumOf(t, flags[i := p], s) - SumOf(t, flags, s) ==
            if i in s then Space(t, flags[i := p], i) - Space(t, flags, i) else 0
  {
    if s != [] {
      SumChange(t, flags, i, p, s[1..]);
      assert s == [s[0]] + s[1..];
      if i == s[0] { assert i !in s[1..]; }
    }
  }

  /** `q` pins at least what `p` pins. */
  ghost predicate PinsMore(p: Flags, q: Flags) {
    forall i :: i in p && IsPin(p[i]) ==> i in q && IsPin(q[i])
  }

  lemma {:induction false} SumMonotone(t: Tree, p: Flags, q: Flags, s: seq<int>)
    requires Sound(t) && PinsMore(p, q)
    ensures 0 <= SumOf(t, p, s) <= SumOf(t, q, s)
  {
    if s != [] {
      SumMonotone(t, p, q, s[1..]);
      if s[0] in t.nodes && t.nodes[s[0]].Regular? {
        assert Proper(t, s[0]);
        RoundsUp(t.nodes[s[0]].size);
      }
    }
  }

  // ----- the first file a pin request has to pay for

  ghost predicate Files(t: Tree, r: seq<int>) {
    |r| <= 1 && (r != [] ==> r[0] in t.nodes && t.nodes[r[0]].Regular?)
  }

  /** In walking order, the first regular file at or below an inode that is not pinned yet. */
  ghost function First(t: Tree, flags: Flags, i: int): (r: seq<int>)
    requires Sound(t)
    ensures Files(t, r)
    decreases RankOf(t, i)
  {
    if i !in t.nodes then []
    else if t.nodes[i].Dir? then
      assert Proper(t, i);
      var r := FirstOf(t, flags, t.nodes[i].leaves, RankOf(t, i));
      if r != [] then r else FirstOf(t, flags, t.nodes[i].dirs, RankOf(t, i))
    else if t.nodes[i].Regular? && i in flags && !IsPin(flags[i]) then [i]
    else []
  }

  ghost function FirstOf(t: Tree, flags: Flags, s: seq<int>, n: nat): (r: seq<int>)
    requires Sound(t) && Below(t, s, n)
    ensures Files(t, r)
    decreases n, |s|
  {
    if s == [] then []
    else
      var r := First(t, flags, s[0]);
      if r != [] then r else FirstOf(t, flags, s[1..], n)
  }

  lemma {:induction false} FirstOfSnoc(t: Tree, flags: Flags, s: seq<int>, x: int, n: nat)
    requires Sound(t) && Below(t, s, n) && RankOf(t, x) < n
    ensures Below(t, s + [x], n)
    ensures FirstOf(t, flags, s + [x], n) == var r := FirstOf(t, flags, s, n); if r != [] then r else First(t, flags, x)
    decreases |s|
  {
    if s == [] {
      assert (s + [x])[1..] == [];
    } else {
      FirstOfSnoc(t, flags, s[1..], x, n);
      assert (s + [x])[1..] == s[1..] + [x];
    }
  }

  /** A longer list has the same first file, once there is one. */
  lemma {:induction false} FirstOfMore(t: Tree, flags: Flags, s: seq<int>, k: nat, n: nat)
    requires Sound(t) && Below(t, s, n) && k <= |s| && FirstOf(t, flags, s[..k], n) != []
    ensures FirstOf(t, flags, s, n) == FirstOf(t, flags, s[..k], n)
    decreases |s|
  {
    if First(t, flags, s[0]) == [] {
      assert s[..k][1..] == s[1..][..k - 1];
      FirstOfMore(t, flags, s[1..], k - 1, n);
    }
  }

  /** The two pin the same regular files. */
  ghost predicate SamePins(t: Tree, f: Flags, g: Flags) {
    f.Keys == g.Keys && forall i :: i in f && i in t.nodes && t.nodes[i].Regular? ==> (IsPin(f[i]) <==> IsPin(g[i]))
  }

  lemma {:induction false} FirstSame(t: Tree, f: Flags, g: Flags, i: int)
    requires Sound(t) && SamePins(t, f, g)
    ensures First(t, f, i) == First(t, g, i)
    decreases RankOf(t, i)
  {
    if i in t.nodes && t.nodes[i].Dir? {
      assert Proper(t, i);
      FirstOfSame(t, f, g, t.nodes[i].leaves, RankOf(t, i));
      FirstOfSame(t, f, g, t.nodes[i].dirs, RankOf(t, i));
    }
  }

  lemma {:induction false} FirstOfSame(t: Tree, f: Flags, g: Flags, s: seq<int>, n: nat)
    requires Sound(t) && SamePins(t, f, g) && Below(t, s, n)
    ensures FirstOf(t, f, s, n) == FirstOf(t, g, s, n)
    decreases n, |s|
  {
    if s != [] {
      FirstSame(t, f, g, s[0]);
      FirstOfSame(t, f, g, s[1..], n);
    }
  }

  /** Where there is no first file, pinning everything pins no further file. */
  lemma {:induction false} NothingToPay(t: Tree, f: Flags, i: int, j: int)
    requires Sound(t) && First(t, f, i) == [] && j in Reach(t, i) && j in f && j in t.nodes && t.nodes[j].Regular?
    ensures IsPin(f[j])
    decreases RankOf(t, i)
  {
    if t.nodes[i].Dir? {
      assert Proper(t, i);
      if j in ReachAll(t, t.nodes[i].leaves, RankOf(t, i)) {
        NothingToPayOf(t, f, t.nodes[i].leaves, RankOf(t, i), j);
      } else {
        NothingToPayOf(t, f, t.nodes[i].dirs, RankOf(t, i), j);
      }
    }
  }

  lemma {:induction false} NothingToPayOf(t: Tree, f: Flags, s: seq<int>, n: nat, j: int)
    requires Sound(t) && Below(t, s, n) && FirstOf(t, f, s, n) == []
    requires j in ReachAll(t, s, n) && j in f && j in t.nodes && t.nodes[j].Regular?
    ensures IsPin(f[j])
    decreases n, |s|
  {
    if j in Reach(t, s[0]) { NothingToPay(t, f, s[0], j); } else { NothingToPayOf(t, f, s[1..], n, j); }
  }

  lemma {:induction false} SumSame(t: Tree, f: Flags, g: Flags, s: seq<int>)
    requires SamePins(t, f, g)
    ensures SumOf(t, f, s) == SumOf(t, g, s)
  {
    if s != [] { SumSame(t, f, g, s[1..]); }
  }

  // ----- pinning and unpinning as changes of flags

  /** Inside `s` a flag is as it was or `p`; outside nothing has changed. */
  ghost predicate Between(f: Flags, f': Flags, s: set<int>, p: int) {
    f'.Keys == f.Keys && forall i :: i in f ==> f'[i] == f[i] || (i in s && f'[i] == p)
  }

  /** Inside `s` every flag is `p`; outside nothing has changed. */
  ghost function SetAll(f: Flags, s: set<int>, p: int): Flags { map i | i in f :: if i in s then p else f[i] }

  lemma SetAllTwice(f: Flags, s: set<int>, s': set<int>, p: int)
    ensures SetAll(SetAll(f, s, p), s', p) == SetAll(f, s + s', p)
  {
  }

  lemma PinsUpTo(t: Tree, f: Flags, f1: Flags, s: set<int>, p: int)
    requires Sound(t) && Between(f, f1, s, p) && IsPin(p)
    ensures Sum(t, f1) <= Sum(t, SetAll(f, s, p))
  {
    SumMonotone(t, f1, SetAll(f, s, p), t.order);
  }
}
