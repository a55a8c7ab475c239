/** Pinning and unpinning of inodes and whole directory trees, and the system's count of pinned space. */
module PinTable {
  import opened PinBook

  const ENOSPC := 28
  const EINVAL := 22

  function Max(a: int, b: int): int { if a > b then a else b }

  /** What a change of flag reports: 0 for a real flip (or any change of a symbolic link), 1 otherwise. */
  function FlagResult(node: Inode, was: int, now: int): int {
    if was == now then 1 else if !node.Link? && IsPin(was) && IsPin(now) then 1 else 0
  }

  /** What pinning an inode returns when it goes through: 1 for a file or link that was pinned already, else 0. */
  ghost function Report(t: Tree, flags: Flags, i: int, kind: int): int
    requires i in t.nodes ==> i in flags
  {
    if i !in t.nodes || t.nodes[i].Dir? then 0
    else if flags[i] == kind || (flags[i] in {P_PIN, P_HIGH_PRI_PIN} && !t.nodes[i].Link?) then 1
    else 0
  }

  /** For a list it is what the last one returns, pinned after the others. */
  ghost function ReportAll(t: Tree, flags: Flags, s: seq<int>, n: nat, kind: int): int
    requires Sound(t) && Below(t, s, n) && Legal(t, flags)
  {
    if s == [] then 0
    else Report(t, SetAll(flags, ReachAll(t, s[..|s| - 1], n), kind), s[|s| - 1], kind)
  }

  ghost predicate Legal(t: Tree, flags: Flags) {
    flags.Keys == t.nodes.Keys && forall i :: i in flags ==> flags[i] == P_UNPIN || IsPin(flags[i])
  }

  /** A flip of one regular file moves the sum by its rounded size. */
  lemma FlipSum(t: Tree, flags: Flags, i: int, p: int)
    requires Sound(t) && Legal(t, flags) && i in t.nodes
    ensures Sum(t, flags[i := p]) - Sum(t, flags) == Space(t, flags[i := p], i) - Space(t, flags, i)
  {
    SumChange(t, flags, i, p, t.order);
  }

  /** Pinning the entries `s` has gone through, or stopped part of the way for lack of space. */
  ghost predicate Attempted(t: Tree, f: Flags, f': Flags, s: set<int>, kind: int, limit: int, ret: int)
  {
    if ret >= 0 then f' == SetAll(f, s, kind)
    else ret == -ENOSPC && Between(f, f', s, kind) && (limit <= 0 || Sum(t, SetAll(f, s, kind)) > limit)
  }

  lemma SameFlags(f: Flags, kind: int)
    ensures SetAll(f, {}, kind) == f
  {
  }

  lemma SelfAttempted(t: Tree, f: Flags, f': Flags, i: int, kind: int, limit: int, ret: int)
    requires Sound(t) && i in t.nodes && Legal(t, f) && (ret >= 0 ==> f' == f[i := kind])
    requires ret < 0 ==>
               ret == -ENOSPC && f' == f && t.nodes[i].Regular? && (limit <= 0 || Sum(t, f[i := kind]) > limit)
    ensures Attempted(t, f, f', {i}, kind, limit, ret)
  {
    assert SetAll(f, {i}, kind) == f[i := kind];
  }

  /** An attempt after a part that went through, with more to come. */
  lemma AttemptedThen(t: Tree, f: Flags, f1: Flags, f': Flags, s: set<int>, s': set<int>, rest: set<int>, kind: int,
                      limit: int,
                      ret: int)
    requires Sound(t) && IsPin(kind) && f1 == SetAll(f, s, kind) && Attempted(t, f1, f', s', kind, limit, ret)
    ensures ret >= 0 ==> f' == SetAll(f, s + s', kind)
    ensures ret < 0 ==> Attempted(t, f, f', s + s' + rest, kind, limit, ret)
  {
    SetAllTwice(f, s, s', kind);
    if ret < 0 {
      var all := s + s' + rest;
      assert Between(f, SetAll(f, s + s', kind), all, kind);
      PinsUpTo(t, f, SetAll(f, s + s', kind), all, kind);
    }
  }

  lemma {:induction false} ReachAllSplit(t: Tree, s: seq<int>, k: nat, n: nat)
    requires Sound(t) && Below(t, s, n) && k < |s|
    ensures ReachAll(t, s, n) == ReachAll(t, s[..k], n) + Reach(t, s[k]) + ReachAll(t, s[k + 1..], n)
    decreases |s|
  {
    if k > 0 {
      ReachAllSplit(t, s[1..], k - 1, n);
      assert s[1..][..k - 1] == s[..k][1..] && s[1..][k..] == s[k + 1..];
    }
  }

  lemma BetweenUnpinned(f: Flags, f1: Flags, s: set<int>, kind: int)
    requires Between(f, f1, s, kind)
    ensures SetAll(f1, s, P_UNPIN) == SetAll(f, s, P_UNPIN)
  {
    var g, g1 := SetAll(f, s, P_UNPIN), SetAll(f1, s, P_UNPIN);
    forall i | i in g ensures g1[i] == g[i] { }
  }

  lemma UnpinLess(t: Tree, f: Flags, f': Flags, s: set<int>)
    requires Sound(t) && f' == SetAll(f, s, P_UNPIN)
    ensures Sum(t, f') <= Sum(t, f)
  {
    SumMonotone(t, f', f, t.order);
  }

  /** A failed request puts everything back as it was exactly when nothing it lists was pinned before:
      the roll back unpins what an earlier request had pinned. */
  lemma RollBackRestores(t: Tree, f: Flags, s: set<int>)
    requires Legal(t, f)
    ensures SetAll(f, s, P_UNPIN) == f <==> forall i :: i in s && i in f ==> !IsPin(f[i])
  {
    var g := SetAll(f, s, P_UNPIN);
    if i :| i in s && i in f && IsPin(f[i]) {
      assert g[i] != f[i];
    } else {
      forall i | i in f ensures g[i] == f[i] { assert i in s ==> !IsPin(f[i]); }
      assert g == f;
    }
  }

  /** The file `r`, if there is one, still fits under the limit. */
  ghost predicate Pays(t: Tree, f: Flags, r: seq<int>, limit: int)
    requires Files(t, r)
  {
    r != [] && 0 < limit && Sum(t, f) + Round(t.nodes[r[0]].size) <= limit
  }

  /** What is left of a reservation when `r` is the first file to pay for: a reservation below zero is
      made good by that file, if it fits, and by nothing else. */
  ghost predicate Owed(t: Tree, f: Flags, r: seq<int>, limit: int, reserved: int, ret: int, left: int)
    requires Files(t, r)
  {
    (reserved >= 0 ==> left >= 0) &&
    (r == [] ==> ret >= 0 && left == reserved) &&
    (reserved < 0 && r != [] ==> if Pays(t, f, r, limit) then left >= 0 else ret < 0 && left == reserved)
  }

  /** The inode itself, if it is the file to pay for. */
  function SelfFirst(t: Tree, f: Flags, i: int): (r: seq<int>)
    ensures Files(t, r)
  {
    if i in t.nodes && t.nodes[i].Regular? && i in f && !IsPin(f[i]) then [i] else []
  }

  lemma FreeAlready(t: Tree, f: Flags, s: seq<int>, n: nat, kind: int)
    requires Sound(t) && Below(t, s, n) && FirstOf(t, f, s, n) == [] && IsPin(kind)
    ensures SamePins(t, f, SetAll(f, ReachAll(t, s, n), kind))
  {
    var g := SetAll(f, ReachAll(t, s, n), kind);
    forall i | i in f && i in t.nodes && t.nodes[i].Regular? ensures IsPin(f[i]) <==> IsPin(g[i]) {
      if i in ReachAll(t, s, n) { NothingToPayOf(t, f, s, n, i); }
    }
  }

  lemma FreeBelow(t: Tree, f: Flags, i: int, s: seq<int>, kind: int)
    requires Sound(t) && i in t.nodes && t.nodes[i].Dir? && Below(t, s, RankOf(t, i)) && IsPin(kind)
    requires FirstOf(t, f, s, RankOf(t, i)) == []
    ensures SamePins(t, f, SetAll(f, {i} + ReachAll(t, s, RankOf(t, i)), kind))
  {
    FreeAlready(t, f, s, RankOf(t, i), kind);
    var g, g' := SetAll(f, ReachAll(t, s, RankOf(t, i)), kind), SetAll(f, {i} + ReachAll(t, s, RankOf(t, i)), kind);
    forall j | j in f && j in t.nodes && t.nodes[j].Regular? ensures IsPin(f[j]) <==> IsPin(g'[j]) {
      assert IsPin(f[j]) <==> IsPin(g[j]);
    }
  }

  /** Several inodes one after the other. */
  lemma OwedThen(t: Tree, f: Flags, f1: Flags, r: seq<int>, r': seq<int>, limit: int,
                 reserved: int, ret: int, left: int, ret': int, left': int)
    requires Files(t, r) && Files(t, r') && Sound(t)
    requires ret >= 0 && Owed(t, f, r, limit, reserved, ret, left) && Owed(t, f1, r', limit, left, ret', left')
    requires r == [] ==> SamePins(t, f, f1)
    ensures Owed(t, f, if r != [] then r else r', limit, reserved, ret', left')
  {
    if r == [] { SumSame(t, f, f1, t.order); }
  }

  /** The next of a list of inodes. */
  lemma OwedNext(t: Tree, f: Flags, f1: Flags, s: seq<int>, k: nat, n: nat, kind: int, limit: int,
                 reserved: int, ret: int, left: int, ret': int, left': int)
    requires Sound(t) && Below(t, s, n) && k < |s| && IsPin(kind) && f1 == SetAll(f, ReachAll(t, s[..k], n), kind)
    requires ret >= 0 && Owed(t, f, FirstOf(t, f, s[..k], n), limit, reserved, ret, left)
    requires Owed(t, f1, First(t, f1, s[k]), limit, left, ret', left')
    ensures Owed(t, f, FirstOf(t, f, s[..k + 1], n), limit, reserved, ret', left')
    ensures ret' < 0 ==> Owed(t, f, FirstOf(t, f, s, n), limit, reserved, ret', left')
  {
    hide Owed, First, FirstOf, SetAll;
    var r := FirstOf(t, f, s[..k], n);
    if r == [] {
      FreeAlready(t, f, s[..k], n, kind);
      FirstSame(t, f, f1, s[k]);
    }
    OwedThen(t, f, f1, r, First(t, f1, s[k]), limit, reserved, ret, left, ret', left');
    FirstOfSnoc(t, f, s[..k], s[k], n);
    assert s[..k] + [s[k]] == s[..k + 1];
    if ret' < 0 { FailsOnFile(t, f, s, k + 1, n, limit, reserved, ret', left'); }
  }

  lemma FailsOnFile(t: Tree, f: Flags, s: seq<int>, k: nat, n: nat, limit: int, reserved: int, ret: int, left: int)
    requires Sound(t) && Below(t, s, n) && k <= |s| && ret < 0 &&
             Owed(t, f, FirstOf(t, f, s[..k], n), limit, reserved, ret, left)
    ensures Owed(t, f, FirstOf(t, f, s, n), limit, reserved, ret, left)
  {
    FirstOfMore(t, f, s, k, n);
  }

  /** A directory: its files and links, then its directories. */
  lemma OwedDir(t: Tree, f: Flags, f1: Flags, i: int, kind: int, limit: int,
                reserved: int, ret: int, left: int, ret': int, left': int)
    requires Sound(t) && i in t.nodes && t.nodes[i].Dir? && Proper(t, i) && IsPin(kind)
    requires f1 == SetAll(f, {i} + ReachAll(t, t.nodes[i].leaves, RankOf(t, i)), kind)
    requires ret >= 0 && Owed(t, f, FirstOf(t, f, t.nodes[i].leaves, RankOf(t, i)), limit, reserved, ret, left)
    requires Owed(t, f1, FirstOf(t, f1, t.nodes[i].dirs, RankOf(t, i)), limit, left, ret', left')
    ensures Owed(t, f, First(t, f, i), limit, reserved, ret', left')
  {
    hide Owed, SetAll;
    var n, leaves, dirs := RankOf(t, i), t.nodes[i].leaves, t.nodes[i].dirs;
    var r := FirstOf(t, f, leaves, n);
    if r == [] {
      FreeBelow(t, f, i, leaves, kind);
      FirstOfSame(t, f, f1, dirs, n);
    }
    OwedThen(t, f, f1, r, FirstOf(t, f1, dirs, n), limit, reserved, ret, left, ret', left');
  }

  lemma OwedLeaves(t: Tree, f: Flags, f1: Flags, i: int, kind: int, limit: int, reserved: int, ret: int, left: int)
    requires Sound(t) && i in t.nodes && t.nodes[i].Dir? && Proper(t, i) && IsPin(kind) && f1 == f[i := kind] && i in f
    requires Owed(t, f1, FirstOf(t, f1, t.nodes[i].leaves, RankOf(t, i)), limit, reserved, ret, left)
    ensures Owed(t, f, FirstOf(t, f, t.nodes[i].leaves, RankOf(t, i)), limit, reserved, ret, left)
    ensures ret < 0 ==> Owed(t, f, First(t, f, i), limit, reserved, ret, left)
  {
    assert SamePins(t, f, f1);
    FirstOfSame(t, f, f1, t.nodes[i].leaves, RankOf(t, i));
    SumSame(t, f, f1, t.order);
  }

  /** The pinned size after `space` bytes were given back file by file, never going below zero. */
  function Drained(pinned: int, space: int): int { if space == 0 then pinned else Max(pinned - space, 0) }

  lemma DrainedTwice(pinned: int, a: int, b: int)
    requires a >= 0 && b >= 0
    ensures Drained(Drained(pinned, a), b) == Drained(pinned, a + b)
  {
  }

  /** Whether a request ends with the books balanced: the reservation was not below zero, or the first
      file it pins made up for it, or it failed at once and everything pinned was unpinned again. */
  ghost predicate Settles(t: Tree, f: Flags, r: seq<int>, s: set<int>, limit: int, reserved: int)
    requires Files(t, r)
  {
    reserved >= 0 || Pays(t, f, r, limit) || (r != [] && Sum(t, f) > 0 == Sum(t, SetAll(f, s, P_UNPIN)))
  }

  /** A reservation below zero is left over by a failure only if nothing was pinned before it. */
  lemma FailedAtOnce(t: Tree, f: Flags, f1: Flags, r: seq<int>, limit: int, reserved: int, left: int)
    requires Files(t, r)
    requires Sound(t) && Owed(t, f, r, limit, reserved, -1, left) && left < 0
    ensures reserved < 0 && r != [] && !Pays(t, f, r, limit) && left == reserved
  {
  }

  class Pins {
    const tree: Tree
    const limits: seq<int>   // by pin type
    var flags: Flags
    var pinned: int          // the system's pinned size

    constructor (tree: Tree, limits: seq<int>, flags: Flags)
      requires Sound(tree) && Legal(tree, flags) && |limits| == 3
      ensures this.tree == tree && this.limits == limits && this.flags == flags && Valid() && Balanced(0)
    {
      this.tree, this.limits, this.flags, this.pinned := tree, limits, flags, Sum(tree, flags);
    }

    ghost predicate Valid()
      reads this
    {
      Sound(tree) && Legal(tree, flags) && |limits| == 3
    }

    /** The pinned size, less what is still reserved, is the sum over the pinned files. */
    ghost predicate Balanced(reserved: int)
      reads this
    {
      pinned - reserved == Sum(tree, flags)
    }

    function Limit(kind: int): int
      requires |limits| == 3
    {
      if 0 <= kind < 3 then limits[kind] else -EINVAL
    }

    method ChangeFlag(i: int, p: int) returns (r: int)
      requires Valid() && i in tree.nodes && (p == P_UNPIN || IsPin(p))
      modifies this`flags
      ensures Valid() && flags == old(flags)[i := p] && r == FlagResult(tree.nodes[i], old(flags)[i], p)
    {
      r := FlagResult(tree.nodes[i], flags[i], p);
      flags := flags[i := p];
    }

    /** Takes space from the reservation, and beyond that from the system, within the limit. */
    method Increase(reserved: int, size: int, kind: int) returns (ret: int, left: int)
      requires |limits| == 3
      modifies this`pinned
      ensures ret == if reserved - size <= 0 &&
              !(0 < Limit(kind) && old(pinned) - (reserved - size) <= Limit(kind)) then -ENOSPC else 0
      ensures ret == 0 ==> pinned - left == old(pinned) - reserved + size
      ensures ret < 0 ==> pinned == old(pinned) && left == reserved
      ensures ret == 0 ==> left == Max(reserved - size, 0)
      ensures pinned <= Max(old(pinned), Limit(kind))
    {
      ret, left := 0, reserved - size;
      if left <= 0 {
        var limit := Limit(kind);
        if limit > 0 && pinned - left <= limit {
          pinned := pinned - left;
          left := 0;
        } else {
          ret := -ENOSPC;
          left := left + size;
        }
      }
    }

    /** Gives space back to the reservation, and beyond that to the system. */
    method Decrease(reserved: int, size: int) returns (left: int)
      modifies this`pinned
      ensures left == Max(reserved - size, 0)
      ensures reserved - size >= 0 ==> pinned == old(pinned)
      ensures reserved - size < 0 ==> pinned == Max(old(pinned) + reserved - size, 0)
    {
      left := reserved - size;
      if left < 0 {
        pinned := pinned + left;
        left := 0;
        if pinned <= 0 { pinned := 0; }
      }
    }

    /** The inode itself; its children come after. */
    method PinSelf(i: int, reserved: int, kind: int) returns (ret: int, left: int)
      requires Valid() && Balanced(reserved) && IsPin(kind) && i in tree.nodes
      modifies this
      ensures Valid() && Balanced(left) && pinned <= Max(old(pinned), Limit(kind)) &&
              (left < 0 ==> pinned == old(pinned))
      ensures Owed(tree, old(flags), SelfFirst(tree, old(flags), i), Limit(kind), reserved, ret, left)
      ensures ret >= 0 ==> flags == old(flags)[i := kind]
      ensures ret >= 0 && !tree.nodes[i].Dir? ==> ret == Report(tree, old(flags), i, kind)
      ensures ret < 0 ==> ret == -ENOSPC && flags == old(flags) && tree.nodes[i].Regular?
      ensures ret < 0 ==> Limit(kind) <= 0 || Sum(tree, flags[i := kind]) > Limit(kind)
    {
      ghost var f := flags;
      FlipSum(tree, f, i, kind);
      ret := ChangeFlag(i, kind);
      left := reserved;
      if ret > 0 { return; }
      if tree.nodes[i].Regular? {
        assert Proper(tree, i);
        RoundsUp(tree.nodes[i].size);
        ret, left := Increase(reserved, Round(tree.nodes[i].size), kind);
        if ret < 0 {
          var _ := ChangeFlag(i, P_UNPIN);
          assert flags == f;
        }
      }
    }

    /** An inode and all below it: files and links first, then directories. */
    method PinInode(i: int, reserved: int, kind: int) returns (ret: int, left: int)
      requires Valid() && Balanced(reserved) && IsPin(kind)
      modifies this
      ensures Valid() && Balanced(left) && pinned <= Max(old(pinned), Limit(kind)) &&
              (left < 0 ==> pinned == old(pinned))
      ensures Attempted(tree, old(flags), flags, Reach(tree, i), kind, Limit(kind), ret)
      ensures ret >= 0 ==> ret == Report(tree, old(flags), i, kind)
      ensures Owed(tree, old(flags), First(tree, old(flags), i), Limit(kind), reserved, ret, left)
      decreases RankOf(tree, i)
    {
      hide SetAll, Sum;
      if i !in tree.nodes {
        SameFlags(flags, kind);
        return 0, reserved;
      }
      ghost var f := flags;
      ret, left := PinSelf(i, reserved, kind);
      SelfAttempted(tree, f, flags, i, kind, Limit(kind), ret);
      if ret < 0 || !tree.nodes[i].Dir? { return; }
      assert Proper(tree, i);
      var leaves, dirs := tree.nodes[i].leaves, tree.nodes[i].dirs;
      ghost var n, f1 := RankOf(tree, i), flags;
      ghost var s1, s2 := ReachAll(tree, leaves, n), ReachAll(tree, dirs, n);
      ret, left := PinList(leaves, n, left, kind);
      OwedLeaves(tree, f, f1, i, kind, Limit(kind), reserved, ret, left);
      AttemptedThen(tree, f, f1, flags, {i}, s1, s2, kind, Limit(kind), ret);
      if ret < 0 { return; }
      ghost var f2, ret2, left2 := flags, ret, left;
      ret, left := PinList(dirs, n, left, kind);
      OwedDir(tree, f, f2, i, kind, Limit(kind), reserved, ret2, left2, ret, left);
      AttemptedThen(tree, f, f2, flags, {i} + s1, s2, {}, kind, Limit(kind), ret);
      assert {i} + s1 + s2 + {} == Reach(tree, i);
      if ret < 0 { return; }
      ret := 0;
    }

    method PinList(s: seq<int>, ghost n: nat, reserved: int, kind: int) returns (ret: int, left: int)
      requires Valid() && Balanced(reserved) && IsPin(kind) && Below(tree, s, n)
      modifies this
      ensures Valid() && Balanced(left) && pinned <= Max(old(pinned), Limit(kind)) &&
              (left < 0 ==> pinned == old(pinned))
      ensures Attempted(tree, old(flags), flags, ReachAll(tree, s, n), kind, Limit(kind), ret)
      ensures ret >= 0 ==> ret == ReportAll(tree, old(flags), s, n, kind)
      ensures Owed(tree, old(flags), FirstOf(tree, old(flags), s, n), Limit(kind), reserved, ret, left)
      decreases n, |s|
    {
      hide Sum, SetAll;
      ret, left := 0, reserved;
      ghost var f := flags;
      SameFlags(f, kind);
      var count := 0;
      while count < |s|
        invariant 0 <= count <= |s| && ret >= 0 && Valid() && Balanced(left) && (left < 0 ==> pinned == old(pinned))
        invariant Owed(tree, f, FirstOf(tree, f, s[..count], n), Limit(kind), reserved, ret, left)
        invariant ret == ReportAll(tree, f, s[..count], n, kind)
        invariant pinned <= Max(old(pinned), Limit(kind)) && flags == SetAll(f, ReachAll(tree, s[..count], n), kind)
      {
        ghost var f1, ret1, left1 := flags, ret, left;
        ret, left := PinInode(s[count], left, kind);
        OwedNext(tree, f, f1, s, count, n, kind, Limit(kind), reserved, ret1, left1, ret, left);
        ReachAllSnoc(tree, s[..count], s[count], n);
        assert s[..count] + [s[count]] == s[..count + 1];
        ReachAllSplit(tree, s, count, n);
        AttemptedThen(tree, f, f1, flags, ReachAll(tree, s[..count], n), Reach(tree, s[count]),
                      ReachAll(tree, s[count + 1..], n),
                      kind, Limit(kind), ret);
        if ret < 0 { return; }
        assert s[..count + 1][..count] == s[..count];
        count := count + 1;
      }
      assert s[..count] == s;
    }

    /** Unpinning does not fail; it gives back the space of every file it flips. */
    method UnpinSelf(i: int, reserved: int) returns (left: int)
      requires Valid() && reserved == 0 && i in tree.nodes
      modifies this
      ensures Valid() && left == 0 && flags == old(flags)[i := P_UNPIN]
      ensures Sum(tree, old(flags)) >= Sum(tree, flags)
      ensures pinned == Drained(old(pinned), Sum(tree, old(flags)) - Sum(tree, flags))
    {
      ghost var f := flags;
      FlipSum(tree, f, i, P_UNPIN);
      SumMonotone(tree, f[i := P_UNPIN], f, tree.order);
      var r := ChangeFlag(i, P_UNPIN);
      left := reserved;
      if r == 0 && tree.nodes[i].Regular? {
        assert Proper(tree, i);
        RoundsUp(tree.nodes[i].size);
        left := Decrease(reserved, Round(tree.nodes[i].size));
      }
    }

    method UnpinInode(i: int, reserved: int) returns (left: int)
      requires Valid() && reserved == 0
      modifies this
      ensures Valid() && left == 0 && flags == SetAll(old(flags), Reach(tree, i), P_UNPIN)
      ensures Sum(tree, old(flags)) >= Sum(tree, flags)
      ensures pinned == Drained(old(pinned), Sum(tree, old(flags)) - Sum(tree, flags))
      decreases RankOf(tree, i)
    {
      if i !in tree.nodes {
        SameFlags(flags, P_UNPIN);
        return reserved;
      }
      ghost var f := flags;
      left := UnpinSelf(i, reserved);
      assert flags == SetAll(f, {i}, P_UNPIN);
      if !tree.nodes[i].Dir? { return; }
      assert Proper(tree, i);
      var leaves, dirs := tree.nodes[i].leaves, tree.nodes[i].dirs;
      ghost var n := RankOf(tree, i);
      ghost var s1, s2 := ReachAll(tree, leaves, n), ReachAll(tree, dirs, n);
      ghost var q0, m0, m1 := old(pinned), Sum(tree, f), Sum(tree, flags);
      left := UnpinList(leaves, n, left);
      ghost var m2 := Sum(tree, flags);
      DrainedTwice(q0, m0 - m1, m1 - m2);
      SetAllTwice(f, {i}, s1, P_UNPIN);
      left := UnpinList(dirs, n, left);
      DrainedTwice(q0, m0 - m2, m2 - Sum(tree, flags));
      SetAllTwice(f, {i} + s1, s2, P_UNPIN);
    }

    method UnpinList(s: seq<int>, ghost n: nat, reserved: int) returns (left: int)
      requires Valid() && reserved == 0 && Below(tree, s, n)
      modifies this
      ensures Valid() && left == 0 && flags == SetAll(old(flags), ReachAll(tree, s, n), P_UNPIN)
      ensures Sum(tree, old(flags)) >= Sum(tree, flags)
      ensures pinned == Drained(old(pinned), Sum(tree, old(flags)) - Sum(tree, flags))
      decreases n, |s|
    {
      left := reserved;
      ghost var f := flags;
      SameFlags(f, P_UNPIN);
      var count := 0;
      while count < |s|
        invariant 0 <= count <= |s| && left == 0 && Valid() && Sum(tree, f) >= Sum(tree, flags)
        invariant pinned == Drained(old(pinned), Sum(tree, f) - Sum(tree, flags))
        invariant flags == SetAll(f, ReachAll(tree, s[..count], n), P_UNPIN)
      {
        ghost var m := Sum(tree, flags);
        left := UnpinInode(s[count], left);
        DrainedTwice(old(pinned), Sum(tree, f) - m, m - Sum(tree, flags));
        ReachAllSnoc(tree, s[..count], s[count], n);
        assert s[..count] + [s[count]] == s[..count + 1];
        SetAllTwice(f, ReachAll(tree, s[..count], n), Reach(tree, s[count]), P_UNPIN);
        count := count + 1;
      }
      assert s[..count] == s;
    }

    /** A request: on failure what is left of the reservation is returned and every listed inode is
        unpinned, with all below it. */
    method PinHandle(list: seq<int>, ghost n: nat, reserved: int, kind: int) returns (ret: int)
      requires Valid() && Balanced(reserved) && IsPin(kind) && Below(tree, list, n)
      modifies this
      ensures Valid()
      ensures Balanced(0) <==>
                Settles(tree, old(flags), FirstOf(tree, old(flags), list, n), ReachAll(tree, list, n), Limit(kind),
                        reserved)
      ensures FirstOf(tree, old(flags), list, n) == [] && reserved < 0 ==> ret >= 0 && pinned == old(pinned)
      ensures ret >= 0 ==> flags == SetAll(old(flags), ReachAll(tree, list, n), kind)
      ensures ret >= 0 ==> ret == ReportAll(tree, old(flags), list, n, kind)
      ensures ret < 0 ==> ret == -ENOSPC && flags == SetAll(old(flags), ReachAll(tree, list, n), P_UNPIN)
      ensures ret < 0 ==> Limit(kind) <= 0 || Sum(tree, SetAll(old(flags), ReachAll(tree, list, n), kind)) > Limit(kind)
      ensures pinned <= Max(0, Max(old(pinned), Limit(kind)))
    {
      var left;
      ghost var f, s := flags, ReachAll(tree, list, n);
      ret, left := PinList(list, n, reserved, kind);
      SumMonotone(tree, flags, flags, tree.order);
      if FirstOf(tree, f, list, n) == [] {
        FreeAlready(tree, f, list, n, kind);
        SumSame(tree, f, flags, tree.order);
      }
      Return(left);
      if ret < 0 {
        ghost var f1 := flags;
        var _ := UnpinList(list, n, 0);
        BetweenUnpinned(f, f1, s, kind);
        UnpinLess(tree, f1, flags, s);
        SumMonotone(tree, flags, flags, tree.order);
        if left < 0 { FailedAtOnce(tree, f, f1, FirstOf(tree, f, list, n), Limit(kind), reserved, left); }
      }
    }

    /** What is left of a reservation goes back, unless it is below zero; the clamp never fires. */
    method Return(left: int)
      requires Valid() && Balanced(left) && Sum(tree, flags) >= 0
      modifies this`pinned
      ensures Balanced(if left > 0 then 0 else left) && pinned == if left > 0 then old(pinned) - left else old(pinned)
    {
      if left > 0 { pinned := Max(pinned - left, 0); }
    }

    predicate Admitted(kind: int, size: int)
      requires |limits| == 3
    {
      IsPin(kind) && 0 <= limits[kind] && size < limits[kind]
    }

    /** The PIN command: the reservation is taken first, if it fits under the limit. It comes unchecked
        from the client, so it may be below zero. */
    method PinRequest(reserved: int, kind: int, list: seq<int>, ghost n: nat) returns (ret: int)
      requires Valid() && Balanced(0) && Below(tree, list, n)
      modifies this
      ensures Valid() && pinned <= Max(old(pinned), if IsPin(kind) then limits[kind] else 0)
      ensures !IsPin(kind) ==> ret == -EINVAL && flags == old(flags) && pinned == old(pinned)
      ensures IsPin(kind) && limits[kind] < 0 ==> ret == -EINVAL && flags == old(flags) && pinned == old(pinned)
      ensures IsPin(kind) && 0 <= limits[kind] <= old(pinned) + reserved ==>
                ret == -ENOSPC && flags == old(flags) && pinned == old(pinned)
      ensures ret >= 0 ==> flags == SetAll(old(flags), ReachAll(tree, list, n), kind)
      ensures ret >= 0 ==> ret == ReportAll(tree, old(flags), list, n, kind)
      ensures Admitted(kind, old(pinned) + reserved) && ret < 0 ==>
                ret == -ENOSPC && flags == SetAll(old(flags), ReachAll(tree, list, n), P_UNPIN)
      ensures Admitted(kind, old(pinned) + reserved) && ret < 0 ==>
                (flags == old(flags) <==>
                 forall i :: i in ReachAll(tree, list, n) && i in old(flags) ==> !IsPin(old(flags)[i]))
      ensures Admitted(kind, old(pinned) + reserved) && ret < 0 ==>
                limits[kind] == 0 || Sum(tree, SetAll(old(flags), ReachAll(tree, list, n), kind)) > limits[kind]
      ensures Balanced(0) <==>
                (Admitted(kind, old(pinned) + reserved) ==>
                   Settles(tree, old(flags), FirstOf(tree, old(flags), list, n), ReachAll(tree, list, n), limits[kind],
                           reserved))
      ensures Admitted(kind, old(pinned) + reserved) && reserved < 0 && FirstOf(tree, old(flags), list, n) == [] ==>
                ret >= 0 && pinned == old(pinned) + reserved
    {
      SumMonotone(tree, flags, flags, tree.order);
      if !IsPin(kind) { return -EINVAL; }
      var limit := Limit(kind);
      if limit < 0 { return -EINVAL; }
      if pinned + reserved >= limit { return -ENOSPC; }
      pinned := pinned + reserved;
      ret := PinHandle(list, n, reserved, kind);
      RollBackRestores(tree, old(flags), ReachAll(tree, list, n));
    }

    /** The UNPIN command. */
    method UnpinRequest(list: seq<int>, ghost n: nat) returns (ret: int)
      requires Valid() && Below(tree, list, n)
      modifies this
      ensures Valid() && ret == 0 && flags == SetAll(old(flags), ReachAll(tree, list, n), P_UNPIN)
      ensures pinned == Drained(old(pinned), Sum(tree, old(flags)) - Sum(tree, flags))
      ensures old(Balanced(0)) ==> Balanced(0)
    {
      var _ := UnpinList(list, n, 0);
      SumMonotone(tree, flags, flags, tree.order);
      return 0;
    }
  }

  /** Two files of a page each under a limit of less than two pages, the first of them pinned. */
  function Pair(): Tree {
    Tree(map[1 := Regular(4096), 2 := Regular(4096)], [1, 2], map[1 := 0, 2 := 0])
  }

  lemma PairSound(kind: int)
    requires IsPin(kind)
    ensures Sound(Pair()) && Legal(Pair(), map[1 := kind, 2 := P_UNPIN]) && Below(Pair(), [1, 2], 1)
    ensures ReachAll(Pair(), [1, 2], 1) == {1, 2}
  {
    var t := Pair();
    assert Proper(t, 1) && Proper(t, 2);
    assert Reach(t, 1) == {1} && Reach(t, 2) == {2};
    assert [1, 2][1..] == [2] && [2][1..] == [];
    assert ReachAll(t, [2], 1) == {2} && ReachAll(t, [1, 2], 1) == {1} + {2};
  }

  lemma PairSum(f: Flags)
    requires 1 in f && 2 in f
    ensures Sum(Pair(), f) == (if IsPin(f[1]) then 4096 else 0) + (if IsPin(f[2]) then 4096 else 0)
  {
    var t := Pair();
    assert [1, 2][1..] == [2] && [2][1..] == [];
    assert SumOf(t, f, [2]) == Space(t, f, 2) + SumOf(t, f, []);
    assert SumOf(t, f, [1, 2]) == Space(t, f, 1) + SumOf(t, f, [2]);
    assert Round(4096) == 4096;
  }

  /** Pinning both fails for lack of space, and the roll back unpins the first one too. */
  method LostPin(kind: int) returns (p: Pins, ret: int, ghost before: Flags)
    requires IsPin(kind)
    ensures fresh(p) && p.Valid() && p.Balanced(0) && ret == -ENOSPC
    ensures before == map[1 := kind, 2 := P_UNPIN] && p.flags == map[1 := P_UNPIN, 2 := P_UNPIN]
  {
    PairSound(kind);
    p := new Pins(Pair(), [8000, 8000, 8000], map[1 := kind, 2 := P_UNPIN]);
    before := p.flags;
    ret := p.PinRequest(0, kind, [1, 2], 1);
    PairSum(before);
    PairSum(map[1 := kind, 2 := kind]);
    assert SetAll(before, {1, 2}, kind) == map[1 := kind, 2 := kind];
    assert SetAll(before, {1, 2}, P_UNPIN) == map[1 := P_UNPIN, 2 := P_UNPIN];
  }

  /** A client that reserves -1 bytes and lists nothing leaves the system one byte short for good. */
  method NegativeReservation(kind: int) returns (p: Pins)
    requires IsPin(kind)
    ensures fresh(p) && p.Valid() && Sum(p.tree, p.flags) == 0 && p.pinned == -1 && !p.Balanced(0)
  {
    p := new Pins(Tree(map[], [], map[]), [1, 1, 1], map[]);
    var _ := p.PinRequest(-1, kind, [], 0);
  }
}
