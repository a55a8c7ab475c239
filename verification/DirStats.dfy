/** The statistics of a directory: how many files at or below it are stored locally, in the cloud, or
    both. They are kept up to date by walking from the place of a change up to the root. */
module DirStats {
  datatype Counts = Counts(local: int, cloud: int, hybrid: int)

  const ZERO := Counts(0, 0, 0)

  function Add(a: Counts, b: Counts): Counts { Counts(a.local + b.local, a.cloud + b.cloud, a.hybrid + b.hybrid) }

  function Neg(a: Counts): Counts { Counts(-a.local, -a.cloud, -a.hybrid) }

  // ----- the directories

  /** The parent of each directory, 0 for a root, and a rank that goes down on the way up. */
  datatype Dirs = Dirs(parent: map<int, int>, rank: map<int, nat>)

  ghost predicate Proper(t: Dirs, d: int)
    requires d in t.parent
  {
    d > 0 && d in t.rank &&
    (t.parent[d] == 0 || (t.parent[d] in t.parent && t.parent[d] in t.rank && t.rank[t.parent[d]] < t.rank[d]))
  }

  ghost predicate Sound(t: Dirs) { forall d {:trigger Proper(t, d)} :: d in t.parent ==> Proper(t, d) }

  function RankOf(t: Dirs, d: int): nat { if d in t.rank then t.rank[d] else 0 }

  /** `d` is `a` or somewhere below it. */
  predicate Under(t: Dirs, d: int, a: int)
    requires Sound(t)
    decreases RankOf(t, d)
  {
    d in t.parent && (d == a || (assert Proper(t, d); t.parent[d] != 0 && Under(t, t.parent[d], a)))
  }

  lemma {:induction false} UnderRank(t: Dirs, d: int, a: int)
    requires Sound(t) && Under(t, d, a)
    ensures a in t.parent && RankOf(t, a) <= RankOf(t, d) && (d == a || RankOf(t, a) < RankOf(t, d))
    decreases RankOf(t, d)
  {
    assert Proper(t, d);
    if d != a { UnderRank(t, t.parent[d], a); }
  }

  /** A directory is not below itself. */
  lemma NotAbove(t: Dirs, d: int)
    requires Sound(t) && d in t.parent
    ensures !Under(t, t.parent[d], d)
  {
    assert Proper(t, d);
    assert 0 in t.parent ==> Proper(t, 0);
    if Under(t, t.parent[d], d) { UnderRank(t, t.parent[d], d); }
  }

  /** The way up from `d` to `a`, parent by parent. */
  ghost predicate WayUp(t: Dirs, path: seq<int>, d: int, a: int) {
    path != [] && path[0] == d && path[|path| - 1] == a && (forall k :: 0 <= k < |path| ==> path[k] in t.parent) &&
    forall k :: 0 <= k < |path| - 1 ==> path[k + 1] == t.parent[path[k]]
  }

  lemma {:induction false} ClimbsTo(t: Dirs, d: int, a: int) returns (path: seq<int>)
    requires Sound(t) && Under(t, d, a)
    ensures WayUp(t, path, d, a)
    decreases RankOf(t, d)
  {
    path := [d];
    if d != a {
      assert Proper(t, d);
      var rest := ClimbsTo(t, t.parent[d], a);
      path := [d] + rest;
    }
  }

  lemma {:induction false} WayIsUnder(t: Dirs, path: seq<int>, d: int, a: int)
    requires Sound(t) && WayUp(t, path, d, a)
    ensures Under(t, d, a)
    decreases |path|
  {
    assert Proper(t, d);
    if |path| > 1 {
      assert path[1] == t.parent[path[0]] && Proper(t, path[1]);
      WayIsUnder(t, path[1..], path[1], a);
    }
  }

  /** Below a directory is what leads up to it. */
  lemma UnderMeans(t: Dirs, d: int, a: int)
    requires Sound(t)
    ensures Under(t, d, a) <==> exists path :: WayUp(t, path, d, a)
  {
    if Under(t, d, a) { var path := ClimbsTo(t, d, a); }
    if path :| WayUp(t, path, d, a) { WayIsUnder(t, path, d, a); }
  }

  // ----- what the statistics should be

  datatype Link = Link(file: int, dir: int)

  function Loc(loc: map<int, Counts>, f: int): Counts { if f in loc then loc[f] else ZERO }

  /** The counts of the files linked at or below `a`, once for each link. */
  ghost function SumAt(t: Dirs, links: seq<Link>, loc: map<int, Counts>, a: int): Counts
    requires Sound(t)
  {
    if links == [] then ZERO
    else Add(Share(t, links[0].dir, Loc(loc, links[0].file), a), SumAt(t, links[1..], loc, a))
  }

  /** `delta` for each of the places that is at or below `a`. */
  ghost function Given(t: Dirs, places: seq<int>, delta: Counts, a: int): Counts
    requires Sound(t)
  {
    if places == [] then ZERO else Add(Share(t, places[0], delta, a), Given(t, places[1..], delta, a))
  }

  /** One parent for each link of the file. */
  function ParentsOf(links: seq<Link>, f: int): seq<int> {
    if links == [] then [] else if links[0].file == f then [links[0].dir] + ParentsOf(links[1..], f)
    else ParentsOf(links[1..], f)
  }

  lemma AddLaws(a: Counts, b: Counts, c: Counts)
    ensures Add(Add(a, b), c) == Add(a, Add(b, c)) && Add(a, b) == Add(b, a) && Add(a, ZERO) == a && Add(ZERO, a) == a
  {
  }

  lemma AddSwap(a: Counts, b: Counts, c: Counts)
    ensures Add(Add(a, b), c) == Add(Add(a, c), b) && Add(a, Add(b, c)) == Add(Add(a, b), c)
  {
  }

  /** What one link or place gives to `a`. */
  ghost function Share(t: Dirs, d: int, c: Counts, a: int): Counts
    requires Sound(t)
  {
    if Under(t, d, a) then c else ZERO
  }

  lemma {:induction false} SumSnoc(t: Dirs, links: seq<Link>, l: Link, loc: map<int, Counts>, a: int)
    requires Sound(t)
    ensures SumAt(t, links + [l], loc, a) == Add(SumAt(t, links, loc, a), Share(t, l.dir, Loc(loc, l.file), a))
  {
    hide Share, Add;
    var share := Share(t, l.dir, Loc(loc, l.file), a);
    AddLaws(share, ZERO, ZERO);
    if links == [] {
      assert (links + [l])[1..] == [];
    } else {
      SumSnoc(t, links[1..], l, loc, a);
      assert (links + [l])[1..] == links[1..] + [l];
      AddLaws(Share(t, links[0].dir, Loc(loc, links[0].file), a), SumAt(t, links[1..], loc, a), share);
    }
  }

  lemma {:induction false} GivenSnoc(t: Dirs, places: seq<int>, p: int, delta: Counts, a: int)
    requires Sound(t)
    ensures Given(t, places + [p], delta, a) == Add(Given(t, places, delta, a), Share(t, p, delta, a))
  {
    hide Share, Add;
    AddLaws(Share(t, p, delta, a), ZERO, ZERO);
    if places == [] {
      assert (places + [p])[1..] == [];
    } else {
      GivenSnoc(t, places[1..], p, delta, a);
      assert (places + [p])[1..] == places[1..] + [p];
      AddLaws(Share(t, places[0], delta, a), Given(t, places[1..], delta, a), Share(t, p, delta, a));
    }
  }

  /** Taking a link out takes its share out. */
  lemma {:induction false} SumCut(t: Dirs, links: seq<Link>, k: nat, loc: map<int, Counts>, a: int)
    requires Sound(t) && k < |links|
    ensures SumAt(t, links, loc, a) ==
            Add(SumAt(t, links[..k] + links[k + 1..], loc, a), Share(t, links[k].dir, Loc(loc, links[k].file), a))
  {
    hide Share, Add;
    var rest := links[..k] + links[k + 1..];
    var share := Share(t, links[k].dir, Loc(loc, links[k].file), a);
    if k == 0 {
      assert rest == links[1..];
      AddLaws(share, SumAt(t, rest, loc, a), ZERO);
    } else {
      SumCut(t, links[1..], k - 1, loc, a);
      assert rest[0] == links[0] && rest[1..] == links[1..][..k - 1] + links[1..][k..];
      AddLaws(Share(t, links[0].dir, Loc(loc, links[0].file), a), SumAt(t, rest[1..], loc, a), share);
    }
  }

  /** Changing where a file is stored changes the sum once for each of its links. */
  lemma {:induction false} SumMoved(t: Dirs, links: seq<Link>, loc: map<int, Counts>, f: int, delta: Counts, a: int)
    requires Sound(t)
    ensures SumAt(t, links, loc[f := Add(Loc(loc, f), delta)], a) ==
            Add(SumAt(t, links, loc, a), Given(t, ParentsOf(links, f), delta, a))
  {
    hide Share, Add;
    if links == [] {
      AddLaws(ZERO, ZERO, ZERO);
    } else {
      SumMoved(t, links[1..], loc, f, delta, a);
      var ps := ParentsOf(links, f);
      if links[0].file == f { assert ps[0] == links[0].dir && ps[1..] == ParentsOf(links[1..], f); }
      MovedStep(t, links[0].dir, Loc(loc, links[0].file), delta, a, SumAt(t, links[1..], loc, a),
                Given(t, ParentsOf(links[1..], f), delta, a));
    }
  }

  lemma MovedStep(t: Dirs, d: int, c: Counts, delta: Counts, a: int, s: Counts, g: Counts)
    requires Sound(t)
    ensures Add(Share(t, d, Add(c, delta), a), Add(s, g)) ==
            Add(Add(Share(t, d, c, a), s), Add(Share(t, d, delta, a), g))
    ensures Add(Share(t, d, c, a), Add(s, g)) == Add(Add(Share(t, d, c, a), s), g)
  {
  }

  /** A file that is not linked anywhere does not count. */
  lemma {:induction false} SumUnlinked(t: Dirs, links: seq<Link>, loc: map<int, Counts>, f: int, c: Counts, a: int)
    requires Sound(t) && forall k :: 0 <= k < |links| ==> links[k].file != f
    ensures SumAt(t, links, loc[f := c], a) == SumAt(t, links, loc, a)
  {
    hide Under;
    if links != [] { SumUnlinked(t, links[1..], loc, f, c, a); }
  }

  lemma {:induction false} ParentsPlaced(t: Dirs, links: seq<Link>, f: int)
    requires Sound(t) && forall k :: 0 <= k < |links| ==> links[k].dir in t.parent
    ensures forall k :: 0 <= k < |ParentsOf(links, f)| ==>
              ParentsOf(links, f)[k] in t.parent && ParentsOf(links, f)[k] != 0
  {
    if links != [] {
      ParentsPlaced(t, links[1..], f);
      assert Proper(t, links[0].dir);
    }
  }

  // ----- the walk up

  /** The directory being looked at and what is above it are still to come. */
  lemma ClimbStep(t: Dirs, base: int, cur: int, a: int)
    requires Sound(t) && Under(t, base, cur)
    ensures cur in t.parent && cur > 0 && (t.parent[cur] == 0 || (t.parent[cur] in t.parent && t.parent[cur] > 0))
    ensures Under(t, cur, a) <==> a == cur || Under(t, t.parent[cur], a)
    ensures !Under(t, t.parent[cur], cur)
    ensures t.parent[cur] != 0 ==> Under(t, base, t.parent[cur])
    ensures Under(t, cur, a) ==> Under(t, base, a)
  {
    UnderRank(t, base, cur);
    assert Proper(t, cur);
    assert 0 in t.parent ==> Proper(t, 0);
    NotAbove(t, cur);
    if t.parent[cur] != 0 { assert Proper(t, t.parent[cur]); }
    if t.parent[cur] != 0 { UnderTrans(t, base, cur, t.parent[cur]); }
    if Under(t, cur, a) { UnderTrans(t, base, cur, a); }
  }

  lemma {:induction false} UnderTrans(t: Dirs, d: int, e: int, a: int)
    requires Sound(t) && Under(t, d, e) && Under(t, e, a)
    ensures Under(t, d, a)
    decreases RankOf(t, d)
  {
    assert Proper(t, d);
    if d != e { UnderTrans(t, t.parent[d], e, a); }
  }

  /** What `a` has been given when the walk from `base` stands at `cur`. */
  ghost function Passed(t: Dirs, base: int, cur: int, delta: Counts, a: int): Counts
    requires Sound(t)
  {
    if Under(t, base, a) && !Under(t, cur, a) then delta else ZERO
  }

  /** What the statistics of `a` should be. */
  ghost function Due(t: Dirs, links: seq<Link>, loc: map<int, Counts>, odd: seq<int>, a: int): Counts
    requires Sound(t)
  {
    Add(SumAt(t, links, loc, a), Given(t, odd, ONE_LOCAL, a))
  }

  lemma LinkedRight(t: Dirs, links: seq<Link>, loc: map<int, Counts>, odd: seq<int>, f: int, dir: int, a: int)
    requires Sound(t)
    ensures Due(t, links + [Link(f, dir)], loc, odd, a) ==
            Add(Due(t, links, loc, odd, a), Share(t, dir, Loc(loc, f), a))
  {
    hide Share, Add, SumAt, Given;
    SumSnoc(t, links, Link(f, dir), loc, a);
    AddSwap(SumAt(t, links, loc, a), Share(t, dir, Loc(loc, f), a), Given(t, odd, ONE_LOCAL, a));
  }

  lemma CreatedRight(t: Dirs, links: seq<Link>, loc: map<int, Counts>, odd: seq<int>, f: int, dir: int, a: int)
    requires Sound(t) && f !in loc && forall k :: 0 <= k < |links| ==> links[k].file in loc
    ensures Due(t, links + [Link(f, dir)], loc[f := ONE_LOCAL], odd, a) ==
            Add(Due(t, links, loc, odd, a), Share(t, dir, ONE_LOCAL, a))
  {
    hide Share, Add, SumAt, Given;
    LinkedRight(t, links, loc[f := ONE_LOCAL], odd, f, dir, a);
    SumUnlinked(t, links, loc, f, ONE_LOCAL, a);
  }

  lemma OddRight(t: Dirs, links: seq<Link>, loc: map<int, Counts>, odd: seq<int>, dir: int, a: int)
    requires Sound(t)
    ensures Due(t, links, loc, odd + [dir], a) == Add(Due(t, links, loc, odd, a), Share(t, dir, ONE_LOCAL, a))
  {
    hide Share, Add, SumAt, Given;
    GivenSnoc(t, odd, dir, ONE_LOCAL, a);
    AddSwap(SumAt(t, links, loc, a), Given(t, odd, ONE_LOCAL, a), Share(t, dir, ONE_LOCAL, a));
  }

  lemma UnlinkedRight(t: Dirs, links: seq<Link>, loc: map<int, Counts>, odd: seq<int>, k: nat, a: int)
    requires Sound(t) && k < |links|
    ensures Due(t, links[..k] + links[k + 1..], loc, odd, a) ==
            Add(Due(t, links, loc, odd, a), Share(t, links[k].dir, Neg(Loc(loc, links[k].file)), a))
  {
    SumCut(t, links, k, loc, a);
  }

  lemma MovedRight(t: Dirs, links: seq<Link>, loc: map<int, Counts>, odd: seq<int>, f: int, delta: Counts, a: int)
    requires Sound(t)
    ensures Due(t, links, loc[f := Add(Loc(loc, f), delta)], odd, a) ==
            Add(Due(t, links, loc, odd, a), Given(t, ParentsOf(links, f), delta, a))
  {
    hide Share, Add, SumAt, Given;
    SumMoved(t, links, loc, f, delta, a);
    AddSwap(SumAt(t, links, loc, a), Given(t, ParentsOf(links, f), delta, a), Given(t, odd, ONE_LOCAL, a));
  }

  // ----- directories come and go

  /** The two trees agree about what is below what, for the places in use. */
  ghost predicate SameUnder(t: Dirs, t': Dirs, x: int, a: int)
    requires Sound(t) && Sound(t')
  {
    Under(t', x, a) == Under(t, x, a)
  }

  lemma {:induction false} SumSame(t: Dirs, t': Dirs, links: seq<Link>, loc: map<int, Counts>, a: int)
    requires Sound(t) && Sound(t') && forall k :: 0 <= k < |links| ==> SameUnder(t, t', links[k].dir, a)
    ensures SumAt(t', links, loc, a) == SumAt(t, links, loc, a)
  {
    hide Add, Under;
    if links != [] {
      SumSame(t, t', links[1..], loc, a);
      assert SameUnder(t, t', links[0].dir, a);
    }
  }

  lemma {:induction false} GivenSame(t: Dirs, t': Dirs, p: seq<int>, p': seq<int>, delta: Counts, a: int)
    requires Sound(t) && Sound(t') && |p'| == |p| && forall k :: 0 <= k < |p| ==>
               Under(t', p'[k], a) == Under(t, p[k], a)
    ensures Given(t', p', delta, a) == Given(t, p, delta, a)
  {
    hide Add, Under;
    if p != [] { GivenSame(t, t', p[1..], p'[1..], delta, a); }
  }

  function WithDir(t: Dirs, d: int, p: int): Dirs { Dirs(t.parent[d := p], t.rank[d := RankOf(t, p) + 1]) }

  lemma WithDirSound(t: Dirs, d: int, p: int)
    requires Sound(t) && d > 0 && d !in t.parent && p in t.parent
    ensures Sound(WithDir(t, d, p))
  {
    var t' := WithDir(t, d, p);
    assert Proper(t, p);
    forall x | x in t'.parent ensures Proper(t', x) { if x != d { assert Proper(t, x); } }
  }

  lemma {:induction false} WithDirUnder(t: Dirs, d: int, p: int, x: int, a: int)
    requires Sound(t) && Sound(WithDir(t, d, p)) && d !in t.parent && p in t.parent && x in t.parent
    ensures Under(WithDir(t, d, p), x, a) == Under(t, x, a)
    decreases RankOf(t, x)
  {
    assert Proper(t, x) && Proper(WithDir(t, d, p), x);
    if x != a && t.parent[x] != 0 { WithDirUnder(t, d, p, t.parent[x], a); }
  }

  lemma NewUnder(t: Dirs, d: int, p: int, a: int)
    requires Sound(t) && Sound(WithDir(t, d, p)) && d !in t.parent && p in t.parent
    ensures Under(WithDir(t, d, p), d, a) <==> a == d || Under(t, p, a)
  {
    assert Proper(WithDir(t, d, p), d) && Proper(t, p);
    WithDirUnder(t, d, p, p, a);
  }

  lemma NothingUnder(t: Dirs, x: int, a: int)
    requires Sound(t) && a !in t.parent
    ensures !Under(t, x, a)
  {
    if Under(t, x, a) { UnderRank(t, x, a); }
  }

  lemma {:induction false} SumNone(t: Dirs, links: seq<Link>, loc: map<int, Counts>, a: int)
    requires Sound(t) && a !in t.parent
    ensures SumAt(t, links, loc, a) == ZERO
  {
    hide Add, Under;
    AddLaws(ZERO, ZERO, ZERO);
    if links != [] {
      SumNone(t, links[1..], loc, a);
      NothingUnder(t, links[0].dir, a);
    }
  }

  lemma {:induction false} GivenNone(t: Dirs, places: seq<int>, delta: Counts, a: int)
    requires Sound(t) && a !in t.parent
    ensures Given(t, places, delta, a) == ZERO
  {
    hide Add, Under;
    AddLaws(ZERO, ZERO, ZERO);
    if places != [] {
      GivenNone(t, places[1..], delta, a);
      NothingUnder(t, places[0], a);
    }
  }

  lemma MkdirDue(t: Dirs, d: int, p: int, links: seq<Link>, loc: map<int, Counts>, odd: seq<int>, a: int)
    requires Sound(t) && Sound(WithDir(t, d, p)) && d !in t.parent && p in t.parent
    requires (forall k :: 0 <= k < |links| ==> links[k].dir in t.parent) &&
             (forall k :: 0 <= k < |odd| ==> odd[k] in t.parent)
    ensures Due(WithDir(t, d, p), links, loc, odd, a) == Due(t, links, loc, odd, a)
    ensures a == d ==> Due(t, links, loc, odd, a) == ZERO
  {
    var t' := WithDir(t, d, p);
    forall k | 0 <= k < |links| ensures SameUnder(t, t', links[k].dir, a) { WithDirUnder(t, d, p, links[k].dir, a); }
    forall k | 0 <= k < |odd| ensures Under(t', odd[k], a) == Under(t, odd[k], a) { WithDirUnder(t, d, p, odd[k], a); }
    SumSame(t, t', links, loc, a);
    GivenSame(t, t', odd, odd, ONE_LOCAL, a);
    if a == d {
      SumNone(t, links, loc, a);
      GivenNone(t, odd, ONE_LOCAL, a);
      AddLaws(ZERO, ZERO, ZERO);
    }
  }

  function WithoutDir(t: Dirs, d: int): Dirs { t.(parent := t.parent - {d}) }

  /** No directory is in `d`. */
  ghost predicate Childless(t: Dirs, d: int) { forall x :: x in t.parent ==> t.parent[x] != d }

  lemma WithoutDirSound(t: Dirs, d: int)
    requires Sound(t) && Childless(t, d)
    ensures Sound(WithoutDir(t, d))
  {
    var t' := WithoutDir(t, d);
    forall x | x in t'.parent ensures Proper(t', x) { assert Proper(t, x); }
  }

  lemma {:induction false} WithoutDirUnder(t: Dirs, d: int, x: int, a: int)
    requires Sound(t) && Childless(t, d) && Sound(WithoutDir(t, d)) && x in t.parent && x != d && a != d
    ensures Under(WithoutDir(t, d), x, a) == Under(t, x, a)
    decreases RankOf(t, x)
  {
    assert Proper(t, x) && Proper(WithoutDir(t, d), x);
    if x != a && t.parent[x] != 0 { WithoutDirUnder(t, d, t.parent[x], a); }
  }

  /** What was counted at `d` is counted at its parent from then on. */
  function Handed(odd: seq<int>, d: int, p: int): (r: seq<int>)
    ensures |r| == |odd| && forall k :: 0 <= k < |odd| ==> r[k] == if odd[k] == d then p else odd[k]
  {
    seq(|odd|, k requires 0 <= k < |odd| => if odd[k] == d then p else odd[k])
  }

  lemma RmdirDue(t: Dirs, d: int, links: seq<Link>, loc: map<int, Counts>, odd: seq<int>, a: int)
    requires Sound(t) && Childless(t, d) && Sound(WithoutDir(t, d)) && d in t.parent && t.parent[d] != 0 && a != d
    requires forall k :: 0 <= k < |links| ==> links[k].dir in t.parent && links[k].dir != d
    requires forall k :: 0 <= k < |odd| ==> odd[k] in t.parent
    ensures Due(WithoutDir(t, d), links, loc, Handed(odd, d, t.parent[d]), a) == Due(t, links, loc, odd, a)
  {
    var t', p := WithoutDir(t, d), t.parent[d];
    var odd' := Handed(odd, d, p);
    assert Proper(t, d) && t.parent[p] != d;
    forall k | 0 <= k < |links| ensures SameUnder(t, t', links[k].dir, a) { WithoutDirUnder(t, d, links[k].dir, a); }
    forall k | 0 <= k < |odd| ensures Under(t', odd'[k], a) == Under(t, odd[k], a) {
      WithoutDirUnder(t, d, odd'[k], a);
    }
    SumSame(t, t', links, loc, a);
    GivenSame(t, t', odd, odd', ONE_LOCAL, a);
  }

  // ----- a directory moves

  /** `d` is in `p` from now on; what is below it goes down with it. */
  function Moved(t: Dirs, d: int, p: int): Dirs
    requires Sound(t)
  {
    Dirs(t.parent[d := p],
         map x | x in t.rank :: if Under(t, x, d) then t.rank[x] + RankOf(t, p) + 1 else t.rank[x])
  }

  lemma MovedParent(t: Dirs, d: int, p: int)
    requires Sound(t)
    ensures Moved(t, d, p).parent == t.parent[d := p]
  {
  }

  lemma MovedSound(t: Dirs, d: int, p: int)
    requires Sound(t) && d in t.parent && p in t.parent && !Under(t, p, d)
    ensures Sound(Moved(t, d, p))
  {
    var t' := Moved(t, d, p);
    assert Proper(t, p) && Proper(t, d);
    assert 0 in t.parent ==> Proper(t, 0);
    forall x | x in t'.parent ensures Proper(t', x) { assert Proper(t, x); }
  }

  /** Below `d` everything above `d` is new, elsewhere nothing is. */
  lemma {:induction false} MovedUnder(t: Dirs, d: int, p: int, x: int, a: int)
    requires Sound(t) && d in t.parent && p in t.parent && !Under(t, p, d) && Sound(Moved(t, d, p)) && x in t.parent
    ensures Under(Moved(t, d, p), x, a) <==>
              if Under(t, x, d) then (Under(t, x, a) && Under(t, a, d)) || Under(t, p, a) else Under(t, x, a)
    decreases RankOf(t, x)
  {
    var t' := Moved(t, d, p);
    assert Proper(t, x) && Proper(t', x);
    assert 0 in t.parent ==> Proper(t, 0);
    if x == d {
      KeptUnder(t, d, p, p, a);
      if Under(t, d, a) && Under(t, a, d) { OnlySelf(t, d, a); }
    } else if t.parent[x] != 0 {
      MovedUnder(t, d, p, t.parent[x], a);
      if Under(t, x, a) && Under(t, a, d) && x == a { assert Under(t, x, d); }
    }
  }

  /** The case of a place that is not below `d`. */
  lemma {:induction false} KeptUnder(t: Dirs, d: int, p: int, x: int, a: int)
    requires Sound(t) && d in t.parent && p in t.parent && !Under(t, p, d) && Sound(Moved(t, d, p))
    requires x in t.parent && !Under(t, x, d)
    ensures Under(Moved(t, d, p), x, a) <==> Under(t, x, a)
    decreases RankOf(t, x)
  {
    assert Proper(t, x) && Proper(Moved(t, d, p), x);
    if t.parent[x] != 0 { KeptUnder(t, d, p, t.parent[x], a); }
  }

  lemma OnlySelf(t: Dirs, d: int, a: int)
    requires Sound(t) && Under(t, d, a) && Under(t, a, d)
    ensures a == d
  {
    UnderRank(t, d, a);
    UnderRank(t, a, d);
  }

  /** Two directories above the same place are one above the other. */
  lemma {:induction false} Comparable(t: Dirs, x: int, d: int, a: int)
    requires Sound(t) && Under(t, x, d) && Under(t, x, a)
    ensures Under(t, d, a) || Under(t, a, d)
    decreases RankOf(t, x)
  {
    assert Proper(t, x);
    if x != d && x != a { Comparable(t, t.parent[x], d, a); }
  }

  /** The move of `d` to `p` can be made: it has a parent to leave, and `p` is not below it. */
  ghost predicate Movable(t: Dirs, d: int, p: int) {
    Sound(t) && d in t.parent && t.parent[d] != 0 && p in t.parent && !Under(t, p, d)
  }

  /** Above a place below `d` there are, before and after, the same directories up to `d`, and then those
      above the old or the new parent. */
  lemma MovedChain(t: Dirs, d: int, p: int, x: int, a: int)
    requires Movable(t, d, p) && Sound(Moved(t, d, p)) && Under(t, x, d)
    ensures var near := Under(t, x, a) && Under(t, a, d);
            && (Under(t, x, a) <==> near || Under(t, t.parent[d], a)) &&
               (Under(Moved(t, d, p), x, a) <==> near || Under(t, p, a))
            && (near ==> !Under(t, t.parent[d], a) && !Under(t, p, a))
  {
    var q := t.parent[d];
    MovedUnder(t, d, p, x, a);
    ParentPlaced(t, d);
    if Under(t, x, a) { Comparable(t, x, d, a); }
    if Under(t, q, a) {
      UnderTrans(t, x, d, q);
      UnderTrans(t, x, q, a);
    }
    if Under(t, a, d) && Under(t, q, a) { UnderTrans(t, q, a, d); }
    if Under(t, a, d) && Under(t, p, a) { UnderTrans(t, p, a, d); }
  }

  /** What is at `x` below `d` is given to those above `p` and taken from those above the old parent. */
  lemma ShareMoved(t: Dirs, d: int, p: int, x: int, c: Counts, a: int)
    requires Movable(t, d, p) && Sound(Moved(t, d, p)) && x in t.parent
    ensures var s := Share(t, x, c, d);
            Share(Moved(t, d, p), x, c, a) ==
            Add(Share(t, x, c, a), Add(Share(t, p, s, a), Share(t, t.parent[d], Neg(s), a)))
  {
    hide Under, Moved;
    if Under(t, x, d) { MovedChain(t, d, p, x, a); } else { KeptUnder(t, d, p, x, a); }
  }

  /** `v` is what `u` becomes at `a` when `s` goes from those above `q` to those above `p`. */
  ghost predicate Handover(t: Dirs, p: int, q: int, u: Counts, s: Counts, v: Counts, a: int)
    requires Sound(t)
  {
    v == Add(u, Add(Share(t, p, s, a), Share(t, q, Neg(s), a)))
  }

  lemma HandoverJoins(t: Dirs, p: int, q: int, u: Counts, s: Counts, v: Counts, u': Counts, s': Counts, v': Counts,
                      a: int)
    requires Sound(t) && Handover(t, p, q, u, s, v, a) && Handover(t, p, q, u', s', v', a)
    ensures Handover(t, p, q, Add(u, u'), Add(s, s'), Add(v, v'), a)
  {
    hide Under;
  }

  lemma {:induction false} SumHandover(t: Dirs, d: int, p: int, links: seq<Link>, loc: map<int, Counts>, a: int)
    requires Movable(t, d, p) && Sound(Moved(t, d, p)) && forall k :: 0 <= k < |links| ==> links[k].dir in t.parent
    ensures Handover(t, p, t.parent[d], SumAt(t, links, loc, a), SumAt(t, links, loc, d),
                     SumAt(Moved(t, d, p), links, loc, a), a)
  {
    hide Under, Moved, Share, Add;
    if links == [] {
      HandoverNone(t, p, t.parent[d], a);
    } else {
      var x, c := links[0].dir, Loc(loc, links[0].file);
      SumHandover(t, d, p, links[1..], loc, a);
      ShareMoved(t, d, p, x, c, a);
      HandoverJoins(t, p, t.parent[d], Share(t, x, c, a), Share(t, x, c, d), Share(Moved(t, d, p), x, c, a),
                    SumAt(t, links[1..], loc, a), SumAt(t, links[1..], loc, d),
                      SumAt(Moved(t, d, p), links[1..], loc, a), a);
    }
  }

  lemma HandoverNone(t: Dirs, p: int, q: int, a: int)
    requires Sound(t)
    ensures Handover(t, p, q, ZERO, ZERO, ZERO, a)
  {
  }

  lemma {:induction false} GivenHandover(t: Dirs, d: int, p: int, places: seq<int>, delta: Counts, a: int)
    requires Movable(t, d, p) && Sound(Moved(t, d, p)) && forall k :: 0 <= k < |places| ==> places[k] in t.parent
    ensures Handover(t, p, t.parent[d], Given(t, places, delta, a), Given(t, places, delta, d),
                     Given(Moved(t, d, p), places, delta, a), a)
  {
    hide Under, Moved, Share, Add;
    if places == [] {
      HandoverNone(t, p, t.parent[d], a);
    } else {
      var x := places[0];
      GivenHandover(t, d, p, places[1..], delta, a);
      ShareMoved(t, d, p, x, delta, a);
      HandoverJoins(t, p, t.parent[d], Share(t, x, delta, a), Share(t, x, delta, d), Share(Moved(t, d, p), x, delta, a),
                    Given(t, places[1..], delta, a), Given(t, places[1..], delta, d),
                      Given(Moved(t, d, p), places[1..], delta, a), a);
    }
  }

  /** A whole subtree moves: what is due at its top goes from one chain of ancestors to the other. */
  lemma DueHandover(t: Dirs, d: int, p: int, links: seq<Link>, loc: map<int, Counts>, odd: seq<int>, a: int)
    requires Movable(t, d, p) && Sound(Moved(t, d, p))
    requires (forall k :: 0 <= k < |links| ==> links[k].dir in t.parent) &&
             (forall k :: 0 <= k < |odd| ==> odd[k] in t.parent)
    ensures Handover(t, p, t.parent[d], Due(t, links, loc, odd, a), Due(t, links, loc, odd, d),
                     Due(Moved(t, d, p), links, loc, odd, a), a)
  {
    hide Under, Moved, Share, Add, SumAt, Given;
    SumHandover(t, d, p, links, loc, a);
    GivenHandover(t, d, p, odd, ONE_LOCAL, a);
    HandoverJoins(t, p, t.parent[d], SumAt(t, links, loc, a), SumAt(t, links, loc, d),
                  SumAt(Moved(t, d, p), links, loc, a),
                  Given(t, odd, ONE_LOCAL, a), Given(t, odd, ONE_LOCAL, d), Given(Moved(t, d, p), odd, ONE_LOCAL, a),
                    a);
  }

  lemma ParentPlaced(t: Dirs, d: int)
    requires Sound(t) && d in t.parent && t.parent[d] != 0
    ensures t.parent[d] in t.parent && t.parent[d] > 0 && d > 0 && !Under(t, t.parent[d], d)
  {
    assert Proper(t, d);
    assert Proper(t, t.parent[d]);
    NotAbove(t, d);
  }

  lemma MovedKeys(t: Dirs, d: int, p: int)
    requires Movable(t, d, p)
    ensures Moved(t, d, p).parent.Keys == t.parent.Keys && p > 0
  {
    assert Proper(t, p);
  }

  /** Above a place outside the moved subtree nothing has changed. */
  lemma KeptShare(t: Dirs, d: int, p: int, x: int, c: Counts, a: int)
    requires Movable(t, d, p) && Sound(Moved(t, d, p)) && x in t.parent && !Under(t, x, d)
    ensures Share(Moved(t, d, p), x, c, a) == Share(t, x, c, a)
  {
    KeptUnder(t, d, p, x, a);
  }

  lemma RelinkedRight(t: Dirs, links: seq<Link>, loc: map<int, Counts>, odd: seq<int>, k: nat, p: int, a: int)
    requires Sound(t) && k < |links|
    ensures var c := Loc(loc, links[k].file);
            Due(t, links[k := Link(links[k].file, p)], loc, odd, a) ==
            Add(Due(t, links, loc, odd, a), Add(Share(t, p, c, a), Share(t, links[k].dir, Neg(c), a)))
  {
    hide Under, SumAt, Given, Share, Add;
    var links', c := links[k := Link(links[k].file, p)], Loc(loc, links[k].file);
    var rest := links[..k] + links[k + 1..];
    SumCut(t, links, k, loc, a);
    SumCut(t, links', k, loc, a);
    assert links'[..k] + links'[k + 1..] == rest;
    ShareExchanged(t, SumAt(t, rest, loc, a), Given(t, odd, ONE_LOCAL, a), links[k].dir, p, c, a);
  }

  lemma ShareExchanged(t: Dirs, r: Counts, g: Counts, q: int, p: int, c: Counts, a: int)
    requires Sound(t)
    ensures Add(Add(r, Share(t, p, c, a)), g) ==
            Add(Add(Add(r, Share(t, q, c, a)), g), Add(Share(t, p, c, a), Share(t, q, Neg(c), a)))
  {
    hide Under;
  }

  lemma EmptyDue(t: Dirs, a: int)
    requires Sound(t)
    ensures Due(t, [], map[], [], a) == ZERO
  {
  }

  const EINVAL := 22

  const ONE_LOCAL := Counts(1, 0, 0)

  /** The three counts have gone up by as much in every directory at or above `dir`, and nowhere else. */
  ghost predicate Raised(t: Dirs, was: map<int, Counts>, now: map<int, Counts>, dir: int, local: int, cloud: int,
                         hybrid: int)
    requires Sound(t)
  {
    now.Keys == was.Keys &&
    forall a :: a in was ==>
      now[a] == if Under(t, dir, a) then Counts(was[a].local + local, was[a].cloud + cloud, was[a].hybrid + hybrid)
                else was[a]
  }

  class Statistics {
    var dirs: Dirs
    var stats: map<int, Counts>
    var links: seq<Link>          // the links of regular files
    var others: seq<Link>         // the links of fifos and sockets
    var loc: map<int, Counts>     // where each regular file is stored
    ghost var odd: seq<int>       // a place for each fifo or socket ever made or linked

    /** The statistics of `a` are the sum over the regular files at or below it, and one more for each
        fifo or socket ever made or linked there. */
    ghost predicate Right(a: int)
      requires Sound(dirs) && a in stats
      reads this
    {
      stats[a] == Due(dirs, links, loc, odd, a)
    }

    ghost predicate Placed()
      reads this
    {
      Sound(dirs) && dirs.parent.Keys <= stats.Keys &&
      (forall k :: 0 <= k < |links| ==> links[k].dir in dirs.parent && links[k].file in loc) &&
      (forall k :: 0 <= k < |others| ==> others[k].dir in dirs.parent) &&
      (forall k :: 0 <= k < |odd| ==> odd[k] in dirs.parent)
    }

    ghost predicate Valid()
      reads this
    {
      Placed() && forall a :: a in dirs.parent ==> Right(a)
    }

    /** Adds `delta` to `base` and all above it, and to nothing else. */
    method UpdateParent(base: int, delta: Counts) returns (ret: int)
      requires Sound(dirs) && dirs.parent.Keys <= stats.Keys && (base != 0 ==> base in dirs.parent)
      modifies this`stats
      ensures ret == if base == 0 then -EINVAL else 0
      ensures stats.Keys == old(stats.Keys) && (base == 0 ==> stats == old(stats))
      ensures base != 0 ==> forall a :: a in stats ==> stats[a] == Add(old(stats)[a], Share(dirs, base, delta, a))
      ensures base != 0 ==> Raised(dirs, old(stats), stats, base, delta.local, delta.cloud, delta.hybrid)
    {
      if base == 0 { return -EINVAL; }
      ghost var before := stats;
      var cur := base;
      assert Proper(dirs, base);
      while cur > 0
        invariant cur == 0 || (cur > 0 && Under(dirs, base, cur))
        invariant stats.Keys == before.Keys
        invariant forall a :: a in stats ==> stats[a] == Add(before[a], Passed(dirs, base, cur, delta, a))
        decreases if cur > 0 then RankOf(dirs, cur) + 1 else 0
      {
        ghost var s, c := stats, cur;
        ClimbStep(dirs, base, cur, cur);
        stats := stats[cur := Add(stats[cur], delta)];
        cur := dirs.parent[cur];
        forall a | a in stats ensures stats[a] == Add(before[a], Passed(dirs, base, cur, delta, a)) {
          ClimbStep(dirs, base, c, a);
        }
        assert Proper(dirs, c);
      }
      assert 0 in dirs.parent ==> Proper(dirs, 0);
      return 0;
    }

    /** The same for every parent of a file, once for each link. */
    method UpdateFile(f: int, delta: Counts) returns (ret: int)
      requires Placed()
      modifies this`stats
      ensures ret == if f == 0 then -EINVAL else 0
      ensures stats.Keys == old(stats.Keys) && (f == 0 ==> stats == old(stats))
      ensures f != 0 ==> forall a :: a in stats ==>
                stats[a] == Add(old(stats)[a], Given(dirs, ParentsOf(links, f), delta, a))
    {
      if f == 0 { return -EINVAL; }
      var parents := ParentsOf(links, f);
      ParentsPlaced(dirs, links, f);
      ghost var before := stats;
      var count := 0;
      while count < |parents|
        invariant 0 <= count <= |parents| && stats.Keys == before.Keys
        invariant forall a :: a in stats ==> stats[a] == Add(before[a], Given(dirs, parents[..count], delta, a))
      {
        ghost var s := stats;
        var _ := UpdateParent(parents[count], delta);
        forall a | a in stats ensures stats[a] == Add(before[a], Given(dirs, parents[..count + 1], delta, a)) {
          GivenSnoc(dirs, parents[..count], parents[count], delta, a);
          assert parents[..count] + [parents[count]] == parents[..count + 1];
          AddLaws(before[a], Given(dirs, parents[..count], delta, a), Share(dirs, parents[count], delta, a));
        }
        count := count + 1;
      }
      assert parents[..count] == parents;
      return 0;
    }

    // ----- the operations

    /** A new file counts as local, whatever it is. */
    method Create(f: int, dir: int, regular: bool) returns (ret: int)
      requires Valid() && dir in dirs.parent && f !in loc
      modifies this
      ensures Valid() && ret == 0 && dirs == old(dirs) && Raised(dirs, old(stats), stats, dir, 1, 0, 0)
      ensures regular ==> links == old(links) + [Link(f, dir)] && loc == old(loc)[f := ONE_LOCAL]
      ensures regular ==> others == old(others) && odd == old(odd)
      ensures !regular ==> others == old(others) + [Link(f, dir)] && odd == old(odd) + [dir]
      ensures !regular ==> links == old(links) && loc == old(loc)
    {
      hide Share, Add, Due, Raised, Under;
      assert Proper(dirs, dir);
      ret := UpdateParent(dir, ONE_LOCAL);
      ghost var l0, c0, o0 := links, loc, odd;
      if regular {
        links, loc := links + [Link(f, dir)], loc[f := ONE_LOCAL];
        forall a | a in dirs.parent ensures Right(a) { CreatedRight(dirs, l0, c0, o0, f, dir, a); }
      } else {
        others, odd := others + [Link(f, dir)], odd + [dir];
        forall a | a in dirs.parent ensures Right(a) { OddRight(dirs, l0, c0, o0, dir, a); }
      }
    }

    /** A new link counts where the file is stored now. */
    method LinkFile(f: int, dir: int) returns (ret: int)
      requires Valid() && dir in dirs.parent && f in loc
      modifies this
      ensures Valid() && ret == 0 && links == old(links) + [Link(f, dir)]
      ensures dirs == old(dirs) && loc == old(loc) && others == old(others) && odd == old(odd)
      ensures Raised(dirs, old(stats), stats, dir, loc[f].local, loc[f].cloud, loc[f].hybrid)
    {
      hide Share, Add, Due, Raised, Under;
      assert Proper(dirs, dir);
      ret := UpdateParent(dir, loc[f]);
      ghost var l0 := links;
      links := links + [Link(f, dir)];
      forall a | a in dirs.parent ensures Right(a) { LinkedRight(dirs, l0, loc, odd, f, dir, a); }
    }

    /** A new link to a fifo or socket counts one local, as it has no blocks. */
    method LinkOther(f: int, dir: int) returns (ret: int)
      requires Valid() && dir in dirs.parent
      modifies this
      ensures Valid() && ret == 0 && others == old(others) + [Link(f, dir)] && odd == old(odd) + [dir]
      ensures dirs == old(dirs) && links == old(links) && loc == old(loc)
      ensures Raised(dirs, old(stats), stats, dir, 1, 0, 0)
    {
      hide Share, Add, Due, Raised, Under;
      assert Proper(dirs, dir);
      ret := UpdateParent(dir, ONE_LOCAL);
      ghost var o0 := odd;
      others, odd := others + [Link(f, dir)], odd + [dir];
      forall a | a in dirs.parent ensures Right(a) { OddRight(dirs, links, loc, o0, dir, a); }
    }

    /** For a regular file its share is taken back. */
    method Unlink(k: nat) returns (ret: int)
      requires Valid() && k < |links|
      modifies this
      ensures Valid() && ret == 0 && links == old(links)[..k] + old(links)[k + 1..]
      ensures dirs == old(dirs) && loc == old(loc) && others == old(others) && odd == old(odd)
      ensures var l := old(links)[k];
              Raised(dirs, old(stats), stats, l.dir, -loc[l.file].local, -loc[l.file].cloud, -loc[l.file].hybrid)
    {
      var l := links[k];
      assert Proper(dirs, l.dir);
      hide Share, Add, Due, Raised, Under;
      ret := UpdateParent(l.dir, Neg(loc[l.file]));
      ghost var l0 := links;
      links := links[..k] + links[k + 1..];
      forall a | a in dirs.parent ensures Right(a) { UnlinkedRight(dirs, l0, loc, odd, k, a); }
    }

    /** For a fifo or socket nothing is. */
    method UnlinkOther(k: nat)
      requires Valid() && k < |others|
      modifies this`others
      ensures Valid() && others == old(others)[..k] + old(others)[k + 1..]
    {
      hide Due;
      others := others[..k] + others[k + 1..];
    }

    /** The file's blocks have moved; `delta` is the difference. */
    method Relocate(f: int, delta: Counts) returns (ret: int)
      requires Valid() && f in loc && f != 0
      modifies this
      ensures Valid() && ret == 0 && loc == old(loc)[f := Add(old(loc)[f], delta)]
      ensures dirs == old(dirs) && links == old(links) && others == old(others) && odd == old(odd)
    {
      hide Share, Add, Due, Raised, Under;
      ret := UpdateFile(f, delta);
      ghost var c0 := loc;
      loc := loc[f := Add(loc[f], delta)];
      forall a | a in dirs.parent ensures Right(a) { MovedRight(dirs, links, c0, odd, f, delta, a); }
    }

    /** A new directory starts at nothing. */
    method Mkdir(d: int, p: int)
      requires Valid() && d > 0 && d !in dirs.parent && p in dirs.parent
      modifies this
      ensures Valid() && dirs == WithDir(old(dirs), d, p) && dirs.parent == old(dirs).parent[d := p]
      ensures stats == old(stats)[d := Counts(0, 0, 0)]
      ensures forall a :: Under(dirs, d, a) <==> a == d || Under(old(dirs), p, a)
      ensures links == old(links) && others == old(others) && loc == old(loc) && odd == old(odd)
    {
      hide Due, Under;
      ghost var t := dirs;
      WithDirSound(t, d, p);
      stats := stats[d := ZERO];
      dirs := WithDir(dirs, d, p);
      forall a | a in dirs.parent ensures Right(a) { MkdirDue(t, d, p, links, loc, odd, a); }
      forall a ensures Under(dirs, d, a) <==> a == d || Under(t, p, a) { NewUnder(t, d, p, a); }
    }

    /** An empty directory goes; those above it do not change. */
    method Rmdir(d: int)
      requires Valid() && d in dirs.parent && dirs.parent[d] != 0 && Childless(dirs, d)
      requires forall k :: 0 <= k < |links| ==> links[k].dir != d
      requires forall k :: 0 <= k < |others| ==> others[k].dir != d
      modifies this
      ensures Valid() && dirs == WithoutDir(old(dirs), d) && dirs.parent == old(dirs).parent - {d}
      ensures links == old(links) && others == old(others) && loc == old(loc)
      ensures stats == old(stats)[d := Counts(0, 0, 0)]
      ensures odd == Handed(old(odd), d, old(dirs).parent[d])
    {
      hide Due, Under;
      ghost var t, o := dirs, odd;
      WithoutDirSound(t, d);
      assert Proper(t, d);
      stats := stats[d := ZERO];
      dirs := WithoutDir(dirs, d);
      odd := Handed(o, d, t.parent[d]);
      forall a | a in dirs.parent ensures Right(a) { RmdirDue(t, d, links, loc, o, a); }
    }

    /** `rename` of a directory to another parent: its own statistics are added to the new chain of
        ancestors and taken from the old one, whatever they count. */
    method MoveDir(d: int, p: int) returns (ret: int)
      requires Valid() && Movable(dirs, d, p)
      modifies this
      ensures Valid() && ret == 0
      ensures dirs == if p == old(dirs).parent[d] then old(dirs) else Moved(old(dirs), d, p)
      ensures dirs.parent == old(dirs).parent[d := p]
      ensures links == old(links) && others == old(others) && loc == old(loc) && odd == old(odd)
    {
      hide Share, Add, Due, Under, Moved;
      ghost var t, s := dirs, stats;
      var q := dirs.parent[d];
      if p == q { return 0; }
      MovedSound(t, d, p);
      ParentPlaced(t, d);
      dirs := Moved(dirs, d, p);
      MovedKeys(t, d, p);
      MovedParent(t, d, p);
      var c := stats[d];
      var _ := UpdateParent(p, c);
      var _ := UpdateParent(q, Neg(c));
      forall a | a in dirs.parent ensures Right(a) {
        DueHandover(t, d, p, links, loc, odd, a);
        KeptShare(t, d, p, p, c, a);
        KeptShare(t, d, p, q, Neg(c), a);
        AddSwap(s[a], Share(t, p, c, a), Share(t, q, Neg(c), a));
      }
      return 0;
    }

    /** `rename` of a regular file to another parent. */
    method MoveFile(k: nat, p: int) returns (ret: int)
      requires Valid() && k < |links| && p in dirs.parent
      modifies this
      ensures Valid() && ret == 0 && links == old(links)[k := Link(old(links)[k].file, p)]
      ensures dirs == old(dirs) && loc == old(loc) && others == old(others) && odd == old(odd)
    {
      hide Share, Add, Due, Raised, Under;
      var l := links[k];
      if l.dir == p { return 0; }
      assert Proper(dirs, p) && Proper(dirs, l.dir);
      ghost var l0, s := links, stats;
      var _ := UpdateParent(p, loc[l.file]);
      var _ := UpdateParent(l.dir, Neg(loc[l.file]));
      links := links[k := Link(l.file, p)];
      forall a | a in dirs.parent ensures Right(a) {
        RelinkedRight(dirs, l0, loc, odd, k, p, a);
        AddSwap(s[a], Share(dirs, p, loc[l.file], a), Share(dirs, l.dir, Neg(loc[l.file]), a));
      }
      return 0;
    }

    /** `rename` of a fifo or socket: its count stays behind. */
    method MoveOther(k: nat, p: int) returns (ret: int)
      requires Valid() && k < |others| && p in dirs.parent
      modifies this`others
      ensures Valid() && ret == 0 && others == old(others)[k := Link(old(others)[k].file, p)]
    {
      hide Due;
      others := others[k := Link(others[k].file, p)];
      return 0;
    }

    /** A file system with its root directory only. */
    constructor (t: Dirs, root: int)
      requires Sound(t) && t.parent == map[root := 0]
      ensures Valid() && dirs == t && links == [] && others == [] && loc == map[] && odd == []
    {
      hide Under;
      EmptyDue(t, root);
      dirs, stats, links, others, loc, odd := t, map[root := ZERO], [], [], map[], [];
    }
  }

  lemma {:induction false} GivenLocal(t: Dirs, odd: seq<int>, a: int)
    requires Sound(t)
    ensures Given(t, odd, ONE_LOCAL, a).local >= 0 &&
            Given(t, odd, ONE_LOCAL, a).cloud == Given(t, odd, ONE_LOCAL, a).hybrid == 0
    ensures Given(t, odd, ONE_LOCAL, a) == ZERO <==> forall k :: 0 <= k < |odd| ==> !Under(t, odd[k], a)
  {
    hide Add, Under;
    if odd != [] {
      GivenLocal(t, odd[1..], a);
      AddParts(Share(t, odd[0], ONE_LOCAL, a), Given(t, odd[1..], ONE_LOCAL, a));
    }
  }

  lemma AddParts(a: Counts, b: Counts)
    ensures Add(a, b).local == a.local + b.local && Add(a, b).cloud == a.cloud + b.cloud &&
            Add(a, b).hybrid == a.hybrid + b.hybrid
  {
  }

  /** A directory's statistics are the sum over the regular files at or below it exactly when no fifo or
      socket has ever been made or linked there: that counts it, and removing or moving it does not undo it. */
  lemma ExactWhen(t: Dirs, links: seq<Link>, loc: map<int, Counts>, odd: seq<int>, a: int)
    requires Sound(t)
    ensures Due(t, links, loc, odd, a) == SumAt(t, links, loc, a) <==>
              forall k :: 0 <= k < |odd| ==> !Under(t, odd[k], a)
  {
    hide Add, Under, SumAt, Given;
    GivenLocal(t, odd, a);
    AddParts(SumAt(t, links, loc, a), Given(t, odd, ONE_LOCAL, a));
  }

  /** A root directory in which one fifo was made and removed again is empty and counts one local file. */
  method FifoMiscounts(root: int, fifo: int) returns (s: Statistics)
    requires root > 0
    ensures fresh(s) && s.Valid() && root in s.stats && s.links == [] && s.others == []
    ensures s.stats[root] == ONE_LOCAL && SumAt(s.dirs, s.links, s.loc, root) == ZERO
  {
    hide Raised, Under;
    var t := Dirs(map[root := 0], map[root := 0]);
    assert forall d :: d in t.parent ==> Proper(t, d);
    s := new Statistics(t, root);
    var _ := s.Create(fifo, root, false);
    s.UnlinkOther(0);
    assert s.Right(root) && s.odd == [root];
    OneOdd(t, root);
  }

  lemma OneOdd(t: Dirs, root: int)
    requires Sound(t) && root in t.parent
    ensures Due(t, [], map[], [root], root) == ONE_LOCAL
  {
    hide Due, Given, SumAt, Add;
    OddRight(t, [], map[], [], root, root);
    EmptyDue(t, root);
    assert [] + [root] == [root];
    AddLaws(ONE_LOCAL, ZERO, ZERO);
  }
}
