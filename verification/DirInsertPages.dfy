/** What the page writes of an insertion do to the tree held in the file, including the first slot
    of the child-position buffer that the split of an internal page does not always fill. */
module DirInsertPages {
  import opened DirNames
  import opened DirTree
  import opened DirInsert
  import opened DirPages

  /** Slot 0 of the shared child-position buffer, and whether every split so far found its own first
      child there. */
  datatype Buf = Buf(first: int, sound: bool)

  /** An internal page that splits copies its child positions into the buffer, but slot 0 only when it
      was entered at an index above 0 (line 385); entered at index 0 it reuses whatever slot 0 holds. */
  ghost function Buffer(x: bool, t: Tree, h: nat, e: Entry, a: Alloc, full: bool, first: int): Buf
    requires Shaped(t, h)
    decreases h
  {
    var s := Slot(x, t.entries, e.name);
    if h == 0 || Locate(x, t.entries, e.name).Hit? then Buf(first, true)
    else
      var b := Buffer(x, t.kids[s], h - 1, e, a, full, first);
      if |t.entries| < MAX_ENTRIES || !Insert(x, t.kids[s], h - 1, e, a, full).Overflow? then b
      else if s > 0 then Buf(t.kids[0].pos, b.sound)
      else Buf(b.first, b.sound && b.first == t.kids[0].pos)
  }

  /** Every page the insertion of `name` goes through, down to the leaf, is full. */
  ghost predicate FullPath(x: bool, t: Tree, h: nat, name: string)
    requires Shaped(t, h)
    decreases h
  {
    var p := Locate(x, t.entries, name);
    p.Miss? && |t.entries| == MAX_ENTRIES && (h > 0 ==> FullPath(x, t.kids[p.at], h - 1, name))
  }

  /** The name is not met on the way down, and the leaf where it belongs is full. */
  ghost predicate LeafFull(x: bool, t: Tree, h: nat, name: string)
    requires Shaped(t, h)
    decreases h
  {
    var p := Locate(x, t.entries, name);
    p.Miss? && if h > 0 then LeafFull(x, t.kids[p.at], h - 1, name) else |t.entries| == MAX_ENTRIES
  }

  /** An insertion is turned down for lack of space exactly when its leaf is full and no page can be had. */
  lemma {:induction false} NoSpaceWhen(x: bool, t: Tree, h: nat, e: Entry, a: Alloc, full: bool)
    requires Shaped(t, h)
    ensures Insert(x, t, h, e, a, full).NoSpace? <==> LeafFull(x, t, h, e.name) && full && a.gc == []
    decreases h
  {
    hide Widen;
    var p := Locate(x, t.entries, e.name);
    if h > 0 && p.Miss? { NoSpaceWhen(x, t.kids[p.at], h - 1, e, a, full); }
  }

  /** A page overflows exactly when the name is absent, every page on the path is full, and there is
      a page to be had. */
  lemma {:induction false} OverflowsWhen(x: bool, t: Tree, h: nat, e: Entry, a: Alloc, full: bool)
    requires Shaped(t, h)
    ensures var r := Insert(x, t, h, e, a, full);
            && (r.Overflow? <==> FullPath(x, t, h, e.name) && !(full && a.gc == []))
            && (FullPath(x, t, h, e.name) && full && a.gc == [] ==> r.NoSpace?)
    decreases h
  {
    hide Widen;
    var p := Locate(x, t.entries, e.name);
    if h > 0 && p.Miss? { OverflowsWhen(x, t.kids[p.at], h - 1, e, a, full); }
  }

  /** What an insertion that splits pages needs of slot 0 of the buffer before the call: it may not
      split a page above the lowest two levels that it enters at index 0, and if it splits the page
      above the leaf entered at index 0, slot 0 must already hold the position of that leaf. */
  ghost predicate Clean(x: bool, t: Tree, h: nat, name: string, first: int)
    requires Shaped(t, h)
    decreases h
  {
    h == 0 ||
    match Locate(x, t.entries, name)
    case Hit(_) => true
    case Miss(s) =>
      && Clean(x, t.kids[s], h - 1, name, first)
      && (FullPath(x, t, h, name) ==> s > 0 || (h == 1 && first == t.kids[0].pos))
  }

  /** The buffer slots turn out right exactly when the tree and the slot were clean before the call. */
  lemma {:induction false} BufferClean(x: bool, t: Tree, h: nat, e: Entry, a: Alloc, full: bool, first: int)
    requires Shaped(t, h) && Single(t)
    ensures var r, b := Insert(x, t, h, e, a, full), Buffer(x, t, h, e, a, full, first);
            && (r.Done? || r.Overflow? ==> (b.sound <==> Clean(x, t, h, e.name, first)))
            && (h > 0 && r.Overflow? && b.sound ==> b.first == t.kids[0].pos)
            && (h == 0 ==> b.first == first)
    decreases h
  {
    hide Widen, Insert;
    var p := Locate(x, t.entries, e.name);
    OverflowsWhen(x, t, h, e, a, full);
    if h > 0 && p.Miss? {
      var s := p.at;
      KidsApart(t, s);
      BufferClean(x, t.kids[s], h - 1, e, a, full, first);
      OverflowsWhen(x, t.kids[s], h - 1, e, a, full);
      LiftKinds(x, t, h, e, a, full, s);
      if h > 1 {
        KidsApart(t.kids[s], 0);
        UsesSelf(t.kids[s].kids[0]);
      }
    }
  }

  /** An insertion that goes through without a page to be had splits nothing. */
  lemma {:induction false} CleanWithoutSpace(x: bool, t: Tree, h: nat, e: Entry, a: Alloc, first: int)
    requires Shaped(t, h) && a.gc == [] && Insert(x, t, h, e, a, true).Done?
    ensures Clean(x, t, h, e.name, first)
    decreases h
  {
    hide Widen, Insert;
    var p := Locate(x, t.entries, e.name);
    if h > 0 && p.Miss? {
      OverflowsWhen(x, t, h, e, a, true);
      OverflowsWhen(x, t.kids[p.at], h - 1, e, a, true);
      LiftKinds(x, t, h, e, a, true, p.at);
      CleanWithoutSpace(x, t.kids[p.at], h - 1, e, a, first);
    }
  }

  lemma LiftKinds(x: bool, t: Tree, h: nat, e: Entry, a: Alloc, full: bool, s: nat)
    requires h > 0 && Shaped(t, h) && Locate(x, t.entries, e.name) == Miss(s)
    ensures var r, k := Insert(x, t, h, e, a, full), Insert(x, t.kids[s], h - 1, e, a, full);
            && (r.Done? || r.Overflow? <==> k.Done? || k.Overflow?)
  {
    hide Widen;
  }

  /** The child positions of a page after kid `s` split off page `newPos`. */
  function WideChildren(children: seq<int>, s: nat, newPos: int): seq<int>
    requires s < |children|
  {
    children[..s + 1] + [newPos] + children[s + 1..]
  }

  /** The same, through the buffer: slot 0 is stale when `s` is 0. */
  function BufferedChildren(children: seq<int>, s: nat, newPos: int, first: int): seq<int>
    requires s < |children|
  {
    (if s > 0 then children[..s + 1] else [first]) + [newPos] + children[s + 1..]
  }

  lemma WidePositions(t: Tree, s: nat, l: Tree, m: Entry, u: Tree)
    requires |t.kids| == |t.entries| + 1 && s <= |t.entries| && l.pos == t.kids[s].pos
    ensures ChildPos(Widen(t, s, l, m, u)) == WideChildren(ChildPos(t), s, u.pos)
  {
    var c, c' := ChildPos(Widen(t, s, l, m, u)), WideChildren(ChildPos(t), s, u.pos);
    forall i | 0 <= i < |c| ensures c[i] == c'[i] {
      var g := Widen(t, s, l, m, u).kids;
      assert c[i] == g[i].pos;
      if i < s { assert g[i] == t.kids[i]; }
      else if i > s + 1 { assert g[i] == t.kids[i - 1]; }
    }
  }

  lemma WidenHeld(d: Disk, d1: Disk, t: Tree, s: nat, l: Tree, m: Entry, u: Tree, page: Page)
    requires |t.kids| == |t.entries| + 1 && s <= |t.entries| && l.pos == t.kids[s].pos
    requires Holds(d, t) && Single(t) && ChangedBelow(d, d1, t, s)
    requires Uses(l, t.pos) == 0 && Uses(u, t.pos) == 0
    requires Stores(page, Widen(t, s, l, m, u))
    ensures Holds(d1[t.pos := page], Widen(t, s, l, m, u)) <==> Holds(d1, l) && Holds(d1, u)
  {
    var g, d2 := Widen(t, s, l, m, u), d1[t.pos := page];
    WideKids(d, d1, t, s, l, m, u);
    forall i | 0 <= i < |g.kids| ensures Holds(d2, g.kids[i]) <==> Holds(d1, g.kids[i]) {
      WriteElsewhere(d1, t.pos, page, g.kids[i]);
    }
    assert g.kids[s] == l && g.kids[s + 1] == u;
  }

  lemma WideKids(d: Disk, d1: Disk, t: Tree, s: nat, l: Tree, m: Entry, u: Tree)
    requires |t.kids| == |t.entries| + 1 && s <= |t.entries|
    requires Holds(d, t) && Single(t) && ChangedBelow(d, d1, t, s)
    requires Uses(l, t.pos) == 0 && Uses(u, t.pos) == 0
    ensures var ks := Widen(t, s, l, m, u).kids;
            && (forall i :: 0 <= i < |ks| ==> Uses(ks[i], t.pos) == 0)
            && ((forall i :: 0 <= i < |ks| ==> Holds(d1, ks[i])) <==> Holds(d1, l) && Holds(d1, u))
  {
    var ks := Widen(t, s, l, m, u).kids;
    OthersHeld(d, d1, t, s);
    forall i | 0 <= i < |ks| ensures Uses(ks[i], t.pos) == 0 && (i != s && i != s + 1 ==> Holds(d1, ks[i])) {
      if i < s { KidsApart(t, i); assert ks[i] == t.kids[i]; }
      else if i > s + 1 { KidsApart(t, i - 1); assert ks[i] == t.kids[i - 1]; }
    }
    assert ks[s] == l && ks[s + 1] == u;
  }

  /** Splitting a page in two: both halves are held exactly when all kids are and slot 0 was right. */
  lemma SplitHeld(d1: Disk, d2: Disk, g: Tree, pl: Page, pr: Page, buf: seq<int>, taken: nat)
    requires |g.entries| == MAX_ENTRIES + 1 && (g.kids == [] || |g.kids| == |g.entries| + 1) && g.pos != 0 &&
             pr.pos != 0
    requires |buf| == |g.entries| + 1 && buf[1..] == ChildPos(g)[1..]
    requires var r := Split(g.pos, g.entries, g.kids, pr.pos, taken);
             && pl.pos == g.pos && pl.entries == r.left.entries && pl.children == buf[..|r.left.entries| + 1]
             && pr.entries == r.right.entries && pr.children == buf[|r.left.entries| + 1..]
    requires g.pos in d2 && SameBody(d2[g.pos], pl) && pr.pos in d2 && SameBody(d2[pr.pos], pr)
    requires forall p :: p in d1 && p != g.pos && p != pr.pos ==> p in d2 && SameBody(d2[p], d1[p])
    requires forall p :: p in d2 ==> p in d1 || p == g.pos || p == pr.pos
    requires forall i :: 0 <= i < |g.kids| ==> Uses(g.kids[i], g.pos) == 0 && Uses(g.kids[i], pr.pos) == 0
    ensures var r := Split(g.pos, g.entries, g.kids, pr.pos, taken);
            Holds(d2, r.left) && Holds(d2, r.right) <==>
              buf[0] == ChildPos(g)[0] && forall i :: 0 <= i < |g.kids| ==> Holds(d1, g.kids[i])
  {
    var r := Split(g.pos, g.entries, g.kids, pr.pos, taken);
    var m, c := |r.left.entries|, ChildPos(g);
    forall i | 0 <= i < |g.kids| ensures Holds(d2, g.kids[i]) <==> Holds(d1, g.kids[i]) {
      HoldsFrame(d1, d2, g.kids[i]);
    }
    SplitPositions(g, r.left, r.right);
    assert buf == [buf[0]] + buf[1..] && c == [c[0]] + c[1..];
    assert buf[m + 1..] == buf[1..][m..] && c[m + 1..] == c[1..][m..];
    assert buf[0] == c[0] <==> buf == c;
    assert buf[..m + 1][0] == buf[0] && c[..m + 1][0] == c[0];
    SplitKidsHeld(d2, g, r.left, r.right);
  }

  lemma SplitPositions(g: Tree, l: Tree, u: Tree)
    requires |g.entries| == |l.entries| + 1 + |u.entries|
    requires (g.kids == [] && l.kids == [] && u.kids == []) || (|g.kids| == |g.entries| + 1
             && l.kids == g.kids[..|l.entries| + 1] && u.kids == g.kids[|l.entries| + 1..])
    ensures ChildPos(l) == ChildPos(g)[..|l.entries| + 1] && ChildPos(u) == ChildPos(g)[|l.entries| + 1..]
  {
  }

  lemma SplitKidsHeld(d: Disk, g: Tree, l: Tree, u: Tree)
    requires (g.kids == [] && l.kids == [] && u.kids == []) || (|l.entries| < |g.kids|
             && l.kids == g.kids[..|l.entries| + 1] && u.kids == g.kids[|l.entries| + 1..])
    ensures (forall i :: 0 <= i < |g.kids| ==> Holds(d, g.kids[i])) <==>
            (forall i :: 0 <= i < |l.kids| ==> Holds(d, l.kids[i])) &&
            (forall i :: 0 <= i < |u.kids| ==> Holds(d, u.kids[i]))
  {
    if (forall i :: 0 <= i < |l.kids| ==> Holds(d, l.kids[i])) &&
      (forall i :: 0 <= i < |u.kids| ==> Holds(d, u.kids[i])) {
      forall i | 0 <= i < |g.kids| ensures Holds(d, g.kids[i]) {
        if i <= |l.entries| { assert l.kids[i] == g.kids[i]; } else { assert u.kids[i - |l.entries| - 1] == g.kids[i]; }
      }
    }
  }

  function Taken(r: Ins): nat {
    if r.Done? || r.Overflow? then r.taken else 0
  }

  const EEXIST: int := 17
  const ENOSPC: int := 28

  function Code(r: Ins): int {
    match r
    case Exists => -EEXIST
    case NoSpace => -ENOSPC
    case Done(_, _) => 0
    case Overflow(_, _, _, _) => 1
  }

  /** The file holds the outcome of an insertion, or not. */
  ghost predicate Outcome(d: Disk, r: Ins) {
    match r
    case Exists => true
    case NoSpace => true
    case Done(t, _) => Holds(d, t)
    case Overflow(l, _, u, _) => Holds(d, l) && Holds(d, u)
  }

  /** A subtree of a listed tree is listed, and so are the pages its insertion adds. */
  lemma KidListed(t: Tree, s: nat, w: seq<int>)
    requires s < |t.kids| && forall p :: Uses(t, p) > 0 ==> p in w
    ensures forall p :: Uses(t.kids[s], p) > 0 ==> p in w
  {
    forall p | Uses(t.kids[s], p) > 0 ensures p in w { UsesKid(t, s, p); }
  }

  lemma OverflowListed(t: Tree, a: Alloc, r: Ins, w: seq<int>)
    requires r.Overflow? && (forall p :: Accounted(t, a, r, p)) && (forall p :: Uses(t, p) > 0 ==> p in w)
    requires Distinct(Listed(a, r.taken, w))
    ensures forall p :: Uses(r.left, p) > 0 || Uses(r.right, p) > 0 ==> p in Listed(a, r.taken, w)
    ensures forall p :: p in w && Uses(t, p) == 0 ==> Uses(r.left, p) == 0 && Uses(r.right, p) == 0
  {
    var f := Fresh(a, r.taken);
    forall p
      ensures Uses(r.left, p) > 0 || Uses(r.right, p) > 0 ==> p in Listed(a, r.taken, w)
      ensures p in w && Uses(t, p) == 0 ==> Uses(r.left, p) == 0 && Uses(r.right, p) == 0
    {
      assert Accounted(t, a, r, p);
      ListedMembers(a, r.taken, w, p);
      if p in w {
        ListedApart(a, r.taken, w, p);
        TimesZero(f, p);
      } else if Times(f, p) > 0 {
        TimesSome(f, p);
      }
    }
  }

  /** Writing a leaf with its new entries. */
  lemma LeafHeld(d: Disk, t: Tree, es: seq<Entry>)
    requires Holds(d, t) && t.kids == [] && |es| == |t.entries| + 1
    ensures var page := d[t.pos].(entries := es, children := d[t.pos].children + [0]);
            Holds(d[t.pos := page], t.(entries := es))
  {
    assert ChildPos(t.(entries := es)) == ChildPos(t) + [0];
  }

  /** A full leaf split in two, with all child positions 0. */
  lemma LeafSplitHeld(d: Disk, d2: Disk, t: Tree, es: seq<Entry>, newPos: int)
    requires Holds(d, t) && t.kids == [] && |es| == MAX_ENTRIES + 1 == |t.entries| + 1 && newPos != 0 && newPos != t.pos
    requires var m := |es| / 2;
             && t.pos in d2 &&
                SameBody(d2[t.pos], d[t.pos].(entries := es[..m], children := d[t.pos].children[..m + 1]))
             && newPos in d2 && SameBody(d2[newPos], Page(newPos, es[m + 1..], seq(|es| - m, _ => 0), 0, 0, 0))
    ensures Outcome(d2, Split(t.pos, es, [], newPos, 1))
  {
  }

  /** What an insertion below page `t.pos` leaves behind: the outcome `r`, held in the file exactly
      when the buffer slots were right, with the new pages listed and every listed page outside the
      subtree untouched. */
  ghost predicate Inserted(sure: bool, d: Disk, d': Disk, walkHead: int, gcHead: int, end: int,
                           t: Tree, a: Alloc, r: Ins, sound: bool, w: seq<int>)
  {
    && end == After(a, Taken(r)).end
    && Lists(sure, d', walkHead, gcHead, end, Listed(a, Taken(r), w), After(a, Taken(r)).gc)
    && (Outcome(d', r) <==> sound)
    && (r.Exists? || r.NoSpace? ==> d' == d)
    && (forall p :: p in w && Uses(t, p) == 0 ==> p in d' && p in d && SameBody(d'[p], d[p]))
  }

  lemma InsertedChangedBelow(sure: bool, d: Disk, d': Disk, walkHead: int, gcHead: int, end: int,
                             t: Tree, s: nat, a: Alloc, r: Ins, sound: bool, w: seq<int>)
    requires s < |t.kids| && (forall p :: Uses(t, p) > 0 ==> p in w)
    requires Inserted(sure, d, d', walkHead, gcHead, end, t.kids[s], a, r, sound, w)
    ensures ChangedBelow(d, d', t, s)
    ensures forall p :: p in w && Uses(t, p) == 0 ==> p in d' && p in d && SameBody(d'[p], d[p])
  {
    forall p | p in w && Uses(t, p) == 0 ensures Uses(t.kids[s], p) == 0 { UsesKid(t, s, p); }
  }

  /** An outcome in kid `s` that needs nothing from the node. */
  lemma PassDone(sure: bool, d: Disk, d': Disk, walkHead: int, gcHead: int, end: int,
                 t: Tree, s: nat, a: Alloc, r: Ins, sound: bool, w: seq<int>)
    requires |t.kids| == |t.entries| + 1 && s <= |t.entries| <= MAX_ENTRIES && !r.Overflow?
    requires Holds(d, t) && Single(t) && (forall p :: Uses(t, p) > 0 ==> p in w)
    requires Inserted(sure, d, d', walkHead, gcHead, end, t.kids[s], a, r, sound, w)
    requires r.Done? ==> r.tree.pos == t.kids[s].pos
    ensures Inserted(sure, d, d', walkHead, gcHead, end, t, a, Lift(t, s, r, a), sound, w)
  {
    InsertedChangedBelow(sure, d, d', walkHead, gcHead, end, t, s, a, r, sound, w);
    if r.Done? { ReplacedHeld(d, d', t, s, r.tree); }
  }

  /** Kid `s` of the held tree `t` overflowed, and its outcome `r` is in the file `d1`. */
  ghost predicate Joining(sure: bool, d: Disk, d1: Disk, walkHead: int, gcHead: int, end: int,
                          t: Tree, h: nat, s: nat, a: Alloc, r: Ins, sound: bool, w: seq<int>)
  {
    && h > 0 && Shaped(t, h) && s <= |t.entries| && Holds(d, t) && Single(t)
    && (forall p :: Uses(t, p) > 0 ==> p in w)
    && r.Overflow? && r.left.pos == t.kids[s].pos
    && (forall p :: Accounted(t.kids[s], a, r, p))
    && Inserted(sure, d, d1, walkHead, gcHead, end, t.kids[s], a, r, sound, w)
  }

  /** The node's own page is as before, and neither half of the kid uses it. */
  lemma JoiningNode(sure: bool, d: Disk, d1: Disk, walkHead: int, gcHead: int, end: int,
                    t: Tree, h: nat, s: nat, a: Alloc, r: Ins, sound: bool, w: seq<int>)
    requires Joining(sure, d, d1, walkHead, gcHead, end, t, h, s, a, r, sound, w)
    ensures ChangedBelow(d, d1, t, s)
    ensures t.pos in d1 && Stores(d1[t.pos], t) && t.pos in w && t.pos in Listed(a, r.taken, w)
    ensures Uses(r.left, t.pos) == 0 && Uses(r.right, t.pos) == 0
    ensures ChildPos(Widen(t, s, r.left, r.median, r.right)) == WideChildren(d1[t.pos].children, s, r.right.pos)
    ensures forall p :: p in w && Uses(t, p) == 0 ==> p in d1 && p in d && SameBody(d1[p], d[p])
    ensures forall p :: Uses(r.left, p) > 0 || Uses(r.right, p) > 0 ==> p in Listed(a, r.taken, w)
  {
    InsertedChangedBelow(sure, d, d1, walkHead, gcHead, end, t, s, a, r, sound, w);
    OthersHeld(d, d1, t, s);
    KidListed(t, s, w);
    KidsApart(t, s);
    OverflowListed(t.kids[s], a, r, w);
    UsesSelf(t);
    ListedMembers(a, r.taken, w, t.pos);
    WidePositions(t, s, r.left, r.median, r.right);
  }

  /** Room in the node: it takes the median and the new page, and the insertion ends here. */
  lemma JoinWide(sure: bool, d: Disk, d1: Disk, walkHead: int, gcHead: int, end: int,
                 t: Tree, h: nat, s: nat, a: Alloc, r: Ins, sound: bool, w: seq<int>, page: Page)
    requires Joining(sure, d, d1, walkHead, gcHead, end, t, h, s, a, r, sound, w) && |t.entries| < MAX_ENTRIES
    requires Stores(page, Widen(t, s, r.left, r.median, r.right)) && t.pos in d1
    requires page.walkNext == d1[t.pos].walkNext && page.walkPrev == d1[t.pos].walkPrev &&
             page.gcNext == d1[t.pos].gcNext
    ensures Inserted(sure, d, d1[t.pos := page], walkHead, gcHead, end, t, a, Lift(t, s, r, a), sound, w)
  {
    JoiningNode(sure, d, d1, walkHead, gcHead, end, t, h, s, a, r, sound, w);
    WidenHeld(d, d1, t, s, r.left, r.median, r.right, page);
    ListsRewrite(sure, d1, walkHead, gcHead, end, Listed(a, r.taken, w), After(a, r.taken).gc, page);
    UsesSelf(t);
  }

  lemma LeafResult(x: bool, t: Tree, e: Entry, a: Alloc, full: bool, s: nat, es: seq<Entry>, r: Ins)
    requires Shaped(t, 0) && Locate(x, t.entries, e.name) == Miss(s)
    requires es == t.entries[..s] + [e] + t.entries[s..] && r == Insert(x, t, 0, e, a, full)
    ensures r == if |t.entries| < MAX_ENTRIES then Done(t.(entries := es), 0)
                 else if a.gc == [] && full then NoSpace
                 else Split(t.pos, es, [], NewPage(a), 1)
  {
  }

  /** What `SplitOff` leaves behind when the full node `t` splits through the buffer. */
  ghost predicate SplitWritten(d1: Disk, d2: Disk, t: Tree, s: nat, r: Ins, q: int, first: int)
    requires |t.kids| == |t.entries| + 1 == MAX_ENTRIES + 1 && s <= |t.entries| && r.Overflow?
  {
    var g, c := Widen(t, s, r.left, r.median, r.right), ChildPos(t);
    var m, buf := |g.entries| / 2, BufferedChildren(c, s, r.right.pos, first);
    && q in d2 && SameBody(d2[q], Page(q, g.entries[m + 1..], buf[m + 1..], 0, 0, 0)) && q != t.pos
    && t.pos in d2 && SameBody(d2[t.pos], Page(t.pos, g.entries[..m], buf[..m + 1], 0, 0, 0))
    && (forall p :: p in d1 && p != t.pos && p != q ==> p in d2 && SameBody(d2[p], d1[p]))
    && (forall p :: p in d2 <==> p in d1 || p == q)
  }

  lemma SplitWrote(d1: Disk, d2: Disk, node: Page, t: Tree, s: nat, r: Ins, q: int, first: int)
    requires |t.kids| == |t.entries| + 1 == MAX_ENTRIES + 1 && s <= |t.entries| && r.Overflow? && Stores(node, t)
    requires var es, buf :=
               node.entries[..s] + [r.median] + node.entries[s..],
               BufferedChildren(node.children, s, r.right.pos, first);
             var m := |es| / 2;
             && q in d2 && SameBody(d2[q], Page(q, es[m + 1..], buf[m + 1..], 0, 0, 0)) && q != t.pos
             && t.pos in d2 && SameBody(d2[t.pos], node.(entries := es[..m], children := buf[..m + 1]))
    requires forall p :: p in d1 && p != t.pos && p != q ==> p in d2 && SameBody(d2[p], d1[p])
    requires forall p :: p in d2 <==> p in d1 || p == q
    ensures SplitWritten(d1, d2, t, s, r, q, first)
  {
    hide BufferedChildren, ChildPos;
  }

  lemma LiftFull(t: Tree, s: nat, r: Ins, a: Alloc, r': Ins)
    requires |t.kids| == |t.entries| + 1 == MAX_ENTRIES + 1 && s <= |t.entries| && r.Overflow? && r' == Lift(t, s, r, a)
    ensures var es := t.entries[..s] + [r.median] + t.entries[s..];
            r'.Overflow? && r'.median == es[|es| / 2] && r'.right.pos == NewPage(After(a, r.taken))
  {
  }

  /** A full node: it splits through the buffer, soundly iff slot 0 of the buffer is its first child. */
  lemma JoinFull(sure: bool, d: Disk, d1: Disk, walkHead: int, gcHead: int, end: int,
                 t: Tree, h: nat, s: nat, a: Alloc, r: Ins, sound: bool, w: seq<int>,
                 first: int, d2: Disk, walkHead2: int, gcHead2: int, end2: int, r': Ins)
    requires Joining(sure, d, d1, walkHead, gcHead, end, t, h, s, a, r, sound, w) && |t.entries| == MAX_ENTRIES
    requires r' == Lift(t, s, r, a)
    requires var a1 := After(a, r.taken);
             && Lists(sure, d2, walkHead2, gcHead2, end2, [NewPage(a1)] + Listed(a, r.taken, w), Rest(a1).gc) &&
                end2 == Rest(a1).end
             && SplitWritten(d1, d2, t, s, r, NewPage(a1), first)
    ensures Inserted(sure, d, d2, walkHead2, gcHead2, end2, t, a, r', sound && (s > 0 || first == t.kids[0].pos), w)
  {
    hide Uses, Holds, Outcome, SplitWritten, Lift, Inserted, SplitBodies, Accounted, Flat;
    var q, v := NewPage(After(a, r.taken)), Listed(a, r.taken, w);
    FirstApart(q, v);
    assert q != 0 by { assert q in [q] + v; }
    JoinFullBodies(sure, d, d1, walkHead, gcHead, end, t, h, s, a, r, sound, w, first, d2, q);
    InsertedFrom(sure, d, d2, walkHead2, gcHead2, end2, t, a, r.taken, r',
                 sound && (s > 0 || first == t.kids[0].pos), w);
  }

  /** The pages, the lists aside, after a full node was split through the buffer. */
  ghost predicate SplitBodies(d: Disk, d2: Disk, t: Tree, r: Ins, sound: bool, w: seq<int>) {
    && r.Overflow? && (Outcome(d2, r) <==> sound)
    && (forall p :: p in w && Uses(t, p) == 0 ==> p in d2 && p in d && SameBody(d2[p], d[p]))
  }

  lemma JoinFullBodies(sure: bool, d: Disk, d1: Disk, walkHead: int, gcHead: int, end: int,
                       t: Tree, h: nat, s: nat, a: Alloc, r: Ins, sound: bool, w: seq<int>,
                       first: int, d2: Disk, q: int)
    requires Joining(sure, d, d1, walkHead, gcHead, end, t, h, s, a, r, sound, w) && |t.entries| == MAX_ENTRIES
    requires q == NewPage(After(a, r.taken)) && q != 0 && q !in Listed(a, r.taken, w)
    requires SplitWritten(d1, d2, t, s, r, q, first)
    ensures Lift(t, s, r, a).Overflow? && Lift(t, s, r, a).taken == r.taken + 1
    ensures SplitBodies(d, d2, t, Lift(t, s, r, a), sound && (s > 0 || first == t.kids[0].pos), w)
  {
    hide Uses, Holds, Lists, After, NewPage, Flat;
    JoiningNode(sure, d, d1, walkHead, gcHead, end, t, h, s, a, r, sound, w);
    SplitWrittenHeld(d, d1, d2, t, h, s, a, r, w, q, first);
    SplitWrittenFrame(d, d1, d2, t, s, a, r, w, q, first);
  }

  lemma InsertedFrom(sure: bool, d: Disk, d': Disk, walkHead: int, gcHead: int, end: int,
                     t: Tree, a: Alloc, n: nat, r: Ins, sound: bool, w: seq<int>)
    requires r.Overflow? && r.taken == n + 1 && end == Rest(After(a, n)).end
    requires Lists(sure, d', walkHead, gcHead, end, [NewPage(After(a, n))] + Listed(a, n, w), Rest(After(a, n)).gc)
    requires SplitBodies(d, d', t, r, sound, w)
    ensures Inserted(sure, d, d', walkHead, gcHead, end, t, a, r, sound, w)
  {
    hide Lists, Outcome, Uses;
    FreshNext(a, n);
  }

  lemma SplitWrittenFrame(d: Disk, d1: Disk, d2: Disk, t: Tree, s: nat, a: Alloc, r: Ins, w: seq<int>, q: int,
                          first: int)
    requires |t.kids| == |t.entries| + 1 == MAX_ENTRIES + 1 && s <= |t.entries| && r.Overflow?
    requires q !in Listed(a, r.taken, w) && SplitWritten(d1, d2, t, s, r, q, first)
    requires forall p :: p in w && Uses(t, p) == 0 ==> p in d1 && p in d && SameBody(d1[p], d[p])
    ensures forall p :: p in w && Uses(t, p) == 0 ==> p in d2 && p in d && SameBody(d2[p], d[p])
  {
    forall p | p in w && Uses(t, p) == 0 ensures p in d2 && p in d && SameBody(d2[p], d[p]) {
      ListedMembers(a, r.taken, w, p);
      UsesSelf(t);
    }
  }

  lemma SplitWrittenHeld(d: Disk, d1: Disk, d2: Disk, t: Tree, h: nat, s: nat, a: Alloc, r: Ins, w: seq<int>, q: int,
                         first: int)
    requires h > 0 && Shaped(t, h) && s <= |t.entries| == MAX_ENTRIES && r.Overflow? && r.left.pos == t.kids[s].pos
    requires Holds(d, t) && Single(t) && ChangedBelow(d, d1, t, s)
    requires Uses(r.left, t.pos) == 0 && Uses(r.right, t.pos) == 0
    requires (forall p :: Uses(t, p) > 0 ==> p in w)
    requires forall p :: Uses(r.left, p) > 0 || Uses(r.right, p) > 0 ==> p in Listed(a, r.taken, w)
    requires q !in Listed(a, r.taken, w) && q != 0 && SplitWritten(d1, d2, t, s, r, q, first)
    ensures var g := Widen(t, s, r.left, r.median, r.right);
            Outcome(d2, Split(t.pos, g.entries, g.kids, q, r.taken + 1)) <==>
              Holds(d1, r.left) && Holds(d1, r.right) && (s > 0 || first == t.kids[0].pos)
  {
    var g, c := Widen(t, s, r.left, r.median, r.right), ChildPos(t);
    var m, buf := |g.entries| / 2, BufferedChildren(c, s, r.right.pos, first);
    WidePositions(t, s, r.left, r.median, r.right);
    BufferedFirst(c, s, r.right.pos, first);
    WideKids(d, d1, t, s, r.left, r.median, r.right);
    forall i | 0 <= i < |g.kids| ensures Uses(g.kids[i], q) == 0 { KidUnlisted(t, s, a, r, w, i, q); }
    SplitHeld(d1, d2, g, Page(t.pos, g.entries[..m], buf[..m + 1], 0, 0, 0),
              Page(q, g.entries[m + 1..], buf[m + 1..], 0, 0, 0), buf, r.taken + 1);
  }

  lemma BufferedFirst(c: seq<int>, s: nat, newPos: int, first: int)
    requires s < |c|
    ensures var buf, wide := BufferedChildren(c, s, newPos, first), WideChildren(c, s, newPos);
            |buf| == |wide| == |c| + 1 && buf[1..] == wide[1..] && wide[0] == c[0]
            && buf[0] == (if s > 0 then c[0] else first)
  {
  }

  lemma KidUnlisted(t: Tree, s: nat, a: Alloc, r: Ins, w: seq<int>, i: nat, q: int)
    requires |t.kids| == |t.entries| + 1 && s <= |t.entries| && r.Overflow?
    requires (forall p :: Uses(t, p) > 0 ==> p in w)
    requires forall p :: Uses(r.left, p) > 0 || Uses(r.right, p) > 0 ==> p in Listed(a, r.taken, w)
    requires q !in Listed(a, r.taken, w) && i <= |t.kids|
    ensures Uses(Widen(t, s, r.left, r.median, r.right).kids[i], q) == 0
  {
    ListedMembers(a, r.taken, w, q);
    var g := Widen(t, s, r.left, r.median, r.right).kids;
    if i < s { UsesKid(t, i, q); assert g[i] == t.kids[i]; }
    else if i > s + 1 { UsesKid(t, i - 1, q); assert g[i] == t.kids[i - 1]; }
    else { assert g[i] == r.left || g[i] == r.right; }
  }

  /** The insertion into `t` comes to `r` and `b`, and the one into its kid `s` to `kr` and `kb`. */
  ghost predicate Levels(x: bool, t: Tree, h: nat, e: Entry, a: Alloc, full: bool, first: int,
                         s: nat, r: Ins, b: Buf, kr: Ins, kb: Buf)
  {
    && h > 0 && Shaped(t, h) && Sorted(x, Flat(t)) && Locate(x, t.entries, e.name) == Miss(s)
    && r == Insert(x, t, h, e, a, full) && kr == Insert(x, t.kids[s], h - 1, e, a, full)
    && b == Buffer(x, t, h, e, a, full, first) && kb == Buffer(x, t.kids[s], h - 1, e, a, full, first)
  }

  /** One level of the insertion, in terms of what happened in the kid. */
  lemma OneLevel(x: bool, t: Tree, h: nat, e: Entry, a: Alloc, full: bool, first: int,
                 s: nat, r: Ins, b: Buf, kr: Ins, kb: Buf)
    requires Levels(x, t, h, e, a, full, first, s, r, b, kr, kb)
    ensures r == Lift(t, s, kr, a)
    ensures b.sound == (kb.sound && (!r.Overflow? || s > 0 || kb.first == t.kids[0].pos))
    ensures r.Overflow? ==> b.first == if s > 0 then t.kids[0].pos else kb.first
  {
    hide Flat, Sorted, Widen;
  }

  lemma KidLevel(x: bool, t: Tree, h: nat, e: Entry, a: Alloc, full: bool, first: int,
                 s: nat, r: Ins, b: Buf, kr: Ins, kb: Buf)
    requires Levels(x, t, h, e, a, full, first, s, r, b, kr, kb)
    ensures kr.Done? ==> kr.tree.pos == t.kids[s].pos
    ensures kr.Overflow? ==> kr.left.pos == t.kids[s].pos
    ensures forall p :: Accounted(t.kids[s], a, kr, p)
  {
    hide Insert, Buffer, Flat, Accounted, Locate;
    DescendSplits(x, t, e.name);
    InsertSound(x, t.kids[s], h - 1, e, a, full);
    forall p ensures Accounted(t.kids[s], a, kr, p) { InsertAccounted(x, t.kids[s], h - 1, e, a, full, p); }
  }

  /** Everything an insertion below page `t.pos` starts from; `r` and `b` are what it will come to. */
  ghost predicate Inserting(sure: bool, x: bool, d: Disk, walkHead: int, gcHead: int, end: int, t: Tree, h: nat,
                            e: Entry,
                            full: bool, first: int, w: seq<int>, g: seq<int>, r: Ins, b: Buf)
  {
    && Holds(d, t) && Shaped(t, h) && Sorted(x, Flat(t)) && Single(t)
    && Lists(sure, d, walkHead, gcHead, end, w, g) && (forall p :: Uses(t, p) > 0 ==> p in w)
    && r == Insert(x, t, h, e, Alloc(g, end), full) && b == Buffer(x, t, h, e, Alloc(g, end), full, first)
  }

  lemma InsertingHeld(sure: bool, x: bool, d: Disk, walkHead: int, gcHead: int, end: int, t: Tree, h: nat, e: Entry,
                      full: bool, first: int, w: seq<int>, g: seq<int>, r: Ins, b: Buf)
    requires Inserting(sure, x, d, walkHead, gcHead, end, t, h, e, full, first, w, g, r, b)
    ensures Holds(d, t) && Shaped(t, h)
  {
  }

  lemma InsertingKid(sure: bool, x: bool, d: Disk, walkHead: int, gcHead: int, end: int, t: Tree, h: nat, e: Entry,
                     full: bool, first: int, w: seq<int>, g: seq<int>, r: Ins, b: Buf, s: nat)
    returns (kr: Ins, kb: Buf)
    requires Inserting(sure, x, d, walkHead, gcHead, end, t, h, e, full, first, w, g, r, b)
    requires h > 0 && Locate(x, t.entries, e.name) == Miss(s)
    ensures Inserting(sure, x, d, walkHead, gcHead, end, t.kids[s], h - 1, e, full, first, w, g, kr, kb)
  {
    hide Insert, Buffer, Lists, Flat, Locate;
    kr := Insert(x, t.kids[s], h - 1, e, Alloc(g, end), full);
    kb := Buffer(x, t.kids[s], h - 1, e, Alloc(g, end), full, first);
    KidsApart(t, s);
    KidListed(t, s, w);
    DescendSplits(x, t, e.name);
  }

  lemma LevelUp(sure: bool, x: bool, d: Disk, walkHead: int, gcHead: int, end: int, t: Tree, h: nat, e: Entry,
                full: bool, first: int, w: seq<int>, g: seq<int>, r: Ins, b: Buf, s: nat, kr: Ins, kb: Buf)
    requires Inserting(sure, x, d, walkHead, gcHead, end, t, h, e, full, first, w, g, r, b)
    requires h > 0 && Locate(x, t.entries, e.name) == Miss(s)
    requires Inserting(sure, x, d, walkHead, gcHead, end, t.kids[s], h - 1, e, full, first, w, g, kr, kb)
    ensures r == Lift(t, s, kr, Alloc(g, end))
    ensures b.sound == (kb.sound && (!r.Overflow? || s > 0 || kb.first == t.kids[0].pos))
    ensures r.Overflow? ==> b.first == if s > 0 then t.kids[0].pos else kb.first
    ensures kr.Done? ==> kr.tree.pos == t.kids[s].pos
    ensures kr.Overflow? ==> kr.left.pos == t.kids[s].pos
    ensures forall p :: Accounted(t.kids[s], Alloc(g, end), kr, p)
  {
    hide Insert, Buffer, Lists, Flat, Locate, Lift, Accounted, Uses;
    OneLevel(x, t, h, e, Alloc(g, end), full, first, s, r, b, kr, kb);
    KidLevel(x, t, h, e, Alloc(g, end), full, first, s, r, b, kr, kb);
  }

  /** The kid's outcome is in the file: either it is all there is to it, or the node takes part. */
  lemma KidReturned(sure: bool, x: bool, d: Disk, walkHead: int, gcHead: int, end: int, t: Tree, h: nat, e: Entry,
                    full: bool, first: int, w: seq<int>, g: seq<int>, r: Ins, b: Buf, s: nat, kr: Ins, kb: Buf,
                    d1: Disk, walkHead1: int, gcHead1: int, end1: int)
    requires Inserting(sure, x, d, walkHead, gcHead, end, t, h, e, full, first, w, g, r, b)
    requires h > 0 && Locate(x, t.entries, e.name) == Miss(s)
    requires Inserting(sure, x, d, walkHead, gcHead, end, t.kids[s], h - 1, e, full, first, w, g, kr, kb)
    requires Inserted(sure, d, d1, walkHead1, gcHead1, end1, t.kids[s], Alloc(g, end), kr, kb.sound, w)
    ensures r == Lift(t, s, kr, Alloc(g, end))
    ensures !kr.Overflow? ==> Code(r) == Code(kr) && !r.Overflow?
                              && Inserted(sure, d, d1, walkHead1, gcHead1, end1, t, Alloc(g, end), r, b.sound, w)
    ensures kr.Overflow? ==>
              && Joining(sure, d, d1, walkHead1, gcHead1, end1, t, h, s, Alloc(g, end), kr, kb.sound, w)
              && (r.Done? || r.Overflow?)
              && b.sound == (kb.sound && (r.Done? || s > 0 || kb.first == t.kids[0].pos))
              && (r.Overflow? ==> b.first == if s > 0 then t.kids[0].pos else kb.first)
  {
    hide Insert, Buffer, Lists, Flat, Locate, Accounted, Uses, Holds, Inserted, Widen, Sorted;
    LevelUp(sure, x, d, walkHead, gcHead, end, t, h, e, full, first, w, g, r, b, s, kr, kb);
    if !kr.Overflow? { PassDone(sure, d, d1, walkHead1, gcHead1, end1, t, s, Alloc(g, end), kr, kb.sound, w); }
  }

  // ----- the whole insertion

  /** The file after a new root was written above the two halves of the old one. */
  lemma RootGrown(d1: Disk, d2: Disk, l: Tree, m: Entry, u: Tree, q: int)
    requires q != 0 && q in d2 && SameBody(d2[q], Page(q, [m], [l.pos, u.pos], 0, 0, 0))
    requires forall p :: p in d1 && p != q ==> p in d2 && SameBody(d2[p], d1[p])
    requires forall p :: p in d2 ==> p in d1 || p == q
    requires Uses(l, q) == 0 && Uses(u, q) == 0
    ensures Holds(d2, Tree(q, [m], [l, u])) <==> Holds(d1, l) && Holds(d1, u)
  {
    HoldsFrame(d1, d2, l);
    HoldsFrame(d1, d2, u);
    var g := Tree(q, [m], [l, u]);
    assert ChildPos(g) == [l.pos, u.pos];
    assert g.kids[0] == l && g.kids[1] == u;
  }

  lemma GrownHeld(sure: bool, d1: Disk, d2: Disk, walkHead: int, gcHead: int, end: int, t: Tree, a: Alloc, r: Ins,
                  w: seq<int>, q: int, n: nat)
    requires r.Overflow? && (forall p :: Accounted(t, a, r, p)) && (forall p :: Uses(t, p) > 0 ==> p in w)
    requires q == NewPage(After(a, r.taken)) && r.left.pos == t.pos && n == r.taken + 1
    requires Lists(sure, d2, walkHead, gcHead, end, [q] + Listed(a, r.taken, w), Rest(After(a, r.taken)).gc)
    requires Distinct(Listed(a, r.taken, w))
    requires q in d2 && SameBody(d2[q], Page(q, [r.median], [t.pos, r.right.pos], 0, 0, 0))
    requires forall p :: p in d1 && p != q ==> p in d2 && SameBody(d2[p], d1[p])
    requires forall p :: p in d2 <==> p in d1 || p == q
    ensures Lists(sure, d2, walkHead, gcHead, end, Listed(a, n, w), After(a, n).gc)
    ensures After(a, n) == Rest(After(a, r.taken))
    ensures Holds(d2, Tree(q, [r.median], [r.left, r.right])) <==> Outcome(d1, r)
  {
    hide Holds, Uses, NewPage, Rest, Gc, Spaced, Safe;
    var v := Listed(a, r.taken, w);
    OverflowListed(t, a, r, w);
    assert q != 0 by { assert q in [q] + v; }
    FirstApart(q, v);
    FreshNext(a, r.taken);
    RootGrown(d1, d2, r.left, r.median, r.right, q);
  }

  /** After a whole insertion the walk list runs through exactly the pages of the new tree. */
  lemma WholeListed(t: Tree, a: Alloc, r: Ins, w: seq<int>)
    requires r.Done? && (forall p :: Accounted(t, a, r, p)) && (forall p :: Uses(t, p) == if p in w then 1 else 0)
    requires Distinct(Listed(a, r.taken, w))
    ensures forall p :: Uses(r.tree, p) == if p in Listed(a, r.taken, w) then 1 else 0
  {
    forall p ensures Uses(r.tree, p) == if p in Listed(a, r.taken, w) then 1 else 0 {
      assert Accounted(t, a, r, p);
      ListedMembers(a, r.taken, w, p);
      var f := Fresh(a, r.taken);
      if p in w {
        ListedApart(a, r.taken, w, p);
        TimesZero(f, p);
      } else if p in f {
        FreshOnce(a, r.taken, w, p);
      } else {
        TimesZero(f, p);
      }
    }
  }

  lemma {:induction false} FreshOnce(a: Alloc, n: nat, w: seq<int>, p: int)
    requires Distinct(Listed(a, n, w)) && p in Fresh(a, n)
    ensures Times(Fresh(a, n), p) == 1
  {
    hide NewPage, Rest, After, Times, Distinct;
    var u, q := Listed(a, n - 1, w), NewPage(After(a, n - 1));
    FreshNext(a, n - 1);
    TimesJoin(Fresh(a, n - 1), [q], p);
    TimesOne(q, p);
    FirstApart(q, u);
    ListedMembers(a, n - 1, w, q);
    if p == q { TimesZero(Fresh(a, n - 1), p); } else { FreshOnce(a, n - 1, w, p); }
  }

  /** What a whole insertion comes to, root growth included: `r` below the old root, `r'` at the new. */
  ghost predicate Planned(x: bool, t: Tree, e: Entry, a: Alloc, full: bool, r: Ins, r': Ins, h': nat) {
    && (r'.Exists? <==> Has(x, Flat(t), e.name)) && (r'.NoSpace? ==> full && a.gc == []) && !r'.Overflow?
    && (!r.Overflow? ==> r' == r)
    && (r.Overflow? ==> r'.Done? && r'.taken == r.taken + 1
                        && r'.tree == Tree(NewPage(After(a, r.taken)), [r.median], [r.left, r.right]) &&
                           r.left.pos == t.pos)
    && (r.Done? ==> r.tree.pos == t.pos)
    && (r'.Done? ==> WellFormed(x, r'.tree, h') && Flat(r'.tree) == InsertSorted(x, Flat(t), e)
                     && Leftmost(r'.tree) == Leftmost(t))
    && (forall p :: Accounted(t, a, r', p) && Accounted(t, a, r, p))
  }

  lemma RootedAfterInsert(sure: bool, x: bool, d: Disk, d': Disk, root: int, gcHead: int, end: int, total: int,
                          t: Tree, h: nat, w: seq<int>, a: Alloc, e: Entry, full: bool, r: Ins, r': Ins, h': nat,
                          walkHead': int, gcHead': int, end': int)
    requires Rooted(x, d, root, gcHead, end, total, t, h, w, a.gc) && w != []
    requires Planned(x, t, e, a, full, r, r', h') && r'.Done?
    requires Lists(sure, d', walkHead', gcHead', end', Listed(a, r'.taken, w), After(a, r'.taken).gc)
    ensures Rooted(x, d', r'.tree.pos, gcHead', end', total + 1,
                   r'.tree, h', Listed(a, r'.taken, w), After(a, r'.taken).gc)
  {
    WholeListed(t, a, r', w);
    ListedTail(a, r'.taken, w);
  }

  lemma {:induction false} ListedTail(a: Alloc, n: nat, w: seq<int>)
    requires w != []
    ensures Listed(a, n, w) != [] && Tail(Listed(a, n, w)) == Tail(w)
  {
    if n > 0 {
      ListedTail(a, n - 1, w);
      TailPush(NewPage(After(a, n - 1)), Listed(a, n - 1, w));
    }
  }

  /** An insertion leaves the leftmost leaf where it is. */
  lemma {:induction false} InsertLeftmost(x: bool, t: Tree, h: nat, e: Entry, a: Alloc, full: bool)
    requires Shaped(t, h) && Sorted(x, Flat(t))
    ensures var r := Insert(x, t, h, e, a, full);
            && (r.Done? ==> Leftmost(r.tree) == Leftmost(t))
            && (r.Overflow? ==> Leftmost(r.left) == Leftmost(t))
    decreases h
  {
    hide Flat, Sorted, Uses;
    var p := Locate(x, t.entries, e.name);
    if h > 0 && p.Miss? {
      DescendSplits(x, t, e.name);
      InsertLeftmost(x, t.kids[p.at], h - 1, e, a, full);
      LiftLeftmost(t, h, p.at, Insert(x, t.kids[p.at], h - 1, e, a, full), a);
    }
  }

  lemma LiftLeftmost(t: Tree, h: nat, s: nat, r: Ins, a: Alloc)
    requires h > 0 && Shaped(t, h) && s <= |t.entries| <= MAX_ENTRIES
    requires r.Done? ==> Leftmost(r.tree) == Leftmost(t.kids[s])
    requires r.Overflow? ==> Leftmost(r.left) == Leftmost(t.kids[s])
    ensures var r' := Lift(t, s, r, a);
            && (r'.Done? ==> Leftmost(r'.tree) == Leftmost(t))
            && (r'.Overflow? ==> Leftmost(r'.left) == Leftmost(t))
  {
    hide Uses, Flat;
  }

  lemma Plan(sure: bool, x: bool, d: Disk, walkHead: int, gcHead: int, end: int, t: Tree, h: nat, e: Entry,
             full: bool, first: int, w: seq<int>, g: seq<int>) returns (r: Ins, b: Buf, r': Ins, h': nat)
    requires Holds(d, t) && WellFormed(x, t, h) && Lists(sure, d, walkHead, gcHead, end, w, g)
    requires forall p :: Uses(t, p) == if p in w then 1 else 0
    ensures Inserting(sure, x, d, walkHead, gcHead, end, t, h, e, full, first, w, g, r, b)
    ensures Planned(x, t, e, Alloc(g, end), full, r, r', h')
    ensures b == Buffer(x, t, h, e, Alloc(g, end), full, first)
    ensures r' == InsertRoot(x, t, h, e, Alloc(g, end), full) && h' == InsertRootHeight(x, t, h, e, Alloc(g, end), full)
  {
    var a := Alloc(g, end);
    r, b := Insert(x, t, h, e, a, full), Buffer(x, t, h, e, a, full, first);
    r', h' := InsertRoot(x, t, h, e, a, full), InsertRootHeight(x, t, h, e, a, full);
    PlanMeaning(x, t, h, e, a, full);
  }

  lemma PlanMeaning(x: bool, t: Tree, h: nat, e: Entry, a: Alloc, full: bool)
    requires WellFormed(x, t, h)
    ensures Planned(x, t, e, a, full, Insert(x, t, h, e, a, full), InsertRoot(x, t, h, e, a, full),
                    InsertRootHeight(x, t, h, e, a, full))
  {
    InsertSound(x, t, h, e, a, full);
    InsertRootSound(x, t, h, e, a, full);
    InsertLeftmost(x, t, h, e, a, full);
    forall p
      ensures Accounted(t, a, InsertRoot(x, t, h, e, a, full), p) && Accounted(t, a, Insert(x, t, h, e, a, full), p)
    {
      InsertAccounted(x, t, h, e, a, full, p);
      InsertRootAccounted(x, t, h, e, a, full, p);
    }
  }
}
