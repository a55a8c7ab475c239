/** The pages of a directory meta file: how they store a tree, and the two lists threaded through
    them, the doubly linked tree-walk list and the singly linked reclaim list. */
module DirPages {
  import opened DirNames
  import opened DirTree
  import opened DirInsert

  /** One DIR_ENTRY_PAGE; `children` are the `|entries| + 1` used child positions, all 0 in a leaf. */
  datatype Page = Page(
    pos: int,
    entries: seq<Entry>,
    children: seq<int>,
    gcNext: int,
    walkNext: int,
    walkPrev: int)

  type Disk = map<int, Page>

  predicate SameBody(a: Page, b: Page) {
    a.pos == b.pos && a.entries == b.entries && a.children == b.children
  }

  predicate SameLinks(a: Page, b: Page) {
    a.gcNext == b.gcNext && a.walkNext == b.walkNext && a.walkPrev == b.walkPrev
  }

  function ChildPos(t: Tree): (s: seq<int>)
    ensures |s| == if t.kids == [] then |t.entries| + 1 else |t.kids|
  {
    if t.kids == [] then seq(|t.entries| + 1, _ => 0) else seq(|t.kids|, i requires 0 <= i < |t.kids| => t.kids[i].pos)
  }

  predicate Stores(p: Page, t: Tree) {
    p.pos == t.pos && p.entries == t.entries && p.children == ChildPos(t)
  }

  /** The file holds the tree: every page is where its parent says it is, with these contents. */
  ghost predicate Holds(d: Disk, t: Tree) {
    && t.pos in d && t.pos != 0 && Stores(d[t.pos], t)
    && forall i :: 0 <= i < |t.kids| ==> Holds(d, t.kids[i])
  }

  /** No page occurs twice. */
  ghost predicate Single(t: Tree) {
    forall p :: Uses(t, p) <= 1
  }

  lemma UsesKid(t: Tree, i: nat, p: int)
    requires i < |t.kids|
    ensures Uses(t.kids[i], p) <= UsesOf(t.kids, p)
    ensures Uses(t, p) == (if t.pos == p then 1 else 0) + UsesOf(t.kids, p)
  {
    UsesAround(t.kids, i, p);
  }

  lemma UsesTwo(t: Tree, i: nat, j: nat, p: int)
    requires i < j < |t.kids|
    ensures Uses(t.kids[i], p) + Uses(t.kids[j], p) <= UsesOf(t.kids, p)
  {
    UsesAround(t.kids, i, p);
    UsesAround(t.kids[i + 1..], j - i - 1, p);
  }

  /** In a tree without repeated pages, kids share no page with each other or with the node. */
  lemma KidsApart(t: Tree, i: nat)
    requires i < |t.kids| && Single(t)
    ensures Single(t.kids[i]) && Uses(t.kids[i], t.pos) == 0
    ensures forall j, p :: 0 <= j < |t.kids| && j != i && Uses(t.kids[i], p) > 0 ==> Uses(t.kids[j], p) == 0
  {
    forall p ensures Uses(t.kids[i], p) <= 1 && (p == t.pos ==> Uses(t.kids[i], p) == 0) {
      UsesKid(t, i, p);
      assert Uses(t, p) <= 1;
    }
    forall j, p | 0 <= j < |t.kids| && j != i && Uses(t.kids[i], p) > 0 ensures Uses(t.kids[j], p) == 0 {
      UsesKid(t, i, p);
      if i < j { UsesTwo(t, i, j, p); } else { UsesTwo(t, j, i, p); }
      assert Uses(t, p) <= 1;
    }
  }

  lemma UsesSelf(t: Tree)
    ensures Uses(t, t.pos) > 0
  {
  }

  /** Whether a tree is held depends on the bodies of its own pages only. */
  lemma {:induction false} HoldsFrame(d: Disk, d': Disk, t: Tree)
    requires forall p :: Uses(t, p) > 0 ==> (p in d <==> p in d') && (p in d && p in d' ==> SameBody(d[p], d'[p]))
    ensures Holds(d, t) <==> Holds(d', t)
    decreases t
  {
    UsesSelf(t);
    forall i | 0 <= i < |t.kids| ensures Holds(d, t.kids[i]) <==> Holds(d', t.kids[i]) {
      forall p | Uses(t.kids[i], p) > 0 ensures Uses(t, p) > 0 { UsesKid(t, i, p); }
      HoldsFrame(d, d', t.kids[i]);
    }
  }

  // ----- the two lists

  function At(w: seq<int>, i: int): int {
    if 0 <= i < |w| then w[i] else 0
  }

  ghost predicate Distinct(w: seq<int>) {
    forall i, j :: 0 <= i < j < |w| ==> w[i] != w[j]
  }

  ghost predicate Linked(d: Disk, w: seq<int>, i: int) {
    && 0 <= i < |w| && w[i] in d && w[i] != 0
    && d[w[i]].walkNext == At(w, i + 1) && d[w[i]].walkPrev == At(w, i - 1)
  }

  /** The doubly linked tree-walk list is `w`. */
  ghost predicate Walk(d: Disk, head: int, w: seq<int>) {
    && head == At(w, 0)
    && forall i :: 0 <= i < |w| ==> Linked(d, w, i)
  }

  ghost predicate Chained(d: Disk, g: seq<int>, i: int) {
    0 <= i < |g| && g[i] in d && g[i] != 0 && d[g[i]].gcNext == At(g, i + 1)
  }

  /** The reclaim list is `g`. */
  ghost predicate Gc(d: Disk, head: int, g: seq<int>) {
    && head == At(g, 0)
    && forall i :: 0 <= i < |g| ==> Chained(d, g, i)
  }

  /** Pages do not overlap. */
  ghost predicate Spaced(d: Disk) {
    forall p, q :: p in d && q in d && p < q ==> p + PAGE_SIZE <= q
  }

  /** The allocated pages are split between the pages of `w` and the reclaim list `g`. */
  ghost predicate Parts(d: Disk, gcHead: int, end: int, w: seq<int>, g: seq<int>) {
    && Gc(d, gcHead, g)
    && Distinct(w) && Distinct(g)
    && (forall p :: p in d <==> p in w || p in g)
    && (forall p :: p in w ==> p !in g)
    && (forall p :: p in d ==> 0 < p && p + PAGE_SIZE <= end && d[p].pos == p)
    && 0 < end && Spaced(d)
  }

  lemma ListedIn(d: Disk, gcHead: int, end: int, w: seq<int>, g: seq<int>, p: int)
    requires Parts(d, gcHead, end, w, g) && p in w
    ensures p in d && p > 0
  {
  }

  function Tail(w: seq<int>): int {
    At(w, |w| - 1)
  }

  /** The walk links of page `p` lead to pages of the file, and onwards unless `p` is `tail`. */
  ghost predicate LinkSafe(d: Disk, tail: int, p: int) {
    && p in d
    && (d[p].walkNext in d || (d[p].walkNext == 0 && p == tail))
    && (d[p].walkPrev in d || d[p].walkPrev == 0)
  }

  /** What the routines need of the walk links, whether or not these still form a list. */
  ghost predicate Safe(d: Disk, walkHead: int, w: seq<int>) {
    w != [] && walkHead in d && forall p :: p in w ==> LinkSafe(d, Tail(w), p)
  }

  /** The pages are split soundly and no link leads outside the file; when `sure`, the walk links also
      form the list `w`. */
  ghost predicate Lists(sure: bool, d: Disk, walkHead: int, gcHead: int, end: int, w: seq<int>, g: seq<int>) {
    Safe(d, walkHead, w) && Parts(d, gcHead, end, w, g) && (sure ==> Walk(d, walkHead, w))
  }

  /** A sound walk list has safe links. */
  lemma WalkSafe(d: Disk, head: int, w: seq<int>)
    requires Walk(d, head, w) && w != [] && Distinct(w)
    ensures Safe(d, head, w)
  {
    assert Linked(d, w, 0);
    forall p | p in w ensures LinkSafe(d, Tail(w), p) {
      var k :| 0 <= k < |w| && w[k] == p;
      assert Linked(d, w, k);
      if k + 1 < |w| { assert Linked(d, w, k + 1); }
      if k > 0 { assert Linked(d, w, k - 1); }
    }
  }

  /** The position of the leftmost leaf: the one page that is never dropped. */
  function Leftmost(t: Tree): int {
    if t.kids == [] then t.pos else Leftmost(t.kids[0])
  }

  lemma {:induction false} LeftmostUsed(t: Tree)
    ensures Uses(t, Leftmost(t)) > 0
  {
    if t.kids != [] {
      LeftmostUsed(t.kids[0]);
      UsesKid(t, 0, Leftmost(t));
    }
  }

  /** Everything but page bodies and walk links: a well-formed tree of distinct pages, namely those of
      `w` with the leftmost leaf last, all other pages on the reclaim list, and the right entry count. */
  ghost predicate Rooted(x: bool, d: Disk, root: int, gcHead: int, end: int, total: int,
                         t: Tree, h: nat, w: seq<int>, g: seq<int>)
  {
    && root == t.pos && WellFormed(x, t, h) && total == |Flat(t)|
    && Parts(d, gcHead, end, w, g)
    && (forall p :: Uses(t, p) == if p in w then 1 else 0)
    && Tail(w) == Leftmost(t)
  }

  /** The same with safe walk links: everything but page bodies. */
  ghost predicate Frame(x: bool, d: Disk, root: int, walkHead: int, gcHead: int, end: int, total: int,
                        t: Tree, h: nat, w: seq<int>, g: seq<int>)
  {
    Safe(d, walkHead, w) && Rooted(x, d, root, gcHead, end, total, t, h, w, g)
  }

  /** Linking page `q` in front of the walk list. */
  lemma WalkPush(d: Disk, d': Disk, w: seq<int>, q: int)
    requires w != [] && Walk(d, w[0], w) && Distinct(w) && q !in w && q != 0
    requires forall j :: 0 <= j < |w| ==>
               && w[j] in d && w[j] in d' && d'[w[j]].walkNext == d[w[j]].walkNext
               && d'[w[j]].walkPrev == (if j == 0 then q else d[w[j]].walkPrev)
    requires q in d' && d'[q].walkNext == w[0] && d'[q].walkPrev == 0
    ensures Walk(d', q, [q] + w) && Distinct([q] + w)
  {
    var v := [q] + w;
    forall i | 0 <= i < |v| ensures Linked(d', v, i) {
      if i > 0 { assert v[i] == w[i - 1] && w[i - 1] in w && Linked(d, w, i - 1); }
    }
  }

  lemma TailPush(q: int, w: seq<int>)
    requires w != []
    ensures Tail([q] + w) == Tail(w)
  {
  }

  lemma SafePush(d: Disk, d': Disk, head: int, w: seq<int>, q: int)
    requires Safe(d, head, w) && q !in w && (forall p :: p in d ==> p in d')
    requires forall p :: p in w && p in d ==>
               && d'[p].walkNext == d[p].walkNext && d'[p].walkPrev == (if p == head then q else d[p].walkPrev)
    requires q in d' && d'[q].walkNext == head && d'[q].walkPrev == 0
    ensures Safe(d', q, [q] + w)
  {
    TailPush(q, w);
    forall p | p in [q] + w ensures LinkSafe(d', Tail([q] + w), p) {
      if p != q { assert LinkSafe(d, Tail(w), p); }
    }
  }

  lemma PartsPush(d: Disk, d': Disk, gcHead: int, end: int, w: seq<int>, g: seq<int>)
    requires Parts(d, gcHead, end, w, g)
    requires var q := NewPage(Alloc(g, end));
             && (forall p :: p in d' <==> p in d || p == q) && (forall p :: p in d' ==> d'[p].pos == p)
             && (forall p :: p in d && p in g && p != q ==> p in d' && d'[p].gcNext == d[p].gcNext)
    ensures var a := Alloc(g, end);
            var q, a' := NewPage(a), Rest(a);
            q !in w && q != 0 && Parts(d', At(a'.gc, 0), a'.end, [q] + w, a'.gc)
  {
    var a := Alloc(g, end);
    var q, a' := NewPage(a), Rest(a);
    assert q !in w && 0 < q && q + PAGE_SIZE <= a'.end by {
      if g != [] { assert Chained(d, g, 0) && q in g && q in d; }
    }
    assert Distinct([q] + w);
    forall i | 0 <= i < |a'.gc| ensures Chained(d', a'.gc, i) {
      assert Chained(d, g, i + 1) && a'.gc[i] == g[i + 1] && g[0] != g[i + 1] && g[i + 1] in g;
    }
    forall p ensures p in a'.gc <==> p in g && p != q {
      if p in g && p != q {
        var i :| 0 <= i < |g| && g[i] == p;
        assert a'.gc[i - 1] == p;
      }
      if p in a'.gc {
        var i :| 0 <= i < |a'.gc| && a'.gc[i] == p;
        assert g[i + 1] == p;
      }
    }
  }

  /** A page taken from the allocator and linked in front of the walk list keeps the lists sound. */
  lemma ListsPush(sure: bool, d: Disk, d': Disk, head: int, gcHead: int, end: int, w: seq<int>, g: seq<int>)
    requires Lists(sure, d, head, gcHead, end, w, g)
    requires var q := NewPage(Alloc(g, end));
             && (forall p :: p in d' <==> p in d || p == q) && (forall p :: p in d' ==> d'[p].pos == p)
             && (forall p :: p in w && p in d ==>
                   && d'[p].walkNext == d[p].walkNext && d'[p].walkPrev == (if p == head then q else d[p].walkPrev))
             && d'[q].walkNext == head && d'[q].walkPrev == 0
             && (forall p :: p in d && p in g && p != q ==> p in d' && d'[p].gcNext == d[p].gcNext)
    ensures var a := Alloc(g, end);
            var q, a' := NewPage(a), Rest(a);
            Lists(sure, d', q, At(a'.gc, 0), a'.end, [q] + w, a'.gc)
  {
    hide Spaced;
    var q := NewPage(Alloc(g, end));
    PartsPush(d, d', gcHead, end, w, g);
    SafePush(d, d', head, w, q);
    if sure {
      forall j | 0 <= j < |w|
        ensures w[j] in d && w[j] in d' && d'[w[j]].walkNext == d[w[j]].walkNext
        ensures d'[w[j]].walkPrev == (if j == 0 then q else d[w[j]].walkPrev)
      {
        assert Linked(d, w, j) && w[j] in w;
      }
      WalkPush(d, d', w, q);
    }
  }

  /** The file after page `tnode` was rewritten and `newpage` linked in front of the walk list. */
  function Spliced(d: Disk, head: int, tnode: Page, newpage: Page): Disk
    requires head in d
  {
    var d1 := if head == tnode.pos then d[tnode.pos := tnode.(walkPrev := newpage.pos)]
              else d[head := d[head].(walkPrev := newpage.pos)][tnode.pos := tnode];
    d1[newpage.pos := newpage]
  }

  /** The same file when the new page is written before the page it was split from. */
  lemma SplicedLater(d: Disk, head: int, tnode: Page, newpage: Page)
    requires head in d && tnode.pos != newpage.pos
    ensures Spliced(d, head, tnode, newpage) ==
            if head == tnode.pos then d[newpage.pos := newpage][tnode.pos := tnode.(walkPrev := newpage.pos)]
            else d[head := d[head].(walkPrev := newpage.pos)][newpage.pos := newpage][tnode.pos := tnode]
  {
  }

  lemma SplicedLists(sure: bool, d: Disk, head: int, tnode: Page, newpage: Page, gcHead: int, end: int, w: seq<int>,
                     g: seq<int>)
    requires Lists(sure, d, head, gcHead, end, w, g) && tnode.pos in w && tnode.pos in d && head in d
    requires tnode.walkNext == d[tnode.pos].walkNext && tnode.walkPrev == d[tnode.pos].walkPrev
    requires newpage.pos == NewPage(Alloc(g, end)) && newpage.walkNext == head && newpage.walkPrev == 0
    ensures var a := Alloc(g, end);
            var d' := Spliced(d, head, tnode, newpage);
            && Lists(sure, d', newpage.pos, At(Rest(a).gc, 0), Rest(a).end, [newpage.pos] + w, Rest(a).gc)
            && d'[newpage.pos] == newpage && newpage.pos != tnode.pos && SameBody(d'[tnode.pos], tnode)
            && (forall p :: p in d && p != tnode.pos && p != newpage.pos ==> SameBody(d'[p], d[p]))
            && (forall p :: p in d' <==> p in d || p == newpage.pos)
  {
    hide Spaced, Safe, Walk, Gc;
    var q, d' := newpage.pos, Spliced(d, head, tnode, newpage);
    assert q !in w by {
      if g != [] { assert q in g; }
    }
    ListsPush(sure, d, d', head, gcHead, end, w, g);
  }

  function Drop(w: seq<int>, k: nat): seq<int>
    requires k < |w|
  {
    w[..k] + w[k + 1..]
  }

  lemma DropMembers(w: seq<int>, k: nat)
    requires k < |w| && Distinct(w)
    ensures Distinct(Drop(w, k))
    ensures forall p :: p in Drop(w, k) <==> p in w && p != w[k]
  {
    var v := Drop(w, k);
    forall p | p in w && p != w[k] ensures p in v {
      var j :| 0 <= j < |w| && w[j] == p;
      assert v[if j < k then j else j - 1] == p;
    }
  }

  /** The neighbours of the page at index `k` of the walk list point past it; no other link changed. */
  ghost predicate Unlinked(d: Disk, d': Disk, w: seq<int>, k: nat)
  {
    && k < |w| && w[k] in d
    && forall j :: 0 <= j < |w| && j != k ==>
      && w[j] in d && w[j] in d'
      && d'[w[j]].walkNext == (if j == k - 1 then d[w[k]].walkNext else d[w[j]].walkNext)
      && d'[w[j]].walkPrev == (if j == k + 1 then d[w[k]].walkPrev else d[w[j]].walkPrev)
  }

  lemma WalkDrop(d: Disk, d': Disk, w: seq<int>, k: nat)
    requires k < |w| && Walk(d, At(w, 0), w) && Distinct(w) && Unlinked(d, d', w, k)
    ensures Walk(d', if k == 0 then d[w[0]].walkNext else w[0], Drop(w, k))
  {
    var v := Drop(w, k);
    assert Linked(d, w, k) && Linked(d, w, 0);
    forall i | 0 <= i < |v| ensures Linked(d', v, i) {
      var j := if i < k then i else i + 1;
      assert v[i] == w[j] && Linked(d, w, j);
    }
  }

  /** Rewriting a page of the file with links that lead to pages of the file. */
  lemma SafeRewrite(d: Disk, walkHead: int, w: seq<int>, page: Page)
    requires Safe(d, walkHead, w) && page.pos in d
    requires page.walkNext in d || (page.walkNext == 0 && page.pos == Tail(w))
    requires page.walkPrev in d || page.walkPrev == 0
    ensures Safe(d[page.pos := page], walkHead, w)
  {
    var d' := d[page.pos := page];
    forall p | p in w ensures LinkSafe(d', Tail(w), p) { assert LinkSafe(d, Tail(w), p); }
  }

  /** Rewriting a page without touching its links keeps the lists. */
  lemma ListsRewrite(sure: bool, d: Disk, walkHead: int, gcHead: int, end: int, w: seq<int>, g: seq<int>, page: Page)
    requires Lists(sure, d, walkHead, gcHead, end, w, g) && page.pos in d
    requires page.walkNext == d[page.pos].walkNext && page.walkPrev == d[page.pos].walkPrev
    requires page.gcNext == d[page.pos].gcNext
    ensures Lists(sure, d[page.pos := page], walkHead, gcHead, end, w, g)
  {
    var d' := d[page.pos := page];
    forall p | p in w ensures LinkSafe(d', Tail(w), p) { assert LinkSafe(d, Tail(w), p); }
    if sure {
      forall i | 0 <= i < |w| ensures Linked(d', w, i) { assert Linked(d, w, i); }
    }
    forall i | 0 <= i < |g| ensures Chained(d', g, i) { assert Chained(d, g, i); }
  }

  // ----- changing one subtree of a held tree

  /** The file changed only inside kid `s` of `t`, as far as page bodies go. */
  ghost predicate ChangedBelow(d: Disk, d': Disk, t: Tree, s: nat) {
    && s < |t.kids|
    && forall p :: p in d && Uses(t, p) > 0 && Uses(t.kids[s], p) == 0 ==> p in d' && SameBody(d'[p], d[p])
  }

  lemma OthersHeld(d: Disk, d': Disk, t: Tree, s: nat)
    requires Holds(d, t) && Single(t) && ChangedBelow(d, d', t, s)
    ensures t.pos in d' && Stores(d'[t.pos], t)
    ensures forall j :: 0 <= j < |t.kids| && j != s ==> Holds(d', t.kids[j])
  {
    KidsApart(t, s);
    forall j | 0 <= j < |t.kids| && j != s ensures Holds(d', t.kids[j]) {
      assert Holds(d, t.kids[j]);
      forall p | Uses(t.kids[j], p) > 0 ensures p in d && Uses(t.kids[s], p) == 0 && Uses(t, p) > 0 {
        HeldIn(d, t.kids[j], p);
        UsesKid(t, j, p);
      }
      HoldsFrame(d, d', t.kids[j]);
    }
  }

  lemma {:induction false} HeldIn(d: Disk, t: Tree, p: int)
    requires Holds(d, t) && Uses(t, p) > 0
    ensures p in d
    decreases t
  {
    if p != t.pos { HeldInKids(d, t.kids, p); }
  }

  lemma {:induction false} HeldInKids(d: Disk, ks: seq<Tree>, p: int)
    requires (forall i :: 0 <= i < |ks| ==> Holds(d, ks[i])) && UsesOf(ks, p) > 0
    ensures p in d
    decreases ks
  {
    if Uses(ks[0], p) > 0 { HeldIn(d, ks[0], p); } else { HeldInKids(d, ks[1..], p); }
  }

  lemma ReplacedHeld(d: Disk, d': Disk, t: Tree, s: nat, k: Tree)
    requires Holds(d, t) && Single(t) && ChangedBelow(d, d', t, s) && k.pos == t.kids[s].pos
    ensures Holds(d', t.(kids := t.kids[s := k])) <==> Holds(d', k)
  {
    OthersHeld(d, d', t, s);
    var t' := t.(kids := t.kids[s := k]);
    assert ChildPos(t') == ChildPos(t);
    assert t'.kids[s] == k;
    assert forall j :: 0 <= j < |t.kids| && j != s ==> t'.kids[j] == t.kids[j];
  }

  /** A tree is not touched by writing a page it does not use. */
  lemma WriteElsewhere(d: Disk, p: int, page: Page, t: Tree)
    requires Uses(t, p) == 0
    ensures Holds(d[p := page], t) <==> Holds(d, t)
  {
    HoldsFrame(d, d[p := page], t);
  }

  lemma {:induction false} TimesZero(s: seq<int>, p: int)
    requires p !in s
    ensures Times(s, p) == 0
  {
    if s != [] { TimesZero(s[1..], p); }
  }

  lemma {:induction false} TimesSome(s: seq<int>, p: int)
    requires Times(s, p) > 0
    ensures p in s
  {
    if s[0] != p { TimesSome(s[1..], p); }
  }

  /** The walk list after the first `n` pages of the allocator were linked in front, one by one. */
  function Listed(a: Alloc, n: nat, w: seq<int>): seq<int> {
    if n == 0 then w else [NewPage(After(a, n - 1))] + Listed(a, n - 1, w)
  }

  lemma {:induction false} ListedMembers(a: Alloc, n: nat, w: seq<int>, p: int)
    ensures p in Listed(a, n, w) <==> p in w || p in Fresh(a, n)
  {
    if n > 0 {
      ListedMembers(a, n - 1, w, p);
      FreshNext(a, n - 1);
    }
  }

  /** If the longer list has no repetition, the new pages are not among the old. */
  lemma FirstApart(q: int, w: seq<int>)
    requires Distinct([q] + w)
    ensures q !in w && Distinct(w)
  {
    var v := [q] + w;
    forall i | 0 <= i < |w| ensures v[i + 1] == w[i] && w[i] != q { assert v[0] == q; }
    forall i, j | 0 <= i < j < |w| ensures w[i] != w[j] { assert v[i + 1] != v[j + 1]; }
  }

  lemma {:induction false} ListedApart(a: Alloc, n: nat, w: seq<int>, p: int)
    requires Distinct(Listed(a, n, w)) && p in w
    ensures p !in Fresh(a, n)
  {
    hide NewPage, Rest, After, Fresh, Distinct;
    if n == 0 {
      assert |Fresh(a, n)| == 0;
    } else {
      FirstApart(NewPage(After(a, n - 1)), Listed(a, n - 1, w));
      ListedApart(a, n - 1, w, p);
      ListedMembers(a, n - 1, w, p);
      FreshNext(a, n - 1);
    }
  }
}
