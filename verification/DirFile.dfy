/** The directory meta file: the B-tree routines working page by page. */
module DirFile {
  import opened DirNames
  import opened DirTree
  import opened DirInsert
  import opened DirPages
  import opened DirInsertPages
  import opened DirDelete
  import opened DirDeletePages
  import opened DirListing
  import opened DirStale
  import opened DirHistory

  const ENOENT: int := 2

  /** `dentry_binary_search`: the index of the name, or -1 and where it belongs. */
  method BinarySearch(x: bool, entries: seq<Entry>, name: string) returns (found: int, insertAt: nat)
    requires Sorted(x, entries)
    ensures found >= 0 ==> Locate(x, entries, name) == Hit(found)
    ensures found < 0 ==> found == -1 && Locate(x, entries, name) == Miss(insertAt)
  {
    insertAt := 0;
    if |entries| < 1 { return -1, 0; }
    var start, stop := 0, |entries|;
    while stop > start
      invariant 0 <= start <= stop <= |entries|
      invariant Below(x, entries[..start], name) && Above(x, entries[stop..], name)
    {
      var mid := if stop == start + 1 then start else (stop + start) / 2;
      var c := Compare(x, name, entries[mid].name);
      OrderLaws(x, name, entries[mid].name, name);
      OrderLaws(x, entries[mid].name, name, name);
      if c == 0 {
        HitAt(x, entries, name, mid);
        return mid, 0;
      }
      if c < 0 {
        forall j | 0 <= j < |entries| - mid ensures Lt(x, name, entries[mid..][j].name) {
          OrderLaws(x, name, entries[mid].name, entries[mid + j].name);
        }
        stop := mid;
      } else {
        var front := entries[..mid + 1];
        forall j | 0 <= j < |front| ensures Lt(x, front[j].name, name) {
          OrderLaws(x, entries[j].name, entries[mid].name, name);
        }
        start := mid + 1;
      }
    }
    MissAt(x, entries, name, start);
    return -1, start;
  }

  lemma HitAt(x: bool, es: seq<Entry>, name: string, i: nat)
    requires Sorted(x, es) && i < |es| && Same(x, es[i].name, name)
    ensures Locate(x, es, name) == Hit(i)
  {
    LocateSplits(x, es, name);
    assert Has(x, es, name);
    var p := Locate(x, es, name).at;
    if p != i { LtNotSame(x, es, p, i); }
  }

  lemma MissAt(x: bool, es: seq<Entry>, name: string, i: nat)
    requires Sorted(x, es) && i <= |es| && Below(x, es[..i], name) && Above(x, es[i..], name)
    ensures Locate(x, es, name) == Miss(i)
  {
    if i < |es| {
      assert Lt(x, name, es[i..][0].name);
      OrderLaws(x, es[i].name, name, name);
      OrderLaws(x, name, es[i].name, name);
    }
    assert forall k :: 0 <= k < i ==> es[..i][k] == es[k];
    SlotUnique(x, es, name, i);
  }

  lemma HoldsKid(d: Disk, t: Tree, h: nat, i: nat)
    requires Holds(d, t) && Shaped(t, h) && i <= |t.entries|
    ensures |d[t.pos].children| == |t.entries| + 1
    ensures h == 0 ==> d[t.pos].children[i] == 0
    ensures h > 0 ==> d[t.pos].children[i] == t.kids[i].pos != 0 && Holds(d, t.kids[i])
  {
    assert Stores(d[t.pos], t);
    if h > 0 { assert Holds(d, t.kids[i]); }
  }

  class MetaFile {
    const external: bool
    var pages: Disk
    var root: int
    var gcHead: int
    var walkHead: int
    var end: int
    var total: int

    ghost var tree: Tree
    ghost var height: nat
    ghost var walk: seq<int>
    ghost var gc: seq<int>

    ghost predicate Framed()
      reads this
    {
      Frame(external, pages, root, walkHead, gcHead, end, total, tree, height, walk, gc)
    }

    /** The pages hold the tree; the walk links are safe, no more. */
    ghost predicate Stored()
      reads this
    {
      Framed() && Holds(pages, tree)
    }

    /** Some entry is spelled like the name. */
    ghost predicate Contains(name: string)
      reads this
    {
      exists i :: 0 <= i < |Flat(tree)| && SpelledAlike(external, Flat(tree)[i].name, name)
    }

    /** The walk list runs through exactly the pages of the tree. */
    ghost predicate Walkable()
      reads this
    {
      Walk(pages, walkHead, walk)
    }

    ghost function View(): State
      reads this
    {
      State(tree, height, Alloc(gc, end), walk)
    }

    /** A sound directory file. */
    ghost predicate Valid()
      reads this
    {
      Stored() && Walkable()
    }

    /** A new directory: one empty root page right after the header. */
    constructor (external: bool, header: int)
      requires header > 0
      ensures Valid() && this.external == external && Flat(tree) == []
      ensures View() == State(Tree(header, [], []), 0, Alloc([], header + PAGE_SIZE), [header])
    {
      this.external := external;
      pages := map[header := Page(header, [], [0], 0, 0, 0)];
      root, gcHead, walkHead, end, total := header, 0, header, header + PAGE_SIZE, 0;
      tree, height, walk, gc := Tree(header, [], []), 0, [header], [];
      new;
      EmptyFile(external, header);
    }

    /** `search_dir_entry_btree`: finds the name exactly when it is in the subtree. */
    method Search(name: string, tnode: Page, ghost t: Tree, ghost h: nat)
      returns (ret: int, node: Page)
      requires Holds(pages, t) && tnode == pages[t.pos]
      requires Shaped(t, h) && Sorted(external, Flat(t))
      ensures ret >= 0 <==> Has(external, Flat(t), name)
      ensures ret >= 0 ==>
                ret < |node.entries| && node.entries[ret] in Flat(t) && Same(external, node.entries[ret].name, name)
      ensures ret < 0 ==> ret == -ENOENT
      decreases h
    {
      hide Uses, Locate;
      NodeSorted(external, t, h, name);
      assert Stores(tnode, t);
      var found, at := BinarySearch(external, tnode.entries, name);
      if found >= 0 {
        EntryInFlat(t, h, found);
        return found, tnode;
      }
      HoldsKid(pages, t, h, at);
      if tnode.children[at] == 0 {
        LocateSplits(external, Flat(t), name);
        return -ENOENT, tnode;
      }
      HasBelow(external, t, name);
      WeaveAround(t.entries, t.kids, at);
      ret, node := Search(name, pages[tnode.children[at]], t.kids[at], h - 1);
    }

    /** Lines 258-316 of the insertion: the right half of an overflowing page moves to a page from
        the allocator, which is linked in front of the tree-walk list. */
    method SplitOff(ghost sure: bool, tnode: Page, entries: seq<Entry>, children: seq<int>, ghost w: seq<int>,
                    ghost g: seq<int>)
      returns (newPos: int)
      requires Lists(sure, pages, walkHead, gcHead, end, w, g) && tnode.pos in w
      requires tnode.walkNext == pages[tnode.pos].walkNext && tnode.walkPrev == pages[tnode.pos].walkPrev
      modifies `pages, `walkHead, `gcHead, `end
      ensures newPos == NewPage(Alloc(g, old(end)))
      ensures newPos == (if g != [] then g[0] else old(end)) && end == if g != [] then old(end) else newPos + PAGE_SIZE
      ensures Lists(sure, pages, walkHead, gcHead, end, [newPos] + w, Rest(Alloc(g, old(end))).gc)
      ensures end == Rest(Alloc(g, old(end))).end
      ensures newPos in pages && SameBody(pages[newPos], Page(newPos, entries, children, 0, 0, 0))
      ensures tnode.pos in pages && newPos != tnode.pos && SameBody(pages[tnode.pos], tnode)
      ensures forall p :: p in old(pages) && p != tnode.pos && p != newPos ==>
                p in pages && SameBody(pages[p], old(pages)[p])
      ensures forall p :: p in pages <==> p in old(pages) || p == newPos
    {
      ghost var d := pages;
      assert walkHead in d && tnode.pos in d;
      if g != [] { assert Chained(d, g, 0); }
      var newpage: Page;
      if gcHead != 0 {
        newpage := pages[gcHead].(pos := gcHead);
        gcHead := newpage.gcNext;
      } else {
        newpage := Page(end, [], [0], 0, 0, 0);
      }
      newpage := newpage.(gcNext := 0, walkNext := walkHead, walkPrev := 0);
      var left := tnode;
      if walkHead == tnode.pos {
        left := left.(walkPrev := newpage.pos);
      } else {
        pages := pages[walkHead := pages[walkHead].(walkPrev := newpage.pos)];
      }
      pages := pages[left.pos := left];
      walkHead := newpage.pos;
      newpage := newpage.(entries := entries, children := children);
      pages := pages[newpage.pos := newpage];
      if newpage.pos == end { end := end + PAGE_SIZE; }
      newPos := newpage.pos;
      assert pages == Spliced(d, old(walkHead), tnode, newpage);
      SplicedLists(sure, d, old(walkHead), tnode, newpage, old(gcHead), old(end), w, g);
    }

    /** `insert_dir_entry_btree` at a leaf. */
    method InsertAtLeaf(ghost sure: bool, e: Entry, node: Page, at: nat, full: bool,
                        ghost t: Tree, ghost w: seq<int>, ghost g: seq<int>, ghost a: Alloc, ghost r: Ins)
      returns (ret: int, median: Entry, newPos: int)
      requires Holds(pages, t) && node == pages[t.pos] && Shaped(t, 0) &&
               Locate(external, t.entries, e.name) == Miss(at)
      requires Lists(sure, pages, walkHead, gcHead, end, w, g) && t.pos in w
      requires a == Alloc(g, end) && r == DirInsert.Insert(external, t, 0, e, a, full)
      modifies `pages, `walkHead, `gcHead, `end
      ensures ret < 0 ==> unchanged(`pages, `walkHead, `gcHead, `end)
      ensures ret == Code(r) && (r.Overflow? ==> median == r.median && newPos == r.right.pos)
      ensures Inserted(sure, old(pages), pages, walkHead, gcHead, end, t, a, r, true, w)
    {
      hide DirInsert.Insert;
      assert Stores(node, t);
      var es := node.entries[..at] + [e] + node.entries[at..];
      LeafResult(external, t, e, a, full, at, es, r);
      median, newPos := e, 0;
      if |node.entries| < MAX_ENTRIES {
        pages := pages[node.pos := node.(entries := es, children := node.children + [0])];
        LeafHeld(old(pages), t, es);
        ListsRewrite(sure, old(pages), walkHead, gcHead, end, w, g, pages[node.pos]);
        return 0, median, newPos;
      }
      if g != [] { assert Chained(pages, g, 0); }
      if gcHead == 0 && full {
        return -ENOSPC, median, newPos;
      }
      median, newPos := SplitLeaf(sure, node, es, t, w, g, a, r);
      return 1, median, newPos;
    }

    method SplitLeaf(ghost sure: bool, node: Page, es: seq<Entry>, ghost t: Tree, ghost w: seq<int>, ghost g: seq<int>,
                     ghost a: Alloc, ghost r: Ins)
      returns (median: Entry, newPos: int)
      requires Holds(pages, t) && node == pages[t.pos] && t.kids == [] && |es| == MAX_ENTRIES + 1 == |t.entries| + 1
      requires Lists(sure, pages, walkHead, gcHead, end, w, g) && t.pos in w
      requires a == Alloc(g, end) && r == Split(t.pos, es, [], NewPage(a), 1)
      modifies `pages, `walkHead, `gcHead, `end
      ensures median == r.median && newPos == r.right.pos
      ensures Inserted(sure, old(pages), pages, walkHead, gcHead, end, t, a, r, true, w)
    {
      hide Inserted, Flat, Spaced, Safe, Walk, Gc;
      var m := |es| / 2;
      median := es[m];
      newPos := SplitOff(sure, node.(entries := es[..m], children := node.children[..m + 1]), es[m + 1..],
                         seq(|es| - m, _ => 0), w, g);
      assert newPos != 0 by { assert newPos in [newPos] + w; }
      LeafSplitHeld(old(pages), pages, t, es, newPos);
      UsesSelf(t);
      InsertedFrom(sure, old(pages), pages, walkHead, gcHead, end, t, a, 0, r, true, w);
    }

    /** Lines 335-461: the median and the new page of an overflowing kid join this page, which may
        split in turn. */
    method JoinSplit(ghost sure: bool, pos: int, at: nat, kidMedian: Entry, kidPos: int, first: int, ghost d: Disk,
                     ghost t: Tree, ghost h: nat, ghost a: Alloc, ghost r: Ins, ghost sound: bool, ghost w: seq<int>,
                     ghost r': Ins)
      returns (ret: int, median: Entry, newPos: int, first': int)
      requires Joining(sure, d, pages, walkHead, gcHead, end, t, h, at, a, r, sound, w)
      requires r.median == kidMedian && r.right.pos == kidPos && pos == t.pos && r' == Lift(t, at, r, a)
      modifies `pages, `walkHead, `gcHead, `end
      ensures root == old(root) && ret == Code(r') >= 0
      ensures Inserted(sure, d, pages, walkHead, gcHead, end, t, a, r',
                       sound && (r'.Done? || at > 0 || first == t.kids[0].pos), w)
      ensures r'.Overflow? ==> median == r'.median && newPos == r'.right.pos
                               && first' == if at > 0 then t.kids[0].pos else first
    {
      hide Flat, Uses, Weave, Spaced, Safe, Walk, Gc, Distinct, Single;
      JoiningNode(sure, d, pages, walkHead, gcHead, end, t, h, at, a, r, sound, w);
      var tnode := pages[pos];
      var es := tnode.entries[..at] + [kidMedian] + tnode.entries[at..];
      if |tnode.entries| < MAX_ENTRIES {
        var page := tnode.(entries := es, children := WideChildren(tnode.children, at, kidPos));
        JoinWide(sure, d, pages, walkHead, gcHead, end, t, h, at, a, r, sound, w, page);
        pages := pages[pos := page];
        return 0, kidMedian, kidPos, if at < |tnode.entries| then tnode.children[at + 1] else first;
      }
      ret, median, newPos, first' := SplitFull(sure, tnode, at, kidMedian, kidPos, first, d, t, h, a, r, sound, w, r');
    }

    /** Lines 373-461: a full internal page splits, its child positions going through the buffer. */
    method SplitFull(ghost sure: bool, tnode: Page, at: nat, kidMedian: Entry, kidPos: int, first: int, ghost d: Disk,
                     ghost t: Tree, ghost h: nat, ghost a: Alloc, ghost r: Ins, ghost sound: bool, ghost w: seq<int>,
                     ghost r': Ins)
      returns (ret: int, median: Entry, newPos: int, first': int)
      requires Joining(sure, d, pages, walkHead, gcHead, end, t, h, at, a, r, sound, w) && |t.entries| == MAX_ENTRIES
      requires t.pos in pages && tnode == pages[t.pos] && Stores(tnode, t) && t.pos in Listed(a, r.taken, w)
      requires r.median == kidMedian && r.right.pos == kidPos && r' == Lift(t, at, r, a)
      modifies `pages, `walkHead, `gcHead, `end
      ensures ret == 1
      ensures Inserted(sure, d, pages, walkHead, gcHead, end, t, a, r', sound && (at > 0 || first == t.kids[0].pos), w)
      ensures median == r'.median && newPos == r'.right.pos && first' == if at > 0 then t.kids[0].pos else first
    {
      hide Lift, Flat, Uses, Weave, Spaced, Safe, Walk, Gc;
      var es := tnode.entries[..at] + [kidMedian] + tnode.entries[at..];
      var buffer := BufferedChildren(tnode.children, at, kidPos, first);
      var m := |es| / 2;
      newPos := SplitOff(sure, tnode.(entries := es[..m], children := buffer[..m + 1]), es[m + 1..], buffer[m + 1..],
                         Listed(a, r.taken, w), After(a, r.taken).gc);
      ret, median, first' := 1, es[m], buffer[0];
      SplitWrote(old(pages), pages, tnode, t, at, r, newPos, first);
      LiftFull(t, at, r, a, r');
      JoinFull(sure, d, old(pages), old(walkHead), old(gcHead), old(end), t, h, at, a, r, sound, w,
               first, pages, walkHead, gcHead, end, r');
    }

    /** `insert_dir_entry_btree`: the tree insertion, carried out page by page. The outcome is held in
        the file if and only if no split was left with a stale first child position. */
    method Insert(ghost sure: bool, e: Entry, node: Page, first: int, full: bool, ghost t: Tree, ghost h: nat,
                  ghost w: seq<int>, ghost g: seq<int>, ghost r: Ins, ghost b: Buf)
      returns (ret: int, median: Entry, newPos: int, first': int)
      requires Inserting(sure, external, pages, walkHead, gcHead, end, t, h, e, full, first, w, g, r, b)
      requires node == pages[t.pos]
      modifies `pages, `walkHead, `gcHead, `end
      ensures ret < 0 ==> unchanged(`pages, `walkHead, `gcHead, `end)
      ensures ret == Code(r)
      ensures r.Overflow? ==> median == r.median && newPos == r.right.pos && first' == b.first
      ensures Inserted(sure, old(pages), pages, walkHead, gcHead, end, t, Alloc(g, old(end)), r, b.sound, w)
      decreases h, 1
    {
      median, newPos, first' := e, 0, first;
      NodeSorted(external, t, h, e.name);
      var found, at := BinarySearch(external, node.entries, e.name);
      if found >= 0 { return -EEXIST, median, newPos, first'; }
      HoldsKid(pages, t, h, at);
      if node.children[at] == 0 {
        UsesSelf(t);
        ret, median, newPos := InsertAtLeaf(sure, e, node, at, full, t, w, g, Alloc(g, end), r);
        return;
      }
      ret, median, newPos, first' := InsertInNode(sure, e, node, at, first, full, t, h, w, g, r, b);
    }

    /** Lines 321-461: the insertion goes on in kid `at`, and an overflow comes back up. */
    method InsertInNode(ghost sure: bool, e: Entry, node: Page, at: nat, first: int, full: bool, ghost t: Tree,
                        ghost h: nat,
                        ghost w: seq<int>, ghost g: seq<int>, ghost r: Ins, ghost b: Buf)
      returns (ret: int, median: Entry, newPos: int, first': int)
      requires Inserting(sure, external, pages, walkHead, gcHead, end, t, h, e, full, first, w, g, r, b)
      requires node == pages[t.pos] && h > 0 && Locate(external, t.entries, e.name) == Miss(at)
      modifies `pages, `walkHead, `gcHead, `end
      ensures ret < 0 ==> unchanged(`pages, `walkHead, `gcHead, `end)
      ensures ret == Code(r)
      ensures r.Overflow? ==> median == r.median && newPos == r.right.pos && first' == b.first
      ensures Inserted(sure, old(pages), pages, walkHead, gcHead, end, t, Alloc(g, old(end)), r, b.sound, w)
      decreases h, 0
    {
      hide Inserting, Inserted, Joining, Lift, Locate;
      ghost var a, wh, gh := Alloc(g, end), walkHead, gcHead;
      InsertingHeld(sure, external, pages, walkHead, gcHead, end, t, h, e, full, first, w, g, r, b);
      HoldsKid(pages, t, h, at);
      ghost var kr, kb :=
        InsertingKid(sure, external, pages, walkHead, gcHead, end, t, h, e, full, first, w, g, r, b, at);
      ret, median, newPos, first' :=
        Insert(sure, e, pages[node.children[at]], first, full, t.kids[at], h - 1, w, g, kr, kb);
      KidReturned(sure, external, old(pages), wh, gh, old(end), t, h, e, full, first, w, g, r, b, at, kr, kb,
                  pages, walkHead, gcHead, end);
      if ret < 1 { return; }
      ret, median, newPos, first' :=
        JoinSplit(sure, node.pos, at, median, newPos, first', old(pages), t, h, a, kr, kb.sound, w, r);
    }

    /** FS_manager.c lines 512-600: a new root above the two halves of an overflowing root. */
    method GrowRoot(ghost sure: bool, median: Entry, newPos: int, ghost w: seq<int>, ghost g: seq<int>)
      returns (ghost q: int)
      requires Lists(sure, pages, walkHead, gcHead, end, w, g) && root in w
      modifies `pages, `walkHead, `gcHead, `end, `root
      ensures q == NewPage(Alloc(g, old(end))) && root == q
      ensures q == (if g != [] then g[0] else old(end)) && end == if g != [] then old(end) else q + PAGE_SIZE
      ensures Lists(sure, pages, walkHead, gcHead, end, [q] + w, Rest(Alloc(g, old(end))).gc)
      ensures end == Rest(Alloc(g, old(end))).end
      ensures q in pages && SameBody(pages[q], Page(q, [median], [old(root), newPos], 0, 0, 0))
      ensures forall p :: p in old(pages) && p != q ==> p in pages && SameBody(pages[p], old(pages)[p])
      ensures forall p :: p in pages <==> p in old(pages) || p == q
    {
      ghost var d := pages;
      assert walkHead in d;
      ListedIn(d, gcHead, end, w, g, root);
      if g != [] { assert Chained(d, g, 0); }
      var tpage := pages[root];
      var newRoot: Page;
      if gcHead != 0 {
        newRoot := pages[gcHead].(pos := gcHead);
        gcHead := newRoot.gcNext;
      } else {
        newRoot := Page(end, [], [0], 0, 0, 0);
      }
      newRoot := newRoot.(gcNext := 0, walkNext := walkHead, walkPrev := 0);
      ghost var left := tpage;
      if walkHead == tpage.pos {
        tpage := tpage.(walkPrev := newRoot.pos);
      } else {
        pages := pages[walkHead := pages[walkHead].(walkPrev := newRoot.pos)];
      }
      walkHead := newRoot.pos;
      newRoot := newRoot.(entries := [median], children := [root, newPos]);
      SplicedLists(sure, d, old(walkHead), left, newRoot, old(gcHead), old(end), w, g);
      root := newRoot.pos;
      pages := pages[newRoot.pos := newRoot];
      if newRoot.pos == end { end := end + PAGE_SIZE; }
      pages := pages[tpage.pos := tpage];
      q := newRoot.pos;
      SplicedLater(d, old(walkHead), left, newRoot);
    }
  
    /** `add_filesystem` / `dir_add_entry`: insertion with root growth. On success the pages hold the
        new tree if and only if the buffer slot suited the splits to come. A walk list that was sound
        stays sound. */
    method AddEntry(e: Entry, first: int, full: bool) returns (ret: int)
      requires Stored()
      modifies this
      ensures ret == 0 || ret == -EEXIST || ret == -ENOSPC
      ensures ret == -EEXIST <==> Has(external, Flat(old(tree)), e.name)
      ensures ret == -ENOSPC ==> full && old(gc) == []
      ensures Good(external, old(View())) &&
              ret == Code(InsertRoot(external, old(tree), old(height), e, Alloc(old(gc), old(end)), full))
      ensures ret < 0 ==> unchanged(this)
      ensures ret == 0 ==> Framed() && Flat(tree) == InsertSorted(external, Flat(old(tree)), e)
      ensures View() == Step(external, old(View()), Add(e, full))
      ensures ret == 0 ==> (Holds(pages, tree) <==> Clean(external, old(tree), old(height), e.name, first))
      ensures old(Walkable()) ==> Walkable()
      ensures ret == -EEXIST <==> old(Contains(e.name))
      ensures ret == -ENOSPC <==> full && old(gc) == [] && LeafFull(external, old(tree), old(height), e.name)
      ensures ret == 0 ==> forall x :: x in Flat(tree) <==> x in Flat(old(tree)) || x == e
    {
      hide Buffer, Holds, Has, InsertSorted, Walk, Frame, InsertRoot, LeafFull, Step, Clean;
      HasMeans(external, Flat(tree), e.name);
      InsertedIn(external, Flat(tree), e);
      ghost var t', h', w', g';
      ret, t', h', w', g' := AddToTree(e, first, full);
      RefusedWhen(external, old(View()), e, full);
      if ret == 0 { total, tree, height, walk, gc := total + 1, t', h', w', g'; }
    }

    method AddToTree(e: Entry, first: int, full: bool)
      returns (ret: int, ghost t': Tree, ghost h': nat, ghost w': seq<int>, ghost g': seq<int>)
      requires Stored()
      modifies `pages, `walkHead, `gcHead, `end, `root
      ensures ret == 0 || ret == -EEXIST || ret == -ENOSPC
      ensures ret == -EEXIST <==> Has(external, Flat(tree), e.name)
      ensures ret == -ENOSPC ==> full && gc == []
      ensures Good(external, View()) && ret == Code(InsertRoot(external, tree, height, e, Alloc(gc, old(end)), full))
      ensures ret < 0 ==> unchanged(this) && State(t', h', Alloc(g', end), w') == View()
      ensures ret == 0 ==> Frame(external, pages, root, walkHead, gcHead, end, total + 1, t', h', w', g')
      ensures ret == 0 ==> Flat(t') == InsertSorted(external, Flat(tree), e)
      ensures State(t', h', Alloc(g', end), w') == Step(external, old(View()), Add(e, full))
      ensures ret == 0 ==> (Holds(pages, t') <==> Clean(external, tree, height, e.name, first))
      ensures ret == 0 && old(Walkable()) ==> Walk(pages, walkHead, w')
    {
      ghost var a, sure := Alloc(gc, end), Walkable();
      ghost var r, b, r';
      r, b, r', h' := Plan(sure, external, pages, walkHead, gcHead, end, tree, height, e, full, first, walk, gc);
      BufferClean(external, tree, height, e, a, full, first);
      ret := InsertAndGrow(sure, e, first, full, tree, height, walk, a, r, b, r', h');
      t', w', g' := tree, walk, gc;
      if ret < 0 {
        h' := height;
      } else {
        t', w', g' := r'.tree, Listed(a, r'.taken, walk), After(a, r'.taken).gc;
        RootedAfterInsert(sure, external, old(pages), pages, old(root), old(gcHead), old(end), total,
                          tree, height, walk, a, e, full, r, r', h', walkHead, gcHead, end);
      }
    }

    method InsertAndGrow(ghost sure: bool, e: Entry, first: int, full: bool, ghost t: Tree, ghost h: nat,
                         ghost w: seq<int>,
                         ghost a: Alloc, ghost r: Ins, ghost b: Buf, ghost r': Ins, ghost h': nat)
      returns (ret: int)
      requires Inserting(sure, external, pages, walkHead, gcHead, end, t, h, e, full, first, w, a.gc, r, b)
      requires Planned(external, t, e, a, full, r, r', h') && root == t.pos && a.end == end
      modifies `pages, `walkHead, `gcHead, `end, `root
      ensures ret == Code(r')
      ensures ret < 0 ==> unchanged(`pages, `walkHead, `gcHead, `end, `root)
      ensures r'.Done? ==> root == r'.tree.pos && end == After(a, r'.taken).end
                           && Lists(sure, pages, walkHead, gcHead, end, Listed(a, r'.taken, w), After(a, r'.taken).gc)
                           && (Holds(pages, r'.tree) <==> b.sound)
    {
      hide Spaced, Safe, Walk, Gc, Leftmost, Flat, Weave;
      var median, newPos, first';
      ret, median, newPos, first' := Insert(sure, e, pages[root], first, full, t, h, w, a.gc, r, b);
      if ret == 1 {
        ghost var d, v := pages, Listed(a, r.taken, w);
        ListedMembers(a, r.taken, w, t.pos);
        UsesSelf(t);
        ghost var q := GrowRoot(sure, median, newPos, v, After(a, r.taken).gc);
        GrownHeld(sure, d, pages, walkHead, gcHead, end, t, a, r, w, q, r'.taken);
        ret := 0;
      }
    }
  
    // ----- deletion

    /** Lines 756-777: the backward link of page `n`, in whichever copy will be written back. */
    method PatchPrev(n: int, v: int, left0: Page, tnode0: Page) returns (left: Page, tnode: Page)
      requires (n == 0 || n in pages) && 0 !in pages
      requires left0.pos != tnode0.pos && left0.pos in pages && tnode0.pos in pages
      modifies `pages
      ensures Overlay(pages, left, tnode) == SetPrev(Overlay(old(pages), left0, tnode0), n, v)
      ensures SameBody(left, left0) && SameBody(tnode, tnode0) && SameBodies(old(pages), pages)
    {
      left, tnode := left0, tnode0;
      if n == 0 {
      } else if n == left.pos {
        left := left.(walkPrev := v);
      } else if n == tnode.pos {
        tnode := tnode.(walkPrev := v);
      } else {
        pages := pages[n := pages[n].(walkPrev := v)];
      }
    }

    /** Lines 778-799: the forward link of page `n`, likewise. */
    method PatchNext(n: int, v: int, left0: Page, tnode0: Page) returns (left: Page, tnode: Page)
      requires (n == 0 || n in pages) && 0 !in pages
      requires left0.pos != tnode0.pos && left0.pos in pages && tnode0.pos in pages
      modifies `pages
      ensures Overlay(pages, left, tnode) == SetNext(Overlay(old(pages), left0, tnode0), n, v)
      ensures SameBody(left, left0) && SameBody(tnode, tnode0) && SameBodies(old(pages), pages)
    {
      left, tnode := left0, tnode0;
      if n == 0 {
      } else if n == left.pos {
        left := left.(walkNext := v);
      } else if n == tnode.pos {
        tnode := tnode.(walkNext := v);
      } else {
        pages := pages[n := pages[n].(walkNext := v)];
      }
    }

    /** Lines 743-799 of the merge: the right page goes to the reclaim list and out of the walk list.
        A walk neighbour that the caller has in memory (`left`, `tnode`) is patched there, any other
        one in the file. */
    method DropRight(ghost sure: bool, right: Page, left0: Page, tnode0: Page, ghost w: seq<int>, ghost g: seq<int>,
                     ghost k: nat)
      returns (left: Page, tnode: Page)
      requires Lists(sure, pages, walkHead, gcHead, end, w, g) && k < |w| && w[k] == right.pos != Tail(w)
      requires right == pages[right.pos] && left0.pos in w && tnode0.pos in w
      requires left0.pos != right.pos && tnode0.pos != right.pos && left0.pos != tnode0.pos
      requires SameLinks(left0, pages[left0.pos]) && SameLinks(tnode0, pages[tnode0.pos])
      modifies `pages, `walkHead, `gcHead
      ensures SameBody(left, left0) && SameBody(tnode, tnode0)
      ensures Lists(sure, Overlay(pages, left, tnode), walkHead, gcHead, end, Drop(w, k), [right.pos] + g)
      ensures SameBodies(old(pages)[right.pos := Reclaimed(right.pos, 0)], pages)
    {
      hide Spaced, Walk, Gc;
      OverlayDrop(sure, pages, left0, tnode0, walkHead, gcHead, end, w, g, k);
      assert LinkSafe(pages, Tail(w), w[k]);
      pages := pages[right.pos := Reclaimed(right.pos, gcHead)];
      gcHead := right.pos;
      if walkHead == right.pos { walkHead := right.walkNext; }
      left, tnode := PatchPrev(right.walkNext, right.walkPrev, left0, tnode0);
      ghost var d1 := pages;
      left, tnode := PatchNext(right.walkPrev, right.walkNext, left, tnode);
      SameBodiesTrans(old(pages), d1, pages, right.pos, Reclaimed(right.pos, old(gcHead)), Reclaimed(right.pos, 0));
    }
  
    /** Lines 818-832: the backward link of the old root's successor. */
    method PatchPrevOf(n: int, v: int, left0: Page) returns (left: Page)
      requires (n == 0 || n in pages) && 0 !in pages && left0.pos in pages
      modifies `pages
      ensures pages[left.pos := left] == SetPrev(old(pages)[left0.pos := left0], n, v)
      ensures SameBody(left, left0) && SameBodies(old(pages), pages)
    {
      left := left0;
      if n == left.pos {
        left := left.(walkPrev := v);
      } else if n != 0 {
        pages := pages[n := pages[n].(walkPrev := v)];
      }
    }

    /** Lines 833-847: the forward link of the old root's predecessor. */
    method PatchNextOf(n: int, v: int, left0: Page) returns (left: Page)
      requires (n == 0 || n in pages) && 0 !in pages && left0.pos in pages
      modifies `pages
      ensures pages[left.pos := left] == SetNext(old(pages)[left0.pos := left0], n, v)
      ensures SameBody(left, left0) && SameBodies(old(pages), pages)
    {
      left := left0;
      if n == left.pos {
        left := left.(walkNext := v);
      } else if n != 0 {
        pages := pages[n := pages[n].(walkNext := v)];
      }
    }

    /** Lines 803-850: an old root without entries is dropped and the merged page becomes the root. */
    method DropRoot(ghost sure: bool, tnode: Page, left0: Page, ghost w: seq<int>, ghost g: seq<int>, ghost k: nat)
      returns (left: Page)
      requires left0.pos in pages && tnode.pos in pages && left0.pos != tnode.pos
      requires Lists(sure, Overlay(pages, left0, tnode), walkHead, gcHead, end, w, g) && k < |w| &&
               w[k] == tnode.pos != Tail(w)
      modifies `pages, `walkHead, `gcHead, `root
      ensures root == left.pos && SameBody(left, left0)
      ensures Lists(sure, pages[left.pos := left], walkHead, gcHead, end, Drop(w, k), [tnode.pos] + g)
      ensures SameBodies(old(pages)[tnode.pos := Reclaimed(tnode.pos, 0)], pages)
    {
      RootDrop(sure, pages, left0, tnode, walkHead, gcHead, end, w, g, k);
      pages := pages[tnode.pos := Reclaimed(tnode.pos, gcHead)];
      gcHead := tnode.pos;
      if walkHead == tnode.pos { walkHead := tnode.walkNext; }
      left := PatchPrevOf(tnode.walkNext, tnode.walkPrev, left0);
      ghost var d1 := pages;
      left := PatchNextOf(tnode.walkPrev, tnode.walkNext, left);
      root := left.pos;
      SameBodiesTrans(old(pages), d1, pages, tnode.pos, Reclaimed(tnode.pos, old(gcHead)), Reclaimed(tnode.pos, 0));
    }
  
    /** Lines 732-881: the pooled entries go to the left page, the right page is dropped, and so is a
        node that had just one entry. */
    method MergePages(ghost sure: bool, node: Page, left0: Page, right: Page, j: nat, ghost t: Tree, ghost h: nat,
                      ghost w: seq<int>, ghost g: seq<int>, ghost k: nat)
      returns (ret: int, tnode: Page)
      requires Deleting(sure, pages, walkHead, gcHead, end, t, h, w, g) && h > 0 && j < |t.entries| && j + 1 < |t.kids|
      requires k < |w| && w[k] == t.kids[j + 1].pos && |t.entries| > 1
      requires t.kids[j].pos in pages && t.kids[j + 1].pos in pages
      requires node == pages[t.pos] && left0 == pages[t.kids[j].pos] && right == pages[t.kids[j + 1].pos]
      modifies `pages, `walkHead, `gcHead
      ensures ret == 1 && t.pos in pages && tnode == pages[t.pos]
      ensures Deleted(sure, old(pages), pages, walkHead, gcHead, end, t, Merged(t, j), [t.kids[j + 1].pos], w, g)
    {
      hide Spaced, Safe, Walk, Gc, Leftmost, Flat, Weave, Uses, Distinct, Single;
      ghost var k' := PairListed(sure, pages, walkHead, gcHead, end, t, h, w, g, j);
      ghost var p := Pool(t.kids[j], t.entries[j], t.kids[j + 1]);
      PoolPositions(t.kids[j], t.entries[j], t.kids[j + 1], h - 1);
      MergedPositions(t, j);
      var left :=
        left0.(entries := left0.entries + [node.entries[j]] + right.entries, children :=
               left0.children + right.children);
      left, tnode := DropRight(sure, right, left, node, w, g, k);
      ghost var d := Overlay(pages, left, tnode);
      tnode := tnode.(entries := tnode.entries[..j] + tnode.entries[j + 1..],
                      children := tnode.children[..j + 1] + tnode.children[j + 2..]);
      pages := pages[tnode.pos := tnode];
      pages := pages[left.pos := left];
      ret := 1;
      ListsRewrite(sure, d, walkHead, gcHead, end, Drop(w, k), [right.pos] + g, tnode);
      assert pages == d[tnode.pos := tnode];
      MergeDone(sure, old(pages), pages, old(walkHead), old(gcHead), end, walkHead, gcHead, t, h, w, g, j, k);
    }
  
    /** The same for a node with just one entry: it is dropped too, and the merged page is the root. */
    method MergeRoot(ghost sure: bool, node: Page, left0: Page, right: Page, ghost t: Tree, ghost h: nat,
                     ghost w: seq<int>, ghost g: seq<int>, ghost k: nat)
      returns (ret: int)
      requires Deleting(sure, pages, walkHead, gcHead, end, t, h, w, g) && h > 0 && |t.entries| == 1 && |t.kids| == 2
      requires k < |w| && w[k] == t.kids[1].pos && t.kids[0].pos in pages && t.kids[1].pos in pages
      requires node == pages[t.pos] && left0 == pages[t.kids[0].pos] && right == pages[t.kids[1].pos]
      modifies `pages, `walkHead, `gcHead, `root
      ensures ret == 2 && root == t.kids[0].pos
      ensures Deleted(sure, old(pages), pages, walkHead, gcHead, end, t, Pool(t.kids[0], t.entries[0], t.kids[1]),
                      [t.kids[1].pos, t.pos], w, g)
    {
      hide Spaced, Safe, Walk, Gc, Leftmost, Flat, Weave, Uses, Distinct, Single;
      ghost var k' := PairListed(sure, pages, walkHead, gcHead, end, t, h, w, g, 0);
      PoolPositions(t.kids[0], t.entries[0], t.kids[1], h - 1);
      var left :=
        left0.(entries := left0.entries + [node.entries[0]] + right.entries, children :=
               left0.children + right.children);
      var tnode;
      left, tnode := DropRight(sure, right, left, node, w, g, k);
      ghost var d1 := pages;
      DropMembers(w, k);
      ghost var k2 :| 0 <= k2 < |Drop(w, k)| && Drop(w, k)[k2] == t.pos;
      left := DropRoot(sure, tnode, left, Drop(w, k), [right.pos] + g, k2);
      LowerWritten(old(pages), d1, pages, left, t, h);
      pages := pages[left.pos := left];
      ret := 2;
      LowerDone(sure, old(pages), pages, old(walkHead), old(gcHead), end, walkHead, gcHead, t, h, w, g, k, k2);
    }

    /** Lines 883-916: the pooled entries are shared out evenly over the two pages. */
    method EvenPages(ghost sure: bool, node: Page, left0: Page, right0: Page, j: nat, ghost t: Tree, ghost h: nat,
                     ghost w: seq<int>, ghost g: seq<int>)
      returns (ret: int, tnode: Page)
      requires Deleting(sure, pages, walkHead, gcHead, end, t, h, w, g) && h > 0 && j < |t.entries| && j + 1 < |t.kids|
      requires t.kids[j].pos in pages && t.kids[j + 1].pos in pages
      requires node == pages[t.pos] && left0 == pages[t.kids[j].pos] && right0 == pages[t.kids[j + 1].pos]
      modifies `pages
      ensures ret == 1 && t.pos in pages && tnode == pages[t.pos]
      ensures Deleted(sure, old(pages), pages, walkHead, gcHead, end, t, Evened(t, j), [], w, g)
    {
      hide Spaced, Safe, Walk, Gc, Leftmost, Flat, Weave, Uses, Distinct, Single;
      ghost var k := PairListed(sure, pages, walkHead, gcHead, end, t, h, w, g, j);
      var es, cs := left0.entries + [node.entries[j]] + right0.entries, left0.children + right0.children;
      var m := |es| / 2;
      var left := left0.(entries := es[..m], children := cs[..m + 1]);
      var right := right0.(entries := es[m + 1..], children := cs[m + 1..]);
      tnode := node.(entries := node.entries[j := es[m]]);
      EvenWritten(sure, pages, walkHead, gcHead, end, t, h, w, g, j, left, right, tnode);
      pages := pages[left.pos := left];
      pages := pages[right.pos := right];
      pages := pages[tnode.pos := tnode];
      ret := 1;
    }

    /** `rebalance_btree`: makes sure that the chosen kid can spare an entry. */
    method Rebalance(ghost sure: bool, node: Page, chosen: nat, ghost t: Tree, ghost h: nat, ghost w: seq<int>,
                     ghost g: seq<int>, ghost r: Reb)
      returns (ret: int, tnode: Page)
      requires Deleting(sure, pages, walkHead, gcHead, end, t, h, w, g) && h > 0 && 0 < |t.entries| &&
               chosen <= |t.entries|
      requires node == pages[t.pos] && r == DirDelete.Rebalance(t, h, chosen)
      modifies `pages, `walkHead, `gcHead, `root
      ensures ret == (match r case Keep => 0 case Changed(_, _) => 1 case Lowered(_, _) => 2)
      ensures r.Keep? ==> tnode == node && unchanged(`pages, `walkHead, `gcHead)
      ensures !r.Lowered? ==> root == old(root)
      ensures r.Changed? ==> t.pos in pages && tnode == pages[t.pos]
      ensures r.Lowered? ==> root == r.tree.pos
      ensures !r.Keep? ==> Deleted(sure, old(pages), pages, walkHead, gcHead, end, t, r.tree, r.dropped, w, g)
    {
      hide Flat, Uses, Low, Weave, Walk, Parts, Deleted, Merged, Evened;
      tnode := node;
      var j := if chosen == |node.entries| then chosen - 1 else chosen;
      ghost var k := PairListed(sure, pages, walkHead, gcHead, end, t, h, w, g, j);
      HoldsKid(pages, t, h, j);
      HoldsKid(pages, t, h, j + 1);
      var left, right := pages[node.children[j]], pages[node.children[j + 1]];
      if (if chosen == |node.entries| then |right.entries| else |left.entries|) > MIN_ENTRIES { return 0, node; }
      if (if chosen == |node.entries| then |left.entries| else |right.entries|) < MAX_ENTRIES / 2 {
        if |node.entries| == 1 {
          ret := MergeRoot(sure, node, left, right, t, h, w, g, k);
        } else {
          ret, tnode := MergePages(sure, node, left, right, j, t, h, w, g, k);
        }
      } else {
        ret, tnode := EvenPages(sure, node, left, right, j, t, h, w, g);
      }
    }
  
    /** `extract_largest_child`: takes the largest entry out of the subtree. */
    method ExtractLargest(ghost sure: bool, node: Page, ghost t: Tree, ghost h: nat, ghost w: seq<int>,
                          ghost g: seq<int>, ghost s: Ext)
      returns (ret: int, largest: Entry)
      requires Deleting(sure, pages, walkHead, gcHead, end, t, h, w, g)
      requires Ready(t, h, |t.entries|) && node == pages[t.pos] && s == Extract(t, h)
      modifies `pages, `walkHead, `gcHead, `root
      ensures root == old(root) && ret == 0 && largest == s.largest
      ensures Deleted(sure, old(pages), pages, walkHead, gcHead, end, t, s.tree, s.dropped, w, g)
      decreases h, Low(t.kids)
    {
      hide Flat, Uses, Low, Weave, Parts, Walk, Safe, Leftmost, Extract;
      var at := |node.entries|;
      HoldsKid(pages, t, h, at);
      if node.children[at] == 0 {
        LeafExtracted(t);
        LeafShortened(sure, pages, walkHead, gcHead, end, t, w, g, node.entries[..at - 1]);
        pages := pages[node.pos := node.(entries := node.entries[..at - 1], children := node.children[..at - 1 + 1])];
        return 0, node.entries[at - 1];
      }
      ghost var r, s1 := ExtractLevel(t, h, s);
      var rebalanced, tnode := Rebalance(sure, node, at, t, h, w, g, r);
      if rebalanced > 0 {
        ghost var d1, wh1, gh1 := pages, walkHead, gcHead;
        DeletingNext(sure, old(pages), pages, walkHead, gcHead, end, t, r.tree, h, r.dropped, w, g);
        ret, largest := ExtractLargest(sure, tnode, r.tree, h, Without(w, r.dropped), Pushed(g, r.dropped), s1);
        DeletedThen(sure, old(pages), d1, pages, wh1, gh1, walkHead, gcHead, end, t, r.tree, s1.tree, r.dropped,
                    s1.dropped, w, g);
      } else {
        KidDeleting(sure, pages, walkHead, gcHead, end, t, h, w, g, at);
        ret, largest := ExtractLargest(sure, pages[node.children[at]], t.kids[at], h - 1, w, g, s1);
        DeletedInKid(old(pages), pages, walkHead, gcHead, end, t, at, s1.tree, s1.dropped, w, g);
      }
    }

    /** `delete_dir_entry_btree`: the tree deletion, carried out page by page. The walk list survives
        it if and only if no page was written back with stale links. */
    method Delete(ghost sure: bool, name: string, node: Page, ghost t: Tree, ghost h: nat, ghost top: bool,
                  ghost w: seq<int>, ghost g: seq<int>, ghost r: Del, ghost stale: bool)
      returns (ret: int)
      requires Removing(sure, external, pages, walkHead, gcHead, end, t, h, name, top, w, g, r, stale)
      requires node == pages[t.pos] && (top ==> root == t.pos)
      modifies `pages, `walkHead, `gcHead, `root
      ensures ret == if r.found then 0 else -ENOENT
      ensures if top then root == r.tree.pos else root == old(root)
      ensures DeletedBody(old(pages), pages, walkHead, gcHead, end, t, r.tree, r.dropped, w, g)
      ensures sure ==> (Walk(pages, walkHead, Without(w, r.dropped)) <==> !stale)
      decreases h, Low(t.kids), 2
    {
      hide DirDelete.Delete, StaleLinks, Flat, Uses, Weave, Spaced, Safe, Gc, Leftmost, Distinct, Walk;
      NodeSorted(external, t, h, name);
      var found, at := BinarySearch(external, node.entries, name);
      var i := if found >= 0 then found else at;
      HoldsKid(pages, t, h, i);
      if node.children[i] == 0 {
        ret := DeleteAtLeaf(sure, name, node, i, found >= 0, t, top, w, g, r, stale);
        return;
      }
      ret := DeleteInNode(sure, name, node, i, found >= 0, t, h, top, w, g, r, stale);
    }

    /** Lines 502-517 and 581-584: the entry is cut out of a leaf, or is nowhere. */
    method DeleteAtLeaf(ghost sure: bool, name: string, node: Page, i: nat, hit: bool, ghost t: Tree, ghost top: bool,
                        ghost w: seq<int>, ghost g: seq<int>, ghost r: Del, ghost stale: bool)
      returns (ret: int)
      requires Removing(sure, external, pages, walkHead, gcHead, end, t, 0, name, top, w, g, r, stale)
      requires node == pages[t.pos] && Locate(external, t.entries, name) == if hit then Hit(i) else Miss(i)
      modifies `pages
      ensures ret == (if r.found then 0 else -ENOENT) && r.tree.pos == t.pos && !stale
      ensures Deleted(sure, old(pages), pages, walkHead, gcHead, end, t, r.tree, r.dropped, w, g)
    {
      hide DirDelete.Delete, StaleLinks, Flat, Uses, Weave, Spaced, Safe, Gc, Leftmost, Distinct, Walk;
      LeafDeleted(external, t, name, top, w);
      if !hit {
        WithoutNone(w, []);
        return -ENOENT;
      }
      var es := node.entries[..i] + node.entries[i + 1..];
      LeafShortened(sure, pages, walkHead, gcHead, end, t, w, g, es);
      pages := pages[node.pos := node.(entries := es, children := node.children[..|es| + 1])];
      return 0;
    }

    /** Lines 520-578 and 586-616: rebalance and start over, or go on below. */
    method DeleteInNode(ghost sure: bool, name: string, node: Page, i: nat, hit: bool, ghost t: Tree, ghost h: nat,
                        ghost top: bool,
                        ghost w: seq<int>, ghost g: seq<int>, ghost r: Del, ghost stale: bool)
      returns (ret: int)
      requires Removing(sure, external, pages, walkHead, gcHead, end, t, h, name, top, w, g, r, stale)
      requires node == pages[t.pos] && (top ==> root == t.pos)
      requires h > 0 && Locate(external, t.entries, name) == if hit then Hit(i) else Miss(i)
      modifies `pages, `walkHead, `gcHead, `root
      ensures ret == if r.found then 0 else -ENOENT
      ensures if top then root == r.tree.pos else root == old(root)
      ensures DeletedBody(old(pages), pages, walkHead, gcHead, end, t, r.tree, r.dropped, w, g)
      ensures sure ==> (Walk(pages, walkHead, Without(w, r.dropped)) <==> !stale)
      decreases h, Low(t.kids), 1
    {
      hide Flat, Uses, Low, Weave, Parts, StaleLinks, Walk, NeighbourDropped, DirDelete.Delete, Extract;
      ghost var b := DirDelete.Rebalance(t, h, i);
      var rebalanced, tnode := Rebalance(sure, node, i, t, h, w, g, b);
      if rebalanced > 0 {
        var page := if rebalanced == 2 then pages[root] else tnode;
        ret := DeleteAgain(sure, name, page, t, h, top, w, g, r, stale, b, old(pages));
      } else if hit {
        ghost var s := HitLevel(external, t, h, name, top, w);
        ret := ReplaceByPredecessor(sure, node, i, t, h, w, g, s);
      } else {
        ret := DeleteBelow(sure, name, node, i, t, h, top, w, g, r, stale);
      }
    }

    /** Lines 535-550 and 593-604: the page was rebalanced, so the deletion starts over there. */
    method DeleteAgain(ghost sure: bool, name: string, node: Page, ghost t: Tree, ghost h: nat, ghost top: bool,
                       ghost w: seq<int>, ghost g: seq<int>,
                       ghost r: Del, ghost stale: bool, ghost b: Reb, ghost d: Disk)
      returns (ret: int)
      requires h > 0 && Deletable(external, t, h, name, top) && Single(t) && (forall p :: Uses(t, p) > 0 ==> p in w)
      requires w != [] && Tailed(t, w) && r == DirDelete.Delete(external, t, h, name, top) &&
               stale == StaleLinks(external, t, h, name, top, w)
      requires b == DirDelete.Rebalance(t, h, Slot(external, t.entries, name)) && !b.Keep?
      requires Deleted(sure, d, pages, walkHead, gcHead, end, t, b.tree, b.dropped, w, g)
      requires node == pages[b.tree.pos] && (top ==> root == b.tree.pos)
      modifies `pages, `walkHead, `gcHead, `root
      ensures ret == if r.found then 0 else -ENOENT
      ensures if top then root == r.tree.pos else root == old(root)
      ensures DeletedBody(d, pages, walkHead, gcHead, end, t, r.tree, r.dropped, w, g)
      ensures sure ==> (Walk(pages, walkHead, Without(w, r.dropped)) <==> !stale)
      decreases h, Low(t.kids), 0
    {
      hide Parts, Walk, Safe, Flat, Uses, Weave, Without, Pushed, StaleLinks, DirDelete.Delete, Released, Sorted,
        Single;
      ghost var b', h1, r1, stale1 := AgainLevel(external, t, h, name, top, w);
      ghost var d1, wh1, gh1 := pages, walkHead, gcHead;
      DeletingNext(sure, d, pages, walkHead, gcHead, end, t, b.tree, h1, b.dropped, w, g);
      ret := Delete(sure, name, node, b.tree, h1, top, Without(w, b.dropped), Pushed(g, b.dropped), r1, stale1);
      DeletedThen(sure, d, d1, pages, wh1, gh1, walkHead, gcHead, end, t, b.tree, r1.tree, b.dropped, r1.dropped, w, g);
    }

    /** Lines 611-616: the deletion goes on in kid `i`. */
    method DeleteBelow(ghost sure: bool, name: string, node: Page, i: nat, ghost t: Tree, ghost h: nat, ghost top: bool,
                       ghost w: seq<int>, ghost g: seq<int>, ghost r: Del, ghost stale: bool)
      returns (ret: int)
      requires Removing(sure, external, pages, walkHead, gcHead, end, t, h, name, top, w, g, r, stale)
      requires node == pages[t.pos] && (top ==> root == t.pos)
      requires h > 0 && Locate(external, t.entries, name) == Miss(i) && DirDelete.Rebalance(t, h, i).Keep?
      modifies `pages, `walkHead, `gcHead, `root
      ensures ret == if r.found then 0 else -ENOENT
      ensures root == old(root) && r.tree.pos == t.pos
      ensures DeletedBody(old(pages), pages, walkHead, gcHead, end, t, r.tree, r.dropped, w, g)
      ensures sure ==> (Walk(pages, walkHead, Without(w, r.dropped)) <==> !stale)
      decreases h, Low(t.kids), 0
    {
      hide Flat, Uses, Weave, StaleLinks, Holds, Sorted, Slot, Spaced, Safe, Gc, Walk, Leftmost;
      HoldsKid(pages, t, h, i);
      KidDeleting(sure, pages, walkHead, gcHead, end, t, h, w, g, i);
      ghost var r1, stale1 := MissLevel(external, t, h, name, top, w);
      ret := Delete(sure, name, pages[node.children[i]], t.kids[i], h - 1, false, w, g, r1, stale1);
      DeletedInKid(old(pages), pages, walkHead, gcHead, end, t, i, r1.tree, r1.dropped, w, g);
    }

    /** Lines 558-578: the largest entry of the left subtree takes the place of the deleted one. The
        page is written from a copy read before the extraction, links included. */
    method ReplaceByPredecessor(ghost sure: bool, node: Page, i: nat, ghost t: Tree, ghost h: nat, ghost w: seq<int>,
                                ghost g: seq<int>, ghost s: Ext)
      returns (ret: int)
      requires Deleting(sure, pages, walkHead, gcHead, end, t, h, w, g) && node == pages[t.pos]
      requires h > 0 && i < |t.entries| && Shaped(t.kids[i], h - 1) && Ready(t.kids[i], h - 1, |t.kids[i].entries|)
      requires s == Extract(t.kids[i], h - 1) && s.tree.pos == t.kids[i].pos
      modifies `pages, `walkHead, `gcHead, `root
      ensures ret == 0 && root == old(root)
      ensures DeletedBody(old(pages), pages, walkHead, gcHead, end, t,
                          Tree(t.pos, t.entries[i := s.largest], t.kids[i := s.tree]), s.dropped, w, g)
      ensures sure ==> (Walk(pages, walkHead, Without(w, s.dropped)) <==> !NeighbourDropped(w, t.pos, s.dropped))
    {
      hide Flat, Uses, Weave, Extract, Walk, Parts, NeighbourDropped, Released;
      HoldsKid(pages, t, h, i);
      KidDeleting(sure, pages, walkHead, gcHead, end, t, h, w, g, i);
      var largest;
      ret, largest := ExtractLargest(sure, pages[node.children[i]], t.kids[i], h - 1, w, g, s);
      forall p ensures Released(t.kids[i], s.tree, s.dropped, p) { ExtractUses(t.kids[i], h - 1, p); }
      var page := node.(entries := node.entries[i := largest]);
      ReplaceHere(sure, old(pages), pages, old(walkHead), old(gcHead), end, walkHead, gcHead, t, h, w, g, i, s, page);
      pages := pages[node.pos := page];
    }
  
    /** `dir_remove_entry` / `delete_filesystem`: the entry goes exactly when it is there, and all the
        others stay. A sound walk list stays sound if and only if no links are lost. */
    method RemoveEntry(name: string) returns (ret: int)
      requires Stored()
      modifies this
      ensures Deletable(external, old(tree), old(height), name, true)
      ensures ret == if Has(external, Flat(old(tree)), name) then 0 else -ENOENT
      ensures Stored() && Flat(tree) == RemoveNamed(external, Flat(old(tree)), name)
      ensures Good(external, old(View())) && View() == Step(external, old(View()), Remove(name))
      ensures old(Walkable()) ==> (Walkable() <==> !LinksLost(external, old(tree), old(height), name, old(walk)))
      ensures ret == 0 <==> old(Contains(name))
      ensures forall x :: x in Flat(tree) <==> x in Flat(old(tree)) && !SpelledAlike(external, x.name, name)
    {
      hide LinksLost, RemoveNamed, Has, Holds, Walk, Step, Good, Frame, Deletable;
      HasMeans(external, Flat(tree), name);
      FrameSorted(external, pages, root, walkHead, gcHead, end, total, tree, height, walk, gc);
      RemovedFrom(external, Flat(tree), name);
      ghost var t', h', w', g';
      ret, t', h', w', g' := RemoveFromTree(name);
      if ret == 0 { total := total - 1; }
      tree, height, walk, gc := t', h', w', g';
    }

    method RemoveFromTree(name: string)
      returns (ret: int, ghost t': Tree, ghost h': nat, ghost w': seq<int>, ghost g': seq<int>)
      requires Stored()
      modifies `pages, `walkHead, `gcHead, `root
      ensures Deletable(external, tree, height, name, true)
      ensures ret == if Has(external, Flat(tree), name) then 0 else -ENOENT
      ensures Frame(external, pages, root, walkHead, gcHead, end, if ret == 0 then total - 1 else total, t', h', w', g')
      ensures Holds(pages, t') && Flat(t') == RemoveNamed(external, Flat(tree), name)
      ensures Good(external, View()) && State(t', h', Alloc(g', end), w') == Step(external, old(View()), Remove(name))
      ensures old(Walkable()) ==> (Walk(pages, walkHead, w') <==> !LinksLost(external, tree, height, name, walk))
    {
      hide Flat, Uses, Weave, StaleLinks, Has, RemoveNamed, Spaced, Gc, Walk, Safe, LinksLost, Leftmost,
        DirDelete.Delete, Sorted;
      ghost var sure := Walkable();
      ghost var r := DirDelete.Delete(external, tree, height, name, true);
      ghost var stale := StaleLinks(external, tree, height, name, true, walk);
      StaleForeseen(external, tree, height, name, true, walk);
      ret := Delete(sure, name, pages[root], tree, height, true, walk, gc, r, stale);
      RootedAfterDelete(external, old(pages), pages, old(root), old(gcHead), walkHead, gcHead, end, total, tree, height,
                        walk, gc, name, r);
      t', h', w', g' := r.tree, r.height, Without(walk, r.dropped), Pushed(gc, r.dropped);
    }
  
    /** `check_filesystem_core` / `lookup_dir`: the directory answers as the finite map of its entries. */
    method Lookup(name: string) returns (ret: int, entry: Entry)
      requires Stored()
      ensures ret == if Key(external, name) in MapOf(external, Flat(tree)) then 0 else -ENOENT
      ensures ret == 0 ==> entry == MapOf(external, Flat(tree))[Key(external, name)]
      ensures ret == 0 <==> Contains(name)
      ensures ret == 0 ==> entry in Flat(tree) && SpelledAlike(external, entry.name, name)
    {
      HasMeans(external, Flat(tree), name);
      var at, node := Search(name, pages[root], tree, height);
      MapOfKeys(external, Flat(tree), Key(external, name));
      if at < 0 { return at, Entry("", 0, 0); }
      ghost var i :| 0 <= i < |Flat(tree)| && Flat(tree)[i] == node.entries[at];
      MapOfAt(external, Flat(tree), i);
      SameMeans(external, node.entries[at].name, name);
      return 0, node.entries[at];
    }
  
    /** `list_filesystem`: walks the tree-walk list. With room for them all it returns each entry exactly
        once; without, only their number. The stored count is never found wrong. */
    method List(bufNum: nat) returns (retNum: int, buf: seq<Entry>)
      requires Valid()
      modifies `total
      ensures retNum == total == old(total) == |Flat(tree)|
      ensures total > bufNum ==> buf == []
      ensures total <= bufNum ==> multiset(buf) == multiset(Flat(tree)) && |buf| == total
    {
      hide Spaced, Safe, Gc, Leftmost;
      buf := [];
      if total > bufNum { return total, buf; }
      if total <= 0 { return 0, buf; }
      WalkCounts(pages, walkHead, tree, height, walk);
      var next, walked := walkHead, 0;
      ghost var k: nat := 0;
      while next != 0
        invariant k <= |walk| && next == At(walk, k)
        invariant walked == |Gather(pages, walk[..k])|
        invariant walked <= bufNum ==> buf == Gather(pages, walk[..k])
        decreases |walk| - k
      {
        WalkStep(pages, walkHead, walk, k);
        var page := pages[next];
        if walked + |page.entries| > bufNum {
          walked := walked + |page.entries|;
        } else {
          var copied;
          buf, copied := CopyEntries(buf, page.entries);
          walked := walked + copied;
        }
        next := page.walkNext;
        k := k + 1;
      }
      WalkEnd(pages, walkHead, walk, k);
      if total != walked { total := walked; }
      return walked, buf;
    }
  }

  lemma EmptyFile(x: bool, header: int)
    requires header > 0
    ensures var d, t := map[header := Page(header, [], [0], 0, 0, 0)], Tree(header, [], []);
            && Frame(x, d, header, header, 0, header + PAGE_SIZE, 0, t, 0, [header], [])
            && Walk(d, header, [header]) && Holds(d, t) && Flat(t) == []
  {
    var d, t := map[header := Page(header, [], [0], 0, 0, 0)], Tree(header, [], []);
    assert ChildPos(t) == [0];
    assert Linked(d, [header], 0);
    WalkSafe(d, header, [header]);
    assert Flat(t) == [] && Shaped(t, 0) && WellFormed(x, t, 0);
    forall p ensures Uses(t, p) == if p in [header] then 1 else 0 { assert UsesOf([], p) == 0; }
  }

  lemma RefusedWhen(x: bool, s: State, e: Entry, full: bool)
    requires Good(x, s)
    ensures Code(InsertRoot(x, s.tree, s.height, e, s.alloc, full)) == -ENOSPC <==>
            full && s.alloc.gc == [] && LeafFull(x, s.tree, s.height, e.name)
  {
    NoSpaceWhen(x, s.tree, s.height, e, s.alloc, full);
  }

  lemma FrameSorted(x: bool, d: Disk, root: int, walkHead: int, gcHead: int, end: int, total: int,
                    t: Tree, h: nat, w: seq<int>, g: seq<int>)
    requires Frame(x, d, root, walkHead, gcHead, end, total, t, h, w, g)
    ensures Sorted(x, Flat(t))
  {
  }

  lemma NodeSorted(x: bool, t: Tree, h: nat, name: string)
    requires Shaped(t, h) && Sorted(x, Flat(t))
    ensures Sorted(x, t.entries)
    ensures h > 0 ==> forall i :: 0 <= i < |t.kids| ==> Sorted(x, Flat(t.kids[i]))
  {
    if h == 0 { assert Flat(t) == t.entries; } else { DescendSplits(x, t, name); }
  }

  lemma EntryInFlat(t: Tree, h: nat, i: nat)
    requires Shaped(t, h) && i < |t.entries|
    ensures t.entries[i] in Flat(t)
  {
    if h > 0 { WeaveCut(t.entries, t.kids, i); }
  }
}
