/** How the index of a progress file changes: a page is appended, then a root or a pointer is set to it. */
module RadixGrowth {
  import opened RadixIndex

  function Appended(f: File, page: Page): File {
    f.(pages := f.pages[f.end := page], end := f.end + Size(page))
  }

  function WithRoot(f: File, w: nat, r: int): File
    requires w < |f.meta.roots|
  {
    f.(meta := f.meta.(roots := f.meta.roots[w := r]))
  }

  function WithPointer(f: File, p: int, i: nat, r: int): File
    requires p in f.pages && f.pages[p].Pointers? && i < |f.pages[p].ptr|
  {
    f.(pages := f.pages[p := Pointers(f.pages[p].ptr[i := r])])
  }

  function WithStatuses(f: File, p: int, entries: seq<Status>): File
    requires p in f.pages
  {
    f.(pages := f.pages[p := Statuses(entries)])
  }

  /** The status pages of `f` are still there, and nothing but the index of the header has changed. */
  ghost predicate Keeps(f: File, f': File) {
    f'.meta == f.meta.(roots := f'.meta.roots) &&
    forall pos :: pos in f.pages && f.pages[pos].Statuses? ==> pos in f'.pages && f'.pages[pos] == f.pages[pos]
  }

  /** `f'` differs from `f` at most inside the index: every search ends where it did. */
  ghost predicate Quiet(f: File, f': File) {
    |f.meta.roots| == LEVELS && |f'.meta.roots| == LEVELS && Keeps(f, f') &&
    forall page: nat :: LookupPage(f', page) == LookupPage(f, page)
  }

  /** Only the search for `page` has changed: it now ends at the blank page `r`. */
  ghost predicate Opens(f: File, f': File, page: nat, r: int) {
    |f.meta.roots| == LEVELS && |f'.meta.roots| == LEVELS && Keeps(f, f') &&
    LookupPage(f, page) == 0 && LookupPage(f', page) == r &&
    r in f'.pages && f'.pages[r] == NoStatuses() &&
    forall q: nat :: q != page ==> LookupPage(f', q) == LookupPage(f, q)
  }

  ghost predicate PlaceFits(place: map<int, Place>, place': map<int, Place>) {
    forall p :: p in place ==> p in place' && place'[p] == place[p]
  }

  lemma SoundWider(f: File, place: map<int, Place>, place': map<int, Place>)
    requires Sound(f, place) && PlaceFits(place, place')
    ensures Sound(f, place')
  {
    forall pos | pos in f.pages ensures Fits(f, place', pos) { assert Fits(f, place, pos); }
  }

  // ----- appending

  ghost predicate Blank(page: Page, l: Place) {
    (page == NoPointers() && l.level >= 0) || (page == NoStatuses() && l.level == -1)
  }

  lemma AppendSound(f: File, place: map<int, Place>, page: Page, l: Place)
    requires Sound(f, place) && Blank(page, l)
    ensures f.end !in f.pages && Sound(Appended(f, page), place[f.end := l])
  {
    var f', place' := Appended(f, page), place[f.end := l];
    Nowhere(f, place);
    forall pos | pos in f'.pages ensures Fits(f', place', pos) {
      if pos != f.end { assert Fits(f, place, pos); }
    }
    forall p, q | p in f'.pages && q in f'.pages && p < q ensures p + Size(f'.pages[p]) <= q {
      if p in f.pages { assert Fits(f, place, p); }
      if q in f.pages { assert Fits(f, place, q); }
    }
  }

  lemma {:induction false} AppendFind(f: File, place: map<int, Place>, page: Page, pos: int, l: Place, k: nat)
    requires Searching(f, place, pos, l, k)
    ensures Find(Appended(f, page).pages, pos, l.level, k) == Find(f.pages, pos, l.level, k)
    decreases l.level
  {
    Nowhere(f, place);
    Descend(f, place, pos, l, k);
    var j := High(k, l.level);
    assert Kid(Appended(f, page).pages, pos, j) == Kid(f.pages, pos, j);
    if l.level > 0 { AppendFind(f, place, page, Kid(f.pages, pos, j), Child(l, j), Low(k, l.level)); }
  }

  lemma Nowhere(f: File, place: map<int, Place>)
    requires Sound(f, place)
    ensures 0 !in f.pages && f.end !in f.pages && f.end > 0
  {
    forall pos | pos in f.pages ensures 0 < pos < f.end { assert Fits(f, place, pos); }
  }

  lemma AppendQuiet(f: File, place: map<int, Place>, page: Page, l: Place)
    requires Sound(f, place) && Blank(page, l)
    ensures Quiet(f, Appended(f, page))
  {
    var f' := Appended(f, page);
    AppendSound(f, place, page, l);
    forall n: nat ensures LookupPage(f', n) == LookupPage(f, n) {
      var which := PageLevel(n);
      if which > 0 {
        StartAt(f, place, n);
        AppendFind(f, place, page, f.meta.roots[which], Place(which, which - 1, 0), n - FirstPage(which));
      }
    }
  }

  // ----- setting a root

  lemma RootSound(f: File, place: map<int, Place>, w: nat, r: int)
    requires Sound(f, place) && w < LEVELS && Points(f, place, r, Place(w, w - 1, 0))
    ensures Sound(WithRoot(f, w, r), place)
  {
    var f' := WithRoot(f, w, r);
    forall pos | pos in f'.pages ensures Fits(f', place, pos) { assert Fits(f, place, pos); }
  }

  lemma {:induction false} BlankFind(pages: map<int, Page>, r: int, level: nat, k: nat)
    requires 0 !in pages && (r == 0 || (r in pages && pages[r] == NoPointers()))
    ensures Find(pages, r, level, k) == 0
    decreases level
  {
    assert Kid(pages, r, High(k, level)) == 0;
    if level > 0 { BlankFind(pages, 0, level - 1, Low(k, level)); }
  }

  /** The first pointer page of a level. */
  lemma RootQuiet(f: File, place: map<int, Place>, w: nat, r: int)
    requires Sound(f, place) && 0 < w < LEVELS && f.meta.roots[w] == 0
    requires r in f.pages && f.pages[r] == NoPointers()
    ensures Quiet(f, WithRoot(f, w, r))
  {
    var f' := WithRoot(f, w, r);
    Nowhere(f, place);
    forall n: nat ensures LookupPage(f', n) == LookupPage(f, n) {
      if PageLevel(n) == w {
        PageLevelMeaning(n, w);
        BlankFind(f.pages, 0, w - 1, n - FirstPage(w));
        BlankFind(f.pages, r, w - 1, n - FirstPage(w));
      }
    }
  }

  /** The direct status page. */
  lemma DirectOpens(f: File, place: map<int, Place>, r: int)
    requires Sound(f, place) && f.meta.roots[0] == 0 && r in f.pages && f.pages[r] == NoStatuses()
    ensures Opens(f, WithRoot(f, 0, r), 0, r)
  {
    var f' := WithRoot(f, 0, r);
    forall n: nat | n != 0 ensures LookupPage(f', n) == LookupPage(f, n) { PageLevelMeaning(n, 0); }
  }

  // ----- setting a pointer

  /** Slot `i` of pointer page `p` is free, and `r` is a blank page at the place below it. */
  ghost predicate Ready(f: File, place: map<int, Place>, p: int, i: nat, r: int) {
    Sound(f, place) && p in f.pages && f.pages[p].Pointers? && i < FANOUT == |f.pages[p].ptr| &&
    f.pages[p].ptr[i] == 0 && p in place && r != 0 && Points(f, place, r, Child(place[p], i)) &&
    Blank(f.pages[r], place[r])
  }

  lemma PointerSound(f: File, place: map<int, Place>, p: int, i: nat, r: int)
    requires Ready(f, place, p, i, r)
    ensures Sound(WithPointer(f, p, i, r), place)
  {
    var f' := WithPointer(f, p, i, r);
    forall pos | pos in f'.pages ensures Fits(f', place, pos) { assert Fits(f, place, pos); }
  }

  ghost predicate Elsewhere(f: File, place: map<int, Place>, p: int, i: nat, r: int, pos: int, l: Place, k: nat) {
    Ready(f, place, p, i, r) && Searching(f, place, pos, l, k) && place[r] != Goal(l, k)
  }

  /** A search is affected only if it is for the very status page `r` is to be. */
  lemma {:induction false} PointerFind(f: File, place: map<int, Place>, p: int, i: nat, r: int,
                                       pos: int, l: Place, k: nat)
    requires Elsewhere(f, place, p, i, r, pos, l, k)
    ensures Find(WithPointer(f, p, i, r).pages, pos, l.level, k) == Find(f.pages, pos, l.level, k)
    decreases l.level
  {
    var pages' := WithPointer(f, p, i, r).pages;
    var level := l.level;
    Nowhere(f, place);
    Descend(f, place, pos, l, k);
    var j, rest := High(k, level), Low(k, level);
    if level > 0 && pos == p && j == i {
      BlankBelow(f, place, p, i, r);
      BlankFind(f.pages, 0, level - 1, rest);
      BlankFind(pages', r, level - 1, rest);
    } else if level > 0 {
      assert Kid(pages', pos, j) == Kid(f.pages, pos, j);
      PointerFind(f, place, p, i, r, Kid(f.pages, pos, j), Child(l, j), rest);
    }
  }

  lemma BlankBelow(f: File, place: map<int, Place>, p: int, i: nat, r: int)
    requires Ready(f, place, p, i, r) && place[p].level > 0
    ensures var pages' := WithPointer(f, p, i, r).pages;
            Kid(pages', p, i) == r && Kid(f.pages, p, i) == 0 && r in pages' && pages'[r] == NoPointers() &&
            0 !in pages'
  {
    Nowhere(f, place);
  }

  lemma PointerLookup(f: File, place: map<int, Place>, p: int, i: nat, r: int, page: nat)
    requires Ready(f, place, p, i, r) && (PageLevel(page) >= 0 ==> PlaceOf(page) != place[r])
    ensures LookupPage(WithPointer(f, p, i, r), page) == LookupPage(f, page)
  {
    hide Find, Power, Span;
    var which := PageLevel(page);
    if which > 0 {
      StartAt(f, place, page);
      PointerFind(f, place, p, i, r, f.meta.roots[which], Place(which, which - 1, 0), page - FirstPage(which));
    }
  }

  lemma PointerQuiet(f: File, place: map<int, Place>, p: int, i: nat, r: int)
    requires Ready(f, place, p, i, r) && f.pages[r].Pointers?
    ensures Quiet(f, WithPointer(f, p, i, r))
  {
    var f' := WithPointer(f, p, i, r);
    forall n: nat ensures LookupPage(f', n) == LookupPage(f, n) { PointerLookup(f, place, p, i, r, n); }
  }

  // ----- the way down

  /** The search for `k` from `pos` comes to `p` with `kk` left. */
  ghost predicate Reach(pages: map<int, Page>, pos: int, level: nat, k: nat, p: int, l: nat, kk: nat)
    decreases level
  {
    if level <= l then level == l && pos == p && k == kk
    else Reach(pages, Kid(pages, pos, High(k, level)), level - 1, Low(k, level), p, l, kk)
  }

  lemma {:induction false} ReachFind(pages: map<int, Page>, pos: int, level: nat, k: nat, p: int, l: nat, kk: nat)
    requires Reach(pages, pos, level, k, p, l, kk)
    ensures Find(pages, pos, level, k) == Find(pages, p, l, kk)
    decreases level
  {
    if level > l { ReachFind(pages, Kid(pages, pos, High(k, level)), level - 1, Low(k, level), p, l, kk); }
  }

  lemma {:induction false} ReachStep(pages: map<int, Page>, pos: int, level: nat, k: nat, p: int, l: nat, kk: nat)
    requires Reach(pages, pos, level, k, p, l, kk) && l > 0
    ensures Reach(pages, pos, level, k, Kid(pages, p, High(kk, l)), l - 1, Low(kk, l))
    decreases level
  {
    if level > l { ReachStep(pages, Kid(pages, pos, High(k, level)), level - 1, Low(k, level), p, l, kk); }
  }

  /** Pages above `p` are not touched, so the way to `p` stays. */
  ghost predicate SameAbove(f: File, f': File, place: map<int, Place>, l: nat) {
    forall pos :: pos in f.pages && pos in place && place[pos].level > l ==>
        pos in f'.pages && f'.pages[pos] == f.pages[pos]
  }

  ghost predicate Untouched(f: File, f': File, place: map<int, Place>, pos: int, at: Place, k: nat,
                            p: int, l: nat, kk: nat) {
    Searching(f, place, pos, at, k) && SameAbove(f, f', place, l) && p != 0 &&
    Reach(f.pages, pos, at.level, k, p, l, kk)
  }

  lemma {:induction false} ReachKept(f: File, f': File, place: map<int, Place>, pos: int, at: Place, k: nat,
                                     p: int, l: nat, kk: nat)
    requires Untouched(f, f', place, pos, at, k, p, l, kk)
    ensures Reach(f'.pages, pos, at.level, k, p, l, kk)
    decreases at.level
  {
    var level := at.level;
    if level > l {
      Nowhere(f, place);
      if pos == 0 { ReachZero(f.pages, level, k, p, l, kk); }
      Descend(f, place, pos, at, k);
      var j := High(k, level);
      assert Kid(f'.pages, pos, j) == Kid(f.pages, pos, j);
      ReachKept(f, f', place, Kid(f.pages, pos, j), Child(at, j), Low(k, level), p, l, kk);
    }
  }

  lemma {:induction false} ReachZero(pages: map<int, Page>, level: nat, k: nat, p: int, l: nat, kk: nat)
    requires 0 !in pages && Reach(pages, 0, level, k, p, l, kk)
    ensures p == 0
    decreases level
  {
    if level > l { ReachZero(pages, level - 1, Low(k, level), p, l, kk); }
  }

  /** The search for `page` has come to pointer page `p`, with `k` left. */
  ghost predicate Standing(f: File, place: map<int, Place>, page: nat, p: int, level: nat, k: nat) {
    Sound(f, place) && 0 < PageLevel(page) < LEVELS && page >= FirstPage(PageLevel(page)) && p != 0 && p in place &&
    place[p].level == level && Searching(f, place, p, place[p], k) && Goal(place[p], k) == PlaceOf(page) &&
    Reach(f.pages, f.meta.roots[PageLevel(page)], PageLevel(page) - 1, page - FirstPage(PageLevel(page)), p, level, k)
  }

  lemma StandingStart(f: File, place: map<int, Place>, page: nat)
    requires Sound(f, place) && 0 < PageLevel(page) < LEVELS && f.meta.roots[PageLevel(page)] != 0
    ensures page >= FirstPage(PageLevel(page))
    ensures Standing(f, place, page, f.meta.roots[PageLevel(page)], PageLevel(page) - 1,
                     page - FirstPage(PageLevel(page)))
  {
    StartAt(f, place, page);
  }

  lemma StandingPage(f: File, place: map<int, Place>, page: nat, p: int, level: nat, k: nat)
    requires Standing(f, place, page, p, level, k)
    ensures p in f.pages && f.pages[p].Pointers? && High(k, level) < FANOUT == |f.pages[p].ptr|
    ensures f.pages[p].ptr[High(k, level)] == Kid(f.pages, p, High(k, level))
  {
    Descend(f, place, p, place[p], k);
    assert Fits(f, place, p);
  }

  /** A search that meets a null pointer finds nothing. */
  lemma StandingEnd(f: File, place: map<int, Place>, page: nat, p: int, level: nat, k: nat)
    requires Standing(f, place, page, p, level, k) && Kid(f.pages, p, High(k, level)) == 0
    ensures LookupPage(f, page) == 0
  {
    var which := PageLevel(page);
    Nowhere(f, place);
    ReachFind(f.pages, f.meta.roots[which], which - 1, page - FirstPage(which), p, level, k);
    NullFind(f.pages, p, level, k);
  }

  lemma NullFind(pages: map<int, Page>, p: int, level: nat, k: nat)
    requires 0 !in pages && Kid(pages, p, High(k, level)) == 0
    ensures Find(pages, p, level, k) == 0
  {
    if level > 0 { BlankFind(pages, 0, level - 1, Low(k, level)); }
  }

  lemma StandingDown(f: File, place: map<int, Place>, page: nat, p: int, level: nat, k: nat)
    requires Standing(f, place, page, p, level, k) && level > 0 && Kid(f.pages, p, High(k, level)) != 0
    ensures Standing(f, place, page, Kid(f.pages, p, High(k, level)), level - 1, Low(k, level))
  {
    var which := PageLevel(page);
    Descend(f, place, p, place[p], k);
    ReachStep(f.pages, f.meta.roots[which], which - 1, page - FirstPage(which), p, level, k);
  }

  lemma StandingAppend(f: File, place: map<int, Place>, page: nat, p: int, level: nat, k: nat, added: Page, l: Place)
    requires Standing(f, place, page, p, level, k) && Blank(added, l)
    ensures Standing(Appended(f, added), place[f.end := l], page, p, level, k)
  {
    AppendSound(f, place, added, l);
    StartAt(f, place, page);
    var which := PageLevel(page);
    ReachKept(f, Appended(f, added), place, f.meta.roots[which], Place(which, which - 1, 0), page - FirstPage(which),
              p, level, k);
  }

  lemma StandingPointer(f: File, place: map<int, Place>, page: nat, p: int, level: nat, k: nat, r: int)
    requires Standing(f, place, page, p, level, k) && Ready(f, place, p, High(k, level), r)
    ensures Standing(WithPointer(f, p, High(k, level), r), place, page, p, level, k)
  {
    PointerSound(f, place, p, High(k, level), r);
    StartAt(f, place, page);
    var which := PageLevel(page);
    ReachKept(f, WithPointer(f, p, High(k, level), r), place, f.meta.roots[which], Place(which, which - 1, 0),
              page - FirstPage(which), p, level, k);
  }

  lemma StandingLookup(f: File, place: map<int, Place>, page: nat, p: int, k: nat)
    requires Standing(f, place, page, p, 0, k)
    ensures LookupPage(f, page) == Kid(f.pages, p, k)
  {
    var which := PageLevel(page);
    ReachFind(f.pages, f.meta.roots[which], which - 1, page - FirstPage(which), p, 0, k);
  }

  /** Setting the last pointer opens the page searched for, and no other. */
  lemma StandingOpens(f: File, place: map<int, Place>, page: nat, p: int, k: nat, r: int)
    requires Standing(f, place, page, p, 0, k) && High(k, 0) == k && Ready(f, place, p, k, r) &&
             f.pages[r] == NoStatuses()
    ensures Opens(f, WithPointer(f, p, k, r), page, r)
  {
    var f' := WithPointer(f, p, k, r);
    StandingLookup(f, place, page, p, k);
    StandingPointer(f, place, page, p, 0, k, r);
    StandingLookup(f', place, page, p, k);
    Descend(f, place, p, place[p], k);
    forall q: nat | q != page ensures LookupPage(f', q) == LookupPage(f, q) {
      if PageLevel(q) >= 0 { DistinctPlaces(page, q); }
      PointerLookup(f, place, p, k, r, q);
    }
  }

  lemma DistinctPlaces(page: nat, q: nat)
    requires page != q && PageLevel(page) >= 0 && PageLevel(q) >= 0
    ensures PlaceOf(page) != PlaceOf(q)
  {
    PageLevelMeaning(page, PageLevel(page));
    PageLevelMeaning(q, PageLevel(q));
  }

  lemma QuietTrans(f: File, f1: File, f': File)
    requires Quiet(f, f1) && Quiet(f1, f')
    ensures Quiet(f, f')
  {
    forall page: nat ensures LookupPage(f', page) == LookupPage(f, page) {
      assert LookupPage(f1, page) == LookupPage(f, page);
    }
  }
}
