/** The five-level index of an upload progress file: one direct status page, then a single, double,
    triple and quadruple indirect tree of pointer pages over status pages. */
module RadixIndex {
  const FANOUT: nat := 1024    // pointers in a pointer page
  const PER_PAGE: nat := 100   // block entries in a status page
  const LEVELS: nat := 5
  const EINVAL := 22

  // ----- which part of the index a page number falls in

  function Power(base: int, e: nat): int {
    if e == 0 then 1 else base * Power(base, e - 1)
  }

  lemma {:induction false} PowerAdd(base: int, m: nat, n: nat)
    ensures Power(base, m + n) == Power(base, m) * Power(base, n)
    decreases m
  {
    if m > 0 {
      PowerAdd(base, m - 1, n);
      assert base * (Power(base, m - 1) * Power(base, n)) == (base * Power(base, m - 1)) * Power(base, n);
    }
  }

  lemma {:induction false} PowerSquare(base: int, e: nat)
    ensures Power(base * base, e) == Power(base, 2 * e)
  {
    if e > 0 {
      PowerSquare(base, e - 1);
      assert Power(base, 2 * e) == base * (base * Power(base, 2 * (e - 1)));
    }
  }

  /** Repeated squaring, with a table for powers of 1024. */
  method LongPow(base: int, power: int) returns (r: int)
    ensures r == if power < 0 then 0 else Power(base, power)
  {
    if power < 0 { return 0; }
    if base == 1024 && power <= 6 {
      var table := [1, 1024, 1048576, 1073741824, 1099511627776, 1125899906842624, 1152921504606846976];
      TableIsPower(power);
      return table[power];
    }
    r := 1;
    var b, e := base, power;
    while e != 0
      invariant e >= 0
      invariant r * Power(b, e) == Power(base, power)
    {
      ghost var r0, b0, e0 := r, b, e;
      if e % 2 == 1 {
        r := r * b;
        e := e - 1;
        assert r * Power(b, e) == r0 * (b0 * Power(b0, e0 - 1));
      }
      PowerSquare(b, e / 2);
      b := b * b;
      e := e / 2;
    }
  }

  lemma TableIsPower(power: nat)
    requires power <= 6
    ensures Power(1024, power) == [1, 1024, 1048576, 1073741824, 1099511627776, 1125899906842624,
                                   1152921504606846976][power]
  {
    assert Power(1024, 0) == 1;
    assert Power(1024, 1) == 1024;
    assert Power(1024, 2) == 1048576;
    assert Power(1024, 3) == 1073741824;
    assert Power(1024, 4) == 1099511627776;
    assert Power(1024, 5) == 1125899906842624;
    assert Power(1024, 6) == 1152921504606846976;
  }

  /** How many status pages hang below one pointer of a page at `level`. */
  function Span(level: nat): (n: nat)
    ensures n >= 1
  {
    if level == 0 then 1 else FANOUT * Span(level - 1)
  }

  lemma {:induction false} SpanIsPower(level: nat)
    ensures Span(level) == Power(FANOUT, level)
  {
    if level > 0 { SpanIsPower(level - 1); }
  }

  /** The source's cascade of comparisons. */
  function PageLevel(page: int): int {
    if page == 0 then 0
    else if page - 1 < FANOUT then 1
    else if page - 1 - FANOUT < Span(2) then 2
    else if page - 1 - FANOUT - Span(2) < Span(3) then 3
    else if page - 1 - FANOUT - Span(2) - Span(3) < Span(4) then 4
    else -EINVAL
  }

  /** The first page number of a level. */
  function FirstPage(which: nat): nat {
    if which == 0 then 0 else if which == 1 then 1 else FirstPage(which - 1) + Span(which - 1)
  }

  /** Level `k` holds the `FANOUT^k` pages that follow those of the levels below it. */
  lemma PageLevelMeaning(page: nat, which: nat)
    requires which < LEVELS
    ensures PageLevel(page) == which <==> FirstPage(which) <= page < FirstPage(which) + Span(which)
    ensures PageLevel(page) < 0 <==> page >= FirstPage(LEVELS)
  {
    assert Span(1) == FANOUT * Span(0) && Span(2) == FANOUT * Span(1);
    assert Span(3) == FANOUT * Span(2) && Span(4) == FANOUT * Span(3);
    assert FirstPage(2) == 1 + Span(1) && FirstPage(3) == FirstPage(2) + Span(2);
    assert FirstPage(4) == FirstPage(3) + Span(3) && FirstPage(5) == FirstPage(4) + Span(4);
  }

  // ----- pages of the file

  datatype Status = Status(finished: bool, toUpload: bool, onCloud: bool, toUploadId: string, backendId: string,
                           toUploadSeq: int, backendSeq: int)

  const BLANK := Status(false, false, false, "", "", 0, 0)

  datatype Page = Pointers(ptr: seq<int>) | Statuses(entries: seq<Status>)

  function NoPointers(): (page: Page)
    ensures page.Pointers? && |page.ptr| == FANOUT && forall i :: 0 <= i < FANOUT ==> page.ptr[i] == 0
  {
    Pointers(seq(FANOUT, _ => 0))
  }

  function NoStatuses(): (page: Page)
    ensures page.Statuses? && |page.entries| == PER_PAGE && forall i :: 0 <= i < PER_PAGE ==> page.entries[i] == BLANK
  {
    Statuses(seq(PER_PAGE, _ => BLANK))
  }

  const META_SIZE: nat := 80
  const POINTER_PAGE_SIZE: nat := 8192
  const STATUS_PAGE_SIZE: nat := 14400

  function Size(page: Page): nat {
    if page.Pointers? then POINTER_PAGE_SIZE else STATUS_PAGE_SIZE
  }

  /** `roots[0]` is the direct status page, `roots[k]` the root of the k-fold indirect tree. */
  datatype Meta = Meta(action: int, backendSize: int, backendBlocks: int, toUploadSize: int, toUploadBlocks: int,
                       roots: seq<int>)

  datatype File = File(meta: Meta, pages: map<int, Page>, end: int)

  // ----- looking a page up

  function Kid(pages: map<int, Page>, pos: int, i: int): int {
    if pos in pages && pages[pos].Pointers? && 0 <= i < |pages[pos].ptr| then pages[pos].ptr[i] else 0
  }

  function High(k: nat, level: nat): nat { k / Span(level) }

  function Low(k: nat, level: nat): nat { k % Span(level) }

  function Find(pages: map<int, Page>, pos: int, level: nat, k: nat): int
    decreases level
  {
    if level == 0 then Kid(pages, pos, k)
    else Find(pages, Kid(pages, pos, High(k, level)), level - 1, Low(k, level))
  }

  function LookupPage(f: File, page: nat): int
    requires |f.meta.roots| == LEVELS
  {
    var which := PageLevel(page);
    if which < 0 then 0
    else if which == 0 then f.meta.roots[0]
    else PageLevelMeaning(page, which); Find(f.pages, f.meta.roots[which], which - 1, page - FirstPage(which))
  }

  /** Where the status page of a block is, or 0. */
  function Lookup(f: File, block: nat): int
    requires |f.meta.roots| == LEVELS
  {
    LookupPage(f, block / PER_PAGE)
  }

  // ----- what holds of every such file

  /** The place of a page: which tree, how far above the status pages, and its number there. */
  datatype Place = Place(which: nat, level: int, index: nat)

  function Child(l: Place, i: nat): Place {
    Place(l.which, l.level - 1, l.index * FANOUT + i)
  }

  ghost predicate Points(f: File, place: map<int, Place>, r: int, l: Place) {
    r == 0 || (r in f.pages && r in place && place[r] == l)
  }

  ghost predicate Fits(f: File, place: map<int, Place>, pos: int)
    requires pos in f.pages
  {
    META_SIZE <= pos && pos + Size(f.pages[pos]) <= f.end && pos in place &&
    match f.pages[pos] {
      case Pointers(ptr) =>
        |ptr| == FANOUT && place[pos].level >= 0 &&
        forall i: nat :: i < FANOUT ==> Points(f, place, ptr[i], Child(place[pos], i))
      case Statuses(entries) => |entries| == PER_PAGE && place[pos].level == -1
    }
  }

  ghost predicate RootsFit(f: File, place: map<int, Place>) {
    |f.meta.roots| == LEVELS &&
    forall w: nat :: w < LEVELS ==> Points(f, place, f.meta.roots[w], Place(w, w - 1, 0))
  }

  ghost predicate Apart(f: File) {
    forall p, q :: p in f.pages && q in f.pages && p < q ==> p + Size(f.pages[p]) <= q
  }

  /** Every pointer leads to a page of the right kind at the right place, and no two pages overlap. */
  ghost predicate Sound(f: File, place: map<int, Place>) {
    RootsFit(f, place) && META_SIZE <= f.end && Apart(f) && forall pos :: pos in f.pages ==> Fits(f, place, pos)
  }

  lemma MixedRadix(q: nat, i: nat, level: nat, k: nat)
    ensures (q * FANOUT + i) * Span(level) + k == q * Span(level + 1) + (i * Span(level) + k)
  {
    assert Span(level + 1) == FANOUT * Span(level);
    assert (q * FANOUT + i) * Span(level) == q * FANOUT * Span(level) + i * Span(level);
    assert q * (FANOUT * Span(level)) == q * FANOUT * Span(level);
  }

  lemma Quotient(k: nat, s: nat)
    requires s > 0 && k < FANOUT * s
    ensures k / s < FANOUT && k == k / s * s + k % s
  {
  }

  lemma Digit(k: nat, level: nat)
    requires k < Span(level + 1)
    ensures High(k, level) < FANOUT && Low(k, level) < Span(level)
    ensures k == High(k, level) * Span(level) + Low(k, level)
  {
    var s := Span(level);
    assert Span(level + 1) == FANOUT * s;
    Quotient(k, s);
  }

  /** A search for `k` stands at `pos`, a page at place `l` or no page at all. */
  ghost predicate Searching(f: File, place: map<int, Place>, pos: int, l: Place, k: nat) {
    Sound(f, place) && l.level >= 0 && Points(f, place, pos, l) && k < Span(l.level + 1)
  }

  /** The place of the status page searched for. */
  function Goal(l: Place, k: nat): Place
    requires l.level >= 0
  {
    Place(l.which, -1, l.index * Span(l.level + 1) + k)
  }

  lemma Descend(f: File, place: map<int, Place>, pos: int, l: Place, k: nat)
    requires Searching(f, place, pos, l, k)
    ensures var j, rest := High(k, l.level), Low(k, l.level); var kid := Kid(f.pages, pos, j);
            j < FANOUT &&
            if l.level == 0 then Points(f, place, kid, Goal(l, k)) && Goal(l, k) == Child(l, k)
            else Searching(f, place, kid, Child(l, j), rest) && Goal(Child(l, j), rest) == Goal(l, k)
  {
    var level := l.level;
    Digit(k, level);
    var i := High(k, level);
    assert Points(f, place, Kid(f.pages, pos, i), Child(l, i)) by { if pos != 0 { assert Fits(f, place, pos); } }
    if level == 0 {
      assert Span(1) == FANOUT * Span(0);
    } else {
      MixedRadix(l.index, i, level, Low(k, level));
    }
  }

  /** What a search finds lies at the place searched for. */
  lemma {:induction false} FindPlace(f: File, place: map<int, Place>, pos: int, l: Place, k: nat)
    requires Searching(f, place, pos, l, k)
    ensures Points(f, place, Find(f.pages, pos, l.level, k), Goal(l, k))
    decreases l.level
  {
    Descend(f, place, pos, l, k);
    if l.level > 0 {
      var j := High(k, l.level);
      FindPlace(f, place, Kid(f.pages, pos, j), Child(l, j), Low(k, l.level));
    }
  }

  lemma StartAt(f: File, place: map<int, Place>, page: nat)
    requires Sound(f, place) && PageLevel(page) > 0
    ensures var which := PageLevel(page);
            which < LEVELS && page >= FirstPage(which) &&
            Searching(f, place, f.meta.roots[which], Place(which, which - 1, 0), page - FirstPage(which)) &&
            Goal(Place(which, which - 1, 0), page - FirstPage(which)) == PlaceOf(page)
  {
    PageLevelMeaning(page, PageLevel(page));
  }

  function PlaceOf(page: nat): Place
    requires PageLevel(page) >= 0
  {
    PageLevelMeaning(page, PageLevel(page));
    Place(PageLevel(page), -1, page - FirstPage(PageLevel(page)))
  }

  lemma LookupPlace(f: File, place: map<int, Place>, page: nat)
    requires Sound(f, place) && PageLevel(page) >= 0
    ensures Points(f, place, LookupPage(f, page), PlaceOf(page))
  {
    var which := PageLevel(page);
    if which > 0 {
      StartAt(f, place, page);
      FindPlace(f, place, f.meta.roots[which], Place(which, which - 1, 0), page - FirstPage(which));
    }
  }

  /** Two blocks share a status page only when they belong together. */
  lemma SharedPage(f: File, place: map<int, Place>, b: nat, c: nat)
    requires Sound(f, place) && Lookup(f, b) != 0
    ensures Lookup(f, b) == Lookup(f, c) <==> b / PER_PAGE == c / PER_PAGE
  {
    var p, q := b / PER_PAGE, c / PER_PAGE;
    LookupPlace(f, place, p);
    if PageLevel(q) >= 0 {
      LookupPlace(f, place, q);
    }
  }
}
