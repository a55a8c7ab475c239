/** The upload progress file: a status for each block, reached through the radix index, and an action
    byte in the header that tells recovery how far the upload had come. */
module ProgressFile {
  import opened Options
  import opened RadixIndex
  import opened RadixGrowth

  const ENOENT := 2

  const PREPARING := 0
  const NOW_UPLOADING := 1
  const DEL_TOUPLOAD_BLOCKS := 2
  const DEL_BACKEND_BLOCKS := 3

  const ST_NONE := 0
  const ST_TODELETE := 6

  // ----- what a file says about a block

  ghost predicate HasEntries(f: File, pos: int) {
    pos in f.pages && f.pages[pos].Statuses? && |f.pages[pos].entries| == PER_PAGE
  }

  /** The plain map from block numbers to statuses that the index stands for. */
  ghost function View(f: File, block: nat): Option<Status>
    requires |f.meta.roots| == LEVELS
  {
    var pos := Lookup(f, block);
    if pos != 0 && HasEntries(f, pos) then Some(f.pages[pos].entries[block % PER_PAGE]) else None
  }

  lemma ViewSome(f: File, place: map<int, Place>, block: nat)
    requires Sound(f, place)
    ensures Lookup(f, block) != 0 <==> View(f, block).Some?
    ensures Lookup(f, block) != 0 ==> HasEntries(f, Lookup(f, block))
  {
    if PageLevel(block / PER_PAGE) >= 0 {
      LookupPlace(f, place, block / PER_PAGE);
      var pos := Lookup(f, block);
      if pos != 0 { assert Fits(f, place, pos); }
    }
  }

  lemma QuietView(f: File, place: map<int, Place>, f': File, block: nat)
    requires Sound(f, place) && Quiet(f, f')
    ensures View(f', block) == View(f, block)
  {
    ViewSome(f, place, block);
    assert Lookup(f', block) == Lookup(f, block);
  }

  /** The page of `block` is there; pages that were there are as they were, a new one is blank. */
  ghost predicate Created(f: File, f': File, block: nat, offset: int)
    requires |f.meta.roots| == LEVELS && |f'.meta.roots| == LEVELS
  {
    offset != 0 && Lookup(f', block) == offset && Keeps(f, f') &&
    (forall b: nat :: Lookup(f, b) != 0 ==> Lookup(f', b) == Lookup(f, b)) &&
    (forall b: nat :: View(f', b) == CreatedView(f, block, b))
  }

  ghost function CreatedView(f: File, block: nat, b: nat): Option<Status>
    requires |f.meta.roots| == LEVELS
  {
    if b / PER_PAGE == block / PER_PAGE && View(f, b).None? then Some(BLANK) else View(f, b)
  }

  lemma OpensCreated(f: File, f1: File, f': File, place: map<int, Place>, block: nat, r: int)
    requires Sound(f, place) && Quiet(f, f1) && Sound(f1, place) && Sound(f', place)
    requires r != 0 && Opens(f1, f', block / PER_PAGE, r)
    ensures Created(f, f', block, r)
  {
    assert Keeps(f, f');
    forall b: nat ensures Lookup(f, b) != 0 ==> Lookup(f', b) == Lookup(f, b) {
      assert LookupPage(f1, b / PER_PAGE) == LookupPage(f, b / PER_PAGE);
    }
    forall b: nat ensures View(f', b) == CreatedView(f, block, b) {
      OpensView(f, f1, f', place, block, r, b);
    }
  }

  lemma OpensView(f: File, f1: File, f': File, place: map<int, Place>, block: nat, r: int, b: nat)
    requires Sound(f, place) && Quiet(f, f1) && Sound(f1, place) && Sound(f', place)
    requires r != 0 && Opens(f1, f', block / PER_PAGE, r)
    ensures View(f', b) == CreatedView(f, block, b)
  {
    ViewSome(f, place, b);
    ViewSome(f', place, b);
    assert LookupPage(f1, b / PER_PAGE) == LookupPage(f, b / PER_PAGE);
    assert b % PER_PAGE < PER_PAGE;
  }

  lemma QuietCreated(f: File, f': File, place: map<int, Place>, block: nat, offset: int)
    requires Sound(f, place) && Quiet(f, f') && offset != 0 && Lookup(f', block) == offset
    ensures Created(f, f', block, offset)
  {
    assert Lookup(f, block) == offset;
    forall b: nat ensures View(f', b) == CreatedView(f, block, b) {
      QuietView(f, place, f', b);
      ViewSome(f, place, b);
    }
  }

  // ----- updating one status

  /** What `set_progress_info` is told to change; `None` leaves a field alone. */
  datatype Change = Change(toUpload: Option<bool>, onCloud: Option<bool>, toUploadSeq: Option<int>,
                           backendSeq: Option<int>, toUploadId: Option<string>, backendId: Option<string>,
                           finished: Option<bool>)

  function Or<T>(o: Option<T>, default: T): T {
    if o.Some? then o.value else default
  }

  function Apply(s: Status, c: Change): Status {
    Status(Or(c.finished, s.finished), Or(c.toUpload, s.toUpload), Or(c.onCloud, s.onCloud),
           Or(c.toUploadId, s.toUploadId), Or(c.backendId, s.backendId),
           Or(c.toUploadSeq, s.toUploadSeq), Or(c.backendSeq, s.backendSeq))
  }

  /** A field is what it is told to be, or else what it was. */
  ghost predicate Takes<T>(told: Option<T>, was: T, now: T) {
    (told.Some? ==> now == told.value) && (told.None? ==> now == was)
  }

  /** Field by field: what was there before a change, a blank status if nothing was, and what is there after. */
  ghost predicate Changes(c: Change, before: Option<Status>, now: Status) {
    var was := match before { case Some(s) => s case None => Status(false, false, false, "", "", 0, 0) };
    Takes(c.finished, was.finished, now.finished) &&
    Takes(c.toUpload, was.toUpload, now.toUpload) &&
    Takes(c.onCloud, was.onCloud, now.onCloud) &&
    Takes(c.toUploadId, was.toUploadId, now.toUploadId) &&
    Takes(c.backendId, was.backendId, now.backendId) &&
    Takes(c.toUploadSeq, was.toUploadSeq, now.toUploadSeq) &&
    Takes(c.backendSeq, was.backendSeq, now.backendSeq)
  }

  /** The plain map after the change: the block's own status, and blanks on its page if that is new. */
  ghost function SetView(f: File, block: nat, c: Change, b: nat): Option<Status>
    requires |f.meta.roots| == LEVELS
  {
    if b == block then Some(Apply(Or(View(f, block), BLANK), c)) else CreatedView(f, block, b)
  }

  /** Writing a status page changes what is said about the blocks of that page only. */
  lemma WrittenSound(f: File, place: map<int, Place>, block: nat, entries: seq<Status>)
    requires Sound(f, place) && Lookup(f, block) != 0 && |entries| == PER_PAGE && Lookup(f, block) in f.pages
    ensures Sound(WithStatuses(f, Lookup(f, block), entries), place)
  {
    var pos := Lookup(f, block);
    var f' := WithStatuses(f, pos, entries);
    ViewSome(f, place, block);
    forall q | q in f'.pages ensures Fits(f', place, q) { assert Fits(f, place, q) && Fits(f, place, pos); }
  }

  lemma {:induction false} WrittenFind(f: File, place: map<int, Place>, p: int, entries: seq<Status>,
                                       pos: int, l: Place, k: nat)
    requires Searching(f, place, pos, l, k) && HasEntries(f, p)
    ensures Find(WithStatuses(f, p, entries).pages, pos, l.level, k) == Find(f.pages, pos, l.level, k)
    decreases l.level
  {
    Descend(f, place, pos, l, k);
    var j := High(k, l.level);
    assert Kid(WithStatuses(f, p, entries).pages, pos, j) == Kid(f.pages, pos, j);
    if l.level > 0 { WrittenFind(f, place, p, entries, Kid(f.pages, pos, j), Child(l, j), Low(k, l.level)); }
  }

  lemma WrittenLookup(f: File, place: map<int, Place>, p: int, entries: seq<Status>, page: nat)
    requires Sound(f, place) && HasEntries(f, p)
    ensures LookupPage(WithStatuses(f, p, entries), page) == LookupPage(f, page)
  {
    var which := PageLevel(page);
    if which > 0 {
      StartAt(f, place, page);
      WrittenFind(f, place, p, entries, f.meta.roots[which], Place(which, which - 1, 0), page - FirstPage(which));
    }
  }

  lemma WrittenView(f: File, place: map<int, Place>, block: nat, entries: seq<Status>, b: nat)
    requires Sound(f, place) && Lookup(f, block) != 0 && |entries| == PER_PAGE && HasEntries(f, Lookup(f, block))
    ensures View(WithStatuses(f, Lookup(f, block), entries), b) ==
            if b / PER_PAGE == block / PER_PAGE then Some(entries[b % PER_PAGE]) else View(f, b)
  {
    var pos := Lookup(f, block);
    WrittenLookup(f, place, pos, entries, b / PER_PAGE);
    SharedPage(f, place, block, b);
  }

  lemma SetViews(f: File, f1: File, place: map<int, Place>, block: nat, offset: int, entries: seq<Status>, c: Change)
    requires |f.meta.roots| == LEVELS && Sound(f1, place) && Created(f, f1, block, offset) && HasEntries(f1, offset)
    requires entries ==
             f1.pages[offset].entries[block % PER_PAGE := Apply(f1.pages[offset].entries[block % PER_PAGE], c)]
    ensures forall b: nat :: View(WithStatuses(f1, offset, entries), b) == SetView(f, block, c, b)
  {
    var f' := WithStatuses(f1, offset, entries);
    forall b: nat ensures View(f', b) == SetView(f, block, c, b) {
      WrittenView(f1, place, block, entries, b);
      assert View(f1, b) == CreatedView(f, block, b);
      SharedPage(f1, place, block, b);
      if b / PER_PAGE == block / PER_PAGE && b != block { assert b % PER_PAGE != block % PER_PAGE; }
    }
  }

  // ----- the backend's record

  datatype BlockEntry = BlockEntry(status: int, seqnum: int, id: string)

  /** The block pages of the file as the backend has it; a missing page is not there. */
  type Backend = map<nat, seq<BlockEntry>>

  ghost predicate Readable(backend: Backend) {
    forall p :: p in backend ==> |backend[p]| == PER_PAGE && PageLevel(p) >= 0
  }

  /** The backend holds this block. */
  predicate Live(backend: Backend, b: nat) {
    b / PER_PAGE in backend && b % PER_PAGE < |backend[b / PER_PAGE]| &&
    backend[b / PER_PAGE][b % PER_PAGE].status != ST_NONE &&
    backend[b / PER_PAGE][b % PER_PAGE].status != ST_TODELETE
  }

  function Record(e: BlockEntry, drive: bool): Status {
    BLANK.(onCloud := true, backendSeq := e.seqnum, backendId := if drive then e.id else "")
  }

  /** What the first `n` blocks of the backend make of block `b`. */
  function Recorded(backend: Backend, drive: bool, n: nat, b: nat): Status {
    if b < n && Live(backend, b) then Record(backend[b / PER_PAGE][b % PER_PAGE], drive) else BLANK
  }

  ghost predicate HasLive(backend: Backend, page: nat, n: nat) {
    exists b: nat :: b < n && b / PER_PAGE == page && Live(backend, b)
  }

  ghost function Want(f: File, backend: Backend, drive: bool, n: nat, b: nat): Option<Status>
    requires |f.meta.roots| == LEVELS
  {
    if HasLive(backend, b / PER_PAGE, n) then Some(Recorded(backend, drive, n, b)) else View(f, b)
  }

  /** Field by field: a block the backend has is recorded as it is there, with nothing to upload; any other block
      is blank if its page holds such a block, and as it was otherwise. */
  ghost predicate Copied(backend: Backend, drive: bool, n: nat, b: nat, before: Option<Status>, now: Option<Status>) {
    var page, e := b / PER_PAGE, b % PER_PAGE;
    if b < n && page in backend && e < |backend[page]| && backend[page][e].status !in {ST_NONE, ST_TODELETE} then
      now == Some(Status(false, false, true, "", if drive then backend[page][e].id else "", 0, backend[page][e].seqnum))
    else now == before || now == Some(Status(false, false, false, "", "", 0, 0))
  }

  lemma WantCopied(f: File, backend: Backend, drive: bool, n: nat, b: nat)
    requires |f.meta.roots| == LEVELS
    ensures Copied(backend, drive, n, b, View(f, b), Want(f, backend, drive, n, b))
  {
    if b < n && Live(backend, b) { assert HasLive(backend, b / PER_PAGE, n); }
  }

  lemma WantSkip(f: File, backend: Backend, drive: bool, n: nat, m: nat, b: nat)
    requires |f.meta.roots| == LEVELS && n <= m && forall i: nat :: n <= i < m ==> !Live(backend, i)
    ensures HasLive(backend, b / PER_PAGE, m) == HasLive(backend, b / PER_PAGE, n)
    ensures Want(f, backend, drive, m, b) == Want(f, backend, drive, n, b)
  {
  }

  lemma WantNext(f: File, backend: Backend, drive: bool, n: nat, b: nat)
    requires |f.meta.roots| == LEVELS && b / PER_PAGE != n / PER_PAGE
    ensures Want(f, backend, drive, n + 1, b) == Want(f, backend, drive, n, b)
  {
    assert b != n;
  }

  /** The loop has dealt with the blocks below `n`; what it has for the current page is pending in
      `status` if `writing`, and is in the file otherwise. */
  ghost predicate Filling(f: File, f1: File, backend: Backend, drive: bool, n: nat, page: int, writing: bool,
                          status: seq<Status>, offset: int) {
    |f.meta.roots| == LEVELS && |f1.meta.roots| == LEVELS && f1.meta == f.meta.(roots := f1.meta.roots) &&
    |status| == PER_PAGE &&
    if writing then Pending(f, f1, backend, drive, n, page, status, offset)
    else status == NoStatuses().entries && !HasLive(backend, n / PER_PAGE, n) &&
         forall b: nat :: View(f1, b) == Want(f, backend, drive, n, b)
  }

  ghost predicate Pending(f: File, f1: File, backend: Backend, drive: bool, n: nat, page: int,
                          status: seq<Status>, offset: int)
    requires |f.meta.roots| == LEVELS && |f1.meta.roots| == LEVELS && |status| == PER_PAGE
  {
    0 <= page && LookupPage(f1, page) == offset != 0 && HasEntries(f1, offset) && HasLive(backend, page, n) &&
    (forall e: nat :: e < PER_PAGE ==> status[e] == Recorded(backend, drive, n, page * PER_PAGE + e)) &&
    forall b: nat :: b / PER_PAGE != page ==> View(f1, b) == Want(f, backend, drive, n, b)
  }

  lemma FillSkip(f: File, f1: File, backend: Backend, drive: bool, n: nat, m: nat, page: int, writing: bool,
                 status: seq<Status>, offset: int)
    requires Filling(f, f1, backend, drive, n, page, writing, status, offset)
    requires n <= m && forall i: nat :: n <= i < m ==> !Live(backend, i)
    ensures Filling(f, f1, backend, drive, m, page, writing, status, offset)
  {
    forall b: nat ensures Want(f, backend, drive, m, b) == Want(f, backend, drive, n, b) {
      WantSkip(f, backend, drive, n, m, b);
    }
    if writing {
      WantSkip(f, backend, drive, n, m, page * PER_PAGE);
    } else {
      NoneBefore(backend, n, m);
    }
  }

  lemma NoneBefore(backend: Backend, n: nat, m: nat)
    requires n <= m && !HasLive(backend, n / PER_PAGE, n) && forall i: nat :: n <= i < m ==> !Live(backend, i)
    ensures !HasLive(backend, m / PER_PAGE, m)
  {
  }

  /** Writing the pending page brings the file up to date. */
  lemma FillWrite(f: File, f1: File, place: map<int, Place>, backend: Backend, drive: bool, n: nat, page: nat,
                  status: seq<Status>, offset: int)
    requires Filling(f, f1, backend, drive, n, page, true, status, offset) && Sound(f1, place)
    ensures offset in f1.pages && Sound(WithStatuses(f1, offset, status), place)
    ensures forall b: nat :: View(WithStatuses(f1, offset, status), b) == Want(f, backend, drive, n, b)
  {
    var f2 := WithStatuses(f1, offset, status);
    assert page * PER_PAGE / PER_PAGE == page;
    assert Lookup(f1, page * PER_PAGE) == offset;
    WrittenSound(f1, place, page * PER_PAGE, status);
    forall b: nat ensures View(f2, b) == Want(f, backend, drive, n, b) {
      WrittenView(f1, place, page * PER_PAGE, status, b);
      if b / PER_PAGE == page { assert b == page * PER_PAGE + b % PER_PAGE; }
    }
  }

  lemma FillFirst(f: File, f1: File, f2: File, place: map<int, Place>, backend: Backend, drive: bool, n: nat,
                  status: seq<Status>, offset: int)
    requires Filling(f, f1, backend, drive, n, n / PER_PAGE, false, NoStatuses().entries, offset) && Live(backend, n)
    requires |f2.meta.roots| == LEVELS && Created(f1, f2, n, offset) && Sound(f2, place)
    requires status == NoStatuses().entries[n % PER_PAGE := Recorded(backend, drive, n + 1, n)]
    ensures Filling(f, f2, backend, drive, n + 1, n / PER_PAGE, true, status, offset)
  {
    hide Sound, View, LookupPage;
    var page := n / PER_PAGE;
    ViewSome(f2, place, n);
    assert HasLive(backend, page, n + 1);
    forall e: nat | e < PER_PAGE ensures status[e] == Recorded(backend, drive, n + 1, page * PER_PAGE + e) {
      var b := page * PER_PAGE + e;
      assert b / PER_PAGE == page && b % PER_PAGE == e;
    }
    forall b: nat | b / PER_PAGE != page ensures View(f2, b) == Want(f, backend, drive, n + 1, b) {
      WantNext(f, backend, drive, n, b);
      assert View(f2, b) == CreatedView(f1, n, b);
    }
  }

  lemma FillMore(f: File, f1: File, backend: Backend, drive: bool, n: nat, status: seq<Status>, offset: int)
    requires Filling(f, f1, backend, drive, n, n / PER_PAGE, true, status, offset) && Live(backend, n)
    ensures Filling(f, f1, backend, drive, n + 1, n / PER_PAGE, true,
                    status[n % PER_PAGE := Recorded(backend, drive, n + 1, n)], offset)
  {
    var page := n / PER_PAGE;
    var status' := status[n % PER_PAGE := Recorded(backend, drive, n + 1, n)];
    assert HasLive(backend, page, n + 1);
    forall e: nat | e < PER_PAGE ensures status'[e] == Recorded(backend, drive, n + 1, page * PER_PAGE + e) {
      var b := page * PER_PAGE + e;
      assert b / PER_PAGE == page && b % PER_PAGE == e;
    }
    forall b: nat | b / PER_PAGE != page ensures View(f1, b) == Want(f, backend, drive, n + 1, b) {
      WantNext(f, backend, drive, n, b);
    }
  }

  // ----- the file

  /** The writes from number `n` on: after each of them the file is sound, and says what it did before. */
  ghost predicate QuietLog(log: seq<File>, n: nat, f: File, place: map<int, Place>) {
    forall j :: n <= j < |log| ==> Sound(log[j], place) && Quiet(f, log[j])
  }

  lemma QuietLogNext(log: seq<File>, n: nat, f: File, place: map<int, Place>, f1: File, place': map<int, Place>)
    requires QuietLog(log, n, f, place) && PlaceFits(place, place') && Sound(f1, place') && Quiet(f, f1)
    ensures QuietLog(log + [f1], n, f, place')
  {
    var log' := log + [f1];
    forall j | n <= j < |log'| ensures Sound(log'[j], place') && Quiet(f, log'[j]) {
      if j < |log| { SoundWider(log[j], place, place'); }
    }
  }

  /** A file, the places of its pages, and the writes made so far. */
  datatype Snap = Snap(file: File, place: map<int, Place>, log: seq<File>)

  /** Since `s` nothing but index pages have been written, each write leaving a sound file. */
  ghost predicate Grown(s: Snap, file: File, place: map<int, Place>, log: seq<File>) {
    Sound(file, place) && place.Keys == file.pages.Keys && PlaceFits(s.place, place) && Quiet(s.file, file) &&
    s.log <= log && QuietLog(log, |s.log|, s.file, place)
  }

  lemma GrownNext(s: Snap, file: File, place: map<int, Place>, log: seq<File>, file': File, place': map<int, Place>)
    requires Grown(s, file, place, log) && PlaceFits(place, place') && Sound(file', place') && Quiet(file, file')
    requires place'.Keys == file'.pages.Keys
    ensures Grown(s, file', place', log + [file'])
  {
    QuietTrans(s.file, file, file');
    QuietLogNext(log, |s.log|, s.file, place, file', place');
  }

  /** A crash after any write leaves a sound file that says either what `f` says or what `f'` says. */
  ghost predicate CrashSafe(log: seq<File>, n: nat, f: File, f': File, place: map<int, Place>) {
    forall j :: n <= j < |log| ==> Sound(log[j], place) && (Quiet(f, log[j]) || log[j] == f')
  }

  lemma GrownDone(s: Snap, file: File, place: map<int, Place>, log: seq<File>, file': File)
    requires Grown(s, file, place, log) && Sound(file', place)
    ensures CrashSafe(log + [file'], |s.log|, s.file, file', place)
  {
  }

  /** The writes from number `n` on leave sound files with the given action. */
  ghost predicate Steady(log: seq<File>, n: nat, action: int, place: map<int, Place>) {
    forall j :: n <= j < |log| ==> Sound(log[j], place) && log[j].meta.action == action
  }

  /** Since `s` every write has left a sound file with the same action. */
  ghost predicate Underway(s: Snap, file: File, place: map<int, Place>, log: seq<File>) {
    Sound(file, place) && place.Keys == file.pages.Keys && PlaceFits(s.place, place) && s.log <= log &&
    Steady(log, |s.log|, s.file.meta.action, place)
  }

  /** The page being filled when block `n` comes next. */
  ghost predicate AtBlock(backend: Backend, n: nat, blocks: nat, page: int) {
    (forall i: nat :: blocks <= i < n ==> !Live(backend, i)) &&
    if n % PER_PAGE == 0 then page < n / PER_PAGE else page == n / PER_PAGE && n / PER_PAGE in backend
  }

  /** The loop over the blocks of the backend, about to look at block `n`. */
  ghost predicate Copying(s: Snap, file: File, place: map<int, Place>, log: seq<File>, backend: Backend, drive: bool,
                          n: nat, blocks: nat, page: int, writing: bool, status: seq<Status>, offset: int) {
    Underway(s, file, place, log) && AtBlock(backend, n, blocks, page) &&
    Filling(s.file, file, backend, drive, n, page, writing, status, offset)
  }

  lemma CopyStart(s: Snap, backend: Backend, drive: bool, blocks: nat)
    requires Sound(s.file, s.place) && s.place.Keys == s.file.pages.Keys
    ensures Copying(s, s.file, s.place, s.log, backend, drive, 0, blocks, -1, false, NoStatuses().entries, 0)
  {
  }

  lemma SteadyCreate(log: seq<File>, log': seq<File>, n: nat, f: File, f': File, place: map<int, Place>,
                     place': map<int, Place>)
    requires Steady(log, n, f.meta.action, place) && PlaceFits(place, place') && log <= log'
    requires CrashSafe(log', |log|, f, f', place') && Keeps(f, f')
    ensures Steady(log', n, f.meta.action, place')
  {
    forall j | n <= j < |log'| ensures Sound(log'[j], place') && log'[j].meta.action == f.meta.action {
      if j < |log| {
        assert log'[j] == log[j];
        SoundWider(log[j], place, place');
      }
    }
  }

  /** The head of the file once the record of the backend is complete. */
  function Started(meta: Meta, roots: seq<int>, blocks: int, size: int): Meta {
    meta.(action := NOW_UPLOADING, backendSize := size, backendBlocks := blocks, roots := roots)
  }

  /** BLOCKS_OF_SIZE. */
  function BlocksOf(size: nat, blockSize: nat): nat
    requires blockSize > 0
  {
    if size == 0 then 0 else (size - 1) / blockSize + 1
  }

  /** They are as many as it takes to hold the size. */
  lemma BlocksHold(size: nat, blockSize: nat, n: nat)
    requires blockSize > 0
    ensures size <= n * blockSize <==> BlocksOf(size, blockSize) <= n
  {
    if size > 0 {
      var q := (size - 1) / blockSize;
      assert q * blockSize <= size - 1 < (q + 1) * blockSize;
      if n <= q { assert n * blockSize <= q * blockSize; } else { assert (q + 1) * blockSize <= n * blockSize; }
    }
  }

  lemma MetaView(f: File, meta: Meta, place: map<int, Place>)
    requires Sound(f, place) && meta.roots == f.meta.roots
    ensures Sound(f.(meta := meta), place)
    ensures forall b: nat :: View(f.(meta := meta), b) == View(f, b)
  {
    var f' := f.(meta := meta);
    forall pos | pos in f'.pages ensures Fits(f', place, pos) { assert Fits(f, place, pos); }
  }

  /** Every page of the file is where it belongs, wherever that is. */
  ghost predicate Healthy(f: File) {
    exists place: map<int, Place> :: Sound(f, place)
  }

  lemma SoundNarrower(f: File, place: map<int, Place>, own: map<int, Place>)
    requires Sound(f, place) && (forall p :: p in f.pages ==> p in own && p in place && own[p] == place[p])
    ensures Sound(f, own)
  {
    forall pos | pos in f.pages ensures Fits(f, own, pos) { assert Fits(f, place, pos); }
  }

  /** What a crash in the middle of a change can leave behind. */
  ghost predicate CrashedSet(f: File, f': File, place: map<int, Place>, block: nat, c: Change) {
    Sound(f', place) && |f.meta.roots| == LEVELS && f'.meta == f.meta.(roots := f'.meta.roots) &&
    ((forall b: nat :: View(f', b) == View(f, b)) ||
     (forall b: nat :: View(f', b) == CreatedView(f, block, b)) ||
     (forall b: nat :: View(f', b) == SetView(f, block, c, b)))
  }

  lemma CrashedSets(f: File, log: seq<File>, f1: File, l: seq<File>, f': File, place: map<int, Place>, block: nat,
                    offset: int, c: Change)
    requires |f.meta.roots| == LEVELS && log <= l && CrashSafe(l, |log|, f, f1, place)
    requires |f1.meta.roots| == LEVELS && Created(f, f1, block, offset) && Sound(f', place) && f'.meta == f1.meta
    requires forall b: nat :: View(f', b) == SetView(f, block, c, b)
    requires Sound(f, place)
    ensures forall j :: |log| <= j < |l + [f']| ==> CrashedSet(f, (l + [f'])[j], place, block, c)
  {
    var l' := l + [f'];
    forall j | |log| <= j < |l'| ensures CrashedSet(f, l'[j], place, block, c) {
      if j < |l| && Quiet(f, l[j]) {
        forall b: nat ensures View(l[j], b) == View(f, b) { QuietView(f, place, l[j], b); }
      }
    }
  }

  class ProgressInfo {
    var file: File
    ghost var place: map<int, Place>   // where each page belongs
    var log: seq<File>                 // the file after each write so far

    ghost predicate Valid()
      reads this
    {
      Sound(file, place) && place.Keys == file.pages.Keys
    }

    /** A new file holds a header only. */
    constructor ()
      ensures Valid() && file.meta.action == PREPARING && file.meta.backendBlocks == 0 && log == [file]
      ensures forall b: nat :: View(file, b) == None
    {
      var f := File(Meta(PREPARING, 0, 0, 0, 0, [0, 0, 0, 0, 0]), map[], META_SIZE);
      file, place, log := f, map[], [f];
      new;
      forall b: nat ensures View(file, b) == None { }
    }

    /** The file as a crash left it, opened again. */
    constructor Reopen(f: File)
      requires Healthy(f)
      ensures Valid() && file == f && log == [f]
    {
      ghost var at: map<int, Place> :| Sound(f, at);
      file, log := f, [f];
      place := map p | p in f.pages :: at[p];
      new;
      SoundNarrower(f, at, place);
    }

    // ----- single writes

    method Append(page: Page, ghost l: Place) returns (r: int)
      requires Valid() && Blank(page, l)
      modifies this
      ensures Valid() && file == Appended(old(file), page) && place == old(place)[r := l]
      ensures r == old(file.end) != 0 && r !in old(file.pages) && PlaceFits(old(place), place)
      ensures Quiet(old(file), file) && log == old(log) + [file]
      ensures file.end == old(file.end) + if page.Pointers? then POINTER_PAGE_SIZE else STATUS_PAGE_SIZE
    {
      AppendSound(file, place, page, l);
      AppendQuiet(file, place, page, l);
      Nowhere(file, place);
      r := file.end;
      file := Appended(file, page);
      place := place[r := l];
      log := log + [file];
    }

    method WriteMeta(meta: Meta)
      modifies this
      ensures file == old(file).(meta := meta) && place == old(place) && log == old(log) + [file]
    {
      file := file.(meta := meta);
      log := log + [file];
    }

    method WritePage(pos: int, page: Page)
      modifies this
      ensures file == old(file).(pages := old(file).pages[pos := page]) && place == old(place) &&
              log == old(log) + [file]
    {
      file := file.(pages := file.pages[pos := page]);
      log := log + [file];
    }

    // ----- finding and making a status page

    /** The position of `page` within its level. */
    method IndexIn(page: nat, which: nat) returns (index: nat)
      requires 0 < which < LEVELS && PageLevel(page) == which
      ensures FirstPage(which) <= page && index == page - FirstPage(which)
    {
      PageLevelMeaning(page, which);
      var ptrIndex: int := page - 1;
      var i := 1;
      while i < which
        invariant 1 <= i <= which && ptrIndex == page - FirstPage(i)
      {
        var n := LongPow(FANOUT, i);
        SpanIsPower(i);
        ptrIndex := ptrIndex - n;
        i := i + 1;
      }
      index := ptrIndex;
    }

    method Digits(k: nat, level: nat) returns (i: nat, rest: nat)
      ensures i == High(k, level) && rest == Low(k, level)
    {
      var span := LongPow(FANOUT, level);
      SpanIsPower(level);
      i, rest := k / span, k % span;
    }

    method QueryStatusPage(block: nat) returns (offset: int)
      requires Valid()
      ensures offset == Lookup(file, block)
    {
      var page := block / PER_PAGE;
      var which := PageLevel(page);
      if which == 0 { return file.meta.roots[0]; }
      if which < 0 { return 0; }
      var pos := file.meta.roots[which];
      var ptrIndex := IndexIn(page, which);
      if pos == 0 {
        Nowhere(file, place);
        BlankFind(file.pages, 0, which - 1, ptrIndex);
        return 0;
      }
      StandingStart(file, place, page);
      offset := Walk(page, pos, which - 1, ptrIndex);
    }

    /** The way down the pointer pages. */
    method Walk(ghost page: nat, root: int, top: nat, index: nat) returns (offset: int)
      requires Valid() && Standing(file, place, page, root, top, index)
      ensures offset == LookupPage(file, page)
    {
      var pos, level, ptrIndex := root, top, index;
      while level > 0
        invariant Standing(file, place, page, pos, level, ptrIndex)
      {
        var i, rest := Digits(ptrIndex, level);
        StandingPage(file, place, page, pos, level, ptrIndex);
        var next := file.pages[pos].ptr[i];
        if next == 0 {
          StandingEnd(file, place, page, pos, level, ptrIndex);
          return 0;
        }
        StandingDown(file, place, page, pos, level, ptrIndex);
        pos, level, ptrIndex := next, level - 1, rest;
      }
      StandingPage(file, place, page, pos, level, ptrIndex);
      StandingLookup(file, place, page, pos, ptrIndex);
      return file.pages[pos].ptr[ptrIndex];
    }

    method SetPointer(p: int, i: nat, r: int)
      requires Valid() && Ready(file, place, p, i, r)
      modifies this
      ensures Valid() && file == WithPointer(old(file), p, i, r) && place == old(place) && log == old(log) + [file]
    {
      PointerSound(file, place, p, i, r);
      WritePage(p, Pointers(file.pages[p].ptr[i := r]));
    }

    method SetRoot(w: nat, r: int)
      requires Valid() && w < LEVELS && Points(file, place, r, Place(w, w - 1, 0))
      modifies this
      ensures Valid() && file == WithRoot(old(file), w, r) && place == old(place) && log == old(log) + [file]
    {
      RootSound(file, place, w, r);
      WriteMeta(file.meta.(roots := file.meta.roots[w := r]));
    }

    /** The root pointer page of a level. */
    method RootPage(which: nat, ghost s: Snap)
      requires 0 < which < LEVELS && Grown(s, file, place, log)
      modifies this
      ensures Grown(s, file, place, log) && file.meta.roots[which] != 0
    {
      if file.meta.roots[which] == 0 {
        ghost var f, at, l := file, place, log;
        var r := Append(NoPointers(), Place(which, which - 1, 0));
        GrownNext(s, f, at, l, file, place);
        f, l := file, log;
        RootQuiet(file, place, which, r);
        SetRoot(which, r);
        GrownNext(s, f, place, l, file, place);
      }
    }

    /** The pointer page below slot `i` of `pos`. */
    method PointerPage(pos: int, level: nat, i: nat, ghost page: nat, ghost k: nat, ghost s: Snap) returns (next: int)
      requires Grown(s, file, place, log) && level > 0 && Standing(file, place, page, pos, level, k) &&
               i == High(k, level)
      modifies this
      ensures Grown(s, file, place, log) && Standing(file, place, page, next, level - 1, Low(k, level))
    {
      StandingPage(file, place, page, pos, level, k);
      if file.pages[pos].ptr[i] == 0 {
        ghost var f, at, l := file, place, log;
        ghost var below := Child(place[pos], i);
        StandingAppend(f, at, page, pos, level, k, NoPointers(), below);
        var r := Append(NoPointers(), below);
        GrownNext(s, f, at, l, file, place);
        f, l := file, log;
        StandingPage(f, place, page, pos, level, k);
        StandingPointer(f, place, page, pos, level, k, r);
        PointerQuiet(f, place, pos, i, r);
        SetPointer(pos, i, r);
        GrownNext(s, f, place, l, file, place);
      }
      next := file.pages[pos].ptr[i];
      StandingPage(file, place, page, pos, level, k);
      StandingDown(file, place, page, pos, level, k);
    }

    /** The status page below slot `i` of `pos`. */
    method StatusPage(pos: int, i: nat, ghost block: nat, ghost s: Snap) returns (offset: int)
      requires Grown(s, file, place, log) && Sound(s.file, s.place) &&
               Standing(file, place, block / PER_PAGE, pos, 0, i)
      modifies this
      ensures Valid() && PlaceFits(s.place, place) && Created(s.file, file, block, offset)
      ensures s.log <= log && CrashSafe(log, |s.log|, s.file, file, place)
    {
      ghost var page := block / PER_PAGE;
      SoundWider(s.file, s.place, place);
      StandingPage(file, place, page, pos, 0, i);
      StandingLookup(file, place, page, pos, i);
      if file.pages[pos].ptr[i] == 0 {
        ghost var f, at, l := file, place, log;
        ghost var below := Child(place[pos], i);
        StandingAppend(f, at, page, pos, 0, i, NoStatuses(), below);
        var r := Append(NoStatuses(), below);
        GrownNext(s, f, at, l, file, place);
        SoundWider(s.file, at, place);
        f, l := file, log;
        StandingPage(f, place, page, pos, 0, i);
        StandingOpens(f, place, page, pos, i, r);
        SetPointer(pos, i, r);
        GrownDone(s, f, place, l, file);
        OpensCreated(s.file, f, file, place, block, r);
        return r;
      }
      offset := file.pages[pos].ptr[i];
      QuietCreated(s.file, file, place, block, offset);
    }

    method DirectPage(ghost block: nat) returns (offset: int)
      requires Valid() && block / PER_PAGE == 0
      modifies this
      ensures Valid() && PlaceFits(old(place), place) && Created(old(file), file, block, offset)
      ensures old(log) <= log && CrashSafe(log, |old(log)|, old(file), file, place)
    {
      ghost var s := Snap(file, place, log);
      if file.meta.roots[0] == 0 {
        var r := Append(NoStatuses(), Place(0, -1, 0));
        ghost var f, l := file, log;
        GrownNext(s, s.file, s.place, s.log, file, place);
        SoundWider(s.file, s.place, place);
        DirectOpens(file, place, r);
        SetRoot(0, r);
        GrownDone(s, f, place, l, file);
        OpensCreated(s.file, f, file, place, block, r);
        return r;
      }
      offset := file.meta.roots[0];
      QuietCreated(s.file, file, place, block, offset);
    }

    /** Pages are made one write at a time, each before the pointer to it. */
    method CreateStatusPage(block: nat) returns (offset: int)
      requires Valid()
      modifies this
      ensures Valid() && PlaceFits(old(place), place)
      ensures PageLevel(block / PER_PAGE) < 0 ==> offset == 0 && file == old(file) && log == old(log)
      ensures PageLevel(block / PER_PAGE) >= 0 ==> Created(old(file), file, block, offset)
      ensures old(log) <= log && CrashSafe(log, |old(log)|, old(file), file, place)
    {
      var page := block / PER_PAGE;
      var which := PageLevel(page);
      PageLevelMeaning(page, 0);
      if which < 0 { return 0; }
      if which == 0 {
        offset := DirectPage(block);
        return;
      }
      ghost var s := Snap(file, place, log);
      RootPage(which, s);
      var pos := file.meta.roots[which];
      var ptrIndex := IndexIn(page, which);
      StandingStart(file, place, page);
      var level: nat := which - 1;
      while level > 0
        invariant Grown(s, file, place, log) && Standing(file, place, page, pos, level, ptrIndex)
      {
        var i, rest := Digits(ptrIndex, level);
        pos := PointerPage(pos, level, i, page, ptrIndex, s);
        level, ptrIndex := level - 1, rest;
      }
      offset := StatusPage(pos, ptrIndex, block, s);
    }

    // ----- the operations on blocks

    method GetProgressInfo(block: nat) returns (rc: int, status: Status)
      requires Valid()
      ensures rc == if View(file, block).Some? then 0 else -ENOENT
      ensures status == Or(View(file, block), BLANK)
    {
      ViewSome(file, place, block);
      var offset := QueryStatusPage(block);
      if offset == 0 { return -ENOENT, BLANK; }
      return 0, file.pages[offset].entries[block % PER_PAGE];
    }

    /** Beyond the last page of the index nothing is stored, and 0 is returned all the same. */
    method SetProgressInfo(block: nat, c: Change) returns (rc: int)
      requires Valid()
      modifies this
      ensures Valid() && rc == 0 && old(log) <= log
      ensures file.meta == old(file.meta).(roots := file.meta.roots)
      ensures PageLevel(block / PER_PAGE) < 0 ==> file == old(file) && log == old(log)
      ensures PageLevel(block / PER_PAGE) >= 0 ==> |old(log)| < |log| && log[|log| - 1] == file
      ensures PageLevel(block / PER_PAGE) >= 0 ==> forall b: nat :: View(file, b) == SetView(old(file), block, c, b)
      ensures PageLevel(block / PER_PAGE) >= 0 ==>
                View(file, block).Some? && Changes(c, View(old(file), block), View(file, block).value)
      ensures forall j :: |old(log)| <= j < |log| ==> CrashedSet(old(file), log[j], place, block, c)
    {
      var offset := CreateStatusPage(block);
      if offset == 0 { return 0; }
      ghost var f1, l := file, log;
      ghost var f := old(file);
      ViewSome(file, place, block);
      var entries := file.pages[offset].entries;
      entries := entries[block % PER_PAGE := Apply(entries[block % PER_PAGE], c)];
      SetViews(f, file, place, block, offset, entries, c);
      WrittenSound(file, place, block, entries);
      WritePage(offset, Statuses(entries));
      SoundWider(f, old(place), place);
      CrashedSets(f, old(log), f1, l, file, place, block, offset, c);
      return 0;
    }

    /** What is set is what is read afterwards, field by field. */
    method SetThenGet(block: nat, c: Change) returns (rc: int, status: Status)
      requires Valid()
      modifies this
      ensures Valid() && rc == if PageLevel(block / PER_PAGE) >= 0 then 0 else -ENOENT
      ensures PageLevel(block / PER_PAGE) >= 0 ==> Changes(c, View(old(file), block), status)
    {
      var _ := SetProgressInfo(block, c);
      rc, status := GetProgressInfo(block);
    }

    /** The size of the file about to be uploaded, and its number of blocks. */
    method SetUpload(size: nat, blockSize: nat)
      requires Valid() && blockSize > 0
      modifies this
      ensures Valid() && log == old(log) + [file]
      ensures file.meta == old(file.meta).(toUploadSize := size, toUploadBlocks := BlocksOf(size, blockSize))
      ensures forall b: nat :: View(file, b) == View(old(file), b)
    {
      var meta := file.meta.(toUploadSize := size, toUploadBlocks := BlocksOf(size, blockSize));
      MetaView(file, meta, place);
      WriteMeta(meta);
    }

    method ChangeAction(action: int)
      requires Valid()
      modifies this
      ensures Valid() && file.meta == old(file.meta).(action := action) && log == old(log) + [file]
      ensures forall b: nat :: View(file, b) == View(old(file), b)
    {
      MetaView(file, file.meta.(action := action), place);
      WriteMeta(file.meta.(action := action));
    }

    // ----- taking over the backend's record

    /** At the first block of a new page, the pending entries go to theirs. */
    method Flush(ghost s: Snap, ghost backend: Backend, ghost drive: bool, n: nat, ghost page: int, writing: bool,
                 status: seq<Status>, offset: int)
      requires Underway(s, file, place, log) && Filling(s.file, file, backend, drive, n, page, writing, status, offset)
      requires n % PER_PAGE == 0
      modifies this
      ensures Underway(s, file, place, log)
      ensures Filling(s.file, file, backend, drive, n, n / PER_PAGE, false, NoStatuses().entries, offset)
    {
      if writing {
        FillWrite(s.file, file, place, backend, drive, n, page, status, offset);
        WritePage(offset, Statuses(status));
      }
    }

    /** One block: recorded if the backend holds it. */
    method Note(ghost s: Snap, backend: Backend, drive: bool, n: nat, writing: bool, status: seq<Status>, offset: int)
      returns (writing': bool, status': seq<Status>, offset': int)
      requires Underway(s, file, place, log) && Readable(backend) && n / PER_PAGE in backend
      requires Filling(s.file, file, backend, drive, n, n / PER_PAGE, writing, status, offset)
      modifies this
      ensures Underway(s, file, place, log)
      ensures Filling(s.file, file, backend, drive, n + 1, n / PER_PAGE, writing', status', offset')
    {
      if !Live(backend, n) {
        FillSkip(s.file, file, backend, drive, n, n + 1, n / PER_PAGE, writing, status, offset);
        return writing, status, offset;
      }
      var entry := Record(backend[n / PER_PAGE][n % PER_PAGE], drive);
      writing', status' := true, status[n % PER_PAGE := entry];
      offset' := offset;
      if writing {
        FillMore(s.file, file, backend, drive, n, status, offset);
      } else {
        ghost var f, l, at := file, log, place;
        offset' := CreateStatusPage(n);
        SteadyCreate(l, log, |s.log|, f, file, at, place);
        FillFirst(s.file, f, file, place, backend, drive, n, status', offset');
      }
    }

    /** A whole page that the backend does not have. */
    method SkipPage(ghost s: Snap, backend: Backend, ghost drive: bool, n: nat, ghost blocks: nat, ghost page: int,
                    writing: bool, status: seq<Status>, offset: int)
      requires Copying(s, file, place, log, backend, drive, n, blocks, page, writing, status, offset) && n < blocks
      requires page != n / PER_PAGE && n / PER_PAGE !in backend
      modifies this
      ensures Copying(s, file, place, log, backend, drive, n + PER_PAGE, blocks, page, false, NoStatuses().entries,
                      offset)
    {
      Flush(s, backend, drive, n, page, writing, status, offset);
      FillSkip(s.file, file, backend, drive, n, n + PER_PAGE, n / PER_PAGE, false, NoStatuses().entries, offset);
    }

    /** The next block, on the current page or the first of another. */
    method TakeBlock(ghost s: Snap, backend: Backend, drive: bool, n: nat, ghost blocks: nat, page: int, writing: bool,
                     status: seq<Status>, offset: int) returns (writing': bool, status': seq<Status>, offset': int)
      requires Copying(s, file, place, log, backend, drive, n, blocks, page, writing, status, offset) && n < blocks
      requires Readable(backend) && (page == n / PER_PAGE || n / PER_PAGE in backend)
      modifies this
      ensures Copying(s, file, place, log, backend, drive, n + 1, blocks, n / PER_PAGE, writing', status', offset')
    {
      if page != n / PER_PAGE {
        Flush(s, backend, drive, n, page, writing, status, offset);
        writing', status', offset' := Note(s, backend, drive, n, false, NoStatuses().entries, offset);
      } else {
        writing', status', offset' := Note(s, backend, drive, n, writing, status, offset);
      }
    }

    /** The last page, and only then the action byte. */
    method Finish(ghost s: Snap, ghost backend: Backend, ghost drive: bool, ghost n: nat, blocks: nat, size: int,
                  ghost page: int, writing: bool, status: seq<Status>, offset: int)
      requires Copying(s, file, place, log, backend, drive, n, blocks, page, writing, status, offset) && blocks <= n
      modifies this
      ensures Valid() && file.meta.action == NOW_UPLOADING && s.log < log && log[|log| - 1] == file
      ensures file.meta == Started(s.file.meta, file.meta.roots, blocks, size)
      ensures forall b: nat :: View(file, b) == Want(s.file, backend, drive, blocks, b)
      ensures Steady(log[..|log| - 1], |s.log|, s.file.meta.action, place)
    {
      if writing {
        FillWrite(s.file, file, place, backend, drive, n, page, status, offset);
        WritePage(offset, Statuses(status));
      }
      var meta := file.meta.(action := NOW_UPLOADING, backendSize := size, backendBlocks := blocks);
      MetaView(file, meta, place);
      forall b: nat ensures View(file, b) == Want(s.file, backend, drive, blocks, b) {
        WantSkip(s.file, backend, drive, blocks, n, b);
      }
      ghost var l := log;
      WriteMeta(meta);
      assert log[..|log| - 1] == l;
    }

    method InitProgressInfo(source: Option<Backend>, blocks: nat, size: int, drive: bool)
      requires Valid() && (source.Some? ==> Readable(source.value))
      modifies this
      ensures Valid() && file.meta.action == NOW_UPLOADING && old(log) < log && log[|log| - 1] == file
      ensures source.None? ==> file.meta == old(file.meta).(action := NOW_UPLOADING)
      ensures source.None? ==> forall b: nat :: View(file, b) == View(old(file), b)
      ensures source.Some? ==> file.meta == Started(old(file.meta), file.meta.roots, blocks, size)
      ensures source.Some? ==> forall b: nat :: View(file, b) == Want(old(file), source.value, drive, blocks, b)
      ensures source.Some? ==>
                forall b: nat :: Copied(source.value, drive, blocks, b, View(old(file), b), View(file, b))
      ensures source.Some? ==>
                file.meta.backendSize == size && file.meta.backendBlocks == blocks &&
                file.meta.toUploadSize == old(file.meta.toUploadSize) &&
                file.meta.toUploadBlocks == old(file.meta.toUploadBlocks)
      ensures Steady(log[..|log| - 1], |old(log)|, old(file.meta.action), place)
    {
      if source.None? {
        ChangeAction(NOW_UPLOADING);
        return;
      }
      ghost var f := file;
      CopyRecord(source.value, blocks, size, drive);
      forall b: nat ensures Copied(source.value, drive, blocks, b, View(f, b), View(file, b)) {
        WantCopied(f, source.value, drive, blocks, b);
      }
    }

    /** Page by page, skipping the pages the backend does not have. */
    method CopyRecord(backend: Backend, blocks: nat, size: int, drive: bool)
      requires Valid() && Readable(backend)
      modifies this
      ensures Valid() && file.meta.action == NOW_UPLOADING && old(log) < log && log[|log| - 1] == file
      ensures file.meta == Started(old(file.meta), file.meta.roots, blocks, size)
      ensures forall b: nat :: View(file, b) == Want(old(file), backend, drive, blocks, b)
      ensures Steady(log[..|log| - 1], |old(log)|, old(file.meta.action), place)
    {
      hide Copying;
      ghost var s := Snap(file, place, log);
      CopyStart(s, backend, drive, blocks);
      var currentPage, writing, status, offset := -1, false, NoStatuses().entries, 0;
      var block := 0;
      while block < blocks
        decreases blocks - block
        invariant Copying(s, file, place, log, backend, drive, block, blocks, currentPage, writing, status, offset)
      {
        var whichPage := block / PER_PAGE;
        if currentPage != whichPage && whichPage !in backend {
          SkipPage(s, backend, drive, block, blocks, currentPage, writing, status, offset);
          block, writing, status := block + PER_PAGE, false, NoStatuses().entries;
        } else {
          writing, status, offset := TakeBlock(s, backend, drive, block, blocks, currentPage, writing, status, offset);
          block, currentPage := block + 1, whichPage;
        }
      }
      Finish(s, backend, drive, block, blocks, size, currentPage, writing, status, offset);
    }
  }
}
