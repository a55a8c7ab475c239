/** What recovery may rely on after a crash at any write: once the action byte has left PREPARING, the
    backend's record in the progress file is complete. */
module ProgressRecovery {
  import opened Options
  import opened RadixIndex
  import opened RadixGrowth
  import opened ProgressFile

  /** What a status says about the backend's own copy of the block. */
  function BackendPart(o: Option<Status>): (bool, int, string) {
    if o.Some? then (o.value.onCloud, o.value.backendSeq, o.value.backendId) else (false, 0, "")
  }

  /** The backend being replaced: its block pages, and how many blocks of them count; and how many blocks
      the new version has. */
  datatype Origin = Origin(pages: Backend, blocks: nat, drive: bool, upload: nat)

  function OriginOf(source: Option<Backend>, blocks: nat, drive: bool, upload: nat): Origin {
    if source.Some? then Origin(source.value, blocks, drive, upload) else Origin(map[], 0, drive, upload)
  }

  predicate Held(o: Origin, b: nat) { b < o.blocks && Live(o.pages, b) }

  ghost predicate Complete(f: File, o: Origin) {
    |f.meta.roots| == LEVELS && f.meta.backendBlocks == o.blocks && f.meta.toUploadBlocks == o.upload &&
    forall b: nat :: BackendPart(View(f, b)) == BackendPart(Some(Recorded(o.pages, o.drive, o.blocks, b)))
  }

  /** The blocks recorded as being on the backend are exactly those whose status there is neither
      none nor to-delete, with their sequence numbers and, on a drive, their identifiers. */
  lemma CompleteMeaning(f: File, o: Origin, b: nat)
    requires Complete(f, o)
    ensures Held(o, b) <==> View(f, b).Some? && View(f, b).value.onCloud
    ensures Held(o, b) <==>
              b < o.blocks && b / PER_PAGE in o.pages && b % PER_PAGE < |o.pages[b / PER_PAGE]| &&
              o.pages[b / PER_PAGE][b % PER_PAGE].status !in {ST_NONE, ST_TODELETE}
    ensures Held(o, b) ==> View(f, b).value.backendSeq == o.pages[b / PER_PAGE][b % PER_PAGE].seqnum
    ensures Held(o, b) ==>
              View(f, b).value.backendId == if o.drive then o.pages[b / PER_PAGE][b % PER_PAGE].id else ""
    ensures View(f, b).Some? && !Held(o, b) ==> View(f, b).value.backendSeq == 0 && View(f, b).value.backendId == ""
  {
    assert BackendPart(View(f, b)) == BackendPart(Some(Recorded(o.pages, o.drive, o.blocks, b)));
  }

  lemma InitComplete(f: File, f': File, o: Origin)
    requires |f.meta.roots| == LEVELS && |f'.meta.roots| == LEVELS
    requires f'.meta.backendBlocks == o.blocks && f'.meta.toUploadBlocks == o.upload
    requires forall b: nat :: View(f, b) == None
    requires forall b: nat :: View(f', b) == Want(f, o.pages, o.drive, o.blocks, b)
    ensures Complete(f', o)
  {
    forall b: nat ensures BackendPart(View(f', b)) == BackendPart(Some(Recorded(o.pages, o.drive, o.blocks, b))) {
      assert Held(o, b) ==> HasLive(o.pages, b / PER_PAGE, o.blocks);
    }
  }

  /** The upload threads never touch the backend's part of a status. */
  predicate LeavesBackend(c: Change) {
    c.onCloud.None? && c.backendSeq.None? && c.backendId.None?
  }

  lemma SetComplete(f: File, f': File, place: map<int, Place>, block: nat, c: Change, o: Origin)
    requires Complete(f, o) && LeavesBackend(c) && CrashedSet(f, f', place, block, c)
    ensures Complete(f', o)
  {
    forall b: nat ensures BackendPart(View(f', b)) == BackendPart(View(f, b)) { }
  }

  /** What recovery may rely on: the file can be read, and past PREPARING its record is complete. */
  ghost predicate Reliable(f: File, o: Origin) {
    Healthy(f) && (f.meta.action == PREPARING || Complete(f, o))
  }

  /** Every file a crash can leave behind. */
  ghost predicate Recoverable(log: seq<File>, o: Origin) {
    forall j :: 0 <= j < |log| ==> Reliable(log[j], o)
  }

  datatype Op = SetInfo(block: nat, change: Change) | SetAction(action: int)

  /** What the file says about a block; blank if it says nothing. */
  ghost function StatusOf(f: File, b: nat): Status
    requires |f.meta.roots| == LEVELS
  {
    Or(View(f, b), BLANK)
  }

  /** What an operation makes of the status of block `b`. */
  function Told(s: Status, op: Op, b: nat): Status {
    if op.SetInfo? && op.block == b && PageLevel(b / PER_PAGE) >= 0 then Apply(s, op.change) else s
  }

  ghost function ToldAll(s: Status, ops: seq<Op>, b: nat): Status {
    if ops == [] then s else Told(ToldAll(s, ops[..|ops| - 1], b), ops[|ops| - 1], b)
  }

  /** And of the action. */
  function Acted(action: int, op: Op): int { if op.SetAction? then op.action else action }

  ghost function ActedAll(action: int, ops: seq<Op>): int {
    if ops == [] then action else Acted(ActedAll(action, ops[..|ops| - 1]), ops[|ops| - 1])
  }

  ghost predicate Performed(f: File, op: Op, f': File) {
    |f.meta.roots| == LEVELS && |f'.meta.roots| == LEVELS && f'.meta.action == Acted(f.meta.action, op) &&
    forall b: nat :: StatusOf(f', b) == Told(StatusOf(f, b), op, b)
  }

  /** The file says of its blocks and of the action what the operations have told it. */
  ghost predicate PerformedAll(f: File, ops: seq<Op>, f': File) {
    |f.meta.roots| == LEVELS && |f'.meta.roots| == LEVELS && f'.meta.action == ActedAll(f.meta.action, ops) &&
    forall b: nat :: StatusOf(f', b) == ToldAll(StatusOf(f, b), ops, b)
  }

  lemma PerformedNext(f: File, ops: seq<Op>, n: nat, f1: File, f2: File)
    requires n < |ops| && PerformedAll(f, ops[..n], f1) && Performed(f1, ops[n], f2)
    ensures PerformedAll(f, ops[..n + 1], f2)
  {
    assert ops[..n + 1][..n] == ops[..n];
    forall b: nat ensures StatusOf(f2, b) == ToldAll(StatusOf(f, b), ops[..n + 1], b) {
      assert StatusOf(f1, b) == ToldAll(StatusOf(f, b), ops[..n], b);
    }
  }

  lemma StartRecoverable(log: seq<File>, n: nat, place: map<int, Place>, o: Origin)
    requires n < |log| && forall j :: 0 <= j < n ==> log[j].meta.action == PREPARING && Healthy(log[j])
    requires Steady(log[..|log| - 1], n, PREPARING, place) && Complete(log[|log| - 1], o) &&
             Sound(log[|log| - 1], place)
    ensures Recoverable(log, o)
  {
    var early := log[..|log| - 1];
    forall j | 0 <= j < |log| ensures Reliable(log[j], o) {
      if n <= j < |log| - 1 { assert early[j] == log[j] && Sound(early[j], place); }
    }
  }

  lemma SetPerformed(f: File, f': File, block: nat, c: Change)
    requires |f.meta.roots| == LEVELS && |f'.meta.roots| == LEVELS && f'.meta.action == f.meta.action
    requires PageLevel(block / PER_PAGE) < 0 ==> f' == f
    requires PageLevel(block / PER_PAGE) >= 0 ==> forall b: nat :: View(f', b) == SetView(f, block, c, b)
    ensures Performed(f, SetInfo(block, c), f')
  {
    hide Apply, PageLevel;
    forall b: nat ensures StatusOf(f', b) == Told(StatusOf(f, b), SetInfo(block, c), b) {
      if PageLevel(block / PER_PAGE) >= 0 { assert View(f', b) == SetView(f, block, c, b); }
    }
  }

  /** A status change by an upload thread: the record stays complete at every write, and the action as it is. */
  method SetStatus(p: ProgressInfo, block: nat, c: Change, ghost o: Origin)
    requires p.Valid() && Complete(p.file, o) && Recoverable(p.log, o) && LeavesBackend(c)
    modifies p
    ensures p.Valid() && Complete(p.file, o) && Recoverable(p.log, o) && old(p.log) <= p.log
    ensures forall j :: |old(p.log)| <= j < |p.log| ==> p.log[j].meta.action == old(p.file.meta.action)
    ensures p.file.meta.action == old(p.file.meta.action)
    ensures old(p.log) != [] && old(p.log)[|old(p.log)| - 1] == old(p.file) ==> p.log[|p.log| - 1] == p.file
    ensures Performed(old(p.file), SetInfo(block, c), p.file)
  {
    hide Performed, Apply;
    ghost var f, l := p.file, p.log;
    var _ := p.SetProgressInfo(block, c);
    forall j | |l| <= j < |p.log| ensures Reliable(p.log[j], o) && Complete(p.log[j], o) {
      SetComplete(f, p.log[j], p.place, block, c, o);
    }
    SetPerformed(f, p.file, block, c);
  }

  method Perform(p: ProgressInfo, op: Op, ghost o: Origin)
    requires p.Valid() && Complete(p.file, o) && Recoverable(p.log, o)
    requires op.SetInfo? ==> LeavesBackend(op.change)
    modifies p
    ensures p.Valid() && Complete(p.file, o) && Recoverable(p.log, o) && Performed(old(p.file), op, p.file)
  {
    ghost var f := p.file;
    match op {
      case SetInfo(block, c) => SetStatus(p, block, c, o);
      case SetAction(action) =>
        p.ChangeAction(action);
        forall b: nat ensures BackendPart(View(p.file, b)) == BackendPart(View(f, b)) { }
        forall b: nat ensures StatusOf(p.file, b) == Told(StatusOf(f, b), op, b) { }
    }
  }

  /** An upload from its beginning, through any further changes: whichever write is the last before a
      crash, the record can be relied on unless the action is still PREPARING. */
  method Upload(newSize: nat, blockSize: nat, source: Option<Backend>, blocks: nat, size: int, drive: bool,
                ops: seq<Op>)
    returns (p: ProgressInfo)
    requires blockSize > 0 && (source.Some? ==> Readable(source.value))
    requires forall i :: 0 <= i < |ops| && ops[i].SetInfo? ==> LeavesBackend(ops[i].change)
    ensures fresh(p) && p.Valid()
    ensures var o := OriginOf(source, blocks, drive, BlocksOf(newSize, blockSize));
            Recoverable(p.log, o) && Complete(p.file, o)
    ensures p.file.meta.action == ActedAll(NOW_UPLOADING, ops)
    ensures var o := OriginOf(source, blocks, drive, BlocksOf(newSize, blockSize));
            forall b: nat :: StatusOf(p.file, b) == ToldAll(Recorded(o.pages, drive, o.blocks, b), ops, b)
  {
    ghost var o := OriginOf(source, blocks, drive, BlocksOf(newSize, blockSize));
    p := new ProgressInfo();
    assert Sound(p.file, p.place);
    p.SetUpload(newSize, blockSize);
    ghost var f := p.file;
    assert Sound(f, p.place);
    p.InitProgressInfo(source, blocks, size, drive);
    if source.Some? { InitComplete(f, p.file, o); }
    assert Complete(p.file, o);
    StartRecoverable(p.log, 2, p.place, o);
    ghost var f1 := p.file;
    forall b: nat ensures StatusOf(f1, b) == Recorded(o.pages, drive, o.blocks, b) {
      if Held(o, b) { assert HasLive(o.pages, b / PER_PAGE, o.blocks); }
    }
    for i := 0 to |ops|
      invariant fresh(p) && p.Valid() && Complete(p.file, o) && Recoverable(p.log, o)
      invariant PerformedAll(f1, ops[..i], p.file)
    {
      ghost var f2 := p.file;
      Perform(p, ops[i], o);
      PerformedNext(f1, ops, i, f2, p.file);
    }
    assert ops[..|ops|] == ops;
  }

  // ----- deleting objects from the cloud

  datatype Object = Object(block: nat, seqnum: int)

  /** The object of the block that the backend's version of the file is made of. */
  ghost predicate OfBackend(o: Origin, x: Object) {
    Held(o, x.block) && x.seqnum == o.pages[x.block / PER_PAGE][x.block % PER_PAGE].seqnum
  }

  /** An object sent for deletion, and what the progress file said at that moment. */
  datatype Deletion = Deletion(object: Object, file: File)

  class Cloud {
    var sent: seq<Deletion>

    constructor ()
      ensures sent == []
    {
      sent := [];
    }

    method Delete(x: Object, p: ProgressInfo)
      modifies this
      ensures sent == old(sent) + [Deletion(x, p.file)]
    {
      sent := sent + [Deletion(x, p.file)];
    }
  }

  /** These objects, all sent while the file was `f`. */
  ghost predicate SentAt(before: seq<Deletion>, after: seq<Deletion>, gone: seq<Object>, f: File) {
    |after| == |before| + |gone| && before <= after &&
    forall i :: 0 <= i < |gone| ==> after[|before| + i] == Deletion(gone[i], f)
  }

  /** Which object of a block a deletion takes, if any. */
  function Chosen(which: int, s: Status): Option<int> {
    if s.toUploadSeq == s.backendSeq then None
    else if which == DEL_TOUPLOAD_BLOCKS && s.finished && s.toUpload then Some(s.toUploadSeq)
    else if which == DEL_BACKEND_BLOCKS && s.onCloud then Some(s.backendSeq)
    else None
  }

  /** A block uploaded just now and meanwhile gone from the disk is left alone. */
  predicate Spared(which: int, pagedOut: set<nat>, b: nat) {
    which == DEL_TOUPLOAD_BLOCKS && b in pagedOut
  }

  ghost predicate Due(f: File, which: int, pagedOut: set<nat>, x: Object)
    requires |f.meta.roots| == LEVELS
  {
    View(f, x.block).Some? && Chosen(which, View(f, x.block).value) == Some(x.seqnum) &&
    !Spared(which, pagedOut, x.block)
  }

  /** The objects due among the first `n` blocks, each once, in block order. */
  ghost predicate Taken(f: File, which: int, pagedOut: set<nat>, n: int, gone: seq<Object>)
    requires |f.meta.roots| == LEVELS
  {
    (forall i, j :: 0 <= i < j < |gone| ==> gone[i].block < gone[j].block) &&
    (forall x :: x in gone <==> x.block < n && Due(f, which, pagedOut, x))
  }

  /** The status page at hand when block `n` comes next. */
  ghost predicate AtHand(f: File, n: nat, page: int, entries: seq<Status>)
    requires |f.meta.roots| == LEVELS
  {
    |entries| == PER_PAGE &&
    if n % PER_PAGE == 0 then page < n / PER_PAGE
    else page == n / PER_PAGE && PageView(f, n / PER_PAGE, entries)
  }

  ghost predicate PageView(f: File, page: nat, entries: seq<Status>)
    requires |f.meta.roots| == LEVELS && |entries| == PER_PAGE
  {
    forall b: nat {:trigger View(f, b)} :: b / PER_PAGE == page ==> View(f, b) == Some(entries[b % PER_PAGE])
  }

  lemma PageRead(f: File, place: map<int, Place>, block: nat, offset: int)
    requires Sound(f, place) && offset == Lookup(f, block)
    ensures offset >= 0
    ensures offset != 0 ==> HasEntries(f, offset) && PageView(f, block / PER_PAGE, f.pages[offset].entries)
    ensures offset == 0 ==> forall b: nat {:trigger View(f, b)} :: b / PER_PAGE == block / PER_PAGE ==> View(f, b).None?
  {
    ViewSome(f, place, block);
    if offset != 0 { assert Fits(f, place, offset); }
  }

  /** A page that is not there has nothing to delete. */
  lemma SkipMissing(f: File, which: int, pagedOut: set<nat>, n: nat, gone: seq<Object>)
    requires |f.meta.roots| == LEVELS && Taken(f, which, pagedOut, n, gone) && n % PER_PAGE == 0
    requires forall b: nat {:trigger View(f, b)} :: b / PER_PAGE == n / PER_PAGE ==> View(f, b).None?
    ensures forall k :: n <= k <= n + PER_PAGE ==> Taken(f, which, pagedOut, k, gone)
  {
    forall x: Object | n <= x.block < n + PER_PAGE ensures !Due(f, which, pagedOut, x) {
      assert x.block / PER_PAGE == n / PER_PAGE;
    }
  }

  lemma TakeNext(f: File, which: int, pagedOut: set<nat>, n: nat, gone: seq<Object>, s: Status, gone': seq<Object>)
    requires |f.meta.roots| == LEVELS && Taken(f, which, pagedOut, n, gone) && View(f, n) == Some(s)
    requires gone' == match Chosen(which, s) {
                        case Some(q) => if Spared(which, pagedOut, n) then gone else gone + [Object(n, q)]
                        case None => gone
                      }
    ensures Taken(f, which, pagedOut, n + 1, gone')
  {
    forall i | 0 <= i < |gone| ensures gone[i].block < n { assert gone[i] in gone; }
    forall x: Object ensures x in gone' <==> x.block < n + 1 && Due(f, which, pagedOut, x) {
      if gone' != gone { assert gone'[|gone|] == Object(n, Chosen(which, s).value); }
    }
  }

  /** The blocks whose objects are sent for deletion: page by page, pages that are not there skipped. */
  method ChooseBlocks(p: ProgressInfo, total: int, which: int, pagedOut: set<nat>, cloud: Cloud)
    returns (gone: seq<Object>)
    requires p.Valid()
    modifies cloud
    ensures Taken(p.file, which, pagedOut, total, gone) && SentAt(old(cloud.sent), cloud.sent, gone, p.file)
  {
    gone := [];
    var block, currentPage, entries := 0, -1, NoStatuses().entries;
    while block < total
      decreases total - block
      invariant Taken(p.file, which, pagedOut, block, gone) &&
                (block > total ==> Taken(p.file, which, pagedOut, total, gone))
      invariant AtHand(p.file, block, currentPage, entries) && SentAt(old(cloud.sent), cloud.sent, gone, p.file)
    {
      var whichPage := block / PER_PAGE;
      var missing := false;
      if currentPage != whichPage {
        var offset := p.QueryStatusPage(block);
        PageRead(p.file, p.place, block, offset);
        if offset <= 0 {
          missing := true;
        } else {
          entries, currentPage := p.file.pages[offset].entries, whichPage;
        }
      }
      if missing {
        SkipMissing(p.file, which, pagedOut, block, gone);
        block := block + PER_PAGE;
      } else {
        ghost var before := gone;
        var s := entries[block % PER_PAGE];
        var c := Chosen(which, s);
        if c.Some? && !Spared(which, pagedOut, block) {
          cloud.Delete(Object(block, c.value), p);
          gone := gone + [Object(block, c.value)];
        }
        TakeNext(p.file, which, pagedOut, block, before, s, gone);
        block := block + 1;
      }
    }
  }

  /** The same record under another action. */
  ghost predicate Restamped(f: File, f': File, action: int) {
    |f.meta.roots| == LEVELS && f'.meta == f.meta.(action := action) && forall b: nat :: View(f', b) == View(f, b)
  }

  /** Every object is sent after the action has been written. */
  method DeleteBackendBlocks(p: ProgressInfo, total: int, which: int, pagedOut: set<nat>, cloud: Cloud)
    returns (gone: seq<Object>)
    requires p.Valid()
    modifies p, cloud
    ensures p.Valid() && Restamped(old(p.file), p.file, which) && p.log == old(p.log) + [p.file]
    ensures Taken(p.file, which, pagedOut, total, gone) && SentAt(old(cloud.sent), cloud.sent, gone, p.file)
  {
    p.ChangeAction(which);
    gone := ChooseBlocks(p, total, which, pagedOut, cloud);
  }

  /** The object of a block that the interrupted upload has put in the cloud that was not there before. */
  ghost predicate OfUpload(f: File, total: int, pagedOut: set<nat>, x: Object)
    requires |f.meta.roots| == LEVELS
  {
    var s := Or(View(f, x.block), BLANK);
    x.block < total && s.finished && s.toUpload && x.seqnum == s.toUploadSeq != s.backendSeq && x.block !in pagedOut
  }

  /** The object of the block that the new version is made of. */
  ghost predicate OfNew(f: File, x: Object)
    requires |f.meta.roots| == LEVELS
  {
    x.seqnum == Or(View(f, x.block), BLANK).toUploadSeq
  }

  /** Deleting the new blocks takes nothing the backend's version is made of. */
  lemma NewNotOfBackend(f: File, o: Origin, pagedOut: set<nat>, x: Object)
    requires Complete(f, o) && Due(f, DEL_TOUPLOAD_BLOCKS, pagedOut, x)
    ensures !OfBackend(o, x)
  {
    CompleteMeaning(f, o, x.block);
  }

  /** Deleting the old blocks takes exactly the backend's version, but for what the new one shares. */
  lemma OldIsBackend(f: File, o: Origin, pagedOut: set<nat>, x: Object)
    requires Complete(f, o)
    ensures Due(f, DEL_BACKEND_BLOCKS, pagedOut, x) <==>
              OfBackend(o, x) && !OfNew(f, x)
  {
    CompleteMeaning(f, o, x.block);
  }

  // ----- taking up an interrupted upload

  /** Recovery has a version to delete. */
  predicate Deletes(f: File, toUploadMeta: bool) {
    f.meta.action in {DEL_TOUPLOAD_BLOCKS, DEL_BACKEND_BLOCKS} || (f.meta.action == NOW_UPLOADING && !toUploadMeta)
  }

  /** The upload left at `f` by a crash at any write, taken up again: an upload still being prepared is
      given up with nothing deleted; one whose meta is still to be sent goes on; otherwise the objects of
      one version are deleted, never one the other version needs, and all that is written is which of the two. */
  method ContinueSync(f: File, toUploadMeta: bool, pagedOut: set<nat>, cloud: Cloud, ghost o: Origin)
    returns (p: ProgressInfo, resume: bool, gone: seq<Object>)
    requires Reliable(f, o)
    modifies cloud
    ensures fresh(p) && p.Valid() && Recoverable(p.log, o) && SentAt(old(cloud.sent), cloud.sent, gone, p.file)
    ensures resume <==> f.meta.action == NOW_UPLOADING && toUploadMeta
    ensures !Deletes(f, toUploadMeta) ==> gone == [] && p.file == f && p.log == [f]
    ensures Deletes(f, toUploadMeta) ==> p.log == [f, p.file]
    ensures f.meta.action == DEL_TOUPLOAD_BLOCKS ==>
              Restamped(f, p.file, DEL_TOUPLOAD_BLOCKS) &&
              forall x :: (x in gone <==> OfUpload(f, f.meta.toUploadBlocks, pagedOut, x)) &&
                          (x in gone ==> !OfBackend(o, x))
    ensures Deletes(f, toUploadMeta) && f.meta.action != DEL_TOUPLOAD_BLOCKS ==>
              Restamped(f, p.file, DEL_BACKEND_BLOCKS) &&
              forall x :: x in gone <==> OfBackend(o, x) && !OfNew(f, x)
  {
    p := new ProgressInfo.Reopen(f);
    resume, gone := false, [];
    var meta := p.file.meta;
    if meta.action == PREPARING {
    } else if meta.action == NOW_UPLOADING {
      if toUploadMeta { resume := true; } else { gone := DeleteOld(p, meta.backendBlocks, pagedOut, cloud, o); }
    } else if meta.action == DEL_TOUPLOAD_BLOCKS {
      gone := DeleteNew(p, meta.toUploadBlocks, pagedOut, cloud, o);
    } else if meta.action == DEL_BACKEND_BLOCKS {
      gone := DeleteOld(p, meta.backendBlocks, pagedOut, cloud, o);
    }
  }

  method DeleteOld(p: ProgressInfo, total: int, pagedOut: set<nat>, cloud: Cloud, ghost o: Origin)
    returns (gone: seq<Object>)
    requires p.Valid() && Complete(p.file, o) && Recoverable(p.log, o) && total == p.file.meta.backendBlocks
    modifies p, cloud
    ensures p.Valid() && p.log == old(p.log) + [p.file] && Recoverable(p.log, o)
    ensures Restamped(old(p.file), p.file, DEL_BACKEND_BLOCKS)
    ensures SentAt(old(cloud.sent), cloud.sent, gone, p.file)
    ensures forall x :: x in gone <==> OfBackend(o, x) && !OfNew(old(p.file), x)
  {
    ghost var f := p.file;
    gone := DeleteBackendBlocks(p, total, DEL_BACKEND_BLOCKS, pagedOut, cloud);
    SameRecord(f, p.file, o);
    forall x ensures x in gone <==> OfBackend(o, x) && !OfNew(f, x) {
      OldIsBackend(p.file, o, pagedOut, x);
    }
    assert Sound(p.file, p.place);
  }

  method DeleteNew(p: ProgressInfo, total: int, pagedOut: set<nat>, cloud: Cloud, ghost o: Origin)
    returns (gone: seq<Object>)
    requires p.Valid() && Complete(p.file, o) && Recoverable(p.log, o)
    modifies p, cloud
    ensures p.Valid() && p.log == old(p.log) + [p.file] && Recoverable(p.log, o)
    ensures Restamped(old(p.file), p.file, DEL_TOUPLOAD_BLOCKS)
    ensures SentAt(old(cloud.sent), cloud.sent, gone, p.file)
    ensures forall x :: (x in gone <==> OfUpload(old(p.file), total, pagedOut, x)) && (x in gone ==> !OfBackend(o, x))
  {
    ghost var f := p.file;
    gone := DeleteBackendBlocks(p, total, DEL_TOUPLOAD_BLOCKS, pagedOut, cloud);
    SameRecord(f, p.file, o);
    forall x ensures (x in gone <==> OfUpload(f, total, pagedOut, x)) && (x in gone ==> !OfBackend(o, x)) {
      if x in gone { NewNotOfBackend(p.file, o, pagedOut, x); }
    }
    assert Sound(p.file, p.place);
  }

  lemma SameRecord(f: File, f': File, o: Origin)
    requires Complete(f, o) && |f'.meta.roots| == LEVELS && f'.meta.backendBlocks == f.meta.backendBlocks
    requires f'.meta.toUploadBlocks == f.meta.toUploadBlocks
    requires forall b: nat :: View(f', b) == View(f, b)
    ensures Complete(f', o)
  {
  }

  // ----- an upload over any number of crashes

  /** How the upload fares once it goes on: it is cut short, or given up, or it comes to its end. */
  datatype End = CutShort | GivenUp(total: int) | Completed

  /** From one start to the next crash: what the start finds, the status changes and the end of the upload
      if it goes on, and the crash, after which write and after how many of the deletions following the last. */
  datatype Session = Session(toUploadMeta: bool, pagedOut: set<nat>, changes: seq<Op>, end: End, crash: nat, sent: nat)

  ghost predicate ByThreads(ops: seq<Op>) {
    forall i :: 0 <= i < |ops| ==> ops[i].SetInfo? && LeavesBackend(ops[i].change)
  }

  /** The version that is to stay has lost none of its objects, and before one is chosen nothing is deleted. */
  ghost predicate Survives(f: File, gone: seq<Object>, o: Origin)
    requires |f.meta.roots| == LEVELS
  {
    if f.meta.action == DEL_TOUPLOAD_BLOCKS then forall x :: x in gone ==> !OfBackend(o, x)
    else if f.meta.action == DEL_BACKEND_BLOCKS then forall x :: x in gone ==> OfBackend(o, x) && !OfNew(f, x)
    else gone == []
  }

  /** Which version is to stay is chosen once. */
  ghost predicate Stands(f: File, f': File) {
    f.meta.action !in {PREPARING, NOW_UPLOADING} ==> Restamped(f, f', f.meta.action)
  }

  lemma SurvivesMore(f: File, f': File, gone: seq<Object>, more: seq<Object>, o: Origin)
    requires |f.meta.roots| == LEVELS && |f'.meta.roots| == LEVELS
    requires Survives(f, gone, o) && Survives(f', more, o) && Stands(f, f')
    ensures Survives(f', gone + more, o)
  {
    forall x | x in gone + more ensures x in gone || x in more { }
    if f.meta.action in {PREPARING, NOW_UPLOADING} { assert gone + more == more; }
  }

  lemma SurvivesStart(f: File, f': File, gone: seq<Object>, toUploadMeta: bool, o: Origin)
    requires |f.meta.roots| == LEVELS && |f'.meta.roots| == LEVELS
    requires !Deletes(f, toUploadMeta) ==> gone == [] && f' == f
    requires f.meta.action == DEL_TOUPLOAD_BLOCKS ==>
               Restamped(f, f', DEL_TOUPLOAD_BLOCKS) && forall x :: x in gone ==> !OfBackend(o, x)
    requires Deletes(f, toUploadMeta) && f.meta.action != DEL_TOUPLOAD_BLOCKS ==>
               Restamped(f, f', DEL_BACKEND_BLOCKS) && forall x :: x in gone ==> OfBackend(o, x) && !OfNew(f, x)
    ensures Survives(f', gone, o) && Stands(f, f')
  {
    forall x | x in gone ensures OfNew(f', x) == OfNew(f, x) { assert View(f', x.block) == View(f, x.block); }
  }

  /** How the upload ends from `base` on: what the file is then, and the objects that go. */
  ghost predicate Ends(s: Session, base: File, f: File, gone: seq<Object>, o: Origin) {
    |base.meta.roots| == LEVELS &&
    match s.end
    case CutShort => f == base && gone == []
    case GivenUp(total) =>
      Restamped(base, f, DEL_TOUPLOAD_BLOCKS) && forall x :: x in gone <==> OfUpload(base, total, s.pagedOut, x)
    case Completed =>
      Restamped(base, f, DEL_BACKEND_BLOCKS) && forall x :: x in gone <==> OfBackend(o, x) && !OfNew(base, x)
  }

  /** The upload goes on: the threads change statuses, and at its end the objects of one version go. */
  method Resume(p: ProgressInfo, s: Session, cloud: Cloud, ghost o: Origin)
    returns (gone: seq<Object>, ghost base: File)
    requires p.Valid() && Recoverable(p.log, o) && Complete(p.file, o) && p.log == [p.file]
    requires p.file.meta.action == NOW_UPLOADING && ByThreads(s.changes)
    modifies p, cloud
    ensures p.Valid() && Recoverable(p.log, o) && p.log != [] && p.log[|p.log| - 1] == p.file
    ensures forall j :: 0 <= j < |p.log| - 1 ==> p.log[j].meta.action == NOW_UPLOADING
    ensures PerformedAll(old(p.file), s.changes, base) && Ends(s, base, p.file, gone, o)
    ensures Survives(p.file, gone, o) && SentAt(old(cloud.sent), cloud.sent, gone, p.file)
  {
    for i := 0 to |s.changes|
      invariant p.Valid() && Recoverable(p.log, o) && Complete(p.file, o) && p.log != [] &&
                p.log[|p.log| - 1] == p.file
      invariant forall j :: 0 <= j < |p.log| ==> p.log[j].meta.action == NOW_UPLOADING
      invariant PerformedAll(old(p.file), s.changes[..i], p.file) && cloud.sent == old(cloud.sent)
    {
      ghost var f := p.file;
      SetStatus(p, s.changes[i].block, s.changes[i].change, o);
      PerformedNext(old(p.file), s.changes, i, f, p.file);
    }
    assert s.changes[..|s.changes|] == s.changes;
    gone, base := [], p.file;
    match s.end {
      case CutShort =>
      case GivenUp(total) => gone := DeleteNew(p, total, s.pagedOut, cloud, o);
      case Completed => gone := DeleteOld(p, p.file.meta.backendBlocks, s.pagedOut, cloud, o);
    }
    SurvivesEnd(s, base, p.file, gone, o);
  }

  lemma SurvivesEnd(s: Session, base: File, f: File, gone: seq<Object>, o: Origin)
    requires |f.meta.roots| == LEVELS && Ends(s, base, f, gone, o) && base.meta.action == NOW_UPLOADING
    requires s.end.GivenUp? ==> forall x :: x in gone ==> !OfBackend(o, x)
    ensures Survives(f, gone, o)
  {
    forall x | x in gone && !s.end.CutShort? ensures OfNew(f, x) == OfNew(base, x) {
      assert View(f, x.block) == View(base, x.block);
    }
  }

  /** The writes of a session and the deletions after the last of them, were it not for the crash. */
  ghost predicate Planned(f: File, s: Session, log: seq<File>, all: seq<Object>, o: Origin) {
    log != [] && |f.meta.roots| == LEVELS &&
    var last := log[|log| - 1];
    if f.meta.action == NOW_UPLOADING && s.toUploadMeta then
      exists base :: PerformedAll(f, s.changes, base) && Ends(s, base, last, all, o)
    else if f.meta.action == DEL_TOUPLOAD_BLOCKS then
      log == [f, last] && Restamped(f, last, DEL_TOUPLOAD_BLOCKS) &&
      forall x :: x in all <==> OfUpload(f, f.meta.toUploadBlocks, s.pagedOut, x)
    else if f.meta.action in {NOW_UPLOADING, DEL_BACKEND_BLOCKS} then
      log == [f, last] && Restamped(f, last, DEL_BACKEND_BLOCKS) &&
      forall x :: x in all <==> OfBackend(o, x) && !OfNew(f, x)
    else
      log == [f] && all == []
  }

  function Least(a: nat, b: nat): nat { if a < b then a else b }

  /** The session up to its crash: the file has the writes until then, and deletions are made after the last. */
  ghost predicate Ran(f: File, s: Session, f': File, gone: seq<Object>, o: Origin) {
    exists log, all :: Planned(f, s, log, all, o) && f' == log[Least(s.crash, |log| - 1)] &&
      gone == if s.crash < |log| - 1 then [] else all[..Least(s.sent, |all|)]
  }

  /** One session, up to its crash: what the file is then, and what has been deleted. */
  method RunSession(f: File, s: Session, ghost o: Origin) returns (f': File, gone: seq<Object>)
    requires Reliable(f, o) && ByThreads(s.changes)
    ensures Ran(f, s, f', gone, o)
    ensures Reliable(f', o) && Survives(f', gone, o) && Stands(f, f')
  {
    var cloud := new Cloud();
    var p, resume, all := ContinueSync(f, s.toUploadMeta, s.pagedOut, cloud, o);
    SurvivesStart(f, p.file, all, s.toUploadMeta, o);
    if resume {
      ghost var base;
      all, base := Resume(p, s, cloud, o);
    }
    assert Planned(f, s, p.log, all, o);
    if s.crash < |p.log| - 1 {
      f', gone := p.log[s.crash], [];
    } else {
      f', gone := p.file, all[..Least(s.sent, |all|)];
    }
  }

  /** Session after session, each from what the one before has left. */
  ghost predicate Chain(files: seq<File>, sessions: seq<Session>, cuts: seq<seq<Object>>, o: Origin) {
    |files| == |sessions| + 1 && |cuts| == |sessions| &&
    forall k :: 0 <= k < |sessions| ==> Ran(files[k], sessions[k], files[k + 1], cuts[k], o)
  }

  ghost function Joined(cuts: seq<seq<Object>>): seq<Object> {
    if cuts == [] then [] else Joined(cuts[..|cuts| - 1]) + cuts[|cuts| - 1]
  }

  lemma ChainStart(f: File, o: Origin)
    ensures Chain([f], [], [], o) && Joined([]) == []
  {
  }

  lemma ChainMore(files: seq<File>, sessions: seq<Session>, k: nat, cuts: seq<seq<Object>>, o: Origin, f': File,
                  more: seq<Object>)
    requires k < |sessions| && Chain(files, sessions[..k], cuts, o) && Ran(files[k], sessions[k], f', more, o)
    ensures Chain(files + [f'], sessions[..k + 1], cuts + [more], o) && Joined(cuts + [more]) == Joined(cuts) + more
  {
    hide Ran;
    assert (cuts + [more])[..k] == cuts;
    var files', cuts' := files + [f'], cuts + [more];
    forall j | 0 <= j < k + 1 ensures Ran(files'[j], sessions[j], files'[j + 1], cuts'[j], o) {
      if j < k { assert Ran(files[j], sessions[..k][j], files[j + 1], cuts[j], o); }
    }
  }

  /** Any number of crashes, wherever they come: the version that is to stay at the end is whole. */
  method RunSessions(f: File, sessions: seq<Session>, ghost o: Origin)
    returns (last: File, gone: seq<Object>, ghost files: seq<File>, ghost cuts: seq<seq<Object>>)
    requires Reliable(f, o) && forall k :: 0 <= k < |sessions| ==> ByThreads(sessions[k].changes)
    ensures |files| == |sessions| + 1 && Chain(files, sessions, cuts, o) && gone == Joined(cuts)
    ensures files[0] == f && files[|sessions|] == last
    ensures Reliable(last, o) && Survives(last, gone, o) && Stands(f, last)
  {
    hide Ran, Survives, Stands, Reliable, Chain, Joined;
    last, gone, files, cuts := f, [], [f], [];
    ChainStart(f, o);
    SurvivesNone(f, o);
    for k := 0 to |sessions|
      invariant Chain(files, sessions[..k], cuts, o) && |files| == k + 1 && files[0] == f && files[k] == last
      invariant gone == Joined(cuts)
      invariant Reliable(last, o) && |last.meta.roots| == LEVELS && Survives(last, gone, o) && Stands(f, last)
    {
      var more;
      ghost var before, had := last, gone;
      last, more := RunSession(last, sessions[k], o);
      gone := gone + more;
      ReliableRoots(last, o);
      SurvivesMore(before, last, had, more, o);
      StandsOn(f, before, last);
      ChainMore(files, sessions, k, cuts, o, last, more);
      files, cuts := files + [last], cuts + [more];
    }
    assert sessions[..|sessions|] == sessions;
  }

  lemma ReliableRoots(f: File, o: Origin)
    requires Reliable(f, o)
    ensures |f.meta.roots| == LEVELS
  {
    var place: map<int, Place> :| Sound(f, place);
  }

  lemma SurvivesNone(f: File, o: Origin)
    requires Reliable(f, o)
    ensures |f.meta.roots| == LEVELS && Survives(f, [], o) && Stands(f, f)
  {
    ReliableRoots(f, o);
  }

  lemma StandsOn(f: File, f1: File, f2: File)
    requires |f.meta.roots| == LEVELS && Stands(f, f1) && Stands(f1, f2)
    ensures Stands(f, f2)
  {
  }

  /** From its beginning, whichever write the first crash follows and whatever sessions come after. */
  method UploadThrough(newSize: nat, blockSize: nat, source: Option<Backend>, blocks: nat, size: int, drive: bool,
                       crash: nat, sessions: seq<Session>)
    returns (p: ProgressInfo, last: File, gone: seq<Object>, ghost files: seq<File>, ghost cuts: seq<seq<Object>>)
    requires blockSize > 0 && (source.Some? ==> Readable(source.value))
    requires forall k :: 0 <= k < |sessions| ==> ByThreads(sessions[k].changes)
    ensures var o := OriginOf(source, blocks, drive, BlocksOf(newSize, blockSize));
            Recoverable(p.log, o) && Chain(files, sessions, cuts, o) &&
            files[0] == (if crash < |p.log| then p.log[crash] else p.file) && files[|sessions|] == last &&
            gone == Joined(cuts) && Reliable(last, o) && |last.meta.roots| == LEVELS && Survives(last, gone, o)
  {
    ghost var o := OriginOf(source, blocks, drive, BlocksOf(newSize, blockSize));
    p := Upload(newSize, blockSize, source, blocks, size, drive, []);
    last, gone, files, cuts := RunSessions(if crash < |p.log| then p.log[crash] else p.file, sessions, o);
    ReliableRoots(last, o);
  }
}
