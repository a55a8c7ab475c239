/** Whole runs of a directory meta file, from its creation on: the pages keep holding the tree, and
    every call is answered as by a plain finite map. */
module DirRun {
  import opened DirNames
  import opened DirTree
  import opened DirInsert
  import opened DirInsertPages
  import opened DirPages
  import opened DirHistory
  import opened DirStale
  import opened DirFile

  /** `full` says whether the file system has run out of meta space at that moment, `first` what slot 0
      of the caller's child-position buffer happens to hold. */
  datatype Call = Put(entry: Entry, full: bool, first: int) | Erase(name: string) | Get(name: string)

  datatype Reply = Reply(ret: int, entry: Entry)

  type Book = map<string, Entry>

  // ----- the reference: a finite map

  /** The reply a finite map gives; an insertion may also be turned down when there is no space. */
  ghost predicate Answers(x: bool, m: Book, c: Call, r: Reply) {
    match c
    case Put(e, full, _) =>
      && (r.ret == -EEXIST <==> Key(x, e.name) in m)
      && (r.ret == 0 || r.ret == -EEXIST || (r.ret == -ENOSPC && full))
    case Erase(name) => r.ret == if Key(x, name) in m then 0 else -ENOENT
    case Get(name) =>
      && r.ret == (if Key(x, name) in m then 0 else -ENOENT)
      && (r.ret == 0 ==> r.entry == m[Key(x, name)])
  }

  /** The map after a call. */
  ghost function Noted(x: bool, m: Book, c: Call, r: Reply): Book {
    match c
    case Put(e, _, _) => if r.ret == 0 then m[Key(x, e.name) := e] else m
    case Erase(name) => m - {Key(x, name)}
    case Get(_) => m
  }

  ghost predicate AnswersAll(x: bool, m: Book, cs: seq<Call>, rs: seq<Reply>)
    decreases |cs|
  {
    && |cs| == |rs|
    && (cs != [] ==> Answers(x, m, cs[0], rs[0]) && AnswersAll(x, Noted(x, m, cs[0], rs[0]), cs[1..], rs[1..]))
  }

  ghost function NotedAll(x: bool, m: Book, cs: seq<Call>, rs: seq<Reply>): Book
    requires |cs| == |rs|
    decreases |cs|
  {
    if cs == [] then m else NotedAll(x, Noted(x, m, cs[0], rs[0]), cs[1..], rs[1..])
  }

  // ----- what a run asks of its calls

  ghost function Next(x: bool, s: State, c: Call): (s': State)
    requires Good(x, s)
    ensures Good(x, s')
  {
    match c
    case Put(e, full, _) => StepIsMapStep(x, s, Add(e, full)); Step(x, s, Add(e, full))
    case Erase(name) => StepIsMapStep(x, s, Remove(name)); Step(x, s, Remove(name))
    case Get(_) => s
  }

  /** An insertion needs no buffer slot, or finds in it what it needs. */
  ghost predicate SlotRight(x: bool, s: State, c: Call)
    requires Good(x, s)
  {
    c.Put? ==> (c.full && s.alloc.gc == []) || Clean(x, s.tree, s.height, c.entry.name, c.first)
  }

  ghost predicate SlotsRight(x: bool, s: State, cs: seq<Call>)
    requires Good(x, s)
    decreases |cs|
  {
    cs == [] || (SlotRight(x, s, cs[0]) && SlotsRight(x, Next(x, s, cs[0]), cs[1..]))
  }

  ghost predicate LinkRight(x: bool, s: State, c: Call)
    requires Good(x, s)
  {
    c.Erase? ==> !LinksLost(x, s.tree, s.height, c.name, s.walk)
  }

  ghost predicate LinksRight(x: bool, s: State, cs: seq<Call>)
    requires Good(x, s)
    decreases |cs|
  {
    cs == [] || (LinkRight(x, s, cs[0]) && LinksRight(x, Next(x, s, cs[0]), cs[1..]))
  }

  // ----- the runs

  ghost function Entries(f: MetaFile): Book
    reads f
  {
    MapOf(f.external, Flat(f.tree))
  }

  /** An insertion that goes through with the right slot was clean. */
  lemma PutHeld(x: bool, s: State, e: Entry, full: bool, first: int)
    requires Good(x, s) && SlotRight(x, s, Put(e, full, first))
    requires InsertRoot(x, s.tree, s.height, e, s.alloc, full).Done?
    ensures Clean(x, s.tree, s.height, e.name, first)
  {
    hide Flat, Sorted, Insert;
    OverflowsWhen(x, s.tree, s.height, e, s.alloc, full);
    if full && s.alloc.gc == [] { CleanWithoutSpace(x, s.tree, s.height, e, s.alloc, first); }
  }

  /** One call. */
  method Perform(f: MetaFile, c: Call) returns (r: Reply)
    requires f.Stored() && SlotRight(f.external, f.View(), c)
    modifies f
    ensures f.Stored() && f.View() == Next(f.external, old(f.View()), c)
    ensures Answers(f.external, old(Entries(f)), c, r) && Entries(f) == Noted(f.external, old(Entries(f)), c, r)
    ensures old(f.Walkable()) && LinkRight(f.external, old(f.View()), c) ==> f.Walkable()
  {
    match c
    case Put(e, full, first) => r := PerformPut(f, e, full, first);
    case Erase(name) => r := PerformErase(f, name);
    case Get(name) =>
      var ret, entry := f.Lookup(name);
      r := Reply(ret, entry);
  }

  method PerformPut(f: MetaFile, e: Entry, full: bool, first: int) returns (r: Reply)
    requires f.Stored() && SlotRight(f.external, f.View(), Put(e, full, first))
    modifies f
    ensures f.Stored() && f.View() == Step(f.external, old(f.View()), Add(e, full))
    ensures Answers(f.external, old(Entries(f)), Put(e, full, first), r)
    ensures Entries(f) == Noted(f.external, old(Entries(f)), Put(e, full, first), r)
    ensures r.ret == -EEXIST <==> old(f.Contains(e.name))
    ensures forall x :: x in Flat(f.tree) <==> x in Flat(old(f.tree)) || (r.ret == 0 && x == e)
    ensures old(f.Walkable()) ==> f.Walkable()
  {
    ghost var es := Flat(f.tree);
    var ret := f.AddEntry(e, first, full);
    r := Reply(ret, e);
    MapOfKeys(f.external, es, Key(f.external, e.name));
    if ret == 0 {
      InsertIsUpdate(f.external, es, e);
      PutHeld(f.external, old(f.View()), e, full, first);
    }
  }

  method PerformErase(f: MetaFile, name: string) returns (r: Reply)
    requires f.Stored()
    modifies f
    ensures f.Stored() && f.View() == Step(f.external, old(f.View()), Remove(name))
    ensures Answers(f.external, old(Entries(f)), Erase(name), r)
    ensures Entries(f) == Noted(f.external, old(Entries(f)), Erase(name), r)
    ensures old(f.Walkable()) ==> (f.Walkable() <==> LinkRight(f.external, old(f.View()), Erase(name)))
  {
    ghost var es := Flat(f.tree);
    var ret := f.RemoveEntry(name);
    r := Reply(ret, Entry("", 0, 0));
    MapOfKeys(f.external, es, Key(f.external, name));
    RemoveIsErase(f.external, es, name);
  }

  lemma FoundAfter(x: bool, es: seq<Entry>, es': seq<Entry>, e: Entry, put: bool, name: string)
    requires forall y :: y in es' <==> y in es || (put && y == e)
    ensures (exists i :: 0 <= i < |es'| && SpelledAlike(x, es'[i].name, name)) <==>
            (put && SpelledAlike(x, e.name, name)) || exists i :: 0 <= i < |es| && SpelledAlike(x, es[i].name, name)
  {
    if i :| 0 <= i < |es| && SpelledAlike(x, es[i].name, name) {
      assert es[i] in es';
    }
    if i :| 0 <= i < |es'| && SpelledAlike(x, es'[i].name, name) {
      assert es'[i] in es';
    }
    if put && SpelledAlike(x, e.name, name) { assert e in es'; }
  }

  /** Any name looked up after an insertion: on an external mount every case variant of the new name finds the new
      entry, on an internal one only the name itself; other names find what they found before. */
  method PutThenGet(f: MetaFile, e: Entry, full: bool, first: int, name: string) returns (put: int, r: Reply)
    requires f.Stored() && SlotRight(f.external, f.View(), Put(e, full, first))
    modifies f
    ensures f.Stored() && (put == -EEXIST <==> old(f.Contains(e.name)))
    ensures put == 0 && SpelledAlike(f.external, e.name, name) ==> r == Reply(0, e)
    ensures put != 0 || !SpelledAlike(f.external, e.name, name) ==>
              (r.ret == 0 <==> old(f.Contains(name))) &&
              (r.ret == 0 ==> r.entry in Flat(old(f.tree)) && SpelledAlike(f.external, r.entry.name, name))
  {
    hide Flat, MapOf, Noted, Answers, Step, Holds, Frame, SpelledAlike, Walk, SlotRight;
    ghost var es := Flat(f.tree);
    var p := PerformPut(f, e, full, first);
    put := p.ret;
    var ret, entry := f.Lookup(name);
    r := Reply(ret, entry);
    FoundAfter(f.external, es, Flat(f.tree), e, put == 0, name);
    if put == 0 && ret == 0 && SpelledAlike(f.external, e.name, name) {
      FrameSorted(f.external, f.pages, f.root, f.walkHead, f.gcHead, f.end, f.total, f.tree, f.height, f.walk, f.gc);
      OneSpelling(f.external, Flat(f.tree), e, entry, name);
    }
  }

  /** Any sequence of calls, each insertion with the right buffer slot: the file stays sound, the
      replies are those of a finite map, and the walk list survives if no deletion loses links. */
  method PerformAll(f: MetaFile, cs: seq<Call>) returns (rs: seq<Reply>)
    requires f.Stored() && SlotsRight(f.external, f.View(), cs)
    modifies f
    ensures f.Stored() && AnswersAll(f.external, old(Entries(f)), cs, rs)
    ensures Entries(f) == NotedAll(f.external, old(Entries(f)), cs, rs)
    ensures old(f.Walkable()) && LinksRight(f.external, old(f.View()), cs) ==> f.Walkable()
    decreases |cs|
  {
    if cs == [] { return []; }
    var r := Perform(f, cs[0]);
    var more := PerformAll(f, cs[1..]);
    rs := [r] + more;
    assert rs[1..] == more;
  }

  /** The state of a directory with one empty page at `header`. */
  ghost function Empty(header: int): (s: State)
    ensures forall x :: Good(x, s)
  {
    var t := Tree(header, [], []);
    assert Flat(t) == [];
    State(t, 0, Alloc([], header + PAGE_SIZE), [header])
  }

  /** A whole history from the creation of the directory. */
  method History(external: bool, header: int, cs: seq<Call>) returns (f: MetaFile, rs: seq<Reply>)
    requires header > 0 && SlotsRight(external, Empty(header), cs)
    ensures f.Stored() && AnswersAll(external, map[], cs, rs) && f.external == external
    ensures Entries(f) == NotedAll(external, map[], cs, rs)
    ensures LinksRight(external, Empty(header), cs) ==> f.Valid()
  {
    f := new MetaFile(external, header);
    rs := PerformAll(f, cs);
  }
}
