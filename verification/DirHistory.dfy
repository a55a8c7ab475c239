/** Whole histories of directory changes: the tree always answers as a plain finite map. */
module DirHistory {
  import opened DirNames
  import opened DirTree
  import opened DirInsert
  import opened DirDelete
  import opened DirPages
  import opened DirDeletePages

  /** `full` says whether the file system has run out of meta space at that moment. */
  datatype Op = Add(entry: Entry, full: bool) | Remove(name: string)

  /** What the file stands for: the tree, the free pages and the order of the walk list. */
  datatype State = State(tree: Tree, height: nat, alloc: Alloc, walk: seq<int>)

  ghost predicate Good(x: bool, s: State) {
    WellFormed(x, s.tree, s.height)
  }

  /** One change of the tree; a name already there or no space leaves it as it is. */
  ghost function Step(x: bool, s: State, op: Op): State
    requires Good(x, s)
  {
    match op
    case Add(e, full) =>
      (match InsertRoot(x, s.tree, s.height, e, s.alloc, full)
       case Done(t, n) => State(t, InsertRootHeight(x, s.tree, s.height, e, s.alloc, full), After(s.alloc, n),
                              Listed(s.alloc, n, s.walk))
       case _ => s)
    case Remove(name) =>
      var r := Delete(x, s.tree, s.height, name, true);
      State(r.tree, r.height, Alloc(Pushed(s.alloc.gc, r.dropped), s.alloc.end), Without(s.walk, r.dropped))
  }

  /** The same change of a finite map; `refused` is an insertion turned down for lack of space. */
  ghost function MapStep(x: bool, m: map<string, Entry>, op: Op, refused: bool): map<string, Entry> {
    match op
    case Add(e, _) => if Key(x, e.name) in m || refused then m else m[Key(x, e.name) := e]
    case Remove(name) => m - {Key(x, name)}
  }

  ghost predicate Refused(x: bool, s: State, op: Op)
    requires Good(x, s)
  {
    op.Add? && InsertRoot(x, s.tree, s.height, op.entry, s.alloc, op.full).NoSpace?
  }

  lemma StepIsMapStep(x: bool, s: State, op: Op)
    requires Good(x, s)
    ensures Good(x, Step(x, s, op))
    ensures MapOf(x, Flat(Step(x, s, op).tree)) == MapStep(x, MapOf(x, Flat(s.tree)), op, Refused(x, s, op))
    ensures Refused(x, s, op) ==> op.full && s.alloc.gc == []
  {
    var es := Flat(s.tree);
    match op
    case Add(e, full) =>
      InsertRootSound(x, s.tree, s.height, e, s.alloc, full);
      MapOfKeys(x, es, Key(x, e.name));
      if !Has(x, es, e.name) { InsertIsUpdate(x, es, e); }
    case Remove(name) =>
      DeleteRootSound(x, s.tree, s.height, name);
      RemoveIsErase(x, es, name);
  }

  ghost function Run(x: bool, s: State, ops: seq<Op>): (r: State)
    requires Good(x, s)
    ensures Good(x, r)
    decreases |ops|
  {
    if ops == [] then s else StepIsMapStep(x, s, ops[0]); Run(x, Step(x, s, ops[0]), ops[1..])
  }

  ghost function RunMap(x: bool, s: State, m: map<string, Entry>, ops: seq<Op>): map<string, Entry>
    requires Good(x, s)
    decreases |ops|
  {
    if ops == [] then m
    else
      StepIsMapStep(x, s, ops[0]);
      RunMap(x, Step(x, s, ops[0]), MapStep(x, m, ops[0], Refused(x, s, ops[0])), ops[1..])
  }

  /** After every history the tree is well formed and stands for the map the same history builds. */
  lemma {:induction false} HistoryIsMap(x: bool, s: State, ops: seq<Op>)
    requires Good(x, s)
    ensures Good(x, Run(x, s, ops))
    ensures MapOf(x, Flat(Run(x, s, ops).tree)) == RunMap(x, s, MapOf(x, Flat(s.tree)), ops)
    decreases |ops|
  {
    if ops != [] {
      StepIsMapStep(x, s, ops[0]);
      HistoryIsMap(x, Step(x, s, ops[0]), ops[1..]);
    }
  }
}
