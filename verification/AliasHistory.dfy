/** Whole histories of alias operations. */
module AliasHistory {
  import opened AliasBook
  import opened AliasGroup
  import opened AliasWorld
  import AliasNodes
  import AliasName

  datatype Op =
    | Seek(owner: int, name: seq<nat>, bits: seq<nat>, ino: int)   // `ino` is the answer
    | Update(owner: int, bits: seq<nat>)
    | Delete(ino: int, rc: int)
    | Take(owner: int, wanted: bool, x: Alias)                      // asking for a name; `x` is the alias given

  /** What each operation of the group may do, as its contract has it. */
  ghost predicate Step(s: State, op: Op, s': State) {
    match op
    case Seek(n, name, bits, ino) => n <= MIN_ALIAS && Sought(s, s', n, name, bits, ino)
    case Update(n, bits) => NewName(s, s', n, bits)
    case Delete(n, rc) => DeletedNumber(s, s', n, rc)
    case Take(n, wanted, x) =>
      if wanted && HasAlias(s, n) then x in s.active && x.owner == n && s' == Shelved(s, x) else s' == s
  }

  // ----- one step

  lemma RealSane(s: State, x: Real)
    requires Sane(s) && !KnownReal(s, x.ino) && x.ino <= MIN_ALIAS
    ensures Sane(WithReal(s, x))
  {
    var s' := WithReal(s, x);
    forall y | y in All(s') ensures KnownReal(s', y.owner) {
      var z :| z in s.names && z.ino == y.owner;
      assert z in s'.names;
    }
  }

  lemma AliasSane(s: State, x: Alias)
    requires Sane(s) && KnownReal(s, x.owner) && x.ino == MIN_ALIAS + s.issued + 1 && !KnownBits(s, x.owner, x.bitmap)
    ensures Sane(WithAlias(s, x))
  {
    var s' := WithAlias(s, x);
    forall y | y in All(s') ensures KnownReal(s', y.owner) {
      var z :| z in s.names && z.ino == y.owner;
      assert z in s'.names;
    }
  }

  lemma ShelvedSane(s: State, x: Alias)
    requires Sane(s) && x in s.active
    ensures Sane(Shelved(s, x)) && All(Shelved(s, x)) == All(s)
  {
    var s' := Shelved(s, x);
    assert All(s') == All(s);
    forall y | y in All(s') ensures KnownReal(s', y.owner) {
      var z :| z in s.names && z.ino == y.owner;
      assert z in s'.names;
    }
  }

  lemma RenamedSane(s: State, x: Real, bits: seq<nat>)
    requires Sane(s) && x in s.names
    ensures Sane(Renamed(s, x, bits))
  {
    var s' := Renamed(s, x, bits);
    forall y | y in All(s') ensures KnownReal(s', y.owner) {
      var z :| z in s.names && z.ino == y.owner;
      if z == x { assert Real(x.ino, bits) in s'.names; } else { assert z in s'.names; }
    }
  }

  lemma DroppedSane(s: State, x: Real)
    requires Sane(s) && x in s.names
    ensures Sane(WithoutFamily(s, x)) && All(WithoutFamily(s, x)) == NotOf(All(s), x.ino)
  {
    var s' := WithoutFamily(s, x);
    assert All(s') == NotOf(All(s), x.ino);
    forall y | y in All(s') ensures KnownReal(s', y.owner) {
      var z :| z in s.names && z.ino == y.owner;
      assert z in s'.names;
    }
  }

  /** Every step keeps the book sane, never takes back an issued number, and never gives an old number
      to another alias. */
  lemma StepSound(s: State, op: Op, s': State)
    requires Sane(s) && Step(s, op, s')
    ensures Sane(s') && s.issued <= s'.issued
    ensures forall x :: x in All(s') && x.ino <= MIN_ALIAS + s.issued ==> x in All(s)
  {
    match op
    case Seek(n, name, bits, ino) => SeekSound(s, s', n, name, bits, ino);
    case Update(n, bits) =>
      if KnownReal(s, n) {
        var x :| x in s.names && x.ino == n && BitsDropped(Renamed(s, x, bits), s', n, bits);
        var s1 := Renamed(s, x, bits);
        RenamedSane(s, x, bits);
        if KnownBits(s1, n, bits) {
          var y :| y in s1.active && y.owner == n && y.bitmap == bits && s' == Shelved(s1, y);
          ShelvedSane(s1, y);
        }
      }
    case Delete(n, rc) =>
      if n > MIN_ALIAS && KnownIn(s.active, n) {
        var x :| x in s.active && x.ino == n && s' == Shelved(s, x);
        ShelvedSane(s, x);
      } else if n <= MIN_ALIAS && KnownReal(s, n) {
        var x :| x in s.names && x.ino == n && s' == WithoutFamily(s, x);
        DroppedSane(s, x);
      }
    case Take(n, wanted, x) => if s' != s { ShelvedSane(s, x); }
  }

  lemma SeekSound(s: State, s': State, n: int, name: seq<nat>, bits: seq<nat>, ino: int)
    requires Sane(s) && n <= MIN_ALIAS && Sought(s, s', n, name, bits, ino)
    ensures Sane(s') && s.issued <= s'.issued && KnownReal(s', n) && Alias(ino, n, bits) in s'.active
    ensures forall x :: x in All(s') && x.ino <= MIN_ALIAS + s.issued ==> x in All(s)
  {
    var s1 := if KnownReal(s, n) then s else WithReal(s, Real(n, name));
    if !KnownReal(s, n) {
      RealSane(s, Real(n, name));
      assert Real(n, name) in s1.names;
    }
    if !KnownBits(s1, n, bits) { AliasSane(s1, Alias(ino, n, bits)); }
    var z :| z in s1.names && z.ino == n;
    assert z in s'.names;
  }

  // ----- whole runs

  ghost predicate Run(states: seq<State>, ops: seq<Op>) {
    |states| == |ops| + 1 && states[0] == State({}, {}, {}, 0) &&
    forall i :: 0 <= i < |ops| ==> Step(states[i], ops[i], states[i + 1])
  }

  lemma {:induction false} RunSane(states: seq<State>, ops: seq<Op>, i: nat)
    requires Run(states, ops) && i < |states|
    ensures Sane(states[i])
  {
    if i > 0 {
      RunSane(states, ops, i - 1);
      StepSound(states[i - 1], ops[i - 1], states[i]);
    }
  }

  /** Over a run a number keeps its meaning: an alias known later under a number issued by then was
      already known then, the same alias. So a number that is gone never comes back. */
  lemma {:induction false} NumbersNotReused(states: seq<State>, ops: seq<Op>, i: nat, j: nat, x: Alias)
    requires Run(states, ops) && i <= j < |states|
    requires x in All(states[j]) && x.ino <= MIN_ALIAS + states[i].issued
    ensures x in All(states[i])
    decreases j - i
  {
    if i < j {
      RunSane(states, ops, i);
      StepSound(states[i], ops[i], states[i + 1]);
      NumbersNotReused(states, ops, i + 1, j, x);
    }
  }

  /** Over a run every alias number resolves to its own real inode and to nothing else. */
  lemma ResolvesInRun(states: seq<State>, ops: seq<Op>, i: nat, x: Alias, r: int)
    requires Run(states, ops) && i < |states| && x in All(states[i])
    ensures Resolves(states[i], x.ino, r) <==> r == x.owner
  {
    RunSane(states, ops, i);
  }

  /** A repeated seek gives the same number and changes nothing. */
  lemma SeekAgain(s: State, s1: State, s2: State, n: int, name: seq<nat>, name': seq<nat>, bits: seq<nat>, ino: int,
                  ino': int)
    requires Sane(s) && n <= MIN_ALIAS && Sought(s, s1, n, name, bits, ino) && Sought(s1, s2, n, name', bits, ino')
    ensures ino' == ino && s2 == s1
  {
    SeekSound(s, s1, n, name, bits, ino);
    var x := Alias(ino, n, bits);
    assert KnownBits(s1, n, bits) by { assert x in s1.active && x.owner == n && x.bitmap == bits; }
    assert Alias(ino', n, bits) in s1.active;
  }

  /** Deleting a real inode leaves none of its aliases resolvable. */
  lemma DeleteForgets(s: State, s': State, n: int, rc: int, x: Alias, r: int)
    requires Sane(s) && n <= MIN_ALIAS && KnownReal(s, n) && DeletedNumber(s, s', n, rc)
    requires x in All(s) && x.owner == n
    ensures Resolves(s', x.ino, r) <==> r == x.ino
    ensures !KnownReal(s', n)
  {
    var y :| y in s.names && y.ino == n && s' == WithoutFamily(s, y);
    DroppedSane(s, y);
    assert forall z :: z in s'.active + s'.removed ==> z in All(s) && z.owner != n;
    forall z | z in s'.names ensures z.ino != n { }
  }

  // ----- the group itself over a run

  /** What can be asked of the group. */
  datatype Request =
    | SeekName(owner: int, realName: AliasName.Name, aliasName: AliasName.Name)
    | Rename(owner: int, name: AliasName.Name)
    | Remove(ino: int)
    | AskName(ino: int, lower: AliasName.Name, wantAlias: bool)

  ghost predicate Asked(q: Request) {
    match q
    case SeekName(n, realName, aliasName) =>
      n <= MIN_ALIAS && |realName| <= AliasName.GROUP * AliasName.WORDS &&
      |aliasName| <= AliasName.GROUP * AliasName.WORDS
    case Rename(_, name) => |name| <= AliasName.GROUP * AliasName.WORDS
    case Remove(_) => true
    case AskName(_, lower, _) => |lower| <= AliasName.GROUP * AliasName.WORDS
  }

  /** No insertion the request makes meets a missing child. */
  ghost predicate Fits(w: World, h: AliasNodes.Heap, issued: nat, q: Request)
    requires Good(w, h, issued) && Asked(q)
  {
    var s := View(BookOf(w), h, issued);
    match q
    case SeekName(n, _, aliasName) => SeekFits(w, h, issued, n, AliasName.Bitmap(aliasName))
    case Rename(n, name) => KnownReal(s, n) ==> ShelfFits(s, w.unused, n, AliasName.Bitmap(name))
    case Remove(n) => n > MIN_ALIAS && KnownIn(s.active, n) ==> Admits(w.unused, n)
    case AskName(n, _, wantAlias) => NameFits(w, h, issued, n, wantAlias)
  }

  /** The step is what the request asks for. */
  ghost predicate Serves(q: Request, op: Op)
    requires Asked(q)
  {
    match q
    case SeekName(n, realName, aliasName) =>
      op.Seek? && op.owner == n && op.name == AliasName.Bitmap(realName) && op.bits == AliasName.Bitmap(aliasName)
    case Rename(n, name) => op == Update(n, AliasName.Bitmap(name))
    case Remove(n) => op.Delete? && op.ino == n
    case AskName(n, _, wantAlias) => op.Take? && op.owner == n && op.wanted == wantAlias
  }

  /** One request: it fails exactly when an insertion of it meets a missing child. */
  method Serve(g: Aliases, q: Request) returns (ok: bool, ghost op: Op)
    requires g.Valid() && Asked(q)
    modifies g, g.mem
    ensures ok == Fits(old(g.w), old(g.mem.heap), old(g.issued), q)
    ensures ok ==> g.Valid() && Serves(q, op) && Step(old(g.Now()), op, g.Now())
  {
    match q {
      case SeekName(n, realName, aliasName) =>
        var ino;
        ok, ino := g.SeekAndAdd(n, realName, aliasName);
        op := Seek(n, AliasName.Bitmap(realName), AliasName.Bitmap(aliasName), ino);
      case Rename(n, name) =>
        var rc;
        ok, rc := g.Update(n, name);
        op := Update(n, AliasName.Bitmap(name));
      case Remove(n) =>
        var rc;
        ok, rc := g.Delete(n);
        op := Delete(n, rc);
      case AskName(n, lower, wantAlias) =>
        ok, op := ServeName(g, n, lower, wantAlias);
    }
  }

  method ServeName(g: Aliases, n: int, lower: AliasName.Name, wantAlias: bool) returns (ok: bool, ghost op: Op)
    requires g.Valid() && |lower| <= AliasName.GROUP * AliasName.WORDS
    modifies g, g.mem
    ensures ok == NameFits(old(g.w), old(g.mem.heap), old(g.issued), n, wantAlias)
    ensures ok ==> g.Valid() && op.Take? && op.owner == n && op.wanted == wantAlias && Step(old(g.Now()), op, g.Now())
  {
    ghost var s := g.Now();
    op := Take(n, wantAlias, Alias(0, 0, []));
    var found, name, ino;
    ok, found, name, ino := g.GetName(n, lower, wantAlias);
    if ok && wantAlias && found {
      ghost var x :| x in s.active && x.owner == n && x.ino == ino && g.Now() == Shelved(s, x);
      op := Take(n, wantAlias, x);
    }
  }

  /** A known real inode given a new spelling and asked for its name. */
  method Respell(g: Aliases, n: int, name: AliasName.Name) returns (ok: bool, found: bool, again: seq<int>)
    requires g.Valid() && KnownReal(g.Now(), n) && |name| <= AliasName.GROUP * AliasName.WORDS
    modifies g, g.mem
    ensures ok == ShelfFits(old(g.Now()), old(g.w.unused), n, AliasName.Bitmap(name))
    ensures ok ==> g.Valid() && found && |again| == |name| && forall k: nat :: k < |name| ==> again[k] == name[k]
  {
    hide Tidy, Held, NewName;
    var rc, ino;
    ok, rc := g.Update(n, name);
    found, again := false, [];
    if !ok { return; }
    ghost var x := Real(n, AliasName.Bitmap(name));
    assert x in g.Now().names;
    ok, found, again, ino := g.GetName(n, AliasName.Lower(name), false);
    forall k: nat | k < |name| ensures again[k] == name[k] { AliasName.CaseRestored(name, k); }
  }

  /** A new real inode and its first alias keep the spellings they came with. */
  method Introduce(g: Aliases, n: int, realName: AliasName.Name, aliasName: AliasName.Name)
    returns (ok: bool, ino: int, again: seq<int>)
    requires g.Valid() && n <= MIN_ALIAS && !KnownReal(g.Now(), n)
    requires |realName| <= AliasName.GROUP * AliasName.WORDS && |aliasName| <= AliasName.GROUP * AliasName.WORDS
    modifies g, g.mem
    ensures ok == SeekFits(old(g.w), old(g.mem.heap), old(g.issued), n, AliasName.Bitmap(aliasName))
    ensures ok ==> g.Valid() && Alias(ino, n, AliasName.Bitmap(aliasName)) in g.Now().active
    ensures ok ==> |again| == |realName| && forall k: nat :: k < |realName| ==> again[k] == realName[k]
  {
    hide Tidy, Held;
    ViewSane(BookOf(g.w), g.mem.heap, g.issued);
    ghost var s := g.Now();
    ok, ino := g.SeekAndAdd(n, realName, aliasName);
    again := [];
    if !ok { return; }
    SoughtMeans(s, g.Now(), n, AliasName.Bitmap(realName), AliasName.Bitmap(aliasName), ino);
    ghost var x := Real(n, AliasName.Bitmap(realName));
    assert x in g.Now().names;
    var found, shelved;
    ok, found, again, shelved := g.GetName(n, AliasName.Lower(realName), false);
    forall k: nat | k < |realName| ensures again[k] == realName[k] { AliasName.CaseRestored(realName, k); }
  }

  lemma RunStart()
    ensures Run([State({}, {}, {}, 0)], [])
  {
  }

  lemma RunMore(states: seq<State>, ops: seq<Op>, op: Op, s': State)
    requires Run(states, ops) && Step(states[|ops|], op, s')
    ensures Run(states + [s'], ops + [op])
  {
    var more, all := states + [s'], ops + [op];
    forall i | 0 <= i < |all| ensures Step(more[i], all[i], more[i + 1]) {
      if i < |ops| { assert Step(states[i], ops[i], states[i + 1]); }
    }
  }

  /** Any requests one after the other, from an empty group, up to the first that meets a missing child:
      the books kept are a run, so everything proved of runs holds of the trees in memory. */
  method ServeAll(reqs: seq<Request>)
    returns (g: Aliases, ok: bool, ghost states: seq<State>, ghost ops: seq<Op>,
             ghost w: World, ghost h: AliasNodes.Heap, ghost issued: nat)
    requires forall i :: 0 <= i < |reqs| ==> Asked(reqs[i])
    ensures fresh(g) && |states| == |ops| + 1 && |ops| <= |reqs| && Run(states, ops) && forall i :: 0 <= i < |ops| ==>
              Serves(reqs[i], ops[i])
    ensures ok == (|ops| == |reqs|)
    ensures ok ==> g.Valid() && g.Now() == states[|ops|]
    ensures !ok ==>
              Good(w, h, issued) && View(BookOf(w), h, issued) == states[|ops|] && !Fits(w, h, issued, reqs[|ops|])
  {
    hide Run, Step, Serves, Fits, View, Tidy, Held;
    g := new Aliases();
    ok, states, ops := true, [g.Now()], [];
    RunStart();
    w, h, issued := g.w, g.mem.heap, g.issued;
    var i := 0;
    while i < |reqs|
      invariant 0 <= i <= |reqs| && |ops| == i && ok && fresh(g) && fresh(g.mem) && g.Valid()
      invariant |states| == i + 1 && Run(states, ops) && g.Now() == states[i] && forall k :: 0 <= k < |ops| ==>
                  Serves(reqs[k], ops[k])
    {
      w, h, issued := g.w, g.mem.heap, g.issued;
      ghost var op;
      ok, op := Serve(g, reqs[i]);
      if !ok { return; }
      RunMore(states, ops, op, g.Now());
      states, ops := states + [g.Now()], ops + [op];
      i := i + 1;
    }
  }
}
