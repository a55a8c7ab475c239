/** Which entry is a real inode, an alias in use or an unused alias, and whose alias it is: the book
    that the alias trees keep, as plain sets. */
module AliasBook {
  import opened AliasNodes
  import AliasName

  const MIN_ALIAS: int := 1073741824   // 2^30; 2^62 on 64-bit ARM

  /** `members[p]` are the aliases in the family tree of real inode `p`. */
  datatype Book = Book(reals: set<int>, order: set<int>, unused: set<int>, members: map<int, set<int>>)

  ghost predicate Disjoint(b: Book) {
    b.reals !! b.order && b.reals !! b.unused && b.order !! b.unused && b.members.Keys == b.reals
  }

  /** `a` is in the family of the real inode it points to. */
  ghost predicate InFamily(b: Book, h: Heap, a: int) {
    a in h && h[a].family in b.members && a in b.members[h[a].family]
  }

  ghost predicate OwnMembers(b: Book, h: Heap, p: int)
    requires p in b.members
  {
    forall a :: a in b.members[p] ==> a in b.order && a in h && h[a].family == p
  }

  /** An alias in use is in `order` and in one family, its own; an unused one still has its real inode. */
  ghost predicate Filed(b: Book, h: Heap) {
    (forall a {:trigger InFamily(b, h, a)} :: a in b.order ==> InFamily(b, h, a)) &&
    (forall p {:trigger OwnMembers(b, h, p)} :: p in b.members ==> OwnMembers(b, h, p)) &&
    (forall a :: a in b.unused ==> a in h && h[a].family in b.members)
  }

  ghost predicate Issued(h: Heap, s: set<int>, issued: nat) {
    forall a :: a in s ==> a in h && MIN_ALIAS < h[a].ino <= MIN_ALIAS + issued
  }

  ghost predicate SameNumber(h: Heap, a: int, c: int) { a in h && c in h && h[a].ino == h[c].ino }

  ghost predicate NumbersDiffer(h: Heap) { forall a, c :: SameNumber(h, a, c) ==> a == c }

  /** Alias numbers are those issued so far, real numbers are below them, and no two entries share one. */
  ghost predicate Numbered(b: Book, h: Heap, issued: nat) {
    (forall p :: p in b.reals ==> p in h && h[p].ino <= MIN_ALIAS) &&
    Issued(h, b.order, issued) && Issued(h, b.unused, issued) &&
    NumbersDiffer(h)
  }

  ghost predicate SamePlace(b: Book, h: Heap, a: int, c: int) {
    a in b.order && c in b.order && a in h && c in h && h[a].family == h[c].family && h[a].bitmap == h[c].bitmap
  }

  ghost predicate PlacesDiffer(b: Book, h: Heap) { forall a, c :: SamePlace(b, h, a, c) ==> a == c }

  /** In one family the bitmaps differ. */
  ghost predicate Distinct(b: Book, h: Heap) {
    (forall p :: p in h ==> AliasName.Legit(h[p].bitmap)) &&
    PlacesDiffer(b, h)
  }

  ghost predicate Tidy(b: Book, h: Heap, issued: nat) {
    Disjoint(b) && Filed(b, h) && Numbered(b, h, issued) && Distinct(b, h) && h.Keys == b.reals + b.order + b.unused
  }

  lemma MembersApart(b: Book, h: Heap, p: int, q: int)
    requires Filed(b, h) && p in b.members && q in b.members && p != q
    ensures b.members[p] !! b.members[q]
  {
    assert OwnMembers(b, h, p) && OwnMembers(b, h, q);
    forall a | a in b.members[p] ensures a !in b.members[q] { }
  }

  lemma MemberFacts(b: Book, h: Heap, issued: nat, p: int, a: int)
    requires Tidy(b, h, issued) && p in b.members && a in b.members[p]
    ensures a in b.order && a in h && h[a].family == p && p in h && a != p
  {
    assert OwnMembers(b, h, p);
  }

  lemma MembersAlone(b: Book, h: Heap, issued: nat, p: int)
    requires Tidy(b, h, issued) && p in b.members
    ensures b.members[p] <= b.order && b.members[p] !! b.reals && b.members[p] !! b.unused && p !in b.members[p]
    ensures forall q :: q in b.members && q != p ==> b.members[q] !! b.members[p]
  {
    assert OwnMembers(b, h, p);
    var s: set<int> := b.members[p];
    forall a | a in s ensures a in b.order { }
    forall q | q in b.members && q != p ensures b.members[q] !! b.members[p] { MembersApart(b, h, p, q); }
  }

  lemma UnusedOwners(b: Book, h: Heap, issued: nat)
    requires Tidy(b, h, issued)
    ensures NumbersDiffer(h) && forall a :: a in b.unused ==> a in h && h[a].family in h && h[a].family in b.reals
  {
  }

  // ----- what the book means

  datatype Real = Real(ino: int, bitmap: seq<nat>)

  datatype Alias = Alias(ino: int, owner: int, bitmap: seq<nat>)

  datatype State = State(names: set<Real>, active: set<Alias>, removed: set<Alias>, issued: nat)

  function RealAt(h: Heap, p: int): Real
    requires p in h
  {
    Real(h[p].ino, h[p].bitmap)
  }

  function AliasAt(h: Heap, a: int): Alias
    requires a in h && h[a].family in h
  {
    Alias(h[a].ino, h[h[a].family].ino, h[a].bitmap)
  }

  ghost predicate Owned(h: Heap, s: set<int>) {
    forall a :: a in s ==> a in h && h[a].family in h
  }

  lemma TidyOwned(b: Book, h: Heap, issued: nat)
    requires Tidy(b, h, issued)
    ensures Owned(h, b.order) && Owned(h, b.unused) && forall p :: p in b.reals ==> p in h
  {
    forall a | a in b.order ensures a in h && h[a].family in h { assert InFamily(b, h, a); }
  }

  ghost function AliasesAt(h: Heap, s: set<int>): set<Alias>
    requires Owned(h, s)
  {
    set a | a in s :: AliasAt(h, a)
  }

  ghost function RealsAt(h: Heap, s: set<int>): set<Real>
    requires forall p :: p in s ==> p in h
  {
    set p | p in s :: RealAt(h, p)
  }

  ghost function View(b: Book, h: Heap, issued: nat): State
    requires Tidy(b, h, issued)
  {
    TidyOwned(b, h, issued);
    State(RealsAt(h, b.reals), AliasesAt(h, b.order), AliasesAt(h, b.unused), issued)
  }

  /** Numbers still differ if at most `e` is new, with a new number. */
  lemma StillDiffer(h: Heap, h': Heap, e: int)
    requires NumbersDiffer(h) && (forall q :: q in h' && q in h ==> h'[q].ino == h[q].ino)
    requires (forall q :: q in h' && q !in h ==> q == e)
    requires e in h' && e !in h ==> forall q :: q in h ==> h[q].ino != h'[e].ino
    ensures NumbersDiffer(h')
  {
    forall a, c | SameNumber(h', a, c) ensures a == c {
      if a in h && c in h { assert SameNumber(h, a, c); }
    }
  }

  lemma StillApart(b: Book, h: Heap, b': Book, h': Heap, e: int)
    requires PlacesDiffer(b, h)
    requires forall q :: q in b'.order && q in h' && q != e ==>
               q in b.order && q in h && h'[q].family == h[q].family && h'[q].bitmap == h[q].bitmap
    requires e in b'.order && e in h' ==>
               forall q :: q in b'.order && q in h' && h'[q].family == h'[e].family && h'[q].bitmap == h'[e].bitmap ==>
                   q == e
    ensures PlacesDiffer(b', h')
  {
    forall a, c | SamePlace(b', h', a, c) ensures a == c {
      if a != e && c != e { assert SamePlace(b, h, a, c); }
    }
  }

  // ----- a new alias

  function WithAlias(s: State, x: Alias): State { s.(active := s.active + {x}, issued := s.issued + 1) }

  function WithReal(s: State, x: Real): State { s.(names := s.names + {x}) }

  function WithoutReal(s: State, x: Real): State { s.(names := s.names - {x}) }

  function Shelved(s: State, x: Alias): State { s.(active := s.active - {x}, removed := s.removed + {x}) }

  /** `e` becomes an alias of `p`, with the next number; the family pointer of `p` may change. */
  function Joined(b: Book, p: int, e: int): Book
    requires p in b.members
  {
    b.(order := b.order + {e}, members := b.members[p := b.members[p] + {e}])
  }

  ghost predicate Joins(b: Book, h: Heap, h': Heap, p: int, e: int, bitmap: seq<nat>, issued: nat) {
    p in b.members && p in h && e !in h && h'.Keys == h.Keys + {e} && AliasName.Legit(bitmap) &&
    h'[e].ino == MIN_ALIAS + issued + 1 && h'[e].bitmap == bitmap && h'[e].family == p &&
    (forall q :: q in h ==> h'[q].ino == h[q].ino && h'[q].bitmap == h[q].bitmap) &&
    (forall q :: q in h && q != p ==> h'[q].family == h[q].family) &&
    (forall a :: a in b.members[p] && a in h ==> h[a].bitmap != bitmap)
  }

  lemma JoinedFiled(b: Book, h: Heap, h': Heap, p: int, e: int, bitmap: seq<nat>, issued: nat)
    requires Tidy(b, h, issued) && Joins(b, h, h', p, e, bitmap, issued)
    ensures Disjoint(Joined(b, p, e)) && Filed(Joined(b, p, e), h')
  {
    var b' := Joined(b, p, e);
    forall a | a in b'.order ensures InFamily(b', h', a) { if a != e { assert InFamily(b, h, a); } }
    forall q | q in b'.members ensures OwnMembers(b', h', q) { assert OwnMembers(b, h, q); }
  }

  lemma JoinedNumbered(b: Book, h: Heap, h': Heap, p: int, e: int, bitmap: seq<nat>, issued: nat)
    requires Tidy(b, h, issued) && Joins(b, h, h', p, e, bitmap, issued)
    ensures Numbered(Joined(b, p, e), h', issued + 1)
  {
    StillDiffer(h, h', e);
  }

  lemma JoinedDistinct(b: Book, h: Heap, h': Heap, p: int, e: int, bitmap: seq<nat>, issued: nat)
    requires Tidy(b, h, issued) && Joins(b, h, h', p, e, bitmap, issued)
    ensures Distinct(Joined(b, p, e), h')
  {
    forall a | a in b.order && a in h && h[a].family == p ensures h[a].bitmap != bitmap { assert InFamily(b, h, a); }
    StillApart(b, h, Joined(b, p, e), h', e);
  }

  lemma JoinedTidy(b: Book, h: Heap, h': Heap, p: int, e: int, bitmap: seq<nat>, issued: nat)
    requires Tidy(b, h, issued) && Joins(b, h, h', p, e, bitmap, issued)
    ensures Tidy(Joined(b, p, e), h', issued + 1)
    ensures View(Joined(b, p, e), h', issued + 1) ==
            WithAlias(View(b, h, issued), Alias(MIN_ALIAS + issued + 1, h[p].ino, bitmap))
  {
    var b' := Joined(b, p, e);
    JoinedFiled(b, h, h', p, e, bitmap, issued);
    JoinedNumbered(b, h, h', p, e, bitmap, issued);
    JoinedDistinct(b, h, h', p, e, bitmap, issued);
    TidyOwned(b, h, issued);
    TidyOwned(b', h', issued + 1);
    AliasesSame(h, h', b.order);
    AliasesSame(h, h', b.unused);
    RealsSame(h, h', b.reals);
    AliasesAdd(h', b.order, e);
  }

  lemma AliasesSame(h: Heap, h': Heap, s: set<int>)
    requires Owned(h, s) && Owned(h', s) && forall a :: a in s ==> AliasAt(h', a) == AliasAt(h, a)
    ensures AliasesAt(h', s) == AliasesAt(h, s)
  {
    forall x | x in AliasesAt(h, s) ensures x in AliasesAt(h', s) {
      var a :| a in s && x == AliasAt(h, a);
      assert AliasAt(h', a) == x;
    }
    forall x | x in AliasesAt(h', s) ensures x in AliasesAt(h, s) {
      var a :| a in s && x == AliasAt(h', a);
      assert AliasAt(h, a) == x;
    }
  }

  lemma RealsSame(h: Heap, h': Heap, s: set<int>)
    requires (forall p :: p in s ==> p in h && p in h' && RealAt(h', p) == RealAt(h, p))
    ensures RealsAt(h', s) == RealsAt(h, s)
  {
    forall x | x in RealsAt(h, s) ensures x in RealsAt(h', s) {
      var p :| p in s && x == RealAt(h, p);
      assert RealAt(h', p) == x;
    }
    forall x | x in RealsAt(h', s) ensures x in RealsAt(h, s) {
      var p :| p in s && x == RealAt(h', p);
      assert RealAt(h, p) == x;
    }
  }

  lemma AliasesAdd(h: Heap, s: set<int>, a: int)
    requires Owned(h, s + {a})
    ensures AliasesAt(h, s + {a}) == AliasesAt(h, s) + {AliasAt(h, a)}
  {
    assert a in s + {a};
    forall x | x in AliasesAt(h, s) ensures x in AliasesAt(h, s + {a}) {
      var c :| c in s && x == AliasAt(h, c);
      assert c in s + {a};
    }
  }

  lemma AliasesDrop(h: Heap, s: set<int>, a: int)
    requires Owned(h, s) && a in s && NumbersDiffer(h)
    ensures AliasesAt(h, s - {a}) == AliasesAt(h, s) - {AliasAt(h, a)}
  {
    forall x | x in AliasesAt(h, s) - {AliasAt(h, a)} ensures x in AliasesAt(h, s - {a}) {
      var c :| c in s && x == AliasAt(h, c);
      assert c in s - {a};
    }
    forall x | x in AliasesAt(h, s - {a}) ensures x in AliasesAt(h, s) && x != AliasAt(h, a) {
      var c :| c in s - {a} && x == AliasAt(h, c);
      assert SameNumber(h, c, a) ==> c == a;
    }
  }

  // ----- a new real inode

  function Entered(b: Book, p: int): Book { b.(reals := b.reals + {p}, members := b.members[p := {}]) }

  ghost predicate Enters(b: Book, h: Heap, h': Heap, p: int, n: int, bitmap: seq<nat>) {
    p !in h && p !in b.members && h'.Keys == h.Keys + {p} && AliasName.Legit(bitmap) && n <= MIN_ALIAS &&
    h'[p].ino == n && h'[p].bitmap == bitmap && (forall q :: q in b.reals && q in h ==> h[q].ino != n) &&
    (forall q :: q in h ==> h'[q].ino == h[q].ino && h'[q].bitmap == h[q].bitmap && h'[q].family == h[q].family)
  }

  lemma EnteredFiled(b: Book, h: Heap, h': Heap, p: int, n: int, bitmap: seq<nat>, issued: nat)
    requires Tidy(b, h, issued) && Enters(b, h, h', p, n, bitmap)
    ensures Tidy(Entered(b, p), h', issued)
  {
    var b' := Entered(b, p);
    forall a | a in b'.order ensures InFamily(b', h', a) { assert InFamily(b, h, a); }
    forall q | q in b'.members ensures OwnMembers(b', h', q) { if q != p { assert OwnMembers(b, h, q); } }
    StillDiffer(h, h', p);
    StillApart(b, h, b', h', p);
  }

  lemma EnteredTidy(b: Book, h: Heap, h': Heap, p: int, n: int, bitmap: seq<nat>, issued: nat)
    requires Tidy(b, h, issued) && Enters(b, h, h', p, n, bitmap)
    ensures Tidy(Entered(b, p), h', issued)
    ensures View(Entered(b, p), h', issued) == WithReal(View(b, h, issued), Real(n, bitmap))
  {
    var b' := Entered(b, p);
    EnteredFiled(b, h, h', p, n, bitmap, issued);
    TidyOwned(b, h, issued);
    TidyOwned(b', h', issued);
    AliasesSame(h, h', b.order);
    AliasesSame(h, h', b.unused);
    RealsSame(h, h', b.reals);
    RealsAdd(h', b.reals, p);
  }

  lemma RealsAdd(h: Heap, s: set<int>, p: int)
    requires forall q :: q in s + {p} ==> q in h
    ensures RealsAt(h, s + {p}) == RealsAt(h, s) + {RealAt(h, p)}
  {
    assert p in s + {p};
    forall x | x in RealsAt(h, s) ensures x in RealsAt(h, s + {p}) {
      var c :| c in s && x == RealAt(h, c);
      assert c in s + {p};
    }
  }

  lemma RealsDrop(h: Heap, s: set<int>, p: int)
    requires p in s && (forall q :: q in s ==> q in h) && NumbersDiffer(h)
    ensures RealsAt(h, s - {p}) == RealsAt(h, s) - {RealAt(h, p)}
  {
    forall x | x in RealsAt(h, s) - {RealAt(h, p)} ensures x in RealsAt(h, s - {p}) {
      var c :| c in s && x == RealAt(h, c);
      assert c in s - {p};
    }
    forall x | x in RealsAt(h, s - {p}) ensures x in RealsAt(h, s) && x != RealAt(h, p) {
      var c :| c in s - {p} && x == RealAt(h, c);
      assert SameNumber(h, c, p) ==> c == p;
    }
  }

  // ----- an alias goes out of use

  function Retired(b: Book, p: int, a: int): Book
    requires p in b.members
  {
    b.(order := b.order - {a}, unused := b.unused + {a}, members := b.members[p := b.members[p] - {a}])
  }

  /** Numbers, bitmaps and family pointers stay, but for the family pointer of `p`. */
  ghost predicate SameButFamily(h: Heap, h': Heap, p: int) {
    forall q :: q in h && q in h' ==>
      h'[q].ino == h[q].ino && h'[q].bitmap == h[q].bitmap && (q != p ==> h'[q].family == h[q].family)
  }

  lemma RetiredTidy(b: Book, h: Heap, h': Heap, p: int, a: int, issued: nat)
    requires Tidy(b, h, issued) && a in b.order && a in h && h[a].family == p && p in b.members
    requires h'.Keys == h.Keys && SameButFamily(h, h', p) && p in h
    ensures Tidy(Retired(b, p, a), h', issued)
    ensures View(Retired(b, p, a), h', issued) == Shelved(View(b, h, issued), Alias(h[a].ino, h[p].ino, h[a].bitmap))
  {
    var b' := Retired(b, p, a);
    RetiredFiled(b, h, h', p, a, issued);
    TidyOwned(b, h, issued);
    TidyOwned(b', h', issued);
    AliasesSame(h, h', b.order);
    AliasesSame(h, h', b.unused);
    RealsSame(h, h', b.reals);
    AliasesDrop(h', b.order, a);
    AliasesAdd(h', b.unused, a);
  }

  lemma RetiredFiled(b: Book, h: Heap, h': Heap, p: int, a: int, issued: nat)
    requires Tidy(b, h, issued) && a in b.order && a in h && h[a].family == p && p in b.members
    requires h'.Keys == h.Keys && SameButFamily(h, h', p) && p in h
    ensures Tidy(Retired(b, p, a), h', issued)
  {
    var b' := Retired(b, p, a);
    forall c | c in b'.order ensures InFamily(b', h', c) { assert InFamily(b, h, c); }
    forall q | q in b'.members ensures OwnMembers(b', h', q) { assert OwnMembers(b, h, q); }
    StillDiffer(h, h', p);
    StillApart(b, h, b', h', p);
  }

  // ----- a real inode and all its aliases go

  ghost function UnusedOf(b: Book, h: Heap, p: int): set<int> { set a | a in b.unused && a in h && h[a].family == p }

  function Dropped(b: Book, p: int, gone: set<int>): Book
    requires p in b.members
  {
    Book(b.reals - {p}, b.order - b.members[p], b.unused - gone, b.members - {p})
  }

  function NotOf(s: set<Alias>, n: int): set<Alias> { set x | x in s && x.owner != n }

  function WithoutFamily(s: State, x: Real): State {
    s.(names := s.names - {x}, active := NotOf(s.active, x.ino), removed := NotOf(s.removed, x.ino))
  }

  ghost predicate Drops(b: Book, h: Heap, h': Heap, p: int) {
    p in b.members && p in h && h'.Keys == h.Keys - {p} - b.members[p] - UnusedOf(b, h, p) && SameButFamily(h, h', p)
  }

  lemma DroppedFiled(b: Book, h: Heap, h': Heap, p: int, issued: nat)
    requires Tidy(b, h, issued) && Drops(b, h, h', p)
    ensures Tidy(Dropped(b, p, UnusedOf(b, h, p)), h', issued)
  {
    var b' := Dropped(b, p, UnusedOf(b, h, p));
    assert OwnMembers(b, h, p);
    forall q ensures q in h' <==> q in b'.reals + b'.order + b'.unused { }
    forall a | a in b'.order ensures InFamily(b', h', a) { assert InFamily(b, h, a); }
    forall q | q in b'.members ensures OwnMembers(b', h', q) { assert OwnMembers(b, h, q); }
    StillDiffer(h, h', p);
    StillApart(b, h, b', h', p);
  }

  lemma DroppedTidy(b: Book, h: Heap, h': Heap, p: int, issued: nat)
    requires Tidy(b, h, issued) && Drops(b, h, h', p)
    ensures Tidy(Dropped(b, p, UnusedOf(b, h, p)), h', issued)
    ensures View(Dropped(b, p, UnusedOf(b, h, p)), h', issued) == WithoutFamily(View(b, h, issued), RealAt(h, p))
  {
    var b' := Dropped(b, p, UnusedOf(b, h, p));
    DroppedFiled(b, h, h', p, issued);
    TidyOwned(b, h, issued);
    TidyOwned(b', h', issued);
    RealsSame(h, h', b'.reals);
    RealsDrop(h, b.reals, p);
    AliasesSame(h, h', b'.order);
    AliasesSame(h, h', b'.unused);
    assert OwnMembers(b, h, p);
    forall a | a in b.order ensures (a in b.members[p]) == (h[a].family == p) { assert InFamily(b, h, a); }
    AliasesNotOf(b, h, b.order, b.members[p], p, issued);
    AliasesNotOf(b, h, b.unused, UnusedOf(b, h, p), p, issued);
  }

  lemma DifferentNumbers(h: Heap, a: int, c: int)
    requires NumbersDiffer(h) && a in h && c in h && a != c
    ensures h[a].ino != h[c].ino
  {
    assert !SameNumber(h, a, c);
  }

  lemma AliasesNotOf(b: Book, h: Heap, s: set<int>, gone: set<int>, p: int, issued: nat)
    requires Numbered(b, h, issued) && Owned(h, s) && p in h && forall a :: a in s ==> (a in gone <==> h[a].family == p)
    ensures AliasesAt(h, s - gone) == NotOf(AliasesAt(h, s), h[p].ino)
  {
    forall x | x in AliasesAt(h, s - gone) ensures x in NotOf(AliasesAt(h, s), h[p].ino) {
      var a :| a in s - gone && x == AliasAt(h, a);
      DifferentNumbers(h, h[a].family, p);
    }
    forall x | x in NotOf(AliasesAt(h, s), h[p].ino) ensures x in AliasesAt(h, s - gone) {
      var a :| a in s && x == AliasAt(h, a);
      assert a in s - gone;
    }
  }

  // ----- a real inode changes its name

  lemma RenamedFiled(b: Book, h: Heap, p: int, bitmap: seq<nat>, issued: nat)
    requires Tidy(b, h, issued) && p in b.reals && p in h && AliasName.Legit(bitmap)
    ensures Tidy(b, h[p := h[p].(bitmap := bitmap)], issued)
  {
    var h' := h[p := h[p].(bitmap := bitmap)];
    forall a | a in b.order ensures InFamily(b, h', a) { assert InFamily(b, h, a); }
    forall q | q in b.members ensures OwnMembers(b, h', q) { assert OwnMembers(b, h, q); }
    StillDiffer(h, h', p);
    StillApart(b, h, b, h', p);
  }

  lemma RenamedTidy(b: Book, h: Heap, p: int, bitmap: seq<nat>, issued: nat)
    requires Tidy(b, h, issued) && p in b.reals && p in h && AliasName.Legit(bitmap)
    ensures Tidy(b, h[p := h[p].(bitmap := bitmap)], issued)
    ensures View(b, h[p := h[p].(bitmap := bitmap)], issued) ==
            WithReal(WithoutReal(View(b, h, issued), RealAt(h, p)), Real(h[p].ino, bitmap))
  {
    var h' := h[p := h[p].(bitmap := bitmap)];
    RenamedFiled(b, h, p, bitmap, issued);
    TidyOwned(b, h, issued);
    TidyOwned(b, h', issued);
    AliasesSame(h, h', b.order);
    AliasesSame(h, h', b.unused);
    RealsDrop(h, b.reals, p);
    RealsSame(h, h', b.reals - {p});
    RealsAdd(h', b.reals - {p}, p);
    assert b.reals - {p} + {p} == b.reals;
  }
}
