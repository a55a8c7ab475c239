/** Directory entry names and the two orders the directory B-tree is kept in:
    byte-wise for internal mounts, case-folded for external (emulated sd-card) mounts. */
module DirNames {

  datatype Entry = Entry(name: string, ino: int, kind: int)

  /** ASCII lower-casing, as strcasecmp does it in the C locale. */
  function Lower(c: char): char {
    if 'A' <= c <= 'Z' then c + 32 as char else c
  }

  function Fold(s: string): string {
    if s == [] then [] else [Lower(s[0])] + Fold(s[1..])
  }

  /** The part of a name that the comparison looks at. */
  function Key(external: bool, name: string): string {
    if external then Fold(name) else name
  }

  /** strcmp on strings without an embedded terminator. */
  function StrCmp(a: string, b: string): int {
    if a == [] then (if b == [] then 0 else -1)
    else if b == [] then 1
    else if a[0] < b[0] then -1
    else if b[0] < a[0] then 1
    else StrCmp(a[1..], b[1..])
  }

  function Compare(external: bool, a: string, b: string): int {
    StrCmp(Key(external, a), Key(external, b))
  }

  predicate Lt(external: bool, a: string, b: string) {
    Compare(external, a, b) < 0
  }

  predicate Same(external: bool, a: string, b: string) {
    Key(external, a) == Key(external, b)
  }

  lemma {:induction false} StrCmpZero(a: string, b: string)
    ensures StrCmp(a, b) == 0 <==> a == b
  {
    if a != [] && b != [] && a[0] == b[0] {
      StrCmpZero(a[1..], b[1..]);
      assert a == [a[0]] + a[1..] && b == [b[0]] + b[1..];
    }
  }

  lemma {:induction false} StrCmpSwap(a: string, b: string)
    ensures StrCmp(a, b) < 0 <==> StrCmp(b, a) > 0
  {
    if a != [] && b != [] && a[0] == b[0] { StrCmpSwap(a[1..], b[1..]); }
  }

  lemma {:induction false} StrCmpTrans(a: string, b: string, c: string)
    requires StrCmp(a, b) < 0 && StrCmp(b, c) < 0
    ensures StrCmp(a, c) < 0
  {
    if a != [] && c != [] && a[0] == b[0] == c[0] { StrCmpTrans(a[1..], b[1..], c[1..]); }
  }

  /** The comparison is a total preorder whose equivalence is equality of keys. */
  lemma OrderLaws(x: bool, a: string, b: string, c: string)
    ensures Compare(x, a, b) == 0 <==> Same(x, a, b)
    ensures Lt(x, a, b) <==> Compare(x, b, a) > 0
    ensures Lt(x, a, b) && Lt(x, b, c) ==> Lt(x, a, c)
    ensures !(Lt(x, a, b) && Lt(x, b, a))
    ensures Lt(x, a, b) || Same(x, a, b) || Lt(x, b, a)
  {
    StrCmpZero(Key(x, a), Key(x, b));
    StrCmpSwap(Key(x, a), Key(x, b));
    StrCmpSwap(Key(x, b), Key(x, a));
    if Lt(x, a, b) && Lt(x, b, c) { StrCmpTrans(Key(x, a), Key(x, b), Key(x, c)); }
  }

  // ----- what the comparison makes of two names, letter by letter

  /** The two cases of one ASCII letter. */
  predicate OtherCase(c: char, d: char) {
    ('A' <= c <= 'Z' && d as int == c as int + 32) || ('A' <= d <= 'Z' && c as int == d as int + 32)
  }

  /** The same letters, in whatever case on an external mount. */
  predicate SpelledAlike(x: bool, a: string, b: string) {
    |a| == |b| && forall i :: 0 <= i < |a| ==> a[i] == b[i] || (x && OtherCase(a[i], b[i]))
  }

  lemma {:induction false} FoldAt(s: string)
    ensures |Fold(s)| == |s| && forall i :: 0 <= i < |s| ==> Fold(s)[i] == Lower(s[i])
  {
    if s != [] {
      FoldAt(s[1..]);
      forall i | 0 <= i < |s| ensures Fold(s)[i] == Lower(s[i]) {
        if i > 0 { assert Fold(s)[i] == Fold(s[1..])[i - 1] == Lower(s[1..][i - 1]); }
      }
    }
  }

  /** Two names are the same if and only if they are spelled alike. */
  lemma SameMeans(x: bool, a: string, b: string)
    ensures Same(x, a, b) <==> SpelledAlike(x, a, b)
  {
    if x {
      FoldAt(a);
      FoldAt(b);
      if |a| == |b| {
        forall i | 0 <= i < |a| ensures Fold(a)[i] == Fold(b)[i] <==> a[i] == b[i] || OtherCase(a[i], b[i]) { }
      }
    } else if |a| == |b| {
      assert (forall i :: 0 <= i < |a| ==> a[i] == b[i]) ==> a == b;
    }
  }

  /** The byte a letter is compared by. */
  function Rank(x: bool, c: char): int {
    if x && 'A' <= c <= 'Z' then c as int + 32 else c as int
  }

  /** The names agree before `k`, and there the first one ends or has the smaller letter. */
  predicate SmallerAt(x: bool, a: string, b: string, k: nat) {
    k < |b| && k <= |a| && (forall i :: 0 <= i < k ==> Rank(x, a[i]) == Rank(x, b[i])) &&
    (k < |a| ==> Rank(x, a[k]) < Rank(x, b[k]))
  }

  lemma {:induction false} StrCmpMeans(a: string, b: string) returns (k: nat)
    ensures StrCmp(a, b) < 0 ==> SmallerAt(false, a, b, k)
    ensures forall j: nat :: SmallerAt(false, a, b, j) ==> StrCmp(a, b) < 0
  {
    k := 0;
    if a != [] && b != [] && a[0] == b[0] {
      var m := StrCmpMeans(a[1..], b[1..]);
      k := m + 1;
      forall j: nat | SmallerAt(false, a, b, j) ensures SmallerAt(false, a[1..], b[1..], j - 1) {
        forall i | 0 <= i < j - 1 ensures Rank(false, a[1..][i]) == Rank(false, b[1..][i]) {
          assert Rank(false, a[i + 1]) == Rank(false, b[i + 1]);
        }
      }
      if StrCmp(a, b) < 0 {
        forall i | 0 <= i < k ensures Rank(false, a[i]) == Rank(false, b[i]) {
          if i > 0 { assert Rank(false, a[1..][i - 1]) == Rank(false, b[1..][i - 1]); }
        }
      }
    }
  }

  /** The order is that of the first letters that differ, as bytes, in lower case on an external mount. */
  lemma OrderMeans(x: bool, a: string, b: string)
    ensures Lt(x, a, b) <==> exists k: nat :: SmallerAt(x, a, b, k)
  {
    var k := StrCmpMeans(Key(x, a), Key(x, b));
    FoldAt(a);
    FoldAt(b);
    forall j: nat ensures SmallerAt(x, a, b, j) <==> SmallerAt(false, Key(x, a), Key(x, b), j) {
      SmallerFolded(x, a, b, j);
    }
  }

  lemma SmallerFolded(x: bool, a: string, b: string, j: nat)
    ensures SmallerAt(x, a, b, j) <==> SmallerAt(false, Key(x, a), Key(x, b), j)
  {
    FoldAt(a);
    FoldAt(b);
    if x && j < |b| && j <= |a| {
      forall i | 0 <= i < |a| ensures Rank(false, Fold(a)[i]) == Rank(true, a[i]) { }
      forall i | 0 <= i < |b| ensures Rank(false, Fold(b)[i]) == Rank(true, b[i]) { }
    }
  }

  /** Entries in strictly increasing key order: sorted, and no name twice. */
  ghost predicate Sorted(x: bool, es: seq<Entry>) {
    forall i, j :: 0 <= i < j < |es| ==> Lt(x, es[i].name, es[j].name)
  }

  ghost predicate Below(x: bool, es: seq<Entry>, name: string) {
    forall i :: 0 <= i < |es| ==> Lt(x, es[i].name, name)
  }

  ghost predicate Above(x: bool, es: seq<Entry>, name: string) {
    forall i :: 0 <= i < |es| ==> Lt(x, name, es[i].name)
  }

  /** How many leading entries are smaller than `name`: the insertion point in a sorted sequence. */
  function Slot(x: bool, es: seq<Entry>, name: string): (s: nat)
    ensures s <= |es|
    ensures forall i :: 0 <= i < s ==> Lt(x, es[i].name, name)
    ensures s < |es| ==> !Lt(x, es[s].name, name)
  {
    if es == [] || !Lt(x, es[0].name, name) then 0 else 1 + Slot(x, es[1..], name)
  }

  datatype Place = Hit(at: nat) | Miss(at: nat)

  /** Where `name` is, or where it would have to be inserted. */
  function Locate(x: bool, es: seq<Entry>, name: string): (p: Place)
    ensures p.at <= |es| && (p.Hit? ==> p.at < |es| && Same(x, es[p.at].name, name))
  {
    var s := Slot(x, es, name);
    if s < |es| && Same(x, es[s].name, name) then Hit(s) else Miss(s)
  }

  /** The entry `name` is present, up to the equivalence of the order. */
  ghost predicate Has(x: bool, es: seq<Entry>, name: string) {
    exists i :: 0 <= i < |es| && Same(x, es[i].name, name)
  }

  lemma HasMeans(x: bool, es: seq<Entry>, name: string)
    ensures Has(x, es, name) <==> exists i :: 0 <= i < |es| && SpelledAlike(x, es[i].name, name)
  {
    forall i | 0 <= i < |es| ensures Same(x, es[i].name, name) <==> SpelledAlike(x, es[i].name, name) {
      SameMeans(x, es[i].name, name);
    }
  }

  function PutAt(es: seq<Entry>, i: nat, e: Entry): (r: seq<Entry>)
    requires i <= |es|
    ensures |r| == |es| + 1
  {
    es[..i] + [e] + es[i..]
  }

  function InsertSorted(x: bool, es: seq<Entry>, e: Entry): (r: seq<Entry>)
    ensures |r| == |es| + 1
  {
    PutAt(es, Slot(x, es, e.name), e)
  }

  function CutAt(es: seq<Entry>, i: nat): seq<Entry>
    requires i < |es|
  {
    es[..i] + es[i + 1..]
  }

  function RemoveNamed(x: bool, es: seq<Entry>, name: string): (r: seq<Entry>) {
    match Locate(x, es, name)
    case Hit(i) => CutAt(es, i)
    case Miss(_) => es
  }

  /** In a sorted sequence `Locate` splits the entries into smaller and larger ones. */
  lemma LocateSplits(x: bool, es: seq<Entry>, name: string)
    requires Sorted(x, es)
    ensures var p := Locate(x, es, name);
            && Below(x, es[..p.at], name)
            && Above(x, es[if p.Hit? then p.at + 1 else p.at..], name)
            && (p.Hit? <==> Has(x, es, name))
  {
    var p := Locate(x, es, name);
    forall j | p.at <= j < |es| && (p.Hit? ==> j > p.at)
      ensures Lt(x, name, es[j].name)
    {
      OrderLaws(x, es[p.at].name, name, name);
      OrderLaws(x, name, es[p.at].name, es[j].name);
      if p.Hit? { assert Lt(x, es[p.at].name, es[j].name); }
    }
    forall j | 0 <= j < |es| && Same(x, es[j].name, name) ensures p.Hit? {
      OrderLaws(x, es[j].name, name, name);
      OrderLaws(x, name, es[j].name, name);
    }
  }

  /** A position with smaller entries before it and none smaller at it is the slot. */
  lemma SlotUnique(x: bool, es: seq<Entry>, name: string, s: nat)
    requires s <= |es|
    requires forall i :: 0 <= i < s ==> Lt(x, es[i].name, name)
    requires s < |es| ==> !Lt(x, es[s].name, name)
    ensures Slot(x, es, name) == s
  {
  }

  /** `Slot` in the middle of a sequence whose front is below and whose back is above the name. */
  lemma SlotInContext(x: bool, a: seq<Entry>, m: seq<Entry>, b: seq<Entry>, name: string)
    requires Below(x, a, name) && Above(x, b, name)
    ensures Slot(x, a + m + b, name) == |a| + Slot(x, m, name)
    ensures Locate(x, a + m + b, name) ==
            var p := Locate(x, m, name);
            if p.Hit? then Hit(|a| + p.at) else Miss(|a| + p.at)
  {
    hide Compare;
    var s := Slot(x, m, name);
    if s == |m| && b != [] {
      OrderLaws(x, b[0].name, name, name);
      OrderLaws(x, name, b[0].name, name);
    }
    SlotUnique(x, a + m + b, name, |a| + s);
  }

  lemma InsertInContext(x: bool, a: seq<Entry>, m: seq<Entry>, b: seq<Entry>, e: Entry)
    requires Below(x, a, e.name) && Above(x, b, e.name)
    ensures InsertSorted(x, a + m + b, e) == a + InsertSorted(x, m, e) + b
  {
    hide PutAt;
    SlotInContext(x, a, m, b, e.name);
    PutInContext(a, m, b, Slot(x, m, e.name), e);
  }

  lemma PutInContext(a: seq<Entry>, m: seq<Entry>, b: seq<Entry>, i: nat, e: Entry)
    requires i <= |m|
    ensures PutAt(a + m + b, |a| + i, e) == a + PutAt(m, i, e) + b
  {
  }

  lemma CutInContext(a: seq<Entry>, m: seq<Entry>, b: seq<Entry>, i: nat)
    requires i < |m|
    ensures CutAt(a + m + b, |a| + i) == a + CutAt(m, i) + b
  {
  }

  lemma RemoveInContext(x: bool, a: seq<Entry>, m: seq<Entry>, b: seq<Entry>, name: string)
    requires Below(x, a, name) && Above(x, b, name)
    ensures RemoveNamed(x, a + m + b, name) == a + RemoveNamed(x, m, name) + b
  {
    hide CutAt;
    SlotInContext(x, a, m, b, name);
    var p := Locate(x, m, name);
    if p.Hit? { CutInContext(a, m, b, p.at); }
  }

  lemma InsertKeepsSorted(x: bool, es: seq<Entry>, e: Entry)
    requires Sorted(x, es) && !Has(x, es, e.name)
    ensures Sorted(x, InsertSorted(x, es, e))
  {
    LocateSplits(x, es, e.name);
    var s := Slot(x, es, e.name);
    var r := InsertSorted(x, es, e);
    forall i, j | 0 <= i < j < |r| ensures Lt(x, r[i].name, r[j].name) {
      if j == s { assert r[i] == es[..s][i]; }
      else if i == s { assert r[j] == es[s..][j - s - 1]; }
    }
  }

  lemma RemoveKeepsSorted(x: bool, es: seq<Entry>, name: string)
    requires Sorted(x, es)
    ensures Sorted(x, RemoveNamed(x, es, name))
  {
  }

  lemma SortedParts(x: bool, a: seq<Entry>, b: seq<Entry>)
    requires Sorted(x, a + b)
    ensures Sorted(x, a) && Sorted(x, b)
  {
    forall i, j | 0 <= i < j < |a| ensures Lt(x, a[i].name, a[j].name) {
      assert (a + b)[i] == a[i] && (a + b)[j] == a[j];
    }
    forall i, j | 0 <= i < j < |b| ensures Lt(x, b[i].name, b[j].name) {
      assert (a + b)[|a| + i] == b[i] && (a + b)[|a| + j] == b[j];
    }
  }

  lemma InsertedIn(x: bool, es: seq<Entry>, e: Entry)
    ensures forall y :: y in InsertSorted(x, es, e) <==> y in es || y == e
  {
    var s := Slot(x, es, e.name);
    assert es == es[..s] + es[s..];
  }

  /** Exactly the entries spelled like the name go. */
  lemma RemovedFrom(x: bool, es: seq<Entry>, name: string)
    requires Sorted(x, es)
    ensures forall y :: y in RemoveNamed(x, es, name) <==> y in es && !SpelledAlike(x, y.name, name)
  {
    hide Compare;
    LocateSplits(x, es, name);
    var p := Locate(x, es, name);
    forall i | 0 <= i < |es| ensures SpelledAlike(x, es[i].name, name) <==> p == Hit(i) {
      SameMeans(x, es[i].name, name);
      OrderLaws(x, es[i].name, name, name);
      OrderLaws(x, name, es[i].name, name);
      if i < p.at { assert es[..p.at][i] == es[i]; }
      if p.Hit? && i > p.at { assert es[p.at + 1..][i - p.at - 1] == es[i]; }
      if p.Miss? && i >= p.at { assert es[p.at..][i - p.at] == es[i]; }
    }
    var r := RemoveNamed(x, es, name);
    forall y ensures y in r <==> y in es && !SpelledAlike(x, y.name, name) {
      if p.Hit? { CutIn(es, p.at, y); }
    }
  }

  lemma CutIn(es: seq<Entry>, i: nat, y: Entry)
    requires i < |es|
    ensures y in CutAt(es, i) <==> exists j :: 0 <= j < |es| && j != i && es[j] == y
  {
    var r := CutAt(es, i);
    if j :| 0 <= j < |es| && j != i && es[j] == y { assert r[if j < i then j else j - 1] == y; }
    if k :| 0 <= k < |r| && r[k] == y { assert es[if k < i then k else k + 1] == y; }
  }

  /** Of one spelling there is one entry. */
  lemma OneSpelling(x: bool, es: seq<Entry>, y: Entry, z: Entry, name: string)
    requires Sorted(x, es) && y in es && z in es
    requires SpelledAlike(x, y.name, name) && SpelledAlike(x, z.name, name)
    ensures y == z
  {
    var i :| 0 <= i < |es| && es[i] == y;
    var j :| 0 <= j < |es| && es[j] == z;
    SameMeans(x, y.name, name);
    SameMeans(x, z.name, name);
    OrderLaws(x, y.name, z.name, name);
    OrderLaws(x, z.name, y.name, name);
  }

  /** The finite map a sorted listing stands for. */
  ghost function MapOf(x: bool, es: seq<Entry>): map<string, Entry> {
    if es == [] then map[] else MapOf(x, es[..|es| - 1])[Key(x, es[|es| - 1].name) := es[|es| - 1]]
  }

  lemma {:induction false} MapOfKeys(x: bool, es: seq<Entry>, k: string)
    ensures k in MapOf(x, es) <==> exists i :: 0 <= i < |es| && Key(x, es[i].name) == k
    ensures k in MapOf(x, es) ==> MapOf(x, es)[k] in es && Key(x, MapOf(x, es)[k].name) == k
  {
    if es != [] {
      var p := es[..|es| - 1];
      MapOfKeys(x, p, k);
      assert es == p + [es[|es| - 1]];
      if k in MapOf(x, p) {
        var i :| 0 <= i < |p| && Key(x, p[i].name) == k;
        assert Key(x, es[i].name) == k;
      }
      if j :| 0 <= j < |es| && Key(x, es[j].name) == k {
        if j < |p| { assert Key(x, p[j].name) == k; }
      }
    }
  }

  /** Every entry of a sorted listing is what its map holds under the entry's key. */
  lemma MapOfAt(x: bool, es: seq<Entry>, i: nat)
    requires Sorted(x, es) && i < |es|
    ensures Key(x, es[i].name) in MapOf(x, es) && MapOf(x, es)[Key(x, es[i].name)] == es[i]
  {
    hide MapOf, Compare;
    var k := Key(x, es[i].name);
    MapOfKeys(x, es, k);
    var e := MapOf(x, es)[k];
    var j :| 0 <= j < |es| && es[j] == e;
    OrderLaws(x, es[i].name, es[j].name, e.name);
    OrderLaws(x, es[j].name, es[i].name, e.name);
  }

  /** A map that agrees with every entry and holds nothing else is the listing's map. */
  lemma MapOfUnique(x: bool, es: seq<Entry>, m: map<string, Entry>)
    requires Sorted(x, es)
    requires forall i :: 0 <= i < |es| ==> Key(x, es[i].name) in m && m[Key(x, es[i].name)] == es[i]
    requires forall k :: k in m ==> m[k] in es && Key(x, m[k].name) == k
    ensures MapOf(x, es) == m
  {
    hide MapOf, Compare;
    var r := MapOf(x, es);
    forall k ensures k in r <==> k in m ensures k in r ==> r[k] == m[k] {
      MapOfKeys(x, es, k);
      if k in m {
        var i :| 0 <= i < |es| && es[i] == m[k];
        MapOfAt(x, es, i);
      }
    }
  }

  /** Sorted insertion and removal are map update and map removal. */
  lemma InsertIsUpdate(x: bool, es: seq<Entry>, e: Entry)
    requires Sorted(x, es) && !Has(x, es, e.name)
    ensures MapOf(x, InsertSorted(x, es, e)) == MapOf(x, es)[Key(x, e.name) := e]
  {
    hide MapOf, Compare, Locate, Slot;
    var r, s := InsertSorted(x, es, e), Slot(x, es, e.name);
    InsertKeepsSorted(x, es, e);
    var m := MapOf(x, es)[Key(x, e.name) := e];
    forall j | 0 <= j < |r| ensures Key(x, r[j].name) in m && m[Key(x, r[j].name)] == r[j] {
      if j != s {
        var i := if j < s then j else j - 1;
        assert r[j] == es[i] && !Same(x, es[i].name, e.name);
        MapOfAt(x, es, i);
      }
    }
    forall k | k in m ensures m[k] in r && Key(x, m[k].name) == k {
      if k == Key(x, e.name) {
        assert r[s] == e;
      } else {
        MapOfKeys(x, es, k);
        var i :| 0 <= i < |es| && es[i] == m[k];
        assert r[if i < s then i else i + 1] == es[i];
      }
    }
    MapOfUnique(x, r, m);
  }

  lemma RemoveIsErase(x: bool, es: seq<Entry>, name: string)
    requires Sorted(x, es)
    ensures MapOf(x, RemoveNamed(x, es, name)) == MapOf(x, es) - {Key(x, name)}
  {
    hide MapOf, Compare;
    LocateSplits(x, es, name);
    match Locate(x, es, name)
    case Hit(p) => CutIsErase(x, es, p);
    case Miss(_) => MapOfKeys(x, es, Key(x, name));
  }

  lemma CutIsErase(x: bool, es: seq<Entry>, p: nat)
    requires Sorted(x, es) && p < |es|
    ensures MapOf(x, es[..p] + es[p + 1..]) == MapOf(x, es) - {Key(x, es[p].name)}
  {
    hide MapOf, Compare, Fold;
    var r, m := es[..p] + es[p + 1..], MapOf(x, es) - {Key(x, es[p].name)};
    forall j | 0 <= j < |r| ensures Key(x, r[j].name) in m && m[Key(x, r[j].name)] == r[j] {
      var i := if j >= p then j + 1 else j;
      MapOfAt(x, es, i);
      LtNotSame(x, es, i, p);
    }
    forall k | k in m ensures m[k] in r && Key(x, m[k].name) == k {
      MapOfKeys(x, es, k);
      var i :| 0 <= i < |es| && es[i] == m[k];
      assert r[if i > p then i - 1 else i] == es[i];
    }
    MapOfUnique(x, r, m);
  }

  lemma LtNotSame(x: bool, es: seq<Entry>, i: nat, j: nat)
    requires Sorted(x, es) && i < |es| && j < |es| && i != j
    ensures !Same(x, es[i].name, es[j].name)
  {
    OrderLaws(x, es[i].name, es[j].name, "");
    OrderLaws(x, es[j].name, es[i].name, "");
  }
}
