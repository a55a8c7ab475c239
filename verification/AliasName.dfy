/** The letter-case bitmap of an alias name: one bit per byte, 64 bytes to a word. */
module AliasName {
  const GROUP: nat := 64
  const WORDS: nat := 4
  const WORD_LIMIT: nat := 0x1_0000_0000_0000_0000

  type Name = seq<nat>   // bytes

  predicate Upper(c: nat) { 65 <= c <= 90 }

  function Bit(c: nat): nat { if Upper(c) then 1 else 0 }

  /** The lower-case form that the directory keeps. */
  function Lower(name: Name): (r: Name)
    ensures |r| == |name| && forall i :: 0 <= i < |name| ==> r[i] == name[i] + 32 * Bit(name[i])
    ensures forall i :: 0 <= i < |name| ==> r[i] == if 65 <= name[i] <= 90 then name[i] + 32 else name[i]
  {
    seq(|name|, i requires 0 <= i < |name| => name[i] + 32 * Bit(name[i]))
  }

  // ----- a word of bits

  /** The bits of `name[lo..hi]`, first byte highest. */
  function Pack(name: Name, lo: nat, hi: nat): nat
    requires lo <= hi <= |name|
    decreases hi - lo
  {
    if lo == hi then 0 else 2 * Pack(name, lo, hi - 1) + Bit(name[hi - 1])
  }

  function Pow2(n: nat): (p: nat)
    ensures p > 0
  {
    if n == 0 then 1 else 2 * Pow2(n - 1)
  }

  lemma {:induction false} PackBound(name: Name, lo: nat, hi: nat)
    requires lo <= hi <= |name|
    ensures Pack(name, lo, hi) < Pow2(hi - lo)
    decreases hi - lo
  {
    if lo < hi { PackBound(name, lo, hi - 1); }
  }

  lemma Pow2At64()
    ensures Pow2(GROUP) == WORD_LIMIT
  {
    Pow2Square(2, 4);
    Pow2Square(4, 16);
    Pow2Square(8, 256);
    Pow2Square(16, 65536);
    Pow2Square(32, 4294967296);
  }

  lemma {:induction false} Pow2Add(m: nat, n: nat)
    ensures Pow2(m + n) == Pow2(m) * Pow2(n)
    decreases m
  {
    if m > 0 {
      Pow2Add(m - 1, n);
      assert 2 * (Pow2(m - 1) * Pow2(n)) == (2 * Pow2(m - 1)) * Pow2(n);
    }
  }

  lemma Pow2Square(n: nat, p: nat)
    requires Pow2(n) == p
    ensures Pow2(2 * n) == p * p
  {
    Pow2Add(n, n);
  }

  lemma {:induction false} Pow2Grows(m: nat, n: nat)
    requires m <= n
    ensures Pow2(m) <= Pow2(n)
    decreases n
  {
    if m < n { Pow2Grows(m, n - 1); }
  }

  /** Shifting right by `hi - 1 - k` brings the bit of byte `k` to the bottom. */
  lemma {:induction false} Unpack(name: Name, lo: nat, hi: nat, k: nat)
    requires lo <= k < hi <= |name|
    ensures Pack(name, lo, hi) / Pow2(hi - 1 - k) % 2 == Bit(name[k])
    decreases hi
  {
    var p := Pack(name, lo, hi - 1);
    if k < hi - 1 {
      Unpack(name, lo, hi - 1, k);
      ShiftTwice(2 * p + Bit(name[hi - 1]), Pow2(hi - 2 - k));
    }
  }

  lemma ShiftTwice(x: nat, m: nat)
    requires m > 0
    ensures x / (2 * m) == x / 2 / m
  {
    var q := x / 2 / m;
    var r := x / 2 % m;
    assert x / 2 == q * m + r;
    assert x == q * (2 * m) + (2 * r + x % 2);
    DivUnique(x, 2 * m, q, 2 * r + x % 2);
  }

  lemma DivUnique(x: nat, d: nat, q: nat, r: nat)
    requires d > 0 && r < d && x == q * d + r
    ensures x / d == q
  {
    var q' := x / d;
    assert x == q' * d + x % d;
    assert (q' - q) * d == r - x % d;
    NoMultiple(q' - q, d);
  }

  lemma NoMultiple(a: int, d: nat)
    requires d > 0 && a * d < d && a * d + d > 0
    ensures a == 0
  {
    if a >= 1 { AtLeast(a, d); }
    if a <= -1 { AtLeast(-a, d); }
  }

  lemma AtLeast(a: int, d: nat)
    requires a >= 1
    ensures a * d >= d
  {
  }

  // ----- the bitmap

  function Low(name: Name, g: nat): nat { if g * GROUP < |name| then g * GROUP else |name| }

  function High(name: Name, g: nat): nat { if (g + 1) * GROUP < |name| then (g + 1) * GROUP else |name| }

  function Bitmap(name: Name): (b: seq<nat>)
    ensures |b| == WORDS && forall g :: 0 <= g < WORDS ==> b[g] == Pack(name, Low(name, g), High(name, g))
  {
    seq(WORDS, g requires 0 <= g < WORDS => Pack(name, Low(name, g), High(name, g)))
  }

  /** Bits are pushed in from the right, with a shift before each but the first of a word. */
  method NameToBitmap(name: Name) returns (bitmap: seq<nat>)
    requires |name| <= GROUP * WORDS
    ensures bitmap == Bitmap(name)
  {
    bitmap := [0, 0, 0, 0];
    var index := 0;
    while index < |name|
      invariant index <= |name| && |bitmap| == WORDS
      invariant forall g: nat :: g < WORDS ==> bitmap[g] == Shifted(name, g, index)
    {
      var g := index / GROUP;
      WordFits(name, g, index);
      if index + 1 < High(name, g) { NoOverflow(name, g, index); }
      forall k: nat | k != g ensures Shifted(name, k, index + 1) == Shifted(name, k, index) {
        OtherWords(name, g, index, k);
      }
      if Upper(name[index]) { bitmap := bitmap[g := WithLowBit(bitmap[g])]; }
      index := index + 1;
      if index < |name| && index % GROUP > 0 { bitmap := bitmap[g := bitmap[g] * 2 % WORD_LIMIT]; }
    }
  }

  function WithLowBit(word: nat): nat { if word % 2 == 0 then word + 1 else word }

  /** Word `g` once `index` bytes are done: the bits so far, already shifted if more of the word follow. */
  function Shifted(name: Name, g: nat, index: nat): nat
    requires index <= |name|
  {
    if index <= g * GROUP then 0
    else if index < High(name, g) then 2 * Pack(name, g * GROUP, index)
    else Pack(name, g * GROUP, High(name, g))
  }

  lemma WordFits(name: Name, g: nat, index: nat)
    requires index < |name| && g == index / GROUP
    ensures g * GROUP <= index < High(name, g)
    ensures Shifted(name, g, index) % 2 == 0
    ensures Shifted(name, g, index) + Bit(name[index]) == Pack(name, g * GROUP, index + 1)
    ensures (index + 1 < High(name, g)) <==> (index + 1 < |name| && (index + 1) % GROUP > 0)
  {
    hide Pack;
    InGroup(index, g);
    PackNext(name, g * GROUP, index);
  }

  lemma PackNext(name: Name, lo: nat, index: nat)
    requires lo <= index < |name|
    ensures Pack(name, lo, index + 1) == 2 * Pack(name, lo, index) + Bit(name[index])
    ensures Pack(name, lo, lo) == 0
  {
  }

  lemma InGroup(index: nat, g: nat)
    requires g == index / GROUP
    ensures g * GROUP <= index < (g + 1) * GROUP
    ensures (index + 1) % GROUP > 0 <==> index + 1 < (g + 1) * GROUP
  {
  }

  lemma NoOverflow(name: Name, g: nat, index: nat)
    requires g * GROUP <= index < |name| && index + 1 < High(name, g)
    ensures 2 * Pack(name, g * GROUP, index + 1) < WORD_LIMIT
  {
    PackBound(name, g * GROUP, index + 1);
    Pow2Grows(index + 2 - g * GROUP, GROUP);
    Pow2At64();
  }

  lemma OtherWords(name: Name, g: nat, index: nat, k: nat)
    requires index < |name| && g * GROUP <= index < High(name, g) && k != g
    ensures Shifted(name, k, index + 1) == Shifted(name, k, index)
  {
  }

  /** One word's worth of bytes, `n` of them, the first by the highest bit. */
  method RestoreWord(lower: Name, bitmap: seq<nat>, i: nat, n: nat, done: seq<int>) returns (name: seq<int>)
    requires |lower| <= GROUP * WORDS && |bitmap| == WORDS && i < WORDS && Restored(lower, bitmap, done)
    requires |done| == i * GROUP && (if (i + 1) * GROUP < |lower| then n == GROUP else n == |lower| - i * GROUP)
    ensures Restored(lower, bitmap, name) && |name| == |done| + n
  {
    name := done;
    var j := n;
    while j > 0
      invariant 0 <= j <= n && |name| == |done| + n - j && Restored(lower, bitmap, name)
    {
      BitAt(|lower|, bitmap, |name|, i, n, j);
      name := name + [lower[|name|] - 32 * (bitmap[i] / Pow2(j - 1) % 2)];
      j := j - 1;
    }
  }

  lemma BitAt(len: nat, bitmap: seq<nat>, k: nat, i: nat, n: nat, j: nat)
    requires k < len <= GROUP * WORDS && |bitmap| == WORDS && i < WORDS && 0 < j <= n <= GROUP && k == i * GROUP + n - j
    requires if (i + 1) * GROUP < len then n == GROUP else n == len - i * GROUP
    ensures CaseBit(len, bitmap, k) == bitmap[i] / Pow2(j - 1) % 2
  {
    assert k / GROUP == i;
  }

  ghost predicate Restored(lower: Name, bitmap: seq<nat>, name: seq<int>)
    requires |lower| <= GROUP * WORDS && |bitmap| == WORDS
  {
    |name| <= |lower| && forall k: nat :: k < |name| ==> name[k] == lower[k] - 32 * CaseBit(|lower|, bitmap, k)
  }

  /** Takes the case of each byte back from the bitmap: full words, then the rest. */
  method BitmapToName(lower: Name, bitmap: seq<nat>) returns (name: seq<int>)
    requires |lower| <= GROUP * WORDS && |bitmap| == WORDS
    ensures |name| == |lower| && forall k: nat :: k < |lower| ==> name[k] == lower[k] - 32 * CaseBit(|lower|, bitmap, k)
  {
    name := [];
    var group, remain := |lower| / GROUP, |lower| % GROUP;
    var i := 0;
    while i < group
      invariant i <= group && |name| == i * GROUP && Restored(lower, bitmap, name)
    {
      name := RestoreWord(lower, bitmap, i, GROUP, name);
      i := i + 1;
    }
    if remain > 0 { name := RestoreWord(lower, bitmap, i, remain, name); }
  }

  /** The bit that stands for byte `k` of a name of length `n`. */
  function CaseBit(n: nat, bitmap: seq<nat>, k: nat): nat
    requires k < n <= GROUP * WORDS && |bitmap| == WORDS
  {
    var last := if (k / GROUP + 1) * GROUP < n then (k / GROUP + 1) * GROUP else n;
    bitmap[k / GROUP] / Pow2(last - 1 - k) % 2
  }

  /** The lower-case form and the bitmap together give every name back. */
  lemma CaseRestored(name: Name, k: nat)
    requires k < |name| <= GROUP * WORDS
    ensures Lower(name)[k] - 32 * CaseBit(|name|, Bitmap(name), k) == name[k]
  {
    var g := k / GROUP;
    Unpack(name, Low(name, g), High(name, g), k);
  }

  /** A bit is set exactly where the name has an upper-case letter. */
  lemma CaseMeans(name: Name, k: nat)
    requires k < |name| <= GROUP * WORDS
    ensures CaseBit(|name|, Bitmap(name), k) == if 65 <= name[k] <= 90 then 1 else 0
  {
    CaseRestored(name, k);
    assert Lower(name)[k] == if 65 <= name[k] <= 90 then name[k] + 32 else name[k];
  }

  method RoundTrip(name: Name) returns (again: seq<int>)
    requires |name| <= GROUP * WORDS
    ensures |again| == |name| && forall k: nat :: k < |name| ==> again[k] == name[k]
  {
    var bitmap := NameToBitmap(name);
    again := BitmapToName(Lower(name), bitmap);
    forall k: nat | k < |name| ensures again[k] == name[k] { CaseRestored(name, k); }
  }

  /** Among the case variants of one name the bitmap tells them apart. */
  lemma VariantsDiffer(a: Name, b: Name)
    requires |a| <= GROUP * WORDS && Lower(a) == Lower(b)
    ensures Bitmap(a) == Bitmap(b) <==> a == b
  {
    if Bitmap(a) == Bitmap(b) {
      assert |a| == |Lower(a)| == |b|;
      forall k: nat | k < |a| ensures a[k] == b[k] {
        CaseRestored(a, k);
        CaseRestored(b, k);
      }
    }
  }

  // ----- the order of bitmaps: memcmp over the words as they lie in memory

  function Bytes(word: nat, n: nat): (s: seq<nat>)
    ensures |s| == n && forall i :: 0 <= i < n ==> s[i] < 256
    decreases n
  {
    if n == 0 then [] else [word % 256] + Bytes(word / 256, n - 1)
  }

  function Memory(bitmap: seq<nat>): (s: seq<nat>)
    ensures |s| == 8 * |bitmap| && forall i :: 0 <= i < |s| ==> s[i] < 256
  {
    if bitmap == [] then [] else Bytes(bitmap[0], 8) + Memory(bitmap[1..])
  }

  function MemCmp(a: seq<nat>, b: seq<nat>): int
    requires |a| == |b|
  {
    if a == [] then 0 else if a[0] != b[0] then a[0] - b[0] else MemCmp(a[1..], b[1..])
  }

  /** A number that orders byte strings of one length as memcmp does. */
  function Rank(s: seq<nat>): nat {
    if s == [] then 0 else s[0] * Pow256(|s| - 1) + Rank(s[1..])
  }

  function Pow256(n: nat): (p: nat)
    ensures p > 0
  {
    if n == 0 then 1 else 256 * Pow256(n - 1)
  }

  lemma Scaled(x: nat, y: nat, p: nat)
    requires x <= y
    ensures x * p <= y * p
  {
  }

  lemma FirstDigit(x: nat, y: nat, p: nat, r: nat, q: nat)
    requires r < p && q < p
    ensures x * p + r < y * p + q <==> x < y || (x == y && r < q)
    ensures x * p + r == y * p + q <==> x == y && r == q
  {
    if x < y { Scaled(x + 1, y, p); }
    if y < x { Scaled(y + 1, x, p); }
  }

  lemma {:induction false} RankBound(s: seq<nat>)
    requires forall i :: 0 <= i < |s| ==> s[i] < 256
    ensures Rank(s) < Pow256(|s|)
  {
    if s != [] {
      RankBound(s[1..]);
      Scaled(s[0], 255, Pow256(|s| - 1));
    }
  }

  lemma {:induction false} RankOrders(a: seq<nat>, b: seq<nat>)
    requires |a| == |b| && (forall i :: 0 <= i < |a| ==> a[i] < 256) && (forall i :: 0 <= i < |b| ==> b[i] < 256)
    ensures MemCmp(a, b) < 0 <==> Rank(a) < Rank(b)
    ensures MemCmp(a, b) == 0 <==> Rank(a) == Rank(b)
    ensures MemCmp(a, b) == 0 <==> a == b
  {
    if a != [] {
      RankBound(a[1..]);
      RankBound(b[1..]);
      RankOrders(a[1..], b[1..]);
      FirstDigit(a[0], b[0], Pow256(|a| - 1), Rank(a[1..]), Rank(b[1..]));
      assert a == [a[0]] + a[1..] && b == [b[0]] + b[1..];
    }
  }

  lemma {:induction false} BytesUnique(x: nat, y: nat, n: nat)
    requires x < Pow256(n) && y < Pow256(n) && Bytes(x, n) == Bytes(y, n)
    ensures x == y
    decreases n
  {
    if n > 0 {
      var a, b := Bytes(x, n), Bytes(y, n);
      assert a[1..] == Bytes(x / 256, n - 1) && b[1..] == Bytes(y / 256, n - 1);
      assert a[0] == b[0];
      BytesUnique(x / 256, y / 256, n - 1);
    }
  }

  lemma {:induction false} MemoryUnique(a: seq<nat>, b: seq<nat>)
    requires |a| == |b| && Memory(a) == Memory(b)
    requires forall i :: 0 <= i < |a| ==> a[i] < WORD_LIMIT && b[i] < WORD_LIMIT
    ensures a == b
  {
    if a != [] {
      var m, n := Memory(a), Memory(b);
      assert m[..8] == Bytes(a[0], 8) && m[8..] == Memory(a[1..]);
      assert n[..8] == Bytes(b[0], 8) && n[8..] == Memory(b[1..]);
      assert Pow256(8) == WORD_LIMIT;
      BytesUnique(a[0], b[0], 8);
      MemoryUnique(a[1..], b[1..]);
      assert a == [a[0]] + a[1..] && b == [b[0]] + b[1..];
    }
  }

  function MapKey(bitmap: seq<nat>): nat { Rank(Memory(bitmap)) }

  lemma {:induction false} PackFits(name: Name, g: nat)
    requires g < WORDS && |name| <= GROUP * WORDS
    ensures Bitmap(name)[g] < WORD_LIMIT
  {
    PackBound(name, Low(name, g), High(name, g));
    Pow2Grows(High(name, g) - Low(name, g), GROUP);
    Pow2At64();
  }

  /** A bitmap as `name_to_bitmap` makes them. */
  ghost predicate Legit(bitmap: seq<nat>) {
    |bitmap| == WORDS && forall g :: 0 <= g < WORDS ==> bitmap[g] < WORD_LIMIT
  }

  lemma BitmapLegit(name: Name)
    requires |name| <= GROUP * WORDS
    ensures Legit(Bitmap(name))
  {
    forall g: nat | g < WORDS ensures Bitmap(name)[g] < WORD_LIMIT { PackFits(name, g); }
  }

  /** The search key tells bitmaps apart. */
  lemma MapKeyUnique(a: seq<nat>, b: seq<nat>)
    requires Legit(a) && Legit(b)
    ensures MapKey(a) == MapKey(b) <==> a == b
  {
    RankOrders(Memory(a), Memory(b));
    if Memory(a) == Memory(b) { MemoryUnique(a, b); }
  }
}
