/** The Base64 codec. Characters and bytes are numbers below 256. */
module Base64 {
  // ----- the alphabet

  const PAD: nat := 61   // '='
  const SKIP: int := 64

  /** The character for a six-bit value. */
  function Code(v: nat): nat
    requires v < 64
  {
    if v < 26 then 65 + v else if v < 52 then 97 + v - 26 else if v < 62 then 48 + v - 52 else if v == 62 then 43
    else 47
  }

  /** The alphabet of section 4 of RFC 4648. */
  const ALPHABET: string := "ABCDEFGHIJKLMNOPQRSTUVWXYZ" + "abcdefghijklmnopqrstuvwxyz" + "0123456789" + "+/"

  lemma CodeIsAlphabet(v: nat)
    requires v < 64
    ensures |ALPHABET| == 64 && Code(v) == ALPHABET[v] as nat
  {
  }

  /** The value of a character: 64 for one that is skipped, -1 for one that is not allowed. */
  function DecodeTable(c: int): int {
    if 65 <= c <= 90 then c - 65
    else if 97 <= c <= 122 then c - 97 + 26
    else if 48 <= c <= 57 then c - 48 + 52
    else if c == 43 then 62
    else if c == 47 then 63
    else if c == 10 || c == 13 || c == 9 || c == 32 || c == 61 || c == 0 then SKIP
    else -1
  }

  lemma CodeInverse(v: nat)
    requires v < 64
    ensures DecodeTable(Code(v)) == v
  {
  }

  /** Apart from the alphabet, white space, the padding and the terminator are skipped, and nothing else is
      allowed. */
  lemma DecodeTableMeans(c: int, v: nat)
    requires v < 64
    ensures DecodeTable(c) == v <==> c == ALPHABET[v] as int
    ensures DecodeTable(c) == SKIP <==> c in {9, 10, 13, 32, 61, 0}
    ensures DecodeTable(c) == -1 <==>
              c !in {9, 10, 13, 32, 61, 0} && forall w: nat :: w < 64 ==> c != ALPHABET[w] as int
  {
    if 0 <= DecodeTable(c) < 64 { CodeIsAlphabet(DecodeTable(c)); }
    forall w: nat | w < 64 ensures c == ALPHABET[w] as int <==> DecodeTable(c) == w {
      CodeIsAlphabet(w);
      CodeInverse(w);
    }
  }

  type Bytes = seq<nat>

  ghost predicate AreBytes(s: Bytes) { forall i :: 0 <= i < |s| ==> s[i] < 256 }

  // ----- section 4 of RFC 4648

  // How three bytes are cut into four six-bit groups, and how the groups make bytes again.
  function First(a: nat): nat { a / 4 }
  function Second(a: nat, b: nat): nat { a % 4 * 16 + b / 16 }
  function Third(b: nat, c: nat): nat { b % 16 * 4 + c / 64 }
  function Fourth(c: nat): nat { c % 64 }
  function ByteOne(v: nat, w: nat): nat { v * 4 + w / 16 % 4 }
  function ByteTwo(w: nat, x: nat): nat { (w * 16 + x / 4) % 256 }
  function ByteThree(x: nat, y: nat): nat { (x * 64 + y) % 256 }

  lemma CutSmall(a: nat, b: nat, c: nat)
    requires a < 256 && b < 256 && c < 256
    ensures First(a) < 64 && Second(a, b) < 64 && Third(b, c) < 64 && Fourth(c) < 64
  {
  }

  /** Cutting and joining again. */
  lemma CutJoined(a: nat, b: nat, c: nat)
    requires a < 256 && b < 256 && c < 256
    ensures ByteOne(First(a), Second(a, b)) == a
    ensures ByteTwo(Second(a, b), Third(b, c)) == b
    ensures ByteThree(Third(b, c), Fourth(c)) == c
  {
    Sixteenth(a % 4, b / 16);
    Quarter(b % 16, c / 64);
    Wrapped(a % 4, b);
    Wrapped(b % 16, c);
    assert a / 4 * 4 + a % 4 == a && b / 16 * 16 + b % 16 == b && c / 64 * 64 + c % 64 == c;
  }

  lemma Sixteenth(x: nat, y: nat)
    requires x < 4 && y < 16
    ensures (x * 16 + y) / 16 % 4 == x
  {
  }

  lemma Quarter(z: nat, w: nat)
    requires w < 4
    ensures (z * 4 + w) / 4 == z
  {
  }

  lemma Wrapped(x: nat, b: nat)
    requires b < 256
    ensures (x * 256 + b) % 256 == b
  {
  }

  /** The six-bit groups of the bytes, the last one filled up with zero bits. */
  function Groups(s: Bytes): (g: seq<nat>) {
    if s == [] then []
    else if |s| == 1 then [First(s[0]), Second(s[0], 0)]
    else if |s| == 2 then [First(s[0]), Second(s[0], s[1]), Third(s[1], 0)]
    else [First(s[0]), Second(s[0], s[1]), Third(s[1], s[2]), Fourth(s[2])] + Groups(s[3..])
  }

  lemma {:induction false} GroupsSmall(s: Bytes)
    requires AreBytes(s)
    ensures forall i :: 0 <= i < |Groups(s)| ==> Groups(s)[i] < 64
    ensures |Groups(s)| == |s| + (|s| + 2) / 3
  {
    hide First, Second, Third, Fourth;
    if |s| >= 3 {
      var r := s[3..];
      assert forall i :: 0 <= i < |r| ==> r[i] == s[i + 3];
      GroupsSmall(r);
      CutSmall(s[0], s[1], s[2]);
    } else if |s| == 2 {
      CutSmall(s[0], s[1], 0);
    } else if |s| == 1 {
      CutSmall(s[0], 0, 0);
    }
  }

  /** The byte, or zero past the end. */
  function ByteAt(s: Bytes, j: nat): nat { if j < |s| then s[j] else 0 }

  /** Bits `6 * i` to `6 * i + 5` of the bytes written one after the other, the highest bit of each first. */
  function SixBits(s: Bytes, i: nat): nat {
    var j, from := 6 * i / 8, 6 * i % 8;
    var pair := ByteAt(s, j) * 256 + ByteAt(s, j + 1);
    pair / (if from == 0 then 1024 else if from == 6 then 16 else if from == 4 then 64 else 256) % 64
  }

  lemma CutOne(a: nat, b: nat)
    requires a < 256 && b < 256
    ensures (a * 256 + b) / 1024 % 64 == First(a)
  {
  }

  lemma CutTwo(a: nat, b: nat)
    requires a < 256 && b < 256
    ensures (a * 256 + b) / 16 % 64 == Second(a, b)
  {
    assert (a * 256 + b) / 16 == a * 16 + b / 16;
    assert a * 16 == a / 4 * 64 + a % 4 * 16;
  }

  lemma CutThree(b: nat, c: nat)
    requires b < 256 && c < 256
    ensures (b * 256 + c) / 64 % 64 == Third(b, c)
  {
    assert (b * 256 + c) / 64 == b * 4 + c / 64;
    assert b * 4 == b / 16 * 64 + b % 16 * 4;
  }

  lemma CutFour(c: nat, d: nat)
    requires c < 256 && d < 256
    ensures (c * 256 + d) / 256 % 64 == Fourth(c)
  {
  }

  /** The place of the six bits by the number of the group in its four. */
  lemma SixBitsAt(s: Bytes, i: nat)
    requires i < 4
    ensures SixBits(s, i) ==
            match i {
              case 0 => (ByteAt(s, 0) * 256 + ByteAt(s, 1)) / 1024 % 64
              case 1 => (ByteAt(s, 0) * 256 + ByteAt(s, 1)) / 16 % 64
              case 2 => (ByteAt(s, 1) * 256 + ByteAt(s, 2)) / 64 % 64
              case _ => (ByteAt(s, 2) * 256 + ByteAt(s, 3)) / 256 % 64
            }
  {
    hide ByteAt;
  }

  lemma SixBitsFirst(s: Bytes)
    requires AreBytes(s)
    ensures var a, b, c := ByteAt(s, 0), ByteAt(s, 1), ByteAt(s, 2);
            SixBits(s, 0) == First(a) && SixBits(s, 1) == Second(a, b) && SixBits(s, 2) == Third(b, c) &&
            SixBits(s, 3) == Fourth(c)
  {
    hide First, Second, Third, Fourth, SixBits;
    var a, b, c, d := ByteAt(s, 0), ByteAt(s, 1), ByteAt(s, 2), ByteAt(s, 3);
    SixBitsAt(s, 0);
    SixBitsAt(s, 1);
    SixBitsAt(s, 2);
    SixBitsAt(s, 3);
    CutOne(a, b);
    CutTwo(a, b);
    CutThree(b, c);
    CutFour(c, d);
  }

  lemma SixBitsMore(s: Bytes, i: nat)
    requires |s| >= 3 && i >= 4
    ensures SixBits(s, i) == SixBits(s[3..], i - 4)
  {
    var r, j := s[3..], 6 * (i - 4) / 8;
    assert 6 * i / 8 == j + 3 && 6 * i % 8 == 6 * (i - 4) % 8;
    assert ByteAt(s, j + 3) == ByteAt(r, j) && ByteAt(s, j + 4) == ByteAt(r, j + 1);
  }

  /** Each group is the next six bits. */
  lemma {:induction false} GroupIsSixBits(s: Bytes, i: nat)
    requires AreBytes(s) && i < |Groups(s)|
    ensures Groups(s)[i] == SixBits(s, i)
    decreases |s|
  {
    hide First, Second, Third, Fourth, SixBits;
    SixBitsFirst(s);
    if |s| >= 3 && i >= 4 {
      RestBytes(s);
      SixBitsMore(s, i);
      GroupIsSixBits(s[3..], i - 4);
    }
  }

  function Spelled(g: seq<nat>): (r: seq<nat>)
    requires forall i :: 0 <= i < |g| ==> g[i] < 64
    ensures |r| == |g| && forall i :: 0 <= i < |g| ==> r[i] == Code(g[i])
  {
    seq(|g|, i requires 0 <= i < |g| => Code(g[i]))
  }

  function Padding(n: nat): seq<nat> { if n % 3 == 1 then [PAD, PAD] else if n % 3 == 2 then [PAD] else [] }

  /** The encoded text as the standard has it. */
  function Encoded(s: Bytes): seq<nat>
    requires AreBytes(s)
  {
    GroupsSmall(s);
    Spelled(Groups(s)) + Padding(|s|)
  }

  /** Character by character: the letter of the next six bits, as many as it takes, then the padding. */
  lemma EncodedAt(s: Bytes, i: nat)
    requires AreBytes(s) && i < |Encoded(s)|
    ensures Encoded(s)[i] == if 6 * i < 8 * |s| then ALPHABET[SixBits(s, i)] as nat else PAD
  {
    GroupsSmall(s);
    if i < |Groups(s)| {
      GroupIsSixBits(s, i);
      CodeIsAlphabet(Groups(s)[i]);
    }
  }

  function ExpectLength(n: nat): nat {
    var rest := n % 3;
    var fill := if rest == 0 then rest else 3 - rest;
    1 + (n + fill) * 4 / 3
  }

  lemma EncodedLength(s: Bytes)
    requires AreBytes(s)
    ensures |Encoded(s)| + 1 == ExpectLength(|s|)
  {
    GroupsSmall(s);
  }

  /** Three bytes make a 24-bit number; cutting it in four gives the six-bit groups. */
  lemma Quartet(a: nat, b: nat, c: nat)
    requires a < 256 && b < 256 && c < 256
    ensures var tmp := a * 65536 + b * 256 + c;
            tmp / 262144 % 64 == First(a) && tmp / 4096 % 64 == Second(a, b) &&
            tmp / 64 % 64 == Third(b, c) && tmp % 64 == Fourth(c)
  {
    var w, x, y, z := First(a), Second(a, b), Third(b, c), Fourth(c);
    CutSum(a, b, c);
    CutSmall(a, b, c);
    hide First, Second, Third, Fourth;
    LastDigit((w * 64 + x) * 64 + y, z);
    LastDigit(w * 64 + x, y);
    LastDigit(w, x);
    Shifts(a * 65536 + b * 256 + c);
  }

  lemma CutSum(a: nat, b: nat, c: nat)
    ensures a * 65536 + b * 256 + c == ((First(a) * 64 + Second(a, b)) * 64 + Third(b, c)) * 64 + Fourth(c)
  {
    assert a / 4 * 4 + a % 4 == a && b / 16 * 16 + b % 16 == b && c / 64 * 64 + c % 64 == c;
  }

  lemma LastDigit(q: nat, r: nat)
    requires r < 64
    ensures (q * 64 + r) / 64 == q && (q * 64 + r) % 64 == r
  {
  }

  lemma Shifts(x: nat)
    ensures x / 4096 == x / 64 / 64 && x / 262144 == x / 64 / 64 / 64
  {
  }

  // ----- the encoder

  /** The first four characters of an encoding. */
  function FirstFour(s: Bytes): seq<nat>
    requires s != [] && AreBytes(s)
  {
    var a, b, c := s[0], if |s| > 1 then s[1] else 0, if |s| > 2 then s[2] else 0;
    CutSmall(a, b, c);
    [Code(First(a)), Code(Second(a, b)),
     if |s| > 1 then Code(Third(b, c)) else PAD, if |s| > 2 then Code(Fourth(c)) else PAD]
  }

  lemma SpelledJoin(g: seq<nat>, h: seq<nat>)
    requires (forall i :: 0 <= i < |g| ==> g[i] < 64) && (forall i :: 0 <= i < |h| ==> h[i] < 64)
    ensures Spelled(g + h) == Spelled(g) + Spelled(h)
  {
  }

  lemma RestBytes(s: Bytes)
    requires |s| >= 3 && AreBytes(s)
    ensures AreBytes(s[3..]) && |s[3..]| % 3 == |s| % 3
  {
    var r := s[3..];
    assert forall i :: 0 <= i < |r| ==> r[i] == s[i + 3];
  }

  lemma EncodeMore(s: Bytes)
    requires |s| >= 3 && AreBytes(s)
    ensures AreBytes(s[3..]) && Encoded(s) == FirstFour(s) + Encoded(s[3..])
  {
    hide First, Second, Third, Fourth, Code;
    RestBytes(s);
    var r := s[3..];
    var four := [First(s[0]), Second(s[0], s[1]), Third(s[1], s[2]), Fourth(s[2])];
    CutSmall(s[0], s[1], s[2]);
    GroupsSmall(r);
    SpelledJoin(four, Groups(r));
    assert Spelled(four) == FirstFour(s);
  }

  lemma EncodeLast(s: Bytes)
    requires 0 < |s| < 3 && AreBytes(s)
    ensures Encoded(s) == FirstFour(s)
  {
    hide First, Second, Third, Fourth, Code;
    GroupsSmall(s);
    assert Spelled(Groups(s)) + Padding(|s|) == FirstFour(s);
  }

  /** Up to three bytes, the rest zero, become four characters. */
  method EncodeFour(a: nat, b: nat, c: nat, ghost s: Bytes, n: nat) returns (four: seq<nat>)
    requires s != [] && AreBytes(s) && n == |s| && a == s[0]
    requires b == (if n > 1 then s[1] else 0) && c == if n > 2 then s[2] else 0
    ensures four == FirstFour(s)
  {
    hide First, Second, Third, Fourth, Code;
    Quartet(a, b, c);
    CutSmall(a, b, c);
    var word := a * 65536 + b * 256 + c;
    four := [Code(word / 262144 % 64), Code(word / 4096 % 64)];
    if 1 >= n {
      four := four + [PAD, PAD];
    } else {
      four := four + [Code(word / 64 % 64)];
      if 2 >= n { four := four + [PAD]; } else { four := four + [Code(word % 64)]; }
    }
  }

  function Filled(s: Bytes, n: nat): (r: Bytes)
    requires |s| <= n
    ensures |r| == n && forall j :: 0 <= j < n ==> r[j] == if j < |s| then s[j] else 0
  {
    s + seq(n - |s|, _ => 0)
  }

  /** Works on a copy filled up with zero bytes to a multiple of three. */
  method Encode(s: Bytes) returns (out: seq<nat>, outlen: nat)
    requires AreBytes(s)
    ensures out == Encoded(s) + [0] && outlen == |Encoded(s)|
  {
    hide FirstFour, Encoded, AreBytes;
    var n := |s|;
    var groups := (n + 2) / 3;
    var whole := groups * 3;
    assert n <= whole < n + 3;
    var tmp := Filled(s, 1 + whole);
    out := [];
    var i := 0;
    ghost var rest, left := s, groups;
    EncodedNothing();
    while i < whole
      invariant i + 3 * left == whole && i >= 0 && left >= 0 && rest == (if i < n then s[i..] else []) && AreBytes(rest)
      invariant out + Encoded(rest) == Encoded(s)
    {
      RestAt(s, i);
      var four := EncodeFour(tmp[i], tmp[i + 1], tmp[i + 2], rest, n - i);
      ghost var r := if |rest| > 3 then rest[3..] else [];
      EncodeStep(rest);
      assert out + (four + Encoded(r)) == (out + four) + Encoded(r);
      rest, left := r, left - 1;
      out := out + four;
      i := i + 3;
    }
    assert rest == [] && out + [] == out;
    outlen := |out|;
    out := out + [0];
  }

  /** What is left from byte `i` on, and after three bytes more. */
  lemma RestAt(s: Bytes, i: nat)
    requires i < |s|
    ensures var rest := s[i..];
            |rest| == |s| - i && (forall j :: 0 <= j < |rest| ==> rest[j] == s[i + j]) &&
            (if |rest| > 3 then rest[3..] else []) == if i + 3 < |s| then s[i + 3..] else []
  {
  }

  lemma EncodedNothing()
    ensures Encoded([]) == []
  {
  }

  lemma EncodeStep(s: Bytes)
    requires s != [] && AreBytes(s)
    ensures var r := if |s| > 3 then s[3..] else []; AreBytes(r) && Encoded(s) == FirstFour(s) + Encoded(r)
  {
    EncodedNothing();
    if |s| >= 3 { EncodeMore(s); } else { EncodeLast(s); }
    if |s| == 3 { assert s[3..] == []; }
  }

  // ----- the decoder

  /** No character that is not allowed. */
  predicate Allowed(text: seq<int>) { forall i :: 0 <= i < |text| ==> DecodeTable(text[i]) != -1 }

  /** The values of the characters that are not skipped. */
  function Values(text: seq<int>): (v: seq<nat>)
    ensures Allowed(text) ==> forall i :: 0 <= i < |v| ==> v[i] < 64
  {
    if text == [] then []
    else if DecodeTable(text[0]) == SKIP || DecodeTable(text[0]) == -1 then Values(text[1..])
    else [DecodeTable(text[0])] + Values(text[1..])
  }

  /** The bytes written for some values; arithmetic on bytes wraps round. */
  function Unpacked(v: seq<nat>): seq<nat>
    requires forall i :: 0 <= i < |v| ==> v[i] < 64
  {
    if |v| >= 4 then Triple(v[0], v[1], v[2], v[3]) + Unpacked(v[4..])
    else if |v| == 3 then Triple(v[0], v[1], v[2], 0)
    else if |v| == 2 then [ByteOne(v[0], v[1]), ByteTwo(v[1], 0)]
    else []
  }

  function Triple(a: nat, b: nat, c: nat, d: nat): seq<nat>
    requires a < 64 && b < 64 && c < 64 && d < 64
  {
    [ByteOne(a, b), ByteTwo(b, c), ByteThree(c, d)]
  }

  lemma {:induction false} ValuesSnoc(text: seq<int>, c: int)
    ensures Values(text + [c]) ==
            Values(text) + if DecodeTable(c) == SKIP || DecodeTable(c) == -1 then [] else [DecodeTable(c)]
  {
    if text == [] {
      assert (text + [c])[1..] == [];
    } else {
      ValuesSnoc(text[1..], c);
      assert (text + [c])[1..] == text[1..] + [c];
    }
  }

  /** Whole quartets first, then a rest of less than four. */
  lemma {:induction false} UnpackedSplit(v: seq<nat>, w: seq<nat>)
    requires |v| % 4 == 0 && (forall i :: 0 <= i < |v| ==> v[i] < 64) && (forall i :: 0 <= i < |w| ==> w[i] < 64)
    ensures Unpacked(v + w) == Unpacked(v) + Unpacked(w)
  {
    hide ByteOne, ByteTwo, ByteThree;
    if v == [] {
      assert v + w == w;
    } else {
      UnpackedSplit(v[4..], w);
      assert (v + w)[4..] == v[4..] + w;
    }
  }

  /** Some of the text is read: whole quartets are written, up to three values wait in `buf`. */
  ghost predicate Reading(text: seq<int>, i: nat, q: nat, done: seq<nat>, buf: seq<nat>, out: seq<nat>) {
    i <= |text| && Allowed(text[..i]) && |buf| < 4 && |done| == 4 * q && Small(done) && Small(buf) &&
    Values(text[..i]) == done + buf && out == Unpacked(done)
  }

  lemma ReadOne(text: seq<int>, i: nat, q: nat, done: seq<nat>, buf: seq<nat>, out: seq<nat>)
    requires i < |text| && Reading(text, i, q, done, buf, out)
    ensures DecodeTable(text[i]) == -1 ==> !Allowed(text)
    ensures DecodeTable(text[i]) == SKIP ==> Reading(text, i + 1, q, done, buf, out)
    ensures 0 <= DecodeTable(text[i]) < SKIP ==>
              Allowed(text[..i + 1]) && Values(text[..i + 1]) == done + (buf + [DecodeTable(text[i])])
    ensures DecodeTable(text[i]) == -1 || 0 <= DecodeTable(text[i]) <= SKIP
  {
    hide Values, DecodeTable, Unpacked;
    ValuesSnoc(text[..i], text[i]);
    TableRange(text[i]);
    assert text[..i] + [text[i]] == text[..i + 1];
  }

  /** The bytes written, and a length that is one less than their number. */
  method Decode(text: seq<int>) returns (ret: int, out: seq<nat>, outlen: int)
    ensures ret == if !Allowed(text) then -1 else if |Values(text)| % 4 == 1 then -2 else 0
    ensures ret == 0 ==> out == Unpacked(Values(text)) && outlen == |out| - 1
  {
    hide Values, DecodeTable, Unpacked;
    out, outlen := [], 0;
    var i := 0;
    var buf: seq<nat> := [];
    ghost var done: seq<nat>, q := [], 0;
    NoValues();
    assert text[..0] == [] && done + buf == [];
    while i < |text|
      invariant 0 <= i && Reading(text, i, q, done, buf, out)
    {
      var decode := DecodeTable(text[i]);
      ReadOne(text, i, q, done, buf, out);
      i := i + 1;
      if decode == -1 { return -1, out, 0; }
      if decode != SKIP {
        buf := buf + [decode];
        if |buf| == 4 {
          UnpackFour(done, buf, q);
          out := out + Triple(buf[0], buf[1], buf[2], buf[3]);
          assert (done + buf) + [] == done + buf;
          done, q := done + buf, q + 1;
          buf := [];
        }
      }
    }
    assert text[..i] == text;
    ret, out, outlen := Flush(buf, out, done, q);
  }

  /** What is left at the end: nothing, two values or three; a single one is impossible. */
  method Flush(buf: seq<nat>, out: seq<nat>, ghost done: seq<nat>, ghost q: nat)
    returns (ret: int, all: seq<nat>, outlen: int)
    requires |buf| < 4 && Small(buf) && Small(done) && |done| == 4 * q && out == Unpacked(done)
    ensures ret == if |done + buf| % 4 == 1 then -2 else 0
    ensures Small(done + buf) && (ret == 0 ==> all == Unpacked(done + buf) && outlen == |all| - 1)
  {
    hide Unpacked;
    UnpackedSplit(done, buf);
    UnpackRest(buf);
    if |buf| == 3 {
      all := out + Triple(buf[0], buf[1], buf[2], 0);
    } else if |buf| == 2 {
      all := out + [ByteOne(buf[0], buf[1]), ByteTwo(buf[1], 0)];
    } else if |buf| != 0 {
      return -2, out, 0;
    } else {
      all := out;
    }
    return 0, all, |all| - 1;
  }

  lemma UnpackRest(buf: seq<nat>)
    requires |buf| < 4 && Small(buf)
    ensures Unpacked(buf) == if |buf| == 3 then Triple(buf[0], buf[1], buf[2], 0)
                             else if |buf| == 2 then [ByteOne(buf[0], buf[1]), ByteTwo(buf[1], 0)] else []
  {
  }

  lemma UnpackFour(done: seq<nat>, buf: seq<nat>, q: nat)
    requires |buf| == 4 && Small(buf) && Small(done) && |done| == 4 * q
    ensures Small(done + buf) && Unpacked(done + buf) == Unpacked(done) + Triple(buf[0], buf[1], buf[2], buf[3])
  {
    hide ByteOne, ByteTwo, ByteThree, Triple;
    UnpackedSplit(done, buf);
    assert buf[4..] == [];
    assert Unpacked(buf) == Triple(buf[0], buf[1], buf[2], buf[3]) + Unpacked([]);
  }

  ghost predicate Small(v: seq<nat>) { forall i :: 0 <= i < |v| ==> v[i] < 64 }

  lemma NoValues()
    ensures Values([]) == [] && Unpacked([]) == []
  {
  }

  lemma TableRange(c: int)
    ensures DecodeTable(c) == -1 || 0 <= DecodeTable(c) <= SKIP
  {
  }

  // ----- the round trip

  /** Skipped characters make no difference. */
  function Stripped(text: seq<int>): seq<int> {
    if text == [] then [] else if DecodeTable(text[0]) == SKIP then Stripped(text[1..])
    else [text[0]] + Stripped(text[1..])
  }

  lemma {:induction false} StrippedValues(text: seq<int>)
    ensures Values(Stripped(text)) == Values(text) && Allowed(Stripped(text)) == Allowed(text)
  {
    if text != [] {
      StrippedValues(text[1..]);
      var r := Stripped(text[1..]);
      assert Allowed(text) <==> DecodeTable(text[0]) != -1 && Allowed(text[1..]) by { AllowedFirst(text); }
      if DecodeTable(text[0]) != SKIP {
        assert ([text[0]] + r)[1..] == r;
        AllowedFirst([text[0]] + r);
      }
    }
  }

  lemma AllowedFirst(text: seq<int>)
    requires text != []
    ensures Allowed(text) <==> DecodeTable(text[0]) != -1 && Allowed(text[1..])
  {
    var r := text[1..];
    assert forall i :: 0 <= i < |r| ==> r[i] == text[i + 1];
    assert forall i :: 0 < i < |text| ==> text[i] == r[i - 1];
  }

  lemma {:induction false} SpelledValues(g: seq<nat>, tail: seq<int>)
    requires Small(g) && forall i :: 0 <= i < |tail| ==> DecodeTable(tail[i]) == SKIP
    ensures Values(Spelled(g) + tail) == g && Allowed(Spelled(g) + tail)
  {
    if g == [] {
      TailSkipped(tail);
      assert Spelled(g) + tail == tail;
    } else {
      SpelledValues(g[1..], tail);
      CodeInverse(g[0]);
      var text := Spelled(g) + tail;
      assert text[1..] == Spelled(g[1..]) + tail;
      AllowedFirst(text);
    }
  }

  lemma {:induction false} TailSkipped(tail: seq<int>)
    requires forall i :: 0 <= i < |tail| ==> DecodeTable(tail[i]) == SKIP
    ensures Values(tail) == [] && Allowed(tail)
  {
    if tail != [] { TailSkipped(tail[1..]); }
  }

  /** The values that make up an encoding unpack to the bytes, and one zero byte more unless their number
      is a multiple of three. */
  lemma {:induction false} UnpackGroups(s: Bytes)
    requires AreBytes(s)
    ensures Small(Groups(s)) && Unpacked(Groups(s)) == s + if |s| % 3 == 0 then [] else [0]
  {
    hide Unpacked, Groups, Triple;
    GroupsSmall(s);
    if |s| >= 3 {
      RestBytes(s);
      UnpackGroups(s[3..]);
      UnpackMore(s);
      assert s == [s[0], s[1], s[2]] + s[3..];
    } else {
      UnpackShort(s);
    }
  }

  lemma UnpackMore(s: Bytes)
    requires |s| >= 3 && AreBytes(s) && AreBytes(s[3..]) && Small(Groups(s)) && Small(Groups(s[3..]))
    ensures Unpacked(Groups(s)) == [s[0], s[1], s[2]] + Unpacked(Groups(s[3..]))
  {
    hide First, Second, Third, Fourth, ByteOne, ByteTwo, ByteThree;
    CutJoined(s[0], s[1], s[2]);
    assert Groups(s)[4..] == Groups(s[3..]);
  }

  lemma UnpackShort(s: Bytes)
    requires |s| < 3 && AreBytes(s) && Small(Groups(s))
    ensures Unpacked(Groups(s)) == s + if |s| % 3 == 0 then [] else [0]
  {
    hide Unpacked, Groups;
    if |s| == 2 {
      assert s == [s[0], s[1]];
      RestOfTwo(s[0], s[1]);
    } else if |s| == 1 {
      assert s == [s[0]];
      RestOfOne(s[0]);
    } else {
      NoValues();
      NoGroups();
      assert s == [];
    }
  }

  lemma NoGroups()
    ensures Groups([]) == []
  {
  }

  lemma RestOfTwo(a: nat, b: nat)
    requires a < 256 && b < 256
    ensures Small(Groups([a, b])) && Unpacked(Groups([a, b])) == [a, b] + [0]
  {
    hide First, Second, Third, Fourth, ByteOne, ByteTwo, ByteThree, Unpacked;
    NoBits();
    CutSmall(a, b, 0);
    CutJoined(a, b, 0);
    UnpackThree(First(a), Second(a, b), Third(b, 0));
    assert Groups([a, b]) == [First(a), Second(a, b), Third(b, 0)];
  }

  lemma RestOfOne(a: nat)
    requires a < 256
    ensures Small(Groups([a])) && Unpacked(Groups([a])) == [a] + [0]
  {
    hide First, Second, Third, Fourth, ByteOne, ByteTwo, ByteThree, Unpacked;
    NoBits();
    CutSmall(a, 0, 0);
    CutJoined(a, 0, 0);
    UnpackTwo(First(a), Second(a, 0));
    assert Groups([a]) == [First(a), Second(a, 0)];
  }

  lemma UnpackThree(x: nat, y: nat, z: nat)
    requires x < 64 && y < 64 && z < 64
    ensures Unpacked([x, y, z]) == [ByteOne(x, y), ByteTwo(y, z), ByteThree(z, 0)]
  {
    hide ByteOne, ByteTwo, ByteThree;
  }

  lemma UnpackTwo(x: nat, y: nat)
    requires x < 64 && y < 64
    ensures Unpacked([x, y]) == [ByteOne(x, y), ByteTwo(y, 0)]
  {
    hide ByteOne, ByteTwo, ByteThree;
  }

  lemma NoBits()
    ensures Fourth(0) == 0 && Third(0, 0) == 0
  {
  }

  /** Decoding an encoding, with the terminator and skipped characters anywhere in it, writes the bytes. */
  lemma RoundTrip(s: Bytes, text: seq<int>)
    requires AreBytes(s) && Stripped(text) == Stripped(Encoded(s) + [0])
    ensures Allowed(text) && |Values(text)| % 4 != 1
    ensures |s| <= |Unpacked(Values(text))| && Unpacked(Values(text))[..|s|] == s
    ensures |Unpacked(Values(text))| == if |s| % 3 == 0 then |s| else |s| + 1
    ensures |Unpacked(Values(text))| - 1 == |s| <==> |s| % 3 != 0
  {
    hide Values, Unpacked, Groups, DecodeTable, Stripped, Triple;
    GroupsSmall(s);
    StrippedValues(text);
    StrippedValues(Encoded(s) + [0]);
    var tail := Padding(|s|) + [0];
    assert Encoded(s) + [0] == Spelled(Groups(s)) + tail;
    TailIsSkipped(|s|);
    SpelledValues(Groups(s), tail);
    UnpackGroups(s);
    GroupCount(|s|);
  }

  /** Three bytes encoded and decoded again are reported as two. */
  method ShortLength(a: nat, b: nat, c: nat) returns (ret: int, out: seq<nat>, outlen: int)
    requires a < 256 && b < 256 && c < 256
    ensures ret == 0 && out == [a, b, c] && outlen == 2
  {
    hide Values, Unpacked, Encoded, Allowed, Stripped;
    var s := [a, b, c];
    var text, _ := Encode(s);
    RoundTrip(s, text);
    ret, out, outlen := Decode(text);
    assert out[..3] == out;
  }

  lemma TailIsSkipped(n: nat)
    ensures var tail := Padding(n) + [0]; forall i :: 0 <= i < |tail| ==> DecodeTable(tail[i]) == SKIP
  {
  }

  lemma GroupCount(n: nat)
    ensures (n + (n + 2) / 3) % 4 == if n % 3 == 0 then 0 else n % 3 + 1
  {
    var k, r := n / 3, n % 3;
    assert n == 3 * k + r && (n + 2) / 3 == if r == 0 then k else k + 1;
  }
}
