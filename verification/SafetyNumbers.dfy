/** Safety numbers: the two identity keys in byte order, hashed, and shown as blocks of five digits. The digest
    is left open. */
module SafetyNumbers {
  import opened Sequences

  type byte = i: int | 0 <= i < 256

  type Bytes = seq<byte>

  // ---------------------------------------------------------------------------
  // Byte order
  // ---------------------------------------------------------------------------

  /** The difference of the first bytes that differ, or of the lengths. */
  function Compare(a: Bytes, b: Bytes): int
    decreases |a|
  {
    if a == [] || b == [] then |a| - |b|
    else if a[0] != b[0] then a[0] - b[0]
    else Compare(a[1..], b[1..])
  }

  method CompareByteArrays(a: array<byte>, b: array<byte>) returns (c: int)
    ensures c == Compare(a[..], b[..])
    ensures c == 0 <==> a[..] == b[..]
  {
    CompareZero(a[..], b[..]);
    var minLen := if a.Length < b.Length then a.Length else b.Length;
    assert a[0..] == a[..] && b[0..] == b[..];
    for i := 0 to minLen
      invariant Compare(a[..], b[..]) == Compare(a[i..], b[i..])
    {
      assert a[i..][0] == a[i] && a[i..][1..] == a[i + 1..];
      assert b[i..][0] == b[i] && b[i..][1..] == b[i + 1..];
      if a[i] != b[i] {
        var x: int, y: int := a[i], b[i];
        return x - y;
      }
    }
    return a.Length - b.Length;
  }

  lemma {:induction false} CompareZero(a: Bytes, b: Bytes)
    ensures Compare(a, b) == 0 <==> a == b
    decreases |a|
  {
    if a != [] && b != [] && a[0] == b[0] {
      CompareZero(a[1..], b[1..]);
      assert a == [a[0]] + a[1..] && b == [b[0]] + b[1..];
    }
  }

  lemma {:induction false} CompareFlips(a: Bytes, b: Bytes)
    ensures Compare(b, a) == -Compare(a, b)
    decreases |a|
  {
    if a != [] && b != [] && a[0] == b[0] {
      CompareFlips(a[1..], b[1..]);
    }
  }

  lemma {:induction false} CompareTransitive(a: Bytes, b: Bytes, c: Bytes)
    requires Compare(a, b) <= 0 && Compare(b, c) <= 0
    ensures Compare(a, c) <= 0
    decreases |a|
  {
    if a != [] && b != [] && c != [] && a[0] == b[0] == c[0] {
      CompareTransitive(a[1..], b[1..], c[1..]);
    }
  }

  /** MAIN: byte order is a total order, in which only equal arrays compare as zero. */
  lemma ByteOrderIsTotal(a: Bytes, b: Bytes, c: Bytes)
    ensures Compare(a, b) <= 0 || Compare(b, a) <= 0
    ensures Compare(a, b) <= 0 && Compare(b, a) <= 0 <==> a == b
    ensures Compare(a, b) <= 0 && Compare(b, c) <= 0 ==> Compare(a, c) <= 0
  {
    CompareZero(a, b);
    CompareFlips(a, b);
    if Compare(a, b) <= 0 && Compare(b, c) <= 0 {
      CompareTransitive(a, b, c);
    }
  }

  /** Where two arrays part: both the same before, then one is over or the bytes differ. */
  predicate PartAt(a: Bytes, b: Bytes, i: nat) {
    && i <= |a| && i <= |b| && a[..i] == b[..i]
    && (i == |a| || i == |b| || a[i] != b[i])
  }

  /** MAIN: byte order is that of a dictionary: what decides is the first byte that differs, by its value, and where
      one array is the beginning of the other the shorter comes first. */
  lemma {:induction false} OrderIsLexicographic(a: Bytes, b: Bytes, i: nat)
    requires PartAt(a, b, i)
    ensures i < |a| && i < |b| ==> (Compare(a, b) < 0 <==> a[i] < b[i])
    ensures i == |a| || i == |b| ==> (Compare(a, b) < 0 <==> |a| < |b|)
    decreases |a|
  {
    if i > 0 {
      assert a[0] == a[..i][0] == b[..i][0] == b[0];
      assert a[1..][..i - 1] == a[..i][1..] == b[..i][1..] == b[1..][..i - 1];
      OrderIsLexicographic(a[1..], b[1..], i - 1);
    }
  }

  // ---------------------------------------------------------------------------
  // The hashed bytes
  // ---------------------------------------------------------------------------

  /** The key that goes first, and the other. */
  function Smaller(a: Bytes, b: Bytes): Bytes {
    if Compare(a, b) <= 0 then a else b
  }

  function Larger(a: Bytes, b: Bytes): Bytes {
    if Compare(a, b) <= 0 then b else a
  }

  function Combined(a: Bytes, b: Bytes): Bytes {
    Smaller(a, b) + Larger(a, b)
  }

  predicate SamePair(a: Bytes, b: Bytes, c: Bytes, d: Bytes) {
    (a == c && b == d) || (a == d && b == c)
  }

  lemma OrderIsSymmetric(a: Bytes, b: Bytes)
    ensures Smaller(a, b) == Smaller(b, a) && Larger(a, b) == Larger(b, a)
  {
    CompareFlips(a, b);
    CompareZero(a, b);
  }

  /** MAIN: equal bytes come from the same two keys, up to their order, exactly when they are cut at the same
      place. */
  lemma CombinedDeterminesIff(a: Bytes, b: Bytes, c: Bytes, d: Bytes)
    requires Combined(a, b) == Combined(c, d)
    ensures SamePair(a, b, c, d) <==> |Smaller(a, b)| == |Smaller(c, d)|
  {
    var p, q, r, s := Smaller(a, b), Larger(a, b), Smaller(c, d), Larger(c, d);
    OrderIsSymmetric(a, b);
    if |p| == |r| {
      assert p == (p + q)[..|p|] == (r + s)[..|r|] == r;
      assert q == (p + q)[|p|..] == (r + s)[|r|..] == s;
    }
  }

  /** MAIN: for keys of one length the hashed bytes determine the two keys, up to their order. */
  lemma CombinedDeterminesKeys(a: Bytes, b: Bytes, c: Bytes, d: Bytes)
    requires |a| == |b| == |c| == |d|
    ensures Combined(a, b) == Combined(c, d) <==> SamePair(a, b, c, d)
  {
    OrderIsSymmetric(a, b);
    if Combined(a, b) == Combined(c, d) {
      CombinedDeterminesIff(a, b, c, d);
    }
  }

  /** Keys of different lengths can give the same bytes, cut elsewhere. */
  lemma LengthsMatter()
    ensures Combined([1], [2, 3]) == Combined([1, 2], [3]) && !SamePair([1], [2, 3], [1, 2], [3])
  {
    assert [1] + [2, 3] == [1, 2, 3] == [1, 2] + [3];
    assert |[1]| != |[1, 2]|;
  }

  // ---------------------------------------------------------------------------
  // Digits
  // ---------------------------------------------------------------------------

  const DIGITS := "0123456789"

  /** A number in decimal, as `toString` gives it. */
  function Decimal(n: nat): (r: string)
    ensures r != ""
  {
    if n < 10 then [DIGITS[n]] else Decimal(n / 10) + [DIGITS[n % 10]]
  }

  function PadStart(s: string, width: nat): string
    decreases width - |s|
  {
    if |s| >= width then s else PadStart("0" + s, width)
  }

  function DigitValue(c: char): nat {
    if '0' <= c <= '9' then c as nat - '0' as nat else 0
  }

  function Value(s: string): nat {
    if s == "" then 0 else 10 * Value(s[..|s| - 1]) + DigitValue(s[|s| - 1])
  }

  lemma DigitIsItself(d: nat)
    requires d < 10
    ensures DigitValue(DIGITS[d]) == d
  {
  }

  lemma {:induction false} DecimalValue(n: nat)
    ensures Value(Decimal(n)) == n
  {
    if n < 10 {
      DigitIsItself(n);
      assert [DIGITS[n]][..0] == "";
    } else {
      DecimalValue(n / 10);
      DigitIsItself(n % 10);
      var front := Decimal(n / 10);
      assert (front + [DIGITS[n % 10]])[..|front|] == front;
    }
  }

  lemma DecimalLength(n: nat)
    requires n < 100000
    ensures |Decimal(n)| <= 5
  {
    assert n / 10 < 10000 && n / 10 / 10 < 1000 && n / 10 / 10 / 10 < 100 && n / 10 / 10 / 10 / 10 < 10;
    DecimalStep(n);
    DecimalStep(n / 10);
    DecimalStep(n / 10 / 10);
    DecimalStep(n / 10 / 10 / 10);
    DecimalStep(n / 10 / 10 / 10 / 10);
  }

  lemma DecimalStep(n: nat)
    ensures n < 10 ==> |Decimal(n)| == 1
    ensures n >= 10 ==> |Decimal(n)| == |Decimal(n / 10)| + 1
  {
  }

  lemma {:induction false} ZeroInFront(s: string)
    ensures Value("0" + s) == Value(s)
    decreases |s|
  {
    if s == "" {
      assert "0" + s == "0" && "0"[..0] == "";
    } else {
      ZeroInFront(s[..|s| - 1]);
      assert ("0" + s)[..|"0" + s| - 1] == "0" + s[..|s| - 1];
    }
  }

  lemma {:induction false} PadStartValue(s: string, width: nat)
    requires |s| <= width
    ensures |PadStart(s, width)| == width && Value(PadStart(s, width)) == Value(s)
    decreases width - |s|
  {
    if |s| < width {
      ZeroInFront(s);
      PadStartValue("0" + s, width);
    }
  }

  // ---------------------------------------------------------------------------
  // Blocks
  // ---------------------------------------------------------------------------

  /** Four bytes read as one big-endian number. */
  function Uint32(hash: Bytes, offset: nat): nat
    requires offset + 4 <= |hash|
  {
    var b0: int, b1: int, b2: int, b3: int := hash[offset], hash[offset + 1], hash[offset + 2], hash[offset + 3];
    ((b0 * 256 + b1) * 256 + b2) * 256 + b3
  }

  function Block(n: nat): string {
    PadStart(Decimal(n % 100000), 5)
  }

  function Blocks(hash: Bytes): (r: seq<string>)
    requires |hash| % 4 == 0
    ensures |r| == |hash| / 4
  {
    seq(|hash| / 4, i requires 0 <= i < |hash| / 4 => Block(Uint32(hash, 4 * i)))
  }

  function Weighted(b0: int, b1: int, b2: int, b3: int): int {
    16777216 * b0 + 65536 * b1 + 256 * b2 + b3
  }

  /** The first byte counts most. */
  lemma BigEndian(hash: Bytes, offset: nat)
    requires offset + 4 <= |hash|
    ensures Uint32(hash, offset) == Weighted(hash[offset], hash[offset + 1], hash[offset + 2], hash[offset + 3])
  {
  }

  /** A block is five digits and reads as its number. */
  lemma BlockReads(n: nat)
    ensures |Block(n)| == 5 && Value(Block(n)) == n % 100000
  {
    DecimalLength(n % 100000);
    DecimalValue(n % 100000);
    PadStartValue(Decimal(n % 100000), 5);
  }

  function JoinSpaced(blocks: seq<string>): string {
    if blocks == [] then ""
    else if |blocks| == 1 then blocks[0]
    else blocks[0] + " " + JoinSpaced(blocks[1..])
  }

  lemma {:induction false} JoinLength(blocks: seq<string>)
    requires blocks != [] && forall b :: b in blocks ==> |b| == 5
    ensures |JoinSpaced(blocks)| == 6 * |blocks| - 1
    decreases |blocks|
  {
    assert blocks[0] in blocks;
    if |blocks| > 1 {
      assert forall b :: b in blocks[1..] ==> b in blocks;
      JoinLength(blocks[1..]);
    }
  }

  /** Blocks of five characters can be read back from the text. */
  lemma {:induction false} BlocksReadBack(a: seq<string>, b: seq<string>)
    requires |a| == |b| && JoinSpaced(a) == JoinSpaced(b)
    requires forall s :: s in a || s in b ==> |s| == 5
    ensures a == b
    decreases |a|
  {
    if a != [] {
      assert a[0] in a && b[0] in b;
      if |a| > 1 {
        var x, y := JoinSpaced(a), JoinSpaced(b);
        assert x[..5] == a[0] && x[6..] == JoinSpaced(a[1..]);
        assert y[..5] == b[0] && y[6..] == JoinSpaced(b[1..]);
        assert forall s :: s in a[1..] || s in b[1..] ==> s in a || s in b;
        BlocksReadBack(a[1..], b[1..]);
      }
      assert a == [a[0]] + a[1..] && b == [b[0]] + b[1..];
    }
  }

  function SafetyNumber(a: Bytes, b: Bytes, digest: Bytes -> Bytes): string
    requires |digest(Combined(a, b))| % 4 == 0
  {
    JoinSpaced(Blocks(digest(Combined(a, b))))
  }

  /** Both keys in one new buffer. */
  method Concatenate(firstKey: array<byte>, secondKey: array<byte>) returns (combined: array<byte>)
    ensures fresh(combined) && combined[..] == firstKey[..] + secondKey[..]
  {
    combined := new byte[firstKey.Length + secondKey.Length];
    for i := 0 to firstKey.Length
      invariant combined[..i] == firstKey[..i]
    {
      combined[i] := firstKey[i];
    }
    for i := 0 to secondKey.Length
      invariant combined[..firstKey.Length + i] == firstKey[..] + secondKey[..i]
    {
      combined[firstKey.Length + i] := secondKey[i];
    }
  }

  /** The hash, four bytes at a time. */
  method Format(hash: Bytes) returns (text: string)
    requires |hash| % 4 == 0
    ensures text == JoinSpaced(Blocks(hash))
  {
    hide Block, Uint32;
    var blocks := [];
    var offset := 0;
    while offset < |hash|
      invariant offset % 4 == 0 && 0 <= offset <= |hash| && |blocks| == offset / 4
      invariant forall k :: 0 <= k < |blocks| ==> blocks[k] == Block(Uint32(hash, 4 * k))
    {
      blocks := blocks + [Block(Uint32(hash, offset))];
      offset := offset + 4;
    }
    assert blocks == Blocks(hash);
    text := JoinSpaced(blocks);
  }

  method ComputeSafetyNumber(bytesA: array<byte>, bytesB: array<byte>, digest: Bytes -> Bytes) returns (text: string)
    requires forall x :: |digest(x)| % 4 == 0
    ensures text == SafetyNumber(bytesA[..], bytesB[..], digest)
  {
    var cmp := CompareByteArrays(bytesA, bytesB);
    var firstKey, secondKey := if cmp <= 0 then bytesA else bytesB, if cmp <= 0 then bytesB else bytesA;
    var combined := Concatenate(firstKey, secondKey);
    text := Format(digest(combined[..]));
  }

  /** MAIN: both parties compute the same text, whatever the digest. */
  lemma SafetyNumberIsSymmetric(a: Bytes, b: Bytes, digest: Bytes -> Bytes)
    requires |digest(Combined(a, b))| % 4 == 0
    ensures |digest(Combined(b, a))| % 4 == 0
    ensures SafetyNumber(a, b, digest) == SafetyNumber(b, a, digest)
  {
    OrderIsSymmetric(a, b);
  }

  /** MAIN: a digest of 32 bytes is shown as 47 characters, and two texts are equal exactly when every four bytes
      of the digests agree modulo 100000. */
  lemma TextShowsDigest(a: Bytes, b: Bytes, c: Bytes, d: Bytes, digest: Bytes -> Bytes)
    requires |digest(Combined(a, b))| == |digest(Combined(c, d))| == 32
    ensures |SafetyNumber(a, b, digest)| == 47
    ensures SafetyNumber(a, b, digest) == SafetyNumber(c, d, digest) <==>
      (forall i :: 0 <= i < 8 ==>
        Uint32(digest(Combined(a, b)), 4 * i) % 100000 == Uint32(digest(Combined(c, d)), 4 * i) % 100000)
  {
    var h, k := digest(Combined(a, b)), digest(Combined(c, d));
    BlocksOfFive(h);
    BlocksOfFive(k);
    JoinLength(Blocks(h));
    if SafetyNumber(a, b, digest) == SafetyNumber(c, d, digest) {
      BlocksReadBack(Blocks(h), Blocks(k));
      forall i | 0 <= i < 8 ensures Uint32(h, 4 * i) % 100000 == Uint32(k, 4 * i) % 100000 {
        assert Blocks(h)[i] == Blocks(k)[i];
        BlockReads(Uint32(h, 4 * i));
        BlockReads(Uint32(k, 4 * i));
      }
    }
    if forall i :: 0 <= i < 8 ==> Uint32(h, 4 * i) % 100000 == Uint32(k, 4 * i) % 100000 {
      assert Blocks(h) == Blocks(k);
    }
  }

  lemma BlocksOfFive(hash: Bytes)
    requires |hash| % 4 == 0
    ensures forall s :: s in Blocks(hash) ==> |s| == 5
  {
    forall s | s in Blocks(hash) ensures |s| == 5 {
      var i :| 0 <= i < |hash| / 4 && Blocks(hash)[i] == s;
      BlockReads(Uint32(hash, 4 * i));
    }
  }

  /** What is read behind a piece of text is read in the rest of it. */
  lemma ReadBehind(front: string, rest: string, from: nat, to: nat)
    requires |front| <= from <= to <= |front| + |rest|
    ensures (front + rest)[from..to] == rest[from - |front|..to - |front|]
    ensures to < |front| + |rest| ==> (front + rest)[to] == rest[to - |front|]
  {
  }

  lemma {:induction false} JoinReads(blocks: seq<string>, i: nat)
    requires i < |blocks| && forall b :: b in blocks ==> |b| == 5
    ensures var text := JoinSpaced(blocks);
      && 6 * i + 5 <= |text| && text[6 * i..6 * i + 5] == blocks[i]
      && (i + 1 < |blocks| ==> 6 * i + 5 < |text| && text[6 * i + 5] == ' ')
    decreases |blocks|
  {
    assert blocks[0] in blocks;
    if |blocks| > 1 {
      var front, rest := blocks[0] + " ", JoinSpaced(blocks[1..]);
      assert JoinSpaced(blocks) == front + rest;
      if i == 0 {
        assert (front + rest)[..5] == blocks[0] && (front + rest)[5] == ' ';
      } else {
        assert forall b :: b in blocks[1..] ==> b in blocks;
        JoinReads(blocks[1..], i - 1);
        ReadBehind(front, rest, 6 * i, 6 * i + 5);
      }
    }
  }

  /** MAIN: read as it is shown, the safety number is the digest: each group of five digits is four of its bytes, the
      first counting most, modulo 100000, and a space stands after every group but the last. */
  lemma TextReads(a: Bytes, b: Bytes, digest: Bytes -> Bytes, i: nat)
    requires |digest(Combined(a, b))| == 32 && i < 8
    ensures var hash, text := digest(Combined(a, b)), SafetyNumber(a, b, digest);
      && |text| == 47
      && Value(text[6 * i..6 * i + 5]) ==
           Weighted(hash[4 * i], hash[4 * i + 1], hash[4 * i + 2], hash[4 * i + 3]) % 100000
      && (i < 7 ==> text[6 * i + 5] == ' ')
  {
    var hash := digest(Combined(a, b));
    BlocksOfFive(hash);
    JoinLength(Blocks(hash));
    JoinReads(Blocks(hash), i);
    BlockReads(Uint32(hash, 4 * i));
    BigEndian(hash, 4 * i);
  }
}
