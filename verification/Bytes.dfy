/** Bytes, 32-bit words and the two ways of laying words out in bytes. */
module Bytes {
  type Byte = x: int | 0 <= x < 256

  type U32 = x: int | 0 <= x < 0x1_0000_0000

  const LIMIT32: nat := 0x1_0000_0000

  /** A count cut to 32 bits, as a narrowing cast leaves it. */
  function Cut32(v: nat): U32 { if v < LIMIT32 then v else v % LIMIT32 }

  lemma Uncut(v: nat)
    requires v < LIMIT32
    ensures Cut32(v) == v
  {
  }

  /** Cutting the running sum each time is cutting the whole sum. */
  lemma CutSum(a: nat, b: nat)
    ensures Cut32(Cut32(a) as nat + Cut32(b) as nat) == Cut32(a + b)
  {
    CutParts(a);
    CutParts(b);
    CutMultiple(Cut32(a) as nat + Cut32(b) as nat, a / LIMIT32 + b / LIMIT32);
  }

  lemma CutParts(v: nat)
    ensures v == LIMIT32 * (v / LIMIT32) + Cut32(v) as nat
  {
  }

  /** A multiple of 2^32 is cut away. */
  lemma CutMultiple(v: nat, q: nat)
    ensures Cut32(v + LIMIT32 * q) == Cut32(v)
  {
    assert v + LIMIT32 * q == LIMIT32 * (v / LIMIT32 + q) + v % LIMIT32;
  }

  /** The word with these four bytes, the most significant first. */
  function Word(a: int, b: int, c: int, d: int): (v: U32)
    requires 0 <= a < 256 && 0 <= b < 256 && 0 <= c < 256 && 0 <= d < 256
  {
    ((a * 256 + b) * 256 + c) * 256 + d
  }

  function Byte3(v: U32): (b: Byte) { v / 0x100_0000 }

  function Byte2(v: U32): (b: Byte) { v / 0x1_0000 % 256 }

  function Byte1(v: U32): (b: Byte) { v / 0x100 % 256 }

  function Byte0(v: U32): (b: Byte) { v % 256 }

  lemma Quotient8(v: nat, q: nat)
    requires 0x100 * q <= v < 0x100 * q + 0x100
    ensures v / 0x100 == q
  {
  }

  lemma Quotient16(v: nat, q: nat)
    requires 0x1_0000 * q <= v < 0x1_0000 * q + 0x1_0000
    ensures v / 0x1_0000 == q
  {
  }

  lemma Quotient24(v: nat, q: nat)
    requires 0x100_0000 * q <= v < 0x100_0000 * q + 0x100_0000
    ensures v / 0x100_0000 == q
  {
  }

  /** Dividing by 2^16 and 2^24 is dividing by 2^8 again and again. */
  lemma Quotients(v: U32)
    ensures v / 0x1_0000 == v / 0x100 / 0x100 && v / 0x100_0000 == v / 0x1_0000 / 0x100
  {
    Quotient16(v, v / 0x100 / 0x100);
    Quotient24(v, v / 0x1_0000 / 0x100);
  }

  lemma BytesOfWord(a: int, b: int, c: int, d: int)
    requires 0 <= a < 256 && 0 <= b < 256 && 0 <= c < 256 && 0 <= d < 256
    ensures var v := Word(a, b, c, d); Byte3(v) == a && Byte2(v) == b && Byte1(v) == c && Byte0(v) == d
  {
    var v := Word(a, b, c, d);
    Quotient24(v, a);
    Quotient16(v, a * 256 + b);
    Quotient8(v, (a * 256 + b) * 256 + c);
    Remainder(a, b);
    Remainder(a * 256 + b, c);
    Remainder((a * 256 + b) * 256 + c, d);
  }

  lemma Remainder(q: int, r: int)
    requires 0 <= r < 256
    ensures (q * 256 + r) % 256 == r
  {
  }

  lemma WordOfBytes(v: U32)
    ensures Word(Byte3(v), Byte2(v), Byte1(v), Byte0(v)) == v
  {
    var q1, q2, q3 := v / 0x100, v / 0x1_0000, v / 0x100_0000;
    Quotients(v);
    assert v == q1 * 256 + v % 256;
    assert q1 == q2 * 256 + q1 % 256;
    assert q2 == q3 * 256 + q2 % 256;
  }

  // ---------------------------------------------------------------- big-endian

  function Be32(v: U32): (b: seq<Byte>)
    ensures |b| == 4
  {
    [Byte3(v), Byte2(v), Byte1(v), Byte0(v)]
  }

  function Be32At(bytes: seq<Byte>, offset: nat): (v: U32)
    requires offset + 4 <= |bytes|
  {
    Word(bytes[offset], bytes[offset + 1], bytes[offset + 2], bytes[offset + 3])
  }

  /** The first byte weighs most. */
  lemma BigEndian(bytes: seq<Byte>, offset: nat)
    requires offset + 4 <= |bytes|
    ensures Be32At(bytes, offset) ==
            0x100_0000 * bytes[offset] as int + 0x1_0000 * bytes[offset + 1] as int +
            0x100 * bytes[offset + 2] as int + bytes[offset + 3] as int
  {
  }

  lemma Be32RoundTrip(v: U32)
    ensures Be32At(Be32(v), 0) == v
  {
    WordOfBytes(v);
  }

  lemma Be32Reprint(bytes: seq<Byte>, offset: nat)
    requires offset + 4 <= |bytes|
    ensures Be32(Be32At(bytes, offset)) == bytes[offset..offset + 4]
  {
    BytesOfWord(bytes[offset], bytes[offset + 1], bytes[offset + 2], bytes[offset + 3]);
  }

  /** Reading a word written somewhere inside a longer byte string. */
  lemma Be32Inside(before: seq<Byte>, v: U32, after: seq<Byte>)
    ensures Be32At(before + Be32(v) + after, |before|) == v
  {
    Be32RoundTrip(v);
    var all := before + Be32(v) + after;
    assert all[|before|] == Be32(v)[0] && all[|before| + 1] == Be32(v)[1];
    assert all[|before| + 2] == Be32(v)[2] && all[|before| + 3] == Be32(v)[3];
  }

  /** A read inside a part of a byte string is a read of the part. */
  lemma Be32Shift(before: seq<Byte>, part: seq<Byte>, after: seq<Byte>, k: nat)
    requires k + 4 <= |part|
    ensures Be32At(before + part + after, |before| + k) == Be32At(part, k)
  {
    var all := before + part + after;
    assert all[|before| + k] == part[k] && all[|before| + k + 1] == part[k + 1];
    assert all[|before| + k + 2] == part[k + 2] && all[|before| + k + 3] == part[k + 3];
  }

  /** Words as big-endian bytes. */
  ghost function BeBytes(words: seq<U32>): (bytes: seq<Byte>)
    ensures |bytes| == 4 * |words|
  {
    if words == [] then [] else BeBytes(words[..|words| - 1]) + Be32(words[|words| - 1])
  }

  ghost function BeWords(bytes: seq<Byte>): (words: seq<U32>)
    ensures |words| == |bytes| / 4
    ensures forall i :: 0 <= i < |words| ==> words[i] == Be32At(bytes, 4 * i)
  {
    seq(|bytes| / 4, i requires 0 <= i < |bytes| / 4 => Be32At(bytes, 4 * i))
  }

  lemma {:induction false} BeBytesAt(words: seq<U32>, i: nat)
    requires i < |words|
    ensures BeBytes(words)[4 * i..4 * i + 4] == Be32(words[i])
  {
    var front := words[..|words| - 1];
    if i == |words| - 1 {
      assert BeBytes(words)[4 * i..4 * i + 4] == Be32(words[i]);
    } else {
      BeBytesAt(front, i);
      assert BeBytes(words)[4 * i..4 * i + 4] == BeBytes(front)[4 * i..4 * i + 4];
    }
  }

  lemma BeWordsOfBytes(words: seq<U32>)
    ensures BeWords(BeBytes(words)) == words
  {
    var bytes := BeBytes(words);
    forall i | 0 <= i < |words| ensures BeWords(bytes)[i] == words[i] {
      BeBytesAt(words, i);
      Be32RoundTrip(words[i]);
      assert bytes[4 * i..4 * i + 4][0] == bytes[4 * i] && bytes[4 * i..4 * i + 4][1] == bytes[4 * i + 1];
      assert bytes[4 * i..4 * i + 4][2] == bytes[4 * i + 2] && bytes[4 * i..4 * i + 4][3] == bytes[4 * i + 3];
    }
  }

  lemma BeBytesSnoc(words: seq<U32>, v: U32)
    ensures BeBytes(words + [v]) == BeBytes(words) + Be32(v)
  {
    assert (words + [v])[..|words|] == words;
  }

  lemma BeWordsSnoc(bytes: seq<Byte>, n: nat)
    requires |bytes| == 4 * n + 4
    ensures BeWords(bytes) == BeWords(bytes[..4 * n]) + [Be32At(bytes, 4 * n)]
  {
    var front := bytes[..4 * n];
    assert |BeWords(bytes)| == n + 1 && |BeWords(front)| == n;
    forall i | 0 <= i < n ensures BeWords(bytes)[i] == BeWords(front)[i] {
      assert Be32At(bytes, 4 * i) == Be32At(front, 4 * i);
    }
  }

  lemma {:induction false} BeBytesOfCountedWords(bytes: seq<Byte>, n: nat)
    requires |bytes| == 4 * n
    ensures BeBytes(BeWords(bytes)) == bytes
  {
    if n > 0 {
      var m := n - 1;
      BeBytesOfCountedWords(bytes[..4 * m], m);
      BeWordsSnoc(bytes, m);
      BeBytesSnoc(BeWords(bytes[..4 * m]), Be32At(bytes, 4 * m));
      Be32Reprint(bytes, 4 * m);
      assert bytes == bytes[..4 * m] + bytes[4 * m..4 * m + 4];
    }
  }

  lemma BeBytesOfWords(bytes: seq<Byte>)
    requires |bytes| % 4 == 0
    ensures BeBytes(BeWords(bytes)) == bytes
  {
    BeBytesOfCountedWords(bytes, |bytes| / 4);
  }

  // ---------------------------------------------------------------- little-endian

  function Le32(v: U32): (b: seq<Byte>)
    ensures |b| == 4
  {
    [Byte0(v), Byte1(v), Byte2(v), Byte3(v)]
  }

  function Le32At(bytes: seq<Byte>, offset: nat): (v: U32)
    requires offset + 4 <= |bytes|
  {
    Word(bytes[offset + 3], bytes[offset + 2], bytes[offset + 1], bytes[offset])
  }

  /** The last byte weighs most. */
  lemma LittleEndian(bytes: seq<Byte>, offset: nat)
    requires offset + 4 <= |bytes|
    ensures Le32At(bytes, offset) ==
            bytes[offset] as int + 0x100 * bytes[offset + 1] as int +
            0x1_0000 * bytes[offset + 2] as int + 0x100_0000 * bytes[offset + 3] as int
  {
  }

  lemma Le32RoundTrip(v: U32)
    ensures Le32At(Le32(v), 0) == v
  {
    WordOfBytes(v);
  }

  /** Words as little-endian bytes, as a struct of words lies in memory. */
  function LeBytes(words: seq<U32>): (bytes: seq<Byte>)
    ensures |bytes| == 4 * |words|
  {
    if words == [] then [] else LeBytes(words[..|words| - 1]) + Le32(words[|words| - 1])
  }

  lemma {:induction false} LeBytesAt(words: seq<U32>, i: nat)
    requires i < |words|
    ensures Le32At(LeBytes(words), 4 * i) == words[i]
  {
    var front, bytes := words[..|words| - 1], LeBytes(words);
    if i == |words| - 1 {
      Le32RoundTrip(words[i]);
      assert bytes == LeBytes(front) + Le32(words[i]) && |LeBytes(front)| == 4 * i;
      assert bytes[4 * i..4 * i + 4] == Le32(words[i]);
      assert bytes[4 * i..4 * i + 4][0] == bytes[4 * i] && bytes[4 * i..4 * i + 4][1] == bytes[4 * i + 1];
      assert bytes[4 * i..4 * i + 4][2] == bytes[4 * i + 2] && bytes[4 * i..4 * i + 4][3] == bytes[4 * i + 3];
    } else {
      LeBytesAt(front, i);
    }
  }

  lemma {:induction false} LeBytesAppend(a: seq<U32>, b: seq<U32>)
    ensures LeBytes(a + b) == LeBytes(a) + LeBytes(b)
    decreases |b|
  {
    if b == [] {
      assert a + b == a;
    } else {
      LeBytesAppend(a, b[..|b| - 1]);
      assert (a + b)[..|a + b| - 1] == a + b[..|b| - 1];
    }
  }

  /** The words a byte string holds, read little-endian. */
  function LeWords(bytes: seq<Byte>): (words: seq<U32>)
    ensures |words| == |bytes| / 4
    ensures forall i :: 0 <= i < |words| ==> words[i] == Le32At(bytes, 4 * i)
  {
    seq(|bytes| / 4, i requires 0 <= i < |bytes| / 4 => Le32At(bytes, 4 * i))
  }

  lemma LeWordsOfBytes(words: seq<U32>)
    ensures LeWords(LeBytes(words)) == words
  {
    forall i | 0 <= i < |words| ensures LeWords(LeBytes(words))[i] == words[i] {
      LeBytesAt(words, i);
    }
  }

  // ---------------------------------------------------------------- blocks of equal width

  /** Blocks laid end to end. */
  ghost function Join(blocks: seq<seq<U32>>): (words: seq<U32>)
  {
    if blocks == [] then [] else Join(blocks[..|blocks| - 1]) + blocks[|blocks| - 1]
  }

  ghost predicate Width(blocks: seq<seq<U32>>, width: nat)
  {
    forall i :: 0 <= i < |blocks| ==> |blocks[i]| == width
  }

  lemma {:induction false} JoinLength(blocks: seq<seq<U32>>, width: nat)
    requires Width(blocks, width)
    ensures |Join(blocks)| == width * |blocks|
  {
    if blocks != [] {
      var k := |blocks| - 1;
      JoinLength(blocks[..k], width);
      assert width * |blocks| == width * k + width;
    }
  }

  lemma {:induction false} JoinAt(blocks: seq<seq<U32>>, width: nat, i: nat)
    requires Width(blocks, width) && i < |blocks|
    ensures |Join(blocks)| == width * |blocks|
    ensures width * i + width <= |Join(blocks)| && Join(blocks)[width * i..width * i + width] == blocks[i]
  {
    JoinLength(blocks, width);
    var front, last := blocks[..|blocks| - 1], blocks[|blocks| - 1];
    if i < |front| {
      JoinAt(front, width, i);
      SliceOfAppend(Join(front), last, width * i, width);
    } else {
      JoinLength(front, width);
      assert (Join(front) + last)[width * i..width * i + width] == last;
    }
  }

  lemma SliceOfAppend(a: seq<U32>, b: seq<U32>, k: nat, width: nat)
    requires k + width <= |a|
    ensures (a + b)[k..k + width] == a[k..k + width]
  {
  }

  /** Cutting a word string into blocks and joining them gives it back. */
  lemma {:induction false} JoinSlices(words: seq<U32>, start: nat, width: nat, blocks: seq<seq<U32>>)
    requires start + width * |blocks| <= |words|
    requires forall i :: 0 <= i < |blocks| ==>
      0 <= start + width * i <= start + width * i + width <= |words| &&
      blocks[i] == words[start + width * i..start + width * i + width]
    ensures Join(blocks) == words[start..start + width * |blocks|]
  {
    if blocks != [] {
      var k := |blocks| - 1;
      assert width * |blocks| == width * k + width;
      JoinSlices(words, start, width, blocks[..k]);
      assert words[start..start + width * |blocks|] ==
             words[start..start + width * k] + words[start + width * k..start + width * k + width];
    }
  }
}
