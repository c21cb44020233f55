/** Byte-level encodings used by both wire formats: big-endian 16- and 32-bit
    fields (Python's `struct` with the "!" prefix), runs of 32-bit register
    words, and LSB-first flag bits. */
module Bytes {

  type Byte = b: int | 0 <= b < 0x100
  type Bytes = seq<Byte>
  type Word16 = w: int | 0 <= w < 0x1_0000
  type Word32 = w: int | 0 <= w < 0x1_0000_0000

  /** What a "B" field of `struct.pack` accepts. */
  predicate IsByte(x: int)
  {
    0 <= x < 0x100
  }

  /** struct.pack("!H", n) */
  function U16Be(n: Word16): (r: Bytes)
    ensures |r| == 2
  {
    [n / 0x100, n % 0x100]
  }

  /** struct.unpack("!H", s)[0] */
  function DecodeU16Be(s: Bytes): (n: Word16)
    requires |s| == 2
  {
    s[0] as int * 0x100 + s[1]
  }

  /** Two bytes decode to `n` exactly when they are the encoding of `n`. */
  lemma DecodeU16BeIff(s: Bytes, n: Word16)
    requires |s| == 2
    ensures DecodeU16Be(s) == n <==> s == U16Be(n)
  {
    if DecodeU16Be(s) == n {
      assert s[0] == n / 0x100 && s[1] == n % 0x100;
      assert s == [s[0], s[1]];
    }
  }

  /** struct.pack("!I", n) */
  function U32Be(n: Word32): (r: Bytes)
    ensures |r| == 4
  {
    [n / 0x100_0000, (n / 0x1_0000) % 0x100, (n / 0x100) % 0x100, n % 0x100]
  }

  /** struct.unpack("!I", s)[0] */
  function DecodeU32Be(s: Bytes): (n: Word32)
    requires |s| == 4
  {
    ((s[0] as int * 0x100 + s[1]) * 0x100 + s[2]) * 0x100 + s[3]
  }

  lemma U32BeRoundTrip(n: Word32)
    ensures DecodeU32Be(U32Be(n)) == n
  {
    var s := U32Be(n);
    assert s[0] as int * 0x100 + s[1] == n / 0x1_0000;
    assert (s[0] as int * 0x100 + s[1]) * 0x100 + s[2] == n / 0x100;
  }

  lemma DecodeU32BeRoundTrip(s: Bytes)
    requires |s| == 4
    ensures U32Be(DecodeU32Be(s)) == s
  {
    var n := DecodeU32Be(s);
    assert n / 0x100 == (s[0] as int * 0x100 + s[1]) * 0x100 + s[2];
    assert n / 0x1_0000 == s[0] as int * 0x100 + s[1];
    assert n / 0x100_0000 == s[0];
  }

  /** Consecutive big-endian 32-bit words: what the register decode loops
      compute from a payload whose length is a multiple of four. */
  function Words(data: Bytes): (ws: seq<Word32>)
    requires |data| % 4 == 0
    ensures |ws| == |data| / 4
    decreases |data|
  {
    if |data| == 0 then [] else [DecodeU32Be(data[..4])] + Words(data[4..])
  }

  /** What a device puts on the wire for a run of register values. */
  function EncodeWords(ws: seq<Word32>): (data: Bytes)
    ensures |data| == 4 * |ws|
  {
    if ws == [] then [] else U32Be(ws[0]) + EncodeWords(ws[1..])
  }

  /** Word `i` is the big-endian value of bytes 4i .. 4i+3, in address order. */
  lemma {:induction false} WordsAt(data: Bytes, i: nat)
    requires |data| % 4 == 0 && i < |data| / 4
    ensures Words(data)[i] == DecodeU32Be(data[4 * i .. 4 * i + 4])
    decreases i
  {
    if i > 0 {
      WordsAt(data[4..], i - 1);
      var j := 4 * (i - 1);
      assert j + 4 == 4 * i;
      assert data[4..][j .. j + 4] == data[j + 4 .. j + 8];
    }
  }

  lemma {:induction false} WordsOfEncodeWords(ws: seq<Word32>)
    ensures Words(EncodeWords(ws)) == ws
  {
    if ws != [] {
      var data := EncodeWords(ws);
      assert data[..4] == U32Be(ws[0]);
      assert data[4..] == EncodeWords(ws[1..]);
      U32BeRoundTrip(ws[0]);
      WordsOfEncodeWords(ws[1..]);
    }
  }

  lemma {:induction false} EncodeWordsOfWords(data: Bytes)
    requires |data| % 4 == 0
    ensures EncodeWords(Words(data)) == data
    decreases |data|
  {
    if |data| > 0 {
      var ws := Words(data);
      assert ws[1..] == Words(data[4..]);
      DecodeU32BeRoundTrip(data[..4]);
      EncodeWordsOfWords(data[4..]);
      assert data == data[..4] + data[4..];
    }
  }

  /** Bit `i` of `b`, counting from the least significant bit (Python's
      `bool(b & (1 << i))`). */
  function Bit(b: nat, i: nat): bool
  {
    if i == 0 then b % 2 == 1 else Bit(b / 2, i - 1)
  }

  /** Flag `i` of a packed payload: bit `i mod 8` of byte `i div 8`; the
      first `min(count, 8 * |data|)` of them are returned by both flag
      decoders. */
  function FlagBits(data: Bytes, count: int): (flags: seq<bool>)
    ensures |flags| == if count < 8 * |data| then (if count < 0 then 0 else count) else 8 * |data|
  {
    var n := if count < 8 * |data| then (if count < 0 then 0 else count) else 8 * |data|;
    seq(n, i requires 0 <= i < n => Bit(data[i / 8], i % 8))
  }

  function Pow2(n: nat): (p: nat)
    ensures p >= 1
  {
    if n == 0 then 1 else 2 * Pow2(n - 1)
  }

  /** The byte whose bits, LSB first, are `fs` (a device packing flags). */
  function PackByte(fs: seq<bool>): (b: nat)
    requires |fs| <= 8
    ensures b < Pow2(|fs|) && b < 0x100
  {
    Pow2AtMost8(|fs|);
    if fs == [] then 0 else (if fs[0] then 1 else 0) + 2 * PackByte(fs[1..])
  }

  lemma Pow2AtMost8(n: nat)
    requires n <= 8
    ensures Pow2(n) <= 0x100
    decreases 8 - n
  {
    if n < 8 {
      Pow2AtMost8(n + 1);
    }
  }

  /** The payload a device sends for the flag values `fs`. */
  function PackFlags(fs: seq<bool>): (data: Bytes)
    ensures |data| == (|fs| + 7) / 8
    decreases |fs|
  {
    if fs == [] then []
    else if |fs| <= 8 then [PackByte(fs)]
    else [PackByte(fs[..8])] + PackFlags(fs[8..])
  }

  lemma {:induction false} BitOfPackByte(fs: seq<bool>, i: nat)
    requires |fs| <= 8 && i < |fs|
    ensures Bit(PackByte(fs), i) == fs[i]
    decreases i
  {
    var b := PackByte(fs);
    assert b / 2 == PackByte(fs[1..]);
    if i > 0 {
      BitOfPackByte(fs[1..], i - 1);
    }
  }

  /** Flag `i` of the packed payload sits at bit `i mod 8` of byte `i div 8`. */
  lemma {:induction false} PackFlagsAt(fs: seq<bool>, i: nat)
    requires i < |fs|
    ensures Bit(PackFlags(fs)[i / 8], i % 8) == fs[i]
    decreases |fs|
  {
    if |fs| <= 8 {
      BitOfPackByte(fs, i);
    } else if i < 8 {
      BitOfPackByte(fs[..8], i);
    } else {
      PackFlagsAt(fs[8..], i - 8);
      assert PackFlags(fs)[i / 8] == PackFlags(fs[8..])[(i - 8) / 8];
    }
  }

  /** Unpacking what the device packed gives back every flag. */
  lemma FlagBitsOfPackFlags(fs: seq<bool>)
    ensures FlagBits(PackFlags(fs), |fs|) == fs
  {
    var r := FlagBits(PackFlags(fs), |fs|);
    forall i | 0 <= i < |fs| ensures r[i] == fs[i] {
      PackFlagsAt(fs, i);
    }
  }
}
