/** Byte order, spelled-out names and field layouts of the bitmap formats, independent of the parsers. */
module BitmapFields {
  import opened Wrappers
  import opened Bitmap
  import opened Bytes
  import opened PngWalk
  import Webp
  import Jpeg

  /** The bytes of an ASCII literal. */
  function Spelled(name: string): (bytes: seq<Byte>)
    ensures |bytes| == |name|
  {
    seq(|name|, i requires 0 <= i < |name| => (name[i] as int) % 256)
  }

  lemma SpelledFour(name: string)
    requires |name| == 4 && forall c :: c in name ==> c < 256 as char
    ensures Spelled(name) == [name[0] as int, name[1] as int, name[2] as int, name[3] as int]
  {
    var spelled := Spelled(name);
    assert name[0] in name && name[1] in name && name[2] in name && name[3] in name;
    assert spelled == [spelled[0], spelled[1], spelled[2], spelled[3]];
  }

  lemma Names()
    ensures IHDR == Spelled("IHDR") && IDAT == Spelled("IDAT") && IEND == Spelled("IEND")
    ensures Webp.RIFF == Spelled("RIFF") && Webp.WEBP == Spelled("WEBP")
    ensures Webp.VP8X == Spelled("VP8X") && Webp.VP8L == Spelled("VP8L") && Webp.VP8 == Spelled("VP8 ")
  {
    SpelledFour("IHDR");
    SpelledFour("IDAT");
    SpelledFour("IEND");
    SpelledFour("RIFF");
    SpelledFour("WEBP");
    SpelledFour("VP8X");
    SpelledFour("VP8L");
    SpelledFour("VP8 ");
  }

  /** Big-endian numbers start with their highest byte, little-endian ones with their lowest. */
  lemma ByteOrder(high: Byte, low: Byte, rest: seq<Byte>)
    ensures BigEndian([high, low]) == LittleEndian([low, high]) == 256 * high + low
    ensures BigEndian(rest + [low]) == 256 * BigEndian(rest) + low
    ensures LittleEndian([low] + rest) == low + 256 * LittleEndian(rest)
  {
    assert [high, low][..1] == [high] && [high][..0] == [];
    assert [low, high][1..] == [high] && [high][1..] == [];
    assert BigEndian([high]) == high && LittleEndian([high]) == high;
    assert (rest + [low])[..|rest|] == rest;
    assert ([low] + rest)[1..] == rest;
  }

  /** A PNG chunk: length of the payload, kind, payload, and the checksum of kind and payload, in 32 bits each (section 5.3). */
  lemma ChunkLayout(crc: Crc, c: Chunk)
    requires Sized(c)
    ensures var bytes, n := ChunkBytes(crc, c), |c.payload|;
            && |bytes| == 12 + n && BigEndian(bytes[..4]) == n && bytes[4..8] == c.kind && bytes[8..8 + n] == c.payload
            && BigEndian(bytes[8 + n..]) == crc(c.kind + c.payload) % 0x1_0000_0000
  {
    Pow256Values();
    BigEndianRoundTrip(|c.payload|, 4);
    BigEndianRoundTrip(Checksum(crc, c), 4);
    FieldsOf(ToBigEndian(|c.payload|, 4), c.kind, c.payload, ToBigEndian(Checksum(crc, c), 4), []);
    hide BigEndian, ToBigEndian, Pow256;
    var bytes, n := ChunkBytes(crc, c), |c.payload|;
    assert bytes + [] == bytes;
    assert bytes[8 + n..12 + n] == bytes[8 + n..];
  }

  // ---------- WebP ----------

  function Of(width: nat, height: nat): Option<Size> {
    Some((width, height))
  }

  function Field16(a: nat, b: nat): nat {
    a + 0x100 * b
  }

  function Field24(a: nat, b: nat, c: nat): nat {
    a + 0x100 * b + 0x1_0000 * c
  }

  /** Two bits, eight bits and four bits, lowest first. */
  function Field2Then8Then4(a: nat, b: nat, c: nat): nat {
    a + 4 * b + 0x400 * c
  }

  lemma LowestFirst(low: Byte, rest: seq<Byte>)
    ensures LittleEndian([]) == 0 && LittleEndian([low] + rest) == low + 256 * LittleEndian(rest)
  {
    assert ([low] + rest)[1..] == rest;
  }

  /** The fields of two, three and four bytes, lowest byte first. */
  lemma SmallFields(a: Byte, b: Byte, c: Byte, d: Byte)
    ensures LittleEndian([a, b]) == a + 0x100 * b
    ensures LittleEndian([a, b, c]) == a + 0x100 * b + 0x1_0000 * c
    ensures LittleEndian([a, b, c, d]) == a + 0x100 * b + 0x1_0000 * c + 0x100_0000 * d
  {
    LowestFirst(d, []);
    LowestFirst(c, []);
    LowestFirst(c, [d]);
    LowestFirst(b, []);
    LowestFirst(b, [c]);
    LowestFirst(b, [c, d]);
    LowestFirst(a, [b]);
    LowestFirst(a, [b, c]);
    LowestFirst(a, [b, c, d]);
    hide LittleEndian;
    assert [a] + [b, c, d] == [a, b, c, d] && [b] + [c, d] == [b, c, d] && [c] + [d] == [c, d];
    assert [a] + [b, c] == [a, b, c] && [b] + [c] == [b, c] && [a] + [b] == [a, b];
    assert [b] + [] == [b] && [c] + [] == [c] && [d] + [] == [d];
  }

  /** An extended header: two fields of 24 bits that hold the sizes less one. */
  lemma ExtendedSizes(p: seq<Byte>)
    ensures Webp.Dimensions(Webp.VP8X, p)
            == if |p| < 10 then None
               else Of(1 + Field24(p[4], p[5], p[6]), 1 + Field24(p[7], p[8], p[9]))
  {
    if |p| >= 10 {
      SmallFields(p[4], p[5], p[6], 0);
      SmallFields(p[7], p[8], p[9], 0);
      hide LittleEndian;
      assert p[4..7] == [p[4], p[5], p[6]] && p[7..10] == [p[7], p[8], p[9]];
    }
  }

  /** A lossless bitstream: a signature, then 14 bits of width less one, then 14 bits of height less one. */
  lemma LosslessSizes(p: seq<Byte>)
    ensures Webp.Dimensions(Webp.VP8L, p)
            == if |p| < 5 || p[0] != 0x2F then None
               else Of(1 + Field16(p[1], p[2] % 64), 1 + Field2Then8Then4(p[2] / 64, p[3], p[4] % 16))
  {
    if |p| >= 5 {
      SmallFields(p[1], p[2], p[3], p[4]);
      hide LittleEndian;
      assert p[1..5] == [p[1], p[2], p[3], p[4]];
      Fourteens(p[1], p[2], p[3], p[4]);
    }
  }

  lemma Fourteens(a: nat, b: nat, c: nat, d: nat)
    requires a < 256 && b < 256 && c < 256 && d < 256
    ensures var n := a + 0x100 * b + 0x1_0000 * c + 0x100_0000 * d;
            n % 0x4000 == a + 0x100 * (b % 64) && n / 0x4000 % 0x4000 == b / 64 + 4 * c + 0x400 * (d % 16)
  {
    var low, high := a + 0x100 * (b % 64), b / 64 + 4 * c + 0x400 * d;
    Split(a + 0x100 * b + 0x1_0000 * c + 0x100_0000 * d, high, low);
    Split(high, d / 16, b / 64 + 4 * c + 0x400 * (d % 16));
  }

  lemma Split(n: nat, high: nat, low: nat)
    requires n == 0x4000 * high + low && low < 0x4000
    ensures n / 0x4000 == high && n % 0x4000 == low
  {
  }

  /** A lossy key frame: a start code, then width and height in the low 14 bits of two bytes each. */
  lemma LossySizes(p: seq<Byte>)
    ensures Webp.Dimensions(Webp.VP8, p)
            == if |p| < 10 || p[3] != 0x9D || p[4] != 0x01 || p[5] != 0x2A then None
               else Of(Field16(p[6], p[7] % 64), Field16(p[8], p[9] % 64))
  {
    if |p| >= 10 {
      SmallFields(p[6], p[7], 0, 0);
      SmallFields(p[8], p[9], 0, 0);
      hide LittleEndian;
      assert p[3..6] == [p[3], p[4], p[5]] && p[6..8] == [p[6], p[7]] && p[8..10] == [p[8], p[9]];
      Fourteen(p[6], p[7]);
      Fourteen(p[8], p[9]);
    }
  }

  lemma Fourteen(a: nat, b: nat)
    requires a < 256 && b < 256
    ensures (a + 0x100 * b) % 0x4000 == a + 0x100 * (b % 64)
  {
    assert a + 0x100 * b == a + 0x100 * (b % 64) + 0x4000 * (b / 64);
  }

  /** With its padding every chunk takes an even number of bytes, and the padding is never more than one. */
  lemma ChunksAreEven(c: Webp.RiffChunk)
    requires Webp.Padded(c)
    ensures (|Webp.HeadBytes(c)| + |c.pad|) % 2 == 0 && |c.pad| <= 1 && |Webp.HeadBytes(c)| == 8 + |c.payload|
  {
  }

  /** No other chunk gives a size. */
  lemma OtherChunksGiveNone(kind: seq<Byte>, payload: seq<Byte>)
    requires kind != Webp.VP8X && kind != Webp.VP8L && kind != Webp.VP8
    ensures Webp.Dimensions(kind, payload) == None
  {
  }

  // ---------- JPEG ----------

  /** Frame headers, markers that stand alone, and markers that end the search. */
  lemma MarkersExactly(marker: Byte)
    ensures Jpeg.IsFrame(marker) <==> marker in {0xC0, 0xC1, 0xC2, 0xC3, 0xC5, 0xC6, 0xC7, 0xC9, 0xCA, 0xCB, 0xCD, 0xCE, 0xCF}
    ensures Jpeg.IsAlone(marker) <==> marker in {0x01, 0xD0, 0xD1, 0xD2, 0xD3, 0xD4, 0xD5, 0xD6, 0xD7}
    ensures Jpeg.IsStop(marker) <==> marker in {0xD9, 0xDA}
  {
  }

  lemma ContainsExactly(bytes: seq<Byte>, pair: seq<Byte>)
    requires |pair| == 2
    ensures Jpeg.Contains(bytes, pair) <==> exists before: seq<Byte>, after: seq<Byte> :: bytes == before + pair + after
  {
    if Jpeg.Contains(bytes, pair) {
      var i :| 0 <= i < |bytes| - 1 && bytes[i] == pair[0] && bytes[i + 1] == pair[1];
      assert bytes == bytes[..i] + pair + bytes[i + 2..];
    }
    forall before: seq<Byte>, after: seq<Byte> | bytes == before + pair + after
      ensures Jpeg.Contains(bytes, pair)
    {
      var i := |before|;
      assert bytes[i] == pair[0] && bytes[i + 1] == pair[1];
    }
  }
}
