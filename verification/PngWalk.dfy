/** The chunk walk of a PNG file (PNG specification, section 5.3), against serialisation. */
module PngWalk {
  import opened Wrappers
  import opened Bitmap
  import opened Bytes

  datatype Chunk = Chunk(kind: seq<Byte>, payload: seq<Byte>)

  /** zlib.crc32 of kind + payload, masked to 32 bits: any function of the bytes will do here. */
  type Crc = seq<Byte> -> nat

  const SIGNATURE: seq<Byte> := [0x89, 0x50, 0x4E, 0x47, 0x0D, 0x0A, 0x1A, 0x0A]
  const IHDR: seq<Byte> := [0x49, 0x48, 0x44, 0x52]
  const IDAT: seq<Byte> := [0x49, 0x44, 0x41, 0x54]
  const IEND: seq<Byte> := [0x49, 0x45, 0x4E, 0x44]

  predicate Sized(c: Chunk) {
    |c.kind| == 4 && |c.payload| < Pow256(4)
  }

  function Checksum(crc: Crc, c: Chunk): nat {
    crc(c.kind + c.payload) % Pow256(4)
  }

  function ChunkBytes(crc: Crc, c: Chunk): seq<Byte> {
    ToBigEndian(|c.payload|, 4) + c.kind + c.payload + ToBigEndian(Checksum(crc, c), 4)
  }

  function ChunksBytes(crc: Crc, cs: seq<Chunk>): seq<Byte> {
    if cs == [] then [] else ChunkBytes(crc, cs[0]) + ChunksBytes(crc, cs[1..])
  }

  /** IEND is the last chunk and only the last. */
  predicate Finished(cs: seq<Chunk>) {
    cs != [] && Sized(cs[0]) && (if cs[0].kind == IEND then |cs| == 1 else Finished(cs[1..]))
  }

  function Payloads(cs: seq<Chunk>): seq<seq<Byte>> {
    if cs == [] then [] else (if cs[0].kind == IDAT then [cs[0].payload] else []) + Payloads(cs[1..])
  }

  /** data is a PNG file made of these chunks, and bytes after IEND, which nobody reads. */
  predicate IsPng(crc: Crc, data: seq<Byte>, cs: seq<Chunk>, trailing: seq<Byte>) {
    && Finished(cs) && cs[0].kind == IHDR && |cs[0].payload| == 13 && Payloads(cs) != []
    && data == SIGNATURE + (ChunksBytes(crc, cs) + trailing)
  }

  // ---------- one chunk ----------

  /** The chunk at the head of the bytes, if it is whole and its checksum is right. */
  function FirstChunk(crc: Crc, bytes: seq<Byte>): Option<Chunk> {
    if |bytes| < 12 then None
    else
      var size := BigEndian(bytes[..4]);
      if 12 + size > |bytes| then None
      else
        var c := Chunk(bytes[4..8], bytes[8..8 + size]);
        if BigEndian(bytes[8 + size..12 + size]) != Checksum(crc, c) then None else Some(c)
  }

  /** The five fields a chunk and its tail consist of. */
  lemma FieldsOf(a: seq<Byte>, k: seq<Byte>, p: seq<Byte>, d: seq<Byte>, rest: seq<Byte>)
    requires |a| == |k| == |d| == 4
    ensures var bytes := a + k + p + d + rest;
            && bytes[..4] == a && bytes[4..8] == k && bytes[8..8 + |p|] == p
            && bytes[8 + |p|..12 + |p|] == d && bytes[12 + |p|..] == rest
  {
  }

  lemma OfFields(bytes: seq<Byte>, n: nat)
    requires 12 + n <= |bytes|
    ensures bytes == bytes[..4] + bytes[4..8] + bytes[8..8 + n] + bytes[8 + n..12 + n] + bytes[12 + n..]
  {
  }

  lemma CutOfChunk(crc: Crc, c: Chunk, rest: seq<Byte>)
    requires Sized(c)
    ensures var bytes := ChunkBytes(crc, c) + rest;
            && 12 + |c.payload| <= |bytes| && FirstChunk(crc, bytes) == Some(c) && bytes[12 + |c.payload|..] == rest
  {
    var n, sum := |c.payload|, Checksum(crc, c);
    BigEndianRoundTrip(n, 4);
    BigEndianRoundTrip(sum, 4);
    FieldsOf(ToBigEndian(n, 4), c.kind, c.payload, ToBigEndian(sum, 4), rest);
    hide BigEndian, ToBigEndian, Pow256, Checksum;
  }

  lemma ChunkOfCut(crc: Crc, bytes: seq<Byte>, c: Chunk)
    requires Sized(c) && FirstChunk(crc, bytes) == Some(c) && 12 + |c.payload| <= |bytes|
    ensures bytes == ChunkBytes(crc, c) + bytes[12 + |c.payload|..]
  {
    var n := |c.payload|;
    ToBigEndianOf(bytes[..4]);
    ToBigEndianOf(bytes[8 + n..12 + n]);
    OfFields(bytes, n);
    hide BigEndian, ToBigEndian, Pow256, Checksum;
  }

  lemma FirstChunkSized(crc: Crc, bytes: seq<Byte>)
    requires FirstChunk(crc, bytes).Some?
    ensures Sized(FirstChunk(crc, bytes).value) && 12 + |FirstChunk(crc, bytes).value.payload| <= |bytes|
  {
    ToBigEndianOf(bytes[..4]);
  }

  // ---------- all chunks up to IEND ----------

  function Walk(crc: Crc, bytes: seq<Byte>): Option<seq<Chunk>>
    decreases |bytes|
  {
    var first := FirstChunk(crc, bytes);
    if first.None? || 12 + |first.value.payload| > |bytes| then None
    else if first.value.kind == IEND then Some([first.value])
    else
      var more := Walk(crc, bytes[12 + |first.value.payload|..]);
      if more.None? then None else Some([first.value] + more.value)
  }

  /** Every serialisation is walked back into its chunks, whatever follows it. */
  lemma {:induction false} WalkOfChunks(crc: Crc, cs: seq<Chunk>, trailing: seq<Byte>)
    requires Finished(cs)
    ensures Walk(crc, ChunksBytes(crc, cs) + trailing) == Some(cs)
  {
    hide BigEndian, ToBigEndian, Pow256, ChunkBytes, Checksum, FirstChunk;
    var c, rest := cs[0], ChunksBytes(crc, cs[1..]) + trailing;
    var bytes := ChunksBytes(crc, cs) + trailing;
    assert bytes == ChunkBytes(crc, c) + rest;
    CutOfChunk(crc, c, rest);
    if c.kind == IEND {
      assert cs == [c];
    } else {
      WalkOfChunks(crc, cs[1..], trailing);
      assert cs == [c] + cs[1..];
    }
  }

  /** Whatever the walk accepts is the serialisation of what it returns, and some more bytes. */
  lemma {:induction false} WalkReads(crc: Crc, bytes: seq<Byte>) returns (trailing: seq<Byte>)
    requires Walk(crc, bytes).Some?
    ensures Finished(Walk(crc, bytes).value)
    ensures bytes == ChunksBytes(crc, Walk(crc, bytes).value) + trailing
    decreases |bytes|
  {
    hide BigEndian, ToBigEndian, Pow256, ChunkBytes, Checksum, FirstChunk;
    var cs := Walk(crc, bytes).value;
    var c := FirstChunk(crc, bytes).value;
    var rest := bytes[12 + |c.payload|..];
    FirstChunkSized(crc, bytes);
    ChunkOfCut(crc, bytes, c);
    if c.kind == IEND {
      trailing := rest;
      assert cs[1..] == [];
      assert ChunksBytes(crc, cs) == ChunkBytes(crc, c) + ChunksBytes(crc, cs[1..]);
    } else {
      trailing := WalkReads(crc, rest);
      assert cs[1..] == Walk(crc, rest).value;
      assert bytes == ChunkBytes(crc, c) + (ChunksBytes(crc, cs[1..]) + trailing);
    }
  }

  lemma IsPngWalks(crc: Crc, data: seq<Byte>, cs: seq<Chunk>, trailing: seq<Byte>)
    requires IsPng(crc, data, cs, trailing)
    ensures SIGNATURE <= data && |data| >= 33 && Walk(crc, data[8..]) == Some(cs)
    ensures data[8..12] == [0, 0, 0, 13] && data[12..16] == IHDR
    ensures cs[0].payload[..4] == data[16..20] && cs[0].payload[4..8] == data[20..24]
  {
    var bytes := ChunksBytes(crc, cs) + trailing;
    assert data[8..] == bytes;
    WalkOfChunks(crc, cs, trailing);
    WalkStarts(crc, bytes);
    Thirteen(bytes[..4]);
    HeaderFields(data, bytes);
    hide ChunksBytes, Walk, BigEndian, Checksum, Payloads;
  }

  lemma WalkStarts(crc: Crc, bytes: seq<Byte>)
    requires Walk(crc, bytes).Some?
    ensures Walk(crc, bytes).value != [] && FirstChunk(crc, bytes) == Some(Walk(crc, bytes).value[0])
    ensures 12 + |Walk(crc, bytes).value[0].payload| <= |bytes|
  {
    hide FirstChunk;
  }

  lemma HeaderFields(data: seq<Byte>, bytes: seq<Byte>)
    requires |bytes| >= 25 && data == SIGNATURE + bytes
    ensures data[8..12] == bytes[..4] && data[12..16] == bytes[4..8]
    ensures bytes[8..21][..4] == data[16..20] && bytes[8..21][4..8] == data[20..24]
  {
  }

  lemma Thirteen(bytes: seq<Byte>)
    requires |bytes| == 4
    ensures BigEndian(bytes) == 13 <==> bytes == [0, 0, 0, 13]
  {
    ToBigEndianOf(bytes);
    Pow256Values();
    BigEndianRoundTrip(13, 4);
    assert ToBigEndian(0, 1) == [0] && ToBigEndian(0, 2) == [0, 0] && ToBigEndian(0, 3) == [0, 0, 0];
    assert ToBigEndian(13, 4) == [0, 0, 0, 13];
  }

  lemma WalkIsPng(crc: Crc, data: seq<Byte>) returns (trailing: seq<Byte>)
    requires SIGNATURE <= data && |data| >= 33 && data[8..12] == [0, 0, 0, 13] && data[12..16] == IHDR
    requires Walk(crc, data[8..]).Some? && Payloads(Walk(crc, data[8..]).value) != []
    ensures IsPng(crc, data, Walk(crc, data[8..]).value, trailing)
  {
    trailing := WalkReads(crc, data[8..]);
    Thirteen(data[8..12]);
    assert data[8..][..4] == data[8..12] && data[8..][4..8] == data[12..16];
    FirstChunkSized(crc, data[8..]);
    assert data == SIGNATURE + data[8..];
    hide ChunksBytes, ChunkBytes, BigEndian, Checksum, Payloads;
  }

  // ---------- the loop ----------

  datatype Png = Png(width: nat, height: nat, payloads: seq<seq<Byte>>)

  /** What the walk from here on adds to the chunks seen so far is what the whole walk returns. */
  ghost predicate Ahead(crc: Crc, bytes: seq<Byte>, seen: seq<Chunk>, rest: seq<Byte>) {
    && (Walk(crc, bytes).Some? <==> Walk(crc, rest).Some?)
    && (Walk(crc, bytes).Some? ==> Walk(crc, bytes).value == seen + Walk(crc, rest).value)
  }

  lemma AheadOne(crc: Crc, bytes: seq<Byte>, seen: seq<Chunk>, rest: seq<Byte>, c: Chunk)
    requires Ahead(crc, bytes, seen, rest) && FirstChunk(crc, rest) == Some(c) && 12 + |c.payload| <= |rest|
    ensures c.kind == IEND ==> Walk(crc, bytes) == Some(seen + [c])
    ensures c.kind != IEND ==> Ahead(crc, bytes, seen + [c], rest[12 + |c.payload|..])
  {
    hide FirstChunk;
    var next := rest[12 + |c.payload|..];
    if Walk(crc, next).Some? {
      assert seen + ([c] + Walk(crc, next).value) == seen + [c] + Walk(crc, next).value;
    }
  }

  lemma {:induction false} PayloadsAppend(cs: seq<Chunk>, c: Chunk)
    ensures Payloads(cs + [c]) == Payloads(cs) + (if c.kind == IDAT then [c.payload] else [])
  {
    if cs != [] {
      assert (cs + [c])[1..] == cs[1..] + [c];
      PayloadsAppend(cs[1..], c);
    }
  }

  /**
    _png_info without the inflate check: a file is accepted exactly when it is some chunk list's
    serialisation, and then the answer is read off that list.
    */
  method WalkPng(crc: Crc, data: seq<Byte>) returns (r: Result<Option<Png>, BitmapFault>)
    ensures r == Success(None) <==> !(SIGNATURE <= data)
    ensures (r.Success? && r.value.Some?) <==> exists cs: seq<Chunk>, trailing: seq<Byte> :: IsPng(crc, data, cs, trailing)
    ensures forall cs: seq<Chunk>, trailing: seq<Byte> :: IsPng(crc, data, cs, trailing) ==>
              r == Success(Some(Png(BigEndian(cs[0].payload[..4]), BigEndian(cs[0].payload[4..8]), Payloads(cs))))
    ensures r.Failure? ==> r.error == StructureInvalid
  {
    forall cs: seq<Chunk>, trailing: seq<Byte> | IsPng(crc, data, cs, trailing) {
      IsPngWalks(crc, data, cs, trailing);
    }
    hide IsPng, Walk, BigEndian, FirstChunk, Payloads;
    if !(SIGNATURE <= data) {
      return Success(None);
    }
    if |data| < 33 || data[8..12] != [0, 0, 0, 13] || data[12..16] != IHDR {
      return Failure(StructureInvalid);
    }
    var width, height := BigEndian(data[16..20]), BigEndian(data[20..24]);
    var walked, payloads := WalkChunks(crc, data);
    if !walked || payloads == [] {
      return Failure(StructureInvalid);
    }
    ghost var trailing := WalkIsPng(crc, data);
    return Success(Some(Png(width, height, payloads)));
  }

  /** FirstChunk of the bytes from offset on, as the loop computes it. */
  function ChunkAt(crc: Crc, data: seq<Byte>, offset: nat): (c: Option<Chunk>)
    requires offset + 12 <= |data|
    ensures c == FirstChunk(crc, data[offset..])
    ensures c.Some? ==> offset + 12 + |c.value.payload| <= |data|
  {
    var size := BigEndian(data[offset..offset + 4]);
    var end := offset + 12 + size;
    SliceOfDrop(data, offset, 0, 4);
    if end > |data| then None
    else
      var c := Chunk(data[offset + 4..offset + 8], data[offset + 8..offset + 8 + size]);
      SliceOfDrop(data, offset, 4, 8);
      SliceOfDrop(data, offset, 8, 8 + size);
      SliceOfDrop(data, offset, 8 + size, 12 + size);
      if BigEndian(data[offset + 8 + size..end]) != Checksum(crc, c) then None else Some(c)
  }

  /** The loop over chunks: whether IEND was reached, and the IDAT payloads met on the way. */
  method WalkChunks(crc: Crc, data: seq<Byte>) returns (sawIend: bool, payloads: seq<seq<Byte>>)
    requires |data| >= 8
    ensures sawIend <==> Walk(crc, data[8..]).Some?
    ensures sawIend ==> payloads == Payloads(Walk(crc, data[8..]).value)
  {
    ghost var seen: seq<Chunk> := [];
    payloads := [];
    sawIend := false;
    var offset := 8;
    assert payloads == Payloads(seen);
    hide FirstChunk, ChunkAt, Payloads;
    while offset + 12 <= |data|
      invariant 8 <= offset <= |data|
      invariant Ahead(crc, data[8..], seen, data[offset..])
      invariant payloads == Payloads(seen)
    {
      var chunk := ChunkAt(crc, data, offset);
      if chunk.None? {
        return;
      }
      var c := chunk.value;
      var end := offset + 12 + |c.payload|;
      AheadOne(crc, data[8..], seen, data[offset..], c);
      PayloadsAppend(seen, c);
      assert data[offset..][12 + |c.payload|..] == data[end..];
      if c.kind == IDAT {
        payloads := payloads + [c.payload];
      }
      seen := seen + [c];
      offset := end;
      if c.kind == IEND {
        return true, payloads;
      }
    }
  }
}
