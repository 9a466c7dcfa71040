/** The search for dimensions in a WebP file (RFC 9649, sections 2.3 to 2.7 and 3.4). */
module Webp {
  import opened Wrappers
  import opened Bitmap
  import opened Bytes

  const RIFF: seq<Byte> := [0x52, 0x49, 0x46, 0x46]
  const WEBP: seq<Byte> := [0x57, 0x45, 0x42, 0x50]
  const VP8X: seq<Byte> := [0x56, 0x50, 0x38, 0x58]
  const VP8L: seq<Byte> := [0x56, 0x50, 0x38, 0x4C]
  const VP8: seq<Byte> := [0x56, 0x50, 0x38, 0x20]

  /** pad is the byte, whatever its value, that follows a payload of odd length. */
  datatype RiffChunk = RiffChunk(kind: seq<Byte>, payload: seq<Byte>, pad: seq<Byte>)

  predicate Sized(c: RiffChunk) {
    |c.kind| == 4 && |c.payload| < Pow256(4)
  }

  predicate Padded(c: RiffChunk) {
    Sized(c) && |c.pad| == |c.payload| % 2
  }

  function HeadBytes(c: RiffChunk): seq<Byte> {
    c.kind + ToLittleEndian(|c.payload|, 4) + c.payload
  }

  function ChunksBytes(cs: seq<RiffChunk>): seq<Byte> {
    if cs == [] then [] else HeadBytes(cs[0]) + cs[0].pad + ChunksBytes(cs[1..])
  }

  /** Width and height, if this chunk gives them. */
  function Dimensions(kind: seq<Byte>, payload: seq<Byte>): Option<Size> {
    if kind == VP8X && |payload| >= 10 then
      Some((1 + LittleEndian(payload[4..7]), 1 + LittleEndian(payload[7..10])))
    else if kind == VP8L && |payload| >= 5 && payload[0] == 0x2F then
      var dimensions := LittleEndian(payload[1..5]);
      Some((1 + dimensions % 0x4000, 1 + dimensions / 0x4000 % 0x4000))
    else if kind == VP8 && |payload| >= 10 && payload[3..6] == [0x9D, 0x01, 0x2A] then
      Some((LittleEndian(payload[6..8]) % 0x4000, LittleEndian(payload[8..10]) % 0x4000))
    else None
  }

  // ---------- what the search should find ----------

  predicate HasHeader(data: seq<Byte>) {
    |data| >= 12 && data[..4] == RIFF && data[8..12] == WEBP
  }

  /** Some padded chunks that give no dimensions, then one that gives these, then anything. */
  ghost predicate Gives(bytes: seq<Byte>, cs: seq<RiffChunk>, last: RiffChunk, rest: seq<Byte>, size: Size) {
    && (forall c :: c in cs ==> Padded(c) && Dimensions(c.kind, c.payload).None?)
    && Sized(last) && Dimensions(last.kind, last.payload) == Some(size)
    && bytes == ChunksBytes(cs) + (HeadBytes(last) + rest)
  }

  /** The chunk at the head of the bytes, without its padding. */
  function FirstChunk(bytes: seq<Byte>): (c: Option<(seq<Byte>, seq<Byte>)>)
    requires |bytes| >= 8
    ensures c.Some? ==> 8 + |c.value.1| <= |bytes|
  {
    var size := LittleEndian(bytes[4..8]);
    if 8 + size > |bytes| then None else Some((bytes[..4], bytes[8..8 + size]))
  }

  function Find(bytes: seq<Byte>): Result<Size, BitmapFault>
    decreases |bytes|
  {
    if |bytes| < 8 then Failure(DimensionsMissing)
    else
      var first := FirstChunk(bytes);
      if first.None? then Failure(StructureInvalid)
      else
        var (kind, payload) := first.value;
        var next := 8 + |payload| + |payload| % 2;
        if Dimensions(kind, payload).Some? then Success(Dimensions(kind, payload).value)
        else if next > |bytes| then Failure(DimensionsMissing)
        else Find(bytes[next..])
  }

  lemma CutOfHead(c: RiffChunk, rest: seq<Byte>)
    requires Sized(c)
    ensures var bytes := HeadBytes(c) + rest;
            && |bytes| >= 8 + |c.payload| && FirstChunk(bytes) == Some((c.kind, c.payload)) && bytes[8 + |c.payload|..] == rest
  {
    var bytes := HeadBytes(c) + rest;
    LittleEndianRoundTrip(|c.payload|, 4);
    hide LittleEndian, ToLittleEndian, Pow256;
    assert bytes[..4] == c.kind && bytes[4..8] == ToLittleEndian(|c.payload|, 4);
    assert bytes[8..8 + |c.payload|] == c.payload;
  }

  lemma HeadOfCut(bytes: seq<Byte>)
    requires |bytes| >= 8 && FirstChunk(bytes).Some?
    ensures var (kind, payload) := FirstChunk(bytes).value;
            forall pad :: Sized(RiffChunk(kind, payload, pad)) && bytes == HeadBytes(RiffChunk(kind, payload, pad)) + bytes[8 + |payload|..]
  {
    ToLittleEndianOf(bytes[4..8]);
    var n := |FirstChunk(bytes).value.1|;
    hide LittleEndian, ToLittleEndian, Pow256;
    assert bytes == bytes[..4] + bytes[4..8] + bytes[8..8 + n] + bytes[8 + n..];
  }

  lemma {:induction false} FindOfGiven(bytes: seq<Byte>, cs: seq<RiffChunk>, last: RiffChunk, rest: seq<Byte>, size: Size)
    requires Gives(bytes, cs, last, rest, size)
    ensures Find(bytes) == Success(size)
    decreases |cs|
  {
    hide FirstChunk, HeadBytes, LittleEndian, Dimensions, Pow256;
    if cs == [] {
      assert bytes == HeadBytes(last) + rest;
      CutOfHead(last, rest);
    } else {
      var c := cs[0];
      var more := ChunksBytes(cs[1..]) + (HeadBytes(last) + rest);
      assert bytes == HeadBytes(c) + (c.pad + more);
      CutOfHead(c, c.pad + more);
      var n := |c.payload|;
      assert bytes[8 + n + n % 2..] == bytes[8 + n..][|c.pad|..] == more;
      FindOfGiven(more, cs[1..], last, rest, size);
    }
  }

  lemma {:induction false} GivenOfFind(bytes: seq<Byte>) returns (cs: seq<RiffChunk>, last: RiffChunk, rest: seq<Byte>)
    requires Find(bytes).Success?
    ensures Gives(bytes, cs, last, rest, Find(bytes).value)
    decreases |bytes|
  {
    var (kind, payload) := FirstChunk(bytes).value;
    HeadOfCut(bytes);
    hide FirstChunk, HeadBytes, Sized, Dimensions, Gives;
    var n := |payload|;
    if Dimensions(kind, payload).Some? {
      cs, last, rest := [], RiffChunk(kind, payload, []), bytes[8 + n..];
      OneGives(bytes, last, rest, Find(bytes).value);
    } else {
      var next := 8 + n + n % 2;
      var c := RiffChunk(kind, payload, bytes[8 + n..next]);
      var tail;
      tail, last, rest := GivenOfFind(bytes[next..]);
      cs := [c] + tail;
      assert bytes[8 + n..] == c.pad + bytes[next..];
      OneMoreGives(bytes, c, bytes[next..], tail, last, rest, Find(bytes).value);
    }
  }

  lemma OneGives(bytes: seq<Byte>, last: RiffChunk, rest: seq<Byte>, size: Size)
    requires Sized(last) && Dimensions(last.kind, last.payload) == Some(size) && bytes == HeadBytes(last) + rest
    ensures Gives(bytes, [], last, rest, size)
  {
    hide HeadBytes, Dimensions, Sized;
    assert ChunksBytes([]) + bytes == bytes;
  }

  lemma OneMoreGives(bytes: seq<Byte>, c: RiffChunk, more: seq<Byte>, cs: seq<RiffChunk>, last: RiffChunk, rest: seq<Byte>, size: Size)
    requires Padded(c) && Dimensions(c.kind, c.payload).None? && bytes == HeadBytes(c) + (c.pad + more)
    requires Gives(more, cs, last, rest, size)
    ensures Gives(bytes, [c] + cs, last, rest, size)
  {
    hide HeadBytes, Dimensions, Pow256;
    assert ([c] + cs)[1..] == cs;
    assert ChunksBytes([c] + cs) == HeadBytes(c) + c.pad + ChunksBytes(cs);
    var tail := HeadBytes(last) + rest;
    assert HeadBytes(c) + (c.pad + (ChunksBytes(cs) + tail)) == HeadBytes(c) + c.pad + ChunksBytes(cs) + tail;
  }

  /** _webp_info: dimensions are returned exactly when the chunks of a complete RIFF file give them. */
  method WebpInfo(data: seq<Byte>) returns (r: Result<Option<Size>, BitmapFault>)
    ensures r == Success(None) <==> !HasHeader(data)
    ensures forall size :: r == Success(Some(size)) <==>
                             && HasHeader(data) && LittleEndian(data[4..8]) + 8 <= |data|
                             && exists cs, last, rest :: Gives(data[12..], cs, last, rest, size)
    ensures HasHeader(data) && r.Failure? ==>
              if LittleEndian(data[4..8]) + 8 > |data| then r.error == StructureInvalid else Find(data[12..]) == Failure(r.error)
  {
    hide HeadBytes, LittleEndian, Dimensions, Pow256, ChunksBytes;
    if !HasHeader(data) {
      return Success(None);
    }
    if LittleEndian(data[4..8]) + 8 > |data| {
      return Failure(StructureInvalid);
    }
    forall cs, last, rest, size | Gives(data[12..], cs, last, rest, size) {
      FindOfGiven(data[12..], cs, last, rest, size);
    }
    var found := Search(data);
    if found.Failure? {
      return Failure(found.error);
    }
    ghost var cs, last, rest := GivenOfFind(data[12..]);
    return Success(Some(found.value));
  }

  method Search(data: seq<Byte>) returns (r: Result<Size, BitmapFault>)
    requires |data| >= 12
    ensures r == Find(data[12..])
  {
    hide LittleEndian, Dimensions;
    var offset := 12;
    while offset + 8 <= |data|
      invariant 12 <= offset <= |data| + 1
      invariant Find(data[12..]) == if offset <= |data| then Find(data[offset..]) else Failure(DimensionsMissing)
    {
      var kind, size := data[offset..offset + 4], LittleEndian(data[offset + 4..offset + 8]);
      var start := offset + 8;
      var end := start + size;
      SliceOfDrop(data, offset, 0, 4);
      SliceOfDrop(data, offset, 4, 8);
      if end > |data| {
        return Failure(StructureInvalid);
      }
      var payload := data[start..end];
      SliceOfDrop(data, offset, 8, 8 + size);
      var dimensions := Dimensions(kind, payload);
      if dimensions.Some? {
        return Success(dimensions.value);
      }
      var next := end + size % 2;
      if next <= |data| {
        assert data[offset..][8 + size + size % 2..] == data[next..];
      }
      offset := next;
    }
    return Failure(DimensionsMissing);
  }

  // ---------- fields ----------

  lemma Vp8xGivesBack(flags: seq<Byte>, width: nat, height: nat, extra: seq<Byte>)
    requires |flags| == 4 && 1 <= width <= 0x100_0000 && 1 <= height <= 0x100_0000
    ensures Dimensions(VP8X, flags + ToLittleEndian(width - 1, 3) + ToLittleEndian(height - 1, 3) + extra) == Some((width, height))
  {
    Pow256Values();
    LittleEndianRoundTrip(width - 1, 3);
    LittleEndianRoundTrip(height - 1, 3);
    hide LittleEndian, ToLittleEndian, Pow256;
    var payload := flags + ToLittleEndian(width - 1, 3) + ToLittleEndian(height - 1, 3) + extra;
    assert payload[4..7] == ToLittleEndian(width - 1, 3) && payload[7..10] == ToLittleEndian(height - 1, 3);
  }

  /** Two 14-bit fields and what lies above them, in one number. */
  lemma Fields14(low: nat, high: nat, above: nat)
    requires low < 0x4000 && high < 0x4000
    ensures var packed := low + 0x4000 * (high + 0x4000 * above);
            packed % 0x4000 == low && packed / 0x4000 % 0x4000 == high
  {
    var packed := low + 0x4000 * (high + 0x4000 * above);
    assert packed / 0x4000 == high + 0x4000 * above;
  }

  /** The two 14-bit fields share one 32-bit number with the alpha bit and the version. */
  lemma Vp8lGivesBack(width: nat, height: nat, bits: nat, extra: seq<Byte>)
    requires 1 <= width <= 0x4000 && 1 <= height <= 0x4000 && bits < 16
    ensures var packed := (width - 1) + 0x4000 * ((height - 1) + 0x4000 * bits);
            Dimensions(VP8L, [0x2F] + ToLittleEndian(packed, 4) + extra) == Some((width, height))
  {
    var packed := (width - 1) + 0x4000 * ((height - 1) + 0x4000 * bits);
    assert packed < Pow256(4) by {
      Pow256Values();
    }
    LittleEndianRoundTrip(packed, 4);
    Fields14(width - 1, height - 1, bits);
    Vp8lPayload(packed, extra);
    hide LittleEndian, ToLittleEndian, Pow256;
  }

  lemma Vp8lPayload(packed: nat, extra: seq<Byte>)
    ensures var payload := [0x2F] + ToLittleEndian(packed, 4) + extra;
            |payload| >= 5 && payload[0] == 0x2F && payload[1..5] == ToLittleEndian(packed, 4)
  {
    hide ToLittleEndian;
  }

  /** Each 14-bit field shares two bytes with a scale of two bits, which is dropped. */
  lemma Vp8GivesBack(tag: seq<Byte>, width: nat, scaleX: nat, height: nat, scaleY: nat, extra: seq<Byte>)
    requires |tag| == 3 && width < 0x4000 && height < 0x4000 && scaleX < 4 && scaleY < 4
    ensures var w, h := ToLittleEndian(width + 0x4000 * scaleX, 2), ToLittleEndian(height + 0x4000 * scaleY, 2);
            Dimensions(VP8, tag + [0x9D, 0x01, 0x2A] + w + h + extra) == Some((width, height))
  {
    Field14(width, scaleX);
    Field14(height, scaleY);
    var w, h := ToLittleEndian(width + 0x4000 * scaleX, 2), ToLittleEndian(height + 0x4000 * scaleY, 2);
    hide LittleEndian, ToLittleEndian;
    var start: seq<Byte> := [0x9D, 0x01, 0x2A];
    var payload := tag + start + w + h + extra;
    assert payload[3..6] == start && payload[6..8] == w && payload[8..10] == h;
  }

  lemma Field14(n: nat, scale: nat)
    requires n < 0x4000 && scale < 4
    ensures LittleEndian(ToLittleEndian(n + 0x4000 * scale, 2)) % 0x4000 == n
  {
    Pow256Values();
    LittleEndianRoundTrip(n + 0x4000 * scale, 2);
  }
}
