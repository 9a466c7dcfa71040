/** Which fault the WebP and JPEG searches end in: where the structure breaks off, or that nothing gave a size. */
module BitmapFaults {
  import opened Wrappers
  import opened Bitmap
  import opened Bytes
  import Webp
  import Jpeg

  // ---------- WebP ----------

  /** Some padded chunks that give no size, and then a chunk that is longer than what is left. */
  ghost predicate ChunkCut(bytes: seq<Byte>, cs: seq<Webp.RiffChunk>, rest: seq<Byte>) {
    && (forall c :: c in cs ==> Webp.Padded(c) && Webp.Dimensions(c.kind, c.payload).None?)
    && bytes == Webp.ChunksBytes(cs) + rest
    && |rest| >= 8 && 8 + LittleEndian(rest[4..8]) > |rest|
  }

  /** The search fails on the structure if and only if it comes to such a chunk; otherwise the size is missing. */
  lemma FindFaults(bytes: seq<Byte>)
    ensures Webp.Find(bytes) == Failure(StructureInvalid) <==> exists cs, rest :: ChunkCut(bytes, cs, rest)
    ensures Webp.Find(bytes).Failure? ==> Webp.Find(bytes).error in {StructureInvalid, DimensionsMissing}
  {
    FindCodes(bytes);
    hide ChunkCut, Webp.Find;
    if Webp.Find(bytes) == Failure(StructureInvalid) {
      var cs, rest := CutOfFind(bytes);
    }
    if cs, rest :| ChunkCut(bytes, cs, rest) {
      FindOfCut(bytes, cs, rest);
    }
  }

  lemma {:induction false} FindCodes(bytes: seq<Byte>)
    ensures Webp.Find(bytes).Failure? ==> Webp.Find(bytes).error in {StructureInvalid, DimensionsMissing}
    decreases |bytes|
  {
    hide Webp.FirstChunk, Webp.Dimensions, LittleEndian;
    if |bytes| >= 8 && Webp.FirstChunk(bytes).Some? {
      var (kind, payload) := Webp.FirstChunk(bytes).value;
      var next := 8 + |payload| + |payload| % 2;
      if next <= |bytes| {
        FindCodes(bytes[next..]);
      }
    }
  }

  lemma NoChunkHere(rest: seq<Byte>)
    requires |rest| >= 8
    ensures 8 + LittleEndian(rest[4..8]) > |rest| <==> Webp.FirstChunk(rest).None?
  {
    hide LittleEndian;
  }

  lemma {:induction false} FindOfCut(bytes: seq<Byte>, cs: seq<Webp.RiffChunk>, rest: seq<Byte>)
    requires ChunkCut(bytes, cs, rest)
    ensures Webp.Find(bytes) == Failure(StructureInvalid)
    decreases |cs|
  {
    hide Webp.HeadBytes, LittleEndian, Webp.Dimensions, Pow256, Webp.FirstChunk;
    if cs == [] {
      assert bytes == rest;
      NoChunkHere(rest);
    } else {
      var c := cs[0];
      var more := Webp.ChunksBytes(cs[1..]) + rest;
      assert bytes == Webp.HeadBytes(c) + (c.pad + more);
      Webp.CutOfHead(c, c.pad + more);
      var n := |c.payload|;
      assert bytes[8 + n + n % 2..] == bytes[8 + n..][|c.pad|..] == more;
      FindOfCut(more, cs[1..], rest);
    }
  }

  lemma {:induction false} CutOfFind(bytes: seq<Byte>) returns (cs: seq<Webp.RiffChunk>, rest: seq<Byte>)
    requires Webp.Find(bytes) == Failure(StructureInvalid)
    ensures ChunkCut(bytes, cs, rest)
    decreases |bytes|
  {
    hide LittleEndian, Webp.HeadBytes, Webp.Dimensions, Pow256;
    if Webp.FirstChunk(bytes).None? {
      cs, rest := [], bytes;
      assert Webp.ChunksBytes([]) + bytes == bytes;
    } else {
      Webp.HeadOfCut(bytes);
      hide Webp.FirstChunk, ChunkCut, Webp.Sized;
      var (kind, payload) := Webp.FirstChunk(bytes).value;
      var n := |payload|;
      var next := 8 + n + n % 2;
      var c := Webp.RiffChunk(kind, payload, bytes[8 + n..next]);
      var tail;
      tail, rest := CutOfFind(bytes[next..]);
      cs := [c] + tail;
      assert bytes[8 + n..] == c.pad + bytes[next..];
      OneMoreCut(bytes, c, bytes[next..], tail, rest);
    }
  }

  lemma OneMoreCut(bytes: seq<Byte>, c: Webp.RiffChunk, more: seq<Byte>, cs: seq<Webp.RiffChunk>, rest: seq<Byte>)
    requires Webp.Padded(c) && Webp.Dimensions(c.kind, c.payload).None? && bytes == Webp.HeadBytes(c) + (c.pad + more)
    requires ChunkCut(more, cs, rest)
    ensures ChunkCut(bytes, [c] + cs, rest)
  {
    hide Webp.HeadBytes, Webp.Dimensions, Pow256, LittleEndian;
    assert ([c] + cs)[1..] == cs;
    assert Webp.ChunksBytes([c] + cs) == Webp.HeadBytes(c) + c.pad + Webp.ChunksBytes(cs);
    assert Webp.HeadBytes(c) + (c.pad + (Webp.ChunksBytes(cs) + rest)) == Webp.HeadBytes(c) + c.pad + Webp.ChunksBytes(cs) + rest;
  }

  // ---------- JPEG ----------

  /** Width comes after height: two bytes each, after the length and one byte of precision. */
  lemma FrameSize(data: seq<Byte>, offset: nat, length: nat)
    requires offset + length <= |data|
    ensures var r := Jpeg.Frame(data, offset, length);
            && (r.Failure? ==> r.error == StructureInvalid)
            && (r.Success? ==> length >= 7)
            && (r.Success? ==> r.value == (BigEndian([data[offset + 5], data[offset + 6]]), BigEndian([data[offset + 3], data[offset + 4]])))
  {
    hide BigEndian, Jpeg.Contains;
    if length >= 7 {
      assert data[offset + 5..offset + 7] == [data[offset + 5], data[offset + 6]];
      assert data[offset + 3..offset + 5] == [data[offset + 3], data[offset + 4]];
    }
  }

  /** What is wrong with a segment whose marker is followed by these bytes. */
  ghost predicate Broken(marker: Byte, after: seq<Byte>) {
    && !Jpeg.IsAlone(marker) && !Jpeg.IsStop(marker) && |after| >= 2
    && var length := BigEndian(after[..2]);
    || length < 2 || length > |after|
    || (Jpeg.IsFrame(marker)
        && (length < 7 || !Jpeg.Contains(after[length..], Jpeg.SCAN_START) || !Jpeg.Contains(after[length..], Jpeg.END)))
  }

  /** Pieces the search passes over, and then a broken segment. */
  ghost predicate SegmentBroken(bytes: seq<Byte>, ps: seq<Jpeg.Piece>, bad: Jpeg.Piece) {
    && (forall p :: p in ps ==> Jpeg.Passed(p))
    && Jpeg.Marked(bad) && Broken(bad.marker, bad.body)
    && bytes == Jpeg.PiecesBytes(ps) + Jpeg.PieceBytes(bad)
  }

  lemma ScanFaults(data: seq<Byte>, i: nat)
    requires i <= |data|
    ensures Jpeg.Scan(data, i) == Failure(StructureInvalid) <==> exists ps, bad :: SegmentBroken(data[i..], ps, bad)
    ensures Jpeg.Scan(data, i).Failure? ==> Jpeg.Scan(data, i).error in {StructureInvalid, DimensionsMissing}
  {
    ScanCodes(data, i);
    hide SegmentBroken, Jpeg.Scan;
    if Jpeg.Scan(data, i) == Failure(StructureInvalid) {
      var ps, bad := BrokenOfScan(data, i);
    }
    if ps, bad :| SegmentBroken(data[i..], ps, bad) {
      ScanOfBroken(data, i, ps, bad);
    }
  }

  lemma {:induction false} ScanCodes(data: seq<Byte>, i: nat)
    requires i <= |data|
    ensures Jpeg.Scan(data, i).Failure? ==> Jpeg.Scan(data, i).error in {StructureInvalid, DimensionsMissing}
    decreases |data| - i
  {
    hide Jpeg.MarkerAt, Jpeg.Frame, BigEndian, Jpeg.IsAlone, Jpeg.IsStop, Jpeg.IsFrame;
    var at := Jpeg.MarkerAt(data, i);
    if at < |data| {
      var marker, offset := data[at], at + 1;
      if Jpeg.IsAlone(marker) {
        ScanCodes(data, offset);
      } else if !Jpeg.IsStop(marker) && offset + 2 <= |data| {
        var length := BigEndian(data[offset..offset + 2]);
        if length >= 2 && offset + length <= |data| {
          if Jpeg.IsFrame(marker) {
            FrameSize(data, offset, length);
          } else {
            ScanCodes(data, offset + length);
          }
        }
      }
    }
  }

  /** The scan at a marker that is followed by bytes up to the end. */
  lemma ScanAtMarker(data: seq<Byte>, i: nat)
    requires i <= |data| && Jpeg.MarkerAt(data, i) < |data|
    ensures var at := Jpeg.MarkerAt(data, i);
            Broken(data[at], data[at + 1..]) ==> Jpeg.Scan(data, i) == Failure(StructureInvalid)
    ensures var at := Jpeg.MarkerAt(data, i);
            Jpeg.Scan(data, i) == Failure(StructureInvalid) && !Broken(data[at], data[at + 1..]) ==>
              if Jpeg.IsAlone(data[at]) then Jpeg.Scan(data, at + 1) == Failure(StructureInvalid)
              else
                && !Jpeg.IsStop(data[at]) && !Jpeg.IsFrame(data[at]) && at + 3 <= |data|
                && var length := BigEndian(data[at + 1..at + 3]);
                && 2 <= length && at + 1 + length <= |data| && Jpeg.Scan(data, at + 1 + length) == Failure(StructureInvalid)
  {
    hide Jpeg.MarkerAt, Jpeg.Contains, BigEndian;
    var at := Jpeg.MarkerAt(data, i);
    var after := data[at + 1..];
    if |after| >= 2 {
      assert after[..2] == data[at + 1..at + 3];
      var length := BigEndian(after[..2]);
      if length <= |after| {
        assert after[length..] == data[at + 1 + length..];
      }
    }
  }

  lemma {:induction false} ScanOfBroken(data: seq<Byte>, i: nat, ps: seq<Jpeg.Piece>, bad: Jpeg.Piece)
    requires i <= |data| && SegmentBroken(data[i..], ps, bad)
    ensures Jpeg.Scan(data, i) == Failure(StructureInvalid)
    decreases |ps|
  {
    hide BigEndian, Broken, Jpeg.PieceBytes, Jpeg.Scan, Jpeg.Passed;
    if ps == [] {
      assert data[i..] == Jpeg.PieceBytes(bad) + [];
      Jpeg.MarkerOfPiece(data, i, bad, []);
      var at := i + |bad.junk| + bad.fill;
      assert bad.body + [] == bad.body;
      ScanAtMarker(data, i);
    } else {
      var p, more := ps[0], Jpeg.PiecesBytes(ps[1..]) + Jpeg.PieceBytes(bad);
      assert p in ps && data[i..] == Jpeg.PieceBytes(p) + more;
      Jpeg.ScanPasses(data, i, p, more);
      ScanOfBroken(data, i + |p.junk| + p.fill + 1 + |p.body|, ps[1..], bad);
    }
  }

  lemma BrokenHere(data: seq<Byte>, i: nat) returns (bad: Jpeg.Piece)
    requires i <= |data| && Jpeg.MarkerAt(data, i) < |data|
    requires Broken(data[Jpeg.MarkerAt(data, i)], data[Jpeg.MarkerAt(data, i) + 1..])
    ensures SegmentBroken(data[i..], [], bad)
  {
    hide BigEndian, Broken, Jpeg.PieceBytes, Jpeg.MarkerAt, SegmentBroken, Jpeg.Marked;
    var at := Jpeg.MarkerAt(data, i);
    var length := |data| - at - 1;
    bad := Jpeg.PieceOfMarker(data, i, length);
    assert data[at + 1..at + 1 + length] == data[at + 1..];
    OneBroken(data[i..], bad, data[at + 1 + length..]);
  }

  /** The piece at the marker, and where the next one starts. */
  lemma PassedHere(data: seq<Byte>, i: nat) returns (p: Jpeg.Piece, next: nat)
    requires i <= |data| && Jpeg.MarkerAt(data, i) < |data| && Jpeg.Scan(data, i) == Failure(StructureInvalid)
    requires !Broken(data[Jpeg.MarkerAt(data, i)], data[Jpeg.MarkerAt(data, i) + 1..])
    ensures i < next <= |data| && Jpeg.Passed(p) && data[i..] == Jpeg.PieceBytes(p) + data[next..]
    ensures Jpeg.Scan(data, next) == Failure(StructureInvalid)
  {
    hide BigEndian, Broken, Jpeg.PieceBytes, Jpeg.MarkerAt, Jpeg.Scan;
    ScanAtMarker(data, i);
    var at := Jpeg.MarkerAt(data, i);
    var length := if Jpeg.IsAlone(data[at]) then 0 else BigEndian(data[at + 1..at + 3]);
    next := at + 1 + length;
    p := Jpeg.PieceOfMarker(data, i, length);
    Jpeg.BodyFields(data, at + 1, length);
  }

  lemma MarkerIsThere(data: seq<Byte>, i: nat)
    requires i <= |data| && Jpeg.Scan(data, i) == Failure(StructureInvalid)
    ensures Jpeg.MarkerAt(data, i) < |data|
  {
    hide Jpeg.MarkerAt, Jpeg.Frame, BigEndian;
  }

  lemma {:induction false} BrokenOfScan(data: seq<Byte>, i: nat) returns (ps: seq<Jpeg.Piece>, bad: Jpeg.Piece)
    requires i <= |data| && Jpeg.Scan(data, i) == Failure(StructureInvalid)
    ensures SegmentBroken(data[i..], ps, bad)
    decreases |data| - i
  {
    hide Broken, Jpeg.PieceBytes, Jpeg.MarkerAt, SegmentBroken, Jpeg.Scan, Jpeg.Passed;
    MarkerIsThere(data, i);
    var at := Jpeg.MarkerAt(data, i);
    if Broken(data[at], data[at + 1..]) {
      bad := BrokenHere(data, i);
      ps := [];
    } else {
      var p, next := PassedHere(data, i);
      var tail;
      tail, bad := BrokenOfScan(data, next);
      OneMoreBroken(data[i..], p, data[next..], tail, bad);
      ps := [p] + tail;
    }
  }

  lemma OneBroken(bytes: seq<Byte>, bad: Jpeg.Piece, nothing: seq<Byte>)
    requires Jpeg.Marked(bad) && Broken(bad.marker, bad.body) && nothing == [] && bytes == Jpeg.PieceBytes(bad) + nothing
    ensures SegmentBroken(bytes, [], bad)
  {
    hide Broken, Jpeg.PieceBytes;
    assert Jpeg.PiecesBytes([]) + bytes == bytes;
  }

  lemma OneMoreBroken(bytes: seq<Byte>, p: Jpeg.Piece, more: seq<Byte>, ps: seq<Jpeg.Piece>, bad: Jpeg.Piece)
    requires Jpeg.Passed(p) && bytes == Jpeg.PieceBytes(p) + more && SegmentBroken(more, ps, bad)
    ensures SegmentBroken(bytes, [p] + ps, bad)
  {
    hide Broken, BigEndian, Jpeg.PieceBytes;
    assert ([p] + ps)[1..] == ps;
    var tail := Jpeg.PieceBytes(bad);
    assert Jpeg.PieceBytes(p) + (Jpeg.PiecesBytes(ps) + tail) == Jpeg.PieceBytes(p) + Jpeg.PiecesBytes(ps) + tail;
  }
}
