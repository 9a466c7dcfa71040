/** The search for a start-of-frame segment in a JPEG file. */
module Jpeg {
  import opened Wrappers
  import opened Bitmap
  import opened Bytes

  const MARK: Byte := 0xFF
  const START: seq<Byte> := [0xFF, 0xD8]
  const SCAN_START: seq<Byte> := [0xFF, 0xDA]
  const END: seq<Byte> := [0xFF, 0xD9]

  predicate IsFrame(marker: Byte) {
    0xC0 <= marker <= 0xCF && marker != 0xC4 && marker != 0xC8 && marker != 0xCC
  }

  predicate IsAlone(marker: Byte) {
    marker == 0x01 || 0xD0 <= marker <= 0xD7
  }

  predicate IsStop(marker: Byte) {
    marker == 0xD9 || marker == 0xDA
  }

  predicate Contains(bytes: seq<Byte>, pair: seq<Byte>)
    requires |pair| == 2
  {
    exists i :: 0 <= i < |bytes| - 1 && bytes[i] == pair[0] && bytes[i + 1] == pair[1]
  }

  // ---------- what the search should find ----------

  /** Bytes that are skipped, one or more 0xFF, a marker, and for most markers a body that starts with its own length. */
  datatype Piece = Piece(junk: seq<Byte>, fill: nat, marker: Byte, body: seq<Byte>)

  function Marks(n: nat): (bytes: seq<Byte>)
    ensures |bytes| == n
  {
    seq(n, _ => MARK)
  }

  function PieceBytes(p: Piece): seq<Byte> {
    p.junk + Marks(p.fill) + [p.marker] + p.body
  }

  function PiecesBytes(ps: seq<Piece>): seq<Byte> {
    if ps == [] then [] else PieceBytes(ps[0]) + PiecesBytes(ps[1..])
  }

  predicate Marked(p: Piece) {
    MARK !in p.junk && p.fill >= 1 && p.marker != MARK
  }

  predicate Measured(body: seq<Byte>) {
    |body| >= 2 && BigEndian(body[..2]) == |body|
  }

  /** A piece the search passes over. */
  predicate Passed(p: Piece) {
    Marked(p) && if IsAlone(p.marker) then p.body == [] else !IsStop(p.marker) && !IsFrame(p.marker) && Measured(p.body)
  }

  ghost predicate Gives(bytes: seq<Byte>, ps: seq<Piece>, frame: Piece, rest: seq<Byte>, size: Size) {
    && (forall p :: p in ps ==> Passed(p))
    && Marked(frame) && IsFrame(frame.marker) && Measured(frame.body) && |frame.body| >= 7
    && Contains(rest, SCAN_START) && Contains(rest, END)
    && size == (BigEndian(frame.body[5..7]), BigEndian(frame.body[3..5]))
    && bytes == PiecesBytes(ps) + (PieceBytes(frame) + rest)
  }

  // ---------- the search ----------

  /** The first index from i on that holds 0xFF. */
  function FirstMark(data: seq<Byte>, i: nat): (j: nat)
    requires i <= |data|
    ensures i <= j <= |data| && (forall k :: i <= k < j ==> data[k] != MARK) && (j < |data| ==> data[j] == MARK)
    decreases |data| - i
  {
    if i == |data| || data[i] == MARK then i else FirstMark(data, i + 1)
  }

  /** The first index from i on that does not. */
  function AfterMarks(data: seq<Byte>, i: nat): (j: nat)
    requires i <= |data|
    ensures i <= j <= |data| && (forall k :: i <= k < j ==> data[k] == MARK) && (j < |data| ==> data[j] != MARK)
    decreases |data| - i
  {
    if i == |data| || data[i] != MARK then i else AfterMarks(data, i + 1)
  }

  /** The index of the next marker, or the end. */
  function MarkerAt(data: seq<Byte>, i: nat): (j: nat)
    requires i <= |data|
    ensures i <= j <= |data| && (j < |data| ==> i < j && data[j] != MARK && data[j - 1] == MARK)
  {
    AfterMarks(data, FirstMark(data, i))
  }

  /** What a frame segment at offset says, given its length. */
  function Frame(data: seq<Byte>, offset: nat, length: nat): Result<Size, BitmapFault>
    requires offset + length <= |data|
  {
    var remainder := data[offset + length..];
    if length < 7 || !Contains(remainder, SCAN_START) || !Contains(remainder, END) then Failure(StructureInvalid)
    else Success((BigEndian(data[offset + 5..offset + 7]), BigEndian(data[offset + 3..offset + 5])))
  }

  function Scan(data: seq<Byte>, i: nat): Result<Size, BitmapFault>
    requires i <= |data|
    decreases |data| - i
  {
    var at := MarkerAt(data, i);
    if at == |data| then Failure(DimensionsMissing)
    else
      var marker, offset := data[at], at + 1;
      if IsAlone(marker) then Scan(data, offset)
      else if IsStop(marker) || offset + 2 > |data| then Failure(DimensionsMissing)
      else
        var length := BigEndian(data[offset..offset + 2]);
        if length < 2 || offset + length > |data| then Failure(StructureInvalid)
        else if IsFrame(marker) then Frame(data, offset, length)
        else Scan(data, offset + length)
  }

  lemma MarkerOfPiece(data: seq<Byte>, i: nat, p: Piece, more: seq<Byte>)
    requires i <= |data| && Marked(p) && data[i..] == PieceBytes(p) + more
    ensures var at := i + |p.junk| + p.fill;
            && at < |data| && MarkerAt(data, i) == at && data[at] == p.marker
            && data[at + 1..] == p.body + more
  {
    var tail := data[i..];
    assert tail == p.junk + (Marks(p.fill) + ([p.marker] + (p.body + more)));
    assert forall k :: 0 <= k < |tail| ==> data[i + k] == tail[k];
    var m, n := |p.junk|, |p.junk| + p.fill;
    assert forall k :: 0 <= k < m ==> tail[k] == p.junk[k] != MARK;
    assert forall k :: m <= k < n ==> tail[k] == MARK;
    assert tail[n] == p.marker;
    MarkerUnique(data, i, i + m, i + n);
    assert tail[n + 1..] == p.body + more;
    assert data[i + n + 1..] == tail[n + 1..];
  }

  lemma MarkerUnique(data: seq<Byte>, i: nat, m: nat, n: nat)
    requires i <= m < n < |data| && data[n] != MARK
    requires forall k :: i <= k < m ==> data[k] != MARK
    requires forall k :: m <= k < n ==> data[k] == MARK
    ensures MarkerAt(data, i) == n
  {
    assert data[m] == MARK;
    assert FirstMark(data, i) == m;
    assert AfterMarks(data, m) == n;
  }

  lemma FiveParts(data: seq<Byte>, i: nat, f: nat, at: nat, length: nat)
    requires i <= f <= at && at + 1 + length <= |data|
    ensures data[i..] == data[i..f] + data[f..at] + [data[at]] + data[at + 1..at + 1 + length] + data[at + 1 + length..]
  {
  }

  lemma PieceOfMarker(data: seq<Byte>, i: nat, length: nat) returns (p: Piece)
    requires i <= |data| && MarkerAt(data, i) < |data| && MarkerAt(data, i) + 1 + length <= |data|
    ensures var at := MarkerAt(data, i);
            && Marked(p) && p.marker == data[at] && p.body == data[at + 1..at + 1 + length]
            && data[i..] == PieceBytes(p) + data[at + 1 + length..]
  {
    var f := FirstMark(data, i);
    var at := MarkerAt(data, i);
    p := Piece(data[i..f], at - f, data[at], data[at + 1..at + 1 + length]);
    assert data[f..at] == Marks(at - f);
    FiveParts(data, i, f, at, length);
    hide FirstMark, MarkerAt, Marks;
  }

  lemma BodyAt(data: seq<Byte>, offset: nat, body: seq<Byte>, more: seq<Byte>)
    requires offset <= |data| && data[offset..] == body + more
    ensures offset + |body| <= |data| && data[offset + |body|..] == more && data[offset..offset + |body|] == body
  {
    assert forall k :: 0 <= k < |body| + |more| ==> data[offset + k] == (body + more)[k];
  }

  lemma BodyFields(data: seq<Byte>, offset: nat, length: nat)
    requires offset + length <= |data|
    ensures var body := data[offset..offset + length];
            && (length >= 2 ==> body[..2] == data[offset..offset + 2])
            && (length >= 7 ==> body[3..5] == data[offset + 3..offset + 5] && body[5..7] == data[offset + 5..offset + 7])
  {
    if length >= 2 {
      SliceOfSlice(data, offset, length, 0, 2);
    }
    if length >= 7 {
      SliceOfSlice(data, offset, length, 3, 5);
      SliceOfSlice(data, offset, length, 5, 7);
    }
  }

  lemma AloneStep(data: seq<Byte>, i: nat, at: nat)
    requires i <= |data| && MarkerAt(data, i) == at < |data| && IsAlone(data[at])
    ensures Scan(data, i) == Scan(data, at + 1)
  {
    hide MarkerAt, Frame, BigEndian;
  }

  lemma SegmentStep(data: seq<Byte>, i: nat, at: nat, length: nat)
    requires i <= |data| && MarkerAt(data, i) == at < |data| && !IsAlone(data[at]) && !IsStop(data[at])
    requires 2 <= length && at + 1 + length <= |data| && BigEndian(data[at + 1..at + 3]) == length
    ensures Scan(data, i) == if IsFrame(data[at]) then Frame(data, at + 1, length) else Scan(data, at + 1 + length)
  {
    hide MarkerAt, Frame, BigEndian;
  }

  lemma SegmentPasses(data: seq<Byte>, i: nat, at: nat, body: seq<Byte>, more: seq<Byte>)
    requires i <= |data| && MarkerAt(data, i) == at < |data| && data[at + 1..] == body + more
    requires !IsAlone(data[at]) && !IsStop(data[at]) && Measured(body)
    ensures at + 1 + |body| <= |data|
    ensures Scan(data, i) == if IsFrame(data[at]) then Frame(data, at + 1, |body|) else Scan(data, at + 1 + |body|)
  {
    hide BigEndian, MarkerAt, Scan, Frame;
    BodyAt(data, at + 1, body, more);
    BodyFields(data, at + 1, |body|);
    SegmentStep(data, i, at, |body|);
  }

  lemma ScanPasses(data: seq<Byte>, i: nat, p: Piece, more: seq<Byte>)
    requires i <= |data| && Passed(p) && data[i..] == PieceBytes(p) + more
    ensures var next := i + |p.junk| + p.fill + 1 + |p.body|;
            next <= |data| && Scan(data, i) == Scan(data, next) && data[next..] == more
  {
    hide PieceBytes, MarkerAt, Scan, Frame, BigEndian;
    var at := i + |p.junk| + p.fill;
    MarkerOfPiece(data, i, p, more);
    BodyAt(data, at + 1, p.body, more);
    if IsAlone(p.marker) {
      AloneStep(data, i, at);
    } else {
      SegmentPasses(data, i, at, p.body, more);
    }
  }

  lemma ScanFrames(data: seq<Byte>, i: nat, frame: Piece, rest: seq<Byte>)
    requires i <= |data| && Marked(frame) && IsFrame(frame.marker) && Measured(frame.body) && |frame.body| >= 7
    requires Contains(rest, SCAN_START) && Contains(rest, END)
    requires data[i..] == PieceBytes(frame) + rest
    ensures Scan(data, i) == Success((BigEndian(frame.body[5..7]), BigEndian(frame.body[3..5])))
  {
    hide PieceBytes, MarkerAt, Scan, BigEndian, Contains;
    MarkerOfPiece(data, i, frame, rest);
    var offset := i + |frame.junk| + frame.fill + 1;
    SegmentPasses(data, i, offset - 1, frame.body, rest);
    BodyAt(data, offset, frame.body, rest);
    BodyFields(data, offset, |frame.body|);
  }

  /** The search passes over whatever it may pass over. */
  lemma {:induction false} ScanOfGiven(data: seq<Byte>, i: nat, ps: seq<Piece>, frame: Piece, rest: seq<Byte>, size: Size)
    requires i <= |data| && Gives(data[i..], ps, frame, rest, size)
    ensures Scan(data, i) == Success(size)
    decreases |ps|
  {
    hide BigEndian, Contains, PieceBytes, Scan, Passed;
    if ps == [] {
      assert data[i..] == PieceBytes(frame) + rest;
      ScanFrames(data, i, frame, rest);
    } else {
      var p, more := ps[0], PiecesBytes(ps[1..]) + (PieceBytes(frame) + rest);
      assert p in ps && data[i..] == PieceBytes(p) + more;
      ScanPasses(data, i, p, more);
      ScanOfGiven(data, i + |p.junk| + p.fill + 1 + |p.body|, ps[1..], frame, rest, size);
    }
  }

  /** What a successful scan has found at the next marker. */
  lemma ScanFound(data: seq<Byte>, i: nat)
    requires i <= |data| && Scan(data, i).Success?
    ensures var at := MarkerAt(data, i);
            && at < |data| && (IsAlone(data[at]) || !IsStop(data[at]))
            && (IsAlone(data[at]) ==> Scan(data, i) == Scan(data, at + 1))
            && (!IsAlone(data[at]) ==>
                  && at + 3 <= |data|
                  && var length := BigEndian(data[at + 1..at + 3]);
                  && 2 <= length && at + 1 + length <= |data|
                  && Scan(data, i) == if IsFrame(data[at]) then Frame(data, at + 1, length) else Scan(data, at + 1 + length))
  {
    hide MarkerAt, Frame, BigEndian;
  }

  lemma {:induction false} GivenOfScan(data: seq<Byte>, i: nat) returns (ps: seq<Piece>, frame: Piece, rest: seq<Byte>)
    requires i <= |data| && Scan(data, i).Success?
    ensures Gives(data[i..], ps, frame, rest, Scan(data, i).value)
    decreases |data| - i
  {
    hide BigEndian, Contains, PieceBytes, MarkerAt, Gives, Scan, Frame;
    var at := MarkerAt(data, i);
    ScanFound(data, i);
    var marker, offset := data[at], at + 1;
    var length := if IsAlone(marker) then 0 else BigEndian(data[offset..offset + 2]);
    var p := PieceOfMarker(data, i, length);
    BodyFields(data, offset, length);
    if IsFrame(marker) {
      ps, frame, rest := [], p, data[offset + length..];
      FrameGives(data, offset, length);
      OneGives(data[i..], p, rest, Scan(data, i).value);
    } else {
      var tail;
      tail, frame, rest := GivenOfScan(data, offset + length);
      OneMoreGives(data[i..], p, data[offset + length..], tail, frame, rest, Scan(data, i).value);
      ps := [p] + tail;
    }
  }

  lemma FrameGives(data: seq<Byte>, offset: nat, length: nat)
    requires offset + length <= |data| && Frame(data, offset, length).Success?
    ensures length >= 7 && Contains(data[offset + length..], SCAN_START) && Contains(data[offset + length..], END)
    ensures Frame(data, offset, length).value == (BigEndian(data[offset + 5..offset + 7]), BigEndian(data[offset + 3..offset + 5]))
  {
    hide BigEndian, Contains;
  }

  lemma OneGives(bytes: seq<Byte>, frame: Piece, rest: seq<Byte>, size: Size)
    requires Marked(frame) && IsFrame(frame.marker) && Measured(frame.body) && |frame.body| >= 7
    requires Contains(rest, SCAN_START) && Contains(rest, END)
    requires size == (BigEndian(frame.body[5..7]), BigEndian(frame.body[3..5]))
    requires bytes == PieceBytes(frame) + rest
    ensures Gives(bytes, [], frame, rest, size)
  {
    hide BigEndian, Contains, PieceBytes;
    assert PiecesBytes([]) + bytes == bytes;
  }

  lemma OneMoreGives(bytes: seq<Byte>, p: Piece, more: seq<Byte>, ps: seq<Piece>, frame: Piece, rest: seq<Byte>, size: Size)
    requires Passed(p) && bytes == PieceBytes(p) + more && Gives(more, ps, frame, rest, size)
    ensures Gives(bytes, [p] + ps, frame, rest, size)
  {
    hide BigEndian, Contains, PieceBytes;
    assert ([p] + ps)[1..] == ps;
    var tail := PieceBytes(frame) + rest;
    assert PieceBytes(p) + (PiecesBytes(ps) + tail) == PieceBytes(p) + PiecesBytes(ps) + tail;
  }

  /** _jpeg_info: dimensions are returned exactly when markers and measured segments lead to a frame, and scan and end markers follow it. */
  method JpegInfo(data: seq<Byte>) returns (r: Result<Option<Size>, BitmapFault>)
    ensures r == Success(None) <==> !(START <= data)
    ensures forall size :: r == Success(Some(size)) <==>
                             START <= data && exists ps, frame, rest :: Gives(data[2..], ps, frame, rest, size)
    ensures START <= data && r.Failure? ==> Scan(data, 2) == Failure(r.error)
  {
    hide Gives, Scan;
    if !(START <= data) {
      return Success(None);
    }
    forall ps, frame, rest, size | Gives(data[2..], ps, frame, rest, size) {
      ScanOfGiven(data, 2, ps, frame, rest, size);
    }
    var found := Search(data);
    if found.Failure? {
      return Failure(found.error);
    }
    ghost var ps, frame, rest := GivenOfScan(data, 2);
    return Success(Some(found.value));
  }

  /** The two inner loops: past other bytes, then past 0xFF. */
  method NextMarker(data: seq<Byte>, start: nat) returns (offset: nat)
    requires start <= |data|
    ensures offset == MarkerAt(data, start)
  {
    offset := start;
    while offset < |data| && data[offset] != MARK
      invariant start <= offset <= |data|
      invariant FirstMark(data, offset) == FirstMark(data, start)
    {
      offset := offset + 1;
    }
    ghost var first := offset;
    while offset < |data| && data[offset] == MARK
      invariant first <= offset <= |data|
      invariant AfterMarks(data, offset) == AfterMarks(data, first)
    {
      offset := offset + 1;
    }
  }

  method Search(data: seq<Byte>) returns (r: Result<Size, BitmapFault>)
    requires |data| >= 2
    ensures r == Scan(data, 2)
  {
    hide BigEndian, Frame, Contains, MarkerAt;
    var offset := 2;
    while offset < |data|
      invariant 2 <= offset <= |data|
      invariant Scan(data, offset) == Scan(data, 2)
    {
      offset := NextMarker(data, offset);
      if offset >= |data| {
        break;
      }
      var marker := data[offset];
      offset := offset + 1;
      if IsAlone(marker) {
        continue;
      }
      if IsStop(marker) || offset + 2 > |data| {
        return Failure(DimensionsMissing);
      }
      var length := BigEndian(data[offset..offset + 2]);
      if length < 2 || offset + length > |data| {
        return Failure(StructureInvalid);
      }
      if IsFrame(marker) {
        return Frame(data, offset, length);
      }
      offset := offset + length;
    }
    return Failure(DimensionsMissing);
  }
}
