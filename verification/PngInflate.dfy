/** The inflate check of a PNG: a decoder that is fed piece by piece, under a budget of output bytes. */
module PngInflate {
  import opened Wrappers
  import opened Bitmap
  import opened Bytes
  import opened PngWalk

  const PNG_DECOMPRESS_CHUNK_BYTES := 1024 * 1024

  /** What one more input byte does to the state S of a decoder. */
  datatype Step<S> = Fault | More(state: S, output: nat) | Last

  type Decoder<!S> = (S, Byte) -> Step<S>

  /** A run over some input: it broke, is still open, or ended with some input left over. */
  datatype Run<S> = Broken | Open(state: S, output: nat) | Ended(output: nat, unread: nat)

  function Produced<S>(r: Run<S>): nat {
    if r.Broken? then 0 else r.output
  }

  function After<S>(produced: nat, r: Run<S>): Run<S> {
    match r
    case Broken => Broken
    case Open(s, n) => Open(s, produced + n)
    case Ended(n, unread) => Ended(produced + n, unread)
  }

  function Decode<S>(step: Decoder<S>, s: S, input: seq<Byte>): Run<S> {
    if input == [] then Open(s, 0)
    else
      match step(s, input[0])
      case Fault => Broken
      case Last => Ended(0, |input| - 1)
      case More(next, output) => After(output, Decode(step, next, input[1..]))
  }

  /** A run goes on where it stopped. */
  function Continued<S>(step: Decoder<S>, r: Run<S>, more: seq<Byte>): Run<S> {
    match r
    case Broken => Broken
    case Open(s, n) => After(n, Decode(step, s, more))
    case Ended(n, unread) => Ended(n, unread + |more|)
  }

  lemma {:induction false} DecodeAppend<S>(step: Decoder<S>, s: S, a: seq<Byte>, b: seq<Byte>)
    ensures Decode(step, s, a + b) == Continued(step, Decode(step, s, a), b)
  {
    if a == [] {
      assert a + b == b;
    } else {
      assert (a + b)[1..] == a[1..] + b;
      match step(s, a[0])
      case More(next, _) => DecodeAppend(step, next, a[1..], b);
      case _ =>
    }
  }

  /** One byte further along an open run. */
  lemma DecodeNext<S>(step: Decoder<S>, s: S, input: seq<Byte>, k: nat)
    requires k < |input| && Decode(step, s, input[..k]).Open?
    ensures var r := Decode(step, s, input[..k]);
            var next := step(r.state, input[k]);
            && (next.Fault? ==> Decode(step, s, input).Broken?)
            && (next.Last? ==> Decode(step, s, input) == Ended(r.output, |input| - k - 1))
            && (next.More? ==> Decode(step, s, input[..k + 1]) == Open(next.state, r.output + next.output))
  {
    var r := Decode(step, s, input[..k]);
    var rest := input[k..];
    assert input == input[..k] + rest;
    DecodeAppend(step, s, input[..k], rest);
    assert input[..k + 1] == input[..k] + [input[k]];
    DecodeAppend(step, s, input[..k], [input[k]]);
    assert [input[k]][1..] == [];
    assert Decode(step, r.state, [input[k]]) == OneByte(step(r.state, input[k]));
  }

  function OneByte<S>(next: Step<S>): Run<S> {
    match next
    case Fault => Broken
    case Last => Ended(0, 0)
    case More(s, output) => Open(s, output)
  }

  function Flat(payloads: seq<seq<Byte>>): seq<Byte> {
    if payloads == [] then [] else payloads[0] + Flat(payloads[1..])
  }

  lemma ConcatAssociative3(a: seq<Byte>, b: seq<Byte>, c: seq<Byte>, d: seq<Byte>)
    ensures a + (b + c) == a + b + c && a + (b + c + d) == a + b + c + d
  {
  }

  lemma {:induction false} FlatSplit(payloads: seq<seq<Byte>>, i: nat)
    requires i < |payloads|
    ensures Flat(payloads[..i + 1]) == Flat(payloads[..i]) + payloads[i]
    ensures Flat(payloads) == Flat(payloads[..i]) + payloads[i] + Flat(payloads[i + 1..])
  {
    if i == 0 {
      assert payloads[..1] == [payloads[0]] && payloads[..1][1..] == [] && payloads[..0] == [];
    } else {
      FlatSplit(payloads[1..], i - 1);
      var head, rest := payloads[0], payloads[1..];
      ConcatAssociative3(head, Flat(rest[..i - 1]), rest[i - 1], Flat(rest[i..]));
      assert payloads[..i + 1][1..] == payloads[1..][..i] && payloads[..i][1..] == payloads[1..][..i - 1];
      assert payloads[1..][i..] == payloads[i + 1..];
    }
  }

  // ---------- zlib.decompressobj() ----------

  /**
    Delivers at most the requested number of output bytes per call. It may read ahead of what it
    delivers as far as it likes, but it reads the last byte of the stream only when nothing it
    decoded is left to deliver.
    */
  class Decompressor<S> {
    const step: Decoder<S>
    var state: S
    var buffered: nat
    var eof: bool
    var unconsumedTail: seq<Byte>
    var unusedData: seq<Byte>

    constructor (step: Decoder<S>, s: S)
      ensures this.step == step && state == s && buffered == 0 && !eof && unusedData == []
    {
      this.step := step;
      state, buffered, eof := s, 0, false;
      unconsumedTail, unusedData := [], [];
    }

    /** len of what decompress(input, limit) returns; Failure is zlib.error. */
    method Decompress(input: seq<Byte>, limit: nat) returns (r: Result<nat, ()>)
      requires limit > 0 && (eof ==> buffered == 0)
      modifies this
      ensures r.Success? ==> |unconsumedTail| <= |input| && Delivered(old(state), old(eof), old(buffered), old(unusedData), input, limit, r.value)
      ensures r.Failure? ==> !old(eof) && Decode(step, old(state), input).Broken?
    {
      if eof {
        unusedData, unconsumedTail := unusedData + input, [];
        return Success(0);
      }
      ghost var s0, b0 := state, buffered;
      var eaten := 0;
      assert Decode(step, s0, input[..0]) == Open(state, 0);
      var n := if buffered < limit then buffered else limit;
      buffered := buffered - n;
      var waiting := false;
      while eaten < |input| && !waiting
        invariant 0 <= eaten <= |input| && n <= limit && !eof && (n < limit ==> buffered == 0)
        invariant Decode(step, s0, input[..eaten]).Open? && Decode(step, s0, input[..eaten]).state == state
        invariant n + buffered == b0 + Decode(step, s0, input[..eaten]).output
        invariant waiting ==> n == limit
        invariant unusedData == old(unusedData)
        decreases |input| - eaten, !waiting
      {
        var full: bool := *;
        var next := step(state, input[eaten]);
        if n == limit && (full || (next.Last? && buffered > 0)) {
          waiting := true;
        } else {
          DecodeNext(step, s0, input, eaten);
          match next {
            case Fault =>
              return Failure(());
            case Last =>
              eof := true;
              unusedData, unconsumedTail := input[eaten + 1..], [];
              return Success(n);
            case More(s, output) =>
              state := s;
              var room := limit - n;
              var now := if output < room then output else room;
              n := n + now;
              buffered := buffered + output - now;
          }
          eaten := eaten + 1;
        }
      }
      unconsumedTail := input[eaten..];
      assert input[..eaten] == input[..|input| - |unconsumedTail|];
      return Success(n);
    }

    /** What one call has done, n being the number of bytes it returned. */
    ghost predicate Delivered(s0: S, eof0: bool, b0: nat, unused0: seq<Byte>, input: seq<Byte>, limit: nat, n: nat)
      requires |unconsumedTail| <= |input|
      reads this
    {
      && n <= limit
      && (eof0 ==> eof && n == 0 && buffered == 0 && unconsumedTail == [] && unusedData == unused0 + input)
      && (!eof0 && eof ==>
            buffered == 0 && unconsumedTail == []
            && Decode(step, s0, input).Ended? && Decode(step, s0, input) == Ended(Produced(Decode(step, s0, input)), |unusedData|)
            && n == b0 + Produced(Decode(step, s0, input)))
      && (!eof ==>
            !eof0 && unusedData == unused0
            && var eaten := input[..|input| - |unconsumedTail|];
            && unconsumedTail == input[|eaten|..]
            && Decode(step, s0, eaten).Open? && Decode(step, s0, eaten).state == state
            && n + buffered == b0 + Decode(step, s0, eaten).output
            && (n < limit ==> buffered == 0 && unconsumedTail == []))
    }
  }

  // ---------- the check ----------

  /** The decompressor has read exactly these bytes of the stream, and decoded bytes were returned. */
  ghost predicate Fed<S>(d: Decompressor<S>, init: S, eaten: seq<Byte>, decoded: nat)
    reads d
  {
    && (!d.eof ==> d.unusedData == [] && Decode(d.step, init, eaten) == Open(d.state, decoded + d.buffered))
    && (d.eof ==> d.buffered == 0 && Decode(d.step, init, eaten) == Ended(decoded, |d.unusedData|))
  }

  /** The stream is whole: it ends with its last byte. */
  predicate Whole<S>(r: Run<S>) {
    r.Ended? && r.unread == 0
  }

  method Feed<S>(d: Decompressor<S>, ghost init: S, ghost eaten: seq<Byte>, decoded: nat, pending: seq<Byte>, limit: nat)
    returns (r: Result<nat, BitmapFault>)
    requires Fed(d, init, eaten, decoded) && limit > 0
    modifies d
    ensures r.Success? ==>
              && r.value <= limit && |d.unconsumedTail| <= |pending|
              && d.unconsumedTail == pending[|pending| - |d.unconsumedTail|..]
              && Fed(d, init, eaten + pending[..|pending| - |d.unconsumedTail|], decoded + r.value)
              && (r.value < limit ==> d.buffered == 0 && d.unconsumedTail == [])
    ensures r.Failure? ==> r.error == StructureInvalid && Decode(d.step, init, eaten + pending).Broken?
  {
    ghost var s0, eof0, unused0 := d.state, d.eof, d.unusedData;
    var call := d.Decompress(pending, limit);
    DecodeAppend(d.step, init, eaten, pending);
    if call.Failure? {
      return Failure(StructureInvalid);
    }
    DecodeAppend(d.step, init, eaten, pending[..|pending| - |d.unconsumedTail|]);
    assert pending[..|pending|] == pending;
    return Success(call.value);
  }

  /** What is left over when output is counted in chunks. */
  function Residue(n: nat): nat {
    n % PNG_DECOMPRESS_CHUNK_BYTES
  }

  lemma ResidueKept(n: nat)
    ensures Residue(n + PNG_DECOMPRESS_CHUNK_BYTES) == Residue(n)
  {
  }

  /**
    One payload, in as many calls as its output needs. A call that leaves something to read or to
    deliver has returned a whole chunk, so the count keeps its residue until a call empties both.
    */
  method FeedPayload<S>(d: Decompressor<S>, ghost init: S, ghost eaten: seq<Byte>, before: nat, payload: seq<Byte>, max: nat, ghost residues: set<nat>)
    returns (r: Result<nat, BitmapFault>)
    requires Fed(d, init, eaten, before) && before <= max
    requires payload != [] ==> Residue(before) in residues
    modifies d
    ensures r.Success? ==>
              && Fed(d, init, eaten + payload, r.value) && r.value <= max
              && (payload == [] ==> d.buffered == old(d.buffered) && r.value == before)
              && (payload != [] ==> (d.buffered == 0 || Residue(r.value) in residues) && before < max)
              && (max < PNG_DECOMPRESS_CHUNK_BYTES && old(d.buffered) == 0 ==> d.buffered == 0)
    ensures r.Failure? ==> Refused(d.step, init, eaten, payload, max, r.error) && RefusedAt(d.step, init, eaten, payload, max, residues, r.error)
  {
    hide Decode, Fed, Refused, RefusedAt, Residue;
    var decoded, pending := before, payload;
    ghost var small := max < PNG_DECOMPRESS_CHUNK_BYTES && d.buffered == 0;
    ghost var k := 0;
    assert eaten + payload[..0] == eaten;
    while pending != []
      invariant 0 <= k <= |payload| && pending == payload[k..] && before <= decoded <= max
      invariant Fed(d, init, eaten + payload[..k], decoded)
      invariant payload == [] ==> d.buffered == old(d.buffered) && decoded == before
      invariant payload != [] && pending == [] ==> before < max
      invariant payload != [] ==> Residue(decoded) in residues || (pending == [] && d.buffered == 0)
      invariant small ==> d.buffered == 0
      decreases max - decoded, |pending|
    {
      var remaining := max - decoded;
      if remaining <= 0 {
        FullAt(d, init, eaten, payload, k, decoded, max, residues);
        return Failure(DecodedSizeExceeded);
      }
      var limit := if remaining + 1 < PNG_DECOMPRESS_CHUNK_BYTES then remaining + 1 else PNG_DECOMPRESS_CHUNK_BYTES;
      var call := FeedFrom(d, init, eaten, payload, k, decoded, pending, limit);
      if call.Failure? {
        BrokenRefusal(d.step, init, eaten, payload, max, residues);
        return Failure(call.error);
      }
      ResidueKept(decoded);
      decoded := decoded + call.value;
      k := |payload| - |d.unconsumedTail|;
      if decoded > max {
        FullAt(d, init, eaten, payload, k, decoded, max, residues);
        return Failure(DecodedSizeExceeded);
      }
      pending := d.unconsumedTail;
    }
    assert payload[..k] == payload;
    return Success(decoded);
  }

  /** One call on what is left of a payload from k on. */
  method FeedFrom<S>(
    d: Decompressor<S>, ghost init: S, ghost eaten: seq<Byte>, ghost payload: seq<Byte>, ghost k: nat, decoded: nat, pending: seq<Byte>, limit: nat)
    returns (r: Result<nat, BitmapFault>)
    requires k <= |payload| && pending == payload[k..] && Fed(d, init, eaten + payload[..k], decoded) && limit > 0
    modifies d
    ensures r.Success? ==>
              && r.value <= limit && |d.unconsumedTail| <= |pending|
              && d.unconsumedTail == payload[|payload| - |d.unconsumedTail|..]
              && Fed(d, init, eaten + payload[..|payload| - |d.unconsumedTail|], decoded + r.value)
              && (r.value < limit ==> d.buffered == 0 && d.unconsumedTail == [])
    ensures r.Failure? ==> r.error == StructureInvalid && Decode(d.step, init, eaten + payload).Broken?
  {
    hide Decode, Fed;
    r := Feed(d, init, eaten + payload[..k], decoded, pending, limit);
    assert eaten + payload[..k] + pending == eaten + payload;
    if r.Success? {
      ghost var n := |pending| - |d.unconsumedTail|;
      assert pending[..n] == payload[k..k + n];
      assert eaten + payload[..k] + pending[..n] == eaten + payload[..k + n];
      assert pending[n..] == payload[k + n..];
    }
  }

  /** The budget is used up where the payload has been read up to k, with more to come, or has been passed. */
  lemma FullAt<S>(d: Decompressor<S>, init: S, eaten: seq<Byte>, payload: seq<Byte>, k: nat, decoded: nat, max: nat, residues: set<nat>)
    requires k <= |payload| && Fed(d, init, eaten + payload[..k], decoded) && max <= decoded
    ensures Refused(d.step, init, eaten, payload, max, DecodedSizeExceeded)
    ensures max < decoded || (payload != [] && Residue(max) in residues) ==> RefusedAt(d.step, init, eaten, payload, max, residues, DecodedSizeExceeded)
  {
    hide Decode;
    assert Produced(Decode(d.step, init, eaten + payload[..k])) >= decoded;
  }

  lemma BrokenRefusal<S>(step: Decoder<S>, init: S, eaten: seq<Byte>, payload: seq<Byte>, max: nat, residues: set<nat>)
    requires Decode(step, init, eaten + payload).Broken?
    ensures Refused(step, init, eaten, payload, max, StructureInvalid) && RefusedAt(step, init, eaten, payload, max, residues, StructureInvalid)
  {
    hide Decode;
  }

  /** Every refusal while a payload is read has its reason in the stream read so far. */
  ghost predicate Refused<S>(step: Decoder<S>, init: S, eaten: seq<Byte>, payload: seq<Byte>, max: nat, fault: BitmapFault) {
    || (fault == StructureInvalid && Decode(step, init, eaten + payload).Broken?)
    || (fault == DecodedSizeExceeded && exists k: nat :: k <= |payload| && Produced(Decode(step, init, eaten + payload[..k])) >= max)
  }

  /** A refusal for size: above the budget, or at it with its residue among those given. */
  ghost predicate RefusedAt<S>(
    step: Decoder<S>, init: S, eaten: seq<Byte>, payload: seq<Byte>, max: nat, residues: set<nat>, fault: BitmapFault)
  {
    fault == DecodedSizeExceeded ==>
      || (payload != [] && Residue(max) in residues)
      || exists k: nat :: k <= |payload| && Produced(Decode(step, init, eaten + payload[..k])) > max
  }

  /** More input never takes produced bytes back, unless the stream breaks. */
  lemma ProducedGrows<S>(step: Decoder<S>, s: S, a: seq<Byte>, b: seq<Byte>)
    requires !Decode(step, s, a + b).Broken?
    ensures Produced(Decode(step, s, a)) <= Produced(Decode(step, s, a + b))
  {
    DecodeAppend(step, s, a, b);
    hide Decode;
  }

  /** The stream as a whole, cut into IDAT payloads. */
  function StreamRun<S>(step: Decoder<S>, init: S, payloads: seq<seq<Byte>>): Run<S> {
    Decode(step, init, Flat(payloads))
  }

  /** Every payload that is not empty starts before the budget is used up. */
  ghost predicate StartsBelow<S>(step: Decoder<S>, init: S, payloads: seq<seq<Byte>>, max: nat) {
    forall i: nat :: i < |payloads| && payloads[i] != [] ==> Produced(StreamRun(step, init, payloads[..i])) < max
  }

  /** The counts, modulo a chunk, at which the payloads that are not empty start. */
  ghost function Residues<S>(step: Decoder<S>, init: S, payloads: seq<seq<Byte>>): set<nat> {
    set i: nat | i < |payloads| && payloads[i] != [] :: Residue(Produced(StreamRun(step, init, payloads[..i])))
  }

  /** Some payload starts a whole number of chunks away from the budget. */
  ghost predicate StartsChunksFrom<S>(step: Decoder<S>, init: S, payloads: seq<seq<Byte>>, max: nat) {
    Residue(max) in Residues(step, init, payloads)
  }

  lemma ResiduesGrow<S>(step: Decoder<S>, init: S, payloads: seq<seq<Byte>>, i: nat)
    requires i < |payloads|
    ensures Residues(step, init, payloads[..i]) <= Residues(step, init, payloads[..i + 1]) <= Residues(step, init, payloads)
    ensures payloads[i] != [] ==> Residue(Produced(StreamRun(step, init, payloads[..i]))) in Residues(step, init, payloads[..i + 1])
    ensures payloads[i] == [] ==> Residues(step, init, payloads[..i + 1]) == Residues(step, init, payloads[..i])
  {
    hide StreamRun, Residue;
    forall j: nat | j < i
      ensures payloads[..i][..j] == payloads[..i + 1][..j] == payloads[..j] && payloads[..i][j] == payloads[..i + 1][j]
    {
    }
    assert payloads[..i + 1][..i] == payloads[..i];
    forall j: nat | j < i + 1
      ensures payloads[..i + 1][..j] == payloads[..j]
    {
    }
  }

  /** Under a budget below one chunk a residue is the count itself. */
  lemma SmallBudget<S>(step: Decoder<S>, init: S, payloads: seq<seq<Byte>>, max: nat)
    requires max < PNG_DECOMPRESS_CHUNK_BYTES && StartsBelow(step, init, payloads, max)
    ensures !StartsChunksFrom(step, init, payloads, max)
  {
    hide StreamRun;
    forall i: nat | i < |payloads| && payloads[i] != []
      ensures Residue(Produced(StreamRun(step, init, payloads[..i]))) != Residue(max)
    {
      assert Produced(StreamRun(step, init, payloads[..i])) < max;
    }
  }

  /** While a whole stream is read no more is produced than it decodes to. */
  lemma ProducedWithin<S>(step: Decoder<S>, init: S, payloads: seq<seq<Byte>>, i: nat, k: nat)
    requires i < |payloads| && k <= |payloads[i]| && Whole(StreamRun(step, init, payloads))
    ensures Produced(Decode(step, init, Flat(payloads[..i]) + payloads[i][..k])) <= StreamRun(step, init, payloads).output
  {
    var eaten, payload, rest := Flat(payloads[..i]), payloads[i], Flat(payloads[i + 1..]);
    FlatSplit(payloads, i);
    assert eaten + payload + rest == (eaten + payload[..k]) + (payload[k..] + rest);
    hide Decode, Flat;
    ProducedGrows(step, init, eaten + payload[..k], payload[k..] + rest);
  }

  lemma WholeIsUnbroken<S>(step: Decoder<S>, init: S, payloads: seq<seq<Byte>>, i: nat)
    requires i < |payloads| && Whole(StreamRun(step, init, payloads))
    ensures !Decode(step, init, Flat(payloads[..i]) + payloads[i]).Broken?
  {
    FlatSplit(payloads, i);
    DecodeAppend(step, init, Flat(payloads[..i]) + payloads[i], Flat(payloads[i + 1..]));
    hide Decode, Flat;
  }

  lemma RefusedExactly<S>(step: Decoder<S>, init: S, payloads: seq<seq<Byte>>, i: nat, max: nat, fault: BitmapFault)
    requires i < |payloads| && Refused(step, init, Flat(payloads[..i]), payloads[i], max, fault)
    ensures Whole(StreamRun(step, init, payloads)) ==> fault == DecodedSizeExceeded && max <= StreamRun(step, init, payloads).output
    ensures RefusedAt(step, init, Flat(payloads[..i]), payloads[i], max, Residues(step, init, payloads[..i + 1]), fault) ==>
              !(Whole(StreamRun(step, init, payloads)) && StreamRun(step, init, payloads).output <= max)
              || StartsChunksFrom(step, init, payloads, max)
  {
    hide Decode, Flat, Residues, StreamRun;
    if Whole(StreamRun(step, init, payloads)) {
      WholeIsUnbroken(step, init, payloads, i);
      ResiduesGrow(step, init, payloads, i);
      forall k: nat | k <= |payloads[i]| {
        ProducedWithin(step, init, payloads, i, k);
      }
    }
  }

  /**
    _validate_png_idat_stream. It never ends normally above its budget; below the budget only the
    joined stream counts, however it is cut into payloads. At the budget, too, unless some payload
    starts a whole number of chunks away from it; for a budget under one chunk that means that it
    starts with the budget used up, and it is refused.
    */
  method ValidateIdatStream<S>(step: Decoder<S>, init: S, payloads: seq<seq<Byte>>, max: nat) returns (r: Result<(), BitmapFault>)
    ensures r.Success? ==> Whole(StreamRun(step, init, payloads)) && StreamRun(step, init, payloads).output <= max
    ensures Whole(StreamRun(step, init, payloads)) && StreamRun(step, init, payloads).output < max ==> r.Success?
    ensures !StartsChunksFrom(step, init, payloads, max) ==>
              (r.Success? <==> Whole(StreamRun(step, init, payloads)) && StreamRun(step, init, payloads).output <= max)
    ensures max < PNG_DECOMPRESS_CHUNK_BYTES ==>
              (r.Success? <==>
                 && Whole(StreamRun(step, init, payloads)) && StreamRun(step, init, payloads).output <= max
                 && StartsBelow(step, init, payloads, max))
  {
    hide Decode, Flat, Refused, RefusedAt, Residues, Residue;
    if max < PNG_DECOMPRESS_CHUNK_BYTES && StartsBelow(step, init, payloads, max) {
      SmallBudget(step, init, payloads, max);
    }
    var d := new Decompressor(step, init);
    var decoded: nat, i := 0, 0;
    NothingFed(d, init, payloads);
    while i < |payloads|
      invariant 0 <= i <= |payloads| && d.step == step && decoded <= max
      invariant Fed(d, init, Flat(payloads[..i]), decoded)
      invariant d.buffered == 0 || Residue(decoded) in Residues(step, init, payloads[..i])
      invariant max < PNG_DECOMPRESS_CHUNK_BYTES ==> d.buffered == 0 && StartsBelow(step, init, payloads[..i], max)
    {
      FlatSplit(payloads, i);
      ResiduesGrow(step, init, payloads, i);
      ghost var eaten := Flat(payloads[..i]);
      var fed := FeedPayload(d, init, eaten, decoded, payloads[i], max, Residues(step, init, payloads[..i + 1]));
      if fed.Failure? {
        RefusedExactly(step, init, payloads, i, max, fed.error);
        return Failure(fed.error);
      }
      if max < PNG_DECOMPRESS_CHUNK_BYTES {
        StartsBelowOneMore(step, init, payloads, i, max);
      }
      decoded := fed.value;
      i := i + 1;
    }
    assert payloads[..i] == payloads;
    return if !d.eof || d.unusedData != [] then Failure(StructureInvalid) else Success(());
  }

  lemma NothingFed<S>(d: Decompressor<S>, init: S, payloads: seq<seq<Byte>>)
    requires d.state == init && d.buffered == 0 && !d.eof && d.unusedData == []
    ensures Fed(d, init, Flat(payloads[..0]), 0)
  {
  }

  lemma StartsBelowOneMore<S>(step: Decoder<S>, init: S, payloads: seq<seq<Byte>>, i: nat, max: nat)
    requires i < |payloads| && StartsBelow(step, init, payloads[..i], max)
    requires payloads[i] != [] ==> Produced(StreamRun(step, init, payloads[..i])) < max
    ensures StartsBelow(step, init, payloads[..i + 1], max)
  {
    forall j: nat | j < i + 1 && payloads[j] != []
      ensures Produced(StreamRun(step, init, payloads[..i + 1][..j])) < max
    {
      assert payloads[..i + 1][..j] == payloads[..j];
      if j < i {
        assert payloads[..i][..j] == payloads[..j] && payloads[..i][j] == payloads[j];
      }
    }
    hide StreamRun;
  }

  /** A stream of two bytes: the first decodes to one byte, the second ends the stream. */
  function OneThenEnd(started: bool, b: Byte): Step<bool> {
    if started then Last else More(true, 1)
  }

  /**
    The cut does matter: one whole stream that decodes to exactly the budget of one byte meets
    the condition for acceptance as a single payload, and misses it as two.
    */
  lemma CutMattersAtTheBudget()
    ensures var one, two := [[0, 0]], [[0], [0]];
            && Flat(one) == Flat(two)
            && Whole(StreamRun(OneThenEnd, false, one)) && StreamRun(OneThenEnd, false, one).output == 1
            && StartsBelow(OneThenEnd, false, one, 1) && !StartsBelow(OneThenEnd, false, two, 1)
  {
    var empty: seq<seq<Byte>>, none: seq<Byte> := [], [];
    var one: seq<seq<Byte>>, two: seq<seq<Byte>> := [[0, 0]], [[0], [0]];
    var b: seq<Byte>, bb: seq<Byte> := [0], [0, 0];
    assert Flat(empty) == none;
    assert one[1..] == empty && two[1..] == [b] && [b][1..] == empty;
    assert Flat(one) == bb + none == bb;
    assert Flat([b]) == b;
    assert Flat(two) == b + b == bb;
    assert bb[1..] == b && b[1..] == none;
    assert Decode(OneThenEnd, false, bb) == Ended(1, 0);
    assert one[..0] == empty && two[..1] == [b];
    assert Produced(StreamRun(OneThenEnd, false, two[..1])) == 1;
  }

  /** _png_info: the chunk walk, then the inflate check of what it found. */
  method PngInfo<S>(crc: Crc, step: Decoder<S>, init: S, data: seq<Byte>, max: nat) returns (r: Result<Option<Size>, BitmapFault>)
    ensures r == Success(None) <==> !(SIGNATURE <= data)
    ensures r.Success? && r.value.Some? ==>
              exists cs: seq<Chunk>, trailing: seq<Byte> ::
                && IsPng(crc, data, cs, trailing)
                && r.value == Some((BigEndian(cs[0].payload[..4]), BigEndian(cs[0].payload[4..8])))
                && Whole(StreamRun(step, init, Payloads(cs))) && StreamRun(step, init, Payloads(cs)).output <= max
    ensures forall cs: seq<Chunk>, trailing: seq<Byte> ::
              IsPng(crc, data, cs, trailing) && Whole(StreamRun(step, init, Payloads(cs))) && StreamRun(step, init, Payloads(cs)).output < max ==>
                r == Success(Some((BigEndian(cs[0].payload[..4]), BigEndian(cs[0].payload[4..8]))))
    ensures forall cs: seq<Chunk>, trailing: seq<Byte> ::
              IsPng(crc, data, cs, trailing) && !StartsChunksFrom(step, init, Payloads(cs), max) ==>
                (r.Success? <==> Whole(StreamRun(step, init, Payloads(cs))) && StreamRun(step, init, Payloads(cs)).output <= max)
    ensures forall cs: seq<Chunk>, trailing: seq<Byte> ::
              IsPng(crc, data, cs, trailing) && max < PNG_DECOMPRESS_CHUNK_BYTES ==>
                (r.Success? <==> Whole(StreamRun(step, init, Payloads(cs))) && StreamRun(step, init, Payloads(cs)).output <= max
                                 && StartsBelow(step, init, Payloads(cs), max))
  {
    hide StartsChunksFrom, StartsBelow, IsPng, Payloads, StreamRun, BigEndian;
    var walked := WalkPng(crc, data);
    if walked.Failure? {
      return Failure(walked.error);
    }
    if walked.value.None? {
      return Success(None);
    }
    var png := walked.value.value;
    var inflated := ValidateIdatStream(step, init, png.payloads, max);
    if inflated.Failure? {
      return Failure(inflated.error);
    }
    return Success(Some((png.width, png.height)));
  }
}