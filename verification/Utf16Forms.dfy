/** UTF-16 by its units: which sequences are encodings, and what a pair stands for (section 3.9 of the Unicode Standard). */
module Utf16Forms {
  import opened JsText
  import opened JsonString
  import opened Utf16

  predicate High(c: Unit) {
    0xD800 <= c <= 0xDBFF
  }

  predicate Low(c: Unit) {
    0xDC00 <= c <= 0xDFFF
  }

  /** Unit i is no surrogate, or half of a pair with the unit after or before it. */
  predicate Fits(t: Text, i: nat)
    requires i < |t|
  {
    && (High(t[i]) ==> i + 1 < |t| && Low(t[i + 1]))
    && (Low(t[i]) ==> i > 0 && High(t[i - 1]))
  }

  ghost predicate Paired(t: Text) {
    forall i :: 0 <= i < |t| ==> Fits(t, i)
  }

  lemma PairedTail(s: Text, n: nat)
    requires 1 <= n <= |s| && n <= 2 && (n == 1 ==> !High(s[0]) && !Low(s[0])) && (n == 2 ==> High(s[0]) && Low(s[1]))
    ensures Paired(s) <==> Paired(s[n..])
  {
    var t := s[n..];
    forall i | 0 <= i < |t|
      ensures Paired(s) ==> Fits(t, i)
    {
      assert Fits(s, i + n) ==> Fits(t, i);
    }
    if Paired(t) {
      forall i | 0 <= i < |s|
        ensures Fits(s, i)
      {
        if i >= n {
          assert Fits(t, i - n);
        }
      }
    }
  }

  lemma {:induction false} ScanIsPaired(s: Text)
    ensures ScalarString(s) <==> Paired(s)
    decreases |s|
  {
    if s != [] {
      if High(s[0]) {
        if |s| >= 2 && Low(s[1]) {
          ScanSuffix(s, 2);
          ScanIsPaired(s[2..]);
          PairedTail(s, 2);
        } else {
          assert !Fits(s, 0);
        }
      } else if Low(s[0]) {
        assert !Fits(s, 0);
      } else {
        ScanSuffix(s, 1);
        ScanIsPaired(s[1..]);
        PairedTail(s, 1);
      }
    }
  }

  /** A sequence of units is an encoding if and only if every surrogate in it is half of a pair. */
  lemma EncodingExactly(s: Text)
    ensures IsEncoding(s) <==> Paired(s)
  {
    ScanIsEncoding(s);
    ScanIsPaired(s);
  }

  /** A pair stands for 0x10000 and ten bits of each half, the high half's above the low half's. */
  lemma PairStandsFor(c: Scalar)
    ensures c < 0x1_0000 ==> EncodeScalar(c) == [c]
    ensures c >= 0x1_0000 ==>
              exists high, low :: EncodeScalar(c) == [high, low] && High(high) && Low(low) && c == 0x1_0000 + 0x400 * (high - 0xD800) + (low - 0xDC00)
    ensures EncodeScalar(0x1F600) == [0xD83D, 0xDE00]
  {
    if c >= 0x1_0000 {
      var high: Unit, low: Unit := 0xD800 + (c - 0x1_0000) / 0x400, 0xDC00 + (c - 0x1_0000) % 0x400;
      assert EncodeScalar(c) == [high, low];
    }
  }

  lemma EncodeConcat(c: Scalar, rest: seq<Scalar>)
    ensures Encode([]) == [] && Encode([c] + rest) == EncodeScalar(c) + Encode(rest)
  {
    assert ([c] + rest)[1..] == rest;
  }
}
