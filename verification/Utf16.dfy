/** The surrogate scan of canonical JSON against the UTF-16 encoding form (section 3.2.2.2 of RFC 8785). */
module Utf16 {
  import opened Wrappers
  import opened JsText
  import opened JsonString

  /** A Unicode scalar value: a code point that is no surrogate. */
  type Scalar = c: int | 0 <= c < 0xD800 || 0xE000 <= c <= 0x10FFFF

  function EncodeScalar(c: Scalar): Text {
    if c < 0x1_0000 then [c]
    else [0xD800 + (c - 0x1_0000) / 0x400, 0xDC00 + (c - 0x1_0000) % 0x400]
  }

  function Encode(scalars: seq<Scalar>): Text {
    if scalars == [] then [] else EncodeScalar(scalars[0]) + Encode(scalars[1..])
  }

  ghost predicate IsEncoding(t: Text) {
    exists scalars :: Encode(scalars) == t
  }

  /** The longest part of s, from its start, that is an encoding. */
  ghost predicate LongestEncoding(s: Text, n: nat) {
    n <= |s| && IsEncoding(s[..n]) && forall m: nat :: n < m <= |s| ==> !IsEncoding(s[..m])
  }

  /** The offset of the first lone surrogate, if there is one. */
  function FirstLone(s: Text, offset: nat): Option<nat>
    requires offset <= |s|
    decreases |s| - offset
  {
    if offset == |s| then None
    else if IsHighSurrogate(s[offset]) then
      if offset + 1 == |s| || !IsLowSurrogate(s[offset + 1]) then Some(offset) else FirstLone(s, offset + 2)
    else if IsLowSurrogate(s[offset]) then Some(offset)
    else FirstLone(s, offset + 1)
  }

  predicate ScalarString(s: Text) {
    FirstLone(s, 0).None?
  }

  /** assertUnicodeScalarString; the failure carries the source's string_offset. */
  method AssertUnicodeScalarString(value: Text) returns (fault: Option<nat>)
    ensures fault == FirstLone(value, 0)
    ensures fault.None? <==> IsEncoding(value)
    ensures fault.Some? ==> fault.value < |value| && LongestEncoding(value, fault.value)
  {
    ScanIsEncoding(value);
    FaultAfterLongestEncoding(value);
    var index := 0;
    while index < |value|
      invariant 0 <= index <= |value|
      invariant FirstLone(value, 0) == FirstLone(value, index)
    {
      var unit := value[index];
      if 0xD800 <= unit <= 0xDBFF {
        if index + 1 >= |value| || value[index + 1] < 0xDC00 || value[index + 1] > 0xDFFF {
          return Some(index);
        }
        index := index + 2;
        continue;
      }
      if 0xDC00 <= unit <= 0xDFFF {
        return Some(index);
      }
      index := index + 1;
    }
    return None;
  }

  function DecodePair(high: Unit, low: Unit): Scalar
    requires IsHighSurrogate(high) && IsLowSurrogate(low)
  {
    0x1_0000 + (high - 0xD800) * 0x400 + (low - 0xDC00)
  }

  lemma DecodePairRoundTrip(high: Unit, low: Unit)
    requires IsHighSurrogate(high) && IsLowSurrogate(low)
    ensures EncodeScalar(DecodePair(high, low)) == [high, low]
  {
  }

  lemma {:induction false} ScanSuffix(s: Text, offset: nat)
    requires offset <= |s|
    ensures FirstLone(s, offset).None? <==> ScalarString(s[offset..])
    decreases |s| - offset
  {
    if offset < |s| {
      var t := s[offset..];
      assert t[0] == s[offset];
      if IsHighSurrogate(s[offset]) {
        if offset + 1 < |s| && IsLowSurrogate(s[offset + 1]) {
          assert t[1] == s[offset + 1] && t[2..] == s[offset + 2..];
          ScanSuffix(s, offset + 2);
          ScanSuffix(t, 2);
        }
      } else if !IsLowSurrogate(s[offset]) {
        assert t[1..] == s[offset + 1..];
        ScanSuffix(s, offset + 1);
        ScanSuffix(t, 1);
      }
    }
  }

  lemma {:induction false} EncodingIsAccepted(scalars: seq<Scalar>)
    ensures ScalarString(Encode(scalars))
  {
    if scalars != [] {
      var t := Encode(scalars);
      EncodingIsAccepted(scalars[1..]);
      var n := |EncodeScalar(scalars[0])|;
      assert t[n..] == Encode(scalars[1..]);
      ScanSuffix(t, n);
    }
  }

  lemma {:induction false} AcceptedIsEncoding(s: Text) returns (scalars: seq<Scalar>)
    requires ScalarString(s)
    ensures Encode(scalars) == s
    decreases |s|
  {
    if s == [] {
      scalars := [];
    } else if IsHighSurrogate(s[0]) {
      ScanSuffix(s, 2);
      var rest := AcceptedIsEncoding(s[2..]);
      DecodePairRoundTrip(s[0], s[1]);
      scalars := [DecodePair(s[0], s[1])] + rest;
      assert scalars[1..] == rest;
      assert s == [s[0], s[1]] + s[2..];
    } else {
      ScanSuffix(s, 1);
      var rest := AcceptedIsEncoding(s[1..]);
      scalars := [s[0]] + rest;
      assert scalars[1..] == rest;
      assert s == [s[0]] + s[1..];
    }
  }

  /** The scan accepts exactly the encodings of sequences of scalar values. */
  lemma ScanIsEncoding(s: Text)
    ensures ScalarString(s) <==> IsEncoding(s)
  {
    if ScalarString(s) {
      var scalars := AcceptedIsEncoding(s);
    }
    forall scalars | Encode(scalars) == s
      ensures ScalarString(s)
    {
      EncodingIsAccepted(scalars);
    }
  }

  /** What stands before the reported offset is well formed. */
  lemma {:induction false} FaultAfterEncoding(s: Text, offset: nat)
    requires offset <= |s| && ScalarString(s[..offset])
    ensures var f := FirstLone(s, offset);
            f.Some? ==> offset <= f.value < |s| && IsEncoding(s[..f.value])
    decreases |s| - offset
  {
    ScanIsEncoding(s[..offset]);
    if offset < |s| {
      if IsHighSurrogate(s[offset]) {
        if offset + 1 < |s| && IsLowSurrogate(s[offset + 1]) {
          ExtendScan(s[..offset], [s[offset], s[offset + 1]]);
          assert s[..offset] + [s[offset], s[offset + 1]] == s[..offset + 2];
          FaultAfterEncoding(s, offset + 2);
        }
      } else if !IsLowSurrogate(s[offset]) {
        ExtendScan(s[..offset], [s[offset]]);
        assert s[..offset] + [s[offset]] == s[..offset + 1];
        FaultAfterEncoding(s, offset + 1);
      }
    }
  }

  /** Whatever follows it, a fault stays where it is. */
  lemma {:induction false} FaultStays(s: Text, offset: nat, n: nat)
    requires offset <= n <= |s| && FirstLone(s, offset).Some? && FirstLone(s, offset).value < n
    ensures FirstLone(s[..n], offset) == FirstLone(s, offset)
    decreases |s| - offset
  {
    if IsHighSurrogate(s[offset]) {
      if offset + 1 < |s| && IsLowSurrogate(s[offset + 1]) {
        FaultBounds(s, offset + 2);
        FaultStays(s, offset + 2, n);
      }
    } else if !IsLowSurrogate(s[offset]) {
      FaultBounds(s, offset + 1);
      FaultStays(s, offset + 1, n);
    }
  }

  lemma {:induction false} FaultBounds(s: Text, offset: nat)
    requires offset <= |s| && FirstLone(s, offset).Some?
    ensures offset <= FirstLone(s, offset).value < |s|
    decreases |s| - offset
  {
    if IsHighSurrogate(s[offset]) {
      if offset + 1 < |s| && IsLowSurrogate(s[offset + 1]) {
        FaultBounds(s, offset + 2);
      }
    } else if !IsLowSurrogate(s[offset]) {
      FaultBounds(s, offset + 1);
    }
  }

  /** The reported offset: an encoding stands before it, and no longer one, as what starts there continues none. */
  lemma FaultAfterLongestEncoding(s: Text)
    ensures FirstLone(s, 0).Some? ==> LongestEncoding(s, FirstLone(s, 0).value)
  {
    if FirstLone(s, 0).Some? {
      var f := FirstLone(s, 0).value;
      FaultAfterEncoding(s, 0);
      forall m: nat | f < m <= |s|
        ensures !IsEncoding(s[..m])
      {
        FaultStays(s, 0, m);
        ScanIsEncoding(s[..m]);
      }
    }
  }

  lemma {:induction false} ExtendScan(a: Text, b: Text)
    requires ScalarString(a) && ScalarString(b)
    ensures ScalarString(a + b)
    decreases |a|
  {
    var t := a + b;
    if a == [] {
      assert t == b;
    } else if IsHighSurrogate(a[0]) {
      ScanSuffix(a, 2);
      ExtendScan(a[2..], b);
      assert t[2..] == a[2..] + b;
      ScanSuffix(t, 2);
    } else {
      ScanSuffix(a, 1);
      ExtendScan(a[1..], b);
      assert t[1..] == a[1..] + b;
      ScanSuffix(t, 1);
    }
  }
}
