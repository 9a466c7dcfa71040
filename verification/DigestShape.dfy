/** The texts that skill digests are taken of, digit by digit and separator by separator. */
module DigestShape {
  import opened Wrappers
  import opened JsText
  import opened Bytes
  import opened StableSort
  import opened CanonicalReading
  import opened SkillDigest

  /** Three bytes are one number of 24 bits, and so are four digits of 6 bits, highest first. */
  lemma GroupOfThree(a: Byte, b: Byte, c: Byte) returns (p: nat, q: nat, r: nat, s: nat)
    ensures p < 64 && q < 64 && r < 64 && s < 64 && Group([a, b, c]) == [Digit(p), Digit(q), Digit(r), Digit(s)]
    ensures ((64 * p + q) * 64 + r) * 64 + s == (0x100 * a + b) * 0x100 + c
  {
    p, q, r, s := a / 4, a % 4 * 16 + b / 16, b % 16 * 4 + c / 64, c % 64;
    assert 64 * p + q == 16 * a + b / 16;
    assert 64 * r + s == 0x100 * (b % 16) + c;
  }

  /** A last group of one or two bytes is read as if zeros followed, and padded. */
  lemma LastGroups(a: Byte, b: Byte)
    ensures Group([a]) == Group([a, 0, 0])[..2] + Ascii("==")
    ensures Group([a, b]) == Group([a, b, 0])[..3] + Ascii("=")
  {
    assert Ascii("==") == [PAD, PAD] && Ascii("=") == [PAD];
  }

  lemma Short(bytes: seq<Byte>)
    requires 1 <= |bytes| <= 3
    ensures Base64(bytes) == Group(bytes)
  {
    hide Group;
  }

  /** Examples of RFC 4648, section 10. */
  lemma OneByte()
    ensures Base64([0x66]) == Ascii("Zg==")
  {
    Short([0x66]);
    assert Group([0x66]) == [0x5A, 0x67, 0x3D, 0x3D];
    hide Group, Base64;
  }

  lemma TwoBytes()
    ensures Base64([0x66, 0x6F]) == Ascii("Zm8=")
  {
    Short([0x66, 0x6F]);
    assert Group([0x66, 0x6F]) == [0x5A, 0x6D, 0x38, 0x3D];
    hide Group, Base64;
  }

  lemma MoreBytes(rest: seq<Byte>)
    ensures Base64([0x66, 0x6F, 0x6F] + rest) == Ascii("Zm9v") + Base64(rest)
  {
    Short([0x66, 0x6F, 0x6F]);
    assert Group([0x66, 0x6F, 0x6F]) == [0x5A, 0x6D, 0x39, 0x76];
    hide Group;
    var first: seq<Byte> := [0x66, 0x6F, 0x6F];
    if rest == [] {
      assert first + rest == first;
    } else {
      assert (first + rest)[..3] == first && (first + rest)[3..] == rest;
    }
  }

  /** One example for each range of digits that its section 4 names. */
  lemma Capitals()
    ensures Base64([0x00, 0x10, 0x83]) == Ascii("ABCD")
  {
    Short([0x00, 0x10, 0x83]);
    assert Group([0x00, 0x10, 0x83]) == [0x41, 0x42, 0x43, 0x44];
    hide Group, Base64;
  }

  lemma SmallLetters()
    ensures Base64([0x69, 0xB7, 0x1D]) == Ascii("abcd")
  {
    Short([0x69, 0xB7, 0x1D]);
    assert Group([0x69, 0xB7, 0x1D]) == [0x61, 0x62, 0x63, 0x64];
    hide Group, Base64;
  }

  lemma Figures()
    ensures Base64([0xD3, 0x5D, 0xB7]) == Ascii("0123")
  {
    Short([0xD3, 0x5D, 0xB7]);
    assert Group([0xD3, 0x5D, 0xB7]) == [0x30, 0x31, 0x32, 0x33];
    hide Group, Base64;
  }

  lemma LastDigits()
    ensures Base64([0xFB, 0xFF, 0xBF]) == Ascii("+/+/")
  {
    Short([0xFB, 0xFF, 0xBF]);
    assert Group([0xFB, 0xFF, 0xBF]) == [0x2B, 0x2F, 0x2B, 0x2F];
    hide Group, Base64;
  }

  /** The records of the files in ascending order of their paths, a NUL between them. */
  lemma PreImageShape(skillId: Text, files: seq<File>)
    ensures var sorted := Sort(Path, files);
            && KeysAscend(Path, sorted) && multiset(sorted) == multiset(files)
            && PreImage(skillId, files) == Join(Records(skillId, sorted), [0])
            && forall i :: 0 <= i < |sorted| ==>
                 Records(skillId, sorted)[i] == skillId + Ascii("/") + sorted[i].path + [0] + Base64(sorted[i].bytes)
  {
    var sorted := Sort(Path, files);
    SortedKeysAscend(Path, files);
    hide Sort, KeysAscend, Base64;
    assert Ascii("/") == [SLASH];
    forall i | 0 <= i < |sorted|
      ensures Records(skillId, sorted)[i] == skillId + Ascii("/") + sorted[i].path + [0] + Base64(sorted[i].bytes)
    {
      RecordAt(skillId, sorted, i);
    }
  }

  lemma {:induction false} RecordAt(skillId: Text, files: seq<File>, i: nat)
    requires i < |files|
    ensures Records(skillId, files)[i] == Record(skillId, files[i])
  {
    hide Record;
    if i > 0 {
      RecordAt(skillId, files[1..], i - 1);
    }
  }

  /** The combined text is the JSON list of pairs of a skill and its digest, or null where there is none. */
  lemma {:induction false} PairAt(skillDigests: map<Text, Text>, skillIds: seq<Text>, i: nat)
    requires i < |skillIds|
    ensures Pairs(skillDigests, skillIds)[i]
            == JArr([JStr(skillIds[i]), if skillIds[i] in skillDigests then JStr(skillDigests[skillIds[i]]) else JNull])
  {
    if i > 0 {
      PairAt(skillDigests, skillIds[1..], i - 1);
    }
  }
}
