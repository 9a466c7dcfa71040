/** The text a skill digest is taken of: it determines the skill's files, and nothing else does. */
module SkillDigest {
  import opened Wrappers
  import opened JsText
  import opened Bytes
  import opened Lists
  import opened StableSort
  import opened CanonicalReading

  const NUL: Unit := 0
  const SLASH: Unit := 0x2F
  const PAD: Unit := 0x3D

  // ---------- bytes.toString('base64') ----------

  /** A digit of RFC 4648's base 64 alphabet. */
  function Digit(n: nat): (c: Unit)
    requires n < 64
    ensures c != NUL && c != PAD
  {
    if n < 26 then 0x41 + n
    else if n < 52 then 0x61 + n - 26
    else if n < 62 then 0x30 + n - 52
    else if n == 62 then 0x2B
    else 0x2F
  }

  lemma DigitTells(m: nat, n: nat)
    requires m < 64 && n < 64 && Digit(m) == Digit(n)
    ensures m == n
  {
  }

  /** Four digits for up to three bytes. */
  function Group(bytes: seq<Byte>): (t: Text)
    requires 1 <= |bytes| <= 3
    ensures |t| == 4 && NUL !in t
  {
    var a, b, c := bytes[0], if |bytes| > 1 then bytes[1] else 0, if |bytes| > 2 then bytes[2] else 0;
    [Digit(a / 4), Digit(a % 4 * 16 + b / 16),
     if |bytes| > 1 then Digit(b % 16 * 4 + c / 64) else PAD, if |bytes| > 2 then Digit(c % 64) else PAD]
  }

  lemma GroupTells(x: seq<Byte>, y: seq<Byte>)
    requires 1 <= |x| <= 3 && 1 <= |y| <= 3 && Group(x) == Group(y)
    ensures x == y
  {
    var t := Group(x);
    assert t[2] == PAD <==> |x| == 1;
    assert t[3] == PAD <==> |x| <= 2;
    assert Group(y)[2] == PAD <==> |y| == 1;
    assert Group(y)[3] == PAD <==> |y| <= 2;
    assert |x| == |y|;
    assert Group(x)[0] == Group(y)[0] && Group(x)[1] == Group(y)[1] && Group(x)[2] == Group(y)[2] && Group(x)[3] == Group(y)[3];
    var b, b' := if |x| > 1 then x[1] else 0, if |y| > 1 then y[1] else 0;
    var c, c' := if |x| > 2 then x[2] else 0, if |y| > 2 then y[2] else 0;
    DigitTells(x[0] / 4, y[0] / 4);
    DigitTells(x[0] % 4 * 16 + b / 16, y[0] % 4 * 16 + b' / 16);
    assert x[0] == y[0];
    if |x| > 1 {
      DigitTells(b % 16 * 4 + c / 64, b' % 16 * 4 + c' / 64);
      assert x[1] == y[1];
    }
    if |x| > 2 {
      DigitTells(c % 64, c' % 64);
      assert x[2] == y[2];
    }
  }

  function Base64(bytes: seq<Byte>): (t: Text)
    ensures NUL !in t
  {
    if bytes == [] then [] else if |bytes| <= 3 then Group(bytes) else Group(bytes[..3]) + Base64(bytes[3..])
  }

  lemma {:induction false} Base64Tells(x: seq<Byte>, y: seq<Byte>)
    requires Base64(x) == Base64(y)
    ensures x == y
    decreases |x|
  {
    hide Group;
    if x != [] && y != [] {
      var a, b := if |x| <= 3 then x else x[..3], if |y| <= 3 then y else y[..3];
      var p, q := if |x| <= 3 then [] else x[3..], if |y| <= 3 then [] else y[3..];
      assert x == a + p && y == b + q;
      Base64Splits(x, a, p);
      Base64Splits(y, b, q);
      assert Base64(x)[..4] == Group(a) && Base64(y)[..4] == Group(b);
      assert Base64(x)[4..] == Base64(p) && Base64(y)[4..] == Base64(q);
      GroupTells(a, b);
      Base64Tells(p, q);
    }
  }

  lemma Base64Splits(x: seq<Byte>, a: seq<Byte>, p: seq<Byte>)
    requires x != [] && a == (if |x| <= 3 then x else x[..3]) && p == (if |x| <= 3 then [] else x[3..])
    ensures Base64(x) == Group(a) + Base64(p)
  {
  }

  // ---------- the records ----------

  datatype File = File(path: Text, bytes: seq<Byte>)

  function Path(f: File): Text {
    f.path
  }

  function Record(skillId: Text, f: File): Text {
    skillId + [SLASH] + f.path + [NUL] + Base64(f.bytes)
  }

  function Records(skillId: Text, files: seq<File>): (r: seq<Text>)
    ensures |r| == |files|
  {
    if files == [] then [] else [Record(skillId, files[0])] + Records(skillId, files[1..])
  }

  /** What skillDigest hashes: the records of the files, sorted by path, joined by NUL. */
  function PreImage(skillId: Text, files: seq<File>): Text {
    Join(Records(skillId, Sort(Path, files)), [NUL])
  }

  predicate NulFree(files: seq<File>) {
    forall f :: f in files ==> NUL !in f.path
  }

  /** The joined records after the first separator. */
  function AfterPath(skillId: Text, files: seq<File>): Text
    requires files != []
  {
    var rest := Records(skillId, files[1..]);
    Base64(files[0].bytes) + if rest == [] then [] else [NUL] + Join(rest, [NUL])
  }

  lemma JoinHead(head: Text, rest: seq<Text>)
    ensures Join([head] + rest, [NUL]) == head + if rest == [] then [] else [NUL] + Join(rest, [NUL])
  {
    assert ([head] + rest)[1..] == rest;
    if rest != [] {
      ConcatAssociative(head, [NUL], Join(rest, [NUL]));
    }
  }

  lemma JoinedStarts(skillId: Text, files: seq<File>)
    requires files != []
    ensures Join(Records(skillId, files), [NUL]) == skillId + [SLASH] + files[0].path + [NUL] + AfterPath(skillId, files)
  {
    hide Base64, Record, Join;
    var head, code := skillId + [SLASH] + files[0].path + [NUL], Base64(files[0].bytes);
    var rest := Records(skillId, files[1..]);
    RecordIs(skillId, files[0]);
    JoinHead(head + code, rest);
    ConcatAssociative(head, code, if rest == [] then [] else [NUL] + Join(rest, [NUL]));
  }

  lemma RecordIs(skillId: Text, f: File)
    ensures Record(skillId, f) == skillId + [SLASH] + f.path + [NUL] + Base64(f.bytes)
  {
  }

  /** The joined text of a list of records determines the list. */
  lemma {:induction false} JoinedTells(skillId: Text, xs: seq<File>, ys: seq<File>)
    requires NUL !in skillId && NulFree(xs) && NulFree(ys)
    requires Join(Records(skillId, xs), [NUL]) == Join(Records(skillId, ys), [NUL])
    ensures xs == ys
    decreases |xs|
  {
    hide Base64, Records, Record;
    if xs != [] {
      JoinedStarts(skillId, xs);
    }
    if ys != [] {
      JoinedStarts(skillId, ys);
    }
    if xs == [] || ys == [] {
      EmptyRecords(skillId);
    } else {
      assert xs[0] in xs && ys[0] in ys;
      var p, q := skillId + [SLASH] + xs[0].path, skillId + [SLASH] + ys[0].path;
      CutFirst(NUL, p, AfterPath(skillId, xs), q, AfterPath(skillId, ys));
      assert xs[0].path == p[|skillId| + 1..] && ys[0].path == q[|skillId| + 1..];
      AfterPathTells(skillId, xs, ys);
      assert xs == [xs[0]] + xs[1..] && ys == [ys[0]] + ys[1..];
      if |xs| > 1 {
        JoinedTells(skillId, xs[1..], ys[1..]);
      } else {
        assert xs[1..] == [] == ys[1..];
      }
    }
  }

  lemma EmptyRecords(skillId: Text)
    ensures Join(Records(skillId, []), [NUL]) == []
  {
  }

  lemma AfterPathTells(skillId: Text, xs: seq<File>, ys: seq<File>)
    requires xs != [] && ys != [] && AfterPath(skillId, xs) == AfterPath(skillId, ys)
    ensures xs[0].bytes == ys[0].bytes && (|xs| > 1 <==> |ys| > 1)
    ensures |xs| > 1 ==> Join(Records(skillId, xs[1..]), [NUL]) == Join(Records(skillId, ys[1..]), [NUL])
  {
    hide Base64, Records, Join;
    var a, b := Base64(xs[0].bytes), Base64(ys[0].bytes);
    var x, y := Join(Records(skillId, xs[1..]), [NUL]), Join(Records(skillId, ys[1..]), [NUL]);
    if |xs| > 1 {
      assert AfterPath(skillId, xs) == a + [NUL] + x;
      assert AfterPath(skillId, xs)[|a|] == NUL;
    } else {
      assert AfterPath(skillId, xs) == a;
    }
    if |ys| > 1 {
      assert AfterPath(skillId, ys) == b + [NUL] + y;
      assert AfterPath(skillId, ys)[|b|] == NUL;
    } else {
      assert AfterPath(skillId, ys) == b;
    }
    assert NUL in AfterPath(skillId, xs) <==> |xs| > 1;
    assert NUL in AfterPath(skillId, ys) <==> |ys| > 1;
    if |xs| > 1 {
      CutFirst(NUL, a, x, b, y);
    }
    Base64Tells(xs[0].bytes, ys[0].bytes);
  }

  /**
    Two directories, read in any order, have the same pre-image exactly when they hold the same
    paths with the same bytes; empty files and the empty directory included.
    */
  lemma PreImageExactly(skillId: Text, xs: seq<File>, ys: seq<File>)
    requires NUL !in skillId && NulFree(xs) && NulFree(ys)
    requires Distinct(Paths(xs)) && Distinct(Paths(ys))
    ensures PreImage(skillId, xs) == PreImage(skillId, ys) <==> multiset(xs) == multiset(ys)
  {
    SameMembers(Sort(Path, xs), xs);
    SameMembers(Sort(Path, ys), ys);
    if PreImage(skillId, xs) == PreImage(skillId, ys) {
      JoinedTells(skillId, Sort(Path, xs), Sort(Path, ys));
    }
    if multiset(xs) == multiset(ys) {
      PathsTell(xs);
      SortOrderIrrelevant(Path, xs, ys);
    }
  }

  function Paths(files: seq<File>): (r: seq<Text>)
    ensures |r| == |files| && forall k :: 0 <= k < |r| ==> r[k] == files[k].path
  {
    if files == [] then [] else [files[0].path] + Paths(files[1..])
  }

  lemma PathsTell(files: seq<File>)
    requires Distinct(Paths(files))
    ensures KeysTell(Path, files)
  {
    hide Paths;
    forall x, y | x in files && y in files && Path(x) == Path(y)
      ensures x == y
    {
      var i :| 0 <= i < |files| && files[i] == x;
      var j :| 0 <= j < |files| && files[j] == y;
      assert Paths(files)[i] == Paths(files)[j];
    }
  }

  // ---------- combinedDigest ----------

  /** skillDigests[skillId]; undefined is written as null inside an array. */
  function DigestOf(skillDigests: map<Text, Text>, skillId: Text): Json {
    if skillId in skillDigests then JStr(skillDigests[skillId]) else JNull
  }

  function Pairs(skillDigests: map<Text, Text>, skillIds: seq<Text>): (r: seq<Json>)
    ensures |r| == |skillIds|
  {
    if skillIds == [] then []
    else [JArr([JStr(skillIds[0]), DigestOf(skillDigests, skillIds[0])])] + Pairs(skillDigests, skillIds[1..])
  }

  /** What combinedDigest hashes. */
  function CombinedPreImage(skillDigests: map<Text, Text>, skillIds: seq<Text>): Text {
    Print(JArr(Pairs(skillDigests, skillIds)))
  }

  lemma {:induction false} PairsTell(a: map<Text, Text>, xs: seq<Text>, b: map<Text, Text>, ys: seq<Text>)
    ensures Pairs(a, xs) == Pairs(b, ys) <==> xs == ys && forall id :: id in xs ==> DigestOf(a, id) == DigestOf(b, id)
    decreases |xs|
  {
    if xs != [] && ys != [] {
      var p, q := JArr([JStr(xs[0]), DigestOf(a, xs[0])]), JArr([JStr(ys[0]), DigestOf(b, ys[0])]);
      assert p == q <==> xs[0] == ys[0] && DigestOf(a, xs[0]) == DigestOf(b, ys[0]) by {
        if p == q {
          assert p.items[0] == q.items[0] && p.items[1] == q.items[1];
        }
      }
      PairsTell(a, xs[1..], b, ys[1..]);
      HeadAndTail(p, Pairs(a, xs[1..]), q, Pairs(b, ys[1..]));
      HeadAndTail(xs[0], xs[1..], ys[0], ys[1..]);
      assert xs == [xs[0]] + xs[1..] && ys == [ys[0]] + ys[1..];
      hide DigestOf;
    }
  }

  lemma HeadAndTail<T>(x: T, xs: seq<T>, y: T, ys: seq<T>)
    ensures [x] + xs == [y] + ys <==> x == y && xs == ys
  {
    if [x] + xs == [y] + ys {
      assert ([x] + xs)[0] == ([y] + ys)[0] && ([x] + xs)[1..] == ([y] + ys)[1..];
      assert ([x] + xs)[1..] == xs && ([y] + ys)[1..] == ys;
    }
  }

  /** Two exports have one combined pre-image exactly when they list the same skills in the same order, with the same digests. */
  lemma CombinedPreImageExactly(a: map<Text, Text>, xs: seq<Text>, b: map<Text, Text>, ys: seq<Text>)
    ensures CombinedPreImage(a, xs) == CombinedPreImage(b, ys)
            <==> xs == ys && forall id :: id in xs ==> DigestOf(a, id) == DigestOf(b, id)
  {
    hide Print, Pairs, DigestOf;
    if CombinedPreImage(a, xs) == CombinedPreImage(b, ys) {
      PrintInjective(JArr(Pairs(a, xs)), JArr(Pairs(b, ys)));
    }
    PairsTell(a, xs, b, ys);
  }
}
