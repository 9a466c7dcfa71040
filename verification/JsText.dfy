/**
  ECMAScript strings as sequences of UTF-16 code units, with the library operations the
  modelled TypeScript files use on them: trim, indexOf, split on line ends and join.
  */
module JsText {

  type Unit = u: int | 0 <= u < 0x1_0000
  type Text = seq<Unit>

  const LF: Unit := 0x0A
  const CR: Unit := 0x0D
  const QUOTE: Unit := 0x22
  const APOSTROPHE: Unit := 0x27
  const BACKSLASH: Unit := 0x5C
  const HASH: Unit := 0x23
  const EQUALS: Unit := 0x3D
  const SPACE: Unit := 0x20
  const DOT: Unit := 0x2E
  const OPEN_BRACKET: Unit := 0x5B
  const CLOSE_BRACKET: Unit := 0x5D

  /** An ASCII literal of the source as code units. */
  function Ascii(literal: string): (t: Text)
    ensures |t| == |literal|
  {
    seq(|literal|, i requires 0 <= i < |literal| => (literal[i] as int) % 0x1_0000)
  }

  /** The units that String.prototype.trim removes (WhiteSpace and LineTerminator). */
  predicate IsSpace(c: Unit) {
    || 0x09 <= c <= 0x0D || c == 0x20 || c == 0xA0 || c == 0x1680 || 0x2000 <= c <= 0x200A
    || c == 0x2028 || c == 0x2029 || c == 0x202F || c == 0x205F || c == 0x3000 || c == 0xFEFF
  }

  ghost predicate AllSpace(t: Text) {
    forall i :: 0 <= i < |t| ==> IsSpace(t[i])
  }

  function TrimStart(t: Text): Text {
    if t != [] && IsSpace(t[0]) then TrimStart(t[1..]) else t
  }

  function TrimEnd(t: Text): Text {
    if t != [] && IsSpace(t[|t| - 1]) then TrimEnd(t[..|t| - 1]) else t
  }

  function Trim(t: Text): Text {
    TrimEnd(TrimStart(t))
  }

  ghost predicate Trimmed(t: Text) {
    t != [] ==> !IsSpace(t[0]) && !IsSpace(t[|t| - 1])
  }

  /** What trimming does: it only drops space units at both ends, and leaves none there. */
  lemma {:induction false} TrimSplits(t: Text) returns (before: Text, after: Text)
    ensures t == before + Trim(t) + after
    ensures AllSpace(before) && AllSpace(after)
    ensures Trimmed(Trim(t))
  {
    before := TrimStartSplits(t);
    after := TrimEndSplits(TrimStart(t));
    if Trim(t) != [] {
      assert TrimStart(t)[0] == Trim(t)[0];
    }
  }

  lemma {:induction false} TrimStartSplits(t: Text) returns (before: Text)
    ensures t == before + TrimStart(t) && AllSpace(before)
    ensures TrimStart(t) != [] ==> !IsSpace(TrimStart(t)[0])
  {
    if t != [] && IsSpace(t[0]) {
      var rest := TrimStartSplits(t[1..]);
      before := [t[0]] + rest;
    } else {
      before := [];
    }
  }

  lemma {:induction false} TrimEndSplits(t: Text) returns (after: Text)
    ensures t == TrimEnd(t) + after && AllSpace(after)
    ensures TrimEnd(t) != [] ==> !IsSpace(TrimEnd(t)[|TrimEnd(t)| - 1])
  {
    if t != [] && IsSpace(t[|t| - 1]) {
      var rest := TrimEndSplits(t[..|t| - 1]);
      after := rest + [t[|t| - 1]];
    } else {
      after := [];
    }
  }

  /** Trimming sees through space units added at either end. */
  lemma {:induction false} TrimPrepend(c: Unit, t: Text)
    requires IsSpace(c)
    ensures Trim([c] + t) == Trim(t)
  {
    assert ([c] + t)[1..] == t;
  }

  lemma {:induction false} TrimAppend(t: Text, c: Unit)
    requires IsSpace(c)
    ensures Trim(t + [c]) == Trim(t)
  {
    if t == [] {
      assert t + [c] == [c];
      assert [c][1..] == [];
    } else if IsSpace(t[0]) {
      TrimAppend(t[1..], c);
      assert (t + [c])[1..] == t[1..] + [c];
    } else {
      assert (t + [c])[..|t|] == t;
    }
  }

  lemma TrimIdentity(t: Text)
    requires Trimmed(t)
    ensures Trim(t) == t
  {
  }

  lemma TrimIdempotent(t: Text)
    ensures Trim(Trim(t)) == Trim(t)
  {
    var _, _ := TrimSplits(t);
    TrimIdentity(Trim(t));
  }

  /** String.prototype.indexOf for one unit; |t| stands for "not found". */
  function IndexOf(t: Text, c: Unit): (k: nat)
    ensures k <= |t|
    ensures c !in t[..k]
    ensures k < |t| ==> t[k] == c
  {
    if t == [] || t[0] == c then 0
    else
      var k := 1 + IndexOf(t[1..], c);
      assert t[..k] == [t[0]] + t[1..][..k - 1];
      k
  }

  lemma IndexOfUnique(a: Text, c: Unit, b: Text)
    requires c !in a
    ensures IndexOf(a + [c] + b, c) == |a|
  {
    var t := a + [c] + b;
    assert t[|a|] == c;
    assert forall i :: 0 <= i < |a| ==> t[i] == a[i];
  }

  lemma IndexOfAbsent(t: Text, c: Unit)
    requires c !in t
    ensures IndexOf(t, c) == |t|
  {
  }

  /** Cutting at the first separator is unique. */
  lemma CutFirst(c: Unit, a: Text, x: Text, b: Text, y: Text)
    requires c !in a && c !in b && a + [c] + x == b + [c] + y
    ensures a == b && x == y
  {
    var t := a + [c] + x;
    IndexOfUnique(a, c, x);
    IndexOfUnique(b, c, y);
    assert t[..|a|] == a && t[|a| + 1..] == x;
    assert t[..|b|] == b && t[|b| + 1..] == y;
  }

  function DropCr(t: Text): Text {
    if t != [] && t[|t| - 1] == CR then t[..|t| - 1] else t
  }

  lemma ConcatAssociative<T>(a: seq<T>, b: seq<T>, c: seq<T>)
    ensures a + b + c == a + (b + c)
  {
  }

  /** text.split(/\r?\n/) */
  function SplitLines(t: Text): (lines: seq<Text>)
    ensures forall i :: 0 <= i < |lines| ==> LF !in lines[i]
    decreases |t|
  {
    var k := IndexOf(t, LF);
    if k == |t| then
      assert t[..k] == t;
      [t]
    else
      assert LF !in DropCr(t[..k]);
      [DropCr(t[..k])] + SplitLines(t[k + 1..])
  }

  /** lines.join(separator) */
  function Join(lines: seq<Text>, separator: Text): Text {
    if lines == [] then []
    else if |lines| == 1 then lines[0]
    else lines[0] + separator + Join(lines[1..], separator)
  }

  function LeadingLineFeeds(t: Text): (n: nat)
    ensures n <= |t|
    ensures forall i :: 0 <= i < n ==> t[i] == LF
  {
    if t != [] && t[0] == LF then 1 + LeadingLineFeeds(t[1..]) else 0
  }

  /** text.replace(/\n{3,}/g, '\n\n') */
  function CollapseLineFeeds(t: Text): Text
    decreases |t|
  {
    var k := IndexOf(t, LF);
    if k == |t| then t
    else
      var tail := t[k..];
      var n := LeadingLineFeeds(tail);
      t[..k] + ShortRun(tail[..n]) + CollapseLineFeeds(tail[n..])
  }

  function ShortRun(run: Text): Text {
    if |run| >= 3 then [LF, LF] else run
  }
}
