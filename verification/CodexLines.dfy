/**
  Which lines the two editors keep, comments and blank lines included: what the reader cannot see.
  The lines of the new text are those of the old one in their order, and only lines that set a
  named key in the edited table are missing.
  */
module CodexLines {
  import opened Wrappers
  import opened JsText
  import opened CodexLexer
  import opened CodexReader
  import opened CodexEditor
  import opened CodexConfigText

  function Concat(pieces: seq<seq<Text>>): seq<Text> {
    if pieces == [] then [] else pieces[0] + Concat(pieces[1..])
  }

  /** The section that the lines before line i leave the reader in. */
  function SectionBefore(lines: seq<Text>, i: nat): Path
    requires i <= |lines|
  {
    LastSection(Items(lines[..i]), [])
  }

  /** Line i sets one of the keys in the given section. */
  predicate SetsKeyIn(lines: seq<Text>, i: nat, section: Path, keys: set<Text>)
    requires i < |lines|
  {
    SectionBefore(lines, i) == section && View(lines[i]).Pair? && View(lines[i]).key in keys
  }

  lemma {:induction false} LastSectionAppend(a: seq<Item>, b: seq<Item>, section: Path)
    ensures LastSection(a + b, section) == LastSection(b, LastSection(a, section))
  {
    if a == [] {
      assert a + b == b;
    } else {
      assert (a + b)[1..] == a[1..] + b;
      LastSectionAppend(a[1..], b, NextSection(a[0], section));
    }
  }

  lemma SectionAfterLine(lines: seq<Text>, i: nat)
    requires i < |lines|
    ensures SectionBefore(lines, i + 1) == NextSection(View(lines[i]), SectionBefore(lines, i))
  {
    hide Items, View, LastSection, IsBlank;
    assert lines[..i + 1] == lines[..i] + [lines[i]];
    ItemsAppend(lines[..i], [lines[i]]);
    LastSectionAppend(Items(lines[..i]), Items([lines[i]]), []);
    ItemsOne(lines[i]);
    OneItemSection(View(lines[i]), SectionBefore(lines, i));
    if IsBlank(lines[i]) {
      BlankIsOther(lines[i]);
    }
  }

  lemma OneItemSection(item: Item, section: Path)
    ensures LastSection([item], section) == NextSection(item, section) && LastSection([], section) == section
  {
    assert [item][1..] == [];
  }

  lemma ViewOfLine(lines: seq<Text>, i: nat)
    requires Bad !in Items(lines) && i < |lines|
    ensures View(lines[i]) != Bad
  {
    hide View, Items, IsBlank;
    assert lines == lines[..i] + ([lines[i]] + lines[i + 1..]);
    ItemsAppend(lines[..i], [lines[i]] + lines[i + 1..]);
    ItemsAppend([lines[i]], lines[i + 1..]);
    ItemsOne(lines[i]);
    if IsBlank(lines[i]) {
      BlankIsOther(lines[i]);
    }
  }

  // ---------- removeRootTomlKeys ----------

  /** What becomes of line i: it is missing if and only if it sets one of the keys before the first header. */
  function RootPiece(lines: seq<Text>, i: nat, keys: set<Text>): seq<Text>
    requires i < |lines|
  {
    if SetsKeyIn(lines, i, [], keys) then [] else [lines[i]]
  }

  lemma RootStep(lines: seq<Text>, i: nat, keys: set<Text>)
    requires Bad !in Items(lines) && i < |lines|
    ensures RootKept(lines[i..], keys, SectionBefore(lines, i))
            == RootPiece(lines, i, keys) + RootKept(lines[i + 1..], keys, SectionBefore(lines, i + 1))
  {
    SectionAfterLine(lines, i);
    ViewOfLine(lines, i);
    RootLineReads(lines[i], keys, SectionBefore(lines, i), NO_VALUES);
    ViewAgrees(lines[i]);
    assert lines[i..][1..] == lines[i + 1..];
    hide Items, Strip, ViewStripped, KeyOf, SectionOf, SectionBefore;
  }

  lemma NothingKept(lines: seq<Text>, keys: set<Text>, section: Path)
    requires lines == []
    ensures RootKept(lines, keys, section) == []
  {
  }

  lemma NothingEdited(lines: seq<Text>, target: Path, keys: set<Text>, inserted: seq<Text>, inTarget: bool)
    requires lines == []
    ensures TableKept(lines, Some(target), keys, inserted, inTarget) == []
  {
  }

  /** From line i on: one piece per line. */
  lemma {:induction false} RootPieces(lines: seq<Text>, keys: set<Text>, i: nat) returns (pieces: seq<seq<Text>>)
    requires Bad !in Items(lines) && i <= |lines|
    ensures |pieces| == |lines| - i && RootKept(lines[i..], keys, SectionBefore(lines, i)) == Concat(pieces)
    ensures forall k :: i <= k < |lines| ==> pieces[k - i] == RootPiece(lines, k, keys)
    decreases |lines| - i
  {
    hide Items, SectionBefore, RootPiece, RootKept;
    if i == |lines| {
      pieces := [];
      NothingKept(lines[i..], keys, SectionBefore(lines, i));
    } else {
      RootStep(lines, i, keys);
      var rest := RootPieces(lines, keys, i + 1);
      pieces := [RootPiece(lines, i, keys)] + rest;
      assert pieces[1..] == rest;
    }
  }

  /**
    The text without the root keys consists of the old lines in order, trimmed at its two ends; a
    line is missing if and only if it sets one of the keys before the first header.
    */
  lemma WithoutRootKeysLines(text: Text, keys: set<Text>) returns (pieces: seq<seq<Text>>)
    requires Accepts(text)
    ensures var lines := SplitLines(text);
            && |pieces| == |lines| && WithoutRootKeys(text, keys) == Trim(Join(Concat(pieces), [LF]))
            && forall i :: 0 <= i < |lines| ==> pieces[i] == RootPiece(lines, i, keys)
  {
    var lines := SplitLines(text);
    pieces := RootPieces(lines, keys, 0);
    assert lines[0..] == lines && lines[..0] == [];
    hide SplitLines, RootPiece, SetsKeyIn, RootKept, Concat, Trim, Join;
  }

  // ---------- upsertTomlTableKeys ----------

  /** What becomes of line i: the target header is followed by the inserted lines, its old keys go. */
  function Edit(lines: seq<Text>, i: nat, target: Path, keys: set<Text>, inserted: seq<Text>): seq<Text>
    requires i < |lines|
  {
    if View(lines[i]) == Header(target) then [lines[i]] + inserted
    else if SetsKeyIn(lines, i, target, keys) then []
    else [lines[i]]
  }

  lemma TableLineEdits(lines: seq<Text>, i: nat, target: Path, keys: set<Text>, inserted: seq<Text>)
    requires i < |lines| && View(lines[i]) != Bad
    ensures var inside := SectionBefore(lines, i) == target;
            && TableLine(lines[i], Some(target), keys, inserted, inside) == Edit(lines, i, target, keys, inserted)
            && (InTargetAfter(lines[i], Some(target), inside) <==> NextSection(View(lines[i]), SectionBefore(lines, i)) == target)
  {
    ViewAgrees(lines[i]);
    hide SectionBefore, Strip, ViewStripped, KeyOf, SectionOf;
  }

  lemma TableStep(lines: seq<Text>, i: nat, target: Path, keys: set<Text>, inserted: seq<Text>)
    requires Bad !in Items(lines) && i < |lines|
    ensures TableKept(lines[i..], Some(target), keys, inserted, SectionBefore(lines, i) == target)
            == Edit(lines, i, target, keys, inserted)
               + TableKept(lines[i + 1..], Some(target), keys, inserted, SectionBefore(lines, i + 1) == target)
  {
    SectionAfterLine(lines, i);
    ViewOfLine(lines, i);
    TableLineEdits(lines, i, target, keys, inserted);
    assert lines[i..][1..] == lines[i + 1..];
    hide Items, View, Edit, TableLine, InTargetAfter, SectionBefore;
  }

  lemma {:induction false} TablePieces(lines: seq<Text>, target: Path, keys: set<Text>, inserted: seq<Text>, i: nat)
    returns (pieces: seq<seq<Text>>)
    requires Bad !in Items(lines) && i <= |lines|
    ensures |pieces| == |lines| - i
    ensures TableKept(lines[i..], Some(target), keys, inserted, SectionBefore(lines, i) == target) == Concat(pieces)
    ensures forall k :: i <= k < |lines| ==> pieces[k - i] == Edit(lines, k, target, keys, inserted)
    decreases |lines| - i
  {
    hide Items, SectionBefore, Edit, TableKept;
    if i == |lines| {
      pieces := [];
      NothingEdited(lines[i..], target, keys, inserted, SectionBefore(lines, i) == target);
    } else {
      TableStep(lines, i, target, keys, inserted);
      var rest := TablePieces(lines, target, keys, inserted, i + 1);
      pieces := [Edit(lines, i, target, keys, inserted)] + rest;
      assert pieces[1..] == rest;
    }
  }

  /** Some line is the header of the table. */
  ghost predicate HasHeader(lines: seq<Text>, target: Path) {
    exists i :: 0 <= i < |lines| && View(lines[i]) == Header(target)
  }

  /**
    The edited text consists of the old lines in order, the inserted lines behind every header of
    the table, and the whole table at the end where it had no header; an old line is missing if and
    only if it sets one of the keys in the table.
    */
  lemma UpsertedTextLines(text: Text, id: Text, replacements: seq<Replacement>) returns (pieces: seq<seq<Text>>)
    requires Accepts(text) && BracketFree(id)
    ensures var lines, keys, inserted := SplitLines(text), ReplacementKeys(replacements), ReplacementLines(replacements);
            var target := [MODEL_PROVIDERS, id];
            var appended := if HasHeader(lines, target) then [] else [[], ProviderHeader(id)] + inserted;
            && |pieces| == |lines|
            && Upserted(text, ProviderHeader(id), replacements) == Trim(CollapseLineFeeds(Join(Concat(pieces) + appended, [LF])))
            && forall i :: 0 <= i < |lines| ==> pieces[i] == Edit(lines, i, target, keys, inserted)
  {
    var lines, keys, inserted := SplitLines(text), ReplacementKeys(replacements), ReplacementLines(replacements);
    var target := [MODEL_PROVIDERS, id];
    ProviderHeaderRoundTrip(id);
    pieces := TablePieces(lines, target, keys, inserted, 0);
    assert lines[0..] == lines && lines[..0] == [];
    assert HasTarget(lines, Some(target)) <==> HasHeader(lines, target) by {
      forall i | 0 <= i < |lines|
        ensures IsTarget(lines[i], Some(target)) <==> View(lines[i]) == Header(target)
      {
        ViewOfLine(lines, i);
        ViewAgrees(lines[i]);
      }
    }
    hide SplitLines, Edit, TableKept, HasTarget, HasHeader;
  }

  // ---------- runs of line feeds ----------

  ghost predicate AllLineFeeds(run: Text) {
    forall i :: 0 <= i < |run| ==> run[i] == LF
  }

  lemma {:induction false} LeadingRunIs(run: Text, rest: Text)
    requires AllLineFeeds(run) && (rest == [] || rest[0] != LF)
    ensures LeadingLineFeeds(run + rest) == |run|
  {
    if run == [] {
      assert run + rest == rest;
    } else {
      assert (run + rest)[1..] == run[1..] + rest;
      LeadingRunIs(run[1..], rest);
    }
  }

  /** A run of three or more line feeds becomes two, a shorter one stays, and so does everything between runs. */
  lemma RunsAreCollapsed(line: Text, run: Text, rest: Text)
    requires LF !in line && AllLineFeeds(run) && (rest == [] || rest[0] != LF) && (run == [] ==> rest == [])
    ensures CollapseLineFeeds(line + run + rest) == line + (if |run| > 2 then [LF, LF] else run) + CollapseLineFeeds(rest)
  {
    var t := line + run + rest;
    if run == [] {
      assert t == line && line + run + rest == line;
      IndexOfAbsent(line, LF);
    } else {
      assert t == line + [LF] + (run[1..] + rest) by {
        assert run == [LF] + run[1..];
      }
      IndexOfUnique(line, LF, run[1..] + rest);
      var tail := t[|line|..];
      assert tail == run + rest && t[..|line|] == line;
      LeadingRunIs(run, rest);
      assert tail[..|run|] == run && tail[|run|..] == rest;
    }
  }

  // ---------- the written texts ----------

  /** The root lines stand first, then a blank line, then what was kept; nothing is added where nothing was kept. */
  lemma ConfigTextShape(existing: Text, c: Config)
    ensures var root := Join(RenderAll(RootPairs(c)), [LF]);
            var preserved := PreservedText(WithoutRootKeys(existing, ROOT_KEYS), c.provider);
            && ConfigText(existing, c) == (if preserved == [] then root else root + [LF, LF] + preserved)
            && ProviderOnlyText(existing, c.provider) == PreservedText(existing, c.provider)
  {
    var root := Join(RenderAll(RootPairs(c)), [LF]);
    var preserved := PreservedText(WithoutRootKeys(existing, ROOT_KEYS), c.provider);
    RootIsNotEmpty(c);
    TwoBlocks(root, preserved);
    TwoBlocks(root, PreservedText(existing, c.provider));
    hide RenderAll, PreservedText, WithoutRootKeys, JoinBlocks;
  }

  lemma TwoBlocks(a: Text, b: Text)
    requires a != []
    ensures JoinBlocks([a, b, []]) == (if b == [] then a else a + [LF, LF] + b) && JoinBlocks([b, []]) == b
  {
    NonEmptyBlocks(a, b);
    ItemsOfBlocks(a, b);
    var both := [a, b];
    assert both[1..] == [b];
    if b == [] {
      assert NonEmpty([a, b, []]) == [a] + [] == [a];
    } else {
      assert NonEmpty([a, b, []]) == [a] + [b] == both;
    }
  }

  lemma RootIsNotEmpty(c: Config)
    ensures Join(RenderAll(RootPairs(c)), [LF]) != []
  {
    var lines := RenderAll(RootPairs(c));
    RootLinesRendered(c);
    assert lines[0] == RenderPair(MODEL_PROVIDER, c.provider.id);
  }
}
