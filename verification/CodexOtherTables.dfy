/**
  The tables the reader skips ([mcp_servers.x], [features], ...): both edits leave every key
  of every one of them as it was.
  */
module CodexOtherTables {
  import opened Wrappers
  import opened JsText
  import opened CodexLexer
  import opened CodexReader
  import opened CodexEditor
  import opened CodexConfigText

  type Cells = map<(Path, Text), Text>

  predicate IsOther(section: Path) {
    section != [] && !IsProviderSection(section)
  }

  function NextCells(item: Item, section: Path, cells: Cells): Cells {
    if item.Pair? && IsOther(section) then cells[(section, item.key) := item.value] else cells
  }

  /** What the items bind outside the root and the provider tables. */
  function CellsOf(items: seq<Item>, section: Path, cells: Cells): Cells {
    if items == [] then cells
    else CellsOf(items[1..], NextSection(items[0], section), NextCells(items[0], section, cells))
  }

  function OtherTables(text: Text): Cells {
    CellsOf(ItemsOf(text), [], map[])
  }

  lemma CellsCons(line: Text, rest: seq<Text>, section: Path, cells: Cells)
    ensures CellsOf(Items([line] + rest), section, cells)
            == CellsOf(Items(rest), NextSection(View(line), section), NextCells(View(line), section, cells))
  {
    assert ([line] + rest)[1..] == rest;
    if IsBlank(line) {
      BlankIsOther(line);
      assert Items([line] + rest) == Items(rest);
    } else {
      assert Items([line] + rest) == [View(line)] + Items(rest);
      assert Items([line] + rest)[1..] == Items(rest);
    }
  }

  lemma {:induction false} CellsAppend(a: seq<Item>, b: seq<Item>, section: Path, cells: Cells)
    ensures CellsOf(a + b, section, cells) == CellsOf(b, LastSection(a, section), CellsOf(a, section, cells))
  {
    if a == [] {
      assert a + b == b;
    } else {
      assert (a + b)[1..] == a[1..] + b;
      CellsAppend(a[1..], b, NextSection(a[0], section), NextCells(a[0], section, cells));
    }
  }

  lemma {:induction false} RootKeptCells(lines: seq<Text>, keys: set<Text>, section: Path, cells: Cells)
    requires Bad !in Items(lines)
    ensures CellsOf(Items(RootKept(lines, keys, section)), section, cells) == CellsOf(Items(lines), section, cells)
  {
    hide ViewStripped, Strip, TablePath, KeyIn;
    if lines != [] {
      var line, rest := lines[0], lines[1..];
      assert lines == [line] + rest;
      ReadCons(line, rest, section, NO_VALUES, []);
      CellsCons(line, rest, section, cells);
      ViewAgrees(line);
      var next := SectionAfter(line, section);
      var kept := RootKept(rest, keys, next);
      RootKeptCells(rest, keys, next, NextCells(View(line), section, cells));
      if DropsRootLine(line, keys, section) {
        assert [] + kept == kept;
      } else {
        CellsCons(line, kept, section, cells);
      }
    }
  }

  lemma {:induction false} RenderAllCells(pairs: seq<(Text, Text)>, rest: seq<Text>, section: Path, cells: Cells)
    requires forall i :: 0 <= i < |pairs| ==> IsBareKey(pairs[i].0)
    requires !IsOther(section)
    ensures CellsOf(Items(RenderAll(pairs) + rest), section, cells) == CellsOf(Items(rest), section, cells)
  {
    if pairs == [] {
      assert RenderAll(pairs) + rest == rest;
    } else {
      var line, tail := RenderPair(pairs[0].0, pairs[0].1), RenderAll(pairs[1..]) + rest;
      assert RenderAll(pairs) + rest == [line] + tail;
      RenderedView(pairs[0].0, pairs[0].1);
      RenderAllCells(pairs[1..], rest, section, cells);
      CellsCons(line, tail, section, cells);
    }
  }

  lemma TargetCells(line: Text, kept: seq<Text>, id: Text, pairs: seq<(Text, Text)>, section: Path, cells: Cells)
    requires IsTarget(line, Some([MODEL_PROVIDERS, id]))
    requires forall i :: 0 <= i < |pairs| ==> IsBareKey(pairs[i].0)
    ensures CellsOf(Items([line] + (RenderAll(pairs) + kept)), section, cells) == CellsOf(Items(kept), [MODEL_PROVIDERS, id], cells)
  {
    ViewAgrees(line);
    CellsCons(line, RenderAll(pairs) + kept, section, cells);
    RenderAllCells(pairs, kept, [MODEL_PROVIDERS, id], cells);
  }

  lemma {:induction false} TableKeptCells(lines: seq<Text>, id: Text, keys: set<Text>, pairs: seq<(Text, Text)>, section: Path, cells: Cells)
    requires Bad !in Items(lines)
    requires forall i :: 0 <= i < |pairs| ==> IsBareKey(pairs[i].0)
    ensures CellsOf(Items(KeptFrom(lines, id, keys, pairs, section)), section, cells) == CellsOf(Items(lines), section, cells)
  {
    if lines != [] {
      var line, rest := lines[0], lines[1..];
      var target: Option<Path> := Some([MODEL_PROVIDERS, id]);
      assert lines == [line] + rest;
      ReadCons(line, rest, section, NO_VALUES, []);
      CellsCons(line, rest, section, cells);
      ViewAgrees(line);
      var next := NextSection(View(line), section);
      var kept := KeptFrom(rest, id, keys, pairs, next);
      TableKeptCells(rest, id, keys, pairs, next, NextCells(View(line), section, cells));
      if IsTarget(line, target) {
        TargetLineKept(line, rest, id, keys, pairs, section);
        TargetCells(line, kept, id, pairs, section, cells);
      } else {
        OtherLineKept(line, rest, id, keys, pairs, section);
        CellsCons(line, kept, section, cells);
      }
    }
  }

  lemma OtherLineKept(line: Text, rest: seq<Text>, id: Text, keys: set<Text>, pairs: seq<(Text, Text)>, section: Path)
    requires View(line) != Bad && !IsTarget(line, Some([MODEL_PROVIDERS, id]))
    ensures var next := NextSection(View(line), section);
            var kept := KeptFrom(rest, id, keys, pairs, next);
            KeptFrom([line] + rest, id, keys, pairs, section)
            == if next == [MODEL_PROVIDERS, id] && KeyIn(line, keys) then kept else [line] + kept
    ensures NextSection(View(line), section) == [MODEL_PROVIDERS, id] && KeyIn(line, keys) ==>
              section == [MODEL_PROVIDERS, id] && !View(line).Header?
  {
    ViewAgrees(line);
    assert ([line] + rest)[1..] == rest;
    var kept := KeptFrom(rest, id, keys, pairs, NextSection(View(line), section));
    assert [] + kept == kept;
  }

  lemma PreservedItems(existing: Text, p: Provider)
    ensures ItemsOf(PreservedText(existing, p))
            == Items(UpsertedLines(SplitLines(existing), ProviderHeader(p.id), PROVIDER_KEYS, RenderAll(ProviderPairs(p))))
  {
    ProviderPairsWithin(p);
    ReplacementsAreRendered(p);
    UpsertedLinesLineFree(SplitLines(existing), p.id, PROVIDER_KEYS, ProviderPairs(p));
    ItemsOfFinished(UpsertedLines(SplitLines(existing), ProviderHeader(p.id), PROVIDER_KEYS, RenderAll(ProviderPairs(p))));
  }

  lemma UpsertedLinesCases(lines: seq<Text>, header: Text, id: Text, keys: set<Text>, pairs: seq<(Text, Text)>)
    requires PathOf(header) == Some([MODEL_PROVIDERS, id])
    ensures var kept := KeptFrom(lines, id, keys, pairs, []);
            UpsertedLines(lines, header, keys, RenderAll(pairs))
            == if HasTarget(lines, PathOf(header)) then kept else kept + ([[]] + ([header] + RenderAll(pairs)))
  {
    assert [[], header] + RenderAll(pairs) == [[]] + ([header] + RenderAll(pairs));
  }

  lemma PreservedCells(existing: Text, p: Provider)
    requires Accepts(existing) && BracketFree(p.id)
    ensures OtherTables(PreservedText(existing, p)) == OtherTables(existing)
  {
    var lines, pairs := SplitLines(existing), ProviderPairs(p);
    PreservedItems(existing, p);
    ProviderPairsWithin(p);
    ProviderHeaderRoundTrip(p.id);
    UpsertedLinesCases(lines, ProviderHeader(p.id), p.id, PROVIDER_KEYS, pairs);
    TableKeptCells(lines, p.id, PROVIDER_KEYS, pairs, [], map[]);
    AppendedCells(KeptFrom(lines, p.id, PROVIDER_KEYS, pairs, []), p);
  }

  lemma AppendedCells(kept: seq<Text>, p: Provider)
    requires BracketFree(p.id)
    ensures CellsOf(Items(kept + ([[]] + ProviderBlock(p))), [], map[]) == CellsOf(Items(kept), [], map[])
  {
    var cells := CellsOf(Items(kept), [], map[]);
    var section := LastSection(Items(kept), []);
    EmptyIsBlank([]);
    ItemsAfterBlankLine(kept, [], ProviderBlock(p));
    CellsAppend(Items(kept), Items(ProviderBlock(p)), [], map[]);
    ProviderHeaderRoundTrip(p.id);
    ProviderPairsWithin(p);
    assert RenderAll(ProviderPairs(p)) + [] == RenderAll(ProviderPairs(p));
    CellsCons(ProviderHeader(p.id), RenderAll(ProviderPairs(p)), section, cells);
    RenderAllCells(ProviderPairs(p), [], [MODEL_PROVIDERS, p.id], cells);
  }

  /** The provider-only edit leaves every table the reader skips alone. */
  lemma ProviderWriteKeepsOtherTables(existing: Text, p: Provider)
    requires Accepts(existing) && BracketFree(p.id)
    ensures OtherTables(ProviderOnlyText(existing, p)) == OtherTables(existing)
  {
    ItemsOfBlocks([], PreservedText(existing, p));
    PreservedCells(existing, p);
  }

  /** So does the full edit. */
  lemma WriteKeepsOtherTables(existing: Text, c: Config)
    requires Accepts(existing) && BracketFree(c.provider.id)
    ensures OtherTables(ConfigText(existing, c)) == OtherTables(existing)
  {
    var lines := SplitLines(existing);
    var kept := RootKept(lines, ROOT_KEYS, []);
    var stripped := WithoutRootKeys(existing, ROOT_KEYS);
    RootKeptLineFree(lines, ROOT_KEYS, []);
    ItemsOfTrim(Join(kept, [LF]));
    ItemsOfJoin(kept);
    RootKeptCells(lines, ROOT_KEYS, [], map[]);
    WithoutRootKeysReads(existing, ROOT_KEYS);
    PreservedCells(stripped, c.provider);
    RootBlockCells(RootPairs(c), PreservedText(stripped, c.provider), c);
  }

  lemma RootBlockCells(pairs: seq<(Text, Text)>, preserved: Text, c: Config)
    requires pairs == RootPairs(c)
    ensures OtherTables(JoinBlocks([Join(RenderAll(pairs), [LF]), preserved, []])) == OtherTables(preserved)
  {
    RootPairsWithin(c);
    RenderAllLineFree(pairs);
    ItemsOfBlocks(Join(RenderAll(pairs), [LF]), preserved);
    ItemsOfJoin(RenderAll(pairs));
    ItemsAppend(RenderAll(pairs), SplitLines(preserved));
    RenderAllCells(pairs, SplitLines(preserved), [], map[]);
  }
}
