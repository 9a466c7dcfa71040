/**
  The two line editors of the Codex config and the texts built with them. The main result
  says what the reader sees in an edited text: the old values with exactly the written
  keys replaced.
  */
module CodexEditor {
  import opened Wrappers
  import opened JsText
  import opened JsonString
  import opened CodexLexer
  import opened CodexReader

  /** What the editors look at in a raw line. */
  predicate HeaderParses(rawLine: Text) {
    TablePath(Strip(rawLine)).Success?
  }

  function SectionOf(rawLine: Text): Option<Path> {
    match TablePath(Strip(rawLine))
    case Success(section) => section
    case Failure(_) => None
  }

  function KeyOf(rawLine: Text): Option<Text> {
    var line := Strip(rawLine);
    var separatorIndex := IndexOf(line, EQUALS);
    if 0 < separatorIndex < |line| && Trim(line[..separatorIndex]) != [] then Some(Trim(line[..separatorIndex]))
    else None
  }

  predicate KeyIn(rawLine: Text, keys: set<Text>) {
    KeyOf(rawLine).Some? && KeyOf(rawLine).value in keys
  }

  ghost predicate AllHeadersParse(lines: seq<Text>) {
    forall i :: 0 <= i < |lines| ==> HeaderParses(lines[i])
  }

  function SectionAfter(rawLine: Text, section: Path): Path {
    if SectionOf(rawLine).Some? then SectionOf(rawLine).value else section
  }

  predicate DropsRootLine(rawLine: Text, keys: set<Text>, section: Path) {
    SectionOf(rawLine).None? && section == [] && KeyIn(rawLine, keys)
  }

  /** The lines removeRootTomlKeys keeps. */
  function RootKept(lines: seq<Text>, keys: set<Text>, section: Path): seq<Text> {
    if lines == [] then []
    else
      (if DropsRootLine(lines[0], keys, section) then [] else [lines[0]])
      + RootKept(lines[1..], keys, SectionAfter(lines[0], section))
  }

  /** One turn of the loop of removeRootTomlKeys: whether the line stays, and the section after it. */
  method KeepRootLine(rawLine: Text, keys: set<Text>, section: Path) returns (r: Result<(bool, Path), LexError>)
    ensures r.Success? <==> HeaderParses(rawLine)
    ensures r.Success? ==> r.value == (!DropsRootLine(rawLine, keys, section), SectionAfter(rawLine, section))
  {
    var line := StripTomlInlineComment(rawLine);
    var sectionPath := ParseTomlTablePath(line);
    if sectionPath.Failure? {
      return Failure(sectionPath.error);
    }
    if sectionPath.value.Some? {
      return Success((true, sectionPath.value.value));
    }
    var separatorIndex := IndexOf(line, EQUALS);
    var key := if 0 < separatorIndex < |line| then Trim(line[..separatorIndex]) else [];
    if section == [] && key != [] && key in keys {
      return Success((false, section));
    }
    return Success((true, section));
  }

  method RemoveRootTomlKeys(text: Text, keys: set<Text>) returns (r: Result<Text, LexError>)
    ensures r.Success? <==> AllHeadersParse(SplitLines(text))
    ensures r.Success? ==> r.value == WithoutRootKeys(text, keys)
  {
    var kept: seq<Text> := [];
    var currentSection: Path := [];
    var lines := SplitLines(text);
    var i := 0;
    ghost var rest := RootKept(lines, keys, []);
    while i < |lines|
      invariant 0 <= i <= |lines|
      invariant forall j :: 0 <= j < i ==> HeaderParses(lines[j])
      invariant rest == RootKept(lines[i..], keys, currentSection)
      invariant RootKept(lines, keys, []) == kept + rest
    {
      assert lines[i..][1..] == lines[i + 1..];
      var turn := KeepRootLine(lines[i], keys, currentSection);
      if turn.Failure? {
        return Failure(turn.error);
      }
      currentSection := turn.value.1;
      rest := RootKept(lines[i + 1..], keys, currentSection);
      assert [] + rest == rest;
      if turn.value.0 {
        ConcatAssociative(kept, [lines[i]], rest);
        kept := kept + [lines[i]];
      }
      i := i + 1;
    }
    assert rest == [] && kept + rest == kept;
    return Success(Trim(Join(kept, [LF])));
  }

  function WithoutRootKeys(text: Text, keys: set<Text>): Text {
    Trim(Join(RootKept(SplitLines(text), keys, []), [LF]))
  }

  /** One [key, renderedValue] of upsertTomlTableKeys; None is the source's null. */
  datatype Replacement = Replacement(key: Text, rendered: Option<Text>)

  function ReplacementKeys(replacements: seq<Replacement>): set<Text> {
    set r | r in replacements :: r.key
  }

  function ReplacementLines(replacements: seq<Replacement>): seq<Text> {
    if replacements == [] then []
    else
      (if replacements[0].rendered.Some?
       then [replacements[0].key + [SPACE, EQUALS, SPACE] + replacements[0].rendered.value] else [])
      + ReplacementLines(replacements[1..])
  }

  predicate IsTarget(rawLine: Text, target: Option<Path>) {
    target.Some? && SectionOf(rawLine) == target
  }

  /** Whether the scan is inside the target table after the line. */
  predicate InTargetAfter(rawLine: Text, target: Option<Path>, inTarget: bool) {
    if SectionOf(rawLine).Some? then IsTarget(rawLine, target) else inTarget
  }

  /** What upsertTomlTableKeys makes of one line. */
  function TableLine(rawLine: Text, target: Option<Path>, keys: set<Text>, inserted: seq<Text>, inTarget: bool): seq<Text> {
    if IsTarget(rawLine, target) then [rawLine] + inserted
    else if InTargetAfter(rawLine, target, inTarget) && KeyIn(rawLine, keys) then []
    else [rawLine]
  }

  /** The lines upsertTomlTableKeys keeps and inserts while scanning. */
  function TableKept(lines: seq<Text>, target: Option<Path>, keys: set<Text>, inserted: seq<Text>, inTarget: bool): seq<Text> {
    if lines == [] then []
    else
      TableLine(lines[0], target, keys, inserted, inTarget)
      + TableKept(lines[1..], target, keys, inserted, InTargetAfter(lines[0], target, inTarget))
  }

  predicate HasTarget(lines: seq<Text>, target: Option<Path>) {
    exists i :: 0 <= i < |lines| && IsTarget(lines[i], target)
  }

  function PathOf(tableHeader: Text): Option<Path> {
    SectionOf(tableHeader)
  }

  function UpsertedLines(lines: seq<Text>, tableHeader: Text, keys: set<Text>, inserted: seq<Text>): seq<Text> {
    TableKept(lines, PathOf(tableHeader), keys, inserted, false)
    + (if HasTarget(lines, PathOf(tableHeader)) then [] else [[], tableHeader] + inserted)
  }

  function Upserted(text: Text, tableHeader: Text, replacements: seq<Replacement>): Text {
    Trim(CollapseLineFeeds(Join(
      UpsertedLines(SplitLines(text), tableHeader, ReplacementKeys(replacements), ReplacementLines(replacements)), [LF])))
  }

  /** One turn of the loop of upsertTomlTableKeys: the lines pushed, and the two flags after it. */
  method UpsertLine(rawLine: Text, targetPath: Option<Path>, replacementKeys: set<Text>, replacementLines: seq<Text>,
                    inTargetTable: bool, foundTable: bool)
    returns (r: Result<(seq<Text>, bool, bool), LexError>)
    ensures r.Success? <==> HeaderParses(rawLine)
    ensures r.Success? ==> r.value == (TableLine(rawLine, targetPath, replacementKeys, replacementLines, inTargetTable),
                                       InTargetAfter(rawLine, targetPath, inTargetTable),
                                       foundTable || IsTarget(rawLine, targetPath))
  {
    var line := StripTomlInlineComment(rawLine);
    var sectionPath := ParseTomlTablePath(line);
    if sectionPath.Failure? {
      return Failure(sectionPath.error);
    }
    var inside := inTargetTable;
    if sectionPath.value.Some? {
      inside := targetPath.Some? && sectionPath.value.value == targetPath.value;
      if inside {
        return Success(([rawLine] + replacementLines, true, true));
      }
    }
    var separatorIndex := IndexOf(line, EQUALS);
    var key := if 0 < separatorIndex < |line| then Trim(line[..separatorIndex]) else [];
    if inside && key != [] && key in replacementKeys {
      return Success(([], inside, foundTable));
    }
    return Success(([rawLine], inside, foundTable));
  }

  /** The scanning loop of upsertTomlTableKeys. */
  method UpsertLines(lines: seq<Text>, targetPath: Option<Path>, replacementKeys: set<Text>, replacementLines: seq<Text>)
    returns (r: Result<seq<Text>, LexError>, foundTable: bool)
    ensures r.Success? <==> AllHeadersParse(lines)
    ensures r.Success? ==> r.value == TableKept(lines, targetPath, replacementKeys, replacementLines, false)
    ensures r.Success? ==> (foundTable <==> HasTarget(lines, targetPath))
  {
    hide TableLine, InTargetAfter, SectionOf, TablePath, Strip;
    var kept: seq<Text> := [];
    var inTargetTable := false;
    foundTable := false;
    var i := 0;
    ghost var rest := TableKept(lines, targetPath, replacementKeys, replacementLines, false);
    while i < |lines|
      invariant 0 <= i <= |lines|
      invariant forall j :: 0 <= j < i ==> HeaderParses(lines[j])
      invariant foundTable <==> exists j :: 0 <= j < i && IsTarget(lines[j], targetPath)
      invariant rest == TableKept(lines[i..], targetPath, replacementKeys, replacementLines, inTargetTable)
      invariant TableKept(lines, targetPath, replacementKeys, replacementLines, false) == kept + rest
    {
      assert lines[i..][1..] == lines[i + 1..];
      var turn := UpsertLine(lines[i], targetPath, replacementKeys, replacementLines, inTargetTable, foundTable);
      if turn.Failure? {
        return Failure(turn.error), false;
      }
      inTargetTable, foundTable := turn.value.1, turn.value.2;
      rest := TableKept(lines[i + 1..], targetPath, replacementKeys, replacementLines, inTargetTable);
      ConcatAssociative(kept, turn.value.0, rest);
      kept := kept + turn.value.0;
      i := i + 1;
    }
    assert rest == [] && kept + rest == kept;
    return Success(kept), foundTable;
  }

  method UpsertTomlTableKeys(text: Text, tableHeader: Text, replacements: seq<Replacement>)
    returns (r: Result<Text, LexError>)
    ensures r.Success? <==> TablePath(tableHeader).Success? && AllHeadersParse(SplitLines(text))
    ensures r.Success? ==> r.value == Upserted(text, tableHeader, replacements)
  {
    var replacementLines := ReplacementLines(replacements);
    var targetPath := ParseTomlTablePath(tableHeader);
    if targetPath.Failure? {
      return Failure(targetPath.error);
    }
    TablePathOfStripped(tableHeader);
    var scanned, foundTable := UpsertLines(SplitLines(text), targetPath.value, ReplacementKeys(replacements), replacementLines);
    if scanned.Failure? {
      return Failure(scanned.error);
    }
    var kept := scanned.value + (if foundTable then [] else [[], tableHeader] + replacementLines);
    return Success(Trim(CollapseLineFeeds(Join(kept, [LF]))));
  }

  /** Both callers strip before parsing; the parser strips again to no effect. */
  lemma TablePathOfStripped(line: Text)
    ensures TablePath(Strip(line)) == TablePath(line)
  {
    StripIdempotent(line);
  }

  // ---------- the editors and the reader see the same lines ----------

  lemma StripTrimmed(rawLine: Text)
    ensures Trimmed(Strip(rawLine))
  {
    var _, _ := TrimSplits(Cut(rawLine, START));
  }

  lemma {:induction false} TrimEndNonEmpty(t: Text)
    requires t != [] && !IsSpace(t[0])
    ensures TrimEnd(t) != []
  {
    if IsSpace(t[|t| - 1]) {
      TrimEndNonEmpty(t[..|t| - 1]);
    }
  }

  lemma TrimNonEmpty(t: Text)
    requires t != [] && !IsSpace(t[0])
    ensures Trim(t) != []
  {
    assert TrimStart(t) == t;
    TrimEndNonEmpty(t);
  }

  lemma ViewAgrees(rawLine: Text)
    ensures View(rawLine).Header? <==> SectionOf(rawLine).Some?
    ensures View(rawLine).Header? ==> SectionOf(rawLine) == Some(View(rawLine).path)
    ensures View(rawLine).Pair? ==> KeyOf(rawLine) == Some(View(rawLine).key)
    ensures View(rawLine).Other? ==> KeyOf(rawLine) == None
    ensures !View(rawLine).Bad? ==> HeaderParses(rawLine)
    ensures IsBlank(rawLine) ==> View(rawLine) == Other
  {
    var line := Strip(rawLine);
    StripTrimmed(rawLine);
    var k := IndexOf(line, EQUALS);
    if 0 < k {
      TrimNonEmpty(line[..k]);
    }
    if line == [] {
      StripIdempotent(rawLine);
    }
  }

  lemma {:induction false} AcceptedHeadersParse(lines: seq<Text>)
    requires Bad !in Items(lines)
    ensures AllHeadersParse(lines)
  {
    if lines != [] {
      ViewAgrees(lines[0]);
      ReadStep(lines, 0, [], NO_VALUES, []);
      assert lines[0..] == lines;
      AcceptedHeadersParse(lines[1..]);
      assert forall i :: 1 <= i < |lines| ==> lines[i] == lines[1..][i - 1];
    }
  }

  // ---------- malformed headers ----------

  lemma BlankHeaderParses(rawLine: Text)
    requires IsBlank(rawLine)
    ensures HeaderParses(rawLine)
  {
  }

  /** Whether all headers parse depends on what there is to look at alone. */
  lemma {:induction false} HeadersLooked(lines: seq<Text>)
    ensures AllHeadersParse(lines) <==> forall line :: line in Looked(lines) ==> TablePath(line).Success?
  {
    hide Strip, TablePath;
    if lines != [] {
      HeadersLooked(lines[1..]);
      assert AllHeadersParse(lines) <==> HeaderParses(lines[0]) && AllHeadersParse(lines[1..]) by {
        assert forall i :: 1 <= i < |lines| ==> lines[i] == lines[1..][i - 1];
        assert forall i :: 0 <= i < |lines| - 1 ==> lines[1..][i] == lines[i + 1];
      }
      if IsBlank(lines[0]) {
        BlankHeaderParses(lines[0]);
      } else {
        assert Looked(lines) == [Strip(lines[0])] + Looked(lines[1..]);
        assert Strip(lines[0]) in Looked(lines);
      }
    }
  }

  lemma {:induction false} RootKeptHeaders(lines: seq<Text>, keys: set<Text>, section: Path)
    requires AllHeadersParse(lines)
    ensures AllHeadersParse(RootKept(lines, keys, section))
  {
    hide HeaderParses, DropsRootLine, SectionAfter;
    if lines != [] {
      RootKeptHeaders(lines[1..], keys, SectionAfter(lines[0], section));
    }
  }

  /** Removing root keys leaves no malformed header where there was none, even in texts the reader rejects. */
  lemma WithoutRootKeysHeaders(text: Text, keys: set<Text>)
    requires AllHeadersParse(SplitLines(text))
    ensures AllHeadersParse(SplitLines(WithoutRootKeys(text, keys)))
  {
    hide AllHeadersParse, SplitLines, RootKept, Looked;
    var lines := SplitLines(text);
    var kept := RootKept(lines, keys, []);
    RootKeptHeaders(lines, keys, []);
    RootKeptLineFree(lines, keys, []);
    LookedOfTrim(Join(kept, [LF]));
    LookedOfJoin(kept);
    HeadersLooked(kept);
    HeadersLooked(SplitLines(WithoutRootKeys(text, keys)));
  }

  // ---------- removeRootTomlKeys ----------

  function DropRoot(v: Values, keys: set<Text>): Values {
    v.(root := v.root - keys)
  }

  lemma RootLineReads(line: Text, keys: set<Text>, section: Path, v: Values)
    requires View(line) != Bad
    ensures SectionAfter(line, section) == NextSection(View(line), section)
    ensures DropRoot(NextValues(View(line), section, v), keys)
            == if DropsRootLine(line, keys, section) then DropRoot(v, keys)
               else NextValues(View(line), section, DropRoot(v, keys))
  {
    ViewAgrees(line);
    if View(line).Pair? {
      RootUpdate(v.root, keys, View(line).key, View(line).value);
    }
  }

  /** Removing root keys from the lines removes them from the root map and nothing else. */
  lemma {:induction false} RootKeptReads(lines: seq<Text>, keys: set<Text>, section: Path, v: Values)
    requires Bad !in Items(lines)
    ensures Bad !in Items(RootKept(lines, keys, section))
    ensures ReadItems(Items(RootKept(lines, keys, section)), section, DropRoot(v, keys))
            == DropRoot(ReadItems(Items(lines), section, v), keys)
  {
    hide ViewStripped, Strip, TablePath, KeyIn;
    if lines != [] {
      var line, rest := lines[0], lines[1..];
      assert lines == [line] + rest;
      ReadCons(line, rest, section, v, []);
      RootLineReads(line, keys, section, v);
      var next := SectionAfter(line, section);
      var kept := RootKept(rest, keys, next);
      RootKeptReads(rest, keys, next, NextValues(View(line), section, v));
      if DropsRootLine(line, keys, section) {
        ViewAgrees(line);
        assert [] + kept == kept;
      } else {
        ReadCons(line, kept, section, DropRoot(v, keys), []);
      }
    }
  }

  lemma RootUpdate(m: Table, keys: set<Text>, key: Text, value: Text)
    ensures m[key := value] - keys == if key in keys then m - keys else (m - keys)[key := value]
  {
  }

  lemma {:induction false} RootKeptLineFree(lines: seq<Text>, keys: set<Text>, section: Path)
    requires forall i :: 0 <= i < |lines| ==> LF !in lines[i]
    ensures forall i :: 0 <= i < |RootKept(lines, keys, section)| ==> LF !in RootKept(lines, keys, section)[i]
  {
    if lines != [] {
      RootKeptLineFree(lines[1..], keys, SectionAfter(lines[0], section));
    }
  }

  lemma WithoutRootKeysReads(text: Text, keys: set<Text>)
    requires Accepts(text)
    ensures Accepts(WithoutRootKeys(text, keys))
    ensures Read(WithoutRootKeys(text, keys)) == DropRoot(Read(text), keys)
  {
    var lines := SplitLines(text);
    var kept := RootKept(lines, keys, []);
    RootKeptLineFree(lines, keys, []);
    ItemsOfTrim(Join(kept, [LF]));
    ItemsOfJoin(kept);
    RootKeptReads(lines, keys, [], NO_VALUES);
    assert DropRoot(NO_VALUES, keys) == NO_VALUES;
  }

  // ---------- upsertTomlTableKeys ----------

  function RenderAll(pairs: seq<(Text, Text)>): seq<Text> {
    if pairs == [] then [] else [RenderPair(pairs[0].0, pairs[0].1)] + RenderAll(pairs[1..])
  }

  function SetAll(m: Table, pairs: seq<(Text, Text)>): Table
    decreases |pairs|
  {
    if pairs == [] then m else SetAll(m[pairs[0].0 := pairs[0].1], pairs[1..])
  }

  /** A table with the keys dropped and the pairs written. */
  function Rewritten(m: Table, keys: set<Text>, pairs: seq<(Text, Text)>): Table {
    (m - keys) + SetAll(map[], pairs)
  }

  ghost predicate PairsWithin(pairs: seq<(Text, Text)>, keys: set<Text>) {
    forall i :: 0 <= i < |pairs| ==> IsBareKey(pairs[i].0) && pairs[i].0 in keys
  }

  lemma {:induction false} SetAllUnion(m: Table, pairs: seq<(Text, Text)>)
    ensures SetAll(m, pairs) == m + SetAll(map[], pairs)
    decreases |pairs|
  {
    if pairs != [] {
      var key, value := pairs[0].0, pairs[0].1;
      SetAllUnion(m[key := value], pairs[1..]);
      SetAllUnion(map[key := value], pairs[1..]);
      assert map[][key := value] == map[key := value];
      assert m[key := value] + SetAll(map[], pairs[1..]) == m + (map[key := value] + SetAll(map[], pairs[1..]));
    } else {
      assert m + map[] == m;
    }
  }

  lemma {:induction false} SetAllKeys(pairs: seq<(Text, Text)>, keys: set<Text>)
    requires forall i :: 0 <= i < |pairs| ==> pairs[i].0 in keys
    ensures SetAll(map[], pairs).Keys <= keys
  {
    if pairs != [] {
      SetAllUnion(map[pairs[0].0 := pairs[0].1], pairs[1..]);
      assert map[][pairs[0].0 := pairs[0].1] == map[pairs[0].0 := pairs[0].1];
      SetAllKeys(pairs[1..], keys);
    }
  }

  /** How the edited reading w relates to the plain reading v once the table was met or not. */
  ghost predicate Edited(met: bool, v: Values, w: Values, id: Text, keys: set<Text>, pairs: seq<(Text, Text)>) {
    && w.root == v.root
    && if met then w.providers == v.providers[id := Rewritten(TableAt(v, id), keys, pairs)]
       else w.providers == v.providers && id !in v.providers
  }

  lemma RenderedView(key: Text, value: Text)
    requires IsBareKey(key)
    ensures View(RenderPair(key, value)) == Pair(key, value)
    ensures LF !in RenderPair(key, value)
  {
    RenderPairRoundTrip(key, value);
  }

  function WriteProvider(v: Values, id: Text, pairs: seq<(Text, Text)>): Values {
    v.(providers := v.providers[id := SetAll(TableAt(v, id), pairs)])
  }

  lemma WriteProviderCons(v: Values, id: Text, pairs: seq<(Text, Text)>)
    requires pairs != []
    ensures WriteProvider(v, id, pairs)
            == WriteProvider(ReadPair([MODEL_PROVIDERS, id], pairs[0].0, pairs[0].1, v), id, pairs[1..])
  {
    var key, value := pairs[0].0, pairs[0].1;
    var w := ReadPair([MODEL_PROVIDERS, id], key, value, v);
    assert w.providers == v.providers[id := TableAt(v, id)[key := value]];
    var t := SetAll(TableAt(v, id)[key := value], pairs[1..]);
    assert w.providers[id := t] == v.providers[id := t];
  }

  /** Rendered pairs read inside a provider section are written to that provider. */
  lemma {:induction false} RenderAllReads(pairs: seq<(Text, Text)>, rest: seq<Text>, id: Text, v: Values)
    requires forall i :: 0 <= i < |pairs| ==> IsBareKey(pairs[i].0)
    requires pairs != [] || id in v.providers
    requires Bad !in Items(rest)
    ensures Bad !in Items(RenderAll(pairs) + rest)
    ensures ReadItems(Items(RenderAll(pairs) + rest), [MODEL_PROVIDERS, id], v)
            == ReadItems(Items(rest), [MODEL_PROVIDERS, id], WriteProvider(v, id, pairs))
    decreases |pairs|
  {
    var section := [MODEL_PROVIDERS, id];
    if pairs == [] {
      assert RenderAll(pairs) + rest == rest;
      assert v.providers[id := v.providers[id]] == v.providers;
    } else {
      var line, tail := RenderPair(pairs[0].0, pairs[0].1), RenderAll(pairs[1..]) + rest;
      assert RenderAll(pairs) + rest == [line] + tail;
      RenderedView(pairs[0].0, pairs[0].1);
      var w := ReadPair(section, pairs[0].0, pairs[0].1, v);
      RenderAllReads(pairs[1..], rest, id, w);
      ReadCons(line, tail, section, v, []);
      WriteProviderCons(v, id, pairs);
    }
  }

  lemma RewrittenAbsorbs(m: Table, keys: set<Text>, pairs: seq<(Text, Text)>)
    ensures SetAll(Rewritten(m, keys, pairs), pairs) == Rewritten(m, keys, pairs)
    ensures SetAll(map[], pairs) == Rewritten(map[], keys, pairs)
  {
    SetAllUnion(Rewritten(m, keys, pairs), pairs);
    var none: Table := map[];
    assert none - keys == none;
  }

  /** Writing one key commutes with rewriting, and is absorbed when the key is rewritten. */
  lemma RewrittenUpdate(m: Table, keys: set<Text>, pairs: seq<(Text, Text)>, key: Text, value: Text)
    requires PairsWithin(pairs, keys)
    ensures Rewritten(m[key := value], keys, pairs)
            == if key in keys then Rewritten(m, keys, pairs) else Rewritten(m, keys, pairs)[key := value]
  {
    SetAllKeys(pairs, keys);
    RootUpdate(m, keys, key, value);
  }

  /** One kept pair read by both sides keeps them related. */
  lemma EditedPair(met: bool, v: Values, w: Values, id: Text, keys: set<Text>, pairs: seq<(Text, Text)>,
                   section: Path, key: Text, value: Text)
    requires PairsWithin(pairs, keys) && Edited(met, v, w, id, keys, pairs)
    requires section == [MODEL_PROVIDERS, id] ==> met && key !in keys
    ensures Edited(met, ReadPair(section, key, value, v), ReadPair(section, key, value, w), id, keys, pairs)
  {
    if IsProviderSection(section) {
      assert section == [MODEL_PROVIDERS, section[1]];
      if section[1] == id {
        EditedOwnPair(v, w, id, keys, pairs, key, value);
      } else {
        EditedOtherPair(met, v, w, id, keys, pairs, section[1], key, value);
      }
    }
    hide Rewritten, PairsWithin, SetProvider, TableAt;
  }

  lemma EditedOwnPair(v: Values, w: Values, id: Text, keys: set<Text>, pairs: seq<(Text, Text)>, key: Text, value: Text)
    requires PairsWithin(pairs, keys) && Edited(true, v, w, id, keys, pairs) && key !in keys
    ensures Edited(true, SetProvider(v, id, key, value), SetProvider(w, id, key, value), id, keys, pairs)
  {
    RewrittenUpdate(TableAt(v, id), keys, pairs, key, value);
    hide Rewritten, PairsWithin;
  }

  lemma EditedOtherPair(met: bool, v: Values, w: Values, id: Text, keys: set<Text>, pairs: seq<(Text, Text)>, other: Text, key: Text, value: Text)
    requires Edited(met, v, w, id, keys, pairs) && other != id
    ensures Edited(met, SetProvider(v, other, key, value), SetProvider(w, other, key, value), id, keys, pairs)
  {
    hide Rewritten;
    assert TableAt(w, other) == TableAt(v, other);
    assert TableAt(SetProvider(v, other, key, value), id) == TableAt(v, id);
  }

  /** One dropped pair read only by the plain side keeps them related. */
  lemma EditedDrop(v: Values, w: Values, id: Text, keys: set<Text>, pairs: seq<(Text, Text)>, key: Text, value: Text)
    requires PairsWithin(pairs, keys) && Edited(true, v, w, id, keys, pairs) && key in keys
    ensures Edited(true, ReadPair([MODEL_PROVIDERS, id], key, value, v), w, id, keys, pairs)
  {
    RewrittenUpdate(TableAt(v, id), keys, pairs, key, value);
  }

  // ---------- the table edit read back ----------

  /** One line that is not the target header, before and after the edit. */
  lemma TableLineReads(line: Text, id: Text, keys: set<Text>, pairs: seq<(Text, Text)>, section: Path, met: bool, v: Values, w: Values)
    requires View(line) != Bad && !IsTarget(line, Some([MODEL_PROVIDERS, id]))
    requires PairsWithin(pairs, keys) && Edited(met, v, w, id, keys, pairs)
    requires section == [MODEL_PROVIDERS, id] ==> met
    ensures var inTarget := section == [MODEL_PROVIDERS, id];
            var inside := InTargetAfter(line, Some([MODEL_PROVIDERS, id]), inTarget);
            && (inside <==> NextSection(View(line), section) == [MODEL_PROVIDERS, id])
            && Edited(met, NextValues(View(line), section, v),
                      if inside && KeyIn(line, keys) then w else NextValues(View(line), section, w), id, keys, pairs)
  {
    ViewAgrees(line);
    var view := View(line);
    if view.Pair? {
      if section == [MODEL_PROVIDERS, id] && view.key in keys {
        EditedDrop(v, w, id, keys, pairs, view.key, view.value);
      } else {
        EditedPair(met, v, w, id, keys, pairs, section, view.key, view.value);
      }
    }
  }

  /** The target header with the written pairs behind it puts the readings in the met relation. */
  lemma EditedHeader(met: bool, v: Values, w: Values, id: Text, keys: set<Text>, pairs: seq<(Text, Text)>)
    requires PairsWithin(pairs, keys) && Edited(met, v, w, id, keys, pairs)
    ensures Edited(true, v, WriteProvider(w, id, pairs), id, keys, pairs)
  {
    RewrittenAbsorbs(TableAt(v, id), keys, pairs);
  }

  function KeptFrom(lines: seq<Text>, id: Text, keys: set<Text>, pairs: seq<(Text, Text)>, section: Path): seq<Text> {
    TableKept(lines, Some([MODEL_PROVIDERS, id]), keys, RenderAll(pairs), section == [MODEL_PROVIDERS, id])
  }

  /** The claim of TableKeptReads for given lines and states. */
  ghost predicate KeptReads(lines: seq<Text>, id: Text, keys: set<Text>, pairs: seq<(Text, Text)>,
                            section: Path, met: bool, v: Values, w: Values) {
    var kept := KeptFrom(lines, id, keys, pairs, section);
    && Bad !in Items(kept)
    && Edited(met || HasTarget(lines, Some([MODEL_PROVIDERS, id])),
              ReadItems(Items(lines), section, v), ReadItems(Items(kept), section, w), id, keys, pairs)
  }

  lemma HasTargetCons(line: Text, rest: seq<Text>, target: Option<Path>)
    ensures HasTarget([line] + rest, target) <==> IsTarget(line, target) || HasTarget(rest, target)
  {
    var lines := [line] + rest;
    assert lines[0] == line;
    assert forall i :: 0 <= i < |rest| ==> rest[i] == lines[i + 1];
    assert forall i :: 1 <= i < |lines| ==> lines[i] == rest[i - 1];
  }

  lemma TargetLineKept(line: Text, rest: seq<Text>, id: Text, keys: set<Text>, pairs: seq<(Text, Text)>, section: Path)
    requires IsTarget(line, Some([MODEL_PROVIDERS, id]))
    ensures KeptFrom([line] + rest, id, keys, pairs, section)
            == [line] + (RenderAll(pairs) + KeptFrom(rest, id, keys, pairs, [MODEL_PROVIDERS, id]))
  {
    assert ([line] + rest)[1..] == rest;
    ConcatAssociative([line], RenderAll(pairs), KeptFrom(rest, id, keys, pairs, [MODEL_PROVIDERS, id]));
  }

  lemma TargetBlockReads(line: Text, kept: seq<Text>, id: Text, pairs: seq<(Text, Text)>, section: Path, w: Values)
    requires IsTarget(line, Some([MODEL_PROVIDERS, id])) && pairs != [] && Bad !in Items(kept)
    requires forall i :: 0 <= i < |pairs| ==> IsBareKey(pairs[i].0)
    ensures Bad !in Items([line] + (RenderAll(pairs) + kept))
    ensures ReadItems(Items([line] + (RenderAll(pairs) + kept)), section, w)
            == ReadItems(Items(kept), [MODEL_PROVIDERS, id], WriteProvider(w, id, pairs))
  {
    ViewAgrees(line);
    RenderAllReads(pairs, kept, id, w);
    ReadCons(line, RenderAll(pairs) + kept, section, w, []);
  }

  lemma KeptReadsTarget(line: Text, rest: seq<Text>, id: Text, keys: set<Text>, pairs: seq<(Text, Text)>,
                        section: Path, met: bool, v: Values, w: Values)
    requires pairs != [] && PairsWithin(pairs, keys)
    requires IsTarget(line, Some([MODEL_PROVIDERS, id]))
    requires KeptReads(rest, id, keys, pairs, [MODEL_PROVIDERS, id], true, v, WriteProvider(w, id, pairs))
    ensures KeptReads([line] + rest, id, keys, pairs, section, met, v, w)
  {
    ViewAgrees(line);
    HasTargetCons(line, rest, Some([MODEL_PROVIDERS, id]));
    TargetLineKept(line, rest, id, keys, pairs, section);
    TargetBlockReads(line, KeptFrom(rest, id, keys, pairs, [MODEL_PROVIDERS, id]), id, pairs, section, w);
    ReadCons(line, rest, section, v, []);
  }

  lemma KeptReadsOther(line: Text, rest: seq<Text>, id: Text, keys: set<Text>, pairs: seq<(Text, Text)>,
                       section: Path, met: bool, v: Values, w: Values)
    requires View(line) != Bad && !IsTarget(line, Some([MODEL_PROVIDERS, id]))
    requires var target := Some([MODEL_PROVIDERS, id]);
             var inside := InTargetAfter(line, target, section == [MODEL_PROVIDERS, id]);
             && (inside <==> NextSection(View(line), section) == [MODEL_PROVIDERS, id])
             && KeptReads(rest, id, keys, pairs, NextSection(View(line), section), met, NextValues(View(line), section, v),
                          if inside && KeyIn(line, keys) then w else NextValues(View(line), section, w))
    ensures KeptReads([line] + rest, id, keys, pairs, section, met, v, w)
  {
    ViewAgrees(line);
    HasTargetCons(line, rest, Some([MODEL_PROVIDERS, id]));
    var next := NextSection(View(line), section);
    var kept := KeptFrom(rest, id, keys, pairs, next);
    assert ([line] + rest)[1..] == rest;
    ReadCons(line, rest, section, v, []);
    if next == [MODEL_PROVIDERS, id] && KeyIn(line, keys) {
      assert KeptFrom([line] + rest, id, keys, pairs, section) == [] + kept == kept;
    } else {
      assert KeptFrom([line] + rest, id, keys, pairs, section) == [line] + kept;
      ReadCons(line, kept, section, w, []);
    }
  }

  /** The edited lines read like the original ones, except for the rewritten table. */
  lemma {:induction false} TableKeptReads(lines: seq<Text>, id: Text, keys: set<Text>, pairs: seq<(Text, Text)>,
                                          section: Path, met: bool, v: Values, w: Values)
    requires Bad !in Items(lines)
    requires pairs != [] && PairsWithin(pairs, keys) && Edited(met, v, w, id, keys, pairs)
    requires section == [MODEL_PROVIDERS, id] ==> met
    ensures KeptReads(lines, id, keys, pairs, section, met, v, w)
  {
    if lines != [] {
      var line, rest := lines[0], lines[1..];
      assert lines == [line] + rest;
      ReadCons(line, rest, section, v, []);
      ViewAgrees(line);
      var target: Option<Path> := Some([MODEL_PROVIDERS, id]);
      if IsTarget(line, target) {
        EditedHeader(met, v, w, id, keys, pairs);
        TableKeptReads(rest, id, keys, pairs, [MODEL_PROVIDERS, id], true, v, WriteProvider(w, id, pairs));
        KeptReadsTarget(line, rest, id, keys, pairs, section, met, v, w);
      } else {
        TableLineReads(line, id, keys, pairs, section, met, v, w);
        var inside := InTargetAfter(line, target, section == [MODEL_PROVIDERS, id]);
        var after := if inside && KeyIn(line, keys) then w else NextValues(View(line), section, w);
        TableKeptReads(rest, id, keys, pairs, NextSection(View(line), section), met, NextValues(View(line), section, v), after);
        KeptReadsOther(line, rest, id, keys, pairs, section, met, v, w);
      }
    }
  }

  ghost predicate LineFree(lines: seq<Text>) {
    forall line :: line in lines ==> LF !in line
  }

  lemma {:induction false} TableKeptLineFree(lines: seq<Text>, target: Option<Path>, keys: set<Text>, inserted: seq<Text>, inTarget: bool)
    requires LineFree(lines) && LineFree(inserted)
    ensures LineFree(TableKept(lines, target, keys, inserted, inTarget))
  {
    if lines != [] {
      assert LineFree([lines[0]]) && LineFree(lines[1..]);
      assert LineFree(TableLine(lines[0], target, keys, inserted, inTarget));
      TableKeptLineFree(lines[1..], target, keys, inserted, InTargetAfter(lines[0], target, inTarget));
    }
  }

  lemma {:induction false} RenderAllLineFree(pairs: seq<(Text, Text)>)
    requires forall i :: 0 <= i < |pairs| ==> IsBareKey(pairs[i].0)
    ensures LineFree(RenderAll(pairs))
  {
    if pairs != [] {
      RenderedView(pairs[0].0, pairs[0].1);
      RenderAllLineFree(pairs[1..]);
    }
  }

  /** Joining, collapsing and trimming lines does not change what is read from them. */
  lemma ItemsOfFinished(lines: seq<Text>)
    requires LineFree(lines)
    ensures ItemsOf(Trim(CollapseLineFeeds(Join(lines, [LF])))) == Items(lines)
  {
    var joined := Join(lines, [LF]);
    ItemsOfTrim(CollapseLineFeeds(joined));
    ItemsOfCollapse(joined);
    ItemsOfJoin(lines);
  }

  lemma AppendedBlockReads(id: Text, pairs: seq<(Text, Text)>, section: Path, v: Values)
    requires BracketFree(id) && pairs != []
    requires forall i :: 0 <= i < |pairs| ==> IsBareKey(pairs[i].0)
    ensures var block := [[], ProviderHeader(id)] + RenderAll(pairs);
            && Bad !in Items(block)
            && ReadItems(Items(block), section, v) == WriteProvider(v, id, pairs)
  {
    var header := ProviderHeader(id);
    var rest := RenderAll(pairs);
    ProviderHeaderRoundTrip(id);
    assert IsBlank([]) by { TrimIdentity([]); }
    BlankIsOther([]);
    ReadCons([], [header] + rest, section, v, []);
    ReadCons(header, rest, section, v, []);
    RenderAllReads(pairs, [], id, v);
    hide View, Items, ReadItems, ProviderHeader, RenderAll, WriteProvider;
    assert rest + [] == rest;
    assert [[], header] + rest == [[]] + ([header] + rest);
  }

  /** A table that was not there is appended with its header and read as a new provider. */
  lemma AppendedTableReads(kept: seq<Text>, id: Text, pairs: seq<(Text, Text)>)
    requires BracketFree(id) && Bad !in Items(kept) && pairs != []
    requires forall i :: 0 <= i < |pairs| ==> IsBareKey(pairs[i].0)
    ensures var all := kept + ([[], ProviderHeader(id)] + RenderAll(pairs));
            && Bad !in Items(all)
            && ReadItems(Items(all), [], NO_VALUES) == WriteProvider(ReadItems(Items(kept), [], NO_VALUES), id, pairs)
  {
    hide View, Items, ReadItems, ProviderHeader, RenderAll, WriteProvider, LastSection;
    var block := [[], ProviderHeader(id)] + RenderAll(pairs);
    ItemsAppend(kept, block);
    AppendedBlockReads(id, pairs, LastSection(Items(kept), []), ReadItems(Items(kept), [], NO_VALUES));
    ReadItemsAppend(Items(kept), Items(block), [], NO_VALUES);
  }

  /** What the reader sees after writing pairs to a provider table. */
  lemma UpsertedReads(text: Text, id: Text, keys: set<Text>, pairs: seq<(Text, Text)>)
    requires Accepts(text) && BracketFree(id) && pairs != [] && PairsWithin(pairs, keys)
    ensures var lines := UpsertedLines(SplitLines(text), ProviderHeader(id), keys, RenderAll(pairs));
            var out := Trim(CollapseLineFeeds(Join(lines, [LF])));
            && Accepts(out)
            && Read(out) == Read(text).(providers := Read(text).providers[id := Rewritten(TableAt(Read(text), id), keys, pairs)])
  {
    var source := SplitLines(text);
    var target: Option<Path> := Some([MODEL_PROVIDERS, id]);
    ProviderHeaderRoundTrip(id);
    assert PathOf(ProviderHeader(id)) == target;
    var kept := TableKept(source, target, keys, RenderAll(pairs), false);
    TableKeptReads(source, id, keys, pairs, [], false, NO_VALUES, NO_VALUES);
    var lines := UpsertedLines(source, ProviderHeader(id), keys, RenderAll(pairs));
    UpsertedLinesLineFree(source, id, keys, pairs);
    ItemsOfFinished(lines);
    if HasTarget(source, target) {
      assert lines == kept;
    } else {
      AppendedTableReads(kept, id, pairs);
      RewrittenAbsorbs(map[], keys, pairs);
    }
  }

  lemma UpsertedLinesLineFree(lines: seq<Text>, id: Text, keys: set<Text>, pairs: seq<(Text, Text)>)
    requires LineFree(lines)
    requires forall i :: 0 <= i < |pairs| ==> IsBareKey(pairs[i].0)
    ensures LineFree(UpsertedLines(lines, ProviderHeader(id), keys, RenderAll(pairs)))
  {
    hide ProviderHeader, RenderAll, PathOf, TableKept, HasTarget;
    RenderAllLineFree(pairs);
    HeaderLineFree(id);
    var header, inserted := ProviderHeader(id), RenderAll(pairs);
    TableKeptLineFree(lines, PathOf(header), keys, inserted, false);
    LineFreeBlock(header, inserted);
    LineFreeBoth(TableKept(lines, PathOf(header), keys, inserted, false), [[], header] + inserted);
  }

  lemma LineFreeBlock(header: Text, inserted: seq<Text>)
    requires LF !in header && LineFree(inserted)
    ensures LineFree([[], header] + inserted)
  {
  }

  lemma LineFreeBoth(a: seq<Text>, b: seq<Text>)
    requires LineFree(a) && LineFree(b)
    ensures LineFree(a + b) && LineFree(a + [])
  {
  }

  lemma HeaderLineFree(id: Text)
    ensures LF !in ProviderHeader(id)
  {
    ModelProvidersIsBare();
    BareIsPlain(MODEL_PROVIDERS);
    EscapeUnits(id, LF);
    if IsBareKey(id) {
      BareIsPlain(id);
    }
  }
}
