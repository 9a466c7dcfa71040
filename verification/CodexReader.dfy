/**
  The line-oriented reader of the Codex config (readLocalCodexConfigValues) and what it
  does not notice: carriage returns, blank lines, surrounding space and runs of line feeds.
  */
module CodexReader {
  import opened Wrappers
  import opened JsText
  import opened CodexLexer

  type Table = map<Text, Text>

  /** rootValues and providerValues. */
  datatype Values = Values(root: Table, providers: map<Text, Table>)

  const NO_VALUES := Values(map[], map[])

  /** What one line means to the reader. */
  datatype Item =
    | Header(path: Path)
    | Pair(key: Text, value: Text)
    | Other
    | Bad

  /** The view of a line after comment stripping. */
  function ViewStripped(line: Text): Item {
    match TablePath(line)
    case Failure(_) => Bad
    case Success(Some(path)) => Header(path)
    case Success(None) =>
      var separatorIndex := IndexOf(line, EQUALS);
      if separatorIndex == 0 || separatorIndex == |line| then Other
      else
        match ParseTomlValue(line[separatorIndex + 1..])
        case Failure(_) => Bad
        case Success(value) => Pair(Trim(line[..separatorIndex]), value)
  }

  function View(rawLine: Text): Item {
    ViewStripped(Strip(rawLine))
  }

  predicate IsBlank(rawLine: Text) {
    Strip(rawLine) == []
  }

  /** The views of the lines the reader looks at. */
  function Items(lines: seq<Text>): seq<Item> {
    if lines == [] then []
    else (if IsBlank(lines[0]) then [] else [View(lines[0])]) + Items(lines[1..])
  }

  function ItemsOf(text: Text): seq<Item> {
    Items(SplitLines(text))
  }

  predicate IsProviderSection(section: Path) {
    |section| == 2 && section[0] == MODEL_PROVIDERS
  }

  function TableAt(v: Values, id: Text): Table {
    if id in v.providers then v.providers[id] else map[]
  }

  function Get(t: Table, key: Text): Option<Text> {
    if key in t then Some(t[key]) else None
  }

  function SetProvider(v: Values, id: Text, key: Text, value: Text): Values {
    v.(providers := v.providers[id := TableAt(v, id)[key := value]])
  }

  function ReadPair(section: Path, key: Text, value: Text, v: Values): Values {
    if section == [] then v.(root := v.root[key := value])
    else if IsProviderSection(section) then SetProvider(v, section[1], key, value)
    else v
  }

  function NextSection(item: Item, section: Path): Path {
    if item.Header? then item.path else section
  }

  function NextValues(item: Item, section: Path, v: Values): Values {
    if item.Pair? then ReadPair(section, item.key, item.value, v) else v
  }

  function NextOrder(item: Item, section: Path, order: seq<Text>): seq<Text> {
    if item.Pair? && IsProviderSection(section) && section[1] !in order then order + [section[1]] else order
  }

  /** The reader as a fold over items. */
  function ReadItems(items: seq<Item>, section: Path, v: Values): Values {
    if items == [] then v
    else ReadItems(items[1..], NextSection(items[0], section), NextValues(items[0], section, v))
  }

  /** The insertion order of the provider map: ids by their first pair. */
  function OrderOf(items: seq<Item>, section: Path, order: seq<Text>): seq<Text> {
    if items == [] then order
    else OrderOf(items[1..], NextSection(items[0], section), NextOrder(items[0], section, order))
  }

  function ProviderOrder(text: Text): seq<Text> {
    OrderOf(ItemsOf(text), [], [])
  }

  /** The section in force after the items. */
  function LastSection(items: seq<Item>, section: Path): Path {
    if items == [] then section else LastSection(items[1..], NextSection(items[0], section))
  }

  predicate Accepts(text: Text) {
    Bad !in ItemsOf(text)
  }

  function Read(text: Text): Values {
    ReadItems(ItemsOf(text), [], NO_VALUES)
  }

  /** The provider order lists exactly the providers, each once. */
  ghost predicate OrderMatches(order: seq<Text>, v: Values) {
    && (forall id :: id in order <==> id in v.providers)
    && forall i, j :: 0 <= i < j < |order| ==> order[i] != order[j]
  }

  lemma BlankIsOther(rawLine: Text)
    requires IsBlank(rawLine)
    ensures View(rawLine) == Other
  {
    StripIdempotent(rawLine);
  }

  lemma ReadCons(line: Text, rest: seq<Text>, section: Path, v: Values, order: seq<Text>)
    ensures ReadItems(Items([line] + rest), section, v)
            == ReadItems(Items(rest), NextSection(View(line), section), NextValues(View(line), section, v))
    ensures OrderOf(Items([line] + rest), section, order)
            == OrderOf(Items(rest), NextSection(View(line), section), NextOrder(View(line), section, order))
    ensures Bad in Items([line] + rest) <==> View(line) == Bad || Bad in Items(rest)
  {
    hide Strip, ViewStripped, ReadPair;
    assert ([line] + rest)[1..] == rest;
    if IsBlank(line) {
      BlankIsOther(line);
      assert Items([line] + rest) == Items(rest);
    } else {
      assert Items([line] + rest) == [View(line)] + Items(rest);
      assert Items([line] + rest)[1..] == Items(rest);
    }
  }

  lemma ReadStep(lines: seq<Text>, i: nat, section: Path, v: Values, order: seq<Text>)
    requires i < |lines|
    ensures ReadItems(Items(lines[i..]), section, v)
            == ReadItems(Items(lines[i + 1..]), NextSection(View(lines[i]), section), NextValues(View(lines[i]), section, v))
    ensures OrderOf(Items(lines[i..]), section, order)
            == OrderOf(Items(lines[i + 1..]), NextSection(View(lines[i]), section), NextOrder(View(lines[i]), section, order))
    ensures Bad in Items(lines[i..]) <==> View(lines[i]) == Bad || Bad in Items(lines[i + 1..])
    ensures IsBlank(lines[i]) ==> View(lines[i]) == Other
  {
    hide Items, View, Strip, ReadItems, OrderOf;
    assert lines[i..] == [lines[i]] + lines[i + 1..];
    ReadCons(lines[i], lines[i + 1..], section, v, order);
    if IsBlank(lines[i]) {
      BlankIsOther(lines[i]);
    }
  }

  /** Reader state between two lines. */
  datatype Reading = Reading(section: Path, values: Values, order: seq<Text>)

  function Next(item: Item, r: Reading): Reading {
    Reading(NextSection(item, r.section), NextValues(item, r.section, r.values), NextOrder(item, r.section, r.order))
  }

  /** One turn of the reader's loop. */
  method ReadLine(rawLine: Text, before: Reading) returns (r: Result<Reading, LexError>)
    requires forall id :: id in before.order <==> id in before.values.providers
    ensures r.Failure? <==> View(rawLine) == Bad
    ensures r.Success? ==> r.value == Next(View(rawLine), before)
  {
    var line := StripTomlInlineComment(rawLine);
    if line == [] {
      BlankIsOther(rawLine);
      return Success(before);
    }
    var parsed := ParseTomlTablePath(line);
    if parsed.Failure? {
      return Failure(parsed.error);
    }
    if parsed.value.Some? {
      return Success(before.(section := parsed.value.value));
    }
    var separatorIndex := IndexOf(line, EQUALS);
    if separatorIndex == 0 || separatorIndex == |line| {
      return Success(before);
    }
    var key := Trim(line[..separatorIndex]);
    var value := ParseTomlValue(line[separatorIndex + 1..]);
    if value.Failure? {
      return Failure(value.error);
    }
    var v := before.values;
    if before.section == [] {
      return Success(before.(values := v.(root := v.root[key := value.value])));
    }
    if |before.section| == 2 && before.section[0] == MODEL_PROVIDERS {
      var providerId := before.section[1];
      var providerEntry := if providerId in v.providers then v.providers[providerId] else map[];
      var order := if providerId in v.providers then before.order else before.order + [providerId];
      return Success(Reading(before.section, v.(providers := v.providers[providerId := providerEntry[key := value.value]]), order));
    }
    return Success(before);
  }

  /** The provider map is returned with its key order, which selectInactiveProviderId depends on. */
  method ReadLocalCodexConfigValues(contents: Text) returns (r: Result<Values, LexError>, order: seq<Text>)
    ensures r.Success? <==> Accepts(contents)
    ensures r.Success? ==> r.value == Read(contents) && order == ProviderOrder(contents)
  {
    hide SplitLines;
    hide ViewStripped, Strip;
    var state := Reading([], NO_VALUES, []);
    var lines := SplitLines(contents);
    var i := 0;
    ghost var rest := Items(lines);
    while i < |lines|
      invariant 0 <= i <= |lines|
      invariant rest == Items(lines[i..])
      invariant Bad in ItemsOf(contents) <==> Bad in rest
      invariant Read(contents) == ReadItems(rest, state.section, state.values)
      invariant ProviderOrder(contents) == OrderOf(rest, state.section, state.order)
      invariant forall id :: id in state.order <==> id in state.values.providers
    {
      ReadStep(lines, i, state.section, state.values, state.order);
      rest := Items(lines[i + 1..]);
      var next := ReadLine(lines[i], state);
      if next.Failure? {
        return Failure(next.error), [];
      }
      state := next.value;
      i := i + 1;
    }
    assert rest == [];
    return Success(state.values), state.order;
  }

  // ---------- what the reader does not notice ----------

  /** What there is to look at in the lines: those that are not blank, stripped. */
  function Looked(lines: seq<Text>): seq<Text> {
    if lines == [] then []
    else (if IsBlank(lines[0]) then [] else [Strip(lines[0])]) + Looked(lines[1..])
  }

  function LookedOf(text: Text): seq<Text> {
    Looked(SplitLines(text))
  }

  function Viewed(stripped: seq<Text>): seq<Item> {
    if stripped == [] then [] else [ViewStripped(stripped[0])] + Viewed(stripped[1..])
  }

  lemma {:induction false} LookedAppend(a: seq<Text>, b: seq<Text>)
    ensures Looked(a + b) == Looked(a) + Looked(b)
  {
    hide Strip;
    if a == [] {
      assert a + b == b;
    } else {
      assert (a + b)[1..] == a[1..] + b;
      LookedAppend(a[1..], b);
    }
  }

  lemma DropCrUnseen(line: Text)
    ensures Strip(DropCr(line)) == Strip(line)
  {
    if DropCr(line) != line {
      assert line == DropCr(line) + [CR];
      StripAppend(DropCr(line), CR);
    }
  }

  lemma LookedOne(line: Text)
    ensures Looked([line]) == if IsBlank(line) then [] else [Strip(line)]
  {
    assert [line][1..] == [];
  }

  /** A text is looked at line feed by line feed. */
  lemma LookedOfFirstLine(line: Text, rest: Text)
    requires LF !in line
    ensures LookedOf(line + [LF] + rest) == Looked([line]) + LookedOf(rest)
  {
    hide Strip;
    var t := line + [LF] + rest;
    IndexOfUnique(line, LF, rest);
    assert t[..|line|] == line && t[|line| + 1..] == rest;
    assert SplitLines(t) == [DropCr(line)] + SplitLines(rest);
    LookedAppend([DropCr(line)], SplitLines(rest));
    DropCrUnseen(line);
    LookedOne(line);
    LookedOne(DropCr(line));
  }

  lemma LookedOfLastLine(line: Text)
    requires LF !in line
    ensures LookedOf(line) == Looked([line])
  {
    IndexOfAbsent(line, LF);
  }

  lemma FirstLine(t: Text) returns (line: Text, rest: Text)
    requires LF in t
    ensures LF !in line && t == line + [LF] + rest && |rest| < |t|
  {
    var k := IndexOf(t, LF);
    assert t[..|t|] == t;
    line, rest := t[..k], t[k + 1..];
  }

  /** Looking distributes over a line feed between two texts. */
  lemma {:induction false} LookedOfConcat(a: Text, b: Text)
    ensures LookedOf(a + [LF] + b) == LookedOf(a) + LookedOf(b)
    decreases |a|
  {
    hide LookedOf, Looked;
    if LF !in a {
      LookedOfFirstLine(a, b);
      LookedOfLastLine(a);
    } else {
      var line, rest := FirstLine(a);
      LookedOfConcat(rest, b);
      LookedOfConcatStep(line, rest, b);
    }
  }

  lemma LookedOfConcatStep(line: Text, rest: Text, b: Text)
    requires LF !in line && LookedOf(rest + [LF] + b) == LookedOf(rest) + LookedOf(b)
    ensures LookedOf(line + [LF] + rest + [LF] + b) == LookedOf(line + [LF] + rest) + LookedOf(b)
  {
    hide LookedOf, Looked;
    var both := rest + [LF] + b;
    assert line + [LF] + rest + [LF] + b == line + [LF] + both;
    LookedOfFirstLine(line, both);
    LookedOfFirstLine(line, rest);
    ConcatAssociative(Looked([line]), LookedOf(rest), LookedOf(b));
  }

  lemma LookedOfEmpty()
    ensures LookedOf([]) == []
  {
    LookedOfLastLine([]);
    LookedOne([]);
  }

  lemma LookedOfSpaceFirst(c: Unit, t: Text)
    requires IsSpace(c)
    ensures LookedOf([c] + t) == LookedOf(t)
  {
    hide LookedOf, Looked, Strip;
    if c == LF {
      assert [] + [LF] + t == [c] + t;
      LookedOfConcat([], t);
      LookedOfEmpty();
    } else {
      var k := IndexOf(t, LF);
      var line := t[..k];
      StripPrepend(c, line);
      LookedOne(line);
      LookedOne([c] + line);
      if k == |t| {
        assert line == t;
        LookedOfLastLine(t);
        LookedOfLastLine([c] + t);
      } else {
        var rest := t[k + 1..];
        assert t == line + [LF] + rest;
        assert [c] + t == ([c] + line) + [LF] + rest;
        LookedOfFirstLine(line, rest);
        LookedOfFirstLine([c] + line, rest);
      }
    }
  }

  lemma {:induction false} LookedOfSpaceLast(t: Text, c: Unit)
    requires IsSpace(c)
    ensures LookedOf(t + [c]) == LookedOf(t)
    decreases |t|
  {
    hide LookedOf, Looked, Strip;
    if c == LF {
      assert t + [LF] + [] == t + [c];
      LookedOfConcat(t, []);
      LookedOfEmpty();
    } else {
      var k := IndexOf(t, LF);
      if k == |t| {
        assert t[..k] == t;
        StripAppend(t, c);
        LookedOne(t);
        LookedOne(t + [c]);
        LookedOfLastLine(t);
        LookedOfLastLine(t + [c]);
      } else {
        var line, rest := t[..k], t[k + 1..];
        assert t == line + [LF] + rest;
        assert t + [c] == line + [LF] + (rest + [c]);
        LookedOfFirstLine(line, rest);
        LookedOfFirstLine(line, rest + [c]);
        LookedOfSpaceLast(rest, c);
      }
    }
  }

  lemma {:induction false} LookedOfSpaceAround(before: Text, t: Text, after: Text)
    requires AllSpace(before) && AllSpace(after)
    ensures LookedOf(before + t + after) == LookedOf(t)
    decreases |before| + |after|
  {
    hide LookedOf;
    if before != [] {
      assert before + t + after == [before[0]] + (before[1..] + t + after);
      LookedOfSpaceFirst(before[0], before[1..] + t + after);
      LookedOfSpaceAround(before[1..], t, after);
    } else if after != [] {
      var last := |after| - 1;
      assert before + t + after == (before + t + after[..last]) + [after[last]];
      LookedOfSpaceLast(before + t + after[..last], after[last]);
      LookedOfSpaceAround(before, t, after[..last]);
    } else {
      assert before + t + after == t;
    }
  }

  /** Trimming a whole text does not change what is looked at. */
  lemma LookedOfTrim(t: Text)
    ensures LookedOf(Trim(t)) == LookedOf(t)
  {
    hide LookedOf, Trim;
    var before, after := TrimSplits(t);
    LookedOfSpaceAround(before, Trim(t), after);
  }

  lemma LeadingRun(tail: Text) returns (run: Text, rest: Text)
    requires tail != [] && tail[0] == LF
    ensures run == tail[..LeadingLineFeeds(tail)] && rest == tail[LeadingLineFeeds(tail)..]
    ensures tail == run + rest && |rest| < |tail|
    ensures run != [] && forall i :: 0 <= i < |run| ==> run[i] == LF
  {
    var n := LeadingLineFeeds(tail);
    run, rest := tail[..n], tail[n..];
  }

  lemma CollapseStep(t: Text) returns (line: Text, run: Text, rest: Text)
    requires LF in t
    ensures t == line + run + rest && |rest| < |t| && LF !in line
    ensures CollapseLineFeeds(t) == line + ShortRun(run) + CollapseLineFeeds(rest)
    ensures run != [] && forall i :: 0 <= i < |run| ==> run[i] == LF
  {
    var k := IndexOf(t, LF);
    assert k < |t| by {
      assert t[..|t|] == t;
    }
    line := t[..k];
    var tail := t[k..];
    run, rest := LeadingRun(tail);
    assert t == line + tail;
    ConcatAssociative(line, run, rest);
  }

  /** Collapsing runs of line feeds does not change what is looked at. */
  lemma {:induction false} LookedOfCollapse(t: Text)
    ensures LookedOf(CollapseLineFeeds(t)) == LookedOf(t)
    decreases |t|
  {
    hide LookedOf, Looked;
    if LF in t {
      var line, run, rest := CollapseStep(t);
      LookedOfCollapse(rest);
      LookedOfLineFeeds(line, run, rest);
      LookedOfLineFeeds(line, ShortRun(run), CollapseLineFeeds(rest));
    }
  }

  lemma {:induction false} LookedOfLineFeeds(line: Text, run: Text, rest: Text)
    requires LF !in line && run != [] && forall i :: 0 <= i < |run| ==> run[i] == LF
    ensures LookedOf(line + run + rest) == Looked([line]) + LookedOf(rest)
  {
    hide LookedOf, Looked;
    assert AllSpace(run[1..]);
    assert run == [LF] + run[1..];
    assert line + run + rest == line + [LF] + (run[1..] + rest + []);
    LookedOfFirstLine(line, run[1..] + rest + []);
    LookedOfSpaceAround(run[1..], rest, []);
  }

  /** Joining lines with line feeds and splitting them again gives the same to look at. */
  lemma {:induction false} LookedOfJoin(lines: seq<Text>)
    requires forall i :: 0 <= i < |lines| ==> LF !in lines[i]
    ensures LookedOf(Join(lines, [LF])) == Looked(lines)
  {
    hide LookedOf, Strip;
    if lines == [] {
      LookedOfEmpty();
    } else if |lines| == 1 {
      assert lines == [lines[0]];
      LookedOfLastLine(lines[0]);
    } else {
      LookedOfFirstLine(lines[0], Join(lines[1..], [LF]));
      LookedOfJoin(lines[1..]);
      LookedAppend([lines[0]], lines[1..]);
      assert lines == [lines[0]] + lines[1..];
    }
  }

  // ---------- the same for items ----------

  lemma {:induction false} ViewedAppend(a: seq<Text>, b: seq<Text>)
    ensures Viewed(a + b) == Viewed(a) + Viewed(b)
  {
    hide ViewStripped;
    if a == [] {
      assert a + b == b;
    } else {
      assert (a + b)[1..] == a[1..] + b;
      ViewedAppend(a[1..], b);
    }
  }

  lemma ViewedNone(stripped: seq<Text>)
    requires stripped == []
    ensures Viewed(stripped) == []
  {
  }

  lemma {:induction false} ItemsAreViewed(lines: seq<Text>)
    ensures Items(lines) == Viewed(Looked(lines))
  {
    hide Strip, ViewStripped;
    if lines != [] {
      var rest := Looked(lines[1..]);
      ItemsAreViewed(lines[1..]);
      if IsBlank(lines[0]) {
        assert Looked(lines) == [] + rest == rest;
      } else {
        assert ([Strip(lines[0])] + rest)[1..] == rest;
      }
    }
  }

  lemma ItemsAppend(a: seq<Text>, b: seq<Text>)
    ensures Items(a + b) == Items(a) + Items(b)
  {
    LookedAppend(a, b);
    ItemsAreViewed(a);
    ItemsAreViewed(b);
    ItemsAreViewed(a + b);
    ViewedAppend(Looked(a), Looked(b));
  }

  lemma ItemsOne(line: Text)
    ensures Items([line]) == if IsBlank(line) then [] else [View(line)]
  {
    assert [line][1..] == [];
  }

  lemma ItemsOfConcat(a: Text, b: Text)
    ensures ItemsOf(a + [LF] + b) == ItemsOf(a) + ItemsOf(b)
  {
    LookedOfConcat(a, b);
    ItemsAreViewed(SplitLines(a));
    ItemsAreViewed(SplitLines(b));
    ItemsAreViewed(SplitLines(a + [LF] + b));
    ViewedAppend(LookedOf(a), LookedOf(b));
  }

  lemma ItemsOfEmpty()
    ensures ItemsOf([]) == []
  {
    LookedOfEmpty();
    ItemsAreViewed(SplitLines([]));
    ViewedNone(LookedOf([]));
  }

  lemma ItemsOfSpaceFirst(c: Unit, t: Text)
    requires IsSpace(c)
    ensures ItemsOf([c] + t) == ItemsOf(t)
  {
    LookedOfSpaceFirst(c, t);
    ItemsAreViewed(SplitLines(t));
    ItemsAreViewed(SplitLines([c] + t));
  }

  /** Trimming a whole text does not change what is read. */
  lemma ItemsOfTrim(t: Text)
    ensures ItemsOf(Trim(t)) == ItemsOf(t)
  {
    LookedOfTrim(t);
    ItemsAreViewed(SplitLines(t));
    ItemsAreViewed(SplitLines(Trim(t)));
  }

  /** Collapsing runs of line feeds does not change what is read. */
  lemma ItemsOfCollapse(t: Text)
    ensures ItemsOf(CollapseLineFeeds(t)) == ItemsOf(t)
  {
    LookedOfCollapse(t);
    ItemsAreViewed(SplitLines(t));
    ItemsAreViewed(SplitLines(CollapseLineFeeds(t)));
  }

  /** Joining lines with line feeds and reading gives the items of the lines. */
  lemma ItemsOfJoin(lines: seq<Text>)
    requires forall i :: 0 <= i < |lines| ==> LF !in lines[i]
    ensures ItemsOf(Join(lines, [LF])) == Items(lines)
  {
    LookedOfJoin(lines);
    ItemsAreViewed(lines);
    ItemsAreViewed(SplitLines(Join(lines, [LF])));
  }

  // ---------- folding ----------

  lemma {:induction false} ReadItemsAppend(a: seq<Item>, b: seq<Item>, section: Path, v: Values)
    ensures ReadItems(a + b, section, v) == ReadItems(b, LastSection(a, section), ReadItems(a, section, v))
  {
    if a == [] {
      assert a + b == b;
    } else {
      assert (a + b)[1..] == a[1..] + b;
      ReadItemsAppend(a[1..], b, NextSection(a[0], section), NextValues(a[0], section, v));
    }
  }

  /** Root values already present only show where the items do not set them again. */
  lemma {:induction false} ReadItemsRootBase(items: seq<Item>, section: Path, v: Values, base: Table)
    ensures ReadItems(items, section, v.(root := base + v.root))
            == ReadItems(items, section, v).(root := base + ReadItems(items, section, v).root)
  {
    if items != [] {
      var item := items[0];
      var next := NextValues(item, section, v);
      assert NextValues(item, section, v.(root := base + v.root)) == next.(root := base + next.root) by {
        if item.Pair? {
          assert (base + v.root)[item.key := item.value] == base + v.root[item.key := item.value];
        }
      }
      ReadItemsRootBase(items[1..], NextSection(item, section), next, base);
    }
  }

  lemma {:induction false} ReadItemsOrder(items: seq<Item>, section: Path, order: seq<Text>, v: Values)
    requires OrderMatches(order, v)
    ensures OrderMatches(OrderOf(items, section, order), ReadItems(items, section, v))
  {
    if items != [] {
      ReadItemsOrder(items[1..], NextSection(items[0], section),
                     NextOrder(items[0], section, order), NextValues(items[0], section, v));
    }
  }
}
