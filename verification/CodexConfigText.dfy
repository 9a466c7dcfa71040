/**
  The two config texts the bootstrap writes, and the read-after-write law: for a provider id
  without brackets the reader sees the old values with exactly the written keys replaced,
  and for an id with a bracket it does not.
  */
module CodexConfigText {
  import opened Wrappers
  import opened JsText
  import opened JsonString
  import opened CodexLexer
  import opened CodexReader
  import opened CodexEditor

  const MODEL_PROVIDER := Ascii("model_provider")
  const MODEL := Ascii("model")
  const MODEL_REASONING_EFFORT := Ascii("model_reasoning_effort")
  const NAME := Ascii("name")
  const BASE_URL := Ascii("base_url")
  const BEARER_TOKEN := Ascii("experimental_bearer_token")

  const ROOT_KEYS := {MODEL_PROVIDER, MODEL, MODEL_REASONING_EFFORT}
  const PROVIDER_KEYS := {NAME, BASE_URL, BEARER_TOKEN}

  datatype Provider = Provider(id: Text, name: Text, baseUrl: Text, apiKey: Option<Text>)

  datatype Config = Config(provider: Provider, model: Text, reasoningEffort: Option<Text>)

  /** The pair a nullable value adds: JavaScript drops null and the empty string alike. */
  function OptionalPair(key: Text, value: Option<Text>): seq<(Text, Text)> {
    if value.Some? && value.value != [] then [(key, value.value)] else []
  }

  function RootPairs(c: Config): seq<(Text, Text)> {
    [(MODEL_PROVIDER, c.provider.id), (MODEL, c.model)] + OptionalPair(MODEL_REASONING_EFFORT, c.reasoningEffort)
  }

  function ProviderPairs(p: Provider): seq<(Text, Text)> {
    [(NAME, p.name), (BASE_URL, p.baseUrl)] + OptionalPair(BEARER_TOKEN, p.apiKey)
  }

  function ProviderReplacements(p: Provider): seq<Replacement> {
    [ Replacement(NAME, Some(Quoted(p.name))),
      Replacement(BASE_URL, Some(Quoted(p.baseUrl))),
      Replacement(BEARER_TOKEN, if p.apiKey.Some? && p.apiKey.value != [] then Some(Quoted(p.apiKey.value)) else None)]
  }

  /** blocks.filter((block) => block.length > 0).join('\n\n') */
  function JoinBlocks(blocks: seq<Text>): Text {
    Join(NonEmpty(blocks), [LF, LF])
  }

  function NonEmpty(blocks: seq<Text>): seq<Text> {
    if blocks == [] then [] else (if blocks[0] == [] then [] else [blocks[0]]) + NonEmpty(blocks[1..])
  }

  function PreservedText(existing: Text, p: Provider): Text {
    Upserted(existing, ProviderHeader(p.id), ProviderReplacements(p))
  }

  function ConfigText(existing: Text, c: Config): Text {
    JoinBlocks([Join(RenderAll(RootPairs(c)), [LF]), PreservedText(WithoutRootKeys(existing, ROOT_KEYS), c.provider), []])
  }

  function ProviderOnlyText(existing: Text, p: Provider): Text {
    JoinBlocks([PreservedText(existing, p), []])
  }

  /** buildCodexConfigText fails exactly on texts with a malformed header, which the reader rejects too. */
  method BuildCodexConfigText(existingText: Text, input: Config) returns (r: Result<Text, LexError>)
    ensures r.Success? <==> AllHeadersParse(SplitLines(existingText))
    ensures Accepts(existingText) ==> r.Success?
    ensures r.Success? ==> r.value == ConfigText(existingText, input)
    ensures Accepts(existingText) && BracketFree(input.provider.id) ==> ReadsAsWritten(existingText, input, r.value)
  {
    HeaderNeverFails(input.provider.id);
    if AllHeadersParse(SplitLines(existingText)) {
      WithoutRootKeysHeaders(existingText, ROOT_KEYS);
    }
    if Accepts(existingText) {
      AcceptedHeadersParse(SplitLines(existingText));
      if BracketFree(input.provider.id) {
        ReadAfterWrite(existingText, input);
      }
    }
    var effort := input.reasoningEffort;
    var rootLines := [RenderPair(MODEL_PROVIDER, input.provider.id), RenderPair(MODEL, input.model)]
    + (if effort.Some? && effort.value != [] then [RenderPair(MODEL_REASONING_EFFORT, effort.value)] else []);
    RootLinesRendered(input);
    var stripped := RemoveRootTomlKeys(existingText, ROOT_KEYS);
    if stripped.Failure? {
      return Failure(stripped.error);
    }
    var preserved := UpsertTomlTableKeys(stripped.value, ProviderHeader(input.provider.id), ProviderReplacements(input.provider));
    return Success(JoinBlocks([Join(rootLines, [LF]), preserved.value, []]));
  }

  method BuildCodexProviderOnlyConfigText(existingText: Text, input: Provider) returns (r: Result<Text, LexError>)
    ensures r.Success? <==> AllHeadersParse(SplitLines(existingText))
    ensures Accepts(existingText) ==> r.Success?
    ensures r.Success? ==> r.value == ProviderOnlyText(existingText, input)
    ensures Accepts(existingText) && BracketFree(input.id) ==> ReadsAsProviderWritten(existingText, input, r.value)
  {
    HeaderNeverFails(input.id);
    if Accepts(existingText) {
      AcceptedHeadersParse(SplitLines(existingText));
      if BracketFree(input.id) {
        ReadAfterProviderWrite(existingText, input);
      }
    }
    var preserved := UpsertTomlTableKeys(existingText, ProviderHeader(input.id), ProviderReplacements(input));
    if preserved.Failure? {
      return Failure(preserved.error);
    }
    return Success(JoinBlocks([preserved.value, []]));
  }

  // ---------- the law ----------

  /** The current provider entry with the three provider keys replaced, or removed when not given. */
  function NewEntry(current: Table, p: Provider): Table {
    Rewritten(current, PROVIDER_KEYS, ProviderPairs(p))
  }

  function WithProvider(current: Values, p: Provider): Values {
    current.(providers := current.providers[p.id := NewEntry(TableAt(current, p.id), p)])
  }

  ghost predicate ReadsAsWritten(existing: Text, c: Config, out: Text) {
    && Accepts(out)
    && Read(out) == WithProvider(Read(existing), c.provider).(root := Rewritten(Read(existing).root, ROOT_KEYS, RootPairs(c)))
  }

  ghost predicate ReadsAsProviderWritten(existing: Text, p: Provider, out: Text) {
    Accepts(out) && Read(out) == WithProvider(Read(existing), p)
  }

  lemma KeysAreBare()
    ensures IsBareKey(MODEL_PROVIDER) && IsBareKey(MODEL) && IsBareKey(MODEL_REASONING_EFFORT)
    ensures IsBareKey(NAME) && IsBareKey(BASE_URL) && IsBareKey(BEARER_TOKEN)
  {
    assert LowerWord("model_provider");
    LowerWordIsBare("model_provider");
    assert LowerWord("model");
    LowerWordIsBare("model");
    ReasoningEffortIsBare();
    assert LowerWord("name");
    LowerWordIsBare("name");
    assert LowerWord("base_url");
    LowerWordIsBare("base_url");
    BearerTokenIsBare();
  }

  lemma ReasoningEffortIsBare()
    ensures IsBareKey(MODEL_REASONING_EFFORT)
  {
    assert LowerWord("model_reasoning_effort");
    LowerWordIsBare("model_reasoning_effort");
  }

  lemma BearerTokenIsBare()
    ensures IsBareKey(BEARER_TOKEN)
  {
    assert LowerWord("experimental_bearer_token");
    LowerWordIsBare("experimental_bearer_token");
  }

  lemma RootPairsWithin(c: Config)
    ensures PairsWithin(RootPairs(c), ROOT_KEYS)
  {
    KeysAreBare();
  }

  lemma ProviderPairsWithin(p: Provider)
    ensures PairsWithin(ProviderPairs(p), PROVIDER_KEYS) && ProviderPairs(p) != []
  {
    KeysAreBare();
  }

  lemma RenderAllAppend(a: seq<(Text, Text)>, b: seq<(Text, Text)>)
    ensures RenderAll(a + b) == RenderAll(a) + RenderAll(b)
  {
    if a == [] {
      assert a + b == b;
    } else {
      assert (a + b)[1..] == a[1..] + b;
      RenderAllAppend(a[1..], b);
    }
  }

  lemma RenderOne(key: Text, value: Text)
    ensures RenderAll([(key, value)]) == [RenderPair(key, value)]
  {
    assert RenderAll([(key, value)][1..]) == [];
  }

  lemma RootLinesRendered(c: Config)
    ensures RenderAll(RootPairs(c))
            == [RenderPair(MODEL_PROVIDER, c.provider.id), RenderPair(MODEL, c.model)]
               + (if c.reasoningEffort.Some? && c.reasoningEffort.value != []
                  then [RenderPair(MODEL_REASONING_EFFORT, c.reasoningEffort.value)] else [])
  {
    var last := OptionalPair(MODEL_REASONING_EFFORT, c.reasoningEffort);
    RenderOne(MODEL_PROVIDER, c.provider.id);
    RenderOne(MODEL, c.model);
    RenderAllAppend([(MODEL_PROVIDER, c.provider.id)], [(MODEL, c.model)]);
    assert [(MODEL_PROVIDER, c.provider.id)] + [(MODEL, c.model)] == [(MODEL_PROVIDER, c.provider.id), (MODEL, c.model)];
    RenderAllAppend([(MODEL_PROVIDER, c.provider.id), (MODEL, c.model)], last);
    if last != [] {
      RenderOne(MODEL_REASONING_EFFORT, c.reasoningEffort.value);
    }
  }

  /** The replacements of upsertTomlTableKeys are rendered pairs over the three provider keys. */
  lemma ReplacementsAreRendered(p: Provider)
    ensures ReplacementLines(ProviderReplacements(p)) == RenderAll(ProviderPairs(p))
    ensures ReplacementKeys(ProviderReplacements(p)) == PROVIDER_KEYS
  {
    var rs := ProviderReplacements(p);
    var last := OptionalPair(BEARER_TOKEN, p.apiKey);
    RenderOne(NAME, p.name);
    RenderOne(BASE_URL, p.baseUrl);
    RenderAllAppend([(NAME, p.name)], [(BASE_URL, p.baseUrl)]);
    assert [(NAME, p.name)] + [(BASE_URL, p.baseUrl)] == [(NAME, p.name), (BASE_URL, p.baseUrl)];
    RenderAllAppend([(NAME, p.name), (BASE_URL, p.baseUrl)], last);
    if last != [] {
      RenderOne(BEARER_TOKEN, p.apiKey.value);
    }
    assert rs[1..][1..] == [rs[2]] && rs[1..][1..][1..] == [];
    assert ReplacementLines([rs[2]]) == RenderAll(last);
    assert ReplacementLines(rs[1..]) == [RenderPair(BASE_URL, p.baseUrl)] + RenderAll(last);
    assert ReplacementLines(rs) == [RenderPair(NAME, p.name)] + ([RenderPair(BASE_URL, p.baseUrl)] + RenderAll(last));
    assert rs[0] in rs && rs[1] in rs && rs[2] in rs;
  }

  lemma NonEmptyBlocks(a: Text, b: Text)
    ensures NonEmpty([b, []]) == if b == [] then [] else [b]
    ensures NonEmpty([a, b, []]) == (if a == [] then [] else [a]) + (if b == [] then [] else [b])
  {
    var blocks: seq<Text> := [a, b, []];
    assert blocks[1..] == [b, []] && blocks[1..][1..] == [[]] && blocks[1..][1..][1..] == [];
    assert NonEmpty([[]]) == [];
  }

  lemma ItemsOfTwoLineFeeds(a: Text, b: Text)
    ensures ItemsOf(a + [LF, LF] + b) == ItemsOf(a) + ItemsOf(b)
  {
    assert a + [LF, LF] + b == a + [LF] + ([LF] + b);
    ItemsOfConcat(a, [LF] + b);
    ItemsOfSpaceFirst(LF, b);
  }

  lemma ItemsOfBlocks(a: Text, b: Text)
    ensures ItemsOf(JoinBlocks([a, b, []])) == ItemsOf(a) + ItemsOf(b)
    ensures JoinBlocks([b, []]) == b
  {
    NonEmptyBlocks(a, b);
    ItemsOfEmpty();
    if a == [] || b == [] {
      assert JoinBlocks([a, b, []]) == a + b == if a == [] then b else a;
    } else {
      var both := [a, b];
      assert NonEmpty([a, b, []]) == both && both[1..] == [b];
      assert Join(both, [LF, LF]) == a + [LF, LF] + Join([b], [LF, LF]);
      assert JoinBlocks([a, b, []]) == a + [LF, LF] + b;
      ItemsOfTwoLineFeeds(a, b);
    }
  }

  /** Rendered pairs in front of every header are root values. */
  lemma {:induction false} RenderAllReadsRoot(pairs: seq<(Text, Text)>, rest: seq<Text>, v: Values)
    requires forall i :: 0 <= i < |pairs| ==> IsBareKey(pairs[i].0)
    requires Bad !in Items(rest)
    ensures Bad !in Items(RenderAll(pairs) + rest)
    ensures ReadItems(Items(RenderAll(pairs) + rest), [], v) == ReadItems(Items(rest), [], v.(root := SetAll(v.root, pairs)))
    decreases |pairs|
  {
    if pairs == [] {
      assert RenderAll(pairs) + rest == rest;
    } else {
      var line, tail := RenderPair(pairs[0].0, pairs[0].1), RenderAll(pairs[1..]) + rest;
      assert RenderAll(pairs) + rest == [line] + tail;
      RenderedView(pairs[0].0, pairs[0].1);
      RenderAllReadsRoot(pairs[1..], rest, ReadPair([], pairs[0].0, pairs[0].1, v));
      ReadCons(line, tail, [], v, []);
    }
  }

  /** Rendered pairs in a table the reader skips are not read. */
  lemma {:induction false} RenderAllReadsSkipped(pairs: seq<(Text, Text)>, section: Path, v: Values)
    requires forall i :: 0 <= i < |pairs| ==> IsBareKey(pairs[i].0)
    requires section != [] && !IsProviderSection(section)
    ensures ReadItems(Items(RenderAll(pairs)), section, v) == v
    decreases |pairs|
  {
    if pairs != [] {
      var line, tail := RenderPair(pairs[0].0, pairs[0].1), RenderAll(pairs[1..]);
      RenderedView(pairs[0].0, pairs[0].1);
      RenderAllReadsSkipped(pairs[1..], section, v);
      ReadCons(line, tail, section, v, []);
    }
  }

  /** Root lines in front of a text: they are read first, so the text itself has the last word. */
  lemma RootBlockReads(pairs: seq<(Text, Text)>, preserved: Text)
    requires forall i :: 0 <= i < |pairs| ==> IsBareKey(pairs[i].0)
    requires Accepts(preserved)
    ensures var out := JoinBlocks([Join(RenderAll(pairs), [LF]), preserved, []]);
            Accepts(out) && Read(out) == Read(preserved).(root := SetAll(map[], pairs) + Read(preserved).root)
  {
    hide Items, SplitLines, ReadItems, RenderAll, SetAll, JoinBlocks, Join;
    var lines := SplitLines(preserved);
    ItemsOfBlocks(Join(RenderAll(pairs), [LF]), preserved);
    RenderAllLineFree(pairs);
    ItemsOfJoin(RenderAll(pairs));
    ItemsAppend(RenderAll(pairs), lines);
    RenderAllReadsRoot(pairs, lines, NO_VALUES);
    var base := SetAll(map[], pairs);
    assert base + NO_VALUES.root == base;
    ReadItemsRootBase(Items(lines), [], NO_VALUES, base);
  }

  /** Read-after-write for buildCodexProviderOnlyConfigText. */
  lemma ReadAfterProviderWrite(existing: Text, p: Provider)
    requires Accepts(existing) && BracketFree(p.id)
    ensures ReadsAsProviderWritten(existing, p, ProviderOnlyText(existing, p))
  {
    ProviderPairsWithin(p);
    ReplacementsAreRendered(p);
    UpsertedReads(existing, p.id, PROVIDER_KEYS, ProviderPairs(p));
    ItemsOfBlocks([], PreservedText(existing, p));
  }

  /** Read-after-write for buildCodexConfigText. */
  lemma ReadAfterWrite(existing: Text, c: Config)
    requires Accepts(existing) && BracketFree(c.provider.id)
    ensures ReadsAsWritten(existing, c, ConfigText(existing, c))
  {
    hide ItemsOf, ReadItems, SetAll, RootPairs, ProviderPairs, JoinBlocks, Join, PreservedText, WithoutRootKeys;
    var stripped := WithoutRootKeys(existing, ROOT_KEYS);
    WithoutRootKeysReads(existing, ROOT_KEYS);
    ReadAfterProviderWrite(stripped, c.provider);
    ItemsOfBlocks([], PreservedText(stripped, c.provider));
    RootPairsWithin(c);
    RootBlockReads(RootPairs(c), PreservedText(stripped, c.provider));
    SetAllKeys(RootPairs(c), ROOT_KEYS);
    var base, kept := SetAll(map[], RootPairs(c)), Read(existing).root - ROOT_KEYS;
    assert base + kept == kept + base;
  }

  // ---------- ids with a bracket ----------

  lemma {:induction false} EscapeKeepsBracket(s: Text, c: Unit)
    requires c in s && c in {OPEN_BRACKET, CLOSE_BRACKET}
    ensures c in Escape(s)
    decreases |s|
  {
    if StartsWithPair(s) {
      assert s == s[..2] + s[2..];
      if c in s[2..] {
        EscapeKeepsBracket(s[2..], c);
      }
    } else if s[0] != c {
      assert s == [s[0]] + s[1..];
      EscapeKeepsBracket(s[1..], c);
    }
  }

  lemma BracketInQuoted(id: Text, c: Unit)
    requires c in id && c in {OPEN_BRACKET, CLOSE_BRACKET}
    ensures c in Quoted(id)
  {
    hide Escape;
    EscapeKeepsBracket(id, c);
  }

  lemma BracketInside(inner: Text, c: Unit)
    requires c in inner && c in {OPEN_BRACKET, CLOSE_BRACKET}
    ensures HeaderInner([OPEN_BRACKET] + inner + [CLOSE_BRACKET]) == None
  {
    var line := [OPEN_BRACKET] + inner + [CLOSE_BRACKET];
    assert line[1..|line| - 1] == inner;
  }

  lemma BracketInHeader(id: Text)
    requires !BracketFree(id)
    ensures HeaderInner(ProviderHeader(id)) == None
  {
    hide HeaderInner, Quoted, Ascii;
    var c := if OPEN_BRACKET in id then OPEN_BRACKET else CLOSE_BRACKET;
    BracketInQuoted(id, c);
    if IsBareKey(id) {
      BareIsPlain(id);
    }
    var inner := MODEL_PROVIDERS + [DOT] + Quoted(id);
    BracketInside(inner, c);
    assert ProviderHeader(id) == [OPEN_BRACKET] + inner + [CLOSE_BRACKET];
  }

  /** A header with a bracket in its id is never read as a header, and never rejected either. */
  lemma BracketHeaderIsNoHeader(id: Text)
    requires !BracketFree(id)
    ensures TablePath(ProviderHeader(id)) == Success(None)
    ensures !View(ProviderHeader(id)).Header? && View(ProviderHeader(id)) != Bad
  {
    hide Strip, KeyParts, Tokens, HeaderInner, Trim, ParseTomlValue;
    var line := ProviderHeader(id);
    HeaderIsStripped(id);
    BracketInHeader(id);
    assert line[|line| - 1] == CLOSE_BRACKET;
    hide ProviderHeader;
    var k := IndexOf(line, EQUALS);
    if k < |line| {
      ValueEndingInBracket(line[k + 1..]);
    }
  }

  /** A value whose last unit is a closing bracket is never taken for a quoted one. */
  lemma ValueEndingInBracket(raw: Text)
    requires raw != [] && raw[|raw| - 1] == CLOSE_BRACKET
    ensures ParseTomlValue(raw).Success?
  {
    var before, after := TrimSplits(raw);
    var t := Trim(raw);
    if after != [] {
      assert raw[|raw| - 1] == after[|after| - 1];
      assert IsSpace(CLOSE_BRACKET);
    } else if t != [] {
      assert raw[|raw| - 1] == t[|t| - 1];
    }
  }

  lemma HeaderNeverFails(id: Text)
    ensures TablePath(ProviderHeader(id)).Success?
  {
    if BracketFree(id) {
      ProviderHeaderRoundTrip(id);
    } else {
      BracketHeaderIsNoHeader(id);
    }
  }

  lemma {:induction false} TableKeptWithoutTarget(lines: seq<Text>, keys: set<Text>, inserted: seq<Text>)
    ensures TableKept(lines, None, keys, inserted, false) == lines
  {
    if lines != [] {
      TableKeptWithoutTarget(lines[1..], keys, inserted);
    }
  }

  function ProviderBlock(p: Provider): seq<Text> {
    [ProviderHeader(p.id)] + RenderAll(ProviderPairs(p))
  }

  lemma ItemsAfterBlankLine(lines: seq<Text>, blank: Text, block: seq<Text>)
    requires IsBlank(blank)
    ensures Items(lines + ([blank] + block)) == Items(lines) + Items(block)
  {
    ItemsAppend(lines, [blank] + block);
    ItemsAppend([blank], block);
    ItemsOne(blank);
  }

  lemma EmptyIsBlank(line: Text)
    requires line == []
    ensures IsBlank(line)
  {
    TrimIdentity(line);
  }

  lemma BracketIdLines(lines: seq<Text>, header: Text, keys: set<Text>, inserted: seq<Text>)
    requires TablePath(header) == Success(None)
    ensures UpsertedLines(lines, header, keys, inserted) == lines + ([[]] + ([header] + inserted))
  {
    TablePathOfStripped(header);
    TableKeptWithoutTarget(lines, keys, inserted);
    assert [[], header] + inserted == [[]] + ([header] + inserted);
  }

  lemma BracketIdItems(existing: Text, p: Provider)
    requires !BracketFree(p.id)
    ensures ItemsOf(PreservedText(existing, p)) == ItemsOf(existing) + Items(ProviderBlock(p))
  {
    var lines := SplitLines(existing);
    ProviderPairsWithin(p);
    ReplacementsAreRendered(p);
    BracketHeaderIsNoHeader(p.id);
    BracketIdLines(lines, ProviderHeader(p.id), PROVIDER_KEYS, RenderAll(ProviderPairs(p)));
    UpsertedLinesLineFree(lines, p.id, PROVIDER_KEYS, ProviderPairs(p));
    ItemsOfFinished(lines + ([[]] + ProviderBlock(p)));
    EmptyIsBlank([]);
    ItemsAfterBlankLine(lines, [], ProviderBlock(p));
  }

  /**
    With a bracket in the id the new block is always appended behind an unread header, so its
    pairs land in whatever section the text happens to end in.
    */
  lemma BracketIdReads(existing: Text, p: Provider)
    requires Accepts(existing) && !BracketFree(p.id)
    ensures var out := PreservedText(existing, p);
            var section := LastSection(ItemsOf(existing), []);
            var v := NextValues(View(ProviderHeader(p.id)), section, Read(existing));
            && Accepts(out)
            && (section == [] ==> Read(out) == v.(root := SetAll(v.root, ProviderPairs(p))))
            && (forall other :: section == [MODEL_PROVIDERS, other] ==> Read(out) == WriteProvider(v, other, ProviderPairs(p)))
            && (section != [] && !IsProviderSection(section) ==> Read(out) == Read(existing))
  {
    var section := LastSection(ItemsOf(existing), []);
    BracketIdItems(existing, p);
    BracketBlockReads(p, section, Read(existing));
    ReadItemsAppend(ItemsOf(existing), Items(ProviderBlock(p)), [], NO_VALUES);
  }

  lemma BracketBlockReads(p: Provider, section: Path, prior: Values)
    requires !BracketFree(p.id)
    ensures var block := ProviderBlock(p);
            var v := NextValues(View(ProviderHeader(p.id)), section, prior);
            && Bad !in Items(block)
            && (section == [] ==> ReadItems(Items(block), section, prior) == v.(root := SetAll(v.root, ProviderPairs(p))))
            && (forall other :: section == [MODEL_PROVIDERS, other] ==>
                ReadItems(Items(block), section, prior) == WriteProvider(v, other, ProviderPairs(p)))
            && (section != [] && !IsProviderSection(section) ==> ReadItems(Items(block), section, prior) == prior)
  {
    var header, pairs := ProviderHeader(p.id), ProviderPairs(p);
    var v := NextValues(View(header), section, prior);
    ProviderPairsWithin(p);
    BracketHeaderIsNoHeader(p.id);
    ReadCons(header, RenderAll(pairs), section, prior, []);
    assert RenderAll(pairs) + [] == RenderAll(pairs);
    RenderAllReadsRoot(pairs, [], v);
    if section != [] && !IsProviderSection(section) {
      RenderAllReadsSkipped(pairs, section, v);
    }
    forall other | section == [MODEL_PROVIDERS, other]
      ensures ReadItems(Items(RenderAll(pairs)), section, v) == WriteProvider(v, other, pairs)
    {
      RenderAllReads(pairs, [], other, v);
    }
  }

  /** The tables other than the written one that an edit could spoil: here, the last one. */
  lemma BracketIdOverwritesLastProvider(existing: Text, p: Provider, other: Text)
    requires Accepts(existing) && !BracketFree(p.id)
    requires LastSection(ItemsOf(existing), []) == [MODEL_PROVIDERS, other]
    ensures var out := ProviderOnlyText(existing, p);
            && Accepts(out)
            && other in Read(out).providers
            && BASE_URL in Read(out).providers[other] && Read(out).providers[other][BASE_URL] == p.baseUrl
  {
    BracketIdReads(existing, p);
    ItemsOfBlocks([], PreservedText(existing, p));
    var v := NextValues(View(ProviderHeader(p.id)), [MODEL_PROVIDERS, other], Read(existing));
    SetAllUnion(TableAt(v, other), ProviderPairs(p));
    ProviderEntry(p);
  }

  /** The three keys a provider block writes. */
  lemma ProviderEntry(p: Provider)
    ensures var t := SetAll(map[], ProviderPairs(p));
            && NAME in t && t[NAME] == p.name
            && BASE_URL in t && t[BASE_URL] == p.baseUrl
            && (if p.apiKey.Some? && p.apiKey.value != [] then BEARER_TOKEN in t && t[BEARER_TOKEN] == p.apiKey.value
                else BEARER_TOKEN !in t)
  {
    var pairs := ProviderPairs(p);
    var last := OptionalPair(BEARER_TOKEN, p.apiKey);
    assert pairs[1..][1..] == last;
    assert SetAll(map[], pairs) == SetAll(map[NAME := p.name][BASE_URL := p.baseUrl], last);
    if last != [] {
      assert last[1..] == [];
    }
  }

  lemma NameIsNoRootKey()
    ensures NAME !in ROOT_KEYS
  {
  }

  /**
    The law holds on every text the reader accepts exactly when the id has no bracket. The
    guard that fails is the /[^\[\]]/ class of the header pattern.
    */
  lemma ReadAfterWriteExactly(c: Config)
    ensures (forall existing | Accepts(existing) :: ReadsAsWritten(existing, c, ConfigText(existing, c)))
            <==> BracketFree(c.provider.id)
  {
    if BracketFree(c.provider.id) {
      forall existing | Accepts(existing)
        ensures ReadsAsWritten(existing, c, ConfigText(existing, c))
      {
        ReadAfterWrite(existing, c);
      }
    } else {
      BracketIdBreaksEmptyText(c);
      ItemsOfEmpty();
      assert Accepts([]);
    }
  }

  /** On an empty config a bracketed id leaks the provider's name into the root table. */
  lemma BracketIdBreaksEmptyText(c: Config)
    requires !BracketFree(c.provider.id)
    ensures !ReadsAsWritten([], c, ConfigText([], c))
  {
    hide JoinBlocks, Join, ViewStripped, Strip, RootPairs, ProviderPairs, PreservedText, WithoutRootKeys;
    var p := c.provider;
    var stripped := WithoutRootKeys([], ROOT_KEYS);
    ItemsOfEmpty();
    assert Read([]) == NO_VALUES;
    ItemsOfStrippedEmpty();
    assert Read(stripped) == NO_VALUES;
    BracketIdReads(stripped, p);
    var v := NextValues(View(ProviderHeader(p.id)), [], NO_VALUES);
    SetAllUnion(v.root, ProviderPairs(p));
    ProviderEntry(p);
    RootPairsWithin(c);
    RootBlockReads(RootPairs(c), PreservedText(stripped, p));
    assert NAME in Read(ConfigText([], c)).root;
    SetAllKeys(RootPairs(c), ROOT_KEYS);
    NameIsNoRootKey();
  }

  /** The provider-only edit obeys its law on every text the reader accepts exactly when the id has no bracket. */
  lemma ReadAfterProviderWriteExactly(p: Provider)
    ensures (forall existing | Accepts(existing) :: ReadsAsProviderWritten(existing, p, ProviderOnlyText(existing, p)))
            <==> BracketFree(p.id)
  {
    if BracketFree(p.id) {
      forall existing | Accepts(existing)
        ensures ReadsAsProviderWritten(existing, p, ProviderOnlyText(existing, p))
      {
        ReadAfterProviderWrite(existing, p);
      }
    } else {
      BracketIdLeaksIntoEmptyText(p);
      ItemsOfEmpty();
      assert Accepts([]);
    }
  }

  /** On an empty config the provider-only edit, too, leaks the provider's name into the root table. */
  lemma BracketIdLeaksIntoEmptyText(p: Provider)
    requires !BracketFree(p.id)
    ensures !ReadsAsProviderWritten([], p, ProviderOnlyText([], p))
    ensures Get(Read(ProviderOnlyText([], p)).root, NAME) == Some(p.name)
  {
    hide JoinBlocks, Join, ViewStripped, Strip, ProviderPairs, PreservedText;
    ItemsOfEmpty();
    assert Read([]) == NO_VALUES;
    BracketIdReads([], p);
    ItemsOfBlocks([], PreservedText([], p));
    SetAllUnion(NextValues(View(ProviderHeader(p.id)), [], NO_VALUES).root, ProviderPairs(p));
    ProviderEntry(p);
  }

  lemma ItemsOfStrippedEmpty()
    ensures ItemsOf(WithoutRootKeys([], ROOT_KEYS)) == []
  {
    IndexOfAbsent([], LF);
    var lines: seq<Text> := [[]];
    assert SplitLines([]) == lines && lines[1..] == [];
    TrimIdentity([]);
    assert KeyOf([]) == None;
    assert RootKept(lines, ROOT_KEYS, []) == lines;
    ItemsOfEmpty();
  }
}
