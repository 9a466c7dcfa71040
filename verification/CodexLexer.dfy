/**
  The lexical layer of the Codex config editor: comment stripping, values, table headers
  and rendered keys. Each scanning loop is a method proved against a recursive function.
  */
module CodexLexer {
  import opened Wrappers
  import opened JsText
  import opened JsonString

  /** The one error the lexer raises: a double-quoted literal that JSON.parse rejects. */
  datatype LexError = InvalidQuotedString

  type Path = seq<Text>

  // ---------- stripTomlInlineComment ----------

  /** Scanner state; previous is -1 before the first unit. */
  datatype Scan = Scan(inSingle: bool, inDouble: bool, previous: int)

  const START := Scan(false, false, -1)

  function Feed(q: Scan, c: Unit): Scan {
    if c == APOSTROPHE && !q.inDouble then Scan(!q.inSingle, q.inDouble, c)
    else if c == QUOTE && !q.inSingle && q.previous != BACKSLASH then Scan(q.inSingle, !q.inDouble, c)
    else Scan(q.inSingle, q.inDouble, c)
  }

  function Run(q: Scan, t: Text): Scan
    decreases |t|
  {
    if t == [] then q else Run(Feed(q, t[0]), t[1..])
  }

  predicate CutsHere(q: Scan, c: Unit) {
    c == HASH && !q.inSingle && !q.inDouble
  }

  /** The part of a line before its first unquoted '#'. */
  function Cut(line: Text, q: Scan): Text {
    if line == [] || CutsHere(q, line[0]) then []
    else [line[0]] + Cut(line[1..], Feed(q, line[0]))
  }

  function Strip(line: Text): Text {
    Trim(Cut(line, START))
  }

  lemma CutStep(line: Text, index: nat, q: Scan)
    requires index < |line|
    ensures line[..index] + Cut(line[index..], q)
            == if CutsHere(q, line[index]) then line[..index]
               else line[..index + 1] + Cut(line[index + 1..], Feed(q, line[index]))
  {
    assert line[index..][0] == line[index] && line[index..][1..] == line[index + 1..];
    assert line[..index] + [line[index]] == line[..index + 1];
    hide Feed, CutsHere;
  }

  method StripTomlInlineComment(line: Text) returns (r: Text)
    ensures r == Strip(line)
  {
    hide Trim;
    var inSingleQuote, inDoubleQuote := false, false;
    var index := 0;
    ghost var q := START;
    assert line[..0] + Cut(line[0..], q) == Cut(line, START);
    while index < |line|
      invariant 0 <= index <= |line|
      invariant q == Scan(inSingleQuote, inDoubleQuote, if index > 0 then line[index - 1] else -1)
      invariant Cut(line, START) == line[..index] + Cut(line[index..], q)
    {
      var character := line[index];
      var previous := if index > 0 then line[index - 1] else -1;
      CutStep(line, index, q);
      q := Feed(q, character);
      hide Cut;
      if character == APOSTROPHE && !inDoubleQuote {
        inSingleQuote := !inSingleQuote;
      } else if character == QUOTE && !inSingleQuote && previous != BACKSLASH {
        inDoubleQuote := !inDoubleQuote;
      } else if character == HASH && !inSingleQuote && !inDoubleQuote {
        return Trim(line[..index]);
      }
      index := index + 1;
    }
    assert line[..index] == line && Cut(line[index..], q) == [];
    assert Cut(line, START) == line + [] == line;
    return Trim(line);
  }

  lemma {:induction false} CutIsPrefix(t: Text, q: Scan)
    ensures Cut(t, q) <= t
  {
    if t != [] && !CutsHere(q, t[0]) {
      CutIsPrefix(t[1..], Feed(q, t[0]));
    }
  }

  lemma {:induction false} CutAppend(a: Text, b: Text, q: Scan)
    ensures Cut(a + b, q) == if Cut(a, q) == a then a + Cut(b, Run(q, a)) else Cut(a, q)
  {
    if a == [] {
      assert a + b == b;
    } else if !CutsHere(q, a[0]) {
      assert (a + b)[1..] == a[1..] + b;
      CutAppend(a[1..], b, Feed(q, a[0]));
      assert a == [a[0]] + a[1..];
      assert Cut(a, q) == a <==> Cut(a[1..], Feed(q, a[0])) == a[1..];
    }
  }

  /** Units that leave the quoting state alone. */
  predicate Plain(c: Unit) {
    c != QUOTE && c != APOSTROPHE && c != HASH && c != BACKSLASH
  }

  ghost predicate AllPlain(t: Text) {
    forall i :: 0 <= i < |t| ==> Plain(t[i])
  }

  lemma {:induction false} CutPlain(t: Text, q: Scan)
    requires AllPlain(t)
    ensures Cut(t, q) == t
    ensures Run(q, t) == if t == [] then q else q.(previous := t[|t| - 1])
  {
    if t != [] {
      CutPlain(t[1..], Feed(q, t[0]));
    }
  }

  /** The scanner forgets which unit came before, as long as it was not a backslash. */
  lemma {:induction false} CutPrevious(t: Text, q: Scan, p: int)
    requires q.previous != BACKSLASH && p != BACKSLASH
    ensures Cut(t, q) == Cut(t, q.(previous := p))
  {
  }

  /** Stripping sees through space units in front of a line. */
  lemma StripPrepend(c: Unit, t: Text)
    requires IsSpace(c)
    ensures Strip([c] + t) == Strip(t)
  {
    assert ([c] + t)[1..] == t;
    CutPrevious(t, START, c);
    TrimPrepend(c, Cut(t, START));
  }

  /** Stripping sees through space units behind a line, a carriage return in particular. */
  lemma StripAppend(t: Text, c: Unit)
    requires IsSpace(c)
    ensures Strip(t + [c]) == Strip(t)
  {
    CutAppend(t, [c], START);
    if Cut(t, START) == t {
      assert [c][1..] == [];
      assert Cut([c], Run(START, t)) == [c];
      TrimAppend(t, c);
    }
  }

  lemma {:induction false} StripPrependAll(before: Text, t: Text)
    requires AllSpace(before)
    ensures Strip(before + t) == Strip(t)
  {
    if before == [] {
      assert before + t == t;
    } else {
      assert before + t == [before[0]] + (before[1..] + t);
      StripPrependAll(before[1..], t);
      StripPrepend(before[0], before[1..] + t);
    }
  }

  lemma {:induction false} StripAppendAll(t: Text, after: Text)
    requires AllSpace(after)
    ensures Strip(t + after) == Strip(t)
  {
    if after == [] {
      assert t + after == t;
    } else {
      var last := |after| - 1;
      assert t + after == (t + after[..last]) + [after[last]];
      StripAppendAll(t, after[..last]);
      StripAppend(t + after[..last], after[last]);
    }
  }

  lemma {:induction false} CutCut(t: Text, q: Scan)
    ensures Cut(Cut(t, q), q) == Cut(t, q)
  {
    if t != [] && !CutsHere(q, t[0]) {
      CutCut(t[1..], Feed(q, t[0]));
    }
  }

  /** Stripping a stripped line changes nothing, although every caller does it twice. */
  lemma StripIdempotent(t: Text)
    ensures Strip(Strip(t)) == Strip(t)
  {
    var cut := Cut(t, START);
    var before, after := TrimSplits(cut);
    var mid := Trim(cut);
    StripAppendAll(before + mid, after);
    StripPrependAll(before, mid);
    CutCut(t, START);
  }

  // ---------- parseTomlValue ----------

  function ParseTomlValue(rawValue: Text): Result<Text, LexError> {
    var trimmed := Trim(rawValue);
    if trimmed == [] then Success([])
    else if trimmed[0] == QUOTE && trimmed[|trimmed| - 1] == QUOTE then
      match Unquoted(trimmed)
      case Some(value) => Success(value)
      case None => Failure(InvalidQuotedString)
    else if trimmed[0] == APOSTROPHE && trimmed[|trimmed| - 1] == APOSTROPHE then
      Success(if |trimmed| >= 2 then trimmed[1..|trimmed| - 1] else [])
    else Success(trimmed)
  }

  // ---------- parseTomlTablePath ----------

  predicate IsBareUnit(c: Unit) {
    0x30 <= c <= 0x39 || 0x41 <= c <= 0x5A || 0x61 <= c <= 0x7A || c == 0x5F || c == 0x2D
  }

  /** /^[A-Za-z0-9_-]+$/ */
  predicate IsBareKey(t: Text) {
    t != [] && forall i :: 0 <= i < |t| ==> IsBareUnit(t[i])
  }

  predicate WrappedIn(t: Text, quote: Unit) {
    t != [] && t[0] == quote && t[|t| - 1] == quote
  }

  function ParseTomlKeyPart(rawPart: Text): Result<Option<Text>, LexError> {
    var trimmed := Trim(rawPart);
    if trimmed == [] then Success(None)
    else if WrappedIn(trimmed, QUOTE) || WrappedIn(trimmed, APOSTROPHE) then
      match ParseTomlValue(trimmed)
      case Success(value) => Success(Some(value))
      case Failure(e) => Failure(e)
    else Success(if IsBareKey(trimmed) then Some(trimmed) else None)
  }

  /** Splits at dots outside quotes; None when a quote stays open. */
  function Tokens(inner: Text, parts: seq<Text>, current: Text, quote: Option<Unit>): Option<seq<Text>>
    decreases |inner|
  {
    if inner == [] then
      if quote.Some? then None else Some(parts + [current])
    else
      var c := inner[0];
      if quote.Some? then
        if quote.value == QUOTE && c == BACKSLASH && |inner| > 1 then
          Tokens(inner[2..], parts, current + [c, inner[1]], quote)
        else
          Tokens(inner[1..], parts, current + [c], if c == quote.value then None else quote)
      else if c == QUOTE || c == APOSTROPHE then Tokens(inner[1..], parts, current + [c], Some(c))
      else if c == DOT then Tokens(inner[1..], parts + [current], [], None)
      else Tokens(inner[1..], parts, current + [c], None)
  }

  /** rawParts.map(parseTomlKeyPart), then null unless every part is a string. */
  function KeyParts(rawParts: seq<Text>): Result<Option<Path>, LexError> {
    if rawParts == [] then Success(Some([]))
    else
      match ParseTomlKeyPart(rawParts[0])
      case Failure(e) => Failure(e)
      case Success(first) =>
        match KeyParts(rawParts[1..])
        case Failure(e) => Failure(e)
        case Success(rest) =>
          Success(if first.Some? && rest.Some? then Some([first.value] + rest.value) else None)
  }

  /** The inside of a line that matches /^\[([^\[\]]+)\]$/ and does not start with '[['. */
  function HeaderInner(line: Text): Option<Text> {
    if |line| >= 3 && line[0] == OPEN_BRACKET && line[|line| - 1] == CLOSE_BRACKET
       && OPEN_BRACKET !in line[1..|line| - 1] && CLOSE_BRACKET !in line[1..|line| - 1]
    then Some(line[1..|line| - 1])
    else None
  }

  function TablePath(rawLine: Text): Result<Option<Path>, LexError> {
    match HeaderInner(Strip(rawLine))
    case None => Success(None)
    case Some(inner) =>
      match Tokens(inner, [], [], None)
      case None => Success(None)
      case Some(rawParts) => KeyParts(rawParts)
  }

  method ParseTomlTablePath(rawLine: Text) returns (r: Result<Option<Path>, LexError>)
    ensures r == TablePath(rawLine)
  {
    var line := StripTomlInlineComment(rawLine);
    var inner := HeaderInner(line);
    if inner.None? {
      return Success(None);
    }
    var text := inner.value;
    var rawParts: seq<Text>, current: Text, quote: Option<Unit> := [], [], None;
    var index := 0;
    while index < |text|
      invariant 0 <= index <= |text|
      invariant Tokens(text, [], [], None) == Tokens(text[index..], rawParts, current, quote)
    {
      var character := text[index];
      assert text[index..][1..] == text[index + 1..];
      if quote.Some? {
        if quote.value == QUOTE && character == BACKSLASH && index + 1 < |text| {
          assert text[index..][2..] == text[index + 2..];
          current := current + [character, text[index + 1]];
          index := index + 1;
        } else {
          current := current + [character];
          if character == quote.value {
            quote := None;
          }
        }
      } else if character == QUOTE || character == APOSTROPHE {
        quote := Some(character);
        current := current + [character];
      } else if character == DOT {
        rawParts := rawParts + [current];
        current := [];
      } else {
        current := current + [character];
      }
      index := index + 1;
    }
    if quote.Some? {
      return Success(None);
    }
    return KeyParts(rawParts + [current]);
  }

  /** A path has at least one part, so a section is never mistaken for the root. */
  lemma TablePathNonEmpty(line: Text)
    ensures var r := TablePath(line); r.Success? && r.value.Some? ==> r.value.value != []
  {
    var inner := HeaderInner(Strip(line));
    if inner.Some? {
      TokensNonEmpty(inner.value, [], [], None);
    }
  }

  lemma {:induction false} TokensNonEmpty(inner: Text, parts: seq<Text>, current: Text, quote: Option<Unit>)
    ensures var r := Tokens(inner, parts, current, quote); r.Some? ==> |r.value| > |parts|
    decreases |inner|
  {
    if inner != [] {
      var c := inner[0];
      if quote.Some? {
        if quote.value == QUOTE && c == BACKSLASH && |inner| > 1 {
          TokensNonEmpty(inner[2..], parts, current + [c, inner[1]], quote);
        } else {
          TokensNonEmpty(inner[1..], parts, current + [c], if c == quote.value then None else quote);
        }
      } else if c == QUOTE || c == APOSTROPHE {
        TokensNonEmpty(inner[1..], parts, current + [c], Some(c));
      } else if c == DOT {
        TokensNonEmpty(inner[1..], parts + [current], [], None);
      } else {
        TokensNonEmpty(inner[1..], parts, current + [c], None);
      }
    }
  }

  // ---------- renderTomlKey and rendered lines ----------

  function RenderTomlKey(value: Text): Text {
    if IsBareKey(value) then value else Quoted(value)
  }

  /** `${key} = ${JSON.stringify(value)}` */
  function RenderPair(key: Text, value: Text): Text {
    key + [SPACE, EQUALS, SPACE] + Quoted(value)
  }

  const MODEL_PROVIDERS := Ascii("model_providers")

  /** `[model_providers.${renderTomlKey(id)}]` */
  function ProviderHeader(id: Text): Text {
    [OPEN_BRACKET] + MODEL_PROVIDERS + [DOT] + RenderTomlKey(id) + [CLOSE_BRACKET]
  }

  predicate BracketFree(t: Text) {
    OPEN_BRACKET !in t && CLOSE_BRACKET !in t
  }

  /** Lower-case ASCII words with underscores, as in the literals of the source. */
  ghost predicate LowerWord(s: string) {
    s != "" && forall i :: 0 <= i < |s| ==> 'a' <= s[i] <= 'z' || s[i] == '_'
  }

  lemma LowerWordIsBare(s: string)
    requires LowerWord(s)
    ensures IsBareKey(Ascii(s))
  {
    forall i | 0 <= i < |s|
      ensures IsBareUnit(Ascii(s)[i])
    {
      assert 'a' <= s[i] <= 'z' || s[i] == '_';
    }
  }

  lemma BareIsPlain(t: Text)
    requires IsBareKey(t)
    ensures AllPlain(t) && Trimmed(t) && BracketFree(t)
    ensures EQUALS !in t && DOT !in t && LF !in t
  {
  }

  /** Inside a double-quoted value the scanner stays inside: every quote follows a backslash. */
  lemma {:induction false} CutEscaped(s: Text, q: Scan)
    requires q.inDouble && !q.inSingle
    ensures Cut(Escape(s), q) == Escape(s)
    ensures Run(q, Escape(s)).inDouble && !Run(q, Escape(s)).inSingle
    decreases |s|
  {
    if s == [] {
    } else if StartsWithPair(s) {
      var body := Escape(s[2..]);
      assert Escape(s) == [s[0]] + ([s[1]] + body);
      CutInside(s[0], q);
      CutEscapedStep([s[0]], [s[1]] + body, q);
      CutInside(s[1], Run(q, [s[0]]));
      CutEscapedStep([s[1]], body, Run(q, [s[0]]));
      CutEscaped(s[2..], Run(Run(q, [s[0]]), [s[1]]));
    } else {
      CutEscapedUnit(s[0], q);
      CutEscapedStep(EscapeUnit(s[0]), Escape(s[1..]), q);
      CutEscaped(s[1..], Run(q, EscapeUnit(s[0])));
    }
  }

  lemma CutInside(c: Unit, q: Scan)
    requires q.inDouble && !q.inSingle && c != QUOTE
    ensures Cut([c], q) == [c]
    ensures Run(q, [c]) == Scan(false, true, c)
  {
    assert [c][1..] == [];
  }

  lemma CutEscapedUnit(c: Unit, q: Scan)
    requires q.inDouble && !q.inSingle
    ensures Cut(EscapeUnit(c), q) == EscapeUnit(c)
    ensures Run(q, EscapeUnit(c)).inDouble && !Run(q, EscapeUnit(c)).inSingle
  {
    var t := EscapeUnit(c);
    if |t| == 1 {
      CutInside(c, q);
    } else {
      CutInside(BACKSLASH, q);
      CutEscapedStep([BACKSLASH], t[1..], q);
      var r := Run(q, [BACKSLASH]);
      assert t == [BACKSLASH] + t[1..];
      if |t| == 2 {
        assert t[1..] == [t[1]] && t[1..][1..] == [];
      } else {
        CutPlain(t[1..], r);
      }
    }
  }

  lemma CutEscapedStep(a: Text, b: Text, q: Scan)
    ensures Cut(a, q) == a ==> Cut(a + b, q) == a + Cut(b, Run(q, a))
    ensures Run(q, a + b) == Run(Run(q, a), b)
  {
    CutAppend(a, b, q);
    RunAppend(a, b, q);
  }

  lemma {:induction false} RunAppend(a: Text, b: Text, q: Scan)
    ensures Run(q, a + b) == Run(Run(q, a), b)
  {
    if a == [] {
      assert a + b == b;
    } else {
      assert (a + b)[1..] == a[1..] + b;
      RunAppend(a[1..], b, Feed(q, a[0]));
    }
  }

  lemma CutQuoteThenPlain(after: Text, q: Scan)
    requires AllPlain(after)
    ensures Cut([QUOTE] + after, q) == [QUOTE] + after
  {
    assert ([QUOTE] + after)[1..] == after;
    CutPlain(after, Feed(q, QUOTE));
  }

  /** The opening quote puts the scanner inside, and what follows the closing one may be plain. */
  lemma CutQuoted(s: Text, after: Text, q: Scan)
    requires !q.inSingle && !q.inDouble && q.previous != BACKSLASH && AllPlain(after)
    ensures Cut(Quoted(s) + after, q) == Quoted(s) + after
  {
    var open := Scan(false, true, QUOTE);
    var body, tail := Escape(s), [QUOTE] + after;
    assert Quoted(s) + after == [QUOTE] + (body + tail);
    assert ([QUOTE] + (body + tail))[1..] == body + tail;
    CutEscaped(s, open);
    CutAppend(body, tail, open);
    CutQuoteThenPlain(after, Run(open, body));
    assert Cut([QUOTE] + (body + tail), q) == [QUOTE] + Cut(body + tail, open);
  }

  /** Plain text, a quoted string and more plain text lose nothing to the comment stripper. */
  lemma CutRendered(before: Text, s: Text, after: Text)
    requires AllPlain(before) && before != [] && AllPlain(after)
    ensures Cut(before + Quoted(s) + after, START) == before + Quoted(s) + after
  {
    var q := START.(previous := before[|before| - 1]);
    assert Plain(before[|before| - 1]);
    CutPlain(before, START);
    CutQuoted(s, after, q);
    CutAppend(before, Quoted(s) + after, START);
    assert before + Quoted(s) + after == before + (Quoted(s) + after);
  }

  lemma RenderPairIsStripped(key: Text, value: Text)
    requires IsBareKey(key)
    ensures Strip(RenderPair(key, value)) == RenderPair(key, value)
  {
    BareIsPlain(key);
    var line := RenderPair(key, value);
    var before := key + [SPACE, EQUALS, SPACE];
    CutRendered(before, value, []);
    assert before + Quoted(value) + [] == line;
    assert line[0] == key[0];
    TrimIdentity(line);
  }

  lemma RenderPairSplits(key: Text, value: Text)
    requires IsBareKey(key)
    ensures IndexOf(RenderPair(key, value), EQUALS) == |key| + 1
    ensures Trim(RenderPair(key, value)[..|key| + 1]) == key
    ensures RenderPair(key, value)[|key| + 2..] == [SPACE] + Quoted(value)
  {
    BareIsPlain(key);
    var line := RenderPair(key, value);
    assert line == (key + [SPACE]) + [EQUALS] + ([SPACE] + Quoted(value));
    IndexOfUnique(key + [SPACE], EQUALS, [SPACE] + Quoted(value));
    assert line[..|key| + 1] == key + [SPACE];
    TrimAppend(key, SPACE);
    TrimIdentity(key);
  }

  lemma QuotedValueRoundTrip(value: Text)
    ensures ParseTomlValue([SPACE] + Quoted(value)) == Success(value)
  {
    TrimPrepend(SPACE, Quoted(value));
    TrimIdentity(Quoted(value));
    UnquotedQuoted(value);
  }

  /** A rendered pair survives comment stripping, is split at its own '=' and reads back. */
  lemma RenderPairRoundTrip(key: Text, value: Text)
    requires IsBareKey(key)
    ensures Strip(RenderPair(key, value)) == RenderPair(key, value)
    ensures IndexOf(RenderPair(key, value), EQUALS) == |key| + 1
    ensures Trim(RenderPair(key, value)[..|key| + 1]) == key
    ensures ParseTomlValue(RenderPair(key, value)[|key| + 2..]) == Success(value)
    ensures LF !in RenderPair(key, value)
    ensures TablePath(RenderPair(key, value)) == Success(None)
  {
    hide Strip, Tokens, KeyParts, ParseTomlValue, Escape, Trim;
    RenderPairIsStripped(key, value);
    RenderPairSplits(key, value);
    QuotedValueRoundTrip(value);
    BareIsPlain(key);
    EscapeUnits(value, LF);
    assert RenderPair(key, value)[0] == key[0];
  }

  /** A rendered provider header is read back as that provider's section. */
  lemma ProviderHeaderRoundTrip(id: Text)
    requires BracketFree(id)
    ensures Strip(ProviderHeader(id)) == ProviderHeader(id)
    ensures TablePath(ProviderHeader(id)) == Success(Some([MODEL_PROVIDERS, id]))
    ensures LF !in ProviderHeader(id)
  {
    hide Strip, KeyParts, Tokens, Escape;
    ModelProvidersIsBare();
    BareIsPlain(MODEL_PROVIDERS);
    var line := ProviderHeader(id);
    var key := RenderTomlKey(id);
    HeaderIsStripped(id);
    var inner := MODEL_PROVIDERS + [DOT] + key;
    assert line[1..|line| - 1] == inner;
    EscapeUnits(id, OPEN_BRACKET);
    EscapeUnits(id, CLOSE_BRACKET);
    EscapeUnits(id, LF);
    if IsBareKey(id) { BareIsPlain(id); }
    assert HeaderInner(line) == Some(inner);
    HeaderTokens(id);
    HeaderKeyParts(id);
  }

  lemma ModelProvidersIsBare()
    ensures IsBareKey(MODEL_PROVIDERS)
  {
    assert LowerWord("model_providers");
    LowerWordIsBare("model_providers");
  }

  lemma HeaderIsStripped(id: Text)
    ensures Strip(ProviderHeader(id)) == ProviderHeader(id)
  {
    hide Cut, Trim, Escape;
    ModelProvidersIsBare();
    BareIsPlain(MODEL_PROVIDERS);
    var line := ProviderHeader(id);
    if IsBareKey(id) {
      BareIsPlain(id);
      CutPlain(line, START);
    } else {
      var before := [OPEN_BRACKET] + MODEL_PROVIDERS + [DOT];
      CutRendered(before, id, [CLOSE_BRACKET]);
      assert before + Quoted(id) + [CLOSE_BRACKET] == line;
    }
    TrimIdentity(line);
  }

  /** Outside quotes, units that are neither quotes nor dots extend the current part. */
  lemma {:induction false} TokensPlain(t: Text, rest: Text, parts: seq<Text>, current: Text)
    requires AllPlain(t) && DOT !in t
    ensures Tokens(t + rest, parts, current, None) == Tokens(rest, parts, current + t, None)
  {
    if t == [] {
      assert t + rest == rest && current + t == current;
    } else {
      assert (t + rest)[1..] == t[1..] + rest;
      TokensPlain(t[1..], rest, parts, current + [t[0]]);
      assert current + [t[0]] + t[1..] == current + t;
    }
  }

  /** Inside double quotes, an escaped string and its closing quote extend the current part. */
  lemma {:induction false} TokensEscaped(s: Text, rest: Text, parts: seq<Text>, current: Text)
    ensures Tokens(Escape(s) + rest, parts, current, Some(QUOTE)) == Tokens(rest, parts, current + Escape(s), Some(QUOTE))
    decreases |s|
  {
    hide Tokens, EscapeUnit;
    if s == [] {
      assert Escape(s) + rest == rest && current + Escape(s) == current;
    } else if StartsWithPair(s) {
      var body := Escape(s[2..]) + rest;
      assert Escape(s) + rest == [s[0]] + ([s[1]] + body);
      TokensInside(s[0], [s[1]] + body, parts, current);
      TokensInside(s[1], body, parts, current + [s[0]]);
      TokensEscaped(s[2..], rest, parts, current + [s[0]] + [s[1]]);
      assert current + [s[0]] + [s[1]] + Escape(s[2..]) == current + Escape(s);
    } else {
      var body := Escape(s[1..]) + rest;
      assert Escape(s) + rest == EscapeUnit(s[0]) + body;
      TokensEscapedUnit(s[0], body, parts, current);
      TokensEscaped(s[1..], rest, parts, current + EscapeUnit(s[0]));
      assert current + EscapeUnit(s[0]) + Escape(s[1..]) == current + Escape(s);
    }
  }

  lemma TokensInside(c: Unit, rest: Text, parts: seq<Text>, current: Text)
    requires c != QUOTE && c != BACKSLASH
    ensures Tokens([c] + rest, parts, current, Some(QUOTE)) == Tokens(rest, parts, current + [c], Some(QUOTE))
  {
    assert ([c] + rest)[1..] == rest;
  }

  lemma {:induction false} TokensInsideAll(t: Text, rest: Text, parts: seq<Text>, current: Text)
    requires QUOTE !in t && BACKSLASH !in t
    ensures Tokens(t + rest, parts, current, Some(QUOTE)) == Tokens(rest, parts, current + t, Some(QUOTE))
  {
    if t == [] {
      assert t + rest == rest && current + t == current;
    } else {
      assert t + rest == [t[0]] + (t[1..] + rest);
      TokensInside(t[0], t[1..] + rest, parts, current);
      TokensInsideAll(t[1..], rest, parts, current + [t[0]]);
      assert current + [t[0]] + t[1..] == current + t;
    }
  }

  lemma TokensEscapedUnit(c: Unit, rest: Text, parts: seq<Text>, current: Text)
    ensures Tokens(EscapeUnit(c) + rest, parts, current, Some(QUOTE))
            == Tokens(rest, parts, current + EscapeUnit(c), Some(QUOTE))
  {
    var t := EscapeUnit(c);
    if |t| == 1 {
      TokensInside(c, rest, parts, current);
    } else {
      assert (t + rest)[2..] == t[2..] + rest;
      assert current + [BACKSLASH, t[1]] + t[2..] == current + t;
      TokensInsideAll(t[2..], rest, parts, current + [BACKSLASH, t[1]]);
    }
  }

  lemma HeaderTokens(id: Text)
    ensures Tokens(MODEL_PROVIDERS + [DOT] + RenderTomlKey(id), [], [], None) == Some([MODEL_PROVIDERS, RenderTomlKey(id)])
  {
    ModelProvidersIsBare();
    BareIsPlain(MODEL_PROVIDERS);
    var key := RenderTomlKey(id);
    assert MODEL_PROVIDERS + [DOT] + key == MODEL_PROVIDERS + ([DOT] + key);
    TokensPlain(MODEL_PROVIDERS, [DOT] + key, [], []);
    assert [] + MODEL_PROVIDERS == MODEL_PROVIDERS;
    assert ([DOT] + key)[1..] == key;
    var parts := [] + [MODEL_PROVIDERS];
    assert Tokens(MODEL_PROVIDERS + [DOT] + key, [], [], None) == Tokens(key, parts, [], None);
    if IsBareKey(id) {
      BareIsPlain(id);
      TokensPlain(key, [], parts, []);
      assert key + [] == key && [] + key == key;
      assert parts + [key] == [MODEL_PROVIDERS, key];
    } else {
      QuotedTokens(id, parts);
      assert parts + [key] == [MODEL_PROVIDERS, key];
    }
  }

  lemma QuotedTokens(s: Text, parts: seq<Text>)
    ensures Tokens(Quoted(s), parts, [], None) == Some(parts + [Quoted(s)])
  {
    assert Quoted(s) == [QUOTE] + (Escape(s) + [QUOTE]);
    assert Quoted(s)[1..] == Escape(s) + [QUOTE];
    assert [] + [QUOTE] == [QUOTE];
    assert Tokens(Quoted(s), parts, [], None) == Tokens(Escape(s) + [QUOTE], parts, [QUOTE], Some(QUOTE));
    TokensEscaped(s, [QUOTE], parts, [QUOTE]);
    assert [QUOTE][1..] == [];
    var current := [QUOTE] + Escape(s);
    assert Tokens([QUOTE], parts, current, Some(QUOTE)) == Tokens([], parts, current + [QUOTE], None);
  }

  lemma HeaderKeyParts(id: Text)
    ensures KeyParts([MODEL_PROVIDERS, RenderTomlKey(id)]) == Success(Some([MODEL_PROVIDERS, id]))
  {
    ModelProvidersIsBare();
    BareIsPlain(MODEL_PROVIDERS);
    TrimIdentity(MODEL_PROVIDERS);
    var key := RenderTomlKey(id);
    if IsBareKey(id) {
      BareIsPlain(id);
      TrimIdentity(id);
    } else {
      TrimIdentity(key);
      UnquotedQuoted(id);
    }
    assert ParseTomlKeyPart(key) == Success(Some(id));
    var parts: Path := [MODEL_PROVIDERS, key];
    assert parts[1..] == [key] && parts[1..][1..] == [];
    assert [id] + [] == [id];
    assert KeyParts([key]) == Success(Some([id]));
    assert [MODEL_PROVIDERS] + [id] == [MODEL_PROVIDERS, id];
  }
}
