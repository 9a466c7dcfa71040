/**
  The written forms the lexer understands, whoever wrote them: bare, double-quoted and
  single-quoted values and keys, space around them, dotted headers, and trailing comments.
  */
module CodexForms {
  import opened Wrappers
  import opened JsText
  import opened JsonString
  import opened CodexLexer
  import opened CodexReader

  datatype Form =
    | Bare(text: Text)
    | Basic(text: Text)
    | Literal(text: Text)

  /** How a form is written. */
  function Written(f: Form): Text {
    match f
    case Bare(t) => t
    case Basic(t) => Quoted(t)
    case Literal(t) => [APOSTROPHE] + t + [APOSTROPHE]
  }

  /** Letters, digits, the underscore and the hyphen need no quotes in a key. */
  lemma BareUnitsExactly(c: Unit)
    ensures IsBareUnit(c) <==>
            || 'A' as int <= c as int <= 'Z' as int || 'a' as int <= c as int <= 'z' as int || '0' as int <= c as int <= '9' as int
            || c == '_' as int || c == '-' as int
    ensures QUOTE == '\"' as int && APOSTROPHE == '\'' as int && EQUALS == '=' as int && HASH == '#' as int && DOT == '.' as int
  {
  }

  // ---------- values ----------

  lemma {:induction false} TrimAround(before: Text, t: Text, after: Text)
    requires AllSpace(before) && AllSpace(after)
    ensures Trim(before + t + after) == Trim(t)
    decreases |before| + |after|
  {
    hide Trim;
    if before != [] {
      assert before + t + after == [before[0]] + (before[1..] + t + after);
      TrimPrepend(before[0], before[1..] + t + after);
      TrimAround(before[1..], t, after);
    } else if after != [] {
      var last := |after| - 1;
      assert before + t + after == (before + t + after[..last]) + [after[last]];
      TrimAppend(before + t + after[..last], after[last]);
      TrimAround(before, t, after[..last]);
    } else {
      assert before + t + after == t;
    }
  }

  /** A bare value is anything that has no space at its ends and is not in one kind of quotes. */
  predicate BareValue(t: Text) {
    t != [] && !IsSpace(t[0]) && !IsSpace(t[|t| - 1]) && !WrappedIn(t, QUOTE) && !WrappedIn(t, APOSTROPHE)
  }

  /**
    Double quotes hold a JSON string, single quotes hold their text as it is, anything else stands
    for itself, and space around a value is not part of it.
    */
  lemma ValueReads(before: Text, f: Form, after: Text)
    requires AllSpace(before) && AllSpace(after) && (f.Bare? ==> BareValue(f.text))
    ensures ParseTomlValue(before + Written(f) + after) == Success(f.text)
  {
    TrimAround(before, Written(f), after);
    TrimIdentity(Written(f));
    if f.Basic? {
      UnquotedQuoted(f.text);
    } else if f.Literal? {
      var t := Written(f);
      assert t[1..|t| - 1] == f.text;
    }
    hide Trim, Quoted, Unquoted;
  }

  lemma SpaceReadsEmpty(t: Text)
    requires AllSpace(t)
    ensures ParseTomlValue(t) == Success([])
  {
    var none: Text := [];
    TrimAround(t, none, none);
    TrimIdentity(none);
    assert t + none + none == t;
    hide Trim;
  }

  // ---------- comments ----------

  /** A '#' outside quotes starts a comment, whatever the comment says. */
  lemma CommentIsStripped(line: Text, comment: Text)
    requires HASH !in line && !Run(START, line).inSingle && !Run(START, line).inDouble
    ensures Strip(line + [HASH] + comment) == Strip(line)
  {
    CutWithoutHash(line, START);
    CutAppend(line, [HASH] + comment, START);
    assert line + [HASH] + comment == line + ([HASH] + comment);
    assert Cut([HASH] + comment, Run(START, line)) == [];
    assert line + [] == line;
    hide Trim;
  }

  lemma {:induction false} CutWithoutHash(t: Text, q: Scan)
    requires HASH !in t
    ensures Cut(t, q) == t
  {
    if t != [] {
      CutWithoutHash(t[1..], Feed(q, t[0]));
    }
  }

  /** A line of plain units is outside quotes. */
  lemma PlainLineWithComment(line: Text, comment: Text)
    requires AllPlain(line)
    ensures Strip(line + [HASH] + comment) == Trim(line)
  {
    CutPlain(line, START);
    CommentIsStripped(line, comment);
    hide Trim;
  }

  // ---------- headers ----------

  /** A part of a header, with the space around it. */
  datatype Part = Part(before: Text, form: Form, after: Text)

  predicate IsBlankUnit(c: Unit) {
    c == SPACE || c == 0x09
  }

  ghost predicate ValidPart(p: Part) {
    && (forall c :: c in p.before + p.after ==> IsBlankUnit(c))
    && (p.form.Bare? ==> IsBareKey(p.form.text))
    && (p.form.Literal? ==> APOSTROPHE !in p.form.text)
  }

  function PartText(p: Part): Text {
    p.before + Written(p.form) + p.after
  }

  function PartTexts(parts: seq<Part>): (r: seq<Text>)
    ensures |r| == |parts|
  {
    if parts == [] then [] else [PartText(parts[0])] + PartTexts(parts[1..])
  }

  function PartValues(parts: seq<Part>): (r: seq<Text>)
    ensures |r| == |parts|
  {
    if parts == [] then [] else [parts[0].form.text] + PartValues(parts[1..])
  }

  lemma TokensBlank(t: Text, rest: Text, parts: seq<Text>, current: Text)
    requires forall c :: c in t ==> IsBlankUnit(c)
    ensures Tokens(t + rest, parts, current, None) == Tokens(rest, parts, current + t, None)
  {
    hide Tokens;
    assert forall i :: 0 <= i < |t| ==> t[i] in t;
    TokensPlain(t, rest, parts, current);
  }

  lemma {:induction false} TokensLiteral(t: Text, rest: Text, parts: seq<Text>, current: Text)
    requires APOSTROPHE !in t
    ensures Tokens(t + ([APOSTROPHE] + rest), parts, current, Some(APOSTROPHE)) == Tokens(rest, parts, current + t + [APOSTROPHE], None)
  {
    var all := t + ([APOSTROPHE] + rest);
    if t == [] {
      assert all == [APOSTROPHE] + rest && all[1..] == rest && current + t + [APOSTROPHE] == current + [APOSTROPHE];
    } else {
      assert all[0] == t[0] && all[1..] == t[1..] + ([APOSTROPHE] + rest);
      TokensLiteral(t[1..], rest, parts, current + [t[0]]);
      assert current + [t[0]] + t[1..] == current + t;
    }
  }

  lemma TokensQuote(quote: Unit, rest: Text, parts: seq<Text>, current: Text)
    requires quote == QUOTE || quote == APOSTROPHE
    ensures Tokens([quote] + rest, parts, current, None) == Tokens(rest, parts, current + [quote], Some(quote))
    ensures Tokens([quote] + rest, parts, current, Some(quote)) == Tokens(rest, parts, current + [quote], None)
  {
    assert ([quote] + rest)[1..] == rest;
  }

  /** A form is read into the current part as it is written. */
  lemma TokensForm(f: Form, rest: Text, parts: seq<Text>, current: Text)
    requires (f.Bare? ==> IsBareKey(f.text)) && (f.Literal? ==> APOSTROPHE !in f.text)
    ensures Tokens(Written(f) + rest, parts, current, None) == Tokens(rest, parts, current + Written(f), None)
  {
    hide Tokens, Escape;
    match f
    case Bare(t) =>
      BareIsPlain(t);
      TokensPlain(t, rest, parts, current);
    case Basic(t) =>
      var body := Escape(t);
      assert Written(f) + rest == [QUOTE] + (body + ([QUOTE] + rest));
      TokensQuote(QUOTE, body + ([QUOTE] + rest), parts, current);
      TokensEscaped(t, [QUOTE] + rest, parts, current + [QUOTE]);
      TokensQuote(QUOTE, rest, parts, current + [QUOTE] + body);
      assert current + [QUOTE] + body + [QUOTE] == current + Written(f);
    case Literal(t) =>
      assert Written(f) + rest == [APOSTROPHE] + (t + ([APOSTROPHE] + rest));
      TokensQuote(APOSTROPHE, t + ([APOSTROPHE] + rest), parts, current);
      TokensLiteral(t, rest, parts, current + [APOSTROPHE]);
      assert current + [APOSTROPHE] + t + [APOSTROPHE] == current + Written(f);
  }

  lemma TokensPart(p: Part, rest: Text, parts: seq<Text>)
    requires ValidPart(p)
    ensures Tokens(PartText(p) + rest, parts, [], None) == Tokens(rest, parts, PartText(p), None)
  {
    hide Tokens, Written;
    var w := Written(p.form);
    assert PartText(p) + rest == p.before + (w + (p.after + rest));
    TokensBlank(p.before, w + (p.after + rest), parts, []);
    TokensForm(p.form, p.after + rest, parts, [] + p.before);
    TokensBlank(p.after, rest, parts, [] + p.before + w);
    assert [] + p.before + w + p.after == PartText(p);
  }

  lemma TokensDot(rest: Text, parts: seq<Text>, current: Text)
    ensures Tokens([DOT] + rest, parts, current, None) == Tokens(rest, parts + [current], [], None)
    ensures Tokens([], parts, current, None) == Some(parts + [current])
  {
    assert ([DOT] + rest)[1..] == rest;
  }

  lemma {:induction false} TokensParts(parts: seq<Part>, done: seq<Text>)
    requires parts != [] && forall p :: p in parts ==> ValidPart(p)
    ensures Tokens(Join(PartTexts(parts), [DOT]), done, [], None) == Some(done + PartTexts(parts))
    decreases |parts|
  {
    hide Tokens, PartText, ValidPart;
    var texts, first := PartTexts(parts), PartText(parts[0]);
    assert parts[0] in parts && texts[1..] == PartTexts(parts[1..]);
    if |parts| == 1 {
      assert texts == [first] && first + [] == first;
      TokensPart(parts[0], [], done);
      TokensDot([], done, first);
    } else {
      var rest := Join(texts[1..], [DOT]);
      assert Join(texts, [DOT]) == first + [DOT] + rest == first + ([DOT] + rest);
      TokensPart(parts[0], [DOT] + rest, done);
      TokensDot(rest, done, first);
      TokensParts(parts[1..], done + [first]);
      assert done + [first] + texts[1..] == done + texts;
    }
  }

  lemma PartReads(p: Part)
    requires ValidPart(p)
    ensures ParseTomlKeyPart(PartText(p)) == Success(Some(p.form.text))
  {
    var w := Written(p.form);
    assert AllSpace(p.before) && AllSpace(p.after) by {
      assert forall i :: 0 <= i < |p.before| ==> p.before[i] in p.before + p.after;
      assert forall i :: 0 <= i < |p.after| ==> p.after[i] in p.before + p.after;
    }
    TrimAround(p.before, w, p.after);
    if p.form.Bare? {
      BareIsPlain(p.form.text);
      TrimIdentity(w);
    } else {
      TrimIdentity(w);
      ValueReads([], p.form, []);
      assert [] + w + [] == w;
    }
    hide Trim, Quoted, ParseTomlValue;
  }

  lemma {:induction false} PartsRead(parts: seq<Part>)
    requires forall p :: p in parts ==> ValidPart(p)
    ensures KeyParts(PartTexts(parts)) == Success(Some(PartValues(parts)))
  {
    hide ParseTomlKeyPart, PartText, ValidPart;
    if parts != [] {
      assert parts[0] in parts;
      PartReads(parts[0]);
      PartsRead(parts[1..]);
      assert PartTexts(parts)[1..] == PartTexts(parts[1..]);
    }
  }

  lemma BracketedIsStripped(inner: Text)
    requires HASH !in inner
    ensures var line := [OPEN_BRACKET] + inner + [CLOSE_BRACKET]; Strip(line) == line && line[1..|line| - 1] == inner
  {
    var line := [OPEN_BRACKET] + inner + [CLOSE_BRACKET];
    CutWithoutHash(line, START);
    TrimIdentity(line);
    hide Cut, Trim;
  }

  /** A header of dotted parts in any of the forms, with space around them, is read as the path of their values. */
  lemma HeaderReads(parts: seq<Part>)
    requires parts != [] && forall p :: p in parts ==> ValidPart(p)
    requires var inner := Join(PartTexts(parts), [DOT]);
             inner != [] && BracketFree(inner) && HASH !in inner
    ensures TablePath([OPEN_BRACKET] + Join(PartTexts(parts), [DOT]) + [CLOSE_BRACKET]) == Success(Some(PartValues(parts)))
  {
    var inner := Join(PartTexts(parts), [DOT]);
    var line := [OPEN_BRACKET] + inner + [CLOSE_BRACKET];
    TokensParts(parts, []);
    PartsRead(parts);
    assert [] + PartTexts(parts) == PartTexts(parts);
    BracketedIsStripped(inner);
    hide Tokens, KeyParts, PartTexts, PartValues, Join, Strip;
    assert HeaderInner(line) == Some(inner);
  }

  /** A line in double brackets, of an array of tables, is no header to the lexer. */
  lemma DoubleBracketsAreNoHeader(inner: Text)
    requires HASH !in inner
    ensures TablePath([OPEN_BRACKET, OPEN_BRACKET] + inner + [CLOSE_BRACKET, CLOSE_BRACKET]) == Success(None)
  {
    var line := [OPEN_BRACKET, OPEN_BRACKET] + inner + [CLOSE_BRACKET, CLOSE_BRACKET];
    var middle := [OPEN_BRACKET] + inner + [CLOSE_BRACKET];
    assert line == [OPEN_BRACKET] + middle + [CLOSE_BRACKET];
    BracketedIsStripped(middle);
    assert middle[0] == OPEN_BRACKET;
    hide Strip, Tokens, KeyParts;
  }

  // ---------- pairs ----------

  ghost predicate Blanks(t: Text) {
    forall i :: 0 <= i < |t| ==> IsBlankUnit(t[i])
  }

  function PairLine(key: Text, a: Text, b: Text, f: Form): Text {
    key + a + [EQUALS] + b + Written(f)
  }

  lemma PairLineStrips(key: Text, a: Text, b: Text, f: Form, c: Text)
    requires IsBareKey(key) && Blanks(a) && Blanks(b) && Blanks(c) && HASH !in Written(f) && (f.Bare? ==> BareValue(f.text))
    ensures Strip(PairLine(key, a, b, f) + c) == PairLine(key, a, b, f)
  {
    var w, body := Written(f), PairLine(key, a, b, f);
    var line := body + c;
    assert w != [] && !IsSpace(w[|w| - 1]);
    hide Written;
    assert key[0] == body[0] && body[|body| - 1] == w[|w| - 1];
    BareIsPlain(key);
    CutWithoutHash(line, START);
    TrimAround([], body, c);
    assert [] + body + c == line;
    TrimIdentity(body);
    hide Cut, Trim;
  }

  /** `key = value` with space anywhere around its tokens is read as that pair, in each of the value forms. */
  lemma PairReads(key: Text, a: Text, b: Text, f: Form, c: Text)
    requires IsBareKey(key) && Blanks(a) && Blanks(b) && Blanks(c) && HASH !in Written(f) && (f.Bare? ==> BareValue(f.text))
    ensures View(PairLine(key, a, b, f) + c) == Pair(key, f.text)
  {
    hide Written, Strip, Trim, ParseTomlValue, Tokens, KeyParts;
    var body, value := PairLine(key, a, b, f), b + Written(f);
    PairLineStrips(key, a, b, f, c);
    assert body == key + a + [EQUALS] + value && body[0] == key[0];
    assert HeaderInner(body) == None;
    hide HeaderInner;
    BodyIsStripped(body + c, body);
    PairSplits(key, a, value);
    assert value + [] == value;
    ValueReads(b, f, []);
    hide TablePath, IndexOf, PairLine;
  }

  lemma BodyIsStripped(line: Text, body: Text)
    requires Strip(line) == body && HeaderInner(body) == None
    ensures TablePath(body) == Success(None)
  {
    StripIdempotent(line);
    hide Strip;
  }

  lemma PairSplits(key: Text, a: Text, value: Text)
    requires IsBareKey(key) && Blanks(a)
    ensures var body := key + a + [EQUALS] + value;
            && IndexOf(body, EQUALS) == |key + a| && Trim(body[..|key + a|]) == key && body[|key + a| + 1..] == value
  {
    BareIsPlain(key);
    IndexOfUnique(key + a, EQUALS, value);
    var body := key + a + [EQUALS] + value;
    assert body[..|key + a|] == [] + key + a;
    TrimAround([], key, a);
    TrimIdentity(key);
    hide Trim;
  }
}
