/**
  Unique readability of canonical text: a printer for plain JSON data, a parser that undoes
  it on every prefix, and the canonical printer as that printer after sorting the keys.
  */
module CanonicalReading {
  import opened Wrappers
  import opened JsText
  import opened JsonString
  import opened Utf16
  import opened CanonicalJson

  /** JSON data; -0 has been read as 0, members stand in the order they are printed. */
  datatype Json =
    | JNull
    | JBool(b: bool)
    | JStr(s: Text)
    | JNum(token: Token)
    | JArr(items: seq<Json>)
    | JObj(members: seq<Member>)

  datatype Member = Member(key: Text, value: Json)

  function Print(j: Json): Text
    decreases j, 1
  {
    match j
    case JNull => NULL_TEXT
    case JBool(b) => if b then TRUE_TEXT else FALSE_TEXT
    case JStr(s) => Quoted(s)
    case JNum(token) => token
    case JArr(items) => [OPEN_BRACKET] + PrintItems(j, items) + [CLOSE_BRACKET]
    case JObj(members) => [OPEN_BRACE] + PrintMembers(j, members) + [CLOSE_BRACE]
  }

  function PrintItems(context: Json, items: seq<Json>): Text
    requires forall i :: i in items ==> i < context
    decreases context, 0, |items|
  {
    if items == [] then []
    else
      assert items[0] in items;
      if |items| == 1 then Print(items[0])
      else
        assert forall i :: i in items[1..] ==> i in items;
        Print(items[0]) + [COMMA] + PrintItems(context, items[1..])
  }

  function PrintMembers(context: Json, members: seq<Member>): Text
    requires forall m :: m in members ==> m.value < context
    decreases context, 0, |members|
  {
    if members == [] then []
    else
      assert members[0] in members;
      var first := Quoted(members[0].key) + [COLON] + Print(members[0].value);
      if |members| == 1 then first else first + [COMMA] + PrintMembers(context, members[1..])
  }

  // ---------- the parser ----------

  function NumberLength(t: Text): (n: nat)
    ensures n <= |t|
    ensures forall i :: 0 <= i < n ==> IsNumberUnit(t[i])
  {
    if t != [] && IsNumberUnit(t[0]) then 1 + NumberLength(t[1..]) else 0
  }

  predicate StartsNumber(t: Text) {
    t != [] && (t[0] == MINUS || 0x30 <= t[0] <= 0x39)
  }

  /** Reads one value from the front of a text; the rest follows it. */
  function Parse(t: Text): (r: Option<(Json, Text)>)
    ensures r.Some? ==> |r.value.1| < |t|
    decreases |t|, 0
  {
    if t == [] then None
    else if NULL_TEXT <= t then Some((JNull, t[4..]))
    else if TRUE_TEXT <= t then Some((JBool(true), t[4..]))
    else if FALSE_TEXT <= t then Some((JBool(false), t[5..]))
    else if t[0] == QUOTE then
      match Unescape(t[1..])
      case None => None
      case Some((s, rest)) => Some((JStr(s), rest))
    else if StartsNumber(t) then
      var n := NumberLength(t);
      assert n > 0;
      Some((JNum(t[..n]), t[n..]))
    else if t[0] == OPEN_BRACKET then
      if |t| > 1 && t[1] == CLOSE_BRACKET then Some((JArr([]), t[2..]))
      else
        match ParseItems(t[1..])
        case None => None
        case Some((items, rest)) => Some((JArr(items), rest))
    else if t[0] == OPEN_BRACE then
      if |t| > 1 && t[1] == CLOSE_BRACE then Some((JObj([]), t[2..]))
      else
        match ParseMembers(t[1..])
        case None => None
        case Some((members, rest)) => Some((JObj(members), rest))
    else None
  }

  /** Reads items up to and including the closing bracket. */
  function ParseItems(t: Text): (r: Option<(seq<Json>, Text)>)
    ensures r.Some? ==> |r.value.1| < |t|
    decreases |t|, 1
  {
    match Parse(t)
    case None => None
    case Some((first, rest)) =>
      if rest == [] then None
      else if rest[0] == CLOSE_BRACKET then Some(([first], rest[1..]))
      else if rest[0] != COMMA then None
      else
        match ParseItems(rest[1..])
        case None => None
        case Some((others, after)) => Some(([first] + others, after))
  }

  /** Reads members up to and including the closing brace. */
  function ParseMembers(t: Text): (r: Option<(seq<Member>, Text)>)
    ensures r.Some? ==> |r.value.1| < |t|
    decreases |t|, 1
  {
    if t == [] || t[0] != QUOTE then None
    else
      match Unescape(t[1..])
      case None => None
      case Some((key, colon)) =>
        if colon == [] || colon[0] != COLON then None
        else
          match Parse(colon[1..])
          case None => None
          case Some((value, rest)) =>
            if rest == [] then None
            else if rest[0] == CLOSE_BRACE then Some(([Member(key, value)], rest[1..]))
            else if rest[0] != COMMA then None
            else
              match ParseMembers(rest[1..])
              case None => None
              case Some((others, after)) => Some(([Member(key, value)] + others, after))
  }

  /** What may follow a value without being swallowed by a number. */
  predicate Delimited(rest: Text) {
    rest == [] || !IsNumberUnit(rest[0])
  }

  lemma {:induction false} NumberLengthExact(token: Text, rest: Text)
    requires forall i :: 0 <= i < |token| ==> IsNumberUnit(token[i])
    requires Delimited(rest)
    ensures NumberLength(token + rest) == |token|
  {
    if token == [] {
      assert token + rest == rest;
    } else {
      assert (token + rest)[1..] == token[1..] + rest;
      NumberLengthExact(token[1..], rest);
    }
  }

  lemma Literals(rest: Text)
    ensures Parse(NULL_TEXT + rest) == Some((JNull, rest))
    ensures Parse(TRUE_TEXT + rest) == Some((JBool(true), rest))
    ensures Parse(FALSE_TEXT + rest) == Some((JBool(false), rest))
  {
    hide ParseItems, ParseMembers, Unescape, NumberLength;
    assert (NULL_TEXT + rest)[4..] == rest;
    assert (TRUE_TEXT + rest)[4..] == rest && TRUE_TEXT[0] == 0x74;
    assert (FALSE_TEXT + rest)[5..] == rest && FALSE_TEXT[0] == 0x66;
    assert NULL_TEXT[0] == 0x6E;
  }

  /** No literal starts with any of the other first units. */
  lemma NoLiteral(t: Text)
    requires t != [] && t[0] != 0x6E && t[0] != 0x74 && t[0] != 0x66
    ensures !(NULL_TEXT <= t) && !(TRUE_TEXT <= t) && !(FALSE_TEXT <= t)
  {
    assert NULL_TEXT[0] == 0x6E && TRUE_TEXT[0] == 0x74 && FALSE_TEXT[0] == 0x66;
  }

  lemma StringReads(s: Text, rest: Text)
    ensures Parse(Quoted(s) + rest) == Some((JStr(s), rest))
  {
    hide ParseItems, ParseMembers, NumberLength, Unescape, Escape;
    var t := Quoted(s) + rest;
    NoLiteral(t);
    assert t[1..] == Escape(s) + ([QUOTE] + rest);
    UnescapeEscape(s, rest);
  }

  lemma NumberReads(token: Token, rest: Text)
    requires Delimited(rest)
    ensures Parse(token + rest) == Some((JNum(token), rest))
  {
    hide ParseItems, ParseMembers, NumberLength, Unescape;
    var t := token + rest;
    assert t[0] == token[0];
    NoLiteral(t);
    NumberLengthExact(token, rest);
    assert t[..|token|] == token && t[|token|..] == rest;
  }

  /** The first unit of a printed value, which no closing delimiter shares. */
  lemma PrintStarts(j: Json)
    ensures Print(j) != [] && Print(j)[0] !in {CLOSE_BRACKET, CLOSE_BRACE, COMMA}
  {
    hide PrintItems, PrintMembers;
    match j
    case JNull => assert NULL_TEXT[0] == 0x6E;
    case JBool(b) => assert TRUE_TEXT[0] == 0x74 && FALSE_TEXT[0] == 0x66;
    case _ =>
  }

  /** Unique readability: a printed value in front of any delimited rest is read back exactly. */
  lemma {:induction false} ParsePrint(j: Json, rest: Text)
    requires Delimited(rest)
    ensures Parse(Print(j) + rest) == Some((j, rest))
    decreases j, 1
  {
    hide Parse, ParseItems, ParseMembers, PrintItems, PrintMembers;
    match j
    case JNull => Literals(rest);
    case JBool(b) => Literals(rest);
    case JStr(s) => StringReads(s, rest);
    case JNum(token) => NumberReads(token, rest);
    case JArr(items) =>
      if items == [] {
        EmptyArrayReads(j, rest);
      } else {
        ParsePrintItems(j, items, rest);
        ArrayReads(j, rest);
      }
    case JObj(members) =>
      if members == [] {
        EmptyObjectReads(j, rest);
      } else {
        ParsePrintMembers(j, members, rest);
        ObjectReads(j, rest);
      }
  }

  lemma EmptyArrayReads(j: Json, rest: Text)
    requires j == JArr([])
    ensures Parse(Print(j) + rest) == Some((j, rest))
  {
    hide ParseItems, ParseMembers, NumberLength, Unescape;
    var t := Print(j) + rest;
    assert t[0] == OPEN_BRACKET && t[1] == CLOSE_BRACKET && t[2..] == rest;
    NoLiteral(t);
  }

  lemma EmptyObjectReads(j: Json, rest: Text)
    requires j == JObj([])
    ensures Parse(Print(j) + rest) == Some((j, rest))
  {
    hide ParseItems, ParseMembers, NumberLength, Unescape;
    var t := Print(j) + rest;
    assert t[0] == OPEN_BRACE && t[1] == CLOSE_BRACE && t[2..] == rest;
    NoLiteral(t);
  }

  lemma ArrayReads(j: Json, rest: Text)
    requires j.JArr? && j.items != []
    requires ParseItems(PrintItems(j, j.items) + ([CLOSE_BRACKET] + rest)) == Some((j.items, rest))
    ensures Parse(Print(j) + rest) == Some((j, rest))
  {
    hide ParseItems, ParseMembers, NumberLength, Unescape;
    PrintStarts(j.items[0]);
    var inner := PrintItems(j, j.items);
    assert inner[0] == Print(j.items[0])[0];
    hide PrintItems, PrintMembers;
    var t := Print(j) + rest;
    assert t == [OPEN_BRACKET] + (inner + ([CLOSE_BRACKET] + rest));
    assert t[1..] == inner + ([CLOSE_BRACKET] + rest) && t[1] == inner[0];
    NoLiteral(t);
  }

  lemma ObjectReads(j: Json, rest: Text)
    requires j.JObj? && j.members != []
    requires ParseMembers(PrintMembers(j, j.members) + ([CLOSE_BRACE] + rest)) == Some((j.members, rest))
    ensures Parse(Print(j) + rest) == Some((j, rest))
  {
    hide ParseItems, ParseMembers, NumberLength, Unescape, Print;
    var inner := PrintMembers(j, j.members);
    assert inner[0] == QUOTE;
    ObjectText(j);
    hide PrintItems, PrintMembers;
    var t := Print(j) + rest;
    assert t == [OPEN_BRACE] + (inner + ([CLOSE_BRACE] + rest));
    assert t[1..] == inner + ([CLOSE_BRACE] + rest) && t[1] == inner[0];
    NoLiteral(t);
  }

  lemma ObjectText(j: Json)
    requires j.JObj?
    ensures Print(j) == [OPEN_BRACE] + PrintMembers(j, j.members) + [CLOSE_BRACE]
  {
  }

  lemma ItemsRead(first: Json, others: seq<Json>, text: Text, rest: Text, after: Text)
    requires Parse(text) == Some((first, rest)) && rest != []
    requires rest[0] == COMMA && ParseItems(rest[1..]) == Some((others, after))
    ensures ParseItems(text) == Some(([first] + others, after))
  {
    hide Parse;
  }

  lemma LastItemReads(first: Json, text: Text, rest: Text)
    requires Parse(text) == Some((first, [CLOSE_BRACKET] + rest))
    ensures ParseItems(text) == Some(([first], rest))
  {
    hide Parse;
    assert ([CLOSE_BRACKET] + rest)[1..] == rest;
  }

  lemma {:induction false} ParsePrintItems(context: Json, items: seq<Json>, rest: Text)
    requires forall i :: i in items ==> i < context
    requires items != []
    ensures ParseItems(PrintItems(context, items) + ([CLOSE_BRACKET] + rest)) == Some((items, rest))
    decreases context, 0, |items|
  {
    hide Parse, ParseItems, ParseMembers, Print;
    var tail := [CLOSE_BRACKET] + rest;
    assert items[0] in items;
    if |items| == 1 {
      ParsePrint(items[0], tail);
      LastItemReads(items[0], PrintItems(context, items) + tail, rest);
      assert items == [items[0]];
    } else {
      assert forall i :: i in items[1..] ==> i in items;
      var others := PrintItems(context, items[1..]) + tail;
      ParsePrintItems(context, items[1..], rest);
      ParsePrint(items[0], [COMMA] + others);
      assert PrintItems(context, items) + tail == Print(items[0]) + ([COMMA] + others);
      assert ([COMMA] + others)[1..] == others;
      ItemsRead(items[0], items[1..], PrintItems(context, items) + tail, [COMMA] + others, rest);
      assert items == [items[0]] + items[1..];
    }
  }

  lemma MemberReads(m: Member, text: Text, rest: Text)
    requires Parse(text) == Some((m.value, rest)) && rest != []
    ensures var t := Quoted(m.key) + [COLON] + text;
            && (rest[0] == CLOSE_BRACE ==> ParseMembers(t) == Some(([m], rest[1..])))
            && (forall others, after :: rest[0] == COMMA && ParseMembers(rest[1..]) == Some((others, after)) ==>
                  ParseMembers(t) == Some(([m] + others, after)))
  {
    hide Parse, Unescape, Escape;
    var t := Quoted(m.key) + [COLON] + text;
    assert t[1..] == Escape(m.key) + ([QUOTE] + ([COLON] + text));
    UnescapeEscape(m.key, [COLON] + text);
    assert ([COLON] + text)[1..] == text;
  }

  lemma {:induction false} ParsePrintMembers(context: Json, members: seq<Member>, rest: Text)
    requires forall m :: m in members ==> m.value < context
    requires members != []
    ensures ParseMembers(PrintMembers(context, members) + ([CLOSE_BRACE] + rest)) == Some((members, rest))
    decreases context, 0, |members|
  {
    hide Parse, ParseItems, ParseMembers, Print, Quoted;
    var tail := [CLOSE_BRACE] + rest;
    assert members[0] in members;
    var m := members[0];
    if |members| == 1 {
      ParsePrint(m.value, tail);
      MemberReads(m, Print(m.value) + tail, tail);
      assert tail[1..] == rest && members == [m];
      assert PrintMembers(context, members) + tail == Quoted(m.key) + [COLON] + (Print(m.value) + tail);
    } else {
      var others := PrintMembers(context, members[1..]) + tail;
      ParsePrintMembers(context, members[1..], rest);
      ParsePrint(m.value, [COMMA] + others);
      MemberReads(m, Print(m.value) + ([COMMA] + others), [COMMA] + others);
      assert ([COMMA] + others)[1..] == others;
      assert PrintMembers(context, members) + tail == Quoted(m.key) + [COLON] + (Print(m.value) + ([COMMA] + others));
      assert members == [m] + members[1..];
    }
  }

  /** Two values never share a text. */
  lemma PrintInjective(a: Json, b: Json)
    requires Print(a) == Print(b)
    ensures a == b
  {
    hide Parse, Print;
    ParsePrint(a, []);
    ParsePrint(b, []);
    assert Print(a) + [] == Print(a);
  }
}
