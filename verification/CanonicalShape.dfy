/**
  What canonical text looks like: in which order the members stand, and which characters are
  written. Read off the text, without the sorting and printing functions.
  */
module CanonicalShape {
  import opened Wrappers
  import opened JsText
  import opened JsonString
  import opened StableSort
  import opened CanonicalJson
  import opened CanonicalReading
  import opened CanonicalTheorems

  /** At every depth, each member's key comes before the next one's by its code units. */
  ghost predicate KeysAscend(j: Json) {
    match j
    case JArr(items) => forall i :: i in items ==> KeysAscend(i)
    case JObj(members) =>
      && (forall k :: 0 <= k < |members| - 1 ==> UnitsBefore(members[k].key, members[k + 1].key))
      && forall m :: m in members ==> KeysAscend(m.value)
    case _ => true
  }

  lemma {:induction false} DataAscends(v: Js)
    requires Proper(v)
    ensures KeysAscend(Data(v))
    decreases v
  {
    hide SortByKey, UnitsBefore;
    match v
    case Array(_, slots, _) =>
      ArrayData(v);
      var items := Data(v).items;
      forall i | i in items
        ensures KeysAscend(i)
      {
        var k :| 0 <= k < |items| && items[k] == i;
        assert slots[k] in slots;
        if slots[k].Item? {
          DataAscends(slots[k].v);
        }
      }
    case Object(_, _, _, props) =>
      ObjectData(v);
      MembersAscend(v);
      forall m | m in Data(v).members
        ensures KeysAscend(m.value)
      {
        var k :| 0 <= k < |Data(v).members| && Data(v).members[k] == m;
        DataAscends(SortByKey(props)[k].value);
      }
    case _ =>
  }

  lemma MembersAscend(v: Js)
    requires Proper(v) && v.Object?
    ensures Data(v).JObj?
    ensures forall k :: 0 <= k < |Data(v).members| - 1 ==> UnitsBefore(Data(v).members[k].key, Data(v).members[k + 1].key)
  {
    ObjectData(v);
    SortAscending(v.props);
    hide SortByKey, Before, UnitsBefore, Data;
    forall k | 0 <= k < |Data(v).members| - 1
      ensures UnitsBefore(Data(v).members[k].key, Data(v).members[k + 1].key)
    {
      BeforeExactly(Data(v).members[k].key, Data(v).members[k + 1].key);
    }
  }

  /** Read the canonical text back: at any depth the keys ascend by code units (section 3.2.3 of RFC 8785). */
  lemma TextKeysAscend(v: Js)
    requires Printable(v) && Proper(v)
    ensures ValueText(v).Success? && Parse(ValueText(v).value).Some? && KeysAscend(Parse(ValueText(v).value).value.0)
  {
    hide Parse, Data, ValueText, Printable, Proper, KeysAscend;
    DataAscends(v);
    TextReadsBack(v, []);
    assert ValueText(v).value + [] == ValueText(v).value;
  }

  // ---------- the characters written ----------

  /** Literals, and -0. */
  lemma LiteralTexts()
    ensures ValueText(Null) == Success(Ascii("null"))
    ensures ValueText(Bool(true)) == Success(Ascii("true")) && ValueText(Bool(false)) == Success(Ascii("false"))
    ensures ValueText(Number(NegativeZero)) == Success(Ascii("0"))
  {
    assert ZERO == Ascii("0");
  }

  lemma Signs()
    ensures [OPEN_BRACKET] == Ascii("[") && [CLOSE_BRACKET] == Ascii("]") && [OPEN_BRACE] == Ascii("{") && [CLOSE_BRACE] == Ascii("}")
    ensures [COMMA] == Ascii(",") && [COLON] == Ascii(":") && [QUOTE] == Ascii("\"")
  {
  }

  /** Brackets around an array, braces around an object, commas between, colons after keys, and no space. */
  lemma Punctuation(a: Json, b: Json, key: Text, other: Text)
    ensures Print(JArr([])) == Ascii("[]") && Print(JObj([])) == Ascii("{}")
    ensures Print(JArr([a, b])) == Ascii("[") + Print(a) + Ascii(",") + Print(b) + Ascii("]")
    ensures Print(JObj([Member(key, a), Member(other, b)]))
            == Ascii("{") + Quoted(key) + Ascii(":") + Print(a) + Ascii(",") + Quoted(other) + Ascii(":") + Print(b) + Ascii("}")
  {
    Signs();
    EmptyTexts();
    TwoItems(a, b);
    TwoMembers(a, b, key, other);
    hide Print, Ascii, Quoted;
  }

  lemma EmptyTexts()
    ensures Print(JArr([])) == [OPEN_BRACKET] + [CLOSE_BRACKET] == Ascii("[]")
    ensures Print(JObj([])) == [OPEN_BRACE] + [CLOSE_BRACE] == Ascii("{}")
  {
    assert [OPEN_BRACKET] + [] + [CLOSE_BRACKET] == [OPEN_BRACKET] + [CLOSE_BRACKET];
    assert [OPEN_BRACE] + [] + [CLOSE_BRACE] == [OPEN_BRACE] + [CLOSE_BRACE];
  }

  lemma TwoItems(a: Json, b: Json)
    ensures Print(JArr([a, b])) == [OPEN_BRACKET] + Print(a) + [COMMA] + Print(b) + [CLOSE_BRACKET]
  {
    var items := [a, b];
    var context := JArr(items);
    assert a in items && b in items && items[1..] == [b];
    assert forall i :: i in items ==> i < context;
    PrintTwo(context, a, b);
    hide PrintItems;
    var x, y := Print(a), Print(b);
    assert Print(context) == [OPEN_BRACKET] + PrintItems(context, items) + [CLOSE_BRACKET];
    hide Print;
    assert [OPEN_BRACKET] + (x + [COMMA] + y) == [OPEN_BRACKET] + x + [COMMA] + y;
  }

  lemma PrintTwo(context: Json, a: Json, b: Json)
    requires a < context && b < context
    ensures PrintItems(context, [a, b]) == Print(a) + [COMMA] + Print(b)
  {
    hide Print;
    assert [a, b][1..] == [b];
  }

  lemma PrintTwoMembers(context: Json, m: Member, n: Member)
    requires m.value < context && n.value < context
    ensures PrintMembers(context, [m, n])
            == Quoted(m.key) + [COLON] + Print(m.value) + [COMMA] + (Quoted(n.key) + [COLON] + Print(n.value))
  {
    hide Print, Quoted;
    assert [m, n][1..] == [n];
  }

  lemma TwoMembers(a: Json, b: Json, key: Text, other: Text)
    ensures Print(JObj([Member(key, a), Member(other, b)]))
            == [OPEN_BRACE] + Quoted(key) + [COLON] + Print(a) + [COMMA] + Quoted(other) + [COLON] + Print(b) + [CLOSE_BRACE]
  {
    var m, n := Member(key, a), Member(other, b);
    var members := [m, n];
    var context := JObj(members);
    assert m in members && n in members;
    assert forall o :: o in members ==> o.value < context;
    PrintTwoMembers(context, m, n);
    hide PrintMembers, Quoted;
    var x, y, k, l := Print(a), Print(b), Quoted(key), Quoted(other);
    assert Print(context) == [OPEN_BRACE] + PrintMembers(context, members) + [CLOSE_BRACE];
    hide Print;
    Regroup(k, x, l, y);
  }

  lemma Regroup(k: Text, x: Text, l: Text, y: Text)
    ensures [OPEN_BRACE] + (k + [COLON] + x + [COMMA] + (l + [COLON] + y)) + [CLOSE_BRACE]
            == [OPEN_BRACE] + k + [COLON] + x + [COMMA] + l + [COLON] + y + [CLOSE_BRACE]
  {
    assert k + [COLON] + x + [COMMA] + (l + [COLON] + y) == k + [COLON] + x + [COMMA] + l + [COLON] + y;
    assert [OPEN_BRACE] + (k + [COLON] + x + [COMMA] + l + [COLON] + y) == [OPEN_BRACE] + k + [COLON] + x + [COMMA] + l + [COLON] + y;
  }

  // ---------- strings ----------

  /** One unit of a string as section 3.2.2.2 of RFC 8785 asks for it: short escapes, */
  lemma ShortEscapes()
    ensures Escape([0x08]) == Ascii("\\b") && Escape([0x09]) == Ascii("\\t") && Escape([0x0A]) == Ascii("\\n")
    ensures Escape([0x0C]) == Ascii("\\f") && Escape([0x0D]) == Ascii("\\r")
    ensures Escape([QUOTE]) == Ascii("\\\"") && Escape([BACKSLASH]) == Ascii("\\\\")
  {
    EscapeOne(0x08);
    EscapeOne(0x09);
    EscapeOne(0x0A);
    EscapeOne(0x0C);
    EscapeOne(0x0D);
    EscapeOne(QUOTE);
    EscapeOne(BACKSLASH);
    hide Escape;
  }

  /** lower-case hexadecimal for the other control characters, and everything else as it is. */
  lemma OtherEscapes(c: Unit)
    requires c !in {0x08, 0x09, 0x0A, 0x0C, 0x0D, QUOTE, BACKSLASH} && !IsHighSurrogate(c) && !IsLowSurrogate(c)
    ensures Escape([c]) == if c >= 0x20 then [c] else Ascii(if c < 0x10 then "\\u000" else "\\u001") + [LowerHex(c % 0x10)]
  {
    EscapeOne(c);
    hide Escape;
    if c < 0x20 {
      assert UnicodeEscape(c) == [BACKSLASH, 0x75, 0x30, 0x30, 0x30 + c / 0x10, HexDigit(c % 16)];
      assert HexDigit(c % 16) == LowerHex(c % 0x10);
    }
  }

  /** 0123456789abcdef */
  function LowerHex(d: Unit): Unit
    requires d < 16
  {
    Ascii("0123456789abcdef")[d]
  }

  lemma EscapeOne(c: Unit)
    ensures Escape([c]) == EscapeUnit(c)
  {
    assert [c][1..] == [];
    assert EscapeUnit(c) + [] == EscapeUnit(c);
  }
}
