/**
  The canonical JSON printer, section 3.2 of RFC 8785: what it accepts, what it prints, and
  why the text determines the value and nothing else.
  */
module CanonicalJson {
  import opened Wrappers
  import opened JsText
  import opened JsonString
  import opened Utf16
  import opened StableSort

  const COMMA: Unit := 0x2C
  const COLON: Unit := 0x3A
  const OPEN_BRACE: Unit := 0x7B
  const CLOSE_BRACE: Unit := 0x7D
  const MINUS: Unit := 0x2D

  const NULL_TEXT := Ascii("null")
  const TRUE_TEXT := Ascii("true")
  const FALSE_TEXT := Ascii("false")

  /** The units of ECMAScript number texts: digits, '-', '+', '.', 'e'. */
  predicate IsNumberUnit(c: Unit) {
    0x30 <= c <= 0x39 || c == MINUS || c == 0x2B || c == DOT || c == 0x65
  }

  predicate IsNumberText(t: Text) {
    t != [] && (t[0] == MINUS || 0x30 <= t[0] <= 0x39) && forall i :: 0 <= i < |t| ==> IsNumberUnit(t[i])
  }

  type Token = t: Text | IsNumberText(t) witness [0x30]

  const ZERO: Token := [0x30]

  /** A double: every finite one but -0 is represented by the text JSON.stringify gives it. */
  datatype Double = NegativeZero | Finite(token: Token) | NonFinite

  function NumberText(n: Double): Token
    requires !n.NonFinite?
  {
    if n.NegativeZero? then ZERO else n.token
  }

  /**
    The values canonicalValueText can meet. symbols, named, plain and hidden stand for own symbol
    keys, named array properties, the prototype test and non-enumerable properties; props are in
    Object.keys order; Unsupported is undefined, a bigint, a function or a symbol.
    */
  datatype Js =
    | Null
    | Bool(b: bool)
    | Str(s: Text)
    | Number(n: Double)
    | Array(symbols: bool, slots: seq<Slot>, named: bool)
    | Object(plain: bool, symbolKeys: bool, hidden: bool, props: seq<Prop>)
    | Unsupported

  datatype Slot = Hole | Item(v: Js)

  datatype Prop = Prop(key: Text, accessor: bool, value: Js)

  datatype Fault =
    | LoneSurrogate | NonFiniteNumber | SymbolKeys | SparseArray | NamedArray
    | NotPlain | HiddenProperty | AccessorProperty | UnsupportedValue

  // ---------- keys.sort() ----------

  function PropKey(p: Prop): Text {
    p.key
  }

  function SortByKey(props: seq<Prop>): (r: seq<Prop>)
    ensures multiset(r) == multiset(props)
  {
    Sort(PropKey, props)
  }

  ghost predicate DistinctKeys(props: seq<Prop>) {
    forall i, j :: 0 <= i < j < |props| ==> props[i].key != props[j].key
  }

  // ---------- canonicalValueText ----------

  lemma SortedMembers(props: seq<Prop>)
    ensures forall p :: p in SortByKey(props) <==> p in props
  {
    SameMembers(SortByKey(props), props);
  }

  predicate HasLoneKey(props: seq<Prop>) {
    exists p :: p in props && !ScalarString(p.key)
  }

  function ValueText(value: Js): Result<Text, Fault>
    decreases value, 1
  {
    match value
    case Null => Success(NULL_TEXT)
    case Bool(b) => Success(if b then TRUE_TEXT else FALSE_TEXT)
    case Str(s) => if ScalarString(s) then Success(Quoted(s)) else Failure(LoneSurrogate)
    case Number(n) => if n.NonFinite? then Failure(NonFiniteNumber) else Success(NumberText(n))
    case Array(symbols, slots, named) =>
      if symbols then Failure(SymbolKeys)
      else
        (match SlotTexts(value, slots)
         case Failure(e) => Failure(e)
         case Success(entries) =>
           if named then Failure(NamedArray) else Success([OPEN_BRACKET] + Join(entries, [COMMA]) + [CLOSE_BRACKET]))
    case Object(plain, symbolKeys, hidden, props) =>
      if !plain then Failure(NotPlain)
      else if symbolKeys then Failure(SymbolKeys)
      else if hidden then Failure(HiddenProperty)
      else if HasLoneKey(props) then Failure(LoneSurrogate)
      else
        SortedMembers(props);
        (match PropTexts(value, SortByKey(props))
         case Failure(e) => Failure(e)
         case Success(entries) => Success([OPEN_BRACE] + Join(entries, [COMMA]) + [CLOSE_BRACE]))
    case Unsupported => Failure(UnsupportedValue)
  }

  /** The entries of an array from the given slots on. */
  function SlotTexts(context: Js, slots: seq<Slot>): (r: Result<seq<Text>, Fault>)
    requires forall s :: s in slots && s.Item? ==> s.v < context
    ensures r.Success? ==> |r.value| == |slots|
    decreases context, 0, |slots|
  {
    if slots == [] then Success([])
    else if slots[0].Hole? then Failure(SparseArray)
    else
      assert slots[0] in slots;
      match ValueText(slots[0].v)
      case Failure(e) => Failure(e)
      case Success(first) =>
        match SlotTexts(context, slots[1..])
        case Failure(e) => Failure(e)
        case Success(rest) => Success([first] + rest)
  }

  /** The entries of an object whose (sorted) properties are given. */
  function PropTexts(context: Js, props: seq<Prop>): (r: Result<seq<Text>, Fault>)
    requires forall p :: p in props ==> p.value < context
    ensures r.Success? ==> |r.value| == |props|
    decreases context, 0, |props|
  {
    if props == [] then Success([])
    else if props[0].accessor then Failure(AccessorProperty)
    else if props[0].value.Unsupported? then Failure(UnsupportedValue)
    else
      assert props[0] in props;
      match ValueText(props[0].value)
      case Failure(e) => Failure(e)
      case Success(first) =>
        match PropTexts(context, props[1..])
        case Failure(e) => Failure(e)
        case Success(rest) => Success([Quoted(props[0].key) + [COLON] + first] + rest)
  }

  method SlotsText(context: Js, slots: seq<Slot>) returns (r: Result<seq<Text>, Fault>)
    requires forall s :: s in slots && s.Item? ==> s.v < context
    ensures r == SlotTexts(context, slots)
    decreases context, 0
  {
    var entries: seq<Text> := [];
    var index := 0;
    ghost var rest := SlotTexts(context, slots);
    assert slots[0..] == slots && (rest.Success? ==> entries + rest.value == rest.value);
    while index < |slots|
      invariant 0 <= index <= |slots|
      invariant rest == SlotTexts(context, slots[index..])
      invariant SlotTexts(context, slots) == if rest.Failure? then rest else Success(entries + rest.value)
    {
      SlotStep(context, slots, index);
      rest := SlotTexts(context, slots[index + 1..]);
      if slots[index].Hole? {
        return Failure(SparseArray);
      }
      assert slots[index] in slots;
      var text := CanonicalValueText(slots[index].v);
      if text.Failure? {
        return Failure(text.error);
      }
      if rest.Success? {
        ConcatAssociative(entries, [text.value], rest.value);
      }
      entries := entries + [text.value];
      index := index + 1;
    }
    assert rest == Success([]) && entries + [] == entries;
    return Success(entries);
  }

  lemma SlotStep(context: Js, slots: seq<Slot>, index: nat)
    requires forall s :: s in slots && s.Item? ==> s.v < context
    requires index < |slots|
    ensures SlotTexts(context, slots[index..])
            == if slots[index].Hole? then Failure(SparseArray)
               else if ValueText(slots[index].v).Failure? then Failure(ValueText(slots[index].v).error)
               else if SlotTexts(context, slots[index + 1..]).Failure? then SlotTexts(context, slots[index + 1..])
               else Success([ValueText(slots[index].v).value] + SlotTexts(context, slots[index + 1..]).value)
  {
    hide ValueText;
    assert slots[index..][0] == slots[index] && slots[index..][1..] == slots[index + 1..];
  }

  method PropsText(context: Js, props: seq<Prop>) returns (r: Result<seq<Text>, Fault>)
    requires forall p :: p in props ==> p.value < context
    ensures r == PropTexts(context, props)
    decreases context, 0
  {
    var entries: seq<Text> := [];
    var index := 0;
    ghost var rest := PropTexts(context, props);
    assert props[0..] == props && (rest.Success? ==> entries + rest.value == rest.value);
    while index < |props|
      invariant 0 <= index <= |props|
      invariant rest == PropTexts(context, props[index..])
      invariant PropTexts(context, props) == if rest.Failure? then rest else Success(entries + rest.value)
    {
      PropStep(context, props, index);
      rest := PropTexts(context, props[index + 1..]);
      var p := props[index];
      if p.accessor {
        return Failure(AccessorProperty);
      }
      if p.value.Unsupported? {
        return Failure(UnsupportedValue);
      }
      assert p in props;
      var text := CanonicalValueText(p.value);
      if text.Failure? {
        return Failure(text.error);
      }
      var entry := Quoted(p.key) + [COLON] + text.value;
      if rest.Success? {
        ConcatAssociative(entries, [entry], rest.value);
      }
      entries := entries + [entry];
      index := index + 1;
    }
    assert rest == Success([]) && entries + [] == entries;
    return Success(entries);
  }

  lemma PropStep(context: Js, props: seq<Prop>, index: nat)
    requires forall p :: p in props ==> p.value < context
    requires index < |props|
    ensures PropTexts(context, props[index..])
            == if props[index].accessor then Failure(AccessorProperty)
               else if props[index].value.Unsupported? then Failure(UnsupportedValue)
               else if ValueText(props[index].value).Failure? then Failure(ValueText(props[index].value).error)
               else if PropTexts(context, props[index + 1..]).Failure? then PropTexts(context, props[index + 1..])
               else Success([Quoted(props[index].key) + [COLON] + ValueText(props[index].value).value]
                            + PropTexts(context, props[index + 1..]).value)
  {
    hide ValueText, Quoted;
    assert props[index..][0] == props[index] && props[index..][1..] == props[index + 1..];
  }

  /** canonicalValueText, with its loops over array slots, keys and sorted entries. */
  method CanonicalValueText(value: Js) returns (r: Result<Text, Fault>)
    ensures r == ValueText(value)
    decreases value, 1
  {
    hide SlotTexts, PropTexts, Join, Quoted;
    match value
    case Null => return Success(NULL_TEXT);
    case Bool(b) => return Success(if b then TRUE_TEXT else FALSE_TEXT);
    case Str(s) =>
      var fault := AssertUnicodeScalarString(s);
      return if fault.Some? then Failure(LoneSurrogate) else Success(Quoted(s));
    case Number(n) =>
      return if n.NonFinite? then Failure(NonFiniteNumber) else Success(NumberText(n));
    case Array(symbols, slots, named) =>
      if symbols {
        return Failure(SymbolKeys);
      }
      var entries := SlotsText(value, slots);
      if entries.Failure? {
        return Failure(entries.error);
      }
      return if named then Failure(NamedArray) else Success([OPEN_BRACKET] + Join(entries.value, [COMMA]) + [CLOSE_BRACKET]);
    case Object(plain, symbolKeys, hidden, props) =>
      if !plain {
        return Failure(NotPlain);
      }
      if symbolKeys {
        return Failure(SymbolKeys);
      }
      if hidden {
        return Failure(HiddenProperty);
      }
      var index := 0;
      while index < |props|
        invariant 0 <= index <= |props|
        invariant forall i :: 0 <= i < index ==> ScalarString(props[i].key)
      {
        var fault := AssertUnicodeScalarString(props[index].key);
        if fault.Some? {
          assert props[index] in props;
          return Failure(LoneSurrogate);
        }
        index := index + 1;
      }
      assert forall p :: p in props ==> ScalarString(p.key);
      SortedMembers(props);
      var entries := PropsText(value, SortByKey(props));
      if entries.Failure? {
        return Failure(entries.error);
      }
      return Success([OPEN_BRACE] + Join(entries.value, [COMMA]) + [CLOSE_BRACE]);
    case Unsupported =>
      return Failure(UnsupportedValue);
  }
}
