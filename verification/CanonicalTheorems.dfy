/**
  What canonical text says about a value: the printer accepts exactly the printable values,
  its text is the plain printing of the key-sorted data, and two printable values have the
  same text exactly when they are equal as JSON values.
  */
module CanonicalTheorems {
  import opened Wrappers
  import opened JsText
  import opened JsonString
  import opened Utf16
  import opened Lists
  import opened StableSort
  import opened CanonicalJson
  import opened CanonicalReading

  /** The JSON values among the JavaScript values. */
  predicate Printable(v: Js) {
    match v
    case Null => true
    case Bool(_) => true
    case Str(s) => ScalarString(s)
    case Number(n) => !n.NonFinite?
    case Array(symbols, slots, named) => !symbols && !named && forall s :: s in slots ==> s.Item? && Printable(s.v)
    case Object(plain, symbolKeys, hidden, props) =>
      plain && !symbolKeys && !hidden && forall p :: p in props ==> ScalarString(p.key) && !p.accessor && Printable(p.value)
    case Unsupported => false
  }

  /** Objects have distinct keys, at every depth. */
  predicate Proper(v: Js) {
    match v
    case Array(_, slots, _) => forall s :: s in slots && s.Item? ==> Proper(s.v)
    case Object(_, _, _, props) =>
      (forall i, j :: 0 <= i < j < |props| ==> props[i].key != props[j].key) && forall p :: p in props ==> Proper(p.value)
    case _ => true
  }

  // ---------- acceptance ----------

  /** The printer succeeds exactly on the printable values. */
  lemma {:induction false} AcceptsExactly(v: Js)
    ensures ValueText(v).Success? <==> Printable(v)
    decreases v, 1
  {
    hide SlotTexts, PropTexts, SortByKey, ScalarString, Quoted, Join;
    match v
    case Array(symbols, slots, named) => SlotsAccepted(v, slots);
    case Object(plain, symbolKeys, hidden, props) =>
      SortedMembers(props);
      PropsAccepted(v, SortByKey(props));
    case _ =>
  }

  lemma {:induction false} SlotsAccepted(context: Js, slots: seq<Slot>)
    requires forall s :: s in slots && s.Item? ==> s.v < context
    ensures SlotTexts(context, slots).Success? <==> forall s :: s in slots ==> s.Item? && Printable(s.v)
    decreases context, 0, |slots|
  {
    hide ValueText;
    if slots != [] {
      assert slots[0] in slots;
      assert forall s :: s in slots <==> s == slots[0] || s in slots[1..];
      SlotsAccepted(context, slots[1..]);
      if slots[0].Item? {
        AcceptsExactly(slots[0].v);
      }
    }
  }

  lemma {:induction false} PropsAccepted(context: Js, props: seq<Prop>)
    requires forall p :: p in props ==> p.value < context
    ensures PropTexts(context, props).Success? <==> forall p :: p in props ==> !p.accessor && Printable(p.value)
    decreases context, 0, |props|
  {
    hide ValueText, Quoted;
    if props != [] {
      assert props[0] in props;
      assert forall p :: p in props <==> p == props[0] || p in props[1..];
      PropsAccepted(context, props[1..]);
      AcceptsExactly(props[0].value);
    }
  }

  // ---------- the printed data ----------

  /** The JSON data of a printable value; what is no JSON data counts as null. */
  function Data(v: Js): Json
    decreases v, 1
  {
    match v
    case Null => JNull
    case Bool(b) => JBool(b)
    case Str(s) => JStr(s)
    case Number(n) => if n.NonFinite? then JNull else JNum(NumberText(n))
    case Array(_, slots, _) => JArr(DataItems(v, slots))
    case Object(_, _, _, props) =>
      SortedMembers(props);
      JObj(DataMembers(v, SortByKey(props)))
    case Unsupported => JNull
  }

  function DataItems(context: Js, slots: seq<Slot>): (r: seq<Json>)
    requires forall s :: s in slots && s.Item? ==> s.v < context
    ensures |r| == |slots|
    ensures forall i :: 0 <= i < |r| ==> r[i] == if slots[i].Hole? then JNull else Data(slots[i].v)
    decreases context, 0, |slots|
  {
    if slots == [] then []
    else
      assert slots[0] in slots;
      [if slots[0].Hole? then JNull else Data(slots[0].v)] + DataItems(context, slots[1..])
  }

  function DataMembers(context: Js, props: seq<Prop>): (r: seq<Member>)
    requires forall p :: p in props ==> p.value < context
    ensures |r| == |props| && forall i :: 0 <= i < |r| ==> r[i] == Member(props[i].key, Data(props[i].value))
    decreases context, 0, |props|
  {
    if props == [] then []
    else
      assert props[0] in props;
      [Member(props[0].key, Data(props[0].value))] + DataMembers(context, props[1..])
  }

  /** The canonical text is the plain printing of the key-sorted data. */
  lemma {:induction false} TextOfData(v: Js)
    requires Printable(v)
    ensures ValueText(v) == Success(Print(Data(v)))
    decreases v, 1
  {
    hide SlotTexts, PropTexts, SortByKey, PrintItems, PrintMembers, Quoted, Join, DataItems, DataMembers;
    match v
    case Array(_, slots, _) =>
      var items := DataItems(v, slots);
      assert forall i :: i in items ==> i < JArr(items);
      TextOfItems(v, slots, JArr(items));
    case Object(_, _, _, props) =>
      SortedMembers(props);
      var members := DataMembers(v, SortByKey(props));
      assert forall m :: m in members ==> m.value < JObj(members);
      TextOfMembers(v, SortByKey(props), JObj(members));
    case _ =>
  }

  lemma {:induction false} TextOfItems(context: Js, slots: seq<Slot>, printed: Json)
    requires forall s :: s in slots ==> s.Item? && s.v < context && Printable(s.v)
    requires forall i :: i in DataItems(context, slots) ==> i < printed
    ensures SlotTexts(context, slots).Success?
    ensures Join(SlotTexts(context, slots).value, [COMMA]) == PrintItems(printed, DataItems(context, slots))
    decreases context, 0, |slots|
  {
    hide ValueText, Print, Data;
    if slots != [] {
      assert slots[0] in slots;
      var items := DataItems(context, slots);
      assert items[1..] == DataItems(context, slots[1..]);
      assert forall i :: i in items[1..] ==> i in items;
      TextOfData(slots[0].v);
      TextOfItems(context, slots[1..], printed);
      var texts, rest := SlotTexts(context, slots).value, SlotTexts(context, slots[1..]).value;
      assert texts[0] == Print(items[0]) && texts[1..] == rest;
    }
  }

  lemma JoinMembers(printed: Json, members: seq<Member>, texts: seq<Text>)
    requires forall m :: m in members ==> m.value < printed
    requires members != [] && |texts| == |members|
    requires texts[0] == Quoted(members[0].key) + [COLON] + Print(members[0].value)
    requires forall m :: m in members[1..] ==> m in members
    requires Join(texts[1..], [COMMA]) == PrintMembers(printed, members[1..])
    ensures Join(texts, [COMMA]) == PrintMembers(printed, members)
  {
    hide Print, Quoted;
  }

  lemma EmptyMembers(context: Js, props: seq<Prop>, printed: Json)
    requires props == []
    ensures PropTexts(context, props) == Success([]) && DataMembers(context, props) == []
    ensures Join([], [COMMA]) == PrintMembers(printed, [])
  {
  }

  lemma {:induction false} TextOfMembers(context: Js, props: seq<Prop>, printed: Json)
    requires forall p :: p in props ==> p.value < context && !p.accessor && Printable(p.value)
    requires forall m :: m in DataMembers(context, props) ==> m.value < printed
    ensures PropTexts(context, props).Success?
    ensures Join(PropTexts(context, props).value, [COMMA]) == PrintMembers(printed, DataMembers(context, props))
    decreases context, 0, |props|
  {
    hide ValueText, Print, Data, Quoted, ScalarString, PrintMembers, Join;
    if props == [] {
      EmptyMembers(context, props, printed);
    } else {
      assert props[0] in props && !props[0].value.Unsupported?;
      hide Printable;
      var members := DataMembers(context, props);
      assert members[1..] == DataMembers(context, props[1..]);
      assert forall m :: m in members[1..] ==> m in members;
      assert members[0] == Member(props[0].key, Data(props[0].value));
      hide DataMembers;
      TextOfData(props[0].value);
      TextOfMembers(context, props[1..], printed);
      var rest := PropTexts(context, props[1..]).value;
      assert PropTexts(context, props).value == [Quoted(props[0].key) + [COLON] + Print(members[0].value)] + rest;
      hide PropTexts;
      JoinMembers(printed, members, PropTexts(context, props).value);
    }
  }

  /** The parser recovers the data of a printable value from its canonical text. */
  lemma TextReadsBack(v: Js, rest: Text)
    requires Printable(v) && Delimited(rest)
    ensures ValueText(v).Success? && Parse(ValueText(v).value + rest) == Some((Data(v), rest))
  {
    hide Parse, Print, Data, ValueText;
    TextOfData(v);
    ParsePrint(Data(v), rest);
  }

  // ---------- sorted keys ----------

  ghost predicate Ascending(props: seq<Prop>) {
    forall i, j :: 0 <= i < j < |props| ==> Before(props[i].key, props[j].key)
  }

  ghost predicate AllAfter(key: Text, props: seq<Prop>) {
    forall q :: q in props ==> Before(key, q.key)
  }

  lemma AscendingTail(sorted: seq<Prop>)
    requires Ascending(sorted) && sorted != []
    ensures Ascending(sorted[1..]) && AllAfter(sorted[0].key, sorted[1..])
  {
    hide Before;
  }

  lemma DistinctKeysTell(props: seq<Prop>)
    requires DistinctKeys(props)
    ensures KeysTell(PropKey, props) && Distinct(props)
  {
    forall p, q | p in props && q in props && PropKey(p) == PropKey(q)
      ensures p == q
    {
      var i :| 0 <= i < |props| && props[i] == p;
      var j :| 0 <= j < |props| && props[j] == q;
    }
  }

  lemma SortAscending(props: seq<Prop>)
    requires DistinctKeys(props)
    ensures Ascending(SortByKey(props))
  {
    var sorted := SortByKey(props);
    DistinctKeysTell(props);
    SortSorts(PropKey, props);
    SortedMembers(props);
    DistinctMultiset(props);
    MultisetDistinct(sorted);
    hide SortByKey, Before;
    forall i, j | 0 <= i < j < |sorted|
      ensures Before(sorted[i].key, sorted[j].key)
    {
      assert sorted[i] in props && sorted[j] in props;
      BeforeTotal(sorted[i].key, sorted[j].key);
      assert !Before(PropKey(sorted[j]), PropKey(sorted[i]));
    }
  }

  function Keys(props: seq<Prop>): set<Text> {
    set p | p in props :: p.key
  }

  lemma TailKeys(a: seq<Prop>)
    requires Ascending(a) && a != []
    ensures a[0].key in Keys(a) && Keys(a[1..]) == Keys(a) - {a[0].key}
  {
    assert a[0] in a;
    BeforeTotal(a[0].key, a[0].key);
    AscendingTail(a);
    hide Before, Ascending;
    forall key
      ensures key in Keys(a[1..]) <==> key in Keys(a) && key != a[0].key
    {
      if key in Keys(a[1..]) {
        var p :| p in a[1..] && p.key == key;
        assert p in a;
      }
      if key in Keys(a) && key != a[0].key {
        var p :| p in a && p.key == key;
        assert a == [a[0]] + a[1..];
      }
    }
  }

  lemma FirstKeyLeast(b: seq<Prop>, key: Text)
    requires Ascending(b) && b != [] && key in Keys(b)
    ensures key == b[0].key || Before(b[0].key, key)
  {
    hide Before;
    var q :| q in b && q.key == key;
    var i :| 0 <= i < |b| && b[i] == q;
  }

  lemma FirstKeysEqual(a: seq<Prop>, b: seq<Prop>)
    requires Ascending(a) && Ascending(b) && a != [] && b != [] && Keys(a) == Keys(b)
    ensures a[0].key == b[0].key
  {
    TailKeys(a);
    TailKeys(b);
    FirstKeyLeast(a, b[0].key);
    FirstKeyLeast(b, a[0].key);
    BeforeTotal(a[0].key, b[0].key);
  }

  /** Two ascending property lists over the same keys agree on the key at every position. */
  lemma {:induction false} SortedAlign(a: seq<Prop>, b: seq<Prop>)
    requires Ascending(a) && Ascending(b) && Keys(a) == Keys(b)
    ensures |a| == |b| && forall i :: 0 <= i < |a| ==> a[i].key == b[i].key
  {
    hide Before;
    if a != [] && b != [] {
      FirstKeysEqual(a, b);
      TailKeys(a);
      TailKeys(b);
      AscendingTail(a);
      AscendingTail(b);
      hide Ascending, Keys;
      SortedAlign(a[1..], b[1..]);
      assert forall i :: 1 <= i < |a| ==> a[i] == a[1..][i - 1] && b[i] == b[1..][i - 1];
    } else if a != [] {
      TailKeys(a);
    } else if b != [] {
      TailKeys(b);
    }
  }

  lemma PropAt(props: seq<Prop>, p: Prop) returns (i: nat)
    requires p in props
    ensures i < |SortByKey(props)| && SortByKey(props)[i] == p
  {
    SortedMembers(props);
    hide SortByKey;
    i :| 0 <= i < |SortByKey(props)| && SortByKey(props)[i] == p;
  }

  // ---------- equality of JSON values ----------

  predicate SameNumber(m: Double, n: Double) {
    m == n || (m == NegativeZero && n == Finite(ZERO)) || (m == Finite(ZERO) && n == NegativeZero)
  }

  /** Equal as JSON values: objects as sets of members, -0 as 0. */
  ghost predicate Same(v: Js, w: Js)
    decreases v
  {
    match v
    case Null => w.Null?
    case Bool(b) => w == Bool(b)
    case Str(s) => w == Str(s)
    case Number(n) => w.Number? && SameNumber(n, w.n)
    case Array(_, slots, _) =>
      && w.Array? && |slots| == |w.slots|
      && forall i :: 0 <= i < |slots| ==> slots[i].Item? && w.slots[i].Item? && Same(slots[i].v, w.slots[i].v)
    case Object(_, _, _, props) =>
      && w.Object?
      && (forall p :: p in props ==> exists q :: q in w.props && q.key == p.key && Same(p.value, q.value))
      && (forall q :: q in w.props ==> exists p :: p in props && q.key == p.key && Same(p.value, q.value))
    case Unsupported => false
  }

  lemma {:induction false} SameIsSameData(v: Js, w: Js)
    requires Printable(v) && Printable(w) && Proper(v) && Proper(w)
    ensures Same(v, w) <==> Data(v) == Data(w)
    decreases v
  {
    match v
    case Array(_, slots, _) =>
      if w.Array? && |slots| == |w.slots| {
        forall i | 0 <= i < |slots|
          ensures Same(slots[i].v, w.slots[i].v) <==> Data(slots[i].v) == Data(w.slots[i].v)
        {
          assert slots[i] in slots && w.slots[i] in w.slots;
          SameIsSameData(slots[i].v, w.slots[i].v);
        }
        SameArrays(v, w);
      }
    case Object(_, _, _, props) =>
      if w.Object? {
        forall p, q | p in props && q in w.props
          ensures Same(p.value, q.value) <==> Data(p.value) == Data(q.value)
        {
          SameIsSameData(p.value, q.value);
        }
        SameObjects(v, w);
      }
    case _ =>
  }

  lemma SameArrays(v: Js, w: Js)
    requires Printable(v) && Printable(w) && v.Array? && w.Array? && |v.slots| == |w.slots|
    requires forall i :: 0 <= i < |v.slots| ==> v.slots[i].Item? && w.slots[i].Item?
    requires forall i :: 0 <= i < |v.slots| ==> (Same(v.slots[i].v, w.slots[i].v) <==> Data(v.slots[i].v) == Data(w.slots[i].v))
    ensures Same(v, w) <==> Data(v) == Data(w)
  {
    hide Same, Data, DataItems, Printable;
    var a, b := DataItems(v, v.slots), DataItems(w, w.slots);
    ArrayData(v);
    ArrayData(w);
    SameItems(v, w);
    assert a == b <==> forall i :: 0 <= i < |a| ==> a[i] == b[i];
  }

  lemma ArrayData(v: Js)
    requires v.Array?
    ensures Data(v) == JArr(DataItems(v, v.slots))
  {
    hide DataItems;
  }

  lemma SameItems(v: Js, w: Js)
    requires v.Array? && w.Array? && |v.slots| == |w.slots|
    requires forall i :: 0 <= i < |v.slots| ==> v.slots[i].Item? && w.slots[i].Item?
    ensures Same(v, w) <==> forall i :: 0 <= i < |v.slots| ==> Same(v.slots[i].v, w.slots[i].v)
  {
  }

  ghost predicate Counterparts(v: Js, w: Js)
    requires v.Object? && w.Object?
  {
    && (forall p :: p in v.props ==> exists q :: q in w.props && q.key == p.key && Data(p.value) == Data(q.value))
    && (forall q :: q in w.props ==> exists p :: p in v.props && q.key == p.key && Data(p.value) == Data(q.value))
  }

  lemma SameObjects(v: Js, w: Js)
    requires Printable(v) && Printable(w) && Proper(v) && Proper(w) && v.Object? && w.Object?
    requires forall p, q :: p in v.props && q in w.props ==> (Same(p.value, q.value) <==> Data(p.value) == Data(q.value))
    ensures Same(v, w) <==> Data(v) == Data(w)
  {
    hide Data, Before, SortByKey, ScalarString;
    assert Same(v, w) <==> Counterparts(v, w);
    if Counterparts(v, w) {
      CounterpartsForward(v, w);
    }
    if Data(v) == Data(w) {
      CounterpartsBackward(v, w);
    }
  }

  /** The members of an object's data, position by position. */
  lemma ObjectData(v: Js)
    requires v.Object?
    ensures forall p :: p in SortByKey(v.props) <==> p in v.props
    ensures Data(v).JObj? && |Data(v).members| == |SortByKey(v.props)|
    ensures forall i :: 0 <= i < |SortByKey(v.props)| ==>
              SortByKey(v.props)[i] in v.props
              && Data(v).members[i] == Member(SortByKey(v.props)[i].key, Data(SortByKey(v.props)[i].value))
  {
    SortedMembers(v.props);
    hide SortByKey;
    assert forall i :: 0 <= i < |SortByKey(v.props)| ==> SortByKey(v.props)[i] in SortByKey(v.props);
  }

  lemma CounterpartsBackward(v: Js, w: Js)
    requires v.Object? && w.Object? && Data(v) == Data(w)
    ensures Counterparts(v, w)
  {
    forall p | p in v.props
      ensures exists q :: q in w.props && q.key == p.key && Data(p.value) == Data(q.value)
    {
      var q := Counterpart(v, w, p);
    }
    forall q | q in w.props
      ensures exists p :: p in v.props && q.key == p.key && Data(p.value) == Data(q.value)
    {
      var p := Counterpart(w, v, q);
    }
  }

  lemma Counterpart(v: Js, w: Js, p: Prop) returns (q: Prop)
    requires v.Object? && w.Object? && Data(v) == Data(w) && p in v.props
    ensures q in w.props && q.key == p.key && Data(p.value) == Data(q.value)
  {
    ObjectData(v);
    ObjectData(w);
    hide Data, SortByKey, ScalarString;
    var i := PropAt(v.props, p);
    assert Data(v).members[i] == Data(w).members[i];
    q := SortByKey(w.props)[i];
  }

  /** The counterpart of one property, by key and by data. */
  lemma CounterpartOf(v: Js, w: Js, p: Prop) returns (q: Prop)
    requires v.Object? && w.Object? && Counterparts(v, w) && p in v.props
    ensures q in w.props && q.key == p.key && Data(p.value) == Data(q.value)
  {
    hide Data;
    q :| q in w.props && q.key == p.key && Data(p.value) == Data(q.value);
  }

  lemma CounterpartsSymmetric(v: Js, w: Js)
    requires v.Object? && w.Object? && Counterparts(v, w)
    ensures Counterparts(w, v)
  {
    hide Data;
  }

  ghost predicate SameProps(a: seq<Prop>, props: seq<Prop>) {
    forall p :: p in a <==> p in props
  }

  lemma CounterpartKeysWithin(v: Js, w: Js, a: seq<Prop>, b: seq<Prop>)
    requires v.Object? && w.Object? && Counterparts(v, w)
    requires SameProps(a, v.props) && SameProps(b, w.props)
    ensures Keys(a) <= Keys(b)
  {
    hide Data, Counterparts;
    forall key | key in Keys(a)
      ensures key in Keys(b)
    {
      var p :| p in a && p.key == key;
      var q := CounterpartOf(v, w, p);
      assert q in b;
    }
  }

  lemma CounterpartMembers(v: Js, w: Js, a: seq<Prop>, b: seq<Prop>, i: nat)
    requires v.Object? && w.Object? && Counterparts(v, w)
    requires SameProps(a, v.props) && SameProps(b, w.props)
    requires Ascending(b) && |a| == |b| && i < |a| && a[i].key == b[i].key
    ensures Data(a[i].value) == Data(b[i].value)
  {
    hide Data, Before, Counterparts;
    var q := CounterpartOf(v, w, a[i]);
    assert q in b;
    var j :| 0 <= j < |b| && b[j] == q;
    AscendingDistinct(b, i, j);
  }

  lemma CounterpartsAlign(v: Js, w: Js, a: seq<Prop>, b: seq<Prop>)
    requires v.Object? && w.Object? && Counterparts(v, w)
    requires SameProps(a, v.props) && SameProps(b, w.props) && Ascending(a) && Ascending(b)
    ensures |a| == |b| && forall i :: 0 <= i < |a| ==> a[i].key == b[i].key && Data(a[i].value) == Data(b[i].value)
  {
    hide Data, Before;
    CounterpartsSymmetric(v, w);
    hide Counterparts, Ascending, Keys, SameProps;
    CounterpartKeysWithin(v, w, a, b);
    CounterpartKeysWithin(w, v, b, a);
    SortedAlign(a, b);
    forall i | 0 <= i < |a|
      ensures Data(a[i].value) == Data(b[i].value)
    {
      CounterpartMembers(v, w, a, b, i);
    }
  }

  lemma CounterpartsForward(v: Js, w: Js)
    requires Proper(v) && Proper(w) && v.Object? && w.Object? && Counterparts(v, w)
    ensures Data(v) == Data(w)
  {
    SortAscending(v.props);
    SortAscending(w.props);
    ObjectData(v);
    ObjectData(w);
    hide SortByKey, Ascending, Counterparts, Data, Proper;
    CounterpartsAlign(v, w, SortByKey(v.props), SortByKey(w.props));
    assert Data(v).members == Data(w).members;
  }

  lemma AscendingDistinct(b: seq<Prop>, i: nat, j: nat)
    requires Ascending(b) && i < |b| && j < |b| && b[i].key == b[j].key
    ensures i == j
  {
    BeforeTotal(b[i].key, b[i].key);
  }

  /**
    Two printable values have the same canonical text exactly when they are equal as JSON
    values, whatever the insertion order of their keys at any depth.
    */
  lemma SameTextExactly(v: Js, w: Js)
    requires Printable(v) && Printable(w) && Proper(v) && Proper(w)
    ensures ValueText(v) == ValueText(w) <==> Same(v, w)
  {
    hide ValueText, Print, Data, Same;
    TextOfData(v);
    TextOfData(w);
    SameIsSameData(v, w);
    if Print(Data(v)) == Print(Data(w)) {
      PrintInjective(Data(v), Data(w));
    }
  }

  // ---------- reordering, faults included ----------

  lemma {:induction false} PropTextsContext(c: Js, d: Js, props: seq<Prop>)
    requires forall p :: p in props ==> p.value < c && p.value < d
    ensures PropTexts(c, props) == PropTexts(d, props)
    decreases |props|
  {
    hide ValueText, Quoted;
    if props != [] {
      assert props[0] in props;
      PropTextsContext(c, d, props[1..]);
    }
  }

  lemma PropOrderIrrelevant(a: seq<Prop>, b: seq<Prop>)
    requires DistinctKeys(a) && DistinctKeys(b) && SameProps(a, b)
    ensures SortByKey(a) == SortByKey(b)
  {
    DistinctKeysTell(a);
    DistinctKeysTell(b);
    DistinctMultiset(a);
    DistinctMultiset(b);
    assert multiset(a) == multiset(b);
    SortOrderIrrelevant(PropKey, a, b);
  }

  lemma LoneKeyOrderIrrelevant(a: seq<Prop>, b: seq<Prop>)
    requires SameProps(a, b)
    ensures HasLoneKey(a) <==> HasLoneKey(b)
  {
    hide ScalarString;
  }

  lemma ObjectText(v: Js, sorted: seq<Prop>)
    requires v.Object? && sorted == SortByKey(v.props) && SameProps(sorted, v.props)
    ensures ValueText(v)
            == if !v.plain then Failure(NotPlain)
               else if v.symbolKeys then Failure(SymbolKeys)
               else if v.hidden then Failure(HiddenProperty)
               else if HasLoneKey(v.props) then Failure(LoneSurrogate)
               else if PropTexts(v, sorted).Failure? then Failure(PropTexts(v, sorted).error)
               else Success([OPEN_BRACE] + Join(PropTexts(v, sorted).value, [COMMA]) + [CLOSE_BRACE])
  {
    hide PropTexts, Join, HasLoneKey, SlotTexts, SortByKey;
  }

  /** Inserting an object's properties in another order changes neither its text nor its fault. */
  lemma InsertionOrderIrrelevant(v: Js, w: Js)
    requires v.Object? && w.Object? && w == v.(props := w.props)
    requires DistinctKeys(v.props) && DistinctKeys(w.props) && SameProps(v.props, w.props)
    ensures ValueText(v) == ValueText(w)
  {
    var sorted := SortByKey(v.props);
    PropOrderIrrelevant(v.props, w.props);
    SortedMembers(v.props);
    SortedMembers(w.props);
    LoneKeyOrderIrrelevant(v.props, w.props);
    hide SortByKey, DistinctKeys, PropTexts, Join, HasLoneKey, ValueText;
    PropTextsContext(v, w, sorted);
    ObjectText(v, sorted);
    ObjectText(w, sorted);
  }
}
