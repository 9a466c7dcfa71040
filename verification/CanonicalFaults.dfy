/** Which fault canonicalisation reports: an object's or array's own one, or that of its first bad part. */
module CanonicalFaults {
  import opened Wrappers
  import opened JsText
  import opened JsonString
  import opened Lists
  import opened StableSort
  import opened Utf16
  import opened CanonicalJson
  import opened CanonicalTheorems

  /** Values without parts. */
  lemma LeafFaults(s: Text)
    ensures ValueText(Str(s)) == if IsEncoding(s) then Success(Ascii("\"") + Escape(s) + Ascii("\"")) else Failure(LoneSurrogate)
    ensures ValueText(Number(NonFinite)) == Failure(NonFiniteNumber) && ValueText(Unsupported) == Failure(UnsupportedValue)
  {
    ScanIsEncoding(s);
    hide FirstLone, Escape;
    assert Ascii("\"") == [0x22];
  }

  // ---------- arrays ----------

  ghost predicate GoodSlot(s: Slot) {
    s.Item? && ValueText(s.v).Success?
  }

  lemma {:induction false} SlotTextsFault(context: Js, slots: seq<Slot>, k: nat)
    requires forall s :: s in slots && s.Item? ==> s.v < context
    requires k <= |slots| && forall j :: 0 <= j < k ==> GoodSlot(slots[j])
    ensures k == |slots| ==> SlotTexts(context, slots).Success?
    ensures k < |slots| && slots[k].Hole? ==> SlotTexts(context, slots) == Failure(SparseArray)
    ensures k < |slots| && slots[k].Item? && ValueText(slots[k].v).Failure? ==>
              SlotTexts(context, slots) == Failure(ValueText(slots[k].v).error)
  {
    hide ValueText;
    if k > 0 {
      assert slots[0] in slots && GoodSlot(slots[0]);
      SlotTextsFault(context, slots[1..], k - 1);
    } else if slots != [] {
      assert slots[0] in slots;
    }
  }

  /** Symbols first, then the first slot that is missing or bad, and named properties last. */
  lemma ArrayFaults(symbols: bool, slots: seq<Slot>, named: bool, k: nat)
    requires k <= |slots| && forall j :: 0 <= j < k ==> GoodSlot(slots[j])
    ensures var r := ValueText(Array(symbols, slots, named));
            && (symbols ==> r == Failure(SymbolKeys))
            && (!symbols && k < |slots| && slots[k].Hole? ==> r == Failure(SparseArray))
            && (!symbols && k < |slots| && slots[k].Item? && ValueText(slots[k].v).Failure? ==> r == Failure(ValueText(slots[k].v).error))
            && (!symbols && k == |slots| && named ==> r == Failure(NamedArray))
            && (!symbols && k == |slots| && !named ==> r.Success?)
  {
    SlotTextsFault(Array(symbols, slots, named), slots, k);
    hide SlotTexts, GoodSlot;
  }

  // ---------- objects ----------

  ghost predicate GoodProp(p: Prop) {
    !p.accessor && !p.value.Unsupported? && ValueText(p.value).Success?
  }

  /** What is wrong with a property. */
  ghost function PropFault(p: Prop): Fault
    requires !GoodProp(p)
  {
    if p.accessor then AccessorProperty else if p.value.Unsupported? then UnsupportedValue else ValueText(p.value).error
  }

  lemma {:induction false} PropTextsFault(context: Js, props: seq<Prop>, k: nat)
    requires forall p :: p in props ==> p.value < context
    requires k <= |props| && forall j :: 0 <= j < k ==> GoodProp(props[j])
    ensures k == |props| ==> PropTexts(context, props).Success?
    ensures k < |props| && !GoodProp(props[k]) ==> PropTexts(context, props) == Failure(PropFault(props[k]))
  {
    hide ValueText;
    if k > 0 {
      assert props[0] in props && GoodProp(props[0]);
      PropTextsFault(context, props[1..], k - 1);
    } else if props != [] {
      assert props[0] in props;
    }
  }

  /** The object's own faults in the order they are looked for; every key is read before any value. */
  lemma ObjectFaults(plain: bool, symbolKeys: bool, hidden: bool, props: seq<Prop>)
    ensures var r := ValueText(Object(plain, symbolKeys, hidden, props));
            if !plain then r == Failure(NotPlain)
            else if symbolKeys then r == Failure(SymbolKeys)
            else if hidden then r == Failure(HiddenProperty)
            else (exists p :: p in props && !IsEncoding(p.key)) ==> r == Failure(LoneSurrogate)
  {
    hide PropTexts, SortByKey, ScalarString;
    if p :| p in props && !IsEncoding(p.key) {
      ScanIsEncoding(p.key);
    }
  }

  ghost predicate KeysEncode(props: seq<Prop>) {
    forall p :: p in props ==> IsEncoding(p.key)
  }

  lemma NoLoneKey(props: seq<Prop>)
    requires KeysEncode(props)
    ensures !HasLoneKey(props)
  {
    forall p | p in props
      ensures ScalarString(p.key)
    {
      ScanIsEncoding(p.key);
    }
  }

  /** The property whose key comes first among the bad ones gives the fault; without a bad one there is none. */
  lemma FirstBadProperty(props: seq<Prop>, p: Prop)
    requires DistinctKeys(props) && KeysEncode(props)
    requires p in props && !GoodProp(p) && forall q :: q in props && UnitsBefore(q.key, p.key) ==> GoodProp(q)
    ensures ValueText(Object(true, false, false, props)) == Failure(PropFault(p))
  {
    NoLoneKey(props);
    SortedMembers(props);
    var sorted := SortByKey(props);
    var k :| 0 <= k < |sorted| && sorted[k] == p;
    SortedEarlier(props, k);
    hide GoodProp, PropFault, UnitsBefore, SortByKey, ValueText;
    PropTextsFault(Object(true, false, false, props), sorted, k);
    hide PropTexts, HasLoneKey;
    ObjectText(Object(true, false, false, props), sorted);
  }

  lemma AllPropertiesGood(props: seq<Prop>)
    requires KeysEncode(props) && forall q :: q in props ==> GoodProp(q)
    ensures ValueText(Object(true, false, false, props)).Success?
  {
    NoLoneKey(props);
    SortedMembers(props);
    hide GoodProp, SortByKey, ValueText;
    var sorted := SortByKey(props);
    assert forall j :: 0 <= j < |sorted| ==> sorted[j] in sorted;
    PropTextsFault(Object(true, false, false, props), sorted, |sorted|);
    hide PropTexts, HasLoneKey;
    ObjectText(Object(true, false, false, props), sorted);
  }

  /** What stands before a property in sorted order has a smaller key. */
  lemma SortedEarlier(props: seq<Prop>, k: nat)
    requires DistinctKeys(props) && k < |SortByKey(props)|
    ensures forall j :: 0 <= j < k ==> SortByKey(props)[j] in props && UnitsBefore(SortByKey(props)[j].key, SortByKey(props)[k].key)
  {
    SortedMembers(props);
    SortAscending(props);
    hide SortByKey, Before, UnitsBefore;
    var sorted := SortByKey(props);
    forall j | 0 <= j < k
      ensures sorted[j] in props && UnitsBefore(sorted[j].key, sorted[k].key)
    {
      assert sorted[j] in sorted;
      BeforeExactly(sorted[j].key, sorted[k].key);
    }
  }
}
