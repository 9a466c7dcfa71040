/** Python equality as equality of forms in which every number is written as a real. */
module SchemaEquality {
  import opened Wrappers
  import opened SchemaValues

  /** The same value with True, 1 and 1.0 written alike, at any depth. */
  function Form(v: Value): Value
    decreases v
  {
    match v
    case Bool(b) => Float(if b then 1.0 else 0.0)
    case Int(n) => Float(n as real)
    case List(items) => List(seq(|items|, i requires 0 <= i < |items| => Form(items[i])))
    case Dict(fields) => Dict(map k | k in fields.Keys :: Form(fields[k]))
    case _ => v
  }

  /** Two values compare equal if and only if their forms are the same value. */
  lemma {:induction false} EqualExactly(v: Value, w: Value)
    ensures Equal(v, w) <==> Form(v) == Form(w)
    decreases v
  {
    match v
    case List(items) =>
      if w.List? && |w.items| == |items| {
        forall k | 0 <= k < |items| {
          EqualExactly(items[k], w.items[k]);
        }
        ItemsExactly(items, w.items);
      } else if w.List? {
        assert |Form(v).items| != |Form(w).items|;
      }
    case Dict(fields) =>
      if w.Dict? && w.fields.Keys == fields.Keys {
        forall k | k in fields.Keys {
          EqualExactly(fields[k], w.fields[k]);
        }
        FieldsExactly(fields, w.fields);
      } else if w.Dict? {
        assert Form(v).fields.Keys == fields.Keys && Form(w).fields.Keys == w.fields.Keys;
      }
    case _ =>
  }

  lemma ItemsExactly(a: seq<Value>, b: seq<Value>)
    requires |a| == |b|
    ensures Form(List(a)) == Form(List(b)) <==> forall k :: 0 <= k < |a| ==> Form(a[k]) == Form(b[k])
  {
    var x, y := Form(List(a)).items, Form(List(b)).items;
    assert |x| == |a| && |y| == |b| && (forall k :: 0 <= k < |a| ==> x[k] == Form(a[k])) && (forall k :: 0 <= k < |b| ==> y[k] == Form(b[k]));
  }

  lemma FieldsExactly(a: Fields, b: Fields)
    requires a.Keys == b.Keys
    ensures Form(Dict(a)) == Form(Dict(b)) <==> forall k :: k in a.Keys ==> Form(a[k]) == Form(b[k])
  {
    var x, y := Form(Dict(a)).fields, Form(Dict(b)).fields;
    assert x.Keys == a.Keys && y.Keys == b.Keys && (forall k :: k in a.Keys ==> x[k] == Form(a[k]) && y[k] == Form(b[k]));
  }
}
