/** What it means to conform to a schema of the supported subset, and when reference chains end. */
module SchemaConformance {
  import opened Wrappers
  import opened PyText
  import opened SchemaValues

  /** What load_json gives for each file; a file it cannot load is absent. */
  type Store = map<string, Value>

  /** ValueError: the schema, not the document, is at fault. */
  datatype SchemaError = SchemaError

  const REF := "$ref"

  // ---------- references ----------

  function Loaded(store: Store, file: string): Result<Fields, SchemaError> {
    if file in store && store[file].Dict? then Success(store[file].fields) else Failure(SchemaError)
  }

  function Descend(current: Value, tokens: seq<string>): Result<Value, SchemaError>
    decreases |tokens|
  {
    if tokens == [] then Success(current)
    else if !current.Dict? || tokens[0] !in current.fields then Failure(SchemaError)
    else Descend(current.fields[tokens[0]], tokens[1..])
  }

  function AsFields(v: Value): Result<Fields, SchemaError> {
    if v.Dict? then Success(v.fields) else Failure(SchemaError)
  }

  function Pointed(schema: Fields, fragment: string): Result<Fields, SchemaError> {
    if fragment == [] then Success(schema)
    else if fragment[0] != '/' then Failure(SchemaError)
    else
      var found := Descend(Dict(schema), Tokens(fragment));
      if found.Failure? then Failure(SchemaError) else AsFields(found.value)
  }

  /** ref.partition("#"), without the separator. */
  function Partition(ref: string): (string, string) {
    if ref == [] || ref[0] == '#' then ([], if ref == [] then [] else ref[1..])
    else
      var (file, fragment) := Partition(ref[1..]);
      ([ref[0]] + file, fragment)
  }

  /** _resolve_ref: the schema a reference names, and the file it is in. */
  function Resolve(store: Store, ref: Value, base: string): Result<(Fields, string), SchemaError> {
    if !ref.Str? || Blank(ref.s) then Failure(SchemaError)
    else
      var (file, fragment) := Partition(ref.s);
      var target := if file != [] then file else base;
      var schema := Loaded(store, target);
      if schema.Failure? then Failure(SchemaError)
      else
        var pointed := Pointed(schema.value, fragment);
        if pointed.Failure? then Failure(SchemaError) else Success((pointed.value, target))
  }

  /** {**resolved, **siblings} */
  function Merged(resolved: Fields, schema: Fields): Fields {
    resolved + (schema - {REF})
  }

  /** Following the reference chain of a schema for at most n steps; None where it goes on. */
  function Flatten(store: Store, schema: Fields, base: string, n: nat): Option<Result<(Fields, string), SchemaError>>
    decreases n
  {
    if REF !in schema then Some(Success((schema, base)))
    else
      var next := Resolve(store, schema[REF], base);
      if next.Failure? then Some(Failure(next.error))
      else if n == 0 then None
      else Flatten(store, Merged(next.value.0, schema), next.value.1, n - 1)
  }

  ghost predicate Ends(store: Store, schema: Fields, base: string) {
    exists n: nat :: Flatten(store, schema, base, n).Some?
  }

  /** More steps change nothing. */
  lemma {:induction false} FlattenStable(store: Store, schema: Fields, base: string, m: nat, n: nat)
    requires m <= n && Flatten(store, schema, base, m).Some?
    ensures Flatten(store, schema, base, n) == Flatten(store, schema, base, m)
    decreases m
  {
    hide Resolve, Merged;
    if REF in schema {
      var next := Resolve(store, schema[REF], base);
      if next.Success? && m > 0 {
        FlattenStable(store, Merged(next.value.0, schema), next.value.1, m - 1, n - 1);
      }
    }
  }

  /** The schema at the end of the chain: all siblings merged, the nearer ones winning. */
  ghost function Flat(store: Store, schema: Fields, base: string): Result<(Fields, string), SchemaError>
    requires Ends(store, schema, base)
  {
    var n: nat :| Flatten(store, schema, base, n).Some?;
    Flatten(store, schema, base, n).value
  }

  lemma FlatIs(store: Store, schema: Fields, base: string, n: nat)
    requires Flatten(store, schema, base, n).Some?
    ensures Ends(store, schema, base) && Flat(store, schema, base) == Flatten(store, schema, base, n).value
  {
    var m: nat :| Flatten(store, schema, base, m).Some? && Flat(store, schema, base) == Flatten(store, schema, base, m).value;
    if m <= n {
      FlattenStable(store, schema, base, m, n);
    } else {
      FlattenStable(store, schema, base, n, m);
    }
  }

  /** Siblings without a reference lie over the whole chain of what they stand beside. */
  lemma {:induction false} SiblingsOverChain(store: Store, resolved: Fields, siblings: Fields, base: string, n: nat)
    requires REF !in siblings && Flatten(store, resolved, base, n).Some?
    ensures var inner, outer := Flatten(store, resolved, base, n), Flatten(store, resolved + siblings, base, n);
            && outer.Some? && (outer.value.Success? <==> inner.value.Success?)
            && (inner.value.Success? ==> outer.value.value == (inner.value.value.0 + siblings, inner.value.value.1))
    decreases n
  {
    hide Resolve;
    if REF in resolved {
      var next := Resolve(store, resolved[REF], base);
      if next.Success? && n > 0 {
        var (s, file) := next.value;
        SiblingsOverChain(store, s + (resolved - {REF}), siblings, file, n - 1);
        assert s + (resolved - {REF}) + siblings == s + ((resolved + siblings) - {REF});
      }
    }
  }

  /**
    Beside a reference, a keyword of the schema itself wins; every other keyword is that of the
    referenced definition, itself followed to the end of its chain.
    */
  lemma NearerSiblingsWin(store: Store, schema: Fields, base: string)
    requires Ends(store, schema, base) && REF in schema && Flat(store, schema, base).Success?
    ensures var (flat, file) := Flat(store, schema, base).value;
            && Resolve(store, schema[REF], base).Success?
            && var (definition, at) := Resolve(store, schema[REF], base).value;
            && Ends(store, definition, at) && Flat(store, definition, at).Success?
            && var (inner, end) := Flat(store, definition, at).value;
            && file == end
            && (forall key :: key in schema && key != REF ==> key in flat && flat[key] == schema[key])
            && (forall key :: key !in schema || key == REF ==>
                  (key in flat <==> key in inner) && (key in flat ==> flat[key] == inner[key]))
  {
    var n: nat :| Flatten(store, schema, base, n).Some?;
    FlatIs(store, schema, base, n);
    var next := Resolve(store, schema[REF], base);
    var (definition, at) := next.value;
    DefinitionEnds(store, definition, schema - {REF}, at, n - 1);
    SiblingsOverChain(store, definition, schema - {REF}, at, n - 1);
    FlatIs(store, definition, at, n - 1);
    hide Resolve, Flat;
  }

  lemma {:induction false} DefinitionEnds(store: Store, resolved: Fields, siblings: Fields, base: string, n: nat)
    requires REF !in siblings && Flatten(store, resolved + siblings, base, n).Some?
    ensures Flatten(store, resolved, base, n).Some?
    decreases n
  {
    hide Resolve;
    if REF in resolved && n > 0 {
      var next := Resolve(store, resolved[REF], base);
      if next.Success? {
        var (s, file) := next.value;
        assert s + (resolved - {REF}) + siblings == s + ((resolved + siblings) - {REF});
        DefinitionEnds(store, s + (resolved - {REF}), siblings, file, n - 1);
      }
    }
  }

  // ---------- keywords ----------

  /** schema.get(key) */
  function Get(schema: Fields, key: string): Value {
    if key in schema then schema[key] else Null
  }

  predicate AllStrings(items: seq<Value>) {
    forall k :: 0 <= k < |items| ==> items[k].Str?
  }

  /** type is absent, a string or a non-empty list of strings. */
  predicate TypeReadable(schema: Fields) {
    var expected := Get(schema, "type");
    expected.Null? || expected.Str? || (expected.List? && expected.items != [] && AllStrings(expected.items))
  }

  function AllowedTypes(schema: Fields): seq<Value> {
    var expected := Get(schema, "type");
    if expected.List? then expected.items else [expected]
  }

  function JsonType(v: Value): Option<string> {
    match v
    case Null => Some("null")
    case Dict(_) => Some("object")
    case List(_) => Some("array")
    case Bool(_) => Some("boolean")
    case Int(_) => Some("integer")
    case Float(_) => Some("number")
    case Str(_) => Some("string")
    case Other(_) => None
  }

  predicate Admits(schema: Fields, v: Value) {
    var actual := JsonType(v);
    && actual.Some?
    && (Str(actual.value) in AllowedTypes(schema) || (actual.value == "integer" && Str("number") in AllowedTypes(schema)))
  }

  /** The type keyword is there, so the structural keywords apply. */
  predicate Typed(schema: Fields) {
    !Get(schema, "type").Null?
  }

  predicate ObjectReadable(schema: Fields) {
    && ("properties" in schema ==> schema["properties"].Dict?)
    && ("required" in schema ==> schema["required"].List? && AllStrings(schema["required"].items))
  }

  function Properties(schema: Fields): Fields {
    if "properties" in schema && schema["properties"].Dict? then schema["properties"].fields else map[]
  }

  function Required(schema: Fields): seq<Value> {
    if "required" in schema && schema["required"].List? then schema["required"].items else []
  }

  predicate Closed(schema: Fields) {
    Get(schema, "additionalProperties") == Bool(false)
  }

  predicate ArrayReadable(schema: Fields) {
    Get(schema, "items").Null? || Get(schema, "items").Dict?
  }

  /** The keywords about an object itself, not about the values of its fields. */
  predicate ShapeOk(schema: Fields, value: Fields) {
    && (forall k :: 0 <= k < |Required(schema)| ==> Required(schema)[k].Str? ==> Required(schema)[k].s in value)
    && (Closed(schema) ==> value.Keys <= Properties(schema).Keys)
  }

  predicate LengthOk(schema: Fields, key: string, length: nat) {
    var least := IntOf(Get(schema, key));
    least.Some? ==> least.value <= length
  }

  predicate RangeOk(schema: Fields, x: real) {
    var minimum, maximum := NumberOf(Get(schema, "minimum")), NumberOf(Get(schema, "maximum"));
    (minimum.Some? ==> minimum.value <= x) && (maximum.Some? ==> x <= maximum.value)
  }

  predicate ScalarOk(isDateTime: string -> bool, schema: Fields, v: Value) {
    match v
    case Str(s) => LengthOk(schema, "minLength", |s|) && (Get(schema, "format") == Str("date-time") ==> isDateTime(s))
    case Int(n) => RangeOk(schema, n as real)
    case Float(x) => RangeOk(schema, x)
    case _ => true
  }

  predicate ValueOk(schema: Fields, v: Value) {
    && ("const" in schema ==> Equal(v, schema["const"]))
    && (Get(schema, "enum").List? ==> exists k :: 0 <= k < |Get(schema, "enum").items| && Equal(v, Get(schema, "enum").items[k]))
  }

  // ---------- conformance ----------

  /** The reference chains met while v is checked all end. */
  ghost predicate Safe(store: Store, v: Value, schema: Fields, base: string)
    decreases v, 1
  {
    Ends(store, schema, base) &&
    var flat := Flat(store, schema, base);
    flat.Success? && Typed(flat.value.0) && Admits(flat.value.0, v) ==> PartsSafe(store, v, flat.value.0, flat.value.1)
  }

  ghost predicate PartsSafe(store: Store, v: Value, s: Fields, file: string)
    decreases v, 0
  {
    match v
    case Dict(fields) =>
      forall name :: name in fields.Keys && name in Properties(s) && Properties(s)[name].Dict? ==>
                       Safe(store, fields[name], Properties(s)[name].fields, file)
    case List(items) =>
      Get(s, "items").Dict? ==> forall k :: 0 <= k < |items| ==> Safe(store, items[k], Get(s, "items").fields, file)
    case _ => true
  }

  /** The schema can be applied to v: no keyword or reference that v reaches is malformed. */
  ghost predicate Usable(store: Store, v: Value, schema: Fields, base: string)
    requires Safe(store, v, schema, base)
    decreases v, 1
  {
    var flat := Flat(store, schema, base);
    flat.Success? && TypeReadable(flat.value.0) &&
    (Typed(flat.value.0) && Admits(flat.value.0, v) ==> PartsUsable(store, v, flat.value.0, flat.value.1))
  }

  ghost predicate PartsUsable(store: Store, v: Value, s: Fields, file: string)
    requires PartsSafe(store, v, s, file)
    decreases v, 0
  {
    match v
    case Dict(fields) =>
      ObjectReadable(s) &&
      forall name :: name in fields.Keys && name in Properties(s) ==>
                       Properties(s)[name].Dict? && Usable(store, fields[name], Properties(s)[name].fields, file)
    case List(items) =>
      ArrayReadable(s) &&
      (Get(s, "items").Dict? ==> forall k :: 0 <= k < |items| ==> Usable(store, items[k], Get(s, "items").fields, file))
    case _ => true
  }

  /** v conforms to the schema: its value, its type, and, where the schema has a type, its parts. */
  ghost predicate Conforms(store: Store, isDateTime: string -> bool, v: Value, schema: Fields, base: string)
    requires Safe(store, v, schema, base)
    decreases v, 1
  {
    var flat := Flat(store, schema, base);
    flat.Success? && ValueOk(flat.value.0, v) &&
    (Typed(flat.value.0) ==> Admits(flat.value.0, v) && PartsConform(store, isDateTime, v, flat.value.0, flat.value.1))
  }

  ghost predicate PartsConform(store: Store, isDateTime: string -> bool, v: Value, s: Fields, file: string)
    requires PartsSafe(store, v, s, file)
    decreases v, 0
  {
    match v
    case Dict(fields) =>
      ShapeOk(s, fields) &&
      forall name :: name in fields.Keys && name in Properties(s) && Properties(s)[name].Dict? ==>
                       Conforms(store, isDateTime, fields[name], Properties(s)[name].fields, file)
    case List(items) =>
      LengthOk(s, "minItems", |items|) &&
      (Get(s, "items").Dict? ==> forall k :: 0 <= k < |items| ==> Conforms(store, isDateTime, items[k], Get(s, "items").fields, file))
    case _ => ScalarOk(isDateTime, s, v)
  }

  /** One step along a reference changes none of this. */
  lemma RefStep(store: Store, isDateTime: string -> bool, v: Value, schema: Fields, base: string, n: nat)
    requires REF in schema && Resolve(store, schema[REF], base).Success? && Flatten(store, schema, base, n).Some?
    requires Safe(store, v, schema, base)
    ensures var (resolved, file) := Resolve(store, schema[REF], base).value;
            var merged := Merged(resolved, schema);
            && n > 0 && Flatten(store, merged, file, n - 1).Some?
            && Safe(store, v, merged, file)
            && (Usable(store, v, merged, file) <==> Usable(store, v, schema, base))
            && (Conforms(store, isDateTime, v, merged, file) <==> Conforms(store, isDateTime, v, schema, base))
  {
    var (resolved, file) := Resolve(store, schema[REF], base).value;
    var merged := Merged(resolved, schema);
    FlatIs(store, schema, base, n);
    FlatIs(store, merged, file, n - 1);
    hide Resolve, Merged, Flat, PartsSafe, PartsUsable, PartsConform, ValueOk, Admits;
  }

  /** A schema without a reference is its own chain. */
  lemma NoRef(store: Store, schema: Fields, base: string)
    requires REF !in schema
    ensures Ends(store, schema, base) && Flat(store, schema, base) == Success((schema, base))
  {
    FlatIs(store, schema, base, 0);
  }

  // ---------- when chains end ----------

  /** A reference and the file it is read in. */
  type Link = (Value, string)

  /** The reference that the target of a reference consists of, if it is one. */
  function Follow(store: Store, link: Link): Option<Link> {
    var next := Resolve(store, link.0, link.1);
    if next.Success? && REF in next.value.0 then Some((next.value.0[REF], next.value.1)) else None
  }

  function FollowFor(store: Store, link: Link, n: nat): Option<Link>
    decreases n
  {
    if n == 0 then Some(link)
    else
      var next := Follow(store, link);
      if next.None? then None else FollowFor(store, next.value, n - 1)
  }

  lemma {:induction false} FollowMore(store: Store, link: Link, m: nat, n: nat)
    ensures FollowFor(store, link, m + n) ==
            if FollowFor(store, link, m).None? then None else FollowFor(store, FollowFor(store, link, m).value, n)
    decreases m
  {
    hide Follow;
    if m > 0 && Follow(store, link).Some? {
      FollowMore(store, Follow(store, link).value, m - 1, n);
    }
  }

  /** A chain goes on exactly as long as its references can be followed and resolved. */
  lemma {:induction false} FlattenFollows(store: Store, schema: Fields, base: string, n: nat)
    requires REF in schema
    ensures var at := FollowFor(store, (schema[REF], base), n);
            Flatten(store, schema, base, n).None? <==> at.Some? && Resolve(store, at.value.0, at.value.1).Success?
    decreases n
  {
    hide Resolve;
    var next := Resolve(store, schema[REF], base);
    if n > 0 && next.Success? {
      var merged := Merged(next.value.0, schema);
      assert REF in merged <==> REF in next.value.0;
      if REF in merged {
        assert merged[REF] == next.value.0[REF];
        FlattenFollows(store, merged, next.value.1, n - 1);
      }
    }
  }

  /** No reference leads back to itself through references alone. */
  ghost predicate NoCycle(store: Store) {
    forall link: Link, n: nat :: n > 0 ==> FollowFor(store, link, n) != Some(link)
  }

  /** Every $ref in some object that a JSON pointer can reach. */
  function Refs(v: Value): set<Value> {
    match v
    case Dict(fields) =>
      (if REF in fields then {fields[REF]} else {}) + (set k, r | k in fields.Keys && r in Refs(fields[k]) :: r)
    case _ => {}
  }

  function Links(store: Store): set<Link> {
    set file, ref | file in store.Keys && ref in Refs(store[file]) :: (ref, file)
  }

  lemma {:induction false} DescendRefs(current: Value, tokens: seq<string>)
    requires Descend(current, tokens).Success?
    ensures Refs(Descend(current, tokens).value) <= Refs(current)
    decreases |tokens|
  {
    if tokens != [] {
      DescendRefs(current.fields[tokens[0]], tokens[1..]);
      forall r | r in Refs(Descend(current, tokens).value)
        ensures r in Refs(current)
      {
        assert r in Refs(current.fields[tokens[0]]);
      }
    }
  }

  lemma FollowedIsLink(store: Store, link: Link)
    requires Follow(store, link).Some?
    ensures Follow(store, link).value in Links(store)
  {
    var (file, fragment) := Partition(link.0.s);
    var target := if file != [] then file else link.1;
    var schema := Loaded(store, target).value;
    var found := Pointed(schema, fragment).value;
    if fragment != [] {
      DescendRefs(Dict(schema), Tokens(fragment));
    }
    hide Partition, Tokens, Descend;
    assert found[REF] in Refs(Dict(found));
  }

  lemma {:induction false} DistinctBound<T(!new)>(xs: seq<T>, s: set<T>)
    requires forall i, j :: 0 <= i < j < |xs| ==> xs[i] != xs[j]
    requires forall x :: x in xs ==> x in s
    ensures |xs| <= |s|
  {
    if xs != [] {
      assert forall k :: 0 <= k < |xs[1..]| ==> xs[1..][k] == xs[k + 1];
      DistinctBound(xs[1..], s - {xs[0]});
    }
  }

  /** Where a chain goes on, all its earlier links are there, in the store, and without a cycle different. */
  lemma LinkOnTheWay(store: Store, link: Link, k: nat, bound: nat)
    requires 0 < k <= bound && FollowFor(store, link, bound).Some?
    ensures FollowFor(store, link, k).Some? && FollowFor(store, link, k).value in Links(store)
  {
    hide Follow, Links;
    FollowMore(store, link, k, bound - k);
    FollowMore(store, link, k - 1, 1);
    var before := FollowFor(store, link, k - 1).value;
    assert FollowFor(store, before, 1) == Follow(store, before);
    FollowedIsLink(store, before);
  }

  lemma LinksDiffer(store: Store, link: Link, i: nat, j: nat)
    requires NoCycle(store) && 0 < i < j && FollowFor(store, link, i).Some?
    ensures FollowFor(store, link, i) != FollowFor(store, link, j)
  {
    FollowMore(store, link, i, j - i);
  }

  /** Without cycles no chain of references is longer than the store has references. */
  lemma FollowingEnds(store: Store, link: Link)
    requires NoCycle(store)
    ensures FollowFor(store, link, |Links(store)| + 1).None?
  {
    hide FollowFor, NoCycle, Links;
    var bound := |Links(store)| + 1;
    if FollowFor(store, link, bound).Some? {
      forall k: nat | 0 < k <= bound {
        LinkOnTheWay(store, link, k, bound);
      }
      var orbit := seq(bound, k requires 0 <= k < bound => FollowFor(store, link, k + 1).value);
      forall i, j | 0 <= i < j < bound
        ensures orbit[i] != orbit[j]
      {
        LinksDiffer(store, link, i + 1, j + 1);
      }
      DistinctBound(orbit, Links(store));
    }
  }

  lemma {:induction false} CycleGoesOn(store: Store, link: Link, n: nat, m: nat)
    requires n > 0 && FollowFor(store, link, n) == Some(link)
    ensures FollowFor(store, link, m).Some?
    decreases m
  {
    if m <= n {
      FollowMore(store, link, m, n - m);
    } else {
      CycleGoesOn(store, link, n, m - n);
      FollowMore(store, link, n, m - n);
    }
  }

  /** Every reference chain ends exactly when no cycle consists of references alone. */
  lemma ChainsEndExactly(store: Store)
    ensures (forall schema: Fields, base: string :: Ends(store, schema, base)) <==> NoCycle(store)
  {
    if NoCycle(store) {
      forall schema: Fields, base: string
        ensures Ends(store, schema, base)
      {
        if REF in schema {
          var bound := |Links(store)| + 1;
          FollowingEnds(store, (schema[REF], base));
          FlattenFollows(store, schema, base, bound);
        } else {
          assert Flatten(store, schema, base, 0).Some?;
        }
      }
    } else {
      var link: Link, n: nat :| n > 0 && FollowFor(store, link, n) == Some(link);
      CycleNeverEnds(store, link, n);
    }
  }

  lemma CycleNeverEnds(store: Store, link: Link, n: nat)
    requires n > 0 && FollowFor(store, link, n) == Some(link)
    ensures !Ends(store, map[REF := link.0], link.1)
  {
    var schema: Fields := map[REF := link.0];
    forall m: nat
      ensures Flatten(store, schema, link.1, m).None?
    {
      CycleGoesOn(store, link, n, m + 1);
      FollowMore(store, link, m, 1);
      FlattenFollows(store, schema, link.1, m);
    }
  }

  /** In such a store every document can be checked against every schema. */
  lemma {:induction false} NoCycleIsSafe(store: Store, v: Value, schema: Fields, base: string)
    requires NoCycle(store)
    ensures Safe(store, v, schema, base)
    decreases v
  {
    ChainsEndExactly(store);
    var flat := Flat(store, schema, base);
    hide NoCycle, Ends, Flat;
    if flat.Success? && Typed(flat.value.0) && Admits(flat.value.0, v) {
      var (s, file) := flat.value;
      match v
      case Dict(fields) =>
        forall name | name in fields.Keys && name in Properties(s) && Properties(s)[name].Dict? {
          NoCycleIsSafe(store, fields[name], Properties(s)[name].fields, file);
        }
      case List(items) =>
        if Get(s, "items").Dict? {
          forall k | 0 <= k < |items| {
            NoCycleIsSafe(store, items[k], Get(s, "items").fields, file);
          }
        }
      case _ =>
    }
  }

  // ---------- where this is not JSON Schema ----------

  /** Without a type keyword the structural keywords are not looked at: any value conforms. */
  lemma UntypedChecksNoParts(store: Store, isDateTime: string -> bool, v: Value, schema: Fields, base: string)
    requires REF !in schema && "type" !in schema && "const" !in schema && "enum" !in schema
    ensures Safe(store, v, schema, base) && Usable(store, v, schema, base) && Conforms(store, isDateTime, v, schema, base)
  {
    NoRef(store, schema, base);
    hide PartsSafe, PartsUsable, PartsConform;
  }

  /** As in Python, true, 1 and 1.0 are one constant. */
  lemma TrueIsOne(v: Value)
    ensures Equal(v, Bool(true)) <==> v == Bool(true) || v == Int(1) || v == Float(1.0)
  {
  }
}
