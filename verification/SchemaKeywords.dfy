/** What each keyword of the supported subset asks of a document, keyword by keyword. */
module SchemaKeywords {
  import opened Wrappers
  import opened PyText
  import opened SchemaValues
  import opened SchemaConformance

  /** A schema that names one type, refers to nothing and restricts no constants. */
  predicate PlainSchema(schema: Fields, name: string) {
    REF !in schema && "const" !in schema && "enum" !in schema && "type" in schema && schema["type"] == Str(name)
  }

  /** What the supported type names stand for; a boolean is no number, and an integer is one. */
  predicate HasType(v: Value, name: string) {
    match v
    case Null => name == "null"
    case Bool(_) => name == "boolean"
    case Int(_) => name == "integer" || name == "number"
    case Float(_) => name == "number"
    case Str(_) => name == "string"
    case List(_) => name == "array"
    case Dict(_) => name == "object"
    case Other(_) => false
  }

  lemma AdmitsExactly(schema: Fields, v: Value, name: string)
    requires PlainSchema(schema, name)
    ensures Typed(schema) && (Admits(schema, v) <==> HasType(v, name))
  {
    assert AllowedTypes(schema) == [Str(name)];
  }

  /** A list of types admits what one of its types admits. */
  lemma AdmitsSome(schema: Fields, v: Value)
    requires "type" in schema && schema["type"].List?
    ensures Admits(schema, v) <==> exists name :: Str(name) in schema["type"].items && HasType(v, name)
  {
    if Admits(schema, v) {
      var actual := JsonType(v).value;
      assert HasType(v, actual);
      if Str(actual) !in schema["type"].items {
        assert HasType(v, "number");
      }
    }
  }

  /** A document of another type never conforms. */
  lemma WrongTypeFails(store: Store, isDateTime: string -> bool, v: Value, schema: Fields, base: string, name: string)
    requires PlainSchema(schema, name) && !HasType(v, name)
    ensures Safe(store, v, schema, base) && !Conforms(store, isDateTime, v, schema, base)
  {
    NoRef(store, schema, base);
    AdmitsExactly(schema, v, name);
    hide Admits, HasType, PartsSafe, PartsConform;
  }

  /** minLength counts characters, and the one format checked is date-time. */
  lemma StringConforms(store: Store, isDateTime: string -> bool, s: string, schema: Fields, base: string)
    requires PlainSchema(schema, "string")
    ensures Safe(store, Str(s), schema, base)
    ensures Conforms(store, isDateTime, Str(s), schema, base) <==>
              && ("minLength" in schema && schema["minLength"].Int? ==> schema["minLength"].n <= |s|)
              && ("minLength" in schema && schema["minLength"].Bool? && schema["minLength"].b ==> s != "")
              && ("format" in schema && schema["format"] == Str("date-time") ==> isDateTime(s))
  {
    NoRef(store, schema, base);
    AdmitsExactly(schema, Str(s), "string");
    hide Admits;
  }

  /** minimum and maximum are both inclusive. */
  lemma NumberConforms(store: Store, isDateTime: string -> bool, v: Value, schema: Fields, base: string, name: string)
    requires PlainSchema(schema, name) && HasType(v, name) && (v.Int? || v.Float?)
    ensures Safe(store, v, schema, base)
    ensures Conforms(store, isDateTime, v, schema, base) <==>
              var x := if v.Int? then v.n as real else v.x;
              && ("minimum" in schema && schema["minimum"].Int? ==> schema["minimum"].n as real <= x)
              && ("minimum" in schema && schema["minimum"].Float? ==> schema["minimum"].x <= x)
              && ("minimum" in schema && schema["minimum"].Bool? ==> (if schema["minimum"].b then 1.0 else 0.0) <= x)
              && ("maximum" in schema && schema["maximum"].Int? ==> x <= schema["maximum"].n as real)
              && ("maximum" in schema && schema["maximum"].Float? ==> x <= schema["maximum"].x)
              && ("maximum" in schema && schema["maximum"].Bool? ==> x <= (if schema["maximum"].b then 1.0 else 0.0))
  {
    NoRef(store, schema, base);
    AdmitsExactly(schema, v, name);
    hide Admits, HasType;
  }

  /** An integer that conforms under type integer conforms under type number, the rest of the schema unchanged. */
  lemma IntegerIsNumber(store: Store, isDateTime: string -> bool, n: int, schema: Fields, base: string)
    requires PlainSchema(schema, "integer")
    ensures var wider := schema["type" := Str("number")];
            && Safe(store, Int(n), schema, base) && Safe(store, Int(n), wider, base)
            && (Conforms(store, isDateTime, Int(n), schema, base) <==> Conforms(store, isDateTime, Int(n), wider, base))
  {
    var wider := schema["type" := Str("number")];
    NumberConforms(store, isDateTime, Int(n), schema, base, "integer");
    NumberConforms(store, isDateTime, Int(n), wider, base, "number");
    hide Conforms, Safe;
  }

  /** minItems counts items, and items is asked of every one. */
  lemma ArrayConforms(store: Store, isDateTime: string -> bool, items: seq<Value>, schema: Fields, base: string)
    requires PlainSchema(schema, "array") && Safe(store, List(items), schema, base)
    ensures ("items" in schema && schema["items"].Dict? ==> forall k :: 0 <= k < |items| ==> Safe(store, items[k], schema["items"].fields, base))
    ensures Conforms(store, isDateTime, List(items), schema, base) <==>
              && ("minItems" in schema && schema["minItems"].Int? ==> schema["minItems"].n <= |items|)
              && ("minItems" in schema && schema["minItems"].Bool? && schema["minItems"].b ==> items != [])
              && ("items" in schema && schema["items"].Dict? ==>
                    forall k :: 0 <= k < |items| ==> Conforms(store, isDateTime, items[k], schema["items"].fields, base))
  {
    NoRef(store, schema, base);
    AdmitsExactly(schema, List(items), "array");
    hide Admits;
  }

  /** properties is asked of the fields there are, required names fields that must be, and additionalProperties: false forbids others. */
  lemma ObjectConforms(store: Store, isDateTime: string -> bool, fields: Fields, schema: Fields, base: string)
    requires PlainSchema(schema, "object") && Safe(store, Dict(fields), schema, base) && ObjectReadable(schema)
    ensures forall name :: name in fields.Keys && name in Properties(schema) && Properties(schema)[name].Dict? ==>
                             Safe(store, fields[name], Properties(schema)[name].fields, base)
    ensures Conforms(store, isDateTime, Dict(fields), schema, base) <==>
              && ("required" in schema ==> forall k :: 0 <= k < |schema["required"].items| ==> schema["required"].items[k].s in fields)
              && ("additionalProperties" in schema && schema["additionalProperties"] == Bool(false) ==>
                    fields.Keys <= if "properties" in schema then schema["properties"].fields.Keys else {})
              && (forall name :: name in fields.Keys && name in Properties(schema) && Properties(schema)[name].Dict? ==>
                                   Conforms(store, isDateTime, fields[name], Properties(schema)[name].fields, base))
  {
    NoRef(store, schema, base);
    AdmitsExactly(schema, Dict(fields), "object");
    ShapeExactly(schema, fields);
    hide Admits, ShapeOk, ObjectReadable;
    assert ValueOk(schema, Dict(fields));
    assert Conforms(store, isDateTime, Dict(fields), schema, base) <==> PartsConform(store, isDateTime, Dict(fields), schema, base);
    hide ValueOk;
  }

  lemma ShapeExactly(schema: Fields, fields: Fields)
    requires ObjectReadable(schema)
    ensures ShapeOk(schema, fields) <==>
              && ("required" in schema ==> forall k :: 0 <= k < |schema["required"].items| ==> schema["required"].items[k].s in fields)
              && ("additionalProperties" in schema && schema["additionalProperties"] == Bool(false) ==>
                    fields.Keys <= if "properties" in schema then schema["properties"].fields.Keys else {})
  {
    assert Closed(schema) <==> "additionalProperties" in schema && schema["additionalProperties"] == Bool(false);
    assert (if "properties" in schema then schema["properties"].fields.Keys else {}) == Properties(schema).Keys;
    if "required" in schema {
      assert Required(schema) == schema["required"].items;
    }
  }

  /** const and enum compare by the equality of Python, before and beside any type. */
  lemma ConstantsConform(store: Store, isDateTime: string -> bool, v: Value, schema: Fields, base: string)
    requires REF !in schema && "type" !in schema
    ensures Safe(store, v, schema, base)
    ensures Conforms(store, isDateTime, v, schema, base) <==>
              && ("const" in schema ==> Equal(v, schema["const"]))
              && ("enum" in schema && schema["enum"].List? ==>
                    exists k :: 0 <= k < |schema["enum"].items| && Equal(v, schema["enum"].items[k]))
  {
    NoRef(store, schema, base);
    hide Equal, PartsConform, PartsSafe;
  }

  // ---------- references ----------

  lemma {:induction false} PartitionAtHash(file: string, fragment: string)
    requires '#' !in file
    ensures Partition(file + "#" + fragment) == (file, fragment)
  {
    var ref := file + "#" + fragment;
    if file == [] {
      assert ref[0] == '#' && ref[1..] == fragment;
    } else {
      assert ref[0] == file[0] && file[0] in file && ref[1..] == file[1..] + "#" + fragment;
      PartitionAtHash(file[1..], fragment);
      assert [file[0]] + file[1..] == file;
    }
  }

  /** Some value lies at the end of the tokens, one key after another. */
  ghost predicate LiesAt(v: Value, tokens: seq<string>, found: Value)
    decreases |tokens|
  {
    if tokens == [] then v == found
    else v.Dict? && tokens[0] in v.fields && LiesAt(v.fields[tokens[0]], tokens[1..], found)
  }

  lemma {:induction false} DescendFinds(v: Value, tokens: seq<string>, found: Value)
    requires LiesAt(v, tokens, found)
    ensures Descend(v, tokens) == Success(found)
    decreases |tokens|
  {
    if tokens != [] {
      DescendFinds(v.fields[tokens[0]], tokens[1..], found);
    }
  }

  /**
    A reference of a file and a pointer names the object the pointer leads to in that file, and one
    without a file leads on in the file it stands in.
    */
  lemma ReferenceResolves(store: Store, file: string, tokens: seq<string>, base: string, found: Fields)
    requires '#' !in file
    requires var target := if file == "" then base else file;
             target in store && store[target].Dict? && LiesAt(store[target], tokens, Dict(found))
    ensures Resolve(store, Str(file + "#" + Pointer(tokens)), base) == Success((found, if file == "" then base else file))
  {
    var target := if file == "" then base else file;
    var ref := file + "#" + Pointer(tokens);
    PartitionAtHash(file, Pointer(tokens));
    DescendFinds(store[target], tokens, Dict(found));
    assert ref[|file|] == '#' && !IsSpace('#');
    if tokens == [] {
      assert ref == file + "#";
    } else {
      PointerRoundTrip(tokens);
      assert Pointer(tokens)[0] == '/';
    }
    hide Pointer, Tokens, Descend, Partition;
  }
}
