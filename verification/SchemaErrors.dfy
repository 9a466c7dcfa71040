/** When a schema, not a document, is at fault: keyword by keyword. */
module SchemaErrors {
  import opened Wrappers
  import opened PyText
  import opened SchemaValues
  import opened SchemaConformance
  import opened SchemaKeywords

  /** A type that is neither a name nor a list of names cannot be applied to anything. */
  lemma UnreadableType(store: Store, v: Value, schema: Fields, base: string)
    requires REF !in schema && "type" in schema
    requires match schema["type"]
             case Null => false
             case Str(_) => false
             case List(items) => items == [] || exists k :: 0 <= k < |items| && !items[k].Str?
             case _ => true
    ensures Safe(store, v, schema, base) ==> !Usable(store, v, schema, base)
  {
    NoRef(store, schema, base);
    hide PartsUsable, PartsSafe, Admits;
  }

  /** Where the type does not ask for parts, nothing else can be wrong with the schema. */
  lemma ScalarsAreUsable(store: Store, v: Value, schema: Fields, base: string, name: string)
    requires PlainSchema(schema, name) && ((!v.Dict? && !v.List?) || !HasType(v, name))
    ensures Safe(store, v, schema, base) && Usable(store, v, schema, base)
  {
    NoRef(store, schema, base);
    AdmitsExactly(schema, v, name);
    hide Admits, HasType;
  }

  /** properties must be an object and required a list of strings; a declared field that is present needs an object for its schema. */
  lemma ObjectUsable(store: Store, fields: Fields, schema: Fields, base: string)
    requires PlainSchema(schema, "object") && Safe(store, Dict(fields), schema, base)
    ensures forall name :: name in fields.Keys && name in Properties(schema) && Properties(schema)[name].Dict? ==>
                             Safe(store, fields[name], Properties(schema)[name].fields, base)
    ensures Usable(store, Dict(fields), schema, base) <==>
              && ("properties" in schema ==> schema["properties"].Dict?)
              && ("required" in schema ==>
                    schema["required"].List? && forall k :: 0 <= k < |schema["required"].items| ==> schema["required"].items[k].Str?)
              && (forall name :: name in fields.Keys && name in Properties(schema) ==>
                                   Properties(schema)[name].Dict? && Usable(store, fields[name], Properties(schema)[name].fields, base))
  {
    NoRef(store, schema, base);
    AdmitsExactly(schema, Dict(fields), "object");
    hide Admits;
  }

  /** items must be an object, where it is given. */
  lemma ArrayUsable(store: Store, items: seq<Value>, schema: Fields, base: string)
    requires PlainSchema(schema, "array") && Safe(store, List(items), schema, base)
    ensures "items" in schema && schema["items"].Dict? ==> forall k :: 0 <= k < |items| ==> Safe(store, items[k], schema["items"].fields, base)
    ensures Usable(store, List(items), schema, base) <==>
              "items" in schema ==>
                || schema["items"] == Null
                || (schema["items"].Dict? && forall k :: 0 <= k < |items| ==> Usable(store, items[k], schema["items"].fields, base))
  {
    NoRef(store, schema, base);
    AdmitsExactly(schema, List(items), "array");
    hide Admits;
  }

  // ---------- references ----------

  /** A reference that is no text, or blank, leads nowhere, and a schema with it cannot be applied. */
  lemma BlankReference(store: Store, v: Value, schema: Fields, base: string)
    requires REF in schema && (!schema[REF].Str? || forall i :: 0 <= i < |schema[REF].s| ==> IsSpace(schema[REF].s[i]))
    ensures Safe(store, v, schema, base) && !Usable(store, v, schema, base)
  {
    assert Flatten(store, schema, base, 0) == Some(Failure(SchemaError));
    FlatIs(store, schema, base, 0);
  }

  /** So it is with one to a file that is not there, or holds no object. */
  lemma MissingFile(store: Store, v: Value, file: string, fragment: string, schema: Fields, base: string)
    requires REF in schema && schema[REF] == Str(file + "#" + fragment) && '#' !in file
    requires var target := if file == "" then base else file; target !in store || !store[target].Dict?
    ensures Safe(store, v, schema, base) && !Usable(store, v, schema, base)
  {
    PartitionAtHash(file, fragment);
    assert Flatten(store, schema, base, 0) == Some(Failure(SchemaError));
    FlatIs(store, schema, base, 0);
  }

  /** Nothing lies at the end of the tokens. */
  ghost predicate LiesNothing(v: Value, tokens: seq<string>) {
    forall found :: !LiesAt(v, tokens, found)
  }

  lemma {:induction false} DescendFails(v: Value, tokens: seq<string>)
    requires LiesNothing(v, tokens)
    ensures Descend(v, tokens).Failure?
    decreases |tokens|
  {
    if Descend(v, tokens).Success? {
      DescendSucceeds(v, tokens);
    }
  }

  lemma {:induction false} DescendSucceeds(v: Value, tokens: seq<string>)
    requires Descend(v, tokens).Success?
    ensures LiesAt(v, tokens, Descend(v, tokens).value)
    decreases |tokens|
  {
    if tokens != [] {
      DescendSucceeds(v.fields[tokens[0]], tokens[1..]);
    }
  }

  /** And with a pointer that does not start with a slash, or along which nothing lies. */
  lemma DanglingPointer(store: Store, v: Value, file: string, fragment: string, schema: Fields, base: string)
    requires REF in schema && schema[REF] == Str(file + "#" + fragment) && '#' !in file && fragment != []
    requires var target := if file == "" then base else file;
             target in store && (fragment[0] != '/' || LiesNothing(store[target], Tokens(fragment)))
    ensures Safe(store, v, schema, base) && !Usable(store, v, schema, base)
  {
    var target := if file == "" then base else file;
    PartitionAtHash(file, fragment);
    if fragment[0] == '/' {
      DescendFails(store[target], Tokens(fragment));
    }
    hide Tokens, Descend, Partition;
    assert Flatten(store, schema, base, 0) == Some(Failure(SchemaError));
    FlatIs(store, schema, base, 0);
  }
}
