/** SchemaSubsetValidator: it reports no issue exactly on the values that conform. */
module SchemaValidator {
  import opened Wrappers
  import opened PyText
  import opened SchemaValues
  import opened SchemaConformance

  datatype Part = Name(s: string) | Index(k: nat)

  type Path = seq<Part>

  datatype Problem =
    | WrongType | MissingField | Undeclared | TooFewItems | TooShort | BadDateTime
    | BelowMinimum | AboveMaximum | NotTheConstant | NotInEnum

  datatype Issue = Issue(path: Path, problem: Problem)

  /** The list that one run of the validator shares among its calls. */
  class IssueList {
    var issues: seq<Issue>

    constructor ()
      ensures issues == []
    {
      issues := [];
    }

    method Append(path: Path, problem: Problem)
      modifies this
      ensures issues == old(issues) + [Issue(path, problem)]
    {
      issues := issues + [Issue(path, problem)];
    }
  }

  class SchemaSubsetValidator {
    const store: Store
    const isDateTime: string -> bool
    var cache: map<string, Fields>

    /** The cache repeats the store. */
    ghost predicate Valid()
      reads this
    {
      forall file :: file in cache ==> Loaded(store, file) == Success(cache[file])
    }

    constructor (store: Store, isDateTime: string -> bool)
      ensures Valid() && this.store == store && this.isDateTime == isDateTime
    {
      this.store := store;
      this.isDateTime := isDateTime;
      cache := map[];
    }

    method LoadSchema(file: string) returns (r: Result<Fields, SchemaError>)
      requires Valid()
      modifies `cache
      ensures Valid() && r == Loaded(store, file)
    {
      if file !in cache {
        if file !in store || !store[file].Dict? {
          return Failure(SchemaError);
        }
        cache := cache[file := store[file].fields];
      }
      return Success(cache[file]);
    }

    static method ResolvePointer(schema: Fields, fragment: string) returns (r: Result<Fields, SchemaError>)
      ensures r == Pointed(schema, fragment)
    {
      if fragment != [] && fragment[0] != '/' {
        return Failure(SchemaError);
      }
      var current := Dict(schema);
      var tokens := if fragment == [] then [] else Tokens(fragment);
      var i := 0;
      hide Tokens;
      assert tokens[0..] == tokens;
      while i < |tokens|
        invariant 0 <= i <= |tokens|
        invariant Descend(current, tokens[i..]) == Descend(Dict(schema), tokens)
      {
        if !current.Dict? || tokens[i] !in current.fields {
          return Failure(SchemaError);
        }
        current := current.fields[tokens[i]];
        assert tokens[i..][1..] == tokens[i + 1..];
        i := i + 1;
      }
      return AsFields(current);
    }

    method ResolveRef(ref: Value, base: string) returns (r: Result<(Fields, string), SchemaError>)
      requires Valid()
      modifies `cache
      ensures Valid() && r == Resolve(store, ref, base)
    {
      hide Partition, Blank;
      if !ref.Str? || Blank(ref.s) {
        return Failure(SchemaError);
      }
      var (file, fragment) := Partition(ref.s);
      var target := if file != [] then file else base;
      var schema := LoadSchema(target);
      if schema.Failure? {
        return Failure(SchemaError);
      }
      var pointed := schema;
      if fragment != [] {
        pointed := ResolvePointer(schema.value, fragment);
      }
      return if pointed.Failure? then Failure(SchemaError) else Success((pointed.value, target));
    }

    /** _resolve_schema_type: Some when the type keyword is there and admits the value. */
    static method ResolveSchemaType(v: Value, schema: Fields, path: Path, out: IssueList) returns (r: Result<bool, SchemaError>)
      modifies out
      ensures r.Success? <==> TypeReadable(schema)
      ensures r.Success? ==> (r.value <==> Typed(schema) && Admits(schema, v))
      ensures out.issues == old(out.issues) <==> (Typed(schema) && TypeReadable(schema) ==> Admits(schema, v))
      ensures old(out.issues) <= out.issues
    {
      var expected := Get(schema, "type");
      if expected.Null? {
        return Success(false);
      }
      if !TypeReadable(schema) {
        return Failure(SchemaError);
      }
      if Admits(schema, v) {
        return Success(true);
      }
      out.Append(path, WrongType);
      return Success(false);
    }

    /** _validate_scalar, called with the type that the value was found to have. */
    method ValidateScalar(v: Value, schema: Fields, path: Path, out: IssueList)
      modifies out
      ensures out.issues == old(out.issues) <==> ScalarOk(isDateTime, schema, v)
      ensures old(out.issues) <= out.issues
    {
      match v {
        case Str(s) =>
          if !LengthOk(schema, "minLength", |s|) {
            out.Append(path, TooShort);
          }
          if Get(schema, "format") == Str("date-time") && !isDateTime(s) {
            out.Append(path, BadDateTime);
          }
        case Int(n) => ValidateRange(n as real, schema, path, out);
        case Float(x) => ValidateRange(x, schema, path, out);
        case _ =>
      }
    }

    static method ValidateRange(x: real, schema: Fields, path: Path, out: IssueList)
      modifies out
      ensures out.issues == old(out.issues) <==> RangeOk(schema, x)
      ensures old(out.issues) <= out.issues
    {
      var minimum, maximum := NumberOf(Get(schema, "minimum")), NumberOf(Get(schema, "maximum"));
      if minimum.Some? && x < minimum.value {
        out.Append(path, BelowMinimum);
      }
      if maximum.Some? && x > maximum.value {
        out.Append(path, AboveMaximum);
      }
    }

    /** The keywords about an object itself: required fields, and fields that are not declared. */
    static method ValidateShape(fields: Fields, schema: Fields, path: Path, out: IssueList)
      requires ObjectReadable(schema)
      modifies out
      ensures out.issues == old(out.issues) <==> ShapeOk(schema, fields)
      ensures old(out.issues) <= out.issues
    {
      var required := Required(schema);
      var i := 0;
      while i < |required|
        invariant 0 <= i <= |required|
        invariant old(out.issues) <= out.issues
        invariant out.issues == old(out.issues) <==> forall k :: 0 <= k < i ==> required[k].s in fields
      {
        if required[i].s !in fields {
          out.Append(path + [Name(required[i].s)], MissingField);
        }
        i := i + 1;
      }
      if Closed(schema) {
        var extras := fields.Keys - Properties(schema).Keys;
        NoExtras(fields.Keys, Properties(schema).Keys);
        ghost var present := out.issues;
        while extras != {}
          invariant present <= out.issues
          invariant out.issues == present ==> extras == fields.Keys - Properties(schema).Keys
          invariant out.issues != present ==> !(fields.Keys <= Properties(schema).Keys)
          decreases extras
        {
          var extra :| extra in extras;
          extras := extras - {extra};
          out.Append(path + [Name(extra)], Undeclared);
        }
      }
    }

    /** What a call reports about the values of some declared fields. */
    ghost predicate FieldsConform(fields: Fields, schema: Fields, file: string, names: set<string>)
      requires PartsSafe(store, Dict(fields), schema, file)
    {
      forall name :: name in names && name in fields.Keys && name in Properties(schema) && Properties(schema)[name].Dict? ==>
                       Conforms(store, isDateTime, fields[name], Properties(schema)[name].fields, file)
    }

    ghost predicate FieldsUsable(fields: Fields, schema: Fields, file: string, names: set<string>)
      requires PartsSafe(store, Dict(fields), schema, file)
    {
      forall name :: name in names && name in fields.Keys && name in Properties(schema) ==>
                       Properties(schema)[name].Dict? && Usable(store, fields[name], Properties(schema)[name].fields, file)
    }

    /** The loop over properties. */
    method ValidateFields(v: Value, schema: Fields, file: string, path: Path, out: IssueList) returns (r: Result<(), SchemaError>)
      requires Valid() && v.Dict? && PartsSafe(store, v, schema, file)
      modifies `cache, out
      ensures Valid() && old(out.issues) <= out.issues
      ensures r.Success? <==> FieldsUsable(v.fields, schema, file, Properties(schema).Keys)
      ensures r.Success? ==> (out.issues == old(out.issues) <==> FieldsConform(v.fields, schema, file, Properties(schema).Keys))
      decreases v, 0, 0
    {
      hide Usable, Conforms, Safe, Ends;
      var names, done: set<string> := Properties(schema).Keys, {};
      while names != {}
        invariant Valid() && old(out.issues) <= out.issues
        invariant names + done == Properties(schema).Keys
        invariant FieldsUsable(v.fields, schema, file, done)
        invariant out.issues == old(out.issues) <==> FieldsConform(v.fields, schema, file, done)
        decreases names
      {
        var name :| name in names;
        names, done := names - {name}, done + {name};
        if name in v.fields {
          var child := Properties(schema)[name];
          if !child.Dict? {
            return Failure(SchemaError);
          }
          ghost var n: nat := EnoughSteps(v.fields[name], child.fields, file);
          r := ValidateNode(v.fields[name], child.fields, file, path + [Name(name)], out, n);
          if r.Failure? {
            return;
          }
        }
      }
      assert done == Properties(schema).Keys;
      return Success(());
    }

    ghost function EnoughSteps(v: Value, schema: Fields, base: string): (n: nat)
      requires Safe(store, v, schema, base)
      ensures Flatten(store, schema, base, n).Some?
    {
      var n: nat :| Flatten(store, schema, base, n).Some?;
      n
    }

    method ValidateObject(v: Value, schema: Fields, file: string, path: Path, out: IssueList) returns (r: Result<(), SchemaError>)
      requires Valid() && v.Dict? && PartsSafe(store, v, schema, file)
      modifies `cache, out
      ensures Valid() && old(out.issues) <= out.issues
      ensures r.Success? <==> PartsUsable(store, v, schema, file)
      ensures r.Success? ==> (out.issues == old(out.issues) <==> PartsConform(store, isDateTime, v, schema, file))
      decreases v, 0, 1
    {
      hide Usable, Conforms, Safe;
      if !ObjectReadable(schema) {
        return Failure(SchemaError);
      }
      hide ObjectReadable, ShapeOk;
      ValidateShape(v.fields, schema, path, out);
      r := ValidateFields(v, schema, file, path, out);
    }

    method ValidateArray(v: Value, schema: Fields, file: string, path: Path, out: IssueList) returns (r: Result<(), SchemaError>)
      requires Valid() && v.List? && PartsSafe(store, v, schema, file)
      modifies `cache, out
      ensures Valid() && old(out.issues) <= out.issues
      ensures r.Success? <==> PartsUsable(store, v, schema, file)
      ensures r.Success? ==> (out.issues == old(out.issues) <==> PartsConform(store, isDateTime, v, schema, file))
      decreases v, 0, 1
    {
      hide Usable, Conforms, Safe;
      if !LengthOk(schema, "minItems", |v.items|) {
        out.Append(path, TooFewItems);
      }
      if !ArrayReadable(schema) {
        return Failure(SchemaError);
      }
      var items := Get(schema, "items");
      if items.Null? {
        return Success(());
      }
      hide LengthOk;
      var k := 0;
      while k < |v.items|
        invariant 0 <= k <= |v.items| && Valid() && old(out.issues) <= out.issues
        invariant forall j :: 0 <= j < k ==> Usable(store, v.items[j], items.fields, file)
        invariant out.issues == old(out.issues) <==>
                  LengthOk(schema, "minItems", |v.items|) && forall j :: 0 <= j < k ==> Conforms(store, isDateTime, v.items[j], items.fields, file)
      {
        ghost var n: nat := EnoughSteps(v.items[k], items.fields, file);
        r := ValidateNode(v.items[k], items.fields, file, path + [Index(k)], out, n);
        if r.Failure? {
          return;
        }
        k := k + 1;
      }
      return Success(());
    }

    static method ValidateValue(v: Value, schema: Fields, path: Path, out: IssueList)
      modifies out
      ensures out.issues == old(out.issues) <==> ValueOk(schema, v)
      ensures old(out.issues) <= out.issues
    {
      hide Equal;
      if "const" in schema && !Equal(v, schema["const"]) {
        out.Append(path, NotTheConstant);
      }
      var allowed := Get(schema, "enum");
      if allowed.List? && !exists k :: 0 <= k < |allowed.items| && Equal(v, allowed.items[k]) {
        out.Append(path, NotInEnum);
      }
    }

    /**
      _validate_node. It fails exactly when the schema cannot be applied to the value, and
      otherwise appends no issue exactly when the value conforms. n is enough steps for the
      reference chain; with the value it bounds the recursion.
      */
    method ValidateNode(v: Value, schema: Fields, base: string, path: Path, out: IssueList, ghost n: nat)
      returns (r: Result<(), SchemaError>)
      requires Valid() && Safe(store, v, schema, base) && Flatten(store, schema, base, n).Some?
      modifies `cache, out
      ensures Valid() && old(out.issues) <= out.issues
      ensures r.Success? <==> Usable(store, v, schema, base)
      ensures r.Success? ==> (out.issues == old(out.issues) <==> Conforms(store, isDateTime, v, schema, base))
      decreases v, n, 3
    {
      hide PartsSafe, PartsUsable, PartsConform, Resolve, Merged, TypeReadable, Typed, Admits, ValueOk;
      if REF in schema {
        var resolved := ResolveRef(schema[REF], base);
        if resolved.Failure? {
          FlatIs(store, schema, base, n);
          return Failure(resolved.error);
        }
        RefStep(store, isDateTime, v, schema, base, n);
        hide Safe, Usable, Conforms;
        var (target, file) := resolved.value;
        r := ValidateNode(v, Merged(target, schema), file, path, out, n - 1);
        return;
      }
      NoRef(store, schema, base);
      hide Flat, Ends, Flatten;
      var typed := ResolveSchemaType(v, schema, path, out);
      if typed.Failure? {
        return Failure(typed.error);
      }
      ghost var before := out.issues;
      if typed.value {
        r := ValidateParts(v, schema, base, path, out);
        if r.Failure? {
          return;
        }
      }
      ValidateValue(v, schema, path, out);
      return Success(());
    }

    /** The branch on the resolved type. */
    method ValidateParts(v: Value, schema: Fields, file: string, path: Path, out: IssueList) returns (r: Result<(), SchemaError>)
      requires Valid() && PartsSafe(store, v, schema, file)
      modifies `cache, out
      ensures Valid() && old(out.issues) <= out.issues
      ensures r.Success? <==> PartsUsable(store, v, schema, file)
      ensures r.Success? ==> (out.issues == old(out.issues) <==> PartsConform(store, isDateTime, v, schema, file))
      decreases v, 0, 2
    {
      if v.Dict? {
        r := ValidateObject(v, schema, file, path, out);
      } else if v.List? {
        r := ValidateArray(v, schema, file, path, out);
      } else {
        ValidateScalar(v, schema, path, out);
        return Success(());
      }
    }

    /**
      validate. If the reference chains it meets end, it terminates; it raises exactly when the
      schema cannot be loaded or applied, and otherwise the list is empty exactly on conforming documents.
      */
    method Validate(document: Value, schemaFile: string) returns (r: Result<seq<Issue>, SchemaError>)
      requires Valid()
      requires !Blank(schemaFile) && Loaded(store, Strip(schemaFile)).Success? ==>
                 Safe(store, document, Loaded(store, Strip(schemaFile)).value, Strip(schemaFile))
      modifies `cache
      ensures Valid()
      ensures r.Success? <==>
                && !Blank(schemaFile) && Loaded(store, Strip(schemaFile)).Success?
                && Usable(store, document, Loaded(store, Strip(schemaFile)).value, Strip(schemaFile))
      ensures r.Success? ==>
                (r.value == [] <==> Conforms(store, isDateTime, document, Loaded(store, Strip(schemaFile)).value, Strip(schemaFile)))
    {
      hide Strip, Blank, Usable, Conforms;
      if Blank(schemaFile) {
        return Failure(SchemaError);
      }
      var file := Strip(schemaFile);
      var schema := LoadSchema(file);
      if schema.Failure? {
        return Failure(SchemaError);
      }
      var out := new IssueList();
      ghost var n: nat := EnoughSteps(document, schema.value, file);
      hide Safe;
      var run := ValidateNode(document, schema.value, file, [], out, n);
      return if run.Failure? then Failure(SchemaError) else Success(out.issues);
    }
  }

  lemma NoExtras(a: set<string>, b: set<string>)
    ensures a - b == {} <==> a <= b
  {
    if a - b == {} {
      forall x | x in a
        ensures x in b
      {
        assert x !in a - b;
      }
    }
  }
}
