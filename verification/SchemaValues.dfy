/** Python values as json.load makes them, their equality, and JSON pointers. */
module SchemaValues {
  import opened Wrappers

  type Fields = map<string, Value>

  /** A float is the real number it stands for; Other is any value that is no JSON value. */
  datatype Value =
    | Null
    | Bool(b: bool)
    | Int(n: int)
    | Float(x: real)
    | Str(s: string)
    | List(items: seq<Value>)
    | Dict(fields: Fields)
    | Other(tag: nat)

  /** bool is a subclass of int, and int, float and bool compare by value. */
  function NumberOf(v: Value): Option<real> {
    match v
    case Bool(b) => Some(if b then 1.0 else 0.0)
    case Int(n) => Some(n as real)
    case Float(x) => Some(x)
    case _ => None
  }

  /** isinstance(v, int), and then the integer. */
  function IntOf(v: Value): Option<int> {
    match v
    case Bool(b) => Some(if b then 1 else 0)
    case Int(n) => Some(n)
    case _ => None
  }

  /** v == w */
  predicate Equal(v: Value, w: Value)
    decreases v
  {
    match v
    case Null => w.Null?
    case Bool(_) => NumberOf(v) == NumberOf(w)
    case Int(_) => NumberOf(v) == NumberOf(w)
    case Float(_) => NumberOf(v) == NumberOf(w)
    case Str(s) => w.Str? && w.s == s
    case List(items) => w.List? && |w.items| == |items| && forall k :: 0 <= k < |items| ==> Equal(items[k], w.items[k])
    case Dict(fields) => w.Dict? && w.fields.Keys == fields.Keys && forall k :: k in fields.Keys ==> Equal(fields[k], w.fields[k])
    case Other(tag) => w.Other? && w.tag == tag
  }

  lemma {:induction false} EqualReflexive(v: Value)
    ensures Equal(v, v)
  {
    match v
    case List(items) =>
      forall k | 0 <= k < |items| {
        EqualReflexive(items[k]);
      }
    case Dict(fields) =>
      forall k | k in fields.Keys {
        EqualReflexive(fields[k]);
      }
    case _ =>
  }

  lemma {:induction false} EqualSymmetric(v: Value, w: Value)
    requires Equal(v, w)
    ensures Equal(w, v)
    decreases v
  {
    match v
    case List(items) =>
      forall k | 0 <= k < |items| {
        EqualSymmetric(items[k], w.items[k]);
      }
    case Dict(fields) =>
      forall k | k in fields.Keys {
        EqualSymmetric(fields[k], w.fields[k]);
      }
    case _ =>
  }

  lemma {:induction false} EqualTransitive(u: Value, v: Value, w: Value)
    requires Equal(u, v) && Equal(v, w)
    ensures Equal(u, w)
    decreases u
  {
    match u
    case List(items) =>
      forall k | 0 <= k < |items|
        ensures Equal(items[k], w.items[k])
      {
        EqualTransitive(items[k], v.items[k], w.items[k]);
      }
    case Dict(fields) =>
      forall k | k in fields.Keys
        ensures Equal(fields[k], w.fields[k])
      {
        EqualTransitive(fields[k], v.fields[k], w.fields[k]);
      }
    case _ =>
  }

  // ---------- JSON pointers (RFC 6901) ----------

  /** text.replace("~" + digit, with) */
  function ReplaceTilde(text: string, digit: char, with: char): string {
    if |text| < 2 then text
    else if text[0] == '~' && text[1] == digit then [with] + ReplaceTilde(text[2..], digit, with)
    else [text[0]] + ReplaceTilde(text[1..], digit, with)
  }

  /** replace("~1", "/").replace("~0", "~") */
  function Unescape(part: string): string {
    ReplaceTilde(ReplaceTilde(part, '1', '/'), '0', '~')
  }

  /** The escape a writer of pointers uses. */
  function Escape(token: string): string {
    if token == [] then []
    else (if token[0] == '~' then "~0" else if token[0] == '/' then "~1" else [token[0]]) + Escape(token[1..])
  }

  /** What is left of Escape once "~1" is undone: only the tildes are escaped. */
  function HalfEscape(token: string): string {
    if token == [] then [] else (if token[0] == '~' then "~0" else [token[0]]) + HalfEscape(token[1..])
  }

  lemma {:induction false} UndoSlashes(token: string)
    ensures ReplaceTilde(Escape(token), '1', '/') == HalfEscape(token)
    ensures '/' !in Escape(token)
  {
    if token != [] {
      var rest := Escape(token[1..]);
      UndoSlashes(token[1..]);
      if token[0] == '~' {
        assert Escape(token)[1..] == "0" + rest && ("0" + rest)[1..] == rest;
        assert ReplaceTilde("0" + rest, '1', '/') == "0" + ReplaceTilde(rest, '1', '/') by {
          if rest == [] {
            assert "0" + rest == "0";
          }
        }
      } else if token[0] == '/' {
        assert Escape(token)[2..] == rest;
      } else {
        assert Escape(token)[1..] == rest;
      }
    }
  }

  lemma {:induction false} UndoTildes(token: string)
    ensures ReplaceTilde(HalfEscape(token), '0', '~') == token
  {
    if token != [] {
      var rest := HalfEscape(token[1..]);
      UndoTildes(token[1..]);
      if token[0] == '~' {
        assert HalfEscape(token)[2..] == rest;
      } else {
        assert HalfEscape(token)[1..] == rest;
      }
    }
  }

  /** Escaping and unescaping a token are inverse; the two replacements are in the right order. */
  lemma UnescapeEscape(token: string)
    ensures Unescape(Escape(token)) == token
  {
    UndoSlashes(token);
    UndoTildes(token);
  }

  /** text.split("/") */
  function SplitSlash(text: string): (parts: seq<string>)
    ensures parts != []
  {
    if text == [] then [[]]
    else
      var more := SplitSlash(text[1..]);
      if text[0] == '/' then [[]] + more else [[text[0]] + more[0]] + more[1..]
  }

  lemma {:induction false} SplitJoined(a: string, b: string)
    requires '/' !in a
    ensures SplitSlash(a + "/" + b) == [a] + SplitSlash(b)
    ensures SplitSlash(a) == [a]
  {
    var joined := a + "/" + b;
    if a == [] {
      assert joined[1..] == b;
    } else {
      assert a == [a[0]] + a[1..] && a[0] in a;
      assert joined[0] == a[0] && joined[1..] == a[1..] + "/" + b;
      SplitJoined(a[1..], b);
      assert SplitSlash(joined) == [[a[0]] + a[1..]] + SplitSlash(b);
    }
  }

  /** The JSON pointer to a place given by its tokens. */
  function Pointer(tokens: seq<string>): string {
    if tokens == [] then [] else "/" + Escape(tokens[0]) + Pointer(tokens[1..])
  }

  /** The tokens the validator reads from a fragment that starts with a slash. */
  function Tokens(fragment: string): seq<string>
    requires fragment != []
  {
    UnescapeAll(SplitSlash(fragment[1..]))
  }

  function UnescapeAll(parts: seq<string>): (tokens: seq<string>)
    ensures |tokens| == |parts| && forall k :: 0 <= k < |parts| ==> tokens[k] == Unescape(parts[k])
  {
    if parts == [] then [] else [Unescape(parts[0])] + UnescapeAll(parts[1..])
  }

  /** Reading a written JSON pointer gives back its tokens. */
  lemma {:induction false} PointerRoundTrip(tokens: seq<string>)
    requires tokens != []
    ensures Tokens(Pointer(tokens)) == tokens
  {
    var head, rest := Escape(tokens[0]), tokens[1..];
    UnescapeEscape(tokens[0]);
    UndoSlashes(tokens[0]);
    assert tokens == [tokens[0]] + rest;
    if rest == [] {
      assert Pointer(tokens)[1..] == head;
      SplitJoined(head, []);
      assert UnescapeAll([head]) == [Unescape(head)];
    } else {
      var more := Pointer(rest);
      assert more == "/" + more[1..];
      assert Pointer(tokens)[1..] == head + "/" + more[1..];
      SplitJoined(head, more[1..]);
      PointerRoundTrip(rest);
      assert ([head] + SplitSlash(more[1..]))[1..] == SplitSlash(more[1..]);
    }
  }
}
