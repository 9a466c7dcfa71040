/** Array.prototype.sort with a comparison of string keys: stable, and canonical where keys tell elements apart. */
module StableSort {
  import opened JsText
  import opened Lists

  // ---------- the order of strings ----------

  /** The order of Array.prototype.sort on strings: by UTF-16 code units. */
  predicate Before(a: Text, b: Text) {
    if b == [] then false
    else if a == [] then true
    else if a[0] != b[0] then a[0] < b[0]
    else Before(a[1..], b[1..])
  }

  lemma {:induction false} BeforeTotal(a: Text, b: Text)
    ensures Before(a, b) || Before(b, a) || a == b
    ensures !(Before(a, b) && Before(b, a)) && !Before(a, a)
    decreases |a|
  {
    if a != [] {
      BeforeTotal(a[1..], a[1..]);
      if b != [] && a[0] == b[0] {
        BeforeTotal(a[1..], b[1..]);
        assert a == [a[0]] + a[1..] && b == [b[0]] + b[1..];
      }
    }
  }

  lemma {:induction false} BeforeTransitive(a: Text, b: Text, c: Text)
    requires Before(a, b) && Before(b, c)
    ensures Before(a, c)
    decreases |a|
  {
    if a != [] && a[0] == b[0] == c[0] {
      BeforeTransitive(a[1..], b[1..], c[1..]);
    }
  }

  /** Up to some n the strings agree; there the first ends, or both have a unit and the first one's is smaller. */
  ghost predicate UnitsBefore(a: Text, b: Text) {
    exists n: nat :: UnitsBeforeAt(a, b, n)
  }

  ghost predicate UnitsBeforeAt(a: Text, b: Text, n: nat) {
    && n <= |a| && n < |b|
    && (forall k :: 0 <= k < n ==> a[k] == b[k])
    && (n == |a| || a[n] < b[n])
  }

  /** The order is that of the code units at the first difference, a proper prefix coming first. */
  lemma {:induction false} BeforeExactly(a: Text, b: Text)
    ensures Before(a, b) <==> UnitsBefore(a, b)
    decreases |a|
  {
    if a == [] || b == [] || a[0] != b[0] {
      assert UnitsBeforeAt(a, b, 0) <==> Before(a, b);
      forall n: nat | UnitsBeforeAt(a, b, n)
        ensures Before(a, b)
      {
      }
    } else {
      BeforeExactly(a[1..], b[1..]);
      if Before(a, b) {
        var n: nat :| UnitsBeforeAt(a[1..], b[1..], n);
        var m := n + 1;
        assert forall k :: 1 <= k < m ==> a[k] == a[1..][k - 1] && b[k] == b[1..][k - 1];
        assert UnitsBeforeAt(a, b, m);
      }
      forall n: nat | UnitsBeforeAt(a, b, n)
        ensures Before(a, b)
      {
        var m: nat := n - 1;
        assert UnitsBeforeAt(a[1..], b[1..], m);
      }
    }
  }

  // ---------- sorting ----------

  ghost predicate Sorted<T(!new)>(key: T -> Text, xs: seq<T>) {
    forall i, j :: 0 <= i < j < |xs| ==> !Before(key(xs[j]), key(xs[i]))
  }

  function Insert<T>(key: T -> Text, x: T, sorted: seq<T>): (r: seq<T>)
    ensures multiset(r) == multiset(sorted) + multiset{x}
  {
    if sorted == [] || !Before(key(sorted[0]), key(x)) then [x] + sorted
    else
      assert sorted == [sorted[0]] + sorted[1..];
      [sorted[0]] + Insert(key, x, sorted[1..])
  }

  function Sort<T>(key: T -> Text, xs: seq<T>): (r: seq<T>)
    ensures multiset(r) == multiset(xs)
  {
    if xs == [] then []
    else
      assert xs == [xs[0]] + xs[1..];
      Insert(key, xs[0], Sort(key, xs[1..]))
  }

  lemma NotBeforeTransitive(a: Text, b: Text, c: Text)
    requires !Before(b, a) && !Before(c, b)
    ensures !Before(c, a)
  {
    BeforeTotal(a, b);
    BeforeTotal(b, c);
    if Before(c, a) {
      if a != b {
        BeforeTransitive(c, a, b);
      }
    }
  }

  /** Every element of the list comes no earlier than x. */
  ghost predicate NoneBefore<T(!new)>(key: T -> Text, x: T, xs: seq<T>) {
    forall y :: y in xs ==> !Before(key(y), key(x))
  }

  lemma SortedCons<T(!new)>(key: T -> Text, xs: seq<T>)
    requires xs != []
    ensures Sorted(key, xs) <==> Sorted(key, xs[1..]) && NoneBefore(key, xs[0], xs[1..])
  {
    var rest := xs[1..];
    if Sorted(key, xs) {
      forall i, j | 0 <= i < j < |rest|
        ensures !Before(key(rest[j]), key(rest[i]))
      {
        assert !Before(key(xs[j + 1]), key(xs[i + 1]));
      }
      forall y | y in rest
        ensures !Before(key(y), key(xs[0]))
      {
        var i :| 0 <= i < |rest| && rest[i] == y;
        assert !Before(key(xs[i + 1]), key(xs[0]));
      }
    }
    if Sorted(key, rest) && NoneBefore(key, xs[0], rest) {
      forall i, j | 0 <= i < j < |xs|
        ensures !Before(key(xs[j]), key(xs[i]))
      {
        assert rest[j - 1] in rest;
        if i > 0 {
          assert !Before(key(rest[j - 1]), key(rest[i - 1]));
        }
      }
    }
  }

  lemma SameMembers<T(!new)>(xs: seq<T>, ys: seq<T>)
    requires multiset(xs) == multiset(ys)
    ensures forall x :: x in xs <==> x in ys
  {
    forall x
      ensures x in xs <==> x in ys
    {
      assert x in xs <==> x in multiset(xs);
      assert x in ys <==> x in multiset(ys);
    }
  }

  lemma {:induction false} InsertSorted<T(!new)>(key: T -> Text, x: T, sorted: seq<T>)
    requires Sorted(key, sorted)
    ensures Sorted(key, Insert(key, x, sorted))
  {
    var r := Insert(key, x, sorted);
    if sorted == [] {
    } else if !Before(key(sorted[0]), key(x)) {
      SortedCons(key, sorted);
      forall y | y in sorted
        ensures !Before(key(y), key(x))
      {
        if y != sorted[0] {
          NotBeforeTransitive(key(x), key(sorted[0]), key(y));
        }
      }
      assert r[1..] == sorted;
      SortedCons(key, r);
    } else {
      SortedCons(key, sorted);
      var rest := Insert(key, x, sorted[1..]);
      InsertSorted(key, x, sorted[1..]);
      BeforeTotal(key(sorted[0]), key(x));
      assert multiset(rest) == multiset([x] + sorted[1..]);
      SameMembers(rest, [x] + sorted[1..]);
      assert r[1..] == rest;
      SortedCons(key, r);
    }
  }

  lemma {:induction false} SortSorts<T(!new)>(key: T -> Text, xs: seq<T>)
    ensures Sorted(key, Sort(key, xs))
  {
    if xs != [] {
      SortSorts(key, xs[1..]);
      InsertSorted(key, xs[0], Sort(key, xs[1..]));
    }
  }

  /** Sorting changes nothing in a sorted list, even among equal keys. */
  lemma {:induction false} SortOfSorted<T(!new)>(key: T -> Text, xs: seq<T>)
    requires Sorted(key, xs)
    ensures Sort(key, xs) == xs
  {
    if xs != [] {
      SortedCons(key, xs);
      SortOfSorted(key, xs[1..]);
      assert xs == [xs[0]] + xs[1..];
      if |xs| > 1 {
        assert xs[1] in xs[1..];
      }
    }
  }

  /** No key is followed by a smaller one. */
  ghost predicate KeysAscend<T(!new)>(key: T -> Text, xs: seq<T>) {
    forall i, j :: 0 <= i < j < |xs| ==> !UnitsBefore(key(xs[j]), key(xs[i]))
  }

  /** Sorting puts the keys in ascending order of their code units, and neither adds nor drops an element. */
  lemma SortedKeysAscend<T(!new)>(key: T -> Text, xs: seq<T>)
    ensures KeysAscend(key, Sort(key, xs)) && multiset(Sort(key, xs)) == multiset(xs)
  {
    var sorted := Sort(key, xs);
    SortSorts(key, xs);
    hide Sort, Before;
    forall i, j | 0 <= i < j < |sorted|
      ensures !UnitsBefore(key(sorted[j]), key(sorted[i]))
    {
      BeforeExactly(key(sorted[j]), key(sorted[i]));
    }
  }

  /** Elements with one key are one element. */
  ghost predicate KeysTell<T(!new)>(key: T -> Text, xs: seq<T>) {
    forall x, y :: x in xs && y in xs && key(x) == key(y) ==> x == y
  }

  /** Two sorted lists of the same elements start with the same one. */
  lemma SameHead<T(!new)>(key: T -> Text, xs: seq<T>, ys: seq<T>)
    requires Sorted(key, xs) && Sorted(key, ys) && multiset(xs) == multiset(ys) && KeysTell(key, xs) && xs != [] && ys != []
    ensures xs[0] == ys[0]
  {
    SameMembers(xs, ys);
    SortedCons(key, xs);
    SortedCons(key, ys);
    hide Sorted, Before;
    assert xs == [xs[0]] + xs[1..] && ys == [ys[0]] + ys[1..];
    assert xs[0] in xs && ys[0] in ys;
    BeforeTotal(key(xs[0]), key(ys[0]));
  }

  lemma TailMultiset<T>(xs: seq<T>)
    requires xs != []
    ensures multiset(xs[1..]) == multiset(xs) - multiset{xs[0]}
  {
    assert xs == [xs[0]] + xs[1..];
  }

  lemma TailTells<T(!new)>(key: T -> Text, xs: seq<T>)
    requires xs != [] && KeysTell(key, xs)
    ensures KeysTell(key, xs[1..])
  {
  }

  lemma {:induction false} SortedUnique<T(!new)>(key: T -> Text, xs: seq<T>, ys: seq<T>)
    requires Sorted(key, xs) && Sorted(key, ys) && multiset(xs) == multiset(ys) && KeysTell(key, xs)
    ensures xs == ys
  {
    assert |multiset(xs)| == |xs| && |multiset(ys)| == |ys|;
    if xs != [] {
      SameHead(key, xs, ys);
      SortedCons(key, xs);
      SortedCons(key, ys);
      TailMultiset(xs);
      TailMultiset(ys);
      hide Sorted, Before;
      TailTells(key, xs);
      hide KeysTell, NoneBefore;
      SortedUnique(key, xs[1..], ys[1..]);
      assert xs == [xs[0]] + xs[1..] && ys == [ys[0]] + ys[1..];
    }
  }

  /** Where keys tell elements apart, the order before sorting does not matter. */
  lemma SortOrderIrrelevant<T(!new)>(key: T -> Text, xs: seq<T>, ys: seq<T>)
    requires multiset(xs) == multiset(ys) && KeysTell(key, xs)
    ensures Sort(key, xs) == Sort(key, ys)
  {
    SortSorts(key, xs);
    SortSorts(key, ys);
    SameMembers(Sort(key, xs), xs);
    hide Sort, Sorted;
    SortedUnique(key, Sort(key, xs), Sort(key, ys));
  }

  /** Where Insert puts an element with this key. */
  function Position<T>(key: T -> Text, t: Text, sorted: seq<T>): (k: nat)
    ensures k <= |sorted|
  {
    if sorted == [] || !Before(key(sorted[0]), t) then 0 else 1 + Position(key, t, sorted[1..])
  }

  lemma InsertedLater<T>(head: T, rest: seq<T>, k: nat, x: T)
    requires k <= |rest|
    ensures var xs := [head] + rest;
            [head] + (rest[..k] + [x] + rest[k..]) == xs[..k + 1] + [x] + xs[k + 1..]
  {
  }

  lemma {:induction false} InsertAt<T>(key: T -> Text, x: T, sorted: seq<T>)
    ensures var k := Position(key, key(x), sorted);
            Insert(key, x, sorted) == sorted[..k] + [x] + sorted[k..]
  {
    hide Before;
    if sorted == [] {
    } else if Before(key(sorted[0]), key(x)) {
      var rest := sorted[1..];
      assert sorted == [sorted[0]] + rest;
      InsertedLater(sorted[0], rest, Position(key, key(x), rest), x);
      InsertAt(key, x, rest);
    } else {
      assert sorted[..0] + [x] + sorted[0..] == [x] + sorted;
    }
  }

  lemma {:induction false} PositionAfterInsert<T>(key: T -> Text, x: T, sorted: seq<T>)
    ensures Position(key, key(x), Insert(key, x, sorted)) == Position(key, key(x), sorted)
  {
    BeforeTotal(key(x), key(x));
    if sorted != [] && Before(key(sorted[0]), key(x)) {
      PositionAfterInsert(key, x, sorted[1..]);
    }
  }

  /** Two elements with one key stay in the order in which they were given. */
  lemma EqualKeysKeepOrder<T>(key: T -> Text, x: T, y: T, rest: seq<T>)
    requires key(x) == key(y) && x != y
    ensures Sort(key, [x, y] + rest) != Sort(key, [y, x] + rest)
  {
    var s := Sort(key, rest);
    var k := Position(key, key(x), s);
    SortTwo(key, x, y, rest);
    SortTwo(key, y, x, rest);
    InsertAt(key, x, s);
    InsertAt(key, y, s);
    InsertAt(key, x, Insert(key, y, s));
    InsertAt(key, y, Insert(key, x, s));
    PositionAfterInsert(key, x, s);
    PositionAfterInsert(key, y, s);
    hide Insert, Position, Sort;
    assert Sort(key, [x, y] + rest)[k] == x && Sort(key, [y, x] + rest)[k] == y;
  }

  lemma SortTwo<T>(key: T -> Text, x: T, y: T, rest: seq<T>)
    ensures Sort(key, [x, y] + rest) == Insert(key, x, Insert(key, y, Sort(key, rest)))
  {
    assert ([x, y] + rest)[1..] == [y] + rest && ([y] + rest)[1..] == rest;
  }

  ghost predicate OrderIrrelevant<T(!new)>(key: T -> Text, xs: seq<T>) {
    forall ys :: multiset(ys) == multiset(xs) ==> Sort(key, ys) == Sort(key, xs)
  }

  lemma NotIrrelevant<T(!new)>(key: T -> Text, xs: seq<T>, a: seq<T>, b: seq<T>)
    requires multiset(a) == multiset(xs) && multiset(b) == multiset(xs) && Sort(key, a) != Sort(key, b)
    ensures !OrderIrrelevant(key, xs)
  {
    hide Sort;
  }

  /** The order before sorting is irrelevant exactly when keys tell the elements apart. */
  lemma OrderIrrelevantExactly<T(!new)>(key: T -> Text, xs: seq<T>)
    ensures OrderIrrelevant(key, xs) <==> KeysTell(key, xs)
  {
    if KeysTell(key, xs) {
      forall ys | multiset(ys) == multiset(xs)
        ensures Sort(key, ys) == Sort(key, xs)
      {
        SortOrderIrrelevant(key, xs, ys);
      }
    } else {
      hide Sort, OrderIrrelevant;
      var x, y :| x in xs && y in xs && key(x) == key(y) && x != y;
      var rest := TakeTwo(xs, x, y);
      EqualKeysKeepOrder(key, x, y, rest);
      NotIrrelevant(key, xs, [x, y] + rest, [y, x] + rest);
    }
  }

  function Without<T(==)>(xs: seq<T>, x: T): (r: seq<T>)
    requires x in xs
    ensures multiset(xs) == multiset(r) + multiset{x}
  {
    assert xs == [xs[0]] + xs[1..];
    if xs[0] == x then xs[1..] else [xs[0]] + Without(xs[1..], x)
  }

  lemma TakeTwo<T>(xs: seq<T>, x: T, y: T) returns (rest: seq<T>)
    requires x in xs && y in xs && x != y
    ensures multiset([x, y] + rest) == multiset(xs) && multiset([y, x] + rest) == multiset(xs)
  {
    var others := Without(xs, x);
    assert y in multiset(xs);
    assert y in multiset(others);
    rest := Without(others, y);
    hide Without;
    BothOrders(x, y, rest);
  }

  lemma BothOrders<T>(x: T, y: T, rest: seq<T>)
    ensures multiset([x, y] + rest) == multiset(rest) + multiset{y} + multiset{x}
    ensures multiset([y, x] + rest) == multiset(rest) + multiset{y} + multiset{x}
  {
    assert [x, y] + rest == [x] + ([y] + rest);
    assert [y, x] + rest == [y] + ([x] + rest);
  }

  lemma TwoKeepOrder<T>(key: T -> Text, x: T, y: T)
    requires key(x) == key(y) && x != y
    ensures Distinct([x, y]) && multiset([x, y]) == multiset([y, x]) && Sort(key, [x, y]) != Sort(key, [y, x])
  {
    var none: seq<T> := [];
    EqualKeysKeepOrder(key, x, y, none);
    BothOrders(x, y, none);
    hide Sort;
    assert [x, y] + none == [x, y] && [y, x] + none == [y, x];
  }

  // ---------- [...new Set(values)].sort() ----------

  function Itself(t: Text): Text {
    t
  }

  function SortUnique(values: seq<Text>): seq<Text> {
    Sort(Itself, Dedupe(values))
  }

  lemma {:induction false} DistinctMultiset<T(!new)>(xs: seq<T>)
    requires Distinct(xs)
    ensures forall x :: multiset(xs)[x] == if x in xs then 1 else 0
  {
    if xs != [] {
      assert xs == [xs[0]] + xs[1..];
      assert xs[0] !in xs[1..];
      DistinctMultiset(xs[1..]);
    }
  }

  lemma {:induction false} MultisetDistinct<T(!new)>(xs: seq<T>)
    requires forall x :: multiset(xs)[x] <= 1
    ensures Distinct(xs)
  {
    forall i, j | 0 <= i < j < |xs|
      ensures xs[i] != xs[j]
    {
      assert xs == xs[..j] + [xs[j]] + xs[j + 1..];
      assert xs[..j][i] == xs[i];
      assert xs[i] in xs[..j];
      assert multiset(xs) == multiset(xs[..j]) + multiset{xs[j]} + multiset(xs[j + 1..]);
      assert xs[i] in multiset(xs[..j]) && xs[..j][i] == xs[i];
      assert multiset(xs)[xs[j]] == multiset(xs[..j])[xs[j]] + 1 + multiset(xs[j + 1..])[xs[j]];
    }
  }

  /** The result depends on the set of values alone. */
  lemma SortUniqueOfSet(xs: seq<Text>, ys: seq<Text>)
    requires forall v :: v in xs <==> v in ys
    ensures SortUnique(xs) == SortUnique(ys)
  {
    DistinctMultiset(Dedupe(xs));
    DistinctMultiset(Dedupe(ys));
    assert multiset(Dedupe(xs)) == multiset(Dedupe(ys));
    SortOrderIrrelevant(Itself, Dedupe(xs), Dedupe(ys));
  }

  lemma SortUniqueMembers(values: seq<Text>)
    ensures forall v :: v in SortUnique(values) <==> v in values
    ensures Distinct(SortUnique(values))
  {
    var d := Dedupe(values);
    SameMembers(Sort(Itself, d), d);
    DistinctMultiset(d);
    MultisetDistinct(Sort(Itself, d));
  }

  lemma SortUniqueIdempotent(values: seq<Text>)
    ensures SortUnique(SortUnique(values)) == SortUnique(values)
  {
    SortUniqueMembers(values);
    SortUniqueOfSet(SortUnique(values), values);
  }
}
