/** Owner evidence: the inventory a producer builds, and the summary a consumer makes of it after checking its counts. */
module OwnerEvidence {
  import opened Wrappers
  import opened Lists
  import opened PyText

  /** ValueError */
  datatype Invalid = Invalid

  /** _text: None is a value that is no string. */
  function Text(value: Option<string>): Result<string, Invalid> {
    if value.None? || Strip(value.value) == [] then Failure(Invalid) else Success(Strip(value.value))
  }

  /** A text that is its own stripped form. */
  predicate Clean(s: string) {
    Text(Some(s)) == Success(s)
  }

  lemma TextIsClean(value: Option<string>)
    requires Text(value).Success?
    ensures Clean(Text(value).value)
  {
    StripIdempotent(value.value);
  }

  // ---------- lists ----------

  function Texts(xs: seq<Option<string>>): Result<seq<string>, Invalid> {
    if xs == [] then Success([])
    else
      var front, last := Texts(xs[..|xs| - 1]), Text(xs[|xs| - 1]);
      if front.Failure? || last.Failure? then Failure(Invalid) else Success(front.value + [last.value])
  }

  /** What _string_list returns. */
  function StringListOf(xs: seq<Option<string>>): Result<seq<string>, Invalid> {
    var texts := Texts(xs);
    if texts.Failure? then Failure(Invalid) else Success(Dedupe(texts.value))
  }

  method StringList(xs: seq<Option<string>>) returns (r: Result<seq<string>, Invalid>)
    ensures r == StringListOf(xs)
  {
    hide Text;
    var result: seq<string> := [];
    var i := 0;
    assert xs[..0] == [];
    while i < |xs|
      invariant 0 <= i <= |xs|
      invariant Texts(xs[..i]).Success? && result == Dedupe(Texts(xs[..i]).value)
    {
      var text := Text(xs[i]);
      assert xs[..i + 1][..i] == xs[..i];
      if text.Failure? {
        TextsFail(xs, i);
        return Failure(Invalid);
      }
      assert (Texts(xs[..i]).value + [text.value])[..|Texts(xs[..i]).value|] == Texts(xs[..i]).value;
      if text.value !in result {
        result := result + [text.value];
      }
      i := i + 1;
    }
    assert xs[..i] == xs;
    return Success(result);
  }

  lemma {:induction false} TextsFail(xs: seq<Option<string>>, i: nat)
    requires i < |xs| && Text(xs[i]).Failure?
    ensures Texts(xs).Failure?
  {
    hide Text;
    if i < |xs| - 1 {
      assert xs[..|xs| - 1][i] == xs[i];
      TextsFail(xs[..|xs| - 1], i);
    }
  }

  // ---------- counts ----------

  function Occurrences(keys: seq<string>, key: string): nat {
    if keys == [] then 0 else (if keys[|keys| - 1] == key then 1 else 0) + Occurrences(keys[..|keys| - 1], key)
  }

  function CountBy(keys: seq<string>): (counts: map<string, nat>)
    ensures forall k :: k in counts <==> k in keys
    ensures forall k :: k in counts ==> counts[k] == Occurrences(keys, k)
    ensures Total(counts) == |keys|
  {
    CountsTotal(keys);
    CountsOf(keys)
  }

  function CountsOf(keys: seq<string>): (counts: map<string, nat>)
    ensures forall k :: k in counts <==> k in keys
    ensures forall k :: k in counts ==> counts[k] == Occurrences(keys, k)
  {
    if keys == [] then map[]
    else
      var front, last := keys[..|keys| - 1], keys[|keys| - 1];
      assert keys == front + [last];
      var counts := CountsOf(front);
      NoOccurrences(front, last);
      counts[last := (if last in counts then counts[last] else 0) + 1]
  }

  lemma {:induction false} NoOccurrences(keys: seq<string>, key: string)
    ensures key !in keys ==> Occurrences(keys, key) == 0
  {
    if keys != [] {
      NoOccurrences(keys[..|keys| - 1], key);
    }
  }

  /** sum(counts.values()) */
  ghost function Total(counts: map<string, nat>): nat {
    if counts == map[] then 0
    else
      var k :| k in counts;
      counts[k] + Total(counts - {k})
  }

  /** The order in which a map is summed does not matter. */
  lemma {:induction false} TotalWithout(counts: map<string, nat>, k: string)
    requires k in counts
    ensures Total(counts) == counts[k] + Total(counts - {k})
    decreases |counts|
  {
    var j :| j in counts && Total(counts) == counts[j] + Total(counts - {j});
    if j != k {
      assert counts - {j} - {k} == counts - {k} - {j};
      TotalWithout(counts - {j}, k);
      TotalWithout(counts - {k}, j);
    }
  }

  lemma TotalSet(counts: map<string, nat>, k: string, n: nat)
    ensures Total(counts[k := n]) == n + Total(counts - {k})
  {
    TotalWithout(counts[k := n], k);
    assert counts[k := n] - {k} == counts - {k};
  }

  lemma CountsStep(front: seq<string>, last: string)
    ensures CountsOf(front + [last]) == CountsOf(front)[last := (if last in CountsOf(front) then CountsOf(front)[last] else 0) + 1]
  {
    assert (front + [last])[..|front|] == front;
  }

  /** Counting one more. */
  lemma TotalBump(counts: map<string, nat>, k: string)
    ensures Total(counts[k := (if k in counts then counts[k] else 0) + 1]) == Total(counts) + 1
  {
    TotalSet(counts, k, (if k in counts then counts[k] else 0) + 1);
    if k in counts {
      TotalWithout(counts, k);
    } else {
      assert counts - {k} == counts;
    }
  }

  lemma TotalEmpty()
    ensures Total(CountsOf([])) == 0
  {
  }

  /** The counts of a list sum to its length. */
  lemma {:induction false} CountsTotal(keys: seq<string>)
    ensures Total(CountsOf(keys)) == |keys|
  {
    hide Total, CountsOf, Occurrences;
    if keys == [] {
      TotalEmpty();
    } else {
      var front, last := keys[..|keys| - 1], keys[|keys| - 1];
      assert keys == front + [last];
      CountsTotal(front);
      CountsStep(front, last);
      TotalBump(CountsOf(front), last);
    }
  }

  /** _count_by, over keys that are clean texts already. */
  method CountKeys(keys: seq<string>) returns (counts: map<string, nat>)
    ensures counts == CountBy(keys)
  {
    counts := map[];
    var i := 0;
    assert keys[..0] == [];
    assert CountsOf(keys[..0]) == map[];
    hide CountsOf, Occurrences;
    while i < |keys|
      invariant 0 <= i <= |keys| && counts == CountsOf(keys[..i])
    {
      var value := keys[i];
      assert keys[..i + 1] == keys[..i] + [value];
      CountsStep(keys[..i], value);
      counts := counts[value := (if value in counts then counts[value] else 0) + 1];
      i := i + 1;
    }
    assert keys[..i] == keys;
  }
}
