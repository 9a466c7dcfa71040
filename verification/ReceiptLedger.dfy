/** The JSON receipt ledger: lists of receipts that behave as a map from refs to latest receipts. */
module ReceiptLedger {
  import opened Wrappers
  import opened JsText

  /** body stands for every field but the ref and the status. */
  datatype Receipt = Receipt(ref: Text, verified: bool, body: Text)

  type Receipts = seq<Receipt>

  ghost predicate DistinctRefs(rs: Receipts) {
    forall i, j :: 0 <= i < j < |rs| ==> rs[i].ref != rs[j].ref
  }

  /** The first receipt of each ref. */
  function AsMap(rs: Receipts): (m: map<Text, Receipt>)
    ensures forall ref :: ref in m <==> exists i :: 0 <= i < |rs| && rs[i].ref == ref
    ensures forall ref :: ref in m ==> m[ref].ref == ref
  {
    if rs == [] then map[]
    else
      assert forall i :: 1 <= i < |rs| ==> rs[i] == rs[1..][i - 1];
      assert forall i :: 0 <= i < |rs[1..]| ==> rs[1..][i] == rs[i + 1];
      AsMap(rs[1..])[rs[0].ref := rs[0]]
  }

  lemma {:induction false} AsMapAt(rs: Receipts, i: nat)
    requires DistinctRefs(rs) && i < |rs|
    ensures rs[i].ref in AsMap(rs) && AsMap(rs)[rs[i].ref] == rs[i]
  {
    if i > 0 {
      assert rs[1..][i - 1] == rs[i];
      AsMapAt(rs[1..], i - 1);
    }
  }

  // ---------- upsert ----------

  /** findIndex by ref. */
  function FindRef(rs: Receipts, ref: Text): (k: Option<nat>)
    ensures k.Some? ==> k.value < |rs| && rs[k.value].ref == ref
    ensures k.None? ==> forall i :: 0 <= i < |rs| ==> rs[i].ref != ref
  {
    if rs == [] then None
    else if rs[0].ref == ref then Some(0)
    else
      var k := FindRef(rs[1..], ref);
      assert forall i :: 1 <= i < |rs| ==> rs[i] == rs[1..][i - 1];
      if k.Some? then Some(k.value + 1) else None
  }

  function UpsertOne(rs: Receipts, next: Receipt): Receipts {
    var k := FindRef(rs, next.ref);
    if k.Some? then rs[k.value := next] else [next] + rs
  }

  function Upserted(rs: Receipts, nexts: Receipts): Receipts
    decreases |nexts|
  {
    if nexts == [] then rs else Upserted(UpsertOne(rs, nexts[0]), nexts[1..])
  }

  /** The map after the same receipts: later ones replace earlier ones. */
  function LatestWins(m: map<Text, Receipt>, nexts: Receipts): map<Text, Receipt>
    decreases |nexts|
  {
    if nexts == [] then m else LatestWins(m[nexts[0].ref := nexts[0]], nexts[1..])
  }

  lemma ReplacedDistinct(rs: Receipts, k: nat, next: Receipt)
    requires DistinctRefs(rs) && k < |rs| && rs[k].ref == next.ref
    ensures DistinctRefs(rs[k := next])
  {
  }

  /** Writing a receipt over the one with its ref. */
  lemma {:induction false} ReplaceAt(rs: Receipts, k: nat, next: Receipt)
    requires DistinctRefs(rs) && k < |rs| && rs[k].ref == next.ref
    ensures DistinctRefs(rs[k := next]) && AsMap(rs[k := next]) == AsMap(rs)[next.ref := next]
  {
    ReplacedDistinct(rs, k, next);
    var ws, first := rs[k := next], rs[0];
    AsMapHead(rs);
    AsMapHead(ws);
    if k == 0 {
      assert ws[1..] == rs[1..];
    } else {
      assert first.ref != next.ref;
      assert DistinctRefs(rs[1..]);
      hide AsMap, DistinctRefs;
      ReplaceAt(rs[1..], k - 1, next);
      assert ws[1..] == rs[1..][k - 1 := next];
      SetsCommute(AsMap(rs[1..]), first, next);
    }
  }

  lemma AsMapHead(rs: Receipts)
    requires rs != []
    ensures AsMap(rs) == AsMap(rs[1..])[rs[0].ref := rs[0]]
  {
  }

  lemma SetsCommute(m: map<Text, Receipt>, a: Receipt, b: Receipt)
    requires a.ref != b.ref
    ensures m[a.ref := a][b.ref := b] == m[b.ref := b][a.ref := a]
  {
  }

  lemma UpsertOneIsUpdate(rs: Receipts, next: Receipt)
    requires DistinctRefs(rs)
    ensures DistinctRefs(UpsertOne(rs, next)) && AsMap(UpsertOne(rs, next)) == AsMap(rs)[next.ref := next]
  {
    var k := FindRef(rs, next.ref);
    if k.Some? {
      ReplaceAt(rs, k.value, next);
    } else {
      assert ([next] + rs)[1..] == rs;
    }
  }

  lemma {:induction false} UpsertedIsLatest(rs: Receipts, nexts: Receipts)
    requires DistinctRefs(rs)
    ensures DistinctRefs(Upserted(rs, nexts)) && AsMap(Upserted(rs, nexts)) == LatestWins(AsMap(rs), nexts)
    decreases |nexts|
  {
    hide AsMap, UpsertOne;
    if nexts != [] {
      UpsertOneIsUpdate(rs, nexts[0]);
      UpsertedIsLatest(UpsertOne(rs, nexts[0]), nexts[1..]);
    }
  }

  lemma {:induction false} LatestKeeps(m: map<Text, Receipt>, nexts: Receipts)
    ensures m.Keys <= LatestWins(m, nexts).Keys
    decreases |nexts|
  {
    if nexts != [] {
      LatestKeeps(m[nexts[0].ref := nexts[0]], nexts[1..]);
    }
  }

  // ---------- the order of the list ----------

  function Refs(rs: Receipts): (refs: seq<Text>)
    ensures |refs| == |rs| && forall k :: 0 <= k < |rs| ==> refs[k] == rs[k].ref
  {
    if rs == [] then [] else [rs[0].ref] + Refs(rs[1..])
  }

  /** The refs among the receipts that are not known, each once, the latest to appear first. */
  function Newcomers(known: seq<Text>, nexts: Receipts): seq<Text>
    decreases |nexts|
  {
    if nexts == [] then []
    else if nexts[0].ref in known then Newcomers(known, nexts[1..])
    else Newcomers([nexts[0].ref] + known, nexts[1..]) + [nexts[0].ref]
  }

  lemma UpsertOneRefs(rs: Receipts, next: Receipt)
    ensures Refs(UpsertOne(rs, next)) == if next.ref in Refs(rs) then Refs(rs) else [next.ref] + Refs(rs)
  {
    var k := FindRef(rs, next.ref);
    if k.Some? {
      assert Refs(rs)[k.value] == next.ref;
      assert |Refs(rs[k.value := next])| == |Refs(rs)|;
      assert forall j :: 0 <= j < |rs| ==> Refs(rs[k.value := next])[j] == Refs(rs)[j];
    } else {
      assert ([next] + rs)[1..] == rs;
    }
    hide FindRef;
  }

  /** Receipts already there keep their places; new ones are put in front, so the latest stands first. */
  lemma {:induction false} UpsertedRefs(rs: Receipts, nexts: Receipts)
    ensures Refs(Upserted(rs, nexts)) == Newcomers(Refs(rs), nexts) + Refs(rs)
    decreases |nexts|
  {
    hide Refs, UpsertOne;
    if nexts == [] {
      assert [] + Refs(rs) == Refs(rs);
    } else {
      UpsertOneRefs(rs, nexts[0]);
      UpsertedRefs(UpsertOne(rs, nexts[0]), nexts[1..]);
      var ref := nexts[0].ref;
      if ref !in Refs(rs) {
        var more := Newcomers([ref] + Refs(rs), nexts[1..]);
        assert more + ([ref] + Refs(rs)) == more + [ref] + Refs(rs);
      }
    }
  }

  // ---------- verify ----------

  function FindRecorded(rs: Receipts): (k: Option<nat>)
    ensures k.Some? ==> k.value < |rs| && !rs[k.value].verified
    ensures k.None? ==> forall i :: 0 <= i < |rs| ==> rs[i].verified
  {
    if rs == [] then None
    else if !rs[0].verified then Some(0)
    else
      var k := FindRecorded(rs[1..]);
      assert forall i :: 1 <= i < |rs| ==> rs[i] == rs[1..][i - 1];
      if k.Some? then Some(k.value + 1) else None
  }

  /** stringValue */
  function StringValue(value: Option<Text>): Option<Text> {
    if value.Some? && Trim(value.value) != [] then Some(Trim(value.value)) else None
  }

  /** The index of the receipt that verify marks: the requested one, else the first unverified one, else the first. */
  function Selected(rs: Receipts, requested: Option<Text>): (k: Option<nat>)
    ensures k.Some? ==> k.value < |rs|
  {
    if requested.Some? then FindRef(rs, requested.value)
    else if FindRecorded(rs).Some? then FindRecorded(rs)
    else if rs != [] then Some(0)
    else None
  }

  /** The first receipt with the property, if there is one. */
  ghost predicate FirstWith(rs: Receipts, property: Receipt -> bool, k: Option<nat>) {
    match k
    case Some(i) => i < |rs| && property(rs[i]) && forall j :: 0 <= j < i ==> !property(rs[j])
    case None => forall j :: 0 <= j < |rs| ==> !property(rs[j])
  }

  lemma {:induction false} FindRefIsFirst(rs: Receipts, ref: Text)
    ensures FirstWith(rs, (r: Receipt) => r.ref == ref, FindRef(rs, ref))
  {
    if rs != [] && rs[0].ref != ref {
      FindRefIsFirst(rs[1..], ref);
      assert forall i :: 1 <= i < |rs| ==> rs[i] == rs[1..][i - 1];
    }
  }

  lemma {:induction false} FindRecordedIsFirst(rs: Receipts)
    ensures FirstWith(rs, (r: Receipt) => !r.verified, FindRecorded(rs))
  {
    if rs != [] && rs[0].verified {
      FindRecordedIsFirst(rs[1..]);
      assert forall i :: 1 <= i < |rs| ==> rs[i] == rs[1..][i - 1];
    }
  }

  /**
    With a ref, verify marks the first receipt of that ref or none; without one, the first that is
    not verified, the newest first, and the very first when all are verified.
    */
  lemma SelectedExactly(rs: Receipts, requested: Option<Text>)
    ensures requested.Some? ==> FirstWith(rs, (r: Receipt) => r.ref == requested.value, Selected(rs, requested))
    ensures requested.None? && (exists i :: 0 <= i < |rs| && !rs[i].verified) ==>
              Selected(rs, requested).Some? && FirstWith(rs, (r: Receipt) => !r.verified, Selected(rs, requested))
    ensures requested.None? && (forall i :: 0 <= i < |rs| ==> rs[i].verified) ==>
              Selected(rs, requested) == if rs == [] then None else Some(0)
  {
    if requested.Some? {
      FindRefIsFirst(rs, requested.value);
    } else {
      FindRecordedIsFirst(rs);
    }
  }

  function Verified(rs: Receipts, requested: Option<Text>): Receipts {
    var k := Selected(rs, requested);
    if k.Some? then rs[k.value := rs[k.value].(verified := true)] else rs
  }

  function Unverified(rs: Receipts): nat {
    if rs == [] then 0 else (if rs[0].verified then 0 else 1) + Unverified(rs[1..])
  }

  lemma {:induction false} UnverifiedAfter(rs: Receipts, k: nat)
    requires k < |rs|
    ensures Unverified(rs[k := rs[k].(verified := true)]) == Unverified(rs) - if rs[k].verified then 0 else 1
  {
    var ws := rs[k := rs[k].(verified := true)];
    if k == 0 {
      assert ws[1..] == rs[1..];
    } else {
      assert ws[1..] == rs[1..][k - 1 := rs[1..][k - 1].(verified := true)];
      UnverifiedAfter(rs[1..], k - 1);
    }
  }

  lemma {:induction false} NoneUnverified(rs: Receipts)
    ensures Unverified(rs) == 0 <==> forall i :: 0 <= i < |rs| ==> rs[i].verified
  {
    if rs != [] {
      NoneUnverified(rs[1..]);
      assert forall i :: 1 <= i < |rs| ==> rs[i] == rs[1..][i - 1];
      assert forall i :: 0 <= i < |rs[1..]| ==> rs[1..][i] == rs[i + 1];
    }
  }

  function VerifyTimes(rs: Receipts, n: nat): Receipts
    decreases n
  {
    if n == 0 then rs else VerifyTimes(Verified(rs, None), n - 1)
  }

  /** Each call without a ref verifies one more receipt while any is left; as many calls as there are leave all verified. */
  lemma {:induction false} VerifyingEnds(rs: Receipts, n: nat)
    ensures Unverified(VerifyTimes(rs, n)) == if n <= Unverified(rs) then Unverified(rs) - n else 0
    ensures n >= Unverified(rs) ==> forall i :: 0 <= i < |VerifyTimes(rs, n)| ==> VerifyTimes(rs, n)[i].verified
    decreases n
  {
    NoneUnverified(rs);
    if n > 0 {
      var k := Selected(rs, None);
      if k.Some? {
        UnverifiedAfter(rs, k.value);
      }
      VerifyingEnds(Verified(rs, None), n - 1);
    }
  }

  // ---------- whole runs ----------

  datatype Op = Record(receipts: Receipts) | Verify(ref: Option<Text>)

  function Step(rs: Receipts, op: Op): Receipts {
    match op
    case Record(receipts) => Upserted(rs, receipts)
    case Verify(ref) => Verified(rs, StringValue(ref))
  }

  /** What an operation may do to a plain map. Verifying without a ref may choose among the unverified. */
  ghost predicate MapStep(m: map<Text, Receipt>, op: Op, m': map<Text, Receipt>) {
    match op
    case Record(receipts) => m' == LatestWins(m, receipts)
    case Verify(given) =>
      var requested := StringValue(given);
      if requested.Some? then m' == if requested.value in m then Marked(m, requested.value) else m
      else if exists ref :: ref in m && !m[ref].verified then exists ref :: ref in m && !m[ref].verified && m' == Marked(m, ref)
      else m' == m
  }

  function Marked(m: map<Text, Receipt>, ref: Text): map<Text, Receipt>
    requires ref in m
  {
    m[ref := m[ref].(verified := true)]
  }

  /** One operation keeps refs distinct, loses none, and is a step of the map. */
  lemma StepAgrees(rs: Receipts, op: Op)
    requires DistinctRefs(rs)
    ensures DistinctRefs(Step(rs, op))
    ensures AsMap(rs).Keys <= AsMap(Step(rs, op)).Keys
    ensures MapStep(AsMap(rs), op, AsMap(Step(rs, op)))
  {
    match op
    case Record(receipts) =>
      UpsertedIsLatest(rs, receipts);
      LatestKeeps(AsMap(rs), receipts);
    case Verify(given) =>
      VerifiedAgrees(rs, StringValue(given));
  }

  lemma VerifiedAgrees(rs: Receipts, requested: Option<Text>)
    requires DistinctRefs(rs)
    ensures var ws := Verified(rs, requested);
            var m, m' := AsMap(rs), AsMap(ws);
            && DistinctRefs(ws) && m'.Keys == m.Keys
            && (requested.Some? ==> m' == if requested.value in m then Marked(m, requested.value) else m)
            && (requested.None? ==>
                  if exists ref :: ref in m && !m[ref].verified then exists ref :: ref in m && !m[ref].verified && m' == Marked(m, ref)
                  else m' == m)
  {
    var m, k := AsMap(rs), Selected(rs, requested);
    forall i | 0 <= i < |rs| {
      AsMapAt(rs, i);
    }
    hide AsMap;
    if k.Some? {
      var next := rs[k.value].(verified := true);
      ReplaceAt(rs, k.value, next);
      assert AsMap(Verified(rs, requested)) == Marked(m, next.ref);
      if requested.None? && FindRecorded(rs).None? {
        assert Marked(m, next.ref) == m;
      }
    }
  }

  ghost predicate IsRun(states: seq<Receipts>, ops: seq<Op>) {
    |states| == |ops| + 1 && forall k {:trigger ops[k]} :: 0 <= k < |ops| ==> states[k + 1] == Step(states[k], ops[k])
  }

  /** From a ledger with distinct refs, every run keeps them distinct, loses none and follows the latest-wins map. */
  lemma {:induction false} EveryRunAgrees(states: seq<Receipts>, ops: seq<Op>, k: nat)
    requires IsRun(states, ops) && DistinctRefs(states[0]) && k < |states|
    ensures DistinctRefs(states[k]) && AsMap(states[0]).Keys <= AsMap(states[k]).Keys
    ensures k < |ops| ==> MapStep(AsMap(states[k]), ops[k], AsMap(states[k + 1]))
  {
    hide AsMap, Step, MapStep, DistinctRefs;
    if k > 0 {
      EveryRunAgrees(states, ops, k - 1);
      assert states[(k - 1) + 1] == Step(states[k - 1], ops[k - 1]);
      StepAgrees(states[k - 1], ops[k - 1]);
    }
    if k < |ops| {
      StepAgrees(states[k], ops[k]);
    }
  }

  // ---------- the adapter ----------

  datatype Outcome = Blocked | Marking(ref: Text, writesPerformed: bool)

  /** The ledger file, as an object: record and verify read it, change the list in place and write it back. */
  class JsonReceiptLedger {
    var receipts: Receipts

    constructor (rs: Receipts)
      ensures receipts == rs
    {
      receipts := rs;
    }

    /** upsertJsonReceipts */
    method Upsert(nexts: Receipts)
      modifies this
      ensures receipts == Upserted(old(receipts), nexts)
    {
      hide FindRef;
      var i := 0;
      assert nexts[0..] == nexts;
      while i < |nexts|
        invariant 0 <= i <= |nexts|
        invariant Upserted(receipts, nexts[i..]) == Upserted(old(receipts), nexts)
      {
        var next := nexts[i];
        assert nexts[i..][1..] == nexts[i + 1..];
        var existing := FindRef(receipts, next.ref);
        if existing.Some? {
          receipts := receipts[existing.value := next];
        } else {
          receipts := [next] + receipts;
        }
        i := i + 1;
      }
    }

    /** record, given the receipts of the eligible inputs. */
    method Record(eligible: Receipts) returns (count: nat)
      modifies this
      ensures receipts == Step(old(receipts), Op.Record(eligible)) && count == |eligible|
    {
      if |eligible| == 0 {
        return 0;
      }
      Upsert(eligible);
      return |eligible|;
    }

    method Verify(ref: Option<Text>) returns (outcome: Outcome)
      modifies this
      ensures receipts == Step(old(receipts), Op.Verify(ref))
      ensures outcome.Blocked? <==> Selected(old(receipts), StringValue(ref)).None?
      ensures outcome.Marking? ==> (outcome.writesPerformed <==> receipts != old(receipts))
      ensures outcome.Marking? ==>
                exists k: nat :: k < |receipts| && receipts[k].verified && receipts[k].ref == outcome.ref
                            && receipts == old(receipts)[k := receipts[k]] && Some(k) == Selected(old(receipts), StringValue(ref))
      ensures outcome.Marking? && StringValue(ref).Some? ==> outcome.ref == StringValue(ref).value
    {
      var requested := StringValue(ref);
      var k := Selected(receipts, requested);
      if k.None? {
        return Blocked;
      }
      var current := receipts[k.value];
      receipts := receipts[k.value := current.(verified := true)];
      assert current.verified ==> receipts == old(receipts);
      assert !current.verified ==> receipts[k.value] != old(receipts)[k.value];
      return Marking(current.ref, !current.verified);
    }
  }
}
