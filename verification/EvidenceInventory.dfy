/** The reconciliation inventory and the observability summary made of it: producer and consumer agree on every count. */
module EvidenceInventory {
  import opened Wrappers
  import opened Lists
  import opened OwnerEvidence

  /** An item as it comes in: None where a field is missing or of another type. */
  datatype Raw = Raw(
    receiptRef: Option<string>, shape: Option<string>, stageId: Option<string>, sourceRef: Option<string>, status: Option<string>,
    ledgerMatches: Option<bool>, blocker: Option<bool>, refs: seq<Option<string>>, hasAuthority: bool)

  datatype Item = Item(
    receiptRef: string, shape: string, stageId: string, sourceRef: string, status: string,
    ledgerMatches: bool, blocker: bool, refs: seq<string>)

  /** The fields of an item that both sides require. */
  function Normalized(raw: Raw): Result<Item, Invalid> {
    var refs := StringListOf(raw.refs);
    if Text(raw.receiptRef).Failure? || Text(raw.shape).Failure? || Text(raw.stageId).Failure? || Text(raw.sourceRef).Failure?
       || Text(raw.status).Failure? || raw.ledgerMatches.None? || raw.blocker.None? || refs.Failure? || !raw.hasAuthority then Failure(Invalid)
    else Success(Item(Text(raw.receiptRef).value, Text(raw.shape).value, Text(raw.stageId).value, Text(raw.sourceRef).value,
                      Text(raw.status).value, raw.ledgerMatches.value, raw.blocker.value, refs.value))
  }

  function Given(texts: seq<string>): (r: seq<Option<string>>)
    ensures |r| == |texts| && forall k :: 0 <= k < |r| ==> r[k] == Some(texts[k])
  {
    if texts == [] then [] else Given(texts[..|texts| - 1]) + [Some(texts[|texts| - 1])]
  }

  /** A normalized item, read again. */
  function AsRaw(i: Item): Raw {
    Raw(Some(i.receiptRef), Some(i.shape), Some(i.stageId), Some(i.sourceRef), Some(i.status),
        Some(i.ledgerMatches), Some(i.blocker), Given(i.refs), true)
  }

  lemma {:induction false} CleanTexts(xs: seq<Option<string>>)
    requires Texts(xs).Success?
    ensures forall t :: t in Texts(xs).value ==> Clean(t)
  {
    hide Text, Clean;
    if xs != [] {
      CleanTexts(xs[..|xs| - 1]);
      TextIsClean(xs[|xs| - 1]);
    }
  }

  lemma {:induction false} TextsOfGiven(texts: seq<string>)
    requires forall t :: t in texts ==> Clean(t)
    ensures Texts(Given(texts)) == Success(texts)
  {
    hide Text;
    if texts != [] {
      var front, last := texts[..|texts| - 1], texts[|texts| - 1];
      assert texts == front + [last];
      TextsOfGiven(front);
      assert Given(texts)[..|front|] == Given(front);
      assert last in texts && Clean(last);
      assert Text(Given(texts)[|front|]) == Success(last);
    }
  }

  lemma {:induction false} DedupeOfDistinct(xs: seq<string>)
    requires Distinct(xs)
    ensures Dedupe(xs) == xs
  {
    if xs != [] {
      var front := xs[..|xs| - 1];
      assert xs == front + [xs[|xs| - 1]];
      DedupeOfDistinct(front);
    }
  }

  /** Normalizing is idempotent: what the producer writes, the consumer reads back unchanged. */
  lemma NormalizedAgain(raw: Raw)
    requires Normalized(raw).Success?
    ensures Normalized(AsRaw(Normalized(raw).value)) == Normalized(raw)
  {
    TextIsClean(raw.receiptRef);
    TextIsClean(raw.shape);
    TextIsClean(raw.stageId);
    TextIsClean(raw.sourceRef);
    TextIsClean(raw.status);
    CleanTexts(raw.refs);
    var refs := StringListOf(raw.refs).value;
    TextsOfGiven(refs);
    DedupeOfDistinct(refs);
    hide Text, Texts, Dedupe;
  }

  // ---------- what a summary should say ----------

  datatype Summary = Summary(
    itemCount: nat, byShape: map<string, nat>, byStatus: map<string, nat>, blockerCount: nat, refCount: nat)

  function Shapes(items: seq<Item>): (r: seq<string>)
    ensures |r| == |items| && forall k :: 0 <= k < |r| ==> r[k] == items[k].shape
  {
    if items == [] then [] else [items[0].shape] + Shapes(items[1..])
  }

  function Statuses(items: seq<Item>): (r: seq<string>)
    ensures |r| == |items| && forall k :: 0 <= k < |r| ==> r[k] == items[k].status
  {
    if items == [] then [] else [items[0].status] + Statuses(items[1..])
  }

  function BlockerRefs(items: seq<Item>): seq<string> {
    if items == [] then []
    else BlockerRefs(items[..|items| - 1]) + (if items[|items| - 1].blocker then [items[|items| - 1].receiptRef] else [])
  }

  function AllRefs(items: seq<Item>): seq<string> {
    if items == [] then [] else AllRefs(items[..|items| - 1]) + items[|items| - 1].refs
  }

  /** The counts of the items, as the consumer takes them. */
  function CountsOfItems(items: seq<Item>): Summary {
    Summary(|items|, CountBy(Shapes(items)), CountBy(Statuses(items)), |BlockerRefs(items)|, |Dedupe(AllRefs(items))|)
  }

  /** In every such summary the shape counts and the status counts each sum to the item count. */
  lemma CountsSum(items: seq<Item>)
    ensures Total(CountsOfItems(items).byShape) == |items| && Total(CountsOfItems(items).byStatus) == |items|
  {
    hide CountBy, Total;
  }

  // ---------- the producer ----------

  /** What of a profile both sides look at. */
  datatype Profile = Profile(surfaceKind: Option<string>, domainId: Option<string>, shapes: seq<Option<string>>, statuses: seq<Option<string>>)

  datatype Inventory = Inventory(
    surfaceKind: Option<string>, owner: Option<string>, target: Option<string>, claimsSoak: Option<bool>,
    items: seq<Raw>, summary: Summary, closeoutCount: int)

  function AsRaws(items: seq<Item>): (r: seq<Raw>)
    ensures |r| == |items| && forall k :: 0 <= k < |r| ==> r[k] == AsRaw(items[k])
  {
    if items == [] then [] else AsRaws(items[..|items| - 1]) + [AsRaw(items[|items| - 1])]
  }

  function NormalizeAll(raws: seq<Raw>): Result<seq<Item>, Invalid> {
    if raws == [] then Success([])
    else
      var front, last := NormalizeAll(raws[..|raws| - 1]), Normalized(raws[|raws| - 1]);
      if front.Failure? || last.Failure? then Failure(Invalid) else Success(front.value + [last.value])
  }

  ghost predicate DistinctRefs(items: seq<Item>) {
    forall i, j :: 0 <= i < j < |items| ==> items[i].receiptRef != items[j].receiptRef
  }

  /** What an accepted list of proofs is. */
  ghost predicate Acceptable(proofs: seq<Raw>) {
    proofs != [] && NormalizeAll(proofs).Success? && DistinctRefs(NormalizeAll(proofs).value)
  }

  lemma {:induction false} NormalizeAllAt(raws: seq<Raw>, k: nat)
    requires k < |raws|
    ensures Normalized(raws[k]).Failure? ==> NormalizeAll(raws).Failure?
    ensures NormalizeAll(raws).Success? ==> |NormalizeAll(raws).value| == |raws| && Normalized(raws[k]) == Success(NormalizeAll(raws).value[k])
  {
    hide Normalized;
    var front := raws[..|raws| - 1];
    if k < |front| {
      assert front[k] == raws[k];
      NormalizeAllAt(front, k);
    } else if front != [] {
      NormalizeAllAt(front, 0);
    }
  }

  /** The loop over proofs. */
  method CollectItems(proofs: seq<Raw>) returns (r: Result<seq<Item>, Invalid>)
    requires proofs != []
    ensures r.Success? <==> Acceptable(proofs)
    ensures r.Success? ==> r.value == NormalizeAll(proofs).value
  {
    hide Normalized;
    var items: seq<Item>, seen: set<string> := [], {};
    var i := 0;
    assert proofs[..0] == [];
    while i < |proofs|
      invariant 0 <= i <= |proofs| && NormalizeAll(proofs[..i]) == Success(items) && |items| == i
      invariant DistinctRefs(items)
      invariant forall ref :: ref in seen <==> exists k :: 0 <= k < |items| && items[k].receiptRef == ref
    {
      var item := Normalized(proofs[i]);
      NormalizeAllAt(proofs, i);
      assert proofs[..i + 1][..i] == proofs[..i];
      if item.Failure? {
        return Failure(Invalid);
      }
      if item.value.receiptRef in seen {
        ghost var k :| 0 <= k < |items| && items[k].receiptRef == item.value.receiptRef;
        assert proofs[..i][k] == proofs[k];
        NormalizeAllAt(proofs, k);
        NormalizeAllAt(proofs[..i], k);
        return Failure(Invalid);
      }
      seen := seen + {item.value.receiptRef};
      ghost var more := items + [item.value];
      assert more[|items|] == item.value && forall k :: 0 <= k < |items| ==> more[k] == items[k];
      items := items + [item.value];
      i := i + 1;
    }
    assert proofs[..i] == proofs;
    return Success(items);
  }

  /** len of the set of all references, which is how the producer counts them. */
  function RefSet(items: seq<Item>): set<string> {
    set i, ref | 0 <= i < |items| && ref in items[i].refs :: ref
  }

  lemma {:induction false} AllRefsMembers(items: seq<Item>, ref: string)
    ensures ref in AllRefs(items) <==> exists i :: 0 <= i < |items| && ref in items[i].refs
  {
    if items != [] {
      var front, last := items[..|items| - 1], items[|items| - 1];
      assert items == front + [last];
      AllRefsMembers(front, ref);
      if ref in AllRefs(front) {
        var i :| 0 <= i < |front| && ref in front[i].refs;
        assert items[i] == front[i];
      }
      assert forall i :: 0 <= i < |front| ==> items[i] == front[i];
    }
  }

  lemma {:induction false} DistinctSize(xs: seq<string>, s: set<string>)
    requires Distinct(xs) && forall x :: x in xs <==> x in s
    ensures |xs| == |s|
  {
    if xs == [] {
      assert s == {};
    } else {
      assert xs == [xs[0]] + xs[1..] && xs[0] !in xs[1..];
      DistinctSize(xs[1..], s - {xs[0]});
    }
  }

  /** Counting the set of references and counting the ordered list without repetitions give one number. */
  lemma RefSetSize(items: seq<Item>)
    ensures |RefSet(items)| == |Dedupe(AllRefs(items))|
  {
    forall ref {
      AllRefsMembers(items, ref);
    }
    hide AllRefs;
    DistinctSize(Dedupe(AllRefs(items)), RefSet(items));
  }

  function CountBlockers(items: seq<Item>): nat {
    if items == [] then 0 else CountBlockers(items[..|items| - 1]) + if items[|items| - 1].blocker then 1 else 0
  }

  lemma {:induction false} BlockersCounted(items: seq<Item>)
    ensures CountBlockers(items) == |BlockerRefs(items)|
  {
    if items != [] {
      BlockersCounted(items[..|items| - 1]);
    }
  }

  ghost predicate Producible(profile: Profile, proofs: seq<Raw>, closeoutCount: int) {
    Acceptable(proofs) && Text(profile.surfaceKind).Success? && Text(profile.domainId).Success? && closeoutCount >= 0
  }

  /** The inventory of acceptable proofs. */
  ghost function Produced(profile: Profile, proofs: seq<Raw>, closeoutCount: int): Inventory
    requires Producible(profile, proofs, closeoutCount)
  {
    var items, domain := NormalizeAll(proofs).value, Some(Text(profile.domainId).value);
    Inventory(Some(Text(profile.surfaceKind).value), domain, domain, Some(false), AsRaws(items), CountsOfItems(items), closeoutCount)
  }

  /** build_owner_evidence_reconciliation_inventory: its summary is the counts of its items. */
  method BuildInventory(profile: Profile, proofs: seq<Raw>, closeoutCount: int) returns (r: Result<Inventory, Invalid>)
    ensures r.Success? <==> Producible(profile, proofs, closeoutCount)
    ensures r.Success? ==> r.value == Produced(profile, proofs, closeoutCount)
  {
    hide Text, NormalizeAll, CountBy, AsRaws, DistinctRefs;
    if proofs == [] {
      return Failure(Invalid);
    }
    var collected := CollectItems(proofs);
    if collected.Failure? {
      return Failure(Invalid);
    }
    var items := collected.value;
    var domain := Text(profile.domainId);
    if domain.Failure? {
      return Failure(Invalid);
    }
    var byShape := CountKeys(Shapes(items));
    var byStatus := CountKeys(Statuses(items));
    RefSetSize(items);
    BlockersCounted(items);
    var kind := Text(profile.surfaceKind);
    if kind.Failure? || closeoutCount < 0 {
      return Failure(Invalid);
    }
    var summary := Summary(|items|, byShape, byStatus, CountBlockers(items), |RefSet(items)|);
    return Success(Inventory(Some(kind.value), Some(domain.value), Some(domain.value), Some(false), AsRaws(items), summary, closeoutCount));
  }

  // ---------- the consumer ----------

  /** set(_string_list(...)) */
  predicate Allowed(list: seq<Option<string>>, value: string) {
    StringListOf(list).Success? && value in StringListOf(list).value
  }

  /** The items of an inventory are readable under a profile. */
  ghost predicate ItemsOk(profile: Profile, raws: seq<Raw>) {
    && raws != [] && NormalizeAll(raws).Success?
    && forall k :: 0 <= k < |NormalizeAll(raws).value| ==> ItemAllowed(profile, NormalizeAll(raws).value[k])
  }

  predicate ItemAllowed(profile: Profile, item: Item) {
    Allowed(profile.shapes, item.shape) && Allowed(profile.statuses, item.status)
  }

  /** What the consumer accepts: the right inventory, whose summary says exactly what its items say. */
  ghost predicate Consistent(profile: Profile, v: Inventory) {
    && Text(profile.domainId).Success? && Text(profile.surfaceKind).Success?
    && v.surfaceKind == Some(Text(profile.surfaceKind).value)
    && v.owner == Some(Text(profile.domainId).value) && v.target == Some(Text(profile.domainId).value)
    && v.claimsSoak == Some(false)
    && StringListOf(profile.shapes).Success? && StringListOf(profile.statuses).Success?
    && ItemsOk(profile, v.items)
    && v.summary == CountsOfItems(NormalizeAll(v.items).value)
    && v.closeoutCount >= 0
  }

  datatype Observation = Observation(itemCount: nat, blockerRefs: seq<string>, noRegressionRefs: seq<string>, counts: Summary)

  method ReadItems(profile: Profile, raws: seq<Raw>) returns (r: Result<seq<Item>, Invalid>)
    requires raws != []
    ensures r.Success? <==> ItemsOk(profile, raws)
    ensures r.Success? ==> r.value == NormalizeAll(raws).value
  {
    hide Normalized, ItemAllowed;
    var items: seq<Item> := [];
    var i := 0;
    assert raws[..0] == [];
    while i < |raws|
      invariant 0 <= i <= |raws| && NormalizeAll(raws[..i]) == Success(items) && |items| == i
      invariant forall k :: 0 <= k < i ==> ItemAllowed(profile, items[k])
    {
      var item := Normalized(raws[i]);
      NormalizeAllAt(raws, i);
      assert raws[..i + 1][..i] == raws[..i];
      if item.Failure? || !ItemAllowed(profile, item.value) {
        return Failure(Invalid);
      }
      items := items + [item.value];
      i := i + 1;
    }
    assert raws[..i] == raws;
    return Success(items);
  }

  lemma DedupeStep(xs: seq<string>, x: string)
    ensures Dedupe(xs + [x]) == if x in Dedupe(xs) then Dedupe(xs) else Dedupe(xs) + [x]
  {
    assert (xs + [x])[..|xs|] == xs;
  }

  lemma AllRefsStep(items: seq<Item>, i: nat)
    requires i < |items|
    ensures AllRefs(items[..i + 1]) == AllRefs(items[..i]) + items[i].refs
  {
    assert items[..i + 1][..i] == items[..i];
  }

  /** The inner loop: one item's references, each kept if it is new. */
  method KeepNew(kept: seq<string>, ghost before: seq<string>, own: seq<string>) returns (refs: seq<string>)
    requires kept == Dedupe(before)
    ensures refs == Dedupe(before + own)
  {
    hide Dedupe;
    refs := kept;
    var k := 0;
    assert before + own[..0] == before;
    while k < |own|
      invariant 0 <= k <= |own| && refs == Dedupe(before + own[..k])
    {
      assert before + own[..k + 1] == before + own[..k] + [own[k]];
      DedupeStep(before + own[..k], own[k]);
      if own[k] !in refs {
        refs := refs + [own[k]];
      }
      k := k + 1;
    }
    assert own[..k] == own;
  }

  /** The loops that keep each reference once, in order. */
  method CollectRefs(items: seq<Item>) returns (refs: seq<string>)
    ensures refs == Dedupe(AllRefs(items))
  {
    hide AllRefs, Dedupe;
    refs := [];
    var i := 0;
    NoRefs(items);
    while i < |items|
      invariant 0 <= i <= |items| && refs == Dedupe(AllRefs(items[..i]))
    {
      AllRefsStep(items, i);
      refs := KeepNew(refs, AllRefs(items[..i]), items[i].refs);
      i := i + 1;
    }
    assert items[..i] == items;
  }

  lemma NoRefs(items: seq<Item>)
    ensures Dedupe(AllRefs(items[..0])) == []
  {
  }

  /** build_owner_evidence_observability_summary: accepted exactly when the inventory is consistent. */
  method BuildSummary(profile: Profile, v: Inventory) returns (r: Result<Observation, Invalid>)
    ensures r.Success? <==> Consistent(profile, v)
    ensures r.Success? ==>
              var items := NormalizeAll(v.items).value;
              r.value == Observation(|items|, BlockerRefs(items), Dedupe(AllRefs(items)), CountsOfItems(items))
  {
    hide Text, NormalizeAll, CountBy, ItemAllowed;
    var domain := Text(profile.domainId);
    var kind := Text(profile.surfaceKind);
    if domain.Failure? || kind.Failure? || v.surfaceKind != Some(kind.value) {
      return Failure(Invalid);
    }
    if v.owner != Some(domain.value) || v.target != Some(domain.value) || v.claimsSoak != Some(false) {
      return Failure(Invalid);
    }
    var shapes := StringList(profile.shapes);
    var statuses := StringList(profile.statuses);
    if shapes.Failure? || statuses.Failure? || v.items == [] {
      return Failure(Invalid);
    }
    var read := ReadItems(profile, v.items);
    if read.Failure? {
      return Failure(Invalid);
    }
    var items := read.value;
    var byShape := CountKeys(Shapes(items));
    var byStatus := CountKeys(Statuses(items));
    var blockers := BlockerRefs(items);
    var refs := CollectRefs(items);
    var expected := Summary(|items|, byShape, byStatus, |blockers|, |refs|);
    if v.summary != expected || v.closeoutCount < 0 {
      return Failure(Invalid);
    }
    return Success(Observation(|items|, blockers, refs, expected));
  }

  // ---------- producer and consumer ----------

  lemma {:induction false} AsRawsNormalize(raws: seq<Raw>)
    requires NormalizeAll(raws).Success?
    ensures NormalizeAll(AsRaws(NormalizeAll(raws).value)) == Success(NormalizeAll(raws).value)
  {
    hide Normalized;
    if raws != [] {
      var front, items := raws[..|raws| - 1], NormalizeAll(raws).value;
      AsRawsNormalize(front);
      NormalizedAgain(raws[|raws| - 1]);
      assert items[..|items| - 1] == NormalizeAll(front).value;
      assert AsRaws(items)[..|items| - 1] == AsRaws(items[..|items| - 1]);
    }
  }

  /** A profile matches a list of proofs when it allows their shapes and statuses. */
  ghost predicate Matches(profile: Profile, proofs: seq<Raw>) {
    && StringListOf(profile.shapes).Success? && StringListOf(profile.statuses).Success? && NormalizeAll(proofs).Success?
    && forall k :: 0 <= k < |NormalizeAll(proofs).value| ==> ItemAllowed(profile, NormalizeAll(proofs).value[k])
  }

  /**
    Every inventory the producer builds passes every check of the consumer exactly when the
    profile allows the shapes and statuses of the proofs.
    */
  lemma ProducerAndConsumerAgree(profile: Profile, proofs: seq<Raw>, closeoutCount: int)
    requires Producible(profile, proofs, closeoutCount)
    ensures Consistent(profile, Produced(profile, proofs, closeoutCount)) <==> Matches(profile, proofs)
  {
    AsRawsNormalize(proofs);
    NormalizeAllAt(proofs, 0);
    hide Text, NormalizeAll, CountsOfItems, ItemAllowed, DistinctRefs, StringListOf;
  }
}
