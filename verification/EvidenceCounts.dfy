/** What texts, lists and counts of owner evidence are, stated over their elements; and which inventories are refused. */
module EvidenceCounts {
  import opened Wrappers
  import opened Lists
  import opened PyText
  import opened OwnerEvidence
  import opened EvidenceInventory

  // ---------- texts ----------

  /** White space around a text does not count; a text of nothing else, or no text at all, is refused. */
  lemma TextExactly(before: string, core: string, after: string)
    requires Blank(before) && Blank(after) && (core != [] ==> !IsSpace(core[0]) && !IsSpace(core[|core| - 1]))
    ensures Text(Some(before + core + after)) == if core == [] then Failure(Invalid) else Success(core)
    ensures Text(None) == Failure(Invalid)
  {
    if core == [] {
      assert before + core + after == before + after + "";
      StartsWithBlank(before + after, "");
    } else {
      assert before + core + after == before + (core + after);
      StartsWithBlank(before, core + after);
      EndsWithBlank(core, after);
    }
  }

  lemma {:induction false} StartsWithBlank(blank: string, t: string)
    requires Blank(blank)
    ensures StripStart(blank + t) == StripStart(t)
  {
    if blank == "" {
      assert blank + t == t;
    } else {
      assert (blank + t)[1..] == blank[1..] + t;
      StartsWithBlank(blank[1..], t);
    }
  }

  lemma {:induction false} EndsWithBlank(t: string, blank: string)
    requires Blank(blank)
    ensures StripEnd(t + blank) == StripEnd(t)
  {
    if blank == "" {
      assert t + blank == t;
    } else {
      var last := |blank| - 1;
      assert (t + blank)[..|t| + last] == t + blank[..last];
      EndsWithBlank(t, blank[..last]);
    }
  }

  // ---------- lists without repetitions ----------

  /** Each value once, where it first occurs: what the first i values give is the beginning of what all give. */
  lemma {:induction false} FirstOccurrences(xs: seq<string>, i: nat)
    requires i <= |xs|
    ensures Dedupe(xs[..i]) <= Dedupe(xs) && Distinct(Dedupe(xs)) && forall x :: x in Dedupe(xs[..i]) <==> x in xs[..i]
  {
    if i < |xs| {
      var front := xs[..|xs| - 1];
      FirstOccurrences(front, i);
      assert front[..i] == xs[..i];
    } else {
      assert xs[..i] == xs;
    }
  }

  /** An unreadable entry refuses the whole list; otherwise every entry's text is listed, once. */
  lemma {:induction false} StringListExactly(xs: seq<Option<string>>)
    ensures Texts(xs).Success? <==> forall i :: 0 <= i < |xs| ==> Text(xs[i]).Success?
    ensures Texts(xs).Success? ==> |Texts(xs).value| == |xs| && forall i :: 0 <= i < |xs| ==> Text(xs[i]) == Success(Texts(xs).value[i])
    ensures StringListOf(xs).Success? ==> StringListOf(xs).value == Dedupe(Texts(xs).value)
  {
    hide Text, Dedupe;
    if xs != [] {
      var front := xs[..|xs| - 1];
      StringListExactly(front);
      assert forall i :: 0 <= i < |front| ==> xs[i] == front[i];
    }
  }

  // ---------- counts ----------

  /** The positions at which a list holds the key. */
  function At(keys: seq<string>, key: string): set<nat> {
    set i: nat | i < |keys| && keys[i] == key
  }

  lemma {:induction false} OccurrencesExactly(keys: seq<string>, key: string)
    ensures Occurrences(keys, key) == |At(keys, key)|
  {
    if keys == [] {
      assert At(keys, key) == {};
    } else {
      var last := |keys| - 1;
      var front := keys[..last];
      OccurrencesExactly(front, key);
      assert At(keys, key) == if keys[last] == key then At(front, key) + {last} else At(front, key);
    }
  }

  lemma CountsExactly(keys: seq<string>, key: string)
    ensures key in CountBy(keys) <==> key in keys
    ensures key in keys ==> CountBy(keys)[key] == |At(keys, key)|
  {
    OccurrencesExactly(keys, key);
  }

  function WithShape(items: seq<Item>, shape: string): set<nat> {
    set i: nat | i < |items| && items[i].shape == shape
  }

  function WithStatus(items: seq<Item>, status: string): set<nat> {
    set i: nat | i < |items| && items[i].status == status
  }

  function Blocked(items: seq<Item>): set<nat> {
    set i: nat | i < |items| && items[i].blocker
  }

  /** The counts of a summary are the numbers of items of each kind, and of different references. */
  lemma SummaryExactly(items: seq<Item>, name: string)
    ensures var s := CountsOfItems(items);
            && s.itemCount == |items|
            && (name in s.byShape <==> WithShape(items, name) != {}) && (name in s.byShape ==> s.byShape[name] == |WithShape(items, name)|)
            && (name in s.byStatus <==> WithStatus(items, name) != {}) && (name in s.byStatus ==> s.byStatus[name] == |WithStatus(items, name)|)
            && s.blockerCount == |Blocked(items)|
            && s.refCount == |set i, ref | 0 <= i < |items| && ref in items[i].refs :: ref|
  {
    CountsExactly(Shapes(items), name);
    CountsExactly(Statuses(items), name);
    BlockersExactly(items);
    RefSetSize(items);
    hide CountBy, BlockerRefs, AllRefs;
    assert At(Shapes(items), name) == WithShape(items, name);
    assert At(Statuses(items), name) == WithStatus(items, name);
    KeyIsSomewhere(Shapes(items), name);
    KeyIsSomewhere(Statuses(items), name);
  }

  lemma KeyIsSomewhere(keys: seq<string>, key: string)
    ensures key in keys <==> At(keys, key) != {}
  {
    if key in keys {
      var i :| 0 <= i < |keys| && keys[i] == key;
      assert i in At(keys, key);
    }
  }

  lemma {:induction false} BlockersExactly(items: seq<Item>)
    ensures |BlockerRefs(items)| == |Blocked(items)|
  {
    if items == [] {
      assert Blocked(items) == {};
    } else {
      var last := |items| - 1;
      var front := items[..last];
      BlockersExactly(front);
      assert Blocked(items) == if items[last].blocker then Blocked(front) + {last} else Blocked(front);
    }
  }

  /** The references of the blocked items, and no others. */
  lemma {:induction false} BlockerRefsExactly(items: seq<Item>, ref: string)
    ensures ref in BlockerRefs(items) <==> exists i :: 0 <= i < |items| && items[i].blocker && items[i].receiptRef == ref
  {
    if items != [] {
      var last := |items| - 1;
      var front := items[..last];
      BlockerRefsExactly(front, ref);
      assert forall i :: 0 <= i < last ==> items[i] == front[i];
      assert ref in BlockerRefs(items) <==> ref in BlockerRefs(front) || (items[last].blocker && items[last].receiptRef == ref);
    }
  }

  /** In the order of the items. */
  lemma {:induction false} BlockersInOrder(items: seq<Item>, i: nat)
    requires i <= |items|
    ensures BlockerRefs(items[..i]) <= BlockerRefs(items)
  {
    if i < |items| {
      var front := items[..|items| - 1];
      BlockersInOrder(front, i);
      assert front[..i] == items[..i];
    } else {
      assert items[..i] == items;
    }
  }

  // ---------- items ----------

  /** An item is read field by field, each under its own name; one unreadable field refuses it. */
  lemma NormalizedExactly(raw: Raw)
    ensures Normalized(raw).Success? <==>
            && Text(raw.receiptRef).Success? && Text(raw.shape).Success? && Text(raw.stageId).Success? && Text(raw.sourceRef).Success?
            && Text(raw.status).Success? && raw.ledgerMatches.Some? && raw.blocker.Some? && raw.hasAuthority
            && forall i :: 0 <= i < |raw.refs| ==> Text(raw.refs[i]).Success?
    ensures Normalized(raw).Success? ==>
              var item := Normalized(raw).value;
              && Text(raw.receiptRef) == Success(item.receiptRef) && Text(raw.shape) == Success(item.shape)
              && Text(raw.stageId) == Success(item.stageId) && Text(raw.sourceRef) == Success(item.sourceRef)
              && Text(raw.status) == Success(item.status) && raw.ledgerMatches == Some(item.ledgerMatches)
              && raw.blocker == Some(item.blocker) && item.refs == Dedupe(Texts(raw.refs).value)
  {
    StringListExactly(raw.refs);
    hide Text, Texts, Dedupe;
  }

  lemma {:induction false} AllNormalizedExactly(raws: seq<Raw>)
    ensures NormalizeAll(raws).Success? <==> forall k :: 0 <= k < |raws| ==> Normalized(raws[k]).Success?
    ensures NormalizeAll(raws).Success? ==>
              && |NormalizeAll(raws).value| == |raws|
              && forall k :: 0 <= k < |raws| ==> Normalized(raws[k]) == Success(NormalizeAll(raws).value[k])
  {
    hide Normalized;
    if raws != [] {
      var front := raws[..|raws| - 1];
      AllNormalizedExactly(front);
      assert forall k :: 0 <= k < |front| ==> raws[k] == front[k];
    }
  }

  // ---------- inventories ----------

  /** One of a profile's texts. */
  ghost predicate Names(list: seq<Option<string>>, value: string) {
    exists i :: 0 <= i < |list| && Text(list[i]) == Success(value)
  }

  ghost predicate Readable(list: seq<Option<string>>) {
    forall i :: 0 <= i < |list| ==> Text(list[i]).Success?
  }

  lemma AllowedExactly(list: seq<Option<string>>, value: string)
    ensures Allowed(list, value) <==> Readable(list) && Names(list, value)
  {
    StringListExactly(list);
    hide Text, Dedupe;
    if Texts(list).Success? {
      var texts := Texts(list).value;
      if value in texts {
        var i :| 0 <= i < |texts| && texts[i] == value;
        assert Text(list[i]) == Success(value);
      }
      if Names(list, value) {
        var i :| 0 <= i < |list| && Text(list[i]) == Success(value);
        assert texts[i] == value;
      }
    }
  }

  /** Every item can be read, and its shape and status are among the profile's. */
  ghost predicate Welcome(profile: Profile, raws: seq<Raw>) {
    forall k :: 0 <= k < |raws| ==>
      Normalized(raws[k]).Success? && Names(profile.shapes, Normalized(raws[k]).value.shape) && Names(profile.statuses, Normalized(raws[k]).value.status)
  }

  lemma WelcomeExactly(profile: Profile, raws: seq<Raw>)
    requires Readable(profile.shapes) && Readable(profile.statuses)
    ensures ItemsOk(profile, raws) <==> raws != [] && Welcome(profile, raws)
  {
    AllNormalizedExactly(raws);
    hide Text, Normalized, NormalizeAll, Names, Readable, Allowed;
    if NormalizeAll(raws).Success? {
      var items := NormalizeAll(raws).value;
      forall k | 0 <= k < |raws|
        ensures ItemAllowed(profile, items[k]) <==> Names(profile.shapes, items[k].shape) && Names(profile.statuses, items[k].status)
      {
        AllowedExactly(profile.shapes, items[k].shape);
        AllowedExactly(profile.statuses, items[k].status);
      }
      hide ItemAllowed;
      assert forall k :: 0 <= k < |raws| ==> Normalized(raws[k]) == Success(items[k]);
    }
  }

  /**
    An inventory is accepted if and only if it is of the profile's kind and domain, claims no soak,
    has items, all of them welcome, counts them right, and has no negative number of closeouts.
    */
  lemma ConsistentExactly(profile: Profile, v: Inventory)
    ensures Consistent(profile, v) <==>
            && Text(profile.domainId).Success? && v.owner == v.target == Some(Text(profile.domainId).value)
            && Text(profile.surfaceKind).Success? && v.surfaceKind == Some(Text(profile.surfaceKind).value)
            && v.claimsSoak == Some(false) && v.closeoutCount >= 0
            && Readable(profile.shapes) && Readable(profile.statuses) && v.items != [] && Welcome(profile, v.items)
            && NormalizeAll(v.items).Success? && v.summary == CountsOfItems(NormalizeAll(v.items).value)
  {
    StringListExactly(profile.shapes);
    StringListExactly(profile.statuses);
    if Readable(profile.shapes) && Readable(profile.statuses) {
      WelcomeExactly(profile, v.items);
    }
    hide Text, NormalizeAll, Normalized, Welcome, CountsOfItems, Dedupe;
  }

  /** What is built names the profile's kind and domain, claims no soak, and holds items that read back as the proofs' own. */
  lemma ProducedExactly(profile: Profile, proofs: seq<Raw>, closeoutCount: int)
    requires Producible(profile, proofs, closeoutCount)
    ensures var v, items := Produced(profile, proofs, closeoutCount), NormalizeAll(proofs).value;
            && v.surfaceKind == Some(Text(profile.surfaceKind).value) && v.owner == v.target == Some(Text(profile.domainId).value)
            && v.claimsSoak == Some(false) && v.closeoutCount == closeoutCount && v.summary == CountsOfItems(items)
            && |v.items| == |proofs| && forall k :: 0 <= k < |proofs| ==> Normalized(v.items[k]) == Normalized(proofs[k])
  {
    AllNormalizedExactly(proofs);
    forall k | 0 <= k < |proofs|
      ensures Normalized(AsRaw(Normalized(proofs[k]).value)) == Normalized(proofs[k])
    {
      NormalizedAgain(proofs[k]);
    }
    hide Text, Normalized, NormalizeAll, CountsOfItems, DistinctRefs;
  }
}
