/** Which names of an agent are claimed, which resolve, and which entry a merged registry holds for an agent. */
module RegistryNames {
  import opened Wrappers
  import opened JsText
  import opened AgentRegistry

  // ---------- keys ----------

  predicate LowerOrDigit(c: Unit) {
    'a' as int <= c as int <= 'z' as int || '0' as int <= c as int <= '9' as int
  }

  predicate Upper(c: Unit) {
    'A' as int <= c as int <= 'Z' as int
  }

  /** Lower-case letters and digits are their own key, capitals have the key of their small letters, other ASCII units none. */
  lemma KeysOfUnits(a: Text, c: Unit, b: Text)
    requires c < 128
    ensures LowerOrDigit(c) ==> Key(a + [c] + b) == Key(a) + [c] + Key(b)
    ensures Upper(c) ==> Key(a + [c] + b) == Key(a) + [c + 32] + Key(b)
    ensures !LowerOrDigit(c) && !Upper(c) ==> Key(a + [c] + b) == Key(a + b)
  {
    KeyConcat(a, [c]);
    KeyConcat(a + [c], b);
    KeyConcat(a, b);
    KeyOfOne(c);
    hide Key;
    assert Key(a + [c] + b) == Key(a) + KeyUnits(c) + Key(b);
    assert Key(a) + [] == Key(a);
  }

  lemma KeyOfOne(c: Unit)
    ensures Key([c]) == KeyUnits(c)
  {
    assert [c][1..] == [];
  }

  /** A key is its own key, and is made of small letters and digits. */
  lemma {:induction false} KeyOfKey(t: Text)
    ensures Key(Key(t)) == Key(t) && forall i :: 0 <= i < |Key(t)| ==> LowerOrDigit(Key(t)[i])
  {
    if t != [] {
      KeyOfKey(t[1..]);
      var first := KeyUnits(t[0]);
      KeyConcat(first, Key(t[1..]));
      if first != [] {
        assert first == [first[0]] && first[1..] == [];
      }
    }
  }

  // ---------- the namespace ----------

  /** The agent goes by this name: every field that claims one. */
  ghost predicate GoesBy(e: Entry, name: Text) {
    || name == e.agentId || name == e.domainId || name == e.targetDomainId || name == e.project || name == e.moduleId
    || name == e.pluginName || name == e.canonicalPluginName || name in e.aliases || name in e.ownerAliases
  }

  lemma ClaimsExactly(e: Entry, name: Text)
    ensures name in Claims(e) <==> GoesBy(e, name)
  {
    var own := [e.agentId, e.domainId, e.targetDomainId, e.project, e.moduleId, e.pluginName, e.canonicalPluginName];
    assert own[0] in own && own[1] in own && own[2] in own && own[3] in own && own[4] in own && own[5] in own && own[6] in own;
    assert Claims(e) == own + e.aliases + e.ownerAliases;
  }

  /** Two different agents never go by names with one key, and no agent by the key of another's package. */
  ghost predicate NoSharedNames(packageIds: seq<Text>, entries: Entries) {
    && (forall p, q :: p in packageIds && q in packageIds && Key(p) == Key(q) ==> p == q)
    && (forall e, name :: e in entries && GoesBy(e, name) ==> OnlyPackage(packageIds, e, name))
    && (forall d, c, e, f :: d in entries && GoesBy(d, c) && e in entries && GoesBy(e, f) ==> Apart(d, c, e, f))
  }

  predicate Apart(d: Entry, c: Text, e: Entry, f: Text) {
    d.agentId != e.agentId ==> Key(c) != Key(f)
  }

  lemma UniqueExactly(packageIds: seq<Text>, entries: Entries)
    ensures NamespaceUnique(packageIds, entries) <==> NoSharedNames(packageIds, entries)
  {
    DistinctExactly(packageIds);
    forall e: Entry, name
      ensures name in Claims(e) <==> GoesBy(e, name)
      ensures OwnPackages(packageIds, e, name) <==> OnlyPackage(packageIds, e, name)
    {
      ClaimsExactly(e, name);
      OwnExactly(packageIds, e, name);
    }
    forall d: Entry, c, e: Entry, f
      ensures NoClash(d, c, e, f) <==> Apart(d, c, e, f)
    {
      hide Key;
    }
    hide Key, Claims, GoesBy, OwnPackages, OnlyPackage, PackagesDistinct, NoClash, Apart;
  }

  ghost predicate OnlyPackage(packageIds: seq<Text>, e: Entry, name: Text) {
    forall p :: p in packageIds && Key(p) == Key(name) ==> p == e.agentId
  }

  lemma DistinctExactly(packageIds: seq<Text>)
    ensures PackagesDistinct(packageIds) <==> forall p, q :: p in packageIds && q in packageIds && Key(p) == Key(q) ==> p == q
  {
    hide Key;
    if PackagesDistinct(packageIds) {
      forall p, q | p in packageIds && q in packageIds && Key(p) == Key(q)
        ensures p == q
      {
        var i :| 0 <= i < |packageIds| && packageIds[i] == p;
        var j :| 0 <= j < |packageIds| && packageIds[j] == q;
      }
    } else {
      var i, j :| 0 <= i < |packageIds| && 0 <= j < |packageIds| && Key(packageIds[i]) == Key(packageIds[j]) && packageIds[i] != packageIds[j];
      assert packageIds[i] in packageIds && packageIds[j] in packageIds;
    }
  }

  lemma OwnExactly(packageIds: seq<Text>, e: Entry, name: Text)
    ensures OwnPackages(packageIds, e, name) <==> OnlyPackage(packageIds, e, name)
  {
    hide Key;
  }

  // ---------- resolvers ----------

  /** The names resolveStandardAgent looks at: neither the module id nor the owner aliases. */
  ghost predicate Answers(e: Entry, value: Text) {
    || Key(e.agentId) == Key(value) || Key(e.domainId) == Key(value) || Key(e.targetDomainId) == Key(value) || Key(e.project) == Key(value)
    || Key(e.pluginName) == Key(value) || Key(e.canonicalPluginName) == Key(value)
    || exists a :: a in e.aliases && Key(a) == Key(value)
  }

  lemma AnswersExactly(e: Entry, value: Text)
    ensures ByAlias(value)(e) <==> Answers(e, value)
    ensures ByDomain(value)(e) <==> Key(e.domainId) == Key(value) || Key(e.targetDomainId) == Key(value)
    ensures ByOwner(value)(e) <==> exists a :: a in e.ownerAliases && Key(a) == Key(value)
  {
    var own := [e.agentId, e.domainId, e.targetDomainId, e.project, e.pluginName, e.canonicalPluginName];
    var domains := [e.domainId, e.targetDomainId];
    SomeKeyExactly(RegistryAliases(e), Key(value));
    SomeKeyExactly(own, Key(value));
    SomeKeyExactly(domains, Key(value));
    SomeKeyExactly(e.ownerAliases, Key(value));
    hide Key, SomeKey;
    assert own[0] in own && own[1] in own && own[2] in own && own[3] in own && own[4] in own && own[5] in own;
    assert domains[0] in domains && domains[1] in domains;
    assert RegistryAliases(e) == own + e.aliases;
    assert forall a :: a in RegistryAliases(e) <==> a in own || a in e.aliases;
  }

  lemma SomeKeyExactly(names: seq<Text>, key: Text)
    ensures SomeKey(names, key) <==> exists a :: a in names && Key(a) == key
  {
    hide Key;
    if i :| 0 <= i < |names| && Key(names[i]) == key {
      assert names[i] in names;
    }
    if a :| a in names && Key(a) == key {
      var i :| 0 <= i < |names| && names[i] == a;
    }
  }

  /** A resolver returns the first entry that answers, and nothing if and only if none does. */
  lemma {:induction false} FindsFirst(entries: Entries, matches: Entry -> bool)
    ensures var r := Find(entries, matches);
            if r.None? then forall i :: 0 <= i < |entries| ==> !matches(entries[i])
            else exists i :: 0 <= i < |entries| && entries[i] == r.value && matches(entries[i]) && forall j :: 0 <= j < i ==> !matches(entries[j])
  {
    if entries != [] && !matches(entries[0]) {
      FindsFirst(entries[1..], matches);
      var r, rest := Find(entries, matches), entries[1..];
      if r.Some? {
        var i :| 0 <= i < |rest| && rest[i] == r.value && matches(rest[i]) && forall j :: 0 <= j < i ==> !matches(rest[j]);
        assert entries[i + 1] == r.value && forall j :: 1 <= j < i + 1 ==> entries[j] == rest[j - 1];
      }
    }
  }

  // ---------- published and installed entries ----------

  function ByAgent(agentId: Text): Entry -> bool {
    (e: Entry) => e.agentId == agentId
  }

  lemma FindStep(first: Entry, rest: Entries, matches: Entry -> bool)
    ensures Find([first] + rest, matches) == if matches(first) then Some(first) else Find(rest, matches)
  {
    assert ([first] + rest)[1..] == rest;
  }

  lemma PutStep(entries: Entries, e: Entry)
    requires entries != []
    ensures Put(entries, e) == if entries[0].agentId == e.agentId then [e] + entries[1..] else [entries[0]] + Put(entries[1..], e)
  {
  }

  /** Under one agent id the last published entry counts. */
  lemma {:induction false} PutFinds(entries: Entries, e: Entry, agentId: Text)
    ensures Find(Put(entries, e), ByAgent(agentId)) == if agentId == e.agentId then Some(e) else Find(entries, ByAgent(agentId))
  {
    if entries == [] {
      FindStep(e, [], ByAgent(agentId));
      assert Put(entries, e) == [e] == [e] + [];
    } else {
      var first, rest := entries[0], entries[1..];
      assert entries == [first] + rest;
      PutStep(entries, e);
      PutFinds(rest, e, agentId);
      hide Put, Find;
      FindStep(first, rest, ByAgent(agentId));
      FindStep(e, rest, ByAgent(agentId));
      FindStep(first, Put(rest, e), ByAgent(agentId));
    }
  }

  /** It stands where the first one stood, and an agent that is new stands last. */
  lemma {:induction false} PutKeepsPlaces(entries: Entries, e: Entry)
    ensures HasAgent(entries, e.agentId) ==> |Put(entries, e)| == |entries|
    ensures !HasAgent(entries, e.agentId) ==> Put(entries, e) == entries + [e]
  {
    if entries != [] {
      PutStep(entries, e);
      if entries[0].agentId != e.agentId {
        var rest := entries[1..];
        PutKeepsPlaces(rest, e);
        hide Put;
        if i :| 0 <= i < |rest| && rest[i].agentId == e.agentId {
          assert entries[i + 1].agentId == e.agentId;
        }
        if i :| 0 <= i < |entries| && entries[i].agentId == e.agentId {
          assert rest[i - 1].agentId == e.agentId;
        }
        assert entries + [e] == [entries[0]] + (rest + [e]);
      }
    }
  }

  lemma PublishedFinds(published: Entries, e: Entry, agentId: Text)
    ensures Find(Keyed(published + [e]), ByAgent(agentId))
            == if agentId == e.agentId then Some(e) else Find(Keyed(published), ByAgent(agentId))
  {
    assert (published + [e])[..|published|] == published;
    PutFinds(Keyed(published), e, agentId);
  }

  lemma HasAgentExactly(entries: Entries, agentId: Text)
    ensures HasAgent(entries, agentId) <==> Find(entries, ByAgent(agentId)).Some?
  {
    FindsFirst(entries, ByAgent(agentId));
    hide Find;
  }

  /** An installed entry counts only for an agent that is not published, and then the first one does. */
  lemma {:induction false} MergedFindsAgent(entries: Entries, installed: Entries, agentId: Text)
    ensures entries <= Merged(entries, installed)
    ensures Find(Merged(entries, installed), ByAgent(agentId))
            == if Find(entries, ByAgent(agentId)).Some? then Find(entries, ByAgent(agentId)) else Find(installed, ByAgent(agentId))
    decreases |installed|
  {
    if installed != [] {
      var first, rest := installed[0], installed[1..];
      HasAgentExactly(entries, first.agentId);
      FindConcat(entries, [first], ByAgent(agentId));
      MergedFindsAgent(if HasAgent(entries, first.agentId) then entries else entries + [first], rest, agentId);
      assert [first][1..] == [];
      assert Find([first], ByAgent(agentId)) == if first.agentId == agentId then Some(first) else None;
      assert Find(installed, ByAgent(agentId)) == if first.agentId == agentId then Some(first) else Find(rest, ByAgent(agentId));
    }
  }

  predicate NoAgentTwice(entries: Entries) {
    forall i, j :: 0 <= i < j < |entries| ==> entries[i].agentId != entries[j].agentId
  }

  lemma {:induction false} KeyedHasNoAgentTwice(published: Entries)
    ensures NoAgentTwice(Keyed(published))
  {
    if published != [] {
      var front := published[..|published| - 1];
      KeyedHasNoAgentTwice(front);
      PutKeepsAgentsApart(Keyed(front), published[|published| - 1]);
    }
  }

  lemma {:induction false} PutKeepsAgentsApart(entries: Entries, e: Entry)
    requires NoAgentTwice(entries)
    ensures NoAgentTwice(Put(entries, e))
    ensures forall d :: d in Put(entries, e) ==> d.agentId == e.agentId || d in entries
  {
    if entries != [] && entries[0].agentId != e.agentId {
      PutKeepsAgentsApart(entries[1..], e);
    }
  }

  lemma {:induction false} MergedHasNoAgentTwice(entries: Entries, installed: Entries)
    requires NoAgentTwice(entries)
    ensures NoAgentTwice(Merged(entries, installed))
    decreases |installed|
  {
    if installed != [] {
      MergedHasNoAgentTwice(if HasAgent(entries, installed[0].agentId) then entries else entries + [installed[0]], installed[1..]);
    }
  }
}
