/** The standard agent registry: a list without namespace collisions resolves every claim to its own entry. */
module AgentRegistry {
  import opened Wrappers
  import opened JsText

  datatype Entry = Entry(
    agentId: Text, domainId: Text, targetDomainId: Text, project: Text, moduleId: Text,
    pluginName: Text, canonicalPluginName: Text, aliases: seq<Text>, ownerAliases: seq<Text>)

  type Entries = seq<Entry>

  /** Lower-case ASCII letters and digits of one unit; the Kelvin sign and the dotted capital I lower to ASCII letters. */
  function KeyUnits(c: Unit): Text {
    if 0x41 <= c <= 0x5A then [c + 0x20]
    else if 0x61 <= c <= 0x7A || 0x30 <= c <= 0x39 then [c]
    else if c == 0x212A then [0x6B]
    else if c == 0x130 then [0x69]
    else []
  }

  /** value.trim().toLowerCase().replace(/[^a-z0-9]/g, ''); trimming cannot matter, for spaces are dropped. */
  function Key(value: Text): Text {
    if value == [] then [] else KeyUnits(value[0]) + Key(value[1..])
  }

  lemma {:induction false} KeyConcat(a: Text, b: Text)
    ensures Key(a + b) == Key(a) + Key(b)
  {
    if a == [] {
      assert a + b == b;
    } else {
      assert (a + b)[1..] == a[1..] + b;
      KeyConcat(a[1..], b);
      ConcatAssociative(KeyUnits(a[0]), Key(a[1..]), Key(b));
    }
  }

  lemma {:induction false} KeyOfSpace(t: Text)
    requires AllSpace(t)
    ensures Key(t) == []
  {
    if t != [] {
      KeyOfSpace(t[1..]);
    }
  }

  /** So leaving trim() out of Key changes nothing. */
  lemma KeyIgnoresTrim(t: Text)
    ensures Key(Trim(t)) == Key(t)
  {
    var before, after := TrimSplits(t);
    KeyOfSpace(before);
    KeyOfSpace(after);
    KeyConcat(before, Trim(t));
    KeyConcat(before + Trim(t), after);
    hide Key, Trim;
  }

  function Claims(e: Entry): seq<Text> {
    [e.agentId, e.domainId, e.targetDomainId, e.project, e.moduleId, e.pluginName, e.canonicalPluginName] + e.aliases + e.ownerAliases
  }

  function RegistryAliases(e: Entry): seq<Text> {
    [e.agentId, e.domainId, e.targetDomainId, e.project, e.pluginName, e.canonicalPluginName] + e.aliases
  }

  // ---------- what the namespace check means ----------

  ghost predicate PackagesDistinct(packageIds: seq<Text>) {
    forall i, j :: 0 <= i < |packageIds| && 0 <= j < |packageIds| && Key(packageIds[i]) == Key(packageIds[j]) ==> packageIds[i] == packageIds[j]
  }

  /** A claim with the key of a package is made by the agent of that package only. */
  ghost predicate OwnPackages(packageIds: seq<Text>, e: Entry, claim: Text) {
    forall i :: 0 <= i < |packageIds| && Key(packageIds[i]) == Key(claim) ==> packageIds[i] == e.agentId
  }

  predicate NoClash(d: Entry, c: Text, e: Entry, f: Text) {
    Key(c) == Key(f) ==> d.agentId == e.agentId
  }

  ghost predicate NamespaceUnique(packageIds: seq<Text>, entries: Entries) {
    && PackagesDistinct(packageIds)
    && (forall e, c :: e in entries && c in Claims(e) ==> OwnPackages(packageIds, e, c))
    && (forall d, c, e, f :: d in entries && c in Claims(d) && e in entries && f in Claims(e) ==> NoClash(d, c, e, f))
  }

  // ---------- assertRegistryNamespaceUnique ----------

  /** The map from keys to package ids after the first n. */
  ghost predicate PackageMap(packageIds: seq<Text>, n: nat, m: map<Text, Text>)
    requires n <= |packageIds|
  {
    && (forall i :: 0 <= i < n ==> Key(packageIds[i]) in m && m[Key(packageIds[i])] == packageIds[i])
    && (forall key :: key in m ==> exists i :: 0 <= i < n && Key(packageIds[i]) == key)
  }

  method CollectPackages(packageIds: seq<Text>) returns (unique: bool, packages: map<Text, Text>)
    ensures unique <==> PackagesDistinct(packageIds)
    ensures unique ==> PackageMap(packageIds, |packageIds|, packages)
  {
    hide Key;
    packages := map[];
    var n := 0;
    while n < |packageIds|
      invariant 0 <= n <= |packageIds| && PackageMap(packageIds, n, packages)
    {
      var id := packageIds[n];
      var key := Key(id);
      if key in packages && packages[key] != id {
        ghost var i :| 0 <= i < n && Key(packageIds[i]) == key;
        assert packageIds[i] != packageIds[n];
        return false, packages;
      }
      packages := packages[key := id];
      n := n + 1;
    }
    forall i, j | 0 <= i < |packageIds| && 0 <= j < |packageIds| && Key(packageIds[i]) == Key(packageIds[j])
      ensures packageIds[i] == packageIds[j]
    {
      assert packages[Key(packageIds[i])] == packageIds[i];
      assert packages[Key(packageIds[j])] == packageIds[j];
    }
    return true, packages;
  }

  /** Claim c of entry d has been read: d is among the first n entries, or the next one and c among its first k claims. */
  predicate Read(entries: Entries, n: nat, k: nat, d: Entry, c: Text)
    requires n <= |entries|
  {
    (d in entries[..n] && c in Claims(d)) || (n < |entries| && d == entries[n] && k <= |Claims(d)| && c in Claims(d)[..k])
  }

  /** The map from keys to agent ids holds what has been read, and nothing clashed. */
  ghost predicate ClaimMap(entries: Entries, n: nat, k: nat, m: map<Text, Text>)
    requires n <= |entries|
  {
    && (forall d, c :: Read(entries, n, k, d, c) ==> Key(c) in m && m[Key(c)] == d.agentId)
    && (forall key :: key in m ==> exists d, c :: Read(entries, n, k, d, c) && Key(c) == key)
  }

  lemma ReadOne(entries: Entries, n: nat, k: nat, d: Entry, c: Text)
    requires n < |entries| && k < |Claims(entries[n])|
    ensures Read(entries, n, k + 1, d, c) <==> Read(entries, n, k, d, c) || (d == entries[n] && c == Claims(entries[n])[k])
  {
    hide Claims;
    var claims := Claims(entries[n]);
    assert claims[..k + 1] == claims[..k] + [claims[k]];
  }

  lemma ReadAll(entries: Entries, n: nat, d: Entry, c: Text)
    requires n < |entries|
    ensures Read(entries, n + 1, 0, d, c) <==> Read(entries, n, |Claims(entries[n])|, d, c)
  {
    hide Claims;
    var claims := Claims(entries[n]);
    assert claims[..|claims|] == claims;
    assert entries[..n + 1] == entries[..n] + [entries[n]];
  }

  /** One entry's claims against the packages and the claims read before. */
  method CheckEntry(packageIds: seq<Text>, packages: map<Text, Text>, entries: Entries, n: nat, before: map<Text, Text>)
    returns (unique: bool, claims: map<Text, Text>)
    requires n < |entries| && PackageMap(packageIds, |packageIds|, packages) && ClaimMap(entries, n, 0, before)
    ensures unique ==> ClaimMap(entries, n + 1, 0, claims)
    ensures unique ==> forall c :: c in Claims(entries[n]) ==> OwnPackages(packageIds, entries[n], c)
    ensures !unique ==> !NamespaceUnique(packageIds, entries)
  {
    hide Key, Claims, ClaimMap, PackageMap, OwnPackages, NamespaceUnique;
    var e := entries[n];
    var own := Claims(e);
    claims := before;
    var k := 0;
    while k < |own|
      invariant 0 <= k <= |own| && ClaimMap(entries, n, k, claims)
      invariant forall j :: 0 <= j < k ==> OwnPackages(packageIds, e, own[j])
    {
      var key := Key(own[k]);
      PackageClash(packageIds, packages, entries, n, own[k]);
      if key in packages && packages[key] != e.agentId {
        return false, claims;
      }
      if key in claims && claims[key] != e.agentId {
        ClaimClash(packageIds, entries, n, k, claims);
        return false, claims;
      }
      ClaimOne(entries, n, k, claims);
      claims := claims[key := e.agentId];
      k := k + 1;
    }
    ClaimAll(entries, n, claims);
    return true, claims;
  }

  lemma PackageClash(packageIds: seq<Text>, packages: map<Text, Text>, entries: Entries, n: nat, c: Text)
    requires n < |entries| && c in Claims(entries[n]) && PackageMap(packageIds, |packageIds|, packages)
    ensures OwnPackages(packageIds, entries[n], c) <==> !(Key(c) in packages && packages[Key(c)] != entries[n].agentId)
    ensures !OwnPackages(packageIds, entries[n], c) ==> !NamespaceUnique(packageIds, entries)
  {
    hide Key, Claims, NoClash, PackagesDistinct;
  }

  lemma ClaimClash(packageIds: seq<Text>, entries: Entries, n: nat, k: nat, m: map<Text, Text>)
    requires n < |entries| && k < |Claims(entries[n])| && ClaimMap(entries, n, k, m)
    requires Key(Claims(entries[n])[k]) in m && m[Key(Claims(entries[n])[k])] != entries[n].agentId
    ensures !NamespaceUnique(packageIds, entries)
  {
    hide Key, Claims, OwnPackages, PackagesDistinct;
    var e, f := entries[n], Claims(entries[n])[k];
    var d, c :| Read(entries, n, k, d, c) && Key(c) == Key(f);
    assert d in entries && c in Claims(d);
    assert !NoClash(d, c, e, f);
  }

  lemma ClaimOne(entries: Entries, n: nat, k: nat, m: map<Text, Text>)
    requires n < |entries| && k < |Claims(entries[n])| && ClaimMap(entries, n, k, m)
    requires Key(Claims(entries[n])[k]) in m ==> m[Key(Claims(entries[n])[k])] == entries[n].agentId
    ensures ClaimMap(entries, n, k + 1, m[Key(Claims(entries[n])[k]) := entries[n].agentId])
  {
    hide Key, Claims, Read;
    var e, f, k' := entries[n], Claims(entries[n])[k], k + 1;
    forall d, c
      ensures Read(entries, n, k', d, c) <==> Read(entries, n, k, d, c) || (d == e && c == f)
    {
      ReadOne(entries, n, k, d, c);
    }
    var m' := m[Key(f) := e.agentId];
    forall key | key in m'
      ensures exists d, c :: Read(entries, n, k', d, c) && Key(c) == key
    {
      if key == Key(f) {
        assert Read(entries, n, k', e, f);
      } else {
        var d, c :| Read(entries, n, k, d, c) && Key(c) == key;
        assert Read(entries, n, k', d, c);
      }
    }
  }

  lemma ClaimAll(entries: Entries, n: nat, m: map<Text, Text>)
    requires n < |entries| && ClaimMap(entries, n, |Claims(entries[n])|, m)
    ensures ClaimMap(entries, n + 1, 0, m)
  {
    hide Key, Claims, Read;
    var n', all := n + 1, |Claims(entries[n])|;
    forall d, c
      ensures Read(entries, n', 0, d, c) <==> Read(entries, n, all, d, c)
    {
      ReadAll(entries, n, d, c);
    }
    forall key | key in m
      ensures exists d, c :: Read(entries, n', 0, d, c) && Key(c) == key
    {
      var d, c :| Read(entries, n, all, d, c) && Key(c) == key;
      assert Read(entries, n', 0, d, c);
    }
  }

  lemma ClaimMapMeansNoClash(entries: Entries, m: map<Text, Text>)
    requires ClaimMap(entries, |entries|, 0, m)
    ensures forall d, c, e, f :: d in entries && c in Claims(d) && e in entries && f in Claims(e) ==> NoClash(d, c, e, f)
  {
    hide Key, Claims;
    assert entries[..|entries|] == entries;
    forall d, c, e, f | d in entries && c in Claims(d) && e in entries && f in Claims(e)
      ensures NoClash(d, c, e, f)
    {
      assert Read(entries, |entries|, 0, d, c) && Read(entries, |entries|, 0, e, f);
    }
  }

  /** assertRegistryNamespaceUnique returns normally exactly when no two agents, and no agent and package, share a key. */
  method AssertRegistryNamespaceUnique(packageIds: seq<Text>, entries: Entries) returns (unique: bool)
    ensures unique <==> NamespaceUnique(packageIds, entries)
  {
    hide Key, Claims, ClaimMap, PackageMap, OwnPackages, NoClash, PackagesDistinct;
    var packagesUnique, packages := CollectPackages(packageIds);
    if !packagesUnique {
      return false;
    }
    var claims: map<Text, Text> := map[];
    NothingClaimed(entries);
    var n := 0;
    while n < |entries|
      invariant 0 <= n <= |entries| && ClaimMap(entries, n, 0, claims)
      invariant forall i, c :: 0 <= i < n && c in Claims(entries[i]) ==> OwnPackages(packageIds, entries[i], c)
    {
      var entryUnique;
      entryUnique, claims := CheckEntry(packageIds, packages, entries, n, claims);
      if !entryUnique {
        return false;
      }
      n := n + 1;
    }
    ClaimMapMeansNoClash(entries, claims);
    return true;
  }

  lemma NothingClaimed(entries: Entries)
    ensures ClaimMap(entries, 0, 0, map[])
  {
  }

  // ---------- resolvers ----------

  /** entries.find(matches) */
  function Find(entries: Entries, matches: Entry -> bool): (r: Option<Entry>)
    ensures r.Some? ==> r.value in entries && matches(r.value)
    ensures r.None? ==> forall e :: e in entries ==> !matches(e)
  {
    if entries == [] then None else if matches(entries[0]) then Some(entries[0]) else Find(entries[1..], matches)
  }

  predicate SomeKey(names: seq<Text>, key: Text) {
    exists i :: 0 <= i < |names| && Key(names[i]) == key
  }

  function ByAlias(value: Text): Entry -> bool {
    (e: Entry) => SomeKey(RegistryAliases(e), Key(value))
  }

  function ByDomain(value: Text): Entry -> bool {
    (e: Entry) => SomeKey([e.domainId, e.targetDomainId], Key(value))
  }

  function ByOwner(value: Text): Entry -> bool {
    (e: Entry) => SomeKey(e.ownerAliases, Key(value))
  }

  function ByCanonicalPluginName(value: Text): Entry -> bool {
    (e: Entry) => e.canonicalPluginName == value
  }

  ghost predicate DistinctAgents(entries: Entries) {
    forall d, e :: d in entries && e in entries && d.agentId == e.agentId ==> d == e
  }

  /** A claim of e is a claim of no other entry, under its key. */
  lemma ClaimIsOwn(packageIds: seq<Text>, entries: Entries, e: Entry, c: Text, d: Entry, f: Text)
    requires NamespaceUnique(packageIds, entries) && DistinctAgents(entries)
    requires e in entries && c in Claims(e) && d in entries && f in Claims(d) && Key(f) == Key(c)
    ensures d == e
  {
    hide Key, Claims, OwnPackages, PackagesDistinct;
    assert NoClash(d, f, e, c);
  }

  lemma AliasesAreClaims(e: Entry)
    ensures forall a :: a in RegistryAliases(e) ==> a in Claims(e)
    ensures e.domainId in Claims(e) && e.targetDomainId in Claims(e) && e.canonicalPluginName in Claims(e)
    ensures forall a :: a in e.ownerAliases ==> a in Claims(e)
  {
    var own := [e.agentId, e.domainId, e.targetDomainId, e.project, e.moduleId, e.pluginName, e.canonicalPluginName];
    assert own[0] in own && own[1] in own && own[2] in own && own[3] in own && own[5] in own && own[6] in own;
    assert Claims(e) == own + e.aliases + e.ownerAliases;
  }

  /**
    After the check passes, every alias, domain id, owner alias and canonical plugin name of an
    entry resolves to that entry, wherever it stands in the list.
    */
  lemma EveryClaimResolves(packageIds: seq<Text>, entries: Entries, e: Entry, value: Text)
    requires NamespaceUnique(packageIds, entries) && DistinctAgents(entries) && e in entries
    ensures value in RegistryAliases(e) ==> Find(entries, ByAlias(value)) == Some(e)
    ensures value == e.domainId || value == e.targetDomainId ==> Find(entries, ByDomain(value)) == Some(e)
    ensures value in e.ownerAliases ==> Find(entries, ByOwner(value)) == Some(e)
    ensures value == e.canonicalPluginName ==> Find(entries, ByCanonicalPluginName(value)) == Some(e)
  {
    hide Find, Key, NamespaceUnique, DistinctAgents, Claims, RegistryAliases;
    AliasesAreClaims(e);
    if value in RegistryAliases(e) {
      var i :| 0 <= i < |RegistryAliases(e)| && RegistryAliases(e)[i] == value;
      assert ByAlias(value)(e);
      var d := Find(entries, ByAlias(value)).value;
      var j :| 0 <= j < |RegistryAliases(d)| && Key(RegistryAliases(d)[j]) == Key(value);
      AliasesAreClaims(d);
      ClaimIsOwn(packageIds, entries, e, value, d, RegistryAliases(d)[j]);
    }
    if value == e.domainId || value == e.targetDomainId {
      DomainMatches(e, value);
      var d := Find(entries, ByDomain(value)).value;
      AliasesAreClaims(d);
      DomainMatched(d, value);
      ClaimIsOwn(packageIds, entries, e, value, d, if Key(d.domainId) == Key(value) then d.domainId else d.targetDomainId);
    }
    if value in e.ownerAliases {
      var i :| 0 <= i < |e.ownerAliases| && e.ownerAliases[i] == value;
      assert ByOwner(value)(e);
      var d := Find(entries, ByOwner(value)).value;
      var j :| 0 <= j < |d.ownerAliases| && Key(d.ownerAliases[j]) == Key(value);
      AliasesAreClaims(d);
      ClaimIsOwn(packageIds, entries, e, value, d, d.ownerAliases[j]);
    }
    if value == e.canonicalPluginName {
      var d := Find(entries, ByCanonicalPluginName(value)).value;
      AliasesAreClaims(d);
      ClaimIsOwn(packageIds, entries, e, value, d, d.canonicalPluginName);
    }
  }

  lemma DomainMatches(e: Entry, value: Text)
    requires value == e.domainId || value == e.targetDomainId
    ensures ByDomain(value)(e)
  {
    hide Key;
    var names := [e.domainId, e.targetDomainId];
    assert names[0] == value || names[1] == value;
  }

  lemma DomainMatched(d: Entry, value: Text)
    requires ByDomain(value)(d)
    ensures Key(d.domainId) == Key(value) || Key(d.targetDomainId) == Key(value)
  {
    hide Key;
    var names := [d.domainId, d.targetDomainId];
    var i :| 0 <= i < |names| && Key(names[i]) == Key(value);
  }

  // ---------- published and installed agents ----------

  /** Map.set under the agent id: an entry keeps its place and takes the new value. */
  function Put(entries: Entries, e: Entry): Entries {
    if entries == [] then [e]
    else if entries[0].agentId == e.agentId then [e] + entries[1..]
    else [entries[0]] + Put(entries[1..], e)
  }

  predicate HasAgent(entries: Entries, agentId: Text) {
    exists i :: 0 <= i < |entries| && entries[i].agentId == agentId
  }

  /** new Map(published.map(entry => [entry.agent_id, entry])).values() */
  function Keyed(published: Entries): Entries {
    if published == [] then []
    else Put(Keyed(published[..|published| - 1]), published[|published| - 1])
  }

  /** Installed entries are added only under ids that are still free. */
  function Merged(entries: Entries, installed: Entries): Entries
    decreases |installed|
  {
    if installed == [] then entries
    else Merged(if HasAgent(entries, installed[0].agentId) then entries else entries + [installed[0]], installed[1..])
  }

  lemma {:induction false} FindConcat(a: Entries, b: Entries, matches: Entry -> bool)
    ensures Find(a + b, matches) == if Find(a, matches).Some? then Find(a, matches) else Find(b, matches)
  {
    if a == [] {
      assert a + b == b;
    } else {
      assert (a + b)[1..] == a[1..] + b;
      FindConcat(a[1..], b, matches);
    }
  }

  lemma {:induction false} PutKnown(entries: Entries, e: Entry)
    requires forall d :: d in entries && d.agentId == e.agentId ==> d == e
    ensures Put(entries, e) == if e in entries then entries else entries + [e]
  {
    if entries != [] {
      assert entries[0] in entries;
      assert forall d :: d in entries[1..] ==> d in entries;
      assert entries == [entries[0]] + entries[1..];
      if entries[0].agentId != e.agentId {
        PutKnown(entries[1..], e);
        assert e in entries <==> e in entries[1..];
        assert entries + [e] == [entries[0]] + (entries[1..] + [e]);
      }
    }
  }

  lemma {:induction false} KeyedFinds(published: Entries, matches: Entry -> bool)
    requires DistinctAgents(published)
    ensures Find(Keyed(published), matches) == Find(published, matches)
    ensures forall e :: e in Keyed(published) <==> e in published
  {
    if published != [] {
      var front, last := published[..|published| - 1], published[|published| - 1];
      assert published == front + [last];
      KeyedFinds(front, matches);
      PutKnown(Keyed(front), last);
      FindConcat(front, [last], matches);
      FindConcat(Keyed(front), [last], matches);
      assert Find([last], matches) == if matches(last) then Some(last) else None;
      hide Keyed, Find, Put;
    }
  }

  lemma {:induction false} MergedFinds(entries: Entries, installed: Entries, matches: Entry -> bool)
    requires Find(entries, matches).Some?
    ensures Find(Merged(entries, installed), matches) == Find(entries, matches)
    decreases |installed|
  {
    hide Find;
    if installed != [] {
      FindConcat(entries, [installed[0]], matches);
      MergedFinds(if HasAgent(entries, installed[0].agentId) then entries else entries + [installed[0]], installed[1..], matches);
    }
  }

  /** The two-stage lookup, in the published list and then in the merged one, is one lookup in the merged list. */
  lemma TwoStageLookup(published: Entries, installed: Entries, matches: Entry -> bool)
    requires DistinctAgents(published)
    ensures var merged := Merged(Keyed(published), installed);
            (if Find(published, matches).Some? then Find(published, matches) else Find(merged, matches)) == Find(merged, matches)
  {
    hide Find, Keyed, Merged;
    KeyedFinds(published, matches);
    if Find(published, matches).Some? {
      MergedFinds(Keyed(published), installed, matches);
    }
  }

  class StandardAgentRegistry {
    const published: Entries
    var discoveringInstalledAgents: bool

    constructor (published: Entries)
      ensures this.published == published && !discoveringInstalledAgents
    {
      this.published := published;
      discoveringInstalledAgents := false;
    }

    /**
      listStandardAgentRegistry. None is the collision it throws on. A call made during discovery
      gets the published entries alone, and the flag is as before whatever happens.
      */
    method List(installed: Entries, packageIds: seq<Text>) returns (r: Option<Entries>)
      modifies this
      ensures discoveringInstalledAgents == old(discoveringInstalledAgents)
      ensures old(discoveringInstalledAgents) ==> r == Some(Keyed(published))
      ensures !old(discoveringInstalledAgents) ==>
                r == if NamespaceUnique(packageIds, Merged(Keyed(published), installed)) then Some(Merged(Keyed(published), installed)) else None
    {
      hide Keyed, NamespaceUnique;
      var entries := Keyed(published);
      if discoveringInstalledAgents {
        return Some(entries);
      }
      discoveringInstalledAgents := true;
      var i := 0;
      assert installed[0..] == installed;
      while i < |installed|
        invariant 0 <= i <= |installed|
        invariant Merged(entries, installed[i..]) == Merged(Keyed(published), installed)
      {
        assert installed[i..][1..] == installed[i + 1..];
        if !HasAgent(entries, installed[i].agentId) {
          entries := entries + [installed[i]];
        }
        i := i + 1;
      }
      discoveringInstalledAgents := false;
      var unique := AssertRegistryNamespaceUnique(packageIds, entries);
      return if unique then Some(entries) else None;
    }
  }
}
