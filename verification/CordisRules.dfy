/** The rules of descriptors, compositions and snapshots, stated over their fields and over code units. */
module CordisRules {
  import opened Wrappers
  import opened JsText
  import opened Lists
  import opened StableSort
  import opened CordisDescriptor
  import opened CordisComposition
  import opened CordisSnapshot

  // ---------- descriptors ----------

  /** The three fields that repeat others. */
  ghost predicate NamesAgree(d: Descriptor) {
    && d.id == d.pluginId
    && d.pluginRef == Ascii("cordis:plugin:") + d.pluginId + Ascii("@") + d.apiVersion
    && d.sourceIdentity == Ascii("git:") + d.sourceCommit + Ascii(":") + d.sourceRef
  }

  /** A given field that disagrees with the ones it repeats is refused; one left out is filled in. */
  lemma IdentityExactly(other: Descriptor -> bool, input: Input)
    ensures BuildDescriptor(other, input).Success? ==> NamesAgree(BuildDescriptor(other, input).value)
    ensures var d := input.given;
            BuildDescriptor(other, input).Success? ==>
              && input.id in {None, Some(d.pluginId)}
              && input.pluginRef in {None, Some(Ascii("cordis:plugin:") + d.pluginId + Ascii("@") + d.apiVersion)}
              && input.sourceIdentity in {None, Some(Ascii("git:") + d.sourceCommit + Ascii(":") + d.sourceRef)}
    ensures var d, r := Normalized(input), BuildDescriptor(other, input);
            if !SchemaValid(other, d) then r == Failure(SchemaInvalid)
            else if d.id != d.pluginId then r == Failure(SourceIdentityMismatch)
            else if d.pluginRef != Ascii("cordis:plugin:") + d.pluginId + Ascii("@") + d.apiVersion then r == Failure(PluginApiIncompatible)
            else if d.sourceIdentity != Ascii("git:") + d.sourceCommit + Ascii(":") + d.sourceRef then r == Failure(SourceIdentityMismatch)
            else r == Success(d)
  {
    hide SchemaValid, SortUnique, NormalizeInjections, NormalizeEvents;
  }

  ghost predicate Ascending(ts: seq<Text>) {
    forall i, j :: 0 <= i < j < |ts| ==> UnitsBefore(ts[i], ts[j])
  }

  lemma SortedUniqueAscends(ts: seq<Text>)
    ensures Ascending(SortUnique(ts)) && SameSet(SortUnique(ts), ts)
  {
    var sorted := SortUnique(ts);
    SortedKeysAscend(Itself, Dedupe(ts));
    SortUniqueMembers(ts);
    forall i, j | 0 <= i < j < |sorted|
      ensures UnitsBefore(sorted[i], sorted[j])
    {
      assert !UnitsBefore(Itself(sorted[j]), Itself(sorted[i])) && sorted[i] != sorted[j];
      OneComesFirst(sorted[i], sorted[j]);
    }
  }

  lemma OneComesFirst(a: Text, b: Text)
    ensures a == b || UnitsBefore(a, b) || UnitsBefore(b, a)
  {
    BeforeTotal(a, b);
    BeforeExactly(a, b);
    BeforeExactly(b, a);
  }

  /** The same injections with their versions ascending, in ascending order of service, colon and versions. */
  ghost predicate InOrder(given: seq<Injection>, normal: seq<Injection>) {
    && multiset(Map(NormalInjection, given)) == multiset(normal)
    && (forall i :: i in normal ==> Ascending(i.versions))
    && KeysAscend((i: Injection) => i.serviceId + Ascii(":") + Join(i.versions, Ascii(",")), normal)
  }

  lemma InjectionsInOrder(given: seq<Injection>)
    ensures InOrder(given, NormalizeInjections(given))
  {
    var mapped, normal := Map(NormalInjection, given), NormalizeInjections(given);
    NormalizedInjections(given);
    SortedKeysAscend(InjectionKey, mapped);
    forall i | i in normal
      ensures Ascending(i.versions)
    {
      VersionsAscend(i);
    }
    SameKeys(normal);
    hide Sort, Map, NormalInjection, Ascending, KeysAscend, InjectionKey;
    assert multiset(normal) == multiset(mapped);
  }

  /** A normalised injection is for the same service, with the same versions in ascending order. */
  lemma VersionsAscend(i: Injection)
    ensures var n := NormalInjection(i); n.serviceId == i.serviceId && SameSet(n.versions, i.versions) && Ascending(n.versions)
  {
    SortedUniqueAscends(i.versions);
  }

  lemma SameKeys(xs: seq<Injection>)
    requires KeysAscend(InjectionKey, xs)
    ensures KeysAscend((i: Injection) => i.serviceId + Ascii(":") + Join(i.versions, Ascii(",")), xs)
  {
    hide UnitsBefore;
    var f := (i: Injection) => i.serviceId + Ascii(":") + Join(i.versions, Ascii(","));
    assert Ascii(":") == [COLON] && Ascii(",") == [COMMA];
    forall i, j | 0 <= i < j < |xs|
      ensures !UnitsBefore(f(xs[j]), f(xs[i]))
    {
      assert !UnitsBefore(InjectionKey(xs[j]), InjectionKey(xs[i]));
    }
  }

  /** What normalisation orders, and that it copies all else. */
  lemma BuiltInOrder(other: Descriptor -> bool, input: Input)
    requires BuildDescriptor(other, input).Success?
    ensures var d, g := BuildDescriptor(other, input).value, input.given;
            && Ascending(d.provided) && SameSet(d.provided, g.provided)
            && Ascending(d.forbidden) && SameSet(d.forbidden, g.forbidden)
            && InOrder(g.needed, d.needed) && InOrder(g.optional, d.optional)
            && multiset(d.events) == multiset(g.events) && KeysAscend(EventKey, d.events)
            && d.pluginId == g.pluginId && d.apiVersion == g.apiVersion && d.sourceRef == g.sourceRef
            && d.sourceCommit == g.sourceCommit && d.rest == g.rest && d.scope == g.scope && d.trust == g.trust
  {
    var g := input.given;
    SortedUniqueAscends(g.provided);
    SortedUniqueAscends(g.forbidden);
    InjectionsInOrder(g.needed);
    InjectionsInOrder(g.optional);
    SortedKeysAscend(EventKey, g.events);
    hide SchemaValid, SortUnique, NormalizeInjections, Sort, Ascending, KeysAscend, InOrder, SameSet, IdentityFault;
  }

  // ---------- compositions ----------

  /** From the weakest lane to the strongest, and from the shortest life to the longest. */
  lemma RanksAscend()
    ensures TrustRank(ThirdPartyUntrusted) < TrustRank(FirstPartyRestricted) < TrustRank(FirstPartyPrivileged)
    ensures ScopeRank(Request) < ScopeRank(Attempt) < ScopeRank(Session) < ScopeRank(Composition) < ScopeRank(Process)
  {
  }

  /** Provider j is the one plugin that provides the service, and it is good enough for consumer i. */
  ghost predicate Provided(plugins: Plugins, i: nat, injection: Injection, j: nat)
    requires i < |plugins|
  {
    && j < |plugins| && injection.serviceId in plugins[j].provided
    && plugins[j].apiVersion in injection.versions
    && TrustRank(plugins[i].trust) <= TrustRank(plugins[j].trust)
    && ScopeRank(plugins[i].scope) <= ScopeRank(plugins[j].scope)
  }

  /** Names agree and plugin ids differ. */
  ghost predicate OwnNames(plugins: Plugins) {
    && (forall i :: 0 <= i < |plugins| ==> NamesAgree(plugins[i]))
    && (forall i, j :: 0 <= i < j < |plugins| ==> plugins[i].pluginId != plugins[j].pluginId)
  }

  /** No service is provided twice. */
  ghost predicate OwnServices(plugins: Plugins) {
    && (forall i, m, n :: 0 <= i < |plugins| && 0 <= m < n < |plugins[i].provided| ==> plugins[i].provided[m] != plugins[i].provided[n])
    && (forall i, j, s :: 0 <= i < j < |plugins| && s in plugins[i].provided ==> s !in plugins[j].provided)
  }

  /** Each required injection has a provider that is good enough, each optional one such a provider or none. */
  ghost predicate Supplied(plugins: Plugins, i: nat)
    requires i < |plugins|
  {
    && (forall injection :: injection in plugins[i].needed ==> exists j: nat :: Provided(plugins, i, injection, j))
    && (forall injection :: injection in plugins[i].optional ==>
          || (exists j: nat :: Provided(plugins, i, injection, j))
          || (forall j :: 0 <= j < |plugins| ==> injection.serviceId !in plugins[j].provided))
  }

  lemma AcceptedExactly(plugins: Plugins)
    ensures Accepted(plugins) <==>
              OwnNames(plugins) && OwnServices(plugins) && forall i :: 0 <= i < |plugins| ==> Supplied(plugins, i)
  {
    OwnNamesExactly(plugins);
    OwnServicesExactly(plugins);
    if OneProvider(plugins) {
      forall i | 0 <= i < |plugins|
        ensures InjectionsResolved(plugins, plugins[i]) <==> Supplied(plugins, i)
      {
        SuppliedExactly(plugins, i);
      }
    }
    hide Identified, OneProvider, OwnNames, OwnServices, InjectionsResolved, Supplied;
  }

  lemma OwnNamesExactly(plugins: Plugins)
    ensures Identified(plugins) <==> OwnNames(plugins)
  {
    forall i | 0 <= i < |plugins|
      ensures IdentityFault(plugins[i]).None? <==> NamesAgree(plugins[i])
    {
    }
    hide IdentityFault, NamesAgree;
  }

  lemma OwnServicesExactly(plugins: Plugins)
    ensures OneProvider(plugins) <==> OwnServices(plugins)
  {
    if OwnServices(plugins) {
      forall i: nat, j: nat, service | Provides(plugins, i, service) && Provides(plugins, j, service)
        ensures i == j
      {
        assert service in plugins[i].provided && service in plugins[j].provided;
      }
    }
    if OneProvider(plugins) {
      forall i, j, s | 0 <= i < j < |plugins| && s in plugins[i].provided
        ensures s !in plugins[j].provided
      {
        assert Provides(plugins, i, s) && (Provides(plugins, j, s) <==> s in plugins[j].provided);
      }
    }
  }

  lemma SuppliedExactly(plugins: Plugins, i: nat)
    requires OneProvider(plugins) && i < |plugins|
    ensures InjectionsResolved(plugins, plugins[i]) <==> Supplied(plugins, i)
  {
    forall injection
      ensures Resolved(plugins, plugins[i], injection, true) <==> exists j: nat :: Provided(plugins, i, injection, j)
      ensures Resolved(plugins, plugins[i], injection, false) <==>
              || (exists j: nat :: Provided(plugins, i, injection, j))
              || (forall j :: 0 <= j < |plugins| ==> injection.serviceId !in plugins[j].provided)
    {
      ResolvedExactly(plugins, i, injection);
    }
    hide OneProvider, Resolved, Provided;
    var consumer := plugins[i];
    assert forall k :: 0 <= k < |consumer.needed| ==> consumer.needed[k] in consumer.needed;
    assert forall k :: 0 <= k < |consumer.optional| ==> consumer.optional[k] in consumer.optional;
  }

  lemma ResolvedExactly(plugins: Plugins, i: nat, injection: Injection)
    requires OneProvider(plugins) && i < |plugins|
    ensures Resolved(plugins, plugins[i], injection, true) <==> exists j: nat :: Provided(plugins, i, injection, j)
    ensures Resolved(plugins, plugins[i], injection, false) <==>
            || (exists j: nat :: Provided(plugins, i, injection, j))
            || (forall j :: 0 <= j < |plugins| ==> injection.serviceId !in plugins[j].provided)
  {
    assert forall j: nat :: Provided(plugins, i, injection, j) ==> Provides(plugins, j, injection.serviceId);
    if j: nat :| Provides(plugins, j, injection.serviceId) {
      assert Provided(plugins, i, injection, j) <==> Suits(plugins[i], injection, plugins[j]);
      assert injection.serviceId in plugins[j].provided;
    } else {
      assert forall j: nat :: j < |plugins| ==> (Provides(plugins, j, injection.serviceId) <==> injection.serviceId in plugins[j].provided);
    }
  }

  // ---------- snapshots ----------

  /** A built snapshot carries its input's own fields, its plugins in ascending order of their ids, and its digest as its name. */
  lemma SnapshotShape(c: Contract, input: SnapshotInput, s: Snapshot)
    requires Builds(c, input, s)
    ensures s.unsigned.framework == input.framework && s.unsigned.binding == input.binding && s.unsigned.evidence == input.evidence
    ensures s.digest == c.digest(s.unsigned) && s.id == Ascii("cordis:snapshot:") + s.digest
    ensures multiset(s.unsigned.plugins) == multiset(BuildAll(c.descriptor, input.plugins).value)
    ensures KeysAscend(PluginId, s.unsigned.plugins)
  {
    SortedKeysAscend(PluginId, BuildAll(c.descriptor, input.plugins).value);
    hide Sort, BuildAll, Accepted, KeysAscend;
  }

  /** A snapshot whose digest or name is not that of its content is refused. */
  lemma TamperedIsRefused(c: Contract, s: Snapshot)
    requires s.digest != c.digest(s.unsigned) || s.id != Ascii("cordis:snapshot:") + c.digest(s.unsigned)
    ensures !Passes(c, s)
  {
    hide BuildAll, Accepted;
  }
}
