/** Cordis compositions: one provider per service, ranks along dependencies, and snapshots. */
module CordisComposition {
  import opened Wrappers
  import opened JsText
  import opened Lists
  import opened StableSort
  import opened CordisDescriptor

  type Plugins = seq<Descriptor>

  function ScopeRank(s: Scope): nat {
    match s
    case Request => 0
    case Attempt => 1
    case Session => 2
    case Composition => 3
    case Process => 4
  }

  function TrustRank(t: Trust): nat {
    match t
    case ThirdPartyUntrusted => 0
    case FirstPartyRestricted => 1
    case FirstPartyPrivileged => 2
  }

  // ---------- what an accepted composition is ----------

  /** Plugin j provides the service. */
  predicate Provides(plugins: Plugins, j: nat, service: Text) {
    j < |plugins| && service in plugins[j].provided
  }

  ghost predicate Identified(plugins: Plugins) {
    && (forall i :: 0 <= i < |plugins| ==> IdentityFault(plugins[i]).None?)
    && (forall i, j :: 0 <= i < j < |plugins| ==> plugins[i].pluginId != plugins[j].pluginId)
  }

  /** No service is provided twice: not by two plugins, nor twice by one. */
  ghost predicate OneProvider(plugins: Plugins) {
    && (forall i :: 0 <= i < |plugins| ==> Distinct(plugins[i].provided))
    && (forall i: nat, j: nat, service :: Provides(plugins, i, service) && Provides(plugins, j, service) ==> i == j)
  }

  /** What a consumer demands of the provider of an injected service. */
  predicate Suits(consumer: Descriptor, injection: Injection, provider: Descriptor) {
    && provider.apiVersion in injection.versions
    && TrustRank(consumer.trust) <= TrustRank(provider.trust)
    && ScopeRank(consumer.scope) <= ScopeRank(provider.scope)
  }

  ghost predicate Resolved(plugins: Plugins, consumer: Descriptor, injection: Injection, required: bool) {
    && (required ==> exists j: nat :: Provides(plugins, j, injection.serviceId))
    && (forall j: nat :: Provides(plugins, j, injection.serviceId) ==> Suits(consumer, injection, plugins[j]))
  }

  ghost predicate InjectionsResolved(plugins: Plugins, consumer: Descriptor) {
    && (forall k :: 0 <= k < |consumer.needed| ==> Resolved(plugins, consumer, consumer.needed[k], true))
    && (forall k :: 0 <= k < |consumer.optional| ==> Resolved(plugins, consumer, consumer.optional[k], false))
  }

  ghost predicate Accepted(plugins: Plugins) {
    && Identified(plugins) && OneProvider(plugins)
    && forall i :: 0 <= i < |plugins| ==> InjectionsResolved(plugins, plugins[i])
  }

  // ---------- validateCompositionPlugins ----------

  /** Plugin i's service has been read: i is one of the first n plugins, or the next one and the service among its first m. */
  predicate Read(plugins: Plugins, n: nat, m: nat, i: nat, service: Text) {
    Provides(plugins, i, service) && (i < n || (i == n && m <= |plugins[n].provided| && service in plugins[n].provided[..m]))
  }

  /** The map of providers holds exactly what has been read. */
  ghost predicate Bound(plugins: Plugins, n: nat, m: nat, providers: map<Text, nat>) {
    && (forall service :: service in providers ==> Read(plugins, n, m, providers[service], service))
    && (forall i: nat, service :: Read(plugins, n, m, i, service) ==> service in providers && providers[service] == i)
  }

  lemma BindOne(plugins: Plugins, n: nat, m: nat, providers: map<Text, nat>)
    requires n < |plugins| && m < |plugins[n].provided| && Bound(plugins, n, m, providers)
    requires plugins[n].provided[m] !in providers
    ensures Bound(plugins, n, m + 1, providers[plugins[n].provided[m] := n])
  {
    var provided := plugins[n].provided;
    var service := provided[m];
    assert provided[..m + 1] == provided[..m] + [service];
    var m' := m + 1;
    forall i: nat, s
      ensures Read(plugins, n, m', i, s) <==> Read(plugins, n, m, i, s) || (i == n && s == service)
    {
    }
    hide Read;
  }

  lemma BindAll(plugins: Plugins, n: nat, providers: map<Text, nat>)
    requires n < |plugins| && Bound(plugins, n, |plugins[n].provided|, providers)
    ensures Bound(plugins, n + 1, 0, providers)
  {
    var all := |plugins[n].provided|;
    assert plugins[n].provided[..all] == plugins[n].provided;
    var n' := n + 1;
    forall i: nat, s
      ensures Read(plugins, n', 0, i, s) <==> Read(plugins, n, all, i, s)
    {
    }
    hide Read;
  }

  /** One plugin's services enter the map of providers, unless one of them is already there. */
  method BindServices(plugins: Plugins, n: nat, before: map<Text, nat>) returns (free: bool, providers: map<Text, nat>)
    requires n < |plugins| && Bound(plugins, n, 0, before)
    ensures free ==> Bound(plugins, n + 1, 0, providers) && Distinct(plugins[n].provided)
    ensures !free ==> !OneProvider(plugins)
  {
    hide Bound;
    providers := before;
    var provided := plugins[n].provided;
    var k := 0;
    while k < |provided|
      invariant 0 <= k <= |provided| && Bound(plugins, n, k, providers)
      invariant Distinct(provided[..k])
    {
      var service := provided[k];
      if service in providers {
        TwiceBound(plugins, n, k, providers);
        return false, providers;
      }
      BindOne(plugins, n, k, providers);
      NotYet(plugins, n, k, providers);
      assert provided[..k + 1] == provided[..k] + [service];
      providers := providers[service := n];
      k := k + 1;
    }
    assert provided[..k] == provided;
    BindAll(plugins, n, providers);
    return true, providers;
  }

  lemma NotYet(plugins: Plugins, n: nat, m: nat, providers: map<Text, nat>)
    requires n < |plugins| && m < |plugins[n].provided| && Bound(plugins, n, m, providers)
    requires plugins[n].provided[m] !in providers
    ensures plugins[n].provided[m] !in plugins[n].provided[..m]
  {
    var service := plugins[n].provided[m];
    assert !Read(plugins, n, m, n, service);
  }

  lemma TwiceBound(plugins: Plugins, n: nat, m: nat, providers: map<Text, nat>)
    requires n < |plugins| && m < |plugins[n].provided| && Bound(plugins, n, m, providers)
    requires plugins[n].provided[m] in providers
    ensures !OneProvider(plugins)
  {
    var service := plugins[n].provided[m];
    var i := providers[service];
    assert Read(plugins, n, m, i, service) && Provides(plugins, n, service);
    if i == n {
      var j :| 0 <= j < m && plugins[n].provided[..m][j] == service;
      assert plugins[n].provided[j] == plugins[n].provided[m];
    }
  }

  // ---------- injections ----------

  /** validateInjection: the reason for which it throws. */
  function InjectionFault(consumer: Descriptor, injection: Injection, provider: Option<Descriptor>, required: bool): Option<Fault> {
    if provider.None? then (if required then Some(MissingRequiredProvider) else None)
    else if provider.value.apiVersion !in injection.versions then Some(PluginApiIncompatible)
    else if TrustRank(provider.value.trust) < TrustRank(consumer.trust) then Some(TrustLaneConflict)
    else if ScopeRank(provider.value.scope) < ScopeRank(consumer.scope) then Some(ScopeConflict)
    else None
  }

  /** Consumer i injects the service, as required or as optional. */
  predicate Injects(plugins: Plugins, i: nat, injection: Injection) {
    i < |plugins| && (injection in plugins[i].needed || injection in plugins[i].optional)
  }

  predicate Clashes(consumer: Descriptor, injection: Injection, provider: Descriptor, fault: Fault) {
    match fault
    case PluginApiIncompatible => provider.apiVersion !in injection.versions
    case TrustLaneConflict => TrustRank(provider.trust) < TrustRank(consumer.trust)
    case ScopeConflict => ScopeRank(provider.scope) < ScopeRank(consumer.scope)
    case _ => false
  }

  /** Every refusal names something wrong with the composition. */
  ghost predicate Explained(plugins: Plugins, fault: Fault) {
    || (fault in {SourceIdentityMismatch, PluginApiIncompatible} && !(Identified(plugins) && OneProvider(plugins)))
    || (fault == MissingRequiredProvider && exists i: nat, injection ::
          i < |plugins| && injection in plugins[i].needed && forall j: nat :: !Provides(plugins, j, injection.serviceId))
    || (exists i: nat, injection, j: nat ::
          Injects(plugins, i, injection) && Provides(plugins, j, injection.serviceId) && Clashes(plugins[i], injection, plugins[j], fault))
  }

  lemma InjectionFaultExactly(plugins: Plugins, providers: map<Text, nat>, i: nat, injection: Injection, required: bool)
    requires i < |plugins| && Bound(plugins, |plugins|, 0, providers) && OneProvider(plugins)
    requires Injects(plugins, i, injection) && (required ==> injection in plugins[i].needed)
    ensures injection.serviceId in providers ==> providers[injection.serviceId] < |plugins|
    ensures var provider := if injection.serviceId in providers then Some(plugins[providers[injection.serviceId]]) else None;
            var fault := InjectionFault(plugins[i], injection, provider, required);
            && (fault.None? <==> Resolved(plugins, plugins[i], injection, required))
            && (fault.Some? ==> Explained(plugins, fault.value))
  {
    var service := injection.serviceId;
    forall j: nat
      ensures Read(plugins, |plugins|, 0, j, service) <==> Provides(plugins, j, service)
    {
    }
    if service in providers {
      assert Provides(plugins, providers[service], service);
    }
    hide OneProvider, Identified, Read;
  }

  method ValidateInjections(
    plugins: Plugins, providers: map<Text, nat>, i: nat, injections: seq<Injection>, required: bool)
    returns (fault: Option<Fault>)
    requires i < |plugins| && Bound(plugins, |plugins|, 0, providers) && OneProvider(plugins)
    requires injections == if required then plugins[i].needed else plugins[i].optional
    ensures fault.None? <==> forall k :: 0 <= k < |injections| ==> Resolved(plugins, plugins[i], injections[k], required)
    ensures fault.Some? ==> Explained(plugins, fault.value)
  {
    hide Bound, OneProvider, Resolved, InjectionFault, Explained;
    var k := 0;
    while k < |injections|
      invariant 0 <= k <= |injections|
      invariant forall j :: 0 <= j < k ==> Resolved(plugins, plugins[i], injections[j], required)
    {
      var injection := injections[k];
      InjectionFaultExactly(plugins, providers, i, injection, required);
      var provider := if injection.serviceId in providers then Some(plugins[providers[injection.serviceId]]) else None;
      fault := InjectionFault(plugins[i], injection, provider, required);
      if fault.Some? {
        return;
      }
      k := k + 1;
    }
    return None;
  }

  /** The first loop: identities, and the map from services to providers. */
  method BindProviders(plugins: Plugins) returns (fault: Option<Fault>, providers: map<Text, nat>)
    ensures fault.None? <==> Identified(plugins) && OneProvider(plugins)
    ensures fault.None? ==> Bound(plugins, |plugins|, 0, providers)
    ensures fault.Some? ==> Explained(plugins, fault.value)
  {
    var pluginIds: set<Text> := {};
    providers := map[];
    assert Bound(plugins, 0, 0, providers);
    hide Bound;
    var n := 0;
    while n < |plugins|
      invariant 0 <= n <= |plugins| && Bound(plugins, n, 0, providers)
      invariant forall i :: 0 <= i < n ==> IdentityFault(plugins[i]).None? && Distinct(plugins[i].provided)
      invariant forall i, j :: 0 <= i < j < n ==> plugins[i].pluginId != plugins[j].pluginId
      invariant forall id :: id in pluginIds <==> exists i :: 0 <= i < n && plugins[i].pluginId == id
    {
      var plugin := plugins[n];
      fault := IdentityFault(plugin);
      if fault.Some? {
        return;
      }
      if plugin.pluginId in pluginIds {
        return Some(SourceIdentityMismatch), providers;
      }
      pluginIds := pluginIds + {plugin.pluginId};
      var free;
      free, providers := BindServices(plugins, n, providers);
      if !free {
        return Some(SourceIdentityMismatch), providers;
      }
      n := n + 1;
    }
    BoundMeansOne(plugins, providers);
    return None, providers;
  }

  lemma BoundMeansOne(plugins: Plugins, providers: map<Text, nat>)
    requires Bound(plugins, |plugins|, 0, providers)
    requires forall i :: 0 <= i < |plugins| ==> Distinct(plugins[i].provided)
    ensures OneProvider(plugins)
  {
    forall i: nat, j: nat, service | Provides(plugins, i, service) && Provides(plugins, j, service)
      ensures i == j
    {
      assert Read(plugins, |plugins|, 0, i, service) && Read(plugins, |plugins|, 0, j, service);
    }
  }

  /** validateCompositionPlugins returns normally exactly on the accepted compositions. */
  method ValidateCompositionPlugins(plugins: Plugins) returns (r: Result<(), Fault>)
    ensures r.Success? <==> Accepted(plugins)
    ensures r.Failure? ==> Explained(plugins, r.error)
  {
    hide Bound, Identified, OneProvider, Resolved, Explained;
    var fault, providers := BindProviders(plugins);
    if fault.Some? {
      return Failure(fault.value);
    }
    var i := 0;
    while i < |plugins|
      invariant 0 <= i <= |plugins|
      invariant forall j :: 0 <= j < i ==> InjectionsResolved(plugins, plugins[j])
    {
      fault := ValidateInjections(plugins, providers, i, plugins[i].needed, true);
      if fault.Some? {
        return Failure(fault.value);
      }
      fault := ValidateInjections(plugins, providers, i, plugins[i].optional, false);
      if fault.Some? {
        return Failure(fault.value);
      }
      i := i + 1;
    }
    return Success(());
  }

  // ---------- what acceptance guarantees ----------

  /** Each required injection has exactly one provider, and it suits. */
  lemma RequiredInjectionHasOneProvider(plugins: Plugins, i: nat, injection: Injection) returns (j: nat)
    requires Accepted(plugins) && i < |plugins| && injection in plugins[i].needed
    ensures Provides(plugins, j, injection.serviceId) && Suits(plugins[i], injection, plugins[j])
    ensures forall k: nat :: Provides(plugins, k, injection.serviceId) ==> k == j
  {
    var k :| 0 <= k < |plugins[i].needed| && plugins[i].needed[k] == injection;
    assert Resolved(plugins, plugins[i], plugins[i].needed[k], true);
    j :| Provides(plugins, j, injection.serviceId);
  }

  /** Plugin j provides a service that plugin i injects. */
  ghost predicate DependsOn(plugins: Plugins, i: nat, j: nat) {
    exists injection :: Injects(plugins, i, injection) && Provides(plugins, j, injection.serviceId)
  }

  ghost predicate Chain(plugins: Plugins, chain: seq<nat>) {
    forall k {:trigger chain[k]} :: 0 <= k < |chain| - 1 ==> DependsOn(plugins, chain[k], chain[k + 1])
  }

  predicate NoWeaker(consumer: Descriptor, provider: Descriptor) {
    TrustRank(consumer.trust) <= TrustRank(provider.trust) && ScopeRank(consumer.scope) <= ScopeRank(provider.scope)
  }

  lemma DependencyIsNoWeaker(plugins: Plugins, i: nat, j: nat)
    requires Accepted(plugins) && DependsOn(plugins, i, j)
    ensures i < |plugins| && j < |plugins| && NoWeaker(plugins[i], plugins[j])
  {
    var injection :| Injects(plugins, i, injection) && Provides(plugins, j, injection.serviceId);
    assert InjectionsResolved(plugins, plugins[i]);
    if injection in plugins[i].needed {
      var k :| 0 <= k < |plugins[i].needed| && plugins[i].needed[k] == injection;
      assert Resolved(plugins, plugins[i], plugins[i].needed[k], true);
    } else {
      var k :| 0 <= k < |plugins[i].optional| && plugins[i].optional[k] == injection;
      assert Resolved(plugins, plugins[i], plugins[i].optional[k], false);
    }
  }

  /** Along a chain of dependencies of any length, trust and scope never weaken. */
  lemma {:induction false} ChainNeverWeakens(plugins: Plugins, chain: seq<nat>, a: nat, b: nat)
    requires Accepted(plugins) && Chain(plugins, chain) && a < b < |chain|
    ensures chain[a] < |plugins| && chain[b] < |plugins| && NoWeaker(plugins[chain[a]], plugins[chain[b]])
    decreases b - a
  {
    hide Accepted, DependsOn;
    assert DependsOn(plugins, chain[b - 1], chain[(b - 1) + 1]);
    DependencyIsNoWeaker(plugins, chain[b - 1], chain[b]);
    if a < b - 1 {
      ChainNeverWeakens(plugins, chain, a, b - 1);
    }
  }

  /** So the plugins of a dependency cycle all have one trust and one scope. */
  lemma CycleHasOneRank(plugins: Plugins, cycle: seq<nat>, k: nat)
    requires Accepted(plugins) && Chain(plugins, cycle) && |cycle| > 1 && cycle[0] == cycle[|cycle| - 1] && k < |cycle|
    ensures cycle[0] < |plugins| && cycle[k] < |plugins|
    ensures plugins[cycle[k]].trust == plugins[cycle[0]].trust && plugins[cycle[k]].scope == plugins[cycle[0]].scope
  {
    hide Accepted, Chain;
    var last := |cycle| - 1;
    ChainNeverWeakens(plugins, cycle, 0, last);
    if 0 < k < last {
      ChainNeverWeakens(plugins, cycle, 0, k);
      ChainNeverWeakens(plugins, cycle, k, last);
    }
  }
}
