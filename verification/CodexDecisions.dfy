/**
  Which of several given values a run ends up writing, as a reader of the written config finds
  it: what is said here is said over the request, the old config and the new one.
  */
module CodexDecisions {
  import opened Wrappers
  import opened JsText
  import opened CodexLexer
  import opened CodexReader
  import opened CodexEditor
  import opened CodexConfigText
  import opened CodexBootstrap

  /** The first value that is given: by the caller, by the environment, by the profile. */
  ghost predicate FirstGiven(value: Option<Text>, input: Option<Text>, env: Option<Text>, profile: Option<Text>) {
    && (input.Some? ==> value == input)
    && (input.None? && env.Some? ==> value == env)
    && (input.None? && env.None? ==> value == profile)
  }

  /**
    Explicit input goes before the environment, and the environment before the profile. An
    empty string counts as given.
    */
  lemma ExplicitInputWins(request: Request)
    ensures var m, i, e, p := Merged(request), request.input, request.env, request.profile;
            && FirstGiven(m.modelProvider, i.modelProvider, e.modelProvider, Some(p.modelProvider))
            && FirstGiven(m.model, i.model, e.model, Some(p.model))
            && FirstGiven(m.reasoningEffort, i.reasoningEffort, e.reasoningEffort, p.reasoningEffort)
            && FirstGiven(m.providerName, i.providerName, e.providerName, Some(p.providerName))
            && FirstGiven(m.providerBaseUrl, i.providerBaseUrl, e.providerBaseUrl, Some(p.baseUrl))
            && FirstGiven(m.providerApiKey, i.providerApiKey, e.providerApiKey, None)
  {
  }

  /** The config names a provider of its own at a gateway address. */
  ghost predicate GatewayActive(values: Values) {
    && Normalize(Get(values.root, MODEL)).Some? && Normalize(Get(values.root, MODEL_PROVIDER)).Some?
    && IsOplGateway(Normalize(Get(TableAt(values, Normalize(Get(values.root, MODEL_PROVIDER)).value), BASE_URL)))
  }

  lemma GatewayActiveExactly(values: Values)
    ensures GatewayActive(values) <==> IsOplManagedActive(DefaultsOf(values))
  {
    hide IsOplGateway, Normalize;
  }

  /** The receipt of the last run belongs to this config and its provider, and the config is no longer as that run left it. */
  ghost predicate EditedByHand(configPath: Text, values: Values, receipt: Receipt) {
    && receipt.configPath == configPath && Normalize(Get(values.root, MODEL_PROVIDER)) == Some(receipt.providerId)
    && (|| receipt.mode == LocalOverride
        || (receipt.mode == Auto
            && (Normalize(Get(values.root, MODEL)) != receipt.lastModel || Normalize(Get(values.root, MODEL_REASONING_EFFORT)) != receipt.lastEffort)))
  }

  ghost predicate KeepsHandEdits(request: Request, values: Values) {
    GatewayActive(values) && request.receipt.Some? && EditedByHand(request.configPath, values, request.receipt.value)
  }

  lemma KeptExactly(request: Request, values: Values)
    ensures var existing := DefaultsOf(values);
            KeepsHandEdits(request, values)
            <==> IsOplManagedActive(existing) && HasLocalOverride(request.configPath, existing.value, request.receipt)
  {
    GatewayActiveExactly(values);
    hide IsOplGateway, Normalize;
  }

  /** What a reader finds at the root after a run that writes there. */
  lemma RootReadsBack(request: Request, existing: Text, d: Decision)
    requires Accepts(existing) && d.Write? && Decided(request, Read(existing), d)
    requires !StaysInactive(request, Read(existing)) && BracketFree(d.config.provider.id)
    ensures var after := Read(WrittenText(existing, d)).root;
            && Get(after, MODEL_PROVIDER) == Some(d.receipt.providerId) && Get(after, MODEL) == Some(d.config.model)
            && Get(after, MODEL_REASONING_EFFORT) == d.config.reasoningEffort
  {
    hide Read, Accepts, ConfigText, DefaultsOf, StaysInactive, DecidedModel, DecidedName, DecidedProvider, NormalConfig;
    WrittenRoot(existing, d);
  }

  /**
    A run that writes the root keys: over a hand-edited gateway config it keeps model and effort,
    and its receipt makes every later run keep them; otherwise they become the first given ones.
    */
  lemma HandEditsSurvive(request: Request, existing: Text, d: Decision)
    requires Accepts(existing) && d.Write? && Decided(request, Read(existing), d)
    requires !StaysInactive(request, Read(existing)) && BracketFree(d.config.provider.id)
    ensures var before, after := Read(existing).root, Read(WrittenText(existing, d)).root;
            if KeepsHandEdits(request, Read(existing)) then
              && Get(after, MODEL) == Normalize(Get(before, MODEL))
              && Get(after, MODEL_REASONING_EFFORT) == Normalize(Get(before, MODEL_REASONING_EFFORT))
              && d.receipt.mode == LocalOverride && d.receipt.configPath == request.configPath
              && Get(after, MODEL_PROVIDER) == Some(d.receipt.providerId)
            else
              && Get(after, MODEL) == Normalize(Merged(request).model)
              && Get(after, MODEL_REASONING_EFFORT) == Normalize(Merged(request).reasoningEffort)
              && d.receipt == Receipt(request.configPath, d.receipt.providerId, Auto, Get(after, MODEL), Get(after, MODEL_REASONING_EFFORT))
              && Get(after, MODEL_PROVIDER) == Some(d.receipt.providerId)
  {
    hide Read, Accepts, WrittenText, KeepsHandEdits, IsOplManagedActive, HasLocalOverride, Normalize, Merged;
    hide StaysInactive, NormalConfig, DecidedName, DecidedProvider;
    KeptExactly(request, Read(existing));
    RootReadsBack(request, existing, d);
  }

  /**
    The key in the written config. Over a config with a gateway provider of its own: the caller's,
    else the environment's, else the stored one. Elsewhere the first given one.
    */
  lemma KeyReadsBack(request: Request, existing: Text, d: Decision)
    requires Accepts(existing) && d.Write? && Decided(request, Read(existing), d) && BracketFree(d.config.provider.id)
    ensures var values := Read(existing);
            var explicit, env := Normalize(request.input.providerApiKey), Normalize(request.oplEnvironmentApiKey);
            var key := Get(TableAt(Read(WrittenText(existing, d)), d.config.provider.id), BEARER_TOKEN);
            if !GatewayActive(values) then key == Normalize(Merged(request).providerApiKey)
            else if explicit.Some? then key == explicit
            else if env.Some? then key == env
            else key == Normalize(Get(TableAt(values, d.config.provider.id), BEARER_TOKEN))
  {
    hide Read, Accepts, WrittenText, IsOplGateway, Normalize, DecidedName, RequestedId, NormalConfig, Merged;
    GatewayActiveExactly(Read(existing));
    WrittenProvider(existing, d);
  }

  /** The address stored for a provider before the run. */
  function StoredUrl(values: Values, id: Text): Option<Text> {
    Normalize(Get(TableAt(values, id), BASE_URL))
  }

  function StoredName(values: Values, id: Text): Option<Text> {
    Normalize(Get(TableAt(values, id), NAME))
  }

  /**
    The address in the written config. A gateway provider that is active keeps its own; so does one
    selected for a gateway address; any other gets the requested one.
    */
  lemma UrlReadsBack(request: Request, existing: Text, d: Decision)
    requires Accepts(existing) && d.Write? && Decided(request, Read(existing), d) && BracketFree(d.config.provider.id)
    ensures var values, id, requested := Read(existing), d.config.provider.id, Normalize(Merged(request).providerBaseUrl);
            var url := Get(TableAt(Read(WrittenText(existing, d)), id), BASE_URL);
            if GatewayActive(values) then url == StoredUrl(values, id)
            else if StoredUrl(values, id).Some? && IsOplGateway(StoredUrl(values, id)) && IsOplGateway(requested) then url == StoredUrl(values, id)
            else url == requested
  {
    hide Read, Accepts, WrittenText, IsOplGateway, Normalize, DecidedName, RequestedId, NormalConfig, Merged, Selected, SameEndpoint;
    GatewayActiveExactly(Read(existing));
    WrittenProvider(existing, d);
  }

  /** The id the run is asked for: the first given one, or the profile's where that is blank. */
  lemma AskedId(request: Request)
    ensures var given := Normalize(Merged(request).modelProvider);
            RequestedId(request) == if given.Some? then given.value else request.profile.modelProvider
    ensures var given := Normalize(Merged(request).providerName);
            RequestedName(request) == if given.Some? then given.value else request.profile.providerName
  {
  }

  /** The name in the written config: the stored one, unless there is none or the reserved id is asked for and selected. */
  lemma NameReadsBack(request: Request, existing: Text, d: Decision)
    requires Accepts(existing) && d.Write? && Decided(request, Read(existing), d) && BracketFree(d.config.provider.id)
    ensures var values, id := Read(existing), d.config.provider.id;
            var reserved := !GatewayActive(values) && RequestedId(request) == Ascii("oplgateway") && id == Ascii("oplgateway");
            Get(TableAt(Read(WrittenText(existing, d)), id), NAME)
            == if StoredName(values, id).Some? && !reserved then StoredName(values, id) else Some(RequestedName(request))
  {
    hide Read, Accepts, WrittenText, IsOplGateway, Normalize, RequestedId, RequestedName, NormalConfig, Merged, Selected, SameEndpoint, DecidedUrl;
    GatewayActiveExactly(Read(existing));
    WrittenProvider(existing, d);
  }

  /** Two ids are aliases of the gateway's former name, at a gateway address. */
  lemma AliasesExactly(id: Text, entry: Table)
    ensures IsLegacyAlias(id, entry) <==>
              (id == Ascii("gflab") || id == Ascii("gflabtoken")) && IsOplGateway(Normalize(Get(entry, BASE_URL)))
  {
    NormalizedAgain(Get(entry, BASE_URL));
  }

  lemma NormalizedAgain(value: Option<Text>)
    ensures Normalize(Normalize(value)) == Normalize(value)
  {
    NormalizeIsNormal(value);
    hide Trim;
  }

  /**
    The provider of a run over a config without an active gateway provider. The reserved id stands
    for itself, or for an alias where there is none of that id; another id for itself where it has
    the address or no entry does, for an entry with the address where there is one, and else for a
    new id.
    */
  lemma SelectionExactly(request: Request, existing: Text, d: Decision)
    requires Accepts(existing) && d.Write? && Decided(request, Read(existing), d)
    ensures var values, asked, id := Read(existing), RequestedId(request), d.config.provider.id;
            var url := Normalize(Merged(request).providerBaseUrl);
            if GatewayActive(values) then Normalize(Get(values.root, MODEL_PROVIDER)) == Some(id)
            else if asked == Ascii("oplgateway") then
              || (id == asked && (asked in values.providers || forall other :: other in values.providers ==> !IsLegacyAlias(other, values.providers[other])))
              || (asked !in values.providers && id in values.providers && IsLegacyAlias(id, values.providers[id]))
            else
              || (id in values.providers && SameEndpoint(Get(values.providers[id], BASE_URL), url))
              || ((forall other :: other in values.providers ==> !SameEndpoint(Get(values.providers[other], BASE_URL), url))
                  && id !in values.providers && (asked !in values.providers ==> id == asked))
  {
    hide Read, Accepts, IsOplGateway, Normalize, RequestedId, NormalConfig, Merged, DecidedUrl, DecidedName, IsLegacyAlias;
    GatewayActiveExactly(Read(existing));
    var url := Normalize(Merged(request).providerBaseUrl);
    if url.Some? {
      forall entry: Table
        ensures SameEndpointEntry(entry, url.value) <==> SameEndpoint(Get(entry, BASE_URL), url)
      {
        EntryExactly(entry, url.value);
      }
    }
    hide SameEndpointEntry, SameEndpoint;
  }

  lemma EntryExactly(entry: Table, url: Text)
    ensures SameEndpointEntry(entry, url) <==> SameEndpoint(Get(entry, BASE_URL), Some(url))
  {
    hide NormalizeBaseUrl;
  }

  /**
    The root keys are left alone where the config is complete with a provider that is no gateway,
    activation is not asked for, and the provider is not the reserved one, named already and asked
    for at a gateway address.
    */
  lemma RootIsLeftAloneExactly(request: Request, existing: Text, d: Decision)
    requires Accepts(existing) && d.Write? && Decided(request, Read(existing), d)
    ensures var values, reserved := Read(existing), Ascii("oplgateway");
            d.providerOnly <==>
              && Normalize(Get(values.root, MODEL)).Some? && !GatewayActive(values) && !request.activateProvider
              && !(&& Normalize(Get(values.root, MODEL_PROVIDER)) == Some(reserved)
                   && RequestedId(request) == reserved == d.config.provider.id && IsOplGateway(Normalize(Merged(request).providerBaseUrl)))
    ensures d.providerOnly <==> d.receipt.mode == InactiveProvider
  {
    hide Read, Accepts, IsOplGateway, Normalize, RequestedId, NormalConfig, Merged, DecidedName, DecidedProvider, DecidedModel;
    GatewayActiveExactly(Read(existing));
  }

  /** A URL without its trailing slashes. */
  lemma TrailingSlashesDoNotMatter(url: Text, slashes: nat)
    requires Normal(url)
    ensures NormalizeBaseUrl(Some(url + seq(slashes, _ => SLASH))) == NormalizeBaseUrl(Some(url))
    ensures url[|url| - 1] != SLASH ==> NormalizeBaseUrl(Some(url)) == Some(url)
  {
    TrimIdempotent(url);
    var a, b := TrimSplits(url);
    hide Trim;
    var tail := seq(slashes, _ => SLASH);
    TrimIdentity(url + tail);
    SlashesDrop(url, slashes);
  }

  lemma {:induction false} SlashesDrop(url: Text, slashes: nat)
    ensures DropSlashes(url + seq(slashes, _ => SLASH)) == DropSlashes(url)
  {
    var t := url + seq(slashes, _ => SLASH);
    if slashes == 0 {
      assert t == url;
    } else {
      SlashesDrop(url, slashes - 1);
      assert t[..|t| - 1] == url + seq(slashes - 1, _ => SLASH);
    }
  }

  /** The two gateway addresses, however they are written, and no others. */
  lemma GatewayExactly(value: Text)
    requires Normal(value) && value[|value| - 1] != SLASH
    ensures IsOplGateway(Some(value)) <==> value == Ascii("https://gateway.medopl.com/v1") || value == Ascii("https://gflabtoken.cn/v1")
  {
    TrailingSlashesDoNotMatter(value, 0);
    AddressPlain(OPL_GATEWAY_BASE_URL);
    AddressPlain(OPL_GATEWAY_LEGACY_BASE_URL);
    hide NormalizeBaseUrl;
  }

  lemma AddressPlain(t: Text)
    requires t in {OPL_GATEWAY_BASE_URL, OPL_GATEWAY_LEGACY_BASE_URL}
    ensures NormalizeBaseUrl(Some(t)) == Some(t)
  {
    assert t[0] == 0x68 && t[|t| - 1] == 0x31;
    TrimIdentity(t);
    hide Trim;
  }

  /** The twelfth candidate is spelled with both its digits. */
  lemma TwelfthCandidate()
    ensures Candidate(Ascii("custom"), 12) == Ascii("custom_12")
  {
    assert Decimal(1) == [0x31] && Decimal(12) == [0x31, 0x32];
  }
}
