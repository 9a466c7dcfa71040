/**
  The decisions of bootstrapLocalCodexDefaults on top of the editor: which provider id is
  used, which values are written, and what the reader sees afterwards.
  */
module CodexBootstrap {
  import opened Wrappers
  import opened JsText
  import opened CodexLexer
  import opened CodexReader
  import opened CodexEditor
  import opened CodexConfigText
  import opened CodexOtherTables

  const SLASH: Unit := 0x2F
  const UNDERSCORE: Unit := 0x5F

  const OPL_GATEWAY_BASE_URL := Ascii("https://gateway.medopl.com/v1")
  const OPL_GATEWAY_LEGACY_BASE_URL := Ascii("https://gflabtoken.cn/v1")
  const OPLGATEWAY := Ascii("oplgateway")
  const GFLAB := Ascii("gflab")
  const GFLABTOKEN := Ascii("gflabtoken")

  /** normalizeOptionalString: trimmed and not empty, or null. */
  function Normalize(value: Option<Text>): Option<Text> {
    if value.Some? && Trim(value.value) != [] then Some(Trim(value.value)) else None
  }

  function DropSlashes(t: Text): Text {
    if t != [] && t[|t| - 1] == SLASH then DropSlashes(t[..|t| - 1]) else t
  }

  function NormalizeBaseUrl(value: Option<Text>): Option<Text> {
    match Normalize(value)
    case None => None
    case Some(t) => Some(DropSlashes(t))
  }

  predicate IsOplGateway(value: Option<Text>) {
    var url := NormalizeBaseUrl(value);
    url == NormalizeBaseUrl(Some(OPL_GATEWAY_BASE_URL)) || url == NormalizeBaseUrl(Some(OPL_GATEWAY_LEGACY_BASE_URL))
  }

  lemma GatewayIsPresent(value: Option<Text>)
    ensures IsOplGateway(value) ==> Normalize(value).Some?
  {
    hide Trim, DropSlashes;
    var a, b := OPL_GATEWAY_BASE_URL, OPL_GATEWAY_LEGACY_BASE_URL;
    assert a[0] == 0x68 && b[0] == 0x68;
    TrimNonEmpty(a);
    TrimNonEmpty(b);
  }

  /** Two base URLs that stand for one endpoint. */
  predicate SameEndpoint(a: Option<Text>, b: Option<Text>) {
    NormalizeBaseUrl(a) == NormalizeBaseUrl(b) || (IsOplGateway(a) && IsOplGateway(b))
  }

  // ---------- selectInactiveProviderId ----------

  /** Decimal digits of the suffix, as a template literal prints them. */
  function Decimal(n: nat): Text {
    if n < 10 then [0x30 + n] else Decimal(n / 10) + [0x30 + n % 10]
  }

  function DecimalValue(t: Text): int {
    if t == [] then 0 else DecimalValue(t[..|t| - 1]) * 10 + (t[|t| - 1] as int) - 0x30
  }

  lemma {:induction false} DecimalRoundTrip(n: nat)
    ensures DecimalValue(Decimal(n)) == n
  {
    var t := Decimal(n);
    if n < 10 {
      assert t[..|t| - 1] == [];
    } else {
      DecimalRoundTrip(n / 10);
      assert t[..|t| - 1] == Decimal(n / 10);
    }
  }

  function Candidate(desired: Text, suffix: nat): Text {
    desired + [UNDERSCORE] + Decimal(suffix)
  }

  lemma CandidateInjective(desired: Text, m: nat, n: nat)
    requires Candidate(desired, m) == Candidate(desired, n)
    ensures m == n
  {
    assert Candidate(desired, m)[|desired| + 1..] == Decimal(m);
    assert Candidate(desired, n)[|desired| + 1..] == Decimal(n);
    DecimalRoundTrip(m);
    DecimalRoundTrip(n);
  }

  /** No id taken from left has been tried with a smaller suffix. */
  ghost predicate Untried(desired: Text, taken: set<Text>, suffix: nat, left: set<Text>) {
    forall k: nat :: suffix <= k && Candidate(desired, k) in taken ==> Candidate(desired, k) in left
  }

  lemma TriedOne(desired: Text, taken: set<Text>, suffix: nat, left: set<Text>)
    requires Untried(desired, taken, suffix, left)
    ensures Untried(desired, taken, suffix + 1, left - {Candidate(desired, suffix)})
  {
    forall k: nat | suffix + 1 <= k && Candidate(desired, k) in taken
      ensures Candidate(desired, k) in left - {Candidate(desired, suffix)}
    {
      if Candidate(desired, k) == Candidate(desired, suffix) {
        CandidateInjective(desired, k, suffix);
      }
    }
  }

  /** The unbounded search for a free suffix ends: each turn uses up one taken id. */
  method FreeCandidate(desiredProviderId: Text, taken: set<Text>) returns (candidate: Text, ghost chosen: nat)
    ensures candidate == Candidate(desiredProviderId, chosen) && candidate !in taken && chosen >= 2
    ensures forall k: nat :: 2 <= k < chosen ==> Candidate(desiredProviderId, k) in taken
  {
    var suffix := 2;
    ghost var left := taken;
    while true
      invariant suffix >= 2
      invariant Untried(desiredProviderId, taken, suffix, left)
      invariant forall k: nat :: 2 <= k < suffix ==> Candidate(desiredProviderId, k) in taken
      decreases |left|
    {
      candidate := Candidate(desiredProviderId, suffix);
      if candidate !in taken {
        return candidate, suffix;
      }
      TriedOne(desiredProviderId, taken, suffix, left);
      left := left - {candidate};
      suffix := suffix + 1;
    }
  }

  predicate SameEndpointEntry(entry: Table, providerBaseUrl: Text) {
    if IsOplGateway(Some(providerBaseUrl)) then IsOplGateway(Get(entry, BASE_URL))
    else NormalizeBaseUrl(Get(entry, BASE_URL)) == NormalizeBaseUrl(Some(providerBaseUrl))
  }

  predicate IsLegacyAlias(id: Text, entry: Table) {
    (id == GFLAB || id == GFLABTOKEN) && IsOplGateway(Get(entry, BASE_URL))
  }

  lemma LaterFirst(order: seq<Text>, providers: map<Text, Table>, accepts: (Text, Table) -> bool, id: Text)
    requires order != [] && FirstAccepted(order[1..], providers, accepts, id)
    requires order[0] in providers ==> !accepts(order[0], providers[order[0]])
    ensures FirstAccepted(order, providers, accepts, id)
  {
    var rest := order[1..];
    var i :| 0 <= i < |rest| && rest[i] == id && id in providers && accepts(id, providers[id])
             && forall j :: 0 <= j < i && rest[j] in providers ==> !accepts(rest[j], providers[rest[j]]);
    assert order[i + 1] == id && forall j :: 1 <= j < i + 1 ==> order[j] == rest[j - 1];
  }

  /** [...providerValues.entries()].find(...) */
  function Find(order: seq<Text>, providers: map<Text, Table>, accepts: (Text, Table) -> bool): (r: Option<Text>)
    ensures r.Some? ==> FirstAccepted(order, providers, accepts, r.value)
    ensures r.None? ==> forall id :: id in order && id in providers ==> !accepts(id, providers[id])
  {
    if order == [] then None
    else if order[0] in providers && accepts(order[0], providers[order[0]]) then
      assert FirstAccepted(order, providers, accepts, order[0]);
      Some(order[0])
    else
      var r := Find(order[1..], providers, accepts);
      assert r.Some? ==> FirstAccepted(order, providers, accepts, r.value) by {
        if r.Some? {
          LaterFirst(order, providers, accepts, r.value);
        }
      }
      r
  }

  /** The smallest suffix from 2 on that is free. */
  ghost predicate FreshId(desired: Text, providers: map<Text, Table>, id: Text) {
    exists k: nat :: k >= 2 && id == Candidate(desired, k) && id !in providers && forall j: nat :: 2 <= j < k ==> Candidate(desired, j) in providers
  }

  /** The first id, in the reader's order, whose entry is accepted. */
  ghost predicate FirstAccepted(order: seq<Text>, providers: map<Text, Table>, accepts: (Text, Table) -> bool, id: Text) {
    exists i :: 0 <= i < |order| && order[i] == id && id in providers && accepts(id, providers[id])
                && forall j :: 0 <= j < i && order[j] in providers ==> !accepts(order[j], providers[order[j]])
  }

  ghost predicate HasLegacyAlias(providers: map<Text, Table>) {
    exists other :: other in providers && IsLegacyAlias(other, providers[other])
  }

  /** How an id is selected for a desired id and endpoint: it has the endpoint, or no entry has and the id is new. */
  ghost predicate Selected(desired: Text, providerBaseUrl: Text, providers: map<Text, Table>, id: Text) {
    if desired == OPLGATEWAY then
      if desired !in providers && HasLegacyAlias(providers)
      then id in providers && IsLegacyAlias(id, providers[id])
      else id == desired
    else if exists other :: other in providers && SameEndpointEntry(providers[other], providerBaseUrl)
    then id in providers && SameEndpointEntry(providers[id], providerBaseUrl)
    else if desired in providers then FreshId(desired, providers, id)
    else id == desired
  }

  method SelectInactiveProviderId(desiredProviderId: Text, providerBaseUrl: Text, providerValues: map<Text, Table>, order: seq<Text>)
    returns (id: Text)
    requires forall other :: other in order <==> other in providerValues
    ensures Selected(desiredProviderId, providerBaseUrl, providerValues, id)
    ensures desiredProviderId in providerValues && SameEndpointEntry(providerValues[desiredProviderId], providerBaseUrl) ==>
              id == desiredProviderId
    ensures desiredProviderId != OPLGATEWAY && id != desiredProviderId && id in providerValues ==>
              FirstAccepted(order, providerValues, (other: Text, entry: Table) => SameEndpointEntry(entry, providerBaseUrl), id)
    ensures desiredProviderId == OPLGATEWAY && id != desiredProviderId ==> FirstAccepted(order, providerValues, IsLegacyAlias, id)
    ensures BracketFree(desiredProviderId) && id !in providerValues ==> BracketFree(id)
  {
    var hasDesired := desiredProviderId in providerValues;
    if desiredProviderId == OPLGATEWAY {
      if hasDesired {
        return desiredProviderId;
      }
      var alias := Find(order, providerValues, IsLegacyAlias);
      return if alias.Some? then alias.value else desiredProviderId;
    }
    if hasDesired && SameEndpointEntry(providerValues[desiredProviderId], providerBaseUrl) {
      return desiredProviderId;
    }
    var alias := Find(order, providerValues, (other: Text, entry: Table) => SameEndpointEntry(entry, providerBaseUrl));
    if alias.Some? {
      return alias.value;
    }
    if !hasDesired {
      return desiredProviderId;
    }
    ghost var suffix;
    id, suffix := FreeCandidate(desiredProviderId, providerValues.Keys);
    DecimalHasNoBracket(suffix);
  }

  lemma {:induction false} DecimalHasNoBracket(n: nat)
    ensures BracketFree(Decimal(n))
  {
    if n >= 10 {
      DecimalHasNoBracket(n / 10);
    }
  }

  // ---------- readLocalCodexDefaults ----------

  datatype Defaults = Defaults(
    modelProvider: Option<Text>,
    model: Text,
    reasoningEffort: Option<Text>,
    providerName: Option<Text>,
    providerBaseUrl: Option<Text>,
    providerApiKey: Option<Text>)

  /** None where the source reports that the default model entry is missing. */
  function DefaultsOf(v: Values): Option<Defaults> {
    var model := Normalize(Get(v.root, MODEL));
    if model.None? then None
    else
      var providerId := Normalize(Get(v.root, MODEL_PROVIDER));
      var entry := if providerId.Some? then TableAt(v, providerId.value) else map[];
      Some(Defaults(providerId, model.value, Normalize(Get(v.root, MODEL_REASONING_EFFORT)),
                    Normalize(Get(entry, NAME)), Normalize(Get(entry, BASE_URL)), Normalize(Get(entry, BEARER_TOKEN))))
  }

  // ---------- bootstrapLocalCodexDefaults ----------

  /** The nullable fields of BootstrapLocalCodexDefaultsInput; Some([]) is an empty string. */
  datatype Input = Input(
    modelProvider: Option<Text>,
    model: Option<Text>,
    reasoningEffort: Option<Text>,
    providerName: Option<Text>,
    providerBaseUrl: Option<Text>,
    providerApiKey: Option<Text>)

  function Over<T>(upper: Option<T>, lower: Option<T>): Option<T> {
    if upper.Some? then upper else lower
  }

  /** Object spread of compacted inputs: later fields win where they are given. */
  function Overlay(lower: Input, upper: Input): Input {
    Input(Over(upper.modelProvider, lower.modelProvider), Over(upper.model, lower.model),
          Over(upper.reasoningEffort, lower.reasoningEffort), Over(upper.providerName, lower.providerName),
          Over(upper.providerBaseUrl, lower.providerBaseUrl), Over(upper.providerApiKey, lower.providerApiKey))
  }

  /** The bundled profile: trimmed, non-empty required strings. */
  datatype Profile = Profile(modelProvider: Text, model: Text, reasoningEffort: Option<Text>, providerName: Text, baseUrl: Text)

  function ProfileInput(p: Profile): Input {
    Input(Some(p.modelProvider), Some(p.model), p.reasoningEffort, Some(p.providerName), Some(p.baseUrl), None)
  }

  datatype Mode = Auto | LocalOverride | InactiveProvider

  datatype Receipt = Receipt(
    configPath: Text,
    providerId: Text,
    mode: Mode,
    lastModel: Option<Text>,
    lastEffort: Option<Text>)

  function HasLocalOverride(configPath: Text, existing: Defaults, receipt: Option<Receipt>): bool {
    if receipt.None? || receipt.value.configPath != configPath || Some(receipt.value.providerId) != existing.modelProvider then false
    else if receipt.value.mode == LocalOverride then true
    else if receipt.value.mode != Auto then false
    else Some(existing.model) != receipt.value.lastModel || existing.reasoningEffort != receipt.value.lastEffort
  }

  predicate IsOplManagedActive(existing: Option<Defaults>) {
    existing.Some? && existing.value.modelProvider.Some? && IsOplGateway(existing.value.providerBaseUrl)
  }

  datatype Request = Request(
    configPath: Text,
    profile: Profile,
    env: Input,
    input: Input,
    oplEnvironmentApiKey: Option<Text>,
    activateProvider: bool,
    receipt: Option<Receipt>)

  datatype Decision =
    | SkipExistingConfig
    | SkipMissingInput
    | Write(config: Config, providerOnly: bool, receipt: Receipt)

  /** The provider part of the decision: id, name and base URL. */
  method DecideProvider(request: Request, values: Values, order: seq<Text>, providerBaseUrl: Text, apiKey: Text)
    returns (p: Provider)
    requires OrderMatches(order, values) && ValidProfile(request.profile)
    requires Normalize(Merged(request).providerBaseUrl) == Some(providerBaseUrl) && Normal(apiKey)
    ensures DecidedProvider(request, values, p) && p.name == DecidedName(request, values, p.id)
    ensures Normal(p.name) && Normal(p.baseUrl) && p.apiKey == Some(apiKey)
  {
    hide Trim, DropSlashes, RequestedId, RequestedName, Selected;
    var existing := DefaultsOf(values);
    RequestedNameIsNormal(request);
    if IsOplManagedActive(existing) {
      GatewayIsPresent(existing.value.providerBaseUrl);
      DefaultsAreNormal(values);
      var stored := existing.value.providerName;
      var name := if stored.Some? then stored.value else RequestedName(request);
      return Provider(existing.value.modelProvider.value, name, existing.value.providerBaseUrl.value, Some(apiKey));
    }
    p := DecideInactiveProvider(request, values, order, providerBaseUrl, apiKey);
  }

  /** The same when no gateway provider is active: the provider is selected among those there are. */
  method DecideInactiveProvider(request: Request, values: Values, order: seq<Text>, providerBaseUrl: Text, apiKey: Text)
    returns (p: Provider)
    requires OrderMatches(order, values) && ValidProfile(request.profile) && !IsOplManagedActive(DefaultsOf(values))
    requires Normalize(Merged(request).providerBaseUrl) == Some(providerBaseUrl) && Normal(apiKey)
    ensures DecidedProvider(request, values, p) && p.name == DecidedName(request, values, p.id)
    ensures Normal(p.name) && Normal(p.baseUrl) && p.apiKey == Some(apiKey)
  {
    hide Trim, DropSlashes, RequestedId, RequestedName, Selected, DefaultsOf;
    RequestedNameIsNormal(request);
    NormalizeIsNormal(Merged(request).providerBaseUrl);
    var providerId := SelectInactiveProviderId(RequestedId(request), providerBaseUrl, values.providers, order);
    var entry := TableAt(values, providerId);
    var existingName, existingBaseUrl := Normalize(Get(entry, NAME)), Normalize(Get(entry, BASE_URL));
    NormalizeIsNormal(Get(entry, NAME));
    NormalizeIsNormal(Get(entry, BASE_URL));
    var reserved := RequestedId(request) == OPLGATEWAY && providerId == OPLGATEWAY;
    var name := if !reserved && existingName.Some? then existingName.value else RequestedName(request);
    var baseUrl :=
      if existingBaseUrl.Some? && IsOplGateway(existingBaseUrl) && IsOplGateway(Some(providerBaseUrl)) then existingBaseUrl.value
      else providerBaseUrl;
    return Provider(providerId, name, baseUrl, Some(apiKey));
  }

  lemma RequestedNameIsNormal(request: Request)
    requires ValidProfile(request.profile)
    ensures Normal(RequestedName(request))
  {
    NormalizeIsNormal(Merged(request).providerName);
  }

  /** The key to write: with our provider active the explicit one, the environment's or the stored one, else the merged one. */
  function SelectedApiKey(request: Request, existing: Option<Defaults>): Option<Text> {
    if IsOplManagedActive(existing) then
      Over(Normalize(request.input.providerApiKey), Over(Normalize(request.oplEnvironmentApiKey), existing.value.providerApiKey))
    else Normalize(Merged(request).providerApiKey)
  }

  method Decide(request: Request, values: Values, order: seq<Text>) returns (d: Decision)
    requires OrderMatches(order, values) && ValidProfile(request.profile)
    ensures d.Write? ==> Decided(request, values, d)
    ensures d.SkipExistingConfig? <==>
              DefaultsOf(values).Some? && !IsOplManagedActive(DefaultsOf(values)) && Normalize(Merged(request).providerApiKey).None?
    ensures !d.SkipExistingConfig? ==>
              (d.Write? <==> Normalize(Merged(request).model).Some? && Normalize(Merged(request).providerBaseUrl).Some?
                             && SelectedApiKey(request, DefaultsOf(values)).Some?)
  {
    hide Trim, DropSlashes, RequestedId, DecidedProvider, DecidedName;
    var merged := Merged(request);
    var model := Normalize(merged.model);
    var providerBaseUrl := Normalize(merged.providerBaseUrl);
    var providerApiKey := Normalize(merged.providerApiKey);
    var existing := DefaultsOf(values);
    var oplProviderActive := IsOplManagedActive(existing);
    DefaultsAreNormal(values);
    NormalizeIsNormal(merged.model);
    NormalizeIsNormal(merged.providerApiKey);
    NormalizeIsNormal(merged.reasoningEffort);
    NormalizeIsNormal(request.input.providerApiKey);
    NormalizeIsNormal(request.oplEnvironmentApiKey);
    var selectedApiKey := SelectedApiKey(request, existing);
    if existing.Some? && !oplProviderActive && providerApiKey.None? {
      return SkipExistingConfig;
    }
    if model.None? || providerBaseUrl.None? || selectedApiKey.None? {
      return SkipMissingInput;
    }
    var provider := DecideProvider(request, values, order, providerBaseUrl.value, selectedApiKey.value);
    var reservedIsActive := ReservedIsActive(request, existing, provider.id);
    var preserveOverride := oplProviderActive && HasLocalOverride(request.configPath, existing.value, request.receipt);
    var keepExisting := (existing.Some? && !oplProviderActive && !request.activateProvider) || preserveOverride;
    var selectedModel := if keepExisting then existing.value.model else model.value;
    var selectedEffort := if keepExisting then existing.value.reasoningEffort else Normalize(merged.reasoningEffort);
    var providerOnly := existing.Some? && !oplProviderActive && !reservedIsActive && !request.activateProvider;
    var mode := if providerOnly then InactiveProvider else if preserveOverride then LocalOverride else Auto;
    var lastModel := if mode == Auto then Some(selectedModel) else if existing.Some? then Some(existing.value.model) else None;
    var lastEffort := if mode == Auto then selectedEffort else if existing.Some? then existing.value.reasoningEffort else None;
    return Write(Config(provider, selectedModel, selectedEffort), providerOnly,
                 Receipt(request.configPath, provider.id, mode, lastModel, lastEffort));
  }

  function TextOr(text: Option<Text>): Text {
    if text.Some? then text.value else []
  }

  /** The text a decision writes over an existing one. */
  function WrittenText(existing: Text, d: Decision): Text
    requires d.Write?
  {
    if d.providerOnly then ProviderOnlyText(existing, d.config.provider) else ConfigText(existing, d.config)
  }

  /** The whole run: text is None when the config file does not exist; next is the file afterwards. */
  method Bootstrap(request: Request, text: Option<Text>) returns (r: Result<Decision, LexError>, next: Option<Text>)
    requires ValidProfile(request.profile)
    ensures r.Failure? <==> !Accepts(TextOr(text))
    ensures r.Success? && r.value.Write? ==>
              Decided(request, Read(TextOr(text)), r.value) && next == Some(WrittenText(TextOr(text), r.value))
    ensures r.Failure? || !r.value.Write? ==> next == text
  {
    var existingText := TextOr(text);
    var values, order := ReadLocalCodexConfigValues(existingText);
    if values.Failure? {
      return Failure(values.error), text;
    }
    ReadItemsOrder(ItemsOf(existingText), [], [], NO_VALUES);
    var d := Decide(request, values.value, order);
    if !d.Write? {
      return Success(d), text;
    }
    var written;
    if d.providerOnly {
      written := BuildCodexProviderOnlyConfigText(existingText, d.config.provider);
    } else {
      written := BuildCodexConfigText(existingText, d.config);
    }
    return Success(d), Some(written.value);
  }

  function Merged(request: Request): Input {
    Overlay(Overlay(ProfileInput(request.profile), request.env), request.input)
  }

  function RequestedId(request: Request): Text {
    var id := Normalize(Merged(request).modelProvider);
    if id.Some? then id.value else request.profile.modelProvider
  }

  /** A present value that normalising leaves alone. */
  predicate Normal(value: Text) {
    Normalize(Some(value)) == Some(value)
  }

  predicate NormalOrAbsent(value: Option<Text>) {
    value.Some? ==> Normal(value.value)
  }

  lemma NormalizeIsNormal(value: Option<Text>)
    ensures NormalOrAbsent(Normalize(value))
  {
    if value.Some? {
      TrimIdempotent(value.value);
    }
  }

  lemma DefaultsAreNormal(v: Values)
    ensures var d := DefaultsOf(v);
            d.Some? ==> && Normal(d.value.model) && NormalOrAbsent(d.value.reasoningEffort) && NormalOrAbsent(d.value.modelProvider)
                        && NormalOrAbsent(d.value.providerBaseUrl) && NormalOrAbsent(d.value.providerName)
                        && NormalOrAbsent(d.value.providerApiKey)
  {
    NormalizeIsNormal(Get(v.root, MODEL));
    NormalizeIsNormal(Get(v.root, MODEL_PROVIDER));
    NormalizeIsNormal(Get(v.root, MODEL_REASONING_EFFORT));
    var id := Normalize(Get(v.root, MODEL_PROVIDER));
    var entry := if id.Some? then TableAt(v, id.value) else map[];
    NormalizeIsNormal(Get(entry, NAME));
    NormalizeIsNormal(Get(entry, BASE_URL));
    NormalizeIsNormal(Get(entry, BEARER_TOKEN));
  }

  /** An existing, complete config whose provider is not ours, and no explicit activation. */
  ghost predicate StaysInactive(request: Request, prior: Values) {
    var existing := DefaultsOf(prior);
    existing.Some? && !IsOplManagedActive(existing) && !request.activateProvider
  }

  /** The reserved provider is selected, is active already, and a gateway address is asked for. */
  predicate ReservedIsActive(request: Request, existing: Option<Defaults>, id: Text) {
    && existing.Some? && existing.value.modelProvider == Some(OPLGATEWAY)
    && RequestedId(request) == OPLGATEWAY && id == OPLGATEWAY && IsOplGateway(Normalize(Merged(request).providerBaseUrl))
  }

  ghost predicate DecidedProvider(request: Request, prior: Values, p: Provider) {
    var existing := DefaultsOf(prior);
    var requestedUrl := Normalize(Merged(request).providerBaseUrl);
    if IsOplManagedActive(existing) then
      existing.value.modelProvider == Some(p.id) && existing.value.providerBaseUrl == Some(p.baseUrl)
    else
      && requestedUrl.Some?
      && Selected(RequestedId(request), requestedUrl.value, prior.providers, p.id)
      && SameEndpoint(Some(p.baseUrl), requestedUrl)
      && p.baseUrl == DecidedUrl(Normalize(Get(TableAt(prior, p.id), BASE_URL)), requestedUrl.value)
  }

  function RequestedName(request: Request): Text {
    var name := Normalize(Merged(request).providerName);
    if name.Some? then name.value else request.profile.providerName
  }

  /** The active provider and a selected one keep their names; the reserved entry takes the requested one. */
  function DecidedName(request: Request, prior: Values, id: Text): Text {
    var existing := DefaultsOf(prior);
    var stored :=
      if IsOplManagedActive(existing) then existing.value.providerName
      else if RequestedId(request) == OPLGATEWAY == id then None
      else Normalize(Get(TableAt(prior, id), NAME));
    if stored.Some? then stored.value else RequestedName(request)
  }

  /** A gateway address is not replaced by another gateway address. */
  function DecidedUrl(stored: Option<Text>, requested: Text): Text {
    if stored.Some? && IsOplGateway(stored) && IsOplGateway(Some(requested)) then stored.value else requested
  }

  ghost predicate NormalConfig(c: Config) {
    && Normal(c.model) && NormalOrAbsent(c.reasoningEffort)
    && Normal(c.provider.name) && Normal(c.provider.baseUrl)
    && c.provider.apiKey.Some? && Normal(c.provider.apiKey.value)
  }

  ghost predicate DecidedReceipt(request: Request, existing: Option<Defaults>, d: Decision)
    requires d.Write?
  {
    && d.receipt.configPath == request.configPath
    && d.receipt.providerId == d.config.provider.id
    && (d.providerOnly <==> d.receipt.mode == InactiveProvider)
    && (d.receipt.mode == Auto ==> d.receipt.lastModel == Some(d.config.model) && d.receipt.lastEffort == d.config.reasoningEffort)
    && (d.receipt.mode != Auto ==>
          existing.Some? && d.receipt.lastModel == Some(existing.value.model) && d.receipt.lastEffort == existing.value.reasoningEffort)
  }

  /** What every decision to write satisfies, in terms of the request and the old reading. */
  ghost predicate Decided(request: Request, prior: Values, d: Decision)
    requires d.Write?
  {
    && DecidedProvider(request, prior, d.config.provider)
    && d.config.provider.name == DecidedName(request, prior, d.config.provider.id)
    && d.config.provider.apiKey == SelectedApiKey(request, DefaultsOf(prior))
    && NormalConfig(d.config)
    && DecidedReceipt(request, DefaultsOf(prior), d)
    && (d.providerOnly <==> StaysInactive(request, prior) && !ReservedIsActive(request, DefaultsOf(prior), d.config.provider.id))
    && (StaysInactive(request, prior) ==>
          var existing := DefaultsOf(prior).value;
          && d.config.model == existing.model && d.config.reasoningEffort == existing.reasoningEffort
          && (!d.providerOnly ==> existing.modelProvider == Some(d.config.provider.id)))
    && (!StaysInactive(request, prior) ==> DecidedModel(request, DefaultsOf(prior), d))
  }

  /** Otherwise a local override of the active provider is kept, and anything else is what was asked for. */
  ghost predicate DecidedModel(request: Request, existing: Option<Defaults>, d: Decision)
    requires d.Write?
  {
    if IsOplManagedActive(existing) && HasLocalOverride(request.configPath, existing.value, request.receipt) then
      d.receipt.mode == LocalOverride && d.config.model == existing.value.model && d.config.reasoningEffort == existing.value.reasoningEffort
    else
      d.receipt.mode == Auto && Some(d.config.model) == Normalize(Merged(request).model)
      && d.config.reasoningEffort == Normalize(Merged(request).reasoningEffort)
  }

  /** A profile as readBundledCodexDefaultProfile returns it: trimmed, non-empty strings. */
  predicate ValidProfile(p: Profile) {
    Normal(p.modelProvider) && Normal(p.model) && NormalOrAbsent(p.reasoningEffort) && Normal(p.providerName) && Normal(p.baseUrl)
  }


  // ---------- what the reader sees after a run ----------

  lemma RootEntry(c: Config)
    ensures var t := SetAll(map[], RootPairs(c));
            && MODEL_PROVIDER in t && t[MODEL_PROVIDER] == c.provider.id
            && MODEL in t && t[MODEL] == c.model
            && (if c.reasoningEffort.Some? && c.reasoningEffort.value != []
                then MODEL_REASONING_EFFORT in t && t[MODEL_REASONING_EFFORT] == c.reasoningEffort.value
                else MODEL_REASONING_EFFORT !in t)
  {
    var pairs := RootPairs(c);
    var last := OptionalPair(MODEL_REASONING_EFFORT, c.reasoningEffort);
    assert pairs[1..][1..] == last;
    assert SetAll(map[], pairs) == SetAll(map[MODEL_PROVIDER := c.provider.id][MODEL := c.model], last);
    if last != [] {
      assert last[1..] == [];
    }
  }

  lemma WrittenRoot(existing: Text, d: Decision)
    requires Accepts(existing) && d.Write? && !d.providerOnly && BracketFree(d.config.provider.id) && NormalConfig(d.config)
    ensures var root := Read(ConfigText(existing, d.config)).root;
            && Get(root, MODEL_PROVIDER) == Some(d.config.provider.id)
            && Get(root, MODEL) == Some(d.config.model)
            && Get(root, MODEL_REASONING_EFFORT) == d.config.reasoningEffort
  {
    ReadAfterWrite(existing, d.config);
    RootEntry(d.config);
  }

  lemma WrittenProvider(existing: Text, d: Decision)
    requires Accepts(existing) && d.Write? && BracketFree(d.config.provider.id) && NormalConfig(d.config)
    ensures var p := d.config.provider;
            var v := Read(WrittenText(existing, d));
            && Accepts(WrittenText(existing, d))
            && (forall id :: id != p.id ==> (id in v.providers <==> id in Read(existing).providers) && TableAt(v, id) == TableAt(Read(existing), id))
            && p.id in v.providers
            && Get(TableAt(v, p.id), NAME) == Some(p.name)
            && Get(TableAt(v, p.id), BASE_URL) == Some(p.baseUrl)
            && Get(TableAt(v, p.id), BEARER_TOKEN) == p.apiKey
  {
    hide ItemsOf, ReadItems, ProviderPairs, ProviderOnlyText, ConfigText, PreservedText;
    if d.providerOnly {
      ReadAfterProviderWrite(existing, d.config.provider);
    } else {
      ReadAfterWrite(existing, d.config);
    }
    ProviderEntry(d.config.provider);
  }

  /**
    A run that does not activate leaves a complete config with a foreign active provider in
    charge: same selection, same model and effort, every other provider and table unchanged.
    */
  lemma KeepsForeignSelection(request: Request, existing: Text, d: Decision)
    requires Accepts(existing) && d.Write? && Decided(request, Read(existing), d)
    requires StaysInactive(request, Read(existing)) && BracketFree(d.config.provider.id)
    ensures var before, after := Read(existing), Read(WrittenText(existing, d));
            && Accepts(WrittenText(existing, d))
            && DefaultsOf(after).Some?
            && DefaultsOf(after).value.modelProvider == DefaultsOf(before).value.modelProvider
            && DefaultsOf(after).value.model == DefaultsOf(before).value.model
            && DefaultsOf(after).value.reasoningEffort == DefaultsOf(before).value.reasoningEffort
            && (forall id :: id != d.config.provider.id ==>
                  (id in after.providers <==> id in before.providers) && TableAt(after, id) == TableAt(before, id))
            && OtherTables(WrittenText(existing, d)) == OtherTables(existing)
  {
    WrittenProvider(existing, d);
    if d.providerOnly {
      ReadAfterProviderWrite(existing, d.config.provider);
      ProviderWriteKeepsOtherTables(existing, d.config.provider);
    } else {
      WrittenRoot(existing, d);
      WriteKeepsOtherTables(existing, d.config);
      DefaultsAreNormal(Read(existing));
    }
  }

  /** A run that writes the root keys reads back as exactly the configuration it decided on. */
  lemma ActivationReadsBack(request: Request, existing: Text, d: Decision)
    requires Accepts(existing) && d.Write? && Decided(request, Read(existing), d)
    requires !d.providerOnly && BracketFree(d.config.provider.id) && Normal(d.config.provider.id)
    ensures DefaultsOf(Read(WrittenText(existing, d)))
            == Some(Defaults(Some(d.config.provider.id), d.config.model, d.config.reasoningEffort,
                             Some(d.config.provider.name), Some(d.config.provider.baseUrl), d.config.provider.apiKey))
  {
    WrittenProvider(existing, d);
    WrittenRoot(existing, d);
  }

  /** The values a run wrote itself are not taken for a local override by the next run. */
  lemma OwnWriteIsNoOverride(request: Request, existing: Text, d: Decision)
    requires Accepts(existing) && d.Write? && Decided(request, Read(existing), d)
    requires d.receipt.mode == Auto && BracketFree(d.config.provider.id)
    ensures var after := DefaultsOf(Read(WrittenText(existing, d)));
            after.Some? && !HasLocalOverride(request.configPath, after.value, Some(d.receipt))
  {
    WrittenProvider(existing, d);
    WrittenRoot(existing, d);
  }
}
