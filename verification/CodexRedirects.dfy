/**
  Which existing providers a run points elsewhere or renames: none, unless the reserved id is
  asked for and meets an entry it does not agree with. The bundled profile does ask for it.
  */
module CodexRedirects {
  import opened Wrappers
  import opened JsText
  import opened CodexLexer
  import opened CodexReader
  import opened CodexEditor
  import opened CodexConfigText
  import opened CodexBootstrap

  /**
    The reserved id takes what stands in its way: an entry of that name whatever its endpoint, and
    in its absence a legacy alias whatever endpoint is asked for.
    */
  ghost predicate Clash(request: Request, prior: Values) {
    var requestedUrl := Normalize(Merged(request).providerBaseUrl);
    && !IsOplManagedActive(DefaultsOf(prior)) && RequestedId(request) == OPLGATEWAY && requestedUrl.Some?
    && if OPLGATEWAY in prior.providers then !SameEndpoint(Get(prior.providers[OPLGATEWAY], BASE_URL), requestedUrl)
       else HasLegacyAlias(prior.providers) && !IsOplGateway(requestedUrl)
  }

  ghost predicate KeepsEndpoints(before: Values, after: Values) {
    forall id :: id in before.providers ==> SameEndpoint(Get(TableAt(after, id), BASE_URL), Get(TableAt(before, id), BASE_URL))
  }

  /** A run leaves every existing provider at its endpoint exactly when the reserved id meets no clash. */
  lemma KeepsEndpointsExactly(request: Request, existing: Text, d: Decision)
    requires Accepts(existing) && d.Write? && Decided(request, Read(existing), d) && BracketFree(d.config.provider.id)
    ensures KeepsEndpoints(Read(existing), Read(WrittenText(existing, d))) <==> !Clash(request, Read(existing))
  {
    hide Read, WrittenText, Trim, DropSlashes, RequestedId, NormalConfig;
    WrittenProvider(existing, d);
    var before, p := Read(existing), d.config.provider;
    var prior := Get(TableAt(before, p.id), BASE_URL);
    if p.id in before.providers {
      if IsOplManagedActive(DefaultsOf(before)) {
        assert Normalize(prior) == Some(p.baseUrl);
        NormalizeIsNormal(prior);
      } else if RequestedId(request) != OPLGATEWAY {
        assert SameEndpointEntry(before.providers[p.id], Normalize(Merged(request).providerBaseUrl).value);
      }
    }
  }

  /** The reserved entry is given the requested name, whatever it was called. */
  ghost predicate Renames(request: Request, prior: Values) {
    && !IsOplManagedActive(DefaultsOf(prior)) && RequestedId(request) == OPLGATEWAY && OPLGATEWAY in prior.providers
    && Normalize(Get(prior.providers[OPLGATEWAY], NAME)) !in {None, Some(RequestedName(request))}
  }

  ghost predicate KeepsNames(before: Values, after: Values) {
    forall id :: id in before.providers && Normalize(Get(before.providers[id], NAME)).Some? ==>
                   Normalize(Get(TableAt(after, id), NAME)) == Normalize(Get(before.providers[id], NAME))
  }

  /** A run keeps the name of every provider that has one exactly when the reserved entry is not renamed. */
  lemma KeepsNamesExactly(request: Request, existing: Text, d: Decision)
    requires Accepts(existing) && d.Write? && Decided(request, Read(existing), d) && BracketFree(d.config.provider.id)
    ensures KeepsNames(Read(existing), Read(WrittenText(existing, d))) <==> !Renames(request, Read(existing))
  {
    hide Read, WrittenText, Trim, DropSlashes, RequestedId, RequestedName, IsOplGateway;
    WrittenProvider(existing, d);
    var before, p := Read(existing), d.config.provider;
    if p.id in before.providers && IsOplManagedActive(DefaultsOf(before)) {
      assert DefaultsOf(before).value.providerName == Normalize(Get(before.providers[p.id], NAME));
    }
  }

  // ---------- two runs that redirect ----------

  const ELSEWHERE := Ascii("https://models.example.org/v1")
  const API_KEY := Ascii("key")

  /** The bundled profile, a key, and perhaps a base URL from the environment. */
  function ProfileRun(baseUrl: Option<Text>): Request {
    var none := Input(None, None, None, None, None, None);
    Request([], Profile(OPLGATEWAY, Ascii("gpt"), Some(Ascii("max")), Ascii("OPL Gateway"), OPL_GATEWAY_BASE_URL),
            none.(providerBaseUrl := baseUrl), none.(providerApiKey := Some(API_KEY)), None, false, None)
  }

  lemma EndsPlain(t: Text)
    requires t != [] && !IsSpace(t[0]) && !IsSpace(t[|t| - 1])
    ensures Normal(t) && (t[|t| - 1] != SLASH ==> NormalizeBaseUrl(Some(t)) == Some(t))
  {
    TrimIdentity(t);
  }

  lemma LiteralsAreNormal()
    ensures ValidProfile(ProfileRun(None).profile) && Normal(API_KEY) && Normal(GFLAB)
  {
    hide Normal, NormalizeBaseUrl;
    EndsPlain(OPLGATEWAY);
    EndsPlain(Ascii("gpt"));
    EndsPlain(Ascii("max"));
    EndsPlain(Ascii("OPL Gateway"));
    EndsPlain(API_KEY);
    EndsPlain(GFLAB);
    AddressesAreNormal();
  }

  lemma AddressesAreNormal()
    ensures Normal(OPL_GATEWAY_BASE_URL) && NormalizeBaseUrl(Some(OPL_GATEWAY_BASE_URL)) == Some(OPL_GATEWAY_BASE_URL)
    ensures Normal(OPL_GATEWAY_LEGACY_BASE_URL) && NormalizeBaseUrl(Some(OPL_GATEWAY_LEGACY_BASE_URL)) == Some(OPL_GATEWAY_LEGACY_BASE_URL)
    ensures Normal(ELSEWHERE) && NormalizeBaseUrl(Some(ELSEWHERE)) == Some(ELSEWHERE)
  {
    hide Normal, NormalizeBaseUrl;
    EndsPlain(OPL_GATEWAY_BASE_URL);
    EndsPlain(OPL_GATEWAY_LEGACY_BASE_URL);
    EndsPlain(ELSEWHERE);
  }

  lemma Addresses()
    ensures IsOplGateway(Some(OPL_GATEWAY_BASE_URL)) && IsOplGateway(Some(OPL_GATEWAY_LEGACY_BASE_URL)) && !IsOplGateway(Some(ELSEWHERE))
  {
    hide Normal, NormalizeBaseUrl;
    AddressesAreNormal();
    assert OPL_GATEWAY_BASE_URL[8] == 0x67 && OPL_GATEWAY_LEGACY_BASE_URL[8] == 0x67 && ELSEWHERE[8] == 0x6D;
  }

  /** A config that holds one provider and nothing else. */
  lemma OneProvider(p: Provider)
    requires BracketFree(p.id) && p.apiKey.None?
    ensures var text := ProviderOnlyText([], p);
            Accepts(text) && Read(text) == Values(map[], map[p.id := map[NAME := p.name, BASE_URL := p.baseUrl]])
  {
    hide ItemsOf, ProviderOnlyText, BracketFree;
    ItemsOfEmpty();
    ReadAfterProviderWrite([], p);
    TwoPairs(p);
  }

  lemma TwoPairs(p: Provider)
    requires p.apiKey.None?
    ensures NewEntry(map[], p) == map[NAME := p.name, BASE_URL := p.baseUrl]
  {
    var pairs := ProviderPairs(p);
    assert pairs[1..] == [(BASE_URL, p.baseUrl)];
    assert SetAll(map[], pairs) == SetAll(map[NAME := p.name], pairs[1..]);
  }

  /** What a run over such a config writes when it selects that provider. */
  function Redirection(id: Text, name: Text, baseUrl: Text): Decision {
    Write(Config(Provider(id, name, baseUrl, Some(API_KEY)), Ascii("gpt"), Some(Ascii("max"))), false,
          Receipt([], id, Auto, Some(Ascii("gpt")), Some(Ascii("max"))))
  }

  lemma AsksForReserved(given: Option<Text>)
    ensures RequestedId(ProfileRun(given)) == OPLGATEWAY && RequestedName(ProfileRun(given)) == Ascii("OPL Gateway")
  {
    LiteralsAreNormal();
    hide Trim;
  }

  /** Selection, name and address are all there is to decide where the config holds no selection of its own. */
  lemma RedirectionDecided(given: Option<Text>, prior: Values, id: Text, name: Text, baseUrl: Text)
    requires prior.root == map[] && Normal(name) && Normal(baseUrl)
    requires given in {None, Some(ELSEWHERE)} && baseUrl == (if given.Some? then ELSEWHERE else OPL_GATEWAY_BASE_URL)
    requires Selected(OPLGATEWAY, baseUrl, prior.providers, id) && name == DecidedName(ProfileRun(given), prior, id)
    requires baseUrl == DecidedUrl(Normalize(Get(TableAt(prior, id), BASE_URL)), baseUrl)
    ensures DefaultsOf(prior).None? && RequestedId(ProfileRun(given)) == OPLGATEWAY
    ensures Normalize(Merged(ProfileRun(given)).providerBaseUrl) == Some(baseUrl)
    ensures Decided(ProfileRun(given), prior, Redirection(id, name, baseUrl))
  {
    LiteralsAreNormal();
    hide Trim, DropSlashes, IsOplGateway, Selected, DecidedName, DecidedUrl, HasLocalOverride;
  }

  /**
    A legacy alias at a gateway address is pointed elsewhere, under its own id, when the
    environment asks for another base URL and the profile for the reserved id.
    */
  lemma LegacyAliasIsRedirected()
    ensures var request, text := ProfileRun(Some(ELSEWHERE)), ProviderOnlyText([], Provider(GFLAB, GFLAB, OPL_GATEWAY_LEGACY_BASE_URL, None));
            var d := Redirection(GFLAB, GFLAB, ELSEWHERE);
            && ValidProfile(request.profile) && Accepts(text) && Decided(request, Read(text), d) && Clash(request, Read(text))
            && IsOplGateway(Get(TableAt(Read(text), GFLAB), BASE_URL))
            && Get(TableAt(Read(WrittenText(text, d)), GFLAB), BASE_URL) == Some(ELSEWHERE) && !IsOplGateway(Some(ELSEWHERE))
  {
    hide Trim, DropSlashes, Read, Accepts, WrittenText, ProviderOnlyText, RequestedId, IsOplGateway, Decided;
    var stored := Provider(GFLAB, GFLAB, OPL_GATEWAY_LEGACY_BASE_URL, None);
    var text := ProviderOnlyText([], stored);
    LiteralsAreNormal();
    AddressesAreNormal();
    Addresses();
    OneProvider(stored);
    assert GFLAB != OPLGATEWAY;
    assert IsLegacyAlias(GFLAB, Read(text).providers[GFLAB]);
    RedirectionDecided(Some(ELSEWHERE), Read(text), GFLAB, GFLAB, ELSEWHERE);
    WrittenProvider(text, Redirection(GFLAB, GFLAB, ELSEWHERE));
  }

  /** A provider that happens to have the reserved id is renamed and pointed at the gateway by the bundled profile alone. */
  lemma ReservedEntryIsRedirected()
    ensures var request, text := ProfileRun(None), ProviderOnlyText([], Provider(OPLGATEWAY, GFLAB, ELSEWHERE, None));
            var d := Redirection(OPLGATEWAY, Ascii("OPL Gateway"), OPL_GATEWAY_BASE_URL);
            && ValidProfile(request.profile) && Accepts(text) && Decided(request, Read(text), d)
            && Clash(request, Read(text)) && Renames(request, Read(text))
            && Get(TableAt(Read(text), OPLGATEWAY), BASE_URL) == Some(ELSEWHERE) && !IsOplGateway(Some(ELSEWHERE))
            && IsOplGateway(Get(TableAt(Read(WrittenText(text, d)), OPLGATEWAY), BASE_URL))
  {
    hide Trim, DropSlashes, Read, Accepts, WrittenText, ProviderOnlyText, RequestedId, IsOplGateway, Decided;
    var stored := Provider(OPLGATEWAY, GFLAB, ELSEWHERE, None);
    var text := ProviderOnlyText([], stored);
    LiteralsAreNormal();
    AddressesAreNormal();
    Addresses();
    OneProvider(stored);
    assert |GFLAB| != |Ascii("OPL Gateway")|;
    AsksForReserved(None);
    RedirectionDecided(None, Read(text), OPLGATEWAY, Ascii("OPL Gateway"), OPL_GATEWAY_BASE_URL);
    WrittenProvider(text, Redirection(OPLGATEWAY, Ascii("OPL Gateway"), OPL_GATEWAY_BASE_URL));
  }
}
