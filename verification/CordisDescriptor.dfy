/** Cordis plugin descriptors: normalisation, the schema's part in it, and identity. */
module CordisDescriptor {
  import opened Wrappers
  import opened JsText
  import opened Lists
  import opened StableSort

  const COLON: Unit := 0x3A
  const COMMA: Unit := 0x2C
  const PERIOD: Unit := 0x2E

  datatype Injection = Injection(serviceId: Text, versions: seq<Text>)

  /** payloadSchemaRef is None where the property is absent, Some(None) where it is null. */
  datatype Event = Event(name: Text, mode: Text, role: Text, payloadSchemaRef: Option<Option<Text>>)

  datatype Scope = Process | Composition | Session | Attempt | Request

  datatype Trust = FirstPartyPrivileged | FirstPartyRestricted | ThirdPartyUntrusted

  /** What normalisation copies without looking at it. */
  datatype Rest = Rest(packageRef: Option<seq<Text>>, required: bool, boundary: Text)

  datatype Descriptor = Descriptor(
    id: Text, pluginId: Text, pluginRef: Text, apiVersion: Text,
    sourceRef: Text, sourceCommit: Text, sourceIdentity: Text, rest: Rest,
    provided: seq<Text>, needed: seq<Injection>, optional: seq<Injection>, events: seq<Event>,
    scope: Scope, trust: Trust, forbidden: seq<Text>)

  /** A descriptor whose derived fields may be absent. */
  datatype Input = Input(id: Option<Text>, pluginRef: Option<Text>, sourceIdentity: Option<Text>, given: Descriptor)

  datatype Fault =
    | SchemaInvalid | MissingRequiredProvider | PluginApiIncompatible | TrustLaneConflict
    | ScopeConflict | SourceIdentityMismatch | SnapshotDigestMismatch

  // ---------- normalisation ----------

  function InjectionKey(i: Injection): Text {
    i.serviceId + [COLON] + Join(i.versions, [COMMA])
  }

  function NormalInjection(i: Injection): Injection {
    i.(versions := SortUnique(i.versions))
  }

  function Map<A, B>(f: A -> B, xs: seq<A>): (ys: seq<B>)
    ensures |ys| == |xs| && forall k :: 0 <= k < |xs| ==> ys[k] == f(xs[k])
  {
    if xs == [] then [] else [f(xs[0])] + Map(f, xs[1..])
  }

  function NormalizeInjections(values: seq<Injection>): seq<Injection> {
    Sort(InjectionKey, Map(NormalInjection, values))
  }

  /** payload_schema_ref ?? '' */
  function RefText(e: Event): Text {
    if e.payloadSchemaRef.Some? && e.payloadSchemaRef.value.Some? then e.payloadSchemaRef.value.value else []
  }

  function EventKey(e: Event): Text {
    e.name + [COLON] + e.mode + [COLON] + e.role + [COLON] + RefText(e)
  }

  function NormalizeEvents(events: seq<Event>): seq<Event> {
    Sort(EventKey, events)
  }

  function PluginRef(pluginId: Text, apiVersion: Text): Text {
    Ascii("cordis:plugin:") + pluginId + Ascii("@") + apiVersion
  }

  function SourceIdentity(sourceRef: Text, sourceCommit: Text): Text {
    Ascii("git:") + sourceCommit + Ascii(":") + sourceRef
  }

  function Normalized(input: Input): Descriptor {
    var d := input.given;
    d.(id := if input.id.Some? then input.id.value else d.pluginId,
       pluginRef := if input.pluginRef.Some? then input.pluginRef.value else PluginRef(d.pluginId, d.apiVersion),
       sourceIdentity := if input.sourceIdentity.Some? then input.sourceIdentity.value else SourceIdentity(d.sourceRef, d.sourceCommit),
       provided := SortUnique(d.provided),
       needed := NormalizeInjections(d.needed),
       optional := NormalizeInjections(d.optional),
       events := NormalizeEvents(d.events),
       forbidden := SortUnique(d.forbidden))
  }

  // ---------- the descriptor schema, as far as order and keys depend on it ----------

  predicate IsDigits(t: Text) {
    t != [] && forall k :: 0 <= k < |t| ==> 0x30 <= t[k] <= 0x39
  }

  /** ^[0-9]+\.[0-9]+\.[0-9]+$ */
  predicate IsVersion(t: Text) {
    exists i, j :: 0 <= i < j < |t| && t[i] == PERIOD && t[j] == PERIOD
                   && IsDigits(t[..i]) && IsDigits(t[i + 1..j]) && IsDigits(t[j + 1..])
  }

  predicate ValidInjection(i: Injection) {
    i.serviceId != [] && i.versions != [] && Distinct(i.versions) && forall v :: v in i.versions ==> IsVersion(v)
  }

  /** uniqueItems is Distinct. */
  predicate ValidInjections(values: seq<Injection>) {
    Distinct(values) && forall i :: i in values ==> ValidInjection(i)
  }

  /** other stands for the constraints on fields that normalisation copies or that are mere enumerations. */
  predicate SchemaValid(other: Descriptor -> bool, d: Descriptor) {
    && d.id != [] && d.pluginId != [] && d.pluginRef != [] && IsVersion(d.apiVersion)
    && d.sourceRef != [] && d.sourceCommit != [] && d.sourceIdentity != []
    && Distinct(d.provided) && [] !in d.provided && Distinct(d.forbidden) && [] !in d.forbidden
    && ValidInjections(d.needed) && ValidInjections(d.optional) && Distinct(d.events)
    && other(d.(provided := [], needed := [], optional := [], forbidden := []))
  }

  function IdentityFault(d: Descriptor): Option<Fault> {
    if d.id != d.pluginId then Some(SourceIdentityMismatch)
    else if d.pluginRef != PluginRef(d.pluginId, d.apiVersion) then Some(PluginApiIncompatible)
    else if d.sourceIdentity != SourceIdentity(d.sourceRef, d.sourceCommit) then Some(SourceIdentityMismatch)
    else None
  }

  /** buildCordisPluginDescriptor */
  function BuildDescriptor(other: Descriptor -> bool, input: Input): Result<Descriptor, Fault> {
    var d := Normalized(input);
    if !SchemaValid(other, d) then Failure(SchemaInvalid)
    else if IdentityFault(d).Some? then Failure(IdentityFault(d).value)
    else Success(d)
  }

  function AsInput(d: Descriptor): Input {
    Input(Some(d.id), Some(d.pluginRef), Some(d.sourceIdentity), d)
  }

  // ---------- injection keys ----------

  lemma VersionUnits(t: Text)
    requires IsVersion(t)
    ensures t != [] && COLON !in t && COMMA !in t
  {
    var i, j :| 0 <= i < j < |t| && t[i] == PERIOD && t[j] == PERIOD
                && IsDigits(t[..i]) && IsDigits(t[i + 1..j]) && IsDigits(t[j + 1..]);
    var first, second, third := t[..i], t[i + 1..j], t[j + 1..];
    forall k | 0 <= k < |t|
      ensures t[k] != COLON && t[k] != COMMA
    {
      if k < i {
        assert t[k] == first[k];
      } else if i < k < j {
        assert t[k] == second[k - i - 1];
      } else if j < k {
        assert t[k] == third[k - j - 1];
      }
    }
  }

  /** Comma-free, non-empty texts. */
  predicate Plain(ts: seq<Text>) {
    forall t :: t in ts ==> t != [] && COLON !in t && COMMA !in t
  }

  lemma {:induction false} JoinNoColon(ts: seq<Text>)
    requires Plain(ts)
    ensures COLON !in Join(ts, [COMMA])
  {
    if |ts| > 1 {
      assert forall t :: t in ts[1..] ==> t in ts;
      JoinNoColon(ts[1..]);
    }
  }

  lemma CutLast(a: Text, x: Text, b: Text, y: Text)
    requires COLON !in x && COLON !in y && a + [COLON] + x == b + [COLON] + y
    ensures a == b && x == y
  {
    var t, u := a + [COLON] + x, b + [COLON] + y;
    assert t[|a|] == COLON && u[|b|] == COLON;
    assert forall k :: |a| < k < |t| ==> t[k] == x[k - |a| - 1] != COLON;
    assert forall k :: |b| < k < |u| ==> u[k] == y[k - |b| - 1] != COLON;
    assert |a| == |b|;
    assert t[..|a|] == a && t[|a| + 1..] == x;
    assert u[..|b|] == b && u[|b| + 1..] == y;
  }

  lemma {:induction false} JoinTells(xs: seq<Text>, ys: seq<Text>)
    requires Plain(xs) && Plain(ys) && xs != [] && ys != [] && Join(xs, [COMMA]) == Join(ys, [COMMA])
    ensures xs == ys
  {
    assert xs[0] in xs && ys[0] in ys;
    assert forall t :: t in xs[1..] ==> t in xs;
    assert forall t :: t in ys[1..] ==> t in ys;
    assert |xs| > 1 ==> COMMA in Join(xs, [COMMA]) by {
      assert |xs| > 1 ==> Join(xs, [COMMA])[|xs[0]|] == COMMA;
    }
    assert |ys| > 1 ==> COMMA in Join(ys, [COMMA]) by {
      assert |ys| > 1 ==> Join(ys, [COMMA])[|ys[0]|] == COMMA;
    }
    if |xs| > 1 {
      CutFirst(COMMA, xs[0], Join(xs[1..], [COMMA]), ys[0], Join(ys[1..], [COMMA]));
      JoinTells(xs[1..], ys[1..]);
      assert xs == [xs[0]] + xs[1..] && ys == [ys[0]] + ys[1..];
    }
  }

  lemma ValidVersionsPlain(i: Injection)
    requires ValidInjection(i)
    ensures Plain(i.versions)
  {
    forall v | v in i.versions {
      VersionUnits(v);
    }
  }

  /** Under the schema the sort key of an injection determines the injection. */
  lemma InjectionKeyTells(a: Injection, b: Injection)
    requires ValidInjection(a) && ValidInjection(b) && InjectionKey(a) == InjectionKey(b)
    ensures a == b
  {
    ValidVersionsPlain(a);
    ValidVersionsPlain(b);
    JoinNoColon(a.versions);
    JoinNoColon(b.versions);
    CutLast(a.serviceId, Join(a.versions, [COMMA]), b.serviceId, Join(b.versions, [COMMA]));
    JoinTells(a.versions, b.versions);
  }

  // ---------- rebuilding ----------

  lemma MapIdentity(xs: seq<Injection>)
    requires forall i :: i in xs ==> NormalInjection(i) == i
    ensures Map(NormalInjection, xs) == xs
  {
  }

  lemma NormalizedInjections(values: seq<Injection>)
    ensures NormalizeInjections(NormalizeInjections(values)) == NormalizeInjections(values)
    ensures forall i :: i in NormalizeInjections(values) ==> NormalInjection(i) == i
  {
    var mapped := Map(NormalInjection, values);
    var normal := NormalizeInjections(values);
    forall i | i in mapped
      ensures NormalInjection(i) == i
    {
      var k :| 0 <= k < |mapped| && mapped[k] == i;
      SortUniqueIdempotent(values[k].versions);
    }
    SameMembers(normal, mapped);
    hide SortUnique;
    MapIdentity(normal);
    SortSorts(InjectionKey, mapped);
    SortOfSorted(InjectionKey, normal);
  }

  /** A built descriptor is its own normal form, so building it again gives it back. */
  lemma RebuildDescriptor(other: Descriptor -> bool, input: Input)
    requires BuildDescriptor(other, input).Success?
    ensures BuildDescriptor(other, AsInput(BuildDescriptor(other, input).value)) == BuildDescriptor(other, input)
  {
    var given := input.given;
    SortUniqueIdempotent(given.provided);
    SortUniqueIdempotent(given.forbidden);
    NormalizedInjections(given.needed);
    NormalizedInjections(given.optional);
    SortSorts(EventKey, given.events);
    SortOfSorted(EventKey, NormalizeEvents(given.events));
    hide SchemaValid, NormalizeInjections, NormalizeEvents, SortUnique, IdentityFault;
    var d := Normalized(input);
    assert Normalized(AsInput(d)) == d;
  }

  // ---------- what the result does not depend on ----------

  ghost predicate SameSet(xs: seq<Text>, ys: seq<Text>) {
    forall v :: v in xs <==> v in ys
  }

  /** The same injections in any order, each with the same set of versions. */
  ghost predicate SameInjections(xs: seq<Injection>, ys: seq<Injection>) {
    multiset(Map(NormalInjection, xs)) == multiset(Map(NormalInjection, ys))
  }

  /** The same events in any order that sorting forgets. */
  ghost predicate SameEvents(xs: seq<Event>, ys: seq<Event>) {
    xs == ys || (multiset(xs) == multiset(ys) && KeysTell(EventKey, xs))
  }

  /** Differences of order and repetition only. */
  ghost predicate Equivalent(a: Input, b: Input) {
    var x, y := a.given, b.given;
    && a.id == b.id && a.pluginRef == b.pluginRef && a.sourceIdentity == b.sourceIdentity
    && x == y.(provided := x.provided, needed := x.needed, optional := x.optional, events := x.events, forbidden := x.forbidden)
    && SameSet(x.provided, y.provided) && SameSet(x.forbidden, y.forbidden)
    && SameInjections(x.needed, y.needed) && SameInjections(x.optional, y.optional) && SameEvents(x.events, y.events)
  }

  lemma DistinctOfMultiset<T(!new)>(xs: seq<T>, ys: seq<T>)
    requires Distinct(xs) && multiset(xs) == multiset(ys)
    ensures Distinct(ys)
  {
    DistinctMultiset(xs);
    MultisetDistinct(ys);
  }

  lemma ValidInjectionsOfMultiset(xs: seq<Injection>, ys: seq<Injection>)
    requires multiset(xs) == multiset(ys) && ValidInjections(xs)
    ensures ValidInjections(ys)
  {
    DistinctOfMultiset(xs, ys);
    SameMembers(xs, ys);
  }

  lemma SameInjectionsNormalize(xs: seq<Injection>, ys: seq<Injection>)
    requires SameInjections(xs, ys)
    ensures ValidInjections(NormalizeInjections(xs)) <==> ValidInjections(NormalizeInjections(ys))
    ensures ValidInjections(NormalizeInjections(xs)) ==> NormalizeInjections(xs) == NormalizeInjections(ys)
  {
    var a, b := NormalizeInjections(xs), NormalizeInjections(ys);
    var m := Map(NormalInjection, xs);
    assert multiset(a) == multiset(b);
    if ValidInjections(a) {
      ValidInjectionsOfMultiset(a, b);
      SameMembers(m, a);
      forall i, j | i in m && j in m && InjectionKey(i) == InjectionKey(j)
        ensures i == j
      {
        InjectionKeyTells(i, j);
      }
      SortOrderIrrelevant(InjectionKey, m, Map(NormalInjection, ys));
    } else if ValidInjections(b) {
      ValidInjectionsOfMultiset(b, a);
    }
  }

  lemma SameEventsNormalize(xs: seq<Event>, ys: seq<Event>)
    requires SameEvents(xs, ys)
    ensures NormalizeEvents(xs) == NormalizeEvents(ys)
  {
    if xs != ys {
      SortOrderIrrelevant(EventKey, xs, ys);
    }
  }

  lemma InvalidInjectionsInvalidate(other: Descriptor -> bool, d: Descriptor)
    requires !ValidInjections(d.needed) || !ValidInjections(d.optional)
    ensures !SchemaValid(other, d)
  {
    hide ValidInjections, Distinct, IsVersion;
  }

  /**
    Reordering or repeating provides, API versions and forbidden authorities, and reordering
    injections and events whose keys differ, changes neither the descriptor nor whether it is accepted.
    */
  lemma EquivalentInputsBuildAlike(other: Descriptor -> bool, a: Input, b: Input)
    requires Equivalent(a, b)
    ensures BuildDescriptor(other, a).Success? || BuildDescriptor(other, b).Success? ==>
              BuildDescriptor(other, a) == BuildDescriptor(other, b)
  {
    var x, y := a.given, b.given;
    SortUniqueOfSet(x.provided, y.provided);
    SortUniqueOfSet(x.forbidden, y.forbidden);
    SameInjectionsNormalize(x.needed, y.needed);
    SameInjectionsNormalize(x.optional, y.optional);
    SameEventsNormalize(x.events, y.events);
    hide SchemaValid, NormalizeInjections, NormalizeEvents, SortUnique, IdentityFault, ValidInjections, SameInjections, SameSet, SameEvents;
    var d, e := Normalized(a), Normalized(b);
    if ValidInjections(d.needed) && ValidInjections(d.optional) {
      assert d == e;
    } else {
      InvalidInjectionsInvalidate(other, d);
      InvalidInjectionsInvalidate(other, e);
    }
  }

  /**
    For events the order given can reach the digest: two distinct events, one with no payload
    schema and one with a null one, have the same sort key and keep the order they came in.
    */
  lemma EventOrderCanMatter(name: Text, mode: Text, role: Text)
    ensures var absent, null_ := Event(name, mode, role, None), Event(name, mode, role, Some(None));
            && Distinct([absent, null_]) && multiset([absent, null_]) == multiset([null_, absent])
            && NormalizeEvents([absent, null_]) != NormalizeEvents([null_, absent])
  {
    var absent, null_ := Event(name, mode, role, None), Event(name, mode, role, Some(None));
    assert EventKey(absent) == EventKey(null_);
    TwoKeepOrder(EventKey, absent, null_);
    hide Sort, EventKey, Distinct;
  }

  /** Normalising events forgets the order they were given in exactly when their keys tell them apart. */
  lemma EventOrderIrrelevantExactly(events: seq<Event>)
    ensures (forall given :: multiset(given) == multiset(events) ==> NormalizeEvents(given) == NormalizeEvents(events))
            <==> KeysTell(EventKey, events)
  {
    OrderIrrelevantExactly(EventKey, events);
    hide Sort, EventKey, KeysTell;
    assert (forall given :: multiset(given) == multiset(events) ==> NormalizeEvents(given) == NormalizeEvents(events))
           <==> OrderIrrelevant(EventKey, events) by {
      if OrderIrrelevant(EventKey, events) {
        assert forall given :: multiset(given) == multiset(events) ==> Sort(EventKey, given) == Sort(EventKey, events);
      } else {
        var given :| multiset(given) == multiset(events) && Sort(EventKey, given) != Sort(EventKey, events);
        assert NormalizeEvents(given) != NormalizeEvents(events);
      }
    }
  }

  /** Names, modes and roles without a colon show in the key; an absent, a null and an empty payload schema do not. */
  lemma EventKeyTellsExactly(a: Event, b: Event)
    requires COLON !in a.name + a.mode + a.role && COLON !in b.name + b.mode + b.role
    ensures EventKey(a) == EventKey(b) <==> a.name == b.name && a.mode == b.mode && a.role == b.role && RefText(a) == RefText(b)
  {
    if EventKey(a) == EventKey(b) {
      var p, q := a.role + [COLON] + RefText(a), b.role + [COLON] + RefText(b);
      var r, s := a.mode + [COLON] + p, b.mode + [COLON] + q;
      assert EventKey(a) == a.name + [COLON] + r && EventKey(b) == b.name + [COLON] + s;
      hide EventKey, RefText;
      CutFirst(COLON, a.name, r, b.name, s);
      CutFirst(COLON, a.mode, p, b.mode, q);
      CutFirst(COLON, a.role, RefText(a), b.role, RefText(b));
    }
  }

  function Kind(mode: Text, role: Text): Text {
    mode + [COLON] + role
  }

  lemma KeyOfKind(name: Text, mode: Text, role: Text, ref: Text)
    ensures EventKey(Event(name, mode, role, Some(Some(ref)))) == name + ([COLON] + Kind(mode, role)) + ([COLON] + ref)
  {
    var kind := [COLON] + Kind(mode, role);
    assert kind == [COLON] + mode + [COLON] + role;
    assert name + kind == name + [COLON] + mode + [COLON] + role;
  }

  /** The other way for keys to collide: a colon in a name makes room for a mode and a role. */
  lemma ColonInNameCanMatter(name: Text, mode: Text, role: Text, ref: Text)
    ensures var kind := Kind(mode, role);
            var short := Event(name, mode, role, Some(Some(kind + ([COLON] + ref))));
            var long := Event(name + ([COLON] + kind), mode, role, Some(Some(ref)));
            && Distinct([short, long]) && multiset([short, long]) == multiset([long, short])
            && NormalizeEvents([short, long]) != NormalizeEvents([long, short])
  {
    hide Sort, EventKey, Distinct, Kind;
    var kind := Kind(mode, role);
    var short := Event(name, mode, role, Some(Some(kind + ([COLON] + ref))));
    var long := Event(name + ([COLON] + kind), mode, role, Some(Some(ref)));
    KeyOfKind(name, mode, role, kind + ([COLON] + ref));
    KeyOfKind(name + ([COLON] + kind), mode, role, ref);
    var head, tail := name + ([COLON] + kind), [COLON] + ref;
    assert [COLON] + (kind + tail) == [COLON] + kind + tail;
    assert head + ([COLON] + kind + tail) == head + ([COLON] + kind) + tail;
    assert |short.name| < |long.name|;
    TwoKeepOrder(EventKey, short, long);
  }
}
