/**
  The loader of the workbench as a step system: clicks, refreshes, responses in any
  order, and disposal. Tickets make every late response harmless.
  */
module Workbench {
  import opened Wrappers
  import opened DomainRead

  /** One outstanding read: what load captured before it awaited. */
  datatype Request = Request(viewId: string, descriptor: Descriptor, previous: Option<Cached>)

  datatype State = State(
    section: string,
    viewId: Option<string>,
    snapshot: Option<Snapshot>,
    selectedId: Option<string>,
    failed: bool,
    busy: bool,
    alive: bool,
    generation: nat,
    cache: map<string, Cached>,
    pending: map<nat, Request>)

  /** The arguments of mountTaskWorkbench that matter to loading. */
  datatype Mount = Mount(
    item: Item,
    descriptors: seq<Descriptor>,
    initialSnapshot: Option<Snapshot>,
    initialViewId: Option<string>,
    hasRead: bool)

  const PROGRESS := "progress"
  const RESEARCH := "research"

  function FindDescriptor(ds: seq<Descriptor>, viewId: Option<string>): (r: Option<Descriptor>)
    ensures r.Some? ==> Some(r.value.viewId) == viewId && r.value in ds
    ensures r.None? ==> forall d :: d in ds ==> Some(d.viewId) != viewId
  {
    if ds == [] then None
    else if Some(ds[0].viewId) == viewId then Some(ds[0])
    else FindDescriptor(ds[1..], viewId)
  }

  function CacheGet(s: State): Option<Cached> {
    if s.viewId.Some? && s.viewId.value in s.cache then Some(s.cache[s.viewId.value]) else None
  }

  /** load() up to its await. */
  function Load(m: Mount, s: State): State {
    var descriptor := FindDescriptor(m.descriptors, s.viewId);
    if descriptor.None? || !m.hasRead then s.(failed := true)
    else
      s.(generation := s.generation + 1, busy := true, failed := false,
         pending := s.pending[s.generation + 1 := Request(s.viewId.value, descriptor.value, CacheGet(s))])
  }

  predicate Shows(snapshot: Snapshot, id: Option<string>) {
    snapshot.nodes.Some? && id.Some? && HasNode(snapshot.nodes.value, id)
  }

  /** current_focus?.node_id || nodes[0]?.id */
  function DefaultNode(snapshot: Snapshot): Option<string> {
    if NonEmptyString(snapshot.focus) then snapshot.focus
    else if snapshot.nodes.Some? && snapshot.nodes.value != [] then snapshot.nodes.value[0].id
    else None
  }

  /** What a response does once its ticket is found current; None is a rejected read. */
  ghost function Applied(m: Mount, s: State, request: Request, response: Option<Readback>): State {
    match response
    case None => s.(failed := true, busy := false)
    case Some(r) =>
      match Accept(r, m.item, request.descriptor, request.previous)
      case Failure(_) => s.(failed := true, busy := false)
      case Success(accepted) => Stored(s, accepted)
  }

  /** The accepted entry is cached under the current view and shown. */
  function Stored(s: State, accepted: Cached): State {
    s.(cache := if s.viewId.Some? then s.cache[s.viewId.value := accepted] else s.cache,
       snapshot := Some(accepted.snapshot),
       selectedId := if Shows(accepted.snapshot, s.selectedId) then s.selectedId else DefaultNode(accepted.snapshot),
       busy := false)
  }

  /** load() after its await. */
  ghost function Settle(m: Mount, s: State, ticket: nat, response: Option<Readback>): State
    requires ticket in s.pending
  {
    var request := s.pending[ticket];
    var rest := s.(pending := s.pending - {ticket});
    if !s.alive || ticket != s.generation then rest else Applied(m, rest, request, response)
  }

  datatype Event =
    | ClickSection(section: string)
    | ClickView(viewId: string)
    | ClickRefresh
    | ClickNode(nodeId: string)
    | Respond(ticket: nat, response: Option<Readback>)
    | Dispose

  function OnSection(m: Mount, s: State, section: string): State {
    var t := s.(section := section);
    if section != PROGRESS && s.snapshot.None? && m.descriptors != [] && !s.busy then Load(m, t) else t
  }

  /** The view button's own assignments, before it calls load. */
  function Opened(s: State, viewId: string): State {
    var t := s.(generation := s.generation + 1, viewId := Some(viewId));
    var cached := CacheGet(t);
    t.(snapshot := if cached.Some? then Some(cached.value.snapshot) else None, selectedId := None)
  }

  function OnView(m: Mount, s: State, viewId: string): State {
    Load(m, Opened(s, viewId))
  }

  /** Clicks reach a mounted workbench only, and view buttons carry descriptor ids. */
  predicate Enabled(m: Mount, s: State, e: Event) {
    match e
    case Respond(ticket, _) => ticket in s.pending
    case ClickView(viewId) => s.alive && exists d :: d in m.descriptors && d.viewId == viewId
    case Dispose => true
    case _ => s.alive
  }

  ghost function Step(m: Mount, s: State, e: Event): State
    requires Enabled(m, s, e)
  {
    match e
    case ClickSection(section) => OnSection(m, s, section)
    case ClickView(viewId) => OnView(m, s, viewId)
    case ClickRefresh => Load(m, s)
    case ClickNode(nodeId) => s.(selectedId := Some(nodeId), section := RESEARCH)
    case Respond(ticket, response) => Settle(m, s, ticket, response)
    case Dispose => s.(alive := false, generation := s.generation + 1)
  }

  function Initial(m: Mount): State {
    var viewId :=
      if m.initialViewId.Some? then m.initialViewId
      else if m.descriptors != [] then Some(m.descriptors[0].viewId) else None;
    var selected := if m.initialSnapshot.Some? then m.initialSnapshot.value.focus else None;
    State(if m.initialViewId.Some? || m.initialSnapshot.Some? then RESEARCH else PROGRESS,
          viewId, m.initialSnapshot, selected, false, false, true, 0, map[], map[])
  }

  function Mounted(m: Mount): State {
    if m.initialViewId.Some? && m.initialSnapshot.None? then Load(m, Initial(m)) else Initial(m)
  }

  // ---------- the invariant ----------

  /** Busy is shown exactly while one outstanding request carries the current ticket. */
  predicate BusyExactly(s: State) {
    s.alive ==> (s.busy <==> s.generation in s.pending)
  }

  ghost predicate Tickets(s: State) {
    forall t :: t in s.pending ==> t <= s.generation
  }

  /** The request with the current ticket is about the current view and its current cache entry. */
  predicate CurrentRequest(s: State) {
    s.generation in s.pending ==>
      var request := s.pending[s.generation];
      s.alive && s.viewId == Some(request.viewId) && request.descriptor.viewId == request.viewId && request.previous == CacheGet(s)
  }

  ghost predicate CacheCoherent(m: Mount, s: State) {
    forall v :: v in s.cache ==> Coherent(s.cache[v], m.item.studyId)
  }

  /** What is shown is the cached snapshot of the current view, or the initial one before there is any. */
  predicate ShownIsCached(m: Mount, s: State) {
    match CacheGet(s)
    case Some(c) => s.snapshot == Some(c.snapshot)
    case None => s.snapshot == None || s.snapshot == m.initialSnapshot
  }

  predicate NoReads(m: Mount, s: State) {
    !m.hasRead ==> s.pending == map[] && !s.busy
  }

  ghost predicate Inv(m: Mount, s: State) {
    BusyExactly(s) && Tickets(s) && CurrentRequest(s) && CacheCoherent(m, s) && ShownIsCached(m, s) && NoReads(m, s)
  }

  lemma LoadKeepsInv(m: Mount, s: State)
    requires Inv(m, s) && s.alive
    ensures Inv(m, Load(m, s)) && Load(m, s).cache == s.cache
  {
  }

  lemma MountedInv(m: Mount)
    ensures Inv(m, Mounted(m))
  {
    LoadKeepsInv(m, Initial(m));
  }

  lemma ViewKeepsInv(m: Mount, s: State, viewId: string)
    requires Inv(m, s) && Enabled(m, s, ClickView(viewId))
    ensures Inv(m, OnView(m, s, viewId)) && OnView(m, s, viewId).cache == s.cache
  {
    var t := s.(generation := s.generation + 1, viewId := Some(viewId));
    assert FindDescriptor(m.descriptors, t.viewId).Some?;
  }

  /** What one applied response may change in the cache: only the entry of the view that asked, and only upwards. */
  ghost predicate OnlyRaises(s: State, t: State, viewId: string) {
    && (forall v :: v in s.cache && v != viewId ==> v in t.cache && t.cache[v] == s.cache[v])
    && (forall v :: v in t.cache && v !in s.cache ==> v == viewId)
    && (viewId in s.cache ==> viewId in t.cache && s.cache[viewId].revision <= t.cache[viewId].revision)
  }

  lemma AppliedKeepsInv(m: Mount, s: State, request: Request, response: Option<Readback>)
    requires Tickets(s) && CacheCoherent(m, s) && ShownIsCached(m, s) && s.generation !in s.pending
    requires s.alive && m.hasRead && s.viewId == Some(request.viewId) && request.previous == CacheGet(s)
    ensures Inv(m, Applied(m, s, request, response)) && OnlyRaises(s, Applied(m, s, request, response), request.viewId)
  {
    hide Accept, Coherent, Stored;
    if response.Some? {
      AcceptedReads(response.value, m.item, request.descriptor, request.previous);
      var accepted := Accept(response.value, m.item, request.descriptor, request.previous);
      if accepted.Success? {
        StoredKeepsInv(m, s, accepted.value);
      }
    }
  }

  lemma StoredKeepsInv(m: Mount, s: State, accepted: Cached)
    requires Tickets(s) && CacheCoherent(m, s) && s.generation !in s.pending && s.alive && m.hasRead && s.viewId.Some?
    requires Coherent(accepted, m.item.studyId) && (CacheGet(s).Some? ==> CacheGet(s).value.revision <= accepted.revision)
    ensures Inv(m, Stored(s, accepted)) && OnlyRaises(s, Stored(s, accepted), s.viewId.value)
  {
    hide Coherent, Shows, DefaultNode;
  }

  /** A response is applied only to the view that asked, against the entry it was compared with. */
  lemma SettleKeepsInv(m: Mount, s: State, ticket: nat, response: Option<Readback>)
    requires Inv(m, s) && ticket in s.pending
    ensures var t := Settle(m, s, ticket, response);
            var request := s.pending[ticket];
            && Inv(m, t)
            && (t != s.(pending := s.pending - {ticket}) ==>
                  s.viewId == Some(request.viewId) && request.previous == CacheGet(s))
            && OnlyRaises(s, t, request.viewId)
  {
    var request := s.pending[ticket];
    var rest := s.(pending := s.pending - {ticket});
    if s.alive && ticket == s.generation {
      assert CacheGet(rest) == CacheGet(s);
      AppliedKeepsInv(m, rest, request, response);
    }
    hide Applied, CacheGet;
  }

  lemma StepKeepsInv(m: Mount, s: State, e: Event)
    requires Inv(m, s) && Enabled(m, s, e)
    ensures Inv(m, Step(m, s, e))
    ensures CacheGrows(s, Step(m, s, e))
  {
    hide Accept, Applied, FindDescriptor, Coherent;
    match e
    case ClickSection(section) =>
      assert Inv(m, s.(section := section));
      LoadKeepsInv(m, s.(section := section));
    case ClickView(viewId) => ViewKeepsInv(m, s, viewId);
    case ClickRefresh => LoadKeepsInv(m, s);
    case ClickNode(_) =>
    case Respond(ticket, response) => SettleKeepsInv(m, s, ticket, response);
    case Dispose =>
  }

  // ---------- whole runs ----------

  /** No cached view is lost and no cached revision falls. */
  ghost predicate CacheGrows(s: State, t: State) {
    forall v :: v in s.cache ==> v in t.cache && s.cache[v].revision <= t.cache[v].revision
  }

  ghost predicate Follows(m: Mount, s: State, e: Event, t: State) {
    Enabled(m, s, e) && t == Step(m, s, e)
  }

  /** states[k + 1] follows from states[k] by events[k]. */
  ghost predicate IsRun(m: Mount, states: seq<State>, events: seq<Event>) {
    && |states| == |events| + 1
    && states[0] == Mounted(m)
    && forall k {:trigger events[k]} :: 0 <= k < |events| ==> Follows(m, states[k], events[k], states[k + 1])
  }

  /** The invariant holds in every state of every run. */
  lemma {:induction false} RunInv(m: Mount, states: seq<State>, events: seq<Event>, k: nat)
    requires IsRun(m, states, events) && k < |states|
    ensures Inv(m, states[k])
  {
    if k == 0 {
      MountedInv(m);
    } else {
      RunInv(m, states, events, k - 1);
      assert Follows(m, states[k - 1], events[k - 1], states[k]);
      StepKeepsInv(m, states[k - 1], events[k - 1]);
    }
  }

  /** In every run, between any two moments, each view's cached revision never falls. */
  lemma {:induction false} RevisionsNeverFall(m: Mount, states: seq<State>, events: seq<Event>, i: nat, j: nat)
    requires IsRun(m, states, events) && i <= j < |states|
    ensures CacheGrows(states[i], states[j])
    decreases j - i
  {
    hide Inv, Step, Enabled;
    if i < j {
      RunInv(m, states, events, j - 1);
      assert Follows(m, states[j - 1], events[j - 1], states[j]);
      StepKeepsInv(m, states[j - 1], events[j - 1]);
      RevisionsNeverFall(m, states, events, i, j - 1);
    }
  }

  /** After disposal only the list of outstanding reads still changes. */
  lemma {:induction false} DisposedIsFrozen(m: Mount, states: seq<State>, events: seq<Event>, i: nat, j: nat)
    requires IsRun(m, states, events) && i <= j < |states| && !states[i].alive
    requires forall k :: i <= k < j ==> events[k] != Dispose
    ensures states[j] == states[i].(pending := states[j].pending)
    decreases j - i
  {
    if i < j {
      DisposedIsFrozen(m, states, events, i, j - 1);
      assert Follows(m, states[j - 1], events[j - 1], states[j]);
    }
  }

  lemma GenerationNeverFalls(m: Mount, s: State, e: Event)
    requires Enabled(m, s, e)
    ensures Step(m, s, e).generation >= s.generation
    ensures forall t :: t in Step(m, s, e).pending && t <= s.generation ==>
                          t in s.pending && Step(m, s, e).pending[t] == s.pending[t]
  {
    hide Accept, Shows, DefaultNode, FindDescriptor, CacheGet;
  }

  /** A ticket once overtaken stays overtaken, so its response is dropped whenever it arrives. */
  lemma {:induction false} TicketsNeverFall(m: Mount, states: seq<State>, events: seq<Event>, i: nat, j: nat)
    requires IsRun(m, states, events) && i <= j < |states|
    ensures states[i].generation <= states[j].generation
    decreases j - i
  {
    hide Step, Enabled, Mounted;
    if i < j {
      TicketsNeverFall(m, states, events, i, j - 1);
      assert Follows(m, states[j - 1], events[j - 1], states[j]);
      GenerationNeverFalls(m, states[j - 1], events[j - 1]);
    }
  }

  /** What a ticket was issued for never changes: an outstanding request is the one captured when it was sent. */
  lemma {:induction false} RequestsAreKept(m: Mount, states: seq<State>, events: seq<Event>, i: nat, j: nat, ticket: nat)
    requires IsRun(m, states, events) && i <= j < |states|
    requires ticket <= states[i].generation && ticket in states[j].pending
    ensures ticket in states[i].pending && states[i].pending[ticket] == states[j].pending[ticket]
    decreases j - i
  {
    hide Step, Enabled, Mounted;
    if i < j {
      assert Follows(m, states[j - 1], events[j - 1], states[j]);
      GenerationNeverFalls(m, states[j - 1], events[j - 1]);
      TicketsNeverFall(m, states, events, i, j - 1);
      RequestsAreKept(m, states, events, i, j - 1, ticket);
    }
  }

  /**
    In every run, a response that changes more than the list of outstanding reads belongs to the
    view now shown, was asked for by the newest request, and is compared with the entry still cached.
    */
  lemma {:induction false} OnlyTheAskingView(m: Mount, states: seq<State>, events: seq<Event>, k: nat)
    requires IsRun(m, states, events) && k < |events| && events[k].Respond?
    ensures events[k].ticket in states[k].pending
    ensures states[k + 1] != states[k].(pending := states[k + 1].pending) ==>
              var request := states[k].pending[events[k].ticket];
              && states[k].alive && events[k].ticket == states[k].generation
              && states[k].viewId == Some(request.viewId) && request.previous == CacheGet(states[k])
  {
    hide Inv, Applied, CacheGet, Mounted, OnlyRaises;
    RunInv(m, states, events, k);
    assert Follows(m, states[k], events[k], states[k + 1]);
    SettleKeepsInv(m, states[k], events[k].ticket, events[k].response);
  }

  /**
    A click on a view without a descriptor would leave a busy workbench busy for good. Busy stays
    exact after the click if and only if the view has a descriptor or nothing was being read.
    */
  lemma BusyAfterViewClickExactly(m: Mount, s: State, viewId: string)
    requires Inv(m, s) && s.alive && m.hasRead
    ensures BusyExactly(OnView(m, s, viewId)) <==> (FindDescriptor(m.descriptors, Some(viewId)).Some? || !s.busy)
  {
    assert s.generation + 1 !in s.pending;
  }

  // ---------- the mounted object ----------

  class TaskWorkbench {
    const mount: Mount
    var section: string
    var viewId: Option<string>
    var snapshot: Option<Snapshot>
    var selectedId: Option<string>
    var failed: bool
    var busy: bool
    var alive: bool
    var generation: nat
    var cache: map<string, Cached>
    var pending: map<nat, Request>

    ghost function Now(): State
      reads this
    {
      State(section, viewId, snapshot, selectedId, failed, busy, alive, generation, cache, pending)
    }

    ghost predicate Valid()
      reads this
    {
      Inv(mount, Now())
    }

    constructor (m: Mount)
      ensures mount == m && Valid() && Now() == Mounted(m)
    {
      mount := m;
      section := if m.initialViewId.Some? || m.initialSnapshot.Some? then RESEARCH else PROGRESS;
      viewId := if m.initialViewId.Some? then m.initialViewId
                else if m.descriptors != [] then Some(m.descriptors[0].viewId) else None;
      snapshot := m.initialSnapshot;
      selectedId := if m.initialSnapshot.Some? then m.initialSnapshot.value.focus else None;
      failed, busy, alive, generation := false, false, true, 0;
      cache, pending := map[], map[];
      new;
      MountedInv(m);
      if m.initialViewId.Some? && snapshot.None? {
        StartLoad();
      }
    }

    /** load() up to its await: the request is outstanding when this returns. */
    method StartLoad()
      modifies this
      ensures Now() == Load(mount, old(Now()))
    {
      var descriptor := FindDescriptor(mount.descriptors, viewId);
      if descriptor.None? || !mount.hasRead {
        failed := true;
        return;
      }
      generation := generation + 1;
      var ticket := generation;
      busy := true;
      failed := false;
      var previous := if viewId.value in cache then Some(cache[viewId.value]) else None;
      pending := pending[ticket := Request(viewId.value, descriptor.value, previous)];
    }

    /** The part of load() after its await that a current ticket reaches. */
    method Apply(request: Request, response: Option<Readback>)
      modifies this
      ensures Now() == Applied(mount, old(Now()), request, response)
    {
      hide Accept;
      if response.None? {
        failed := true;
      } else {
        var accepted := AcceptDomainRead(response.value, mount.item, request.descriptor, request.previous);
        if accepted.Failure? {
          failed := true;
        } else {
          if viewId.Some? {
            cache := cache[viewId.value := accepted.value];
          }
          snapshot := Some(accepted.value.snapshot);
          if !Shows(snapshot.value, selectedId) {
            selectedId := DefaultNode(snapshot.value);
          }
        }
      }
      busy := false;
    }

    /** load() after its await. */
    method FinishLoad(ticket: nat, response: Option<Readback>)
      requires Valid() && ticket in pending
      modifies this
      ensures Valid() && Now() == Settle(mount, old(Now()), ticket, response)
      ensures CacheGrows(old(Now()), Now())
    {
      SettleKeepsInv(mount, Now(), ticket, response);
      assert CacheGrows(Now(), Settle(mount, Now(), ticket, response));
      hide Inv, Applied, CacheGrows;
      var request := pending[ticket];
      pending := pending - {ticket};
      if !alive || ticket != generation {
        return;
      }
      Apply(request, response);
    }

    method OnClickSection(target: string)
      requires Valid() && alive
      modifies this
      ensures Valid() && Now() == Step(mount, old(Now()), ClickSection(target))
    {
      StepKeepsInv(mount, Now(), ClickSection(target));
      hide Inv, Load;
      section := target;
      if section != PROGRESS && snapshot.None? && mount.descriptors != [] && !busy {
        StartLoad();
      }
    }

    method Open(target: string)
      modifies this
      ensures Now() == Opened(old(Now()), target)
    {
      generation := generation + 1;
      viewId := Some(target);
      snapshot := if target in cache then Some(cache[target].snapshot) else None;
      selectedId := None;
    }

    method OnClickView(target: string)
      requires Valid() && Enabled(mount, Now(), ClickView(target))
      modifies this
      ensures Valid() && Now() == Step(mount, old(Now()), ClickView(target))
    {
      StepKeepsInv(mount, Now(), ClickView(target));
      assert Step(mount, Now(), ClickView(target)) == Load(mount, Opened(Now(), target));
      hide Inv, Load, Enabled, Step, OnView, CacheGrows;
      Open(target);
      StartLoad();
    }

    method OnClickRefresh()
      requires Valid() && alive
      modifies this
      ensures Valid() && Now() == Step(mount, old(Now()), ClickRefresh)
    {
      StepKeepsInv(mount, Now(), ClickRefresh);
      hide Inv, Load;
      StartLoad();
    }

    method OnClickNode(nodeId: string)
      requires Valid() && alive
      modifies this
      ensures Valid() && Now() == Step(mount, old(Now()), ClickNode(nodeId))
    {
      StepKeepsInv(mount, Now(), ClickNode(nodeId));
      hide Inv, CacheGrows;
      selectedId := Some(nodeId);
      section := RESEARCH;
    }

    method Close()
      requires Valid()
      modifies this
      ensures Valid() && Now() == Step(mount, old(Now()), Dispose)
    {
      StepKeepsInv(mount, Now(), Dispose);
      hide Inv, CacheGrows;
      alive := false;
      generation := generation + 1;
    }
  }
}
