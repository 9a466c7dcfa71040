/**
  What each event of the workbench does, told by its fields: which clicks ask for a read, for what,
  and what comes of the answer.
  */
module WorkbenchClicks {
  import opened Wrappers
  import opened DomainRead
  import opened Workbench

  /** The first descriptor for the view. */
  ghost predicate FirstFor(ds: seq<Descriptor>, viewId: string, d: Descriptor) {
    exists i :: 0 <= i < |ds| && ds[i] == d && d.viewId == viewId && forall j :: 0 <= j < i ==> ds[j].viewId != viewId
  }

  /** There is a read function, and the view has a descriptor. */
  ghost predicate CanRead(m: Mount, viewId: Option<string>) {
    m.hasRead && viewId.Some? && exists d :: d in m.descriptors && d.viewId == viewId.value
  }

  /** t has one outstanding request more than s: for the view t shows, its descriptor and its cached entry. */
  ghost predicate Asks(m: Mount, s: State, t: State) {
    var ticket := t.generation;
    && s.generation < ticket && ticket !in s.pending && ticket in t.pending && t.pending - {ticket} == s.pending
    && t.busy && !t.failed && t.viewId.Some?
    && t.pending[ticket].viewId == t.viewId.value
    && FirstFor(m.descriptors, t.viewId.value, t.pending[ticket].descriptor)
    && t.pending[ticket].previous == (if t.viewId.value in t.cache then Some(t.cache[t.viewId.value]) else None)
  }

  /** Nothing is asked for, and whatever was asked for stays current. */
  ghost predicate AsksNothing(s: State, t: State) {
    t.pending == s.pending && t.generation == s.generation && t.busy == s.busy
  }

  /** The fields no read changes. */
  predicate SameView(s: State, t: State) {
    t.viewId == s.viewId && t.snapshot == s.snapshot && t.selectedId == s.selectedId && t.cache == s.cache && t.alive == s.alive
  }

  lemma {:induction false} FindFirst(ds: seq<Descriptor>, viewId: string)
    ensures FindDescriptor(ds, Some(viewId)).Some? <==> exists d :: d in ds && d.viewId == viewId
    ensures FindDescriptor(ds, Some(viewId)).Some? ==> FirstFor(ds, viewId, FindDescriptor(ds, Some(viewId)).value)
  {
    if ds != [] {
      FindFirst(ds[1..], viewId);
      if ds[0].viewId == viewId {
        assert FirstFor(ds, viewId, ds[0]);
      } else if FindDescriptor(ds[1..], Some(viewId)).Some? {
        var d := FindDescriptor(ds[1..], Some(viewId)).value;
        var i :| 0 <= i < |ds[1..]| && ds[1..][i] == d && forall j :: 0 <= j < i ==> ds[1..][j].viewId != viewId;
        var k := i + 1;
        assert ds[k] == d && forall j :: 1 <= j < k ==> ds[j] == ds[1..][j - 1];
      }
    }
  }

  lemma LoadAsks(m: Mount, s: State)
    requires Tickets(s)
    ensures SameView(s, Load(m, s)) && Load(m, s).section == s.section
    ensures CanRead(m, s.viewId) ==> Asks(m, s, Load(m, s)) && Load(m, s).generation == s.generation + 1
    ensures !CanRead(m, s.viewId) ==> AsksNothing(s, Load(m, s)) && Load(m, s).failed
  {
    if s.viewId.Some? {
      FindFirst(m.descriptors, s.viewId.value);
      assert s.generation + 1 !in s.pending;
      if CanRead(m, s.viewId) {
        assert Load(m, s).pending - {s.generation + 1} == s.pending;
      }
    }
    hide FirstFor;
  }

  /**
    A click on a section starts a read if and only if it leaves the progress section, nothing is
    shown, nothing is being read, and the view can be read.
    */
  lemma SectionClickAsksExactly(m: Mount, s: State, section: string)
    requires Inv(m, s) && s.alive
    ensures var t := Step(m, s, ClickSection(section));
            && t.section == section && SameView(s, t)
            && (if section != "progress" && s.snapshot.None? && !s.busy && CanRead(m, s.viewId)
                then Asks(m, s, t) && t.generation == s.generation + 1 else AsksNothing(s, t))
            && (t.failed <==> if section != "progress" && s.snapshot.None? && !s.busy && m.descriptors != []
                              then !CanRead(m, s.viewId) else s.failed)
  {
    var u := s.(section := section);
    LoadAsks(m, u);
    assert Asks(m, u, Load(m, u)) <==> Asks(m, s, Load(m, u));
    hide Load, FirstFor, Asks;
  }

  /** A refresh starts a read if and only if the view can be read, even while another is under way. */
  lemma RefreshAsksExactly(m: Mount, s: State)
    requires Inv(m, s) && s.alive
    ensures var t := Step(m, s, ClickRefresh);
            && t.section == s.section && SameView(s, t)
            && (if CanRead(m, s.viewId) then Asks(m, s, t) else AsksNothing(s, t) && t.failed)
  {
    LoadAsks(m, s);
    hide Load, FirstFor;
  }

  /** A click on a view shows what is cached of it, drops the selection, overtakes every read, and starts one where reads are possible. */
  lemma ViewClickAsksExactly(m: Mount, s: State, viewId: string)
    requires Inv(m, s) && Enabled(m, s, ClickView(viewId))
    ensures var t := Step(m, s, ClickView(viewId));
            && t.section == s.section && t.viewId == Some(viewId) && t.selectedId == None && t.cache == s.cache && t.alive
            && t.snapshot == (if viewId in s.cache then Some(s.cache[viewId].snapshot) else None)
            && s.generation < t.generation
            && (if m.hasRead then Asks(m, s, t) else t.pending == s.pending && t.failed)
  {
    var u := Opened(s, viewId);
    assert Tickets(u);
    LoadAsks(m, u);
    assert Asks(m, u, Load(m, u)) ==> Asks(m, s, Load(m, u));
    hide Load, FirstFor, Asks;
  }

  /** Mounting reads at once if and only if a view but no snapshot is given and the view can be read. */
  lemma MountAsksExactly(m: Mount)
    ensures var t := Mounted(m);
            && (t.section == "research" <==> m.initialViewId.Some? || m.initialSnapshot.Some?) && t.section in {"research", "progress"}
            && t.viewId == (if m.initialViewId.Some? then m.initialViewId
                            else if m.descriptors != [] then Some(m.descriptors[0].viewId) else None)
            && t.snapshot == m.initialSnapshot && t.cache == map[] && t.alive
            && t.selectedId == (if m.initialSnapshot.Some? then m.initialSnapshot.value.focus else None)
            && (if m.initialViewId.Some? && m.initialSnapshot.None? && CanRead(m, m.initialViewId)
                then t.busy && t.pending.Keys == {t.generation} && Asks(m, Initial(m), t)
                else t.pending == map[] && !t.busy)
            && (t.failed <==> m.initialViewId.Some? && m.initialSnapshot.None? && !CanRead(m, m.initialViewId))
  {
    LoadAsks(m, Initial(m));
    var t := Load(m, Initial(m));
    if CanRead(m, m.initialViewId) && m.initialViewId.Some? {
      assert t.pending.Keys == {t.generation} by {
        assert t.pending - {t.generation} == map[];
        assert forall k :: k in t.pending && k != t.generation ==> k in t.pending - {t.generation};
      }
    }
    hide Load, FirstFor;
  }

  /** What stays selected when a snapshot arrives: the node if it is still there, else the focus, else the first node. */
  ghost predicate Reselected(snapshot: Snapshot, before: Option<string>, after: Option<string>) {
    if before.Some? && snapshot.nodes.Some? && exists n :: n in snapshot.nodes.value && n.id == before then after == before
    else if snapshot.focus.Some? && snapshot.focus.value != "" then after == snapshot.focus
    else after == if snapshot.nodes.Some? && snapshot.nodes.value != [] then snapshot.nodes.value[0].id else None
  }

  /** The answer to the newest request of a mounted workbench: shown and cached if accepted, else reported; not busy either way. */
  lemma CurrentAnswer(m: Mount, s: State, response: Option<Readback>)
    requires Inv(m, s) && s.alive && s.generation in s.pending
    ensures var t := Step(m, s, Respond(s.generation, response));
            var request := s.pending[s.generation];
            && t.pending == s.pending - {s.generation} && !t.busy && t.alive
            && t.generation == s.generation && t.viewId == s.viewId && t.section == s.section
            && if response.Some? && Accept(response.value, m.item, request.descriptor, request.previous).Success?
               then
                 var accepted := Accept(response.value, m.item, request.descriptor, request.previous).value;
                 && t.cache == s.cache[request.viewId := accepted] && t.snapshot == Some(accepted.snapshot)
                 && Reselected(accepted.snapshot, s.selectedId, t.selectedId) && t.failed == s.failed
               else t.failed && t.cache == s.cache && t.snapshot == s.snapshot && t.selectedId == s.selectedId
  {
    hide Accept, Coherent;
  }

  /** Any other answer is dropped. */
  lemma LateAnswer(m: Mount, s: State, ticket: nat, response: Option<Readback>)
    requires ticket in s.pending && (!s.alive || ticket != s.generation)
    ensures Step(m, s, Respond(ticket, response)) == s.(pending := s.pending - {ticket})
  {
  }

  /** A click on a node selects it in the research section; disposal overtakes every read. */
  lemma NodeClickAndDispose(m: Mount, s: State, nodeId: string)
    requires s.alive
    ensures Step(m, s, ClickNode(nodeId)) == s.(selectedId := Some(nodeId), section := "research")
    ensures var t := Step(m, s, Dispose); !t.alive && s.generation < t.generation && t.pending == s.pending && t.cache == s.cache
  {
  }
}
