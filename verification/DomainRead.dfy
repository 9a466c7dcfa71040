/** Acceptance of one domain read by the workbench: the snapshot parser and acceptDomainRead. */
module DomainRead {
  import opened Wrappers

  /** The fields of a payload the parser looks at; None where the field has another type. */
  datatype Node = Node(id: Option<string>, text: Option<string>, hasSourceRefs: bool)

  datatype Edge = Edge(id: Option<string>, source: Option<string>, target: Option<string>, hasSourceRefs: bool)

  datatype Snapshot = Snapshot(
    surfaceKind: string,
    version: string,
    studyId: string,
    studyRef: string,
    revision: Option<int>,
    hasSummary: bool,
    nodes: Option<seq<Node>>,
    edges: Option<seq<Edge>>,
    focus: Option<string>)

  const SURFACE_KIND := "mas_research_trajectory_snapshot"
  const SNAPSHOT_VERSION := "mas-research-trajectory-snapshot.v2"
  const SNAPSHOT_SCHEMA_REF := "contracts/schemas/v2/mas-research-trajectory-snapshot-v2.schema.json"
  const RESEARCH_ROADMAP := "research-roadmap"

  /** Number.isSafeInteger */
  predicate IsSafeInteger(n: int) {
    -0x1F_FFFF_FFFF_FFFF <= n <= 0x1F_FFFF_FFFF_FFFF
  }

  predicate NonEmptyString(s: Option<string>) {
    s.Some? && s.value != ""
  }

  ghost predicate WellFormedNodes(nodes: seq<Node>) {
    && (forall i :: 0 <= i < |nodes| ==> NonEmptyString(nodes[i].id) && NonEmptyString(nodes[i].text) && nodes[i].hasSourceRefs)
    && (forall i, j :: 0 <= i < j < |nodes| ==> nodes[i].id != nodes[j].id)
  }

  predicate Joins(nodes: seq<Node>, edge: Edge) {
    edge.source.Some? && HasNode(nodes, edge.source) && edge.target.Some? && HasNode(nodes, edge.target)
  }

  predicate SoundEdge(edge: Edge) {
    NonEmptyString(edge.id) && edge.hasSourceRefs
  }

  ghost predicate WellFormedEdges(nodes: seq<Node>, edges: seq<Edge>) {
    && (forall i :: 0 <= i < |edges| ==> SoundEdge(edges[i]))
    && (forall i, j :: 0 <= i < j < |edges| ==> edges[i].id != edges[j].id)
    && (forall i :: 0 <= i < |edges| ==> Joins(nodes, edges[i]))
  }

  predicate HasNode(nodes: seq<Node>, id: Option<string>) {
    exists i :: 0 <= i < |nodes| && nodes[i].id == id
  }

  predicate Envelope(s: Snapshot, studyId: string) {
    && s.surfaceKind == SURFACE_KIND && s.version == SNAPSHOT_VERSION
    && s.studyId != "" && s.studyId == studyId && s.studyRef == "mas-study:" + studyId
    && s.revision.Some? && IsSafeInteger(s.revision.value) && s.revision.value >= 1
    && s.hasSummary && s.nodes.Some? && s.edges.Some?
  }

  /** Node ids and edge ids are unique and every edge joins existing nodes. */
  ghost predicate ValidSnapshot(s: Snapshot, studyId: string) {
    Envelope(s, studyId) && WellFormedNodes(s.nodes.value) && WellFormedEdges(s.nodes.value, s.edges.value)
  }

  /** The loop over nodes: the set of their ids, or a rejection. */
  method ParseNodes(nodes: seq<Node>) returns (accepted: bool, ids: set<string>)
    ensures accepted <==> WellFormedNodes(nodes)
    ensures accepted ==> forall id :: id in ids <==> HasNode(nodes, Some(id))
  {
    ids := {};
    var i := 0;
    while i < |nodes|
      invariant 0 <= i <= |nodes|
      invariant forall j :: 0 <= j < i ==> NonEmptyString(nodes[j].id) && NonEmptyString(nodes[j].text) && nodes[j].hasSourceRefs
      invariant forall j, k :: 0 <= j < k < i ==> nodes[j].id != nodes[k].id
      invariant forall id :: id in ids <==> exists j :: 0 <= j < i && nodes[j].id == Some(id)
    {
      var node := nodes[i];
      if !NonEmptyString(node.id) || !NonEmptyString(node.text) || node.id.value in ids || !node.hasSourceRefs {
        return false, {};
      }
      ids := ids + {node.id.value};
      i := i + 1;
    }
    return true, ids;
  }

  lemma JoinsById(nodes: seq<Node>, ids: set<string>, edge: Edge)
    requires forall id :: id in ids <==> HasNode(nodes, Some(id))
    ensures Joins(nodes, edge) <==> edge.source.Some? && edge.source.value in ids && edge.target.Some? && edge.target.value in ids
  {
    hide HasNode;
    assert edge.source.Some? ==> edge.source == Some(edge.source.value);
    assert edge.target.Some? ==> edge.target == Some(edge.target.value);
  }

  /** The loop over edges, against the node ids found before. */
  method ParseEdges(list: seq<Edge>, ids: set<string>, nodes: seq<Node>) returns (accepted: bool)
    requires forall id :: id in ids <==> HasNode(nodes, Some(id))
    ensures accepted <==> WellFormedEdges(nodes, list)
  {
    hide HasNode, Joins;
    var edges: set<string> := {};
    var i := 0;
    while i < |list|
      invariant 0 <= i <= |list|
      invariant forall j :: 0 <= j < i ==> SoundEdge(list[j])
      invariant forall j, k :: 0 <= j < k < i ==> list[j].id != list[k].id
      invariant forall j :: 0 <= j < i ==> Joins(nodes, list[j])
      invariant forall id :: id in edges <==> exists j :: 0 <= j < i && list[j].id == Some(id)
    {
      var edge := list[i];
      JoinsById(nodes, ids, edge);
      if !NonEmptyString(edge.id) || edge.id.value in edges
         || edge.source.None? || edge.source.value !in ids || edge.target.None? || edge.target.value !in ids
         || !edge.hasSourceRefs {
        return false;
      }
      edges := edges + {edge.id.value};
      i := i + 1;
    }
    return true;
  }

  /** parseResearchSnapshot: true where the source returns the snapshot, false where it throws. */
  method ParseResearchSnapshot(snapshot: Snapshot, studyId: string) returns (accepted: bool)
    ensures accepted <==> ValidSnapshot(snapshot, studyId)
  {
    if !Envelope(snapshot, studyId) {
      return false;
    }
    var nodesAccepted, ids := ParseNodes(snapshot.nodes.value);
    if !nodesAccepted {
      return false;
    }
    accepted := ParseEdges(snapshot.edges.value, ids, snapshot.nodes.value);
  }

  datatype Item = Item(itemId: string, studyId: string)

  datatype Descriptor = Descriptor(viewId: string, viewKind: string, schemaRef: Option<string>, schemaVersion: Option<string>)

  datatype Readback = Readback(
    envelopeMatches: bool,
    itemId: string,
    viewId: string,
    viewKind: string,
    revision: Option<int>,
    notModified: Option<bool>,
    available: bool,
    payloadSchemaRef: string,
    payloadSchema: string,
    payload: Option<Snapshot>)

  /** A cache entry of the workbench. */
  datatype Cached = Cached(revision: int, snapshot: Snapshot)

  datatype Rejection = Mismatch | Unavailable | UnsupportedSchema | RevisionFell | NothingToKeep | BadPayload

  /** A descriptor field that is absent or empty does not constrain the payload. */
  predicate Agrees(expected: Option<string>, actual: string) {
    NonEmptyString(expected) ==> expected.value == actual
  }

  /** acceptDomainRead up to the payload: Some is the reason for which it throws. */
  function Objection(r: Readback, item: Item, d: Descriptor, previous: Option<Cached>): Option<Rejection> {
    if !r.envelopeMatches || r.itemId != item.itemId || r.viewId != d.viewId || r.viewKind != d.viewKind
       || r.revision.None? || !IsSafeInteger(r.revision.value) || r.revision.value < 0 || r.notModified.None? then Some(Mismatch)
    else if !r.available then Some(Unavailable)
    else if d.viewKind != RESEARCH_ROADMAP || r.payloadSchemaRef != SNAPSHOT_SCHEMA_REF
            || !Agrees(d.schemaRef, r.payloadSchemaRef) || !Agrees(d.schemaVersion, r.payloadSchema) then Some(UnsupportedSchema)
    else if previous.Some? && r.revision.value < previous.value.revision then Some(RevisionFell)
    else if r.notModified.value && (previous.None? || r.revision.value != previous.value.revision || r.payload.Some?) then Some(NothingToKeep)
    else None
  }

  ghost function Accept(r: Readback, item: Item, d: Descriptor, previous: Option<Cached>): Result<Cached, Rejection> {
    var objection := Objection(r, item, d, previous);
    if objection.Some? then Failure(objection.value)
    else if r.notModified.value then Success(previous.value)
    else if r.payload.None? || !ValidSnapshot(r.payload.value, item.studyId) || r.payload.value.revision != r.revision then
      Failure(BadPayload)
    else Success(Cached(r.revision.value, r.payload.value))
  }

  method AcceptDomainRead(r: Readback, item: Item, d: Descriptor, previous: Option<Cached>) returns (out: Result<Cached, Rejection>)
    ensures out == Accept(r, item, d, previous)
  {
    var objection := Objection(r, item, d, previous);
    if objection.Some? {
      return Failure(objection.value);
    }
    if r.notModified.value {
      return Success(previous.value);
    }
    if r.payload.None? {
      return Failure(BadPayload);
    }
    var parsed := ParseResearchSnapshot(r.payload.value, item.studyId);
    if !parsed || r.payload.value.revision != r.revision {
      return Failure(BadPayload);
    }
    return Success(Cached(r.revision.value, r.payload.value));
  }

  /** Cache entries are valid snapshots under their own revision. */
  ghost predicate Coherent(c: Cached, studyId: string) {
    ValidSnapshot(c.snapshot, studyId) && c.snapshot.revision == Some(c.revision)
  }

  /**
    What acceptance guarantees: a coherent entry of the descriptor's view, never older than the
    one compared with, and "not modified" only confirms exactly that one.
    */
  lemma AcceptedReads(r: Readback, item: Item, d: Descriptor, previous: Option<Cached>)
    requires previous.Some? ==> Coherent(previous.value, item.studyId)
    ensures var out := Accept(r, item, d, previous);
            out.Success? ==>
              && Coherent(out.value, item.studyId)
              && r.viewId == d.viewId && r.itemId == item.itemId && r.revision == Some(out.value.revision)
              && (previous.Some? ==> previous.value.revision <= out.value.revision)
              && (r.notModified == Some(true) ==> previous == Some(out.value))
  {
  }
}
