/** Which responses and snapshots the workbench accepts, field by field, and which reason each refusal gives. */
module DomainReadRules {
  import opened Wrappers
  import opened DomainRead

  /** The text of a field that is there and not empty. */
  ghost predicate Given(field: Option<string>) {
    exists text :: field == Some(text) && text != ""
  }

  ghost predicate IsNode(nodes: seq<Node>, id: Option<string>) {
    exists node :: node in nodes && node.id == id
  }

  /** A snapshot is accepted for a study if and only if it is of this kind and version, about this study, and complete. */
  lemma SnapshotExactly(s: Snapshot, studyId: string)
    ensures ValidSnapshot(s, studyId) <==>
            && s.surfaceKind == "mas_research_trajectory_snapshot" && s.version == "mas-research-trajectory-snapshot.v2"
            && studyId != "" && s.studyId == studyId && s.studyRef == "mas-study:" + studyId
            && (exists n: int :: s.revision == Some(n) && 1 <= n <= 9007199254740991)
            && s.hasSummary && s.nodes.Some? && s.edges.Some?
            && NodesInOrder(s.nodes.value) && EdgesInOrder(s.nodes.value, s.edges.value)
  {
    hide WellFormedNodes, WellFormedEdges, NodesInOrder, EdgesInOrder;
    if s.nodes.Some? && s.edges.Some? {
      NodesExactly(s.nodes.value);
      EdgesExactly(s.nodes.value, s.edges.value);
    }
  }

  /** Every node has an id, a label and sources, and no two have one id. */
  ghost predicate NodesInOrder(nodes: seq<Node>) {
    && (forall node :: node in nodes ==> Given(node.id) && Given(node.text) && node.hasSourceRefs)
    && (forall i, j :: 0 <= i < j < |nodes| ==> nodes[i].id != nodes[j].id)
  }

  /** Every edge has an id and sources and joins two nodes, and no two have one id. */
  ghost predicate EdgesInOrder(nodes: seq<Node>, edges: seq<Edge>) {
    && (forall edge :: edge in edges ==>
          && Given(edge.id) && edge.hasSourceRefs
          && edge.source.Some? && IsNode(nodes, edge.source) && edge.target.Some? && IsNode(nodes, edge.target))
    && (forall i, j :: 0 <= i < j < |edges| ==> edges[i].id != edges[j].id)
  }

  lemma NodesExactly(nodes: seq<Node>)
    ensures WellFormedNodes(nodes) <==> NodesInOrder(nodes)
  {
    assert forall i :: 0 <= i < |nodes| ==> nodes[i] in nodes;
    forall field
      ensures NonEmptyString(field) <==> Given(field)
    {
      assert NonEmptyString(field) ==> field == Some(field.value);
    }
    hide NonEmptyString, Given;
  }

  lemma EdgesExactly(nodes: seq<Node>, edges: seq<Edge>)
    ensures WellFormedEdges(nodes, edges) <==> EdgesInOrder(nodes, edges)
  {
    assert forall i :: 0 <= i < |edges| ==> edges[i] in edges;
    forall field
      ensures NonEmptyString(field) <==> Given(field)
    {
      assert NonEmptyString(field) ==> field == Some(field.value);
    }
    forall id
      ensures HasNode(nodes, id) <==> IsNode(nodes, id)
    {
      if i :| 0 <= i < |nodes| && nodes[i].id == id {
        assert nodes[i] in nodes;
      }
    }
    hide NonEmptyString, Given, HasNode, IsNode;
  }

  // ---------- acceptDomainRead ----------

  /** The response is about the item and the view that were asked for. */
  predicate About(r: Readback, item: Item, d: Descriptor) {
    && r.envelopeMatches && r.itemId == item.itemId && r.viewId == d.viewId && r.viewKind == d.viewKind
    && r.revision.Some? && 0 <= r.revision.value <= 9007199254740991 && r.notModified.Some?
  }

  /** The one view there is a renderer for, under the schema the renderer and the descriptor name. */
  predicate Rendered(r: Readback, d: Descriptor) {
    && d.viewKind == "research-roadmap"
    && r.payloadSchemaRef == "contracts/schemas/v2/mas-research-trajectory-snapshot-v2.schema.json"
    && (d.schemaRef == None || d.schemaRef == Some("") || d.schemaRef == Some(r.payloadSchemaRef))
    && (d.schemaVersion == None || d.schemaVersion == Some("") || d.schemaVersion == Some(r.payloadSchema))
  }

  lemma AgreesExactly(expected: Option<string>, actual: string)
    ensures Agrees(expected, actual) <==> expected == None || expected == Some("") || expected == Some(actual)
  {
    if expected.Some? {
      assert expected == Some(expected.value);
    }
  }

  /** The first thing that is wrong names the refusal; nothing wrong is accepted. */
  lemma AcceptExactly(r: Readback, item: Item, d: Descriptor, previous: Option<Cached>)
    ensures var out := Accept(r, item, d, previous);
            if !About(r, item, d) then out == Failure(Mismatch)
            else if !r.available then out == Failure(Unavailable)
            else if !Rendered(r, d) then out == Failure(UnsupportedSchema)
            else if previous.Some? && r.revision.value < previous.value.revision then out == Failure(RevisionFell)
            else if r.notModified == Some(true) then
              out == if previous.Some? && r.revision == Some(previous.value.revision) && r.payload.None? then Success(previous.value) else Failure(NothingToKeep)
            else if r.payload.Some? && ValidSnapshot(r.payload.value, item.studyId) && r.payload.value.revision == r.revision then
              out == Success(Cached(r.revision.value, r.payload.value))
            else out == Failure(BadPayload)
  {
    AgreesExactly(d.schemaRef, r.payloadSchemaRef);
    AgreesExactly(d.schemaVersion, r.payloadSchema);
    hide ValidSnapshot, Agrees;
  }
}
