/**
  _read_file: open the roots, attest them, open the file below them, read it, and check after the
  read that the path still names the same unchanged object.
  */
module FileRead {
  import opened Wrappers
  import opened Bytes
  import opened FileKernel
  import opened SnapshotRead
  import opened FileBoundary

  // ---------- the two roots ----------

  /** A pair of open descriptors: the workspace, and the work-item root below it. */
  datatype Roots = Roots(workspace: nat, root: nat, physicalRoot: seq<string>)

  /** What a successful opening of the roots adds to the descriptors, and where they lead. */
  ghost predicate RootsOpened(
    h: History, base: map<nat, Handle>, fds: map<nat, Handle>, components: seq<string>, t: nat, u: nat, roots: Roots)
  {
    && roots.workspace !in base && roots.root !in base && roots.workspace != roots.root
    && roots.workspace in fds && roots.root in fds
    && fds == base[roots.workspace := fds[roots.workspace]][roots.root := fds[roots.root]]
    && Reaches(h, fds[roots.workspace].obj, components, t, u, fds[roots.root].obj)
    && Rooted(h, t, u, fds[roots.workspace].obj, components, roots.physicalRoot)
  }

  /** The physical root is a path that led from the slash to the workspace, and the components below it. */
  ghost predicate Rooted(h: History, t: nat, u: nat, workspace: Obj, components: seq<string>, physicalRoot: seq<string>) {
    exists physical: seq<string> :: ReachesFromSlash(h, physical, t, u, workspace) && physicalRoot == physical + components
  }

  lemma RootedLater(h: History, t: nat, u: nat, u': nat, workspace: Obj, components: seq<string>, physicalRoot: seq<string>)
    requires u <= u' && Rooted(h, t, u, workspace, components, physicalRoot)
    ensures Rooted(h, t, u', workspace, components, physicalRoot)
  {
    var physical: seq<string> :| ReachesFromSlash(h, physical, t, u, workspace) && physicalRoot == physical + components;
    var v: nat :| t <= v <= u && Reaches(h, h(v).slash, physical, v, u, workspace);
    ReachesLater(h, h(v).slash, physical, v, v, u, u', workspace);
  }

  /** In the world as it stands, by the book, the paths lead to these two directories. */
  ghost predicate RootsAt(w: World, book: Book, workspace: seq<string>, root: seq<string>, components: seq<string>, a: Obj, b: Obj) {
    SlashLeads(w, book, workspace, a) && book.resolve(root) == book.resolve(workspace) + components && WalkIn(w, a, components) == Some(b)
  }

  /** _open_roots, and _fresh_root_descriptors, which takes the same steps with other messages. */
  method OpenRoots(k: Kernel, workspace: seq<string>, root: seq<string>, components: seq<string>) returns (r: Result<Roots, Fault>)
    requires k.Valid()
    modifies k
    ensures k.Valid() && old(k.now) <= k.now && (k.smooth ==> old(k.smooth))
    ensures r.Success? ==> RootsOpened(k.history, old(k.fds), k.fds, components, old(k.now), k.now, r.value)
    ensures r.Failure? ==> k.fds == old(k.fds) && r.error == Boundary(RootDrift)
    ensures k.smooth && Quiet(k.history, old(k.now), k.now) ==>
              && (r.Success? ==>
                    && r.value.physicalRoot == k.book.resolve(root)
                    && RootsAt(k.history(old(k.now)), k.book, workspace, root, components, k.fds[r.value.workspace].obj, k.fds[r.value.root].obj))
              && (r.Failure? ==> forall a, b :: !RootsAt(k.history(old(k.now)), k.book, workspace, root, components, a, b))
  {
    hide WalkIn, Quiet, Reaches, Lawful;
    ghost var base, start := k.fds, k.now;
    var absolute := OpenAbsoluteDirectory(k, workspace, RootDrift);
    if absolute.Failure? {
      return Failure(Boundary(RootDrift));
    }
    var (w, physical) := absolute.value;
    ghost var o, since := k.fds[w].obj, k.now;
    var observed := k.Realpath(root);
    if observed != physical + components {
      k.Close(w);
      assert k.fds == base;
      OpenedSoFar(k.history, start, since, k.now, k.book, workspace, o, k.smooth);
      return Failure(Boundary(RootDrift));
    }
    ghost var found := k.now;
    var relative := OpenRelativeDirectory(k, w, components, RootDrift);
    OpenedSoFar(k.history, start, since, k.now, k.book, workspace, o, k.smooth);
    if Quiet(k.history, start, k.now) {
      QuietWithin(k.history, start, found, k.now, k.now);
    }
    if relative.Failure? {
      k.Close(w);
      assert k.fds == base;
      return Failure(Boundary(RootDrift));
    }
    ReachesLater(k.history, o, components, start, found, k.now, k.now, k.fds[relative.value].obj);
    assert Rooted(k.history, start, since, o, components, observed);
    RootedLater(k.history, start, since, k.now, o, components, observed);
    return Success(Roots(w, relative.value, observed));
  }

  /** What a quiet world led to first it leads to alone. */
  lemma OpenedSoFar(h: History, t: nat, v: nat, u: nat, book: Book, workspace: seq<string>, o: Obj, smooth: bool)
    requires t <= v <= u && (smooth && Quiet(h, t, v) ==> SlashLeads(h(t), book, workspace, o))
    ensures smooth && Quiet(h, t, u) ==> Quiet(h, t, v) && forall a :: SlashLeads(h(t), book, workspace, a) <==> a == o
  {
    hide WalkIn;
    if Quiet(h, t, u) {
      QuietWithin(h, t, t, v, u);
    }
  }

  method CloseRoots(k: Kernel, roots: Roots)
    requires k.Valid() && roots.workspace in k.fds && roots.root in k.fds && roots.workspace != roots.root
    modifies k`fds
    ensures k.Valid() && k.fds == old(k.fds) - {roots.workspace, roots.root}
  {
    k.Close(roots.root);
    k.Close(roots.workspace);
  }

  /** Success(true) when both stats could be taken and show one identity. */
  method SameIdentity(k: Kernel, left: nat, right: nat) returns (r: Result<bool, Fault>)
    requires k.Valid() && left in k.fds && right in k.fds
    modifies k`now, k`smooth
    ensures k.Valid() && old(k.now) <= k.now && (k.smooth ==> old(k.smooth)) && (r.Failure? ==> !k.smooth)
    ensures r == Success(true) <==> r.Success? && k.fds[left].obj == k.fds[right].obj
    ensures r.Failure? ==> r.error == OsError
  {
    var a := k.Fstat(left);
    if a.Failure? {
      return Failure(OsError);
    }
    ghost var t := k.now;
    var b := k.Fstat(right);
    if b.Failure? {
      return Failure(OsError);
    }
    var l, rt := k.fds[left].obj, k.fds[right].obj;
    assert SameObject(StatAt(k.history, l, t), StatAt(k.history, l, k.now));
    if SameObject(a.value, b.value) {
      SameIdentityIsSameObject(k.history, l, t, rt, k.now);
    }
    return Success(SameObject(a.value, b.value));
  }

  /** _assert_root_mapping_stable: the paths still lead to the objects the descriptors hold. */
  method AssertRootMappingStable(k: Kernel, q: Request, held: Roots, components: seq<string>) returns (r: Result<(), Fault>)
    requires k.Valid() && held.workspace in k.fds && held.root in k.fds
    modifies k
    ensures k.Valid() && old(k.now) <= k.now && k.fds == old(k.fds) && (k.smooth ==> old(k.smooth))
    ensures r.Success? ==> Reaches(k.history, k.fds[held.workspace].obj, components, old(k.now), k.now, k.fds[held.root].obj)
    ensures r.Failure? ==> r.error in {OsError, Boundary(RootDrift)}
    ensures r.Failure? && k.smooth && Quiet(k.history, old(k.now), k.now) ==>
              !RootsAt(k.history(old(k.now)), k.book, q.workspace, q.root, components, k.fds[held.workspace].obj, k.fds[held.root].obj)
  {
    hide WalkIn, Quiet, Reaches, Lawful;
    ghost var base, start := k.fds, k.now;
    var reopened := OpenRoots(k, q.workspace, q.root, components);
    if reopened.Failure? {
      return Failure(reopened.error);
    }
    var again := reopened.value;
    ghost var since, w, o := k.now, k.fds[again.workspace].obj, k.fds[again.root].obj;
    var workspaces := SameIdentity(k, held.workspace, again.workspace);
    var roots := workspaces;
    if workspaces == Success(true) {
      roots := SameIdentity(k, held.root, again.root);
    }
    CloseRoots(k, again);
    assert k.fds == base;
    if Quiet(k.history, start, k.now) {
      QuietWithin(k.history, start, start, since, k.now);
    }
    if roots.Failure? {
      return Failure(roots.error);
    }
    if !roots.value {
      return Failure(Boundary(RootDrift));
    }
    ReachesLater(k.history, w, components, start, start, since, k.now, o);
    return Success(());
  }

  /** The attested identity carries the inode numbers of the objects the descriptors hold. */
  predicate Names(identity: RootIdentity, workspace: Stat, root: Stat) {
    identity.workspaceInode == workspace.ino && identity.rootInode == root.ino
  }

  /** The identity captured of two directories, given what the platform says of boot and volumes. */
  function Captured(volumes: Option<(nat, nat, nat)>, w: Stat, s: Stat): RootIdentity {
    match volumes
    case None => V1(w.dev, w.ino, s.dev, s.ino)
    case Some(v) => V2(w.dev, w.ino, s.dev, s.ino, v.0, v.1, v.2)
  }

  /**
    _assert_root_attestation. The volume identity and the stored re-attestation are answers from
    outside; a re-attestation is consulted only for a V1 identity with unchanged inodes.
    */
  method AssertRootAttestation(k: Kernel, roots: Roots, expected: RootIdentity) returns (r: Result<RootIdentity, Fault>)
    requires k.Valid() && roots.workspace in k.fds && roots.root in k.fds
    modifies k`now, k`smooth
    ensures k.Valid() && old(k.now) <= k.now && (k.smooth ==> old(k.smooth))
    ensures r.Success? ==>
              && Names(expected, StatAt(k.history, k.fds[roots.workspace].obj, k.now), StatAt(k.history, k.fds[roots.root].obj, k.now))
              && (RootIdentityContinues(expected, r.value) || (expected.V1? && r.value.V2? && SameInodes(expected, r.value)))
    ensures r.Failure? ==> r.error in {OsError, Boundary(AttestationMismatch)}
    ensures k.smooth ==>
              var actual := Captured(k.book.volumes, StatAt(k.history, k.fds[roots.workspace].obj, k.now), StatAt(k.history, k.fds[roots.root].obj, k.now));
              (r.Success? ==> r.value == actual) && (r.Failure? ==> !RootIdentityContinues(expected, actual))
  {
    var w := k.Fstat(roots.workspace);
    if w.Failure? {
      return Failure(OsError);
    }
    ghost var t, o := k.now, k.fds[roots.workspace].obj;
    var s := k.Fstat(roots.root);
    if s.Failure? {
      return Failure(OsError);
    }
    assert SameObject(StatAt(k.history, o, t), StatAt(k.history, o, k.now));
    var volumes := k.Volumes();
    var actual := Captured(volumes, w.value, s.value);
    var receipt: bool := *;
    var reattested := expected.V1? && actual.V2? && SameInodes(expected, actual) && receipt;
    if !RootIdentityContinues(expected, actual) && !reattested {
      return Failure(Boundary(AttestationMismatch));
    }
    return Success(actual);
  }

  // ---------- the read itself ----------

  /** When the bytes were gathered, between the stat before and the stat after. */
  datatype Timing = Timing(before: nat, times: seq<nat>, end: nat, after: nat)

  ghost predicate ReadChecked(h: History, o: Obj, timing: Timing, bytes: seq<Byte>) {
    CheckedRead(h, o, timing.before, timing.times, bytes, timing.end, timing.after)
  }

  /** What a file must be for its read not to be refused. */
  predicate Acceptable(s: Stat, maxBytes: Option<int>) {
    RegularSingleLink(s) && (maxBytes.Some? ==> s.size <= maxBytes.value)
  }

  /** In a quiet world a checked read returns the content there was. */
  lemma QuietReadIsContent(h: History, t: nat, u: nat, o: Obj, timing: Timing, bytes: seq<Byte>)
    requires Quiet(h, t, u) && t <= timing.before && timing.after <= u && ReadChecked(h, o, timing, bytes) && Live(h, o, t)
    ensures bytes == ContentAt(h, o, t)
  {
    var content := ContentAt(h, o, t);
    assert h(timing.before) == h(t);
    forall i | 0 <= i < |bytes|
      ensures bytes[i] == content[i]
    {
      assert ByteRead(h, o, timing.times[i], i, bytes[i]) && h(timing.times[i]) == h(t);
    }
  }

  /** Each refusal of the read itself has its reason on disk. */
  ghost predicate Justified(h: History, t: nat, u: nat, maxBytes: Option<int>, fault: Fault) {
    && (fault == Boundary(RefInvalid) ==> exists o: Obj, v: nat :: t <= v <= u && Live(h, o, v) && StatAt(h, o, v).kind != Regular)
    && (fault == Boundary(HardLink) ==> exists o: Obj, v: nat :: t <= v <= u && Live(h, o, v) && StatAt(h, o, v).nlink != 1)
    && (fault == Boundary(SizeLimit) ==>
          maxBytes.Some? && (maxBytes.value < 0 || exists o: Obj, v: nat :: t <= v <= u && Live(h, o, v) && StatAt(h, o, v).size > maxBytes.value))
    && (fault == Boundary(RefDrift) ==> !Quiet(h, t, u))
  }

  function RequireRegularSingleLink(s: Stat): (r: Option<Fault>)
    ensures r.None? <==> RegularSingleLink(s)
    ensures r.Some? ==> (s.kind != Regular && r.value == Boundary(RefInvalid)) || (s.nlink != 1 && r.value == Boundary(HardLink))
  {
    if s.kind != Regular then Some(Boundary(RefInvalid)) else if s.nlink != 1 then Some(Boundary(HardLink)) else None
  }

  lemma StatJustifies(h: History, t: nat, u: nat, maxBytes: Option<int>, o: Obj, v: nat)
    requires t <= v <= u && Live(h, o, v) && RequireRegularSingleLink(StatAt(h, o, v)).Some?
    ensures Justified(h, t, u, maxBytes, RequireRegularSingleLink(StatAt(h, o, v)).value)
  {
  }

  lemma GatherMore(h: History, o: Obj, start: nat, times: seq<nat>, bytes: seq<Byte>, since: nat, chunk: seq<Byte>, now: nat)
    requires Gathered(h, o, start, times, bytes, since) && start <= since <= now
    requires Live(h, o, now) && |bytes| + |chunk| <= |ContentAt(h, o, now)|
    requires chunk == ContentAt(h, o, now)[|bytes|..|bytes| + |chunk|]
    ensures Gathered(h, o, start, times + seq(|chunk|, _ => now), bytes + chunk, now)
  {
    forall i | 0 <= i < |bytes| + |chunk|
      ensures ByteRead(h, o, (times + seq(|chunk|, _ => now))[i], i, (bytes + chunk)[i])
    {
      if i < |bytes| {
        assert ByteRead(h, o, times[i], i, bytes[i]);
      }
    }
  }

  lemma GatheredLater(h: History, o: Obj, start: nat, times: seq<nat>, bytes: seq<Byte>, since: nat, now: nat)
    requires Gathered(h, o, start, times, bytes, since) && since <= now
    ensures Gathered(h, o, start, times, bytes, now)
  {
  }

  /** One os.read of at most a chunk, on top of what has been gathered; no bytes only at the end of the file. */
  method ReadChunk(k: Kernel, file: nat, remaining: nat, ghost o: Obj, ghost start: nat, ghost times: seq<nat>, ghost bytes: seq<Byte>)
    returns (r: Result<seq<Byte>, Fault>, ghost after: seq<nat>)
    requires k.Valid() && file in k.fds && k.fds[file] == Handle(o, |bytes|) && Live(k.history, o, k.now)
    requires remaining > 0 && start <= k.now && Gathered(k.history, o, start, times, bytes, k.now)
    modifies k
    ensures k.Valid() && old(k.now) <= k.now && (k.smooth ==> old(k.smooth)) && (r.Failure? ==> !k.smooth)
    ensures r.Success? ==>
              && |r.value| <= remaining && k.fds == old(k.fds)[file := Handle(o, |bytes| + |r.value|)]
              && Live(k.history, o, k.now) && Gathered(k.history, o, start, after, bytes + r.value, k.now)
              && (r.value == [] ==> |ContentAt(k.history, o, k.now)| <= |bytes|)
    ensures r.Failure? ==> r.error == OsError && k.fds == old(k.fds)
  {
    hide Lawful, Gathered, StatAt, ContentAt, NodeAt, Live;
    ghost var since := k.now;
    r := k.Read(file, if remaining < READ_CHUNK_BYTES then remaining else READ_CHUNK_BYTES);
    after := times;
    if r.Success? {
      ghost var now := k.now;
      if r.value == [] {
        GatheredLater(k.history, o, start, times, bytes, since, now);
        assert bytes + r.value == bytes;
      } else {
        GatherMore(k.history, o, start, times, bytes, since, r.value, now);
        after := times + seq(|r.value|, _ => now);
      }
    }
  }

  /** The loop over chunks: everything the file gives, up to the size seen before. */
  method ReadChunks(k: Kernel, file: nat, size: nat, maxBytes: Option<int>) returns (r: Result<seq<Byte>, Fault>, ghost times: seq<nat>)
    requires k.Valid() && file in k.fds && k.fds[file].offset == 0
    requires maxBytes.Some? ==> size <= maxBytes.value
    modifies k
    ensures k.Valid() && old(k.now) <= k.now && (k.smooth ==> old(k.smooth)) && (r.Failure? ==> !k.smooth)
    ensures r.Success? ==>
              && k.fds == old(k.fds)[file := Handle(old(k.fds)[file].obj, |r.value|)]
              && |r.value| <= size
              && Gathered(k.history, old(k.fds)[file].obj, old(k.now), times, r.value, k.now)
              && Live(k.history, old(k.fds)[file].obj, k.now)
              && (|r.value| < size ==> |ContentAt(k.history, old(k.fds)[file].obj, k.now)| <= |r.value|)
    ensures r.Failure? ==> r.error == OsError && file in k.fds && k.fds == old(k.fds)[file := k.fds[file]]
                           && k.fds[file].obj == old(k.fds)[file].obj
  {
    ghost var o, start := k.fds[file].obj, k.now;
    var bytes: seq<Byte>, remaining: nat := [], size;
    times := [];
    assert k.fds == old(k.fds)[file := Handle(o, 0)];
    assert Gathered(k.history, o, start, times, bytes, k.now);
    hide Lawful, Gathered, StatAt, ContentAt, NodeAt, Live, Justified, Quiet;
    ghost var fds := k.fds;
    while remaining > 0
      invariant k.Valid() && start <= k.now && (k.smooth ==> old(k.smooth))
      invariant |bytes| + remaining == size
      invariant k.fds == fds[file := Handle(o, |bytes|)] && Live(k.history, o, k.now)
      invariant Gathered(k.history, o, start, times, bytes, k.now)
    {
      var chunk;
      chunk, times := ReadChunk(k, file, remaining, o, start, times, bytes);
      if chunk.Failure? {
        return Failure(chunk.error), times;
      }
      if chunk.value == [] {
        return Success(bytes), times;
      }
      bytes := bytes + chunk.value;
      remaining := remaining - |chunk.value|;
      // The source tests the limit here once more; that test can never fire.
      assert maxBytes.Some? ==> |bytes| <= maxBytes.value;
    }
    return Success(bytes), times;
  }

  /**
    From the first stat of the open file to the last: success means that every check passed, and
    the two drift refusals mean that something really changed.
    */
  method ReadStable(k: Kernel, file: nat, maxBytes: Option<int>)
    returns (r: Result<(seq<Byte>, Stat), Fault>, ghost timing: Timing)
    requires k.Valid() && file in k.fds && k.fds[file].offset == 0
    modifies k
    ensures k.Valid() && old(k.now) <= k.now && (k.smooth ==> old(k.smooth))
    ensures file in k.fds && k.fds == old(k.fds)[file := k.fds[file]] && k.fds[file].obj == old(k.fds)[file].obj
    ensures r.Failure? && k.smooth && Quiet(k.history, old(k.now), k.now) ==>
              !Acceptable(StatAt(k.history, old(k.fds)[file].obj, old(k.now)), maxBytes)
    ensures r.Success? ==>
              && old(k.now) <= timing.before <= timing.after == k.now
              && ReadChecked(k.history, k.fds[file].obj, timing, r.value.0)
              && r.value.1 == StatAt(k.history, k.fds[file].obj, k.now)
              && (maxBytes.Some? ==> |r.value.0| <= maxBytes.value)
    ensures r.Failure? ==> Justified(k.history, old(k.now), k.now, maxBytes, r.error) && r.error != Boundary(RootDrift)
  {
    hide Lawful, Justified, Quiet, Acceptable, Gathered, StatAt, CheckedRead, RequireRegularSingleLink;
    ghost var start, o := k.now, k.fds[file].obj;
    timing := Timing(0, [], 0, 0);
    var first := k.Fstat(file);
    if first.Failure? {
      OtherwiseJustified(k.history, start, k.now, maxBytes, OsError);
      return Failure(first.error), timing;
    }
    var before := first.value;
    ghost var t := k.now;
    if RequireRegularSingleLink(before).Some? {
      Refused(k.history, start, t, k.now, maxBytes, o);
      return Failure(RequireRegularSingleLink(before).value), timing;
    }
    if maxBytes.Some? && before.size > maxBytes.value {
      TooLarge(k.history, start, t, k.now, maxBytes, o);
      return Failure(Boundary(SizeLimit)), timing;
    }
    var chunks, times := ReadChunks(k, file, before.size, maxBytes);
    if chunks.Failure? {
      OtherwiseJustified(k.history, start, k.now, maxBytes, OsError);
      return Failure(chunks.error), timing;
    }
    var bytes := chunks.value;
    ghost var u := k.now;
    SizeIs(k.history, o, t);
    var beyond := k.Read(file, 1);
    if beyond.Failure? {
      OtherwiseJustified(k.history, start, k.now, maxBytes, OsError);
      return Failure(beyond.error), timing;
    }
    ghost var end := k.now;
    if beyond.value != [] {
      GrewOrShrank(k.history, o, start, t, u, end, k.now, |bytes|);
      DriftJustified(k.history, start, k.now, maxBytes);
      return Failure(Boundary(RefDrift)), timing;
    }
    var last := k.Fstat(file);
    if last.Failure? {
      OtherwiseJustified(k.history, start, k.now, maxBytes, OsError);
      return Failure(last.error), timing;
    }
    var after := last.value;
    if RequireRegularSingleLink(after).Some? {
      Refused(k.history, start, k.now, k.now, maxBytes, o);
      return Failure(RequireRegularSingleLink(after).value), timing;
    }
    if |bytes| != before.size || before != after {
      Drifted(k.history, o, start, t, u, k.now, |bytes|);
      DriftJustified(k.history, start, k.now, maxBytes);
      return Failure(Boundary(RefDrift)), timing;
    }
    timing := Timing(t, times, end, k.now);
    GatheredLater(k.history, o, t, times, bytes, u, end);
    ChecksPassed(k.history, o, t, times, bytes, end, k.now);
    return Success((bytes, after)), timing;
  }

  lemma SizeIs(h: History, o: Obj, t: nat)
    requires Live(h, o, t)
    ensures StatAt(h, o, t).size == |ContentAt(h, o, t)|
  {
  }

  /** A stat that is refused justifies the refusal, and in a quiet world it was so from the start. */
  lemma Refused(h: History, start: nat, t: nat, finish: nat, maxBytes: Option<int>, o: Obj)
    requires start <= t <= finish && Live(h, o, t) && Live(h, o, start) && RequireRegularSingleLink(StatAt(h, o, t)).Some?
    ensures Justified(h, start, finish, maxBytes, RequireRegularSingleLink(StatAt(h, o, t)).value)
    ensures Quiet(h, start, finish) ==> !Acceptable(StatAt(h, o, start), maxBytes)
  {
    StatJustifies(h, start, finish, maxBytes, o, t);
    if Quiet(h, start, finish) {
      QuietWithin(h, start, t, t, finish);
    }
    hide Justified, Quiet;
  }

  lemma TooLarge(h: History, start: nat, t: nat, finish: nat, maxBytes: Option<int>, o: Obj)
    requires start <= t <= finish && Live(h, o, t) && Live(h, o, start) && maxBytes.Some? && StatAt(h, o, t).size > maxBytes.value
    ensures Justified(h, start, finish, maxBytes, Boundary(SizeLimit))
    ensures Quiet(h, start, finish) ==> !Acceptable(StatAt(h, o, start), maxBytes)
  {
    if Quiet(h, start, finish) {
      QuietWithin(h, start, t, t, finish);
    }
    hide Quiet;
  }

  /** Fewer bytes than the size, or another stat at the end: something changed. */
  lemma Drifted(h: History, o: Obj, start: nat, t: nat, u: nat, finish: nat, n: nat)
    requires start <= t <= u <= finish && Live(h, o, t) && Live(h, o, u) && Live(h, o, finish)
    requires n <= StatAt(h, o, t).size && (n < StatAt(h, o, t).size ==> |ContentAt(h, o, u)| <= n)
    requires n != StatAt(h, o, t).size || StatAt(h, o, t) != StatAt(h, o, finish)
    ensures !Quiet(h, start, finish)
  {
    if Quiet(h, start, finish) {
      QuietWithin(h, start, t, u, finish);
      QuietWithin(h, start, finish, finish, finish);
    }
    hide Quiet;
  }

  lemma ChecksPassed(h: History, o: Obj, t: nat, times: seq<nat>, bytes: seq<Byte>, end: nat, after: nat)
    requires t <= end <= after && Live(h, o, t) && Live(h, o, end) && Live(h, o, after)
    requires RequireRegularSingleLink(StatAt(h, o, t)).None? && |bytes| == StatAt(h, o, t).size
    requires Gathered(h, o, t, times, bytes, end) && |ContentAt(h, o, end)| <= |bytes| && StatAt(h, o, t) == StatAt(h, o, after)
    ensures ReadChecked(h, o, Timing(t, times, end, after), bytes)
  {
  }

  /** After reading n bytes: a file that then has more, or had less than it showed, is not what it was. */
  lemma GrewOrShrank(h: History, o: Obj, start: nat, t: nat, u: nat, end: nat, finish: nat, n: nat)
    requires start <= t <= u <= end <= finish && Live(h, o, t) && Live(h, o, u) && Live(h, o, end)
    requires n <= |ContentAt(h, o, t)| && (n < |ContentAt(h, o, t)| ==> |ContentAt(h, o, u)| <= n)
    requires |ContentAt(h, o, end)| > n
    ensures !Quiet(h, start, finish)
  {
    assert h(t) != h(u) || h(u) != h(end);
  }

  // ---------- the path, looked up once more ----------

  /** Objects the held descriptors name. */
  datatype Objects = Objects(workspace: Obj, root: Obj, file: Obj)

  ghost predicate Holds(fds: map<nat, Handle>, roots: Roots, file: nat, objects: Objects) {
    && roots.workspace in fds && roots.root in fds && file in fds
    && objects == Objects(fds[roots.workspace].obj, fds[roots.root].obj, fds[file].obj)
  }

  /** stat was taken of o at some time from t on. */
  ghost predicate StatTaken(h: History, o: Obj, t: nat, u: nat, stat: Stat) {
    exists v: nat :: t <= v <= u && Live(h, o, v) && StatAt(h, o, v) == stat
  }

  /** From t on the components were followed once more, and by time u they led to o under the given stat. */
  ghost predicate Reopened(h: History, root: Obj, components: seq<string>, t: nat, u: nat, o: Obj, stat: Stat) {
    exists v: nat :: t <= v <= u && Reaches(h, root, components, t, v, o) && Live(h, o, v) && StatAt(h, o, v) == stat
  }

  /** In a quiet world a second look finds the first object under the first stat. */
  lemma QuietLooksAgree(h: History, start: nat, mid: nat, u: nat, finish: nat, root: Obj, components: seq<string>, a: Obj, b: Obj, stat: Stat)
    requires start <= mid <= u <= finish && Quiet(h, start, finish)
    requires Reaches(h, root, components, start, mid, a) && StatTaken(h, a, start, mid, stat)
    requires Reaches(h, root, components, mid, u, b) && Live(h, b, finish)
    ensures StatAt(h, b, finish) == stat
  {
    QuietWalksAgree(h, start, finish, root, components, start, mid, a, mid, u, b);
    var t: nat :| start <= t <= mid && Live(h, a, t) && StatAt(h, a, t) == stat;
    assert h(t) == h(start) == h(finish);
  }

  /** A stat that repeats the identity of an object still held open is a stat of that object. */
  lemma IdentityNamesHeld(h: History, o: Obj, start: nat, mid: nat, stat: Stat, b: Obj, u: nat)
    requires Lawful(h) && Live(h, o, u) && Live(h, b, u) && StatTaken(h, o, start, mid, stat) && SameObject(stat, StatAt(h, b, u))
    ensures b == o
  {
    var t: nat :| start <= t <= mid && Live(h, o, t) && StatAt(h, o, t) == stat;
    SameIdentityIsSameObject(h, o, t, b, u);
  }

  /** The stat of the reopened file against the last stat of the one that was read. */
  method CompareStat(k: Kernel, fd: nat, after: Stat) returns (r: Result<(), Fault>)
    requires k.Valid() && fd in k.fds
    modifies k`now, k`smooth
    ensures k.Valid() && old(k.now) <= k.now && (k.smooth ==> old(k.smooth))
    ensures r.Failure? && k.smooth ==> StatAt(k.history, k.fds[fd].obj, k.now) != after || !RegularSingleLink(after)
    ensures r.Success? ==> StatAt(k.history, k.fds[fd].obj, k.now) == after
    ensures r == Failure(Boundary(RefDrift)) ==> StatAt(k.history, k.fds[fd].obj, k.now) != after
    ensures r.Failure? ==>
              && r.error in {OsError, Boundary(RefInvalid), Boundary(HardLink), Boundary(RefDrift)}
              && (r.error != Boundary(RefDrift) ==> forall maxBytes :: Justified(k.history, k.now, k.now, maxBytes, r.error))
  {
    var again := k.Fstat(fd);
    if again.Failure? {
      return Failure(OsError);
    }
    var refused := RequireRegularSingleLink(again.value);
    if refused.Some? {
      return Failure(refused.value);
    }
    return if again.value == after then Success(()) else Failure(Boundary(RefDrift));
  }

  lemma JustifiedLater(h: History, t: nat, t': nat, u': nat, u: nat, maxBytes: Option<int>, fault: Fault)
    requires t <= t' <= u' <= u && Justified(h, t', u', maxBytes, fault)
    ensures Justified(h, t, u, maxBytes, fault)
  {
    if Quiet(h, t, u) {
      assert h(t') == h(t);
      assert Quiet(h, t', u');
    }
  }

  lemma OtherwiseJustified(h: History, t: nat, u: nat, maxBytes: Option<int>, fault: Fault)
    requires fault in {OsError, Boundary(RootDrift), Boundary(RootInvalid), Boundary(Escape), Boundary(AttestationMismatch)}
    ensures Justified(h, t, u, maxBytes, fault)
  {
  }

  lemma StatTakenLater(h: History, o: Obj, t: nat, u: nat, u': nat, stat: Stat)
    requires u <= u' && StatTaken(h, o, t, u, stat)
    ensures StatTaken(h, o, t, u', stat)
  {
  }

  lemma DriftJustified(h: History, t: nat, u: nat, maxBytes: Option<int>)
    requires !Quiet(h, t, u)
    ensures Justified(h, t, u, maxBytes, Boundary(RefDrift))
  {
  }

  /** At time t the components lead from the root to the file, which is acceptable and has the given stat. */
  ghost predicate SameFile(h: History, t: nat, root: Obj, components: seq<string>, file: Obj, stat: Stat) {
    && components != [] && FileIn(h(t), root, components) == Some(file) && Live(h, file, t)
    && StatAt(h, file, t) == stat && RegularSingleLink(stat)
  }

  lemma SameFileIsRegular(h: History, t: nat, root: Obj, components: seq<string>, file: Obj, stat: Stat)
    ensures SameFile(h, t, root, components, file, stat) ==> RegularSingleLink(stat)
  {
    hide FileIn;
  }

  lemma SameFileFound(h: History, start: nat, mid: nat, finish: nat, root: Obj, components: seq<string>, file: Obj, stat: Stat, found: Option<Obj>)
    requires start <= mid <= finish && components != []
    requires Quiet(h, mid, finish) ==> found == FileIn(h(mid), root, components)
    requires found.Some? ==> Live(h, found.value, finish) && StatAt(h, found.value, finish) != stat
    ensures Quiet(h, start, finish) ==> !SameFile(h, start, root, components, file, stat)
  {
    hide FileIn;
    if Quiet(h, start, finish) {
      QuietWithin(h, start, mid, finish, finish);
      QuietWithin(h, start, finish, finish, finish);
    }
    hide Quiet;
  }

  /** The file is opened again below the reopened root, and its stat compared with the last one. */
  method CompareFile(k: Kernel, root: nat, components: seq<string>, after: Stat, held: nat, maxBytes: Option<int>, ghost start: nat)
    returns (r: Result<(), Fault>)
    requires k.Valid() && root in k.fds && held in k.fds && components != [] && start <= k.now
    requires StatTaken(k.history, k.fds[held].obj, start, k.now, after)
    requires Reaches(k.history, k.fds[root].obj, components, start, k.now, k.fds[held].obj)
    modifies k
    ensures k.Valid() && old(k.now) <= k.now && k.fds == old(k.fds) && (k.smooth ==> old(k.smooth))
    ensures r.Failure? && k.smooth && Quiet(k.history, start, k.now) ==>
              !SameFile(k.history, start, k.fds[root].obj, components, k.fds[held].obj, after)
    ensures r.Success? ==> Reopened(k.history, k.fds[root].obj, components, old(k.now), k.now, k.fds[held].obj, after)
    ensures r.Failure? ==>
              && r.error in {OsError, Boundary(Escape), Boundary(RefInvalid), Boundary(HardLink), Boundary(RefDrift)}
              && Justified(k.history, start, k.now, maxBytes, r.error)
  {
    hide StatTaken, Justified, StatAt, Reaches, Quiet, FileIn, SameFile, Lawful;
    ghost var base, mid, o, d := k.fds, k.now, k.fds[held].obj, k.fds[root].obj;
    var again := OpenFileFromRoot(k, root, components);
    if again.Failure? {
      if k.smooth {
        SameFileFound(k.history, start, mid, k.now, d, components, o, after, None);
      }
      OtherwiseJustified(k.history, start, k.now, maxBytes, again.error);
      return Failure(again.error);
    }
    ghost var u, b := k.now, k.fds[again.value].obj;
    r := CompareStat(k, again.value, after);
    assert held in k.fds && Live(k.history, o, k.now) && Live(k.history, b, k.now);
    k.Close(again.value);
    assert k.fds == base;
    if r.Failure? && k.smooth {
      FoundFile(k.history, mid, u, k.now, d, components, b);
      SameFileIsRegular(k.history, start, d, components, o, after);
      if RegularSingleLink(after) {
        SameFileFound(k.history, start, mid, k.now, d, components, o, after, Some(b));
      }
    }
    if r.Success? {
      IdentityNamesHeld(k.history, o, start, mid, after, b, k.now);
      ReachesLater(k.history, d, components, mid, mid, u, k.now, b);
    } else if r.error == Boundary(RefDrift) {
      if Quiet(k.history, start, k.now) {
        QuietLooksAgree(k.history, start, mid, u, k.now, d, components, o, b, after);
      }
      DriftJustified(k.history, start, k.now, maxBytes);
    } else {
      JustifiedLater(k.history, start, k.now, k.now, k.now, maxBytes, r.error);
    }
  }

  lemma FoundFile(h: History, mid: nat, u: nat, finish: nat, d: Obj, components: seq<string>, b: Obj)
    requires mid <= u <= finish && components != [] && (Quiet(h, mid, u) ==> FileIn(h(mid), d, components) == Some(b))
    ensures Quiet(h, mid, finish) ==> Some(b) == FileIn(h(mid), d, components)
  {
    hide FileIn;
    if Quiet(h, mid, finish) {
      QuietWithin(h, mid, mid, u, finish);
    }
  }

  /** What _read_file keeps at hand for its last look. */
  datatype Held = Held(roots: Roots, file: nat, rootComponents: seq<string>, fileComponents: seq<string>)

  ghost predicate HeldOpen(fds: map<nat, Handle>, held: Held) {
    held.roots.workspace in fds && held.roots.root in fds && held.file in fds && held.fileComponents != []
  }

  /** From time t on, the paths led again to the held workspace, root and file, the file under the given stat. */
  ghost predicate StillNamed(h: History, fds: map<nat, Handle>, held: Held, t: nat, u: nat, stat: Stat)
    requires HeldOpen(fds, held)
  {
    var w, d, o := fds[held.roots.workspace].obj, fds[held.roots.root].obj, fds[held.file].obj;
    && (exists physical: seq<string> :: ReachesFromSlash(h, physical, t, u, w))
    && Reaches(h, w, held.rootComponents, t, u, d)
    && Reopened(h, d, held.fileComponents, t, u, o, stat)
  }

  lemma ReopenedEarlier(h: History, root: Obj, components: seq<string>, t: nat, t': nat, u: nat, o: Obj, stat: Stat)
    requires t <= t' && Reopened(h, root, components, t', u, o, stat)
    ensures Reopened(h, root, components, t, u, o, stat)
  {
    var v: nat :| t' <= v <= u && Reaches(h, root, components, t', v, o) && Live(h, o, v) && StatAt(h, o, v) == stat;
    ReachesLater(h, root, components, t, t', v, v, o);
  }

  lemma RootsStillNamed(h: History, physical: seq<string>, w: Obj, components: seq<string>, d: Obj, t: nat, v: nat, u: nat)
    requires t <= v <= u && ReachesFromSlash(h, physical, t, v, w) && Reaches(h, w, components, t, v, d)
    ensures ReachesFromSlash(h, physical, t, u, w) && Reaches(h, w, components, t, u, d)
  {
    var x: nat :| t <= x <= v && Reaches(h, h(x).slash, physical, x, v, w);
    ReachesLater(h, h(x).slash, physical, x, x, v, u, w);
    ReachesLater(h, w, components, t, t, v, u, d);
  }

  /** Lines after the read: fresh roots, compared with the stats taken when they were first opened, and a fresh file. */
  method ConfirmStillNamed(
    k: Kernel, q: Request, held: Held, workspaceStat: Stat, rootStat: Stat, after: Stat, ghost start: nat)
    returns (r: Result<(), Fault>)
    requires k.Valid() && HeldOpen(k.fds, held) && start <= k.now
    requires StatTaken(k.history, k.fds[held.roots.workspace].obj, start, k.now, workspaceStat)
    requires StatTaken(k.history, k.fds[held.roots.root].obj, start, k.now, rootStat)
    requires StatTaken(k.history, k.fds[held.file].obj, start, k.now, after)
    requires Reaches(k.history, k.fds[held.roots.root].obj, held.fileComponents, start, k.now, k.fds[held.file].obj)
    modifies k
    ensures k.Valid() && old(k.now) <= k.now && k.fds == old(k.fds) && (k.smooth ==> old(k.smooth))
    ensures r.Failure? && k.smooth && Quiet(k.history, start, k.now) ==>
              !(RootsAt(k.history(start), k.book, q.workspace, q.root, held.rootComponents, k.fds[held.roots.workspace].obj, k.fds[held.roots.root].obj)
                && SameFile(k.history, start, k.fds[held.roots.root].obj, held.fileComponents, k.fds[held.file].obj, after))
    ensures r.Success? ==> StillNamed(k.history, k.fds, held, old(k.now), k.now, after)
    ensures r.Failure? ==> Justified(k.history, start, k.now, q.maxBytes, r.error)
  {
    hide Lawful, ReachesFromSlash, Reaches, Reopened, StatTaken, Justified, StatAt, Quiet, RootsAt, SameFile;
    ghost var base, mid := k.fds, k.now;
    ghost var w, d, o := k.fds[held.roots.workspace].obj, k.fds[held.roots.root].obj, k.fds[held.file].obj;
    var reopened := OpenRoots(k, q.workspace, q.root, held.rootComponents);
    if reopened.Failure? {
      QuietFromMid(k.history, start, mid, k.now, k.now);
      OtherwiseJustified(k.history, start, k.now, q.maxBytes, reopened.error);
      return Failure(reopened.error);
    }
    var again := reopened.value;
    ghost var since, a, b := k.now, k.fds[again.workspace].obj, k.fds[again.root].obj;
    StatTakenLater(k.history, w, start, mid, since, workspaceStat);
    StatTakenLater(k.history, d, start, mid, since, rootStat);
    r := CompareRoots(k, again, held.roots, workspaceStat, rootStat, start);
    if r.Success? {
      ghost var physical: seq<string> :| ReachesFromSlash(k.history, physical, mid, since, w);
      ghost var from := k.now;
      ReachesLater(k.history, d, held.fileComponents, start, start, mid, from, o);
      StatTakenLater(k.history, o, start, mid, from, after);
      r := CompareFile(k, again.root, held.fileComponents, after, held.file, q.maxBytes, start);
      if r.Success? {
        ReopenedEarlier(k.history, d, held.fileComponents, mid, from, k.now, o, after);
        RootsStillNamed(k.history, physical, w, held.rootComponents, d, mid, since, k.now);
      }
    } else {
      OtherwiseJustified(k.history, start, k.now, q.maxBytes, r.error);
      QuietFromMid(k.history, start, mid, since, k.now);
      if k.smooth && Quiet(k.history, start, k.now) {
        RootsAtOne(k.history(mid), k.book, q.workspace, q.root, held.rootComponents, a, b, w, d);
      }
    }
    CloseRoots(k, again);
    assert k.fds == base;
  }

  lemma QuietFromMid(h: History, start: nat, mid: nat, u: nat, finish: nat)
    requires start <= mid <= u <= finish
    ensures Quiet(h, start, finish) ==> Quiet(h, mid, u) && h(mid) == h(start) == h(u)
  {
    if Quiet(h, start, finish) {
      QuietWithin(h, start, mid, u, finish);
    }
  }

  lemma RootsAtOne(w: World, book: Book, workspace: seq<string>, root: seq<string>, components: seq<string>, a: Obj, b: Obj, a': Obj, b': Obj)
    requires RootsAt(w, book, workspace, root, components, a, b)
    ensures RootsAt(w, book, workspace, root, components, a', b') ==> a' == a && b' == b
  {
    hide WalkIn;
  }

  method CompareRoots(k: Kernel, again: Roots, roots: Roots, workspaceStat: Stat, rootStat: Stat, ghost start: nat) returns (r: Result<(), Fault>)
    requires k.Valid() && again.workspace in k.fds && again.root in k.fds && roots.workspace in k.fds && roots.root in k.fds
    requires StatTaken(k.history, k.fds[roots.workspace].obj, start, k.now, workspaceStat)
    requires StatTaken(k.history, k.fds[roots.root].obj, start, k.now, rootStat)
    modifies k`now, k`smooth
    ensures k.Valid() && old(k.now) <= k.now && (k.smooth ==> old(k.smooth))
    ensures r.Failure? && k.smooth ==> k.fds[again.workspace].obj != k.fds[roots.workspace].obj || k.fds[again.root].obj != k.fds[roots.root].obj
    ensures r.Success? ==> k.fds[again.workspace].obj == k.fds[roots.workspace].obj && k.fds[again.root].obj == k.fds[roots.root].obj
    ensures r.Failure? ==> r.error in {OsError, Boundary(RootDrift)}
  {
    ghost var mid := k.now;
    var w := k.Fstat(again.workspace);
    if w.Failure? {
      return Failure(OsError);
    }
    if !SameObject(workspaceStat, w.value) {
      return Failure(Boundary(RootDrift));
    }
    IdentityNamesHeld(k.history, k.fds[roots.workspace].obj, start, mid, workspaceStat, k.fds[again.workspace].obj, k.now);
    var d := k.Fstat(again.root);
    if d.Failure? {
      return Failure(OsError);
    }
    if !SameObject(rootStat, d.value) {
      return Failure(Boundary(RootDrift));
    }
    IdentityNamesHeld(k.history, k.fds[roots.root].obj, start, mid, rootStat, k.fds[again.root].obj, k.now);
    return Success(());
  }

  // ---------- the whole operation ----------

  datatype Seen = Seen(objects: Objects, timing: Timing)

  /** Everything a successful read has established about the history, whatever others did meanwhile. */
  ghost predicate Witnessed(h: History, q: Request, start: nat, finish: nat, seen: Seen, result: ReadResult) {
    && q.workspace < q.root < q.file && q.expected.Some?
    && var o, timing := seen.objects, seen.timing;
    && start <= timing.before && timing.after <= finish
    && ReadChecked(h, o.file, timing, result.hashed)
    && result.byteSize == |result.hashed| && (q.maxBytes.Some? ==> result.byteSize <= q.maxBytes.value)
    && Reaches(h, o.root, q.file[|q.root|..], start, timing.before, o.file)
    && Attested(h, q.expected.value, o.workspace, o.root, start, timing.before)
    && NamedAfter(h, q, o, timing.after, finish)
    && Rooted(h, start, finish, o.workspace, q.file[|q.workspace|..], result.realPath)
  }

  /** The held roots had the expected inode numbers. */
  ghost predicate Attested(h: History, expected: RootIdentity, workspace: Obj, root: Obj, t: nat, u: nat) {
    exists v: nat :: t <= v <= u && Live(h, workspace, v) && Live(h, root, v) && Names(expected, StatAt(h, workspace, v), StatAt(h, root, v))
  }

  /** From the last stat of the read on, the paths led once more to the same three objects, and the stat was the same. */
  ghost predicate NamedAfter(h: History, q: Request, o: Objects, t: nat, u: nat)
    requires q.workspace < q.root < q.file
  {
    && Live(h, o.file, t)
    && (exists physical: seq<string> :: ReachesFromSlash(h, physical, t, u, o.workspace))
    && Reaches(h, o.workspace, q.root[|q.workspace|..], t, u, o.root)
    && Reopened(h, o.root, q.file[|q.root|..], t, u, o.file, StatAt(h, o.file, t))
  }

  /** _continuation_observation: a re-attestation the identity depends on must still be there. */
  method ObserveContinuation(expected: RootIdentity, actual: RootIdentity) returns (r: Result<bool, Fault>)
    ensures r == Success(false) <==> expected == actual
    ensures r.Success? || RootIdentityContinues(expected, actual) ==> r.Success?
    ensures r.Failure? ==> r.error == Boundary(AttestationMismatch)
  {
    if expected == actual {
      return Success(false);
    }
    var receipt: bool := *;
    if !RootIdentityContinues(expected, actual) && !receipt {
      return Failure(Boundary(AttestationMismatch));
    }
    return Success(true);
  }

  /** At time t the components lead to the file, and it is one to be read. */
  ghost predicate FileReady(h: History, t: nat, root: Obj, components: seq<string>, file: Obj, maxBytes: Option<int>) {
    components != [] && FileIn(h(t), root, components) == Some(file) && Live(h, file, t) && Acceptable(StatAt(h, file, t), maxBytes)
  }

  /** At time t all that is held is where it should be, and the identity observed continues the expected one. */
  ghost predicate OpenedReady(h: History, t: nat, book: Book, q: Request, held: Held, w: Obj, d: Obj, o: Obj, actual: RootIdentity) {
    && RootsAt(h(t), book, q.workspace, q.root, held.rootComponents, w, d)
    && FileReady(h, t, d, held.fileComponents, o, q.maxBytes)
    && q.expected.Some? && RootIdentityContinues(q.expected.value, actual)
  }

  lemma ReadyIsAcceptable(h: History, t: nat, u: nat, finish: nat, root: Obj, components: seq<string>, file: Obj, maxBytes: Option<int>)
    requires t <= u <= finish && Live(h, file, u)
    ensures Quiet(h, t, finish) && FileReady(h, t, root, components, file, maxBytes) ==> Acceptable(StatAt(h, file, u), maxBytes) && Quiet(h, u, finish)
  {
    hide FileIn, Acceptable;
    if Quiet(h, t, finish) {
      QuietWithin(h, t, u, finish, finish);
    }
  }

  lemma ReadyIsSame(h: History, t: nat, u: nat, finish: nat, root: Obj, components: seq<string>, file: Obj, maxBytes: Option<int>, stat: Stat)
    requires t <= u <= finish && Live(h, file, u) && StatAt(h, file, u) == stat
    ensures Quiet(h, t, finish) && FileReady(h, t, root, components, file, maxBytes) ==> SameFile(h, t, root, components, file, stat)
  {
    hide FileIn;
    if Quiet(h, t, finish) {
      QuietWithin(h, t, u, u, finish);
    }
  }

  /** From the opened file to the result; the descriptors stay open. */
  method ReadOpened(
    k: Kernel, q: Request, held: Held, workspaceStat: Stat, rootStat: Stat, actual: RootIdentity, ghost start: nat)
    returns (r: Result<ReadResult, Fault>, ghost timing: Timing)
    requires k.Valid() && HeldOpen(k.fds, held) && k.fds[held.file].offset == 0 && start <= k.now && q.expected.Some?
    requires held.file != held.roots.workspace && held.file != held.roots.root
    requires StatTaken(k.history, k.fds[held.roots.workspace].obj, start, k.now, workspaceStat)
    requires StatTaken(k.history, k.fds[held.roots.root].obj, start, k.now, rootStat)
    requires Reaches(k.history, k.fds[held.roots.root].obj, held.fileComponents, start, k.now, k.fds[held.file].obj)
    modifies k
    ensures k.Valid() && old(k.now) <= k.now && (k.smooth ==> old(k.smooth))
    ensures held.file in k.fds && k.fds == old(k.fds)[held.file := k.fds[held.file]] && k.fds[held.file].obj == old(k.fds)[held.file].obj
    ensures r.Failure? && k.smooth && Quiet(k.history, start, k.now) ==>
              !OpenedReady(k.history, start, k.book, q, held, k.fds[held.roots.workspace].obj, k.fds[held.roots.root].obj, k.fds[held.file].obj, actual)
    ensures r.Success? ==> r.value.realPath == held.roots.physicalRoot + held.fileComponents
    ensures r.Success? ==>
              && old(k.now) <= timing.before <= timing.after <= k.now
              && ReadChecked(k.history, k.fds[held.file].obj, timing, r.value.hashed)
              && r.value.byteSize == |r.value.hashed| && (q.maxBytes.Some? ==> r.value.byteSize <= q.maxBytes.value)
              && Live(k.history, k.fds[held.file].obj, timing.after)
              && HeldOpen(k.fds, held)
              && StillNamed(k.history, k.fds, held, timing.after, k.now, StatAt(k.history, k.fds[held.file].obj, timing.after))
    ensures r.Failure? ==> Justified(k.history, start, k.now, q.maxBytes, r.error)
  {
    hide Lawful, ReachesFromSlash, Reaches, Reopened, Justified, StillNamed, Quiet, RootsAt, SameFile, FileReady, ReadChecked, Acceptable, RootIdentityContinues, StatAt, Live;
    ghost var since, w, d, o := k.now, k.fds[held.roots.workspace].obj, k.fds[held.roots.root].obj, k.fds[held.file].obj;
    var read;
    read, timing := ReadStable(k, held.file, q.maxBytes);
    if read.Failure? {
      ReadyIsAcceptable(k.history, start, since, k.now, d, held.fileComponents, o, q.maxBytes);
      JustifiedLater(k.history, start, since, k.now, k.now, q.maxBytes, read.error);
      return Failure(read.error), timing;
    }
    var (bytes, after) := read.value;
    ghost var mid := k.now;
    assert Live(k.history, o, mid);
    assert StatTaken(k.history, o, start, mid, after);
    hide StatTaken;
    StatTakenLater(k.history, w, start, since, mid, workspaceStat);
    StatTakenLater(k.history, d, start, since, mid, rootStat);
    ReachesLater(k.history, d, held.fileComponents, start, start, since, mid, o);
    var named := ConfirmStillNamed(k, q, held, workspaceStat, rootStat, after, start);
    if named.Failure? {
      ReadyIsSame(k.history, start, mid, k.now, d, held.fileComponents, o, q.maxBytes, after);
      return Failure(named.error), timing;
    }
    var continuation := ObserveContinuation(q.expected.value, actual);
    if continuation.Failure? {
      OtherwiseJustified(k.history, start, k.now, q.maxBytes, continuation.error);
      return Failure(continuation.error), timing;
    }
    return Success(ReadResult(held.roots.physicalRoot + held.fileComponents, bytes, |bytes|)), timing;
  }

  /** At time t, by the book, the held directories admit the read of the file f. */
  ghost predicate BelowReadable(
    h: History, t: nat, book: Book, q: Request, physicalRoot: seq<string>, rootComponents: seq<string>, fileComponents: seq<string>, w: Obj, d: Obj, f: Obj)
  {
    && Admissible(h, t, book, q, physicalRoot + fileComponents, rootComponents, w, d)
    && FileReady(h, t, d, fileComponents, f, q.maxBytes)
  }

  lemma AdmissibleStays(
    h: History, t: nat, u: nat, finish: nat, book: Book, q: Request, physicalFile: seq<string>, rootComponents: seq<string>, w: Obj, d: Obj)
    requires t <= u <= finish && Quiet(h, t, finish)
    ensures Quiet(h, u, finish) && (Admissible(h, t, book, q, physicalFile, rootComponents, w, d) ==> Admissible(h, u, book, q, physicalFile, rootComponents, w, d))
    ensures forall identity :: IdentityAt(h, u, book, w, d, identity) ==> IdentityAt(h, t, book, w, d, identity)
  {
    QuietWithin(h, t, u, finish, finish);
    hide RootsAt, RootIdentityContinues, Captured, Quiet;
    if Admissible(h, t, book, q, physicalFile, rootComponents, w, d) {
      var identity :| IdentityAt(h, t, book, w, d, identity) && RootIdentityContinues(q.expected.value, identity);
      assert IdentityAt(h, u, book, w, d, identity);
    }
  }

  lemma BelowIsOpened(
    h: History, t: nat, book: Book, q: Request, held: Held, w: Obj, d: Obj, f: Obj, o: Obj, actual: RootIdentity)
    requires BelowReadable(h, t, book, q, held.roots.physicalRoot, held.rootComponents, held.fileComponents, w, d, f)
    requires FileIn(h(t), d, held.fileComponents) == Some(o) && IdentityAt(h, t, book, w, d, actual)
    ensures OpenedReady(h, t, book, q, held, w, d, o, actual)
  {
    hide RootsAt, RootIdentityContinues, FileIn, Acceptable;
  }

  /** Everything between opening the roots and closing them: attest, open the file, read it, close it. */
  method ReadBelow(k: Kernel, q: Request, roots: Roots, rootComponents: seq<string>, fileComponents: seq<string>, ghost start: nat)
    returns (r: Result<ReadResult, Fault>, ghost seen: Seen)
    requires k.Valid() && roots.workspace in k.fds && roots.root in k.fds && q.expected.Some? && start <= k.now
    requires q.workspace < q.root < q.file && rootComponents == q.root[|q.workspace|..] && fileComponents == q.file[|q.root|..]
    requires Rooted(k.history, start, k.now, k.fds[roots.workspace].obj, rootComponents, roots.physicalRoot)
    modifies k
    ensures k.Valid() && old(k.now) <= k.now && k.fds == old(k.fds) && (k.smooth ==> old(k.smooth))
    ensures r.Success? ==> Witnessed(k.history, q, start, k.now, seen, r.value)
    ensures r.Failure? ==> Justified(k.history, start, k.now, q.maxBytes, r.error)
    ensures k.smooth && Quiet(k.history, start, k.now) ==>
              var w, d := k.fds[roots.workspace].obj, k.fds[roots.root].obj;
              && (r.Success? ==>
                    && r.value.realPath == roots.physicalRoot + fileComponents
                    && FileIn(k.history(start), d, fileComponents) == Some(seen.objects.file))
              && (r.Failure? ==>
                    forall f :: !BelowReadable(k.history, start, k.book, q, roots.physicalRoot, rootComponents, fileComponents, w, d, f))
  {
    hide ReachesFromSlash, Reaches, Reopened, Justified, Lawful, StatTaken, StatAt, ReadChecked, Quiet, Admissible, FileReady, FileIn, Rooted,
         IdentityAt, OpenedReady, Acceptable;
    ghost var base, w, d := k.fds, k.fds[roots.workspace].obj, k.fds[roots.root].obj;
    ghost var begin := k.now;
    seen := Seen(Objects(w, d, d), Timing(0, [], 0, 0));
    var admitted := Admit(k, q, roots, rootComponents, fileComponents);
    if admitted.Failure? {
      if Quiet(k.history, start, k.now) {
        AdmissibleStays(k.history, start, begin, k.now, k.book, q, roots.physicalRoot + fileComponents, rootComponents, w, d);
      }
      OtherwiseJustified(k.history, start, k.now, q.maxBytes, admitted.error);
      return Failure(admitted.error), seen;
    }
    var (workspaceStat, rootStat, actual) := admitted.value;
    ghost var before := k.now;
    var file := OpenFileFromRoot(k, roots.root, fileComponents);
    QuietFromMid(k.history, start, before, k.now, k.now);
    if file.Failure? {
      NoFileReady(k.history, start, d, fileComponents, q.maxBytes);
      OtherwiseJustified(k.history, start, k.now, q.maxBytes, file.error);
      return Failure(file.error), seen;
    }
    ghost var o, open := k.fds[file.value].obj, k.now;
    var held := Held(roots, file.value, rootComponents, fileComponents);
    StatTakenEarlier(k.history, w, start, begin, before, open, workspaceStat);
    StatTakenEarlier(k.history, d, start, begin, before, open, rootStat);
    ReachesLater(k.history, d, fileComponents, start, before, open, open, o);
    ghost var timing;
    r, timing := ReadOpened(k, q, held, workspaceStat, rootStat, actual, start);
    seen := Seen(Objects(w, d, o), timing);
    if r.Success? {
      ReachesLater(k.history, d, fileComponents, start, start, open, timing.before, o);
      AttestedEarlier(k.history, q.expected.value, w, d, start, begin, before, timing.before);
      assert NamedAfter(k.history, q, seen.objects, timing.after, k.now);
      RootedFile(k.history, start, begin, k.now, w, q, roots.physicalRoot);
    }
    if Quiet(k.history, start, k.now) {
      QuietFromMid(k.history, start, before, open, k.now);
      QuietFromMid(k.history, start, begin, before, k.now);
      AdmissibleStays(k.history, start, begin, k.now, k.book, q, roots.physicalRoot + fileComponents, rootComponents, w, d);
      if r.Failure? && k.smooth {
        forall f
          ensures !BelowReadable(k.history, start, k.book, q, roots.physicalRoot, rootComponents, fileComponents, w, d, f)
        {
          if BelowReadable(k.history, start, k.book, q, roots.physicalRoot, rootComponents, fileComponents, w, d, f) {
            BelowIsOpened(k.history, start, k.book, q, held, w, d, f, o, actual);
          }
        }
      }
    }
    k.Close(file.value);
    assert k.fds == base;
  }

  lemma NoFileReady(h: History, t: nat, d: Obj, components: seq<string>, maxBytes: Option<int>)
    requires components != []
    ensures FileIn(h(t), d, components).None? ==> forall f :: !FileReady(h, t, d, components, f, maxBytes)
  {
    hide FileIn, Acceptable;
  }

  lemma StatTakenEarlier(h: History, o: Obj, t: nat, t': nat, u: nat, u': nat, stat: Stat)
    requires t <= t' && u <= u' && StatTaken(h, o, t', u, stat)
    ensures StatTaken(h, o, t, u', stat)
  {
  }

  lemma AttestedEarlier(h: History, expected: RootIdentity, w: Obj, d: Obj, t: nat, t': nat, u: nat, u': nat)
    requires t <= t' && u <= u' && Attested(h, expected, w, d, t', u)
    ensures Attested(h, expected, w, d, t, u')
  {
  }

  lemma RootedFile(h: History, t: nat, u: nat, u': nat, w: Obj, q: Request, physicalRoot: seq<string>)
    requires u <= u' && q.workspace < q.root < q.file && Rooted(h, t, u, w, q.root[|q.workspace|..], physicalRoot)
    ensures Rooted(h, t, u', w, q.file[|q.workspace|..], physicalRoot + q.file[|q.root|..])
  {
    RootedLater(h, t, u, u', w, q.root[|q.workspace|..], physicalRoot);
    var physical: seq<string> :| ReachesFromSlash(h, physical, t, u', w) && physicalRoot == physical + q.root[|q.workspace|..];
    assert q.file[|q.workspace|..] == q.root[|q.workspace|..] + q.file[|q.root|..];
    assert physicalRoot + q.file[|q.root|..] == physical + q.file[|q.workspace|..];
  }

  /** By the book, this is the identity of the two directories at time t. */
  ghost predicate IdentityAt(h: History, t: nat, book: Book, w: Obj, d: Obj, identity: RootIdentity) {
    Live(h, w, t) && Live(h, d, t) && identity == Captured(book.volumes, StatAt(h, w, t), StatAt(h, d, t))
  }

  /** By the book, the held directories are where the paths lead, continue the expected identity, and hold the file's physical path. */
  ghost predicate Admissible(
    h: History, t: nat, book: Book, q: Request, physicalFile: seq<string>, rootComponents: seq<string>, w: Obj, d: Obj)
  {
    && RootsAt(h(t), book, q.workspace, q.root, rootComponents, w, d)
    && book.resolve(q.file) == physicalFile
    && q.expected.Some? && exists identity :: IdentityAt(h, t, book, w, d, identity) && RootIdentityContinues(q.expected.value, identity)
  }

  lemma IdentityKept(h: History, t: nat, u: nat, finish: nat, book: Book, w: Obj, d: Obj, identity: RootIdentity)
    requires t <= u <= finish && Live(h, w, u) && Live(h, d, u) && identity == Captured(book.volumes, StatAt(h, w, u), StatAt(h, d, u))
    ensures Quiet(h, t, finish) ==> IdentityAt(h, t, book, w, d, identity)
  {
    if Quiet(h, t, finish) {
      QuietWithin(h, t, u, u, finish);
    }
  }

  lemma OneIdentity(h: History, t: nat, book: Book, q: Request, physicalFile: seq<string>, rootComponents: seq<string>, w: Obj, d: Obj, identity: RootIdentity)
    requires IdentityAt(h, t, book, w, d, identity) && q.expected.Some? && !RootIdentityContinues(q.expected.value, identity)
    ensures !Admissible(h, t, book, q, physicalFile, rootComponents, w, d)
  {
    hide RootsAt, RootIdentityContinues;
  }

  /** The checks between opening the roots and opening the file: attestation, mapping, physical path. */
  method Admit(k: Kernel, q: Request, roots: Roots, rootComponents: seq<string>, fileComponents: seq<string>)
    returns (r: Result<(Stat, Stat, RootIdentity), Fault>)
    requires k.Valid() && roots.workspace in k.fds && roots.root in k.fds && q.expected.Some?
    modifies k
    ensures k.Valid() && old(k.now) <= k.now && k.fds == old(k.fds) && (k.smooth ==> old(k.smooth))
    ensures k.smooth && Quiet(k.history, old(k.now), k.now) ==>
              var w, d := k.fds[roots.workspace].obj, k.fds[roots.root].obj;
              && (r.Success? ==> IdentityAt(k.history, old(k.now), k.book, w, d, r.value.2))
              && (r.Failure? ==> !Admissible(k.history, old(k.now), k.book, q, roots.physicalRoot + fileComponents, rootComponents, w, d))
    ensures r.Success? ==>
              && StatTaken(k.history, k.fds[roots.workspace].obj, old(k.now), k.now, r.value.0)
              && StatTaken(k.history, k.fds[roots.root].obj, old(k.now), k.now, r.value.1)
              && Attested(k.history, q.expected.value, k.fds[roots.workspace].obj, k.fds[roots.root].obj, old(k.now), k.now)
    ensures r.Failure? ==> r.error in {OsError, Boundary(AttestationMismatch), Boundary(RootDrift), Boundary(Escape)}
  {
    hide Quiet, RootsAt, RootIdentityContinues, Captured, Reaches, Lawful;
    ghost var start, w, d := k.now, k.fds[roots.workspace].obj, k.fds[roots.root].obj;
    var stats := StatRoots(k, roots);
    if stats.Failure? {
      return Failure(stats.error);
    }
    var actual := AssertRootAttestation(k, roots, q.expected.value);
    ghost var attested := k.now;
    assert k.fds[roots.workspace].obj == w && k.fds[roots.root].obj == d;
    hide StatAt, Live;
    ghost var identity := Captured(k.book.volumes, StatAt(k.history, w, attested), StatAt(k.history, d, attested));
    IdentityKept(k.history, start, attested, attested, k.book, w, d, identity);
    if actual.Failure? {
      if k.smooth && Quiet(k.history, start, k.now) {
        OneIdentity(k.history, start, k.book, q, roots.physicalRoot + fileComponents, rootComponents, w, d, identity);
      }
      return Failure(actual.error);
    }
    var stable := AssertRootMappingStable(k, q, roots, rootComponents);
    QuietFromMid(k.history, start, attested, k.now, k.now);
    if stable.Failure? {
      return Failure(stable.error);
    }
    var observed := k.Realpath(q.file);
    IdentityKept(k.history, start, attested, k.now, k.book, w, d, identity);
    if observed != roots.physicalRoot + fileComponents {
      return Failure(Boundary(Escape));
    }
    return Success((stats.value.0, stats.value.1, actual.value));
  }

  /** os.fstat of the two roots. */
  method StatRoots(k: Kernel, roots: Roots) returns (r: Result<(Stat, Stat), Fault>)
    requires k.Valid() && roots.workspace in k.fds && roots.root in k.fds
    modifies k`now, k`smooth
    ensures k.Valid() && old(k.now) <= k.now && (k.smooth ==> old(k.smooth)) && (r.Failure? ==> !k.smooth)
    ensures r.Success? ==>
              && StatTaken(k.history, k.fds[roots.workspace].obj, old(k.now), k.now, r.value.0)
              && StatTaken(k.history, k.fds[roots.root].obj, old(k.now), k.now, r.value.1)
    ensures r.Failure? ==> r.error == OsError
  {
    var w := k.Fstat(roots.workspace);
    if w.Failure? {
      return Failure(OsError);
    }
    var d := k.Fstat(roots.root);
    if d.Failure? {
      return Failure(OsError);
    }
    return Success((w.value, d.value));
  }

  /**
    By the book, at time t: the paths lead through directories to the roots a and b and from there to
    the regular, singly linked file f within the limit, and the roots continue the expected identity.
    */
  ghost predicate Readable(h: History, t: nat, book: Book, q: Request, a: Obj, b: Obj, f: Obj) {
    && q.workspace < q.root < q.file && q.expected.Some? && (q.maxBytes.Some? ==> 0 <= q.maxBytes.value)
    && RootsAt(h(t), book, q.workspace, q.root, q.root[|q.workspace|..], a, b)
    && book.resolve(q.file) == book.resolve(q.root) + q.file[|q.root|..]
    && Live(h, a, t) && Live(h, b, t)
    && RootIdentityContinues(q.expected.value, Captured(book.volumes, StatAt(h, a, t), StatAt(h, b, t)))
    && FileReady(h, t, b, q.file[|q.root|..], f, q.maxBytes)
  }

  lemma ReadableBelow(h: History, t: nat, book: Book, q: Request, a: Obj, b: Obj, f: Obj, w: Obj, d: Obj)
    requires Readable(h, t, book, q, a, b, f) && RootsAt(h(t), book, q.workspace, q.root, q.root[|q.workspace|..], w, d)
    ensures a == w && b == d && BelowReadable(h, t, book, q, book.resolve(q.root), q.root[|q.workspace|..], q.file[|q.root|..], w, d, f)
  {
    RootsAtOne(h(t), book, q.workspace, q.root, q.root[|q.workspace|..], w, d, a, b);
    hide RootsAt, RootIdentityContinues, FileReady;
    assert IdentityAt(h, t, book, a, b, Captured(book.volumes, StatAt(h, a, t), StatAt(h, b, t)));
  }

  lemma ReadableContent(h: History, t: nat, u: nat, book: Book, q: Request, a: Obj, b: Obj, f: Obj, seen: Seen, result: ReadResult)
    requires Readable(h, t, book, q, a, b, f) && Quiet(h, t, u) && Witnessed(h, q, t, u, seen, result)
    requires FileIn(h(t), b, q.file[|q.root|..]) == Some(seen.objects.file)
    ensures Live(h, f, t) && result.hashed == ContentAt(h, f, t) && result.byteSize == |result.hashed|
  {
    hide RootsAt, RootIdentityContinues, FileIn, Acceptable, NamedAfter, Attested, Rooted, Reaches;
    assert CheckedRead(h, f, seen.timing.before, seen.timing.times, result.hashed, seen.timing.end, seen.timing.after);
    QuietReadIsContent(h, t, u, f, seen.timing, result.hashed);
  }

  /**
    _read_file. On every path, successful or not, exactly the descriptors open before are open
    after; a success is witnessed, and a refusal for drift, links, type or size has its reason on
    disk. And it does read: where nothing changes, no call fails and every answer is by the book,
    each readable file is returned with its physical path and its content.
    */
  method ReadFile(k: Kernel, q: Request) returns (r: Result<ReadResult, Fault>, ghost seen: Seen)
    requires k.Valid()
    modifies k
    ensures k.Valid() && old(k.now) <= k.now && k.fds == old(k.fds)
    ensures r.Success? ==> Witnessed(k.history, q, old(k.now), k.now, seen, r.value)
    ensures r.Failure? ==> Justified(k.history, old(k.now), k.now, q.maxBytes, r.error)
    ensures k.smooth && Quiet(k.history, old(k.now), k.now) ==>
              forall a, b, f :: Readable(k.history, old(k.now), k.book, q, a, b, f) ==>
                                  var content := ContentAt(k.history, f, old(k.now));
                                  r == Success(ReadResult(k.book.resolve(q.file), content, |content|))
  {
    hide Lawful, Reaches, ReachesFromSlash, RootsAt, FileReady, Captured, RootIdentityContinues, Quiet, Witnessed, BelowReadable, FileIn, Rooted;
    ghost var base, start := k.fds, k.now;
    seen := Seen(Objects(0, 0, 0), Timing(0, [], 0, 0));
    var fileComponents := RelativeComponents(q.root, q.file, Escape);
    if fileComponents.Failure? {
      return Failure(fileComponents.error), seen;
    }
    if q.maxBytes.Some? && q.maxBytes.value < 0 {
      return Failure(Boundary(SizeLimit)), seen;
    }
    if q.expected.None? {
      return Failure(Boundary(RootInvalid)), seen;
    }
    var rootComponents := RelativeComponents(q.workspace, q.root, RootInvalid);
    if rootComponents.Failure? {
      return Failure(rootComponents.error), seen;
    }
    assert q.workspace + rootComponents.value == q.root && q.root + fileComponents.value == q.file;
    assert rootComponents.value == q.root[|q.workspace|..] && fileComponents.value == q.file[|q.root|..];
    var roots := OpenRoots(k, q.workspace, q.root, rootComponents.value);
    if roots.Failure? {
      return Failure(roots.error), seen;
    }
    ghost var since, w, d := k.now, k.fds[roots.value.workspace].obj, k.fds[roots.value.root].obj;
    r, seen := ReadBelow(k, q, roots.value, rootComponents.value, fileComponents.value, start);
    QuietFromMid(k.history, start, start, since, k.now);
    if k.smooth && Quiet(k.history, start, k.now) {
      forall a, b, f | Readable(k.history, start, k.book, q, a, b, f)
        ensures r.Success? && r.value.realPath == k.book.resolve(q.file) && r.value.byteSize == |r.value.hashed|
        ensures Live(k.history, f, start) && r.value.hashed == ContentAt(k.history, f, start)
      {
        ReadableBelow(k.history, start, k.book, q, a, b, f, w, d);
        ReadableContent(k.history, start, k.now, k.book, q, a, b, f, seen, r.value);
      }
    }
    CloseRoots(k, roots.value);
    assert k.fds == base;
  }

  /**
    The boundary's promise: for every interleaving of other writers and path swaps, over stamps
    that tell, a successful read returns one content that the file held from its first stat until
    the path, looked up again, still led from the same root to the same file.
    */
  lemma SuccessfulReadIsSnapshot(h: History, q: Request, start: nat, finish: nat, seen: Seen, result: ReadResult)
    requires Witnessed(h, q, start, finish, seen, result) && StampsTell(h, seen.objects.file)
    ensures exists v: nat ::
              && seen.timing.after <= v <= finish
              && Reaches(h, seen.objects.root, q.file[|q.root|..], seen.timing.after, v, seen.objects.file)
              && HeldThroughout(h, seen.objects.file, seen.timing.before, v, result.hashed)
  {
    var o, timing := seen.objects, seen.timing;
    var stat := StatAt(h, o.file, timing.after);
    var v: nat :| timing.after <= v <= finish && Reaches(h, o.root, q.file[|q.root|..], timing.after, v, o.file)
                  && Live(h, o.file, v) && StatAt(h, o.file, v) == stat;
    CheckedReadIsHeld(h, o.file, timing.before, timing.times, result.hashed, timing.end, timing.after);
    assert SameStamp(h, o.file, timing.before, v);
  }

  // ---------- a read that is no snapshot ----------

  const TORN_REQUEST := Request(["w"], ["w", "r"], ["w", "r", "f"], None, Some(V1(1, 12, 1, 13)))

  lemma WoundBackPaths(t: nat)
    ensures var h := WoundBack();
            && Reaches(h, 0, ["w"], t, t, WORKSPACE) && ReachesFromSlash(h, ["w"], t, t, WORKSPACE)
            && Reaches(h, WORKSPACE, ["r"], t, t, ROOT) && Reaches(h, ROOT, ["f"], t, t, FILE)
  {
    var h := WoundBack();
    WoundBackAt(t);
    hide WoundBack, Wound;
    OneLookup(h, 0, "w", t, WORKSPACE);
    OneLookup(h, WORKSPACE, "r", t, ROOT);
    OneLookup(h, ROOT, "f", t, FILE);
    assert h(t).slash == 0;
    hide Reaches;
  }

  lemma OneLookup(h: History, d: Obj, name: string, t: nat, o: Obj)
    requires EntryAt(h, d, name, t) == Some(o)
    ensures Reaches(h, d, [name], t, t, o)
  {
    assert [name][..0] == [];
    assert Reaches(h, d, [name][..0], t, t, d);
  }

  /**
    Everything a successful read establishes can hold in a lawful history in which every write
    shows, and the digest still be of bytes the file never held: the clock went back in between.
    */
  lemma WitnessedReadCanBeTorn()
    ensures var h := WoundBack();
            var seen := Seen(Objects(WORKSPACE, ROOT, FILE), Timing(0, [0, 1], 2, 2));
            && Lawful(h) && EveryWriteShows(h, FILE)
            && Witnessed(h, TORN_REQUEST, 0, 2, seen, ReadResult(["w", "r", "f"], [0, 1], 2))
            && forall t: nat :: Live(h, FILE, t) && ContentAt(h, FILE, t) != [0, 1]
  {
    EveryWriteShowsIsNotEnough();
    TornWitnessed();
    hide WoundBack, Witnessed, Lawful, EveryWriteShows, CheckedRead;
  }

  lemma TornWitnessed()
    ensures Witnessed(WoundBack(), TORN_REQUEST, 0, 2, Seen(Objects(WORKSPACE, ROOT, FILE), Timing(0, [0, 1], 2, 2)),
                      ReadResult(["w", "r", "f"], [0, 1], 2))
  {
    EveryWriteShowsIsNotEnough();
    WoundBackPaths(0);
    TornPaths();
    TornAttested();
    TornNamed();
    TornRooted();
    hide WoundBack, Reaches, ReachesFromSlash, Rooted, Lawful, EveryWriteShows, CheckedRead, Attested, NamedAfter, ContentAt, Live;
  }

  lemma TornRooted()
    ensures Rooted(WoundBack(), 0, 2, WORKSPACE, ["r", "f"], ["w", "r", "f"])
  {
    var h := WoundBack();
    WoundBackPaths(0);
    hide WoundBack, Reaches, ReachesFromSlash;
    assert ["w"] + ["r", "f"] == ["w", "r", "f"];
    assert Rooted(h, 0, 0, WORKSPACE, ["r", "f"], ["w", "r", "f"]);
    RootedLater(h, 0, 0, 2, WORKSPACE, ["r", "f"], ["w", "r", "f"]);
  }

  lemma TornPaths()
    ensures var q := TORN_REQUEST;
            && q.workspace < q.root < q.file && q.file[|q.root|..] == ["f"] && q.root[|q.workspace|..] == ["r"]
            && q.file[|q.workspace|..] == ["r", "f"]
  {
  }

  lemma TornAttested()
    ensures Attested(WoundBack(), TORN_REQUEST.expected.value, WORKSPACE, ROOT, 0, 0)
  {
    var h := WoundBack();
    WoundBackAt(0);
    hide WoundBack;
    assert Live(h, WORKSPACE, 0) && Live(h, ROOT, 0);
    assert StatAt(h, WORKSPACE, 0).ino == 12 && StatAt(h, ROOT, 0).ino == 13;
  }

  lemma TornNamed()
    requires TORN_REQUEST.workspace < TORN_REQUEST.root < TORN_REQUEST.file
    ensures NamedAfter(WoundBack(), TORN_REQUEST, Objects(WORKSPACE, ROOT, FILE), 2, 2)
  {
    var h := WoundBack();
    WoundBackPaths(2);
    WoundBackAt(2);
    TornPaths();
    assert Live(h, FILE, 2);
    hide WoundBack, Reaches, ReachesFromSlash, StatAt, Wound;
    assert Reopened(h, ROOT, ["f"], 2, 2, FILE, StatAt(h, FILE, 2));
  }
}
