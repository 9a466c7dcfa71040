/**
  The descriptor-relative read of one work-item file. Whatever other processes do meanwhile, a
  read that succeeds names one object before and after, and no descriptor is ever left open.
  */
module FileBoundary {
  import opened Wrappers
  import opened Bytes
  import opened FileKernel
  import opened SnapshotRead

  const READ_CHUNK_BYTES := 64 * 1024

  // ---------- requests ----------

  datatype RootIdentity =
    | V1(workspaceDevice: nat, workspaceInode: nat, rootDevice: nat, rootInode: nat)
    | V2(workspaceDevice: nat, workspaceInode: nat, rootDevice: nat, rootInode: nat,
         boot: nat, workspaceVolume: nat, rootVolume: nat)

  /** Paths are absolute and normalized: the list of their components. None is an identity out of shape. */
  datatype Request = Request(
    workspace: seq<string>, root: seq<string>, file: seq<string>, maxBytes: Option<int>, expected: Option<RootIdentity>)

  datatype ReadResult = ReadResult(realPath: seq<string>, hashed: seq<Byte>, byteSize: nat)

  /** The components of a strict descendant of the anchor. */
  function RelativeComponents(anchor: seq<string>, target: seq<string>, code: Code): (r: Result<seq<string>, Fault>)
    ensures r.Success? <==> anchor < target
    ensures r.Success? ==> r.value != [] && anchor + r.value == target
    ensures r.Failure? ==> r.error == Boundary(code)
  {
    if anchor <= target && |anchor| < |target| then Success(target[|anchor|..]) else Failure(Boundary(code))
  }

  // ---------- root identity ----------

  predicate SameNumbers(a: RootIdentity, b: RootIdentity) {
    && a.workspaceDevice == b.workspaceDevice && a.workspaceInode == b.workspaceInode
    && a.rootDevice == b.rootDevice && a.rootInode == b.rootInode
  }

  predicate SameInodes(a: RootIdentity, b: RootIdentity) {
    a.workspaceInode == b.workspaceInode && a.rootInode == b.rootInode
  }

  predicate RootIdentityContinues(expected: RootIdentity, actual: RootIdentity) {
    if expected.V1? then SameNumbers(expected, actual)
    else if actual.V1? then false
    else
      && SameInodes(expected, actual)
      && expected.workspaceVolume == actual.workspaceVolume && expected.rootVolume == actual.rootVolume
      && (expected.boot != actual.boot || expected == actual)
  }

  /** A case split over the definition: continuation composes unless the last identity claims the first one's boot on other devices. */
  lemma ContinuationComposesExactly(a: RootIdentity, b: RootIdentity, c: RootIdentity)
    requires a.V2? && RootIdentityContinues(a, b) && RootIdentityContinues(b, c)
    ensures RootIdentityContinues(a, c) <==> (a.boot == c.boot ==> SameNumbers(a, c))
  {
  }

  // ---------- opening directories ----------

  ghost predicate ReachesFromSlash(h: History, physical: seq<string>, t: nat, u: nat, o: Obj) {
    exists v: nat :: t <= v <= u && Reaches(h, h(v).slash, physical, v, u, o)
  }

  /** base and one more descriptor at offset 0. */
  predicate OneMore(base: map<nat, Handle>, fds: map<nat, Handle>, fd: nat) {
    fd !in base && fd in fds && fds == base[fd := Handle(fds[fd].obj, 0)]
  }

  /** One component: the next directory is opened, then the one it was found in is closed. */
  method EnterDirectory(k: Kernel, descriptor: nat, name: string, ghost base: map<nat, Handle>) returns (r: Result<nat, Fault>)
    requires k.Valid() && OneMore(base, k.fds, descriptor)
    modifies k
    ensures k.Valid() && old(k.now) <= k.now
    ensures r.Success? ==> OneMore(base, k.fds, r.value) && EntryAt(k.history, old(k.fds)[descriptor].obj, name, k.now) == Some(k.fds[r.value].obj)
    ensures r.Failure? ==> k.fds == base && r.error == OsError
    ensures k.smooth ==> old(k.smooth)
    ensures r.Success? ==> IsDirectory(k.history(k.now), k.fds[r.value].obj)
    ensures r.Failure? && k.smooth ==> !Openable(k.history(k.now), NamedIn(k.history(k.now), old(k.fds)[descriptor].obj, name), true)
  {
    r := k.OpenAt(descriptor, name, true);
    k.Close(descriptor);
    assert k.fds == if r.Success? then base[r.value := Handle(k.fds[r.value].obj, 0)] else base;
  }

  /**
    Follows the components with O_DIRECTORY, holding one directory open at a time. In a quiet world
    it gets where the components lead, and it fails only if they lead to no directory.
    */
  method Descend(k: Kernel, first: nat, components: seq<string>, code: Code, ghost base: map<nat, Handle>)
    returns (r: Result<nat, Fault>)
    requires k.Valid() && OneMore(base, k.fds, first)
    modifies k
    ensures k.Valid() && old(k.now) <= k.now && (k.smooth ==> old(k.smooth))
    ensures r.Success? ==> OneMore(base, k.fds, r.value)
    ensures r.Success? ==> Reaches(k.history, old(k.fds)[first].obj, components, old(k.now), k.now, k.fds[r.value].obj)
    ensures r.Failure? ==> k.fds == base && r.error in {OsError, Boundary(code)}
    ensures Quiet(k.history, old(k.now), k.now) ==>
              var end := WalkIn(k.history(old(k.now)), old(k.fds)[first].obj, components);
              (r.Success? ==> end == Some(k.fds[r.value].obj)) && (r.Failure? && k.smooth ==> end.None?)
  {
    ghost var start, origin := k.now, k.fds[first].obj;
    assert Reaches(k.history, origin, components[..0], start, start, origin);
    hide Lawful, Reaches, EntryAt, StatAt, Quiet, WalkIn;
    var descriptor := first;
    var i := 0;
    NoWalk(k.history(start), origin, components);
    while i < |components|
      invariant 0 <= i <= |components|
      invariant k.Valid() && start <= k.now && (k.smooth ==> old(k.smooth))
      invariant OneMore(base, k.fds, descriptor)
      invariant Reaches(k.history, origin, components[..i], start, k.now, k.fds[descriptor].obj)
      invariant Walked(k.history, start, k.now, origin, components, i, k.fds[descriptor].obj)
    {
      ghost var d, since := k.fds[descriptor].obj, k.now;
      var next := EnterDirectory(k, descriptor, components[i], base);
      if next.Failure? {
        WalkStops(k.history, start, since, k.now, origin, components, i, d, k.smooth);
        return Failure(next.error);
      }
      WalkGoesOn(k.history, start, since, k.now, origin, components, i, d, k.fds[next.value].obj);
      ReachesLater(k.history, origin, components[..i], start, start, since, k.now, d);
      ReachesStep(k.history, origin, components, i, start, k.now, d, k.fds[next.value].obj);
      descriptor := next.value;
      i := i + 1;
    }
    assert components[..i] == components;
    ghost var since, o := k.now, k.fds[descriptor].obj;
    r := RequireDirectory(k, descriptor, code, base);
    WalkArrives(k.history, start, since, k.now, origin, components, o, r.Success?, k.smooth);
    if r.Success? {
      ReachesLater(k.history, origin, components, start, start, since, k.now, o);
    }
  }

  /** In a quiet world, and from a directory, the first i components have led to d. */
  ghost predicate Walked(h: History, t: nat, u: nat, origin: Obj, components: seq<string>, i: nat, d: Obj)
    requires i <= |components|
  {
    && (i == 0 ==> d == origin)
    && (Quiet(h, t, u) ==>
          (i > 0 ==> IsDirectory(h(t), origin)) && (IsDirectory(h(t), origin) ==> WalkIn(h(t), origin, components[..i]) == Some(d)))
  }

  lemma NoWalk(w: World, origin: Obj, components: seq<string>)
    ensures WalkIn(w, origin, components[..0]) == if IsDirectory(w, origin) then Some(origin) else None
  {
  }

  lemma WalkStops(h: History, t: nat, v: nat, u: nat, origin: Obj, components: seq<string>, i: nat, d: Obj, smooth: bool)
    requires t <= v <= u && i < |components| && Walked(h, t, v, origin, components, i, d)
    requires smooth ==> !Openable(h(u), NamedIn(h(u), d, components[i]), true)
    ensures Quiet(h, t, u) && smooth ==> WalkIn(h(t), origin, components).None?
  {
    hide WalkIn, Quiet;
    if Quiet(h, t, u) && smooth {
      QuietWithin(h, t, t, v, u);
      QuietWithin(h, t, u, u, u);
      WalkInEnds(h(t), origin, components);
      WalkInStep(h(t), origin, components, i);
      if IsDirectory(h(t), origin) {
        WalkInPrefix(h(t), origin, components, i + 1);
      }
    }
  }

  lemma WalkGoesOn(h: History, t: nat, v: nat, u: nat, origin: Obj, components: seq<string>, i: nat, d: Obj, next: Obj)
    requires t <= v <= u && i < |components| && Walked(h, t, v, origin, components, i, d)
    requires EntryAt(h, d, components[i], u) == Some(next) && IsDirectory(h(u), next)
    ensures Walked(h, t, u, origin, components, i + 1, next)
  {
    hide WalkIn, Quiet;
    if Quiet(h, t, u) {
      QuietWithin(h, t, t, v, u);
      QuietWithin(h, t, u, u, u);
      WalkInStep(h(t), origin, components, i);
    }
  }

  lemma WalkArrives(
    h: History, t: nat, v: nat, u: nat, origin: Obj, components: seq<string>, o: Obj, arrived: bool, smooth: bool)
    requires t <= v <= u && Walked(h, t, v, origin, components, |components|, o)
    requires (arrived ==> IsDirectory(h(u), o)) && (!arrived && smooth ==> !IsDirectory(h(u), o))
    ensures Quiet(h, t, u) ==>
              var end := WalkIn(h(t), origin, components);
              (arrived ==> end == Some(o)) && (!arrived && smooth ==> end.None?)
  {
    hide WalkIn, Quiet;
    assert components[..|components|] == components;
    if Quiet(h, t, u) {
      QuietWithin(h, t, t, v, u);
      QuietWithin(h, t, u, u, u);
      WalkInEnds(h(t), origin, components);
    }
  }

  /** The closing check: what was arrived last must stat as a directory. */
  method RequireDirectory(k: Kernel, descriptor: nat, code: Code, ghost base: map<nat, Handle>) returns (r: Result<nat, Fault>)
    requires k.Valid() && OneMore(base, k.fds, descriptor)
    modifies k
    ensures k.Valid() && old(k.now) <= k.now && (k.smooth ==> old(k.smooth))
    ensures r.Success? ==> r.value == descriptor && k.fds == old(k.fds)
    ensures r.Failure? ==> k.fds == base && r.error in {OsError, Boundary(code)}
    ensures r.Success? ==> IsDirectory(k.history(k.now), old(k.fds)[descriptor].obj)
    ensures r.Failure? && k.smooth ==> !IsDirectory(k.history(k.now), old(k.fds)[descriptor].obj)
  {
    var observed := k.Fstat(descriptor);
    if observed.Failure? || observed.value.kind != Directory {
      k.Close(descriptor);
      assert k.fds == base;
      return Failure(if observed.Failure? then observed.error else Boundary(code));
    }
    return Success(descriptor);
  }

  /** From a world as it stands, the slash leads to the directory o along the physical path of the given one. */
  ghost predicate SlashLeads(w: World, book: Book, path: seq<string>, o: Obj) {
    WalkIn(w, w.slash, book.resolve(path)) == Some(o)
  }

  method OpenAbsoluteDirectory(k: Kernel, path: seq<string>, code: Code) returns (r: Result<(nat, seq<string>), Fault>)
    requires k.Valid()
    modifies k
    ensures k.Valid() && old(k.now) <= k.now && (k.smooth ==> old(k.smooth))
    ensures r.Success? ==>
              && OneMore(old(k.fds), k.fds, r.value.0)
              && ReachesFromSlash(k.history, r.value.1, old(k.now), k.now, k.fds[r.value.0].obj)
    ensures r.Failure? ==> k.fds == old(k.fds) && r.error in {OsError, Boundary(code)}
    ensures k.smooth && Quiet(k.history, old(k.now), k.now) ==>
              && (r.Success? ==> r.value.1 == k.book.resolve(path) && SlashLeads(k.history(old(k.now)), k.book, path, k.fds[r.value.0].obj))
              && (r.Failure? ==> forall o :: !SlashLeads(k.history(old(k.now)), k.book, path, o))
  {
    ghost var base, start := k.fds, k.now;
    var physical := k.Realpath(path);
    var slash := k.OpenSlash();
    ghost var since := k.now;
    if slash.Failure? {
      NoSlash(k.history, start, since);
      return Failure(slash.error);
    }
    var directory := Descend(k, slash.value, physical, code, base);
    if Quiet(k.history, start, k.now) {
      QuietWithin(k.history, start, since, k.now, k.now);
    }
    hide WalkIn, Quiet;
    if directory.Failure? {
      return Failure(directory.error);
    }
    return Success((directory.value, physical));
  }

  lemma NoSlash(h: History, t: nat, u: nat)
    requires t <= u
    ensures Quiet(h, t, u) && !IsDirectory(h(u), h(u).slash) ==> forall components :: WalkIn(h(t), h(t).slash, components).None?
  {
    if Quiet(h, t, u) && !IsDirectory(h(u), h(u).slash) {
      QuietWithin(h, t, u, u, u);
      forall components {
        WalkInEnds(h(t), h(t).slash, components);
      }
    }
  }

  method OpenRelativeDirectory(k: Kernel, anchor: nat, components: seq<string>, code: Code) returns (r: Result<nat, Fault>)
    requires k.Valid() && anchor in k.fds
    modifies k
    ensures k.Valid() && old(k.now) <= k.now && (k.smooth ==> old(k.smooth))
    ensures r.Success? ==>
              && OneMore(old(k.fds), k.fds, r.value)
              && Reaches(k.history, old(k.fds)[anchor].obj, components, old(k.now), k.now, k.fds[r.value].obj)
    ensures r.Failure? ==> k.fds == old(k.fds) && r.error in {OsError, Boundary(code)}
    ensures Quiet(k.history, old(k.now), k.now) ==>
              var end := WalkIn(k.history(old(k.now)), old(k.fds)[anchor].obj, components);
              (r.Success? ==> end == Some(k.fds[r.value].obj)) && (r.Failure? && k.smooth ==> end.None?)
  {
    ghost var base, start, a := k.fds, k.now, k.fds[anchor].obj;
    var copy := k.Dup(anchor);
    if copy.Failure? {
      return Failure(copy.error);
    }
    ghost var duplicated := k.now;
    r := Descend(k, copy.value, components, code, base);
    if Quiet(k.history, start, k.now) {
      QuietWithin(k.history, start, duplicated, k.now, k.now);
    }
    if r.Success? {
      ReachesLater(k.history, a, components, start, duplicated, k.now, k.now, k.fds[r.value].obj);
    }
  }

  method OpenFileFromRoot(k: Kernel, root: nat, components: seq<string>) returns (r: Result<nat, Fault>)
    requires k.Valid() && root in k.fds && components != []
    modifies k
    ensures k.Valid() && old(k.now) <= k.now && (k.smooth ==> old(k.smooth))
    ensures r.Success? ==>
              && OneMore(old(k.fds), k.fds, r.value)
              && Reaches(k.history, old(k.fds)[root].obj, components, old(k.now), k.now, k.fds[r.value].obj)
    ensures r.Failure? ==> k.fds == old(k.fds) && r.error in {OsError, Boundary(Escape)}
    ensures Quiet(k.history, old(k.now), k.now) ==>
              var f := FileIn(k.history(old(k.now)), old(k.fds)[root].obj, components);
              (r.Success? ==> f == Some(k.fds[r.value].obj)) && (r.Failure? && k.smooth ==> f.None?)
  {
    ghost var base, start, a := k.fds, k.now, k.fds[root].obj;
    var last := |components| - 1;
    var parent := OpenRelativeDirectory(k, root, components[..last], Escape);
    if parent.Failure? {
      hide WalkIn, Quiet;
      return Failure(parent.error);
    }
    ghost var since, d := k.now, k.fds[parent.value].obj;
    r := k.OpenAt(parent.value, components[last], false);
    if Quiet(k.history, start, k.now) {
      QuietWithin(k.history, start, start, since, k.now);
      QuietWithin(k.history, start, k.now, k.now, k.now);
    }
    hide WalkIn, Quiet;
    if r.Success? {
      ReachesLater(k.history, a, components[..last], start, start, since, k.now, d);
      ReachesStep(k.history, a, components, last, start, k.now, d, k.fds[r.value].obj);
      assert components[..last + 1] == components;
    }
    k.Close(parent.value);
    assert k.fds == if r.Success? then base[r.value := Handle(k.fds[r.value].obj, 0)] else base;
  }
}
