/**
  The operating system as the file boundary sees it: a history of worlds that other processes
  write at will, and descriptors that keep objects alive while they are open.
  */
module FileKernel {
  import opened Wrappers
  import opened Bytes

  /** A file-system object. Unlike an inode number it is never used twice. */
  type Obj = nat

  datatype Kind = Directory | Regular | Symlink | Special

  datatype Node = Node(
    dev: nat, ino: nat, kind: Kind, permissions: nat, nlink: nat, mtime: int, ctime: int,
    content: seq<Byte>, entries: map<string, Obj>)

  datatype World = World(nodes: map<Obj, Node>, slash: Obj)

  type History = nat -> World

  /** The fields of os.stat_result the boundary reads. */
  datatype Stat = Stat(dev: nat, ino: nat, kind: Kind, permissions: nat, nlink: nat, size: nat, mtime: int, ctime: int)

  predicate Live(h: History, o: Obj, t: nat) {
    o in h(t).nodes
  }

  function NodeAt(h: History, o: Obj, t: nat): Node
    requires Live(h, o, t)
  {
    h(t).nodes[o]
  }

  function StatAt(h: History, o: Obj, t: nat): Stat
    requires Live(h, o, t)
  {
    var n := NodeAt(h, o, t);
    Stat(n.dev, n.ino, n.kind, n.permissions, n.nlink, |n.content|, n.mtime, n.ctime)
  }

  function ContentAt(h: History, o: Obj, t: nat): seq<Byte>
    requires Live(h, o, t)
  {
    NodeAt(h, o, t).content
  }

  /** What the name means in the directory d at time t. */
  function EntryAt(h: History, d: Obj, name: string, t: nat): Option<Obj> {
    if Live(h, d, t) && NodeAt(h, d, t).kind == Directory && name in NodeAt(h, d, t).entries then
      Some(NodeAt(h, d, t).entries[name])
    else None
  }

  predicate SameObject(a: Stat, b: Stat) {
    a.dev == b.dev && a.ino == b.ino
  }

  // ---------- what every kernel promises ----------

  ghost predicate NumbersAreDistinct(h: History) {
    forall t: nat, a: Obj, b: Obj :: Live(h, a, t) && Live(h, b, t) && SameObject(StatAt(h, a, t), StatAt(h, b, t)) ==> a == b
  }

  ghost predicate NumbersAreKept(h: History) {
    forall o: Obj, t: nat, u: nat :: Live(h, o, t) && Live(h, o, u) ==>
                                       SameObject(StatAt(h, o, t), StatAt(h, o, u)) && StatAt(h, o, t).kind == StatAt(h, o, u).kind
  }

  ghost predicate EntriesAreLive(h: History) {
    forall d: Obj, name: string, t: nat :: EntryAt(h, d, name, t).Some? ==> Live(h, EntryAt(h, d, name, t).value, t)
  }

  ghost predicate NeverRevived(h: History) {
    forall o: Obj, t: nat, u: nat, v: nat :: t <= u <= v && Live(h, o, t) && Live(h, o, v) ==> Live(h, o, u)
  }

  /** An inode number names one live object at a time, belongs to it for life, and a dead object stays dead. */
  ghost predicate Lawful(h: History) {
    NumbersAreDistinct(h) && NumbersAreKept(h) && EntriesAreLive(h) && NeverRevived(h)
  }

  /** Two sightings of one identity, while the first object is kept open, are sightings of one object. */
  lemma SameIdentityIsSameObject(h: History, a: Obj, t: nat, b: Obj, u: nat)
    requires Lawful(h) && Live(h, a, t) && Live(h, a, u) && Live(h, b, u)
    requires SameObject(StatAt(h, a, t), StatAt(h, b, u))
    ensures a == b
  {
    assert SameObject(StatAt(h, a, t), StatAt(h, a, u));
  }

  // ---------- walking a path while the tree changes ----------

  /** Some walk of the components between times t and u leads from object a to object b, one lookup at a time. */
  ghost predicate Reaches(h: History, a: Obj, components: seq<string>, t: nat, u: nat, b: Obj)
    decreases |components|
  {
    if components == [] then a == b
    else
      var last := |components| - 1;
      exists d: Obj, v: nat :: t <= v <= u && Reaches(h, a, components[..last], t, v, d) && EntryAt(h, d, components[last], v) == Some(b)
  }

  lemma ReachesLater(h: History, a: Obj, components: seq<string>, t: nat, t': nat, u': nat, u: nat, b: Obj)
    requires t <= t' <= u' <= u && Reaches(h, a, components, t', u', b)
    ensures Reaches(h, a, components, t, u, b)
    decreases |components|
  {
    if components != [] {
      var last := |components| - 1;
      var d: Obj, v: nat :| t' <= v <= u' && Reaches(h, a, components[..last], t', v, d) && EntryAt(h, d, components[last], v) == Some(b);
      ReachesLater(h, a, components[..last], t, t', v, v, d);
    }
  }

  lemma ReachesStep(h: History, a: Obj, components: seq<string>, k: nat, t: nat, v: nat, d: Obj, b: Obj)
    requires k < |components| && t <= v && Reaches(h, a, components[..k], t, v, d)
    requires EntryAt(h, d, components[k], v) == Some(b)
    ensures Reaches(h, a, components[..k + 1], t, v, b)
  {
    assert components[..k + 1][..k] == components[..k];
  }

  /** Nothing at all changes between times t and u. */
  ghost predicate Quiet(h: History, t: nat, u: nat) {
    forall v: nat :: t <= v <= u ==> h(v) == h(t)
  }

  /** In a quiet world a path leads to one object. */
  lemma {:induction false} QuietWalksAgree(h: History, t: nat, u: nat, a: Obj, components: seq<string>, v: nat, w: nat, b: Obj, v': nat, w': nat, b': Obj)
    requires Quiet(h, t, u) && t <= v <= w <= u && t <= v' <= w' <= u
    requires Reaches(h, a, components, v, w, b) && Reaches(h, a, components, v', w', b')
    ensures b == b'
    decreases |components|
  {
    if components != [] {
      var last := |components| - 1;
      var d: Obj, x: nat :| v <= x <= w && Reaches(h, a, components[..last], v, x, d) && EntryAt(h, d, components[last], x) == Some(b);
      var d': Obj, x': nat :| v' <= x' <= w' && Reaches(h, a, components[..last], v', x', d') && EntryAt(h, d', components[last], x') == Some(b');
      QuietWalksAgree(h, t, u, a, components[..last], v, x, d, v', x', d');
      assert h(x) == h(x');
    }
  }

  lemma QuietWithin(h: History, t: nat, t': nat, u': nat, u: nat)
    requires t <= t' <= u' <= u && Quiet(h, t, u)
    ensures Quiet(h, t', u') && h(t') == h(t) == h(u')
  {
    assert h(t') == h(t) && h(u') == h(t);
  }

  // ---------- one world, looked at all at once ----------

  predicate IsDirectory(w: World, o: Obj) {
    o in w.nodes && w.nodes[o].kind == Directory
  }

  function NamedIn(w: World, d: Obj, name: string): Option<Obj> {
    if IsDirectory(w, d) && name in w.nodes[d].entries then Some(w.nodes[d].entries[name]) else None
  }

  /** Where the components lead from o, if there is a directory at each step. */
  function WalkIn(w: World, o: Obj, components: seq<string>): Option<Obj>
    decreases |components|
  {
    if components == [] then (if IsDirectory(w, o) then Some(o) else None)
    else
      var last := |components| - 1;
      var d := WalkIn(w, o, components[..last]);
      if d.None? then None
      else
        var next := NamedIn(w, d.value, components[last]);
        if next.Some? && IsDirectory(w, next.value) then next else None
  }

  /** The object the components lead to: directories all the way, and something that is no link at the end. */
  function FileIn(w: World, o: Obj, components: seq<string>): Option<Obj>
    requires components != []
  {
    var last := |components| - 1;
    var d := WalkIn(w, o, components[..last]);
    if d.None? then None
    else
      var f := NamedIn(w, d.value, components[last]);
      if f.Some? && f.value in w.nodes && w.nodes[f.value].kind != Symlink then f else None
  }

  /** A walk that fails early fails. */
  lemma {:induction false} WalkInPrefix(w: World, o: Obj, components: seq<string>, k: nat)
    requires k <= |components| && WalkIn(w, o, components[..k]).None?
    ensures WalkIn(w, o, components).None?
    decreases |components|
  {
    if k < |components| {
      var last := |components| - 1;
      assert components[..last][..k] == components[..k];
      WalkInPrefix(w, o, components[..last], k);
    } else {
      assert components[..k] == components;
    }
  }

  lemma WalkInStep(w: World, o: Obj, components: seq<string>, k: nat)
    requires k < |components|
    ensures WalkIn(w, o, components[..k + 1])
            == var d := WalkIn(w, o, components[..k]);
               if d.None? then None
               else
                 var next := NamedIn(w, d.value, components[k]);
                 if next.Some? && IsDirectory(w, next.value) then next else None
  {
    assert components[..k + 1][..k] == components[..k];
  }

  lemma {:induction false} WalkInEnds(w: World, o: Obj, components: seq<string>)
    ensures WalkIn(w, o, components).Some? ==> IsDirectory(w, o) && IsDirectory(w, WalkIn(w, o, components).value)
    decreases |components|
  {
    if components != [] {
      WalkInEnds(w, o, components[..|components| - 1]);
    }
  }

  // ---------- descriptors ----------

  /** What the answers from outside are when nothing interferes: physical paths, and boot and volume identities. */
  datatype Book = Book(resolve: seq<string> -> seq<string>, volumes: Option<(nat, nat, nat)>)

  datatype Handle = Handle(obj: Obj, offset: nat)

  /** OsError stands for every OSError, whatever its errno. */
  datatype Fault = OsError | Boundary(code: Code)

  datatype Code = RootInvalid | RootDrift | AttestationMismatch | RefInvalid | HardLink | Escape | SizeLimit | RefDrift

  /** There is something that is no link, and a directory where one is wanted. */
  predicate Openable(w: World, entry: Option<Obj>, directory: bool) {
    && entry.Some? && entry.value in w.nodes && w.nodes[entry.value].kind != Symlink
    && (directory ==> w.nodes[entry.value].kind == Directory)
  }

  lemma {:induction false} SomeNumberIsFree(s: set<nat>) returns (fd: nat)
    ensures fd !in s && forall n :: n in s ==> n < fd
    decreases |s|
  {
    if s == {} {
      fd := 0;
    } else {
      var x :| x in s;
      var below := SomeNumberIsFree(s - {x});
      fd := if below <= x then x + 1 else below;
      assert forall n :: n in s ==> n == x || n in s - {x};
    }
  }

  class Kernel {
    const history: History
    var now: nat
    var fds: map<nat, Handle>
    ghost const book: Book
    /** No call has failed for a reason outside the tree, and every answer was by the book. */
    ghost var smooth: bool

    ghost predicate Valid()
      reads this
    {
      Lawful(history) && forall fd :: fd in fds ==> Live(history, fds[fd].obj, now)
    }

    constructor (h: History, ghost book: Book)
      requires Lawful(h)
      ensures Valid() && history == h && fds == map[] && this.book == book && smooth
    {
      history := h;
      this.book := book;
      now, fds, smooth := 0, map[], true;
    }

    /** Any amount of time passes, through worlds that keep the open objects. */
    method Tick()
      requires Valid()
      modifies `now
      ensures Valid() && old(now) <= now
    {
      var later: int := *;
      if now <= later && forall fd :: fd in fds.Keys ==> Live(history, fds[fd].obj, later) {
        now := later;
      }
    }

    /** The lowest descriptor numbers are reused by a real kernel; here any free number will do. */
    method Install(obj: Obj) returns (fd: nat)
      requires Valid() && Live(history, obj, now)
      modifies `fds
      ensures Valid() && fd !in old(fds) && fds == old(fds)[fd := Handle(obj, 0)]
    {
      ghost var free := SomeNumberIsFree(fds.Keys);
      assert free !in fds;
      fd := 0;
      while fd in fds
        invariant forall n :: n in fds.Keys ==> n < free
        decreases free - fd
      {
        fd := fd + 1;
      }
      fds := fds[fd := Handle(obj, 0)];
    }

    /** os.open("/", directory flags) */
    method OpenSlash() returns (r: Result<nat, Fault>)
      requires Valid()
      modifies this
      ensures Valid() && old(now) <= now && (smooth ==> old(smooth))
      ensures r.Success? ==> r.value !in old(fds) && fds == old(fds)[r.value := Handle(history(now).slash, 0)]
      ensures r.Failure? ==> fds == old(fds) && r.error == OsError
      ensures smooth ==> (r.Success? <==> IsDirectory(history(now), history(now).slash))
    {
      Tick();
      var denied: bool := *;
      smooth := smooth && !denied;
      var slash := history(now).slash;
      if denied || !Live(history, slash, now) || NodeAt(history, slash, now).kind != Directory {
        return Failure(OsError);
      }
      var fd := Install(slash);
      return Success(fd);
    }

    /**
      os.open(name, flags, dir_fd=at) with O_NOFOLLOW, and with O_DIRECTORY when a directory is
      wanted. Besides what the world forbids, any call may fail.
      */
    method OpenAt(at: nat, name: string, directory: bool) returns (r: Result<nat, Fault>)
      requires Valid() && at in fds
      modifies this
      ensures Valid() && old(now) <= now && (smooth ==> old(smooth))
      ensures r.Success? ==>
                && r.value !in old(fds) && r.value in fds && fds == old(fds)[r.value := Handle(fds[r.value].obj, 0)]
                && EntryAt(history, old(fds)[at].obj, name, now) == Some(fds[r.value].obj)
      ensures r.Failure? ==> fds == old(fds) && r.error == OsError
      ensures smooth ==> (r.Success? <==> Openable(history(now), NamedIn(history(now), old(fds)[at].obj, name), directory))
      ensures r.Success? ==> Openable(history(now), Some(fds[r.value].obj), directory)
    {
      Tick();
      var denied: bool := *;
      smooth := smooth && !denied;
      var entry := EntryAt(history, fds[at].obj, name, now);
      if denied || entry.None? {
        return Failure(OsError);
      }
      var kind := NodeAt(history, entry.value, now).kind;
      if kind == Symlink || (directory && kind != Directory) {
        return Failure(OsError);
      }
      var fd := Install(entry.value);
      return Success(fd);
    }

    /** os.dup, used on directories only, whose offsets are never moved. */
    method Dup(fd: nat) returns (r: Result<nat, Fault>)
      requires Valid() && fd in fds
      modifies this
      ensures Valid() && old(now) <= now && (smooth ==> old(smooth))
      ensures r.Success? ==> r.value !in old(fds) && fds == old(fds)[r.value := Handle(old(fds)[fd].obj, 0)]
      ensures r.Failure? ==> fds == old(fds) && r.error == OsError && !smooth
    {
      Tick();
      var denied: bool := *;
      smooth := smooth && !denied;
      if denied {
        return Failure(OsError);
      }
      var copy := Install(fds[fd].obj);
      return Success(copy);
    }

    method Fstat(fd: nat) returns (r: Result<Stat, Fault>)
      requires Valid() && fd in fds
      modifies `now, `smooth
      ensures Valid() && old(now) <= now && (smooth ==> old(smooth))
      ensures r.Success? ==> r.value == StatAt(history, fds[fd].obj, now)
      ensures r.Failure? ==> r.error == OsError && !smooth
    {
      Tick();
      var denied: bool := *;
      smooth := smooth && !denied;
      if denied {
        return Failure(OsError);
      }
      return Success(StatAt(history, fds[fd].obj, now));
    }

    /** os.read: possibly fewer bytes than asked for, but none only at the end of the file as it is now. */
    method Read(fd: nat, count: nat) returns (r: Result<seq<Byte>, Fault>)
      requires Valid() && fd in fds && count > 0
      modifies this
      ensures Valid() && old(now) <= now
      ensures r.Success? ==>
                var h := old(fds)[fd];
                && Live(history, h.obj, now)
                && |r.value| <= count
                && (r.value == [] <==> |ContentAt(history, h.obj, now)| <= h.offset)
                && (r.value != [] ==>
                      && h.offset + |r.value| <= |ContentAt(history, h.obj, now)|
                      && r.value == ContentAt(history, h.obj, now)[h.offset..h.offset + |r.value|])
                && fds == old(fds)[fd := Handle(h.obj, h.offset + |r.value|)]
      ensures r.Failure? ==> fds == old(fds) && r.error == OsError && !smooth
      ensures smooth ==> old(smooth)
    {
      Tick();
      var denied: bool := *;
      smooth := smooth && !denied;
      if denied {
        return Failure(OsError);
      }
      var h := fds[fd];
      var content := ContentAt(history, h.obj, now);
      if |content| <= h.offset {
        assert fds == fds[fd := Handle(h.obj, h.offset + 0)];
        return Success([]);
      }
      var limit := if |content| - h.offset < count then |content| - h.offset else count;
      var n: int := *;
      if n <= 0 || limit < n {
        n := limit;
      }
      fds := fds[fd := Handle(h.obj, h.offset + n)];
      return Success(content[h.offset..h.offset + n]);
    }

    method Close(fd: nat)
      requires Valid() && fd in fds
      modifies `fds
      ensures Valid() && fds == old(fds) - {fd}
    {
      fds := fds - {fd};
    }

    /** os.path.realpath looks names up by itself while the tree changes: it may answer anything. */
    method Realpath(path: seq<string>) returns (physical: seq<string>)
      requires Valid()
      modifies `now, `smooth
      ensures Valid() && old(now) <= now && (smooth ==> old(smooth) && physical == book.resolve(path))
    {
      Tick();
      physical := *;
      smooth := smooth && physical == book.resolve(path);
    }

    /** The boot and volume identities, where the platform has them: an answer from outside. */
    method Volumes() returns (volumes: Option<(nat, nat, nat)>)
      requires Valid()
      modifies `smooth
      ensures Valid() && (smooth ==> old(smooth) && volumes == book.volumes)
    {
      volumes := *;
      smooth := smooth && volumes == book.volumes;
    }
  }
}
