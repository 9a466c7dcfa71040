/** The rules of the file boundary, field by field: which identities continue one another, and what a file that is read is. */
module FileRules {
  import opened Wrappers
  import opened Bytes
  import opened FileKernel
  import opened SnapshotRead
  import opened FileBoundary
  import opened FileRead

  /**
    A first-version identity continues in the same four numbers. A second-version one never goes
    back to the first version; it keeps inodes and volumes, and its devices as well within one boot.
    */
  lemma ContinuesExactly(expected: RootIdentity, actual: RootIdentity)
    ensures expected.V1? ==>
              (RootIdentityContinues(expected, actual) <==>
                 && actual.workspaceDevice == expected.workspaceDevice && actual.rootDevice == expected.rootDevice
                 && actual.workspaceInode == expected.workspaceInode && actual.rootInode == expected.rootInode)
    ensures expected.V2? && actual.V1? ==> !RootIdentityContinues(expected, actual)
    ensures expected.V2? && actual.V2? ==>
              (RootIdentityContinues(expected, actual) <==>
                 && actual.workspaceInode == expected.workspaceInode && actual.rootInode == expected.rootInode
                 && actual.workspaceVolume == expected.workspaceVolume && actual.rootVolume == expected.rootVolume
                 && (actual.boot == expected.boot ==>
                       actual.workspaceDevice == expected.workspaceDevice && actual.rootDevice == expected.rootDevice))
  {
  }

  /** The identity of two directories: device and inode number of each, and boot and volumes where the platform tells them. */
  lemma CapturedExactly(h: History, volumes: Option<(nat, nat, nat)>, a: Obj, b: Obj, t: nat)
    requires Live(h, a, t) && Live(h, b, t)
    ensures var identity, w, r := Captured(volumes, StatAt(h, a, t), StatAt(h, b, t)), NodeAt(h, a, t), NodeAt(h, b, t);
            && identity.workspaceDevice == w.dev && identity.workspaceInode == w.ino
            && identity.rootDevice == r.dev && identity.rootInode == r.ino
            && (identity.V2? <==> volumes.Some?)
            && (identity.V2? ==> (identity.boot, identity.workspaceVolume, identity.rootVolume) == volumes.value)
  {
  }

  /** What does not change between the first stat of a read and its last. */
  predicate SameFields(a: Node, b: Node) {
    && a.dev == b.dev && a.ino == b.ino && a.kind == b.kind && a.permissions == b.permissions && a.nlink == b.nlink
    && |a.content| == |b.content| && a.mtime == b.mtime && a.ctime == b.ctime
  }

  /**
    A file that is read is regular and has one link, before and after; its length is the number of
    bytes read and within the limit; and the roots had the expected inode numbers.
    */
  lemma ReadFileIsRegular(h: History, q: Request, start: nat, finish: nat, seen: Seen, result: ReadResult)
    requires Witnessed(h, q, start, finish, seen, result)
    ensures var f, t, u := seen.objects.file, seen.timing.before, seen.timing.after;
            && start <= t <= u <= finish && Live(h, f, t) && Live(h, f, u)
            && NodeAt(h, f, t).kind == Regular && NodeAt(h, f, t).nlink == 1 && SameFields(NodeAt(h, f, t), NodeAt(h, f, u))
            && result.byteSize == |result.hashed| == |NodeAt(h, f, t).content|
            && (q.maxBytes.Some? ==> result.byteSize <= q.maxBytes.value)
    ensures exists v: nat :: start <= v <= seen.timing.before && Live(h, seen.objects.workspace, v) && Live(h, seen.objects.root, v)
                             && NodeAt(h, seen.objects.workspace, v).ino == q.expected.value.workspaceInode
                             && NodeAt(h, seen.objects.root, v).ino == q.expected.value.rootInode
  {
    hide Gathered, NamedAfter, Rooted, Reaches;
    var o := seen.objects;
    assert CheckedRead(h, o.file, seen.timing.before, seen.timing.times, result.hashed, seen.timing.end, seen.timing.after);
    var v: nat :| start <= v <= seen.timing.before && Live(h, o.workspace, v) && Live(h, o.root, v)
                  && Names(q.expected.value, StatAt(h, o.workspace, v), StatAt(h, o.root, v));
    assert NodeAt(h, o.workspace, v).ino == q.expected.value.workspaceInode;
  }

  /** Where nothing changes, only regular files with one link and within the limit are read. */
  lemma OtherFilesAreNotRead(h: History, q: Request, start: nat, finish: nat, seen: Seen, result: ReadResult)
    requires Quiet(h, start, finish) && Live(h, seen.objects.file, start)
    requires var n := NodeAt(h, seen.objects.file, start);
             n.kind != Regular || n.nlink != 1 || (q.maxBytes.Some? && |n.content| > q.maxBytes.value)
    ensures !Witnessed(h, q, start, finish, seen, result)
  {
    hide Witnessed;
    var t := seen.timing.before;
    assert start <= t <= finish ==> h(t) == h(start);
    if Witnessed(h, q, start, finish, seen, result) {
      ReadFileIsRegular(h, q, start, finish, seen, result);
    }
  }

  /** A file is to be read if the components lead to it and it is regular, has one link and is within the limit. */
  lemma FileReadyExactly(h: History, t: nat, root: Obj, components: seq<string>, file: Obj, maxBytes: Option<int>)
    ensures FileReady(h, t, root, components, file, maxBytes) <==>
            && components != [] && FileIn(h(t), root, components) == Some(file) && Live(h, file, t)
            && NodeAt(h, file, t).kind == Regular && NodeAt(h, file, t).nlink == 1
            && (maxBytes.Some? ==> |NodeAt(h, file, t).content| <= maxBytes.value)
  {
    hide FileIn;
  }
}
