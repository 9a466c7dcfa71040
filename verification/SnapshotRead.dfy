/**
  When does "same stamp before and after" mean that nothing was written in between? The bytes of
  a checked read may each come from a different moment; this module says exactly when they are
  nevertheless one content the file held all along.
  */
module SnapshotRead {
  import opened Wrappers
  import opened Bytes
  import opened FileKernel

  predicate RegularSingleLink(s: Stat) {
    s.kind == Regular && s.nlink == 1
  }

  /**
    bytes passed every check of the read: they were gathered one by one at the given times, as many
    as the size seen before, the file ended there at some moment, and the stamp seen after is the same.
    */
  ghost predicate CheckedRead(h: History, o: Obj, before: nat, times: seq<nat>, bytes: seq<Byte>, end: nat, after: nat) {
    && before <= end <= after && |times| == |bytes|
    && Live(h, o, before) && Live(h, o, end) && Live(h, o, after)
    && RegularSingleLink(StatAt(h, o, before))
    && |bytes| == StatAt(h, o, before).size
    && Gathered(h, o, before, times, bytes, end)
    && |ContentAt(h, o, end)| <= |bytes|
    && StatAt(h, o, before) == StatAt(h, o, after)
  }

  ghost predicate Gathered(h: History, o: Obj, before: nat, times: seq<nat>, bytes: seq<Byte>, end: nat) {
    |times| == |bytes| &&
    forall k :: 0 <= k < |bytes| ==> before <= times[k] <= end && ByteRead(h, o, times[k], k, bytes[k])
  }

  predicate ByteRead(h: History, o: Obj, t: nat, k: nat, b: Byte) {
    Live(h, o, t) && k < |ContentAt(h, o, t)| && ContentAt(h, o, t)[k] == b
  }

  ghost predicate HeldThroughout(h: History, o: Obj, t: nat, u: nat, bytes: seq<Byte>) {
    forall v: nat :: t <= v <= u ==> Live(h, o, v) && ContentAt(h, o, v) == bytes
  }

  /** What a read is for: every checked read returns one content, held from its first stat to its last. */
  ghost predicate EveryReadIsASnapshot(h: History, o: Obj) {
    forall before: nat, times: seq<nat>, bytes: seq<Byte>, end: nat, after: nat ::
      CheckedRead(h, o, before, times, bytes, end, after) ==> HeldThroughout(h, o, before, after, bytes)
  }

  /** A stamp that shows again was there all along, over one content. */
  ghost predicate StampsTell(h: History, o: Obj) {
    forall t: nat, u: nat :: t <= u && SameStamp(h, o, t, u) ==> HeldThroughout(h, o, t, u, ContentAt(h, o, t))
  }

  ghost predicate SameStamp(h: History, o: Obj, t: nat, u: nat) {
    Live(h, o, t) && Live(h, o, u) && StatAt(h, o, t) == StatAt(h, o, u) && RegularSingleLink(StatAt(h, o, t))
  }

  lemma CheckedReadIsHeld(h: History, o: Obj, before: nat, times: seq<nat>, bytes: seq<Byte>, end: nat, after: nat)
    requires StampsTell(h, o) && CheckedRead(h, o, before, times, bytes, end, after)
    ensures HeldThroughout(h, o, before, after, bytes)
  {
    assert SameStamp(h, o, before, after);
    var content := ContentAt(h, o, before);
    assert HeldThroughout(h, o, before, after, content);
    forall k | 0 <= k < |bytes|
      ensures bytes[k] == content[k]
    {
      assert ByteRead(h, o, times[k], k, bytes[k]);
    }
    assert bytes == content;
  }

  /** Checked reads are snapshots exactly when stamps tell: neither more nor less is needed of the writers. */
  lemma SnapshotsExactly(h: History, o: Obj)
    ensures EveryReadIsASnapshot(h, o) <==> StampsTell(h, o)
  {
    if StampsTell(h, o) {
      forall before: nat, times: seq<nat>, bytes: seq<Byte>, end: nat, after: nat
        | CheckedRead(h, o, before, times, bytes, end, after)
        ensures HeldThroughout(h, o, before, after, bytes)
      {
        CheckedReadIsHeld(h, o, before, times, bytes, end, after);
      }
    }
    if EveryReadIsASnapshot(h, o) {
      forall t: nat, u: nat | t <= u && SameStamp(h, o, t, u)
        ensures HeldThroughout(h, o, t, u, ContentAt(h, o, t))
      {
        var bytes := ContentAt(h, o, t);
        assert CheckedRead(h, o, t, seq(|bytes|, _ => t), bytes, t, u);
      }
    }
  }

  // ---------- writers for which stamps tell ----------

  ghost predicate Persists(h: History, o: Obj) {
    forall t: nat, u: nat, v: nat :: t <= u <= v && Live(h, o, t) && Live(h, o, v) ==> Live(h, o, u)
  }

  /** The change time never goes back, and every write of new content moves it on. */
  ghost predicate WritesMoveTheClock(h: History, o: Obj) {
    forall t: nat :: Live(h, o, t) && Live(h, o, t + 1) ==> ClockStep(NodeAt(h, o, t), NodeAt(h, o, t + 1))
  }

  predicate ClockStep(a: Node, b: Node) {
    a.ctime <= b.ctime && (a.content != b.content ==> a.ctime < b.ctime)
  }

  lemma {:induction false} ClockNeverFalls(h: History, o: Obj, t: nat, u: nat)
    requires Persists(h, o) && WritesMoveTheClock(h, o)
    requires t <= u && Live(h, o, t) && Live(h, o, u)
    ensures ClockStep(NodeAt(h, o, t), NodeAt(h, o, u))
    decreases u - t
  {
    if t < u {
      assert Live(h, o, u - 1);
      ClockNeverFalls(h, o, t, u - 1);
      assert ClockStep(NodeAt(h, o, u - 1), NodeAt(h, o, (u - 1) + 1));
    }
  }

  lemma ClockedWritersTell(h: History, o: Obj)
    requires Persists(h, o) && WritesMoveTheClock(h, o)
    ensures StampsTell(h, o)
  {
    forall t: nat, u: nat | t <= u && SameStamp(h, o, t, u)
      ensures HeldThroughout(h, o, t, u, ContentAt(h, o, t))
    {
      forall v: nat | t <= v <= u
        ensures Live(h, o, v) && ContentAt(h, o, v) == ContentAt(h, o, t)
      {
        ClockNeverFalls(h, o, t, v);
        ClockNeverFalls(h, o, v, u);
      }
    }
  }

  /** Every single write changes the size or a time. */
  ghost predicate EveryWriteShows(h: History, o: Obj) {
    forall t: nat :: Live(h, o, t) && Live(h, o, t + 1) && ContentAt(h, o, t) != ContentAt(h, o, t + 1) ==>
                       StatAt(h, o, t) != StatAt(h, o, t + 1)
  }

  /** A stamp that has once changed never shows again. */
  ghost predicate StampsNeverReturn(h: History, o: Obj) {
    forall t: nat, v: nat, u: nat ::
      t <= v <= u && Live(h, o, t) && Live(h, o, v) && Live(h, o, u) && StatAt(h, o, t) == StatAt(h, o, u) ==> StatAt(h, o, t) == StatAt(h, o, v)
  }

  /** Only what the read accepts at all matters: a regular file with one link. */
  ghost predicate AlwaysReadable(h: History, o: Obj) {
    forall t: nat :: Live(h, o, t) ==> RegularSingleLink(StatAt(h, o, t))
  }

  lemma {:induction false} UnseenWrites(h: History, o: Obj, t: nat, u: nat)
    requires Persists(h, o) && EveryWriteShows(h, o) && StampsNeverReturn(h, o)
    requires t <= u && Live(h, o, t) && Live(h, o, u) && StatAt(h, o, t) == StatAt(h, o, u)
    ensures ContentAt(h, o, t) == ContentAt(h, o, u)
    decreases u - t
  {
    if t < u {
      var v: nat := u - 1;
      assert Live(h, o, v) && Live(h, o, v + 1);
      assert StatAt(h, o, t) == StatAt(h, o, v);
      UnseenWrites(h, o, t, v);
    }
  }

  /**
    What has to be asked of the writers: where stamps never return, stamps tell exactly when every
    single write shows.
    */
  lemma StampsTellExactly(h: History, o: Obj)
    requires Persists(h, o) && StampsNeverReturn(h, o) && AlwaysReadable(h, o)
    ensures StampsTell(h, o) <==> EveryWriteShows(h, o)
  {
    if EveryWriteShows(h, o) {
      forall t: nat, u: nat | t <= u && SameStamp(h, o, t, u)
        ensures HeldThroughout(h, o, t, u, ContentAt(h, o, t))
      {
        forall v: nat | t <= v <= u
          ensures Live(h, o, v) && ContentAt(h, o, v) == ContentAt(h, o, t)
        {
          UnseenWrites(h, o, t, v);
        }
      }
    }
    if StampsTell(h, o) {
      forall t: nat | Live(h, o, t) && Live(h, o, t + 1) && StatAt(h, o, t) == StatAt(h, o, t + 1)
        ensures ContentAt(h, o, t) == ContentAt(h, o, t + 1)
      {
        var u: nat := t + 1;
        assert SameStamp(h, o, t, u);
        assert HeldThroughout(h, o, t, u, ContentAt(h, o, t));
      }
    }
  }

  // ---------- writers for which they do not ----------

  const FILE: Obj := 1
  const WORKSPACE: Obj := 2
  const ROOT: Obj := 3

  function Dir(ino: nat, entries: map<string, Obj>): Node {
    Node(1, ino, Directory, 0, 2, 0, 0, [], entries)
  }

  function Plain(time: int, content: seq<Byte>): Node {
    Node(1, 11, Regular, 0, 1, time, time, content, map[])
  }

  /** The file /w/r/f. */
  function Wound(time: int, content: seq<Byte>): World {
    World(map[0 := Dir(10, map["w" := WORKSPACE]), WORKSPACE := Dir(12, map["r" := ROOT]), ROOT := Dir(13, map["f" := FILE]),
              FILE := Plain(time, content)], 0)
  }

  /** Two writes, the second of which sets the clock back. */
  function WoundBack(): History {
    (t: nat) => if t == 1 then Wound(7, [1, 1]) else Wound(5, [0, 0])
  }

  lemma WoundBackAt(t: nat)
    ensures var w := WoundBack()(t);
            && w.slash == 0 && w.nodes.Keys == {0, WORKSPACE, ROOT, FILE}
            && w.nodes[0] == Dir(10, map["w" := WORKSPACE]) && w.nodes[WORKSPACE] == Dir(12, map["r" := ROOT])
            && w.nodes[ROOT] == Dir(13, map["f" := FILE])
            && w.nodes[FILE] == (if t == 1 then Plain(7, [1, 1]) else Plain(5, [0, 0]))
  {
    var h := WoundBack();
    assert h(t) == if t == 1 then Wound(7, [1, 1]) else Wound(5, [0, 0]);
  }

  lemma WoundBackIsLawful()
    ensures Lawful(WoundBack())
  {
    forall t: nat {
      WoundBackAt(t);
    }
    hide WoundBack, Wound;
  }

  lemma WoundBackShows()
    ensures EveryWriteShows(WoundBack(), FILE)
  {
    forall t: nat {
      WoundBackAt(t);
    }
    hide WoundBack, Wound, Dir;
  }

  /**
    That every write shows is not enough: here is a lawful history in which every write shows, and
    a checked read of it returns bytes the file never held.
    */
  lemma EveryWriteShowsIsNotEnough()
    ensures var h := WoundBack();
            && Lawful(h) && EveryWriteShows(h, FILE)
            && CheckedRead(h, FILE, 0, [0, 1], [0, 1], 2, 2)
            && forall t: nat :: Live(h, FILE, t) && ContentAt(h, FILE, t) != [0, 1]
  {
    var h := WoundBack();
    WoundBackIsLawful();
    WoundBackShows();
    forall t: nat {
      WoundBackAt(t);
    }
    hide Lawful, EveryWriteShows, WoundBack, Wound;
    assert ByteRead(h, FILE, 0, 0, 0) && ByteRead(h, FILE, 1, 1, 1);
    forall t: nat
      ensures Live(h, FILE, t) && ContentAt(h, FILE, t) != [0, 1]
    {
      assert ContentAt(h, FILE, t)[0] == ContentAt(h, FILE, t)[1];
    }
  }
}
