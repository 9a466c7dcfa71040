/** Cordis composition snapshots: what is built is accepted, rebuilds to itself, and does not depend on order. */
module CordisSnapshot {
  import opened Wrappers
  import opened JsText
  import opened Lists
  import opened StableSort
  import opened CordisDescriptor
  import opened CordisComposition

  datatype Framework = Framework(package: Text, version: Text, integrity: Text)

  /** children is None where the property is absent. */
  datatype Binding = Binding(executorAdapterId: Text, executorRoute: Text, children: Option<map<Text, (Text, Text)>>)

  /** evidence is None where the property is absent, Some(None) where it is null. */
  datatype Unsigned = Unsigned(framework: Framework, binding: Binding, evidence: Option<Option<Text>>, plugins: Plugins)

  datatype Snapshot = Snapshot(unsigned: Unsigned, id: Text, digest: Text)

  datatype SnapshotInput = SnapshotInput(framework: Framework, binding: Binding, evidence: Option<Option<Text>>, plugins: seq<Input>)

  /** What is outside the model: the rest of the two schemas, and the digest of the canonical bytes. */
  datatype Contract = Contract(descriptor: Descriptor -> bool, snapshot: Snapshot -> bool, digest: Unsigned -> Text)

  function PluginId(d: Descriptor): Text {
    d.pluginId
  }

  /** map(buildCordisPluginDescriptor), which throws as soon as one build does. */
  function BuildAll(other: Descriptor -> bool, inputs: seq<Input>): Result<Plugins, Fault> {
    if inputs == [] then Success([])
    else
      var first := BuildDescriptor(other, inputs[0]);
      if first.Failure? then Failure(first.error)
      else
        var more := BuildAll(other, inputs[1..]);
        if more.Failure? then more else Success([first.value] + more.value)
  }

  function Sealed(c: Contract, unsigned: Unsigned): Snapshot {
    var digest := c.digest(unsigned);
    Snapshot(unsigned, Ascii("cordis:snapshot:") + digest, digest)
  }

  /** What the snapshot is when nothing is refused. */
  function Assembled(c: Contract, input: SnapshotInput, built: Plugins): Snapshot {
    Sealed(c, Unsigned(input.framework, input.binding, input.evidence, Sort(PluginId, built)))
  }

  /** The snapshots buildCordisCompositionSnapshot may return for an input: at most one. */
  ghost predicate Builds(c: Contract, input: SnapshotInput, s: Snapshot) {
    var built := BuildAll(c.descriptor, input.plugins);
    built.Success? && Accepted(s.unsigned.plugins) && s == Assembled(c, input, built.value) && c.snapshot(s)
  }

  method BuildSnapshot(c: Contract, input: SnapshotInput) returns (r: Result<Snapshot, Fault>)
    ensures r.Success? ==> Builds(c, input, r.value)
    ensures r.Failure? ==> forall s :: !Builds(c, input, s)
    ensures r.Failure? ==>
              var built := BuildAll(c.descriptor, input.plugins);
              if built.Failure? then r.error == built.error
              else
                var plugins := Sort(PluginId, built.value);
                if Accepted(plugins) then r.error == SchemaInvalid else Explained(plugins, r.error)
  {
    hide Accepted, Explained, Sort;
    var built := BuildAll(c.descriptor, input.plugins);
    if built.Failure? {
      return Failure(built.error);
    }
    var s := Assembled(c, input, built.value);
    var valid := ValidateCompositionPlugins(s.unsigned.plugins);
    if valid.Failure? {
      return Failure(valid.error);
    }
    return if c.snapshot(s) then Success(s) else Failure(SchemaInvalid);
  }

  function AsInputs(plugins: Plugins): seq<Input> {
    Map(AsInput, plugins)
  }

  function RebuildInput(s: Snapshot): SnapshotInput {
    SnapshotInput(s.unsigned.framework, s.unsigned.binding, s.unsigned.evidence, AsInputs(s.unsigned.plugins))
  }

  /** What assertCordisCompositionSnapshot lets pass. */
  ghost predicate Passes(c: Contract, s: Snapshot) {
    var rebuilt := BuildAll(c.descriptor, AsInputs(s.unsigned.plugins));
    c.snapshot(s) && rebuilt.Success? && Accepted(rebuilt.value) && s == Sealed(c, s.unsigned)
  }

  method AssertSnapshot(c: Contract, s: Snapshot) returns (r: Result<(), Fault>)
    ensures r.Success? <==> Passes(c, s)
    ensures r.Failure? ==>
              var rebuilt := BuildAll(c.descriptor, AsInputs(s.unsigned.plugins));
              if !c.snapshot(s) then r.error == SchemaInvalid
              else if rebuilt.Failure? then r.error == rebuilt.error
              else if Accepted(rebuilt.value) then r.error == SnapshotDigestMismatch else Explained(rebuilt.value, r.error)
  {
    hide Accepted, Explained;
    if !c.snapshot(s) {
      return Failure(SchemaInvalid);
    }
    var rebuilt := BuildAll(c.descriptor, AsInputs(s.unsigned.plugins));
    if rebuilt.Failure? {
      return Failure(rebuilt.error);
    }
    var valid := ValidateCompositionPlugins(rebuilt.value);
    if valid.Failure? {
      return Failure(valid.error);
    }
    var digest := c.digest(s.unsigned);
    return if s.digest != digest || s.id != Ascii("cordis:snapshot:") + digest then Failure(SnapshotDigestMismatch) else Success(());
  }

  // ---------- build and assert agree ----------

  /** Every plugin of the list is a built one. */
  ghost predicate Fixed(other: Descriptor -> bool, plugins: Plugins) {
    forall d :: d in plugins ==> BuildDescriptor(other, AsInput(d)) == Success(d)
  }

  lemma {:induction false} BuiltAreFixed(other: Descriptor -> bool, inputs: seq<Input>)
    requires BuildAll(other, inputs).Success?
    ensures Fixed(other, BuildAll(other, inputs).value)
  {
    hide BuildDescriptor;
    if inputs != [] {
      RebuildDescriptor(other, inputs[0]);
      BuiltAreFixed(other, inputs[1..]);
    }
  }

  lemma {:induction false} FixedRebuild(other: Descriptor -> bool, plugins: Plugins)
    requires Fixed(other, plugins)
    ensures BuildAll(other, AsInputs(plugins)) == Success(plugins)
  {
    hide BuildDescriptor;
    if plugins != [] {
      assert plugins[0] in plugins;
      assert AsInputs(plugins)[1..] == AsInputs(plugins[1..]);
      FixedRebuild(other, plugins[1..]);
      assert plugins == [plugins[0]] + plugins[1..];
    }
  }

  lemma BuiltPluginsAreFixed(c: Contract, input: SnapshotInput, s: Snapshot)
    requires Builds(c, input, s)
    ensures Fixed(c.descriptor, s.unsigned.plugins)
  {
    hide Accepted, BuildDescriptor, Sort;
    var built := BuildAll(c.descriptor, input.plugins).value;
    BuiltAreFixed(c.descriptor, input.plugins);
    SameMembers(s.unsigned.plugins, built);
  }

  /** Every snapshot that is built passes the assertion. */
  lemma BuiltPasses(c: Contract, input: SnapshotInput, s: Snapshot)
    requires Builds(c, input, s)
    ensures Passes(c, s)
  {
    hide Accepted, BuildDescriptor, Sort;
    BuiltPluginsAreFixed(c, input, s);
    FixedRebuild(c.descriptor, s.unsigned.plugins);
  }

  /** Building a built snapshot again gives it back. */
  lemma RebuildChangesNothing(c: Contract, input: SnapshotInput, s: Snapshot)
    requires Builds(c, input, s)
    ensures Builds(c, RebuildInput(s), s)
  {
    BuiltPluginsAreFixed(c, input, s);
    FixedRebuild(c.descriptor, s.unsigned.plugins);
    SortSorts(PluginId, BuildAll(c.descriptor, input.plugins).value);
    SortOfSorted(PluginId, s.unsigned.plugins);
    hide Accepted, BuildDescriptor, Sort, BuildAll;
  }

  // ---------- order does not matter ----------

  lemma {:induction false} EquivalentBuildAll(other: Descriptor -> bool, xs: seq<Input>, ys: seq<Input>)
    requires |xs| == |ys| && (forall k :: 0 <= k < |xs| ==> Equivalent(xs[k], ys[k]))
    requires BuildAll(other, xs).Success?
    ensures BuildAll(other, ys) == BuildAll(other, xs)
  {
    hide BuildDescriptor, Equivalent;
    if xs != [] {
      EquivalentInputsBuildAlike(other, xs[0], ys[0]);
      EquivalentBuildAll(other, xs[1..], ys[1..]);
    }
  }

  lemma {:induction false} BuildAllAt(other: Descriptor -> bool, xs: seq<Input>)
    ensures BuildAll(other, xs).Success? <==> forall k :: 0 <= k < |xs| ==> BuildDescriptor(other, xs[k]).Success?
    ensures BuildAll(other, xs).Success? ==> BuildAll(other, xs).value == Map(x => Built(other, x), xs)
  {
    hide BuildDescriptor;
    if xs != [] {
      BuildAllAt(other, xs[1..]);
    }
  }

  /** The built descriptor; where the build fails, anything. */
  function Built(other: Descriptor -> bool, x: Input): Descriptor {
    var r := BuildDescriptor(other, x);
    if r.Success? then r.value else x.given
  }

  lemma {:induction false} MapWithout<A, B>(f: A -> B, ys: seq<A>, x: A)
    requires x in ys
    ensures multiset(Map(f, ys)) == multiset(Map(f, Without(ys, x))) + multiset{f(x)}
  {
    var fs := Map(f, ys[1..]);
    assert Map(f, ys) == [f(ys[0])] + fs;
    if ys[0] != x {
      MapWithout(f, ys[1..], x);
      var r := Without(ys[1..], x);
      assert Without(ys, x)[1..] == r;
      assert Map(f, Without(ys, x)) == [f(ys[0])] + Map(f, r);
    }
  }

  lemma CancelOne<A>(p: multiset<A>, q: multiset<A>, x: A)
    requires p + multiset{x} == q + multiset{x}
    ensures p == q
  {
    assert p == p + multiset{x} - multiset{x};
    assert q == q + multiset{x} - multiset{x};
  }

  lemma MapHead<A, B>(f: A -> B, xs: seq<A>)
    requires xs != []
    ensures multiset(xs) == multiset(xs[1..]) + multiset{xs[0]}
    ensures multiset(Map(f, xs)) == multiset(Map(f, xs[1..])) + multiset{f(xs[0])}
  {
    assert xs == [xs[0]] + xs[1..];
    assert Map(f, xs) == [f(xs[0])] + Map(f, xs[1..]);
  }

  lemma {:induction false} MapMultiset<A, B>(f: A -> B, xs: seq<A>, ys: seq<A>)
    requires multiset(xs) == multiset(ys)
    ensures multiset(Map(f, xs)) == multiset(Map(f, ys))
    decreases |xs|
  {
    if xs == [] {
      assert |multiset(ys)| == |ys|;
    } else {
      hide Map;
      var x := xs[0];
      MapHead(f, xs);
      assert x in multiset(ys);
      MapWithout(f, ys, x);
      CancelOne(multiset(xs[1..]), multiset(Without(ys, x)), x);
      MapMultiset(f, xs[1..], Without(ys, x));
    }
  }

  lemma ReorderedBuildAll(other: Descriptor -> bool, xs: seq<Input>, ys: seq<Input>)
    requires multiset(xs) == multiset(ys) && BuildAll(other, xs).Success?
    ensures BuildAll(other, ys).Success? && multiset(BuildAll(other, ys).value) == multiset(BuildAll(other, xs).value)
  {
    BuildAllAt(other, xs);
    BuildAllAt(other, ys);
    SameMembers(xs, ys);
    MapMultiset(x => Built(other, x), xs, ys);
    hide BuildAll, BuildDescriptor, Map, Built;
    forall k | 0 <= k < |ys|
      ensures BuildDescriptor(other, ys[k]).Success?
    {
      assert ys[k] in xs;
    }
  }

  lemma AcceptedIdsTell(plugins: Plugins)
    requires Accepted(plugins)
    ensures KeysTell(PluginId, plugins)
  {
    hide OneProvider, InjectionsResolved;
  }

  /**
    The digest, and with it the whole snapshot, is unchanged by reordering plugins, by reordering
    or repeating provides, API versions and forbidden authorities, and by reordering injections.
    middle is a's plugins in b's order.
    */
  lemma OrderDoesNotMatter(c: Contract, a: SnapshotInput, middle: seq<Input>, b: SnapshotInput, s: Snapshot)
    requires Builds(c, a, s)
    requires b == a.(plugins := b.plugins) && multiset(a.plugins) == multiset(middle)
    requires |middle| == |b.plugins| && forall k :: 0 <= k < |middle| ==> Equivalent(middle[k], b.plugins[k])
    ensures Builds(c, b, s)
  {
    var built := BuildAll(c.descriptor, a.plugins).value;
    ReorderedBuildAll(c.descriptor, a.plugins, middle);
    EquivalentBuildAll(c.descriptor, middle, b.plugins);
    var sorted := s.unsigned.plugins;
    AcceptedIdsTell(sorted);
    SameMembers(sorted, built);
    SortOrderIrrelevant(PluginId, built, BuildAll(c.descriptor, b.plugins).value);
    hide Accepted, BuildDescriptor, Sort, BuildAll, Equivalent;
  }
}
