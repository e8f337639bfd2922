/** The build selection helpers of OpenShift's build graph: which builds of a
    build config's graph neighbourhood are its own, the newest-first order of
    builds, the last successful and last unsuccessful build and the builds
    still active, and the latest build of a config. The graph is an input:
    the successor nodes of the config along its build edges, in the order the
    graph returns them. Creation timestamps are integers. */
module BuildGraph {
  import opened Wrappers

  /** The label a build carries with the name of its build config. */
  const BuildConfigLabel: string := "openshift.io/build-config.name"
  /** The label older builds carry instead. */
  const BuildConfigLabelDeprecated: string := "buildconfig"

  /** Status.Phase of a build; OtherPhase is any value not named here. */
  datatype Phase = New | Pending | Running | Complete | Failed | Error | Cancelled | OtherPhase(name: string)

  /** A build, as far as these helpers read it; labels is None for a nil map. */
  datatype Build = Build(
    name: string,
    labels: Option<map<string, string>>,
    creationTimestamp: int,
    phase: Phase)

  datatype BuildConfig = BuildConfig(name: string)

  /** A node of the graph: a build node or a node of another kind. */
  datatype Node = BuildNode(build: Build) | OtherNode

  // ---------------------------------------------------------------------------
  // Ownership, order, namespaces

  /** Go's map lookup: the value under the key, "" when it is absent. */
  function Label(labels: map<string, string>, key: string): string
  {
    if key in labels then labels[key] else ""
  }

  /** belongsToBuildConfig */
  function BelongsToBuildConfig(config: BuildConfig, b: Build): (r: bool)
    ensures b.labels.None? ==> !r
    ensures b.labels.Some? ==>
              (r <==> Label(b.labels.value, BuildConfigLabel) == config.name
                      || Label(b.labels.value, BuildConfigLabelDeprecated) == config.name)
  {
    if b.labels.None? then false
    else if Label(b.labels.value, BuildConfigLabel) == config.name then true
    else if Label(b.labels.value, BuildConfigLabelDeprecated) == config.name then true
    else false
  }

  /** A build labelled with a config's name under either label belongs to
      it; a build with neither label belongs to no config with a name. */
  lemma BelongsByLabel(config: BuildConfig, b: Build)
    requires b.labels.Some?
    ensures BuildConfigLabel in b.labels.value && b.labels.value[BuildConfigLabel] == config.name
            ==> BelongsToBuildConfig(config, b)
    ensures BuildConfigLabelDeprecated in b.labels.value && b.labels.value[BuildConfigLabelDeprecated] == config.name
            ==> BelongsToBuildConfig(config, b)
    ensures BuildConfigLabel !in b.labels.value && BuildConfigLabelDeprecated !in b.labels.value
            ==> (BelongsToBuildConfig(config, b) <==> config.name == "")
  {
  }

  /** time.Time.After on creation timestamps. */
  predicate After(a: Build, b: Build)
  {
    a.creationTimestamp > b.creationTimestamp
  }

  /** RecentBuildReferences.Less: element i sorts before element j when it
      was created later. */
  predicate Less(m: seq<Build>, i: int, j: int)
    requires 0 <= i < |m| && 0 <= j < |m|
  {
    After(m[i], m[j])
  }

  /** Newest first: no element was created later than one before it. */
  predicate NewestFirst(s: seq<Build>)
  {
    forall i, j :: 0 <= i < j < |s| ==> s[i].creationTimestamp >= s[j].creationTimestamp
  }

  /** Less is a strict order, and a list is newest-first exactly when no
      later element is Less than an earlier one. */
  lemma LessIsStrictOrder(m: seq<Build>)
    ensures forall i :: 0 <= i < |m| ==> !Less(m, i, i)
    ensures forall i, j, k :: 0 <= i < |m| && 0 <= j < |m| && 0 <= k < |m| && Less(m, i, j) && Less(m, j, k)
              ==> Less(m, i, k)
    ensures NewestFirst(m) <==> forall i, j :: 0 <= i < j < |m| ==> !Less(m, j, i)
  {
    if forall i, j :: 0 <= i < j < |m| ==> !Less(m, j, i) {
      forall i, j | 0 <= i < j < |m| ensures m[i].creationTimestamp >= m[j].creationTimestamp {
        assert !Less(m, j, i);
      }
    }
  }

  /** defaultNamespace */
  function DefaultNamespace(value: string, defaultValue: string): (r: string)
    ensures |value| == 0 ==> r == defaultValue
    ensures |value| > 0 ==> r == value
  {
    if |value| == 0 then defaultValue else value
  }

  /** The default is used exactly when the value is empty, unless both are
      the same string. */
  lemma DefaultIffEmpty(value: string, defaultValue: string)
    requires value != defaultValue
    ensures DefaultNamespace(value, defaultValue) == defaultValue <==> value == ""
  {
  }

  // ---------------------------------------------------------------------------
  // Owned builds

  /** The builds among the successors that belong to the config, in order. */
  function OwnedBuilds(config: BuildConfig, nodes: seq<Node>): (r: seq<Build>)
    requires forall k :: 0 <= k < |nodes| ==> nodes[k].BuildNode?
    ensures |r| <= |nodes|
    ensures forall b :: b in r <==> BuildNode(b) in nodes && BelongsToBuildConfig(config, b)
  {
    if |nodes| == 0 then []
    else
      var n := |nodes| - 1;
      var rest := OwnedBuilds(config, nodes[..n]);
      assert nodes == nodes[..n] + [nodes[n]];
      rest + (if BelongsToBuildConfig(config, nodes[n].build) then [nodes[n].build] else [])
  }

  /** Each owned build occurs as often as its node among the successors. */
  lemma {:induction false} OwnedBuildsCounts(config: BuildConfig, nodes: seq<Node>)
    requires forall k :: 0 <= k < |nodes| ==> nodes[k].BuildNode?
    ensures forall b :: multiset(OwnedBuilds(config, nodes))[b]
                        == if BelongsToBuildConfig(config, b) then multiset(nodes)[BuildNode(b)] else 0
  {
    if |nodes| > 0 {
      var n := |nodes| - 1;
      OwnedBuildsCounts(config, nodes[..n]);
      assert nodes == nodes[..n] + [nodes[n]];
      assert multiset(nodes) == multiset(nodes[..n]) + multiset([nodes[n]]);
    }
  }

  /** The first loop of RelevantBuilds. */
  method CollectOwned(config: BuildConfig, nodes: seq<Node>) returns (allBuilds: seq<Build>)
    requires forall k :: 0 <= k < |nodes| ==> nodes[k].BuildNode?
    ensures allBuilds == OwnedBuilds(config, nodes)
  {
    allBuilds := [];
    var i := 0;
    while i < |nodes|
      invariant i <= |nodes|
      invariant allBuilds == OwnedBuilds(config, nodes[..i])
    {
      assert nodes[..i + 1][..i] == nodes[..i];
      var buildNode := nodes[i].build;
      if BelongsToBuildConfig(config, buildNode) {
        allBuilds := allBuilds + [buildNode];
      }
      i := i + 1;
    }
    assert nodes[..i] == nodes;
  }

  // ---------------------------------------------------------------------------
  // Sorting

  /** The first i builds of s are newest first. */
  predicate SortedPrefix(s: seq<Build>, i: int)
    requires 0 <= i <= |s|
  {
    forall k, l :: 0 <= k < l < i ==> s[k].creationTimestamp >= s[l].creationTimestamp
  }

  /** While a[i] moves to the front it sits at j: the first i + 1 builds
      without it are newest first, and its neighbours around j are in order. */
  predicate Inserting(s: seq<Build>, i: int, j: int)
  {
    0 <= j <= i < |s|
    && (forall k, l :: 0 <= k < l <= i && l != j && k != j ==> s[k].creationTimestamp >= s[l].creationTimestamp)
    && (forall l :: j < l <= i ==> s[j].creationTimestamp >= s[l].creationTimestamp)
    && (0 < j < i ==> s[j - 1].creationTimestamp >= s[j + 1].creationTimestamp)
  }

  lemma InsertingStart(s: seq<Build>, i: int)
    requires 0 <= i < |s| && SortedPrefix(s, i)
    ensures Inserting(s, i, i)
  {
  }

  lemma InsertingStep(s: seq<Build>, i: int, j: int)
    requires Inserting(s, i, j) && 0 < j && After(s[j], s[j - 1])
    ensures Inserting(s[j - 1 := s[j]][j := s[j - 1]], i, j - 1)
    ensures multiset(s[j - 1 := s[j]][j := s[j - 1]]) == multiset(s)
  {
  }

  lemma InsertingDone(s: seq<Build>, i: int, j: int)
    requires Inserting(s, i, j) && (j == 0 || !After(s[j], s[j - 1]))
    ensures SortedPrefix(s, i + 1)
  {
  }

  /** One pass of the insertion sort: move a[i] towards the front, by Swap,
      while it is Less than its predecessor. */
  method InsertNewest(a: array<Build>, i: int)
    requires 0 <= i < a.Length && SortedPrefix(a[..], i)
    modifies a
    ensures SortedPrefix(a[..], i + 1)
    ensures multiset(a[..]) == multiset(old(a[..]))
  {
    InsertingStart(a[..], i);
    var j := i;
    while j > 0 && After(a[j], a[j - 1])
      invariant Inserting(a[..], i, j)
      invariant multiset(a[..]) == multiset(old(a[..]))
    {
      ghost var before := a[..];
      a[j - 1], a[j] := a[j], a[j - 1];
      assert a[..] == before[j - 1 := before[j]][j := before[j - 1]];
      InsertingStep(before, i, j);
      j := j - 1;
    }
    InsertingDone(a[..], i, j);
  }

  /** sort.Sort(RecentBuildReferences(allBuilds)), as an insertion sort by
      Less and Swap. */
  method SortNewestFirst(a: array<Build>)
    modifies a
    ensures NewestFirst(a[..])
    ensures multiset(a[..]) == multiset(old(a[..]))
  {
    var i := 0;
    while i < a.Length
      invariant 0 <= i <= a.Length
      invariant SortedPrefix(a[..], i)
      invariant multiset(a[..]) == multiset(old(a[..]))
    {
      InsertNewest(a, i);
      i := i + 1;
    }
  }

  // ---------------------------------------------------------------------------
  // Classification

  /** Where RelevantBuilds puts a build of a phase: Complete builds are
      successful, Failed, Cancelled and Error builds unsuccessful, and every
      other phase active. */
  datatype Outcome = Successful | Unsuccessful | StillActive

  function OutcomeOf(p: Phase): Outcome
  {
    match p
    case Complete => Successful
    case Failed | Cancelled | Error => Unsuccessful
    case _ => StillActive
  }

  /** Some build of the list has the outcome. */
  predicate Occurs(s: seq<Build>, o: Outcome)
  {
    exists i :: 0 <= i < |s| && OutcomeOf(s[i].phase) == o
  }

  /** Build i is the first of the list with the outcome. */
  predicate IsFirstOf(s: seq<Build>, i: int, o: Outcome)
  {
    0 <= i < |s| && OutcomeOf(s[i].phase) == o
    && forall j :: 0 <= j < i ==> OutcomeOf(s[j].phase) != o
  }

  /** The three results of RelevantBuilds. */
  datatype Relevant = Relevant(lastSuccessful: Option<Build>, lastUnsuccessful: Option<Build>, active: seq<Build>)
  {
    /** The singled-out build of a terminal outcome. */
    function Slot(o: Outcome): Option<Build>
      requires o != StillActive
    {
      if o == Successful then lastSuccessful else lastUnsuccessful
    }
  }

  /** The second loop of RelevantBuilds over a list: the first build of each
      terminal outcome is kept, and every active build appended. */
  function Classify(s: seq<Build>): (r: Relevant)
    ensures |r.active| <= |s|
  {
    if |s| == 0 then Relevant(None, None, [])
    else
      var n := |s| - 1;
      var r := Classify(s[..n]);
      var b := s[n];
      match OutcomeOf(b.phase)
      case Successful => if r.lastSuccessful.None? then r.(lastSuccessful := Some(b)) else r
      case Unsuccessful => if r.lastUnsuccessful.None? then r.(lastUnsuccessful := Some(b)) else r
      case StillActive => r.(active := r.active + [b])
  }

  /** One step of Classify, seen from the slot of a terminal outcome. */
  lemma SlotSnoc(s: seq<Build>, o: Outcome)
    requires o != StillActive && |s| > 0
    ensures var prev := Classify(s[..|s| - 1]).Slot(o);
            Classify(s).Slot(o)
            == if prev.Some? then prev else if OutcomeOf(s[|s| - 1].phase) == o then Some(s[|s| - 1]) else None
  {
  }

  /** The singled-out build of an outcome is the first build of the list with
      that outcome, and there is one exactly when the outcome occurs. */
  lemma {:induction false} ClassifyPicksFirst(s: seq<Build>, o: Outcome)
    requires o != StillActive
    ensures Classify(s).Slot(o).Some? <==> Occurs(s, o)
    ensures Classify(s).Slot(o).Some? ==> exists i :: IsFirstOf(s, i, o) && s[i] == Classify(s).Slot(o).value
    decreases |s|
  {
    if |s| > 0 {
      var n := |s| - 1;
      var prefix := s[..n];
      ClassifyPicksFirst(prefix, o);
      SlotSnoc(s, o);
      var prev := Classify(prefix).Slot(o);
      assert forall j :: 0 <= j < n ==> prefix[j] == s[j];
      if prev.Some? {
        var i :| IsFirstOf(prefix, i, o) && prefix[i] == prev.value;
        assert IsFirstOf(s, i, o);
      } else if OutcomeOf(s[n].phase) == o {
        assert IsFirstOf(s, n, o);
      } else {
        assert !Occurs(s, o);
      }
    }
  }

  /** The terminal builds neither singled out nor active: every build of a
      terminal outcome after the first of that outcome. */
  function Superseded(s: seq<Build>): seq<Build>
  {
    if |s| == 0 then []
    else
      var n := |s| - 1;
      var r := Classify(s[..n]);
      var b := s[n];
      var o := OutcomeOf(b.phase);
      Superseded(s[..n]) + (if o != StillActive && r.Slot(o).Some? then [b] else [])
  }

  function OptionSet(o: Option<Build>): multiset<Build>
  {
    if o.Some? then multiset{o.value} else multiset{}
  }

  /** The list's builds are the singled-out ones, the active ones and the
      superseded ones, each counted once. */
  predicate Accounted(s: seq<Build>, r: Relevant, superseded: seq<Build>)
  {
    multiset(s) == OptionSet(r.lastSuccessful) + OptionSet(r.lastUnsuccessful)
                   + multiset(r.active) + multiset(superseded)
  }

  lemma AccountActive(s: seq<Build>, r: Relevant, superseded: seq<Build>, x: Build)
    requires Accounted(s, r, superseded)
    ensures Accounted(s + [x], r.(active := r.active + [x]), superseded)
  {
    assert multiset(s + [x]) == multiset(s) + multiset{x};
    assert multiset(r.active + [x]) == multiset(r.active) + multiset{x};
  }

  lemma AccountSuperseded(s: seq<Build>, r: Relevant, superseded: seq<Build>, x: Build)
    requires Accounted(s, r, superseded)
    ensures Accounted(s + [x], r, superseded + [x])
  {
    assert multiset(s + [x]) == multiset(s) + multiset{x};
    assert multiset(superseded + [x]) == multiset(superseded) + multiset{x};
  }

  lemma AccountSuccessful(s: seq<Build>, r: Relevant, superseded: seq<Build>, x: Build)
    requires Accounted(s, r, superseded) && r.lastSuccessful.None?
    ensures Accounted(s + [x], r.(lastSuccessful := Some(x)), superseded)
  {
    assert multiset(s + [x]) == multiset(s) + multiset{x};
  }

  lemma AccountUnsuccessful(s: seq<Build>, r: Relevant, superseded: seq<Build>, x: Build)
    requires Accounted(s, r, superseded) && r.lastUnsuccessful.None?
    ensures Accounted(s + [x], r.(lastUnsuccessful := Some(x)), superseded)
  {
    assert multiset(s + [x]) == multiset(s) + multiset{x};
  }

  /** Every build of the list is accounted for exactly once: it is the last
      successful one, the last unsuccessful one, active, or superseded by a
      newer build of the same outcome. */
  lemma {:induction false} ClassifyAccounts(s: seq<Build>)
    ensures Accounted(s, Classify(s), Superseded(s))
    decreases |s|
  {
    if |s| > 0 {
      var n := |s| - 1;
      var prefix := s[..n];
      ClassifyAccounts(prefix);
      assert s == prefix + [s[n]];
      var r := Classify(prefix);
      var sup := Superseded(prefix);
      var x := s[n];
      var o := OutcomeOf(x.phase);
      if o == StillActive {
        assert Classify(s) == r.(active := r.active + [x]) && Superseded(s) == sup;
        AccountActive(prefix, r, sup, x);
      } else if r.Slot(o).Some? {
        assert Classify(s) == r && Superseded(s) == sup + [x];
        AccountSuperseded(prefix, r, sup, x);
      } else if o == Successful {
        assert Classify(s) == r.(lastSuccessful := Some(x)) && Superseded(s) == sup;
        AccountSuccessful(prefix, r, sup, x);
      } else {
        assert Classify(s) == r.(lastUnsuccessful := Some(x)) && Superseded(s) == sup;
        AccountUnsuccessful(prefix, r, sup, x);
      }
    }
  }

  /** Only terminal builds are superseded: no active build is lost. */
  lemma {:induction false} SupersededAreTerminal(s: seq<Build>)
    ensures forall b :: b in Superseded(s) ==> OutcomeOf(b.phase) != StillActive
    decreases |s|
  {
    if |s| > 0 {
      SupersededAreTerminal(s[..|s| - 1]);
    }
  }

  /** Which builds are active, and how often, depends on the builds only, not
      on their order. */
  lemma {:induction false} ActiveCounts(s: seq<Build>, b: Build)
    ensures multiset(Classify(s).active)[b] == if OutcomeOf(b.phase) == StillActive then multiset(s)[b] else 0
    decreases |s|
  {
    if |s| > 0 {
      var n := |s| - 1;
      ActiveCounts(s[..n], b);
      assert s == s[..n] + [s[n]];
    }
  }

  /** Every active build is a build of the list. */
  lemma {:induction false} ActiveFromList(s: seq<Build>)
    ensures forall b :: b in Classify(s).active ==> b in s
    decreases |s|
  {
    if |s| > 0 {
      var n := |s| - 1;
      ActiveFromList(s[..n]);
      assert forall b :: b in s[..n] ==> b in s;
    }
  }

  lemma NewestFirstSnoc(p: seq<Build>, x: Build)
    requires NewestFirst(p)
    requires forall b :: b in p ==> b.creationTimestamp >= x.creationTimestamp
    ensures NewestFirst(p + [x])
  {
    var q := p + [x];
    forall i, j | 0 <= i < j < |q| ensures q[i].creationTimestamp >= q[j].creationTimestamp {
      if j == |p| {
        assert q[i] in p;
      }
    }
  }

  /** The active builds keep the order of the list: newest first. */
  lemma {:induction false} ActiveNewestFirst(s: seq<Build>)
    requires NewestFirst(s)
    ensures NewestFirst(Classify(s).active)
    decreases |s|
  {
    if |s| > 0 {
      var n := |s| - 1;
      var prefix := s[..n];
      assert NewestFirst(prefix);
      ActiveNewestFirst(prefix);
      var prev := Classify(prefix).active;
      if OutcomeOf(s[n].phase) == StillActive {
        ActiveFromList(prefix);
        forall b | b in prev ensures b.creationTimestamp >= s[n].creationTimestamp {
          var k :| 0 <= k < n && prefix[k] == b;
        }
        NewestFirstSnoc(prev, s[n]);
      }
    }
  }

  /** In a newest-first list the first build of an outcome is a newest one of
      that outcome. */
  lemma FirstIsNewest(s: seq<Build>, i: int, o: Outcome)
    requires NewestFirst(s) && IsFirstOf(s, i, o)
    ensures forall j :: 0 <= j < |s| && OutcomeOf(s[j].phase) == o ==> s[j].creationTimestamp <= s[i].creationTimestamp
  {
  }

  /** The classification loop of RelevantBuilds. */
  method ClassifyBuilds(allBuilds: seq<Build>) returns (r: Relevant)
    ensures r == Classify(allBuilds)
  {
    var lastSuccessfulBuild: Option<Build> := None;
    var lastUnsuccessfulBuild: Option<Build> := None;
    var activeBuilds: seq<Build> := [];
    var i := 0;
    while i < |allBuilds|
      invariant i <= |allBuilds|
      invariant Relevant(lastSuccessfulBuild, lastUnsuccessfulBuild, activeBuilds) == Classify(allBuilds[..i])
    {
      assert allBuilds[..i + 1][..i] == allBuilds[..i];
      var b := allBuilds[i];
      match b.phase {
        case Complete =>
          if lastSuccessfulBuild.None? {
            lastSuccessfulBuild := Some(b);
          }
        case Failed | Cancelled | Error =>
          if lastUnsuccessfulBuild.None? {
            lastUnsuccessfulBuild := Some(b);
          }
        case _ =>
          activeBuilds := activeBuilds + [b];
      }
      i := i + 1;
    }
    assert allBuilds[..i] == allBuilds;
    r := Relevant(lastSuccessfulBuild, lastUnsuccessfulBuild, activeBuilds);
  }

  /** RelevantBuilds over the successors of the config along its build
      edges; every such successor is a build node (the source's type
      assertion panics otherwise). The last successful build is a Complete
      owned build no other Complete owned build is newer than, and likewise
      the last unsuccessful one; the active builds are exactly the owned
      builds that are neither, each as often as it is owned, newest first. */
  method RelevantBuilds(config: BuildConfig, nodes: seq<Node>) returns (r: Relevant)
    requires forall k :: 0 <= k < |nodes| ==> nodes[k].BuildNode?
    ensures Chosen(OwnedBuilds(config, nodes), r, Successful)
    ensures Chosen(OwnedBuilds(config, nodes), r, Unsuccessful)
    ensures forall b :: multiset(r.active)[b] ==
              if OutcomeOf(b.phase) == StillActive then multiset(OwnedBuilds(config, nodes))[b] else 0
    ensures NewestFirst(r.active)
    ensures OwnedBuilds(config, nodes) == [] ==> r == Relevant(None, None, [])
  {
    var allBuilds := CollectOwned(config, nodes);
    if |allBuilds| == 0 {
      return Relevant(None, None, []);
    }
    var a := new Build[|allBuilds|](k requires 0 <= k < |allBuilds| => allBuilds[k]);
    assert a[..] == allBuilds;
    SortNewestFirst(a);
    var sorted := a[..];
    r := ClassifyBuilds(sorted);
    RelevantOfSorted(allBuilds, sorted, Successful);
    RelevantOfSorted(allBuilds, sorted, Unsuccessful);
    forall b ensures multiset(r.active)[b] == if OutcomeOf(b.phase) == StillActive then multiset(allBuilds)[b] else 0 {
      ActiveCounts(sorted, b);
    }
    ActiveNewestFirst(sorted);
  }

  /** The singled-out build of a terminal outcome, as RelevantBuilds promises
      it: there is one exactly when an owned build has the outcome, and then it
      is an owned build of the outcome no other one of which is newer. */
  predicate Chosen(owned: seq<Build>, r: Relevant, o: Outcome)
    requires o != StillActive
  {
    && (r.Slot(o).Some? <==> exists b :: b in owned && OutcomeOf(b.phase) == o)
    && (r.Slot(o).Some? ==>
          r.Slot(o).value in owned && OutcomeOf(r.Slot(o).value.phase) == o
          && forall b :: b in owned && OutcomeOf(b.phase) == o ==>
               b.creationTimestamp <= r.Slot(o).value.creationTimestamp)
  }

  /** The classification of a newest-first order of the owned builds chooses
      the newest build of each terminal outcome. */
  lemma RelevantOfSorted(owned: seq<Build>, sorted: seq<Build>, o: Outcome)
    requires o != StillActive
    requires NewestFirst(sorted) && multiset(sorted) == multiset(owned)
    ensures Chosen(owned, Classify(sorted), o)
  {
    var r := Classify(sorted);
    assert forall b :: b in owned <==> b in sorted by {
      forall b ensures b in owned <==> b in sorted {
        assert b in owned <==> multiset(owned)[b] > 0;
        assert b in sorted <==> multiset(sorted)[b] > 0;
      }
    }
    ClassifyPicksFirst(sorted, o);
    if r.Slot(o).Some? {
      var i :| IsFirstOf(sorted, i, o) && sorted[i] == r.Slot(o).value;
      FirstIsNewest(sorted, i, o);
    } else {
      assert !Occurs(sorted, o);
    }
  }

  // ---------------------------------------------------------------------------
  // Latest build

  /** GetLatestBuild over the successors of a config along its build edges:
      None for none; otherwise the first node, which must be a build node
      (the source's type assertion panics otherwise), replaced by each later
      build node created strictly after the current choice. The result is a
      newest build node, the first listed among the newest. */
  method GetLatestBuild(nodes: seq<Node>) returns (latest: Option<Build>)
    requires |nodes| > 0 ==> nodes[0].BuildNode?
    ensures latest.None? <==> |nodes| == 0
    ensures latest.Some? ==>
              exists i :: 0 <= i < |nodes| && nodes[i] == BuildNode(latest.value)
                          && forall j :: 0 <= j < i && nodes[j].BuildNode? ==>
                               nodes[j].build.creationTimestamp < latest.value.creationTimestamp
    ensures latest.Some? ==>
              forall j :: 0 <= j < |nodes| && nodes[j].BuildNode? ==>
                nodes[j].build.creationTimestamp <= latest.value.creationTimestamp
  {
    if |nodes| == 0 {
      return None;
    }
    var latestBuild := nodes[0].build;
    ghost var at := 0;
    var i := 1;
    while i < |nodes|
      invariant 1 <= i <= |nodes|
      invariant 0 <= at < i && nodes[at] == BuildNode(latestBuild)
      invariant forall j :: 0 <= j < at && nodes[j].BuildNode? ==>
                  nodes[j].build.creationTimestamp < latestBuild.creationTimestamp
      invariant forall j :: 0 <= j < i && nodes[j].BuildNode? ==>
                  nodes[j].build.creationTimestamp <= latestBuild.creationTimestamp
    {
      if nodes[i].BuildNode? {
        var build := nodes[i].build;
        if latestBuild.creationTimestamp < build.creationTimestamp {
          latestBuild := build;
          at := i;
        }
      }
      i := i + 1;
    }
    return Some(latestBuild);
  }
}
