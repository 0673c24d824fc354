/**
 Dependency-ordered start of outbounds (adapter/outbound/manager.go) and DNS transports
 (dns/transport_manager.go): passes over the list start whatever has all its dependencies started,
 until everything is started or a pass makes no progress and the obstacle is diagnosed.
 */
module StartOrder {
  import opened Common

  /** An outbound, endpoint or transport; `startOk` is the outcome of its own Start call. */
  datatype Node = Node(tag: Tag, dependencies: seq<Tag>, startOk: bool)

  datatype Outcome =
    | Started
    | StartFailed(tag: Tag)
    | Circular(tree: seq<Tag>, again: Tag)
    | NotFound(dependency: Tag, of: Tag)
    | NilDereference

  ghost function TagList(nodes: seq<Node>): (r: seq<Tag>)
  {
    seq(|nodes|, i requires 0 <= i < |nodes| => nodes[i].tag)
  }

  ghost function Tags(nodes: seq<Node>): (r: set<Tag>)
  {
    set t | t in TagList(nodes)
  }

  ghost predicate DistinctTags(nodes: seq<Node>)
  {
    Distinct(TagList(nodes))
  }

  /** Every dependency is the tag of some node of the list. */
  ghost predicate Closed(nodes: seq<Node>)
  {
    forall n, d :: n in nodes && d in n.dependencies ==> d in Tags(nodes)
  }

  ghost predicate AllStartsSucceed(nodes: seq<Node>)
  {
    forall n :: n in nodes ==> n.startOk
  }

  ghost predicate DependsOn(nodes: seq<Node>, a: Tag, b: Tag)
  {
    exists n :: n in nodes && n.tag == a && b in n.dependencies
  }

  /** A nonempty round of tags, each depending on the next and the last on the first. */
  ghost predicate IsCycle(nodes: seq<Node>, round: seq<Tag>)
  {
    && round != []
    && (forall i :: 0 <= i < |round| - 1 ==> DependsOn(nodes, round[i], round[i + 1]))
    && DependsOn(nodes, round[|round| - 1], round[0])
  }

  ghost predicate HasCycle(nodes: seq<Node>)
  {
    exists round :: IsCycle(nodes, round)
  }

  /** What a list needs so that all of it can be started. */
  ghost predicate WellFormed(nodes: seq<Node>)
  {
    DistinctTags(nodes) && Closed(nodes) && !HasCycle(nodes) && AllStartsSucceed(nodes)
  }

  /** Every node of the log, an index into `nodes`, comes after nodes carrying each of its dependencies. */
  ghost predicate DependenciesFirst(nodes: seq<Node>, log: seq<nat>)
  {
    && (forall p :: 0 <= p < |log| ==> log[p] < |nodes|)
    && (forall p, d :: 0 <= p < |log| && d in nodes[log[p]].dependencies ==>
         exists q :: 0 <= q < p && nodes[log[q]].tag == d)
  }

  /** The set `started` holds the tags of the log, and no tag was started twice. */
  ghost predicate Records(nodes: seq<Node>, log: seq<nat>, started: set<Tag>)
  {
    && (forall p :: 0 <= p < |log| ==> log[p] < |nodes|)
    && (forall t :: t in started <==> exists p :: 0 <= p < |log| && nodes[log[p]].tag == t)
    && (forall p, q :: 0 <= p < q < |log| ==> nodes[log[p]].tag != nodes[log[q]].tag)
    && |started| == |log|
  }

  /** Every start in the log succeeded. */
  ghost predicate Healthy(nodes: seq<Node>, log: seq<nat>)
  {
    forall p :: 0 <= p < |log| ==> log[p] < |nodes| && nodes[log[p]].startOk
  }

  /** A first node without dependencies is the first to be started. */
  ghost predicate BeginsFirst(nodes: seq<Node>, log: seq<nat>)
  {
    nodes != [] && nodes[0].dependencies == [] && log != [] ==> log[0] == 0
  }

  predicate Ready(node: Node, started: set<Tag>)
  {
    forall d :: d in node.dependencies ==> d in started
  }

  /** No pass can start anything more: whatever is not started waits for something not started. */
  ghost predicate Stuck(nodes: seq<Node>, started: set<Tag>)
  {
    forall n :: n in nodes && n.tag !in started ==> !Ready(n, started)
  }

  /** Some sequence of starts, each after its dependencies, starts the tag. */
  ghost predicate CanStart(nodes: seq<Node>, t: Tag)
  {
    exists log: seq<nat>, p: nat :: DependenciesFirst(nodes, log) && p < |log| && nodes[log[p]].tag == t
  }

  /** The tags that can be started at all, whatever the order of the list. */
  ghost function Startable(nodes: seq<Node>): (r: set<Tag>)
  {
    set t | t in Tags(nodes) && CanStart(nodes, t)
  }

  /** The node the diagnosis begins with. */
  ghost predicate IsFirstUnstarted(nodes: seq<Node>, started: set<Tag>, i: nat)
  {
    i < |nodes| && nodes[i].tag !in started && forall j :: 0 <= j < i ==> nodes[j].tag in started
  }

  /** The first dependency that is not started, or NO_TAG as common.Find answers. */
  function Problem(dependencies: seq<Tag>, started: set<Tag>): (r: Tag)
    ensures (r in dependencies && r !in started) || (r == NO_TAG && forall d :: d in dependencies ==> d in started)
  {
    if dependencies == [] then NO_TAG
    else if dependencies[0] !in started then dependencies[0]
    else Problem(dependencies[1..], started)
  }

  /** Of several dependencies that are not started, the problem is the first. */
  lemma {:induction false} ProblemIsFirst(dependencies: seq<Tag>, started: set<Tag>, i: nat)
    requires i < |dependencies| && dependencies[i] !in started
    requires forall j :: 0 <= j < i ==> dependencies[j] in started
    ensures Problem(dependencies, started) == dependencies[i]
    decreases i
  {
    if i > 0 {
      assert dependencies[0] in started;
      ProblemIsFirst(dependencies[1..], started, i - 1);
    }
  }

  /** The recursive diagnosis, following unstarted dependencies through the tag registry. */
  function Lint(started: set<Tag>, registry: map<Tag, Node>, tree: seq<Tag>, current: Node): (r: Outcome)
    decreases registry.Keys - set t | t in tree
  {
    var problem := Problem(current.dependencies, started);
    if problem in tree then Circular(tree, problem)
    else if problem !in registry then NotFound(problem, current.tag)
    else
      assert problem in registry.Keys - set t | t in tree;
      assert problem !in registry.Keys - set t | t in tree + [problem];
      Lint(started, registry, tree + [problem], registry[problem])
  }

  // ---------------------------------------------------------------------------------------------
  // A complete start refutes cycles; a stuck pass over a closed list exhibits one.
  // ---------------------------------------------------------------------------------------------

  /** Position of a tag in the log. */
  ghost function Rank(nodes: seq<Node>, log: seq<nat>, tag: Tag): (r: nat)
    requires forall p :: 0 <= p < |log| ==> log[p] < |nodes|
    requires exists p :: 0 <= p < |log| && nodes[log[p]].tag == tag
    ensures r < |log| && nodes[log[r]].tag == tag
  {
    var p :| 0 <= p < |log| && nodes[log[p]].tag == tag;
    p
  }

  lemma {:induction false} RankDrops(nodes: seq<Node>, log: seq<nat>, started: set<Tag>, a: Tag, b: Tag)
    requires Records(nodes, log, started) && DependenciesFirst(nodes, log)
    requires DistinctTags(nodes) && Tags(nodes) <= started
    requires DependsOn(nodes, a, b)
    ensures a in started && b in started
    ensures Rank(nodes, log, b) < Rank(nodes, log, a)
  {
    var n :| n in nodes && n.tag == a && b in n.dependencies;
    var i :| 0 <= i < |nodes| && nodes[i] == n;
    assert TagList(nodes)[i] == a;
    assert a in Tags(nodes) && a in started;
    var p := Rank(nodes, log, a);
    assert log[p] == i by {
      if log[p] < i {
        DistinctIndices(TagList(nodes), log[p], i);
      } else if i < log[p] {
        DistinctIndices(TagList(nodes), i, log[p]);
      }
    }
    var q :| 0 <= q < p && nodes[log[q]].tag == b;
  }

  lemma {:induction false} RankDropsAlong(nodes: seq<Node>, log: seq<nat>, started: set<Tag>,
                                          round: seq<Tag>, k: nat)
    requires Records(nodes, log, started) && DependenciesFirst(nodes, log)
    requires DistinctTags(nodes) && Tags(nodes) <= started
    requires IsCycle(nodes, round) && k < |round|
    ensures round[0] in started && round[k] in started
    ensures Rank(nodes, log, round[k]) <= Rank(nodes, log, round[0])
    decreases k
  {
    RankDrops(nodes, log, started, round[|round| - 1], round[0]);
    if k > 0 {
      RankDropsAlong(nodes, log, started, round, k - 1);
      RankDrops(nodes, log, started, round[k - 1], round[k]);
    }
  }

  lemma {:induction false} CompleteStartHasNoCycle(nodes: seq<Node>, log: seq<nat>, started: set<Tag>)
    requires Records(nodes, log, started) && DependenciesFirst(nodes, log)
    requires DistinctTags(nodes) && Tags(nodes) <= started
    ensures !HasCycle(nodes)
  {
    forall round | IsCycle(nodes, round)
      ensures false
    {
      RankDropsAlong(nodes, log, started, round, |round| - 1);
      RankDrops(nodes, log, started, round[|round| - 1], round[0]);
    }
  }

  /** A walk through unstarted tags of a closed list must meet itself. */
  lemma {:induction false} WalkMeetsItself(nodes: seq<Node>, started: set<Tag>, walk: seq<Tag>)
    requires Closed(nodes) && Stuck(nodes, started)
    requires walk != [] && (forall t :: t in walk ==> t in Tags(nodes) && t !in started)
    requires forall i :: 0 <= i < |walk| - 1 ==> DependsOn(nodes, walk[i], walk[i + 1])
    ensures HasCycle(nodes)
    decreases Tags(nodes) - set t | t in walk
  {
    var last := walk[|walk| - 1];
    assert last in walk && last in Tags(nodes);
    var i :| 0 <= i < |nodes| && TagList(nodes)[i] == last;
    var n := nodes[i];
    var d :| d in n.dependencies && d !in started;
    assert DependsOn(nodes, last, d);
    if d in walk {
      var k :| 0 <= k < |walk| && walk[k] == d;
      assert IsCycle(nodes, walk[k..]);
    } else {
      var longer := walk + [d];
      assert d in Tags(nodes) - set t | t in walk;
      assert d !in Tags(nodes) - set t | t in longer;
      WalkMeetsItself(nodes, started, longer);
    }
  }

  // ---------------------------------------------------------------------------------------------
  // The scheduler.
  // ---------------------------------------------------------------------------------------------

  lemma {:induction false} ProgressStep(nodes: seq<Node>, log: seq<nat>, started: set<Tag>, i: nat)
    requires Records(nodes, log, started) && DependenciesFirst(nodes, log)
    requires i < |nodes| && nodes[i].tag !in started
    requires Ready(nodes[i], started)
    ensures Records(nodes, log + [i], started + {nodes[i].tag})
    ensures DependenciesFirst(nodes, log + [i])
  {
    DependenciesFirstStep(nodes, log, started, i);
    var longer := log + [i];
    assert longer[|log|] == i;
    forall t
      ensures t in started + {nodes[i].tag} <==> exists p :: 0 <= p < |longer| && nodes[longer[p]].tag == t
    {
      if t in started {
        var p :| 0 <= p < |log| && nodes[log[p]].tag == t;
        assert nodes[longer[p]].tag == t;
      }
    }
  }

  lemma {:induction false} DependenciesFirstStep(nodes: seq<Node>, log: seq<nat>, started: set<Tag>, i: nat)
    requires Records(nodes, log, started) && DependenciesFirst(nodes, log)
    requires i < |nodes| && Ready(nodes[i], started)
    ensures DependenciesFirst(nodes, log + [i])
  {
    var longer := log + [i];
    forall p, d | 0 <= p < |longer| && d in nodes[longer[p]].dependencies
      ensures exists q :: 0 <= q < p && nodes[longer[q]].tag == d
    {
      if p < |log| {
        var q :| 0 <= q < p && nodes[log[q]].tag == d;
        assert nodes[longer[q]].tag == d;
      } else {
        assert d in started;
        var q :| 0 <= q < |log| && nodes[log[q]].tag == d;
        assert nodes[longer[q]].tag == d;
      }
    }
  }

  lemma {:induction false} StartedAreTags(nodes: seq<Node>, log: seq<nat>, started: set<Tag>)
    requires Records(nodes, log, started)
    ensures started <= Tags(nodes)
    ensures |started| <= |nodes|
    ensures |started| == |nodes| ==> started == Tags(nodes) && DistinctTags(nodes)
  {
    forall t | t in started
      ensures t in Tags(nodes)
    {
      var p :| 0 <= p < |log| && nodes[log[p]].tag == t;
      assert TagList(nodes)[log[p]] == t;
    }
    SubsetCount(started, Tags(nodes));
    ElementCount(TagList(nodes));
  }

  /** A full log of successful starts is exactly what a well-formed graph allows. */
  lemma {:induction false} CompleteStart(nodes: seq<Node>, log: seq<nat>, started: set<Tag>)
    requires Records(nodes, log, started) && DependenciesFirst(nodes, log)
    requires |started| == |nodes|
    requires Healthy(nodes, log)
    ensures DistinctTags(nodes) && Closed(nodes) && !HasCycle(nodes) && AllStartsSucceed(nodes)
    ensures forall i :: 0 <= i < |nodes| ==> i in log
  {
    StartedAreTags(nodes, log, started);
    CompleteStartHasNoCycle(nodes, log, started);
    forall i | 0 <= i < |nodes|
      ensures i in log
    {
      assert TagList(nodes)[i] in started;
      var p :| 0 <= p < |log| && nodes[log[p]].tag == nodes[i].tag;
      if log[p] < i {
        DistinctIndices(TagList(nodes), log[p], i);
      } else if i < log[p] {
        DistinctIndices(TagList(nodes), i, log[p]);
      }
    }
    forall n, d | n in nodes && d in n.dependencies
      ensures d in Tags(nodes)
    {
      var i :| 0 <= i < |nodes| && nodes[i] == n;
      assert i in log;
      var p :| 0 <= p < |log| && log[p] == i;
      var q :| 0 <= q < p && nodes[log[q]].tag == d;
    }
    forall n | n in nodes
      ensures n.startOk
    {
      var i :| 0 <= i < |nodes| && nodes[i] == n;
      assert i in log;
      var p :| 0 <= p < |log| && log[p] == i;
    }
  }

  /** A stuck list with something left either misses a dependency or contains a cycle. */
  lemma {:induction false} StuckHasReason(nodes: seq<Node>, started: set<Tag>, i: nat)
    requires Stuck(nodes, started)
    requires i < |nodes| && nodes[i].tag !in started
    ensures !Closed(nodes) || HasCycle(nodes)
  {
    if Closed(nodes) {
      assert TagList(nodes)[i] in Tags(nodes);
      WalkMeetsItself(nodes, started, [nodes[i].tag]);
    }
  }

  lemma {:induction false} StuckIsMaximal(nodes: seq<Node>, started: set<Tag>, log: seq<nat>, p: nat)
    requires Stuck(nodes, started) && DependenciesFirst(nodes, log) && p < |log|
    ensures nodes[log[p]].tag in started
    decreases p
  {
    var n := nodes[log[p]];
    forall d | d in n.dependencies
      ensures d in started
    {
      var q :| 0 <= q < p && nodes[log[q]].tag == d;
      StuckIsMaximal(nodes, started, log, q);
    }
    assert n in nodes && Ready(n, started);
  }

  /** Where no pass makes progress, everything that can be started has been. */
  lemma {:induction false} StuckStartedAll(nodes: seq<Node>, log: seq<nat>, started: set<Tag>)
    requires Records(nodes, log, started) && DependenciesFirst(nodes, log) && Stuck(nodes, started)
    ensures started == Startable(nodes)
  {
    StartedAreTags(nodes, log, started);
    forall t
      ensures t in started <==> t in Startable(nodes)
    {
      if t in started {
        var p :| 0 <= p < |log| && nodes[log[p]].tag == t;
        assert CanStart(nodes, t);
      }
      if t in Startable(nodes) {
        var other: seq<nat>, p: nat :| DependenciesFirst(nodes, other) && p < |other| && nodes[other[p]].tag == t;
        StuckIsMaximal(nodes, started, other, p);
      }
    }
  }

  /** One pass of the list; `log` grows by the nodes it starts. */
  method Pass(nodes: seq<Node>, started0: set<Tag>, log0: seq<nat>)
    returns (started: set<Tag>, failed: Option<Tag>, log: seq<nat>)
    requires Records(nodes, log0, started0) && DependenciesFirst(nodes, log0)
    requires Healthy(nodes, log0) && BeginsFirst(nodes, log0)
    ensures Records(nodes, log, started) && DependenciesFirst(nodes, log)
    ensures |log0| <= |log| && BeginsFirst(nodes, log)
    ensures nodes != [] && nodes[0].dependencies == [] ==> log != []
    ensures failed == None ==> Healthy(nodes, log)
    ensures failed.Some? ==> log != [] && !nodes[log[|log| - 1]].startOk && failed.value == nodes[log[|log| - 1]].tag
    ensures failed.Some? ==> Healthy(nodes, log[..|log| - 1])
    ensures failed == None && |log| == |log0| ==> Stuck(nodes, started)
  {
    FirstIsReady(nodes, log0, started0);
    hide DependenciesFirst, Ready, Records, Healthy, BeginsFirst;
    started, failed, log := started0, None, log0;
    for i := 0 to |nodes|
      invariant Records(nodes, log, started) && DependenciesFirst(nodes, log)
      invariant |log0| <= |log| && BeginsFirst(nodes, log)
      invariant i > 0 && nodes[0].dependencies == [] ==> log != []
      invariant Healthy(nodes, log)
      invariant |log| == |log0| ==>
        && started == started0
        && forall j :: 0 <= j < i && nodes[j].tag !in started ==> !Ready(nodes[j], started)
    {
      var node := nodes[i];
      if node.tag in started {
        continue;
      }
      if !Ready(node, started) {
        continue;
      }
      ProgressStep(nodes, log, started, i);
      LogStep(nodes, log, i);
      started := started + {node.tag};
      log := log + [i];
      if !node.startOk {
        return started, Some(node.tag), log;
      }
    }
  }

  lemma {:induction false} FirstIsReady(nodes: seq<Node>, log: seq<nat>, started: set<Tag>)
    requires Records(nodes, log, started)
    ensures nodes != [] && nodes[0].dependencies == [] ==> Ready(nodes[0], started)
  {
  }

  lemma {:induction false} LogStep(nodes: seq<Node>, log: seq<nat>, i: nat)
    requires Healthy(nodes, log) && BeginsFirst(nodes, log) && i < |nodes|
    requires i > 0 && nodes[0].dependencies == [] ==> log != []
    ensures nodes[i].startOk ==> Healthy(nodes, log + [i])
    ensures (log + [i])[..|log|] == log && BeginsFirst(nodes, log + [i])
  {
  }

  /** `registry` holds nodes of the list only, each under its own tag. */
  ghost predicate Registers(nodes: seq<Node>, registry: map<Tag, Node>)
  {
    forall t :: t in registry ==> registry[t] in nodes && registry[t].tag == t
  }

  /** `registry` is the tag map of exactly the nodes of the list. */
  ghost predicate IsTagMap(nodes: seq<Node>, registry: map<Tag, Node>)
  {
    Registers(nodes, registry) && forall n :: n in nodes ==> n.tag in registry
  }

  /** A chain of unstarted tags, each a real dependency of the one before. */
  ghost predicate DependencyPath(nodes: seq<Node>, started: set<Tag>, path: seq<Tag>)
  {
    && (forall t :: t in path ==> t !in started)
    && (forall i :: 0 <= i < |path| - 1 ==> DependsOn(nodes, path[i], path[i + 1]))
  }

  /** The report is the diagnosis of the first node that is not started. */
  ghost predicate Diagnoses(nodes: seq<Node>, registry: map<Tag, Node>, started: set<Tag>, r: Outcome)
  {
    exists i: nat ::
      IsFirstUnstarted(nodes, started, i) && r == Lint(started, registry, [nodes[i].tag], nodes[i])
  }

  /**
   What a report says of the list, if the registry it was read from holds nodes of the list only: a
   circular report prints a real dependency path that ends in a tag it already passed, a not-found
   report names a real dependency that is not started and not in the registry.
   */
  ghost predicate Explains(nodes: seq<Node>, registry: map<Tag, Node>, started: set<Tag>, r: Outcome)
  {
    match r
    case Circular(path, again) => path != [] && again in path && DependencyPath(nodes, started, path + [again])
    case NotFound(dependency, of) =>
      DependsOn(nodes, of, dependency) && dependency !in registry && dependency !in started && of !in started
    case _ => false
  }

  predicate IsReport(r: Outcome)
  {
    r.Circular? || r.NotFound?
  }

  /**
   Starts every node after its dependencies. `log` lists the nodes started, in order, as indices. The
   start is complete exactly when tags are distinct, every dependency is present, no dependency cycle
   exists and every individual start succeeds. Otherwise a start failed; or all that can be started
   has been, and either that is everything, under repeated tags, or the first node left is diagnosed.
   */
  method StartAll(nodes: seq<Node>, registry: map<Tag, Node>) returns (r: Outcome, log: seq<nat>, started: set<Tag>)
    ensures Records(nodes, log, started) && DependenciesFirst(nodes, log)
    ensures r == Started <==> WellFormed(nodes)
    ensures r == Started ==> |log| == |nodes| && forall i :: 0 <= i < |nodes| ==> i in log
    ensures r.StartFailed? ==> log != [] && !nodes[log[|log| - 1]].startOk && r.tag == nodes[log[|log| - 1]].tag
    ensures r.StartFailed? ==> Healthy(nodes, log[..|log| - 1])
    ensures !r.StartFailed? ==> Healthy(nodes, log) && Stuck(nodes, started) && started == Startable(nodes)
    ensures r.NilDereference? ==> !DistinctTags(nodes) && Startable(nodes) == Tags(nodes)
    ensures IsReport(r) ==> Diagnoses(nodes, registry, Startable(nodes), r) && (!Closed(nodes) || HasCycle(nodes))
    ensures IsReport(r) && Registers(nodes, registry) ==> Explains(nodes, registry, Startable(nodes), r)
    ensures AllStartsSucceed(nodes) ==>
      && (r.NilDereference? <==> !DistinctTags(nodes) && Startable(nodes) == Tags(nodes))
      && (IsReport(r) <==> Startable(nodes) != Tags(nodes))
    ensures nodes != [] && nodes[0].dependencies == [] ==> log != [] && log[0] == 0
  {
    r, log, started := RunPasses(nodes, registry);
    assert forall p :: 0 <= p < |log| ==> log[p] < |nodes|;
    hide Records, DependenciesFirst, Healthy, Stuck, Registers, Explains, Diagnoses;
    match r
    case Started => FinishComplete(nodes, log, started);
    case StartFailed(_) => FailedStart(nodes, log[|log| - 1]);
    case NilDereference => FinishNil(nodes, log, started);
    case _ => FinishReport(nodes, registry, log, started, r);
  }

  /** The passes, as long as one makes progress, and what then remains. */
  method RunPasses(nodes: seq<Node>, registry: map<Tag, Node>) returns (r: Outcome, log: seq<nat>, started: set<Tag>)
    ensures Records(nodes, log, started) && DependenciesFirst(nodes, log) && BeginsFirst(nodes, log)
    ensures nodes != [] && nodes[0].dependencies == [] ==> log != []
    ensures match r
      case StartFailed(tag) =>
        && log != [] && !nodes[log[|log| - 1]].startOk && tag == nodes[log[|log| - 1]].tag
        && Healthy(nodes, log[..|log| - 1])
      case Started => Healthy(nodes, log) && |started| == |nodes|
      case NilDereference =>
        && Healthy(nodes, log) && Stuck(nodes, started) && |started| != |nodes|
        && forall j :: 0 <= j < |nodes| ==> nodes[j].tag in started
      case _ => Healthy(nodes, log) && Stuck(nodes, started) && Diagnoses(nodes, registry, started, r)
  {
    started, log := {}, [];
    assert Records(nodes, log, started) && DependenciesFirst(nodes, log);
    hide DependenciesFirst, Records, Stuck, Healthy, BeginsFirst, Lint, Diagnoses;
    while true
      invariant Records(nodes, log, started) && DependenciesFirst(nodes, log)
      invariant Healthy(nodes, log) && BeginsFirst(nodes, log)
      invariant |log| <= |nodes|
      decreases |nodes| - |log|
    {
      var before := |started|;
      RecordsCount(nodes, log, started);
      var failed;
      started, failed, log := Pass(nodes, started, log);
      RecordsCount(nodes, log, started);
      if failed.Some? {
        return StartFailed(failed.value), log, started;
      }
      if |started| == |nodes| {
        return Started, log, started;
      }
      if |started| > before {
        continue;
      }
      var current := Find(nodes, started);
      if current == |nodes| {
        return NilDereference, log, started;
      }
      r := Lint(started, registry, [nodes[current].tag], nodes[current]);
      DiagnosedFirst(nodes, registry, started, current, r);
      return r, log, started;
    }
  }

  lemma {:induction false} DiagnosedFirst(nodes: seq<Node>, registry: map<Tag, Node>, started: set<Tag>, i: nat,
                                          r: Outcome)
    requires IsFirstUnstarted(nodes, started, i) && r == Lint(started, registry, [nodes[i].tag], nodes[i])
    ensures Diagnoses(nodes, registry, started, r) && IsReport(r)
  {
    LintOutcome(started, registry, [nodes[i].tag], nodes[i]);
  }

  lemma {:induction false} RecordsCount(nodes: seq<Node>, log: seq<nat>, started: set<Tag>)
    requires Records(nodes, log, started)
    ensures |started| == |log| <= |nodes|
  {
    StartedAreTags(nodes, log, started);
  }

  lemma {:induction false} FailedStart(nodes: seq<Node>, i: nat)
    requires i < |nodes| && !nodes[i].startOk
    ensures !AllStartsSucceed(nodes) && !WellFormed(nodes)
  {
    assert nodes[i] in nodes;
  }

  lemma {:induction false} FinishComplete(nodes: seq<Node>, log: seq<nat>, started: set<Tag>)
    requires Records(nodes, log, started) && DependenciesFirst(nodes, log) && Healthy(nodes, log)
    requires |started| == |nodes|
    ensures WellFormed(nodes) && DistinctTags(nodes) && |log| == |nodes|
    ensures forall i :: 0 <= i < |nodes| ==> i in log
    ensures Stuck(nodes, started) && started == Startable(nodes) == Tags(nodes)
  {
    CompleteStart(nodes, log, started);
    StartedAreTags(nodes, log, started);
    AllTagsStuck(nodes, started);
    StuckStartedAll(nodes, log, started);
  }

  lemma {:induction false} AllTagsStuck(nodes: seq<Node>, started: set<Tag>)
    requires started == Tags(nodes)
    ensures Stuck(nodes, started)
  {
    forall n | n in nodes
      ensures n.tag in started
    {
      TagsOf(nodes, n.tag);
    }
  }

  lemma {:induction false} FinishNil(nodes: seq<Node>, log: seq<nat>, started: set<Tag>)
    requires Records(nodes, log, started) && DependenciesFirst(nodes, log) && Stuck(nodes, started)
    requires |started| != |nodes| && forall j :: 0 <= j < |nodes| ==> nodes[j].tag in started
    ensures started == Startable(nodes) == Tags(nodes) && !DistinctTags(nodes) && !WellFormed(nodes)
  {
    StuckStartedAll(nodes, log, started);
    StartedAreTags(nodes, log, started);
    AllTagsStarted(nodes, started);
    ElementCount(TagList(nodes));
  }

  lemma {:induction false} FinishReport(nodes: seq<Node>, registry: map<Tag, Node>, log: seq<nat>, started: set<Tag>,
                                        r: Outcome)
    requires Records(nodes, log, started) && DependenciesFirst(nodes, log) && Stuck(nodes, started)
    requires Diagnoses(nodes, registry, started, r)
    ensures started == Startable(nodes) != Tags(nodes)
    ensures !WellFormed(nodes) && (!Closed(nodes) || HasCycle(nodes))
    ensures Registers(nodes, registry) ==> Explains(nodes, registry, started, r)
  {
    StuckStartedAll(nodes, log, started);
    var i: nat :| IsFirstUnstarted(nodes, started, i) && r == Lint(started, registry, [nodes[i].tag], nodes[i]);
    UnstartedTag(nodes, started, i);
    StuckHasReason(nodes, started, i);
    if Registers(nodes, registry) {
      LintIsTruthful(nodes, registry, started, [nodes[i].tag], nodes[i]);
    }
  }

  lemma {:induction false} UnstartedTag(nodes: seq<Node>, started: set<Tag>, i: nat)
    requires i < |nodes| && nodes[i].tag !in started
    ensures Tags(nodes) != started
    ensures DependencyPath(nodes, started, [nodes[i].tag])
  {
    assert TagList(nodes)[i] in Tags(nodes);
  }

  lemma {:induction false} AllTagsStarted(nodes: seq<Node>, started: set<Tag>)
    requires forall j :: 0 <= j < |nodes| ==> nodes[j].tag in started
    requires started <= Tags(nodes)
    ensures Tags(nodes) == started
  {
    forall t | t in Tags(nodes)
      ensures t in started
    {
      var i :| 0 <= i < |nodes| && TagList(nodes)[i] == t;
    }
  }

  /** The first node not started, or the length of the list when there is none. */
  method Find(nodes: seq<Node>, started: set<Tag>) returns (i: nat)
    ensures i <= |nodes|
    ensures forall j :: 0 <= j < i ==> nodes[j].tag in started
    ensures i < |nodes| ==> nodes[i].tag !in started
  {
    i := 0;
    while i < |nodes| && nodes[i].tag in started
      invariant i <= |nodes|
      invariant forall j :: 0 <= j < i ==> nodes[j].tag in started
    {
      i := i + 1;
    }
  }

  // ---------------------------------------------------------------------------------------------
  // The diagnosis.
  // ---------------------------------------------------------------------------------------------

  lemma {:induction false} LintOutcome(started: set<Tag>, registry: map<Tag, Node>, tree: seq<Tag>, current: Node)
    ensures var r := Lint(started, registry, tree, current); r.Circular? || r.NotFound?
    decreases registry.Keys - set t | t in tree
  {
    var problem := Problem(current.dependencies, started);
    if problem !in tree && problem in registry {
      assert problem in registry.Keys - set t | t in tree;
      assert problem !in registry.Keys - set t | t in tree + [problem];
      LintOutcome(started, registry, tree + [problem], registry[problem]);
    }
  }

  /** A report read from a registry of nodes of the list explains why the list is stuck. */
  lemma {:induction false} LintIsTruthful(nodes: seq<Node>, registry: map<Tag, Node>, started: set<Tag>,
                                          tree: seq<Tag>, current: Node)
    requires Registers(nodes, registry) && Stuck(nodes, started)
    requires current in nodes && current.tag !in started
    requires tree != [] && tree[|tree| - 1] == current.tag && DependencyPath(nodes, started, tree)
    ensures Explains(nodes, registry, started, Lint(started, registry, tree, current))
    decreases registry.Keys - set t | t in tree
  {
    var problem := Problem(current.dependencies, started);
    var longer := tree + [problem];
    assert DependsOn(nodes, current.tag, problem);
    forall i | 0 <= i < |longer| - 1
      ensures DependsOn(nodes, longer[i], longer[i + 1])
    {
      if i < |tree| - 1 {
        assert DependsOn(nodes, tree[i], tree[i + 1]);
      }
    }
    if problem !in tree && problem in registry {
      assert problem in registry.Keys - set t | t in tree;
      assert problem !in registry.Keys - set t | t in longer;
      LintIsTruthful(nodes, registry, started, longer, registry[problem]);
    }
  }

  lemma {:induction false} TagsOf(nodes: seq<Node>, tag: Tag)
    ensures tag in Tags(nodes) <==> exists n :: n in nodes && n.tag == tag
  {
    if tag in Tags(nodes) {
      var i :| 0 <= i < |nodes| && TagList(nodes)[i] == tag;
      assert nodes[i] in nodes;
    }
    if n :| n in nodes && n.tag == tag {
      var i :| 0 <= i < |nodes| && nodes[i] == n;
      assert TagList(nodes)[i] == tag;
    }
  }

  // ---------------------------------------------------------------------------------------------
  // When a report is false.
  // ---------------------------------------------------------------------------------------------

  /** The node followed at place `i` of a path that begins with `n`. */
  function NodeAt(registry: map<Tag, Node>, n: Node, path: seq<Tag>, i: nat): (r: Node)
    requires i < |path| && (i == 0 || path[i] in registry)
  {
    if i == 0 then n else registry[path[i]]
  }

  /** From place `i` the path goes on to the first dependency not started, a tag it has not passed. */
  ghost predicate FollowsAt(started: set<Tag>, registry: map<Tag, Node>, n: Node, path: seq<Tag>, i: nat)
    requires i + 1 < |path|
  {
    && (i == 0 || path[i] in registry)
    && Problem(NodeAt(registry, n, path, i).dependencies, started) == path[i + 1]
    && path[i + 1] !in path[..i + 1]
  }

  /** A path of first unstarted dependencies, from `n` on through nodes of the registry. */
  ghost predicate Follows(started: set<Tag>, registry: map<Tag, Node>, n: Node, path: seq<Tag>)
  {
    path != [] && path[0] == n.tag && forall i :: 0 <= i < |path| - 1 ==> FollowsAt(started, registry, n, path, i)
  }

  /** Such a path leaves the registry at its last tag. */
  ghost predicate LeavesAt(started: set<Tag>, registry: map<Tag, Node>, n: Node, path: seq<Tag>, t: Tag)
  {
    Follows(started, registry, n, path) && |path| >= 2 && path[|path| - 1] == t && t !in registry
  }

  lemma {:induction false} PathGivesReport(started: set<Tag>, registry: map<Tag, Node>, n: Node, path: seq<Tag>,
                                           t: Tag, i: nat)
    requires LeavesAt(started, registry, n, path, t) && i < |path| - 1
    ensures i == 0 || path[i] in registry
    ensures var r := Lint(started, registry, path[..i + 1], NodeAt(registry, n, path, i));
      r.NotFound? && r.dependency == t
    decreases |path| - i
  {
    assert FollowsAt(started, registry, n, path, i);
    if i + 1 < |path| - 1 {
      assert FollowsAt(started, registry, n, path, i + 1);
      PathGivesReport(started, registry, n, path, t, i + 1);
      assert path[..i + 2] == path[..i + 1] + [path[i + 1]];
    }
  }

  lemma {:induction false} ReportGivesPath(started: set<Tag>, registry: map<Tag, Node>, n: Node, tree: seq<Tag>,
                                           current: Node)
    returns (path: seq<Tag>)
    requires Follows(started, registry, n, tree) && (|tree| == 1 || tree[|tree| - 1] in registry)
    requires current == NodeAt(registry, n, tree, |tree| - 1)
    requires Lint(started, registry, tree, current).NotFound?
    ensures LeavesAt(started, registry, n, path, Lint(started, registry, tree, current).dependency)
    decreases registry.Keys - set t | t in tree
  {
    var problem := Problem(current.dependencies, started);
    path := tree + [problem];
    FollowsOn(started, registry, n, tree, problem);
    if problem in registry {
      assert problem in registry.Keys - set t | t in tree;
      assert problem !in registry.Keys - set t | t in path;
      path := ReportGivesPath(started, registry, n, path, registry[problem]);
    }
  }

  lemma {:induction false} FollowsOn(started: set<Tag>, registry: map<Tag, Node>, n: Node, tree: seq<Tag>, problem: Tag)
    requires Follows(started, registry, n, tree) && (|tree| == 1 || tree[|tree| - 1] in registry)
    requires problem == Problem(NodeAt(registry, n, tree, |tree| - 1).dependencies, started) && problem !in tree
    ensures Follows(started, registry, n, tree + [problem])
  {
    var path := tree + [problem];
    forall i | 0 <= i < |path| - 1
      ensures FollowsAt(started, registry, n, path, i)
    {
      assert path[..i + 1] == tree[..i + 1];
      if i < |tree| - 1 {
        assert FollowsAt(started, registry, n, tree, i);
      } else {
        assert tree[..|tree|] == tree;
      }
    }
  }

  /** Following first unstarted dependencies from the first unstarted node leaves the registry at one of `targets`. */
  ghost predicate ChaseEndsAt(nodes: seq<Node>, registry: map<Tag, Node>, started: set<Tag>, targets: set<Tag>)
  {
    exists i: nat, path, t ::
      IsFirstUnstarted(nodes, started, i) && LeavesAt(started, registry, nodes[i], path, t) && t in targets
  }

  /**
   A report is false, naming a tag that the list does carry, if and only if following first unstarted
   dependencies from the first unstarted node leaves the registry at a node of the list; over a full tag
   map that cannot be.
   */
  lemma {:induction false} ReportIsFalseExactly(nodes: seq<Node>, registry: map<Tag, Node>, started: set<Tag>,
                                                r: Outcome)
    requires Diagnoses(nodes, registry, started, r)
    ensures r.NotFound? && r.dependency in Tags(nodes) <==> ChaseEndsAt(nodes, registry, started, Tags(nodes))
    ensures IsTagMap(nodes, registry) ==> !ChaseEndsAt(nodes, registry, started, Tags(nodes))
  {
    var i: nat :| IsFirstUnstarted(nodes, started, i) && r == Lint(started, registry, [nodes[i].tag], nodes[i]);
    var n := nodes[i];
    if r.NotFound? {
      var path := ReportGivesPath(started, registry, n, [n.tag], n);
    }
    if ChaseEndsAt(nodes, registry, started, Tags(nodes)) {
      var j: nat, path, t :| IsFirstUnstarted(nodes, started, j)
        && LeavesAt(started, registry, nodes[j], path, t) && t in Tags(nodes);
      assert i == j;
      PathGivesReport(started, registry, n, path, t, 0);
      assert path[..1] == [n.tag];
      TagsOf(nodes, t);
    }
  }

  /** The start of the DNS transports, whose tag map holds exactly the transports passed: every report is true. */
  method StartTransports(transports: seq<Node>, registry: map<Tag, Node>) returns (r: Outcome, log: seq<nat>)
    requires IsTagMap(transports, registry)
    ensures r == Started <==> WellFormed(transports)
    ensures DependenciesFirst(transports, log)
    ensures r == Started ==> |log| == |transports| && forall i :: 0 <= i < |transports| ==> i in log
    ensures IsReport(r) ==> Diagnoses(transports, registry, Startable(transports), r)
    ensures r.Circular? ==> r.again in r.tree && DependencyPath(transports, Startable(transports), r.tree + [r.again])
    ensures r.NotFound? ==> DependsOn(transports, r.of, r.dependency) && r.dependency !in Tags(transports)
  {
    var started;
    r, log, started := StartAll(transports, registry);
    if r.NotFound? {
      ReportIsFalseExactly(transports, registry, started, r);
    }
  }

  /**
   The start of the outbound manager, which starts the endpoints along with its outbounds but lints
   through the tag map of the outbounds alone: a report is false if and only if following first unstarted
   dependencies from the first unstarted node, through outbounds, ends at an endpoint.
   */
  method StartOutbounds(outbounds: seq<Node>, endpoints: seq<Node>, registry: map<Tag, Node>)
    returns (r: Outcome, log: seq<nat>)
    requires IsTagMap(outbounds, registry)
    ensures r == Started <==> WellFormed(outbounds + endpoints)
    ensures DependenciesFirst(outbounds + endpoints, log)
    ensures r == Started ==> |log| == |outbounds + endpoints| && forall i :: 0 <= i < |log| ==> i in log
    ensures r.StartFailed? ==> exists n :: n in outbounds + endpoints && !n.startOk && n.tag == r.tag
    ensures r.NilDereference? ==> !DistinctTags(outbounds + endpoints)
    ensures IsReport(r) ==> Diagnoses(outbounds + endpoints, registry, Startable(outbounds + endpoints), r)
    ensures r.Circular? ==>
      r.again in r.tree && DependencyPath(outbounds + endpoints, Startable(outbounds + endpoints), r.tree + [r.again])
    ensures r.NotFound? ==> DependsOn(outbounds + endpoints, r.of, r.dependency) && r.dependency !in Tags(outbounds)
    ensures IsReport(r) ==>
      (r.NotFound? && r.dependency in Tags(outbounds + endpoints) <==>
       ChaseEndsAt(outbounds + endpoints, registry, Startable(outbounds + endpoints), Tags(endpoints)))
  {
    ghost var nodes := outbounds + endpoints;
    assert Registers(nodes, registry);
    var started;
    r, log, started := StartAll(outbounds + endpoints, registry);
    if IsReport(r) {
      ReportIsFalseExactly(nodes, registry, started, r);
      OutsideIsEndpoint(outbounds, endpoints, registry, started);
    }
    if r.NotFound? {
      TagsOf(outbounds, r.dependency);
    }
  }

  /** Outside the tag map of the outbounds, the list has endpoints only. */
  lemma {:induction false} OutsideIsEndpoint(outbounds: seq<Node>, endpoints: seq<Node>, registry: map<Tag, Node>,
                                             started: set<Tag>)
    requires IsTagMap(outbounds, registry)
    ensures ChaseEndsAt(outbounds + endpoints, registry, started, Tags(outbounds + endpoints)) <==>
      ChaseEndsAt(outbounds + endpoints, registry, started, Tags(endpoints))
  {
    forall t | t !in registry
      ensures t in Tags(outbounds + endpoints) <==> t in Tags(endpoints)
    {
      TagsOf(outbounds, t);
      TagsOf(endpoints, t);
      TagsOf(outbounds + endpoints, t);
    }
  }

  /** A false report: an outbound waits for an endpoint that waits for something missing. */
  method EndpointReportedMissing(outbound: Tag, endpoint: Tag, missing: Tag) returns (r: Outcome)
    requires outbound != endpoint && missing != outbound && missing != endpoint
    ensures r == NotFound(endpoint, outbound)
  {
    var waiting, broken := Node(outbound, [endpoint], true), Node(endpoint, [missing], true);
    ghost var nodes := [waiting] + [broken];
    NothingStarts(nodes);
    TagsOf(nodes, missing);
    assert nodes[1] == broken && broken in nodes && missing in broken.dependencies;
    assert TagList(nodes) == [outbound, endpoint];
    DistinctOfIndices(TagList(nodes));
    var log;
    r, log := StartOutbounds([waiting], [broken], map[outbound := waiting]);
    FirstOfTwo(waiting, broken, map[outbound := waiting], r);
  }

  lemma {:induction false} FirstOfTwo(waiting: Node, broken: Node, registry: map<Tag, Node>, r: Outcome)
    requires waiting.dependencies == [broken.tag] && waiting.tag != broken.tag && broken.tag !in registry
    ensures Diagnoses([waiting] + [broken], registry, {}, r) ==> r == NotFound(broken.tag, waiting.tag)
  {
    var nodes := [waiting] + [broken];
    assert nodes[0] == waiting;
    assert Problem([broken.tag], {}) == broken.tag;
  }

  lemma {:induction false} NothingStarts(nodes: seq<Node>)
    requires forall n :: n in nodes ==> n.dependencies != []
    ensures Startable(nodes) == {}
  {
    forall log: seq<nat>
      ensures DependenciesFirst(nodes, log) ==> log == []
    {
      if log != [] && log[0] < |nodes| {
        var n := nodes[log[0]];
        assert n in nodes && (n.dependencies != [] ==> n.dependencies[0] in n.dependencies);
      }
    }
  }

  // ---------------------------------------------------------------------------------------------
  // The one repeated tag that configuration lets through: the fallback outbound's.
  // ---------------------------------------------------------------------------------------------

  function Renumber(x: nat, log: seq<nat>): (r: seq<nat>)
    requires x !in log
    ensures |r| == |log|
  {
    seq(|log|, p requires 0 <= p < |log| => if log[p] < x then log[p] else log[p] - 1)
  }

  /** Starts that never touched the node at `x` are the same starts of the list without it. */
  lemma {:induction false} RenumberKeeps(nodes: seq<Node>, x: nat, log: seq<nat>, started: set<Tag>)
    requires x < |nodes| && x !in log
    requires Records(nodes, log, started) && DependenciesFirst(nodes, log) && Healthy(nodes, log)
    ensures var rest, fewer := nodes[..x] + nodes[x + 1..], Renumber(x, log);
      Records(rest, fewer, started) && DependenciesFirst(rest, fewer) && Healthy(rest, fewer)
  {
    var rest, fewer := nodes[..x] + nodes[x + 1..], Renumber(x, log);
    assert forall p :: 0 <= p < |log| ==> fewer[p] < |rest| && rest[fewer[p]] == nodes[log[p]];
    forall p, d | 0 <= p < |fewer| && d in rest[fewer[p]].dependencies
      ensures exists q :: 0 <= q < p && rest[fewer[q]].tag == d
    {
      var q :| 0 <= q < p && nodes[log[q]].tag == d;
      assert rest[fewer[q]].tag == d;
    }
    forall t
      ensures t in started <==> exists p :: 0 <= p < |fewer| && rest[fewer[p]].tag == t
    {
      if t in started {
        var p :| 0 <= p < |log| && nodes[log[p]].tag == t;
        assert rest[fewer[p]].tag == t;
      }
    }
  }

  /** A tag put in front of distinct tags repeats exactly when it is among them. */
  lemma {:induction false} FallbackTags(fallback: Node, endpoints: seq<Node>)
    requires DistinctTags(endpoints)
    ensures DistinctTags([fallback] + endpoints) <==> fallback.tag !in Tags(endpoints)
  {
    var before, after := TagList(endpoints), TagList([fallback] + endpoints);
    assert after == [fallback.tag] + before;
    DistinctAppend(fallback.tag, before);
  }

  lemma {:induction false} DistinctAppend(first: Tag, rest: seq<Tag>)
    requires Distinct(rest)
    ensures Distinct([first] + rest) <==> first !in rest
    decreases |rest|
  {
    var whole := [first] + rest;
    if rest == [] {
      assert whole[..0] == [];
    } else {
      DistinctAppend(first, rest[..|rest| - 1]);
      assert whole[..|whole| - 1] == [first] + rest[..|rest| - 1];
      assert rest == rest[..|rest| - 1] + [rest[|rest| - 1]];
    }
  }

  /** The tags of the list without one of its nodes, when another node carries that node's tag. */
  lemma {:induction false} RestTags(fallback: Node, endpoints: seq<Node>, e: nat)
    requires DistinctTags(endpoints) && e < |endpoints| && endpoints[e].tag == fallback.tag
    ensures var rest := [fallback] + endpoints[..e] + endpoints[e + 1..];
      && rest == ([fallback] + endpoints)[..e + 1] + ([fallback] + endpoints)[e + 2..]
      && DistinctTags(rest) && Tags(rest) == Tags([fallback] + endpoints)
  {
    var nodes, rest := [fallback] + endpoints, [fallback] + endpoints[..e] + endpoints[e + 1..];
    assert rest == nodes[..e + 1] + nodes[e + 2..];
    var tags := TagList(endpoints);
    forall i, j | 0 <= i < j < |rest|
      ensures TagList(rest)[i] != TagList(rest)[j]
    {
      var a, b := if i <= e then i - 1 else i, if j <= e then j - 1 else j;
      if i == 0 {
        DistinctIndices(tags, if b < e then b else e, if b < e then e else b);
      } else {
        DistinctIndices(tags, a, b);
      }
    }
    DistinctOfIndices(TagList(rest));
    forall t
      ensures t in Tags(rest) <==> t in Tags(nodes)
    {
      TagsOf(rest, t);
      TagsOf(nodes, t);
      assert forall n :: n in rest ==> n in nodes;
      assert forall n :: n in nodes ==> n in rest || n == endpoints[e];
      assert fallback in rest && fallback in nodes;
    }
  }

  /** Everything started without the node at `x`: the list without it is well-formed. */
  lemma {:induction false} StartedWithout(nodes: seq<Node>, x: nat, log: seq<nat>, started: set<Tag>)
    requires x < |nodes| && x !in log && started == Tags(nodes)
    requires Records(nodes, log, started) && DependenciesFirst(nodes, log) && Healthy(nodes, log)
    requires DistinctTags(nodes[..x] + nodes[x + 1..]) && Tags(nodes[..x] + nodes[x + 1..]) == Tags(nodes)
    ensures WellFormed(nodes[..x] + nodes[x + 1..])
  {
    var rest := nodes[..x] + nodes[x + 1..];
    RenumberKeeps(nodes, x, log, started);
    ElementCount(TagList(rest));
    CompleteStart(rest, Renumber(x, log), started);
  }

  /** A stuck start of a list that is well-formed without the node at `x` has started every other node. */
  lemma {:induction false} StuckWithout(nodes: seq<Node>, x: nat, started: set<Tag>, i: nat)
    requires x < |nodes| && Stuck(nodes, started) && WellFormed(nodes[..x] + nodes[x + 1..])
    requires i < |nodes| && i != x
    ensures nodes[i].tag in started
  {
    var rest := nodes[..x] + nodes[x + 1..];
    assert forall n :: n in rest ==> n in nodes;
    var j := if i < x then i else i - 1;
    assert rest[j] == nodes[i];
    if nodes[i].tag !in started {
      StuckHasReason(rest, started, j);
    }
  }

  /**
   Started beside endpoints, the fallback outbound makes the start dereference nil if and only if an
   endpoint carries its tag and the list without that endpoint is well-formed. Any other use of a tag
   twice is refused by the configuration.
   */
  method StartFallback(fallback: Node, endpoints: seq<Node>) returns (r: Outcome)
    requires fallback.dependencies == [] && DistinctTags(endpoints)
    ensures fallback.tag !in Tags(endpoints) ==>
      !r.NilDereference? && (r == Started <==> WellFormed([fallback] + endpoints))
    ensures forall e :: 0 <= e < |endpoints| && endpoints[e].tag == fallback.tag ==>
      r != Started && (r.NilDereference? <==> WellFormed([fallback] + endpoints[..e] + endpoints[e + 1..]))
  {
    FallbackTags(fallback, endpoints);
    var log, started;
    r, log, started := StartAll([fallback] + endpoints, map[fallback.tag := fallback]);
    forall e | 0 <= e < |endpoints| && endpoints[e].tag == fallback.tag
      ensures r != Started && (r.NilDereference? <==> WellFormed([fallback] + endpoints[..e] + endpoints[e + 1..]))
    {
      TagsOf(endpoints, fallback.tag);
      NilExactly(fallback, endpoints, e, map[fallback.tag := fallback], r, log, started);
    }
  }

  lemma {:induction false} NilExactly(fallback: Node, endpoints: seq<Node>, e: nat, registry: map<Tag, Node>,
                                      r: Outcome, log: seq<nat>, started: set<Tag>)
    requires DistinctTags(endpoints) && e < |endpoints| && endpoints[e].tag == fallback.tag
    requires Records([fallback] + endpoints, log, started) && DependenciesFirst([fallback] + endpoints, log)
    requires log != [] && log[0] == 0 && r != Started
    requires r.StartFailed? ==> !([fallback] + endpoints)[log[|log| - 1]].startOk
    requires !r.StartFailed? ==> Healthy([fallback] + endpoints, log) && Stuck([fallback] + endpoints, started)
    requires r.NilDereference? ==> started == Tags([fallback] + endpoints)
    requires IsReport(r) ==> Diagnoses([fallback] + endpoints, registry, started, r)
    ensures r.NilDereference? <==> WellFormed([fallback] + endpoints[..e] + endpoints[e + 1..])
  {
    var nodes, x := [fallback] + endpoints, e + 1;
    var rest := [fallback] + endpoints[..e] + endpoints[e + 1..];
    RestTags(fallback, endpoints, e);
    assert nodes[log[0]].tag == nodes[x].tag;
    assert x !in log;
    if r.NilDereference? {
      StartedWithout(nodes, x, log, started);
    } else if r.StartFailed? {
      var i := log[|log| - 1];
      assert rest[if i < x then i else i - 1] == nodes[i];
      FailedStart(rest, if i < x then i else i - 1);
    } else {
      var i: nat :| IsFirstUnstarted(nodes, started, i) && r == Lint(started, registry, [nodes[i].tag], nodes[i]);
      assert fallback.tag in started;
      if WellFormed(rest) {
        StuckWithout(nodes, x, started, i);
      }
    }
  }
}
