/** The work DAG: cycle detection by depth-first search, the topological order that relies on
    it, and the observed-order check. */
module WorkDag {
  import opened Common
  import opened Text

  datatype Node = Node(id: string, operationKind: string, target: string, dependencies: seq<string>)

  /** Each task with its direct dependencies. */
  type Graph = map<string, seq<string>>

  datatype DagError =
    | MissingIdentity | DuplicateIds | BlankId | MissingMetadata(id: string)
    | DependsOnItself(id: string) | UnknownDependency(id: string, dependency: string)
    | CycleAt(id: string)

  datatype ObservedError = UnknownTask(id: string) | RanBeforeDependency(id: string, dependency: string)

  predicate Blank(s: string) {
    Strip(s) == ""
  }

  function ById(nodes: seq<Node>): Graph {
    if nodes == [] then map[]
    else var last := nodes[|nodes| - 1]; ById(nodes[..|nodes| - 1])[last.id := last.dependencies]
  }

  function DependencyError(g: Graph, id: string, dependencies: seq<string>): Option<DagError> {
    if dependencies == [] then None
    else if dependencies[0] == id then Some(DependsOnItself(id))
    else if dependencies[0] !in g then Some(UnknownDependency(id, dependencies[0]))
    else DependencyError(g, id, dependencies[1..])
  }

  function NodeError(g: Graph, nodes: seq<Node>): Option<DagError> {
    if nodes == [] then None
    else if Blank(nodes[0].id) then Some(BlankId)
    else if Blank(nodes[0].operationKind) || Blank(nodes[0].target) then Some(MissingMetadata(nodes[0].id))
    else
      match DependencyError(g, nodes[0].id, nodes[0].dependencies)
      case Some(e) => Some(e)
      case None => NodeError(g, nodes[1..])
  }

  /** The checks that come before the search for cycles. */
  function CheckNodes(dagId: string, version: string, nodes: seq<Node>): Option<DagError> {
    if Blank(dagId) || Blank(version) then Some(MissingIdentity)
    else if |ById(nodes)| != |nodes| then Some(DuplicateIds)
    else NodeError(ById(nodes), nodes)
  }

  ghost predicate Closed(g: Graph) {
    forall t, d :: t in g && d in g[t] ==> d in g && d != t
  }

  // ---------- Cycles ----------

  ghost predicate IsPath(g: Graph, p: seq<string>) {
    && (forall i :: 0 <= i < |p| ==> p[i] in g)
    && (forall i :: 0 <= i < |p| - 1 ==> p[i + 1] in g[p[i]])
  }

  ghost predicate IsCycle(g: Graph, p: seq<string>) {
    IsPath(g, p) && |p| >= 2 && p[0] == p[|p| - 1]
  }

  ghost predicate Acyclic(g: Graph) {
    forall p :: !IsCycle(g, p)
  }

  /** A numbering in which every dependency is smaller. */
  ghost predicate Ranked(g: Graph, rank: map<string, nat>) {
    && g.Keys <= rank.Keys
    && forall t, d :: t in g && d in g[t] ==> d in g && rank[d] < rank[t]
  }

  lemma {:induction false} RankFalls(g: Graph, rank: map<string, nat>, p: seq<string>)
    requires Ranked(g, rank) && IsPath(g, p) && |p| >= 2
    ensures rank[p[|p| - 1]] < rank[p[0]]
  {
    if |p| > 2 {
      var rest := p[1..];
      assert forall i :: 0 <= i < |rest| ==> rest[i] == p[i + 1];
      RankFalls(g, rank, rest);
    }
    assert p[1] in g[p[0]];
  }

  lemma RankedIsAcyclic(g: Graph, rank: map<string, nat>)
    requires Ranked(g, rank)
    ensures Acyclic(g)
  {
    forall p ensures !IsCycle(g, p) {
      if IsCycle(g, p) { RankFalls(g, rank, p); }
    }
  }

  /** Every task of `order` has all its dependencies earlier in it. */
  ghost predicate DependenciesFirst(g: Graph, order: seq<string>) {
    forall i :: 0 <= i < |order| ==> order[i] in g && forall d :: d in g[order[i]] ==> d in order[..i]
  }

  ghost predicate Distinct(s: seq<string>) {
    forall i, j :: 0 <= i < j < |s| ==> s[i] != s[j]
  }

  ghost predicate IsTopologicalOrder(g: Graph, order: seq<string>) {
    Distinct(order) && DependenciesFirst(g, order) && (set t | t in order) == g.Keys
  }

  lemma OrderIsRank(g: Graph, order: seq<string>) returns (rank: map<string, nat>)
    requires IsTopologicalOrder(g, order)
    ensures Ranked(g, rank)
  {
    rank := map t | t in g :: Position(order, t);
    forall t, d | t in g && d in g[t] ensures d in g && rank[d] < rank[t] {
      PositionIs(order, t);
      var i := Position(order, t);
      assert d in order[..i];
      var j :| 0 <= j < i && order[j] == d;
      PositionIs(order, d);
    }
  }

  /** The index of the first occurrence, or the length. */
  function Position(s: seq<string>, t: string): nat {
    if s == [] then 0 else if s[0] == t then 0 else 1 + Position(s[1..], t)
  }

  lemma {:induction false} PositionIs(s: seq<string>, t: string)
    ensures Position(s, t) <= |s|
    ensures t in s <==> Position(s, t) < |s|
    ensures t in s ==> s[Position(s, t)] == t
    ensures forall i :: 0 <= i < Position(s, t) ==> s[i] != t
  {
    if s != [] && s[0] != t {
      PositionIs(s[1..], t);
      assert forall i :: 1 <= i < |s| ==> s[i] == s[1..][i - 1];
    }
  }

  lemma {:induction false} NodesGiveClosed(g: Graph, nodes: seq<Node>)
    requires NodeError(g, nodes) == None
    ensures forall n, d :: n in nodes && d in n.dependencies ==> d in g && d != n.id
  {
    if nodes != [] {
      DependenciesKnown(g, nodes[0].id, nodes[0].dependencies);
      NodesGiveClosed(g, nodes[1..]);
    }
  }

  lemma {:induction false} DependenciesKnown(g: Graph, id: string, dependencies: seq<string>)
    requires DependencyError(g, id, dependencies) == None
    ensures forall d :: d in dependencies ==> d in g && d != id
  {
    if dependencies != [] { DependenciesKnown(g, id, dependencies[1..]); }
  }

  lemma {:induction false} NodeOf(nodes: seq<Node>, t: string) returns (n: Node)
    requires t in ById(nodes)
    ensures n in nodes && n.id == t && n.dependencies == ById(nodes)[t]
  {
    n := nodes[|nodes| - 1];
    if n.id != t { n := NodeOf(nodes[..|nodes| - 1], t); }
  }

  lemma {:induction false} IdsKnown(nodes: seq<Node>)
    ensures forall n :: n in nodes ==> n.id in ById(nodes)
  {
    if nodes != [] { IdsKnown(nodes[..|nodes| - 1]); }
  }

  lemma CheckedIsClosed(dagId: string, version: string, nodes: seq<Node>)
    requires CheckNodes(dagId, version, nodes) == None
    ensures Closed(ById(nodes))
  {
    var g := ById(nodes);
    NodesGiveClosed(g, nodes);
    forall t, d | t in g && d in g[t] ensures d in g && d != t {
      var n := NodeOf(nodes, t);
    }
  }

  // ---------- The search for a cycle ----------

  lemma CycleOnStack(g: Graph, stack: seq<string>, id: string) returns (p: seq<string>)
    requires IsPath(g, stack) && id in stack && id in g[stack[|stack| - 1]]
    ensures IsCycle(g, p) && p[0] == id
  {
    var k :| 0 <= k < |stack| && stack[k] == id;
    p := stack[k..] + [id];
  }

  lemma PushPath(g: Graph, stack: seq<string>, id: string)
    requires IsPath(g, stack) && Distinct(stack) && id in g && id !in stack
    requires stack != [] ==> id in g[stack[|stack| - 1]]
    ensures IsPath(g, stack + [id]) && Distinct(stack + [id])
  {
  }

  lemma AppendKeepsOrder(g: Graph, order: seq<string>, id: string)
    requires DependenciesFirst(g, order) && Distinct(order) && id in g && id !in order
    requires forall k :: 0 <= k < |g[id]| ==> g[id][k] in order
    ensures DependenciesFirst(g, order + [id]) && Distinct(order + [id])
  {
    var longer := order + [id];
    forall i | 0 <= i < |longer| ensures forall d :: d in g[longer[i]] ==> d in longer[..i] {
      assert longer[..i] == if i < |order| then order[..i] else order;
    }
  }

  /** The sets of `validate`, with the call stack and the order of completion as ghosts. */
  class CycleSearch {
    const g: Graph
    var visiting: set<string>
    var visited: set<string>
    ghost var stack: seq<string>
    ghost var finished: seq<string>

    ghost predicate Valid()
      reads this
    {
      && Closed(g)
      && Distinct(stack) && visiting == (set t | t in stack)
      && IsPath(g, stack)
      && visited == (set t | t in finished)
      && Distinct(finished) && DependenciesFirst(g, finished)
    }

    constructor (g: Graph)
      requires Closed(g)
      ensures Valid() && this.g == g && stack == [] && finished == []
    {
      this.g := g;
      visiting, visited, stack, finished := {}, {}, [], [];
    }

    method Visit(id: string) returns (r: Result<(), string>)
      requires Valid() && id in g
      requires stack != [] ==> id in g[stack[|stack| - 1]]
      modifies this
      ensures Valid()
      ensures r.Ok? ==> stack == old(stack) && old(finished) <= finished && id in finished
                        && forall t :: t in stack && t !in old(finished) ==> t !in finished
      ensures r.Err? ==> exists p :: IsCycle(g, p) && p[0] == r.error
      decreases g.Keys - visiting
    {
      hide IsPath, Distinct, DependenciesFirst, IsCycle;
      if id in visited { return Ok(()); }
      if id in visiting {
        ghost var p := CycleOnStack(g, stack, id);
        return Err(id);
      }
      PushPath(g, stack, id);
      visiting := visiting + {id};
      stack := stack + [id];
      var i := 0;
      while i < |g[id]|
        invariant 0 <= i <= |g[id]|
        invariant Valid() && stack == old(stack) + [id] && old(finished) <= finished
        invariant forall t :: t in stack && t !in old(finished) ==> t !in finished
        invariant forall k :: 0 <= k < i ==> g[id][k] in finished
      {
        r := Visit(g[id][i]);
        if r.Err? { return r; }
        i := i + 1;
      }
      assert id in stack;
      AppendKeepsOrder(g, finished, id);
      visiting := visiting - {id};
      stack := old(stack);
      visited := visited + {id};
      finished := finished + [id];
      return Ok(());
    }
  }

  class Dag {
    const dagId: string
    const version: string
    const nodes: seq<Node>
    const g: Graph
    ghost var rank: map<string, nat>

    constructor (dagId: string, version: string, nodes: seq<Node>)
      ensures this.dagId == dagId && this.version == version && this.nodes == nodes && g == ById(nodes)
    {
      this.dagId, this.version, this.nodes := dagId, version, nodes;
      g := ById(nodes);
      rank := map[];
    }

    ghost predicate Validated()
      reads this
    {
      g == ById(nodes) && Closed(g) && Ranked(g, rank)
    }

    /** For nodes that pass the checks, accepted exactly when acyclic; a reported cycle exists. */
    method Validate() returns (r: Result<(), DagError>)
      requires g == ById(nodes)
      modifies this
      ensures match CheckNodes(dagId, version, nodes)
              case Some(e) => r == Err(e)
              case None =>
                && (r.Ok? <==> Acyclic(g))
                && (r.Ok? ==> Validated())
                && (r.Err? ==> r.error.CycleAt? && exists p :: IsCycle(g, p) && p[0] == r.error.id)
    {
      hide CheckNodes, NodeError, ById, Closed, IsPath, IsCycle, Ranked, Distinct;
      match CheckNodes(dagId, version, nodes) {
        case Some(e) => return Err(e);
        case None =>
      }
      CheckedIsClosed(dagId, version, nodes);
      IdsKnown(nodes);
      var search := new CycleSearch(g);
      var i := 0;
      while i < |nodes|
        invariant 0 <= i <= |nodes|
        invariant search.Valid() && search.stack == [] && search.g == g
        invariant forall k :: 0 <= k < i ==> nodes[k].id in search.finished
      {
        assert nodes[i] in nodes;
        var visit := search.Visit(nodes[i].id);
        if visit.Err? { return Err(CycleAt(visit.error)); }
        i := i + 1;
      }
      forall t | t in g ensures t in search.finished {
        var n := NodeOf(nodes, t);
        var k :| 0 <= k < |nodes| && nodes[k] == n;
      }
      rank := OrderIsRank(g, search.finished);
      RankedIsAcyclic(g, rank);
      return Ok(());
    }

    /** Every task exactly once, each after all its dependencies. */
    method TopologicalOrder() returns (order: seq<string>)
      requires Validated()
      ensures IsTopologicalOrder(g, order)
    {
      IdsKnown(nodes);
      var collector := new Collector(g, rank);
      var i := 0;
      while i < |nodes|
        invariant 0 <= i <= |nodes|
        invariant collector.Valid() && collector.g == g
        invariant forall k :: 0 <= k < i ==> nodes[k].id in collector.ordered
      {
        assert nodes[i] in nodes;
        collector.Append(nodes[i].id);
        i := i + 1;
      }
      forall t | t in g ensures t in collector.ordered {
        var n := NodeOf(nodes, t);
        var k :| 0 <= k < |nodes| && nodes[k] == n;
      }
      return collector.ordered;
    }

    /** Accepted exactly when all tasks are known and no observed dependency of a task first
        occurs after it; an error names the first unknown task or a real violation. */
    method AssertObservedOrder(taskIds: seq<string>) returns (r: Result<(), ObservedError>)
      ensures r.Ok? <==> Accepted(g, taskIds)
      ensures r.Err? && r.error.UnknownTask? <==> FirstUnknown(g, taskIds).Some?
      ensures r.Err? && r.error.UnknownTask? ==> r.error.id == FirstUnknown(g, taskIds).value
      ensures r.Err? && r.error.RanBeforeDependency? ==> Violates(g, taskIds, r.error.id, r.error.dependency)
    {
      hide Position, FollowsDependencies, Violates;
      var seen := FirstPositions(taskIds);
      if seen.Err? { return Err(UnknownTask(seen.error)); }
      var positions, keys := seen.value.0, seen.value.1;
      var i := 0;
      while i < |keys|
        invariant 0 <= i <= |keys|
        invariant forall k :: 0 <= k < i ==> FollowsDependencies(g, taskIds, keys[k])
      {
        assert keys[i] in positions;
        var late := LateDependency(taskIds, positions, keys[i]);
        if late.Some? {
          ViolationRejects(g, taskIds, keys[i], late.value);
          return Err(RanBeforeDependency(keys[i], late.value));
        }
        i := i + 1;
      }
      return Ok(());
    }

    /** `positions`: every observed task with its first index, in order of first occurrence. */
    method FirstPositions(taskIds: seq<string>) returns (r: Result<(map<string, nat>, seq<string>), string>)
      ensures match FirstUnknown(g, taskIds)
              case Some(id) => r == Err(id)
              case None =>
                && r.Ok?
                && (forall t :: t in taskIds <==> t in r.value.0)
                && (forall t :: t in r.value.0 <==> t in r.value.1)
                && (forall t :: t in r.value.0 ==> t in g && r.value.0[t] == Position(taskIds, t))
    {
      hide Position, FirstUnknown, Tracks;
      var positions: map<string, nat> := map[];
      var keys: seq<string> := [];
      var i := 0;
      TracksNothing(taskIds);
      while i < |taskIds|
        invariant 0 <= i <= |taskIds|
        invariant FirstUnknown(g, taskIds) == FirstUnknown(g, taskIds[i..])
        invariant Tracks(taskIds, i, positions, keys)
      {
        var id := taskIds[i];
        UnknownNext(g, taskIds, i);
        if id !in g { return Err(id); }
        TracksNext(taskIds, i, positions, keys);
        if id !in positions {
          positions := positions[id := i];
          keys := keys + [id];
        }
        i := i + 1;
      }
      UnknownDone(g, taskIds, positions, keys);
      return Ok((positions, keys));
    }

    method LateDependency(taskIds: seq<string>, positions: map<string, nat>, id: string) returns (late: Option<string>)
      requires forall t :: t in taskIds <==> t in positions
      requires forall t :: t in positions ==> t in g && positions[t] == Position(taskIds, t)
      requires id in positions
      ensures late.None? <==> FollowsDependencies(g, taskIds, id)
      ensures late.Some? ==> Violates(g, taskIds, id, late.value)
    {
      hide Position;
      var k := 0;
      while k < |g[id]|
        invariant 0 <= k <= |g[id]|
        invariant forall m :: 0 <= m < k && g[id][m] in taskIds ==> Position(taskIds, g[id][m]) <= Position(taskIds, id)
      {
        var d := g[id][k];
        if d in positions && positions[d] > positions[id] { return Some(d); }
        k := k + 1;
      }
      return None;
    }
  }

  /** The list and set of `topological_order`; the recursion has no guard against cycles. */
  class Collector {
    const g: Graph
    ghost const rank: map<string, nat>
    var visited: set<string>
    var ordered: seq<string>

    ghost predicate Valid()
      reads this
    {
      Ranked(g, rank) && visited == (set t | t in ordered) && Distinct(ordered) && DependenciesFirst(g, ordered)
    }

    constructor (g: Graph, ghost rank: map<string, nat>)
      requires Ranked(g, rank)
      ensures Valid() && this.g == g && this.rank == rank && ordered == []
    {
      this.g, this.rank := g, rank;
      visited, ordered := {}, [];
    }

    method Append(id: string)
      requires Valid() && id in g
      modifies this
      ensures Valid() && old(ordered) <= ordered && id in ordered
      ensures forall t :: t in ordered && t !in old(ordered) ==> rank[t] <= rank[id]
      decreases rank[id]
    {
      hide Distinct;
      if id in visited { return; }
      var i := 0;
      while i < |g[id]|
        invariant 0 <= i <= |g[id]|
        invariant Valid() && old(ordered) <= ordered
        invariant forall t :: t in ordered && t !in old(ordered) ==> rank[t] < rank[id]
        invariant forall k :: 0 <= k < i ==> g[id][k] in ordered
      {
        Append(g[id][i]);
        i := i + 1;
      }
      AppendKeepsOrder(g, ordered, id);
      visited := visited + {id};
      ordered := ordered + [id];
    }
  }

  // ---------- The observed order ----------

  ghost predicate FollowsDependencies(g: Graph, observed: seq<string>, t: string)
    requires t in g
  {
    forall d :: d in g[t] && d in observed ==> Position(observed, d) <= Position(observed, t)
  }

  /** `t` was first observed before its dependency `d` was. */
  ghost predicate Violates(g: Graph, observed: seq<string>, t: string, d: string) {
    t in g && t in observed && d in observed && d in g[t] && Position(observed, d) > Position(observed, t)
  }

  lemma ViolationRejects(g: Graph, observed: seq<string>, t: string, d: string)
    requires Violates(g, observed, t, d)
    ensures !Accepted(g, observed)
  {
  }

  function FirstUnknown(g: Graph, observed: seq<string>): (r: Option<string>)
    ensures r.None? <==> forall t :: t in observed ==> t in g
  {
    if observed == [] then None else if observed[0] !in g then Some(observed[0]) else FirstUnknown(g, observed[1..])
  }

  lemma UnknownNext(g: Graph, observed: seq<string>, i: nat)
    requires i < |observed|
    ensures FirstUnknown(g, observed[i..]) ==
              if observed[i] !in g then Some(observed[i]) else FirstUnknown(g, observed[i + 1..])
  {
    assert observed[i..][1..] == observed[i + 1..];
  }

  /** `positions` and `keys` after the first `i` observations. */
  ghost predicate Tracks(observed: seq<string>, i: nat, positions: map<string, nat>, keys: seq<string>) {
    && (forall t :: t in positions <==> Position(observed, t) < i)
    && (forall t :: t in positions <==> t in keys)
    && (forall t :: t in positions ==> positions[t] == Position(observed, t))
  }

  lemma TracksNothing(observed: seq<string>)
    ensures Tracks(observed, 0, map[], []) && observed[0..] == observed
  {
  }

  lemma TracksNext(observed: seq<string>, i: nat, positions: map<string, nat>, keys: seq<string>)
    requires i < |observed| && Tracks(observed, i, positions, keys)
    ensures observed[i] in positions ==> Tracks(observed, i + 1, positions, keys)
    ensures observed[i] !in positions ==> Tracks(observed, i + 1, positions[observed[i] := i], keys + [observed[i]])
  {
    hide Position;
    PositionIs(observed, observed[i]);
    forall t ensures Position(observed, t) == i ==> t == observed[i] { PositionIs(observed, t); }
  }

  lemma UnknownDone(g: Graph, observed: seq<string>, positions: map<string, nat>, keys: seq<string>)
    requires Tracks(observed, |observed|, positions, keys)
    requires FirstUnknown(g, observed) == FirstUnknown(g, observed[|observed|..])
    ensures FirstUnknown(g, observed) == None
    ensures forall t :: t in observed <==> t in positions
    ensures forall t :: t in positions <==> t in keys
    ensures forall t :: t in positions ==> t in g && positions[t] == Position(observed, t)
  {
    hide Position;
    forall t { PositionIs(observed, t); }
  }

  ghost predicate Accepted(g: Graph, observed: seq<string>) {
    forall t :: t in observed ==> t in g && FollowsDependencies(g, observed, t)
  }

  ghost predicate IsSubsequence(a: seq<string>, b: seq<string>) {
    a == [] || (b != [] && ((a[0] == b[0] && IsSubsequence(a[1..], b[1..])) || IsSubsequence(a, b[1..])))
  }

  /** The positions in `b` of the members of a subsequence. */
  lemma {:induction false} SubsequenceIndices(a: seq<string>, b: seq<string>) returns (at: seq<nat>)
    requires IsSubsequence(a, b)
    ensures |at| == |a| && forall i :: 0 <= i < |a| ==> at[i] < |b| && b[at[i]] == a[i]
    ensures forall i, j :: 0 <= i < j < |at| ==> at[i] < at[j]
    decreases |b|
  {
    if a == [] {
      at := [];
    } else if a[0] == b[0] && IsSubsequence(a[1..], b[1..]) {
      var rest := SubsequenceIndices(a[1..], b[1..]);
      at := [0] + seq(|rest|, i requires 0 <= i < |rest| => rest[i] + 1);
    } else {
      var rest := SubsequenceIndices(a, b[1..]);
      at := seq(|rest|, i requires 0 <= i < |rest| => rest[i] + 1);
    }
  }

  lemma DistinctPosition(s: seq<string>, i: nat)
    requires Distinct(s) && i < |s|
    ensures Position(s, s[i]) == i
  {
    PositionIs(s, s[i]);
  }

  /** Whatever tasks an adapter suppresses, the rest of the topological order is accepted. */
  lemma SubsequencesAccepted(g: Graph, order: seq<string>, observed: seq<string>)
    requires IsTopologicalOrder(g, order) && IsSubsequence(observed, order)
    ensures Accepted(g, observed)
  {
    var at := SubsequenceIndices(observed, order);
    assert Distinct(observed);
    forall t | t in observed ensures t in g && FollowsDependencies(g, observed, t) {
      var i :| 0 <= i < |observed| && observed[i] == t;
      forall d | d in g[t] && d in observed ensures Position(observed, d) <= Position(observed, t) {
        var j :| 0 <= j < |observed| && observed[j] == d;
        assert d in order[..at[i]];
        var m :| 0 <= m < at[i] && order[m] == d;
        assert m == at[j];
        DistinctPosition(observed, i);
        DistinctPosition(observed, j);
      }
    }
  }

  /** An observation of every task exactly once is accepted exactly when it is a topological order. */
  lemma CompleteAcceptedIffTopological(g: Graph, observed: seq<string>)
    requires Closed(g) && Distinct(observed) && (set t | t in observed) == g.Keys
    ensures Accepted(g, observed) <==> IsTopologicalOrder(g, observed)
  {
    if Accepted(g, observed) {
      assert forall i :: 0 <= i < |observed| ==> FollowsDependencies(g, observed, observed[i]);
      forall i | 0 <= i < |observed| ensures forall d :: d in g[observed[i]] ==> d in observed[..i] {
        forall d | d in g[observed[i]] ensures d in observed[..i] {
          assert d in g.Keys && d in (set t | t in observed);
          PositionIs(observed, d);
          DistinctPosition(observed, i);
          assert observed[..i][Position(observed, d)] == d;
        }
      }
    }
    if IsTopologicalOrder(g, observed) {
      IsOwnSubsequence(observed);
      SubsequencesAccepted(g, observed, observed);
    }
  }

  lemma {:induction false} IsOwnSubsequence(s: seq<string>)
    ensures IsSubsequence(s, s)
  {
    if s != [] { IsOwnSubsequence(s[1..]); }
  }

  // ---------- The checks and the cycles in terms of the nodes ----------

  /** What a definition must satisfy before the search for cycles. */
  ghost predicate WellFormed(dagId: string, version: string, nodes: seq<Node>) {
    && Strip(dagId) != "" && Strip(version) != ""
    && (forall i, j :: 0 <= i < j < |nodes| ==> nodes[i].id != nodes[j].id)
    && forall i :: 0 <= i < |nodes| ==> NodeFits(nodes, nodes[i])
  }

  ghost predicate NodeFits(nodes: seq<Node>, n: Node) {
    && Strip(n.id) != "" && Strip(n.operationKind) != "" && Strip(n.target) != ""
    && forall d :: d in n.dependencies ==> d != n.id && exists other :: other in nodes && other.id == d
  }

  lemma {:induction false} ByIdKeys(nodes: seq<Node>, t: string)
    ensures t in ById(nodes) <==> exists n :: n in nodes && n.id == t
  {
    if nodes != [] {
      var init, last := nodes[..|nodes| - 1], nodes[|nodes| - 1];
      ByIdKeys(init, t);
      assert nodes == init + [last];
      if t in ById(nodes) && t != last.id {
        var n :| n in init && n.id == t;
        assert n in nodes;
      }
      if t == last.id { assert last in nodes; }
    }
  }

  /** With distinct ids every node's dependencies are looked up under its id. */
  lemma {:induction false} ByIdHolds(nodes: seq<Node>, i: nat)
    requires i < |nodes| && forall j, k :: 0 <= j < k < |nodes| ==> nodes[j].id != nodes[k].id
    ensures nodes[i].id in ById(nodes) && ById(nodes)[nodes[i].id] == nodes[i].dependencies
  {
    if i < |nodes| - 1 { ByIdHolds(nodes[..|nodes| - 1], i); }
  }

  lemma {:induction false} ByIdSize(nodes: seq<Node>)
    ensures |ById(nodes)| <= |nodes|
    ensures |ById(nodes)| == |nodes| <==> forall i, j :: 0 <= i < j < |nodes| ==> nodes[i].id != nodes[j].id
  {
    if nodes != [] {
      var init, last := nodes[..|nodes| - 1], nodes[|nodes| - 1];
      ByIdSize(init);
      ByIdKeys(init, last.id);
      var g := ById(init);
      assert g[last.id := last.dependencies].Keys == g.Keys + {last.id};
      assert |g[last.id := last.dependencies]| == |g.Keys + {last.id}| && |g| == |g.Keys|;
      if last.id in g {
        var n :| n in init && n.id == last.id;
        var i :| 0 <= i < |init| && init[i] == n;
        assert nodes[i].id == nodes[|nodes| - 1].id;
      } else {
        forall i | 0 <= i < |init| ensures nodes[i].id != last.id { assert init[i] in init; }
        assert forall i, j :: 0 <= i < j < |init| ==> init[i] == nodes[i] && init[j] == nodes[j];
      }
    }
  }

  lemma {:induction false} DependencyErrorIs(g: Graph, id: string, dependencies: seq<string>)
    ensures DependencyError(g, id, dependencies) == None <==> forall d :: d in dependencies ==> d != id && d in g
    ensures match DependencyError(g, id, dependencies)
            case Some(DependsOnItself(t)) => t == id && id in dependencies
            case Some(UnknownDependency(t, d)) => t == id && d in dependencies && d !in g
            case Some(_) => false
            case None => true
  {
    if dependencies != [] {
      DependencyErrorIs(g, id, dependencies[1..]);
      assert forall d :: d in dependencies <==> d == dependencies[0] || d in dependencies[1..];
    }
  }

  lemma {:induction false} NoNodeError(g: Graph, all: seq<Node>, nodes: seq<Node>)
    requires forall t :: t in g <==> exists n :: n in all && n.id == t
    ensures NodeError(g, nodes) == None <==> forall i :: 0 <= i < |nodes| ==> NodeFits(all, nodes[i])
  {
    hide Strip, DependencyError;
    if nodes != [] {
      NoNodeError(g, all, nodes[1..]);
      DependencyErrorIs(g, nodes[0].id, nodes[0].dependencies);
      assert forall i :: 1 <= i < |nodes| ==> nodes[i] == nodes[1..][i - 1];
      assert forall i :: 0 <= i < |nodes| - 1 ==> nodes[1..][i] == nodes[i + 1];
    }
  }

  /** The node that an error is about, and what is wrong with it. */
  ghost predicate IsWrong(g: Graph, n: Node, e: DagError) {
    match e
    case BlankId => Strip(n.id) == ""
    case MissingMetadata(t) => n.id == t && (Strip(n.operationKind) == "" || Strip(n.target) == "")
    case DependsOnItself(t) => n.id == t && t in n.dependencies
    case UnknownDependency(t, d) => n.id == t && d in n.dependencies && d !in g
    case _ => false
  }

  lemma {:induction false} NodeErrorIsReal(g: Graph, nodes: seq<Node>)
    requires NodeError(g, nodes).Some?
    ensures exists n :: n in nodes && IsWrong(g, n, NodeError(g, nodes).value)
  {
    hide Strip, DependencyError;
    DependencyErrorIs(g, nodes[0].id, nodes[0].dependencies);
    if IsWrong(g, nodes[0], NodeError(g, nodes).value) {
      assert nodes[0] in nodes;
    } else {
      NodeErrorIsReal(g, nodes[1..]);
      var n :| n in nodes[1..] && IsWrong(g, n, NodeError(g, nodes).value);
      assert n in nodes;
    }
  }

  /** The checks pass exactly for well-formed definitions, and the error they give is real. */
  lemma ChecksAre(dagId: string, version: string, nodes: seq<Node>)
    ensures CheckNodes(dagId, version, nodes) == None <==> WellFormed(dagId, version, nodes)
    ensures CheckNodes(dagId, version, nodes) == Some(MissingIdentity) <==> Strip(dagId) == "" || Strip(version) == ""
    ensures CheckNodes(dagId, version, nodes) == Some(DuplicateIds) ==>
              exists i, j :: 0 <= i < j < |nodes| && nodes[i].id == nodes[j].id
    ensures match CheckNodes(dagId, version, nodes)
            case None => true
            case Some(MissingIdentity) => true
            case Some(DuplicateIds) => true
            case Some(e) => exists n :: n in nodes && IsWrong(ById(nodes), n, e)
    ensures forall t :: t in ById(nodes) <==> exists n :: n in nodes && n.id == t
  {
    hide Strip, ById, NodeError, NodeFits, IsWrong;
    forall t { ByIdKeys(nodes, t); }
    ByIdSize(nodes);
    NoNodeError(ById(nodes), nodes, nodes);
    if NodeError(ById(nodes), nodes).Some? {
      NodeErrorIsReal(ById(nodes), nodes);
      NeverIdentity(ById(nodes), nodes);
    }
  }

  lemma NeverIdentity(g: Graph, nodes: seq<Node>)
    requires NodeError(g, nodes).Some?
    ensures NodeError(g, nodes) != Some(MissingIdentity) && NodeError(g, nodes) != Some(DuplicateIds)
  {
    NodeErrorIsReal(g, nodes);
  }

  /** Each task of the walk is the id of a node that depends on the next one. */
  ghost predicate DependsAlong(nodes: seq<Node>, p: seq<string>) {
    forall i :: 0 <= i < |p| - 1 ==> DependsOn(nodes, p[i], p[i + 1])
  }

  ghost predicate DependsOn(nodes: seq<Node>, t: string, d: string) {
    exists n :: n in nodes && n.id == t && d in n.dependencies
  }

  /** On well-formed definitions the search accepts exactly when no walk along the nodes'
      dependencies returns to where it started. */
  lemma AcyclicIs(dagId: string, version: string, nodes: seq<Node>)
    requires CheckNodes(dagId, version, nodes) == None
    ensures Acyclic(ById(nodes)) <==>
              forall p: seq<string> :: |p| >= 2 && DependsAlong(nodes, p) ==> p[0] != p[|p| - 1]
  {
    hide ById, CheckNodes;
    forall p: seq<string> | |p| >= 2 ensures IsCycle(ById(nodes), p) <==> DependsAlong(nodes, p) && p[0] == p[|p| - 1] {
      if DependsAlong(nodes, p) && p[0] == p[|p| - 1] { WalkIsPath(dagId, version, nodes, p); }
      if IsCycle(ById(nodes), p) { PathIsWalk(nodes, p); }
    }
  }

  lemma PathIsWalk(nodes: seq<Node>, p: seq<string>)
    requires IsPath(ById(nodes), p)
    ensures DependsAlong(nodes, p)
  {
    forall i | 0 <= i < |p| - 1 ensures DependsOn(nodes, p[i], p[i + 1]) {
      assert p[i + 1] in ById(nodes)[p[i]];
      var n := NodeOf(nodes, p[i]);
      assert n in nodes && n.id == p[i] && p[i + 1] in n.dependencies;
    }
  }

  lemma WalkIsPath(dagId: string, version: string, nodes: seq<Node>, p: seq<string>)
    requires CheckNodes(dagId, version, nodes) == None && |p| >= 2 && DependsAlong(nodes, p) && p[0] == p[|p| - 1]
    ensures IsPath(ById(nodes), p)
  {
    hide ById;
    ChecksAre(dagId, version, nodes);
    forall i | 0 <= i < |p| - 1 ensures p[i] in ById(nodes) && p[i + 1] in ById(nodes)[p[i]] {
      assert DependsOn(nodes, p[i], p[i + 1]);
      var n :| n in nodes && n.id == p[i] && p[i + 1] in n.dependencies;
      var k :| 0 <= k < |nodes| && nodes[k] == n;
      ByIdHolds(nodes, k);
    }
  }
}
