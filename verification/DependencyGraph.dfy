/** internal/agent/subagent_runtime.go, validateSubAgentDependencyGraph: a plan is rejected when a run repeats a
    dependency or when the dependencies form a cycle.  The check is a depth-first search over three colours that
    stops at the first dependency it finds on the current path.

    The graph is read off the requests exactly as the source builds it, so the result below needs neither unique
    identifiers nor existing dependency targets. */
module DependencyGraph {
  import opened Text

  datatype RunRequest = RunRequest(id: string, dependsOn: seq<string>)

  datatype Verdict = Accepted | DuplicateDependency | DependencyCycle

  datatype RunId = RunId(name: string)

  /** A request after its names were resolved: the trimmed ID, or a name made of the position when it is blank. */
  datatype Run = Run(id: RunId, dependsOn: seq<RunId>)

  function Resolve(item: RunRequest, index: nat): Run {
    var id := TrimSpace(item.id);
    Run(RunId(if id == "" then "ordinal-" + Decimal(index) else id), TrimAll(item.dependsOn))
  }

  function TrimAll(names: seq<string>): seq<RunId> {
    seq(|names|, k requires 0 <= k < |names| => RunId(TrimSpace(names[k])))
  }

  function ResolveAll(items: seq<RunRequest>): seq<Run> {
    seq(|items|, i requires 0 <= i < |items| => Resolve(items[i], i))
  }

  lemma DecimalSize(n: nat)
    ensures |Decimal(n)| > 0 && (|Decimal(n)| == 1 <==> n < 10)
  {
    if n >= 10 {
      assert |Decimal(n / 10)| > 0;
    }
  }

  lemma DigitsDiffer(i: nat, j: nat)
    requires i < 10 && j < 10 && "0123456789"[i] == "0123456789"[j]
    ensures i == j
  {
  }

  lemma DecimalEnds(n: nat)
    ensures var d := Decimal(n); d[|d| - 1] == "0123456789"[n % 10] && (n >= 10 ==> d[..|d| - 1] == Decimal(n / 10))
  {
    var front := if n < 10 then "" else Decimal(n / 10);
    assert Decimal(n) == front + ["0123456789"[n % 10]];
  }

  lemma {:induction false} DecimalTellsApart(m: nat, n: nat)
    requires Decimal(m) == Decimal(n)
    ensures m == n
  {
    DecimalSize(m);
    DecimalSize(n);
    DecimalEnds(m);
    DecimalEnds(n);
    DigitsDiffer(m % 10, n % 10);
    if m >= 10 {
      DecimalTellsApart(m / 10, n / 10);
    }
  }

  /** When two requests go by the same name: two given names are compared trimmed, two missing ones never clash, and a
      given one clashes with a missing one only when it spells the other's position. */
  lemma NamesClash(items: seq<RunRequest>, i: nat, j: nat)
    requires i < j < |items|
    ensures var a, b, runs := TrimSpace(items[i].id), TrimSpace(items[j].id), ResolveAll(items);
      runs[i].id == runs[j].id <==>
        || (a != "" && a == b)
        || (a == "" && b == "ordinal-" + Decimal(i))
        || (b == "" && a == "ordinal-" + Decimal(j))
  {
    var head, runs := "ordinal-", ResolveAll(items);
    assert |head| == 8;
    if runs[i].id == runs[j].id && TrimSpace(items[i].id) == "" && TrimSpace(items[j].id) == "" {
      assert runs[i].id == RunId(head + Decimal(i)) && runs[j].id == RunId(head + Decimal(j));
      assert (head + Decimal(i))[8..] == Decimal(i) && (head + Decimal(j))[8..] == Decimal(j);
      DecimalTellsApart(i, j);
    }
  }

  // ----- What the requests say -----

  ghost predicate DependsOn(runs: seq<Run>, dependant: RunId, dependency: RunId) {
    exists i | 0 <= i < |runs| :: runs[i].id == dependant && dependency in runs[i].dependsOn
  }

  predicate HasRepetition(deps: seq<RunId>) {
    exists i, j | 0 <= i < j < |deps| :: deps[i] == deps[j]
  }

  ghost predicate RepeatsDependency(runs: seq<Run>) {
    exists i | 0 <= i < |runs| :: HasRepetition(runs[i].dependsOn)
  }

  /** A walk along dependency edges that comes back to where it started. */
  ghost predicate Cyclic(runs: seq<Run>) {
    exists walk: seq<RunId> {:trigger IsWalk(runs, walk)} :: |walk| >= 2 && walk[0] == walk[|walk| - 1] && IsWalk(runs, walk)
  }

  ghost predicate IsWalk(runs: seq<Run>, walk: seq<RunId>) {
    forall i, j | 0 <= i && j == i + 1 && j < |walk| :: DependsOn(runs, walk[i], walk[j])
  }

  /** Every run has a rank, and every dependency of a ranked run has a rank strictly below it. */
  ghost predicate IsRanking(runs: seq<Run>, rank: map<RunId, nat>) {
    && (forall i | 0 <= i < |runs| :: runs[i].id in rank)
    && (forall v, w {:trigger DependsOn(runs, v, w)} | v in rank && DependsOn(runs, v, w) :: w in rank && rank[w] < rank[v])
  }

  /** A ranked plan has no cycle: along a walk the rank falls with every step, so it cannot come back. */
  lemma RankingExcludesCycles(runs: seq<Run>, rank: map<RunId, nat>)
    requires IsRanking(runs, rank)
    ensures !Cyclic(runs)
  {
    forall walk: seq<RunId> | |walk| >= 2 && walk[0] == walk[|walk| - 1] && IsWalk(runs, walk) ensures false {
      assert DependsOn(runs, walk[0], walk[1]);
      RankFallsAlongWalk(runs, rank, walk, |walk| - 1);
    }
  }

  lemma {:induction false} RankFallsAlongWalk(runs: seq<Run>, rank: map<RunId, nat>, walk: seq<RunId>, k: nat)
    requires IsRanking(runs, rank) && IsWalk(runs, walk)
    requires 0 < k < |walk| && walk[0] in rank
    ensures walk[k] in rank && rank[walk[k]] < rank[walk[0]]
  {
    if k > 1 {
      RankFallsAlongWalk(runs, rank, walk, k - 1);
    }
    assert DependsOn(runs, walk[k - 1], walk[k]);
  }

  // ----- The search -----

  type Graph = map<RunId, seq<RunId>>

  function Successors(graph: Graph, id: RunId): seq<RunId> {
    if id in graph then graph[id] else []
  }

  ghost predicate Represents(graph: Graph, runs: seq<Run>) {
    forall a, b :: b in Successors(graph, a) <==> DependsOn(runs, a, b)
  }

  /** Every node the search can meet. */
  ghost function Nodes(graph: Graph): set<RunId> {
    graph.Keys + set a, k | a in graph && 0 <= k < |graph[a]| :: graph[a][k]
  }

  ghost predicate Encloses(nodes: set<RunId>, graph: Graph) {
    forall a, w {:trigger w in Successors(graph, a)} | w in Successors(graph, a) :: w in nodes
  }

  ghost predicate IsPath(graph: Graph, path: seq<RunId>) {
    forall i, j | 0 <= i && j == i + 1 && j < |path| :: path[j] in Successors(graph, path[i])
  }

  /** There is a path of at least one edge. */
  ghost predicate Reaches(graph: Graph, from: RunId, to: RunId) {
    exists walk: seq<RunId> {:trigger IsPath(graph, walk)} ::
      |walk| >= 2 && walk[0] == from && walk[|walk| - 1] == to && IsPath(graph, walk)
  }

  ghost predicate HasCycle(graph: Graph) {
    exists id :: Reaches(graph, id, id)
  }

  lemma ReachesOneMore(graph: Graph, from: RunId, middle: RunId, to: RunId)
    requires from == middle || Reaches(graph, from, middle)
    requires to in Successors(graph, middle)
    ensures Reaches(graph, from, to)
  {
    if from == middle {
      assert IsPath(graph, [from, to]);
    } else {
      var walk: seq<RunId> :| |walk| >= 2 && walk[0] == from && walk[|walk| - 1] == middle && IsPath(graph, walk);
      assert IsPath(graph, walk + [to]);
    }
  }

  ghost predicate RanksBelow(graph: Graph, rank: map<RunId, nat>) {
    forall v, w {:trigger w in Successors(graph, v)} | v in rank && w in Successors(graph, v) :: w in rank && rank[w] < rank[v]
  }

  datatype Mark = Visiting | Visited

  /** The closure variables of the recursive visit.  A name without a mark is unvisited. */
  class Search {
    const graph: Graph
    var marks: map<RunId, Mark>
    ghost const nodes: set<RunId>
    /** The names marked as visited, numbered in the order they were finished. */
    ghost var rank: map<RunId, nat>
    ghost var finished: nat

    constructor (graph: Graph, ghost nodes: set<RunId>)
      requires Encloses(nodes, graph)
      ensures Valid() && marks == map[] && this.graph == graph && this.nodes == nodes
    {
      this.graph := graph;
      this.nodes := nodes;
      marks := map[];
      rank := map[];
      finished := 0;
    }

    ghost predicate Valid()
      reads this
    {
      && Encloses(nodes, graph)
      && (forall v | v in marks :: v in nodes)
      && (forall v :: v in rank <==> v in marks && marks[v] == Visited)
      && (forall v | v in rank :: rank[v] < finished)
      && RanksBelow(graph, rank)
    }

    ghost predicate OnPath(v: RunId)
      reads this
    {
      v in marks && marks[v] == Visiting
    }

    method Visit(id: RunId) returns (acyclic: bool)
      requires Valid() && id in nodes
      requires forall v | OnPath(v) :: Reaches(graph, v, id)
      modifies this
      ensures acyclic ==> Valid() && id in rank
      ensures acyclic ==> forall v :: OnPath(v) <==> old(OnPath(v))
      ensures acyclic ==> forall v | v in old(rank) :: v in rank
      ensures acyclic ==> forall v | v in old(marks) :: v in marks
      ensures !acyclic ==> HasCycle(graph)
      decreases |nodes - marks.Keys|
    {
      if id in marks {
        if marks[id] == Visiting {
          assert OnPath(id);
          return false;
        }
        return true;
      }
      marks := marks[id := Visiting];
      var dependencies := Successors(graph, id);
      for i := 0 to |dependencies|
        invariant Valid()
        invariant forall v :: OnPath(v) <==> old(OnPath(v)) || v == id
        invariant forall v | v in old(rank) :: v in rank
        invariant forall v | v in old(marks) :: v in marks
        invariant AllRanked(dependencies, i, rank)
      {
        ghost var before := rank;
        var dependency := dependencies[i];
        assert dependency in Successors(graph, id);
        forall v | OnPath(v) ensures Reaches(graph, v, dependency) {
          ReachesOneMore(graph, v, id, dependency);
        }
        assert OnPath(id);
        RemainingShrinks(nodes, old(marks).Keys, marks.Keys, id);
        var visited := Visit(dependency);
        if !visited {
          return false;
        }
        OneMoreRanked(dependencies, i, before, rank);
      }
      assert OnPath(id);
      Finish(id, dependencies);
      acyclic := true;
    }

    /** The last assignment of the visit: everything below is finished, so the name joins the finished ones. */
    method Finish(id: RunId, ghost dependencies: seq<RunId>)
      requires Valid() && OnPath(id) && dependencies == Successors(graph, id) && AllRanked(dependencies, |dependencies|, rank)
      modifies this
      ensures Valid() && id in rank
      ensures forall v :: OnPath(v) <==> old(OnPath(v)) && v != id
      ensures forall v | v in old(rank) :: v in rank
      ensures forall v | v in old(marks) :: v in marks
    {
      marks := marks[id := Visited];
      rank := rank[id := finished];
      finished := finished + 1;
    }
  }

  ghost predicate AllRanked(dependencies: seq<RunId>, count: nat, rank: map<RunId, nat>) {
    count <= |dependencies| && forall k | 0 <= k < count :: dependencies[k] in rank
  }

  lemma OneMoreRanked(dependencies: seq<RunId>, count: nat, before: map<RunId, nat>, after: map<RunId, nat>)
    requires AllRanked(dependencies, count, before) && count < |dependencies|
    requires (forall v | v in before :: v in after) && dependencies[count] in after
    ensures AllRanked(dependencies, count + 1, after)
  {
  }

  /** Termination of the search: a visit below an unmarked name starts with fewer unmarked names. */
  lemma RemainingShrinks(nodes: set<RunId>, before: set<RunId>, now: set<RunId>, id: RunId)
    requires id in nodes && id !in before && id in now && forall v | v in before :: v in now
    ensures |nodes - now| < |nodes - before|
  {
    var rest := (nodes - before) - {id};
    assert rest == (nodes - now) + (rest - (nodes - now));
    assert nodes - before == rest + {id};
  }

  /** The whole check.  The graph is built first and a repetition is reported before any cycle. */
  method ValidateDependencyGraph(items: seq<RunRequest>) returns (verdict: Verdict)
    ensures verdict == DuplicateDependency <==> RepeatsDependency(ResolveAll(items))
    ensures verdict == DependencyCycle <==> !RepeatsDependency(ResolveAll(items)) && Cyclic(ResolveAll(items))
    ensures verdict == Accepted <==> !RepeatsDependency(ResolveAll(items)) && !Cyclic(ResolveAll(items))
    ensures verdict == Accepted ==> exists rank :: IsRanking(ResolveAll(items), rank)
  {
    verdict := ValidateResolved(ResolveAll(items));
  }

  method ValidateResolved(runs: seq<Run>) returns (verdict: Verdict)
    ensures verdict == DuplicateDependency <==> RepeatsDependency(runs)
    ensures verdict == DependencyCycle <==> !RepeatsDependency(runs) && Cyclic(runs)
    ensures verdict == Accepted <==> !RepeatsDependency(runs) && !Cyclic(runs)
    ensures verdict == Accepted ==> exists rank :: IsRanking(runs, rank)
  {
    var ids: seq<RunId> := [];
    var graph: Graph := map[];
    for index := 0 to |runs|
      invariant |ids| == index && forall i | 0 <= i < index :: ids[i] == runs[i].id
      invariant Represents(graph, runs[..index])
      invariant forall i | 0 <= i < index :: !HasRepetition(runs[i].dependsOn)
    {
      var run := runs[index];
      ids := ids + [run.id];
      var extended, repeated := AddDependencies(graph, run.id, run.dependsOn);
      if repeated {
        assert HasRepetition(runs[index].dependsOn);
        return DuplicateDependency;
      }
      RepresentsOneMore(graph, extended, runs, index);
      graph := extended;
    }
    assert runs[..|runs|] == runs;
    var acyclic := SearchAll(graph, ids);
    CycleIsCycle(graph, runs);
    if !acyclic {
      return DependencyCycle;
    }
    ghost var rank: map<RunId, nat> :| RanksBelow(graph, rank) && forall i | 0 <= i < |ids| :: ids[i] in rank;
    assert IsRanking(runs, rank);
    RankingExcludesCycles(runs, rank);
    return Accepted;
  }

  lemma CycleIsCycle(graph: Graph, runs: seq<Run>)
    requires Represents(graph, runs)
    ensures HasCycle(graph) <==> Cyclic(runs)
  {
    if HasCycle(graph) {
      var id :| Reaches(graph, id, id);
      var walk: seq<RunId> :| |walk| >= 2 && walk[0] == id && walk[|walk| - 1] == id && IsPath(graph, walk);
      assert IsWalk(runs, walk);
    }
    if Cyclic(runs) {
      var walk: seq<RunId> :| |walk| >= 2 && walk[0] == walk[|walk| - 1] && IsWalk(runs, walk);
      assert IsPath(graph, walk);
      assert Reaches(graph, walk[0], walk[0]);
    }
  }

  /** The inner loop over the dependencies of one run, with its set of names already seen. */
  method AddDependencies(graph: Graph, id: RunId, dependencies: seq<RunId>) returns (result: Graph, repeated: bool)
    ensures repeated <==> HasRepetition(dependencies)
    ensures !repeated ==> Successors(result, id) == Successors(graph, id) + dependencies
    ensures forall other | other != id :: Successors(result, other) == Successors(graph, other)
  {
    result := graph;
    var seen: set<RunId> := {};
    for i := 0 to |dependencies|
      invariant seen == set k | 0 <= k < i :: dependencies[k]
      invariant !HasRepetition(dependencies[..i])
      invariant Successors(result, id) == Successors(graph, id) + dependencies[..i]
      invariant forall other | other != id :: Successors(result, other) == Successors(graph, other)
    {
      var dependency := dependencies[i];
      if dependency in seen {
        return result, true;
      }
      seen := seen + {dependency};
      result := result[id := Successors(result, id) + [dependency]];
      assert dependencies[..i + 1] == dependencies[..i] + [dependency];
    }
    assert dependencies[..|dependencies|] == dependencies;
    repeated := false;
  }

  lemma RepresentsOneMore(before: Graph, after: Graph, runs: seq<Run>, index: nat)
    requires index < |runs| && Represents(before, runs[..index])
    requires Successors(after, runs[index].id) == Successors(before, runs[index].id) + runs[index].dependsOn
    requires forall other | other != runs[index].id :: Successors(after, other) == Successors(before, other)
    ensures Represents(after, runs[..index + 1])
  {
    var shorter, longer := runs[..index], runs[..index + 1];
    forall a, b ensures DependsOn(longer, a, b) <==> DependsOn(shorter, a, b) || (a == runs[index].id && b in runs[index].dependsOn) {
      if DependsOn(shorter, a, b) {
        var i :| 0 <= i < |shorter| && shorter[i].id == a && b in shorter[i].dependsOn;
        assert longer[i].id == a && b in longer[i].dependsOn;
      }
      if a == runs[index].id && b in runs[index].dependsOn {
        assert longer[index].id == a;
      }
      if DependsOn(longer, a, b) {
        var i :| 0 <= i < |longer| && longer[i].id == a && b in longer[i].dependsOn;
        if i < index {
          assert shorter[i].id == a && b in shorter[i].dependsOn;
        }
      }
    }
  }

  /** The outer loop: the search is started from every run in turn. */
  method SearchAll(graph: Graph, ids: seq<RunId>) returns (acyclic: bool)
    ensures acyclic ==> exists rank: map<RunId, nat> :: RanksBelow(graph, rank) && forall i | 0 <= i < |ids| :: ids[i] in rank
    ensures !acyclic ==> HasCycle(graph)
  {
    ghost var nodes := Nodes(graph) + set i | 0 <= i < |ids| :: ids[i];
    var search := new Search(graph, nodes);
    for i := 0 to |ids|
      invariant search.Valid() && (forall v :: !search.OnPath(v)) && search.graph == graph && search.nodes == nodes
      invariant forall k | 0 <= k < i :: ids[k] in search.rank
    {
      var visited := search.Visit(ids[i]);
      if !visited {
        return false;
      }
    }
    acyclic := true;
  }
}
