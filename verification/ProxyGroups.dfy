/** The dependency sort of proxy groups: Kahn's algorithm over a graph of mutable nodes, and the
    second peel that locates the loops when the sort cannot finish. */
module ProxyGroups {
  import opened Collections
  import opened Walks

  datatype GroupOption = GroupOption(name: string, proxies: seq<string>)

  /** One entry of the configuration with the outcome of decoding its name and proxies. */
  datatype Mapping = Mapping(body: string, decoded: Option<GroupOption>)
  {
    function Name(): string {
      if decoded.Some? then decoded.value.name else ""
    }

    function Proxies(): seq<string> {
      if decoded.Some? then decoded.value.proxies else []
    }
  }

  datatype SortError =
    | BadGroup(index: nat)
    | DuplicateName(name: string)
    | LoopDetected(groups: seq<string>)

  /** `data` and `option` are set for a group; a name that is only referenced, a plain proxy, has neither. */
  datatype GraphNode = GraphNode(
    indegree: int,
    data: Option<Mapping>,
    option: Option<GroupOption>,
    outdegree: int,
    from: seq<string>)

  type NodeMap = map<string, GraphNode>

  // ---------- what the sort promises ----------

  ghost predicate AllDecoded(config: seq<Mapping>) {
    forall m :: m in config ==> m.decoded.Some?
  }

  ghost predicate DistinctNames(config: seq<Mapping>) {
    forall i, j :: 0 <= i < j < |config| ==> config[i].Name() != config[j].Name()
  }

  /** An edge for every group and every name it references, a plain proxy or the group itself included. */
  ghost function References(config: seq<Mapping>): Graph {
    set m, r | m in config && r in m.Proxies() :: (m.Name(), r)
  }

  ghost predicate Sortable(config: seq<Mapping>) {
    AllDecoded(config) && DistinctNames(config) && Acyclic(References(config))
  }

  /** Every group stands after all groups that it references. */
  ghost predicate DependencyOrder(config: seq<Mapping>) {
    forall i, k :: 0 <= i < |config| && 0 <= k < |config| && config[k].Name() in config[i].Proxies() ==> k < i
  }

  /** `n` lies on a cycle or on a walk from one cycle to another. */
  ghost predicate BetweenCycles(config: seq<Mapping>, n: string) {
    ReachesCycle(References(config), n) && ReachesCycle(Reverse(References(config)), n)
  }

  /** The error names the first entry that cannot be taken over, and the entries before it are fine. */
  ghost predicate FirstFault(config: seq<Mapping>, err: SortError) {
    exists i :: 0 <= i < |config| && AllDecoded(config[..i]) && DistinctNames(config[..i]) &&
      match err
      case BadGroup(k) => k == i && config[i].decoded.None?
      case DuplicateName(n) => config[i].decoded.Some? && config[i].Name() == n &&
                               exists k :: 0 <= k < i && config[k].Name() == n
      case LoopDetected(_) => false
  }

  // ---------- what the nodes hold ----------

  ghost function Find(config: seq<Mapping>, n: string): Option<Mapping> {
    if config == [] then None
    else if config[|config| - 1].Name() == n then Some(config[|config| - 1])
    else Find(config[..|config| - 1], n)
  }

  ghost function ProxiesOf(config: seq<Mapping>, n: string): seq<string> {
    var found := Find(config, n);
    if found.Some? then found.value.Proxies() else []
  }

  ghost function OptionOf(config: seq<Mapping>, n: string): Option<GroupOption> {
    var found := Find(config, n);
    if found.Some? then found.value.decoded else None
  }

  /** The names referenced by the groups whose own name is still in `live`, with repetitions. */
  ghost function LiveTargets(config: seq<Mapping>, live: set<string>): multiset<string> {
    if config == [] then multiset{}
    else
      var last := config[|config| - 1];
      LiveTargets(config[..|config| - 1], live) +
      (if last.Name() in live then multiset(last.Proxies()) else multiset{})
  }

  ghost function Nodes(config: seq<Mapping>): set<string> {
    (set m | m in config :: m.Name()) + (set m, r | m in config && r in m.Proxies() :: r)
  }

  /** What the finished graph holds under the name `n`. */
  ghost predicate NodeBuilt(config: seq<Mapping>, graph: NodeMap, n: string)
    requires n in graph
  {
    graph[n] == GraphNode(Targets(config)[n], Find(config, n), OptionOf(config, n), 0, [])
  }

  ghost predicate Built(config: seq<Mapping>, graph: NodeMap) {
    graph.Keys == Nodes(config) && forall n :: n in graph ==> NodeBuilt(config, graph, n)
  }

  lemma {:induction false} FindMeans(config: seq<Mapping>, n: string)
    ensures Find(config, n).Some? ==> Find(config, n).value in config && Find(config, n).value.Name() == n
    ensures Find(config, n).None? ==> forall m :: m in config ==> m.Name() != n
  {
    if config != [] {
      FindMeans(config[..|config| - 1], n);
    }
  }

  lemma FindMember(config: seq<Mapping>, m: Mapping)
    requires DistinctNames(config) && m in config
    ensures Find(config, m.Name()) == Some(m)
  {
    FindMeans(config, m.Name());
  }

  lemma {:induction false} TargetMeans(config: seq<Mapping>, live: set<string>, n: string)
    ensures n in LiveTargets(config, live) <==> exists m :: m in config && m.Name() in live && n in m.Proxies()
  {
    if config != [] {
      var rest, last := config[..|config| - 1], config[|config| - 1];
      TargetMeans(rest, live, n);
      assert config == rest + [last];
    }
  }

  /** Taking one group out of `live` takes exactly its own references away. */
  lemma {:induction false} TargetsWithout(config: seq<Mapping>, live: set<string>, n: string)
    requires DistinctNames(config) && n in live
    ensures LiveTargets(config, live) == LiveTargets(config, live - {n}) + multiset(ProxiesOf(config, n))
  {
    if config != [] {
      var rest, last := config[..|config| - 1], config[|config| - 1];
      if last.Name() == n {
        FindMeans(rest, n);
        TargetsOutside(rest, live, n);
      } else {
        TargetsWithout(rest, live, n);
      }
    }
  }

  lemma {:induction false} TargetsOutside(config: seq<Mapping>, live: set<string>, n: string)
    requires forall m :: m in config ==> m.Name() != n
    ensures LiveTargets(config, live) == LiveTargets(config, live - {n})
  {
    if config != [] {
      TargetsOutside(config[..|config| - 1], live, n);
    }
  }

  ghost function Targets(config: seq<Mapping>): multiset<string> {
    if config == [] then multiset{}
    else Targets(config[..|config| - 1]) + multiset(config[|config| - 1].Proxies())
  }

  lemma {:induction false} TargetsAllLive(config: seq<Mapping>, live: set<string>)
    requires forall m :: m in config ==> m.Name() in live
    ensures LiveTargets(config, live) == Targets(config)
  {
    if config != [] {
      TargetsAllLive(config[..|config| - 1], live);
    }
  }

  lemma NodesGrow(config: seq<Mapping>, m: Mapping)
    ensures Nodes(config + [m]) == Nodes(config) + {m.Name()} + Elements(m.Proxies())
  {
    var after := config + [m];
    forall n
      ensures n in Nodes(after) <==> n in Nodes(config) + {m.Name()} + Elements(m.Proxies())
    {
      if n in Nodes(after) {
        var x :| x in after && (x.Name() == n || n in x.Proxies());
        assert x in config || x == m;
      } else {
        assert m in after && forall x :: x in config ==> x in after;
      }
    }
  }

  lemma OutsideNodes(config: seq<Mapping>)
    ensures forall n :: n !in Nodes(config) ==> n !in Targets(config) && Find(config, n).None?
  {
    TargetsAllLive(config, Nodes(config));
    forall n | n !in Nodes(config)
      ensures n !in Targets(config) && Find(config, n).None?
    {
      TargetMeans(config, Nodes(config), n);
      FindMeans(config, n);
    }
  }

  // ---------- step 1.1: build the graph ----------

  /** The graph `declared` after the references in `targets` beyond its own in-degrees have been counted. */
  ghost predicate Counted(declared: NodeMap, counts: multiset<string>, graph: NodeMap) {
    (forall n :: n in graph <==> n in declared || n in counts) &&
    forall n :: n in graph ==>
      graph[n] == (if n in declared then declared[n].(indegree := declared[n].indegree + counts[n])
                   else GraphNode(counts[n], None, None, 0, []))
  }

  function CountReference(graph: NodeMap, proxy: string): NodeMap {
    if proxy in graph then graph[proxy := graph[proxy].(indegree := graph[proxy].indegree + 1)]
    else graph[proxy := GraphNode(1, None, None, 0, [])]
  }

  lemma CountedStep(declared: NodeMap, counts: multiset<string>, graph: NodeMap, proxy: string)
    requires Counted(declared, counts, graph)
    ensures Counted(declared, counts + multiset{proxy}, CountReference(graph, proxy))
  {
    var graph' := CountReference(graph, proxy);
    var counts' := counts + multiset{proxy};
    assert counts'[proxy] == counts[proxy] + 1;
    forall n | n in graph'
      ensures graph'[n] == (if n in declared then declared[n].(indegree := declared[n].indegree + counts'[n])
                            else GraphNode(counts'[n], None, None, 0, []))
    {
      if n != proxy {
        assert n in graph && graph'[n] == graph[n] && counts'[n] == counts[n];
      }
    }
  }

  lemma PrefixGrows(s: seq<string>, j: nat)
    requires j < |s|
    ensures multiset(s[..j + 1]) == multiset(s[..j]) + multiset{s[j]}
  {
    assert s[..j + 1] == s[..j] + [s[j]];
  }

  method CountReferences(declared: NodeMap, proxies: seq<string>) returns (graph: NodeMap)
    ensures Counted(declared, multiset(proxies), graph)
  {
    graph := declared;
    for j := 0 to |proxies|
      invariant Counted(declared, multiset(proxies[..j]), graph)
    {
      var proxy := proxies[j];
      CountedStep(declared, multiset(proxies[..j]), graph, proxy);
      PrefixGrows(proxies, j);
      if proxy in graph {
        graph := graph[proxy := graph[proxy].(indegree := graph[proxy].indegree + 1)];
      } else {
        graph := graph[proxy := GraphNode(1, None, None, 0, [])];
      }
    }
    assert proxies[..|proxies|] == proxies;
  }

  lemma NextEntry(config: seq<Mapping>, i: nat)
    requires i < |config| && AllDecoded(config[..i]) && DistinctNames(config[..i])
    ensures config[..i + 1] == config[..i] + [config[i]]
    ensures config[i].decoded.None? ==> FirstFault(config, BadGroup(i)) && !AllDecoded(config)
    ensures config[i].decoded.Some? && Find(config[..i], config[i].Name()).Some? ==>
              FirstFault(config, DuplicateName(config[i].Name())) && !DistinctNames(config)
    ensures config[i].decoded.Some? && Find(config[..i], config[i].Name()).None? ==>
              AllDecoded(config[..i + 1]) && DistinctNames(config[..i + 1])
  {
    FindMeans(config[..i], config[i].Name());
    assert config[..i + 1] == config[..i] + [config[i]];
    if config[i].decoded.Some? && Find(config[..i], config[i].Name()).Some? {
      var k :| 0 <= k < i && config[k].Name() == config[i].Name();
    }
  }

  function Declare(graph: NodeMap, mapping: Mapping): NodeMap {
    var node := if mapping.Name() in graph then graph[mapping.Name()] else GraphNode(0, None, None, 0, []);
    graph[mapping.Name() := node.(data := Some(mapping), option := mapping.decoded)]
  }

  lemma EntryBuilt(config: seq<Mapping>, mapping: Mapping, graph: NodeMap, graph': NodeMap)
    requires Built(config, graph)
    requires Counted(Declare(graph, mapping), multiset(mapping.Proxies()), graph')
    ensures Built(config + [mapping], graph')
  {
    NodesGrow(config, mapping);
    assert graph'.Keys == Nodes(config + [mapping]);
    forall n | n in graph'
      ensures NodeBuilt(config + [mapping], graph', n)
    {
      EntryNodeBuilt(config, mapping, graph, graph', n);
    }
  }

  lemma EntryNodeBuilt(config: seq<Mapping>, mapping: Mapping, graph: NodeMap, graph': NodeMap, n: string)
    requires Built(config, graph) && n in graph'
    requires Counted(Declare(graph, mapping), multiset(mapping.Proxies()), graph')
    ensures NodeBuilt(config + [mapping], graph', n)
  {
    var after := config + [mapping];
    assert after[..|config|] == config;
    if n in graph {
      assert NodeBuilt(config, graph, n);
    } else {
      OutsideNodes(config);
    }
  }

  method BuildGraph(config: seq<Mapping>) returns (graph: NodeMap, err: Option<SortError>)
    ensures err.None? <==> AllDecoded(config) && DistinctNames(config)
    ensures err.Some? ==> FirstFault(config, err.value)
    ensures err.None? ==> Built(config, graph)
  {
    graph := map[];
    for i := 0 to |config|
      invariant AllDecoded(config[..i]) && DistinctNames(config[..i]) && Built(config[..i], graph)
    {
      var mapping := config[i];
      ghost var before := graph;
      NextEntry(config, i);
      if mapping.decoded.None? {
        return graph, Some(BadGroup(i));
      }
      var option := mapping.decoded.value;
      OutsideNodes(config[..i]);
      if option.name in graph {
        if graph[option.name].data.Some? {
          return graph, Some(DuplicateName(option.name));
        }
        graph := graph[option.name := graph[option.name].(data := Some(mapping), option := Some(option))];
      } else {
        graph := graph[option.name := GraphNode(0, Some(mapping), Some(option), 0, [])];
      }
      graph := CountReferences(graph, option.proxies);
      EntryBuilt(config[..i], mapping, before, graph);
    }
    assert config[..|config|] == config;
    err := None;
  }

  // ---------- step 1.2: topological sort ----------

  ghost predicate NodeLive(config: seq<Mapping>, live: set<string>, node: GraphNode, n: string) {
    node == GraphNode(LiveTargets(config, live)[n], Find(config, n), OptionOf(config, n), 0, [])
  }

  /** The nodes left are those of `live`, and each in-degree counts the references from groups left. */
  ghost predicate Live(config: seq<Mapping>, graph: NodeMap) {
    (forall n :: n in graph ==> NodeLive(config, graph.Keys, graph[n], n)) &&
    (forall n :: n !in graph ==> n !in LiveTargets(config, graph.Keys))
  }

  /** The queue holds every node without a referrer, once. */
  ghost predicate Queued(graph: NodeMap, queue: seq<string>) {
    Distinct(queue) && forall n :: n in queue <==> n in graph && graph[n].indegree == 0
  }

  /** Every group stands before all groups that it references: the order in which the sort takes them out. */
  ghost predicate ReferrersFirst(order: seq<Mapping>) {
    forall i, k :: 0 <= i < |order| && 0 <= k < |order| && order[k].Name() in order[i].Proxies() ==> i < k
  }

  /** The groups taken out of the graph so far, first the one taken out first. */
  ghost predicate TakenOut(config: seq<Mapping>, live: set<string>, order: seq<Mapping>) {
    Distinct(order) && ReferrersFirst(order) &&
    (forall m :: m in order <==> m in config && m.Name() !in live) &&
    forall m, m' :: m in order && m' in config && m.Name() in m'.Proxies() ==> m' in order
  }

  ghost predicate KeepsDownstream(config: seq<Mapping>, live: set<string>) {
    forall n :: ReachesCycle(Reverse(References(config)), n) ==> n in live
  }

  lemma EdgeMeans(config: seq<Mapping>, a: string, b: string)
    ensures (a, b) in References(config) <==> exists m :: m in config && m.Name() == a && b in m.Proxies()
  {
  }

  lemma BuiltIsLive(config: seq<Mapping>, graph: NodeMap)
    requires Built(config, graph)
    ensures Live(config, graph) && TakenOut(config, graph.Keys, []) && KeepsDownstream(config, graph.Keys)
  {
    TargetsAllLive(config, graph.Keys);
    OutsideNodes(config);
    forall n | n in graph
      ensures NodeLive(config, graph.Keys, graph[n], n)
    {
      assert NodeBuilt(config, graph, n);
    }
    forall n | ReachesCycle(Reverse(References(config)), n)
      ensures n in graph
    {
      var m := CycleContinues(Reverse(References(config)), n);
      ReverseEdge(References(config), n, m);
      EdgeMeans(config, m, n);
    }
  }

  lemma RemovalKeepsDownstream(config: seq<Mapping>, live: set<string>, name: string)
    requires KeepsDownstream(config, live) && name !in LiveTargets(config, live)
    ensures KeepsDownstream(config, live - {name})
  {
    if ReachesCycle(Reverse(References(config)), name) {
      var m := CycleContinues(Reverse(References(config)), name);
      ReverseEdge(References(config), name, m);
      EdgeMeans(config, m, name);
      TargetMeans(config, live, name);
      assert false;
    }
  }

  lemma RemovalTakesOut(config: seq<Mapping>, live: set<string>, order: seq<Mapping>, name: string)
    requires DistinctNames(config) && TakenOut(config, live, order) && name in live
    requires name !in LiveTargets(config, live)
    ensures Find(config, name).None? ==> TakenOut(config, live - {name}, order)
    ensures Find(config, name).Some? ==>
              TakenOut(config, live - {name}, order + [Find(config, name).value]) && |order| < |config|
  {
    FindMeans(config, name);
    TargetMeans(config, live, name);
    if Find(config, name).Some? {
      TakeOutOne(config, live, order, Find(config, name).value);
    }
  }

  lemma TakeOutOne(config: seq<Mapping>, live: set<string>, order: seq<Mapping>, found: Mapping)
    requires DistinctNames(config) && TakenOut(config, live, order) && found in config && found.Name() in live
    requires forall m :: m in config && found.Name() in m.Proxies() ==> m in order
    ensures TakenOut(config, live - {found.Name()}, order + [found]) && |order| < |config|
  {
    var order' := order + [found];
    forall m
      ensures m in order' <==> m in config && m.Name() !in live - {found.Name()}
    {
      if m in config && m.Name() == found.Name() {
        FindMember(config, m);
        FindMember(config, found);
      }
    }
    assert ReferrersFirst(order') by {
      forall i, k | 0 <= i < |order'| && 0 <= k < |order'| && order'[k].Name() in order'[i].Proxies()
        ensures i < k
      {
        OrderAfterTaking(order, found, i, k);
      }
    }
    DistinctFits(order', config);
  }

  lemma OrderAfterTaking(order: seq<Mapping>, found: Mapping, i: nat, k: nat)
    requires ReferrersFirst(order) && found !in order
    requires forall m :: m in order + [found] && found.Name() in m.Proxies() ==> m in order
    requires forall m :: m in order && m.Name() in found.Proxies() ==> found in order
    requires i <= |order| && k <= |order|
    requires (order + [found])[k].Name() in (order + [found])[i].Proxies()
    ensures i < k
  {
    if k < |order| {
      assert order[k] in order;
      if i == |order| {
        assert false;
      }
    } else {
      assert (order + [found])[i] in order;
    }
  }

  ghost predicate Released(graph: NodeMap, counts: multiset<string>, graph': NodeMap) {
    graph'.Keys == graph.Keys &&
    forall n :: n in graph ==> graph'[n] == graph[n].(indegree := graph[n].indegree - counts[n])
  }

  lemma RemovalKeepsLive(config: seq<Mapping>, graph: NodeMap, graph': NodeMap, name: string)
    requires DistinctNames(config) && Live(config, graph) && name in graph && graph[name].indegree == 0
    requires Released(graph, multiset(ProxiesOf(config, name)), graph')
    ensures Live(config, graph' - {name})
  {
    var live := graph.Keys;
    TargetsWithout(config, live, name);
    assert (graph' - {name}).Keys == live - {name};
    forall n | n in graph' - {name}
      ensures NodeLive(config, live - {name}, graph'[n], n)
    {
      assert NodeLive(config, live, graph[n], n);
    }
    assert NodeLive(config, live, graph[name], name);
  }

  lemma ReleasedStep(before: NodeMap, counts: multiset<string>, graph: NodeMap, proxy: string)
    requires Released(before, counts, graph) && proxy in graph
    ensures Released(before, counts + multiset{proxy},
                     graph[proxy := graph[proxy].(indegree := graph[proxy].indegree - 1)])
  {
  }

  /** The inner loop: each reference of the group just placed is taken off its target. */
  method ReleaseReferences(before: NodeMap, queue0: seq<string>, proxies: seq<string>)
    returns (graph: NodeMap, queue: seq<string>)
    requires Queued(before, queue0)
    requires forall n :: n in multiset(proxies) ==> n in before && multiset(proxies)[n] <= before[n].indegree
    ensures Released(before, multiset(proxies), graph)
    ensures Queued(graph, queue) && queue0 <= queue
  {
    graph, queue := before, queue0;
    for j := 0 to |proxies|
      invariant Released(before, multiset(proxies[..j]), graph)
      invariant Queued(graph, queue) && queue0 <= queue
    {
      var proxy := proxies[j];
      ghost var counts := multiset(proxies[..j]);
      PrefixGrows(proxies, j);
      PrefixCounts(proxies, j + 1);
      ReleasedStep(before, counts, graph, proxy);
      assert counts[proxy] + 1 <= multiset(proxies)[proxy];
      graph := graph[proxy := graph[proxy].(indegree := graph[proxy].indegree - 1)];
      if graph[proxy].indegree == 0 {
        queue := queue + [proxy];
      }
    }
    assert proxies[..|proxies|] == proxies;
  }

  lemma PrefixCounts(s: seq<string>, j: nat)
    requires j <= |s|
    ensures multiset(s[..j]) <= multiset(s)
  {
    assert s == s[..j] + s[j..];
  }

  method ReadyNodes(graph: NodeMap) returns (queue: seq<string>)
    ensures Queued(graph, queue)
  {
    queue := [];
    var todo := graph.Keys;
    while todo != {}
      invariant todo <= graph.Keys && Distinct(queue)
      invariant forall n :: n in queue <==> n in graph && n !in todo && graph[n].indegree == 0
      decreases |todo|
    {
      var name :| name in todo;
      todo := todo - {name};
      if graph[name].indegree == 0 {
        queue := queue + [name];
      }
    }
  }

  lemma ProxiesCounted(config: seq<Mapping>, graph: NodeMap, name: string)
    requires DistinctNames(config) && Live(config, graph) && name in graph
    ensures forall n :: n in multiset(ProxiesOf(config, name)) ==>
              n in graph && multiset(ProxiesOf(config, name))[n] <= graph[n].indegree
  {
    TargetsWithout(config, graph.Keys, name);
    forall n | n in multiset(ProxiesOf(config, name))
      ensures n in graph && multiset(ProxiesOf(config, name))[n] <= graph[n].indegree
    {
      assert n in LiveTargets(config, graph.Keys);
      assert NodeLive(config, graph.Keys, graph[n], n);
    }
  }

  ghost predicate Sorting(config: seq<Mapping>, graph: NodeMap, queue: seq<string>, order: seq<Mapping>) {
    Live(config, graph) && Queued(graph, queue) &&
    KeepsDownstream(config, graph.Keys) && TakenOut(config, graph.Keys, order) && |order| <= |config|
  }

  /** What the head of the queue is and may release. */
  lemma HeadReady(config: seq<Mapping>, graph: NodeMap, queue: seq<string>, order: seq<Mapping>)
    requires AllDecoded(config) && DistinctNames(config) && Sorting(config, graph, queue, order) && queue != []
    ensures queue[0] in graph && graph[queue[0]].indegree == 0
    ensures graph[queue[0]].data == Find(config, queue[0]) &&
            (graph[queue[0]].option.Some? <==> graph[queue[0]].data.Some?)
    ensures graph[queue[0]].option.Some? ==> graph[queue[0]].option.value.proxies == ProxiesOf(config, queue[0])
    ensures forall n :: n in multiset(ProxiesOf(config, queue[0])) ==>
              n in graph && multiset(ProxiesOf(config, queue[0]))[n] <= graph[n].indegree
    ensures graph[queue[0]].data.Some? ==> |order| < |config|
  {
    var name := queue[0];
    assert name in queue;
    assert NodeLive(config, graph.Keys, graph[name], name);
    FindMeans(config, name);
    ProxiesCounted(config, graph, name);
    RemovalTakesOut(config, graph.Keys, order, name);
  }

  lemma RoundDone(config: seq<Mapping>, graph: NodeMap, queue: seq<string>, order: seq<Mapping>,
                  graph': NodeMap, queue': seq<string>)
    requires DistinctNames(config) && Sorting(config, graph, queue, order) && queue != []
    requires Released(graph, multiset(ProxiesOf(config, queue[0])), graph') && Queued(graph', queue') && queue <= queue'
    ensures var found := Find(config, queue[0]);
            Sorting(config, graph' - {queue[0]}, queue'[1..],
                    if found.Some? then order + [found.value] else order)
  {
    var name := queue[0];
    assert name in queue && queue'[0] == name;
    assert NodeLive(config, graph.Keys, graph[name], name);
    RemovalKeepsDownstream(config, graph.Keys, name);
    RemovalTakesOut(config, graph.Keys, order, name);
    RemovalKeepsLive(config, graph, graph', name);
    assert (graph' - {name}).Keys == graph.Keys - {name};
  }

  /** One round: the head of the queue leaves the graph, and the references of a group are released. */
  method TakeHead(graph0: NodeMap, queue0: seq<string>, ghost config: seq<Mapping>, ghost order: seq<Mapping>)
    returns (graph: NodeMap, queue: seq<string>, data: Option<Mapping>)
    requires AllDecoded(config) && DistinctNames(config)
    requires Sorting(config, graph0, queue0, order) && queue0 != []
    ensures data.Some? ==> |order| < |config|
    ensures Sorting(config, graph, queue, if data.Some? then order + [data.value] else order)
    ensures |graph| < |graph0|
  {
    HeadReady(config, graph0, queue0, order);
    var name := queue0[0];
    var node := graph0[name];
    graph, queue, data := graph0, queue0, node.data;
    if node.option.Some? {
      graph, queue := ReleaseReferences(graph, queue, node.option.value.proxies);
    }
    RoundDone(config, graph0, queue0, order, graph, queue);
    graph := graph - {name};
    queue := queue[1..];
    assert graph.Keys == graph0.Keys - {name};
  }

  /** The order is written into the array from its end. */
  ghost predicate WrittenBackwards(groupsConfig: array<Mapping>, order: seq<Mapping>)
    reads groupsConfig
  {
    |order| <= groupsConfig.Length &&
    forall i :: 0 <= i < |order| ==> groupsConfig[groupsConfig.Length - 1 - i] == order[i]
  }

  method WriteNext(groupsConfig: array<Mapping>, index: int, data: Mapping, ghost order: seq<Mapping>)
    requires index == |order| + 1 <= groupsConfig.Length && WrittenBackwards(groupsConfig, order)
    modifies groupsConfig
    ensures WrittenBackwards(groupsConfig, order + [data])
  {
    groupsConfig[groupsConfig.Length - index] := data;
  }

  method SortGroups(groupsConfig: array<Mapping>, graph0: NodeMap, queue0: seq<string>, ghost config: seq<Mapping>)
    returns (graph: NodeMap, ghost order: seq<Mapping>)
    requires |config| == groupsConfig.Length && AllDecoded(config) && DistinctNames(config)
    requires Sorting(config, graph0, queue0, [])
    modifies groupsConfig
    ensures Sorting(config, graph, [], order) && WrittenBackwards(groupsConfig, order)
  {
    graph := graph0;
    order := [];
    var index := 0;
    var queue := queue0;
    while |queue| > 0
      invariant index == |order|
      invariant Sorting(config, graph, queue, order) && WrittenBackwards(groupsConfig, order)
      decreases |graph|
    {
      var data;
      graph, queue, data := TakeHead(graph, queue, config, order);
      if data.Some? {
        index := index + 1;
        WriteNext(groupsConfig, index, data.value, order);
        order := order + [data.value];
      }
    }
    assert queue == [];
  }

  lemma AllTakenOut(config: seq<Mapping>, order: seq<Mapping>, sorted: seq<Mapping>)
    requires DistinctNames(config) && TakenOut(config, {}, order) && |sorted| == |config|
    requires |order| <= |config| && forall i :: 0 <= i < |order| ==> sorted[|sorted| - 1 - i] == order[i]
    ensures multiset(sorted) == multiset(config) && DependencyOrder(sorted)
  {
    DistinctFits(config, order);
    assert |order| == |config|;
    assert forall i :: 0 <= i < |sorted| ==> sorted[i] == order[|order| - 1 - i] by {
      forall i | 0 <= i < |sorted|
        ensures sorted[i] == order[|order| - 1 - i]
      {
        var k := |sorted| - 1 - i;
        assert sorted[|sorted| - 1 - k] == order[k];
      }
    }
    BackwardsElements(order, sorted);
    SameElementsPermutation(sorted, config);
  }

  lemma BackwardsElements(order: seq<Mapping>, sorted: seq<Mapping>)
    requires |sorted| == |order| && Distinct(order)
    requires forall i :: 0 <= i < |sorted| ==> sorted[i] == order[|order| - 1 - i]
    ensures Distinct(sorted) && forall m :: m in sorted <==> m in order
  {
    forall m | m in order
      ensures m in sorted
    {
      var i :| 0 <= i < |order| && order[i] == m;
      assert sorted[|sorted| - 1 - i] == m;
    }
  }

  lemma LeftoverReferred(config: seq<Mapping>, graph: NodeMap, n: string)
    requires Live(config, graph) && n in graph && graph[n].indegree > 0
    ensures SuccessorIn(Reverse(References(config)), graph.Keys, n)
  {
    assert NodeLive(config, graph.Keys, graph[n], n);
    TargetMeans(config, graph.Keys, n);
    var m :| m in config && m.Name() in graph.Keys && n in m.Proxies();
    EdgeMeans(config, m.Name(), n);
    ReverseEdge(References(config), n, m.Name());
  }

  /** What the sort leaves behind is exactly what some cycle leads to. */
  lemma LeftoverIsDownstream(config: seq<Mapping>, graph: NodeMap)
    requires Live(config, graph) && KeepsDownstream(config, graph.Keys)
    requires forall n :: n in graph ==> graph[n].indegree > 0
    ensures forall n :: n in graph <==> ReachesCycle(Reverse(References(config)), n)
  {
    var back := Reverse(References(config));
    assert NoDeadEnd(back, graph.Keys) by {
      forall n | n in graph.Keys
        ensures SuccessorIn(back, graph.Keys, n)
      {
        LeftoverReferred(config, graph, n);
      }
    }
    forall n | n in graph
      ensures ReachesCycle(back, n)
    {
      MemberReachesCycle(back, graph.Keys, n);
    }
  }

  // ---------- step 2: locate the loops ----------

  /** How many of the references go to a name in `live`. */
  ghost function OutCount(proxies: seq<string>, live: set<string>): nat {
    if proxies == [] then 0
    else OutCount(proxies[..|proxies| - 1], live) + (if proxies[|proxies| - 1] in live then 1 else 0)
  }

  lemma {:induction false} OutCountWithout(proxies: seq<string>, live: set<string>, n: string)
    requires n in live
    ensures OutCount(proxies, live) == OutCount(proxies, live - {n}) + multiset(proxies)[n]
  {
    if proxies != [] {
      var rest := proxies[..|proxies| - 1];
      OutCountWithout(rest, live, n);
      assert proxies == rest + [proxies[|proxies| - 1]];
    }
  }

  lemma {:induction false} OutCountMeans(proxies: seq<string>, live: set<string>)
    ensures OutCount(proxies, live) > 0 <==> exists r :: r in proxies && r in live
    ensures (forall r :: r in proxies ==> r in live) ==> OutCount(proxies, live) == |proxies|
  {
    if proxies != [] {
      var rest := proxies[..|proxies| - 1];
      OutCountMeans(rest, live);
      assert proxies == rest + [proxies[|proxies| - 1]];
    }
  }

  /** Step 2.1 has handled the groups in `done`; `from` lists each referrer once for each of its references. */
  ghost predicate NodeLinked(config: seq<Mapping>, done: set<string>, node: GraphNode, n: string) {
    node.option == OptionOf(config, n) &&
    node.outdegree == (if n in done then |ProxiesOf(config, n)| else 0) &&
    forall m :: multiset(node.from)[m] == if m in done then multiset(ProxiesOf(config, m))[n] else 0
  }

  ghost predicate Linked(config: seq<Mapping>, done: set<string>, graph: NodeMap) {
    forall n :: n in graph ==> NodeLinked(config, done, graph[n], n)
  }

  ghost predicate NodeLinkedFrom(before: GraphNode, name: string, proxies: seq<string>, node: GraphNode, n: string) {
    node.option == before.option &&
    node.outdegree == before.outdegree + (if n == name then |proxies| else 0) &&
    multiset(node.from) == multiset(before.from)[name := multiset(before.from)[name] + multiset(proxies)[n]]
  }

  /** `graph` after the references `proxies` of `name` have been linked into `before`. */
  ghost predicate LinkedFrom(before: NodeMap, name: string, proxies: seq<string>, graph: NodeMap) {
    graph.Keys == before.Keys && forall n :: n in graph ==> NodeLinkedFrom(before[n], name, proxies, graph[n], n)
  }

  function LinkReference(graph: NodeMap, name: string, proxy: string): NodeMap
    requires name in graph && proxy in graph
  {
    var counted := graph[name := graph[name].(outdegree := graph[name].outdegree + 1)];
    counted[proxy := counted[proxy].(from := counted[proxy].from + [name])]
  }

  lemma NodeLinkedFromStep(before: GraphNode, name: string, proxies: seq<string>, node: GraphNode, n: string,
                           proxy: string, node': GraphNode)
    requires NodeLinkedFrom(before, name, proxies, node, n)
    requires node'.option == node.option
    requires node'.outdegree == node.outdegree + if n == name then 1 else 0
    requires node'.from == if n == proxy then node.from + [name] else node.from
    ensures NodeLinkedFrom(before, name, proxies + [proxy], node', n)
  {
  }

  lemma LinkedFromStep(before: NodeMap, name: string, proxies: seq<string>, graph: NodeMap, proxy: string)
    requires LinkedFrom(before, name, proxies, graph) && name in graph && proxy in graph
    ensures LinkedFrom(before, name, proxies + [proxy], LinkReference(graph, name, proxy))
  {
    var graph' := LinkReference(graph, name, proxy);
    forall n | n in graph'
      ensures NodeLinkedFrom(before[n], name, proxies + [proxy], graph'[n], n)
    {
      NodeLinkedFromStep(before[n], name, proxies, graph[n], n, proxy, graph'[n]);
    }
  }

  lemma PrefixAppends(s: seq<string>, j: nat)
    requires j < |s|
    ensures s[..j + 1] == s[..j] + [s[j]] && s[j] in s
  {
  }

  method LinkReferences(before: NodeMap, name: string, proxies: seq<string>) returns (graph: NodeMap)
    requires name in before && forall r :: r in proxies ==> r in before
    ensures LinkedFrom(before, name, proxies, graph)
  {
    graph := before;
    for j := 0 to |proxies|
      invariant LinkedFrom(before, name, proxies[..j], graph)
    {
      PrefixAppends(proxies, j);
      LinkedFromStep(before, name, proxies[..j], graph, proxies[j]);
      graph := LinkReference(graph, name, proxies[j]);
    }
    assert proxies[..|proxies|] == proxies;
  }

  lemma NodeLinkedAfter(config: seq<Mapping>, done: set<string>, before: GraphNode, name: string, node: GraphNode,
                        n: string)
    requires NodeLinked(config, done, before, n) && name !in done
    requires NodeLinkedFrom(before, name, ProxiesOf(config, name), node, n)
    ensures NodeLinked(config, done + {name}, node, n)
  {
    var done' := done + {name};
    forall m
      ensures multiset(node.from)[m] == if m in done' then multiset(ProxiesOf(config, m))[n] else 0
    {
      assert multiset(before.from)[m] == if m in done then multiset(ProxiesOf(config, m))[n] else 0;
    }
  }

  lemma LinkedAfter(config: seq<Mapping>, done: set<string>, before: NodeMap, name: string, graph: NodeMap)
    requires Linked(config, done, before) && name in before && name !in done
    requires LinkedFrom(before, name, ProxiesOf(config, name), graph)
    ensures Linked(config, done + {name}, graph)
  {
    forall n | n in graph
      ensures NodeLinked(config, done + {name}, graph[n], n)
    {
      assert NodeLinked(config, done, before[n], n) &&
        NodeLinkedFrom(before[n], name, ProxiesOf(config, name), graph[n], n);
      NodeLinkedAfter(config, done, before[n], name, graph[n], n);
    }
  }

  lemma LiveIsUnlinked(config: seq<Mapping>, graph: NodeMap)
    requires Live(config, graph)
    ensures Linked(config, {}, graph)
  {
    forall n | n in graph
      ensures NodeLinked(config, {}, graph[n], n)
    {
      assert NodeLive(config, graph.Keys, graph[n], n);
    }
  }

  /** Every name that a node refers to is still in the graph. */
  ghost predicate ClosedGraph(config: seq<Mapping>, live: set<string>) {
    forall n, r :: n in live && r in ProxiesOf(config, n) ==> r in live
  }

  lemma LiveIsClosed(config: seq<Mapping>, graph: NodeMap)
    requires DistinctNames(config) && Live(config, graph)
    ensures ClosedGraph(config, graph.Keys)
  {
    forall n, r | n in graph && r in ProxiesOf(config, n)
      ensures r in graph
    {
      ProxiesCounted(config, graph, n);
    }
  }

  method LinkNode(before: NodeMap, name: string, ghost config: seq<Mapping>, ghost done: set<string>)
    returns (graph: NodeMap)
    requires AllDecoded(config) && ClosedGraph(config, before.Keys) && Linked(config, done, before)
    requires name in before && name !in done
    ensures graph.Keys == before.Keys && Linked(config, done + {name}, graph)
  {
    graph := before;
    assert NodeLinked(config, done, before[name], name);
    FindMeans(config, name);
    if graph[name].option.Some? {
      graph := LinkReferences(graph, name, graph[name].option.value.proxies);
    }
    LinkedAfter(config, done, before, name, graph);
  }

  /** Step 2.1: fill the out-degrees and the lists of referrers. */
  method LinkGraph(before: NodeMap, ghost config: seq<Mapping>) returns (graph: NodeMap)
    requires AllDecoded(config) && ClosedGraph(config, before.Keys) && Linked(config, {}, before)
    ensures graph.Keys == before.Keys && Linked(config, graph.Keys, graph)
  {
    graph := before;
    var todo := graph.Keys;
    ghost var done := {};
    while todo != {}
      invariant graph.Keys == before.Keys && Split(before.Keys, done, todo) && Linked(config, done, graph)
      decreases |todo|
    {
      var name :| name in todo;
      graph := LinkNode(graph, name, config, done);
      SplitStep(before.Keys, done, todo, name);
      todo, done := todo - {name}, done + {name};
    }
  }

  ghost predicate NodePeeled(config: seq<Mapping>, full: set<string>, live: set<string>, node: GraphNode, n: string) {
    node.outdegree == OutCount(ProxiesOf(config, n), live) &&
    forall m :: multiset(node.from)[m] == if m in full then multiset(ProxiesOf(config, m))[n] else 0
  }

  /** Out-degrees count the references to nodes left; a node already removed has none. */
  ghost predicate Peeled(config: seq<Mapping>, full: set<string>, graph: NodeMap) {
    graph.Keys <= full &&
    (forall n :: n in graph ==> NodePeeled(config, full, graph.Keys, graph[n], n)) &&
    (forall n :: n in full && n !in graph ==> OutCount(ProxiesOf(config, n), graph.Keys) == 0)
  }

  /** The queue holds every node without a reference to a node left, once. */
  ghost predicate QueuedOut(graph: NodeMap, queue: seq<string>) {
    Distinct(queue) && forall n :: n in queue <==> n in graph && graph[n].outdegree == 0
  }

  ghost predicate KeepsUpstream(config: seq<Mapping>, full: set<string>, live: set<string>) {
    forall n :: n in full && ReachesCycle(References(config), n) ==> n in live
  }

  ghost predicate ReleasedOut(graph: NodeMap, counts: multiset<string>, graph': NodeMap) {
    graph'.Keys == graph.Keys &&
    forall n :: n in graph ==> graph'[n] == graph[n].(outdegree := graph[n].outdegree - counts[n])
  }

  lemma LinkedIsPeeled(config: seq<Mapping>, graph: NodeMap)
    requires ClosedGraph(config, graph.Keys) && Linked(config, graph.Keys, graph)
    ensures Peeled(config, graph.Keys, graph)
  {
    forall n | n in graph
      ensures NodePeeled(config, graph.Keys, graph.Keys, graph[n], n)
    {
      assert NodeLinked(config, graph.Keys, graph[n], n);
      OutCountMeans(ProxiesOf(config, n), graph.Keys);
    }
  }

  /** Every referrer of a node left is itself left, with the reference still counted. */
  lemma ReferrersPresent(config: seq<Mapping>, full: set<string>, graph: NodeMap, name: string)
    requires Peeled(config, full, graph) && name in graph
    ensures forall m :: m in multiset(graph[name].from) ==>
              m in graph && multiset(graph[name].from)[m] <= graph[m].outdegree
  {
    assert NodePeeled(config, full, graph.Keys, graph[name], name);
    forall m | m in multiset(graph[name].from)
      ensures m in graph && multiset(graph[name].from)[m] <= graph[m].outdegree
    {
      OutCountWithout(ProxiesOf(config, m), graph.Keys, name);
      assert m in graph;
      assert NodePeeled(config, full, graph.Keys, graph[m], m);
    }
  }

  lemma RemovalKeepsNodePeeled(config: seq<Mapping>, full: set<string>, live: set<string>, node: GraphNode, n: string,
                               name: string)
    requires NodePeeled(config, full, live, node, n) && n in full && name in live
    ensures NodePeeled(config, full, live - {name},
                       node.(outdegree := node.outdegree - multiset(ProxiesOf(config, n))[name]), n)
  {
    OutCountWithout(ProxiesOf(config, n), live, name);
  }

  lemma ReleasedKeepsNodePeeled(config: seq<Mapping>, full: set<string>, graph: NodeMap, graph': NodeMap, name: string,
                                n: string)
    requires Peeled(config, full, graph) && name in graph && n in graph
    requires ReleasedOut(graph, multiset(graph[name].from), graph')
    ensures NodePeeled(config, full, graph.Keys - {name}, graph'[n], n)
  {
    assert NodePeeled(config, full, graph.Keys, graph[name], name);
    assert NodePeeled(config, full, graph.Keys, graph[n], n);
    assert graph'[n] == graph[n].(outdegree := graph[n].outdegree - multiset(ProxiesOf(config, n))[name]);
    RemovalKeepsNodePeeled(config, full, graph.Keys, graph[n], n, name);
  }

  lemma RemovalKeepsPeeled(config: seq<Mapping>, full: set<string>, graph: NodeMap, graph': NodeMap, name: string)
    requires Peeled(config, full, graph) && name in graph && graph[name].outdegree == 0
    requires ReleasedOut(graph, multiset(graph[name].from), graph')
    ensures Peeled(config, full, graph' - {name})
  {
    RemoveKey(graph', name);
    forall n | n in graph.Keys - {name}
      ensures NodePeeled(config, full, graph.Keys - {name}, graph'[n], n)
    {
      ReleasedKeepsNodePeeled(config, full, graph, graph', name, n);
    }
    RemovedHaveNone(config, full, graph, name);
  }

  lemma RemovedHaveNone(config: seq<Mapping>, full: set<string>, graph: NodeMap, name: string)
    requires Peeled(config, full, graph) && name in graph && graph[name].outdegree == 0
    ensures forall n :: n in full && n !in graph.Keys - {name} ==>
              OutCount(ProxiesOf(config, n), graph.Keys - {name}) == 0
  {
    assert NodePeeled(config, full, graph.Keys, graph[name], name);
    forall n | n in full && n !in graph.Keys - {name}
      ensures OutCount(ProxiesOf(config, n), graph.Keys - {name}) == 0
    {
      OutCountWithout(ProxiesOf(config, n), graph.Keys, name);
    }
  }

  lemma RemovalKeepsUpstream(config: seq<Mapping>, full: set<string>, graph: NodeMap, name: string)
    requires DistinctNames(config) && Peeled(config, full, graph) && name in graph && graph[name].outdegree == 0
    requires forall n :: n in full <==> ReachesCycle(Reverse(References(config)), n)
    requires KeepsUpstream(config, full, graph.Keys)
    ensures KeepsUpstream(config, full, graph.Keys - {name})
  {
    assert NodePeeled(config, full, graph.Keys, graph[name], name);
    if ReachesCycle(References(config), name) {
      var m := CycleContinues(References(config), name);
      ReverseEdge(References(config), m, name);
      StepBackReachesCycle(Reverse(References(config)), m, name);
      EdgeMeans(config, name, m);
      var group :| group in config && group.Name() == name && m in group.Proxies();
      FindMember(config, group);
      OutCountMeans(ProxiesOf(config, name), graph.Keys);
      assert false;
    }
  }

  method ReadyToPeel(graph: NodeMap) returns (queue: seq<string>)
    ensures QueuedOut(graph, queue)
  {
    queue := [];
    var todo := graph.Keys;
    while todo != {}
      invariant todo <= graph.Keys && Distinct(queue)
      invariant forall n :: n in queue <==> n in graph && n !in todo && graph[n].outdegree == 0
      decreases |todo|
    {
      var name :| name in todo;
      todo := todo - {name};
      if graph[name].outdegree == 0 {
        queue := queue + [name];
      }
    }
  }

  lemma ReleasedOutStep(before: NodeMap, counts: multiset<string>, graph: NodeMap, f: string)
    requires ReleasedOut(before, counts, graph) && f in graph
    ensures ReleasedOut(before, counts + multiset{f}, graph[f := graph[f].(outdegree := graph[f].outdegree - 1)])
  {
  }

  /** The inner loop of step 2.2: every look-up of a referrer finds a node. */
  method ReleaseReferrers(before: NodeMap, queue0: seq<string>, from: seq<string>)
    returns (graph: NodeMap, queue: seq<string>)
    requires QueuedOut(before, queue0)
    requires forall n :: n in multiset(from) ==> n in before && multiset(from)[n] <= before[n].outdegree
    ensures ReleasedOut(before, multiset(from), graph)
    ensures QueuedOut(graph, queue) && queue0 <= queue
  {
    graph, queue := before, queue0;
    for j := 0 to |from|
      invariant ReleasedOut(before, multiset(from[..j]), graph)
      invariant QueuedOut(graph, queue) && queue0 <= queue
    {
      var f := from[j];
      ghost var counts := multiset(from[..j]);
      PrefixGrows(from, j);
      PrefixCounts(from, j + 1);
      ReleasedOutStep(before, counts, graph, f);
      assert counts[f] + 1 <= multiset(from)[f];
      graph := graph[f := graph[f].(outdegree := graph[f].outdegree - 1)];
      if graph[f].outdegree == 0 {
        queue := queue + [f];
      }
    }
    assert from[..|from|] == from;
  }

  ghost predicate Locating(config: seq<Mapping>, full: set<string>, graph: NodeMap, queue: seq<string>) {
    Peeled(config, full, graph) && QueuedOut(graph, queue) && KeepsUpstream(config, full, graph.Keys)
  }

  lemma HeadOut(graph: NodeMap, queue: seq<string>, queue0: seq<string>)
    requires QueuedOut(graph, queue) && queue0 <= queue && queue0 != [] && queue0[0] in graph
    ensures queue[0] == queue0[0] && QueuedOut(graph - {queue0[0]}, queue[1..])
  {
    RemoveKey(graph, queue0[0]);
  }

  method PeelHead(graph0: NodeMap, queue0: seq<string>, ghost config: seq<Mapping>, ghost full: set<string>)
    returns (graph: NodeMap, queue: seq<string>)
    requires Peeled(config, full, graph0) && QueuedOut(graph0, queue0) && queue0 != []
    ensures queue0[0] in graph0 && graph0[queue0[0]].outdegree == 0
    ensures Peeled(config, full, graph) && QueuedOut(graph, queue) && graph.Keys == graph0.Keys - {queue0[0]}
    ensures |graph| < |graph0|
  {
    var name := queue0[0];
    assert name in queue0;
    ReferrersPresent(config, full, graph0, name);
    graph, queue := ReleaseReferrers(graph0, queue0, graph0[name].from);
    HeadOut(graph, queue, queue0);
    RemovalKeepsPeeled(config, full, graph0, graph, name);
    RemoveKey(graph, name);
    RemoveKey(graph0, name);
    graph := graph - {name};
    queue := queue[1..];
  }

  /** Step 2.2: peel off the nodes that lead to no loop. */
  method PeelGraph(linked: NodeMap, ghost config: seq<Mapping>) returns (graph: NodeMap)
    requires DistinctNames(config)
    requires forall n :: n in linked <==> ReachesCycle(Reverse(References(config)), n)
    requires Peeled(config, linked.Keys, linked)
    ensures Locating(config, linked.Keys, graph, [])
  {
    graph := linked;
    var queue := ReadyToPeel(graph);
    while |queue| > 0
      invariant Locating(config, linked.Keys, graph, queue)
      decreases |graph|
    {
      ghost var before := graph;
      ghost var name := queue[0];
      graph, queue := PeelHead(graph, queue, config, linked.Keys);
      RemovalKeepsUpstream(config, linked.Keys, before, name);
    }
    assert queue == [];
  }

  lemma PeeledHasSuccessor(config: seq<Mapping>, full: set<string>, graph: NodeMap, n: string)
    requires Locating(config, full, graph, []) && n in graph
    ensures SuccessorIn(References(config), graph.Keys, n)
  {
    assert n !in [];
    assert NodePeeled(config, full, graph.Keys, graph[n], n);
    OutCountMeans(ProxiesOf(config, n), graph.Keys);
    var r :| r in ProxiesOf(config, n) && r in graph.Keys;
    FindMeans(config, n);
    EdgeMeans(config, n, r);
  }

  lemma PeeledIsBetweenCycles(config: seq<Mapping>, full: set<string>, graph: NodeMap)
    requires forall n :: n in full <==> ReachesCycle(Reverse(References(config)), n)
    requires Locating(config, full, graph, [])
    ensures forall n :: n in graph <==> BetweenCycles(config, n)
  {
    assert NoDeadEnd(References(config), graph.Keys) by {
      forall n | n in graph.Keys
        ensures SuccessorIn(References(config), graph.Keys, n)
      {
        PeeledHasSuccessor(config, full, graph, n);
      }
    }
    forall n | n in graph
      ensures ReachesCycle(References(config), n)
    {
      MemberReachesCycle(References(config), graph.Keys, n);
    }
  }

  /** Step 2.3: report the names left, each once, in any order. */
  method ReportNames(graph: NodeMap) returns (names: seq<string>)
    ensures Distinct(names) && forall n :: n in names <==> n in graph
  {
    names := [];
    var left := graph.Keys;
    while left != {}
      invariant left <= graph.Keys && Distinct(names)
      invariant forall n :: n in names <==> n in graph && n !in left
      decreases |left|
    {
      var name :| name in left;
      names := names + [name];
      left := left - {name};
    }
  }

  // ---------- the whole check ----------

  lemma EmptyIsSorted(config: seq<Mapping>, graph: NodeMap, order: seq<Mapping>, sorted: seq<Mapping>)
    requires DistinctNames(config) && Sorting(config, graph, [], order) && graph == map[]
    requires |sorted| == |config| && forall i :: 0 <= i < |order| ==> sorted[|sorted| - 1 - i] == order[i]
    ensures Acyclic(References(config)) && multiset(sorted) == multiset(config) && DependencyOrder(sorted)
  {
    AllTakenOut(config, order, sorted);
    forall n
      ensures !OnCycle(References(config), n)
    {
      if OnCycle(References(config), n) {
        CycleReverses(References(config), n);
        CycleReachesItself(Reverse(References(config)), n);
      }
    }
  }

  lemma NonemptyHasCycle(config: seq<Mapping>, graph: NodeMap, order: seq<Mapping>)
    requires Sorting(config, graph, [], order) && graph != map[]
    ensures !Acyclic(References(config)) && forall n :: n in graph ==> graph[n].indegree > 0
  {
    forall n | n in graph
      ensures graph[n].indegree > 0
    {
      assert n !in [] && NodeLive(config, graph.Keys, graph[n], n);
    }
    LeftoverIsDownstream(config, graph);
    var n :| n in graph;
    var p, c :| Connects(Reverse(References(config)), n, c, p) && OnCycle(Reverse(References(config)), c);
    CycleReverses(References(config), c);
  }

  /** Step 2: the loops, from what the sort could not take out. */
  method LocateLoops(leftover: NodeMap, ghost config: seq<Mapping>, ghost order: seq<Mapping>)
    returns (names: seq<string>)
    requires AllDecoded(config) && DistinctNames(config)
    requires Sorting(config, leftover, [], order) && leftover != map[]
    ensures !Acyclic(References(config)) && Distinct(names)
    ensures forall n :: n in names <==> BetweenCycles(config, n)
  {
    NonemptyHasCycle(config, leftover, order);
    LeftoverIsDownstream(config, leftover);
    LiveIsUnlinked(config, leftover);
    LiveIsClosed(config, leftover);
    var graph := LinkGraph(leftover, config);
    LinkedIsPeeled(config, graph);
    ghost var full := graph.Keys;
    graph := PeelGraph(graph, config);
    PeeledIsBetweenCycles(config, full, graph);
    names := ReportNames(graph);
  }

  lemma SortingStarts(config: seq<Mapping>, built: NodeMap, queue: seq<string>)
    requires Built(config, built) && Queued(built, queue)
    ensures Sorting(config, built, queue, [])
  {
    BuiltIsLive(config, built);
  }

  ghost predicate SortedOrLooped(config: seq<Mapping>, sorted: seq<Mapping>, loops: Option<seq<string>>) {
    match loops
    case None => Acyclic(References(config)) && multiset(sorted) == multiset(config) && DependencyOrder(sorted)
    case Some(names) =>
      !Acyclic(References(config)) && Distinct(names) && forall n :: n in names <==> BetweenCycles(config, n)
  }

  /** What the emptied queue means: the array is sorted if no node is left, else the loops are reported. */
  method SortedOrLoops(sorted: array<Mapping>, graph: NodeMap, ghost config: seq<Mapping>, ghost order: seq<Mapping>)
    returns (loops: Option<seq<string>>)
    requires AllDecoded(config) && DistinctNames(config) && |config| == sorted.Length
    requires Sorting(config, graph, [], order) && WrittenBackwards(sorted, order)
    ensures SortedOrLooped(config, sorted[..], loops)
  {
    if |graph| == 0 {
      EmptyIsSorted(config, graph, order, sorted[..]);
      loops := None;
    } else {
      var names := LocateLoops(graph, config, order);
      loops := Some(names);
    }
  }

  /** The sort succeeds exactly when every entry decodes, the names are distinct and no group
      depends on itself; it then permutes the array into dependency order. Otherwise it names the
      first entry at fault, or exactly the groups on a cycle or between two cycles. */
  method ProxyGroupsDagSort(groupsConfig: array<Mapping>) returns (err: Option<SortError>)
    modifies groupsConfig
    ensures err.None? <==> Sortable(old(groupsConfig[..]))
    ensures err.None? ==> multiset(groupsConfig[..]) == multiset(old(groupsConfig[..]))
    ensures err.None? ==> DependencyOrder(groupsConfig[..])
    ensures err.Some? && !err.value.LoopDetected? ==>
              FirstFault(old(groupsConfig[..]), err.value) && groupsConfig[..] == old(groupsConfig[..])
    ensures err.Some? && err.value.LoopDetected? ==>
              AllDecoded(old(groupsConfig[..])) && DistinctNames(old(groupsConfig[..])) &&
              Distinct(err.value.groups) && err.value.groups != [] &&
              forall n :: n in err.value.groups <==> BetweenCycles(old(groupsConfig[..]), n)
  {
    ghost var config := groupsConfig[..];
    var graph;
    graph, err := BuildGraph(groupsConfig[..]);
    if err.None? {
      var queue := ReadyNodes(graph);
      SortingStarts(config, graph, queue);
      ghost var order;
      graph, order := SortGroups(groupsConfig, graph, queue, config);
      var loops := SortedOrLoops(groupsConfig, graph, config, order);
      if loops.Some? {
        CycleIsReported(config, loops.value);
        err := Some(LoopDetected(loops.value));
      }
    }
  }

  lemma CycleIsReported(config: seq<Mapping>, names: seq<string>)
    requires !Acyclic(References(config)) && forall n :: n in names <==> BetweenCycles(config, n)
    ensures names != []
  {
    var n :| OnCycle(References(config), n);
    CycleReachesItself(References(config), n);
    CycleReverses(References(config), n);
    CycleReachesItself(Reverse(References(config)), n);
    assert n in names;
  }

  // ---------- a path between two loops ----------

  /** Two groups that reference themselves, and one on the way from the first to the second. */
  function TwoLoops(): seq<Mapping> {
    [Mapping("", Some(GroupOption("a", ["a", "b"]))), Mapping("", Some(GroupOption("b", ["c"]))),
     Mapping("", Some(GroupOption("c", ["c"])))]
  }

  lemma TwoLoopsReferences()
    ensures References(TwoLoops()) == {("a", "a"), ("a", "b"), ("b", "c"), ("c", "c")}
  {
    var config, g := TwoLoops(), References(TwoLoops());
    forall m, r | m in config && r in m.Proxies()
      ensures (m.Name(), r) in {("a", "a"), ("a", "b"), ("b", "c"), ("c", "c")}
    {
      assert m == config[0] || m == config[1] || m == config[2];
    }
    assert "a" in config[0].Proxies() && "b" in config[0].Proxies();
    assert "c" in config[1].Proxies() && "c" in config[2].Proxies();
    assert ("a", "a") in g && ("a", "b") in g && ("b", "c") in g && ("c", "c") in g;
  }

  lemma {:induction false} WalksFromMiddle(g: Graph, p: seq<string>, i: nat)
    requires g == {("a", "a"), ("a", "b"), ("b", "c"), ("c", "c")} && IsWalk(g, p) && p[0] == "b" && 0 < i < |p|
    ensures p[i] == "c"
  {
    if i > 1 {
      WalksFromMiddle(g, p, i - 1);
    }
    var k := i - 1;
    assert i == k + 1 && (p[k], p[i]) in g;
  }

  /** The middle group is reported with the loops although it is on none. */
  lemma MiddleIsReported()
    ensures BetweenCycles(TwoLoops(), "b") && !OnCycle(References(TwoLoops()), "b")
  {
    var g := References(TwoLoops());
    TwoLoopsReferences();
    assert Connects(g, "a", "a", ["a", "a"]) && Connects(g, "c", "c", ["c", "c"]);
    CycleReachesItself(g, "c");
    StepBackReachesCycle(g, "b", "c");
    CycleReverses(g, "a");
    CycleReachesItself(Reverse(g), "a");
    ReverseEdge(g, "b", "a");
    StepBackReachesCycle(Reverse(g), "b", "a");
    if OnCycle(g, "b") {
      var p :| |p| > 1 && Connects(g, "b", "b", p);
      WalksFromMiddle(g, p, |p| - 1);
      assert false;
    }
  }
}
