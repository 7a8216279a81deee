/** The check that dialer-proxy references name existing proxies and that no chain of them is endless. */
module DialerProxies {
  import opened Collections

  /** A configured dialer-proxy of each proxy that has one. */
  type DialerGraph = map<string, string>

  datatype DialerError =
    | NotFound(name: string, dialer: string)
    | Circular(name: string)

  /** The chain of dialer-proxies from `n` ends after at most `k` steps. */
  ghost predicate EndsWithin(graph: DialerGraph, n: string, k: nat)
    decreases k
  {
    n !in graph || (k > 0 && EndsWithin(graph, graph[n], k - 1))
  }

  ghost predicate Ends(graph: DialerGraph, n: string) {
    exists k: nat :: EndsWithin(graph, n, k)
  }

  /** `proxies` maps each proxy to its dialer-proxy, the empty string for none. */
  ghost function Dialers(proxies: map<string, string>): DialerGraph {
    map n | n in proxies && proxies[n] != "" :: proxies[n]
  }

  ghost predicate TargetsExist(proxies: map<string, string>) {
    forall n :: n in proxies && proxies[n] != "" ==> proxies[n] in proxies
  }

  lemma EndsStep(graph: DialerGraph, n: string)
    requires n in graph
    ensures Ends(graph, n) <==> Ends(graph, graph[n])
  {
    if Ends(graph, n) {
      var k: nat :| EndsWithin(graph, n, k);
      assert EndsWithin(graph, graph[n], k - 1);
    }
    if Ends(graph, graph[n]) {
      var k: nat :| EndsWithin(graph, graph[n], k);
      assert EndsWithin(graph, n, k + 1);
    }
  }

  ghost predicate DialsNext(graph: DialerGraph, path: seq<string>, i: nat)
    requires i + 1 < |path|
  {
    path[i] in graph && graph[path[i]] == path[i + 1]
  }

  /** Each name on the path dials the next one. */
  ghost predicate IsChain(graph: DialerGraph, path: seq<string>) {
    forall i: nat :: i + 1 < |path| ==> DialsNext(graph, path, i)
  }

  /** A chain that leads back to one of its own names goes on for ever: it would have to end in
      fewer and fewer steps. */
  lemma {:induction false} BackOnPathNeverEnds(graph: DialerGraph, path: seq<string>, i: nat, k: nat)
    requires IsChain(graph, path) && i < |path|
    requires path[|path| - 1] in graph && graph[path[|path| - 1]] in path
    ensures !EndsWithin(graph, path[i], k)
    decreases k
  {
    if k > 0 {
      if i + 1 < |path| {
        assert DialsNext(graph, path, i);
        BackOnPathNeverEnds(graph, path, i + 1, k - 1);
      } else {
        var back :| 0 <= back < |path| && path[back] == graph[path[i]];
        BackOnPathNeverEnds(graph, path, back, k - 1);
      }
    } else if i + 1 < |path| {
      assert DialsNext(graph, path, i);
    }
  }

  /** Names visited before and not on the path are known to end. */
  ghost predicate Sound(graph: DialerGraph, visited: set<string>, path: seq<string>) {
    (forall n :: n in path ==> n in visited) && forall n :: n in visited && n !in path ==> Ends(graph, n)
  }

  lemma ChainGrows(graph: DialerGraph, path: seq<string>, current: string)
    requires IsChain(graph, path)
    requires path != [] ==> path[|path| - 1] in graph && graph[path[|path| - 1]] == current
    ensures IsChain(graph, path + [current])
  {
    forall i: nat | i + 1 < |path + [current]|
      ensures DialsNext(graph, path + [current], i)
    {
      if i + 1 < |path| {
        assert DialsNext(graph, path, i);
      }
    }
  }

  lemma PathGrows(graph: DialerGraph, visited: set<string>, path: seq<string>, current: string)
    requires Sound(graph, visited, path) && IsChain(graph, path)
    requires path != [] ==> path[|path| - 1] in graph && graph[path[|path| - 1]] == current
    ensures Sound(graph, visited + {current}, path + [current]) && IsChain(graph, path + [current])
  {
    ChainGrows(graph, path, current);
  }

  /** The depth-first search; `visited` is shared by the whole search from one proxy. */
  class Search {
    var visited: set<string>

    constructor ()
      ensures visited == {}
    {
      visited := {};
    }

    method HasCycle(current: string, graph: DialerGraph, path: seq<string>) returns (found: bool)
      requires Sound(graph, visited, path) && IsChain(graph, path)
      requires path != [] ==> path[|path| - 1] in graph && graph[path[|path| - 1]] == current
      modifies this
      ensures found <==> !Ends(graph, current)
      ensures old(visited) <= visited
      decreases |graph.Keys - visited|, if current in graph then 1 else 0
    {
      var onPath := Contains(path, current);
      if onPath {
        LoopNeverEnds(graph, path, current);
        return true;
      }
      if current in visited {
        return false;
      }
      VisitShrinks(graph, visited, current);
      visited := visited + {current};
      PathGrows(graph, old(visited), path, current);
      if current in graph {
        EndsStep(graph, current);
        found := HasCycle(graph[current], graph, path + [current]);
      } else {
        assert EndsWithin(graph, current, 0);
        found := false;
      }
    }
  }

  lemma LoopNeverEnds(graph: DialerGraph, path: seq<string>, current: string)
    requires IsChain(graph, path) && current in path
    requires path[|path| - 1] in graph && graph[path[|path| - 1]] == current
    ensures !Ends(graph, current)
  {
    var i :| 0 <= i < |path| && path[i] == current;
    forall k: nat
      ensures !EndsWithin(graph, current, k)
    {
      BackOnPathNeverEnds(graph, path, i, k);
    }
  }

  lemma VisitShrinks(graph: DialerGraph, visited: set<string>, current: string)
    requires current !in visited
    ensures |graph.Keys - (visited + {current})| <= |graph.Keys - visited|
    ensures current in graph ==> |graph.Keys - (visited + {current})| < |graph.Keys - visited|
  {
    SubsetSize(graph.Keys - (visited + {current}), graph.Keys - visited);
    if current in graph {
      assert graph.Keys - (visited + {current}) == graph.Keys - visited - {current};
    }
  }

  method Contains(path: seq<string>, name: string) returns (found: bool)
    ensures found <==> name in path
  {
    for i := 0 to |path|
      invariant name !in path[..i]
    {
      if path[i] == name {
        return true;
      }
    }
    return false;
  }

  method ValidateDialerProxies(proxies: map<string, string>) returns (err: Option<DialerError>)
    ensures err.None? <==> TargetsExist(proxies) && forall n :: n in proxies ==> Ends(Dialers(proxies), n)
    ensures err.Some? ==>
              match err.value
              case NotFound(n, d) => n in proxies && proxies[n] == d != "" && d !in proxies
              case Circular(n) => n in proxies && !Ends(Dialers(proxies), n)
  {
    var graph: DialerGraph := map[];
    var todo := proxies.Keys;
    while todo != {}
      invariant todo <= proxies.Keys
      invariant graph == map n | n in proxies && n !in todo && proxies[n] != "" :: proxies[n]
      invariant forall n :: n in graph ==> graph[n] in proxies
      decreases |todo|
    {
      var name :| name in todo;
      todo := todo - {name};
      var dialerProxy := proxies[name];
      if dialerProxy != "" {
        if dialerProxy !in proxies {
          return Some(NotFound(name, dialerProxy));
        }
        graph := graph[name := dialerProxy];
      }
    }
    assert graph == Dialers(proxies);
    assert TargetsExist(proxies) by {
      forall n | n in proxies && proxies[n] != ""
        ensures proxies[n] in proxies
      {
        assert n in graph;
      }
    }
    var starts := graph.Keys;
    while starts != {}
      invariant starts <= graph.Keys
      invariant forall n :: n in graph && n !in starts ==> Ends(graph, n)
      decreases |starts|
    {
      var name :| name in starts;
      starts := starts - {name};
      var search := new Search();
      var cyclic := search.HasCycle(name, graph, []);
      if cyclic {
        return Some(Circular(name));
      }
    }
    forall n | n in proxies
      ensures Ends(graph, n)
    {
      if n !in graph {
        assert EndsWithin(graph, n, 0);
      }
    }
    err := None;
  }
}
