/** The loop that parses the proxy groups one after the other, each looking its references up among what
    has been parsed so far, and the sort that it relies on. */
module GroupParsing {
  import opened Collections
  import opened ProxyGroups

  datatype ParseError =
    | Unsorted(sortError: SortError)
    | Refused(index: nat)
    | NotFound(index: nat, proxy: string)
    | NameTaken(index: nat, name: string)

  ghost function Names(groups: seq<Mapping>): set<string> {
    set m | m in groups :: m.Name()
  }

  ghost predicate Resolves(mapping: Mapping, known: set<string>) {
    forall r :: r in mapping.Proxies() ==> r in known
  }

  /** Group `i` finds its references among the names known before it, and its own name is new. */
  ghost predicate ParsesAt(groups: seq<Mapping>, plain: set<string>, i: nat)
    requires i < |groups|
  {
    Resolves(groups[i], plain + Names(groups[..i])) && groups[i].Name() !in plain + Names(groups[..i])
  }

  /** Nothing is missing and nothing is taken, whatever the order. */
  ghost predicate Complete(groups: seq<Mapping>, plain: set<string>) {
    forall m :: m in groups ==> m.Name() !in plain && Resolves(m, plain + Names(groups))
  }

  /** In dependency order the groups parse exactly when the configuration is complete. */
  lemma SortedParsesIffComplete(groups: seq<Mapping>, plain: set<string>)
    requires DistinctNames(groups) && DependencyOrder(groups)
    ensures (forall i :: 0 <= i < |groups| ==> ParsesAt(groups, plain, i)) <==> Complete(groups, plain)
  {
    if Complete(groups, plain) {
      forall i | 0 <= i < |groups|
        ensures ParsesAt(groups, plain, i)
      {
        CompleteParsesAt(groups, plain, i);
      }
    }
    if forall i :: 0 <= i < |groups| ==> ParsesAt(groups, plain, i) {
      forall m | m in groups
        ensures m.Name() !in plain && Resolves(m, plain + Names(groups))
      {
        var i :| 0 <= i < |groups| && groups[i] == m;
        assert ParsesAt(groups, plain, i);
        assert Names(groups[..i]) <= Names(groups);
      }
    }
  }

  lemma CompleteParsesAt(groups: seq<Mapping>, plain: set<string>, i: nat)
    requires DistinctNames(groups) && DependencyOrder(groups) && Complete(groups, plain) && i < |groups|
    ensures ParsesAt(groups, plain, i)
  {
    assert groups[i] in groups;
    forall r | r in groups[i].Proxies()
      ensures r in plain + Names(groups[..i])
    {
      if r !in plain {
        var m :| m in groups && m.Name() == r;
        var k :| 0 <= k < |groups| && groups[k] == m;
        assert k < i;
        assert groups[..i][k] in groups[..i];
      }
    }
  }

  /** Reordering changes neither side of the condition. */
  lemma CompleteIgnoresOrder(config: seq<Mapping>, sorted: seq<Mapping>, plain: set<string>)
    requires multiset(sorted) == multiset(config)
    ensures Complete(sorted, plain) <==> Complete(config, plain)
    ensures DistinctNames(config) ==> DistinctNames(sorted)
  {
    SameEntries(config, sorted);
    if DistinctNames(config) {
      DistinctNamesIgnoreOrder(config, sorted);
    }
  }

  lemma DistinctNamesIgnoreOrder(config: seq<Mapping>, sorted: seq<Mapping>)
    requires multiset(sorted) == multiset(config) && DistinctNames(config)
    ensures DistinctNames(sorted)
  {
    forall i, j | 0 <= i < j < |sorted|
      ensures sorted[i].Name() != sorted[j].Name()
    {
      if sorted[i].Name() == sorted[j].Name() {
        TwiceCounted(sorted, i, j);
        assert sorted[i] in multiset(config) && sorted[j] in multiset(config);
        OnceCounted(config, sorted[i], sorted[j]);
      }
    }
  }

  lemma TwiceCounted(s: seq<Mapping>, i: nat, j: nat)
    requires i < j < |s|
    ensures s[i] == s[j] ==> multiset(s)[s[i]] >= 2
  {
    assert s == s[..j] + [s[j]] + s[j + 1..];
    assert s[..j][i] == s[i];
    assert multiset(s) == multiset(s[..j]) + multiset([s[j]]) + multiset(s[j + 1..]);
  }

  lemma OnceCounted(config: seq<Mapping>, a: Mapping, b: Mapping)
    requires DistinctNames(config) && a in config && b in config && a.Name() == b.Name()
    ensures a == b && multiset(config)[a] == 1
  {
    var i :| 0 <= i < |config| && config[i] == a;
    assert config == config[..i] + [a] + config[i + 1..];
    assert a !in config[..i] && a !in config[i + 1..];
    assert multiset(config) == multiset(config[..i]) + multiset([a]) + multiset(config[i + 1..]);
  }

  /** `refuses` says which entries are refused for reasons of their own, such as type, providers or fallback. */
  ghost predicate NoneRefused(groups: seq<Mapping>, refuses: Mapping -> bool) {
    forall m :: m in groups ==> !refuses(m)
  }

  /** The first reference that is not known, if there is one. */
  method FindProxies(known: set<string>, proxies: seq<string>) returns (missing: Option<string>)
    ensures missing.None? <==> forall r :: r in proxies ==> r in known
    ensures missing.Some? ==> missing.value in proxies && missing.value !in known
  {
    for i := 0 to |proxies|
      invariant forall r :: r in proxies[..i] ==> r in known
    {
      if proxies[i] !in known {
        return Some(proxies[i]);
      }
    }
    missing := None;
  }

  lemma NamesGrow(groups: seq<Mapping>, i: nat)
    requires i < |groups|
    ensures Names(groups[..i + 1]) == Names(groups[..i]) + {groups[i].Name()}
  {
    assert groups[..i + 1] == groups[..i] + [groups[i]];
  }

  method ParseGroups(groups: seq<Mapping>, plain: set<string>, refuses: Mapping -> bool)
    returns (known: set<string>, err: Option<ParseError>)
    ensures err.None? <==> NoneRefused(groups, refuses) && forall i :: 0 <= i < |groups| ==> ParsesAt(groups, plain, i)
    ensures err.None? ==> known == plain + Names(groups)
    ensures err.Some? ==> Fault(groups, plain, refuses, err.value)
  {
    known, err := plain, None;
    for i := 0 to |groups|
      invariant known == plain + Names(groups[..i])
      invariant forall k :: 0 <= k < i ==> ParsesAt(groups, plain, k) && !refuses(groups[k])
    {
      if refuses(groups[i]) {
        assert groups[i] in groups;
        err := Some(Refused(i));
        return;
      }
      var missing := FindProxies(known, groups[i].Proxies());
      if missing.Some? {
        assert !ParsesAt(groups, plain, i);
        err := Some(NotFound(i, missing.value));
        return;
      }
      if groups[i].Name() in known {
        assert !ParsesAt(groups, plain, i);
        err := Some(NameTaken(i, groups[i].Name()));
        return;
      }
      assert ParsesAt(groups, plain, i);
      known := known + {groups[i].Name()};
      NamesGrow(groups, i);
    }
    assert groups[..|groups|] == groups;
  }

  ghost predicate Fault(groups: seq<Mapping>, plain: set<string>, refuses: Mapping -> bool, err: ParseError) {
    match err
    case Unsorted(_) => false
    case Refused(i) => i < |groups| && refuses(groups[i])
    case NotFound(i, r) => i < |groups| && r in groups[i].Proxies() && r !in plain + Names(groups[..i])
    case NameTaken(i, n) => i < |groups| && n == groups[i].Name() && n in plain + Names(groups[..i])
  }

  /** Sorting first makes the outcome independent of the order in the file: the groups parse exactly when
      they can be sorted, none is refused for itself, none takes the name of a plain proxy, and every reference is
      defined somewhere. */
  method ParseProxyGroups(groupsConfig: array<Mapping>, plain: set<string>, refuses: Mapping -> bool)
    returns (known: set<string>, err: Option<ParseError>)
    modifies groupsConfig
    ensures err.None? <==> Sortable(old(groupsConfig[..])) && NoneRefused(old(groupsConfig[..]), refuses) &&
                           Complete(old(groupsConfig[..]), plain)
    ensures err.None? ==> known == plain + Names(old(groupsConfig[..]))
    ensures err.Some? && err.value.Unsorted? <==> !Sortable(old(groupsConfig[..]))
    ensures err.Some? && !err.value.Unsorted? ==> Fault(groupsConfig[..], plain, refuses, err.value)
  {
    ghost var config := groupsConfig[..];
    known := plain;
    var sortError := ProxyGroupsDagSort(groupsConfig);
    if sortError.Some? {
      err := Some(Unsorted(sortError.value));
      return;
    }
    CompleteIgnoresOrder(config, groupsConfig[..], plain);
    SortedParsesIffComplete(groupsConfig[..], plain);
    SameEntries(config, groupsConfig[..]);
    known, err := ParseGroups(groupsConfig[..], plain, refuses);
  }

  lemma SameEntries(config: seq<Mapping>, sorted: seq<Mapping>)
    requires multiset(sorted) == multiset(config)
    ensures Names(sorted) == Names(config) && forall m :: m in sorted <==> m in config
  {
    assert forall m :: m in sorted <==> m in multiset(sorted);
    assert forall m :: m in config <==> m in multiset(config);
  }
}
