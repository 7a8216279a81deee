/** The check that every SUB-RULE target is defined and that sub-rules do not refer back to themselves. */
module SubRules {
  import opened Collections
  import opened Walks

  datatype Rule = SubRule(adapter: string) | OtherRule

  type RuleMap = map<string, seq<Rule>>

  datatype SubRuleError =
    | NotFound(name: string, index: nat, target: string)
    | CircularReferences(path: seq<string>)

  /** An edge from a sub-rule to every name its SUB-RULE entries refer to. */
  ghost function References(subRules: RuleMap): Graph {
    set n, r | n in subRules && r in subRules[n] && r.SubRule? :: (n, r.adapter)
  }

  ghost predicate AllDefined(subRules: RuleMap) {
    forall n, r :: n in subRules && r in subRules[n] && r.SubRule? ==> r.adapter in subRules
  }

  /** What an error reports is really there. */
  ghost predicate Justified(subRules: RuleMap, err: SubRuleError) {
    match err
    case NotFound(n, i, t) => n in subRules && i < |subRules[n]| && subRules[n][i] == SubRule(t) && t !in subRules
    case CircularReferences(p) => |p| > 1 && IsWalk(References(subRules), p) && p[|p| - 1] in p[..|p| - 1]
  }

  lemma EdgeMeans(subRules: RuleMap, a: string, b: string)
    ensures (a, b) in References(subRules) <==> a in subRules && SubRule(b) in subRules[a]
  {
    if a in subRules && SubRule(b) in subRules[a] {
      var r := SubRule(b);
      assert (a, r.adapter) in References(subRules);
    }
  }

  ghost predicate OnPath(subRules: RuleMap, arr: seq<string>) {
    Distinct(arr) && Elements(arr) <= subRules.Keys
  }

  lemma PathFits(subRules: RuleMap, arr: seq<string>)
    requires OnPath(subRules, arr)
    ensures |arr| <= |subRules|
  {
    DistinctSize(arr);
    SubsetSize(Elements(arr), subRules.Keys);
    assert |subRules| == |subRules.Keys|;
  }

  /** The recursion over sub-rules: `arr` is the path that led to `n`. It ends because the path
      never repeats a defined name. */
  function VerifyCircularReferences(n: string, subRules: RuleMap, arr: seq<string>): Option<SubRuleError>
    requires n in subRules && n !in arr && OnPath(subRules, arr)
    decreases |subRules| - |arr|, |subRules[n]| + 1
  {
    AppendElements(arr, n);
    PathFits(subRules, arr + [n]);
    VerifyRules(n, 0, subRules, arr + [n])
  }

  /** The loop over the rules of `n` from index `i` on. */
  function VerifyRules(n: string, i: nat, subRules: RuleMap, arr: seq<string>): Option<SubRuleError>
    requires n in subRules && i <= |subRules[n]| && 0 < |arr| <= |subRules| && OnPath(subRules, arr)
    decreases |subRules| - |arr| + 1, |subRules[n]| - i
  {
    if i == |subRules[n]| then None
    else if subRules[n][i].OtherRule? then VerifyRules(n, i + 1, subRules, arr)
    else
      var target := subRules[n][i].adapter;
      if target !in subRules then Some(NotFound(n, i, target))
      else if target in arr then Some(CircularReferences(arr + [target]))
      else
        var err := VerifyCircularReferences(target, subRules, arr);
        if err.Some? then err else VerifyRules(n, i + 1, subRules, arr)
  }

  /** An error is justified when the path is a walk to the sub-rule at hand. */
  lemma {:induction false} ErrorJustified(n: string, subRules: RuleMap, arr: seq<string>)
    requires n in subRules && n !in arr && OnPath(subRules, arr)
    requires IsWalk(References(subRules), arr + [n])
    ensures var err := VerifyCircularReferences(n, subRules, arr); err.Some? ==> Justified(subRules, err.value)
    decreases |subRules| - |arr|, |subRules[n]| + 1
  {
    AppendElements(arr, n);
    PathFits(subRules, arr + [n]);
    RulesErrorJustified(n, 0, subRules, arr + [n]);
  }

  lemma {:induction false} RulesErrorJustified(n: string, i: nat, subRules: RuleMap, arr: seq<string>)
    requires n in subRules && i <= |subRules[n]| && 0 < |arr| <= |subRules| && OnPath(subRules, arr)
    requires IsWalk(References(subRules), arr) && arr[|arr| - 1] == n
    ensures var err := VerifyRules(n, i, subRules, arr); err.Some? ==> Justified(subRules, err.value)
    decreases |subRules| - |arr| + 1, |subRules[n]| - i
  {
    if i < |subRules[n]| {
      if subRules[n][i].SubRule? {
        var target := subRules[n][i].adapter;
        EdgeMeans(subRules, n, target);
        assert IsWalk(References(subRules), arr + [target]);
        assert (arr + [target])[..|arr|] == arr;
        if target in subRules && target !in arr {
          ErrorJustified(target, subRules, arr);
        }
      }
      RulesErrorJustified(n, i + 1, subRules, arr);
    }
  }

  /** Without an error no walk from `n` leads to an undefined name or back to the path. */
  lemma {:induction false} NoErrorNoReturn(n: string, subRules: RuleMap, arr: seq<string>, p: seq<string>)
    requires n in subRules && n !in arr && OnPath(subRules, arr)
    requires VerifyCircularReferences(n, subRules, arr).None?
    requires IsWalk(References(subRules), p) && p[0] == n
    ensures forall i :: 0 < i < |p| ==> p[i] in subRules && p[i] !in arr + [n]
    decreases |p|
  {
    if |p| > 1 {
      assert (p[0], p[1]) in References(subRules);
      EdgeMeans(subRules, n, p[1]);
      AppendElements(arr, n);
      PathFits(subRules, arr + [n]);
      RuleVerified(n, 0, subRules, arr + [n], SubRule(p[1]));
      NoErrorNoReturn(p[1], subRules, arr + [n], p[1..]);
      forall i | 1 < i < |p|
        ensures p[i] in subRules && p[i] !in arr + [n]
      {
        assert p[i] == p[1..][i - 1];
      }
    }
  }

  lemma {:induction false} RuleVerified(n: string, i: nat, subRules: RuleMap, arr: seq<string>, rule: Rule)
    requires n in subRules && i <= |subRules[n]| && 0 < |arr| <= |subRules| && OnPath(subRules, arr)
    requires VerifyRules(n, i, subRules, arr).None?
    requires rule in subRules[n][i..] && rule.SubRule?
    ensures rule.adapter in subRules && rule.adapter !in arr
    ensures VerifyCircularReferences(rule.adapter, subRules, arr).None?
    decreases |subRules[n]| - i
  {
    if rule != subRules[n][i] {
      RuleVerified(n, i + 1, subRules, arr, rule);
    }
  }

  /** No error from any name means that every target is defined and the references have no cycle. */
  lemma AllVerified(subRules: RuleMap)
    requires forall n :: n in subRules ==> VerifyCircularReferences(n, subRules, []).None?
    ensures AllDefined(subRules) && Acyclic(References(subRules))
  {
    forall n, r | n in subRules && r in subRules[n] && r.SubRule?
      ensures r.adapter in subRules
    {
      EdgeMeans(subRules, n, r.adapter);
      NoErrorNoReturn(n, subRules, [], [n, r.adapter]);
      assert [n, r.adapter][1] == r.adapter;
    }
    forall n
      ensures !OnCycle(References(subRules), n)
    {
      if OnCycle(References(subRules), n) {
        var p :| |p| > 1 && Connects(References(subRules), n, n, p);
        EdgeMeans(subRules, n, p[1]);
        assert (p[0], p[1]) in References(subRules);
        NoErrorNoReturn(n, subRules, [], p);
        assert false;
      }
    }
  }

  lemma JustifiedMeansFaulty(subRules: RuleMap, err: SubRuleError)
    requires Justified(subRules, err)
    ensures !AllDefined(subRules) || !Acyclic(References(subRules))
  {
    match err
    case NotFound(n, i, t) =>
      assert subRules[n][i] in subRules[n];
    case CircularReferences(p) =>
      var last := p[|p| - 1];
      var i :| 0 <= i < |p| - 1 && p[i] == last;
      assert Connects(References(subRules), last, last, p[i..]);
      assert OnCycle(References(subRules), last);
  }

  /** Starts from every sub-rule, in any order. */
  method VerifySubRule(subRules: RuleMap) returns (err: Option<SubRuleError>)
    ensures err.None? <==> AllDefined(subRules) && Acyclic(References(subRules))
    ensures err.Some? ==> Justified(subRules, err.value)
  {
    var todo := subRules.Keys;
    while todo != {}
      invariant todo <= subRules.Keys
      invariant forall n :: n in subRules && n !in todo ==> VerifyCircularReferences(n, subRules, []).None?
      decreases |todo|
    {
      var name :| name in todo;
      todo := todo - {name};
      err := VerifyCircularReferences(name, subRules, []);
      if err.Some? {
        ErrorJustified(name, subRules, []);
        JustifiedMeansFaulty(subRules, err.value);
        return;
      }
    }
    AllVerified(subRules);
    err := None;
  }
}
