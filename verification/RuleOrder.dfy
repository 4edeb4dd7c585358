/**
 `ComplianceOrchestrator._topological_sort`: a depth-first sort that tolerates
 cycles, self-references and prerequisites that are not in the list.
 */
module RuleOrder {
  import opened RuleModel

  /** Some listed rule `a` names `b`, also listed, as a prerequisite. */
  ghost predicate Edge(rules: seq<Rule>, a: string, b: string) {
    b in Ids(rules) && exists r :: r in rules && r.id == a && b in r.prerequisites
  }

  ghost predicate Path(rules: seq<Rule>, p: seq<string>) {
    p != [] && forall k | 0 <= k < |p| - 1 :: Edge(rules, p[k], p[k + 1])
  }

  ghost predicate Reaches(rules: seq<Rule>, a: string, b: string) {
    exists p :: Path(rules, p) && p[0] == a && p[|p| - 1] == b
  }

  /** `a` depends on `b` directly, and `b` depends on `a`, directly or not. */
  ghost predicate OnCommonCycle(rules: seq<Rule>, a: string, b: string) {
    Edge(rules, a, b) && Reaches(rules, b, a)
  }

  ghost predicate Acyclic(rules: seq<Rule>) {
    forall a, b | Edge(rules, a, b) :: !Reaches(rules, b, a)
  }

  ghost predicate Distinct(order: seq<Rule>) {
    forall i, j | 0 <= i < j < |order| :: order[i].id != order[j].id
  }

  ghost predicate PlacedBefore(order: seq<Rule>, id: string, i: int)
    requires 0 <= i <= |order|
  {
    exists j :: 0 <= j < i && order[j].id == id
  }

  /** Each listed prerequisite comes first, unless it lies on a common cycle with the rule that names it. */
  ghost predicate PrerequisitesFirst(rules: seq<Rule>, order: seq<Rule>) {
    forall i, d | 0 <= i < |order| && d in order[i].prerequisites && d in Ids(rules) ::
      PlacedBefore(order, d, i) || OnCommonCycle(rules, order[i].id, d)
  }

  /** What the sort promises of its result. */
  ghost predicate SortedFrom(rules: seq<Rule>, order: seq<Rule>) {
    && Ids(order) == Ids(rules)
    && Distinct(order)
    && (forall r | r in order :: r in rules)
    && PrerequisitesFirst(rules, order)
  }

  /** The rules being visited: each names the next one as a prerequisite. */
  ghost predicate Chain(rules: seq<Rule>, stack: seq<Rule>) {
    && (forall r | r in stack :: r in rules)
    && (forall k | 0 <= k < |stack| - 1 :: stack[k + 1].id in stack[k].prerequisites)
  }

  /** A rule can be reached from every rule that is being visited above it. */
  lemma ChainReaches(rules: seq<Rule>, stack: seq<Rule>, m: nat)
    requires Chain(rules, stack) && m < |stack|
    ensures Reaches(rules, stack[m].id, stack[|stack| - 1].id)
  {
    var p := seq(|stack| - m, k requires 0 <= k < |stack| - m => stack[m + k].id);
    forall k | 0 <= k < |p| - 1
      ensures Edge(rules, p[k], p[k + 1])
    {
      assert stack[m + k] in rules && stack[m + k + 1] in rules;
      assert stack[m + k + 1].id in stack[m + k].prerequisites;
      assert p[k] == stack[m + k].id && p[k + 1] == stack[m + k + 1].id;
      assert p[k + 1] in Ids(rules);
    }
    assert p[0] == stack[m].id && p[|p| - 1] == stack[|stack| - 1].id;
    PathReaches(rules, p);
  }

  lemma PathReaches(rules: seq<Rule>, p: seq<string>)
    requires p != [] && forall k | 0 <= k < |p| - 1 :: Edge(rules, p[k], p[k + 1])
    ensures Reaches(rules, p[0], p[|p| - 1])
  {
    assert Path(rules, p) && p[0] == p[0] && p[|p| - 1] == p[|p| - 1];
  }

  lemma PathTail(rules: seq<Rule>, p: seq<string>)
    requires Path(rules, p) && |p| > 1
    ensures Path(rules, p[1..])
  {
    forall k | 0 <= k < |p[1..]| - 1
      ensures Edge(rules, p[1..][k], p[1..][k + 1])
    {
      assert Edge(rules, p[k + 1], p[k + 1 + 1]);
    }
  }

  ghost predicate TopologicallyOrdered(rules: seq<Rule>, order: seq<Rule>) {
    forall i, d | 0 <= i < |order| && d in order[i].prerequisites && d in Ids(rules) :: PlacedBefore(order, d, i)
  }

  /** In a topological order, following prerequisites never leads to a later place. */
  lemma {:induction false} PathDescends(rules: seq<Rule>, order: seq<Rule>, p: seq<string>, i: nat) returns (j: nat)
    requires Consistent(rules) && SortedFrom(rules, order) && TopologicallyOrdered(rules, order)
    requires Path(rules, p) && i < |order| && order[i].id == p[0]
    ensures j <= i && order[j].id == p[|p| - 1]
  {
    j := i;
    if |p| == 1 {
    } else {
      assert Edge(rules, p[0], p[1]);
      assert order[i] in rules && p[1] in order[i].prerequisites;
      var next :| 0 <= next < i && order[next].id == p[1];
      PathTail(rules, p);
      j := PathDescends(rules, order, p[1..], next);
    }
  }

  /** The sort gives a full topological order exactly when the listed rules have no cycle. */
  lemma TopologicalIffAcyclic(rules: seq<Rule>, order: seq<Rule>)
    requires Consistent(rules) && SortedFrom(rules, order)
    ensures TopologicallyOrdered(rules, order) <==> Acyclic(rules)
  {
    if TopologicallyOrdered(rules, order) {
      forall a, b | Edge(rules, a, b)
        ensures !Reaches(rules, b, a)
      {
        if Reaches(rules, b, a) {
          var p :| Path(rules, p) && p[0] == b && p[|p| - 1] == a;
          assert a in Ids(order);
          var i :| 0 <= i < |order| && order[i].id == a;
          assert order[i] in rules && b in order[i].prerequisites;
          var j :| 0 <= j < i && order[j].id == b;
          var l := PathDescends(rules, order, p, j);
          assert false;
        }
      }
    }
  }

  lemma ReachesThrough(rules: seq<Rule>, a: string, b: string, c: string)
    requires Edge(rules, a, b) && Reaches(rules, b, c)
    ensures Reaches(rules, a, c)
  {
    var p :| Path(rules, p) && p[0] == b && p[|p| - 1] == c;
    var q := [a] + p;
    forall k | 0 <= k < |q| - 1
      ensures Edge(rules, q[k], q[k + 1])
    {
      assert q[k + 1] == p[k] && (k > 0 ==> q[k] == p[k - 1]);
    }
    PathReaches(rules, q);
  }

  /** What has been placed since `start` can be reached from `id`. */
  ghost predicate PlacedFrom(rules: seq<Rule>, id: string, start: seq<Rule>, order: seq<Rule>) {
    start <= order && forall r | r in order[|start|..] :: Reaches(rules, id, r.id)
  }

  lemma PlacedItself(rules: seq<Rule>, rule: Rule, start: seq<Rule>, before: seq<Rule>, order: seq<Rule>)
    requires PlacedFrom(rules, rule.id, start, before) && order == before + [rule]
    ensures PlacedFrom(rules, rule.id, start, order)
  {
    PathReaches(rules, [rule.id]);
    assert order[|start|..] == before[|start|..] + [rule];
  }

  /* The order of registration is kept, except for prerequisites */

  /** All these rules are, or are prerequisites of, rules listed up to place `i`. */
  ghost predicate FromListed(rules: seq<Rule>, placed: seq<Rule>, i: nat)
    requires i < |rules|
  {
    forall r | r in placed :: exists k :: 0 <= k <= i && Reaches(rules, rules[k].id, r.id)
  }

  /** The i-th listed rule is placed, and what comes before it are rules listed up to it, and their prerequisites. */
  ghost predicate Covered(rules: seq<Rule>, order: seq<Rule>, i: nat)
    requires i < |rules|
  {
    exists n :: 0 <= n <= |order| && rules[i].id in Ids(order[..n]) && FromListed(rules, order[..n], i)
  }

  lemma StaysCovered(rules: seq<Rule>, order: seq<Rule>, longer: seq<Rule>, i: nat)
    requires i < |rules| && Covered(rules, order, i) && order <= longer
    ensures Covered(rules, longer, i)
  {
    var n :| 0 <= n <= |order| && rules[i].id in Ids(order[..n]) && FromListed(rules, order[..n], i);
    assert longer[..n] == order[..n];
  }

  /**
   A rule is placed before one that is listed no later than itself only as a prerequisite,
   direct or not, of some rule listed no later than that one.
   */
  ghost predicate KeepsListedOrder(rules: seq<Rule>, order: seq<Rule>) {
    forall p, q, i | 0 <= p < q < |order| && 0 <= i < |rules| && rules[i].id == order[q].id ::
      exists k :: 0 <= k <= i && Reaches(rules, rules[k].id, order[p].id)
  }

  lemma CoveredKeepsOrder(rules: seq<Rule>, order: seq<Rule>)
    requires Distinct(order) && forall i | 0 <= i < |rules| :: Covered(rules, order, i)
    ensures KeepsListedOrder(rules, order)
  {
    forall p, q, i | 0 <= p < q < |order| && 0 <= i < |rules| && rules[i].id == order[q].id
      ensures exists k :: 0 <= k <= i && Reaches(rules, rules[k].id, order[p].id)
    {
      assert Covered(rules, order, i);
      var n :| 0 <= n <= |order| && rules[i].id in Ids(order[..n]) && FromListed(rules, order[..n], i);
      var j :| 0 <= j < n && order[..n][j].id == rules[i].id;
      assert order[j].id == order[q].id;
      assert order[p] == order[..n][p];
      assert order[p] in order[..n];
    }
  }

  /** The closure of `_topological_sort`: what `visit` shares with the outer loop. */
  class DepthFirstSort {
    const ruleMap: map<string, Rule>
    var visited: set<string>
    var order: seq<Rule>

    constructor (ruleMap: map<string, Rule>)
      ensures this.ruleMap == ruleMap && visited == {} && order == []
    {
      this.ruleMap, visited, order := ruleMap, {}, [];
    }

    /** `stack` holds the rules whose `visit` call has not returned yet. */
    ghost predicate Valid(rules: seq<Rule>, stack: seq<Rule>)
      reads this
    {
      && ruleMap.Keys == Ids(rules)
      && (forall id | id in ruleMap :: ruleMap[id] in rules && ruleMap[id].id == id)
      && visited == Ids(order) + Ids(stack) && visited <= Ids(rules)
      && Ids(order) !! Ids(stack)
      && Distinct(order)
      && (forall r | r in order :: r in rules)
      && PrerequisitesFirst(rules, order)
      && Chain(rules, stack)
    }

    method Visit(rule: Rule, ghost rules: seq<Rule>, ghost stack: seq<Rule>)
      requires Valid(rules, stack)
      requires rule in rules
      requires stack != [] ==> rule.id in stack[|stack| - 1].prerequisites
      modifies this
      ensures Valid(rules, stack)
      ensures rule.id in visited && old(visited) <= visited
      ensures PlacedFrom(rules, rule.id, old(order), order)
      decreases Ids(rules) - visited
    {
      if rule.id in visited {
        return;
      }
      visited := visited + {rule.id};
      ghost var inner := stack + [rule];
      assert Ids(inner) == Ids(stack) + {rule.id} by {
        assert inner[|stack|] == rule;
        assert forall k | 0 <= k < |stack| :: inner[k] == stack[k];
      }
      assert rule.id in Ids(rules);
      for k := 0 to |rule.prerequisites|
        invariant Valid(rules, inner)
        invariant old(visited) + {rule.id} <= visited
        invariant PlacedFrom(rules, rule.id, old(order), order)
        invariant forall d | d in rule.prerequisites[..k] && d in ruleMap :: d in visited
      {
        var dep := rule.prerequisites[k];
        if dep in ruleMap {
          ghost var before := order;
          Visit(ruleMap[dep], rules, inner);
          ReachedFromDependency(rules, rule, dep, old(order), before, order);
        }
        assert rule.prerequisites[..k + 1] == rule.prerequisites[..k] + [dep];
      }
      assert rule.prerequisites[..|rule.prerequisites|] == rule.prerequisites;
      ghost var before := order;
      Append(rule, rules, stack);
      PlacedItself(rules, rule, old(order), before, order);
    }

    /** A rule is placed when every prerequisite it names has been visited. */
    method Append(rule: Rule, ghost rules: seq<Rule>, ghost stack: seq<Rule>)
      requires Valid(rules, stack + [rule])
      requires forall d | d in rule.prerequisites && d in ruleMap :: d in visited
      requires rule.id !in Ids(stack)
      modifies this`order
      ensures Valid(rules, stack)
      ensures order == old(order) + [rule]
    {
      ghost var inner, before := stack + [rule], order;
      assert inner[|stack|] == rule;
      assert Ids(inner) == Ids(stack) + {rule.id} by {
        assert forall k | 0 <= k < |stack| :: inner[k] == stack[k];
      }
      order := order + [rule];
      assert Ids(order) == Ids(before) + {rule.id} by {
        assert order[|before|] == rule;
        assert forall k | 0 <= k < |before| :: order[k] == before[k];
      }
      forall i, d | 0 <= i < |order| && d in order[i].prerequisites && d in Ids(rules)
        ensures PlacedBefore(order, d, i) || OnCommonCycle(rules, order[i].id, d)
      {
        if i < |before| {
          assert order[i] == before[i];
          if PlacedBefore(before, d, i) {
            var j :| 0 <= j < i && before[j].id == d;
            assert order[j].id == d;
          }
        } else if d in Ids(before) {
          var j :| 0 <= j < |before| && before[j].id == d;
          assert order[j].id == d;
        } else {
          assert d in Ids(inner);
          var m :| 0 <= m < |inner| && inner[m].id == d;
          ChainReaches(rules, inner, m);
          assert rule in rules && Edge(rules, rule.id, d);
        }
      }
      assert Chain(rules, stack) by {
        assert forall k | 0 <= k < |stack| :: inner[k] == stack[k];
        assert forall r | r in stack :: r in inner;
      }
    }
  }

  lemma ReachedFromDependency(rules: seq<Rule>, rule: Rule, dep: string,
                              start: seq<Rule>, before: seq<Rule>, after: seq<Rule>)
    requires rule in rules && dep in rule.prerequisites && dep in Ids(rules)
    requires PlacedFrom(rules, rule.id, start, before) && PlacedFrom(rules, dep, before, after)
    ensures PlacedFrom(rules, rule.id, start, after)
  {
    assert after[|start|..] == before[|start|..] + after[|before|..];
    forall r | r in after[|start|..]
      ensures Reaches(rules, rule.id, r.id)
    {
      if r in after[|before|..] {
        assert Edge(rules, rule.id, dep);
        ReachesThrough(rules, rule.id, dep, r.id);
      }
    }
  }

  lemma CoveredNext(rules: seq<Rule>, k: nat, before: seq<Rule>, order: seq<Rule>)
    requires k < |rules| && PlacedFrom(rules, rules[k].id, before, order) && rules[k].id in Ids(order)
    requires k > 0 ==> FromListed(rules, before, k - 1)
    requires k == 0 ==> before == []
    requires forall i | 0 <= i < k :: Covered(rules, before, i)
    ensures FromListed(rules, order, k) && forall i | 0 <= i < k + 1 :: Covered(rules, order, i)
  {
    assert order == before + order[|before|..];
    forall r | r in order
      ensures exists l :: 0 <= l <= k && Reaches(rules, rules[l].id, r.id)
    {
      if r in before {
        var l :| 0 <= l <= k - 1 && Reaches(rules, rules[l].id, r.id);
      } else {
        assert r in order[|before|..];
      }
    }
    assert order[..|order|] == order;
    forall i | 0 <= i < k
      ensures Covered(rules, order, i)
    {
      StaysCovered(rules, before, order, i);
    }
  }

  /** Terminates on every list, and places each distinct rule id exactly once. */
  method TopologicalSort(rules: seq<Rule>) returns (order: seq<Rule>)
    ensures SortedFrom(rules, order) && KeepsListedOrder(rules, order)
  {
    var ruleMap: map<string, Rule> := map[];
    for k := 0 to |rules|
      invariant ruleMap.Keys == Ids(rules[..k])
      invariant forall id | id in ruleMap :: ruleMap[id] in rules && ruleMap[id].id == id
    {
      ruleMap := ruleMap[rules[k].id := rules[k]];
      assert Ids(rules[..k + 1]) == Ids(rules[..k]) + {rules[k].id} by {
        assert rules[..k + 1][k] == rules[k];
        assert forall i | 0 <= i < k :: rules[..k + 1][i] == rules[..k][i];
      }
    }
    assert rules[..|rules|] == rules;
    var sorter := new DepthFirstSort(ruleMap);
    for k := 0 to |rules|
      invariant fresh(sorter)
      invariant sorter.Valid(rules, [])
      invariant forall i | 0 <= i < k :: rules[i].id in sorter.visited
      invariant k == 0 ==> sorter.order == []
      invariant k > 0 ==> FromListed(rules, sorter.order, k - 1)
      invariant forall i | 0 <= i < k :: Covered(rules, sorter.order, i)
    {
      ghost var before := sorter.order;
      sorter.Visit(rules[k], rules, []);
      CoveredNext(rules, k, before, sorter.order);
    }
    assert sorter.visited == Ids(rules);
    order := sorter.order;
    CoveredKeepsOrder(rules, order);
  }
}
