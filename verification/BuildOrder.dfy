/** The order in which packages are built: depth first over the dependencies, with cycle detection. */
module BuildOrdering {
  import opened Digraph

  /** Each package's dependencies. */
  type Dependencies = map<string, seq<string>>

  datatype Outcome = Order(packages: seq<string>) | UnknownPackage(name: string) | DependencyCycle(path: seq<string>)

  // ----- What is needed

  /** Each element but the last is a known package that depends on the next. */
  predicate DependsAlong(deps: Dependencies, p: seq<string>) {
    p != [] && forall i | 0 <= i < |p| - 1 :: DependsOn(deps, p[i], p[i + 1])
  }

  predicate DependsOn(deps: Dependencies, user: string, dependency: string) {
    user in deps && dependency in deps[user]
  }

  ghost predicate Leads(deps: Dependencies, from: string, to: string) {
    exists p :: LeadsBy(deps, p, from, to)
  }

  predicate LeadsBy(deps: Dependencies, p: seq<string>, from: string, to: string) {
    DependsAlong(deps, p) && p[0] == from && p[|p| - 1] == to
  }

  /** A target or a direct or indirect dependency of one. */
  ghost predicate Needed(deps: Dependencies, targets: seq<string>, name: string) {
    exists t :: t in targets && Leads(deps, t, name)
  }

  ghost predicate AllKnown(deps: Dependencies, targets: seq<string>) {
    forall name :: Needed(deps, targets, name) ==> name in deps
  }

  /** Something needed depends on itself, directly or indirectly. */
  ghost predicate NeedsCycle(deps: Dependencies, targets: seq<string>) {
    exists p :: IsDependencyCycle(deps, p) && Needed(deps, targets, p[0])
  }

  predicate IsDependencyCycle(deps: Dependencies, p: seq<string>) {
    |p| >= 2 && p[0] == p[|p| - 1] && DependsAlong(deps, p)
  }

  /** The last package of the chain is already further up in it. */
  ghost predicate EndsInCycle(deps: Dependencies, p: seq<string>) {
    DependsAlong(deps, p) && p[|p| - 1] in p[..|p| - 1]
  }

  /** Known packages, none twice, each after all its dependencies. */
  predicate Buildable(deps: Dependencies, order: seq<string>) {
    NoRepeats(order) && forall i | 0 <= i < |order| :: order[i] in deps && forall d | d in deps[order[i]] ::
        d in order[..i]
  }

  // ----- Paths

  lemma LeadsItself(deps: Dependencies, name: string)
    ensures Leads(deps, name, name)
  {
    assert LeadsBy(deps, [name], name, name);
  }

  lemma LeadsFirst(deps: Dependencies, user: string, dependency: string, to: string)
    requires DependsOn(deps, user, dependency) && Leads(deps, dependency, to)
    ensures Leads(deps, user, to)
  {
    var p :| LeadsBy(deps, p, dependency, to);
    var q := [user] + p;
    forall i | 0 <= i < |q| - 1
      ensures DependsOn(deps, q[i], q[i + 1])
    {
      if i > 0 { assert DependsOn(deps, p[i - 1], p[i - 1 + 1]); }
    }
    assert LeadsBy(deps, q, user, to);
  }

  lemma AlongMore(deps: Dependencies, p: seq<string>, dependency: string)
    requires DependsAlong(deps, p) && DependsOn(deps, p[|p| - 1], dependency)
    ensures DependsAlong(deps, p + [dependency])
  {
    var q := p + [dependency];
    forall i | 0 <= i < |q| - 1
      ensures DependsOn(deps, q[i], q[i + 1])
    {
      if i < |p| - 1 { assert DependsOn(deps, p[i], p[i + 1]); }
    }
  }

  lemma OneMore(deps: Dependencies, order: seq<string>, target: string)
    requires Buildable(deps, order) && target in deps && target !in order
    requires forall d | d in deps[target] :: d in order
    ensures Buildable(deps, order + [target])
  {
    var more := order + [target];
    forall i | 0 <= i < |more|
      ensures more[i] in deps && forall d | d in deps[more[i]] :: d in more[..i]
    {
      assert more[..i] == order[..i];
      if i == |order| { assert order[..i] == order; }
    }
  }

  // ----- The search

  class Builder {
    const deps: Dependencies
    var order: seq<string>
    var orderSet: set<string>

    constructor (deps: Dependencies)
      ensures this.deps == deps && order == [] && orderSet == {}
    {
      this.deps := deps;
      order, orderSet := [], {};
    }

    ghost predicate Valid()
      reads this
    {
      orderSet == (set x | x in order) && Buildable(deps, order)
    }

    /** Adds the target and what it depends on; `path` is the chain of packages being added that led here. */
    method Add(target: string, path: seq<string>) returns (error: Outcome)
      requires Valid() && NoRepeats(path) && DependsAlong(deps, path + [target])
      requires forall x | x in path :: x in deps && x !in order
      modifies this
      ensures Valid() && old(order) <= order
      ensures forall x | x in path :: x !in order
      ensures error.Order? ==> target in order
      ensures forall x | x in order && x !in old(order) :: Leads(deps, target, x)
      ensures error.UnknownPackage? ==> error.name !in deps && Leads(deps, target, error.name)
      ensures error.DependencyCycle? ==> path + [target] <= error.path && EndsInCycle(deps, error.path)
      decreases deps.Keys - (set x | x in path), 1
    {
      error := Order([]);
      if target in orderSet {
        return;
      }
      if target !in deps {
        LeadsItself(deps, target);
        return UnknownPackage(target);
      }
      var next := path + [target];
      if target in path {
        return DependencyCycle(next);
      }
      assert deps.Keys - (set x | x in next) < deps.Keys - (set x | x in path) by {
        assert target in next && target in deps.Keys - (set x | x in path);
        assert forall x | x in path :: x in next;
      }
      error := AddDependencies(target, next);
      if !error.Order? {
        return;
      }
      LeadsItself(deps, target);
      OneMore(deps, order, target);
      order := order + [target];
      orderSet := orderSet + {target};
    }

    /** The loop over the target's dependencies; the target ends the chain. */
    method AddDependencies(target: string, path: seq<string>) returns (error: Outcome)
      requires Valid() && NoRepeats(path) && DependsAlong(deps, path) && path[|path| - 1] == target
      requires forall x | x in path :: x in deps && x !in order
      modifies this
      ensures Valid() && old(order) <= order
      ensures forall x | x in path :: x !in order
      ensures error.Order? ==> forall d | d in deps[target] :: d in order
      ensures forall x | x in order && x !in old(order) :: Leads(deps, target, x)
      ensures error.UnknownPackage? ==> error.name !in deps && Leads(deps, target, error.name)
      ensures error.DependencyCycle? ==> path <= error.path && EndsInCycle(deps, error.path)
      decreases deps.Keys - (set x | x in path), 2
    {
      error := Order([]);
      for i := 0 to |deps[target]|
        invariant error.Order? && Valid() && old(order) <= order
        invariant forall x | x in path :: x !in order
        invariant forall k | 0 <= k < i :: deps[target][k] in order
        invariant forall x | x in order && x !in old(order) :: Leads(deps, target, x)
      {
        var d := deps[target][i];
        ghost var before := order;
        AlongMore(deps, path, d);
        error := Add(d, path);
        assert before <= order;
        forall x | Leads(deps, d, x)
          ensures Leads(deps, target, x)
        {
          LeadsFirst(deps, target, d, x);
        }
        if !error.Order? {
          return;
        }
      }
    }
  }

  // ----- The order as a whole

  /** An order with the targets in it that keeps dependencies first has everything needed in it. */
  lemma HasAllNeeded(deps: Dependencies, targets: seq<string>, order: seq<string>, name: string)
    requires Buildable(deps, order) && (forall t | t in targets :: t in order)
    requires Needed(deps, targets, name)
    ensures name in order
  {
    var t :| t in targets && Leads(deps, t, name);
    var p :| LeadsBy(deps, p, t, name);
    var _ := StaysInOrder(deps, order, p);
  }

  /** A chain of dependencies leads ever earlier in the order. */
  lemma {:induction false} StaysInOrder(deps: Dependencies, order: seq<string>, p: seq<string>) returns (at: nat)
    requires Buildable(deps, order) && DependsAlong(deps, p) && p[0] in order
    ensures at < |order| && order[at] == p[|p| - 1] && (|p| >= 2 ==> p[0] in order[at + 1..])
  {
    if |p| == 1 {
      at :| 0 <= at < |order| && order[at] == p[0];
    } else {
      var front := p[..|p| - 1];
      var user, d := front[|front| - 1], p[|p| - 1];
      forall i | 0 <= i < |front| - 1
        ensures DependsOn(deps, front[i], front[i + 1])
      {
        assert DependsOn(deps, p[i], p[i + 1]);
      }
      var k := StaysInOrder(deps, order, front);
      assert DependsOn(deps, p[|p| - 2], p[|p| - 2 + 1]);
      assert d in order[..k];
      at :| 0 <= at < k && order[at] == d;
      assert order[k] in order[at + 1..];
      if |front| >= 2 {
        assert order[k + 1..] == order[at + 1..][k - at..];
      }
    }
  }

  lemma OrderedHasNoCycle(deps: Dependencies, targets: seq<string>, order: seq<string>)
    requires Buildable(deps, order) && (forall t | t in targets :: t in order)
    ensures !NeedsCycle(deps, targets)
  {
    if p :| IsDependencyCycle(deps, p) && Needed(deps, targets, p[0]) {
      HasAllNeeded(deps, targets, order, p[0]);
      var at := StaysInOrder(deps, order, p);
    }
  }

  /** A chain from a target that runs into itself shows a cycle among what is needed. */
  lemma ChainShowsCycle(deps: Dependencies, targets: seq<string>, p: seq<string>)
    requires EndsInCycle(deps, p) && p[0] in targets
    ensures NeedsCycle(deps, targets)
  {
    var k :| 0 <= k < |p| - 1 && p[k] == p[|p| - 1];
    var lead, loop := p[..k + 1], p[k..];
    forall i | 0 <= i < |lead| - 1
      ensures DependsOn(deps, lead[i], lead[i + 1])
    {
      assert DependsOn(deps, p[i], p[i + 1]);
    }
    forall i | 0 <= i < |loop| - 1
      ensures DependsOn(deps, loop[i], loop[i + 1])
    {
      assert DependsOn(deps, p[k + i], p[k + i + 1]);
    }
    assert LeadsBy(deps, lead, p[0], loop[0]);
    assert IsDependencyCycle(deps, loop);
  }

  /**
   * Without `ignoreDependencies`: an order comes back exactly when everything needed is known and nothing needed
   * depends on itself. It then holds exactly what is needed, nothing twice, dependencies before their users.
   */
  method BuildOrder(deps: Dependencies, targets: seq<string>, ignoreDependencies: bool) returns (r: Outcome)
    ensures ignoreDependencies ==> r == Order(targets)
    ensures !ignoreDependencies ==> (r.Order? <==> AllKnown(deps, targets) && !NeedsCycle(deps, targets))
    ensures !ignoreDependencies && r.Order? ==>
              Buildable(deps, r.packages) && forall name :: name in r.packages <==> Needed(deps, targets, name)
    ensures !ignoreDependencies && r.UnknownPackage? ==> r.name !in deps && Needed(deps, targets, r.name)
    ensures !ignoreDependencies && r.DependencyCycle? ==> EndsInCycle(deps, r.path) && r.path[0] in targets
  {
    hide NeedsCycle, DependsAlong, Leads;
    if ignoreDependencies {
      return Order(targets);
    }
    var builder := new Builder(deps);
    for i := 0 to |targets|
      invariant builder.Valid() && builder.deps == deps
      invariant forall k | 0 <= k < i :: targets[k] in builder.order
      invariant forall x | x in builder.order :: Needed(deps, targets, x)
    {
      JustTarget(deps, targets[i]);
      var error := builder.Add(targets[i], []);
      if !error.Order? {
        if error.DependencyCycle? {
          ChainShowsCycle(deps, targets, error.path);
        }
        return error;
      }
    }
    r := Order(builder.order);
    forall name | Needed(deps, targets, name)
      ensures name in r.packages && name in deps
    {
      HasAllNeeded(deps, targets, r.packages, name);
    }
    OrderedHasNoCycle(deps, targets, r.packages);
  }

  lemma JustTarget(deps: Dependencies, target: string)
    ensures DependsAlong(deps, [] + [target])
  {
  }
}
