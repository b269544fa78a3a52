/** Module start-up: a depth-first resolution of the declared dependencies, start in that order, shutdown
    in reverse. */
module Boot {
  import opened Options

  datatype Module = Module(name: string, required: seq<string>, active: bool)

  /** The declared modules by name. */
  type Graph = map<string, Module>

  ghost predicate WellNamed(g: Graph) {
    forall n | n in g :: g[n].name == n
  }

  /** Every required name is declared. */
  ghost predicate AllDeclared(g: Graph) {
    forall n, r | n in g && r in g[n].required :: r in g
  }

  /** Each step of a walk goes from a module to one it requires. */
  ghost predicate Walk(g: Graph, w: seq<string>) {
    && (forall i | 0 <= i < |w| :: w[i] in g)
    && (forall i, j | 0 <= i < |w| && j == i + 1 < |w| :: w[j] in g[w[i]].required)
  }

  ghost predicate Distinct(w: seq<string>) {
    forall i, j | 0 <= i < j < |w| :: w[i] != w[j]
  }

  /** Some walk from `n` comes back to where it was: `n` reaches a cycle. */
  ghost predicate ReachesCycle(g: Graph, n: string) {
    exists w: seq<string> :: w != [] && w[0] == n && Walk(g, w) && !Distinct(w)
  }

  ghost predicate Reaches(g: Graph, n: string, m: string) {
    exists w: seq<string> :: w != [] && w[0] == n && w[|w| - 1] == m && Walk(g, w)
  }

  /** Each module once, everything it requires before it. */
  ghost predicate Topological(g: Graph, order: seq<string>) {
    && Distinct(order)
    && (forall i | 0 <= i < |order| :: order[i] in g && forall r | r in g[order[i]].required :: r in order[..i])
  }

  datatype Outcome = Done | Cyclic(name: string, parent: Option<string>) | Undeclared(name: string) | NoModule | StartFailed(name: string)

  class ModuleStarter {
    const moduleMap: Graph
    var activeModules: seq<string>
    var visited: set<string>
    var orderedModules: seq<string>
    var startedModules: seq<string>

    /** The modules must have different names, as the keys of one configuration have. */
    constructor (modules: seq<Module>)
      requires forall i, j | 0 <= i < j < |modules| :: modules[i].name != modules[j].name
      ensures WellNamed(moduleMap) && moduleMap.Values == (set m | m in modules)
      ensures visited == {} && orderedModules == [] && startedModules == []
      ensures forall n :: n in activeModules <==> n in moduleMap && moduleMap[n].active
    {
      hide Declares, ActiveOf;
      var active, names: Graph := [], map[];
      DeclaresNothing(modules);
      for i := 0 to |modules|
        invariant Declares(names, modules[..i]) && ActiveOf(active, names)
      {
        var m := modules[i];
        DeclaresNext(active, names, modules, i);
        if m.active {
          active := active + [m.name];
        }
        names := names[m.name := m];
      }
      DeclaresAll(active, names, modules);
      activeModules, moduleMap := active, names;
      visited, orderedModules, startedModules := {}, [], [];
    }

    /** Resolves one module: afterwards it is in the order, behind everything it requires; or the walk down
        the stack to it closes a cycle; or a name on the way is not declared. */
    method AppendToResolve(name: string, parent: Option<string>, ghost stack: seq<string>) returns (r: Outcome)
      requires Resolving(moduleMap, visited, orderedModules, stack) && MayFollow(moduleMap, stack, name)
      modifies this`visited, this`orderedModules
      ensures old(visited) <= visited <= moduleMap.Keys && !r.NoModule? && !r.StartFailed?
      ensures r.Done? ==>
        && Resolving(moduleMap, visited, orderedModules, stack) && name in orderedModules
        && Extends(moduleMap, name, old(orderedModules), orderedModules)
      ensures r.Cyclic? ==> ReachesCycle(moduleMap, (stack + [name])[0])
      ensures r.Undeclared? ==> r.name !in moduleMap && (r.name == name || !AllDeclared(moduleMap))
      decreases moduleMap.Keys - visited
    {
      hide Resolving, MayFollow, Extends, ReachesCycle, AllDeclared, WellNamed;
      VisitedDeclared(moduleMap, visited, orderedModules, stack);
      ExtendsNothing(moduleMap, name, orderedModules);
      if name !in moduleMap {
        return Undeclared(name);
      }
      if name in visited {
        if name in orderedModules {
          return Done;
        }
        ClosedWalk(moduleMap, visited, orderedModules, stack, name);
        return Cyclic(name, parent);
      }
      Enter(moduleMap, visited, orderedModules, stack, name);
      visited := visited + {name};
      ghost var stack' := stack + [name];
      var required := moduleMap[name].required;
      ghost var before := orderedModules;
      for i := 0 to |required|
        invariant old(visited) + {name} <= visited <= moduleMap.Keys
        invariant Resolving(moduleMap, visited, orderedModules, stack')
        invariant forall k | 0 <= k < i :: required[k] in orderedModules
        invariant Extends(moduleMap, name, before, orderedModules)
      {
        ghost var mid := orderedModules;
        Follows(moduleMap, stack, name, required[i]);
        r := AppendToResolve(required[i], Some(name), stack');
        if !r.Done? {
          if r.Undeclared? { RequiredUndeclared(moduleMap, name, required[i], r.name); }
          return;
        }
        ExtendsThrough(moduleMap, name, required[i], before, mid, orderedModules);
        ExtendsKeeps(moduleMap, required[i], mid, orderedModules);
      }
      Leave(moduleMap, visited, orderedModules, stack, name);
      ExtendsSelf(moduleMap, name, before, orderedModules);
      orderedModules := orderedModules + [name];
      return Done;
    }

    /** Resolves all active modules, in any order `sorted`. With every required name declared it succeeds
        exactly when no active module reaches a cycle; then the order holds exactly the modules that the
        active ones reach, each once and behind what it requires. */
    method ResolveDependency(sorted: seq<string>) returns (r: Outcome)
      requires WellNamed(moduleMap) && visited == {} && orderedModules == []
      requires forall n :: n in activeModules <==> n in moduleMap && moduleMap[n].active
      requires multiset(sorted) == multiset(activeModules)
      modifies this`activeModules, this`visited, this`orderedModules
      ensures activeModules == sorted && !r.NoModule? && !r.StartFailed?
      ensures AllDeclared(moduleMap) ==> (r.Done? <==> forall a | a in activeModules :: !ReachesCycle(moduleMap, a))
      ensures AllDeclared(moduleMap) ==> (r.Cyclic? <==> exists a :: a in activeModules && ReachesCycle(moduleMap, a))
      ensures r.Undeclared? ==> r.name !in moduleMap && !AllDeclared(moduleMap)
      ensures r.Done? ==>
        && Topological(moduleMap, orderedModules)
        && (forall a | a in activeModules :: a in orderedModules)
        && forall m :: m in orderedModules <==> ReachedFromAny(moduleMap, activeModules, m)
    {
      hide AllReached, ReachedFromAny, ReachesCycle, AllDeclared, Topological, WellNamed;
      assert forall n :: n in sorted <==> n in multiset(sorted);
      assert forall n :: n in activeModules <==> n in multiset(activeModules);
      activeModules := sorted;
      r := CheckRequired();
      if !r.Done? {
        return;
      }
      r := ResolveActive();
      if r.Done? {
        forall a | a in sorted ensures !ReachesCycle(moduleMap, a) {
          OrderHasNoCycle(moduleMap, orderedModules, a);
        }
        forall m ensures m in orderedModules <==> ReachedFromAny(moduleMap, activeModules, m) {
          OrderedIffReached(moduleMap, activeModules, orderedModules, m);
        }
      }
    }

    /** The life of the program: resolve, start, and on every way out shut down what was started. Even when
        a start fails, each started module started after and stops before everything it requires. */
    method Run(sorted: seq<string>, fails: set<string>) returns (r: Outcome, stopped: seq<string>)
      requires WellNamed(moduleMap) && visited == {} && orderedModules == [] && startedModules == []
      requires forall n :: n in activeModules <==> n in moduleMap && moduleMap[n].active
      requires multiset(sorted) == multiset(activeModules)
      modifies this`activeModules, this`visited, this`orderedModules, this`startedModules
      ensures r.Done? ==> startedModules == orderedModules
      ensures r.Done? || r.StartFailed? ==> startedModules <= orderedModules && forall n | n in startedModules :: n !in fails
      ensures r.StartFailed? ==> startedModules < orderedModules && r.name == orderedModules[|startedModules|] && r.name in fails
      ensures r.Cyclic? || r.Undeclared? || r.NoModule? ==> startedModules == [] && stopped == []
      ensures multiset(stopped) == multiset(startedModules)
      ensures forall i: nat, q | i < |startedModules| && startedModules[i] in moduleMap && q in moduleMap[startedModules[i]].required ::
        |stopped| == |startedModules| && q in startedModules[..i] && q in stopped[|startedModules| - i..]
    {
      hide Reaches, ReachesCycle, AllReached, AllDeclared, Topological, WellNamed;
      stopped := [];
      r := ResolveDependency(sorted);
      if !r.Done? {
        return;
      }
      if |orderedModules| == 0 {
        return NoModule, [];
      }
      var ok := StartModules(fails);
      if !ok {
        r := StartFailed(orderedModules[|startedModules|]);
      }
      stopped := ShutdownModules();
      forall i: nat, q | i < |startedModules| && startedModules[i] in moduleMap && q in moduleMap[startedModules[i]].required
        ensures |stopped| == |startedModules| && q in startedModules[..i] && q in stopped[|startedModules| - i..]
      {
        StartsAfterStopsBefore(moduleMap, orderedModules, startedModules, stopped, i, q);
      }
      ReversedSame(startedModules, stopped);
    }

    method CheckRequired() returns (r: Outcome)
      requires forall a | a in activeModules :: a in moduleMap
      ensures r.Done? || (r.Undeclared? && r.name !in moduleMap && !AllDeclared(moduleMap))
    {
      for i := 0 to |activeModules| {
        var required := moduleMap[activeModules[i]].required;
        for j := 0 to |required| {
          if required[j] !in moduleMap {
            RequiredUndeclared(moduleMap, activeModules[i], required[j], required[j]);
            return Undeclared(required[j]);
          }
        }
      }
      return Done;
    }

    method ResolveActive() returns (r: Outcome)
      requires WellNamed(moduleMap) && visited == {} && orderedModules == []
      requires forall a | a in activeModules :: a in moduleMap
      modifies this`visited, this`orderedModules
      ensures !r.NoModule? && !r.StartFailed?
      ensures r.Cyclic? ==> exists a :: a in activeModules && ReachesCycle(moduleMap, a)
      ensures r.Undeclared? ==> r.name !in moduleMap && !AllDeclared(moduleMap)
      ensures r.Done? ==>
        && Topological(moduleMap, orderedModules)
        && (forall a | a in activeModules :: a in orderedModules)
        && AllReached(moduleMap, activeModules, orderedModules)
    {
      StartResolving(moduleMap, activeModules);
      hide Resolving, MayFollow, ReachesCycle, Extends, AllReached, AllDeclared, WellNamed, Topological;
      var active := activeModules;
      for i := 0 to |active|
        invariant Resolving(moduleMap, visited, orderedModules, [])
        invariant forall k | 0 <= k < i :: active[k] in orderedModules
        invariant AllReached(moduleMap, active, orderedModules)
      {
        ghost var before := orderedModules;
        StartAt(moduleMap, active[i]);
        r := AppendToResolve(active[i], None, []);
        if !r.Done? {
          assert ([] + [active[i]])[0] == active[i];
          return;
        }
        ExtendsKeeps(moduleMap, active[i], before, orderedModules);
        ReachedMore(moduleMap, active, i, before, orderedModules);
      }
      ResolvedTopological(moduleMap, visited, orderedModules);
      return Done;
    }

    /** Starts the modules in order until one fails; `fails` says which ones do. */
    method StartModules(fails: set<string>) returns (ok: bool)
      requires startedModules == []
      modifies this`startedModules
      ensures startedModules <= orderedModules
      ensures ok <==> startedModules == orderedModules
      ensures forall n | n in startedModules :: n !in fails
      ensures !ok ==> orderedModules[|startedModules|] in fails
    {
      for i := 0 to |orderedModules|
        invariant startedModules == orderedModules[..i]
        invariant forall n | n in startedModules :: n !in fails
      {
        if orderedModules[i] in fails {
          return false;
        }
        startedModules := startedModules + [orderedModules[i]];
      }
      return true;
    }

    /** Shuts down what was started, last first. */
    method ShutdownModules() returns (stopped: seq<string>)
      ensures |stopped| == |startedModules|
      ensures forall i | 0 <= i < |stopped| :: stopped[i] == startedModules[|startedModules| - 1 - i]
    {
      stopped := [];
      for i := |startedModules| downto 0
        invariant |stopped| == |startedModules| - i
        invariant forall k | 0 <= k < |stopped| :: stopped[k] == startedModules[|startedModules| - 1 - k]
      {
        stopped := stopped + [startedModules[i]];
      }
    }
  }

  /** The map has exactly these modules, each under its name. */
  ghost predicate Declares(names: Graph, modules: seq<Module>) {
    WellNamed(names) && (forall m | m in modules :: m.name in names && names[m.name] == m) && forall n | n in names :: names[n] in modules
  }

  ghost predicate ActiveOf(active: seq<string>, names: Graph) {
    forall n :: n in active <==> n in names && names[n].active
  }

  lemma DeclaresNothing(modules: seq<Module>)
    ensures Declares(map[], modules[..0]) && ActiveOf([], map[])
  {
  }

  lemma DeclaresNext(active: seq<string>, names: Graph, modules: seq<Module>, i: nat)
    requires forall j, k | 0 <= j < k < |modules| :: modules[j].name != modules[k].name
    requires i < |modules| && Declares(names, modules[..i]) && ActiveOf(active, names)
    ensures Declares(names[modules[i].name := modules[i]], modules[..i + 1])
    ensures ActiveOf(if modules[i].active then active + [modules[i].name] else active, names[modules[i].name := modules[i]])
  {
    var m := modules[i];
    assert modules[..i + 1] == modules[..i] + [m];
    assert forall x | x in modules[..i] :: x.name != m.name;
  }

  lemma DeclaresAll(active: seq<string>, names: Graph, modules: seq<Module>)
    requires Declares(names, modules[..|modules|]) && ActiveOf(active, names)
    ensures WellNamed(names) && names.Values == (set m | m in modules)
    ensures forall n :: n in active <==> n in names && names[n].active
  {
    assert modules[..|modules|] == modules;
    forall m ensures m in names.Values <==> m in modules {
      if m in modules {
        assert names[m.name] == m;
      }
    }
  }

  /** Whatever was started, each module started after and stops before everything it requires. */
  lemma StartsAfterStopsBefore(g: Graph, order: seq<string>, started: seq<string>, stopped: seq<string>, i: nat, r: string)
    requires Topological(g, order) && started <= order
    requires |stopped| == |started| && forall k | 0 <= k < |stopped| :: stopped[k] == started[|started| - 1 - k]
    requires i < |started| && started[i] in g && r in g[started[i]].required
    ensures r in started[..i]
    ensures stopped[|started| - 1 - i] == started[i] && r in stopped[|started| - i..]
  {
    assert started[i] == order[i];
    var j :| 0 <= j < i && order[j] == r;
    assert stopped[|started| - 1 - j] == r;
  }

  lemma {:induction false} ReversedSame(a: seq<string>, b: seq<string>)
    requires |b| == |a| && forall i | 0 <= i < |a| :: b[i] == a[|a| - 1 - i]
    ensures multiset(a) == multiset(b)
  {
    if a != [] {
      ReversedSame(a[1..], b[..|a| - 1]);
      assert a == [a[0]] + a[1..] && b == b[..|a| - 1] + [a[0]];
    }
  }

  /** What the resolution knows while the modules of `stack` are being resolved, each for the one before. */
  ghost predicate Resolving(g: Graph, visited: set<string>, order: seq<string>, stack: seq<string>) {
    && visited <= g.Keys && Topological(g, order) && Walk(g, stack)
    && (forall n :: n in visited <==> n in order || n in stack)
    && (forall n | n in order :: n !in stack) && Distinct(stack)
  }

  ghost predicate MayFollow(g: Graph, stack: seq<string>, name: string) {
    stack != [] ==> stack[|stack| - 1] in g && name in g[stack[|stack| - 1]].required
  }

  /** `order` grew from `before` by modules that `name` reaches. */
  ghost predicate Extends(g: Graph, name: string, before: seq<string>, order: seq<string>) {
    before <= order && forall n | n in order && n !in before :: Reaches(g, name, n)
  }

  /** Every module of the order is one that an active module reaches. */
  ghost predicate AllReached(g: Graph, active: seq<string>, order: seq<string>) {
    forall n | n in order :: exists a :: a in active && Reaches(g, a, n)
  }

  lemma ReachedMore(g: Graph, active: seq<string>, i: nat, before: seq<string>, order: seq<string>)
    requires i < |active| && AllReached(g, active, before) && Extends(g, active[i], before, order)
    ensures AllReached(g, active, order)
  {
    hide Reaches;
    forall n | n in order ensures exists a :: a in active && Reaches(g, a, n) {
      if n !in before { assert Reaches(g, active[i], n); }
    }
  }

  lemma StartResolving(g: Graph, active: seq<string>)
    ensures Resolving(g, {}, [], []) && AllReached(g, active, [])
  {
  }

  lemma StartAt(g: Graph, name: string)
    ensures MayFollow(g, [], name)
  {
  }

  lemma ResolvedTopological(g: Graph, visited: set<string>, order: seq<string>)
    requires Resolving(g, visited, order, [])
    ensures Topological(g, order)
  {
  }

  lemma VisitedDeclared(g: Graph, visited: set<string>, order: seq<string>, stack: seq<string>)
    requires Resolving(g, visited, order, stack)
    ensures visited <= g.Keys
  {
  }

  lemma Enter(g: Graph, visited: set<string>, order: seq<string>, stack: seq<string>, name: string)
    requires Resolving(g, visited, order, stack) && MayFollow(g, stack, name) && name in g && name !in visited
    ensures Resolving(g, visited + {name}, order, stack + [name])
  {
    hide Topological;
    assert forall n :: n in stack + [name] <==> n in stack || n == name;
  }

  lemma Leave(g: Graph, visited: set<string>, order: seq<string>, stack: seq<string>, name: string)
    requires Resolving(g, visited, order, stack + [name]) && name in g
    requires forall r | r in g[name].required :: r in order
    ensures Resolving(g, visited, order + [name], stack)
  {
    var s := stack + [name];
    assert s[|stack|] == name && forall i | 0 <= i < |stack| :: s[i] == stack[i];
    assert forall n :: n in s <==> n in stack || n == name;
    AppendTopological(g, order, name);
    hide Topological;
    assert name !in stack;
  }

  lemma Follows(g: Graph, stack: seq<string>, name: string, r: string)
    requires name in g && r in g[name].required
    ensures MayFollow(g, stack + [name], r) && (stack + [name] + [r])[0] == (stack + [name])[0]
  {
  }

  lemma ExtendsNothing(g: Graph, name: string, order: seq<string>)
    ensures Extends(g, name, order, order)
  {
  }

  lemma ExtendsKeeps(g: Graph, name: string, before: seq<string>, order: seq<string>)
    requires Extends(g, name, before, order)
    ensures forall n | n in before :: n in order
  {
  }

  lemma ExtendsThrough(g: Graph, name: string, r: string, before: seq<string>, mid: seq<string>, order: seq<string>)
    requires name in g && r in g[name].required && Extends(g, name, before, mid) && Extends(g, r, mid, order)
    ensures Extends(g, name, before, order)
  {
    hide Reaches;
    forall n | n in order && n !in before ensures Reaches(g, name, n) {
      if n !in mid { ReachesThrough(g, name, r, n); }
    }
  }

  lemma ExtendsSelf(g: Graph, name: string, before: seq<string>, order: seq<string>)
    requires name in g && Extends(g, name, before, order)
    ensures Extends(g, name, before, order + [name])
  {
    hide Reaches;
    ReachesSelf(g, name);
  }

  lemma ClosedWalk(g: Graph, visited: set<string>, order: seq<string>, stack: seq<string>, name: string)
    requires Resolving(g, visited, order, stack) && MayFollow(g, stack, name) && name in visited && name !in order
    ensures ReachesCycle(g, (stack + [name])[0])
  {
    var w := stack + [name];
    var i :| 0 <= i < |stack| && stack[i] == name;
    assert w[i] == w[|stack|] && !Distinct(w);
    assert Walk(g, w);
  }

  lemma ReachesSelf(g: Graph, n: string)
    requires n in g
    ensures Reaches(g, n, n)
  {
    assert Walk(g, [n]);
  }

  lemma ReachesThrough(g: Graph, n: string, m: string, k: string)
    requires n in g && m in g[n].required && Reaches(g, m, k)
    ensures Reaches(g, n, k)
  {
    var w: seq<string> :| w != [] && w[0] == m && w[|w| - 1] == k && Walk(g, w);
    assert Walk(g, [n] + w);
  }

  lemma RequiredUndeclared(g: Graph, n: string, m: string, u: string)
    requires n in g && m in g[n].required && u !in g && (u == m || !AllDeclared(g))
    ensures !AllDeclared(g)
  {
  }

  lemma AppendTopological(g: Graph, order: seq<string>, name: string)
    requires Topological(g, order) && name in g && name !in order
    requires forall r | r in g[name].required :: r in order
    ensures Topological(g, order + [name])
  {
    var o := order + [name];
    forall i | 0 <= i < |o| ensures o[i] in g && forall r | r in g[o[i]].required :: r in o[..i] {
      assert o[..i] == order[..i];
    }
  }

  /** Along a walk from an ordered module the places in the order go down, so no module comes twice. */
  lemma {:induction false} WalkGoesDown(g: Graph, order: seq<string>, w: seq<string>, p: nat) returns (q: nat)
    requires Topological(g, order) && w != [] && Walk(g, w) && p < |order| && order[p] == w[0]
    ensures q <= p && order[q] == w[|w| - 1] && (|w| > 1 ==> q < p)
    decreases |w|
  {
    if |w| == 1 {
      q := p;
    } else {
      assert w[1] in g[w[0]].required;
      var p' :| 0 <= p' < p && order[p'] == w[1];
      q := WalkGoesDown(g, order, w[1..], p');
    }
  }

  /** Some active module reaches it. */
  ghost predicate ReachedFromAny(g: Graph, active: seq<string>, m: string) {
    exists a :: a in active && Reaches(g, a, m)
  }

  /** The order holds exactly what the active modules reach. */
  lemma OrderedIffReached(g: Graph, active: seq<string>, order: seq<string>, m: string)
    requires Topological(g, order) && (forall a | a in active :: a in order) && AllReached(g, active, order)
    ensures m in order <==> ReachedFromAny(g, active, m)
  {
    hide Topological, Reaches;
    if ReachedFromAny(g, active, m) {
      var a :| a in active && Reaches(g, a, m);
      ReachedIsOrdered(g, order, a, m);
    }
  }

  lemma ReachedIsOrdered(g: Graph, order: seq<string>, a: string, m: string)
    requires Topological(g, order) && a in order && Reaches(g, a, m)
    ensures m in order
  {
    hide Topological, Walk;
    var w: seq<string> :| w != [] && w[0] == a && w[|w| - 1] == m && Walk(g, w);
    var p :| 0 <= p < |order| && order[p] == a;
    var q := WalkGoesDown(g, order, w, p);
  }

  lemma OrderHasNoCycle(g: Graph, order: seq<string>, n: string)
    requires Topological(g, order) && n in order
    ensures !ReachesCycle(g, n)
  {
    forall w: seq<string> | w != [] && w[0] == n && Walk(g, w) ensures Distinct(w) {
      forall i, j | 0 <= i < j < |w| ensures w[i] != w[j] {
        var p :| 0 <= p < |order| && order[p] == n;
        var q := WalkGoesDown(g, order, w[..i + 1], p);
        var q' := WalkGoesDown(g, order, w[i..j + 1], q);
        assert order[q] == w[i] && order[q'] == w[j] && q' < q;
      }
    }
  }
}
