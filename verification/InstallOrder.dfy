/** The order in which install sets are put on: depth first through what each is installed after. */
module InstallOrder {

  datatype InstallSet = InstallSet(name: string, after: seq<string>)

  datatype Error = NoSet(name: string) | NotASet(from: string, name: string) | Cycle(from: string, name: string)

  datatype Visited = Fine | Bad(error: Error)

  datatype Result = Order(sets: seq<InstallSet>) | Failed(error: Error)

  /** The first set of a name, or none. */
  function Index(sets: seq<InstallSet>, name: string, i: nat): (r: nat)
    requires i <= |sets|
    ensures i <= r <= |sets| && (r < |sets| ==> sets[r].name == name)
    decreases |sets| - i
  {
    if i == |sets| || sets[i].name == name then i else Index(sets, name, i + 1)
  }

  predicate Known(sets: seq<InstallSet>, name: string) { Index(sets, name, 0) < |sets| }

  function SetOf(sets: seq<InstallSet>, name: string): (s: InstallSet)
    requires Known(sets, name)
    ensures s.name == name && s in sets
  {
    sets[Index(sets, name, 0)]
  }

  // ----- what should happen

  /** b is named by the set a. */
  predicate Edge(sets: seq<InstallSet>, a: string, b: string) {
    Known(sets, a) && b in SetOf(sets, a).after
  }

  /** Each name on a path is one the set before it is installed after. */
  predicate IsPath(sets: seq<InstallSet>, path: seq<string>) {
    && path != []
    && (|path| > 1 ==> IsPath(sets, path[..|path| - 1]) && Edge(sets, path[|path| - 2], path[|path| - 1]))
  }

  predicate Connects(sets: seq<InstallSet>, path: seq<string>, a: string, b: string) {
    IsPath(sets, path) && path[0] == a && path[|path| - 1] == b
  }

  ghost predicate Reaches(sets: seq<InstallSet>, a: string, b: string) {
    exists path :: Connects(sets, path, a, b)
  }

  ghost predicate OnCycle(sets: seq<InstallSet>, a: string) {
    exists path :: Connects(sets, path, a, a) && |path| > 1
  }

  /** Every name that can be reached is a set, and none is reached from itself. */
  ghost predicate Orderable(sets: seq<InstallSet>, name: string) {
    forall b | Reaches(sets, name, b) :: Known(sets, b) && !OnCycle(sets, b)
  }

  // ----- what an order is

  function Names(order: seq<InstallSet>): (names: set<string>) {
    if order == [] then {} else Names(order[..|order| - 1]) + {order[|order| - 1].name}
  }

  /** Each set once, each a configured one, and each after all sets it names. */
  predicate Ordered(sets: seq<InstallSet>, order: seq<InstallSet>) {
    order != [] ==>
      var rest, last := order[..|order| - 1], order[|order| - 1];
      && Ordered(sets, rest)
      && last.name !in Names(rest)
      && Known(sets, last.name) && last == SetOf(sets, last.name)
      && (forall b | b in last.after :: b in Names(rest))
  }

  function Rank(order: seq<InstallSet>, name: string): (r: nat)
    ensures r <= |order|
  {
    if order == [] then 0
    else if order[|order| - 1].name == name then |order|
    else Rank(order[..|order| - 1], name)
  }

  /** What a set in the order names comes before it. */
  lemma {:induction false} EdgeDown(sets: seq<InstallSet>, order: seq<InstallSet>, a: string, b: string)
    requires Ordered(sets, order) && a in Names(order) && Edge(sets, a, b)
    ensures b in Names(order) && Rank(order, b) < Rank(order, a)
  {
    var rest, last := order[..|order| - 1], order[|order| - 1];
    if last.name == a {
      assert b in Names(rest);
    } else {
      EdgeDown(sets, rest, a, b);
    }
  }

  lemma {:induction false} PathDown(sets: seq<InstallSet>, order: seq<InstallSet>, path: seq<string>)
    requires Ordered(sets, order) && IsPath(sets, path) && path[0] in Names(order)
    ensures path[|path| - 1] in Names(order)
    ensures |path| > 1 ==> Rank(order, path[|path| - 1]) < Rank(order, path[0])
  {
    if |path| > 1 {
      PathDown(sets, order, path[..|path| - 1]);
      EdgeDown(sets, order, path[|path| - 2], path[|path| - 1]);
    }
  }

  lemma {:induction false} NamesKnown(sets: seq<InstallSet>, order: seq<InstallSet>, a: string)
    requires Ordered(sets, order) && a in Names(order)
    ensures Known(sets, a)
  {
    var rest, last := order[..|order| - 1], order[|order| - 1];
    if last.name != a {
      NamesKnown(sets, rest, a);
    }
  }

  /** An order that has a name has all that can be reached from it, and shows that it is orderable. */
  lemma OrderShows(sets: seq<InstallSet>, order: seq<InstallSet>, name: string)
    requires Ordered(sets, order) && name in Names(order)
    ensures Orderable(sets, name)
    ensures forall b | Reaches(sets, name, b) :: b in Names(order)
  {
    forall b | Reaches(sets, name, b) ensures b in Names(order) && Known(sets, b) && !OnCycle(sets, b) {
      var path :| Connects(sets, path, name, b);
      PathDown(sets, order, path);
      NamesKnown(sets, order, b);
      forall round | Connects(sets, round, b, b) ensures |round| <= 1 {
        PathDown(sets, order, round);
      }
    }
  }

  // ----- paths

  lemma StepPath(sets: seq<InstallSet>, path: seq<string>, b: string)
    requires IsPath(sets, path) && Edge(sets, path[|path| - 1], b)
    ensures IsPath(sets, path + [b])
  {
    assert (path + [b])[..|path|] == path;
  }

  lemma {:induction false} SuffixPath(sets: seq<InstallSet>, path: seq<string>, k: nat)
    requires IsPath(sets, path) && k < |path|
    ensures IsPath(sets, path[k..])
    decreases |path|
  {
    if k < |path| - 1 {
      SuffixPath(sets, path[..|path| - 1], k);
      assert path[k..][..|path| - k - 1] == path[..|path| - 1][k..];
    }
  }

  // ----- the walk

  /** All names there are sets of. */
  function All(sets: seq<InstallSet>): set<string> { set s | s in sets :: s.name }

  function Elements(path: seq<string>): set<string> { set x | x in path }

  /** The names being visited lead from root to the newest. */
  ghost predicate StackOK(sets: seq<InstallSet>, root: string, stack: seq<string>) {
    stack != [] ==> IsPath(sets, stack) && stack[0] == root
  }

  /** name is root itself, or named by the newest name being visited. */
  ghost predicate Asked(sets: seq<InstallSet>, root: string, stack: seq<string>, name: string) {
    if stack == [] then name == root else Edge(sets, stack[|stack| - 1], name)
  }

  lemma AskedPath(sets: seq<InstallSet>, root: string, stack: seq<string>, name: string)
    requires StackOK(sets, root, stack) && Asked(sets, root, stack, name)
    ensures IsPath(sets, stack + [name]) && (stack + [name])[0] == root
    ensures Reaches(sets, root, name)
  {
    if stack == [] {
      assert IsPath(sets, [name]);
    } else {
      StepPath(sets, stack, name);
    }
    assert Connects(sets, stack + [name], root, name);
  }

  lemma CycleShown(sets: seq<InstallSet>, root: string, stack: seq<string>, name: string)
    requires StackOK(sets, root, stack) && Asked(sets, root, stack, name) && name in stack
    ensures !Orderable(sets, root)
  {
    AskedPath(sets, root, stack, name);
    var k :| 0 <= k < |stack| && stack[k] == name;
    SuffixPath(sets, stack, k);
    var round := stack[k..] + [name];
    StepPath(sets, stack[k..], name);
    assert Connects(sets, round, name, name) && |round| > 1;
  }

  lemma OrderGrows(sets: seq<InstallSet>, order: seq<InstallSet>, s: InstallSet)
    requires Ordered(sets, order) && Known(sets, s.name) && s == SetOf(sets, s.name) && s.name !in Names(order)
    requires forall b | b in s.after :: b in Names(order)
    ensures Ordered(sets, order + [s]) && Names(order + [s]) == Names(order) + {s.name}
  {
    assert (order + [s])[..|order|] == order;
  }

  lemma ElementsOfBoth(stack: seq<string>, name: string)
    ensures Elements(stack + [name]) == Elements(stack) + {name}
  {
  }

  /** Partway through: what is in the order, and what is being visited. */
  ghost predicate WalkOK(sets: seq<InstallSet>, root: string, order: seq<InstallSet>, done: set<string>,
                         visiting: set<string>, stack: seq<string>)
  {
    && Ordered(sets, order) && Names(order) == done
    && visiting == done + Elements(stack) && done !! Elements(stack)
    && (forall b | b in done :: Reaches(sets, root, b))
    && StackOK(sets, root, stack)
  }

  lemma FinishOK(sets: seq<InstallSet>, root: string, order: seq<InstallSet>, done: set<string>, visiting: set<string>,
                 stack: seq<string>, s: InstallSet)
    requires Known(sets, s.name) && s == SetOf(sets, s.name) && s.name !in stack
    requires WalkOK(sets, root, order, done, visiting, stack + [s.name])
    requires forall b | b in s.after :: b in done
    requires StackOK(sets, root, stack) && Reaches(sets, root, s.name)
    ensures WalkOK(sets, root, order + [s], done + {s.name}, visiting, stack)
  {
    ElementsOfBoth(stack, s.name);
    OrderGrows(sets, order, s);
  }

  class Walk {
    const sets: seq<InstallSet>
    ghost const root: string
    var order: seq<InstallSet>
    var done: set<string>
    var visiting: set<string>

    ghost predicate Valid(stack: seq<string>)
      reads this
    {
      WalkOK(sets, root, order, done, visiting, stack)
    }

    constructor (sets: seq<InstallSet>, ghost root: string)
      ensures this.sets == sets && this.root == root && Valid([]) && order == [] && done == {}
    {
      this.sets, this.root, order, done, visiting := sets, root, [], {}, {};
    }

    /** A set whose names are all in the order goes in itself. */
    method Finish(s: InstallSet, ghost stack: seq<string>)
      requires Known(sets, s.name) && s == SetOf(sets, s.name) && Valid(stack + [s.name]) && s.name !in stack
      requires forall b | b in s.after :: b in done
      requires StackOK(sets, root, stack) && Reaches(sets, root, s.name)
      modifies `order, `done
      ensures Valid(stack) == true && done == old(done) + {s.name} && order == old(order) + [s]
    {
      FinishOK(sets, root, order, done, visiting, stack, s);
      done := done + {s.name};
      order := order + [s];
    }

    /** Puts name and all it is installed after into the order, or shows that there is none. */
    method Visit(name: string, from: string, ghost stack: seq<string>) returns (visit: Visited)
      requires Valid(stack) && Asked(sets, root, stack, name)
      modifies `order, `done, `visiting
      ensures visit.Bad? ==> !Orderable(sets, root)
      ensures visit.Fine? ==> Valid(stack) && name in done && old(done) <= done
      ensures visit.Fine? && name !in old(done) ==> order != [] && order[|order| - 1].name == name
      ensures old(visiting) <= visiting
      decreases All(sets) - visiting, 0
    {
      if name in done {
        return Fine;
      }
      AskedPath(sets, root, stack, name);
      if name in visiting {
        CycleShown(sets, root, stack, name);
        return Bad(Cycle(from, name));
      }
      if !Known(sets, name) {
        return Bad(if from == "" then NoSet(name) else NotASet(from, name));
      }
      visiting := visiting + {name};
      visit := Follow(SetOf(sets, name), stack);
      if visit.Fine? {
        Finish(SetOf(sets, name), stack);
      }
    }

    /** Visits what a set names, one after the other. */
    method Follow(s: InstallSet, ghost stack: seq<string>) returns (visit: Visited)
      requires Known(sets, s.name) && s == SetOf(sets, s.name) && s.name in visiting && Valid(stack + [s.name])
      modifies `order, `done, `visiting
      ensures visit.Bad? ==> !Orderable(sets, root)
      ensures visit.Fine? ==> Valid(stack + [s.name]) && old(done) <= done && forall b | b in s.after :: b in done
      ensures old(visiting) <= visiting
      decreases All(sets) - visiting, 1
    {
      visit := Fine;
      for k := 0 to |s.after|
        invariant Valid(stack + [s.name]) == true && visit.Fine?
        invariant old(visiting) <= visiting && old(done) <= done
        invariant forall j | 0 <= j < k :: s.after[j] in done
      {
        visit := Visit(s.after[k], s.name, stack + [s.name]);
        if visit.Bad? {
          return;
        }
      }
    }
  }

  /**
   The sets to install for a name. There is an order exactly when every name reached is a set and none reaches itself;
   it holds what can be reached, each once and after all it names, and the requested set is last.
   */
  method OrderFor(sets: seq<InstallSet>, name: string) returns (r: Result)
    ensures r.Order? <==> Orderable(sets, name)
    ensures r.Order? ==> Ordered(sets, r.sets) && r.sets != [] && r.sets[|r.sets| - 1].name == name
    ensures r.Order? ==> forall b :: b in Names(r.sets) <==> Reaches(sets, name, b)
  {
    var walk := new Walk(sets, name);
    var visit := walk.Visit(name, "", []);
    if visit.Bad? {
      return Failed(visit.error);
    }
    OrderShows(sets, walk.order, name);
    r := Order(walk.order);
  }
}
