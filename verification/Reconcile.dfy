/** Bringing the live component tree to its configuration: a plan of actions and their replay. */
module Reconcile {
  type Name = string

  /** The names from the top down. The empty address is the engine. */
  type Address = seq<Name>

  /** A component's own configuration, its children left out. */
  type Own = string

  /** A tree of components: each one's own configuration and its children in order. */
  datatype Tree = Tree(own: map<Address, Own>, kids: map<Address, seq<Name>>)

  const ENGINE: Own := ""

  function Parent(a: Address): Address
    requires a != []
  {
    a[..|a| - 1]
  }

  function Last(a: Address): Name
    requires a != []
  {
    a[|a| - 1]
  }

  ghost predicate Distinct(names: seq<Name>) {
    forall i, j :: 0 <= i < j < |names| ==> names[i] != names[j]
  }

  ghost predicate Valid(t: Tree) {
    && [] in t.own && t.own[[]] == ENGINE
    && t.kids.Keys == t.own.Keys
    && (forall a :: a in t.own && a != [] ==> Parent(a) in t.own)
    && (forall a :: a in t.kids ==> Distinct(t.kids[a]))
    && (forall a, n :: a in t.kids ==> (n in t.kids[a] <==> a + [n] in t.own))
  }

  // ---------------------------------------------------------------- the plan

  datatype Action = Create(address: Address) | Recreate(address: Address) | Remove(address: Address)

  /** The components holding a reference to a given one, as the live tree has them. */
  type Referencers = map<Address, seq<Address>>

  function Below(t: Tree, a: Address): set<Address> {
    set x | x in t.own && a <= x
  }

  /** First occurrences, in order. */
  function Uniq(names: seq<Name>): (unique: seq<Name>)
    ensures forall n :: n in unique <==> n in names
  {
    if names == [] then []
    else
      var before, last := Uniq(names[..|names| - 1]), names[|names| - 1];
      assert names == names[..|names| - 1] + [last];
      if last in before then before else before + [last]
  }

  function Outside(a: Address, referencers: seq<Address>): seq<Action> {
    if referencers == [] then []
    else
      var before, last := Outside(a, referencers[..|referencers| - 1]), referencers[|referencers| - 1];
      if a <= last then before else before + [Recreate(last)]
  }

  function PlanAt(live: Tree, config: Tree, refs: Referencers, a: Address): seq<Action>
    requires live.kids.Keys == live.own.Keys && config.kids.Keys == config.own.Keys
    decreases Below(live, a), 1, 0
  {
    if a !in live.own && a !in config.own then []
    else if a !in live.own then [Create(a)]
    else if a !in config.own then [Remove(a)]
    else if live.own[a] != config.own[a] then
      [Recreate(a)] + Outside(a, if a in refs then refs[a] else [])
    else
      PlanChildren(live, config, refs, a, Uniq(live.kids[a] + config.kids[a]))
  }

  function PlanChildren(live: Tree, config: Tree, refs: Referencers, a: Address, names: seq<Name>): seq<Action>
    requires live.kids.Keys == live.own.Keys && config.kids.Keys == config.own.Keys
    requires a in live.own
    decreases Below(live, a), 0, |names|
  {
    if names == [] then []
    else
      assert a in Below(live, a) && a !in Below(live, a + [names[0]]);
      PlanAt(live, config, refs, a + [names[0]]) + PlanChildren(live, config, refs, a, names[1..])
  }

  /** The engine's plan goes through its top-level components as through any other children. */
  function Plan(live: Tree, config: Tree, refs: Referencers): seq<Action>
    requires Valid(live) && Valid(config)
  {
    PlanAt(live, config, refs, [])
  }

  // ---------------------------------------------------------------- the replay

  function Without(names: seq<Name>, name: Name): seq<Name> {
    if names == [] then []
    else if names[0] == name then Without(names[1..], name)
    else [names[0]] + Without(names[1..], name)
  }

  function Detach(t: Tree, a: Address): Tree
    requires a != [] && t.kids.Keys == t.own.Keys
  {
    Tree(map x | x in t.own && !(a <= x) :: t.own[x],
         map x | x in t.kids && !(a <= x) :: if x == Parent(a) then Without(t.kids[x], Last(a)) else t.kids[x])
  }

  /** The configured subtree at `from`, created as the last child `at`. */
  function Graft(t: Tree, config: Tree, from: Address, at: Address): Tree
    requires at != [] && t.kids.Keys == t.own.Keys && config.kids.Keys == config.own.Keys
  {
    var moved := set x | x in config.own && from <= x :: at + x[|from|..];
    Tree(map x | x in t.own.Keys + moved ::
           if at <= x && from + x[|at|..] in config.own then config.own[from + x[|at|..]]
           else if x in t.own then t.own[x] else ENGINE,
         map x | x in t.own.Keys + moved ::
           if at <= x && from + x[|at|..] in config.own then config.kids[from + x[|at|..]]
           else if x in t.kids then (if x == Parent(at) then t.kids[x] + [Last(at)] else t.kids[x]) else [])
  }

  /** Where a created component is attached: under its parent, or at the engine when the parent is
      not there. The engine detaches a component whose name the new one takes. */
  function Attach(t: Tree, config: Tree, a: Address): Tree
    requires a != [] && t.kids.Keys == t.own.Keys && config.kids.Keys == config.own.Keys
  {
    if Parent(a) in t.own then Graft(t, config, a, a)
    else Graft(Detach(t, [Last(a)]), config, a, [Last(a)])
  }

  function Replay(t: Tree, config: Tree, action: Action): Tree
    requires t.kids.Keys == t.own.Keys && config.kids.Keys == config.own.Keys && action.address != []
  {
    var a := action.address;
    match action
    case Create(_) => if a !in config.own || a in t.own then t else Attach(t, config, a)
    case Recreate(_) =>
      if a !in config.own then t
      else if a in t.own then Attach(Detach(t, a), config, a)
      else Attach(t, config, a)
    case Remove(_) => if a in t.own then Detach(t, a) else t
  }

  // ---------------------------------------------------------------- overlays

  ghost predicate SameAt(t: Tree, u: Tree, x: Address) {
    (x in t.own <==> x in u.own) && (x in t.own ==> t.own[x] == u.own[x])
  }

  ghost predicate Touched(roots: set<Address>, x: Address) {
    exists root :: root in roots && root <= x
  }

  /** The live tree with the configured subtrees at `roots` put over it. */
  ghost predicate Overlay(t: Tree, live: Tree, config: Tree, roots: set<Address>) {
    && Valid(t)
    && forall x :: SameAt(t, if Touched(roots, x) then config else live, x)
  }

  ghost predicate Planned(live: Tree, config: Tree, action: Action) {
    && action.address != []
    && match action
       case Create(a) => a !in live.own && a in config.own && Parent(a) in live.own
       case Recreate(a) => a in live.own
       case Remove(a) => a in live.own && a !in config.own
  }

  function Roots(config: Tree, actions: seq<Action>): set<Address> {
    set action | action in actions && (action.Recreate? ==> action.address in config.own) :: action.address
  }

  lemma {:induction false} PrefixesStay(t: Tree, a: Address, x: Address)
    requires Valid(t) && x in t.own && a <= x
    ensures a in t.own
    decreases |x|
  {
    if a != x {
      assert a <= Parent(x);
      PrefixesStay(t, a, Parent(x));
    }
  }

  lemma {:induction false} WithoutHolds(names: seq<Name>, name: Name)
    requires Distinct(names)
    ensures Distinct(Without(names, name))
    ensures forall n :: n in Without(names, name) <==> n in names && n != name
  {
    if names != [] {
      var rest := names[1..];
      assert forall i, j :: 0 <= i < j < |rest| ==> rest[i] == names[i + 1] && rest[j] == names[j + 1];
      WithoutHolds(rest, name);
      assert forall n :: n in names <==> n == names[0] || n in rest;
      assert names[0] !in rest;
    }
  }

  lemma DetachKids(t: Tree, a: Address, x: Address, n: Name)
    requires Valid(t) && a != [] && x in Detach(t, a).kids
    ensures n in Detach(t, a).kids[x] <==> x + [n] in Detach(t, a).own
  {
    if x == Parent(a) {
      WithoutHolds(t.kids[x], Last(a));
    }
    assert n in t.kids[x] <==> x + [n] in t.own;
    hide Valid;
    assert a <= x + [n] <==> a <= x || a == x + [n];
    assert a == x + [n] <==> x == Parent(a) && n == Last(a);
  }

  lemma DetachValid(t: Tree, a: Address)
    requires Valid(t) && a != []
    ensures Valid(Detach(t, a))
    ensures forall x :: x in Detach(t, a).own <==> x in t.own && !(a <= x)
    ensures forall x :: x in Detach(t, a).own ==> Detach(t, a).own[x] == t.own[x]
  {
    var u := Detach(t, a);
    forall x | x in u.own && x != [] ensures Parent(x) in u.own {
      assert a <= Parent(x) ==> a <= x;
    }
    if Parent(a) in t.kids {
      WithoutHolds(t.kids[Parent(a)], Last(a));
    }
    forall x, n | x in u.kids ensures n in u.kids[x] <==> x + [n] in u.own {
      DetachKids(t, a, x, n);
    }
  }

  lemma GraftFields(t: Tree, config: Tree, a: Address, x: Address)
    requires Valid(t) && Valid(config) && a != [] && a in config.own && a !in t.own
    ensures var u := Graft(t, config, a, a);
            && (a <= x ==> SameAt(u, config, x) && (x in u.own ==> x in u.kids && u.kids[x] == config.kids[x]))
            && (!(a <= x) ==> SameAt(u, t, x))
            && (!(a <= x) && x in u.own ==>
                  x in u.kids && u.kids[x] == if x == Parent(a) then t.kids[x] + [Last(a)] else t.kids[x])
  {
    var moved := set y | y in config.own && a <= y :: a + y[|a|..];
    if a <= x {
      assert a + x[|a|..] == x;
      if x in moved {
        var y :| y in config.own && a <= y && x == a + y[|a|..];
        assert y == x;
      }
      if x in config.own {
        assert x in moved;
      }
      if x in t.own {
        PrefixesStay(t, a, x);
      }
    } else {
      assert x !in moved;
    }
  }

  ghost predicate GraftedAt(u: Tree, t: Tree, config: Tree, a: Address, x: Address) {
    SameAt(u, if a <= x then config else t, x)
  }

  lemma GraftParent(t: Tree, config: Tree, a: Address, x: Address)
    requires Valid(t) && Valid(config) && a != [] && a in config.own && a !in t.own && Parent(a) in t.own
    requires x in Graft(t, config, a, a).own && x != []
    ensures Parent(x) in Graft(t, config, a, a).own
  {
    hide Graft;
    GraftFields(t, config, a, x);
    GraftFields(t, config, a, Parent(x));
    assert a <= x ==> a == x || a <= Parent(x);
    assert a <= Parent(x) ==> a <= x;
  }

  lemma GraftKids(t: Tree, config: Tree, a: Address, x: Address, n: Name)
    requires Valid(t) && Valid(config) && a != [] && a in config.own && a !in t.own && Parent(a) in t.own
    requires x in Graft(t, config, a, a).kids
    ensures n in Graft(t, config, a, a).kids[x] <==> x + [n] in Graft(t, config, a, a).own
  {
    hide Graft;
    GraftKeys(t, config, a);
    GraftFields(t, config, a, x);
    GraftFields(t, config, a, x + [n]);
    assert x in t.kids ==> (n in t.kids[x] <==> x + [n] in t.own);
    assert x in config.kids ==> (n in config.kids[x] <==> x + [n] in config.own);
    assert x in t.kids <==> x in t.own;
    hide Valid;
    assert Parent(x + [n]) == x && Last(x + [n]) == n;
    assert a <= x + [n] <==> a <= x || a == x + [n];
    assert a == x + [n] <==> x == Parent(a) && n == Last(a);
  }

  lemma GraftDistinct(t: Tree, config: Tree, a: Address, x: Address)
    requires Valid(t) && Valid(config) && a != [] && a in config.own && a !in t.own && Parent(a) in t.own
    requires x in Graft(t, config, a, a).kids
    ensures Distinct(Graft(t, config, a, a).kids[x])
  {
    hide Graft;
    GraftKeys(t, config, a);
    GraftFields(t, config, a, x);
    assert Parent(a) + [Last(a)] == a;
    assert Last(a) !in t.kids[Parent(a)];
  }

  lemma GraftValid(t: Tree, config: Tree, a: Address)
    requires Valid(t) && Valid(config) && a != [] && a in config.own && a !in t.own && Parent(a) in t.own
    ensures Valid(Graft(t, config, a, a))
    ensures forall x :: GraftedAt(Graft(t, config, a, a), t, config, a, x)
  {
    var u := Graft(t, config, a, a);
    hide Graft;
    GraftKeys(t, config, a);
    forall x ensures GraftedAt(u, t, config, a, x) {
      GraftFields(t, config, a, x);
    }
    assert [] in u.own && u.own[[]] == ENGINE by {
      assert GraftedAt(u, t, config, a, []);
    }
    forall x | x in u.own && x != [] ensures Parent(x) in u.own {
      GraftParent(t, config, a, x);
    }
    forall x, n | x in u.kids ensures n in u.kids[x] <==> x + [n] in u.own {
      GraftKids(t, config, a, x, n);
    }
    forall x | x in u.kids ensures Distinct(u.kids[x]) {
      GraftDistinct(t, config, a, x);
    }
  }

  lemma GraftKeys(t: Tree, config: Tree, a: Address)
    requires Valid(t) && Valid(config) && a != []
    ensures Graft(t, config, a, a).kids.Keys == Graft(t, config, a, a).own.Keys
  {
  }

  // ---------------------------------------------------------------- replaying a planned action

  /** What the configuration and the live tree share stays through every overlay, so no planned
      action ever falls back to the engine for want of a parent. */
  lemma SharedStays(t: Tree, live: Tree, config: Tree, roots: set<Address>, x: Address)
    requires Overlay(t, live, config, roots) && x in live.own && x in config.own
    ensures x in t.own
  {
    assert SameAt(t, if Touched(roots, x) then config else live, x);
  }

  lemma DetachOverlays(t: Tree, live: Tree, config: Tree, roots: set<Address>, a: Address)
    requires Valid(config) && Overlay(t, live, config, roots) && a != [] && a !in config.own
    ensures Overlay(Detach(t, a), live, config, roots + {a})
  {
    DetachValid(t, a);
    var u := Detach(t, a);
    forall x ensures SameAt(u, if Touched(roots + {a}, x) then config else live, x) {
      assert SameAt(t, if Touched(roots, x) then config else live, x);
      if a <= x {
        assert Touched(roots + {a}, x);
        if x in config.own {
          PrefixesStay(config, a, x);
        }
      } else {
        assert Touched(roots + {a}, x) <==> Touched(roots, x);
      }
    }
  }

  lemma BaseOf(t: Tree, a: Address) returns (base: Tree)
    requires Valid(t) && a != [] && Parent(a) in t.own
    ensures base == if a in t.own then Detach(t, a) else t
    ensures Valid(base) && a !in base.own && Parent(a) in base.own
    ensures forall x :: x in base.own <==> x in t.own && !(a <= x)
    ensures forall x :: x in base.own ==> base.own[x] == t.own[x]
  {
    base := if a in t.own then Detach(t, a) else t;
    if a in t.own {
      DetachValid(t, a);
      assert !(a <= Parent(a));
    } else {
      forall x | x in t.own ensures !(a <= x) {
        if a <= x {
          PrefixesStay(t, a, x);
        }
      }
    }
  }

  lemma GraftOverlays(t: Tree, live: Tree, config: Tree, roots: set<Address>, a: Address)
    requires Valid(config) && Overlay(t, live, config, roots) && a != [] && a in config.own && Parent(a) in t.own
    ensures var base := if a in t.own then Detach(t, a) else t;
            Valid(base) && Overlay(Graft(base, config, a, a), live, config, roots + {a})
  {
    hide Graft;
    hide Detach;
    var base := BaseOf(t, a);
    GraftValid(base, config, a);
    hide Valid;
    var u := Graft(base, config, a, a);
    forall x ensures SameAt(u, if Touched(roots + {a}, x) then config else live, x) {
      assert SameAt(t, if Touched(roots, x) then config else live, x);
      assert GraftedAt(u, base, config, a, x);
      if a <= x {
        assert Touched(roots + {a}, x);
      } else {
        assert Touched(roots + {a}, x) <==> Touched(roots, x);
      }
    }
  }

  /** A component found where a planned creation would put it came with a configured subtree. */
  lemma SkipOverlays(t: Tree, live: Tree, config: Tree, roots: set<Address>, a: Address)
    requires Valid(live) && Overlay(t, live, config, roots) && a in t.own && a !in live.own
    ensures Overlay(t, live, config, roots + {a})
  {
    assert SameAt(t, if Touched(roots, a) then config else live, a);
    var root :| root in roots && root <= a;
    forall x ensures SameAt(t, if Touched(roots + {a}, x) then config else live, x) {
      assert SameAt(t, if Touched(roots, x) then config else live, x);
      if a <= x {
        assert root <= x;
        assert Touched(roots, x) && Touched(roots + {a}, x);
      } else {
        assert Touched(roots + {a}, x) <==> Touched(roots, x);
      }
    }
  }

  lemma RemovedAlready(t: Tree, live: Tree, config: Tree, roots: set<Address>, a: Address)
    requires Valid(config) && Overlay(t, live, config, roots) && a !in t.own && a !in config.own
    ensures Overlay(t, live, config, roots + {a})
  {
    forall x ensures SameAt(t, if Touched(roots + {a}, x) then config else live, x) {
      assert SameAt(t, if Touched(roots, x) then config else live, x);
      if a <= x {
        assert Touched(roots + {a}, x);
        if x in config.own {
          PrefixesStay(config, a, x);
        }
        if x in t.own {
          PrefixesStay(t, a, x);
        }
      } else {
        assert Touched(roots + {a}, x) <==> Touched(roots, x);
      }
    }
  }

  /** Each planned action, replayed on whatever the ones before it left, adds its subtree of the
      configuration to the overlay, skips included. */
  lemma ReplayOverlays(t: Tree, live: Tree, config: Tree, roots: set<Address>, action: Action)
    requires Valid(live) && Valid(config) && Overlay(t, live, config, roots) && Planned(live, config, action)
    ensures Overlay(Replay(t, config, action), live, config, roots + Roots(config, [action]))
  {
    var a := action.address;
    assert Roots(config, [action]) == if action.Recreate? && a !in config.own then {} else {a};
    assert roots + {} == roots;
    if a in config.own {
      SharedStays(t, live, config, roots, Parent(a));
    }
    hide Graft;
    hide Detach;
    match action
    case Create(_) =>
      if a in t.own {
        SkipOverlays(t, live, config, roots, a);
      } else {
        GraftOverlays(t, live, config, roots, a);
      }
    case Recreate(_) =>
      if a in config.own {
        GraftOverlays(t, live, config, roots, a);
        if a in t.own {
          DetachValid(t, a);
          assert !(a <= Parent(a));
        }
      }
    case Remove(_) =>
      if a in t.own {
        DetachOverlays(t, live, config, roots, a);
      } else {
        RemovedAlready(t, live, config, roots, a);
      }
  }

  ghost predicate AllPlanned(live: Tree, config: Tree, actions: seq<Action>) {
    forall action :: action in actions ==> Planned(live, config, action)
  }

  lemma RootsSplit(config: Tree, actions: seq<Action>)
    requires actions != []
    ensures Roots(config, actions) == Roots(config, [actions[0]]) + Roots(config, actions[1..])
    ensures forall action :: action in actions <==> action == actions[0] || action in actions[1..]
  {
    assert actions == [actions[0]] + actions[1..];
  }

  // ---------------------------------------------------------------- what the plan holds

  /** References come from components that are live. */
  ghost predicate RefsLive(live: Tree, refs: Referencers) {
    forall a, r :: a in refs && r in refs[a] ==> r != [] && r in live.own
  }

  lemma {:induction false} OutsideIsPlanned(live: Tree, config: Tree, a: Address, referencers: seq<Address>)
    requires forall r :: r in referencers ==> r != [] && r in live.own
    ensures AllPlanned(live, config, Outside(a, referencers))
  {
    if referencers != [] {
      assert referencers[|referencers| - 1] in referencers;
      var before := referencers[..|referencers| - 1];
      assert forall r :: r in before ==> r in referencers;
      OutsideIsPlanned(live, config, a, before);
    }
  }

  lemma {:induction false} PlanIsPlanned(live: Tree, config: Tree, refs: Referencers, a: Address)
    requires Valid(live) && Valid(config) && RefsLive(live, refs)
    requires a != [] ==> Parent(a) in live.own
    ensures AllPlanned(live, config, PlanAt(live, config, refs, a))
    decreases Below(live, a), 1, 0
  {
    if a in live.own && a in config.own {
      if live.own[a] != config.own[a] {
        OutsideIsPlanned(live, config, a, if a in refs then refs[a] else []);
      } else {
        ChildrenArePlanned(live, config, refs, a, Uniq(live.kids[a] + config.kids[a]));
      }
    }
  }

  lemma {:induction false} ChildrenArePlanned(live: Tree, config: Tree, refs: Referencers, a: Address,
                                              names: seq<Name>)
    requires Valid(live) && Valid(config) && RefsLive(live, refs) && a in live.own
    ensures AllPlanned(live, config, PlanChildren(live, config, refs, a, names))
    decreases Below(live, a), 0, |names|
  {
    if names != [] {
      var child := a + [names[0]];
      assert a in Below(live, a) && a !in Below(live, child) && Parent(child) == a;
      PlanIsPlanned(live, config, refs, child);
      ChildrenArePlanned(live, config, refs, a, names[1..]);
    }
  }

  /** Wherever live tree and configuration differ, the plan acts on an address at or above. */
  lemma {:induction false} PlanCovers(live: Tree, config: Tree, refs: Referencers, a: Address, x: Address)
    requires Valid(live) && Valid(config) && a <= x && !SameAt(live, config, x)
    ensures Touched(Roots(config, PlanAt(live, config, refs, a)), x)
    decreases Below(live, a), 1, 0
  {
    var plan := PlanAt(live, config, refs, a);
    if x in live.own {
      PrefixesStay(live, a, x);
    } else {
      PrefixesStay(config, a, x);
    }
    if a in live.own && a in config.own && live.own[a] == config.own[a] {
      assert a != x;
      var name := x[|a|];
      var child := a + [name];
      assert child <= x;
      if x in live.own {
        PrefixesStay(live, child, x);
        assert name in live.kids[a];
      } else {
        PrefixesStay(config, child, x);
        assert name in config.kids[a];
      }
      ChildrenCover(live, config, refs, a, Uniq(live.kids[a] + config.kids[a]), name, x);
    } else {
      assert plan[0].address == a && plan[0] in plan;
      assert a in Roots(config, plan);
    }
  }

  lemma {:induction false} ChildrenCover(live: Tree, config: Tree, refs: Referencers, a: Address, names: seq<Name>,
                                         name: Name, x: Address)
    requires Valid(live) && Valid(config) && a in live.own
    requires name in names && a + [name] <= x && !SameAt(live, config, x)
    ensures Touched(Roots(config, PlanChildren(live, config, refs, a, names)), x)
    decreases Below(live, a), 0, |names|
  {
    var child := a + [names[0]];
    assert a in Below(live, a) && a !in Below(live, child);
    var first, rest := PlanAt(live, config, refs, child), PlanChildren(live, config, refs, a, names[1..]);
    var part: seq<Action>;
    if names[0] == name {
      PlanCovers(live, config, refs, child, x);
      part := first;
    } else {
      ChildrenCover(live, config, refs, a, names[1..], name, x);
      part := rest;
    }
    assert forall action :: action in part ==> action in first + rest;
    var root :| root in Roots(config, part) && root <= x;
    assert root in Roots(config, first + rest);
  }

  // ---------------------------------------------------------------- exactly what is planned

  ghost predicate Unchanged(live: Tree, config: Tree, x: Address) {
    x in live.own && x in config.own && live.own[x] == config.own[x]
  }

  /** Every component from `a` down to above `x` is there in both and its own configuration is the same. */
  ghost predicate Met(live: Tree, config: Tree, a: Address, x: Address) {
    a <= x && forall k :: |a| <= k < |x| ==> Unchanged(live, config, x[..k])
  }

  /** The components of `referencers` that are not below `a`, each where it stands in the list. */
  ghost predicate PickedAt(actions: seq<Action>, a: Address, referencers: seq<Address>, at: seq<nat>) {
    && |at| == |actions|
    && (forall i, j :: 0 <= i < j < |at| ==> at[i] < at[j])
    && (forall i :: 0 <= i < |at| ==> at[i] < |referencers| && actions[i] == Recreate(referencers[at[i]]))
    && (forall k :: 0 <= k < |referencers| ==> (k in at <==> !(a <= referencers[k])))
  }

  ghost predicate Picked(actions: seq<Action>, a: Address, referencers: seq<Address>) {
    exists at :: PickedAt(actions, a, referencers, at)
  }

  ghost function ReferencersOf(refs: Referencers, a: Address): seq<Address> {
    if a in refs then refs[a] else []
  }

  /** The actions one difference asks for. A changed component is recreated before what refers to it. */
  ghost predicate IsGroup(live: Tree, config: Tree, refs: Referencers, x: Address, group: seq<Action>) {
    && group != [] && group[0].address == x
    && match group[0]
       case Create(_) => x !in live.own && x in config.own && |group| == 1
       case Remove(_) => x in live.own && x !in config.own && |group| == 1
       case Recreate(_) =>
         && x in live.own && x in config.own && live.own[x] != config.own[x]
         && Picked(group[1..], x, ReferencersOf(refs, x))
  }

  /** `n` is met before `m` in the list. */
  ghost predicate Earlier(names: seq<Name>, n: Name, m: Name) {
    exists i :: 0 <= i < |names| && names[i] == n && m !in names[..i + 1]
  }

  /** `part` stands in the order its names are first met in the list. */
  ghost predicate InOrder(names: seq<Name>, part: seq<Name>) {
    forall i, j :: 0 <= i < j < |part| ==> Earlier(names, part[i], part[j])
  }

  /** The live children come in their order, then the configured ones that are not live. */
  ghost predicate Before(live: Tree, config: Tree, x: Address, y: Address) {
    exists k :: 0 <= k < |x| && k < |y| && x[..k] == y[..k] && x[..k] in live.kids && x[..k] in config.kids &&
                Earlier(live.kids[x[..k]] + config.kids[x[..k]], x[k], y[k])
  }

  function Flatten(groups: seq<seq<Action>>): seq<Action> {
    if groups == [] then [] else groups[0] + Flatten(groups[1..])
  }

  /** The actions are those of the topmost differences below `a`, each asked for once and in order. */
  ghost predicate Grouped(live: Tree, config: Tree, refs: Referencers, a: Address, actions: seq<Action>,
                          sites: seq<Address>, groups: seq<seq<Action>>) {
    && |sites| == |groups| && Flatten(groups) == actions
    && (forall i :: 0 <= i < |sites| ==> IsGroup(live, config, refs, sites[i], groups[i]))
    && (forall i, j :: 0 <= i < j < |sites| ==> Before(live, config, sites[i], sites[j]))
    && (forall x :: x in sites <==> Met(live, config, a, x) && !SameAt(live, config, x))
  }

  lemma {:induction false} FlattenJoins(one: seq<seq<Action>>, two: seq<seq<Action>>)
    ensures Flatten(one + two) == Flatten(one) + Flatten(two)
  {
    if one == [] {
      assert one + two == two;
    } else {
      assert (one + two)[1..] == one[1..] + two;
      FlattenJoins(one[1..], two);
    }
  }

  lemma {:induction false} InFlattened(groups: seq<seq<Action>>, action: Action)
    ensures action in Flatten(groups) <==> exists i :: 0 <= i < |groups| && action in groups[i]
  {
    if groups != [] {
      InFlattened(groups[1..], action);
      if i :| 0 <= i < |groups| && action in groups[i] {
        if i > 0 {
          assert groups[1..][i - 1] == groups[i];
        }
      }
      if i :| 0 <= i < |groups[1..]| && action in groups[1..][i] {
        assert groups[i + 1] == groups[1..][i];
      }
    }
  }

  lemma PickNext(actions: seq<Action>, a: Address, referencers: seq<Address>, last: Address, at: seq<nat>)
    requires PickedAt(actions, a, referencers, at)
    ensures a <= last ==> PickedAt(actions, a, referencers + [last], at)
    ensures !(a <= last) ==> PickedAt(actions + [Recreate(last)], a, referencers + [last], at + [|referencers|])
  {
    var all, n := referencers + [last], |referencers|;
    assert n !in at by {
      assert forall i :: 0 <= i < |at| ==> at[i] < n;
    }
    forall k | 0 <= k < |all| ensures k in at <==> k < n && !(a <= all[k]) {
      assert k < n ==> all[k] == referencers[k];
    }
  }

  lemma {:induction false} OutsideIsPicked(a: Address, referencers: seq<Address>)
    ensures Picked(Outside(a, referencers), a, referencers)
  {
    if referencers == [] {
      assert PickedAt(Outside(a, referencers), a, referencers, []);
    } else {
      var before, last := referencers[..|referencers| - 1], referencers[|referencers| - 1];
      OutsideIsPicked(a, before);
      var at: seq<nat> :| PickedAt(Outside(a, before), a, before, at);
      PickNext(Outside(a, before), a, before, last, at);
      assert before + [last] == referencers;
    }
  }

  lemma PickedMembers(actions: seq<Action>, a: Address, referencers: seq<Address>, action: Action)
    requires Picked(actions, a, referencers)
    ensures action in actions <==> action.Recreate? && action.address in referencers && !(a <= action.address)
  {
    var at :| PickedAt(actions, a, referencers, at);
    if action in actions {
      var i :| 0 <= i < |actions| && actions[i] == action;
      assert at[i] in at;
    }
    if action.Recreate? && action.address in referencers && !(a <= action.address) {
      var k: nat :| k < |referencers| && referencers[k] == action.address;
      assert k in at;
      var i :| 0 <= i < |at| && at[i] == k;
      assert actions[i] == action;
    }
  }

  lemma {:induction false} UniqIsOrdered(names: seq<Name>)
    ensures InOrder(names, Uniq(names))
  {
    if names != [] {
      var before, last := names[..|names| - 1], names[|names| - 1];
      UniqIsOrdered(before);
      var unique := Uniq(names);
      forall i, j | 0 <= i < j < |unique| ensures Earlier(names, unique[i], unique[j]) {
        if j < |Uniq(before)| {
          assert Earlier(before, Uniq(before)[i], Uniq(before)[j]);
          var k :| 0 <= k < |before| && before[k] == unique[i] && unique[j] !in before[..k + 1];
          assert names[..k + 1] == before[..k + 1] && names[k] == before[k];
        } else {
          assert unique[i] in before && last !in before;
          var k :| 0 <= k < |before| && before[k] == unique[i];
          assert forall n :: n in names[..k + 1] ==> n in before;
          assert names[k] == before[k];
        }
      }
    }
  }

  lemma MetFromChild(live: Tree, config: Tree, a: Address, x: Address)
    requires Unchanged(live, config, a) && |x| > |a| && a <= x
    ensures Met(live, config, a, x) <==> Met(live, config, a + [x[|a|]], x)
  {
    assert x[..|a|] == a && a + [x[|a|]] <= x;
  }

  /** The sites below unchanged `a` are those below its children. */
  lemma MetBelow(live: Tree, config: Tree, a: Address, x: Address)
    requires Valid(live) && Valid(config) && Unchanged(live, config, a)
    ensures Met(live, config, a, x) && !SameAt(live, config, x) <==>
            UnderSome(live, config, a, live.kids[a] + config.kids[a], x)
  {
    MetStarts(live, config, a, x);
    if |x| <= |a| {
      assert a <= x ==> x == a;
    } else if a <= x {
      var child := a + [x[|a|]];
      MetFromChild(live, config, a, x);
      hide Met;
      assert child <= x;
      if x in live.own {
        PrefixesStay(live, child, x);
      }
      if x in config.own {
        PrefixesStay(config, child, x);
      }
    } else {
      MetStarts(live, config, a + [x[|a|]], x);
      assert !(a + [x[|a|]] <= x);
    }
  }

  lemma SiteGroup(live: Tree, config: Tree, refs: Referencers, a: Address) returns (sites: seq<Address>,
                                                                                    groups: seq<seq<Action>>)
    requires Valid(live) && Valid(config) && !Unchanged(live, config, a)
    ensures Grouped(live, config, refs, a, PlanAt(live, config, refs, a), sites, groups)
  {
    var actions := PlanAt(live, config, refs, a);
    forall x | Met(live, config, a, x) ensures x == a {
      assert x[..|a|] == a;
    }
    if SameAt(live, config, a) {
      sites, groups := [], [];
    } else {
      sites, groups := [a], [actions];
      assert Flatten(groups) == actions + Flatten([]);
      if a in live.own && a in config.own {
        OutsideIsPicked(a, ReferencersOf(refs, a));
        assert actions[1..] == Outside(a, ReferencersOf(refs, a));
      }
      assert IsGroup(live, config, refs, a, groups[0]);
    }
  }

  lemma {:induction false} PlanGroups(live: Tree, config: Tree, refs: Referencers, a: Address)
    returns (sites: seq<Address>, groups: seq<seq<Action>>)
    requires Valid(live) && Valid(config)
    ensures Grouped(live, config, refs, a, PlanAt(live, config, refs, a), sites, groups)
    decreases Below(live, a), 1, 0
  {
    if Unchanged(live, config, a) {
      var names := live.kids[a] + config.kids[a];
      UniqIsOrdered(names);
      sites, groups := ChildGroups(live, config, refs, a, Uniq(names));
      forall x ensures x in sites <==> Met(live, config, a, x) && !SameAt(live, config, x) {
        MetBelow(live, config, a, x);
      }
    } else {
      sites, groups := SiteGroup(live, config, refs, a);
    }
  }

  /** The sites under some of a component's children. */
  ghost predicate UnderSome(live: Tree, config: Tree, a: Address, names: seq<Name>, x: Address) {
    |x| > |a| && x[|a|] in names && Met(live, config, a + [x[|a|]], x) && !SameAt(live, config, x)
  }

  ghost predicate NamesInOrder(live: Tree, config: Tree, a: Address, names: seq<Name>) {
    a in live.kids && a in config.kids && InOrder(live.kids[a] + config.kids[a], names)
  }

  ghost predicate ChildrenGrouped(live: Tree, config: Tree, refs: Referencers, a: Address, names: seq<Name>,
                                  actions: seq<Action>, sites: seq<Address>, groups: seq<seq<Action>>) {
    && |sites| == |groups| && Flatten(groups) == actions
    && (forall i :: 0 <= i < |sites| ==> IsGroup(live, config, refs, sites[i], groups[i]))
    && (forall i, j :: 0 <= i < j < |sites| ==> Before(live, config, sites[i], sites[j]))
    && (forall x :: x in sites <==> UnderSome(live, config, a, names, x))
  }

  lemma {:induction false} ChildGroups(live: Tree, config: Tree, refs: Referencers, a: Address, names: seq<Name>)
    returns (sites: seq<Address>, groups: seq<seq<Action>>)
    requires Valid(live) && Valid(config) && Unchanged(live, config, a) && NamesInOrder(live, config, a, names)
    ensures ChildrenGrouped(live, config, refs, a, names, PlanChildren(live, config, refs, a, names), sites, groups)
    decreases Below(live, a), 0, |names|
  {
    sites, groups := [], [];
    if names != [] {
      var child := a + [names[0]];
      assert a in Below(live, a) && a !in Below(live, child);
      assert NamesInOrder(live, config, a, names[1..]);
      hide Valid, Grouped, ChildrenGrouped, NamesInOrder, PlanAt;
      var first, firsts := PlanGroups(live, config, refs, child);
      var rest, rests := ChildGroups(live, config, refs, a, names[1..]);
      sites, groups := first + rest, firsts + rests;
      JoinedGroups(live, config, refs, a, names, PlanAt(live, config, refs, child),
                   PlanChildren(live, config, refs, a, names[1..]), first, rest, firsts, rests);
    }
  }

  lemma JoinedGroups(live: Tree, config: Tree, refs: Referencers, a: Address, names: seq<Name>, one: seq<Action>,
                     two: seq<Action>, first: seq<Address>, rest: seq<Address>, firsts: seq<seq<Action>>,
                     rests: seq<seq<Action>>)
    requires Valid(live) && Valid(config) && Unchanged(live, config, a) && NamesInOrder(live, config, a, names)
    requires names != [] && Grouped(live, config, refs, a + [names[0]], one, first, firsts)
    requires ChildrenGrouped(live, config, refs, a, names[1..], two, rest, rests)
    ensures ChildrenGrouped(live, config, refs, a, names, one + two, first + rest, firsts + rests)
  {
    hide Valid, Unchanged, Earlier, IsGroup, Before, Met, UnderSome, NamesInOrder, Flatten;
    FlattenJoins(firsts, rests);
    JoinedSites(live, config, a, names, first, rest);
  }

  lemma JoinedSites(live: Tree, config: Tree, a: Address, names: seq<Name>, first: seq<Address>, rest: seq<Address>)
    requires Valid(live) && Valid(config) && Unchanged(live, config, a)
    requires NamesInOrder(live, config, a, names) && names != []
    requires forall x :: x in first <==> Met(live, config, a + [names[0]], x) && !SameAt(live, config, x)
    requires forall x :: x in rest <==> UnderSome(live, config, a, names[1..], x)
    requires forall i, j :: 0 <= i < j < |first| ==> Before(live, config, first[i], first[j])
    requires forall i, j :: 0 <= i < j < |rest| ==> Before(live, config, rest[i], rest[j])
    ensures forall x :: x in first + rest <==> UnderSome(live, config, a, names, x)
    ensures forall i, j :: 0 <= i < j < |first + rest| ==> Before(live, config, (first + rest)[i], (first + rest)[j])
  {
    var sites, child := first + rest, a + [names[0]];
    forall x ensures x in sites <==> UnderSome(live, config, a, names, x) {
      MetStarts(live, config, child, x);
      assert child <= x ==> |x| > |a| && x[|a|] == names[0];
      assert |x| > |a| ==> (x[|a|] in names <==> x[|a|] == names[0] || x[|a|] in names[1..]);
    }
    forall i, j | 0 <= i < j < |sites| ensures Before(live, config, sites[i], sites[j]) {
      if i < |first| && |first| <= j {
        assert sites[i] in first && sites[j] in rest;
        MetStarts(live, config, child, sites[i]);
        MetStarts(live, config, a + [sites[j][|a|]], sites[j]);
        SiblingsOrdered(live, config, a, names, sites[i], sites[j]);
      }
    }
  }

  lemma MetStarts(live: Tree, config: Tree, a: Address, x: Address)
    ensures Met(live, config, a, x) ==> a <= x
  {
  }

  lemma SiblingsOrdered(live: Tree, config: Tree, a: Address, names: seq<Name>, x: Address, y: Address)
    requires Valid(live) && Valid(config) && Unchanged(live, config, a)
    requires NamesInOrder(live, config, a, names) && names != []
    requires a + [names[0]] <= x && UnderSome(live, config, a, names[1..], y)
    ensures Before(live, config, x, y)
  {
    var j :| 0 <= j < |names[1..]| && names[1..][j] == y[|a|];
    assert names[j + 1] == y[|a|];
    assert x[..|a|] == a && y[..|a|] == a && x[|a|] == names[0];
    assert Earlier(live.kids[a] + config.kids[a], x[|a|], y[|a|]);
  }

  /** Exactly what the engine plans. Components that only one side has are created or removed where
      all above them is unchanged. There, a changed component and whatever refers to it from outside
      its subtree are recreated, the referencers after it in the order they are held, and nothing
      else is. */
  lemma PlanIsGrouped(live: Tree, config: Tree, refs: Referencers)
    requires Valid(live) && Valid(config)
    ensures exists sites, groups :: Grouped(live, config, refs, [], Plan(live, config, refs), sites, groups)
  {
    var sites, groups := PlanGroups(live, config, refs, []);
    assert Grouped(live, config, refs, [], Plan(live, config, refs), sites, groups);
  }

  /** Whether a component is met that is live, configured and changed. */
  ghost predicate Changed(live: Tree, config: Tree, x: Address) {
    && Met(live, config, [], x)
    && x in live.own && x in config.own && live.own[x] != config.own[x]
  }

  lemma GroupMembers(live: Tree, config: Tree, refs: Referencers, x: Address, group: seq<Action>, action: Action)
    requires IsGroup(live, config, refs, x, group)
    ensures action in group <==>
              match action
              case Create(y) => y == x && x !in live.own && x in config.own
              case Remove(y) => y == x && x in live.own && x !in config.own
              case Recreate(y) =>
                && x in live.own && x in config.own && live.own[x] != config.own[x]
                && (y == x || (y in ReferencersOf(refs, x) && !(x <= y)))
  {
    assert group == [group[0]] + group[1..];
    if group[0].Recreate? {
      PickedMembers(group[1..], x, ReferencersOf(refs, x), action);
    }
  }

  /** What each kind of planned action means. */
  lemma PlanExactly(live: Tree, config: Tree, refs: Referencers, x: Address)
    requires Valid(live) && Valid(config)
    ensures Create(x) in Plan(live, config, refs) <==>
              Met(live, config, [], x) && x !in live.own && x in config.own
    ensures Remove(x) in Plan(live, config, refs) <==>
              Met(live, config, [], x) && x in live.own && x !in config.own
    ensures Recreate(x) in Plan(live, config, refs) <==>
              exists c :: Changed(live, config, c) && (x == c || (x in ReferencersOf(refs, c) && !(c <= x)))
  {
    var sites, groups := PlanGroups(live, config, refs, []);
    var plan := Plan(live, config, refs);
    hide IsGroup, Plan, PlanAt, Flatten, ReferencersOf;
    forall action ensures action in plan <==> exists i :: 0 <= i < |groups| && action in groups[i] {
      InFlattened(groups, action);
    }
    forall i, action | 0 <= i < |sites|
      ensures action in groups[i] <==>
                match action
                case Create(y) => y == sites[i] && sites[i] !in live.own && sites[i] in config.own
                case Remove(y) => y == sites[i] && sites[i] in live.own && sites[i] !in config.own
                case Recreate(y) =>
                  && sites[i] in live.own && sites[i] in config.own && live.own[sites[i]] != config.own[sites[i]]
                  && (y == sites[i] || (y in ReferencersOf(refs, sites[i]) && !(sites[i] <= y)))
    {
      GroupMembers(live, config, refs, sites[i], groups[i], action);
    }
  }

  // ---------------------------------------------------------------- convergence

  lemma ReplayKeys(t: Tree, config: Tree, action: Action)
    requires t.kids.Keys == t.own.Keys && config.kids.Keys == config.own.Keys && action.address != []
    ensures Replay(t, config, action).kids.Keys == Replay(t, config, action).own.Keys
  {
  }

  /** The actions replayed in order, each on what the ones before it left. */
  function ReplayAll(t: Tree, config: Tree, actions: seq<Action>): Tree
    requires t.kids.Keys == t.own.Keys && config.kids.Keys == config.own.Keys
    requires forall action :: action in actions ==> action.address != []
    decreases |actions|
  {
    if actions == [] then t
    else
      assert actions[0] in actions;
      ReplayKeys(t, config, actions[0]);
      ReplayAll(Replay(t, config, actions[0]), config, actions[1..])
  }

  lemma {:induction false} ReplayAllOverlays(t: Tree, live: Tree, config: Tree, actions: seq<Action>,
                                             roots: set<Address>)
    requires Valid(live) && Valid(config) && Overlay(t, live, config, roots) && AllPlanned(live, config, actions)
    ensures Overlay(ReplayAll(t, config, actions), live, config, roots + Roots(config, actions))
    decreases |actions|
  {
    hide Replay;
    if actions == [] {
      assert roots + Roots(config, []) == roots;
    } else {
      assert actions[0] in actions;
      RootsSplit(config, actions);
      ReplayOverlays(t, live, config, roots, actions[0]);
      ReplayAllOverlays(Replay(t, config, actions[0]), live, config, actions[1..], roots + Roots(config, [actions[0]]));
      assert roots + Roots(config, [actions[0]]) + Roots(config, actions[1..]) == roots + Roots(config, actions);
    }
  }

  // ---------------------------------------------------------------- child order

  function Among(names: seq<Name>, others: seq<Name>): seq<Name> {
    if names == [] then []
    else (if names[0] in others then [names[0]] else []) + Among(names[1..], others)
  }

  function NotAmong(names: seq<Name>, others: seq<Name>): seq<Name> {
    if names == [] then []
    else (if names[0] in others then [] else [names[0]]) + NotAmong(names[1..], others)
  }

  /** Configured children in configured order, then the rest as they stood. */
  function Ordered(kids: seq<Name>, configured: seq<Name>): seq<Name> {
    Among(configured, kids) + NotAmong(kids, configured)
  }

  function SyncOrder(t: Tree, config: Tree): Tree {
    Tree(t.own, map a | a in t.kids :: if a in config.kids then Ordered(t.kids[a], config.kids[a]) else t.kids[a])
  }

  lemma {:induction false} AmongAll(names: seq<Name>, others: seq<Name>)
    requires forall n :: n in names ==> n in others
    ensures Among(names, others) == names && NotAmong(names, others) == []
  {
    if names != [] {
      AmongAll(names[1..], others);
    }
  }

  lemma {:induction false} AmongMembers(names: seq<Name>, others: seq<Name>)
    ensures forall n :: n in Among(names, others) <==> n in names && n in others
    ensures forall n :: n in NotAmong(names, others) <==> n in names && n !in others
  {
    if names != [] {
      AmongMembers(names[1..], others);
      assert forall n :: n in names <==> n == names[0] || n in names[1..];
    }
  }

  lemma NextInOrder(names: seq<Name>, part: seq<Name>)
    requires names != [] && Distinct(names) && InOrder(names[1..], part)
    requires forall n :: n in part ==> n in names[1..]
    ensures InOrder(names, part) && InOrder(names, [names[0]] + part)
  {
    var all := [names[0]] + part;
    assert names[0] !in names[1..];
    forall i, j | 0 <= i < j < |part| ensures Earlier(names, part[i], part[j]) {
      assert Earlier(names[1..], part[i], part[j]) && part[j] in part;
      EarlierInRest(names, part[i], part[j]);
    }
    forall i, j | 0 <= i < j < |all| ensures Earlier(names, all[i], all[j]) {
      assert all[j] == part[j - 1] && part[j - 1] in part;
      if i == 0 {
        assert names[..1] == [names[0]];
      } else {
        assert all[i] == part[i - 1];
      }
    }
  }

  lemma {:induction false} AmongInOrder(names: seq<Name>, others: seq<Name>)
    requires Distinct(names)
    ensures InOrder(names, Among(names, others)) && InOrder(names, NotAmong(names, others))
  {
    if names != [] {
      var rest := names[1..];
      assert forall i, j :: 0 <= i < j < |rest| ==> rest[i] == names[i + 1] && rest[j] == names[j + 1];
      AmongInOrder(rest, others);
      AmongMembers(rest, others);
      NextInOrder(names, Among(rest, others));
      NextInOrder(names, NotAmong(rest, others));
    }
  }

  lemma EarlierInRest(names: seq<Name>, n: Name, m: Name)
    requires names != [] && names[0] != m && Earlier(names[1..], n, m)
    ensures Earlier(names, n, m)
  {
    var i :| 0 <= i < |names[1..]| && names[1..][i] == n && m !in names[1..][..i + 1];
    assert names[..i + 2] == [names[0]] + names[1..][..i + 1];
    assert names[i + 1] == n;
  }

  lemma EarlierInSum(names: seq<Name>, others: seq<Name>, n: Name, m: Name)
    ensures Earlier(names, n, m) ==> Earlier(names + others, n, m)
    ensures n !in names && m !in names && Earlier(others, n, m) ==> Earlier(names + others, n, m)
    ensures n in names && m !in names ==> Earlier(names + others, n, m)
  {
    var all := names + others;
    if Earlier(names, n, m) {
      var i :| 0 <= i < |names| && names[i] == n && m !in names[..i + 1];
      assert all[..i + 1] == names[..i + 1] && all[i] == n;
    }
    if n in names && m !in names {
      var i :| 0 <= i < |names| && names[i] == n;
      assert all[..i + 1] == names[..i + 1] && all[i] == n;
    }
    if n !in names && m !in names && Earlier(others, n, m) {
      var i :| 0 <= i < |others| && others[i] == n && m !in others[..i + 1];
      assert all[..|names| + i + 1] == names + others[..i + 1] && all[|names| + i] == n;
    }
  }

  /** Ordering keeps a registry's names, the configured ones in their configured order before the
      others in the order they had. */
  lemma OrderedExactly(kids: seq<Name>, configured: seq<Name>)
    requires Distinct(kids) && Distinct(configured)
    ensures forall n :: n in Ordered(kids, configured) <==> n in kids
    ensures InOrder(configured + kids, Ordered(kids, configured))
  {
    var first, rest := Among(configured, kids), NotAmong(kids, configured);
    AmongMembers(configured, kids);
    AmongMembers(kids, configured);
    AmongInOrder(configured, kids);
    AmongInOrder(kids, configured);
    var order := first + rest;
    forall i, j | 0 <= i < j < |order| ensures Earlier(configured + kids, order[i], order[j]) {
      EarlierInSum(configured, kids, order[i], order[j]);
      hide Earlier, Among, NotAmong;
      if i < |first| {
        assert order[i] in first && order[i] in configured;
      } else {
        assert order[i] in rest && order[i] !in configured;
      }
      if j >= |first| {
        assert order[j] in rest && order[j] !in configured;
      }
    }
  }

  // ---------------------------------------------------------------- the theorem

  lemma SameOwn(t: Tree, config: Tree)
    requires forall x :: SameAt(t, config, x)
    ensures t.own == config.own
  {
    assert forall x :: x in t.own <==> x in config.own by {
      forall x ensures x in t.own <==> x in config.own {
        assert SameAt(t, config, x);
      }
    }
    assert forall x :: x in t.own ==> t.own[x] == config.own[x] by {
      forall x | x in t.own ensures t.own[x] == config.own[x] {
        assert SameAt(t, config, x);
      }
    }
  }

  lemma OrderRestored(t: Tree, config: Tree)
    requires Valid(t) && Valid(config) && t.own == config.own
    ensures SyncOrder(t, config) == config
  {
    forall a | a in t.kids ensures Ordered(t.kids[a], config.kids[a]) == config.kids[a] {
      forall n ensures n in t.kids[a] <==> n in config.kids[a] {
        assert a + [n] in t.own <==> a + [n] in config.own;
      }
      AmongAll(config.kids[a], t.kids[a]);
      AmongAll(t.kids[a], config.kids[a]);
    }
  }

  /** A plan is empty exactly when every component is there with its own configuration and no
      other is. */
  lemma PlanEmptyIffSame(live: Tree, config: Tree, refs: Referencers)
    requires Valid(live) && Valid(config)
    ensures Plan(live, config, refs) == [] <==> live.own == config.own
  {
    if Plan(live, config, refs) == [] {
      forall x ensures SameAt(live, config, x) {
        if !SameAt(live, config, x) {
          PlanCovers(live, config, refs, [], x);
        }
      }
      SameOwn(live, config);
    }
    if live.own == config.own {
      SamePlansNothing(live, config, refs, []);
    }
  }

  lemma {:induction false} SamePlansNothing(live: Tree, config: Tree, refs: Referencers, a: Address)
    requires Valid(live) && Valid(config) && live.own == config.own
    ensures PlanAt(live, config, refs, a) == []
    decreases Below(live, a), 1, 0
  {
    if a in live.own {
      SameChildrenPlanNothing(live, config, refs, a, Uniq(live.kids[a] + config.kids[a]));
    }
  }

  lemma {:induction false} SameChildrenPlanNothing(live: Tree, config: Tree, refs: Referencers, a: Address,
                                                   names: seq<Name>)
    requires Valid(live) && Valid(config) && live.own == config.own && a in live.own
    ensures PlanChildren(live, config, refs, a, names) == []
    decreases Below(live, a), 0, |names|
  {
    if names != [] {
      assert a in Below(live, a) && a !in Below(live, a + [names[0]]);
      SamePlansNothing(live, config, refs, a + [names[0]]);
      SameChildrenPlanNothing(live, config, refs, a, names[1..]);
    }
  }

  /** Reconciliation converges: whatever references add to the plan, replaying it and putting the
      children in order turns any live tree into exactly the configured one, and a second plan is
      empty. */
  lemma Converges(live: Tree, config: Tree, refs: Referencers, laterRefs: Referencers)
    requires Valid(live) && Valid(config) && RefsLive(live, refs)
    ensures var plan := Plan(live, config, refs);
            && (forall action :: action in plan ==> action.address != [])
            && var end := ReplayAll(live, config, plan);
            && Valid(end)
            && SyncOrder(end, config) == config
            && Plan(end, config, laterRefs) == []
  {
    var plan := Plan(live, config, refs);
    PlanIsPlanned(live, config, refs, []);
    forall x ensures SameAt(live, if Touched({}, x) then config else live, x) {
    }
    ReplayAllOverlays(live, live, config, plan, {});
    var end := ReplayAll(live, config, plan);
    var roots := {} + Roots(config, plan);
    assert roots == Roots(config, plan);
    hide ReplayAll;
    forall x ensures SameAt(end, config, x) {
      assert SameAt(end, if Touched(roots, x) then config else live, x);
      if !SameAt(live, config, x) {
        PlanCovers(live, config, refs, [], x);
      }
    }
    SameOwn(end, config);
    OrderRestored(end, config);
    PlanEmptyIffSame(end, config, laterRefs);
  }
}
