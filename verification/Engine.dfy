/** The engine as it plans and applies a configuration, each part proved against its function. */
module Engine {
  import opened Reconcile

  /** The engine's live component tree. */
  class Engine {
    var tree: Tree

    constructor ()
      ensures Valid(tree) && tree.own == map[[] := ENGINE]
    {
      tree := Tree(map[[] := ENGINE], map[[] := []]);
    }

    static method UniqNames(names: seq<Name>) returns (unique: seq<Name>)
      ensures unique == Uniq(names)
    {
      unique := [];
      for i := 0 to |names|
        invariant unique == Uniq(names[..i])
      {
        assert names[..i + 1][..i] == names[..i];
        if names[i] !in unique {
          unique := unique + [names[i]];
        }
      }
      assert names[..|names|] == names;
    }

    static method AffectedBy(a: Address, referencers: seq<Address>) returns (actions: seq<Action>)
      ensures actions == [Recreate(a)] + Outside(a, referencers)
      ensures actions[0] == Recreate(a) && Picked(actions[1..], a, referencers)
    {
      actions := [Recreate(a)];
      for i := 0 to |referencers|
        invariant actions == [Recreate(a)] + Outside(a, referencers[..i])
      {
        assert referencers[..i + 1][..i] == referencers[..i];
        if !(a <= referencers[i]) {
          actions := actions + [Recreate(referencers[i])];
        }
      }
      assert referencers[..|referencers|] == referencers;
      OutsideIsPicked(a, referencers);
    }

    /** The actions pending at an address and below. */
    method PendingActions(config: Tree, refs: Referencers, a: Address) returns (actions: seq<Action>)
      requires tree.kids.Keys == tree.own.Keys && config.kids.Keys == config.own.Keys
      ensures actions == PlanAt(tree, config, refs, a)
      decreases Below(tree, a), 1
    {
      if a !in tree.own {
        return if a in config.own then [Create(a)] else [];
      }
      if a !in config.own {
        return [Remove(a)];
      }
      if tree.own[a] != config.own[a] {
        actions := AffectedBy(a, if a in refs then refs[a] else []);
        return;
      }
      actions := ChildActions(config, refs, a);
    }

    /** Goes through the union of the live and the configured children of an unchanged component. */
    method ChildActions(config: Tree, refs: Referencers, a: Address) returns (actions: seq<Action>)
      requires tree.kids.Keys == tree.own.Keys && config.kids.Keys == config.own.Keys
      requires a in tree.own && a in config.own
      ensures actions == PlanChildren(tree, config, refs, a, Uniq(tree.kids[a] + config.kids[a]))
      decreases Below(tree, a), 0
    {
      hide PlanAt;
      hide PlanChildren;
      var children := UniqNames(tree.kids[a] + config.kids[a]);
      actions := [];
      assert children[0..] == children;
      NoChildren(tree, config, refs, a);
      for i := 0 to |children|
        invariant PlanChildren(tree, config, refs, a, children)
                    == actions + PlanChildren(tree, config, refs, a, children[i..])
      {
        NextChild(tree, config, refs, a, children, i);
        var found := PendingActions(config, refs, a + [children[i]]);
        actions := actions + found;
      }
      assert children[|children|..] == [];
    }

    /** Replays one action on the tree as it is now. */
    method ExecuteOne(config: Tree, action: Action)
      requires tree.kids.Keys == tree.own.Keys && config.kids.Keys == config.own.Keys && action.address != []
      modifies this
      ensures tree == Replay(old(tree), config, action) && tree.kids.Keys == tree.own.Keys
    {
      ReplayKeys(tree, config, action);
      var a := action.address;
      match action {
        case Create(_) =>
          if a !in config.own || a in tree.own {
            return;
          }
          tree := Attach(tree, config, a);
        case Recreate(_) =>
          if a !in config.own {
            return;
          }
          if a in tree.own {
            tree := Detach(tree, a);
          }
          tree := Attach(tree, config, a);
        case Remove(_) =>
          if a in tree.own {
            tree := Detach(tree, a);
          }
      }
    }

    method Execute(config: Tree, actions: seq<Action>)
      requires tree.kids.Keys == tree.own.Keys && config.kids.Keys == config.own.Keys
      requires forall action :: action in actions ==> action.address != []
      modifies this
      ensures tree == ReplayAll(old(tree), config, actions)
    {
      hide Replay;
      for i := 0 to |actions|
        invariant tree.kids.Keys == tree.own.Keys
        invariant forall action :: action in actions[i..] ==> action.address != []
        invariant ReplayAll(tree, config, actions[i..]) == ReplayAll(old(tree), config, actions)
      {
        assert actions[i..][0] == actions[i] && actions[i..][1..] == actions[i + 1..];
        assert actions[i] in actions[i..];
        ExecuteOne(config, actions[i]);
      }
    }

    /** One registry put in the configured order. */
    static method SyncChildOrder(kids: seq<Name>, configured: seq<Name>) returns (order: seq<Name>)
      ensures order == Ordered(kids, configured)
    {
      order := [];
      hide NotAmong;
      for i := 0 to |configured|
        invariant order + Among(configured[i..], kids) == Among(configured, kids)
      {
        assert configured[i..][1..] == configured[i + 1..];
        if configured[i] in kids {
          order := order + [configured[i]];
        }
      }
      assert configured[|configured|..] == [] && order == Among(configured, kids);
      order := AppendOthers(order, kids, configured);
    }

    static method AppendOthers(first: seq<Name>, kids: seq<Name>, configured: seq<Name>) returns (order: seq<Name>)
      ensures order == first + NotAmong(kids, configured)
    {
      order := first;
      for i := 0 to |kids|
        invariant order + NotAmong(kids[i..], configured) == first + NotAmong(kids, configured)
      {
        assert kids[i..][1..] == kids[i + 1..];
        if kids[i] !in configured {
          order := order + [kids[i]];
        }
      }
    }

    /** Every registry put in the configured order. */
    method SyncComponentOrder(config: Tree)
      modifies this
      ensures tree == SyncOrder(old(tree), config)
    {
      var left := tree.kids.Keys;
      while left != {}
        invariant left <= tree.kids.Keys && tree.own == old(tree).own && tree.kids.Keys == old(tree).kids.Keys
        invariant forall a :: a in tree.kids ==>
          tree.kids[a] == if a in left then old(tree).kids[a] else SyncOrder(old(tree), config).kids[a]
      {
        var a :| a in left;
        if a in config.kids {
          var order := SyncChildOrder(tree.kids[a], config.kids[a]);
          tree := tree.(kids := tree.kids[a := order]);
        }
        left := left - {a};
      }
      assert tree.kids == SyncOrder(old(tree), config).kids;
    }

    /** Applying a configuration leaves the live tree exactly as configured, and returns the actions
        it took, none precisely when every component was as configured already. */
    method Apply(config: Tree, refs: Referencers) returns (actions: seq<Action>)
      requires Valid(tree) && Valid(config) && RefsLive(tree, refs)
      modifies this
      ensures actions != [] ==> tree == config
      ensures actions == [] ==> tree == old(tree)
      ensures tree.own == config.own
      ensures actions == [] <==> old(tree).own == config.own
    {
      actions := PendingActions(config, refs, []);
      Converges(tree, config, refs, refs);
      PlanEmptyIffSame(tree, config, refs);
      if actions == [] {
        return;
      }
      Execute(config, actions);
      SyncComponentOrder(config);
    }
  }

  lemma NoChildren(live: Tree, config: Tree, refs: Referencers, a: Address)
    requires live.kids.Keys == live.own.Keys && config.kids.Keys == config.own.Keys && a in live.own
    ensures PlanChildren(live, config, refs, a, []) == []
  {
  }

  lemma NextChild(live: Tree, config: Tree, refs: Referencers, a: Address, names: seq<Name>, i: nat)
    requires live.kids.Keys == live.own.Keys && config.kids.Keys == config.own.Keys && a in live.own && i < |names|
    ensures PlanChildren(live, config, refs, a, names[i..])
              == PlanAt(live, config, refs, a + [names[i]]) + PlanChildren(live, config, refs, a, names[i + 1..])
    ensures a in Below(live, a) && Below(live, a + [names[i]]) < Below(live, a)
  {
    assert names[i..][0] == names[i] && names[i..][1..] == names[i + 1..];
    assert a in Below(live, a) && a !in Below(live, a + [names[i]]);
    assert forall x :: x in Below(live, a + [names[i]]) ==> a <= x;
  }
}
