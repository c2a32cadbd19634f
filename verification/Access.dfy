/** Permission grants merged by target and resolved for one component, against the raw list. */
module Access {
  import opened Options

  datatype Level = Deny | View | Operate | Manage

  function Order(level: Level): nat {
    match level case Deny => 0 case View => 1 case Operate => 2 case Manage => 3
  }

  datatype Origin = OwnGrant | GroupGrant

  datatype Grant = Grant(level: Level, origin: Origin, group: Option<nat>)

  datatype Target = Everything | OnTag(tag: string) | OnComponent(address: string)

  /** A grant as stored, before merging. */
  datatype Raw = Raw(target: Target, grant: Grant)

  /** What decided a level. */
  datatype Source = Default | FromAll | FromTag | FromComponent | Admin

  function SourceOf(target: Target): Source {
    match target case Everything => FromAll case OnTag(_) => FromTag case OnComponent(_) => FromComponent
  }

  datatype Resolved = Resolved(level: Level, source: Source, winner: Option<Grant>)

  // ---------------------------------------------------------------- merging

  /** Whichever of two grants gives more, the user's own on a tie. */
  function Higher(current: Option<Grant>, candidate: Grant): Grant {
    if current.None? || Order(candidate.level) > Order(current.value.level) then candidate
    else if Order(candidate.level) == Order(current.value.level) && current.value.origin == GroupGrant
            && candidate.origin == OwnGrant
      then candidate
    else current.value
  }

  /** The merged grant of one target. */
  function Best(raws: seq<Raw>, target: Target): Option<Grant> {
    if raws == [] then None
    else
      var before, raw := Best(raws[..|raws| - 1], target), raws[|raws| - 1];
      if raw.target == target then Some(Higher(before, raw.grant)) else before
  }

  /** Whether the grant fetched at `i` is its target's and beats every one fetched before it. */
  ghost predicate FirstBest(raws: seq<Raw>, target: Target, best: Grant, i: nat) {
    && i < |raws| && raws[i] == Raw(target, best)
    && forall j :: 0 <= j < i && raws[j].target == target ==>
         || Order(raws[j].grant.level) < Order(best.level)
         || (raws[j].grant.level == best.level && raws[j].grant.origin == GroupGrant && best.origin == OwnGrant)
  }

  /** A target's merged grant is of the highest level, and the user's own when one of that level is. */
  lemma {:induction false} BestIsHighest(raws: seq<Raw>, target: Target)
    ensures var best := Best(raws, target);
            && (best.None? <==> forall raw :: raw in raws ==> raw.target != target)
            && (best.Some? ==>
                  && Raw(target, best.value) in raws
                  && (forall raw :: raw in raws && raw.target == target ==>
                    Order(raw.grant.level) <= Order(best.value.level))
                  && (best.value.origin == GroupGrant ==>
                        forall raw :: raw in raws && raw.target == target && raw.grant.level == best.value.level
                          ==> raw.grant.origin == GroupGrant))
  {
    if raws != [] {
      var before, raw := raws[..|raws| - 1], raws[|raws| - 1];
      BestIsHighest(before, target);
      assert raws == before + [raw];
      assert forall r :: r in raws <==> r in before || r == raw;
    }
  }

  /** Of several such grants it is the one fetched first. */
  lemma {:induction false} BestIsFirst(raws: seq<Raw>, target: Target)
    requires Best(raws, target).Some?
    ensures exists i :: FirstBest(raws, target, Best(raws, target).value, i)
  {
    var before, raw := raws[..|raws| - 1], raws[|raws| - 1];
    assert raws == before + [raw];
    var best := Best(raws, target).value;
    if Best(before, target) == Some(best) {
      BestIsFirst(before, target);
      var i :| FirstBest(before, target, best, i);
      assert FirstBest(raws, target, best, i);
    } else {
      BestIsHighest(before, target);
      assert forall j :: 0 <= j < |before| ==> raws[j] == before[j] && before[j] in before;
      assert FirstBest(raws, target, best, |before|);
    }
  }

  /** A user's grants, the highest for each target. */
  class AccessGrants {
    var admin: bool
    var component: map<string, Grant>
    var tag: map<string, Grant>
    var everything: Option<Grant>

    /** The merged grant of a target, wherever it is kept. */
    function Get(target: Target): Option<Grant>
      reads this
    {
      match target
      case Everything => everything
      case OnTag(name) => if name in tag then Some(tag[name]) else None
      case OnComponent(address) => if address in component then Some(component[address]) else None
    }

    /** Whether these are some raw grants merged. */
    ghost predicate Merges(raws: seq<Raw>)
      reads this
    {
      forall target :: Get(target) == Best(raws, target)
    }

    constructor (admin: bool)
      ensures this.admin == admin && Merges([])
    {
      this.admin, component, tag, everything := admin, map[], map[], None;
    }

    method Add(target: Target, grant: Grant, ghost raws: seq<Raw>)
      requires Merges(raws)
      modifies this`component, this`tag, this`everything
      ensures Merges(raws + [Raw(target, grant)])
    {
      ghost var more := raws + [Raw(target, grant)];
      assert more[..|more| - 1] == raws;
      assert Get(target) == Best(raws, target);
      match target {
        case Everything => everything := Some(Higher(everything, grant));
        case OnTag(name) => tag := tag[name := Higher(if name in tag then Some(tag[name]) else None, grant)];
        case OnComponent(address) =>
          var current := if address in component then Some(component[address]) else None;
          component := component[address := Higher(current, grant)];
      }
      forall other ensures Get(other) == Best(more, other) {
        assert old(Get(other)) == Best(raws, other);
      }
    }

    /** Merges a user's grants and every group's, in the order they are fetched. */
    method AddAll(raws: seq<Raw>)
      requires Merges([])
      modifies this`component, this`tag, this`everything
      ensures Merges(raws)
    {
      assert raws[..0] == [];
      for i := 0 to |raws|
        invariant Merges(raws[..i])
      {
        assert raws[..i + 1] == raws[..i] + [raws[i]];
        Add(raws[i].target, raws[i].grant, raws[..i]);
      }
      assert raws[..|raws|] == raws;
    }

    /** Considers one merged grant, which wins a tie. */
    static method Take(found: Option<Resolved>, candidate: Option<Grant>, source: Source)
      returns (taken: Option<Resolved>)
      ensures taken == Taken(found, candidate, source)
    {
      taken := found;
      if candidate.Some? && (found.None? || Order(candidate.value.level) >= Order(found.value.level)) {
        taken := Some(Resolved(candidate.value.level, source, candidate));
      }
    }

    /** Considers the grants on some tags, in any order. */
    method TakeTags(start: Option<Resolved>, tags: set<string>, default: Level, ghost raws: seq<Raw>)
      returns (found: Option<Resolved>)
      requires Merges(raws) && Decides(start, default, {Everything}, raws)
      ensures Decides(found, default, {Everything} + TagTargets(tags), raws)
    {
      hide Decides;
      hide Taken;
      hide Best;
      found := start;
      var left := tags;
      ghost var targets: set<Target> := {Everything};
      while left != {}
        invariant left <= tags && targets == {Everything} + TagTargets(tags - left)
        invariant Decides(found, default, targets, raws)
      {
        var name :| name in left;
        assert Get(OnTag(name)) == Best(raws, OnTag(name));
        TakeNext(found, default, targets, raws, OnTag(name));
        found := Take(found, if name in tag then Some(tag[name]) else None, FromTag);
        left := left - {name};
        targets := targets + {OnTag(name)};
      }
      assert tags - {} == tags;
    }

    /** Considers the grants on a component and its ancestors. */
    method TakeChain(start: Option<Resolved>, chain: seq<string>, default: Level, ghost before: set<Target>,
                     ghost raws: seq<Raw>)
      returns (found: Option<Resolved>)
      requires Merges(raws) && Decides(start, default, before, raws)
      ensures Decides(found, default, before + ChainTargets(chain), raws)
    {
      hide Decides;
      hide Taken;
      hide Best;
      found := start;
      assert before + ChainTargets(chain[..0]) == before;
      for i := 0 to |chain|
        invariant Decides(found, default, before + ChainTargets(chain[..i]), raws)
      {
        var address := chain[i];
        assert Get(OnComponent(address)) == Best(raws, OnComponent(address));
        TakeNext(found, default, before + ChainTargets(chain[..i]), raws, OnComponent(address));
        found := Take(found, if address in component then Some(component[address]) else None, FromComponent);
        ChainGrows(chain, i);
        assert before + ChainTargets(chain[..i]) + {OnComponent(address)} == before + ChainTargets(chain[..i + 1]);
      }
      assert chain[..|chain|] == chain;
    }

    /** The effective level of one component and what conferred it. */
    method Resolve(chain: seq<string>, default: Level, tags: set<string>, ghost raws: seq<Raw>)
      returns (found: Option<Resolved>)
      requires Merges(raws)
      ensures admin ==> found == Some(Resolved(Manage, Admin, None))
      ensures !admin ==> Decides(found, default, MatchingTargets(chain, tags), raws)
    {
      if admin {
        return Some(Resolved(Manage, Admin, None));
      }
      hide Decides;
      found := if default == Deny then None else Some(Resolved(default, Default, None));
      TakeFirst(default, raws);
      assert Get(Everything) == Best(raws, Everything);
      found := Take(found, everything, FromAll);
      found := TakeTags(found, tags, default, raws);
      found := TakeChain(found, chain, default, {Everything} + TagTargets(tags), raws);
    }
  }

  function TagTargets(tags: set<string>): set<Target> {
    set t | t in tags :: OnTag(t)
  }

  function ChainTargets(chain: seq<string>): set<Target> {
    set a | a in chain :: OnComponent(a)
  }

  lemma ChainGrows(chain: seq<string>, i: nat)
    requires i < |chain|
    ensures ChainTargets(chain[..i + 1]) == ChainTargets(chain[..i]) + {OnComponent(chain[i])}
  {
    assert chain[..i + 1] == chain[..i] + [chain[i]];
  }

  // ---------------------------------------------------------------- resolution

  function Taken(found: Option<Resolved>, candidate: Option<Grant>, source: Source): Option<Resolved> {
    if candidate.Some? && (found.None? || Order(candidate.value.level) >= Order(found.value.level))
    then Some(Resolved(candidate.value.level, source, candidate)) else found
  }

  /** The targets a component's grants may have: everything, its tags, its address chain. */
  function MatchingTargets(chain: seq<string>, tags: set<string>): set<Target> {
    {Everything} + TagTargets(tags) + ChainTargets(chain)
  }

  /** The raw grants on some targets decide a level: the highest of the default that is not `deny`
      and every such grant, none when there is neither, reported from a component over a tag, a tag
      over everything, and any grant over the default. */
  ghost predicate Decides(found: Option<Resolved>, default: Level, targets: set<Target>, raws: seq<Raw>) {
    match found
    case None => default == Deny && forall raw :: raw in raws ==> raw.target !in targets
    case Some(r) =>
      && (default != Deny ==> Order(default) <= Order(r.level))
      && (forall raw :: raw in raws && raw.target in targets ==> Order(raw.grant.level) <= Order(r.level))
      && (forall raw :: raw in raws && raw.target in targets && raw.grant.level == r.level ==>
            && (raw.target.OnComponent? ==> r.source == FromComponent)
            && (raw.target.OnTag? ==> r.source == FromComponent || r.source == FromTag)
            && r.source != Default)
      && match r.winner
         case None => r.source == Default && r.level == default != Deny
         case Some(grant) =>
           grant.level == r.level &&
           exists target :: target in targets && SourceOf(target) == r.source && Raw(target, grant) in raws
                            && Best(raws, target) == Some(grant)
  }

  lemma TakeFirst(default: Level, raws: seq<Raw>)
    ensures Decides(Taken(if default == Deny then None else Some(Resolved(default, Default, None)),
                          Best(raws, Everything), FromAll),
                    default, {Everything}, raws)
  {
    BestIsHighest(raws, Everything);
  }

  lemma TakeNext(found: Option<Resolved>, default: Level, targets: set<Target>, raws: seq<Raw>, target: Target)
    requires Decides(found, default, targets, raws)
    requires target.OnComponent? || forall t :: t in targets ==> !t.OnComponent?
    requires target.Everything? ==> forall t :: t in targets ==> t.Everything?
    ensures Decides(Taken(found, Best(raws, target), SourceOf(target)), default, targets + {target}, raws)
  {
    BestIsHighest(raws, target);
    var best := Best(raws, target);
    var taken := Taken(found, best, SourceOf(target));
    forall raw | raw in raws && raw.target in targets + {target}
      ensures taken.Some? && Order(raw.grant.level) <= Order(taken.value.level)
      ensures taken.Some? &&
              (raw.grant.level == taken.value.level ==>
                 && (raw.target.OnComponent? ==> taken.value.source == FromComponent)
                 && (raw.target.OnTag? ==> taken.value.source == FromComponent || taken.value.source == FromTag))
    {
    }
    if taken.Some? && taken.value.winner.Some? {
      if taken == found {
        var old_ :| old_ in targets && SourceOf(old_) == found.value.source &&
          Raw(old_, found.value.winner.value) in raws && Best(raws, old_) == found.value.winner;
        assert old_ in targets + {target};
      } else {
        assert target in targets + {target};
      }
    }
  }

  /** A level no lower: none is lowest. */
  predicate NoLower(found: Option<Resolved>, than: Option<Resolved>) {
    than.None? || (found.Some? && Order(found.value.level) >= Order(than.value.level))
  }

  /** One more grant, wherever it is put in the list, never lowers what is decided, and whatever
      the order of the grants the level is the same. */
  lemma MoreGrantsNeverLower(found: Option<Resolved>, more: Option<Resolved>, default: Level, targets: set<Target>,
                             raws: seq<Raw>, moreRaws: seq<Raw>)
    requires Decides(found, default, targets, raws) && Decides(more, default, targets, moreRaws)
    requires forall raw :: raw in raws ==> raw in moreRaws
    ensures NoLower(more, found)
    ensures (forall raw :: raw in moreRaws ==> raw in raws) ==>
              (more.None? <==> found.None?)
              && (found.Some? ==> more.value.level == found.value.level && more.value.source == found.value.source)
  {
    if found.Some? && found.value.winner.Some? {
      var target :| target in targets && SourceOf(target) == found.value.source &&
        Raw(target, found.value.winner.value) in raws;
      assert Raw(target, found.value.winner.value) in moreRaws;
    }
    if more.Some? && more.value.winner.Some? {
      var target :| target in targets && SourceOf(target) == more.value.source &&
        Raw(target, more.value.winner.value) in moreRaws;
    }
  }
}
