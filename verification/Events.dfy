/** An event's way through the component tree: onto the stream of every node up to the root, then
    once to each node it concerns. */
module Events {
  type Node = nat
  type Event = nat
  type Received = map<Node, seq<Event>>

  /** The containers above a node, the node first and its root last. */
  ghost function Chain(container: map<Node, Node>, depth: map<Node, nat>, n: Node): (chain: seq<Node>)
    requires Grounded(container, depth)
    ensures chain != [] && chain[0] == n && chain[|chain| - 1] !in container
    ensures forall i :: 0 <= i < |chain| - 1 ==> chain[i] in container && chain[i + 1] == container[chain[i]]
    decreases if n in container then depth[n] + 1 else 0
  {
    if n in container then [n] + Chain(container, depth, container[n]) else [n]
  }

  /** Containment has no cycle: a container sits higher than what it contains. */
  ghost predicate Grounded(container: map<Node, Node>, depth: map<Node, nat>) {
    forall n :: n in container ==> n in depth && container[n] in depth && depth[container[n]] < depth[n]
  }

  function Of(received: Received, n: Node): seq<Event> {
    if n in received then received[n] else []
  }

  function Put(received: Received, n: Node, event: Event): Received {
    received[n := Of(received, n) + [event]]
  }

  /** Each of some nodes got the event once more, every other node nothing. */
  ghost predicate OnceEach(before: Received, after: Received, nodes: set<Node>, event: Event) {
    forall n :: Of(after, n) == Of(before, n) + if n in nodes then [event] else []
  }

  // ---------------------------------------------------------------- the tree

  /** Each container lists exactly what it contains, each once. */
  ghost predicate Tree(container: map<Node, Node>, children: map<Node, seq<Node>>, depth: map<Node, nat>) {
    && Grounded(container, depth)
    && (forall n :: n in container ==> container[n] in children && n in children[container[n]])
    && (forall n, i :: n in children && 0 <= i < |children[n]| ==>
          children[n][i] in container && container[children[n][i]] == n)
    && (forall n, i, j :: n in children && 0 <= i < j < |children[n]| ==> children[n][i] != children[n][j])
  }

  function Children(children: map<Node, seq<Node>>, n: Node): seq<Node> {
    if n in children then children[n] else []
  }

  ghost function Deeper(depth: map<Node, nat>, n: Node): set<Node> {
    set x | x in depth && n in depth && depth[n] < depth[x]
  }

  lemma ChildIsDeeper(container: map<Node, Node>, depth: map<Node, nat>, child: Node)
    requires Grounded(container, depth) && child in container
    ensures Deeper(depth, child) < Deeper(depth, container[child])
  {
    assert child in Deeper(depth, container[child]);
  }

  /** A node and everything below it, each before what it contains. */
  ghost function Preorder(container: map<Node, Node>, children: map<Node, seq<Node>>, depth: map<Node, nat>,
                          n: Node): seq<Node>
    requires Tree(container, children, depth)
    decreases Deeper(depth, n), 1, 0
  {
    [n] + PreorderAll(container, children, depth, n, Children(children, n))
  }

  ghost function PreorderAll(container: map<Node, Node>, children: map<Node, seq<Node>>, depth: map<Node, nat>,
                             n: Node, kids: seq<Node>): seq<Node>
    requires Tree(container, children, depth) && forall kid :: kid in kids ==> kid in container && container[kid] == n
    decreases Deeper(depth, n), 0, |kids|
  {
    if kids == [] then []
    else
      ChildIsDeeper(container, depth, kids[0]);
      Preorder(container, children, depth, kids[0]) + PreorderAll(container, children, depth, n, kids[1..])
  }

  lemma {:induction false} ChainDescends(container: map<Node, Node>, depth: map<Node, nat>, n: Node, i: nat, j: nat)
    requires Grounded(container, depth) && i < j < |Chain(container, depth, n)|
    ensures var chain := Chain(container, depth, n);
            chain[i] in depth && chain[j] in depth && depth[chain[j]] < depth[chain[i]]
    decreases j
  {
    var chain := Chain(container, depth, n);
    assert chain[j - 1] in container && chain[j] == container[chain[j - 1]];
    if i < j - 1 {
      ChainDescends(container, depth, n, i, j - 1);
    }
  }

  lemma ChainGoesUp(container: map<Node, Node>, depth: map<Node, nat>, x: Node, n: Node)
    requires Grounded(container, depth) && n in Chain(container, depth, x) && n in container
    ensures container[n] in Chain(container, depth, x)
  {
    var chain := Chain(container, depth, x);
    var i :| 0 <= i < |chain| && chain[i] == n;
    assert chain[i + 1] == container[n];
  }

  /** A node above another contains one of its containers, or itself is it. */
  lemma ChainComesFrom(container: map<Node, Node>, depth: map<Node, nat>, x: Node, n: Node) returns (child: Node)
    requires Grounded(container, depth) && n in Chain(container, depth, x) && n != x
    ensures child in Chain(container, depth, x) && child in container && container[child] == n
  {
    var chain := Chain(container, depth, x);
    var i :| 0 <= i < |chain| && chain[i] == n;
    assert i > 0;
    child := chain[i - 1];
  }

  /** Two nodes above a third inside the same container are one. */
  lemma OneWayUp(container: map<Node, Node>, depth: map<Node, nat>, x: Node, a: Node, b: Node)
    requires Grounded(container, depth) && a in Chain(container, depth, x) && b in Chain(container, depth, x)
    requires a in container && b in container && container[a] == container[b]
    ensures a == b
  {
    var chain := Chain(container, depth, x);
    var i :| 0 <= i < |chain| && chain[i] == a;
    var j :| 0 <= j < |chain| && chain[j] == b;
    assert i < |chain| - 1 && j < |chain| - 1;
    if i < j {
      ChainDescends(container, depth, x, i + 1, j + 1);
    } else if j < i {
      ChainDescends(container, depth, x, j + 1, i + 1);
    }
  }

  /** The walk below a node lists exactly the nodes with it above them. */
  lemma {:induction false} PreorderHolds(container: map<Node, Node>, children: map<Node, seq<Node>>,
                                         depth: map<Node, nat>, n: Node, x: Node)
    requires Tree(container, children, depth)
    ensures x in Preorder(container, children, depth, n) <==> n in Chain(container, depth, x)
    decreases Deeper(depth, n), 1, 0
  {
    var kids := Children(children, n);
    PreorderAllHolds(container, children, depth, n, kids, x);
    if n in Chain(container, depth, x) && n != x {
      var child := ChainComesFrom(container, depth, x, n);
      assert child in kids;
    }
    if kid :| kid in kids && kid in Chain(container, depth, x) {
      ChainGoesUp(container, depth, x, kid);
    }
  }

  lemma {:induction false} PreorderAllHolds(container: map<Node, Node>, children: map<Node, seq<Node>>,
                                            depth: map<Node, nat>,
                                            n: Node, kids: seq<Node>, x: Node)
    requires Tree(container, children, depth) && forall kid :: kid in kids ==> kid in container && container[kid] == n
    ensures x in PreorderAll(container, children, depth, n, kids) <==>
            exists kid :: kid in kids && kid in Chain(container, depth, x)
    decreases Deeper(depth, n), 0, |kids|
  {
    if kids != [] {
      ChildIsDeeper(container, depth, kids[0]);
      PreorderHolds(container, children, depth, kids[0], x);
      PreorderAllHolds(container, children, depth, n, kids[1..], x);
    }
  }

  ghost predicate EachOnce(nodes: seq<Node>) {
    forall i, j :: 0 <= i < j < |nodes| ==> nodes[i] != nodes[j]
  }

  lemma {:induction false} PreorderOnce(container: map<Node, Node>, children: map<Node, seq<Node>>,
                                        depth: map<Node, nat>, n: Node)
    requires Tree(container, children, depth)
    ensures EachOnce(Preorder(container, children, depth, n))
    decreases Deeper(depth, n), 1, 0
  {
    var kids := Children(children, n);
    PreorderAllOnce(container, children, depth, n, kids);
    PreorderAllHolds(container, children, depth, n, kids, n);
    if kid :| kid in kids && kid in Chain(container, depth, n) {
      ChainHasNoCycle(container, depth, n, kid);
    }
  }

  lemma {:induction false} PreorderAllOnce(container: map<Node, Node>, children: map<Node, seq<Node>>,
                                           depth: map<Node, nat>,
                                           n: Node, kids: seq<Node>)
    requires Tree(container, children, depth) && forall kid :: kid in kids ==> kid in container && container[kid] == n
    requires EachOnce(kids)
    ensures EachOnce(PreorderAll(container, children, depth, n, kids))
    decreases Deeper(depth, n), 0, |kids|
  {
    if kids != [] {
      ChildIsDeeper(container, depth, kids[0]);
      PreorderOnce(container, children, depth, kids[0]);
      PreorderAllOnce(container, children, depth, n, kids[1..]);
      forall x | x in PreorderAll(container, children, depth, n, kids[1..])
        ensures x !in Preorder(container, children, depth, kids[0])
      {
        KidsApart(container, children, depth, n, kids, x);
      }
      hide Tree;
      OnceJoined(Preorder(container, children, depth, kids[0]), PreorderAll(container, children, depth, n, kids[1..]));
    }
  }

  lemma OnceJoined(a: seq<Node>, b: seq<Node>)
    requires EachOnce(a) && EachOnce(b) && forall x :: x in b ==> x !in a
    ensures EachOnce(a + b)
  {
    var all := a + b;
    forall i, j | 0 <= i < j < |all| ensures all[i] != all[j] {
      assert j >= |a| ==> all[j] in b;
    }
  }

  /** What is below one child is below no other. */
  lemma KidsApart(container: map<Node, Node>, children: map<Node, seq<Node>>, depth: map<Node, nat>, n: Node,
                  kids: seq<Node>, x: Node)
    requires Tree(container, children, depth) && forall kid :: kid in kids ==> kid in container && container[kid] == n
    requires kids != [] && EachOnce(kids) && x in PreorderAll(container, children, depth, n, kids[1..])
    ensures x !in Preorder(container, children, depth, kids[0])
  {
    PreorderHolds(container, children, depth, kids[0], x);
    PreorderAllHolds(container, children, depth, n, kids[1..], x);
    var kid :| kid in kids[1..] && kid in Chain(container, depth, x);
    var i :| 0 <= i < |kids[1..]| && kids[1..][i] == kid;
    assert kids[0] != kids[i + 1];
    if kids[0] in Chain(container, depth, x) {
      OneWayUp(container, depth, x, kids[0], kid);
    }
  }

  /** A root is above a node exactly when the node's containers end at it. */
  lemma RootIsLast(container: map<Node, Node>, depth: map<Node, nat>, root: Node, x: Node)
    requires Grounded(container, depth) && root !in container
    ensures root in Chain(container, depth, x) <==>
            Chain(container, depth, x)[|Chain(container, depth, x)| - 1] == root
  {
    var chain := Chain(container, depth, x);
    if i :| 0 <= i < |chain| && chain[i] == root {
      assert i == |chain| - 1;
    }
  }

  // ---------------------------------------------------------------- propagation

  class Nodes {
    /** The node containing a node, none for a root. */
    const container: map<Node, Node>
    /** What each node contains, in its registry's order. */
    const children: map<Node, seq<Node>>
    /** The components holding a reference to a component. */
    const referencers: map<Node, seq<Node>>
    ghost const depth: map<Node, nat>

    var streams: Received
    var handled: Received

    constructor (container: map<Node, Node>, children: map<Node, seq<Node>>, referencers: map<Node, seq<Node>>,
                 ghost depth: map<Node, nat>)
      ensures this.container == container && this.children == children
      ensures this.referencers == referencers && this.depth == depth
      ensures streams == handled == map[]
    {
      this.container, this.children, this.referencers, this.depth := container, children, referencers, depth;
      streams, handled := map[], map[];
    }

    function Referencers(component: Node): seq<Node> {
      if component in referencers then referencers[component] else []
    }

    /** Whether a node is a component of a root's tree: its containers end at the root. */
    ghost predicate InTree(root: Node, n: Node)
      requires Tree(container, children, depth)
    {
      var chain := Chain(container, depth, n);
      n != root && chain[|chain| - 1] == root
    }

    /** The nodes an event reaches from a root: the root, its components, and whatever refers
        directly to one of them. */
    ghost predicate Reaches(root: Node, n: Node)
      requires Tree(container, children, depth)
    {
      || n == root
      || InTree(root, n)
      || exists component :: InTree(root, component) && component in referencers && n in referencers[component]
    }

    /** Walks the tree below a node, the node first. */
    method Traverse(n: Node) returns (nodes: seq<Node>)
      requires Tree(container, children, depth)
      ensures nodes == Preorder(container, children, depth, n)
      decreases Deeper(depth, n)
    {
      nodes := [n];
      var kids := Children(children, n);
      for i := 0 to |kids|
        invariant [n] + PreorderAll(container, children, depth, n, kids)
                    == nodes + PreorderAll(container, children, depth, n, kids[i..])
      {
        ChildIsDeeper(container, depth, kids[i]);
        assert kids[i..][0] == kids[i] && kids[i..][1..] == kids[i + 1..];
        var below := Traverse(kids[i]);
        nodes := nodes + below;
      }
      assert kids[|kids|..] == [];
    }

    /** The components of a root's tree, each once: exactly those whose containers end at it. */
    method Components(root: Node) returns (components: seq<Node>)
      requires Tree(container, children, depth) && root !in container
      ensures EachOnce(components) && forall x :: x in components <==> InTree(root, x)
    {
      var nodes := Traverse(root);
      components := nodes[1..];
      PreorderOnce(container, children, depth, root);
      forall x ensures x in components <==> InTree(root, x) {
        PreorderHolds(container, children, depth, root, x);
        RootIsLast(container, depth, root, x);
        assert nodes == [root] + components;
      }
    }

    /** Handles the event at a node not seen yet. */
    method Visit(n: Node, event: Event, seen: set<Node>, ghost before: Received) returns (more: set<Node>)
      requires OnceEach(before, handled, seen, event)
      modifies this`handled
      ensures more == seen + {n} && OnceEach(before, handled, more, event)
    {
      more := seen;
      if n !in seen {
        more := seen + {n};
        ghost var earlier := handled;
        handled := Put(handled, n, event);
        forall x ensures Of(handled, x) == Of(before, x) + if x in more then [event] else [] {
          assert Of(earlier, x) == Of(before, x) + if x in seen then [event] else [];
        }
      }
    }

    method VisitAll(nodes: seq<Node>, event: Event, seen: set<Node>, ghost before: Received) returns (more: set<Node>)
      requires OnceEach(before, handled, seen, event)
      modifies this`handled
      ensures more == seen + set x | x in nodes
      ensures OnceEach(before, handled, more, event)
    {
      more := seen;
      for j := 0 to |nodes|
        invariant OnceEach(before, handled, more, event)
        invariant more == seen + set x | x in nodes[..j]
      {
        assert nodes[..j + 1] == nodes[..j] + [nodes[j]];
        more := Visit(nodes[j], event, more, before);
      }
      assert nodes[..|nodes|] == nodes;
    }

    /** A root's dispatch: itself, then each component with whatever refers to it. */
    method Dispatch(root: Node, event: Event) returns (ghost reached: set<Node>)
      requires Tree(container, children, depth) && root !in container
      modifies this`handled
      ensures OnceEach(old(handled), handled, reached, event)
      ensures forall x :: x in reached <==> Reaches(root, x)
    {
      var seen := Visit(root, event, {}, handled);
      var visited := Components(root);
      for i := 0 to |visited|
        invariant OnceEach(old(handled), handled, seen, event)
        invariant forall x :: x in seen <==> ReachedBy(root, visited[..i], x)
      {
        hide OnceEach;
        ghost var earlier := seen;
        seen := Visit(visited[i], event, seen, old(handled));
        seen := VisitAll(Referencers(visited[i]), event, seen, old(handled));
        forall x ensures x in seen <==> ReachedBy(root, visited[..i + 1], x) {
          ReachedStep(root, visited, i, x);
          assert x in earlier <==> ReachedBy(root, visited[..i], x);
        }
      }
      reached := seen;
      assert visited[..|visited|] == visited;
      forall x ensures x in reached <==> Reaches(root, x) {
        assert forall component :: component in visited <==> InTree(root, component);
      }
    }

    /** From any node: the event is put once on the stream of every node up to the root, then
        handled exactly once by each node it reaches from there, whatever refers to whatever. */
    method Propagate(n: Node, event: Event) returns (ghost reached: set<Node>)
      requires Tree(container, children, depth)
      modifies this
      ensures var chain := Chain(container, depth, n);
              && OnceEach(old(streams), streams, (set x | x in chain), event)
              && OnceEach(old(handled), handled, reached, event)
              && forall x :: x in reached <==> Reaches(chain[|chain| - 1], x)
      decreases if n in container then depth[n] + 1 else 0
    {
      ghost var before := streams;
      streams := Put(streams, n, event);
      ghost var put := streams;
      if n in container {
        reached := Propagate(container[n], event);
        ChainHasNoCycle(container, depth, container[n], n);
        PutThenRest(before, put, streams, n, Chain(container, depth, container[n]), event);
      } else {
        reached := Dispatch(n, event);
      }
    }

    ghost predicate ReachedBy(root: Node, visited: seq<Node>, n: Node) {
      n == root || n in visited || exists component :: component in visited && n in Referencers(component)
    }

    lemma ReachedStep(root: Node, visited: seq<Node>, i: nat, n: Node)
      requires i < |visited|
      ensures ReachedBy(root, visited[..i + 1], n) <==>
              (ReachedBy(root, visited[..i], n) || n == visited[i] || n in Referencers(visited[i]))
    {
      assert visited[..i + 1] == visited[..i] + [visited[i]];
    }
  }

  /** A node is not among the containers of a container below which it sits. */
  lemma {:induction false} ChainHasNoCycle(container: map<Node, Node>, depth: map<Node, nat>, n: Node, below: Node)
    requires Grounded(container, depth)
    requires below in depth && n in depth && depth[n] < depth[below]
    ensures below !in Chain(container, depth, n)
    decreases depth[n]
  {
    if n in container {
      ChainHasNoCycle(container, depth, container[n], below);
    }
  }

  lemma PutThenRest(before: Received, put: Received, after: Received, n: Node, rest: seq<Node>, event: Event)
    requires put == Put(before, n, event) && n !in rest
    requires OnceEach(put, after, (set x | x in rest), event)
    ensures OnceEach(before, after, (set x | x in [n] + rest), event)
  {
    forall x ensures Of(after, x) == Of(before, x) + if x in (set y | y in [n] + rest) then [event] else [] {
      assert Of(after, x) == Of(put, x) + if x in (set y | y in rest) then [event] else [];
    }
  }
}
