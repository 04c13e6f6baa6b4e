/**
 The accessibility bridge's search for the first node satisfying a predicate: an explicit stack
 with limits on nodes and depth, against the recursive search in document order. Nodes are
 identities; `children` is what the toolkit reports, which need not be a tree.
 */
module FirstDescendant {
  import opened Options
  import opened Sequences

  type Node = nat

  type Children = Node -> seq<Node>

  // ---------- the recursive search ----------

  /** The first match in document order at most `depth` levels down. */
  function Search(children: Children, matches: Node -> bool, node: Node, depth: nat): Option<Node>
    decreases depth, 0
  {
    if matches(node) then Some(node)
    else if depth == 0 then None
    else SearchAll(children, matches, children(node), depth - 1)
  }

  function SearchAll(children: Children, matches: Node -> bool, nodes: seq<Node>, depth: nat): Option<Node>
    decreases depth, |nodes|
  {
    if nodes == [] then None
    else
      var found := Search(children, matches, nodes[0], depth);
      if found.Some? then found else SearchAll(children, matches, nodes[1..], depth)
  }

  /** The nodes in document order, at most `depth` levels down. */
  function Preorder(children: Children, node: Node, depth: nat): seq<Node>
    decreases depth, 0
  {
    [node] + if depth == 0 then [] else PreorderAll(children, children(node), depth - 1)
  }

  function PreorderAll(children: Children, nodes: seq<Node>, depth: nat): seq<Node>
    decreases depth, |nodes|
  {
    if nodes == [] then []
    else Preorder(children, nodes[0], depth) + PreorderAll(children, nodes[1..], depth)
  }

  function FirstMatch(matches: Node -> bool, nodes: seq<Node>): Option<Node> {
    if nodes == [] then None
    else if matches(nodes[0]) then Some(nodes[0])
    else FirstMatch(matches, nodes[1..])
  }

  lemma {:induction false} MatchInConcat(matches: Node -> bool, a: seq<Node>, b: seq<Node>)
    ensures FirstMatch(matches, a + b)
         == if FirstMatch(matches, a).Some? then FirstMatch(matches, a) else FirstMatch(matches, b)
    decreases |a|
  {
    if a == [] {
      assert a + b == b;
    } else {
      assert (a + b)[1..] == a[1..] + b;
      MatchInConcat(matches, a[1..], b);
    }
  }

  /** The recursive search finds the first match of the document order. */
  lemma {:induction false} SearchIsFirstMatch(children: Children, matches: Node -> bool, node: Node, depth: nat)
    ensures Search(children, matches, node, depth) == FirstMatch(matches, Preorder(children, node, depth))
    decreases depth, 0
  {
    if depth > 0 {
      SearchAllIsFirstMatch(children, matches, children(node), depth - 1);
      assert Preorder(children, node, depth)[1..] == PreorderAll(children, children(node), depth - 1);
    }
  }

  lemma {:induction false} SearchAllIsFirstMatch(children: Children, matches: Node -> bool, nodes: seq<Node>,
                                                 depth: nat)
    ensures SearchAll(children, matches, nodes, depth) == FirstMatch(matches, PreorderAll(children, nodes, depth))
    decreases depth, |nodes|
  {
    if nodes != [] {
      SearchIsFirstMatch(children, matches, nodes[0], depth);
      SearchAllIsFirstMatch(children, matches, nodes[1..], depth);
      MatchInConcat(matches, Preorder(children, nodes[0], depth), PreorderAll(children, nodes[1..], depth));
    }
  }

  // ---------- what the recursive search finds ----------

  /** The node reached by taking each time the child of that number. */
  function NodeAt(children: Children, node: Node, path: seq<nat>): Option<Node>
    decreases |path|
  {
    if path == [] then Some(node)
    else if path[0] < |children(node)| then NodeAt(children, children(node)[path[0]], path[1..])
    else None
  }

  /** Document order: a node stands before what is below it, and what is below an earlier child before the rest. */
  predicate Earlier(p: seq<nat>, q: seq<nat>) {
    q != [] && (p == [] || p[0] < q[0] || (p[0] == q[0] && Earlier(p[1..], q[1..])))
  }

  ghost predicate MatchesAt(children: Children, matches: Node -> bool, node: Node, depth: nat, path: seq<nat>) {
    |path| <= depth && NodeAt(children, node, path).Some? && matches(NodeAt(children, node, path).value)
  }

  /** The search finds a match exactly when some path of at most `depth` steps leads to one; then it finds what the
      earliest such path leads to. */
  lemma {:induction false} SearchFindsEarliest(children: Children, matches: Node -> bool, node: Node, depth: nat)
      returns (path: seq<nat>)
    ensures Search(children, matches, node, depth).None? ==>
              forall q :: !MatchesAt(children, matches, node, depth, q)
    ensures Search(children, matches, node, depth).Some? ==>
              && MatchesAt(children, matches, node, depth, path)
              && NodeAt(children, node, path) == Search(children, matches, node, depth)
              && forall q :: Earlier(q, path) ==> !MatchesAt(children, matches, node, depth, q)
    decreases depth, 0
  {
    path := [];
    if !matches(node) && depth > 0 {
      path := SearchAllFindsEarliest(children, matches, children(node), depth - 1);
      forall q | MatchesAt(children, matches, node, depth, q)
        ensures q != [] && MatchesBelow(children, matches, children(node), depth - 1, q)
      {
      }
    }
  }

  /** The path starts with the number of one of `nodes`. */
  ghost predicate MatchesBelow(children: Children, matches: Node -> bool, nodes: seq<Node>, depth: nat, path: seq<nat>)
  {
    path != [] && path[0] < |nodes| && MatchesAt(children, matches, nodes[path[0]], depth, path[1..])
  }

  lemma {:induction false} SearchAllFindsEarliest(children: Children, matches: Node -> bool, nodes: seq<Node>,
                                                  depth: nat)
      returns (path: seq<nat>)
    ensures SearchAll(children, matches, nodes, depth).None? ==>
              forall q :: !MatchesBelow(children, matches, nodes, depth, q)
    ensures SearchAll(children, matches, nodes, depth).Some? ==>
              && MatchesBelow(children, matches, nodes, depth, path)
              && NodeAt(children, nodes[path[0]], path[1..]) == SearchAll(children, matches, nodes, depth)
              && forall q :: Earlier(q, path) ==> !MatchesBelow(children, matches, nodes, depth, q)
    decreases depth, |nodes|
  {
    path := [];
    if nodes != [] {
      var first := SearchFindsEarliest(children, matches, nodes[0], depth);
      if Search(children, matches, nodes[0], depth).Some? {
        path := [0] + first;
        assert path[1..] == first;
      } else {
        var later := SearchAllFindsEarliest(children, matches, nodes[1..], depth);
        forall q | MatchesBelow(children, matches, nodes, depth, q)
          ensures q[0] > 0 && MatchesBelow(children, matches, nodes[1..], depth, [q[0] - 1] + q[1..])
        {
          assert ([q[0] - 1] + q[1..])[1..] == q[1..];
        }
        if SearchAll(children, matches, nodes[1..], depth).Some? {
          path := [later[0] + 1] + later[1..];
          assert path[1..] == later[1..];
          forall q | Earlier(q, path) && q != [] && q[0] > 0 ensures Earlier([q[0] - 1] + q[1..], later) {
            assert ([q[0] - 1] + q[1..])[1..] == q[1..];
          }
        }
      }
    }
  }

  // ---------- the explicit stack ----------

  datatype Frame = Frame(node: Node, depth: nat)

  /** What the stack still stands for, top first. */
  function Pending(children: Children, stack: seq<Frame>, maxDepth: nat): seq<Node> {
    if stack == [] then []
    else
      var top := stack[|stack| - 1];
      (if top.depth <= maxDepth then Preorder(children, top.node, maxDepth - top.depth) else [])
      + Pending(children, stack[..|stack| - 1], maxDepth)
  }

  /** The children of a node, pushed last to first. */
  function Frames(nodes: seq<Node>, depth: nat): seq<Frame> {
    seq(|nodes|, i requires 0 <= i < |nodes| => Frame(nodes[|nodes| - 1 - i], depth))
  }

  lemma {:induction false} FirstFrameIsOnTop(nodes: seq<Node>, depth: nat)
    requires nodes != []
    ensures Frames(nodes, depth) == Frames(nodes[1..], depth) + [Frame(nodes[0], depth)]
  {
  }

  lemma {:induction false} PendingOfPush(children: Children, stack: seq<Frame>, top: Frame, maxDepth: nat)
    requires top.depth <= maxDepth
    ensures Pending(children, stack + [top], maxDepth)
         == Preorder(children, top.node, maxDepth - top.depth) + Pending(children, stack, maxDepth)
  {
    assert (stack + [top])[..|stack|] == stack;
  }

  lemma {:induction false} PendingOfFrames(children: Children, stack: seq<Frame>, nodes: seq<Node>, depth: nat,
                                           maxDepth: nat)
    requires depth <= maxDepth
    ensures Pending(children, stack + Frames(nodes, depth), maxDepth)
         == PreorderAll(children, nodes, maxDepth - depth) + Pending(children, stack, maxDepth)
    decreases |nodes|
  {
    if nodes == [] {
      assert stack + Frames(nodes, depth) == stack;
    } else {
      var under := stack + Frames(nodes[1..], depth);
      FirstFrameIsOnTop(nodes, depth);
      assert stack + Frames(nodes, depth) == under + [Frame(nodes[0], depth)];
      PendingOfPush(children, under, Frame(nodes[0], depth), maxDepth);
      PendingOfFrames(children, stack, nodes[1..], depth, maxDepth);
      Associate(Preorder(children, nodes[0], maxDepth - depth), PreorderAll(children, nodes[1..], maxDepth - depth),
                Pending(children, stack, maxDepth));
    }
  }

  /** What the visit of a frame pushes. */
  function Kids(children: Children, top: Frame, maxDepth: nat): seq<Frame> {
    if top.depth < maxDepth then Frames(children(top.node), top.depth + 1) else []
  }

  /** What a visited frame leaves to its children. */
  function BelowNodes(children: Children, top: Frame, maxDepth: nat): seq<Node>
    requires top.depth <= maxDepth
  {
    if top.depth == maxDepth then [] else PreorderAll(children, children(top.node), maxDepth - top.depth - 1)
  }

  lemma {:induction false} PendingOfKids(children: Children, stack: seq<Frame>, top: Frame, maxDepth: nat)
    requires top.depth <= maxDepth
    ensures Pending(children, stack + Kids(children, top, maxDepth), maxDepth)
         == BelowNodes(children, top, maxDepth) + Pending(children, stack, maxDepth)
  {
    if top.depth < maxDepth {
      assert Kids(children, top, maxDepth) == Frames(children(top.node), top.depth + 1);
      assert BelowNodes(children, top, maxDepth)
          == PreorderAll(children, children(top.node), maxDepth - (top.depth + 1));
      PendingOfFrames(children, stack, children(top.node), top.depth + 1, maxDepth);
    } else {
      assert stack + Kids(children, top, maxDepth) == stack;
    }
  }

  lemma {:induction false} MoveFirst(before: seq<Node>, own: seq<Node>, rest: seq<Node>, node: Node, below: seq<Node>,
                                     after: seq<Node>)
    requires before == own + rest && own == [node] + below && after == below + rest
    ensures before == [node] + after
  {
  }

  /** Popping a frame moves its node from the pending nodes to the visited ones. */
  lemma {:induction false} PopStep(children: Children, stack: seq<Frame>, top: Frame, maxDepth: nat)
    requires top.depth <= maxDepth
    ensures Pending(children, stack + [top], maxDepth)
         == [top.node] + Pending(children, stack + Kids(children, top, maxDepth), maxDepth)
  {
    PendingOfPush(children, stack, top, maxDepth);
    PendingOfKids(children, stack, top, maxDepth);
    MoveFirst(Pending(children, stack + [top], maxDepth), Preorder(children, top.node, maxDepth - top.depth),
              Pending(children, stack, maxDepth), top.node,
              BelowNodes(children, top, maxDepth),
              Pending(children, stack + Kids(children, top, maxDepth), maxDepth));
  }

  /** Where the document order repeats no node, it is what was visited and then what is pending. */
  ghost predicate OnCourse(order: seq<Node>, visited: seq<Node>, pending: seq<Node>) {
    NoRepeats(order) ==> order == visited + pending
  }

  /** The nodes visited so far: each once, none a match. */
  ghost predicate Fruitless(matches: Node -> bool, visited: seq<Node>, seen: set<Node>) {
    NoRepeats(visited) && seen == Elements(visited) && FirstMatch(matches, visited).None?
  }

  /** Above `maxDepth` the children go on the stack, the last one first. */
  method PushChildren(children: Children, stack: seq<Frame>, top: Frame, maxDepth: nat) returns (pushed: seq<Frame>)
    ensures pushed == stack + Kids(children, top, maxDepth)
  {
    pushed := stack;
    var kids := Kids(children, top, maxDepth);
    if top.depth >= maxDepth {
      return;
    }
    var nodes := children(top.node);
    for i := 0 to |nodes|
      invariant pushed == stack + kids[..i]
    {
      pushed := pushed + [Frame(nodes[|nodes| - 1 - i], top.depth + 1)];
      assert kids[..i + 1] == kids[..i] + [kids[i]];
    }
    assert kids[..|nodes|] == kids;
  }

  /** Every frame stands for nodes of the document order. */
  ghost predicate Inside(children: Children, order: seq<Node>, stack: seq<Frame>, maxDepth: nat) {
    forall i :: 0 <= i < |stack| ==> FrameInside(children, order, stack[i], maxDepth)
  }

  ghost predicate FrameInside(children: Children, order: seq<Node>, frame: Frame, maxDepth: nat) {
    frame.depth <= maxDepth && Within(Preorder(children, frame.node, maxDepth - frame.depth), order)
  }

  ghost predicate Within(nodes: seq<Node>, order: seq<Node>) {
    forall node :: node in nodes ==> node in order
  }

  lemma {:induction false} ChildWithin(children: Children, nodes: seq<Node>, i: nat, depth: nat)
    requires i < |nodes|
    ensures Within(Preorder(children, nodes[i], depth), PreorderAll(children, nodes, depth))
    decreases i
  {
    if i > 0 {
      ChildWithin(children, nodes[1..], i - 1, depth);
      assert nodes[1..][i - 1] == nodes[i];
    }
  }

  lemma {:induction false} TopInside(children: Children, order: seq<Node>, stack: seq<Frame>, top: Frame, maxDepth: nat)
    requires Inside(children, order, stack + [top], maxDepth)
    ensures Inside(children, order, stack, maxDepth) && FrameInside(children, order, top, maxDepth)
  {
    assert (stack + [top])[|stack|] == top;
    forall i | 0 <= i < |stack| ensures FrameInside(children, order, stack[i], maxDepth) {
      assert (stack + [top])[i] == stack[i];
    }
  }

  /** Below a frame inside the order lie the frame's own node and its children. */
  lemma {:induction false} BelowWithin(children: Children, order: seq<Node>, top: Frame, maxDepth: nat)
    requires FrameInside(children, order, top, maxDepth)
    ensures top.node in order
    ensures top.depth < maxDepth ==> Within(PreorderAll(children, children(top.node), maxDepth - top.depth - 1), order)
  {
    var nodes := Preorder(children, top.node, maxDepth - top.depth);
    assert top.node in nodes;
    if top.depth < maxDepth {
      var below := PreorderAll(children, children(top.node), maxDepth - top.depth - 1);
      assert nodes == [top.node] + below;
      forall x | x in below ensures x in order { assert x in nodes; }
    }
  }

  lemma {:induction false} FramesInside(children: Children, order: seq<Node>, nodes: seq<Node>, depth: nat,
                                        maxDepth: nat)
    requires depth <= maxDepth && Within(PreorderAll(children, nodes, maxDepth - depth), order)
    ensures Inside(children, order, Frames(nodes, depth), maxDepth)
  {
    var frames := Frames(nodes, depth);
    forall i | 0 <= i < |frames| ensures FrameInside(children, order, frames[i], maxDepth) {
      ChildWithin(children, nodes, |nodes| - 1 - i, maxDepth - depth);
    }
  }

  lemma {:induction false} BothInside(children: Children, order: seq<Node>, a: seq<Frame>, b: seq<Frame>, maxDepth: nat)
    requires Inside(children, order, a, maxDepth) && Inside(children, order, b, maxDepth)
    ensures Inside(children, order, a + b, maxDepth)
  {
  }

  lemma {:induction false} OwnKidsInside(children: Children, order: seq<Node>, top: Frame, maxDepth: nat)
    requires FrameInside(children, order, top, maxDepth)
    ensures Inside(children, order, Kids(children, top, maxDepth), maxDepth)
  {
    if top.depth < maxDepth {
      BelowWithin(children, order, top, maxDepth);
      ChildFramesInside(children, order, children(top.node), top.depth, maxDepth);
    }
  }

  lemma {:induction false} ChildFramesInside(children: Children, order: seq<Node>, nodes: seq<Node>, depth: nat,
                                             maxDepth: nat)
    requires depth < maxDepth && Within(PreorderAll(children, nodes, maxDepth - depth - 1), order)
    ensures Inside(children, order, Frames(nodes, depth + 1), maxDepth)
  {
    assert maxDepth - (depth + 1) == maxDepth - depth - 1;
    FramesInside(children, order, nodes, depth + 1, maxDepth);
  }

  lemma {:induction false} KidsInside(children: Children, order: seq<Node>, stack: seq<Frame>, top: Frame,
                                      maxDepth: nat)
    requires Inside(children, order, stack + [top], maxDepth)
    ensures Inside(children, order, stack, maxDepth)
    ensures Inside(children, order, stack + Kids(children, top, maxDepth), maxDepth)
    ensures top.depth <= maxDepth && top.node in order
  {
    TopInside(children, order, stack, top, maxDepth);
    BelowWithin(children, order, top, maxDepth);
    OwnKidsInside(children, order, top, maxDepth);
    BothInside(children, order, stack, Kids(children, top, maxDepth), maxDepth);
  }

  /** The search between two turns of its loop. */
  ghost predicate Searching(children: Children, matches: Node -> bool, order: seq<Node>, maxDepth: nat,
                            visited: seq<Node>, seen: set<Node>, stack: seq<Frame>) {
    && Fruitless(matches, visited, seen)
    && Inside(children, order, stack, maxDepth) && Within(visited, order)
    && OnCourse(order, visited, Pending(children, stack, maxDepth))
  }

  lemma {:induction false} StartsSearching(children: Children, matches: Node -> bool, root: Node, maxDepth: nat)
    ensures Searching(children, matches, Preorder(children, root, maxDepth), maxDepth, [], {}, [Frame(root, 0)])
  {
    PendingOfRoot(children, root, maxDepth);
    RootInside(children, root, maxDepth);
  }

  lemma {:induction false} RootInside(children: Children, root: Node, maxDepth: nat)
    ensures Inside(children, Preorder(children, root, maxDepth), [Frame(root, 0)], maxDepth)
  {
    assert FrameInside(children, Preorder(children, root, maxDepth), Frame(root, 0), maxDepth);
  }

  lemma {:induction false} TurnIsOnCourse(children: Children, order: seq<Node>, visited: seq<Node>, stack: seq<Frame>,
                                          top: Frame, maxDepth: nat)
    requires top.depth <= maxDepth
    requires OnCourse(order, visited, Pending(children, stack + [top], maxDepth))
    ensures OnCourse(order, visited + [top.node], Pending(children, stack + Kids(children, top, maxDepth), maxDepth))
    ensures top.node in visited ==> !NoRepeats(order)
  {
    PopStep(children, stack, top, maxDepth);
    var pending := Pending(children, stack + Kids(children, top, maxDepth), maxDepth);
    Associate(visited, [top.node], pending);
    if NoRepeats(order) {
      assert order[|visited|] == top.node;
      assert forall i :: 0 <= i < |visited| ==> order[i] == visited[i];
    }
  }

  lemma {:induction false} SkipsSeen(children: Children, matches: Node -> bool, order: seq<Node>, maxDepth: nat,
                                     visited: seq<Node>, seen: set<Node>, stack: seq<Frame>, top: Frame)
    requires Searching(children, matches, order, maxDepth, visited, seen, stack + [top]) && top.node in seen
    ensures Searching(children, matches, order, maxDepth, visited, seen, stack)
  {
    KidsInside(children, order, stack, top, maxDepth);
    TurnIsOnCourse(children, order, visited, stack, top, maxDepth);
  }

  lemma {:induction false} FruitlessGrows(matches: Node -> bool, visited: seq<Node>, seen: set<Node>, node: Node)
    requires Fruitless(matches, visited, seen) && node !in seen && !matches(node)
    ensures Fruitless(matches, visited + [node], seen + {node})
  {
    MatchInConcat(matches, visited, [node]);
    ElementsAppend(visited, node);
  }

  lemma {:induction false} VisitsNew(children: Children, matches: Node -> bool, order: seq<Node>, maxDepth: nat,
                                     visited: seq<Node>, seen: set<Node>, stack: seq<Frame>, top: Frame)
    requires Searching(children, matches, order, maxDepth, visited, seen, stack + [top])
    requires top.node !in seen && !matches(top.node)
    ensures Searching(children, matches, order, maxDepth, visited + [top.node], seen + {top.node},
                      stack + Kids(children, top, maxDepth))
  {
    KidsInside(children, order, stack, top, maxDepth);
    TurnIsOnCourse(children, order, visited, stack, top, maxDepth);
    FruitlessGrows(matches, visited, seen, top.node);
  }

  lemma {:induction false} FindsNew(children: Children, matches: Node -> bool, order: seq<Node>, maxDepth: nat,
                                    visited: seq<Node>, seen: set<Node>, stack: seq<Frame>, top: Frame)
    requires Searching(children, matches, order, maxDepth, visited, seen, stack + [top])
    requires top.node !in seen && matches(top.node)
    ensures NoRepeats(visited + [top.node]) && Within(visited + [top.node], order)
    ensures NoRepeats(order) ==> visited + [top.node] <= order
    ensures FirstMatch(matches, visited + [top.node]) == Some(top.node)
  {
    KidsInside(children, order, stack, top, maxDepth);
    TurnIsOnCourse(children, order, visited, stack, top, maxDepth);
    MatchInConcat(matches, visited, [top.node]);
  }

  lemma {:induction false} Exhausted(children: Children, matches: Node -> bool, order: seq<Node>, maxDepth: nat,
                                     visited: seq<Node>, seen: set<Node>, stack: seq<Frame>)
    requires Searching(children, matches, order, maxDepth, visited, seen, stack)
    ensures NoRepeats(visited) && Within(visited, order)
    ensures NoRepeats(order) ==> visited <= order && (stack == [] ==> visited == order)
  {
    if stack == [] { assert visited + [] == visited; }
  }

  // ---------- what the search has walked ----------

  /** The frame is the root's, or that of a child of a frame walked before. */
  ghost predicate Known(children: Children, root: Node, maxDepth: nat, trail: seq<Frame>, frame: Frame) {
    || frame == Frame(root, 0)
    || exists j :: 0 <= j < |trail| && trail[j].depth < maxDepth
                && frame.node in children(trail[j].node) && frame.depth == trail[j].depth + 1
  }

  /** `trail` are the frames of the visited nodes: each the root's or that of a child of an earlier one. */
  ghost predicate Walks(children: Children, root: Node, maxDepth: nat, visited: seq<Node>, trail: seq<Frame>) {
    && |trail| == |visited|
    && (forall i :: 0 <= i < |trail| ==> trail[i].node == visited[i])
    && (forall i :: 0 <= i < |trail| ==> Known(children, root, maxDepth, trail[..i], trail[i]))
  }

  ghost predicate Met(visited: seq<Node>, stack: seq<Frame>, node: Node) {
    node in visited || exists k :: 0 <= k < |stack| && stack[k].node == node
  }

  /** The root, and every child of a node visited above `maxDepth`, has been visited or waits on the stack. */
  ghost predicate Reached(children: Children, root: Node, maxDepth: nat, visited: seq<Node>, trail: seq<Frame>,
                          stack: seq<Frame>) {
    && Met(visited, stack, root)
    && (forall i, child :: 0 <= i < |trail| && trail[i].depth < maxDepth && child in children(trail[i].node) ==>
          Met(visited, stack, child))
  }

  ghost predicate Walking(children: Children, root: Node, maxDepth: nat, visited: seq<Node>, trail: seq<Frame>,
                          stack: seq<Frame>) {
    && Walks(children, root, maxDepth, visited, trail)
    && Reached(children, root, maxDepth, visited, trail, stack)
    && (forall k :: 0 <= k < |stack| ==> Known(children, root, maxDepth, trail, stack[k]))
  }

  lemma {:induction false} StartsWalking(children: Children, root: Node, maxDepth: nat)
    ensures Walking(children, root, maxDepth, [], [], [Frame(root, 0)])
  {
    assert [Frame(root, 0)][0].node == root;
  }

  lemma {:induction false} MetWithoutTop(visited: seq<Node>, stack: seq<Frame>, top: Frame, node: Node)
    requires Met(visited, stack + [top], node)
    ensures Met(visited, stack, node) || node == top.node
  {
    if node !in visited {
      var k :| 0 <= k < |stack + [top]| && (stack + [top])[k].node == node;
      if k < |stack| { assert stack[k].node == node; }
    }
  }

  lemma {:induction false} MetLater(visited: seq<Node>, stack: seq<Frame>, more: seq<Node>, above: seq<Frame>,
                                    node: Node)
    requires Met(visited, stack, node)
    ensures Met(visited + more, stack + above, node)
  {
    if node !in visited {
      var k :| 0 <= k < |stack| && stack[k].node == node;
      assert (stack + above)[k].node == node;
    }
  }

  lemma {:induction false} KnownLater(children: Children, root: Node, maxDepth: nat, trail: seq<Frame>,
                                      more: seq<Frame>, frame: Frame)
    requires Known(children, root, maxDepth, trail, frame)
    ensures Known(children, root, maxDepth, trail + more, frame)
  {
    if frame != Frame(root, 0) {
      var j :| 0 <= j < |trail| && trail[j].depth < maxDepth
            && frame.node in children(trail[j].node) && frame.depth == trail[j].depth + 1;
      assert (trail + more)[j] == trail[j];
    }
  }

  lemma {:induction false} SkipWalks(children: Children, root: Node, maxDepth: nat, visited: seq<Node>,
                                     trail: seq<Frame>, stack: seq<Frame>, top: Frame)
    requires Walking(children, root, maxDepth, visited, trail, stack + [top]) && top.node in visited
    ensures Walking(children, root, maxDepth, visited, trail, stack)
  {
    MetWithoutTop(visited, stack, top, root);
    forall i, child | 0 <= i < |trail| && trail[i].depth < maxDepth && child in children(trail[i].node)
      ensures Met(visited, stack, child)
    {
      MetWithoutTop(visited, stack, top, child);
    }
    forall k | 0 <= k < |stack| ensures Known(children, root, maxDepth, trail, stack[k]) {
      assert (stack + [top])[k] == stack[k];
    }
  }

  lemma {:induction false} TrailGrows(children: Children, root: Node, maxDepth: nat, visited: seq<Node>,
                                      trail: seq<Frame>, stack: seq<Frame>, top: Frame)
    requires Walking(children, root, maxDepth, visited, trail, stack + [top])
    ensures Walks(children, root, maxDepth, visited + [top.node], trail + [top])
  {
    assert (stack + [top])[|stack|] == top;
    var longer := trail + [top];
    forall i | 0 <= i < |longer| ensures Known(children, root, maxDepth, longer[..i], longer[i]) {
      assert longer[..i] == trail[..i];
      if i == |trail| { assert trail[..i] == trail; }
    }
  }

  lemma {:induction false} KidsAreMet(children: Children, maxDepth: nat, visited: seq<Node>, stack: seq<Frame>,
                                      top: Frame, child: Node)
    requires top.depth < maxDepth && child in children(top.node)
    ensures Met(visited, stack + Kids(children, top, maxDepth), child)
  {
    var nodes, kids := children(top.node), Kids(children, top, maxDepth);
    var i :| 0 <= i < |nodes| && nodes[i] == child;
    assert kids[|nodes| - 1 - i].node == child;
    assert (stack + kids)[|stack| + (|nodes| - 1 - i)].node == child;
  }

  lemma {:induction false} VisitReaches(children: Children, root: Node, maxDepth: nat, visited: seq<Node>,
                                        trail: seq<Frame>, stack: seq<Frame>, top: Frame)
    requires Walking(children, root, maxDepth, visited, trail, stack + [top])
    ensures Reached(children, root, maxDepth, visited + [top.node], trail + [top],
            stack + Kids(children, top, maxDepth))
  {
    var more, kids := visited + [top.node], Kids(children, top, maxDepth);
    MetWithoutTop(visited, stack, top, root);
    if root != top.node { MetLater(visited, stack, [top.node], kids, root); }
    forall i, child | 0 <= i <= |trail| && (trail + [top])[i].depth < maxDepth
                   && child in children((trail + [top])[i].node)
      ensures Met(more, stack + kids, child)
    {
      if i == |trail| {
        KidsAreMet(children, maxDepth, more, stack, top, child);
      } else {
        assert (trail + [top])[i] == trail[i];
        MetWithoutTop(visited, stack, top, child);
        if child != top.node { MetLater(visited, stack, [top.node], kids, child); }
      }
    }
  }

  lemma {:induction false} KidsAreKnown(children: Children, root: Node, maxDepth: nat, trail: seq<Frame>, top: Frame,
                                        k: nat)
    requires k < |Kids(children, top, maxDepth)|
    ensures Known(children, root, maxDepth, trail + [top], Kids(children, top, maxDepth)[k])
  {
    assert (trail + [top])[|trail|] == top;
  }

  lemma {:induction false} VisitWalks(children: Children, root: Node, maxDepth: nat, visited: seq<Node>,
                                      trail: seq<Frame>, stack: seq<Frame>, top: Frame)
    requires Walking(children, root, maxDepth, visited, trail, stack + [top])
    ensures Walking(children, root, maxDepth, visited + [top.node], trail + [top],
            stack + Kids(children, top, maxDepth))
  {
    TrailGrows(children, root, maxDepth, visited, trail, stack, top);
    VisitReaches(children, root, maxDepth, visited, trail, stack, top);
    var kids := Kids(children, top, maxDepth);
    forall k | 0 <= k < |stack + kids| ensures Known(children, root, maxDepth, trail + [top], (stack + kids)[k]) {
      if k < |stack| {
        assert (stack + [top])[k] == stack[k];
        KnownLater(children, root, maxDepth, trail, [top], stack[k]);
      } else {
        KidsAreKnown(children, root, maxDepth, trail, top, k - |stack|);
      }
    }
  }

  /** The root is visited, and so is every child of a node visited above `maxDepth`. */
  ghost predicate Covers(children: Children, root: Node, maxDepth: nat, visited: seq<Node>, trail: seq<Frame>) {
    && root in visited
    && (forall i, child :: 0 <= i < |trail| && trail[i].depth < maxDepth && child in children(trail[i].node) ==>
          child in visited)
  }

  lemma {:induction false} WalkEnds(children: Children, root: Node, maxDepth: nat, visited: seq<Node>,
                                    trail: seq<Frame>)
    requires Walking(children, root, maxDepth, visited, trail, [])
    ensures Covers(children, root, maxDepth, visited, trail)
  {
    assert Met(visited, [], root);
    forall i, child | 0 <= i < |trail| && trail[i].depth < maxDepth && child in children(trail[i].node)
      ensures child in visited
    {
      assert Met(visited, [], child);
    }
  }

  datatype Walk = Walk(visited: seq<Node>, trail: seq<Frame>, stack: seq<Frame>)

  /** One turn of the loop that does not find a match. */
  function Turn(children: Children, maxDepth: nat, w: Walk): Walk {
    if w.stack == [] then w
    else
      var top, below := w.stack[|w.stack| - 1], w.stack[..|w.stack| - 1];
      if top.node in w.visited then w.(stack := below)
      else Walk(w.visited + [top.node], w.trail + [top], below + Kids(children, top, maxDepth))
  }

  function After(children: Children, root: Node, maxDepth: nat, turns: nat): Walk {
    if turns == 0 then Walk([], [], [Frame(root, 0)])
    else Turn(children, maxDepth, After(children, root, maxDepth, turns - 1))
  }

  lemma {:induction false} AfterWalks(children: Children, root: Node, maxDepth: nat, turns: nat)
    ensures var w := After(children, root, maxDepth, turns);
            Walking(children, root, maxDepth, w.visited, w.trail, w.stack)
    decreases turns
  {
    if turns == 0 {
      StartsWalking(children, root, maxDepth);
    } else {
      AfterWalks(children, root, maxDepth, turns - 1);
      var w := After(children, root, maxDepth, turns - 1);
      if w.stack != [] {
        var top, below := w.stack[|w.stack| - 1], w.stack[..|w.stack| - 1];
        assert w.stack == below + [top];
        if top.node in w.visited {
          SkipWalks(children, root, maxDepth, w.visited, w.trail, below, top);
        } else {
          VisitWalks(children, root, maxDepth, w.visited, w.trail, below, top);
        }
      }
    }
  }

  lemma {:induction false} NextTurn(children: Children, root: Node, maxDepth: nat, turns: nat, visited: seq<Node>,
                                    trail: seq<Frame>, below: seq<Frame>, top: Frame)
    requires After(children, root, maxDepth, turns) == Walk(visited, trail, below + [top])
    ensures After(children, root, maxDepth, turns + 1)
         == if top.node in Elements(visited) then Walk(visited, trail, below)
            else Walk(visited + [top.node], trail + [top], below + Kids(children, top, maxDepth))
  {
    assert (below + [top])[..|below|] == below;
  }

  /** As long as nothing visited matches, the turns are those of the search. */
  lemma {:induction false} AfterSearches(children: Children, matches: Node -> bool, root: Node, maxDepth: nat,
                                         turns: nat)
    requires FirstMatch(matches, After(children, root, maxDepth, turns).visited).None?
    ensures var w := After(children, root, maxDepth, turns);
            Searching(children, matches, Preorder(children, root, maxDepth), maxDepth,
                      w.visited, Elements(w.visited), w.stack)
    decreases turns
  {
    if turns == 0 {
      StartsSearching(children, matches, root, maxDepth);
    } else {
      var w := After(children, root, maxDepth, turns - 1);
      if w.stack != [] {
        TurnSearches(children, matches, root, maxDepth, turns - 1);
      } else {
        AfterSearches(children, matches, root, maxDepth, turns - 1);
      }
    }
  }

  lemma {:induction false} TurnSearches(children: Children, matches: Node -> bool, root: Node, maxDepth: nat,
                                        turns: nat)
    requires After(children, root, maxDepth, turns).stack != []
    requires FirstMatch(matches, After(children, root, maxDepth, turns + 1).visited).None?
    ensures var w := After(children, root, maxDepth, turns + 1);
            Searching(children, matches, Preorder(children, root, maxDepth), maxDepth,
                      w.visited, Elements(w.visited), w.stack)
    decreases turns + 1, 0
  {
    var order, w := Preorder(children, root, maxDepth), After(children, root, maxDepth, turns);
    var top, below := w.stack[|w.stack| - 1], w.stack[..|w.stack| - 1];
    assert w.stack == below + [top];
    if top.node in w.visited {
      AfterSearches(children, matches, root, maxDepth, turns);
      SkipsSeen(children, matches, order, maxDepth, w.visited, Elements(w.visited), below, top);
    } else {
      MatchInConcat(matches, w.visited, [top.node]);
      AfterSearches(children, matches, root, maxDepth, turns);
      VisitsNew(children, matches, order, maxDepth, w.visited, Elements(w.visited), below, top);
      ElementsAppend(w.visited, top.node);
    }
  }

  /** What the search may report of the nodes it visited. */
  ghost predicate Reports(children: Children, root: Node, maxDepth: nat, visited: seq<Node>, trail: seq<Frame>) {
    && NoRepeats(visited) && Walks(children, root, maxDepth, visited, trail)
    && Within(visited, Preorder(children, root, maxDepth))
    && (NoRepeats(Preorder(children, root, maxDepth)) ==> visited <= Preorder(children, root, maxDepth))
  }

  lemma {:induction false} MatchIsReported(children: Children, matches: Node -> bool, root: Node, maxDepth: nat,
                                           turns: nat, w: Walk, below: seq<Frame>, top: Frame)
    requires w == After(children, root, maxDepth, turns) && w.stack == below + [top]
    requires FirstMatch(matches, w.visited).None? && top.node !in Elements(w.visited) && matches(top.node)
    ensures Reports(children, root, maxDepth, w.visited + [top.node], w.trail + [top])
    ensures FirstMatch(matches, w.visited + [top.node]) == Some(top.node)
  {
    AfterSearches(children, matches, root, maxDepth, turns);
    var order := Preorder(children, root, maxDepth);
    FindsNew(children, matches, order, maxDepth, w.visited, Elements(w.visited), below, top);
    AfterWalks(children, root, maxDepth, turns);
    TrailGrows(children, root, maxDepth, w.visited, w.trail, below, top);
  }

  lemma {:induction false} NoMatchIsReported(children: Children, matches: Node -> bool, root: Node, maxDepth: nat,
                                             turns: nat, w: Walk)
    requires w == After(children, root, maxDepth, turns) && FirstMatch(matches, w.visited).None?
    ensures Reports(children, root, maxDepth, w.visited, w.trail)
    ensures w.stack == [] ==> Covers(children, root, maxDepth, w.visited, w.trail)
    ensures w.stack == [] && NoRepeats(Preorder(children, root, maxDepth)) ==>
              w.visited == Preorder(children, root, maxDepth)
  {
    AfterSearches(children, matches, root, maxDepth, turns);
    Exhausted(children, matches, Preorder(children, root, maxDepth), maxDepth, w.visited, Elements(w.visited), w.stack);
    AfterWalks(children, root, maxDepth, turns);
    if w.stack == [] { WalkEnds(children, root, maxDepth, w.visited, w.trail); }
  }

  lemma {:induction false} NoMatchGrows(matches: Node -> bool, visited: seq<Node>, node: Node)
    requires FirstMatch(matches, visited).None? && !matches(node)
    ensures FirstMatch(matches, visited + [node]).None?
  {
    MatchInConcat(matches, visited, [node]);
  }

  /** Visits at most `maxNodes` distinct nodes, none of which but the one found matches, each the root or a
      child of one visited before. On any graph a search that fails below `maxNodes` has visited the root and
      all children of the nodes it met above `maxDepth`. Where the document order repeats no node, the visited
      nodes are its beginning. */
  method Find(root: Node, children: Children, matches: Node -> bool, maxNodes: nat, maxDepth: nat)
      returns (found: Option<Node>, ghost visited: seq<Node>, ghost trail: seq<Frame>)
    ensures |visited| <= maxNodes && Reports(children, root, maxDepth, visited, trail)
    ensures found == FirstMatch(matches, visited)
    ensures found.Some? ==> matches(found.value)
    ensures found.None? && |visited| < maxNodes ==> Covers(children, root, maxDepth, visited, trail)
    ensures NoRepeats(Preorder(children, root, maxDepth)) && found.None? && |visited| < maxNodes ==>
              visited == Preorder(children, root, maxDepth)
  {
    var visitedCount := 0;
    var stack := [Frame(root, 0)];
    var seen: set<Node> := {};
    visited, trail := [], [];
    ghost var turns := 0;
    while |stack| > 0 && visitedCount < maxNodes
      invariant visitedCount == |visited| <= maxNodes && seen == Elements(visited)
      invariant Walk(visited, trail, stack) == After(children, root, maxDepth, turns)
      invariant FirstMatch(matches, visited).None?
      decreases maxNodes - visitedCount, |stack|
    {
      var top, below := stack[|stack| - 1], stack[..|stack| - 1];
      assert stack == below + [top];
      stack := below;
      NextTurn(children, root, maxDepth, turns, visited, trail, below, top);
      if top.node in seen {
        turns := turns + 1;
        continue;
      }
      seen := seen + {top.node};
      visitedCount := visitedCount + 1;
      if matches(top.node) {
        MatchIsReported(children, matches, root, maxDepth, turns, Walk(visited, trail, below + [top]), below, top);
        return Some(top.node), visited + [top.node], trail + [top];
      }
      ElementsAppend(visited, top.node);
      NoMatchGrows(matches, visited, top.node);
      visited, trail, turns := visited + [top.node], trail + [top], turns + 1;
      stack := PushChildren(children, below, top, maxDepth);
    }
    NoMatchIsReported(children, matches, root, maxDepth, turns, Walk(visited, trail, stack));
    return None, visited, trail;
  }

  lemma {:induction false} PendingOfRoot(children: Children, root: Node, maxDepth: nat)
    ensures Pending(children, [Frame(root, 0)], maxDepth) == Preorder(children, root, maxDepth)
    ensures [] + Preorder(children, root, maxDepth) == Preorder(children, root, maxDepth)
  {
    assert [Frame(root, 0)][..0] == [];
  }

  lemma {:induction false} MatchInPrefix(matches: Node -> bool, prefix: seq<Node>, nodes: seq<Node>)
    requires prefix <= nodes
    ensures FirstMatch(matches, prefix).Some? ==> FirstMatch(matches, prefix) == FirstMatch(matches, nodes)
  {
    assert nodes == prefix + nodes[|prefix|..];
    MatchInConcat(matches, prefix, nodes[|prefix|..]);
  }

  /** On a tree within the limits the stack search is the recursive search. */
  method FindInTree(root: Node, children: Children, matches: Node -> bool, maxNodes: nat, maxDepth: nat)
      returns (found: Option<Node>)
    requires NoRepeats(Preorder(children, root, maxDepth)) && |Preorder(children, root, maxDepth)| <= maxNodes
    ensures found == Search(children, matches, root, maxDepth)
  {
    ghost var visited, trail;
    found, visited, trail := Find(root, children, matches, maxNodes, maxDepth);
    ghost var order := Preorder(children, root, maxDepth);
    assert |visited| == maxNodes ==> visited == order;
    MatchInPrefix(matches, visited, order);
    SearchIsFirstMatch(children, matches, root, maxDepth);
  }
}
