/**
 * The node graph of the landing-page animation (static/js/neural-network.js):
 * one central node, a node per project, a node per research paper and a
 * resume node; a spoke from every other node to the central one; and an edge
 * in both directions between nodes of different types whose technology
 * stacks share an entry.  Each frame updates the nodes' radii and picks the
 * hovered node.  Positions come from cos/sin placement and distances from the
 * mouse; both are inputs here.
 */
module NeuralNetwork {
  import opened Common

  datatype NodeType = Central | ProjectNode | ResearchNode | ResumeNode

  /** `stacks.some(tech => other.includes(tech))` */
  predicate Shares(stack: seq<string>, other: seq<string>) {
    exists t :: t in stack && t in other
  }

  /** A node of the graph; `kind` and `stack` (`data.stack`, if any) never change. */
  class Node {
    const kind: NodeType
    const stack: Option<seq<string>>
    var x: real
    var y: real
    var radius: real
    var baseRadius: real
    var hovered: bool
    var connections: seq<Node>

    /** `new Node(x, y, data, type)` */
    constructor(kind: NodeType, stack: Option<seq<string>>, x: real, y: real)
      ensures this.kind == kind && this.stack == stack && this.x == x && this.y == y
      ensures radius == (if kind == Central then 60.0 else 32.0) && baseRadius == radius
      ensures !hovered && connections == []
    {
      this.kind := kind;
      this.stack := stack;
      this.x := x;
      this.y := y;
      radius := if kind == Central then 60.0 else 32.0;
      baseRadius := if kind == Central then 60.0 else 32.0;
      hovered := false;
      connections := [];
    }

    /** `connect(node)`: appends. */
    method Connect(node: Node)
      modifies this
      ensures connections == old(connections) + [node]
      ensures x == old(x) && y == old(y) && radius == old(radius) && baseRadius == old(baseRadius)
      ensures hovered == old(hovered)
    {
      connections := connections + [node];
    }

    /**
     * `update(centerX, centerY, pulse)`: a non-central node moves to its orbit
     * position (px, py); every node takes the hover-scaled, pulsed radius.
     */
    method Update(px: real, py: real, pulse: real)
      modifies this
      ensures kind == Central ==> x == old(x) && y == old(y)
      ensures kind != Central ==> x == px && y == py
      ensures radius == ScaledRadius(baseRadius, hovered, pulse)
      ensures baseRadius == old(baseRadius) && hovered == old(hovered) && connections == old(connections)
    {
      if kind != Central {
        x := px;
        y := py;
      }
      radius := ScaledRadius(baseRadius, hovered, pulse);
    }

    /** `checkHover(p5, mouseX, mouseY)`, with `dist` the node's distance from the mouse. */
    method CheckHover(dist: real) returns (h: bool)
      modifies this
      ensures hovered == (dist < radius) && h == hovered
      ensures x == old(x) && y == old(y) && radius == old(radius) && baseRadius == old(baseRadius)
      ensures connections == old(connections)
    {
      hovered := dist < radius;
      h := hovered;
    }
  }

  /** The radius `new Node` gives: 60 for the central node, 32 for the others. */
  function InitialRadius(kind: NodeType): real {
    if kind == Central then 60.0 else 32.0
  }

  /** The state `new Node` leaves a node in, before any frame: radius and base radius initial, not hovered. */
  predicate AtRest(n: Node)
    reads n
  {
    n.radius == n.baseRadius == InitialRadius(n.kind) && !n.hovered
  }

  /** `baseRadius * (hovered ? 1.13 : 1) * pulse` */
  function ScaledRadius(baseRadius: real, hovered: bool, pulse: real): (r: real)
    ensures baseRadius > 0.0 && pulse > 0.0 ==> r > 0.0
    ensures hovered && baseRadius > 0.0 && pulse > 0.0 ==> r > ScaledRadius(baseRadius, false, pulse)
  {
    baseRadius * (if hovered then 1.13 else 1.0) * pulse
  }

  /** The edge rule of the setup loop for a pair of nodes. */
  predicate Linked(a: Node, b: Node) {
    a.kind != b.kind && a.stack.Some? && b.stack.Some? && Shares(a.stack.value, b.stack.value)
  }

  lemma LinkedSymmetric(a: Node, b: Node)
    ensures Linked(a, b) <==> Linked(b, a)
  {
    if Linked(a, b) {
      var t :| t in a.stack.value && t in b.stack.value;
      assert t in b.stack.value && t in a.stack.value;
    }
  }

  /**
   * The cross edges of node k among nodes[1..bound], in ascending index order:
   * the order in which the nested setup loop appends them.
   */
  function PartnersBelow(nodes: seq<Node>, k: nat, bound: nat): (r: seq<Node>)
    requires k < |nodes| && bound <= |nodes|
    ensures |r| < bound || bound == 0
    decreases bound
  {
    if bound <= 1 then []
    else PartnersBelow(nodes, k, bound - 1) +
         (if bound - 1 != k && Linked(nodes[k], nodes[bound - 1]) then [nodes[bound - 1]] else [])
  }

  /** Whether nodes[m] is among the partners of node k below `bound`. */
  lemma {:induction false} PartnersBelowMembers(nodes: seq<Node>, k: nat, bound: nat, m: nat)
    requires k < |nodes| && bound <= |nodes| && m < |nodes|
    requires forall a, b :: 0 <= a < b < |nodes| ==> nodes[a] != nodes[b]
    ensures nodes[m] in PartnersBelow(nodes, k, bound) <==> 1 <= m < bound && m != k && Linked(nodes[k], nodes[m])
    decreases bound
  {
    if bound > 1 {
      PartnersBelowMembers(nodes, k, bound - 1, m);
    }
  }

  /**
   * Cross edges are symmetric, never a self-loop, never between two nodes of
   * the same type, and never touch the central node (index 0).
   */
  lemma CrossEdges(nodes: seq<Node>, k: nat, m: nat)
    requires k < |nodes| && m < |nodes|
    requires forall a, b :: 0 <= a < b < |nodes| ==> nodes[a] != nodes[b]
    ensures 1 <= k && 1 <= m ==>
      (nodes[m] in PartnersBelow(nodes, k, |nodes|) <==> nodes[k] in PartnersBelow(nodes, m, |nodes|))
    ensures nodes[k] !in PartnersBelow(nodes, k, |nodes|)
    ensures nodes[m] in PartnersBelow(nodes, k, |nodes|) ==> nodes[m].kind != nodes[k].kind
    ensures nodes[0] !in PartnersBelow(nodes, k, |nodes|)
    ensures 1 <= k ==> nodes[k] !in [nodes[0]] + PartnersBelow(nodes, k, |nodes|)
  {
    PartnersBelowMembers(nodes, k, |nodes|, m);
    PartnersBelowMembers(nodes, m, |nodes|, k);
    PartnersBelowMembers(nodes, k, |nodes|, k);
    PartnersBelowMembers(nodes, k, |nodes|, 0);
    LinkedSymmetric(nodes[k], nodes[m]);
  }

  /** How far the setup loop at (i, j) has got with node k's cross edges. */
  function Reached(k: nat, i: nat, j: nat, n: nat): nat {
    if k < i then n else if k == i then j else if j > k then i + 1 else i
  }

  /**
   * `p5.setup`'s graph construction: `projects` and `research` are the
   * `stack` fields of the project and research data.  The nodes come in
   * order central, projects, research papers, resume.
   */
  method Setup(projects: seq<Option<seq<string>>>, research: seq<Option<seq<string>>>, cx: real, cy: real)
    returns (nodes: seq<Node>)
    ensures |nodes| == 2 + |projects| + |research|
    ensures forall k :: 0 <= k < |nodes| ==> fresh(nodes[k])
    ensures forall a, b :: 0 <= a < b < |nodes| ==> nodes[a] != nodes[b]
    ensures nodes[0].kind == Central && nodes[0].stack.None?
    ensures forall k :: 1 <= k <= |projects| ==> nodes[k].kind == ProjectNode && nodes[k].stack == projects[k - 1]
    ensures forall k :: 1 + |projects| <= k < |nodes| - 1 ==>
      nodes[k].kind == ResearchNode && nodes[k].stack == research[k - 1 - |projects|]
    ensures nodes[|nodes| - 1].kind == ResumeNode && nodes[|nodes| - 1].stack.None?
    ensures forall k :: 0 <= k < |nodes| ==> AtRest(nodes[k])
    ensures nodes[0].connections == []
    ensures forall k :: 1 <= k < |nodes| ==> nodes[k].connections == [nodes[0]] + PartnersBelow(nodes, k, |nodes|)
  {
    nodes := CreateNodes(projects, research, cx, cy);
    ghost var layout := Layout(nodes);
    assert forall k :: 0 <= k < |nodes| ==> AtRest(nodes[k]);
    ConnectCrossEdges(nodes);
    forall k | 0 <= k < |nodes|
      ensures AtRest(nodes[k])
    {
      assert Layout(nodes)[k] == layout[k];
    }
  }

  /** The node-creating part of the setup: every node gets its spoke to the central node. */
  method CreateNodes(projects: seq<Option<seq<string>>>, research: seq<Option<seq<string>>>, cx: real, cy: real)
    returns (nodes: seq<Node>)
    ensures |nodes| == 2 + |projects| + |research|
    ensures forall k :: 0 <= k < |nodes| ==> fresh(nodes[k])
    ensures forall a, b :: 0 <= a < b < |nodes| ==> nodes[a] != nodes[b]
    ensures nodes[0].kind == Central && nodes[0].stack.None?
    ensures forall k :: 1 <= k <= |projects| ==> nodes[k].kind == ProjectNode && nodes[k].stack == projects[k - 1]
    ensures forall k :: 1 + |projects| <= k < |nodes| - 1 ==>
      nodes[k].kind == ResearchNode && nodes[k].stack == research[k - 1 - |projects|]
    ensures nodes[|nodes| - 1].kind == ResumeNode && nodes[|nodes| - 1].stack.None?
    ensures forall k :: 0 <= k < |nodes| ==> AtRest(nodes[k])
    ensures nodes[0].connections == []
    ensures forall k :: 1 <= k < |nodes| ==> nodes[k].connections == [nodes[0]]
  {
    var centralNode := new Node(Central, None, cx, cy);
    var withProjects := AddGroup([centralNode], ProjectNode, projects, cx, cy);
    var withResearch := AddGroup(withProjects, ResearchNode, research, cx, cy);
    var resumeNode := new Node(ResumeNode, None, cx, cy);
    resumeNode.Connect(centralNode);
    nodes := withResearch + [resumeNode];
    assert nodes[..|withResearch|] == withResearch;
    assert forall k :: 1 <= k <= |projects| ==> nodes[k] == withResearch[k] == withProjects[k];
  }

  /**
   * One `forEach` of the setup: a node of type `kind` per entry of `stacks`,
   * each connected to the central node `nodes[0]` and pushed in order.
   */
  method AddGroup(nodes: seq<Node>, kind: NodeType, stacks: seq<Option<seq<string>>>, cx: real, cy: real)
    returns (grown: seq<Node>)
    requires |nodes| >= 1
    requires forall a, b :: 0 <= a < b < |nodes| ==> nodes[a] != nodes[b]
    ensures |grown| == |nodes| + |stacks| && grown[..|nodes|] == nodes
    ensures forall a, b :: 0 <= a < b < |grown| ==> grown[a] != grown[b]
    ensures forall k :: |nodes| <= k < |grown| ==> fresh(grown[k])
    ensures forall k :: |nodes| <= k < |grown| ==>
      grown[k].kind == kind && grown[k].stack == stacks[k - |nodes|] && grown[k].connections == [nodes[0]]
    ensures forall k :: |nodes| <= k < |grown| ==> AtRest(grown[k])
  {
    grown := nodes;
    var t := 0;
    while t < |stacks|
      invariant 0 <= t <= |stacks|
      invariant |grown| == |nodes| + t && grown[..|nodes|] == nodes
      invariant forall a, b :: 0 <= a < b < |grown| ==> grown[a] != grown[b]
      invariant forall k :: |nodes| <= k < |grown| ==> fresh(grown[k])
      invariant forall k :: |nodes| <= k < |grown| ==>
        grown[k].kind == kind && grown[k].stack == stacks[k - |nodes|] && grown[k].connections == [nodes[0]]
      invariant forall k :: |nodes| <= k < |grown| ==> AtRest(grown[k])
    {
      var node := new Node(kind, stacks[t], cx, cy);
      node.Connect(nodes[0]);
      grown := grown + [node];
      t := t + 1;
    }
  }

  /** Everything of the nodes but their connections: position, radius, base radius and hover flag. */
  function Layout(nodes: seq<Node>): seq<(real, real, real, real, bool)>
    reads nodes
  {
    seq(|nodes|, k requires 0 <= k < |nodes| reads nodes =>
      (nodes[k].x, nodes[k].y, nodes[k].radius, nodes[k].baseRadius, nodes[k].hovered))
  }

  /** The nodes' connection lists, in node order. */
  function Conns(nodes: seq<Node>): seq<seq<Node>>
    reads nodes
  {
    seq(|nodes|, k requires 0 <= k < |nodes| reads nodes => nodes[k].connections)
  }

  /**
   * The connection lists once the nested setup loop has reached the pair
   * (i, j): none for the central node, and for every other node the spoke to
   * the central node, then the cross edges found so far.
   */
  predicate ShapeUpTo(conns: seq<seq<Node>>, nodes: seq<Node>, i: nat, j: nat)
    requires 1 <= i <= j <= |nodes| == |conns|
  {
    && conns[0] == []
    && forall k :: 1 <= k < |nodes| ==> conns[k] == [nodes[0]] + PartnersBelow(nodes, k, Reached(k, i, j, |nodes|))
  }

  /** The nodes' connections are as the nested loop leaves them at (i, j). */
  predicate LinkedUpTo(nodes: seq<Node>, i: nat, j: nat)
    requires 1 <= i <= j <= |nodes|
    reads nodes
  {
    ShapeUpTo(Conns(nodes), nodes, i, j)
  }

  /**
   * The nested `for (i = 1 …) for (j = i + 1 …)` loop of the setup: links
   * every pair of different-type nodes whose stacks share an entry, both ways.
   */
  method ConnectCrossEdges(nodes: seq<Node>)
    requires |nodes| >= 1
    requires forall a, b :: 0 <= a < b < |nodes| ==> nodes[a] != nodes[b]
    requires nodes[0].connections == []
    requires forall k :: 1 <= k < |nodes| ==> nodes[k].connections == [nodes[0]]
    modifies nodes
    ensures nodes[0].connections == []
    ensures forall k :: 1 <= k < |nodes| ==> nodes[k].connections == [nodes[0]] + PartnersBelow(nodes, k, |nodes|)
    ensures Layout(nodes) == old(Layout(nodes))
  {
    var n := |nodes|;
    var i := 1;
    assert LinkedUpTo(nodes, 1, 1);
    while i < n
      invariant 1 <= i <= n
      invariant LinkedUpTo(nodes, i, i)
      invariant Layout(nodes) == old(Layout(nodes))
    {
      LinkRow(nodes, i);
      i := i + 1;
    }
    forall k | 0 <= k < |nodes|
      ensures nodes[k].connections == Conns(nodes)[k]
    {
    }
  }

  /** The inner loop for row i: links node i with every later node it shares a stack entry with. */
  method LinkRow(nodes: seq<Node>, i: nat)
    requires 1 <= i < |nodes|
    requires forall a, b :: 0 <= a < b < |nodes| ==> nodes[a] != nodes[b]
    requires LinkedUpTo(nodes, i, i)
    modifies nodes
    ensures LinkedUpTo(nodes, i, |nodes|)
    ensures Layout(nodes) == old(Layout(nodes))
  {
    LinkRowStart(nodes, i);
    var j := i + 1;
    while j < |nodes|
      invariant i + 1 <= j <= |nodes|
      invariant LinkedUpTo(nodes, i, j)
      invariant Layout(nodes) == old(Layout(nodes))
    {
      LinkPair(nodes, i, j);
      j := j + 1;
    }
    assert j == |nodes|;
  }

  /** The loop body for the pair (i, j). */
  method LinkPair(nodes: seq<Node>, i: nat, j: nat)
    requires 1 <= i < j < |nodes|
    requires forall a, b :: 0 <= a < b < |nodes| ==> nodes[a] != nodes[b]
    requires LinkedUpTo(nodes, i, j)
    modifies nodes
    ensures LinkedUpTo(nodes, i, j + 1)
    ensures Layout(nodes) == old(Layout(nodes))
  {
    ConnectIfLinked(nodes, i, j);
    PairStep(old(Conns(nodes)), nodes, i, j);
  }

  /** The connection lists after the step for the pair (i, j). */
  function AfterPair(conns: seq<seq<Node>>, nodes: seq<Node>, i: nat, j: nat): seq<seq<Node>>
    requires |conns| == |nodes| && i < |nodes| && j < |nodes|
  {
    seq(|conns|, k requires 0 <= k < |conns| => conns[k] + EdgeAdded(nodes, k, i, j))
  }

  /** The step for the pair (i, j) moves the connection lists from the shape at (i, j) to the shape at (i, j + 1). */
  lemma PairStep(conns: seq<seq<Node>>, nodes: seq<Node>, i: nat, j: nat)
    requires 1 <= i < j < |nodes| == |conns|
    requires ShapeUpTo(conns, nodes, i, j)
    ensures ShapeUpTo(AfterPair(conns, nodes, i, j), nodes, i, j + 1)
  {
    forall k | 1 <= k < |nodes|
      ensures AfterPair(conns, nodes, i, j)[k] == [nodes[0]] + PartnersBelow(nodes, k, Reached(k, i, j + 1, |nodes|))
    {
      ReachedStep(nodes, k, i, j);
    }
  }

  /** The `if` of the loop body: a linked pair is connected both ways, and nothing else changes. */
  method ConnectIfLinked(nodes: seq<Node>, i: nat, j: nat)
    requires i < j < |nodes|
    requires forall a, b :: 0 <= a < b < |nodes| ==> nodes[a] != nodes[b]
    modifies nodes
    ensures Conns(nodes) == AfterPair(old(Conns(nodes)), nodes, i, j)
    ensures Layout(nodes) == old(Layout(nodes))
  {
    if Linked(nodes[i], nodes[j]) {
      nodes[i].Connect(nodes[j]);
      nodes[j].Connect(nodes[i]);
    }
    assert forall k :: 0 <= k < |nodes| ==> Conns(nodes)[k] == AfterPair(old(Conns(nodes)), nodes, i, j)[k];
    assert forall k :: 0 <= k < |nodes| ==> Layout(nodes)[k] == old(Layout(nodes))[k];
  }

  lemma LinkRowStart(nodes: seq<Node>, i: nat)
    requires 1 <= i < |nodes|
    requires LinkedUpTo(nodes, i, i)
    ensures LinkedUpTo(nodes, i, i + 1)
  {
    assert PartnersBelow(nodes, i, i + 1) == PartnersBelow(nodes, i, i);
  }

  /** What the setup loop's step for the pair (i, j) appends to node k. */
  function EdgeAdded(nodes: seq<Node>, k: nat, i: nat, j: nat): seq<Node>
    requires i < |nodes| && j < |nodes|
  {
    if !Linked(nodes[i], nodes[j]) then []
    else if k == i then [nodes[j]]
    else if k == j then [nodes[i]]
    else []
  }

  /** One step of the nested loop moves node k's bound exactly by what the step appends. */
  lemma ReachedStep(nodes: seq<Node>, k: nat, i: nat, j: nat)
    requires 1 <= i < j < |nodes| && 1 <= k < |nodes|
    ensures PartnersBelow(nodes, k, Reached(k, i, j + 1, |nodes|))
         == PartnersBelow(nodes, k, Reached(k, i, j, |nodes|)) + EdgeAdded(nodes, k, i, j)
  {
    LinkedSymmetric(nodes[i], nodes[j]);
  }

  /**
   * `Star.update(width, height, speed)`: the depth after the move; it drops
   * by `speed`, and a reset sets it to `width`.
   */
  function NextDepth(z: real, width: real, speed: real): real {
    if z - speed < 1.0 then width else z - speed
  }

  /** A star never ends an update closer than depth 1 when the canvas is at least 1 wide. */
  lemma StarStaysInFront(z: real, width: real, speed: real)
    requires width >= 1.0
    ensures NextDepth(z, width, speed) >= 1.0
    ensures z - speed >= 1.0 ==> NextDepth(z, width, speed) == z - speed
  {
  }

  /** A star of the starfield; only its depth has behaviour worth stating. */
  class Star {
    var x: real
    var y: real
    var z: real
    var size: real

    constructor(x: real, y: real, z: real, size: real)
      ensures this.x == x && this.y == y && this.z == z && this.size == size
    {
      this.x := x;
      this.y := y;
      this.z := z;
      this.size := size;
    }

    /** `update(width, height, speed)`; (rx, ry, rsize) are the random values a reset draws. */
    method Update(width: real, speed: real, rx: real, ry: real, rsize: real)
      modifies this
      ensures z == NextDepth(old(z), width, speed)
      ensures old(z) - speed < 1.0 ==> x == rx && y == ry && size == rsize
      ensures old(z) - speed >= 1.0 ==> x == old(x) && y == old(y) && size == old(size)
    {
      z := z - speed;
      if z < 1.0 {
        x, y, size := rx, ry, rsize;
        z := width;
      }
    }
  }

  /** The index of the last hit, or None: the node `hoveredNode` ends up naming. */
  function LastHit(hits: seq<bool>): (r: Option<nat>)
    ensures r.None? <==> forall k :: 0 <= k < |hits| ==> !hits[k]
    ensures r.Some? ==> r.value < |hits| && hits[r.value] && forall k :: r.value < k < |hits| ==> !hits[k]
    decreases |hits|
  {
    if hits == [] then None
    else if hits[|hits| - 1] then Some(|hits| - 1)
    else LastHit(hits[..|hits| - 1])
  }

  /**
   * The hover pass of `p5.draw`: every node checks the mouse in array order
   * and `hoveredNode` keeps the last that reports a hit.  `dists[k]` is node k's
   * distance from the mouse.
   */
  method SelectHovered(nodes: seq<Node>, dists: seq<real>) returns (hoveredNode: Option<Node>)
    requires |dists| == |nodes|
    requires forall a, b :: 0 <= a < b < |nodes| ==> nodes[a] != nodes[b]
    modifies nodes
    ensures forall k :: 0 <= k < |nodes| ==>
      nodes[k].x == old(nodes[k].x) && nodes[k].y == old(nodes[k].y) && nodes[k].radius == old(nodes[k].radius)
      && nodes[k].baseRadius == old(nodes[k].baseRadius) && nodes[k].connections == old(nodes[k].connections)
    ensures forall k :: 0 <= k < |nodes| ==> nodes[k].hovered == (dists[k] < nodes[k].radius)
    ensures hoveredNode == Pick(nodes, LastHit(HoverFlags(nodes)))
  {
    hoveredNode := None;
    ghost var hits: seq<bool> := [];
    var t := 0;
    while t < |nodes|
      invariant 0 <= t <= |nodes| && |hits| == t
      invariant forall k :: 0 <= k < |nodes| ==>
        nodes[k].x == old(nodes[k].x) && nodes[k].y == old(nodes[k].y) && nodes[k].radius == old(nodes[k].radius)
        && nodes[k].baseRadius == old(nodes[k].baseRadius) && nodes[k].connections == old(nodes[k].connections)
      invariant forall k :: 0 <= k < t ==> hits[k] == nodes[k].hovered == (dists[k] < nodes[k].radius)
      invariant hoveredNode == Pick(nodes, LastHit(hits))
    {
      var h := nodes[t].CheckHover(dists[t]);
      LastHitAppend(hits, h);
      hits := hits + [h];
      if h {
        hoveredNode := Some(nodes[t]);
      }
      t := t + 1;
    }
    assert hits == HoverFlags(nodes);
  }

  lemma LastHitAppend(hits: seq<bool>, h: bool)
    ensures LastHit(hits + [h]) == if h then Some(|hits|) else LastHit(hits)
  {
    assert (hits + [h])[..|hits|] == hits;
  }

  /** The hover flags of the nodes, in order. */
  function HoverFlags(nodes: seq<Node>): (hits: seq<bool>)
    reads set k | 0 <= k < |nodes| :: nodes[k]
    ensures |hits| == |nodes| && forall k :: 0 <= k < |nodes| ==> hits[k] == nodes[k].hovered
  {
    if nodes == [] then [] else HoverFlags(nodes[..|nodes| - 1]) + [nodes[|nodes| - 1].hovered]
  }

  /** The node an optional index names. */
  function Pick(nodes: seq<Node>, index: Option<nat>): Option<Node> {
    if index.Some? && index.value < |nodes| then Some(nodes[index.value]) else None
  }

  /**
   * The tooltip text `data.title || data.repo || data.name || ''`: a missing
   * field and an empty string are both falsy, so the first non-empty one wins.
   */
  function TooltipText(title: Option<string>, repo: Option<string>, name: Option<string>): (text: string)
    ensures text == "" <==> (title.None? || title.value == "") && (repo.None? || repo.value == "") && (name.None? || name.value == "")
    ensures title.Some? && title.value != "" ==> text == title.value
    ensures text != "" && (title.None? || title.value == "") ==> (repo.Some? && text == repo.value) || (name.Some? && text == name.value)
  {
    if title.Some? && title.value != "" then title.value
    else if repo.Some? && repo.value != "" then repo.value
    else if name.Some? && name.value != "" then name.value
    else ""
  }

  /**
   * The radius each node has after a frame's `update`: the central node's
   * base radius was set to `60 * pulse` just before, so it is pulsed twice.
   */
  function FrameRadius(kind: NodeType, hovered: bool, pulse: real): real {
    ScaledRadius(if kind == Central then 60.0 * pulse else 32.0, hovered, pulse)
  }

  /** The central node's radius scales with the square of the pulse; the others with the pulse. */
  lemma FrameRadiusValues(hovered: bool, pulse: real, kind: NodeType)
    ensures FrameRadius(Central, hovered, pulse) == 60.0 * pulse * pulse * (if hovered then 1.13 else 1.0)
    ensures kind != Central ==> FrameRadius(kind, hovered, pulse) == 32.0 * pulse * (if hovered then 1.13 else 1.0)
  {
  }

  /**
   * The update part of `p5.draw`: `centralNode.baseRadius = 60 * pulse`, then
   * `update` on every node; `places[k]` is node k's orbit position.
   */
  method AnimateNodes(nodes: seq<Node>, places: seq<(real, real)>, pulse: real)
    requires |places| == |nodes| && |nodes| >= 1 && nodes[0].kind == Central
    requires forall a, b :: 0 <= a < b < |nodes| ==> nodes[a] != nodes[b]
    requires forall k :: 1 <= k < |nodes| ==> nodes[k].kind != Central && nodes[k].baseRadius == 32.0
    modifies nodes
    ensures forall k :: 0 <= k < |nodes| ==> nodes[k].radius == FrameRadius(nodes[k].kind, nodes[k].hovered, pulse)
    ensures forall k :: 0 <= k < |nodes| ==> nodes[k].hovered == old(nodes[k].hovered)
    ensures forall k :: 1 <= k < |nodes| ==> nodes[k].x == places[k].0 && nodes[k].y == places[k].1
    ensures nodes[0].x == old(nodes[0].x) && nodes[0].y == old(nodes[0].y)
    ensures nodes[0].baseRadius == 60.0 * pulse && forall k :: 1 <= k < |nodes| ==> nodes[k].baseRadius == 32.0
    ensures forall k :: 0 <= k < |nodes| ==> nodes[k].connections == old(nodes[k].connections)
  {
    nodes[0].baseRadius := 60.0 * pulse;
    var t := 0;
    while t < |nodes|
      invariant 0 <= t <= |nodes|
      invariant nodes[0].baseRadius == 60.0 * pulse
      invariant forall k :: 1 <= k < |nodes| ==> nodes[k].baseRadius == 32.0
      invariant forall k :: 0 <= k < |nodes| ==> nodes[k].hovered == old(nodes[k].hovered)
      invariant forall k :: 0 <= k < t ==> nodes[k].radius == FrameRadius(nodes[k].kind, nodes[k].hovered, pulse)
      invariant forall k :: 1 <= k < t ==> nodes[k].x == places[k].0 && nodes[k].y == places[k].1
      invariant nodes[0].x == old(nodes[0].x) && nodes[0].y == old(nodes[0].y)
      invariant forall k :: 0 <= k < |nodes| ==> nodes[k].connections == old(nodes[k].connections)
    {
      nodes[t].Update(places[t].0, places[t].1, pulse);
      t := t + 1;
    }
  }

  /** No node after index k is hovered. */
  predicate LastHovered(nodes: seq<Node>, k: nat)
    reads nodes
  {
    forall m :: k < m < |nodes| ==> !nodes[m].hovered
  }

  /** `hoveredNode && hoveredNode.type !== 'central'`: the test before the tooltip and the click-through modal. */
  predicate ShowsDetails(hoveredNode: Option<Node>) {
    hoveredNode.Some? && hoveredNode.value.kind != Central
  }

  /**
   * With the central node first and no other central node, as the setup builds
   * them, the tooltip and the modal act exactly when some non-central node is
   * hovered, and then on the last such node: the central node alone shows
   * nothing, and it never hides a hovered node after it.
   */
  lemma DetailsForNonCentralHover(nodes: seq<Node>)
    requires |nodes| >= 1 && nodes[0].kind == Central
    requires forall k :: 1 <= k < |nodes| ==> nodes[k].kind != Central
    ensures var shown := Pick(nodes, LastHit(HoverFlags(nodes)));
      && (ShowsDetails(shown) <==> exists k :: 1 <= k < |nodes| && nodes[k].hovered)
      && (ShowsDetails(shown) ==>
            exists k :: 1 <= k < |nodes| && shown == Some(nodes[k]) && nodes[k].hovered && LastHovered(nodes, k))
  {
    var hits := HoverFlags(nodes);
    var last := LastHit(hits);
    if k :| 1 <= k < |nodes| && nodes[k].hovered {
      assert hits[k];
      assert last.Some? && last.value >= k;
    } else if last.Some? {
      assert last.value == 0;
    }
  }

  /**
   * The node part of one `p5.draw` frame: the update pass, then the hover
   * pass.  The radii come from the previous frame's hover flags and the new
   * flags from the new radii; the graph and the base radii are left as the
   * next frame needs them.
   */
  method Draw(nodes: seq<Node>, places: seq<(real, real)>, dists: seq<real>, pulse: real)
    returns (hoveredNode: Option<Node>)
    requires |places| == |nodes| == |dists| && |nodes| >= 1 && nodes[0].kind == Central
    requires forall a, b :: 0 <= a < b < |nodes| ==> nodes[a] != nodes[b]
    requires forall k :: 1 <= k < |nodes| ==> nodes[k].kind != Central && nodes[k].baseRadius == 32.0
    modifies nodes
    ensures forall k :: 0 <= k < |nodes| ==> nodes[k].radius == FrameRadius(nodes[k].kind, old(nodes[k].hovered), pulse)
    ensures forall k :: 0 <= k < |nodes| ==> nodes[k].hovered == (dists[k] < nodes[k].radius)
    ensures hoveredNode == Pick(nodes, LastHit(HoverFlags(nodes)))
    ensures forall k :: 1 <= k < |nodes| ==> nodes[k].x == places[k].0 && nodes[k].y == places[k].1
    ensures nodes[0].x == old(nodes[0].x) && nodes[0].y == old(nodes[0].y)
    ensures nodes[0].baseRadius == 60.0 * pulse && forall k :: 1 <= k < |nodes| ==> nodes[k].baseRadius == 32.0
    ensures forall k :: 0 <= k < |nodes| ==> nodes[k].connections == old(nodes[k].connections)
  {
    AnimateNodes(nodes, places, pulse);
    hoveredNode := SelectHovered(nodes, dists);
  }

  /**
   * The graph `p5.setup` builds, as every frame finds it: the central node
   * first with no connections, and every other node non-central, with its
   * spoke and then its cross edges in index order.
   */
  predicate GraphBuilt(nodes: seq<Node>)
    reads nodes
  {
    && |nodes| >= 1 && nodes[0].kind == Central && nodes[0].connections == []
    && (forall a, b :: 0 <= a < b < |nodes| ==> nodes[a] != nodes[b])
    && forall k :: 1 <= k < |nodes| ==>
         nodes[k].kind != Central && nodes[k].connections == [nodes[0]] + PartnersBelow(nodes, k, |nodes|)
  }

  /** The base radii a frame needs: 32 for every non-central node. */
  predicate FrameReady(nodes: seq<Node>)
    reads nodes
  {
    forall k :: 1 <= k < |nodes| ==> nodes[k].baseRadius == 32.0
  }

  /**
   * The sketch: `p5.setup` once, then `p5.draw` for each frame, with each
   * frame's orbit positions, mouse distances and pulse as inputs.  The graph
   * the setup builds stays as built, and the hovered node is the one the last
   * frame picked.
   */
  method Sketch(projects: seq<Option<seq<string>>>, research: seq<Option<seq<string>>>, cx: real, cy: real,
                frames: seq<(seq<(real, real)>, seq<real>, real)>)
    returns (nodes: seq<Node>, hoveredNode: Option<Node>)
    requires forall f :: 0 <= f < |frames| ==>
      |frames[f].0| == |frames[f].1| == 2 + |projects| + |research|
    ensures |nodes| == 2 + |projects| + |research| && GraphBuilt(nodes)
    ensures frames == [] ==> hoveredNode.None? && forall k :: 0 <= k < |nodes| ==> AtRest(nodes[k])
    ensures frames != [] ==> hoveredNode == Pick(nodes, LastHit(HoverFlags(nodes)))
    ensures frames != [] ==> forall k :: 0 <= k < |nodes| ==> nodes[k].hovered == (frames[|frames| - 1].1[k] < nodes[k].radius)
  {
    nodes := Setup(projects, research, cx, cy);
    assert GraphBuilt(nodes) by {
      forall k | 1 <= k < |nodes|
        ensures nodes[k].kind != Central
      {
      }
    }
    if frames == [] {
      hoveredNode := None;
    } else {
      assert FrameReady(nodes) by {
        forall k | 1 <= k < |nodes|
          ensures nodes[k].baseRadius == 32.0
        {
          assert AtRest(nodes[k]);
        }
      }
      hoveredNode := RunFrames(nodes, frames);
    }
  }

  /** `p5.draw` once per frame on the graph the setup built. */
  method RunFrames(nodes: seq<Node>, frames: seq<(seq<(real, real)>, seq<real>, real)>) returns (hoveredNode: Option<Node>)
    requires GraphBuilt(nodes) && FrameReady(nodes) && frames != []
    requires forall f :: 0 <= f < |frames| ==> |frames[f].0| == |frames[f].1| == |nodes|
    modifies nodes
    ensures GraphBuilt(nodes) && FrameReady(nodes)
    ensures hoveredNode == Pick(nodes, LastHit(HoverFlags(nodes)))
    ensures forall k :: 0 <= k < |nodes| ==> nodes[k].hovered == (frames[|frames| - 1].1[k] < nodes[k].radius)
  {
    hoveredNode := None;
    var f := 0;
    while f < |frames|
      invariant 0 <= f <= |frames|
      invariant GraphBuilt(nodes) && FrameReady(nodes)
      invariant f > 0 ==> hoveredNode == Pick(nodes, LastHit(HoverFlags(nodes)))
      invariant f > 0 ==> forall k :: 0 <= k < |nodes| ==> nodes[k].hovered == (frames[f - 1].1[k] < nodes[k].radius)
    {
      hoveredNode := Draw(nodes, frames[f].0, frames[f].1, frames[f].2);
      assert GraphBuilt(nodes) by {
        forall k | 1 <= k < |nodes|
          ensures nodes[k].connections == [nodes[0]] + PartnersBelow(nodes, k, |nodes|)
        {
        }
      }
      f := f + 1;
    }
  }
}
