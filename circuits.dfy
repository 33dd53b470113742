/** Day 8 (2025/8/main.rs): junction boxes in space are joined pairwise, closest
    pairs first, into circuits. Part 1 multiplies the sizes of the three largest
    circuits after a number of connections; part 2 finds the connection after
    which all boxes form a single circuit. */
module Circuits {
  import opened Text
  import opened Sorting
  import opened Arithmetic

  // ------------------------------------------------------------------ parsing

  /** `JunctionBox`: the three coordinates and the box's position in the input. */
  datatype JunctionBox = JunctionBox(x: int, y: int, z: int, index: nat)

  /** `JunctionBox::parse`: the text split on ',', the first three pieces parsed as
      `i64`; a missing piece or one that does not parse gives None. Pieces after
      the third are never looked at. */
  function ParseBox(s: string, index: nat): (b: Option<JunctionBox>)
    ensures |Split(s, ',')| < 3 ==> b == None
    ensures b.Some? ==> b.value.index == index
  {
    var pieces := Split(s, ',');
    if |pieces| < 3 then None
    else
      var x, y, z := ParseSigned(pieces[0], I64_MIN, I64_MAX),
                     ParseSigned(pieces[1], I64_MIN, I64_MAX),
                     ParseSigned(pieces[2], I64_MIN, I64_MAX);
      if x.Some? && y.Some? && z.Some? then Some(JunctionBox(x.value, y.value, z.value, index)) else None
  }

  /** The text of a box as the puzzle writes it: `x,y,z`. */
  function BoxText(x: int, y: int, z: int): string {
    SignedDecimal(x) + "," + SignedDecimal(y) + "," + SignedDecimal(z)
  }

  /** Parsing reads back any three `i64` coordinates written as `x,y,z`. */
  lemma ParseBoxRoundTrip(x: int, y: int, z: int, index: nat)
    requires I64_MIN <= x <= I64_MAX && I64_MIN <= y <= I64_MAX && I64_MIN <= z <= I64_MAX
    ensures ParseBox(BoxText(x, y, z), index) == Some(JunctionBox(x, y, z, index))
  {
    var sx, sy, sz := SignedDecimal(x), SignedDecimal(y), SignedDecimal(z);
    assert ',' !in sx && ',' !in sy && ',' !in sz;
    assert BoxText(x, y, z) == sx + [','] + (sy + [','] + sz);
    SplitFirst(sx, ',', sy + [','] + sz);
    SplitFirst(sy, ',', sz);
    SplitNoSeparator(sz, ',');
    ParseSignedDecimal(x, I64_MIN, I64_MAX);
    ParseSignedDecimal(y, I64_MIN, I64_MAX);
    ParseSignedDecimal(z, I64_MIN, I64_MAX);
  }

  /** A box is numbered by its position. */
  predicate Numbered(boxes: seq<JunctionBox>) {
    forall k :: 0 <= k < |boxes| ==> boxes[k].index == k
  }

  /** `junction_boxes`: the non-empty lines, trimmed, each parsed with its position
      among them as its index; None when a line does not parse (the source panics). */
  function JunctionBoxes(input: string): (r: Option<seq<JunctionBox>>)
    ensures r.Some? ==> Numbered(r.value) && |r.value| == |TrimNonEmpty(Split(input, '\n'))|
  {
    var lines := TrimNonEmpty(Split(input, '\n'));
    ParseNumberedMeaning(lines, ParseBox);
    ParseNumbered(lines, ParseBox)
  }

  // ----------------------------------------------------------------- distance

  /** `isqrt`: the integer square root, rounded down, computed from the root of
      `n / 4`. */
  function ISqrt(n: nat): (r: nat)
    ensures r * r <= n < (r + 1) * (r + 1)
    decreases n
  {
    if n < 4 then (if n == 0 then 0 else 1)
    else
      var half := ISqrt(n / 4);
      ISqrtStep(n, half);
      var r := 2 * half;
      if (r + 1) * (r + 1) <= n then r + 1 else r
  }

  /** Doubling the root of `n / 4` gives the root of `n` or one less. */
  lemma ISqrtStep(n: nat, half: nat)
    requires n >= 4 && half * half <= n / 4 < (half + 1) * (half + 1)
    ensures (2 * half) * (2 * half) <= n < (2 * half + 2) * (2 * half + 2)
  {
    var q := n / 4;
    var a, b := half * half, (half + 1) * (half + 1);
    assert n == 4 * q + n % 4;
    assert (2 * half) * (2 * half) == 4 * a;
    assert (2 * half + 2) * (2 * half + 2) == 4 * b;
  }

  /** A larger square never has a smaller root. */
  lemma ISqrtMonotone(m: nat, n: nat)
    requires m <= n
    ensures ISqrt(m) <= ISqrt(n)
  {
    var r, s := ISqrt(m), ISqrt(n);
    if r > s {
      MulMonotone(s + 1, r, s + 1);
      MulMonotone(s + 1, r, r);
      MulCommutes(s + 1, r);
    }
  }

  function Square(d: int): (s: nat) {
    SquareNonNegative(d);
    d * d
  }

  lemma SquareNonNegative(d: int)
    ensures d * d >= 0
  {
    if d < 0 {
      MulMonotone(d, 0, -d);
    } else {
      MulMonotone(0, d, d);
    }
  }

  /** The squared distance, kept exact. */
  function SquaredDistance(a: JunctionBox, b: JunctionBox): nat {
    Square(a.x - b.x) + Square(a.y - b.y) + Square(a.z - b.z)
  }

  /** `euclidean_distance`: the integer square root of the squared distance. */
  function Distance(a: JunctionBox, b: JunctionBox): (d: nat)
    ensures d * d <= SquaredDistance(a, b) < (d + 1) * (d + 1)
  {
    ISqrt(SquaredDistance(a, b))
  }

  /** The distance does not depend on the order of the two boxes, and a box is at
      distance 0 from itself. */
  lemma DistanceSymmetric(a: JunctionBox, b: JunctionBox)
    ensures Distance(a, b) == Distance(b, a)
    ensures Distance(a, a) == 0
  {
    assert Square(a.x - b.x) == Square(b.x - a.x);
    assert Square(a.y - b.y) == Square(b.y - a.y);
    assert Square(a.z - b.z) == Square(b.z - a.z);
  }

  /** Rounding down keeps the order of true distances: a pair that is closer in
      space is never ranked farther. */
  lemma DistanceRespectsOrder(a: JunctionBox, b: JunctionBox, c: JunctionBox, d: JunctionBox)
    requires SquaredDistance(a, b) <= SquaredDistance(c, d)
    ensures Distance(a, b) <= Distance(c, d)
  {
    ISqrtMonotone(SquaredDistance(a, b), SquaredDistance(c, d));
  }

  // ---------------------------------------------------------------- the edges

  /** `AdjacentJunctionBoxes`: two boxes and their distance. */
  datatype Edge = Edge(a: JunctionBox, b: JunctionBox, distance: nat)

  function MakeEdge(a: JunctionBox, b: JunctionBox): Edge {
    Edge(a, b, Distance(a, b))
  }

  /** `tuple_combinations` of the boxes: each box paired with every later box, in
      the order of the first box and then of the second. */
  function Pairs(boxes: seq<JunctionBox>): (es: seq<Edge>)
    decreases |boxes|
  {
    if boxes == [] then []
    else
      var rest := boxes[1..];
      seq(|rest|, k requires 0 <= k < |rest| => MakeEdge(boxes[0], rest[k])) + Pairs(rest)
  }

  /** Every edge joins an earlier box to a later one. */
  lemma {:induction false} PairsSound(boxes: seq<JunctionBox>, e: Edge)
    requires e in Pairs(boxes)
    ensures exists i, j :: 0 <= i < j < |boxes| && e == MakeEdge(boxes[i], boxes[j])
    decreases |boxes|
  {
    var rest := boxes[1..];
    var first := seq(|rest|, k requires 0 <= k < |rest| => MakeEdge(boxes[0], rest[k]));
    if e in first {
      var k :| 0 <= k < |rest| && first[k] == e;
      assert e == MakeEdge(boxes[0], boxes[k + 1]);
    } else {
      PairsSound(rest, e);
      var i, j :| 0 <= i < j < |rest| && e == MakeEdge(rest[i], rest[j]);
      assert e == MakeEdge(boxes[i + 1], boxes[j + 1]);
    }
  }

  /** Every pair of boxes, earlier one first, has its edge. */
  lemma {:induction false} PairsComplete(boxes: seq<JunctionBox>, i: nat, j: nat)
    requires i < j < |boxes|
    ensures MakeEdge(boxes[i], boxes[j]) in Pairs(boxes)
    decreases |boxes|
  {
    var rest := boxes[1..];
    var first := seq(|rest|, k requires 0 <= k < |rest| => MakeEdge(boxes[0], rest[k]));
    assert Pairs(boxes) == first + Pairs(rest);
    if i == 0 {
      assert first[j - 1] == MakeEdge(boxes[i], boxes[j]);
    } else {
      PairsComplete(rest, i - 1, j - 1);
    }
  }

  /** The combination order: by first box, then by second box. */
  predicate Before(e: Edge, f: Edge) {
    e.a.index < f.a.index || (e.a.index == f.a.index && e.b.index < f.b.index)
  }

  predicate IndicesIncrease(boxes: seq<JunctionBox>) {
    forall i, j :: 0 <= i < j < |boxes| ==> boxes[i].index < boxes[j].index
  }

  /** With boxes numbered in order, the edges come strictly in combination order,
      so no pair of boxes is joined twice. */
  lemma {:induction false} PairsInOrder(boxes: seq<JunctionBox>)
    requires IndicesIncrease(boxes)
    ensures forall p, q :: 0 <= p < q < |Pairs(boxes)| ==> Before(Pairs(boxes)[p], Pairs(boxes)[q])
    decreases |boxes|
  {
    if boxes != [] {
      var rest := boxes[1..];
      var first := seq(|rest|, k requires 0 <= k < |rest| => MakeEdge(boxes[0], rest[k]));
      var es := Pairs(boxes);
      assert es == first + Pairs(rest);
      PairsInOrder(rest);
      forall p, q | 0 <= p < q < |es| ensures Before(es[p], es[q]) {
        if q < |first| {
          assert es[p] == first[p] && es[q] == first[q];
        } else if p < |first| {
          assert es[q] in Pairs(rest);
          PairsSound(rest, es[q]);
        } else {
          assert es[p] == Pairs(rest)[p - |first|] && es[q] == Pairs(rest)[q - |first|];
        }
      }
    }
  }

  /** The ordering of `closest_junction_boxes`: by distance only. */
  function DistanceKey(e: Edge): Key {
    (e.distance, 0)
  }

  /** `closest_junction_boxes`: all pairs, sorted in place by distance. The sort is
      stable, so pairs at the same distance keep their combination order. */
  method ClosestJunctionBoxes(boxes: seq<JunctionBox>) returns (edges: seq<Edge>)
    ensures edges == InsertionSort(Pairs(boxes), DistanceKey)
    ensures multiset(edges) == multiset(Pairs(boxes))
    ensures Sorted(edges, DistanceKey)
    ensures forall k :: WithKey(edges, DistanceKey, k) == WithKey(Pairs(boxes), DistanceKey, k)
  {
    var pairs := Pairs(boxes);
    var a := new Edge[|pairs|](k requires 0 <= k < |pairs| => pairs[k]);
    assert a[..] == pairs;
    SortBy(a, DistanceKey);
    edges := a[..];
    InsertionSortPermutes(pairs, DistanceKey);
    InsertionSortSorted(pairs, DistanceKey);
    forall k {
      InsertionSortStable(pairs, DistanceKey, k);
    }
  }

  // ---------------------------------------------------------- adjacency lists

  /** `AdjacencyList`: for each box index, the indices joined to it, in the order
      the connections were made. */
  type Lists = map<nat, seq<nat>>

  /** The list of `u`, or an empty one where `u` has none yet. */
  function ListOf(m: Lists, u: nat): seq<nat> {
    if u in m then m[u] else []
  }

  /** `entry(u).or_insert(Vec::new()).push(v)`. */
  function Push(m: Lists, u: nat, v: nat): Lists {
    m[u := ListOf(m, u) + [v]]
  }

  /** `connect_junction_boxes` on the lists as a value: `b` pushed onto the list of
      `a`, then `a` onto the list of `b`. */
  function Linked(m: Lists, a: nat, b: nat): Lists {
    Push(Push(m, a, b), b, a)
  }

  /** Connecting adds `a` and `b` to the keys, appends each to the other's list and
      leaves every other list as it was. */
  lemma LinkedEntries(m: Lists, a: nat, b: nat)
    ensures Linked(m, a, b).Keys == m.Keys + {a, b}
    ensures a != b ==> Linked(m, a, b)[a] == ListOf(m, a) + [b] && Linked(m, a, b)[b] == ListOf(m, b) + [a]
    ensures a == b ==> Linked(m, a, b)[a] == ListOf(m, a) + [a, a]
    ensures forall u :: u in m && u != a && u != b ==> Linked(m, a, b)[u] == m[u]
  {
  }

  /** Every listed neighbour has its own list, and lists each of its neighbours back:
      what `connect_junction_boxes` keeps true, and what `get_all_graphs` relies on. */
  predicate Symmetric(m: Lists) {
    forall u, v :: u in m && v in m[u] ==> v in m && u in m[v]
  }

  lemma LinkedSymmetric(m: Lists, a: nat, b: nat)
    requires Symmetric(m)
    ensures Symmetric(Linked(m, a, b))
  {
    var m' := Linked(m, a, b);
    forall u, v | u in m' && v in m'[u] ensures v in m' && u in m'[v] {
      if u in m && v in m[u] {
        assert v in m && u in m[v];
        assert v in m' && u in ListOf(m', v);
      }
    }
  }

  /** Connecting only adds: every list keeps all of its entries. */
  predicate Includes(m: Lists, m': Lists) {
    forall u :: u in m ==> u in m' && forall v :: v in m[u] ==> v in m'[u]
  }

  lemma LinkedIncludes(m: Lists, a: nat, b: nat)
    ensures Includes(m, Linked(m, a, b))
  {
  }

  /** The indices of the boxes. */
  function Indices(boxes: seq<JunctionBox>): set<nat> {
    set b | b in boxes :: b.index
  }

  /** One empty list per box. */
  function Isolated(boxes: seq<JunctionBox>): (m: Lists)
    ensures m.Keys == Indices(boxes) && Symmetric(m)
  {
    map i | i in Indices(boxes) :: []
  }

  /** The connections of `edges`, made in order, starting from `m`. */
  function LinkAll(m: Lists, edges: seq<Edge>): Lists
    decreases |edges|
  {
    if edges == [] then m else LinkAll(Linked(m, edges[0].a.index, edges[0].b.index), edges[1..])
  }

  lemma LinkAllStep(m: Lists, edges: seq<Edge>, i: nat)
    requires i < |edges|
    ensures LinkAll(m, edges[i..]) == LinkAll(Linked(m, edges[i].a.index, edges[i].b.index), edges[i + 1..])
  {
    assert edges[i..][1..] == edges[i + 1..];
  }

  class AdjacencyList {
    var lists: Lists

    /** `HashMap::new()`. */
    constructor ()
      ensures lists == map[]
    {
      lists := map[];
    }

    /** `HashMap::from_iter(vertices.map(|v| (v.index, Vec::new())))`. */
    constructor FromBoxes(boxes: seq<JunctionBox>)
      ensures lists == Isolated(boxes)
    {
      lists := map i | i in Indices(boxes) :: [];
    }

    /** `connect_junction_boxes`: both ends of the edge learn of each other. */
    method Connect(e: Edge)
      modifies this
      ensures lists == Linked(old(lists), e.a.index, e.b.index)
    {
      var a, b := e.a.index, e.b.index;
      var listA := if a in lists then lists[a] else [];
      lists := lists[a := listA + [b]];
      var listB := if b in lists then lists[b] else [];
      lists := lists[b := listB + [a]];
    }
  }

  // ------------------------------------------------------------- reachability

  /** A walk along the lists: every step goes from a box to one on its list. */
  ghost predicate IsPath(m: Lists, p: seq<nat>) {
    |p| >= 1
    && (forall i :: 0 <= i < |p| ==> p[i] in m)
    && (forall i :: 0 < i < |p| ==> p[i] in m[p[i - 1]])
  }

  ghost predicate Reachable(m: Lists, u: nat, v: nat) {
    exists p :: IsPath(m, p) && p[0] == u && p[|p| - 1] == v
  }

  /** The circuit of `v`: every box reachable from it. */
  ghost function Component(m: Lists, v: nat): set<nat> {
    set w | w in m && Reachable(m, v, w)
  }

  /** The circuits. */
  ghost function ComponentsOf(m: Lists): set<set<nat>> {
    set v | v in m :: Component(m, v)
  }

  /** `S` holds the lists of all its boxes. */
  ghost predicate Closed(m: Lists, S: set<nat>) {
    forall u, v :: u in S && u in m && v in m[u] ==> v in S
  }

  lemma ReachSelf(m: Lists, v: nat)
    requires v in m
    ensures Reachable(m, v, v)
  {
    assert IsPath(m, [v]);
  }

  lemma ReachStep(m: Lists, u: nat, v: nat, w: nat)
    requires Reachable(m, u, v) && v in m && w in m[v] && w in m
    ensures Reachable(m, u, w)
  {
    var p :| IsPath(m, p) && p[0] == u && p[|p| - 1] == v;
    var q := p + [w];
    assert IsPath(m, q);
  }

  lemma ReachTrans(m: Lists, u: nat, v: nat, w: nat)
    requires Reachable(m, u, v) && Reachable(m, v, w)
    ensures Reachable(m, u, w)
  {
    var p :| IsPath(m, p) && p[0] == u && p[|p| - 1] == v;
    var q :| IsPath(m, q) && q[0] == v && q[|q| - 1] == w;
    var r := p + q[1..];
    forall i | 0 < i < |r| ensures r[i] in m[r[i - 1]] {
      if i >= |p| {
        assert r[i] == q[i - |p| + 1];
        assert r[i - 1] == q[i - |p|];
      }
    }
    assert IsPath(m, r);
  }

  /** The last box of a path reaches back to the first, the lists being symmetric. */
  lemma {:induction false} PathBack(m: Lists, p: seq<nat>)
    requires Symmetric(m) && IsPath(m, p)
    ensures Reachable(m, p[|p| - 1], p[0])
    decreases |p|
  {
    if |p| == 1 {
      ReachSelf(m, p[0]);
    } else {
      var n := |p| - 1;
      var q := p[..n];
      assert IsPath(m, q);
      PathBack(m, q);
      assert p[n - 1] in m[p[n]];
      ReachSelf(m, p[n]);
      ReachStep(m, p[n], p[n], p[n - 1]);
      ReachTrans(m, p[n], p[n - 1], p[0]);
    }
  }

  lemma ReachBack(m: Lists, u: nat, v: nat)
    requires Symmetric(m) && Reachable(m, u, v)
    ensures Reachable(m, v, u)
  {
    var p :| IsPath(m, p) && p[0] == u && p[|p| - 1] == v;
    PathBack(m, p);
  }

  /** A path that starts in a closed set stays in it. */
  lemma {:induction false} PathInside(m: Lists, S: set<nat>, p: seq<nat>)
    requires Closed(m, S) && IsPath(m, p) && p[0] in S
    ensures p[|p| - 1] in S
    decreases |p|
  {
    if |p| > 1 {
      var n := |p| - 1;
      assert IsPath(m, p[..n]);
      PathInside(m, S, p[..n]);
      assert p[n] in m[p[n - 1]];
    }
  }

  lemma ClosedReach(m: Lists, S: set<nat>, v: nat, w: nat)
    requires Closed(m, S) && v in S && Reachable(m, v, w)
    ensures w in S
  {
    var p :| IsPath(m, p) && p[0] == v && p[|p| - 1] == w;
    PathInside(m, S, p);
  }

  /** A path along smaller lists is a path along larger ones. */
  lemma ReachIncludes(m: Lists, m': Lists, u: nat, v: nat)
    requires Includes(m, m') && Reachable(m, u, v)
    ensures Reachable(m', u, v)
  {
    var p :| IsPath(m, p) && p[0] == u && p[|p| - 1] == v;
    assert IsPath(m', p);
  }

  // --------------------------------------------------------------- components

  lemma ComponentHasRoot(m: Lists, v: nat)
    requires v in m
    ensures v in Component(m, v)
  {
    ReachSelf(m, v);
  }

  /** Any box of a circuit has that same circuit. */
  lemma SameComponent(m: Lists, u: nat, v: nat)
    requires Symmetric(m) && v in Component(m, u)
    ensures Component(m, v) == Component(m, u)
  {
    forall w | w in Component(m, v) ensures w in Component(m, u) {
      ReachTrans(m, u, v, w);
    }
    forall w | w in Component(m, u) ensures w in Component(m, v) {
      ReachBack(m, u, v);
      ReachTrans(m, v, u, w);
    }
  }

  /** Two circuits are the same or share no box. */
  lemma ComponentsDisjoint(m: Lists, u: nat, v: nat)
    requires Symmetric(m)
    ensures Component(m, u) == Component(m, v) || Component(m, u) !! Component(m, v)
  {
    if w :| w in Component(m, u) && w in Component(m, v) {
      SameComponent(m, u, w);
      SameComponent(m, v, w);
    }
  }

  /** A circuit holds the lists of its boxes. */
  lemma ComponentClosed(m: Lists, v: nat)
    requires Symmetric(m)
    ensures Closed(m, Component(m, v))
  {
    forall u, x | u in Component(m, v) && u in m && x in m[u] ensures x in Component(m, v) {
      ReachStep(m, v, u, x);
    }
  }

  /** The circuit of `v` is the least closed set holding `v`. */
  lemma ComponentLeast(m: Lists, v: nat, S: set<nat>)
    requires Closed(m, S) && v in S
    ensures Component(m, v) <= S
  {
    forall w | w in Component(m, v) ensures w in S {
      ClosedReach(m, S, v, w);
    }
  }

  // ----------------------------------------------------------- get_all_graphs

  /** Every neighbour of a collected box is collected or still on the stack. */
  ghost predicate Frontier(m: Lists, graph: set<nat>, stack: seq<nat>) {
    forall u, v :: u in graph && u in m && v in m[u] ==> v in graph || v in stack
  }

  /** What the search keeps true: everything collected or stacked is in the circuit
      of `start`, `start` itself is one or the other, and the neighbours of the
      collected boxes are collected or stacked. */
  ghost predicate Searching(m: Lists, start: nat, graph: set<nat>, stack: seq<nat>) {
    graph <= Component(m, start)
    && (forall k :: 0 <= k < |stack| ==> stack[k] in Component(m, start))
    && (start in graph || start in stack)
    && Frontier(m, graph, stack)
  }

  /** Popping a box already collected keeps the search going. */
  lemma PopSeen(m: Lists, start: nat, graph: set<nat>, rest: seq<nat>, v: nat)
    requires Searching(m, start, graph, rest + [v]) && v in graph
    ensures Searching(m, start, graph, rest)
  {
    forall k | 0 <= k < |rest| ensures rest[k] in Component(m, start) {
      assert rest[k] == (rest + [v])[k];
    }
    forall u, w | u in graph && u in m && w in m[u] ensures w in graph || w in rest {
      if w !in graph {
        var k :| 0 <= k < |rest + [v]| && (rest + [v])[k] == w;
        assert k < |rest|;
      }
    }
  }

  /** Collecting a new box and stacking its list keeps the search going. */
  lemma PopCollect(m: Lists, start: nat, graph: set<nat>, rest: seq<nat>, v: nat)
    requires Symmetric(m) && Searching(m, start, graph, rest + [v]) && v !in graph && v in m
    ensures Searching(m, start, graph + {v}, rest + m[v]) && v in Component(m, start)
  {
    var circuit := Component(m, start);
    var stack, stack' := rest + [v], rest + m[v];
    assert v == stack[|rest|];
    forall k | 0 <= k < |stack'| ensures stack'[k] in circuit {
      if k < |rest| {
        assert stack'[k] == stack[k];
      } else {
        assert stack'[k] in m[v];
        ReachStep(m, start, v, stack'[k]);
      }
    }
    forall u, w | u in graph + {v} && u in m && w in m[u] ensures w in graph + {v} || w in stack' {
      if u == v {
        var k :| 0 <= k < |m[v]| && m[v][k] == w;
        assert stack'[|rest| + k] == w;
      } else if w !in graph + {v} {
        var k :| 0 <= k < |stack| && stack[k] == w;
        assert k < |rest| && stack'[k] == w;
      }
    }
  }

  /** The box on top of the stack has a list. */
  lemma SearchingTop(m: Lists, start: nat, graph: set<nat>, stack: seq<nat>)
    requires Searching(m, start, graph, stack) && stack != []
    ensures stack[|stack| - 1] in m
  {
  }

  /** With the stack empty, the collected boxes are the whole circuit. */
  lemma SearchingDone(m: Lists, start: nat, graph: set<nat>)
    requires Searching(m, start, graph, [])
    ensures graph == Component(m, start)
  {
    ComponentLeast(m, start, graph);
  }

  /** Collecting a box of the circuit leaves fewer of its boxes to collect. */
  lemma FewerLeft(circuit: set<nat>, graph: set<nat>, v: nat)
    requires v in circuit && v !in graph
    ensures |circuit - (graph + {v})| < |circuit - graph|
  {
    assert circuit - (graph + {v}) == (circuit - graph) - {v};
  }

  /** The inner loop of `get_all_graphs`: a depth-first search from `start` with an
      explicit stack; a popped box not yet in the circuit joins it and its whole
      list is pushed. The result is the circuit of `start`. */
  method Traverse(lists: Lists, start: nat) returns (graph: set<nat>)
    requires Symmetric(lists) && start in lists
    ensures graph == Component(lists, start)
  {
    ComponentHasRoot(lists, start);
    var stack := [start];
    graph := {};
    while stack != []
      invariant Searching(lists, start, graph, stack)
      decreases |Component(lists, start) - graph|, |stack|
    {
      SearchingTop(lists, start, graph, stack);
      var v := stack[|stack| - 1];
      ghost var popped := stack;
      stack := stack[..|stack| - 1];
      assert stack + [v] == popped;
      if v in graph {
        PopSeen(lists, start, graph, stack, v);
      } else {
        PopCollect(lists, start, graph, stack, v);
        FewerLeft(Component(lists, start), graph, v);
        graph := graph + {v};
        stack := stack + lists[v];
      }
    }
    SearchingDone(lists, start, graph);
  }

  /** The boxes of all circuits found so far. */
  ghost function Union(graphs: seq<set<nat>>): set<nat> {
    if graphs == [] then {} else Union(graphs[..|graphs| - 1]) + graphs[|graphs| - 1]
  }

  lemma {:induction false} UnionMembers(graphs: seq<set<nat>>, x: nat)
    ensures x in Union(graphs) <==> exists k :: 0 <= k < |graphs| && x in graphs[k]
  {
    if graphs != [] {
      var init := graphs[..|graphs| - 1];
      UnionMembers(init, x);
      if x in Union(graphs) && x !in graphs[|graphs| - 1] {
        var k :| 0 <= k < |init| && x in init[k];
        assert graphs[k] == init[k];
      }
      if k :| 0 <= k < |graphs| && x in graphs[k] {
        if k < |init| {
          assert init[k] == graphs[k];
        }
      }
    }
  }

  /** What the outer loop of `get_all_graphs` keeps true: each graph found is a
      circuit, no two share a box, and the boxes not yet found are the candidates. */
  ghost predicate Enumerating(m: Lists, candidates: set<nat>, graphs: seq<set<nat>>) {
    candidates <= m.Keys
    && (forall k :: 0 <= k < |graphs| ==> graphs[k] in ComponentsOf(m))
    && (forall j, k :: 0 <= j < k < |graphs| ==> graphs[j] !! graphs[k])
    && Union(graphs) == m.Keys - candidates
  }

  /** A circuit whose root was not found yet shares no box with those found. */
  lemma NewCircuitDisjoint(m: Lists, graphs: seq<set<nat>>, start: nat)
    requires Symmetric(m) && start in m && start !in Union(graphs)
    requires forall k :: 0 <= k < |graphs| ==> graphs[k] in ComponentsOf(m)
    ensures forall k :: 0 <= k < |graphs| ==> graphs[k] !! Component(m, start)
  {
    ComponentHasRoot(m, start);
    UnionMembers(graphs, start);
    forall k | 0 <= k < |graphs| ensures graphs[k] !! Component(m, start) {
      var u :| u in m && graphs[k] == Component(m, u);
      ComponentsDisjoint(m, u, start);
    }
  }

  lemma DisjointAppend(graphs: seq<set<nat>>, graph: set<nat>)
    requires forall j, k :: 0 <= j < k < |graphs| ==> graphs[j] !! graphs[k]
    requires forall k :: 0 <= k < |graphs| ==> graphs[k] !! graph
    ensures forall j, k :: 0 <= j < k < |graphs| + 1 ==> (graphs + [graph])[j] !! (graphs + [graph])[k]
  {
    var graphs' := graphs + [graph];
    forall j, k | 0 <= j < k < |graphs'| ensures graphs'[j] !! graphs'[k] {
      assert graphs'[j] == graphs[j];
    }
  }

  lemma UnionAppend(graphs: seq<set<nat>>, graph: set<nat>)
    ensures Union(graphs + [graph]) == Union(graphs) + graph
  {
    assert (graphs + [graph])[..|graphs|] == graphs;
  }

  /** Moving a set of keys from the candidates to the found boxes. */
  lemma CandidatesShrink(keys: set<nat>, candidates: set<nat>, graph: set<nat>, start: nat)
    requires candidates <= keys && graph <= keys && start in candidates && start in graph
    ensures (keys - candidates) + graph == keys - (candidates - graph)
    ensures |candidates - graph| < |candidates|
  {
    var rest := candidates - graph;
    assert start !in rest && rest + {start} <= candidates;
    SubsetSize(rest + {start}, candidates);
  }

  /** Adding the circuit of a candidate keeps the enumeration going. */
  lemma EnumerateStep(m: Lists, candidates: set<nat>, graphs: seq<set<nat>>, start: nat)
    requires Symmetric(m) && Enumerating(m, candidates, graphs) && start in candidates
    ensures Enumerating(m, candidates - Component(m, start), graphs + [Component(m, start)])
    ensures |candidates - Component(m, start)| < |candidates|
  {
    var graph := Component(m, start);
    NewCircuitDisjoint(m, graphs, start);
    DisjointAppend(graphs, graph);
    UnionAppend(graphs, graph);
    ComponentHasRoot(m, start);
    CandidatesShrink(m.Keys, candidates, graph, start);
    assert graph in ComponentsOf(m);
  }

  /** With no candidates left, the graphs found are exactly the circuits. */
  lemma EnumerateDone(m: Lists, graphs: seq<set<nat>>)
    requires Symmetric(m) && Enumerating(m, {}, graphs)
    ensures forall c :: c in ComponentsOf(m) ==> c in graphs
  {
    forall c | c in ComponentsOf(m) ensures c in graphs {
      var v :| v in m && c == Component(m, v);
      UnionMembers(graphs, v);
      var k :| 0 <= k < |graphs| && v in graphs[k];
      var u :| u in m && graphs[k] == Component(m, u);
      SameComponent(m, u, v);
    }
  }

  /** A sequence without repeats has as many elements as its set. */
  lemma {:induction false} DistinctCount<T>(s: seq<T>)
    requires forall j, k :: 0 <= j < k < |s| ==> s[j] != s[k]
    ensures |set x | x in s| == |s|
  {
    if s != [] {
      var init := s[..|s| - 1];
      DistinctCount(init);
      assert (set x | x in s) == (set x | x in init) + {s[|s| - 1]};
    }
  }

  /** The circuits are pairwise disjoint and each holds its own root, so the graphs
      found are as many as the circuits. */
  lemma EnumerateCount(m: Lists, graphs: seq<set<nat>>)
    requires Symmetric(m) && Enumerating(m, {}, graphs)
    ensures |graphs| == |ComponentsOf(m)|
  {
    EnumerateDone(m, graphs);
    forall j, k | 0 <= j < k < |graphs| ensures graphs[j] != graphs[k] {
      var u :| u in m && graphs[j] == Component(m, u);
      ComponentHasRoot(m, u);
    }
    DistinctCount(graphs);
    assert (set x | x in graphs) == ComponentsOf(m);
  }

  /** `get_all_graphs`: while a candidate box is left (taken in the set's own order),
      collect its circuit and drop the circuit's boxes from the candidates. The
      result lists every circuit exactly once. */
  method AllGraphs(lists: Lists) returns (graphs: seq<set<nat>>)
    requires Symmetric(lists)
    ensures forall k :: 0 <= k < |graphs| ==> graphs[k] in ComponentsOf(lists)
    ensures forall c :: c in ComponentsOf(lists) ==> c in graphs
    ensures forall j, k :: 0 <= j < k < |graphs| ==> graphs[j] !! graphs[k]
    ensures |graphs| == |ComponentsOf(lists)|
  {
    var candidates := lists.Keys;
    graphs := [];
    while candidates != {}
      invariant Enumerating(lists, candidates, graphs)
      decreases |candidates|
    {
      var start :| start in candidates;
      var graph := Traverse(lists, start);
      EnumerateStep(lists, candidates, graphs, start);
      candidates := candidates - graph;
      graphs := graphs + [graph];
    }
    EnumerateDone(lists, graphs);
    EnumerateCount(lists, graphs);
  }

  // ------------------------------------------------- get_fully_connecting_edge

  /** A subset is no larger. */
  lemma SubsetSize<T>(a: set<T>, b: set<T>)
    requires a <= b
    ensures |a| <= |b|
  {
    assert b == a + (b - a);
  }

  /** A circuit that holds neither end of a new connection is still a circuit. */
  lemma UntouchedComponent(m: Lists, a: nat, b: nat, v: nat)
    requires Symmetric(m) && a in m && b in m && v in m
    requires a !in Component(m, v) && b !in Component(m, v)
    ensures Component(Linked(m, a, b), v) == Component(m, v)
  {
    var m' := Linked(m, a, b);
    LinkedEntries(m, a, b);
    LinkedIncludes(m, a, b);
    forall w | w in Component(m, v) ensures w in Component(m', v) {
      ReachIncludes(m, m', v, w);
    }
    ComponentClosed(m, v);
    assert Closed(m', Component(m, v));
    ComponentHasRoot(m, v);
    ComponentLeast(m', v, Component(m, v));
  }

  /** A box lies in exactly the circuit it has. */
  lemma ComponentOfMember(m: Lists, c: set<nat>, v: nat)
    requires Symmetric(m) && c in ComponentsOf(m) && v in c
    ensures c == Component(m, v)
  {
    var u :| u in m && c == Component(m, u);
    SameComponent(m, u, v);
  }

  /** The circuits other than those of `a` and `b` survive the connection, and the
      merged circuit of `a` is not among them. */
  lemma MergeKeepsOthers(m: Lists, a: nat, b: nat)
    requires Symmetric(m) && a in m && b in m
    ensures ComponentsOf(m) - {Component(m, a), Component(m, b)} + {Component(Linked(m, a, b), a)}
            <= ComponentsOf(Linked(m, a, b))
    ensures Component(Linked(m, a, b), a) !in ComponentsOf(m) - {Component(m, a), Component(m, b)}
  {
    var m' := Linked(m, a, b);
    LinkedEntries(m, a, b);
    var others := ComponentsOf(m) - {Component(m, a), Component(m, b)};
    forall c | c in others ensures c in ComponentsOf(m') {
      var v :| v in m && c == Component(m, v);
      if a in c {
        ComponentOfMember(m, c, a);
      }
      if b in c {
        ComponentOfMember(m, c, b);
      }
      UntouchedComponent(m, a, b, v);
    }
    assert Component(m', a) in ComponentsOf(m');
    ComponentHasRoot(m', a);
    if Component(m', a) in others {
      ComponentOfMember(m, Component(m', a), a);
    }
  }

  /** `potential_num_graphs`: one connection merges at most two circuits into one,
      so the number of circuits drops by at most one. */
  lemma MergeCount(m: Lists, a: nat, b: nat)
    requires Symmetric(m) && a in m && b in m
    ensures |ComponentsOf(m)| <= |ComponentsOf(Linked(m, a, b))| + 1
  {
    MergeKeepsOthers(m, a, b);
    var others := ComponentsOf(m) - {Component(m, a), Component(m, b)};
    SubsetSize(others + {Component(Linked(m, a, b), a)}, ComponentsOf(Linked(m, a, b)));
  }

  /** One singleton per element. */
  function Singletons(keys: set<nat>): set<set<nat>> {
    set i | i in keys :: {i}
  }

  /** As many singletons as elements. */
  lemma {:induction false} SingletonsCount(keys: set<nat>)
    ensures |Singletons(keys)| == |keys|
    decreases |keys|
  {
    if keys != {} {
      var x :| x in keys;
      var rest := keys - {x};
      assert keys == rest + {x} && |rest| == |keys| - 1;
      SingletonsCount(rest);
      assert {x} !in Singletons(rest) by {
        forall i | i in rest ensures {i} != {x} {
          assert i in {i};
        }
      }
      assert Singletons(keys) == Singletons(rest) + {{x}};
    }
  }

  /** Before any connection every box is a circuit of its own. */
  lemma IsolatedCount(boxes: seq<JunctionBox>)
    ensures |ComponentsOf(Isolated(boxes))| == |Indices(boxes)|
  {
    var m := Isolated(boxes);
    forall v | v in m ensures Component(m, v) == {v} {
      assert Closed(m, {v});
      ComponentHasRoot(m, v);
      ComponentLeast(m, v, {v});
    }
    assert ComponentsOf(m) == Singletons(Indices(boxes));
    SingletonsCount(Indices(boxes));
  }

  /** The boxes form a single circuit. */
  ghost predicate Connected(m: Lists) {
    |ComponentsOf(m)| == 1
  }

  /** The first edge after whose connection the boxes form a single circuit, the
      connections being made in order from `m`. */
  ghost function FirstConnecting(m: Lists, edges: seq<Edge>): Option<Edge>
    decreases |edges|
  {
    if edges == [] then None
    else
      var m' := Linked(m, edges[0].a.index, edges[0].b.index);
      if Connected(m') then Some(edges[0]) else FirstConnecting(m', edges[1..])
  }

  /** The boxes form a single circuit once the first `j + 1` edges are connected. */
  ghost predicate ConnectedAfter(m: Lists, edges: seq<Edge>, j: nat)
    requires j < |edges|
  {
    Connected(LinkAll(m, edges[..j + 1]))
  }

  /** Connecting the first `j + 1` edges from `m` is connecting the first edge, then
      the next `j` of the rest. */
  lemma ConnectedAfterStep(m: Lists, edges: seq<Edge>, j: nat)
    requires j < |edges|
    ensures j == 0 ==> (ConnectedAfter(m, edges, j) <==> Connected(Linked(m, edges[0].a.index, edges[0].b.index)))
    ensures j > 0 ==> (ConnectedAfter(m, edges, j)
                       <==> ConnectedAfter(Linked(m, edges[0].a.index, edges[0].b.index), edges[1..], j - 1))
  {
    assert edges[..j + 1][1..] == edges[1..][..j];
    if j == 0 {
      var m' := Linked(m, edges[0].a.index, edges[0].b.index);
      assert edges[..1][1..] == [] && edges[..1][0] == edges[0];
      assert LinkAll(m, edges[..1]) == LinkAll(m', []) == m';
    }
  }

  /** The search finds nothing when no prefix of the edges connects the boxes. */
  lemma {:induction false} FirstConnectingNever(m: Lists, edges: seq<Edge>)
    requires forall j :: 0 <= j < |edges| ==> !ConnectedAfter(m, edges, j)
    ensures FirstConnecting(m, edges) == None
    decreases |edges|
  {
    if edges != [] {
      var m' := Linked(m, edges[0].a.index, edges[0].b.index);
      ConnectedAfterStep(m, edges, 0);
      forall j | 0 <= j < |edges| - 1 ensures !ConnectedAfter(m', edges[1..], j) {
        ConnectedAfterStep(m, edges, j + 1);
      }
      FirstConnectingNever(m', edges[1..]);
    }
  }

  /** The search finds nothing only when no prefix of the edges connects the boxes. */
  lemma {:induction false} FirstConnectingFound(m: Lists, edges: seq<Edge>, k: nat)
    requires k < |edges| && ConnectedAfter(m, edges, k)
    ensures FirstConnecting(m, edges) != None
    decreases k
  {
    var m' := Linked(m, edges[0].a.index, edges[0].b.index);
    ConnectedAfterStep(m, edges, k);
    if k > 0 && !Connected(m') {
      FirstConnectingFound(m', edges[1..], k - 1);
    }
  }

  /** The search returns the edge of the shortest connecting prefix. */
  lemma {:induction false} FirstConnectingSome(m: Lists, edges: seq<Edge>, k: nat)
    requires k < |edges| && ConnectedAfter(m, edges, k)
    requires forall j :: 0 <= j < k ==> !ConnectedAfter(m, edges, j)
    ensures FirstConnecting(m, edges) == Some(edges[k])
    decreases k
  {
    var m' := Linked(m, edges[0].a.index, edges[0].b.index);
    ConnectedAfterStep(m, edges, 0);
    if k > 0 {
      forall j | 0 <= j < k - 1 ensures !ConnectedAfter(m', edges[1..], j) {
        ConnectedAfterStep(m, edges, j + 1);
      }
      ConnectedAfterStep(m, edges, k);
      FirstConnectingSome(m', edges[1..], k - 1);
    }
  }

  /** Every edge joins two of the boxes. */
  predicate Joins(edges: seq<Edge>, keys: set<nat>) {
    forall k :: 0 <= k < |edges| ==> edges[k].a.index in keys && edges[k].b.index in keys
  }

  /** One connection of `get_fully_connecting_edge`: the lists keep their keys and
      their symmetry, the estimate minus one still bounds the circuits from below,
      and the search moves on to the next edge unless this one connects. */
  lemma ConnectStep(m: Lists, edges: seq<Edge>, i: nat, potential: nat)
    requires i < |edges| && Symmetric(m) && Joins(edges, m.Keys)
    requires potential + 1 <= |ComponentsOf(m)|
    ensures Linked(m, edges[i].a.index, edges[i].b.index).Keys == m.Keys
    ensures Symmetric(Linked(m, edges[i].a.index, edges[i].b.index))
    ensures potential <= |ComponentsOf(Linked(m, edges[i].a.index, edges[i].b.index))|
    ensures FirstConnecting(m, edges[i..])
            == if Connected(Linked(m, edges[i].a.index, edges[i].b.index)) then Some(edges[i])
               else FirstConnecting(Linked(m, edges[i].a.index, edges[i].b.index), edges[i + 1..])
  {
    var a, b := edges[i].a.index, edges[i].b.index;
    LinkedEntries(m, a, b);
    LinkedSymmetric(m, a, b);
    MergeCount(m, a, b);
    assert edges[i..][1..] == edges[i + 1..];
  }

  /** There is a circuit as soon as there is a box. */
  lemma SomeComponent(m: Lists, v: nat)
    requires v in m
    ensures |ComponentsOf(m)| >= 1
  {
    assert Component(m, v) in ComponentsOf(m);
  }

  /** `get_fully_connecting_edge`: the edges are connected in order, starting from one
      empty list per box; the circuits are counted only once the running estimate
      `potential_num_graphs` (one less than the boxes, less one per edge, reset to one
      less than the circuits after each count) falls to one. The estimate never
      exceeds the true number of circuits less one, so the edge returned is the first
      after which the boxes form one circuit; `None` stands for the `expect` that fails
      when no edge does. */
  method FullyConnectingEdge(edges: seq<Edge>, boxes: seq<JunctionBox>) returns (edge: Option<Edge>)
    requires |Indices(boxes)| >= 2
    requires Joins(edges, Indices(boxes))
    ensures edge == FirstConnecting(Isolated(boxes), edges)
  {
    var adjacency := new AdjacencyList.FromBoxes(boxes);
    IsolatedCount(boxes);
    var potential: nat := |adjacency.lists| - 1;
    var i := 0;
    while i < |edges|
      invariant i <= |edges|
      invariant adjacency.lists.Keys == Indices(boxes) && Symmetric(adjacency.lists)
      invariant 1 <= potential && potential + 1 <= |ComponentsOf(adjacency.lists)|
      invariant FirstConnecting(Isolated(boxes), edges) == FirstConnecting(adjacency.lists, edges[i..])
    {
      ConnectStep(adjacency.lists, edges, i, potential);
      adjacency.Connect(edges[i]);
      potential := potential - 1;
      if potential <= 1 {
        var v :| v in adjacency.lists;
        SomeComponent(adjacency.lists, v);
        var graphs := AllGraphs(adjacency.lists);
        potential := |graphs| - 1;
        if |graphs| == 1 {
          return Some(edges[i]);
        }
      }
      i := i + 1;
    }
    return None;
  }

  // ------------------------------------ get_multiplied_size_of_largest_circuits

  /** The order of `graphs.sort_by(|a, b| a.len().cmp(&b.len()))`. */
  function SizeKey(g: set<nat>): Key {
    (|g|, 0)
  }

  /** `iter().rev().take(k).map(|g| g.len()).fold(1, |acc, curr| acc * curr)`: the
      product of the sizes of the last `k` graphs (of all of them when fewer). */
  function TopProduct(graphs: seq<set<nat>>, k: nat): nat {
    if k == 0 || graphs == [] then 1
    else |graphs[|graphs| - 1]| * TopProduct(graphs[..|graphs| - 1], k - 1)
  }

  /** The product reads only the sizes. */
  lemma {:induction false} TopProductOfSizes(g: seq<set<nat>>, h: seq<set<nat>>, k: nat)
    requires KeysOf(g, SizeKey) == KeysOf(h, SizeKey)
    ensures TopProduct(g, k) == TopProduct(h, k)
    decreases k
  {
    if k > 0 && g != [] {
      var n := |g| - 1;
      assert SizeKey(g[n]) == SizeKey(h[n]);
      assert KeysOf(g[..n], SizeKey) == KeysOf(h[..n], SizeKey);
      TopProductOfSizes(g[..n], h[..n], k - 1);
    }
  }

  /** No circuit is listed twice. */
  ghost predicate Once(graphs: seq<set<nat>>) {
    forall c :: multiset(graphs)[c] <= 1
  }

  lemma {:induction false} DistinctOnce(graphs: seq<set<nat>>)
    requires forall j, k :: 0 <= j < k < |graphs| ==> graphs[j] != graphs[k]
    ensures Once(graphs)
  {
    if graphs != [] {
      var n := |graphs| - 1;
      DistinctOnce(graphs[..n]);
      assert graphs == graphs[..n] + [graphs[n]];
      assert graphs[n] !in graphs[..n];
    }
  }

  /** Two listings of the same circuits, each circuit once, are permutations. */
  lemma OnceSame(g: seq<set<nat>>, h: seq<set<nat>>)
    requires Once(g) && Once(h) && forall c :: c in g <==> c in h
    ensures multiset(g) == multiset(h)
  {
    forall c ensures multiset(g)[c] == multiset(h)[c] {
      if c in g {
        var i :| 0 <= i < |g| && g[i] == c;
        var j :| 0 <= j < |h| && h[j] == c;
        assert g[i] in multiset(g) && h[j] in multiset(h);
      } else {
        assert c !in multiset(g) && c !in multiset(h);
      }
    }
  }

  /** The answer depends only on the circuits: whatever order the candidate boxes are
      taken in, sorting by size gives the same sizes and so the same product. */
  lemma LargestCircuitsDetermined(g: seq<set<nat>>, h: seq<set<nat>>)
    requires Once(g) && Once(h) && forall c :: c in g <==> c in h
    requires Sorted(g, SizeKey) && Sorted(h, SizeKey)
    ensures TopProduct(g, 3) == TopProduct(h, 3)
  {
    OnceSame(g, h);
    SortedKeysUnique(g, h, SizeKey);
    TopProductOfSizes(g, h, 3);
  }

  /** With at least three graphs sorted by size, the product is that of the last
      three sizes, and no other graph is larger than any of those three. */
  lemma TopProductLargest(graphs: seq<set<nat>>)
    requires Sorted(graphs, SizeKey) && |graphs| >= 3
    ensures var n := |graphs|;
            TopProduct(graphs, 3) == |graphs[n - 1]| * (|graphs[n - 2]| * |graphs[n - 3]|)
    ensures forall k :: 0 <= k < |graphs| - 3 ==> |graphs[k]| <= |graphs[|graphs| - 3]|
  {
    var n := |graphs|;
    var two, one := graphs[..n - 1], graphs[..n - 2];
    assert two[|two| - 1] == graphs[n - 2] && two[..|two| - 1] == one;
    assert one[|one| - 1] == graphs[n - 3];
    var rest := TopProduct(one[..|one| - 1], 0);
    assert TopProduct(one, 1) == |graphs[n - 3]| * rest && rest == 1;
    assert TopProduct(two, 2) == |graphs[n - 2]| * |graphs[n - 3]|;
    forall k | 0 <= k < n - 3 ensures |graphs[k]| <= |graphs[n - 3]| {
      assert KeyLe(SizeKey(graphs[k]), SizeKey(graphs[n - 3]));
    }
  }

  /** `get_multiplied_size_of_largest_circuits`: connect the edges in order from empty
      lists, list the circuits, sort them by size and multiply the sizes of the last
      three. Only boxes named by some edge have a list, so only their circuits are
      counted. */
  method LargestCircuitsProduct(edges: seq<Edge>) returns (graphs: seq<set<nat>>, product: nat)
    ensures forall c :: c in graphs <==> c in ComponentsOf(LinkAll(map[], edges))
    ensures Once(graphs) && Sorted(graphs, SizeKey)
    ensures product == TopProduct(graphs, 3)
  {
    var adjacency := new AdjacencyList();
    var i := 0;
    while i < |edges|
      invariant i <= |edges| && Symmetric(adjacency.lists)
      invariant LinkAll(adjacency.lists, edges[i..]) == LinkAll(map[], edges)
    {
      LinkAllStep(adjacency.lists, edges, i);
      LinkedSymmetric(adjacency.lists, edges[i].a.index, edges[i].b.index);
      adjacency.Connect(edges[i]);
      i := i + 1;
    }
    var found := AllGraphs(adjacency.lists);
    forall j, k | 0 <= j < k < |found| ensures found[j] != found[k] {
      var u :| u in adjacency.lists && found[j] == Component(adjacency.lists, u);
      ComponentHasRoot(adjacency.lists, u);
    }
    DistinctOnce(found);
    var a := new set<nat>[|found|](k requires 0 <= k < |found| => found[k]);
    assert a[..] == found;
    SortBy(a, SizeKey);
    graphs := a[..];
    InsertionSortPermutes(found, SizeKey);
    InsertionSortSorted(found, SizeKey);
    assert forall c :: c in graphs <==> c in multiset(found);
    product := TopProduct(graphs, 3);
  }

  /** The sorted edges of `closest_junction_boxes` join boxes of the input, as
      `get_fully_connecting_edge` needs. */
  lemma SortedPairsJoin(boxes: seq<JunctionBox>, edges: seq<Edge>)
    requires multiset(edges) == multiset(Pairs(boxes))
    ensures Joins(edges, Indices(boxes))
  {
    forall k | 0 <= k < |edges| ensures edges[k].a.index in Indices(boxes) && edges[k].b.index in Indices(boxes) {
      assert edges[k] in multiset(Pairs(boxes));
      PairsSound(boxes, edges[k]);
      var i, j :| 0 <= i < j < |boxes| && edges[k] == MakeEdge(boxes[i], boxes[j]);
      assert boxes[i] in boxes && boxes[j] in boxes;
    }
  }

  /** `get_multiplied_fully_connecting_x_coordinates`: the product of the `x`
      coordinates of the two boxes of the fully connecting edge. */
  method ConnectingXProduct(edges: seq<Edge>, boxes: seq<JunctionBox>) returns (product: Option<int>)
    requires |Indices(boxes)| >= 2
    requires Joins(edges, Indices(boxes))
    ensures FirstConnecting(Isolated(boxes), edges) == None ==> product == None
    ensures FirstConnecting(Isolated(boxes), edges).Some? ==>
              var e := FirstConnecting(Isolated(boxes), edges).value;
              product == Some(e.a.x * e.b.x)
  {
    var edge := FullyConnectingEdge(edges, boxes);
    product := if edge.Some? then Some(edge.value.a.x * edge.value.b.x) else None;
  }
}
