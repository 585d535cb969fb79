/** The node table of the simple road drawing: every pair of consecutive
    road nodes contributes one half-edge at each of its two nodes, and a
    node where at least four half-edges meet becomes an intersection. */
module Junctions {
  import opened Osm
  import opened Svg

  /** A road as the node table sees it: its node list. */
  datatype Road = Road(nodes: seq<OsmNode>)

  /** The pairs (road, index) of `range(len(road.nodes) - 1)` for road `r`,
      the first `count` of them. */
  function RoadPairs(r: nat, count: nat): (pairs: seq<(nat, nat)>)
    ensures |pairs| == count
    ensures forall k :: 0 <= k < count ==> pairs[k] == (r, k)
  {
    if count == 0 then [] else RoadPairs(r, count - 1) + [(r, count - 1)]
  }

  /** The number of consecutive node pairs of a road. */
  function PairCount(road: Road): nat
  {
    if |road.nodes| == 0 then 0 else |road.nodes| - 1
  }

  /** Every consecutive node pair of the first `n` roads, in loop order. */
  function Pairs(roads: seq<Road>, n: nat): seq<(nat, nat)>
    requires n <= |roads|
  {
    if n == 0 then [] else Pairs(roads, n - 1) + RoadPairs(n - 1, PairCount(roads[n - 1]))
  }

  predicate ValidPair(roads: seq<Road>, pair: (nat, nat))
  {
    pair.0 < |roads| && pair.1 + 1 < |roads[pair.0].nodes|
  }

  predicate ValidPairs(roads: seq<Road>, pairs: seq<(nat, nat)>)
  {
    forall p :: p in pairs ==> ValidPair(roads, p)
  }

  lemma {:induction false} PairsValid(roads: seq<Road>, n: nat)
    requires n <= |roads|
    ensures ValidPairs(roads, Pairs(roads, n))
  {
    if n > 0 {
      PairsValid(roads, n - 1);
      var tail := RoadPairs(n - 1, PairCount(roads[n - 1]));
      forall p | p in tail ensures ValidPair(roads, p) {
        var k :| 0 <= k < |tail| && tail[k] == p;
      }
    }
  }

  /** The node a half-edge starts from: `RoadPart(point_1, point_2, ...)`
      leaves the first node of its pair, `RoadPart(point_2, point_1, ...)`
      the second. */
  function Endpoint(roads: seq<Road>, part: RoadPart): OsmNode
    requires ValidPair(roads, (part.road, part.index))
  {
    if part.forward then roads[part.road].nodes[part.index]
    else roads[part.road].nodes[part.index + 1]
  }

  /** Half-edge `part` comes from one of `pairs` and starts at `node`. */
  predicate Touches(roads: seq<Road>, pairs: seq<(nat, nat)>, node: OsmNode, part: RoadPart)
    requires ValidPairs(roads, pairs)
  {
    (part.road, part.index) in pairs && Endpoint(roads, part) == node
  }

  /** The `nodes` dictionary: the half-edges at each node, and its keys in
      insertion order. */
  datatype Table = Table(parts: map<OsmNode, set<RoadPart>>, order: seq<OsmNode>)

  /** Records `part` at `node`, creating the node's entry first if needed. */
  function Visit(table: Table, node: OsmNode, part: RoadPart): Table
  {
    if node in table.parts then Table(table.parts[node := table.parts[node] + {part}], table.order)
    else Table(table.parts[node := {part}], table.order + [node])
  }

  /** One pass of the inner loop: both nodes of pair (r, i) get their
      entries, then each gets the half-edge leaving it. */
  function Step(roads: seq<Road>, table: Table, r: nat, i: nat): Table
    requires ValidPair(roads, (r, i))
  {
    var nodes := roads[r].nodes;
    Visit(Visit(table, nodes[i], RoadPart(r, i, true)), nodes[i + 1], RoadPart(r, i, false))
  }

  /** The table after the given pairs. */
  function Build(roads: seq<Road>, pairs: seq<(nat, nat)>): Table
    requires ValidPairs(roads, pairs)
  {
    if |pairs| == 0 then Table(map[], [])
    else
      var init := pairs[..|pairs| - 1];
      assert forall p :: p in init ==> p in pairs;
      assert ValidPair(roads, pairs[|pairs| - 1]);
      Step(roads, Build(roads, init), pairs[|pairs| - 1].0, pairs[|pairs| - 1].1)
  }

  /** Building over one more pair is one more step. */
  lemma BuildSnoc(roads: seq<Road>, pairs: seq<(nat, nat)>, r: nat, i: nat)
    requires ValidPairs(roads, pairs) && ValidPair(roads, (r, i))
    ensures ValidPairs(roads, pairs + [(r, i)])
    ensures Build(roads, pairs + [(r, i)]) == Step(roads, Build(roads, pairs), r, i)
  {
    assert (pairs + [(r, i)])[..|pairs|] == pairs;
  }

  /** The keys in order are the dictionary's keys, each once. */
  ghost predicate Ordered(table: Table)
  {
    (forall node :: node in table.parts <==> node in table.order) &&
    forall a, b :: 0 <= a < b < |table.order| ==> table.order[a] != table.order[b]
  }

  /** `table` records at each node exactly the half-edges of `pairs` that
      start there, and has a key for exactly the nodes some half-edge
      starts from. */
  ghost predicate Records(roads: seq<Road>, pairs: seq<(nat, nat)>, table: Table)
    requires ValidPairs(roads, pairs)
  {
    Ordered(table) &&
    (forall node, part :: node in table.parts ==>
      (part in table.parts[node] <==> Touches(roads, pairs, node, part))) &&
    (forall node :: node in table.parts ==> table.parts[node] != {}) &&
    (forall node, part :: Touches(roads, pairs, node, part) ==> node in table.parts)
  }

  lemma TouchesAppend(roads: seq<Road>, pairs: seq<(nat, nat)>, r: nat, i: nat)
    requires ValidPairs(roads, pairs) && ValidPair(roads, (r, i))
    ensures ValidPairs(roads, pairs + [(r, i)])
    ensures forall node, part :: Touches(roads, pairs + [(r, i)], node, part) <==>
      Touches(roads, pairs, node, part) ||
      (part == RoadPart(r, i, true) && node == roads[r].nodes[i]) ||
      (part == RoadPart(r, i, false) && node == roads[r].nodes[i + 1])
  {
  }

  lemma VisitFacts(table: Table, node: OsmNode, part: RoadPart)
    requires Ordered(table)
    ensures Ordered(Visit(table, node, part))
    ensures forall n :: n in Visit(table, node, part).parts <==> n in table.parts || n == node
    ensures forall n, q :: n in Visit(table, node, part).parts ==>
      (q in Visit(table, node, part).parts[n] <==> (n in table.parts && q in table.parts[n]) || (n == node && q == part))
  {
  }

  lemma StepRecords(roads: seq<Road>, pairs: seq<(nat, nat)>, table: Table, r: nat, i: nat)
    requires ValidPairs(roads, pairs) && ValidPair(roads, (r, i)) && Records(roads, pairs, table)
    ensures ValidPairs(roads, pairs + [(r, i)])
    ensures Records(roads, pairs + [(r, i)], Step(roads, table, r, i))
  {
    TouchesAppend(roads, pairs, r, i);
    var nodes := roads[r].nodes;
    var forward, backward := RoadPart(r, i, true), RoadPart(r, i, false);
    var middle := Visit(table, nodes[i], forward);
    VisitFacts(table, nodes[i], forward);
    VisitFacts(middle, nodes[i + 1], backward);
    StepParts(roads, pairs, table, r, i);
    StepKeys(roads, pairs, table, r, i);
  }

  lemma StepParts(roads: seq<Road>, pairs: seq<(nat, nat)>, table: Table, r: nat, i: nat)
    requires ValidPairs(roads, pairs) && ValidPair(roads, (r, i)) && Records(roads, pairs, table)
    ensures ValidPairs(roads, pairs + [(r, i)])
    ensures var after := Step(roads, table, r, i);
      forall node, part :: node in after.parts ==>
        (part in after.parts[node] <==> Touches(roads, pairs + [(r, i)], node, part))
  {
    TouchesAppend(roads, pairs, r, i);
    var nodes := roads[r].nodes;
    var forward, backward := RoadPart(r, i, true), RoadPart(r, i, false);
    var middle := Visit(table, nodes[i], forward);
    VisitFacts(table, nodes[i], forward);
    VisitFacts(middle, nodes[i + 1], backward);
    var after := Step(roads, table, r, i);
    forall node, part | node in after.parts
      ensures part in after.parts[node] <==> Touches(roads, pairs + [(r, i)], node, part)
    {
      if node in table.parts {
        assert part in table.parts[node] <==> Touches(roads, pairs, node, part);
      } else {
        assert !Touches(roads, pairs, node, part);
      }
    }
  }

  lemma StepKeys(roads: seq<Road>, pairs: seq<(nat, nat)>, table: Table, r: nat, i: nat)
    requires ValidPairs(roads, pairs) && ValidPair(roads, (r, i)) && Records(roads, pairs, table)
    ensures ValidPairs(roads, pairs + [(r, i)])
    ensures var after := Step(roads, table, r, i);
      (forall node :: node in after.parts ==> after.parts[node] != {}) &&
      (forall node, part :: Touches(roads, pairs + [(r, i)], node, part) ==> node in after.parts)
  {
    TouchesAppend(roads, pairs, r, i);
    var nodes := roads[r].nodes;
    var forward, backward := RoadPart(r, i, true), RoadPart(r, i, false);
    var middle := Visit(table, nodes[i], forward);
    VisitFacts(table, nodes[i], forward);
    VisitFacts(middle, nodes[i + 1], backward);
    var after := Step(roads, table, r, i);
    forall node | node in after.parts ensures after.parts[node] != {} {
      if node == nodes[i + 1] {
        assert backward in after.parts[node];
      } else if node == nodes[i] {
        assert forward in after.parts[node];
      } else {
        assert table.parts[node] != {};
        var q :| q in table.parts[node];
        assert q in after.parts[node];
      }
    }
    forall node, part | Touches(roads, pairs + [(r, i)], node, part) ensures node in after.parts {
      if Touches(roads, pairs, node, part) {
        assert node in table.parts;
      }
    }
  }

  lemma {:induction false} BuildContents(roads: seq<Road>, pairs: seq<(nat, nat)>)
    requires ValidPairs(roads, pairs)
    ensures Records(roads, pairs, Build(roads, pairs))
  {
    if |pairs| > 0 {
      var init := pairs[..|pairs| - 1];
      assert forall p :: p in init ==> p in pairs;
      BuildContents(roads, init);
      var last := pairs[|pairs| - 1];
      assert ValidPair(roads, last);
      assert pairs == init + [(last.0, last.1)];
      StepRecords(roads, init, Build(roads, init), last.0, last.1);
    }
  }

  lemma BuildOrdered(roads: seq<Road>, pairs: seq<(nat, nat)>)
    requires ValidPairs(roads, pairs)
    ensures Ordered(Build(roads, pairs))
  {
    BuildContents(roads, pairs);
  }

  /** The intersections drawn for the first `k` keys: one for each node
      with at least four half-edges. */
  function Intersections(table: Table, k: nat): seq<Element>
    requires Ordered(table) && k <= |table.order|
  {
    if k == 0 then []
    else
      var node := table.order[k - 1];
      var parts := table.parts[node];
      if |parts| < 4 then Intersections(table, k - 1)
      else Intersections(table, k - 1) + [Intersection(parts)]
  }

  lemma {:induction false} IntersectionsContents(table: Table, k: nat)
    requires Ordered(table) && k <= |table.order|
    ensures forall e :: e in Intersections(table, k) <==>
      exists a :: 0 <= a < k && e == Intersection(table.parts[table.order[a]]) && |table.parts[table.order[a]]| >= 4
  {
    if k > 0 {
      IntersectionsContents(table, k - 1);
    }
  }

  /** What `draw_simple_roads` adds to the drawing. */
  function SimpleRoads(roads: seq<Road>): seq<Element>
  {
    PairsValid(roads, |roads|);
    var table := Build(roads, Pairs(roads, |roads|));
    BuildContents(roads, Pairs(roads, |roads|));
    Intersections(table, |table.order|)
  }

  /** `parts` is the set of every half-edge of the roads that starts at
      `node`. */
  ghost predicate PartsAt(roads: seq<Road>, node: OsmNode, parts: set<RoadPart>)
  {
    PairsValid(roads, |roads|);
    forall part :: part in parts <==> Touches(roads, Pairs(roads, |roads|), node, part)
  }

  /** Every intersection drawn gathers all the half-edges at one node, at
      least four of them; and every node where at least four half-edges
      start gets its intersection. */
  lemma SimpleRoadsIntersections(roads: seq<Road>)
    ensures forall e :: e in SimpleRoads(roads) ==>
      e.Intersection? && |e.parts| >= 4 && exists node :: PartsAt(roads, node, e.parts)
    ensures forall node, parts :: PartsAt(roads, node, parts) && |parts| >= 4 ==>
      Intersection(parts) in SimpleRoads(roads)
  {
    PairsValid(roads, |roads|);
    var pairs := Pairs(roads, |roads|);
    var table := Build(roads, pairs);
    BuildContents(roads, pairs);
    IntersectionsContents(table, |table.order|);
    forall e | e in SimpleRoads(roads)
      ensures e.Intersection? && |e.parts| >= 4 && exists node :: PartsAt(roads, node, e.parts)
    {
      var a :| 0 <= a < |table.order| && e == Intersection(table.parts[table.order[a]]) &&
        |table.parts[table.order[a]]| >= 4;
      assert PartsAt(roads, table.order[a], e.parts);
    }
    forall node, parts | PartsAt(roads, node, parts) && |parts| >= 4
      ensures Intersection(parts) in SimpleRoads(roads)
    {
      var part :| part in parts;
      assert Touches(roads, pairs, node, part);
      assert node in table.parts;
      assert table.parts[node] == parts;
      var a :| 0 <= a < |table.order| && table.order[a] == node;
    }
  }
}
