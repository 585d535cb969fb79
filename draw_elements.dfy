/** The fixture builder behind the documentation images: test nodes are laid
    out on a grid (row `i` going south, column `j` going east), ways join
    them, and captions are placed next to rows. Writing the picture is not
    part of this model. */
module DrawElements {
  import opened Wrappers
  import Osm

  /** Python's `max(a, b)`. */
  function Max(a: real, b: real): real
  {
    if b > a then b else a
  }

  /** The node `add_node({}, i, j)` creates as the `id`-th node of a grid
      with steps `xStep` and `yStep`. */
  function GridNode(id: int, i: int, j: int, xStep: real, yStep: real): Osm.OsmNode
  {
    Osm.OsmNode([], id, -(i as real) * yStep, (j as real) * xStep)
  }

  class Grid {
    var xStep: real
    var yStep: real
    var index: int
    /** The `nodes` dictionary in insertion order: each node with its (j, i). */
    var nodes: seq<(Osm.OsmNode, (int, int))>
    var maxJ: real
    var maxI: real
    var wayId: int
    /** The ways handed to the OSM data, in order. */
    var ways: seq<Osm.OsmWay>
    var texts: seq<(string, int, int)>

    /** Node `k` has id `k + 1` and sits at its cell, within the running
        maxima; way `k` has id `k`. */
    ghost predicate Valid()
      reads this
    {
      index == |nodes| && wayId == |ways|
      && 0.0 <= maxJ && 0.0 <= maxI
      && (forall k :: 0 <= k < |nodes| ==> nodes[k].0.id == k + 1 && AtCell(nodes[k]))
      && (forall k :: 0 <= k < |ways| ==> ways[k].id == k)
    }

    ghost predicate AtCell(entry: (Osm.OsmNode, (int, int)))
      reads this
    {
      var (node, (j, i)) := entry;
      node.lat == -(i as real) * yStep && node.lon == (j as real) * xStep
      && (j as real) * xStep <= maxJ && (i as real) * yStep <= maxI
    }

    constructor (xStep: real, yStep: real)
      ensures this.xStep == xStep && this.yStep == yStep
      ensures nodes == [] && ways == [] && texts == []
      ensures index == 0 && wayId == 0 && maxJ == 0.0 && maxI == 0.0
      ensures Valid()
    {
      this.xStep := xStep;
      this.yStep := yStep;
      index := 0;
      nodes := [];
      maxJ := 0.0;
      maxI := 0.0;
      wayId := 0;
      ways := [];
      texts := [];
    }

    /** `add_node`: the new node takes the next id, above every id so far. */
    method AddNode(tags: Osm.Tags, i: int, j: int) returns (node: Osm.OsmNode)
      requires Valid()
      modifies this
      ensures Valid()
      ensures node == Osm.OsmNode(tags, old(index) + 1, -(i as real) * yStep, (j as real) * xStep)
      ensures nodes == old(nodes) + [(node, (j, i))]
      ensures forall k :: 0 <= k < |old(nodes)| ==> old(nodes)[k].0.id < node.id
      ensures maxJ == Max(old(maxJ), (j as real) * xStep)
      ensures maxI == Max(old(maxI), (i as real) * yStep)
      ensures xStep == old(xStep) && yStep == old(yStep)
      ensures ways == old(ways) && texts == old(texts)
    {
      index := index + 1;
      node := Osm.OsmNode(tags, index, -(i as real) * yStep, (j as real) * xStep);
      nodes := nodes + [(node, (j, i))];
      maxJ := Max(maxJ, (j as real) * xStep);
      maxI := Max(maxI, (i as real) * yStep);
      assert forall k :: 0 <= k < |nodes| ==> AtCell(nodes[k]) by {
        forall k | 0 <= k < |nodes| ensures AtCell(nodes[k]) {
          if k < |old(nodes)| {
            assert old(AtCell(nodes[k]));
          }
        }
      }
    }

    /** `add_way`: way ids are 0, 1, 2, ... in call order. */
    method AddWay(tags: Osm.Tags, wayNodes: seq<Osm.OsmNode>)
      requires Valid()
      modifies this
      ensures Valid()
      ensures ways == old(ways) + [Osm.OsmWay(tags, old(wayId), wayNodes)]
      ensures wayId == old(wayId) + 1
      ensures nodes == old(nodes) && index == old(index) && texts == old(texts)
      ensures xStep == old(xStep) && yStep == old(yStep)
      ensures maxJ == old(maxJ) && maxI == old(maxI)
    {
      ways := ways + [Osm.OsmWay(tags, wayId, wayNodes)];
      wayId := wayId + 1;
    }

    method AddText(text: string, i: int, j: int)
      requires Valid()
      modifies this
      ensures Valid()
      ensures texts == old(texts) + [(text, i, j)]
      ensures nodes == old(nodes) && index == old(index) && ways == old(ways)
      ensures xStep == old(xStep) && yStep == old(yStep)
      ensures maxJ == old(maxJ) && maxI == old(maxI)
    {
      texts := texts + [(text, i, j)];
    }

    /** `get_boundary_box`: a margin of one and a half steps on every side, so
        that with positive steps every node placed at a cell with i, j >= 0
        lies strictly inside. */
    function GetBoundaryBox(): (box: Osm.BoundaryBox)
      reads this
      ensures Valid() && xStep > 0.0 && yStep > 0.0 ==>
        forall k :: 0 <= k < |nodes| && nodes[k].1.0 >= 0 && nodes[k].1.1 >= 0 ==>
          box.Surrounds(nodes[k].0)
    {
      var box := Osm.BoundaryBox(-xStep * 1.5, -maxI - yStep * 1.5, maxJ + xStep * 1.5, yStep * 1.5);
      assert Valid() && xStep > 0.0 && yStep > 0.0 ==>
        forall k :: 0 <= k < |nodes| && nodes[k].1.0 >= 0 && nodes[k].1.1 >= 0 ==>
          box.Surrounds(nodes[k].0) by {
        if Valid() && xStep > 0.0 && yStep > 0.0 {
          forall k | 0 <= k < |nodes| && nodes[k].1.0 >= 0 && nodes[k].1.1 >= 0
            ensures box.Surrounds(nodes[k].0)
          {
            assert AtCell(nodes[k]);
            var (j, i) := nodes[k].1;
            assert 0.0 <= (j as real) * xStep && 0.0 <= (i as real) * yStep;
          }
        }
      }
      box
    }
  }

  // draw_road_features

  /** The default steps of `Grid()`. */
  const RoadXStep: real := 0.0002
  const RoadYStep: real := 0.0003

  /** The node at column `j` of row `i` when every row has `count + 1` nodes. */
  function FeatureNode(i: nat, j: nat, count: nat): Osm.OsmNode
  {
    GridNode(i * (count + 1) + j + 1, i, j, RoadXStep, RoadYStep)
  }

  /** The first `columns` nodes of row `i`, with their cells. */
  function FeatureRow(i: nat, count: nat, columns: nat): (cells: seq<(Osm.OsmNode, (int, int))>)
    ensures |cells| == columns
    ensures forall j :: 0 <= j < columns ==> cells[j] == (FeatureNode(i, j, count), (j, i))
  {
    seq(columns, j requires 0 <= j => (FeatureNode(i, j, count), (j, i)))
  }

  /** The nodes of the first `rows` rows, row after row. */
  function FeatureCells(rows: nat, count: nat): seq<(Osm.OsmNode, (int, int))>
  {
    if rows == 0 then []
    else FeatureCells(rows - 1, count) + FeatureRow(rows - 1, count, count + 1)
  }

  /** The first `columns` ways of row `i`: way `j` joins columns `j` and
      `j + 1` and carries the type tags updated by feature `j`. */
  function FeatureWayRow(i: nat, type_: Osm.Tags, features: seq<Osm.Tags>, columns: nat): (ways: seq<Osm.OsmWay>)
    requires columns <= |features|
    ensures |ways| == columns
  {
    seq(columns, j requires 0 <= j < columns =>
      Osm.OsmWay(Osm.Update(type_, features[j]), i * |features| + j,
        [FeatureNode(i, j, |features|), FeatureNode(i, j + 1, |features|)]))
  }

  /** The ways of the first `rows` types, row after row. */
  function FeatureWays(types: seq<Osm.Tags>, features: seq<Osm.Tags>, rows: nat): seq<Osm.OsmWay>
    requires rows <= |types|
  {
    if rows == 0 then []
    else
      var before := FeatureWays(types, features, rows - 1);
      before + FeatureWayRow(rows - 1, types[rows - 1], features, |features|)
  }

  /** `draw_road_features` adds `len(features) + 1` nodes per type. */
  lemma {:induction false} FeatureCellsLength(rows: nat, count: nat)
    ensures |FeatureCells(rows, count)| == rows * (count + 1)
  {
    if rows > 0 {
      FeatureCellsLength(rows - 1, count);
      assert (rows - 1) * (count + 1) + (count + 1) == rows * (count + 1);
    }
  }

  /** The node at column `j` of row `i` is entry `i·(count + 1) + j`, so node
      ids run 1, 2, ... row after row. */
  lemma {:induction false} FeatureCellAt(rows: nat, count: nat, i: nat, j: nat)
    requires i < rows && j <= count
    ensures i * (count + 1) + j < |FeatureCells(rows, count)|
    ensures FeatureCells(rows, count)[i * (count + 1) + j] == (FeatureNode(i, j, count), (j, i))
  {
    FeatureCellsLength(rows - 1, count);
    if i < rows - 1 {
      FeatureCellAt(rows - 1, count, i, j);
    }
  }

  /** `draw_road_features` adds `len(features)` ways per type. */
  lemma {:induction false} FeatureWaysLength(types: seq<Osm.Tags>, features: seq<Osm.Tags>, rows: nat)
    requires rows <= |types|
    ensures |FeatureWays(types, features, rows)| == rows * |features|
  {
    if rows > 0 {
      FeatureWaysLength(types, features, rows - 1);
      assert (rows - 1) * |features| + |features| == rows * |features|;
    }
  }

  /** The way for type `i` and feature `j` has id `i·len(features) + j`, which
      is also its place in the list, joins the consecutive nodes at columns
      `j` and `j + 1` of row `i`, and carries the type's tags updated by the
      feature's. */
  lemma {:induction false} FeatureWayAt(types: seq<Osm.Tags>, features: seq<Osm.Tags>, rows: nat, i: nat, j: nat)
    requires rows <= |types| && i < rows && j < |features|
    ensures i * |features| + j < |FeatureWays(types, features, rows)|
    ensures FeatureWays(types, features, rows)[i * |features| + j]
         == Osm.OsmWay(Osm.Update(types[i], features[j]), i * |features| + j,
              [FeatureNode(i, j, |features|), FeatureNode(i, j + 1, |features|)])
  {
    FeatureWaysLength(types, features, rows - 1);
    if i < rows - 1 {
      FeatureWayAt(types, features, rows - 1, i, j);
    }
  }

  /** A tag of the way for type `i` and feature `j` has the feature's value
      when the feature has that key, and the type's value otherwise. */
  lemma FeatureTagsOverride(types: seq<Osm.Tags>, features: seq<Osm.Tags>, i: nat, j: nat, key: string)
    requires i < |types| && j < |features|
    requires Osm.UniqueKeys(types[i]) && Osm.UniqueKeys(features[j])
    ensures i * |features| + j < |FeatureWays(types, features, |types|)|
    ensures Osm.UniqueKeys(FeatureWays(types, features, |types|)[i * |features| + j].tags)
    ensures Osm.Get(FeatureWays(types, features, |types|)[i * |features| + j].tags, key)
         == if Osm.HasKey(features[j], key) then Osm.Get(features[j], key) else Osm.Get(types[i], key)
  {
    FeatureWayAt(types, features, |types|, i, j);
    Osm.UpdateGet(types[i], features[j], key);
  }

  /** `draw_road_features` without the final drawing: one row of
      `len(features) + 1` nodes per type, each consecutive pair joined by a way. */
  method DrawRoadFeatures(types: seq<Osm.Tags>, features: seq<Osm.Tags>) returns (grid: Grid)
    ensures grid.Valid()
    ensures grid.nodes == FeatureCells(|types|, |features|)
    ensures grid.ways == FeatureWays(types, features, |types|)
    ensures grid.texts == []
  {
    grid := new Grid(RoadXStep, RoadYStep);
    var i := 0;
    while i < |types|
      invariant 0 <= i <= |types|
      invariant grid.Valid()
      invariant grid.xStep == RoadXStep && grid.yStep == RoadYStep
      invariant grid.nodes == FeatureCells(i, |features|)
      invariant grid.ways == FeatureWays(types, features, i)
      invariant grid.texts == []
    {
      FeatureCellsLength(i, |features|);
      FeatureWaysLength(types, features, i);
      DrawRoadRow(grid, i, types[i], features);
      i := i + 1;
    }
  }

  /** The inner loop of `draw_road_features` for type `i`. */
  method DrawRoadRow(grid: Grid, i: nat, type_: Osm.Tags, features: seq<Osm.Tags>)
    requires grid.Valid()
    requires grid.xStep == RoadXStep && grid.yStep == RoadYStep
    requires |grid.nodes| == i * (|features| + 1)
    requires |grid.ways| == i * |features|
    modifies grid
    ensures grid.Valid()
    ensures grid.xStep == RoadXStep && grid.yStep == RoadYStep
    ensures grid.nodes == old(grid.nodes) + FeatureRow(i, |features|, |features| + 1)
    ensures grid.ways == old(grid.ways) + FeatureWayRow(i, type_, features, |features|)
    ensures grid.texts == old(grid.texts)
  {
    var count := |features|;
    var previous: Option<Osm.OsmNode> := None;
    var j := 0;
    while j < count + 1
      invariant 0 <= j <= count + 1
      invariant grid.Valid()
      invariant grid.xStep == RoadXStep && grid.yStep == RoadYStep
      invariant grid.nodes == old(grid.nodes) + FeatureRow(i, count, j)
      invariant grid.ways == old(grid.ways) + FeatureWayRow(i, type_, features, if j == 0 then 0 else j - 1)
      invariant grid.texts == old(grid.texts)
      invariant previous == if j == 0 then None else Some(FeatureNode(i, j - 1, count))
    {
      var node := grid.AddNode([], i, j);
      assert node == FeatureNode(i, j, count);
      assert FeatureRow(i, count, j + 1) == FeatureRow(i, count, j) + [(node, (j, i))];
      if previous.Some? {
        var tags := Osm.Update(type_, features[j - 1]);
        grid.AddWay(tags, [previous.value, node]);
        assert FeatureWayRow(i, type_, features, j)
          == FeatureWayRow(i, type_, features, j - 1) + [Osm.OsmWay(tags, i * count + (j - 1), [previous.value, node])];
      }
      previous := Some(node);
      j := j + 1;
    }
  }

  // draw_overlapped_ways

  /** The step of the grid `draw_overlapped_ways` uses in both directions. */
  const OverlapStep: real := 0.00012

  /** The first pass: way `k` runs along row `k + 1` from column 8 to column
      `len(types) + 9`. */
  function RowWays(types: seq<Osm.Tags>): (ways: seq<Osm.OsmWay>)
  {
    var n := |types|;
    seq(n, k requires 0 <= k < n =>
      Osm.OsmWay(types[k], k,
        [GridNode(2 * k + 1, k + 1, 8, OverlapStep, OverlapStep),
         GridNode(2 * k + 2, k + 1, n + 9, OverlapStep, OverlapStep)]))
  }

  /** The second pass: way `k` runs along column `k + 9` from row 0 to row
      `len(types) + 1`. */
  function ColumnWays(types: seq<Osm.Tags>): (ways: seq<Osm.OsmWay>)
  {
    var n := |types|;
    seq(n, k requires 0 <= k < n =>
      Osm.OsmWay(types[k], n + k,
        [GridNode(2 * n + 2 * k + 1, 0, k + 9, OverlapStep, OverlapStep),
         GridNode(2 * n + 2 * k + 2, n + 1, k + 9, OverlapStep, OverlapStep)]))
  }

  /** One caption per type, left of its row: the tags as "k=v" joined by ", ". */
  function Captions(types: seq<Osm.Tags>): seq<(string, int, int)>
  {
    seq(|types|, k requires 0 <= k < |types| => (Osm.Render(types[k]), k + 1, 0))
  }

  /** The picture's point: every way of the first pass crosses every way of
      the second pass strictly between their end nodes, and both passes use
      the same tags in the same order. */
  lemma OverlappedWaysCross(types: seq<Osm.Tags>, k: nat, m: nat)
    requires k < |types| && m < |types|
    ensures RowWays(types)[k].tags == ColumnWays(types)[k].tags == types[k]
    ensures RowWays(types)[k].nodes[0].lon < ColumnWays(types)[m].nodes[0].lon < RowWays(types)[k].nodes[1].lon
    ensures ColumnWays(types)[m].nodes[0].lon == ColumnWays(types)[m].nodes[1].lon
    ensures ColumnWays(types)[m].nodes[1].lat < RowWays(types)[k].nodes[0].lat < ColumnWays(types)[m].nodes[0].lat
    ensures RowWays(types)[k].nodes[0].lat == RowWays(types)[k].nodes[1].lat
  {
  }

  /** The way ids of both passes together are 0, 1, ..., 2·len(types) - 1. */
  lemma OverlappedWayIds(types: seq<Osm.Tags>)
    ensures |RowWays(types) + ColumnWays(types)| == 2 * |types|
    ensures forall k :: 0 <= k < 2 * |types| ==> (RowWays(types) + ColumnWays(types))[k].id == k
  {
  }

  /** `draw_overlapped_ways` without the final drawing: `2·len(types)` ways,
      `4·len(types)` nodes and one caption per type. */
  method DrawOverlappedWays(types: seq<Osm.Tags>) returns (grid: Grid)
    ensures grid.Valid()
    ensures |grid.nodes| == 4 * |types|
    ensures grid.ways == RowWays(types) + ColumnWays(types)
    ensures grid.texts == Captions(types)
  {
    grid := new Grid(OverlapStep, OverlapStep);
    DrawRowWays(grid, types);
    DrawColumnWays(grid, types);
  }

  /** The first loop of `draw_overlapped_ways`. */
  method DrawRowWays(grid: Grid, types: seq<Osm.Tags>)
    requires grid.Valid() && grid.nodes == [] && grid.ways == [] && grid.texts == []
    requires grid.xStep == OverlapStep && grid.yStep == OverlapStep
    modifies grid
    ensures grid.Valid()
    ensures grid.xStep == OverlapStep && grid.yStep == OverlapStep
    ensures |grid.nodes| == 2 * |types|
    ensures grid.ways == RowWays(types)
    ensures grid.texts == Captions(types)
  {
    var n := |types|;
    var index := 0;
    while index < n
      invariant 0 <= index <= n
      invariant grid.Valid()
      invariant grid.xStep == OverlapStep && grid.yStep == OverlapStep
      invariant |grid.nodes| == 2 * index
      invariant grid.ways == RowWays(types)[..index]
      invariant grid.texts == Captions(types)[..index]
    {
      var tags := types[index];
      var node1 := grid.AddNode([], index + 1, 8);
      var node2 := grid.AddNode([], index + 1, n + 9);
      grid.AddWay(tags, [node1, node2]);
      grid.AddText(Osm.Render(tags), index + 1, 0);
      assert RowWays(types)[..index + 1] == RowWays(types)[..index] + [RowWays(types)[index]];
      assert Captions(types)[..index + 1] == Captions(types)[..index] + [Captions(types)[index]];
      index := index + 1;
    }
  }

  /** The second loop of `draw_overlapped_ways`. */
  method DrawColumnWays(grid: Grid, types: seq<Osm.Tags>)
    requires grid.Valid() && |grid.nodes| == 2 * |types| && grid.ways == RowWays(types)
    requires grid.xStep == OverlapStep && grid.yStep == OverlapStep
    modifies grid
    ensures grid.Valid()
    ensures |grid.nodes| == 4 * |types|
    ensures grid.ways == RowWays(types) + ColumnWays(types)
    ensures grid.texts == old(grid.texts)
  {
    var n := |types|;
    var index := 0;
    while index < n
      invariant 0 <= index <= n
      invariant grid.Valid()
      invariant grid.xStep == OverlapStep && grid.yStep == OverlapStep
      invariant |grid.nodes| == 2 * n + 2 * index
      invariant grid.ways == RowWays(types) + ColumnWays(types)[..index]
      invariant grid.texts == old(grid.texts)
    {
      var tags := types[index];
      var node1 := grid.AddNode([], 0, index + 9);
      var node2 := grid.AddNode([], n + 1, index + 9);
      grid.AddWay(tags, [node1, node2]);
      assert ColumnWays(types)[..index + 1] == ColumnWays(types)[..index] + [ColumnWays(types)[index]];
      index := index + 1;
    }
  }
}
