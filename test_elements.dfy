/** The older fixture builder: the same grid of test roads as the
    documentation builder, but with a fixed step, a margin of one step and
    way ids computed from the grid position instead of a counter. Writing
    the picture is not part of this model. */
module TestElements {
  import opened Wrappers
  import Osm
  import DrawElements

  const XStep: real := 0.0002
  const YStep: real := 0.0003

  class Grid {
    var xStep: real
    var yStep: real
    var xStart: real
    var index: int
    /** The `nodes` dictionary in insertion order: each node with its (j, i). */
    var nodes: seq<(Osm.OsmNode, (int, int))>
    var maxJ: real
    var maxI: real

    /** The steps are fixed, node `k` has id `k + 1` and sits at its cell,
        within the running maxima. */
    ghost predicate Valid()
      reads this
    {
      xStep == XStep && yStep == YStep
      && index == |nodes| && 0.0 <= maxJ && 0.0 <= maxI
      && (forall k :: 0 <= k < |nodes| ==> nodes[k].0.id == k + 1 && AtCell(nodes[k]))
    }

    ghost predicate AtCell(entry: (Osm.OsmNode, (int, int)))
      reads this
    {
      var (node, (j, i)) := entry;
      node.lat == -(i as real) * yStep && node.lon == (j as real) * xStep
      && (j as real) * xStep <= maxJ && (i as real) * yStep <= maxI
    }

    constructor ()
      ensures nodes == [] && index == 0 && maxJ == 0.0 && maxI == 0.0 && xStart == 0.0
      ensures Valid()
    {
      xStep := XStep;
      yStep := YStep;
      xStart := 0.0;
      index := 0;
      nodes := [];
      maxJ := 0.0;
      maxI := 0.0;
    }

    /** `add_node`: numbering from 1, recording the cell (j, i) and keeping
        running maxima of `j·x_step` and `i·y_step`. */
    method AddNode(tags: Osm.Tags, i: int, j: int) returns (node: Osm.OsmNode)
      requires Valid()
      modifies this
      ensures Valid()
      ensures node == Osm.OsmNode(tags, old(index) + 1, -(i as real) * yStep, (j as real) * xStep)
      ensures nodes == old(nodes) + [(node, (j, i))]
      ensures forall k :: 0 <= k < |old(nodes)| ==> old(nodes)[k].0.id < node.id
      ensures maxJ == DrawElements.Max(old(maxJ), (j as real) * xStep)
      ensures maxI == DrawElements.Max(old(maxI), (i as real) * yStep)
      ensures xStart == old(xStart)
    {
      index := index + 1;
      node := Osm.OsmNode(tags, index, -(i as real) * yStep, (j as real) * xStep);
      nodes := nodes + [(node, (j, i))];
      maxJ := DrawElements.Max(maxJ, (j as real) * xStep);
      maxI := DrawElements.Max(maxI, (i as real) * yStep);
      assert forall k :: 0 <= k < |nodes| ==> AtCell(nodes[k]) by {
        forall k | 0 <= k < |nodes| ensures AtCell(nodes[k]) {
          if k < |old(nodes)| {
            assert old(AtCell(nodes[k]));
          }
        }
      }
    }

    /** `get_boundary_box`: a margin of one step on every side, so every node
        placed at a cell with i, j >= 0 lies strictly inside. */
    function GetBoundaryBox(): (box: Osm.BoundaryBox)
      reads this
      ensures Valid() ==>
        forall k :: 0 <= k < |nodes| && nodes[k].1.0 >= 0 && nodes[k].1.1 >= 0 ==>
          box.Surrounds(nodes[k].0)
    {
      var box := Osm.BoundaryBox(-xStep, -maxI - yStep, maxJ + xStep, yStep);
      assert Valid() ==>
        forall k :: 0 <= k < |nodes| && nodes[k].1.0 >= 0 && nodes[k].1.1 >= 0 ==>
          box.Surrounds(nodes[k].0) by {
        if Valid() {
          forall k | 0 <= k < |nodes| && nodes[k].1.0 >= 0 && nodes[k].1.1 >= 0
            ensures box.Surrounds(nodes[k].0)
          {
            assert AtCell(nodes[k]);
            var (j, i) := nodes[k].1;
            assert 0.0 <= (j as real) * xStep && 0.0 <= (i as real) * yStep;
          }
        }
      }
      box
    }
  }

  /** The node at column `j` of row `i` when every row has `count + 1` nodes. */
  function RoadNode(i: nat, j: nat, count: nat): Osm.OsmNode
  {
    DrawElements.GridNode(i * (count + 1) + j + 1, i, j, XStep, YStep)
  }

  /** `i·(len(features) + 1) + j`: the id `road_features` gives the way that
      ends at column `j` of row `i`. */
  function WayId(i: nat, j: nat, count: nat): int
  {
    i * (count + 1) + j
  }

  /** The first `columns` ways of row `i`: the way ending at column `j`
      (1 <= j) starts at column `j - 1` and carries the type tags updated by
      feature `j - 1`. */
  function RoadRow(i: nat, type_: Osm.Tags, features: seq<Osm.Tags>, columns: nat): (ways: seq<Osm.OsmWay>)
    requires columns <= |features|
    ensures |ways| == columns
  {
    seq(columns, k requires 0 <= k < columns =>
      Osm.OsmWay(Osm.Update(type_, features[k]), WayId(i, k + 1, |features|),
        [RoadNode(i, k, |features|), RoadNode(i, k + 1, |features|)]))
  }

  /** The ways of the first `rows` types, row after row. */
  function RoadWays(types: seq<Osm.Tags>, features: seq<Osm.Tags>, rows: nat): seq<Osm.OsmWay>
    requires rows <= |types|
  {
    if rows == 0 then []
    else
      var before := RoadWays(types, features, rows - 1);
      before + RoadRow(rows - 1, types[rows - 1], features, |features|)
  }

  /** The nodes of the first `rows` rows, with their cells. */
  function RoadCells(rows: nat, count: nat): seq<(Osm.OsmNode, (int, int))>
  {
    if rows == 0 then []
    else
      var before := RoadCells(rows - 1, count);
      before + seq(count + 1, j requires 0 <= j => (RoadNode(rows - 1, j, count), (j, rows - 1)))
  }

  /** Two grid positions with columns in 1..count get the same way id only
      when they are the same position. */
  lemma WayIdInjective(count: nat, i: nat, j: nat, i2: nat, j2: nat)
    requires 1 <= j <= count && 1 <= j2 <= count
    requires WayId(i, j, count) == WayId(i2, j2, count)
    ensures i == i2 && j == j2
  {
    if i < i2 {
      MulMonotone(i + 1, i2, count + 1);
      assert false;
    } else if i2 < i {
      MulMonotone(i2 + 1, i, count + 1);
      assert false;
    }
  }

  lemma MulMonotone(a: nat, b: nat, c: nat)
    requires a <= b
    ensures a * c <= b * c
  {
  }

  /** `road_features` adds `len(features)` ways per type. */
  lemma {:induction false} RoadWaysLength(types: seq<Osm.Tags>, features: seq<Osm.Tags>, rows: nat)
    requires rows <= |types|
    ensures |RoadWays(types, features, rows)| == rows * |features|
  {
    if rows > 0 {
      RoadWaysLength(types, features, rows - 1);
      assert (rows - 1) * |features| + |features| == rows * |features|;
    }
  }

  /** Way ids grow strictly along the list. */
  predicate IdsIncrease(ways: seq<Osm.OsmWay>)
  {
    forall a, b :: 0 <= a < b < |ways| ==> ways[a].id < ways[b].id
  }

  /** Every way id lies strictly between `low` and `high`. */
  predicate IdsWithin(ways: seq<Osm.OsmWay>, low: int, high: int)
  {
    forall k :: 0 <= k < |ways| ==> low < ways[k].id < high
  }

  lemma IncreasingConcat(before: seq<Osm.OsmWay>, after: seq<Osm.OsmWay>, low: int, middle: int, high: int)
    requires IdsIncrease(before) && IdsIncrease(after)
    requires IdsWithin(before, low, middle) && IdsWithin(after, middle, high)
    requires low <= middle <= high
    ensures IdsIncrease(before + after) && IdsWithin(before + after, low, high)
  {
    var all := before + after;
    forall a, b | 0 <= a < b < |all| ensures all[a].id < all[b].id {
      if b < |before| {
        assert all[a] == before[a] && all[b] == before[b];
      } else if a < |before| {
        assert all[a] == before[a] && all[b] == after[b - |before|];
      } else {
        assert all[a] == after[a - |before|] && all[b] == after[b - |before|];
      }
    }
    forall k | 0 <= k < |all| ensures low < all[k].id < high {
      if k < |before| {
        assert all[k] == before[k];
      } else {
        assert all[k] == after[k - |before|];
      }
    }
  }

  /** Row `i` uses the ids just above `i·(len(features) + 1)`, in order. */
  lemma RoadRowIds(i: nat, type_: Osm.Tags, features: seq<Osm.Tags>)
    ensures IdsIncrease(RoadRow(i, type_, features, |features|))
    ensures IdsWithin(RoadRow(i, type_, features, |features|), WayId(i, 0, |features|), WayId(i, 0, |features|) + |features| + 1)
  {
  }

  /** The way ids grow strictly along the list of ways and stay below
      `rows·(len(features) + 1)`; in particular no two ways share an id. */
  lemma {:induction false} RoadWayIdsIncrease(types: seq<Osm.Tags>, features: seq<Osm.Tags>, rows: nat)
    requires rows <= |types|
    ensures IdsIncrease(RoadWays(types, features, rows))
    ensures IdsWithin(RoadWays(types, features, rows), 0, rows * (|features| + 1))
  {
    if rows > 0 {
      var count := |features|;
      RoadWayIdsIncrease(types, features, rows - 1);
      RoadRowIds(rows - 1, types[rows - 1], features);
      var base := WayId(rows - 1, 0, count);
      assert base == (rows - 1) * (count + 1);
      assert base + count + 1 == rows * (count + 1);
      IncreasingConcat(RoadWays(types, features, rows - 1), RoadRow(rows - 1, types[rows - 1], features, count),
        0, base, base + count + 1);
    }
  }

  /** No two ways of `road_features` share an id. */
  lemma RoadWayIdsDistinct(types: seq<Osm.Tags>, features: seq<Osm.Tags>)
    ensures forall a, b :: 0 <= a < |RoadWays(types, features, |types|)| && 0 <= b < |RoadWays(types, features, |types|)| && a != b ==>
      RoadWays(types, features, |types|)[a].id != RoadWays(types, features, |types|)[b].id
  {
    RoadWayIdsIncrease(types, features, |types|);
  }

  /** The way of type `i` ending at column `j` (1 <= j <= len(features)) has
      id `i·(len(features) + 1) + j`, runs from the node at column `j - 1` to
      the node at column `j` of row `i`, and carries the type's tags
      updated by feature `j - 1`. */
  lemma {:induction false} RoadWayAt(types: seq<Osm.Tags>, features: seq<Osm.Tags>, rows: nat, i: nat, j: nat)
    requires rows <= |types| && i < rows && 1 <= j <= |features|
    ensures i * |features| + j - 1 < |RoadWays(types, features, rows)|
    ensures RoadWays(types, features, rows)[i * |features| + j - 1]
         == Osm.OsmWay(Osm.Update(types[i], features[j - 1]), i * (|features| + 1) + j,
              [RoadNode(i, j - 1, |features|), RoadNode(i, j, |features|)])
  {
    RoadWaysLength(types, features, rows - 1);
    if i < rows - 1 {
      RoadWayAt(types, features, rows - 1, i, j);
    }
  }

  /** A tag of the way of type `i` and feature `j - 1` has the feature's
      value when the feature has that key, and the type's value otherwise. */
  lemma RoadTagsOverride(types: seq<Osm.Tags>, features: seq<Osm.Tags>, i: nat, j: nat, key: string)
    requires i < |types| && 1 <= j <= |features|
    requires Osm.UniqueKeys(types[i]) && Osm.UniqueKeys(features[j - 1])
    ensures i * |features| + j - 1 < |RoadWays(types, features, |types|)|
    ensures Osm.UniqueKeys(RoadWays(types, features, |types|)[i * |features| + j - 1].tags)
    ensures Osm.Get(RoadWays(types, features, |types|)[i * |features| + j - 1].tags, key)
         == if Osm.HasKey(features[j - 1], key) then Osm.Get(features[j - 1], key) else Osm.Get(types[i], key)
  {
    RoadWayAt(types, features, |types|, i, j);
    Osm.UpdateGet(types[i], features[j - 1], key);
  }

  /** `road_features` without the final drawing: the ways handed to the OSM
      data, and the grid whose boundary box frames them. */
  method RoadFeatures(types: seq<Osm.Tags>, features: seq<Osm.Tags>) returns (ways: seq<Osm.OsmWay>, grid: Grid)
    ensures grid.Valid()
    ensures grid.nodes == RoadCells(|types|, |features|)
    ensures ways == RoadWays(types, features, |types|)
  {
    grid := new Grid();
    ways := [];
    var i := 0;
    while i < |types|
      invariant 0 <= i <= |types|
      invariant grid.Valid()
      invariant grid.nodes == RoadCells(i, |features|)
      invariant ways == RoadWays(types, features, i)
    {
      RoadCellsLength(i, |features|);
      var row := RoadRowWays(grid, i, types[i], features);
      ways := ways + row;
      i := i + 1;
    }
  }

  lemma {:induction false} RoadCellsLength(rows: nat, count: nat)
    ensures |RoadCells(rows, count)| == rows * (count + 1)
  {
    if rows > 0 {
      RoadCellsLength(rows - 1, count);
      assert (rows - 1) * (count + 1) + (count + 1) == rows * (count + 1);
    }
  }

  /** The inner loop of `road_features` for type `i`: returns the ways it adds. */
  method RoadRowWays(grid: Grid, i: nat, type_: Osm.Tags, features: seq<Osm.Tags>) returns (row: seq<Osm.OsmWay>)
    requires grid.Valid()
    requires |grid.nodes| == i * (|features| + 1)
    modifies grid
    ensures grid.Valid()
    ensures grid.nodes == old(grid.nodes)
      + seq(|features| + 1, j requires 0 <= j => (RoadNode(i, j, |features|), (j, i)))
    ensures row == RoadRow(i, type_, features, |features|)
  {
    var count := |features|;
    ghost var cells := seq(count + 1, j requires 0 <= j => (RoadNode(i, j, count), (j, i)));
    var previous: Option<Osm.OsmNode> := None;
    row := [];
    var j := 0;
    while j < count + 1
      invariant 0 <= j <= count + 1
      invariant grid.Valid()
      invariant grid.nodes == old(grid.nodes) + cells[..j]
      invariant row == RoadRow(i, type_, features, if j == 0 then 0 else j - 1)
      invariant previous == if j == 0 then None else Some(RoadNode(i, j - 1, count))
    {
      var node := grid.AddNode([], i, j);
      assert node == RoadNode(i, j, count);
      assert cells[..j + 1] == cells[..j] + [(node, (j, i))];
      if previous.Some? {
        var tags := Osm.Update(type_, features[j - 1]);
        var way := Osm.OsmWay(tags, i * (count + 1) + j, [previous.value, node]);
        row := row + [way];
        assert RoadRow(i, type_, features, j) == RoadRow(i, type_, features, j - 1) + [way];
      }
      previous := Some(node);
      j := j + 1;
    }
    assert cells[..count + 1] == cells;
  }
}
