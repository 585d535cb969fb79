/** The height-sliced extrusion of buildings in isometric mode: walls keyed
    by segment (the last building listing a segment owns it), the distinct
    heights walked upward, a wall drawn in every slice its building spans,
    and a roof at the slice of the building's own height. */
module Extrusion {
  import opened Svg
  import Sorting

  /** A building as the compositor sees it: its wall segments and its
      vertical extent. */
  datatype Building = Building(parts: seq<Segment>, height: real, minHeight: real)

  function SegmentKey(segment: Segment): real { segment.rank as real }

  function HeightKey(height: real): real { height }

  /** `sorted(walls.keys())`: every segment once, in segment order. */
  function SortedSegments(walls: set<Segment>): (r: seq<Segment>)
    ensures |r| == |walls| && forall s :: s in r <==> s in walls
    ensures forall i, j :: 0 <= i < j < |r| ==> r[i].rank < r[j].rank
  {
    assert Sorting.InjectiveOn(walls, SegmentKey);
    var r := Sorting.SortedBy(walls, SegmentKey);
    assert forall i, j :: 0 <= i < j < |r| ==> SegmentKey(r[i]) < SegmentKey(r[j]);
    r
  }

  /** `sorted(heights)`: every distinct height once, ascending. */
  function SortedHeights(heights: set<real>): (r: seq<real>)
    ensures |r| == |heights| && forall h :: h in r <==> h in heights
    ensures forall i, j :: 0 <= i < j < |r| ==> r[i] < r[j]
  {
    assert Sorting.InjectiveOn(heights, HeightKey);
    var r := Sorting.SortedBy(heights, HeightKey);
    assert forall i, j :: 0 <= i < j < |r| ==> HeightKey(r[i]) < HeightKey(r[j]);
    r
  }

  /** `walls[part] = building` for each part in turn; buildings are named
      by their position in the building list. */
  function AssignParts(walls: map<Segment, nat>, parts: seq<Segment>, owner: nat): (r: map<Segment, nat>)
    ensures r.Keys == walls.Keys + set s | s in parts
    ensures forall s :: s in r ==> r[s] == if s in parts then owner else walls[s]
  {
    if |parts| == 0 then walls
    else AssignParts(walls, parts[..|parts| - 1], owner)[parts[|parts| - 1] := owner]
  }

  /** The `walls` dictionary after the first `n` buildings. */
  function Owners(buildings: seq<Building>, n: nat): map<Segment, nat>
    requires n <= |buildings|
  {
    if n == 0 then map[] else AssignParts(Owners(buildings, n - 1), buildings[n - 1].parts, n - 1)
  }

  /** Building `owner` is the last of the first `n` to list `segment`. */
  predicate LastLister(buildings: seq<Building>, n: nat, segment: Segment, owner: nat)
    requires n <= |buildings|
  {
    owner < n && segment in buildings[owner].parts &&
    forall k :: owner < k < n ==> segment !in buildings[k].parts
  }

  predicate Listed(buildings: seq<Building>, n: nat, segment: Segment)
    requires n <= |buildings|
  {
    exists k :: 0 <= k < n && segment in buildings[k].parts
  }

  /** A segment has a wall exactly when some building lists it, and the
      wall belongs to the last building that does. */
  lemma {:induction false} OwnersAreLastListers(buildings: seq<Building>, n: nat)
    requires n <= |buildings|
    ensures forall s :: s in Owners(buildings, n) <==> Listed(buildings, n, s)
    ensures forall s :: s in Owners(buildings, n) ==> LastLister(buildings, n, s, Owners(buildings, n)[s])
  {
    if n > 0 {
      OwnersAreLastListers(buildings, n - 1);
      var owners := Owners(buildings, n);
      forall s ensures s in owners <==> Listed(buildings, n, s) {
        if s in buildings[n - 1].parts {
          assert s in owners;
          assert Listed(buildings, n, s);
        } else {
          if Listed(buildings, n - 1, s) {
            var k :| 0 <= k < n - 1 && s in buildings[k].parts;
            assert Listed(buildings, n, s);
          }
          if Listed(buildings, n, s) {
            var k :| 0 <= k < n && s in buildings[k].parts;
            assert Listed(buildings, n - 1, s);
          }
        }
      }
      forall s | s in owners ensures LastLister(buildings, n, s, owners[s]) {
        if s !in buildings[n - 1].parts {
          assert LastLister(buildings, n - 1, s, Owners(buildings, n - 1)[s]);
        }
      }
    }
  }

  /** Segment `s` of building `owner` passes the window test at `height`:
      the building reaches above its lower end and not below the slice. */
  predicate WallWindow(building: Building, height: real)
  {
    building.minHeight < height <= building.height
  }

  /** The vertical offset of a slice at `height`. */
  function Shift(height: real, scale: real, buildingScale: real): Vec
  {
    Vec(0.0, -height * scale * buildingScale)
  }

  /** Every segment listed has an owner among the buildings. */
  predicate Owned(walls: seq<Segment>, owners: map<Segment, nat>, buildings: seq<Building>)
  {
    forall s :: s in walls ==> s in owners && owners[s] < |buildings|
  }

  /** The walls one slice draws, in the order of `walls`. */
  function WallsAt(walls: seq<Segment>, owners: map<Segment, nat>, buildings: seq<Building>,
                   height: real, shift1: Vec, shift2: Vec): seq<Element>
    requires Owned(walls, owners, buildings)
  {
    if |walls| == 0 then []
    else
      var init := walls[..|walls| - 1];
      assert forall s :: s in init ==> s in walls;
      var previous := WallsAt(init, owners, buildings, height, shift1, shift2);
      var wall := walls[|walls| - 1];
      var owner := owners[wall];
      if buildings[owner].height < height || buildings[owner].minHeight >= height then previous
      else previous + [Wall(owner, wall, height, shift1, shift2)]
  }

  /** A slice draws the wall of every listed segment whose owner passes the
      window test, with the slice's height and shifts, and nothing else. */
  predicate SliceWall(walls: seq<Segment>, owners: map<Segment, nat>, buildings: seq<Building>,
                      height: real, shift1: Vec, shift2: Vec, e: Element)
    requires Owned(walls, owners, buildings)
  {
    e.Wall? && e.segment in walls && e.building == owners[e.segment] &&
    WallWindow(buildings[e.building], height) &&
    e.height == height && e.shift1 == shift1 && e.shift2 == shift2
  }

  lemma {:induction false} WallsAtContents(walls: seq<Segment>, owners: map<Segment, nat>, buildings: seq<Building>,
                                          height: real, shift1: Vec, shift2: Vec)
    requires Owned(walls, owners, buildings)
    ensures forall e :: e in WallsAt(walls, owners, buildings, height, shift1, shift2) <==>
      SliceWall(walls, owners, buildings, height, shift1, shift2, e)
  {
    if |walls| > 0 {
      var init := walls[..|walls| - 1];
      assert forall s :: s in init ==> s in walls;
      WallsAtContents(init, owners, buildings, height, shift1, shift2);
      forall e ensures e in WallsAt(walls, owners, buildings, height, shift1, shift2) <==>
        SliceWall(walls, owners, buildings, height, shift1, shift2, e)
      {
        if e.Wall? && e.segment in walls {
          assert e.segment in init || e.segment == walls[|walls| - 1] by {
            assert walls == init + [walls[|walls| - 1]];
          }
        }
      }
    }
  }

  predicate WallsAscending(r: seq<Element>)
  {
    forall i, j :: 0 <= i < j < |r| ==> r[i].Wall? && r[j].Wall? && r[i].segment.rank < r[j].segment.rank
  }

  /** Within a slice the walls follow the order of `walls`. */
  lemma {:induction false} WallsAtOrdered(walls: seq<Segment>, owners: map<Segment, nat>, buildings: seq<Building>,
                                         height: real, shift1: Vec, shift2: Vec)
    requires Owned(walls, owners, buildings)
    requires forall i, j :: 0 <= i < j < |walls| ==> walls[i].rank < walls[j].rank
    ensures WallsAscending(WallsAt(walls, owners, buildings, height, shift1, shift2))
  {
    if |walls| > 0 {
      var init := walls[..|walls| - 1];
      assert forall s :: s in init ==> s in walls;
      WallsAtOrdered(init, owners, buildings, height, shift1, shift2);
      WallsAtContents(init, owners, buildings, height, shift1, shift2);
      WallsAtContents(walls, owners, buildings, height, shift1, shift2);
      var previous := WallsAt(init, owners, buildings, height, shift1, shift2);
      var r := WallsAt(walls, owners, buildings, height, shift1, shift2);
      var last := walls[|walls| - 1];
      forall i | 0 <= i < |previous| ensures previous[i].Wall? && previous[i].segment.rank < last.rank {
        assert SliceWall(init, owners, buildings, height, shift1, shift2, previous[i]);
        var k :| 0 <= k < |init| && init[k] == previous[i].segment;
        assert walls[k] == init[k];
      }
      forall i, j | 0 <= i < j < |r| ensures r[i].Wall? && r[j].Wall? && r[i].segment.rank < r[j].segment.rank {
        assert r[i] in r && r[j] in r;
        if j >= |previous| {
          assert r == previous + [r[j]] && r[j].segment == last && r[i] == previous[i];
        } else {
          assert r[i] == previous[i] && r[j] == previous[j];
        }
      }
    }
  }

  /** The roofs of the first `n` buildings whose height is `height`. */
  function RoofsAt(buildings: seq<Building>, n: nat, height: real): (r: seq<Element>)
    requires n <= |buildings|
  {
    if n == 0 then []
    else if buildings[n - 1].height == height then RoofsAt(buildings, n - 1, height) + [Roof(n - 1)]
    else RoofsAt(buildings, n - 1, height)
  }

  lemma {:induction false} RoofsAtContents(buildings: seq<Building>, n: nat, height: real)
    requires n <= |buildings|
    ensures forall e :: e in RoofsAt(buildings, n, height) <==>
      e.Roof? && e.building < n && buildings[e.building].height == height
  {
    if n > 0 {
      RoofsAtContents(buildings, n - 1, height);
    }
  }

  /** What `draw_buildings` works from: the buildings, the owner of each
      wall segment, the walls in segment order, the distinct heights in
      ascending order, the scales and the roof switch. */
  datatype Plan = Plan(
    buildings: seq<Building>, owners: map<Segment, nat>, walls: seq<Segment>,
    heights: seq<real>, scale: real, buildingScale: real, drawRoofs: bool)
  {
    predicate Valid()
    {
      Owned(walls, owners, buildings)
    }

    /** The height below slice `k`: the previous height, or 0. */
    function Floor(k: nat): real
      requires k < |heights|
    {
      if k == 0 then 0.0 else heights[k - 1]
    }
  }

  /** One pass of the height loop: the walls of slice `k`, then its roofs. */
  function Slice(plan: Plan, k: nat): seq<Element>
    requires plan.Valid() && k < |plan.heights|
  {
    var height := plan.heights[k];
    WallsAt(plan.walls, plan.owners, plan.buildings, height,
            Shift(plan.Floor(k), plan.scale, plan.buildingScale),
            Shift(height, plan.scale, plan.buildingScale))
    + (if plan.drawRoofs then RoofsAt(plan.buildings, |plan.buildings|, height) else [])
  }

  /** The first `n` slices. */
  function Slices(plan: Plan, n: nat): seq<Element>
    requires plan.Valid() && n <= |plan.heights|
  {
    if n == 0 then [] else Slices(plan, n - 1) + Slice(plan, n - 1)
  }

  /** A wall drawn in some slice: it is a listed segment with its owner, the
      owner spans the slice, and the shifts are those of the slice's floor
      and height. */
  predicate SlicedWall(plan: Plan, n: nat, e: Element)
    requires plan.Valid() && n <= |plan.heights|
  {
    exists k :: 0 <= k < n && e.Wall? && e.height == plan.heights[k] &&
      SliceWall(plan.walls, plan.owners, plan.buildings, plan.heights[k],
                Shift(plan.Floor(k), plan.scale, plan.buildingScale),
                Shift(plan.heights[k], plan.scale, plan.buildingScale), e)
  }

  /** The slices draw exactly the walls passing their window test and, when
      roofs are on, exactly the roofs of buildings whose height is one of
      the slice heights. */
  lemma {:induction false} SlicesContents(plan: Plan, n: nat)
    requires plan.Valid() && n <= |plan.heights|
    ensures forall e :: e in Slices(plan, n) ==> e.Wall? || e.Roof?
    ensures forall e: Element :: e.Wall? ==> (e in Slices(plan, n) <==> SlicedWall(plan, n, e))
    ensures forall e: Element :: e.Roof? ==> (e in Slices(plan, n) <==>
      plan.drawRoofs && e.building < |plan.buildings| && plan.buildings[e.building].height in plan.heights[..n])
  {
    if n > 0 {
      SlicesContents(plan, n - 1);
      var k := n - 1;
      var height := plan.heights[k];
      var shift1 := Shift(plan.Floor(k), plan.scale, plan.buildingScale);
      var shift2 := Shift(height, plan.scale, plan.buildingScale);
      WallsAtContents(plan.walls, plan.owners, plan.buildings, height, shift1, shift2);
      RoofsAtContents(plan.buildings, |plan.buildings|, height);
      assert plan.heights[..n] == plan.heights[..k] + [height];
      forall e: Element | e.Wall? ensures e in Slices(plan, n) <==> SlicedWall(plan, n, e) {
        if SlicedWall(plan, n, e) && !SliceWall(plan.walls, plan.owners, plan.buildings, height, shift1, shift2, e) {
          var j :| 0 <= j < n && e.Wall? && e.height == plan.heights[j] &&
            SliceWall(plan.walls, plan.owners, plan.buildings, plan.heights[j],
                      Shift(plan.Floor(j), plan.scale, plan.buildingScale),
                      Shift(plan.heights[j], plan.scale, plan.buildingScale), e);
          assert j < k;
        }
      }
    }
  }

  /** The height a wall or roof belongs to. */
  function Level(buildings: seq<Building>, e: Element): real
  {
    if e.Wall? then e.height
    else if e.Roof? && e.building < |buildings| then buildings[e.building].height
    else 0.0
  }

  predicate Upward(buildings: seq<Building>, r: seq<Element>)
  {
    forall i, j :: 0 <= i < j < |r| ==>
      Level(buildings, r[i]) < Level(buildings, r[j]) ||
      (Level(buildings, r[i]) == Level(buildings, r[j]) && !(r[i].Roof? && r[j].Wall?))
  }

  /** With ascending heights the slices go upward: levels never decrease,
      and within one level the walls come before the roofs. */
  lemma {:induction false} SlicesAscend(plan: Plan, n: nat)
    requires plan.Valid() && n <= |plan.heights|
    requires forall i, j :: 0 <= i < j < |plan.heights| ==> plan.heights[i] < plan.heights[j]
    ensures Upward(plan.buildings, Slices(plan, n))
    ensures forall e :: e in Slices(plan, n) ==> exists k :: 0 <= k < n && Level(plan.buildings, e) == plan.heights[k]
  {
    if n > 0 {
      SlicesAscend(plan, n - 1);
      var k := n - 1;
      var height := plan.heights[k];
      var shift1 := Shift(plan.Floor(k), plan.scale, plan.buildingScale);
      var shift2 := Shift(height, plan.scale, plan.buildingScale);
      var walls := WallsAt(plan.walls, plan.owners, plan.buildings, height, shift1, shift2);
      var roofs := if plan.drawRoofs then RoofsAt(plan.buildings, |plan.buildings|, height) else [];
      WallsAtContents(plan.walls, plan.owners, plan.buildings, height, shift1, shift2);
      RoofsAtContents(plan.buildings, |plan.buildings|, height);
      var previous := Slices(plan, k);
      var r := Slices(plan, n);
      assert r == previous + walls + roofs;
      assert forall e :: e in walls + roofs ==> Level(plan.buildings, e) == height;
      forall e | e in previous ensures Level(plan.buildings, e) < height {
        var j :| 0 <= j < k && Level(plan.buildings, e) == plan.heights[j];
      }
      var tail := walls + roofs;
      forall i, j | 0 <= i < j < |r|
        ensures Level(plan.buildings, r[i]) < Level(plan.buildings, r[j]) ||
          (Level(plan.buildings, r[i]) == Level(plan.buildings, r[j]) && !(r[i].Roof? && r[j].Wall?))
      {
        if j < |previous| {
          assert r[i] == previous[i] && r[j] == previous[j];
        } else {
          assert r[j] == tail[j - |previous|] && r[j] in tail;
          if i < |previous| {
            assert r[i] == previous[i] && r[i] in previous;
          } else {
            assert r[i] == tail[i - |previous|] && r[i] in tail;
            if i - |previous| < |walls| {
              assert r[i] == walls[i - |previous|] && r[i] in walls;
            } else {
              assert r[j] == roofs[j - |previous| - |walls|] && r[j] in roofs;
            }
          }
        }
      }
      forall e | e in r ensures exists j :: 0 <= j < n && Level(plan.buildings, e) == plan.heights[j] {
        if e !in previous {
          assert e in walls + roofs;
          assert Level(plan.buildings, e) == plan.heights[k];
        }
      }
    }
  }

  /** `building.draw` for each building in flat mode. */
  function Flats(n: nat): (r: seq<Element>)
    ensures |r| == n && forall k :: 0 <= k < n ==> r[k] == FlatBuilding(k)
  {
    if n == 0 then [] else Flats(n - 1) + [FlatBuilding(n - 1)]
  }
}
