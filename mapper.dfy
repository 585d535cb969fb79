/** The compositor: draws a constructed scene onto the drawing in a fixed
    layer order, extrudes buildings slice by slice and marks road
    intersections. Every drawing callee is recorded as the element it adds. */
module Mapper {
  import opened Wrappers
  import opened Colors
  import opened Svg
  import opened Figures
  import opened MapConfiguration
  import Direction
  import Sorting
  import Extrusion
  import Junctions

  /** Figures at or above this priority are drawn over the roads. */
  const RoadPriority: real := 40.0

  /** The projection: canvas size, scale at the centre of the map, and ring
      rendering to path commands. */
  datatype Flinger = Flinger(size: Vec, scale: real, render: RingRenderer)

  /** A point feature (icon and label carrier); only its priority matters
      to the compositor. */
  datatype Point = Point(priority: real)

  /** What the constructor hands to the compositor. `figures` is already in
      the constructor's sorted order; `size` is the constructor's canvas
      size, used for the credits. */
  datatype Scene = Scene(
    figures: seq<StyledFigure>, trees: nat, craters: nat,
    buildings: seq<Extrusion.Building>, heights: set<real>,
    directionSectors: seq<Direction.DirectionSector>, points: seq<Point>,
    size: Vec)

  /** Values the compositor imports from elsewhere: the building height
      scale, the project name shown in the credits, and the parsers the
      direction sectors use. */
  datatype Environment = Environment(buildingScale: real, project: string, parsers: Direction.Parsers)

  /** The background fill: the scheme's background colour unless the
      drawing mode sets one. */
  function BackgroundFill(configuration: Configuration): (c: Color)
    ensures c == Hex("#111111") <==> configuration.drawingMode in {Author, Time, White}
    ensures c == FromScheme("background_color") <==> configuration.drawingMode in {Normal, Black}
  {
    var color := BackgroundColor(configuration);
    assert color.None? <==> configuration.drawingMode == Normal || configuration.drawingMode == Black;
    if color.Some? then color.value else FromScheme("background_color")
  }

  // ---------------------------------------------------------------------
  // Figures

  predicate IsTop(figure: StyledFigure)
  {
    figure.lineStyle.priority >= RoadPriority
  }

  /** `figure.get_path(flinger)`: no shift, the figure's own offset. */
  function PathOf(figure: StyledFigure, render: RingRenderer): string
  {
    RingsPath(figure.figure.outers + figure.figure.inners, render, Vec(0.0, 0.0), figure.lineStyle.parallelOffset)
  }

  /** The paths the first `n` figures on one side of the roads add: those
      whose path is not empty, in input order. */
  function FigureLayer(figures: seq<StyledFigure>, n: nat, top: bool, render: RingRenderer): seq<Element>
    requires n <= |figures|
  {
    if n == 0 then []
    else
      var previous := FigureLayer(figures, n - 1, top, render);
      var path := PathOf(figures[n - 1], render);
      if IsTop(figures[n - 1]) == top && path != "" then previous + [FigurePath(n - 1, path)] else previous
  }

  /** A figure path element drawn for figure `e.figure` on the given side. */
  predicate DrawnFigure(figures: seq<StyledFigure>, n: nat, top: bool, render: RingRenderer, e: Element)
    requires n <= |figures|
  {
    e.FigurePath? && e.figure < n && IsTop(figures[e.figure]) == top &&
    e.d == PathOf(figures[e.figure], render) && e.d != ""
  }

  predicate FiguresInOrder(layer: seq<Element>)
  {
    forall i, j :: 0 <= i < j < |layer| ==> layer[i].FigurePath? && layer[j].FigurePath? && layer[i].figure < layer[j].figure
  }

  /** One side of the roads holds exactly the non-empty paths of the figures
      on that side, in input order. */
  lemma {:induction false} FigureLayerContents(figures: seq<StyledFigure>, n: nat, top: bool, render: RingRenderer)
    requires n <= |figures|
    ensures forall e :: e in FigureLayer(figures, n, top, render) <==> DrawnFigure(figures, n, top, render, e)
    ensures FiguresInOrder(FigureLayer(figures, n, top, render))
  {
    if n > 0 {
      FigureLayerContents(figures, n - 1, top, render);
      var previous := FigureLayer(figures, n - 1, top, render);
      var r := FigureLayer(figures, n, top, render);
      var path := PathOf(figures[n - 1], render);
      if IsTop(figures[n - 1]) == top && path != "" {
        assert r == previous + [FigurePath(n - 1, path)];
        FiguresInOrderAppend(previous, FigurePath(n - 1, path));
      }
    }
  }

  lemma FiguresInOrderAppend(layer: seq<Element>, e: Element)
    requires FiguresInOrder(layer) && e.FigurePath?
    requires forall x :: x in layer ==> x.FigurePath? && x.figure < e.figure
    ensures FiguresInOrder(layer + [e])
  {
    var r := layer + [e];
    forall i, j | 0 <= i < j < |r| ensures r[i].FigurePath? && r[j].FigurePath? && r[i].figure < r[j].figure {
      assert r[i] == layer[i] && layer[i] in layer;
      if j < |layer| {
        assert r[j] == layer[j];
      }
    }
  }

  /** Every figure whose path is not empty is drawn on exactly one side of
      the roads, the side its priority selects; a figure with no rings draws
      nothing. */
  lemma FiguresPartitioned(figures: seq<StyledFigure>, render: RingRenderer, k: nat)
    requires k < |figures|
    ensures PathOf(figures[k], render) == "" <==> |figures[k].figure.outers| + |figures[k].figure.inners| == 0
    ensures var element := FigurePath(k, PathOf(figures[k], render));
      PathOf(figures[k], render) != "" ==>
        (element in FigureLayer(figures, |figures|, false, render) <==> figures[k].lineStyle.priority < RoadPriority) &&
        (element in FigureLayer(figures, |figures|, true, render) <==> figures[k].lineStyle.priority >= RoadPriority)
    ensures forall d ::
      (FigurePath(k, d) in FigureLayer(figures, |figures|, false, render) + FigureLayer(figures, |figures|, true, render))
      ==> d == PathOf(figures[k], render) && d != ""
  {
    var figure := figures[k].figure;
    RingsPathEmpty(figure.outers + figure.inners, render, Vec(0.0, 0.0), figures[k].lineStyle.parallelOffset);
    FigureLayerContents(figures, |figures|, false, render);
    FigureLayerContents(figures, |figures|, true, render);
  }

  // ---------------------------------------------------------------------
  // Buildings

  /** The extrusion plan `draw_buildings` works from. */
  function PlanOf(buildings: seq<Extrusion.Building>, heights: set<real>, scale: real,
                  buildingScale: real, drawRoofs: bool): (plan: Extrusion.Plan)
    ensures plan.Valid() && plan.buildings == buildings && plan.heights == Extrusion.SortedHeights(heights)
    ensures plan.owners == Extrusion.Owners(buildings, |buildings|)
    ensures plan.walls == Extrusion.SortedSegments(plan.owners.Keys)
    ensures plan.scale == scale && plan.buildingScale == buildingScale && plan.drawRoofs == drawRoofs
  {
    var owners := Extrusion.Owners(buildings, |buildings|);
    Extrusion.OwnersAreLastListers(buildings, |buildings|);
    var walls := Extrusion.SortedSegments(owners.Keys);
    Extrusion.Plan(buildings, owners, walls, Extrusion.SortedHeights(heights), scale, buildingScale, drawRoofs)
  }

  /** What `draw_buildings` adds: nothing, one flat drawing per building, or
      the shade group followed by the height slices. */
  function BuildingsTrace(mode: BuildingMode, drawRoofs: bool, scale: real, buildingScale: real,
                          buildings: seq<Extrusion.Building>, heights: set<real>): seq<Element>
  {
    match mode
    case No => []
    case Flat => Extrusion.Flats(|buildings|)
    case _ => [BuildingShades(|buildings|)] + Extrusion.Slices(PlanOf(buildings, heights, scale, buildingScale, drawRoofs), |heights|)
  }

  /** `f` is the height drawn below slice `h`: the greatest height under
      `h`, or 0 when `h` is the lowest. */
  ghost predicate FloorBelow(heights: set<real>, h: real, f: real)
  {
    (f == 0.0 && forall x :: x in heights ==> h <= x) ||
    (f in heights && f < h && forall x :: x in heights && x < h ==> x <= f)
  }

  lemma {:induction false} FloorIsPreviousHeight(heights: set<real>, k: nat)
    requires k < |Extrusion.SortedHeights(heights)|
    ensures var sorted := Extrusion.SortedHeights(heights);
      FloorBelow(heights, sorted[k], if k == 0 then 0.0 else sorted[k - 1])
  {
    var sorted := Extrusion.SortedHeights(heights);
    forall x | x in heights && x < sorted[k] ensures k > 0 && x <= sorted[k - 1] {
      var j :| 0 <= j < |sorted| && sorted[j] == x;
      assert j < k;
      if j < k - 1 {
        assert sorted[j] < sorted[k - 1];
      }
    }
    if k == 0 {
      forall x | x in heights ensures sorted[0] <= x {
        var j :| 0 <= j < |sorted| && sorted[j] == x;
        if j > 0 { assert sorted[0] < sorted[j]; }
      }
    } else {
      assert sorted[k - 1] < sorted[k];
      assert sorted[k - 1] in sorted;
    }
  }

  /** In isometric modes a wall is drawn for segment `s` of building `b` at
      height `h` exactly when `b` is the last building listing `s`, `h` is
      one of the heights and `b.min_height < h <= b.height`; it is drawn
      between the shifts of the height below `h` (or 0) and of `h`. */
  ghost predicate ExtrudedWall(buildings: seq<Extrusion.Building>, heights: set<real>, scale: real,
                               buildingScale: real, e: Element)
  {
    e.Wall? && e.building < |buildings| &&
    Extrusion.LastLister(buildings, |buildings|, e.segment, e.building) &&
    e.height in heights && Extrusion.WallWindow(buildings[e.building], e.height) &&
    e.shift2 == Extrusion.Shift(e.height, scale, buildingScale) &&
    exists f :: FloorBelow(heights, e.height, f) && e.shift1 == Extrusion.Shift(f, scale, buildingScale)
  }

  /** The flat and disabled building modes: NO draws nothing, FLAT draws
      every building flat once and nothing else. */
  lemma BuildingModes(mode: BuildingMode, drawRoofs: bool, scale: real, buildingScale: real,
                      buildings: seq<Extrusion.Building>, heights: set<real>)
    ensures mode == BuildingMode.No ==> BuildingsTrace(mode, drawRoofs, scale, buildingScale, buildings, heights) == []
    ensures mode == Flat ==>
      forall e: Element ::
        (e in BuildingsTrace(mode, drawRoofs, scale, buildingScale, buildings, heights)) <==>
        (e.FlatBuilding? && e.building < |buildings|)
    ensures mode == Flat ==> |BuildingsTrace(mode, drawRoofs, scale, buildingScale, buildings, heights)| == |buildings|
  {
    if mode == Flat {
      var trace := Extrusion.Flats(|buildings|);
      forall e | e in trace ensures e.FlatBuilding? && e.building < |buildings| {
        var k :| 0 <= k < |trace| && trace[k] == e;
      }
      forall e: Element | e.FlatBuilding? && e.building < |buildings| ensures e in trace {
        assert trace[e.building] == e;
      }
    }
  }

  /** The isometric modes draw the shade group first and then walls and
      roofs only: exactly the roofs of buildings whose height is a slice
      height when roofs are on, and none otherwise, going upward. */
  lemma IsometricBuildings(mode: BuildingMode, drawRoofs: bool, scale: real, buildingScale: real,
                           buildings: seq<Extrusion.Building>, heights: set<real>)
    requires mode in {Isometric, IsometricNoParts}
    ensures var trace := BuildingsTrace(mode, drawRoofs, scale, buildingScale, buildings, heights);
      |trace| > 0 && trace[0] == BuildingShades(|buildings|) &&
      (forall e :: e in trace[1..] ==> e.Wall? || e.Roof?) &&
      (forall e: Element :: e.Roof? ==> (e in trace <==>
        drawRoofs && e.building < |buildings| && buildings[e.building].height in heights)) &&
      Extrusion.Upward(buildings, trace[1..])
  {
    var plan := PlanOf(buildings, heights, scale, buildingScale, drawRoofs);
    var slices := Extrusion.Slices(plan, |plan.heights|);
    AllSlices(plan);
    var trace := BuildingsTrace(mode, drawRoofs, scale, buildingScale, buildings, heights);
    assert trace == [BuildingShades(|buildings|)] + slices;
    assert trace[1..] == slices;
    forall e: Element | e.Roof? ensures e in trace <==>
      drawRoofs && e.building < |buildings| && buildings[e.building].height in heights
    {
      assert e in trace <==> e in slices;
    }
  }

  /** All the slices of a plan: walls and roofs only, the roofs exactly
      those of buildings whose height is a slice height, going upward. */
  lemma AllSlices(plan: Extrusion.Plan)
    requires plan.Valid()
    requires forall i, j :: 0 <= i < j < |plan.heights| ==> plan.heights[i] < plan.heights[j]
    ensures forall e :: e in Extrusion.Slices(plan, |plan.heights|) ==> e.Wall? || e.Roof?
    ensures forall e: Element :: e.Roof? ==> (e in Extrusion.Slices(plan, |plan.heights|) <==>
      plan.drawRoofs && e.building < |plan.buildings| && plan.buildings[e.building].height in plan.heights)
    ensures Extrusion.Upward(plan.buildings, Extrusion.Slices(plan, |plan.heights|))
  {
    var n := |plan.heights|;
    Extrusion.SlicesContents(plan, n);
    Extrusion.SlicesAscend(plan, n);
    assert plan.heights[..n] == plan.heights;
  }

  /** In isometric modes a wall is drawn exactly when the window rule
      selects it: the last building listing the segment owns it, the
      height is a slice height inside the building's window, and the wall
      spans from the height below to its own. */
  lemma IsometricWalls(mode: BuildingMode, drawRoofs: bool, scale: real, buildingScale: real,
                       buildings: seq<Extrusion.Building>, heights: set<real>)
    requires mode in {Isometric, IsometricNoParts}
    ensures forall e: Element :: e.Wall? ==>
      (e in BuildingsTrace(mode, drawRoofs, scale, buildingScale, buildings, heights) <==>
       ExtrudedWall(buildings, heights, scale, buildingScale, e))
  {
    var plan := PlanOf(buildings, heights, scale, buildingScale, drawRoofs);
    var n := |plan.heights|;
    Extrusion.SlicesContents(plan, n);
    var slices := Extrusion.Slices(plan, n);
    var trace := BuildingsTrace(mode, drawRoofs, scale, buildingScale, buildings, heights);
    assert trace == [BuildingShades(|buildings|)] + slices;
    forall e: Element | e.Wall? ensures e in trace <==> ExtrudedWall(buildings, heights, scale, buildingScale, e) {
      if e in slices {
        SlicedWallExtruded(plan, buildings, heights, scale, buildingScale, drawRoofs, e);
      }
      if ExtrudedWall(buildings, heights, scale, buildingScale, e) {
        ExtrudedWallSliced(plan, buildings, heights, scale, buildingScale, drawRoofs, e);
      }
    }
  }

  lemma SlicedWallExtruded(plan: Extrusion.Plan, buildings: seq<Extrusion.Building>, heights: set<real>,
                           scale: real, buildingScale: real, drawRoofs: bool, e: Element)
    requires plan == PlanOf(buildings, heights, scale, buildingScale, drawRoofs)
    requires Extrusion.SlicedWall(plan, |plan.heights|, e)
    ensures ExtrudedWall(buildings, heights, scale, buildingScale, e)
  {
    var n := |plan.heights|;
    Extrusion.OwnersAreLastListers(buildings, |buildings|);
    var k :| 0 <= k < n && e.Wall? && e.height == plan.heights[k] &&
      Extrusion.SliceWall(plan.walls, plan.owners, plan.buildings, plan.heights[k],
                          Extrusion.Shift(plan.Floor(k), scale, buildingScale),
                          Extrusion.Shift(plan.heights[k], scale, buildingScale), e);
    FloorIsPreviousHeight(heights, k);
    assert plan.heights[k] in plan.heights;
    assert FloorBelow(heights, e.height, plan.Floor(k));
  }

  lemma ExtrudedWallSliced(plan: Extrusion.Plan, buildings: seq<Extrusion.Building>, heights: set<real>,
                           scale: real, buildingScale: real, drawRoofs: bool, e: Element)
    requires plan == PlanOf(buildings, heights, scale, buildingScale, drawRoofs)
    requires ExtrudedWall(buildings, heights, scale, buildingScale, e)
    ensures Extrusion.SlicedWall(plan, |plan.heights|, e)
  {
    var n := |plan.heights|;
    Extrusion.OwnersAreLastListers(buildings, |buildings|);
    var f :| FloorBelow(heights, e.height, f) && e.shift1 == Extrusion.Shift(f, scale, buildingScale);
    var k :| 0 <= k < n && plan.heights[k] == e.height;
    FloorIsPreviousHeight(heights, k);
    FloorUnique(heights, e.height, f, plan.Floor(k));
    assert e.segment in plan.owners;
    assert plan.owners[e.segment] == e.building by {
      LastListerUnique(buildings, e.segment, e.building, plan.owners[e.segment]);
    }
    assert Extrusion.SliceWall(plan.walls, plan.owners, plan.buildings, plan.heights[k],
                               Extrusion.Shift(plan.Floor(k), scale, buildingScale),
                               Extrusion.Shift(plan.heights[k], scale, buildingScale), e);
  }

  lemma FloorUnique(heights: set<real>, h: real, f: real, g: real)
    requires FloorBelow(heights, h, f) && FloorBelow(heights, h, g)
    ensures f == g
  {
    if f != 0.0 || g != 0.0 {
      if f in heights && f < h && g in heights && g < h {
        assert f <= g && g <= f;
      }
    }
  }

  lemma LastListerUnique(buildings: seq<Extrusion.Building>, s: Segment, a: nat, b: nat)
    requires Extrusion.LastLister(buildings, |buildings|, s, a) && Extrusion.LastLister(buildings, |buildings|, s, b)
    ensures a == b
  {
  }

  // ---------------------------------------------------------------------
  // Direction sectors

  /** What each direction sector draws on its own. */
  ghost function Drawn(sectors: seq<Direction.DirectionSector>, parsers: Direction.Parsers): (r: seq<Direction.Output>)
    ensures Produces(sectors, r, parsers)
  {
    DrawnExists(sectors, parsers);
    var r :| Produces(sectors, r, parsers); r
  }

  lemma DrawnExists(sectors: seq<Direction.DirectionSector>, parsers: Direction.Parsers)
    ensures exists r :: Produces(sectors, r, parsers)
  {
    var r := seq(|sectors|, k requires 0 <= k < |sectors| => Direction.DrawOutput(sectors[k], parsers));
    assert Produces(sectors, r, parsers);
  }

  /** `outputs[i]` is what sector `i` draws. */
  ghost predicate Produces(sectors: seq<Direction.DirectionSector>, outputs: seq<Direction.Output>, parsers: Direction.Parsers)
  {
    |outputs| == |sectors| &&
    forall i {:trigger Direction.DrawOutput(sectors[i], parsers)} :: 0 <= i < |sectors| ==> outputs[i] == Direction.DrawOutput(sectors[i], parsers)
  }

  /** What the first `n` sector outputs add to the drawing; the first one
      that raises ends it. */
  function SectorsOutput(outputs: seq<Direction.Output>, n: nat): Direction.Output
    requires n <= |outputs|
  {
    if n == 0 then Direction.Output([], [], true)
    else
      var previous := SectorsOutput(outputs, n - 1);
      if !previous.ok then previous
      else
        var drawn := outputs[n - 1];
        Direction.Output(previous.defs + drawn.defs, previous.elements + drawn.elements, drawn.ok)
  }

  /** The drawing goes on exactly when every sector drew without raising. */
  lemma {:induction false} SectorsOutputOk(outputs: seq<Direction.Output>, n: nat)
    requires n <= |outputs|
    ensures SectorsOutput(outputs, n).ok <==> forall k :: 0 <= k < n ==> outputs[k].ok
  {
    if n > 0 {
      SectorsOutputOk(outputs, n - 1);
    }
  }

  /** The sectors drawn are sector paths only, and they are the paths of the
      sectors drawn before the first one that raised. */
  lemma {:induction false} SectorsOutputPaths(outputs: seq<Direction.Output>, n: nat)
    requires n <= |outputs|
    requires forall k :: 0 <= k < |outputs| ==> forall e :: e in outputs[k].elements ==> e.DirectionPath?
    ensures forall e :: e in SectorsOutput(outputs, n).elements ==> e.DirectionPath?
  {
    if n > 0 {
      SectorsOutputPaths(outputs, n - 1);
    }
  }

  /** Every sector output holds sector paths only. */
  lemma DrawnPaths(sectors: seq<Direction.DirectionSector>, parsers: Direction.Parsers)
    ensures forall k :: 0 <= k < |sectors| ==> forall e :: e in Drawn(sectors, parsers)[k].elements ==> e.DirectionPath?
  {
    forall k | 0 <= k < |sectors| ensures forall e :: e in Drawn(sectors, parsers)[k].elements ==> e.DirectionPath? {
      Direction.DrawOutputPaths(sectors[k], parsers);
    }
  }

  // ---------------------------------------------------------------------
  // Points

  function Priorities(points: seq<Point>): (r: seq<real>)
    ensures |r| == |points| && forall k :: 0 <= k < |points| ==> r[k] == points[k].priority
  {
    if |points| == 0 then [] else Priorities(points[..|points| - 1]) + [points[|points| - 1].priority]
  }

  /** `sorted(constructor.points, key=lambda x: -x.priority)`, as indices. */
  function PointOrder(points: seq<Point>): seq<nat>
  {
    Sorting.StableOrder(Priorities(points), |points|)
  }

  /** The points are visited each exactly once, higher priority first and
      equal priorities in input order. */
  lemma PointOrderSorted(points: seq<Point>)
    ensures |PointOrder(points)| == |points|
    ensures forall k :: 0 <= k < |points| <==> k in PointOrder(points)
    ensures var order := PointOrder(points);
      forall i, j :: 0 <= i < j < |order| ==>
        (order[i] < |points| && order[j] < |points| &&
         (points[order[i]].priority > points[order[j]].priority ||
          (points[order[i]].priority == points[order[j]].priority && order[i] < order[j])))
  {
    Sorting.StableOrderSorted(Priorities(points), |points|);
  }

  /** The occupancy tracker: none when overlap is 0, otherwise one sized to
      the canvas, shared by every point pass. */
  function Tracker(configuration: Configuration, size: Vec): (r: Option<Occupied>)
    ensures r.None? <==> configuration.overlap == 0
    ensures r.Some? ==> r.value.width == size.x && r.value.height == size.y && r.value.overlap == configuration.overlap
  {
    if configuration.overlap == 0 then None else Some(Occupied(size.x, size.y, configuration.overlap))
  }

  /** Labels are drawn only in normal drawing mode with a label mode other
      than NO. */
  predicate LabelsDrawn(configuration: Configuration)
  {
    !IsWireframe(configuration) && configuration.labelMode != LabelMode.No
  }

  datatype Pass = MainIcons | ExtraIcons | Labels

  function PointElement(pass: Pass, point: nat, occupied: Option<Occupied>, labelMode: LabelMode): Element
  {
    match pass
    case MainIcons => MainShapes(point, occupied)
    case ExtraIcons => ExtraShapes(point, occupied)
    case Labels => Texts(point, occupied, labelMode)
  }

  /** One pass over the first `n` points of `order`. */
  function PassTrace(pass: Pass, order: seq<nat>, n: nat, occupied: Option<Occupied>, labelMode: LabelMode): (r: seq<Element>)
    requires n <= |order|
    ensures |r| == n && forall k :: 0 <= k < n ==> r[k] == PointElement(pass, order[k], occupied, labelMode)
  {
    if n == 0 then [] else PassTrace(pass, order, n - 1, occupied, labelMode) + [PointElement(pass, order[n - 1], occupied, labelMode)]
  }

  // ---------------------------------------------------------------------
  // Credits

  const RightMargin: real := 15.0
  const BottomMargin: real := 15.0
  const FontSize: real := 10.0
  const VerticalSpacing: real := 2.0

  /** The credit lines and their offsets from the bottom-right corner; the
      data credit only when the configuration has a non-empty one. */
  function CreditLines(project: string, credit: Option<string>): seq<(string, Vec)>
  {
    [("Rendering: " + project, Vec(RightMargin, BottomMargin))]
    + if credit.Some? && credit.value != "" then
        [("Data: " + credit.value, Vec(RightMargin, BottomMargin + FontSize + VerticalSpacing))]
      else []
  }

  /** Each line twice at the same place: the outline, then the text. */
  function CreditsTrace(lines: seq<(string, Vec)>, size: Vec): (r: seq<Element>)
    ensures |r| == 2 * |lines| && forall e :: e in r ==> e.CreditText?
    ensures forall k :: 0 <= k < |lines| ==>
      r[2 * k] == CreditText(lines[k].0, size.Minus(lines[k].1), true) &&
      r[2 * k + 1] == CreditText(lines[k].0, size.Minus(lines[k].1), false)
  {
    if |lines| == 0 then []
    else
      var (text, offset) := lines[|lines| - 1];
      var before := CreditsTrace(lines[..|lines| - 1], size);
      assert forall k :: 0 <= k < |lines| - 1 ==> lines[..|lines| - 1][k] == lines[k];
      before + [CreditText(text, size.Minus(offset), true), CreditText(text, size.Minus(offset), false)]
  }

  function Credits(size: Vec, project: string, credit: Option<string>): seq<Element>
  {
    CreditsTrace(CreditLines(project, credit), size)
  }

  /** The project credit always comes first, 15 units from the right and
      bottom edges; the data credit follows 12 units higher exactly when
      one is configured; every text is outlined just before it is drawn. */
  lemma CreditsLayout(size: Vec, project: string, credit: Option<string>)
    ensures var r := Credits(size, project, credit);
      |r| == (if credit.Some? && credit.value != "" then 4 else 2) &&
      r[0] == CreditText("Rendering: " + project, Vec(size.x - 15.0, size.y - 15.0), true) &&
      r[1] == CreditText("Rendering: " + project, Vec(size.x - 15.0, size.y - 15.0), false) &&
      (|r| == 4 ==>
        r[2] == CreditText("Data: " + credit.value, Vec(size.x - 15.0, size.y - 27.0), true) &&
        r[3] == CreditText("Data: " + credit.value, Vec(size.x - 15.0, size.y - 27.0), false))
  {
    var lines := CreditLines(project, credit);
    var first := ("Rendering: " + project, Vec(RightMargin, BottomMargin));
    var rendering := [CreditText(first.0, size.Minus(first.1), true), CreditText(first.0, size.Minus(first.1), false)];
    assert [first][..0] == [];
    assert CreditsTrace([first], size) == rendering;
    if credit.Some? && credit.value != "" {
      var second := ("Data: " + credit.value, Vec(RightMargin, BottomMargin + FontSize + VerticalSpacing));
      assert lines == [first, second];
      assert lines[..1] == [first];
      assert CreditsTrace(lines, size) == rendering
        + [CreditText(second.0, size.Minus(second.1), true), CreditText(second.0, size.Minus(second.1), false)];
    } else {
      assert lines == [first];
    }
  }

  /** With the default configuration the OpenStreetMap credit is drawn. */
  lemma DefaultCreditsNameOpenStreetMap(size: Vec, project: string)
    ensures CreditText("Data: " + OpenStreetMapCredit, Vec(size.x - 15.0, size.y - 27.0), false)
         in Credits(size, project, Default.credit)
  {
    var credit := Default.credit;
    assert credit == Some(OpenStreetMapCredit);
    CreditsLayout(size, project, credit);
    var r := Credits(size, project, credit);
    assert r[3] == CreditText("Data: " + OpenStreetMapCredit, Vec(size.x - 15.0, size.y - 27.0), false);
    assert r[3] in r;
  }

  // ---------------------------------------------------------------------
  // The whole drawing

  /** Everything `Map.draw` adds to the drawing, and whether it returns
      normally. */
  ghost function MapTrace(flinger: Flinger, configuration: Configuration, background: Color,
                    environment: Environment, scene: Scene): Direction.Output
  {
    var sectors := SectorsOutput(Drawn(scene.directionSectors, environment.parsers), |scene.directionSectors|);
    var before := [Background(flinger.size, background)] + Lower(flinger, configuration, environment, scene) + sectors.elements;
    if !sectors.ok then Direction.Output(sectors.defs, before, false)
    else Direction.Output(sectors.defs, before + Upper(flinger, configuration, environment, scene), true)
  }

  /** What is drawn between the background and the direction sectors:
      bottom figures, roads, top figures, trees, craters and buildings. */
  function Lower(flinger: Flinger, configuration: Configuration, environment: Environment, scene: Scene): seq<Element>
  {
    FigureLayer(scene.figures, |scene.figures|, false, flinger.render)
    + [Roads]
    + FigureLayer(scene.figures, |scene.figures|, true, flinger.render)
    + Numbered(scene.trees, true)
    + Numbered(scene.craters, false)
    + BuildingsTrace(configuration.buildingMode, configuration.drawRoofs, flinger.scale,
                     environment.buildingScale, scene.buildings, scene.heights)
  }

  /** What is drawn after the direction sectors when none raised: main
      icons, extra icons, labels and credits. */
  function Upper(flinger: Flinger, configuration: Configuration, environment: Environment, scene: Scene): seq<Element>
  {
    var occupied := Tracker(configuration, flinger.size);
    var order := PointOrder(scene.points);
    var mode := configuration.labelMode;
    PassTrace(MainIcons, order, |order|, occupied, mode)
    + PassTrace(ExtraIcons, order, |order|, occupied, mode)
    + (if LabelsDrawn(configuration) then PassTrace(Labels, order, |order|, occupied, mode) else [])
    + Credits(scene.size, environment.project, configuration.credit)
  }

  /** The trees (`trees` true) or craters drawn, in order. */
  function Numbered(n: nat, trees: bool): (r: seq<Element>)
    ensures |r| == n && forall k :: 0 <= k < n ==> r[k] == if trees then Tree(k) else Crater(k)
  {
    if n == 0 then [] else Numbered(n - 1, trees) + [if trees then Tree(n - 1) else Crater(n - 1)]
  }

  /** The layer each element belongs to, in drawing order. */
  function Layer(figures: seq<StyledFigure>, e: Element): nat
  {
    match e
    case Background(_, _) => 0
    case FigurePath(k, _) => if k < |figures| && IsTop(figures[k]) then 3 else 1
    case Roads => 2
    case Intersection(_) => 2
    case Tree(_) => 4
    case Crater(_) => 5
    case FlatBuilding(_) => 6
    case BuildingShades(_) => 6
    case Wall(_, _, _, _, _) => 6
    case Roof(_) => 6
    case DirectionPath(_, _, _) => 7
    case MainShapes(_, _) => 8
    case ExtraShapes(_, _) => 9
    case Texts(_, _, _) => 10
    case CreditText(_, _, _) => 11
  }

  ghost predicate Layered(figures: seq<StyledFigure>, trace: seq<Element>)
  {
    forall i, j :: 0 <= i < j < |trace| ==> Layer(figures, trace[i]) <= Layer(figures, trace[j])
  }

  /** `trace` keeps the layer order and stays within layers `low` to `high`. */
  ghost predicate Between(figures: seq<StyledFigure>, trace: seq<Element>, low: nat, high: nat)
  {
    Layered(figures, trace) && forall e :: e in trace ==> low <= Layer(figures, e) <= high
  }

  ghost predicate AllAt(figures: seq<StyledFigure>, block: seq<Element>, layer: nat)
  {
    forall e :: e in block ==> Layer(figures, e) == layer
  }

  lemma SingleLayer(figures: seq<StyledFigure>, block: seq<Element>, layer: nat)
    requires AllAt(figures, block, layer)
    ensures Between(figures, block, layer, layer)
  {
    forall i, j | 0 <= i < j < |block| ensures Layer(figures, block[i]) <= Layer(figures, block[j]) {
      assert block[i] in block && block[j] in block;
    }
  }

  /** Two layered runs, the second on layers no lower than the first,
      make one layered run. */
  lemma Join(figures: seq<StyledFigure>, a: seq<Element>, b: seq<Element>, low: nat, middle: nat, high: nat)
    requires low <= middle <= high
    requires Between(figures, a, low, middle) && Between(figures, b, middle, high)
    ensures Between(figures, a + b, low, high)
  {
    var r := a + b;
    forall i, j | 0 <= i < j < |r| ensures Layer(figures, r[i]) <= Layer(figures, r[j]) {
      if j < |a| {
        assert r[i] == a[i] && r[j] == a[j];
      } else if i < |a| {
        assert r[i] == a[i] && r[i] in a && r[j] == b[j - |a|] && r[j] in b;
      } else {
        assert r[i] == b[i - |a|] && r[j] == b[j - |a|];
      }
    }
    forall e | e in r ensures low <= Layer(figures, e) <= high {
      assert e in a || e in b;
    }
  }

  lemma NumberedLayers(figures: seq<StyledFigure>, n: nat)
    ensures AllAt(figures, Numbered(n, true), 4) && AllAt(figures, Numbered(n, false), 5)
  {
    var trees := Numbered(n, true);
    var craters := Numbered(n, false);
    forall e | e in trees ensures Layer(figures, e) == 4 { var k :| 0 <= k < |trees| && trees[k] == e; }
    forall e | e in craters ensures Layer(figures, e) == 5 { var k :| 0 <= k < |craters| && craters[k] == e; }
  }

  lemma BuildingsLayer(figures: seq<StyledFigure>, mode: BuildingMode, drawRoofs: bool, scale: real,
                       buildingScale: real, buildings: seq<Extrusion.Building>, heights: set<real>)
    ensures AllAt(figures, BuildingsTrace(mode, drawRoofs, scale, buildingScale, buildings, heights), 6)
  {
    if mode == Flat {
      var trace := Extrusion.Flats(|buildings|);
      forall e | e in trace ensures Layer(figures, e) == 6 {
        var k :| 0 <= k < |trace| && trace[k] == e;
      }
    } else if mode != BuildingMode.No {
      IsometricLayer(figures, mode, drawRoofs, scale, buildingScale, buildings, heights);
    }
  }

  lemma IsometricLayer(figures: seq<StyledFigure>, mode: BuildingMode, drawRoofs: bool, scale: real,
                       buildingScale: real, buildings: seq<Extrusion.Building>, heights: set<real>)
    requires mode in {Isometric, IsometricNoParts}
    ensures AllAt(figures, BuildingsTrace(mode, drawRoofs, scale, buildingScale, buildings, heights), 6)
  {
    IsometricBuildings(mode, drawRoofs, scale, buildingScale, buildings, heights);
    ShadesThenSlices(figures, BuildingsTrace(mode, drawRoofs, scale, buildingScale, buildings, heights));
  }

  lemma ShadesThenSlices(figures: seq<StyledFigure>, trace: seq<Element>)
    requires |trace| > 0 && trace[0].BuildingShades?
    requires forall e :: e in trace[1..] ==> e.Wall? || e.Roof?
    ensures AllAt(figures, trace, 6)
  {
    forall e | e in trace ensures Layer(figures, e) == 6 {
      var k :| 0 <= k < |trace| && trace[k] == e;
      if k > 0 {
        assert e == trace[1..][k - 1] && e in trace[1..];
      }
    }
  }

  lemma PassLayer(figures: seq<StyledFigure>, pass: Pass, order: seq<nat>, occupied: Option<Occupied>, mode: LabelMode)
    ensures AllAt(figures, PassTrace(pass, order, |order|, occupied, mode),
                  match pass case MainIcons => 8 case ExtraIcons => 9 case Labels => 10)
  {
    var trace := PassTrace(pass, order, |order|, occupied, mode);
    forall e | e in trace ensures Layer(figures, e) == match pass case MainIcons => 8 case ExtraIcons => 9 case Labels => 10 {
      var k :| 0 <= k < |trace| && trace[k] == e;
    }
  }

  /** Bottom figures, roads, top figures, trees, craters and buildings, in
      that layer order. */
  lemma LowerLayered(flinger: Flinger, configuration: Configuration, environment: Environment, scene: Scene)
    ensures Between(scene.figures, Lower(flinger, configuration, environment, scene), 1, 6)
  {
    var figures := scene.figures;
    var bottom := FigureLayer(figures, |figures|, false, flinger.render);
    var top := FigureLayer(figures, |figures|, true, flinger.render);
    var trees := Numbered(scene.trees, true);
    var craters := Numbered(scene.craters, false);
    var buildings := BuildingsTrace(configuration.buildingMode, configuration.drawRoofs, flinger.scale,
                                    environment.buildingScale, scene.buildings, scene.heights);
    FigureLayerContents(figures, |figures|, false, flinger.render);
    FigureLayerContents(figures, |figures|, true, flinger.render);
    NumberedLayers(figures, scene.trees);
    NumberedLayers(figures, scene.craters);
    BuildingsLayer(figures, configuration.buildingMode, configuration.drawRoofs, flinger.scale,
                   environment.buildingScale, scene.buildings, scene.heights);
    assert AllAt(figures, bottom, 1);
    assert AllAt(figures, [Roads], 2);
    assert AllAt(figures, top, 3);
    SingleLayer(figures, bottom, 1);
    SingleLayer(figures, [Roads], 2);
    SingleLayer(figures, top, 3);
    SingleLayer(figures, trees, 4);
    SingleLayer(figures, craters, 5);
    SingleLayer(figures, buildings, 6);
    Join(figures, bottom, [Roads], 1, 1, 2);
    Join(figures, bottom + [Roads], top, 1, 2, 3);
    Join(figures, bottom + [Roads] + top, trees, 1, 3, 4);
    Join(figures, bottom + [Roads] + top + trees, craters, 1, 4, 5);
    Join(figures, bottom + [Roads] + top + trees + craters, buildings, 1, 5, 6);
  }

  /** Main icons, extra icons, labels and credits, in that layer order. */
  lemma UpperLayered(flinger: Flinger, configuration: Configuration, environment: Environment, scene: Scene)
    ensures Between(scene.figures, Upper(flinger, configuration, environment, scene), 8, 11)
  {
    UpperBlocks(scene.figures, PointOrder(scene.points), Tracker(configuration, flinger.size), configuration.labelMode,
                LabelsDrawn(configuration), scene.size, environment.project, configuration.credit);
  }

  lemma UpperBlocks(figures: seq<StyledFigure>, order: seq<nat>, occupied: Option<Occupied>, mode: LabelMode,
                    labelsDrawn: bool, size: Vec, project: string, credit: Option<string>)
    ensures Between(figures,
      PassTrace(MainIcons, order, |order|, occupied, mode)
      + PassTrace(ExtraIcons, order, |order|, occupied, mode)
      + (if labelsDrawn then PassTrace(Labels, order, |order|, occupied, mode) else [])
      + Credits(size, project, credit), 8, 11)
  {
    var labels := if labelsDrawn then PassTrace(Labels, order, |order|, occupied, mode) else [];
    PassLayer(figures, MainIcons, order, occupied, mode);
    PassLayer(figures, ExtraIcons, order, occupied, mode);
    PassLayer(figures, Labels, order, occupied, mode);
    assert AllAt(figures, labels, 10);
    assert AllAt(figures, Credits(size, project, credit), 11);
    FourBlocks(figures, PassTrace(MainIcons, order, |order|, occupied, mode), PassTrace(ExtraIcons, order, |order|, occupied, mode),
               labels, Credits(size, project, credit), 8);
  }

  /** Four blocks on four consecutive layers make one layered run. */
  lemma FourBlocks(figures: seq<StyledFigure>, a: seq<Element>, b: seq<Element>, c: seq<Element>, d: seq<Element>, layer: nat)
    requires AllAt(figures, a, layer) && AllAt(figures, b, layer + 1)
    requires AllAt(figures, c, layer + 2) && AllAt(figures, d, layer + 3)
    ensures Between(figures, a + b + c + d, layer, layer + 3)
  {
    SingleLayer(figures, a, layer);
    SingleLayer(figures, b, layer + 1);
    SingleLayer(figures, c, layer + 2);
    SingleLayer(figures, d, layer + 3);
    Join(figures, a, b, layer, layer, layer + 1);
    Join(figures, a + b, c, layer, layer + 1, layer + 2);
    Join(figures, a + b + c, d, layer, layer + 2, layer + 3);
  }

  /** The drawing starts with the one canvas-sized background and then
      keeps the layer order: bottom figures, roads, top figures, trees,
      craters, buildings, direction sectors, main icons, extra icons,
      labels, credits. */
  lemma MapTraceLayered(flinger: Flinger, configuration: Configuration, background: Color,
                        environment: Environment, scene: Scene)
    ensures var trace := MapTrace(flinger, configuration, background, environment, scene).elements;
      |trace| > 0 && trace[0] == Background(flinger.size, background) &&
      (forall k :: 0 < k < |trace| ==> !trace[k].Background?) &&
      Layered(scene.figures, trace)
  {
    var outputs := Drawn(scene.directionSectors, environment.parsers);
    var sectors := SectorsOutput(outputs, |scene.directionSectors|);
    var lower := Lower(flinger, configuration, environment, scene);
    var upper := Upper(flinger, configuration, environment, scene);
    DrawnPaths(scene.directionSectors, environment.parsers);
    SectorsOutputPaths(outputs, |scene.directionSectors|);
    LowerLayered(flinger, configuration, environment, scene);
    UpperLayered(flinger, configuration, environment, scene);
    MapTraceParts(flinger, configuration, background, environment, scene);
    Assemble(scene.figures, Background(flinger.size, background), lower, sectors, upper);
  }

  lemma MapTraceParts(flinger: Flinger, configuration: Configuration, background: Color,
                      environment: Environment, scene: Scene)
    ensures var sectors := SectorsOutput(Drawn(scene.directionSectors, environment.parsers), |scene.directionSectors|);
      MapTrace(flinger, configuration, background, environment, scene).elements ==
      [Background(flinger.size, background)] + Lower(flinger, configuration, environment, scene) + sectors.elements
      + (if sectors.ok then Upper(flinger, configuration, environment, scene) else [])
  {
  }

  lemma Assemble(figures: seq<StyledFigure>, background: Element, lower: seq<Element>,
                 sectors: Direction.Output, upper: seq<Element>)
    requires background.Background?
    requires Between(figures, lower, 1, 6) && Between(figures, upper, 8, 11)
    requires forall e :: e in sectors.elements ==> e.DirectionPath?
    ensures var trace := [background] + lower + sectors.elements + (if sectors.ok then upper else []);
      trace[0] == background &&
      (forall k :: 0 < k < |trace| ==> !trace[k].Background?) &&
      Layered(figures, trace)
  {
    assert AllAt(figures, sectors.elements, 7);
    SingleLayer(figures, sectors.elements, 7);
    Join(figures, lower, sectors.elements, 1, 6, 7);
    var upperDrawn := if sectors.ok then upper else [];
    assert Between(figures, upperDrawn, 8, 11);
    Join(figures, lower + sectors.elements, upperDrawn, 1, 7, 11);
    var rest := lower + sectors.elements + upperDrawn;
    var head := [background];
    assert AllAt(figures, head, 0);
    SingleLayer(figures, head, 0);
    Join(figures, head, rest, 0, 0, 11);
    var trace := head + rest;
    assert trace == [background] + lower + sectors.elements + upperDrawn;
    forall k | 0 < k < |trace| ensures !trace[k].Background? {
      assert trace[k] == rest[k - 1] && trace[k] in rest;
    }
  }

  /** Appending in two steps appends the concatenation; proved once here so
      that the drawing methods do not prove it inside their own contexts. */
  lemma Regroup(start: seq<Element>, a: seq<Element>, b: seq<Element>)
    ensures start + a + b == start + (a + b)
  {
  }

  // ---------------------------------------------------------------------
  // The map

  class Map {
    const flinger: Flinger
    const svg: Drawing
    const configuration: Configuration
    const backgroundColor: Color
    const environment: Environment

    /** `Map.__init__`: the background colour comes from the scheme unless
        the configuration chooses one. */
    constructor (flinger: Flinger, svg: Drawing, configuration: Configuration, environment: Environment)
      ensures this.flinger == flinger && this.svg == svg && this.configuration == configuration
      ensures this.environment == environment
      ensures backgroundColor == BackgroundFill(configuration)
    {
      this.flinger := flinger;
      this.svg := svg;
      this.configuration := configuration;
      this.environment := environment;
      var color := BackgroundColor(configuration);
      if color.Some? {
        backgroundColor := color.value;
      } else {
        backgroundColor := FromScheme("background_color");
      }
    }

    /** `Map.draw`. */
    method Draw(scene: Scene) returns (ok: bool)
      modifies svg
      ensures svg.elements == old(svg.elements) + MapTrace(flinger, configuration, backgroundColor, environment, scene).elements
      ensures svg.defs == old(svg.defs) + MapTrace(flinger, configuration, backgroundColor, environment, scene).defs
      ensures ok == MapTrace(flinger, configuration, backgroundColor, environment, scene).ok
    {
      ghost var outputs := Drawn(scene.directionSectors, environment.parsers);
      ghost var sectors := SectorsOutput(outputs, |outputs|);
      ghost var start := svg.elements;
      ghost var head := [Background(flinger.size, backgroundColor)];
      ghost var lower := Lower(flinger, configuration, environment, scene);
      MapTraceParts(flinger, configuration, backgroundColor, environment, scene);
      svg.Add(Background(flinger.size, backgroundColor));
      DrawLower(scene);
      ok := DrawDirectionSectors(scene.directionSectors, outputs);
      Regroup(start, head, lower);
      Regroup(start, head + lower, sectors.elements);
      if ok {
        ghost var upper := Upper(flinger, configuration, environment, scene);
        DrawUpper(scene);
        Regroup(start, head + lower + sectors.elements, upper);
      }
    }

    /** Everything from the bottom figures to the buildings. */
    method DrawLower(scene: Scene)
      modifies svg
      ensures svg.elements == old(svg.elements) + Lower(flinger, configuration, environment, scene)
      ensures svg.defs == old(svg.defs)
    {
      ghost var start := svg.elements;
      ghost var bottom := FigureLayer(scene.figures, |scene.figures|, false, flinger.render);
      ghost var top := FigureLayer(scene.figures, |scene.figures|, true, flinger.render);
      ghost var trees := Numbered(scene.trees, true);
      ghost var craters := Numbered(scene.craters, false);
      ghost var buildings := BuildingsTrace(configuration.buildingMode, configuration.drawRoofs, flinger.scale,
                                            environment.buildingScale, scene.buildings, scene.heights);
      DrawFigures(scene.figures, false);
      svg.Add(Roads);
      Regroup(start, bottom, [Roads]);
      DrawFigures(scene.figures, true);
      Regroup(start, bottom + [Roads], top);
      DrawNumbered(scene.trees, true);
      Regroup(start, bottom + [Roads] + top, trees);
      DrawNumbered(scene.craters, false);
      Regroup(start, bottom + [Roads] + top + trees, craters);
      DrawBuildings(scene.buildings, scene.heights);
      Regroup(start, bottom + [Roads] + top + trees + craters, buildings);
    }

    /** The points, sorted by priority, in three passes, then the credits. */
    method DrawUpper(scene: Scene)
      modifies svg
      ensures svg.elements == old(svg.elements) + Upper(flinger, configuration, environment, scene)
      ensures svg.defs == old(svg.defs)
    {
      var occupied: Option<Occupied>;
      if configuration.overlap == 0 {
        occupied := None;
      } else {
        occupied := Some(Occupied(flinger.size.x, flinger.size.y, configuration.overlap));
      }
      var order := Sorting.StableOrder(Priorities(scene.points), |scene.points|);
      assert occupied == Tracker(configuration, flinger.size) && order == PointOrder(scene.points);
      ghost var start := svg.elements;
      ghost var mode := configuration.labelMode;
      ghost var main := PassTrace(MainIcons, order, |order|, occupied, mode);
      ghost var extra := PassTrace(ExtraIcons, order, |order|, occupied, mode);
      ghost var labels := if LabelsDrawn(configuration) then PassTrace(Labels, order, |order|, occupied, mode) else [];
      DrawPass(MainIcons, order, occupied);
      DrawPass(ExtraIcons, order, occupied);
      Regroup(start, main, extra);
      DrawLabels(order, occupied);
      Regroup(start, main + extra, labels);
      ghost var credits := Credits(scene.size, environment.project, configuration.credit);
      DrawCredits(scene.size);
      Regroup(start, main + extra + labels, credits);
    }

    /** The loop over one of the figure lists: a path for each figure on
        that side whose path is not empty. */
    method DrawFigures(figures: seq<StyledFigure>, top: bool)
      modifies svg
      ensures svg.elements == old(svg.elements) + FigureLayer(figures, |figures|, top, flinger.render)
      ensures svg.defs == old(svg.defs)
    {
      var k := 0;
      while k < |figures|
        invariant 0 <= k <= |figures|
        invariant svg.elements == old(svg.elements) + FigureLayer(figures, k, top, flinger.render)
        invariant svg.defs == old(svg.defs)
      {
        if IsTop(figures[k]) == top {
          var path := StyledGetPath(figures[k], flinger.render, Vec(0.0, 0.0));
          if path != "" {
            svg.Add(FigurePath(k, path));
          }
        }
        k := k + 1;
      }
    }

    /** The tree loop (`trees` true) or the crater loop. */
    method DrawNumbered(n: nat, trees: bool)
      modifies svg
      ensures svg.elements == old(svg.elements) + Numbered(n, trees)
      ensures svg.defs == old(svg.defs)
    {
      var k := 0;
      while k < n
        invariant 0 <= k <= n
        invariant svg.elements == old(svg.elements) + Numbered(k, trees)
        invariant svg.defs == old(svg.defs)
      {
        if trees {
          svg.Add(Tree(k));
        } else {
          svg.Add(Crater(k));
        }
        k := k + 1;
      }
    }

    /** `Map.draw_buildings`. */
    method DrawBuildings(buildings: seq<Extrusion.Building>, heights: set<real>)
      modifies svg
      ensures svg.elements == old(svg.elements) + BuildingsTrace(configuration.buildingMode, configuration.drawRoofs,
                                                                 flinger.scale, environment.buildingScale, buildings, heights)
      ensures svg.defs == old(svg.defs)
    {
      if configuration.buildingMode == BuildingMode.No {
        return;
      }
      if configuration.buildingMode == Flat {
        DrawFlats(|buildings|);
        return;
      }
      ghost var shades := [BuildingShades(|buildings|)];
      ghost var slices := Extrusion.Slices(PlanOf(buildings, heights, flinger.scale, environment.buildingScale,
                                                  configuration.drawRoofs), |heights|);
      svg.Add(BuildingShades(|buildings|));
      DrawExtruded(buildings, heights);
      Regroup(old(svg.elements), shades, slices);
    }

    /** Flat mode: each building drawn flat, in order. */
    method DrawFlats(n: nat)
      modifies svg
      ensures svg.elements == old(svg.elements) + Extrusion.Flats(n)
      ensures svg.defs == old(svg.defs)
    {
      var k := 0;
      while k < n
        invariant 0 <= k <= n
        invariant svg.elements == old(svg.elements) + Extrusion.Flats(k)
        invariant svg.defs == old(svg.defs)
      {
        svg.Add(FlatBuilding(k));
        k := k + 1;
      }
    }

    /** Isometric modes: the walls dictionary, then one slice per height,
        lowest first. */
    method DrawExtruded(buildings: seq<Extrusion.Building>, heights: set<real>)
      modifies svg
      ensures svg.elements == old(svg.elements)
        + Extrusion.Slices(PlanOf(buildings, heights, flinger.scale, environment.buildingScale, configuration.drawRoofs), |heights|)
      ensures svg.defs == old(svg.defs)
    {
      var scale := flinger.scale;
      var walls := CollectWalls(buildings);
      var sortedWalls := Extrusion.SortedSegments(walls.Keys);
      var sortedHeights := Extrusion.SortedHeights(heights);
      ghost var plan := PlanOf(buildings, heights, scale, environment.buildingScale, configuration.drawRoofs);
      DrawSlices(buildings, walls, sortedWalls, sortedHeights, plan);
    }

    /** The height loop of the isometric modes over a plan's heights. */
    method DrawSlices(buildings: seq<Extrusion.Building>, walls: map<Segment, nat>, sortedWalls: seq<Segment>,
                      sortedHeights: seq<real>, ghost plan: Extrusion.Plan)
      requires plan.Valid() && plan.buildings == buildings && plan.owners == walls && plan.walls == sortedWalls && plan.heights == sortedHeights
      requires plan.scale == flinger.scale && plan.buildingScale == environment.buildingScale
      requires plan.drawRoofs == configuration.drawRoofs
      modifies svg
      ensures svg.elements == old(svg.elements) + Extrusion.Slices(plan, |sortedHeights|)
      ensures svg.defs == old(svg.defs)
    {
      var scale := flinger.scale;
      var previousHeight := 0.0;
      var k := 0;
      while k < |sortedHeights|
        invariant 0 <= k <= |sortedHeights|
        invariant previousHeight == if k == 0 then 0.0 else sortedHeights[k - 1]
        invariant svg.elements == old(svg.elements) + Extrusion.Slices(plan, k)
        invariant svg.defs == old(svg.defs)
      {
        var height := sortedHeights[k];
        var shift1 := Vec(0.0, -previousHeight * scale * environment.buildingScale);
        var shift2 := Vec(0.0, -height * scale * environment.buildingScale);
        assert shift1 == Extrusion.Shift(plan.Floor(k), plan.scale, plan.buildingScale);
        assert shift2 == Extrusion.Shift(plan.heights[k], plan.scale, plan.buildingScale);
        DrawSlice(buildings, walls, sortedWalls, height, shift1, shift2);
        Regroup(old(svg.elements), Extrusion.Slices(plan, k), Extrusion.Slice(plan, k));
        previousHeight := height;
        k := k + 1;
      }
    }

    /** The `walls` dictionary: each part of each building in turn, so the
        last building listing a segment owns it. */
    method CollectWalls(buildings: seq<Extrusion.Building>) returns (walls: map<Segment, nat>)
      ensures walls == Extrusion.Owners(buildings, |buildings|)
    {
      walls := map[];
      var b := 0;
      while b < |buildings|
        invariant 0 <= b <= |buildings|
        invariant walls == Extrusion.Owners(buildings, b)
      {
        var parts := buildings[b].parts;
        var p := 0;
        while p < |parts|
          invariant 0 <= p <= |parts|
          invariant walls == Extrusion.AssignParts(Extrusion.Owners(buildings, b), parts[..p], b)
        {
          walls := walls[parts[p] := b];
          assert parts[..p + 1][..p] == parts[..p];
          p := p + 1;
        }
        assert parts[..p] == parts;
        b := b + 1;
      }
    }

    /** One height: the walls whose building spans it, then, when roofs
        are on, the roofs of the buildings of exactly that height. */
    method DrawSlice(buildings: seq<Extrusion.Building>, walls: map<Segment, nat>, sortedWalls: seq<Segment>,
                     height: real, shift1: Vec, shift2: Vec)
      requires Extrusion.Owned(sortedWalls, walls, buildings)
      modifies svg
      ensures svg.elements == old(svg.elements)
        + Extrusion.WallsAt(sortedWalls, walls, buildings, height, shift1, shift2)
        + (if configuration.drawRoofs then Extrusion.RoofsAt(buildings, |buildings|, height) else [])
      ensures svg.defs == old(svg.defs)
    {
      var w := 0;
      while w < |sortedWalls|
        invariant 0 <= w <= |sortedWalls|
        invariant Extrusion.Owned(sortedWalls[..w], walls, buildings)
        invariant svg.elements == old(svg.elements) + Extrusion.WallsAt(sortedWalls[..w], walls, buildings, height, shift1, shift2)
        invariant svg.defs == old(svg.defs)
      {
        var wall := sortedWalls[w];
        var owner := walls[wall];
        assert sortedWalls[..w + 1][..w] == sortedWalls[..w];
        if !(buildings[owner].height < height || buildings[owner].minHeight >= height) {
          svg.Add(Wall(owner, wall, height, shift1, shift2));
        }
        w := w + 1;
      }
      assert sortedWalls[..w] == sortedWalls;
      ghost var afterWalls := svg.elements;
      if configuration.drawRoofs {
        var r := 0;
        while r < |buildings|
          invariant 0 <= r <= |buildings|
          invariant svg.elements == afterWalls + Extrusion.RoofsAt(buildings, r, height)
          invariant svg.defs == old(svg.defs)
        {
          if buildings[r].height == height {
            svg.Add(Roof(r));
          }
          r := r + 1;
        }
      }
    }

    /** The direction sector loop; a sector that raises ends it. */
    method DrawDirectionSectors(sectors: seq<Direction.DirectionSector>, ghost outputs: seq<Direction.Output>) returns (ok: bool)
      requires Produces(sectors, outputs, environment.parsers)
      modifies svg
      ensures svg.elements == old(svg.elements) + SectorsOutput(outputs, |outputs|).elements
      ensures svg.defs == old(svg.defs) + SectorsOutput(outputs, |outputs|).defs
      ensures ok == SectorsOutput(outputs, |outputs|).ok
    {
      var k := 0;
      ok := true;
      while k < |sectors| && ok
        invariant 0 <= k <= |outputs| == |sectors|
        invariant ok == SectorsOutput(outputs, k).ok
        invariant svg.elements == old(svg.elements) + SectorsOutput(outputs, k).elements
        invariant svg.defs == old(svg.defs) + SectorsOutput(outputs, k).defs
      {
        ok := DrawSector(sectors, k, outputs);
        k := k + 1;
      }
      if !ok {
        SectorsStop(outputs, k, |outputs|);
      }
    }

    /** Draws sector `k`, whose output is `outputs[k]`. */
    method DrawSector(sectors: seq<Direction.DirectionSector>, k: nat, ghost outputs: seq<Direction.Output>) returns (ok: bool)
      requires k < |sectors| && Produces(sectors, outputs, environment.parsers)
      modifies svg
      ensures svg.elements == old(svg.elements) + outputs[k].elements
      ensures svg.defs == old(svg.defs) + outputs[k].defs
      ensures ok == outputs[k].ok
    {
      ok := Direction.Draw(sectors[k], svg, environment.parsers);
      assert outputs[k] == Direction.DrawOutput(sectors[k], environment.parsers);
    }

    /** The main or extra icon loop over the sorted points. */
    method DrawPass(pass: Pass, order: seq<nat>, occupied: Option<Occupied>)
      requires pass != Labels
      modifies svg
      ensures svg.elements == old(svg.elements) + PassTrace(pass, order, |order|, occupied, configuration.labelMode)
      ensures svg.defs == old(svg.defs)
    {
      var k := 0;
      while k < |order|
        invariant 0 <= k <= |order|
        invariant svg.elements == old(svg.elements) + PassTrace(pass, order, k, occupied, configuration.labelMode)
        invariant svg.defs == old(svg.defs)
      {
        if pass == MainIcons {
          svg.Add(MainShapes(order[k], occupied));
        } else {
          svg.Add(ExtraShapes(order[k], occupied));
        }
        k := k + 1;
      }
    }

    /** The label loop: the mode test is made for every point. */
    method DrawLabels(order: seq<nat>, occupied: Option<Occupied>)
      modifies svg
      ensures svg.elements == old(svg.elements)
        + if LabelsDrawn(configuration) then PassTrace(Labels, order, |order|, occupied, configuration.labelMode) else []
      ensures svg.defs == old(svg.defs)
    {
      var k := 0;
      while k < |order|
        invariant 0 <= k <= |order|
        invariant svg.elements == old(svg.elements)
          + if LabelsDrawn(configuration) then PassTrace(Labels, order, k, occupied, configuration.labelMode) else []
        invariant svg.defs == old(svg.defs)
      {
        if !IsWireframe(configuration) && configuration.labelMode != LabelMode.No {
          svg.Add(Texts(order[k], occupied, configuration.labelMode));
        }
        k := k + 1;
      }
    }

    /** `Map.draw_credits`. */
    method DrawCredits(size: Vec)
      modifies svg
      ensures svg.elements == old(svg.elements) + Credits(size, environment.project, configuration.credit)
      ensures svg.defs == old(svg.defs)
    {
      var lines := [("Rendering: " + environment.project, Vec(RightMargin, BottomMargin))];
      if configuration.credit.Some? && configuration.credit.value != "" {
        lines := lines + [("Data: " + configuration.credit.value, Vec(RightMargin, BottomMargin + FontSize + VerticalSpacing))];
      }
      assert lines == CreditLines(environment.project, configuration.credit);
      var k := 0;
      while k < |lines|
        invariant 0 <= k <= |lines|
        invariant svg.elements == old(svg.elements) + CreditsTrace(lines[..k], size)
        invariant svg.defs == old(svg.defs)
      {
        var (text, offset) := lines[k];
        svg.Add(CreditText(text, size.Minus(offset), true));
        svg.Add(CreditText(text, size.Minus(offset), false));
        assert lines[..k + 1][..k] == lines[..k];
        k := k + 1;
      }
      assert lines[..k] == lines;
    }

    /** `Map.draw_simple_roads`. */
    method DrawSimpleRoads(roads: seq<Junctions.Road>)
      modifies svg
      ensures svg.elements == old(svg.elements) + Junctions.SimpleRoads(roads)
      ensures svg.defs == old(svg.defs)
    {
      var table := BuildTable(roads);
      Junctions.BuildOrdered(roads, Junctions.Pairs(roads, |roads|));
      DrawIntersections(table);
    }

    /** The loop over the node table: an intersection for each node where
        at least four half-edges meet, in key order. */
    method DrawIntersections(table: Junctions.Table)
      requires Junctions.Ordered(table)
      modifies svg
      ensures svg.elements == old(svg.elements) + Junctions.Intersections(table, |table.order|)
      ensures svg.defs == old(svg.defs)
    {
      var k := 0;
      while k < |table.order|
        invariant 0 <= k <= |table.order|
        invariant svg.elements == old(svg.elements) + Junctions.Intersections(table, k)
        invariant svg.defs == old(svg.defs)
      {
        var parts := table.parts[table.order[k]];
        if |parts| >= 4 {
          svg.Add(Intersection(parts));
        }
        k := k + 1;
      }
    }
  }

  /** Once a sector raises, no later sector is drawn. */
  lemma {:induction false} SectorsStop(outputs: seq<Direction.Output>, k: nat, n: nat)
    requires k <= n <= |outputs| && !SectorsOutput(outputs, k).ok
    ensures SectorsOutput(outputs, n) == SectorsOutput(outputs, k)
    decreases n - k
  {
    if k < n {
      SectorsStop(outputs, k, n - 1);
    }
  }

  /** The node table of `draw_simple_roads`: for every road and every pair
      of consecutive nodes, both nodes get an entry, then each gets the
      half-edge leaving it. */
  method BuildTable(roads: seq<Junctions.Road>) returns (table: Junctions.Table)
    ensures Junctions.ValidPairs(roads, Junctions.Pairs(roads, |roads|))
    ensures table == Junctions.Build(roads, Junctions.Pairs(roads, |roads|))
    ensures Junctions.Records(roads, Junctions.Pairs(roads, |roads|), table) && Junctions.Ordered(table)
  {
    table := Junctions.Table(map[], []);
    var r := 0;
    while r < |roads|
      invariant 0 <= r <= |roads|
      invariant Junctions.ValidPairs(roads, Junctions.Pairs(roads, r))
      invariant table == Junctions.Build(roads, Junctions.Pairs(roads, r))
    {
      table := AddRoad(roads, r, table);
      Junctions.PairsValid(roads, r + 1);
      r := r + 1;
    }
    Junctions.BuildContents(roads, Junctions.Pairs(roads, |roads|));
    Junctions.BuildOrdered(roads, Junctions.Pairs(roads, |roads|));
  }

  /** The inner loop for road `r`: every consecutive pair of its nodes. */
  method AddRoad(roads: seq<Junctions.Road>, r: nat, table: Junctions.Table) returns (next: Junctions.Table)
    requires r < |roads| && Junctions.ValidPairs(roads, Junctions.Pairs(roads, r))
    requires table == Junctions.Build(roads, Junctions.Pairs(roads, r))
    ensures Junctions.ValidPairs(roads, Junctions.Pairs(roads, r + 1))
    ensures next == Junctions.Build(roads, Junctions.Pairs(roads, r + 1))
  {
    Junctions.PairsValid(roads, r + 1);
    ghost var before := Junctions.Pairs(roads, r);
    next := table;
    var i := 0;
    assert before + Junctions.RoadPairs(r, 0) == before;
    while i < Junctions.PairCount(roads[r])
      invariant 0 <= i <= Junctions.PairCount(roads[r])
      invariant Junctions.ValidPairs(roads, before + Junctions.RoadPairs(r, i))
      invariant next == Junctions.Build(roads, before + Junctions.RoadPairs(r, i))
    {
      ghost var done := before + Junctions.RoadPairs(r, i);
      assert Junctions.ValidPair(roads, (r, i));
      Junctions.BuildSnoc(roads, done, r, i);
      assert before + Junctions.RoadPairs(r, i + 1) == done + [(r, i)];
      next := AddPair(roads, r, i, next);
      i := i + 1;
    }
  }

  /** One pass of the inner loop: both nodes get an entry if they have
      none, in order, then each gets the half-edge leaving it. */
  method AddPair(roads: seq<Junctions.Road>, r: nat, i: nat, table: Junctions.Table) returns (next: Junctions.Table)
    requires Junctions.ValidPair(roads, (r, i))
    ensures next == Junctions.Step(roads, table, r, i)
  {
    var first, second := roads[r].nodes[i], roads[r].nodes[i + 1];
    var parts, order := table.parts, table.order;
    if first !in parts {
      parts := parts[first := {}];
      order := order + [first];
    }
    if second !in parts {
      parts := parts[second := {}];
      order := order + [second];
    }
    parts := parts[first := parts[first] + {RoadPart(r, i, true)}];
    parts := parts[second := parts[second] + {RoadPart(r, i, false)}];
    next := Junctions.Table(parts, order);
    ghost var step := Junctions.Step(roads, table, r, i);
    assert next.order == step.order;
    assert forall n :: n in next.parts <==> n in step.parts;
    assert forall n :: n in next.parts ==> next.parts[n] == step.parts[n];
  }
}
