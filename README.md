# map-machine compositor, modelled in Dafny

This project models the rendering compositor of map-machine, an OpenStreetMap
renderer that draws SVG maps, together with the small helpers it relies on:

- `Map.draw` fixes the order in which a constructed scene reaches the SVG
  document. The order is: background; figures below road priority; roads;
  figures at or above road priority; trees; craters; buildings; direction
  sectors; main icons, extra icons and labels, over points sorted by
  descending priority; credits.
- `Map.draw_buildings` extrudes buildings in height slices. Walls are keyed
  by segment, and the last building listing a segment owns it. The distinct
  heights are walked upward. A wall is drawn in every slice its building
  spans, and a roof is drawn at the slice of the building's own height.
- `Map.draw_simple_roads` builds a node → half-edge table and marks an
  intersection at every node where at least four half-edges meet.
- `figure.py`: polygon orientation by a shoelace-style sum, and SVG path
  assembly for figures.
- `feature/direction.py`: sector texts (a range or a single direction), the
  half-angle rule, the three-valued "is right" test, and the tag dispatch and
  gradient sectors of `DirectionSector.draw`.
- `map_configuration.py`: the mode enumerations, the configuration defaults,
  `from_options`, `is_wireframe` and `background_color`.
- The two test-grid builders: `Grid` in `doc/draw_elements.py` and in
  `element/test_elements.py`, with their road-feature and overlap layouts.

How the model is built:

- The SVG document is a class with an append-only list of elements and a
  list of gradient definitions (`Svg.Drawing`).
- Every drawing callee the compositor calls (roads, trees, walls, roofs,
  icons, labels, intersections) is opaque here. Each is recorded as one
  element that carries the arguments deciding what it draws.
- Each loop of the source is a `method` proved against a specification
  function of the inputs. The properties the source promises are then proved
  as lemmas about those functions.
- Python dictionaries are modelled according to how the source reads them:
  - The node table of `draw_simple_roads` is iterated in insertion order. It
    is a map plus the list of its keys in insertion order (`Junctions.Table`).
  - Tag dictionaries are rendered and merged in insertion order. They are
    sequences of key/value pairs with one pair per key (`Osm.Tags` with
    `Osm.UniqueKeys`).
  - The grids' `nodes` dictionaries only grow. They are sequences of
    (node, cell) pairs in insertion order, and their keys are distinct
    because every node gets a fresh id.
  - `walls` in `draw_buildings` is iterated only through its sorted keys and
    looked up by key; its insertion order is never used, so it is a plain map
    from segment to owner.
- Exceptions become an explicit error result, or an `ok` flag next to what
  had been drawn before the raise.

Modules: `Wrappers` (Option/Result), `Colors`, `Text` (split/join), `Osm`
(tags, nodes, ways, boundary boxes), `MapConfiguration`, `Svg`, `Figures`,
`Direction`, `Sorting` (the two uses of `sorted`), `Extrusion` (the height
slices), `Junctions` (the node table), `Mapper` (the compositor),
`DrawElements` and `TestElements` (the grid builders).

## Model

| member | source | states |
|---|---|---|
| Mapper.BackgroundFill | map_machine/mapper.py:54-56 | The background is #111111 exactly in AUTHOR, TIME and WHITE modes, and the scheme's `background_color` exactly in NORMAL and BLACK |
| Mapper.Map.constructor | map_machine/mapper.py:42-56 | The map keeps its flinger, drawing and configuration, and its background colour is the configuration's colour when it forces one, else the scheme's |
| Mapper.FigureLayerContents | map_machine/mapper.py:65-88 | The paths drawn on one side of the roads are exactly the non-empty paths of the figures on that side, in input order |
| Mapper.FiguresPartitioned | map_machine/mapper.py:67-88 | A figure's path is empty exactly when it has no rings. A non-empty path is drawn below the roads iff priority < 40.0 and above iff priority ≥ 40.0. A drawn path is always that figure's own non-empty path |
| Mapper.Map.DrawFigures | map_machine/mapper.py:74-88 | The figure loop appends exactly that side's layer of non-empty paths |
| Mapper.Numbered | map_machine/mapper.py:90-93 | One tree (or crater) element per constructed tree (or crater), in order |
| Mapper.Map.DrawNumbered | map_machine/mapper.py:90-93 | The tree and crater loops append exactly those elements |
| Mapper.Tracker | map_machine/mapper.py:102-110 | No occupancy tracker iff overlap is 0; otherwise one sized to the canvas with the configured overlap, shared by all three passes |
| Mapper.PointOrderSorted | map_machine/mapper.py:112-114 | The points are visited each exactly once, higher priority first, and equal priorities in input order (a stable sort) |
| Mapper.PassTrace | map_machine/mapper.py:116-131 | A pass adds one element per point, following the sorted order, each with the shared tracker |
| Mapper.Map.DrawPass | map_machine/mapper.py:116-121 | The main- and extra-icon loops append one pass each over the sorted points |
| Mapper.Map.DrawLabels | map_machine/mapper.py:123-131 | The label loop appends a labels pass only when the mode is not wireframe and the label mode is not NO, and nothing otherwise |
| Mapper.CreditsTrace | map_machine/mapper.py:235-250 | Credit line k is drawn as elements 2k and 2k+1 at size minus its offset: first the outline, then the text. Only credit texts are added |
| Mapper.CreditsLayout | map_machine/mapper.py:217-250 | The project credit comes first, 15 units from the right and bottom edges. The data credit follows 12 units higher exactly when a non-empty credit is configured. Each text is outlined just before it is drawn |
| Mapper.DefaultCreditsNameOpenStreetMap | map_machine/mapper.py:228-233 | With the default configuration, "Data: © OpenStreetMap contributors" is drawn |
| Mapper.Map.DrawCredits | map_machine/mapper.py:210-250 | `draw_credits` appends exactly the credit layout |
| Mapper.MapTraceLayered | map_machine/mapper.py:58-133 | The drawing starts with the one canvas-sized background, has no other background, and keeps the layer order: bottom figures, roads, top figures, trees, craters, buildings, sectors, main icons, extra icons, labels, credits |
| Mapper.LowerLayered | map_machine/mapper.py:65-95 | Bottom figures, roads, top figures, trees, craters and buildings come in that layer order |
| Mapper.UpperLayered | map_machine/mapper.py:112-133 | Main icons, extra icons, labels and credits come in that layer order |
| Mapper.Map.Draw | map_machine/mapper.py:58-133 | `draw` appends the background, the lower layers and the sectors, and appends the upper layers only when no sector raised. It reports whether it finished |
| Mapper.Map.DrawLower | map_machine/mapper.py:65-95 | Appends the bottom figures, roads, top figures, trees, craters and buildings |
| Mapper.Map.DrawUpper | map_machine/mapper.py:102-133 | Appends the three point passes over the sorted points, then the credits |
| Mapper.SectorsOutputOk | map_machine/mapper.py:97-98 | The drawing goes on past the sectors exactly when every sector drew without raising |
| Mapper.SectorsOutputPaths | map_machine/mapper.py:97-98 | The sector loop adds sector paths only |
| Mapper.SectorsStop | map_machine/mapper.py:97-98 | Once a sector raises, no later sector adds anything |
| Mapper.DrawnPaths | map_machine/mapper.py:97-98 | Whatever any direction sector adds to the elements is a sector path |
| Mapper.Map.DrawDirectionSectors | map_machine/mapper.py:97-98 | The sector loop appends each sector's output in turn, up to and including the first that raises, and reports whether all finished |
| Mapper.Map.DrawSector | map_machine/mapper.py:97-98 | One sector appends its own output and reports whether it raised |
| Mapper.PlanOf | map_machine/mapper.py:146-161 | The extrusion plan holds the walls dictionary and its sorted keys, the distinct heights ascending, the scales and the roof switch |
| Mapper.BuildingModes | map_machine/mapper.py:137-142 | Mode NO draws nothing. FLAT draws every building flat exactly once and nothing else: no shade, walls or roofs |
| Mapper.IsometricBuildings | map_machine/mapper.py:144-180 | The isometric modes draw the shade group first, then walls and roofs only. A building's roof is drawn iff roofs are on and its height is one of the heights. Drawing goes upward |
| Mapper.IsometricWalls | map_machine/mapper.py:152-173 | A wall is drawn iff its segment's owner is the last building listing it, the height h satisfies min_height < h ≤ height, and it spans from the previous height (or 0) to h |
| Mapper.SlicedWallExtruded | map_machine/mapper.py:160-173 | A wall the slices draw satisfies the window rule |
| Mapper.ExtrudedWallSliced | map_machine/mapper.py:160-173 | A wall satisfying the window rule is drawn by the slices |
| Mapper.AllSlices | map_machine/mapper.py:160-180 | The height loop adds walls and roofs only, exactly the roofs at slice heights when roofs are on, going upward |
| Mapper.FloorIsPreviousHeight | map_machine/mapper.py:160-180 | `previous_height` at slice h is the greatest height below h, or 0 for the lowest |
| Mapper.FloorUnique | map_machine/mapper.py:160-180 | The height below a slice is unique |
| Mapper.LastListerUnique | map_machine/mapper.py:152-156 | A segment has one last lister |
| Mapper.Map.DrawBuildings | map_machine/mapper.py:135-180 | `draw_buildings` appends exactly the building trace of the configured mode |
| Mapper.Map.DrawFlats | map_machine/mapper.py:139-142 | Flat mode appends each building's flat drawing in order |
| Mapper.Map.DrawExtruded | map_machine/mapper.py:146-180 | Isometric modes append the slices of the extrusion plan |
| Mapper.Map.DrawSlices | map_machine/mapper.py:160-180 | The height loop appends one slice per height, lowest first |
| Mapper.Map.CollectWalls | map_machine/mapper.py:152-156 | The `walls` dictionary equals the owner map, so the last building listing a segment owns it |
| Mapper.Map.DrawSlice | map_machine/mapper.py:162-178 | One slice appends its walls in sorted segment order, then the roofs of buildings of exactly that height when roofs are on |
| Mapper.Map.DrawSimpleRoads | map_machine/mapper.py:182-208 | `draw_simple_roads` appends exactly the intersections of the node table |
| Mapper.Map.DrawIntersections | map_machine/mapper.py:204-208 | The table loop appends an intersection for each node with at least four half-edges, in key order |
| Mapper.BuildTable | map_machine/mapper.py:184-202 | The loop over all roads builds a table that records, at each node, exactly the half-edges leaving it, and lists each key once in insertion order |
| Mapper.AddRoad | map_machine/mapper.py:187-202 | The inner loop adds the pairs of one road |
| Mapper.AddPair | map_machine/mapper.py:188-202 | One pair gives both nodes an entry if missing, in order, then adds each node's outgoing half-edge |
| Extrusion.SortedSegments | map_machine/mapper.py:158 | `sorted(walls.keys())` holds every segment once, in strictly ascending segment order |
| Extrusion.SortedHeights | map_machine/mapper.py:161 | `sorted(heights)` holds every distinct height once, strictly ascending |
| Extrusion.AssignParts | map_machine/mapper.py:155-156 | `walls[part] = building` adds the parts as keys, overwriting their previous owner and keeping other keys |
| Extrusion.OwnersAreLastListers | map_machine/mapper.py:152-156 | A segment has a wall exactly when some building lists it, and its owner is the last building listing it |
| Extrusion.WallsAtContents | map_machine/mapper.py:168-173 | A slice draws the wall of a listed segment exactly when its owner passes the window test, with the slice's height and shifts |
| Extrusion.WallsAtOrdered | map_machine/mapper.py:168-173 | Within a slice the walls follow segment order |
| Extrusion.RoofsAtContents | map_machine/mapper.py:175-178 | A slice draws exactly the roofs of buildings whose height equals the slice height |
| Extrusion.SlicesContents | map_machine/mapper.py:160-180 | The slices draw exactly the walls passing the window test and, when roofs are on, exactly the roofs at slice heights |
| Extrusion.SlicesAscend | map_machine/mapper.py:160-180 | Levels never decrease along the slices, and within a level the walls come before the roofs |
| Extrusion.Flats | map_machine/mapper.py:139-142 | Flat mode draws building k as the k-th element, once each |
| Sorting.SortedBy | map_machine/mapper.py:158-161 | Sorting a set of distinct keys gives each member once, strictly ascending |
| Sorting.StableOrder | map_machine/mapper.py:112-114 | The sort of the points is a permutation of their indices |
| Sorting.StableOrderSorted | map_machine/mapper.py:112-114 | Higher priority comes first, and equal priorities keep input order |
| Junctions.RoadPairs | map_machine/mapper.py:187 | `range(len(road.nodes) - 1)` gives pairs (r, 0), (r, 1), ... |
| Junctions.PairsValid | map_machine/mapper.py:186-189 | Every pair visited indexes two existing consecutive nodes |
| Junctions.StepRecords | map_machine/mapper.py:197-202 | One pair keeps the table exact: each node holds exactly the half-edges leaving it |
| Junctions.BuildContents | map_machine/mapper.py:184-202 | The table records, at each node, exactly the half-edges starting there. It has a key exactly for such nodes |
| Junctions.BuildOrdered | map_machine/mapper.py:184-202 | The key order lists each dictionary key exactly once |
| Junctions.IntersectionsContents | map_machine/mapper.py:204-208 | An intersection is drawn exactly for the keys with at least four half-edges |
| Junctions.SimpleRoadsIntersections | map_machine/mapper.py:182-208 | Every intersection gathers all half-edges at one node, at least four of them. Every node where at least four half-edges start gets its intersection |
| Figures.Reversed | map_machine/figure.py:116 | `list(reversed(ring))` has the same length, with node k taken from position n-1-k |
| Figures.IsClockwise | map_machine/figure.py:95-107 | The loop returns true iff the cyclic sum of (x_next − x)(y_next + y), closing edge included, is ≥ 0 |
| Figures.ReversedNegatesSum | map_machine/figure.py:101-116 | Reversing a ring negates its orientation sum |
| Figures.MakeClockwise | map_machine/figure.py:110-116 | The result is clockwise. It is the input exactly when the input passes the clockwise test, and its exact reversal otherwise |
| Figures.MakeCounterClockwise | map_machine/figure.py:119-125 | The result fails the clockwise test unless the sum is 0. It is the exact reversal exactly when the input passes the clockwise test, and the input otherwise |
| Figures.MakeClockwiseIdempotent | map_machine/figure.py:110-116 | Applying `make_clockwise` twice equals applying it once |
| Figures.NewFigure | map_machine/figure.py:17-32 | With inners and outers both non-empty, inner ring k is kept exactly when it passes the clockwise test and reversed otherwise, and outer ring k is reversed exactly when it passes the clockwise test and kept otherwise. So inners end up clockwise and outers counter-clockwise unless their sum is 0. Otherwise both lists are stored unchanged |
| Figures.RingsPathAppend | map_machine/figure.py:43-51 | The path of outers then inners is the outers' path followed by the inners' path |
| Figures.RingsPathEmpty | map_machine/figure.py:43-51 | A figure's path is "" exactly when it has no rings |
| Figures.GetPath | map_machine/figure.py:34-51 | `Figure.get_path` emits one fragment plus a space per ring, outers before inners, with parallel offset 0 |
| Figures.StyledGetPath | map_machine/figure.py:67-92 | `StyledFigure.get_path` does the same with the line style's parallel offset on every ring |
| Direction.HalfAngle | map_machine/feature/direction.py:74-78 | Without an angle the half-angle is π/30. With one it is max(π/15, radians(angle)/2), so never below π/15 and always wider than the default |
| Direction.NewSector | map_machine/feature/direction.py:59-85 | A range raises iff either bound fails to parse. Otherwise its start and end are the parsed first and second pieces, and its main direction is their average. A single direction keeps the parsed vector as main direction. When the vector parses, start and end are that vector rotated by +half-angle and −half-angle. Otherwise all three are None |
| Direction.DrawSector | map_machine/feature/direction.py:87-101 | An arc exists iff start and end do. It runs from center + r·end to center + r·start with radii r, rotation 0 and flags "0", 0 |
| Direction.SectorDrawsIffParsed | map_machine/feature/direction.py:80-96 | A constructed sector draws iff it is a range or its single direction parsed |
| Direction.IsRight | map_machine/feature/direction.py:103-117 | True iff x > 1e-8, False iff x < −1e-8, None without a main direction or near 0 |
| Direction.Sectors | map_machine/feature/direction.py:126-130 | One sector per `;`-separated part, in order. It fails exactly when some part raises, and then it returns the error of the first part that raises |
| Direction.SetIsRight | map_machine/feature/direction.py:148-160 | True iff every sector is right (also with none), False iff every sector is left and not all are right, None otherwise |
| Direction.DrawSet | map_machine/feature/direction.py:135-146 | No failure iff every part constructs, and then the paths are exactly the `Drawable` arcs: one per part whose sector draws, in part order |
| Direction.DrawableSnoc | map_machine/feature/direction.py:143-146 | Appending a part appends its arc, if it has one, to the filtered arcs |
| Direction.DrawSetStops | map_machine/feature/direction.py:143-146 | When part j is the first to raise, `DirectionSet.draw` has yielded exactly the `Drawable` arcs of the parts before j and raises part j's error |
| Direction.Truncate | map_machine/feature/direction.py:199 | `astype(int)` truncates toward zero |
| Direction.CameraAngle | map_machine/feature/direction.py:178-183 | `angle` overrides `camera:angle`. An angle exists iff either tag does. Conversion raises iff a present tag is not a number |
| Direction.Style | map_machine/feature/direction.py:172-194 | A camera reads `camera:direction`, radius 50, in the scheme's camera colour, and its angle is `CameraAngle`'s result: `angle` overrides `camera:angle`. A stop sign reads `direction`, radius 25, in red. Everything else reads `direction`, radius 50, in the scheme's view colour, with the reversed gradient. Only a camera has an angle, and only a camera can raise |
| Direction.PathCandidates | map_machine/feature/direction.py:199-205 | With an angle the one candidate is the whole text's sector arc, or there is none and its construction error is raised. Without one, the candidates are `DirectionSet.draw`'s arcs in order with its failure, and they are the `Drawable` arcs when nothing raised |
| Direction.Emit | map_machine/feature/direction.py:207-232 | Path k closes candidate k's arc, one gradient per path. When no candidate is None, every candidate gets its path. Otherwise the paths stop at the first None candidate, which leaves one extra gradient and raises |
| Direction.EmitAfterFailure | map_machine/feature/direction.py:207-232 | After the first raise, later candidates add nothing |
| Direction.EmitShape | map_machine/feature/direction.py:207-232 | Every path is a sector around the centre, filled by the gradient at the same position |
| Direction.DrawOutputShape | map_machine/feature/direction.py:196-232 | Each path has its gradient, at the style's radius around the truncated point; an extra gradient only when drawing raised |
| Direction.DrawOutputArcs | map_machine/feature/direction.py:196-232 | Without an explicit angle, a drawing that finishes draws one path per part whose sector draws, in part order, each closing that part's arc |
| Direction.DrawOutputPaths | map_machine/feature/direction.py:207-232 | `DirectionSector.draw` adds sector paths only |
| Direction.NoDirectionDrawsNothing | map_machine/feature/direction.py:196-197 | When the tag dispatch does not raise, a missing or empty direction draws nothing and finishes. A camera whose angle tag is not a number still raises first |
| Direction.CameraAngleRaisesFirst | map_machine/feature/direction.py:176-197 | A camera whose `angle` or `camera:angle` tag is not a number raises before anything is drawn, even when it has no direction tag |
| Direction.EmitInto | map_machine/feature/direction.py:207-232 | The path loop appends exactly the gradients and paths of the candidates, stopping at a raise |
| Direction.Draw | map_machine/feature/direction.py:170-232 | `DirectionSector.draw` appends exactly its output and reports whether it raised |
| MapConfiguration.ParseDrawingMode | map_machine/map_configuration.py:15-22 | `DrawingMode(text)` returns the member whose value is `text` and fails for any other text |
| MapConfiguration.ParseLabelMode | map_machine/map_configuration.py:25-31 | `LabelMode(text)` returns the member whose value is `text` and fails for any other text |
| MapConfiguration.ParseBuildingMode | map_machine/map_configuration.py:34-40 | `BuildingMode(text)` returns the member whose value is `text` and fails for any other text |
| MapConfiguration.FromOptions | map_machine/map_configuration.py:62-81 | Succeeds iff all three mode strings are known, with fields filled in declaration order and `credit` left at its default. Otherwise the error names the first unknown enumeration, in the order DrawingMode, BuildingMode, LabelMode, with its text |
| MapConfiguration.CommandLineDefaultsGiveDefault | map_machine/map_configuration.py:47-81 | Without flags, the options give the dataclass defaults: NORMAL, FLAT, MAIN, zoom 18.0, overlap 12, roofs on, level matching on |
| MapConfiguration.BackgroundColor | map_machine/map_configuration.py:87-91 | #111111 for AUTHOR, TIME and WHITE; None exactly for NORMAL and BLACK |
| MapConfiguration.BackgroundColorWireframe | map_machine/map_configuration.py:83-91 | A forced background implies a wireframe mode; BLACK is the only wireframe mode without one |
| Osm.UpdateGet | map_machine/doc/draw_elements.py:194-195 | After `tags \|= other`, a key of `other` has `other`'s value, every other key keeps its value, and keys stay unique |
| Osm.RenderPairs | map_machine/doc/draw_elements.py:171 | Tag k renders as "key=value", one per tag, in insertion order |
| DrawElements.Grid.constructor | map_machine/doc/draw_elements.py:88-97 | A grid starts with the given steps, no nodes, ways or texts, counters at 0 and maxima at 0 |
| DrawElements.Grid.AddNode | map_machine/doc/draw_elements.py:99-110 | The new node gets the next id, above every earlier id, at (−i·y_step, j·x_step). The running maxima are updated |
| DrawElements.Grid.AddWay | map_machine/doc/draw_elements.py:112-116 | Ways get ids 0, 1, 2, ... in call order |
| DrawElements.Grid.AddText | map_machine/doc/draw_elements.py:118-119 | Appends the caption and its cell |
| DrawElements.Grid.GetBoundaryBox | map_machine/doc/draw_elements.py:121-128 | With positive steps, every node added at i, j ≥ 0 lies strictly inside the box, which has a 1.5-step margin |
| DrawElements.FeatureCellsLength | map_machine/doc/draw_elements.py:187-191 | `len(features) + 1` nodes per type |
| DrawElements.FeatureCellAt | map_machine/doc/draw_elements.py:187-191 | The node at row i, column j is the (i·(F+1)+j)-th added, with id one more |
| DrawElements.FeatureWaysLength | map_machine/doc/draw_elements.py:187-197 | `len(features)` ways per type |
| DrawElements.FeatureWayAt | map_machine/doc/draw_elements.py:187-197 | Way (i, j) has id i·F + j, joins the consecutive nodes at columns j and j+1 of row i, and carries the type's tags updated by feature j |
| DrawElements.FeatureTagsOverride | map_machine/doc/draw_elements.py:193-196 | In each road-feature way, feature tags override type tags and the other type tags are kept |
| DrawElements.DrawRoadFeatures | map_machine/doc/draw_elements.py:181-199 | Builds exactly the feature grid's nodes and ways, and no captions |
| DrawElements.DrawRoadRow | map_machine/doc/draw_elements.py:190-197 | The inner loop adds one row of nodes and the ways between neighbours |
| DrawElements.OverlappedWaysCross | map_machine/doc/draw_elements.py:161-176 | Every way of the first pass crosses every way of the second strictly between their end nodes, with the same tags per index |
| DrawElements.OverlappedWayIds | map_machine/doc/draw_elements.py:165-176 | The ways of both passes have ids 0 … 2·len(types) − 1 |
| DrawElements.DrawOverlappedWays | map_machine/doc/draw_elements.py:161-178 | 2·len(types) ways, 4·len(types) nodes and one "k=v, ..." caption per type |
| DrawElements.DrawRowWays | map_machine/doc/draw_elements.py:167-171 | The first loop adds the row ways and the captions |
| DrawElements.DrawColumnWays | map_machine/doc/draw_elements.py:173-176 | The second loop adds the column ways |
| TestElements.Grid.constructor | map_machine/element/test_elements.py:123-130 | Steps 0.0002 and 0.0003, x_start 0, no nodes, maxima 0 |
| TestElements.Grid.AddNode | map_machine/element/test_elements.py:132-143 | Nodes are numbered from 1 with (j, i) recorded, and `max_j`, `max_i` are running maxima from 0 |
| TestElements.Grid.GetBoundaryBox | map_machine/element/test_elements.py:145-152 | Every node added at i, j ≥ 0 lies strictly inside the box, which has a one-step margin |
| TestElements.WayIdInjective | map_machine/element/test_elements.py:171-173 | i·(F+1)+j with 1 ≤ j ≤ F identifies (i, j) |
| TestElements.RoadRowIds | map_machine/element/test_elements.py:171-173 | Row i uses increasing ids just above i·(F+1) |
| TestElements.RoadWaysLength | map_machine/element/test_elements.py:162-175 | Exactly len(types)·len(features) ways |
| TestElements.RoadWayIdsIncrease | map_machine/element/test_elements.py:162-175 | Way ids increase strictly along the ways and stay below len(types)·(F+1) |
| TestElements.RoadWayIdsDistinct | map_machine/element/test_elements.py:162-175 | No two ways share an id |
| TestElements.RoadWayAt | map_machine/element/test_elements.py:165-175 | Way (i, j) has id i·(F+1)+j, runs from the node at column j−1 to column j, and carries the type tags updated by feature j−1 |
| TestElements.RoadTagsOverride | map_machine/element/test_elements.py:169-170 | Feature tags override type tags, and the other type tags are kept |
| TestElements.RoadCellsLength | map_machine/element/test_elements.py:165-166 | len(features)+1 nodes per type |
| TestElements.RoadFeatures | map_machine/element/test_elements.py:155-177 | Builds exactly the specified ways and grid nodes |
| TestElements.RoadRowWays | map_machine/element/test_elements.py:165-175 | The inner loop adds one row of nodes and returns that row's ways |

## Left out

- `render_map` (cache directory, download, OSM/JSON parsing, `sys.exit`,
  writing the SVG) and the command-line front end are I/O and argument
  parsing. The boundary-box precedence there (explicit box, then coordinates
  plus size, then the data's `view_box`, then its `boundary_box`, with "/"
  taking precedence over ",") is not modelled.
- `Grid.draw` and the module-level `draw` of the two grid builders only
  render and write files.
- Constructor, scheme, flinger projection, `Polyline.get_path`, `Occupied`,
  `Point.draw_*`, `Building.draw*`, `draw_walls`, `RoadPart`,
  `Intersection`, `draw_text`, `portolan.middle` and svgwrite are opaque.
  They are parameters, or elements recording their arguments.
- Gradient stop colours and opacities, fonts, credit styling and the
  building-shade opacity are presentation only.
- `feature/tree.py` is not part of this model.
- Trigonometry in `parse_vector` and `rotation_matrix` is a parameter. Angles
  are exact multiples of π. `np.allclose(x, 0)` is |x| ≤ 1e-8. Coordinates,
  heights and steps are exact reals, not IEEE floats.
- `BUILDING_SCALE`, `__project__` and the scheme's colours are parameters of
  the compositor.
- `RoadPart` objects compare by identity, so a half-edge is identified by
  (road, index, direction). A wall `Segment` is represented by its rank in
  the segment order.
- Node keys in `draw_simple_roads`: `OSMNode` and its equality and hash are
  defined in `osm_reader.py`, which is not part of this model. Here nodes are
  values, so two entries of road node lists share a table key exactly when
  their id, coordinates and tags are equal. Under identity hashing, the same
  node appearing in two roads would also share a key only if it is the same
  object.
- The `logging.info` progress messages of `draw` and `draw_buildings`
  (mapper.py lines 63, 115, 119, 123 and 144) write to the log only. They
  change nothing in the drawing.
- Direction.SetIsRight: models `DirectionSet.is_right` on fresh sectors.
  In the source, `sectors` is a one-shot `map` iterator, so after `draw`
  consumes it, `is_right` sees no sectors and returns True.
- The `if previous:` test in both grid builders relies on an OSM node object
  being truthy. The model tests whether a previous node exists.
- `OSMData.add_way` is not part of this model. Ways handed to it are
  collected in order, so the model does not capture its duplicate-id
  handling.
