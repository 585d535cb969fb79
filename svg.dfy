/** The output document as an append-only trace of drawn primitives. The
    drawing callees of the renderer (building walls, roads, icons, labels) are
    opaque, so each one is recorded as the element it adds, with the
    arguments that decide what it draws. */
module Svg {
  import opened Wrappers
  import opened Colors
  import MapConfiguration

  /** A planar point or offset. */
  datatype Vec = Vec(x: real, y: real)
  {
    function Plus(other: Vec): Vec { Vec(x + other.x, y + other.y) }
    function Minus(other: Vec): Vec { Vec(x - other.x, y - other.y) }
    function Times(k: real): Vec { Vec(k * x, k * y) }
  }

  /** The path commands `L lineTo A rx ry xAxisRotation largeArcFlag
      sweepFlag arcTo`: a line, then an elliptical arc as in section 8.3.8
      of SVG 1.1. */
  datatype Arc = Arc(
    lineTo: Vec, rx: real, ry: real, xAxisRotation: int,
    largeArcFlag: string, sweepFlag: int, arcTo: Vec)

  /** A building wall segment. Only its identity and its place in the total
      order of segments matter, so it is represented by that rank. */
  datatype Segment = Segment(rank: int)

  /** A directed road half-edge: from the `index`-th node of road `road`
      toward the next one (`forward`) or back from that next node. */
  datatype RoadPart = RoadPart(road: nat, index: nat, forward: bool)

  /** The occupancy tracker shared by icon and label placement. */
  datatype Occupied = Occupied(width: real, height: real, overlap: int)

  /** A radial gradient in the document's definitions. */
  datatype Gradient = RadialGradient(center: Vec, radius: real, color: Color, reverted: bool)

  datatype Element =
    | Background(size: Vec, fill: Color)
    | FigurePath(figure: nat, d: string)
    | Roads
    | Tree(tree: nat)
    | Crater(crater: nat)
    | FlatBuilding(building: nat)
    | BuildingShades(count: nat)
    | Wall(building: nat, segment: Segment, height: real, shift1: Vec, shift2: Vec)
    | Roof(building: nat)
    | DirectionPath(center: Vec, arc: Arc, gradient: Gradient)
    | MainShapes(point: nat, occupied: Option<Occupied>)
    | ExtraShapes(point: nat, occupied: Option<Occupied>)
    | Texts(point: nat, occupied: Option<Occupied>, labelMode: MapConfiguration.LabelMode)
    | CreditText(text: string, position: Vec, outline: bool)
    | Intersection(parts: set<RoadPart>)

  /** An SVG drawing: its elements in document order and its definitions. */
  class Drawing {
    var elements: seq<Element>
    var defs: seq<Gradient>

    constructor ()
      ensures elements == [] && defs == []
    {
      elements := [];
      defs := [];
    }

    method Add(element: Element)
      modifies this
      ensures elements == old(elements) + [element] && defs == old(defs)
    {
      elements := elements + [element];
    }

    method AddDefinition(gradient: Gradient)
      modifies this
      ensures defs == old(defs) + [gradient] && elements == old(elements)
    {
      defs := defs + [gradient];
    }
  }
}
