/** Figures displayed on the map: ways and areas with their rings, polygon
    orientation by a shoelace-style sum, and SVG path construction. */
module Figures {
  import opened Osm
  import opened Svg

  /** A closed or open node list of a way or multipolygon member. */
  type Ring = seq<OsmNode>

  /** The term one edge from `a` to `b` contributes to the orientation sum:
      (x_next - x) * (y_next + y) on the node coordinates. */
  function EdgeTerm(a: OsmNode, b: OsmNode): real
  {
    (b.lat - a.lat) * (b.lon + a.lon)
  }

  /** Sum of the edge terms along the open chain ring[0], ..., ring[n-1]. */
  function ChainSum(ring: Ring): real
  {
    if |ring| < 2 then 0.0
    else ChainSum(ring[..|ring| - 1]) + EdgeTerm(ring[|ring| - 2], ring[|ring| - 1])
  }

  /** The orientation sum over every edge, the closing last-to-first edge
      included. */
  function CyclicSum(ring: Ring): real
  {
    if |ring| == 0 then 0.0 else ChainSum(ring) + EdgeTerm(ring[|ring| - 1], ring[0])
  }

  predicate Clockwise(ring: Ring)
  {
    CyclicSum(ring) >= 0.0
  }

  /** `list(reversed(ring))`. */
  function Reversed(ring: Ring): (r: Ring)
    ensures |r| == |ring|
    ensures forall k :: 0 <= k < |ring| ==> r[k] == ring[|ring| - 1 - k]
  {
    if |ring| == 0 then [] else [ring[|ring| - 1]] + Reversed(ring[..|ring| - 1])
  }

  /** `is_clockwise`: accumulates the orientation sum edge by edge. */
  method IsClockwise(polygon: Ring) returns (clockwise: bool)
    ensures clockwise <==> Clockwise(polygon)
  {
    var count := 0.0;
    var index := 0;
    while index < |polygon|
      invariant 0 <= index <= |polygon|
      invariant count == if index < |polygon| then ChainSum(polygon[..index + 1]) else CyclicSum(polygon)
    {
      var next := if index == |polygon| - 1 then 0 else index + 1;
      count := count + EdgeTerm(polygon[index], polygon[next]);
      if index < |polygon| - 1 {
        assert polygon[..index + 2][..index + 1] == polygon[..index + 1];
      } else {
        assert polygon[..index + 1] == polygon;
      }
      index := index + 1;
    }
    clockwise := count >= 0.0;
  }

  /** The chain sum splits at its first edge as well as at its last. */
  lemma {:induction false} ChainSumFront(first: OsmNode, rest: Ring)
    ensures ChainSum([first] + rest)
         == (if |rest| == 0 then 0.0 else EdgeTerm(first, rest[0])) + ChainSum(rest)
    decreases |rest|
  {
    if |rest| >= 2 {
      var s := [first] + rest;
      var init := rest[..|rest| - 1];
      assert s[..|s| - 1] == [first] + init;
      ChainSumFront(first, init);
    }
  }

  /** Reversing a ring negates its orientation sum. */
  lemma {:induction false} ReversedNegatesSum(ring: Ring)
    ensures CyclicSum(Reversed(ring)) == -CyclicSum(ring)
  {
    ReversedNegatesChain(ring);
  }

  lemma {:induction false} ReversedNegatesChain(ring: Ring)
    ensures ChainSum(Reversed(ring)) == -ChainSum(ring)
  {
    if |ring| >= 2 {
      var init := ring[..|ring| - 1];
      var last := ring[|ring| - 1];
      ReversedNegatesChain(init);
      ChainSumFront(last, Reversed(init));
    } else if |ring| == 1 {
      assert Reversed(ring) == ring;
    }
  }

  /** `make_clockwise`. */
  function MakeClockwise(ring: Ring): (r: Ring)
    ensures Clockwise(r)
    ensures r == ring || r == Reversed(ring)
    ensures Clockwise(ring) ==> r == ring
    ensures !Clockwise(ring) ==> r == Reversed(ring)
  {
    ReversedNegatesSum(ring);
    if Clockwise(ring) then ring else Reversed(ring)
  }

  /** `make_counter_clockwise`: its result fails the clockwise test unless
      the orientation sum is zero, where both orientations count as
      clockwise. */
  function MakeCounterClockwise(ring: Ring): (r: Ring)
    ensures Clockwise(r) <==> CyclicSum(ring) == 0.0
    ensures Clockwise(ring) ==> r == Reversed(ring)
    ensures !Clockwise(ring) ==> r == ring
  {
    ReversedNegatesSum(ring);
    if !Clockwise(ring) then ring else Reversed(ring)
  }

  lemma MakeClockwiseIdempotent(ring: Ring)
    ensures MakeClockwise(MakeClockwise(ring)) == MakeClockwise(ring)
  {
    var once := MakeClockwise(ring);
    assert Clockwise(once);
  }

  datatype LineStyle = LineStyle(priority: real, parallelOffset: real)

  datatype Figure = Figure(tags: Tags, inners: seq<Ring>, outers: seq<Ring>)

  datatype StyledFigure = StyledFigure(figure: Figure, lineStyle: LineStyle)

  /** `Figure.__init__`: orientation is normalised only when the figure has
      both inner and outer rings. */
  function NewFigure(tags: Tags, inners: seq<Ring>, outers: seq<Ring>): (f: Figure)
    ensures f.tags == tags && |f.inners| == |inners| && |f.outers| == |outers|
    ensures |inners| > 0 && |outers| > 0 ==>
      (forall k :: 0 <= k < |inners| ==>
        Clockwise(f.inners[k]) && (f.inners[k] == inners[k] || f.inners[k] == Reversed(inners[k]))) &&
      (forall k :: 0 <= k < |outers| ==>
        (Clockwise(f.outers[k]) ==> CyclicSum(outers[k]) == 0.0) &&
        (f.outers[k] == outers[k] || f.outers[k] == Reversed(outers[k])))
    ensures |inners| > 0 && |outers| > 0 ==>
      (forall k :: 0 <= k < |inners| ==>
        f.inners[k] == if Clockwise(inners[k]) then inners[k] else Reversed(inners[k])) &&
      (forall k :: 0 <= k < |outers| ==>
        f.outers[k] == if Clockwise(outers[k]) then Reversed(outers[k]) else outers[k])
    ensures |inners| == 0 || |outers| == 0 ==> f.inners == inners && f.outers == outers
  {
    if |inners| > 0 && |outers| > 0 then
      Figure(tags,
        seq(|inners|, k requires 0 <= k < |inners| => MakeClockwise(inners[k])),
        seq(|outers|, k requires 0 <= k < |outers| => MakeCounterClockwise(outers[k])))
    else
      Figure(tags, inners, outers)
  }

  /** Projection of one ring's nodes, shifted, to SVG path commands with a
      parallel offset: the flinger and `Polyline.get_path`, which are not part
      of this model. */
  type RingRenderer = (Ring, Vec, real) -> string

  /** One fragment per ring, each followed by a space, in ring order. */
  function RingsPath(rings: seq<Ring>, render: RingRenderer, shift: Vec, parallelOffset: real): string
  {
    if |rings| == 0 then ""
    else RingsPath(rings[..|rings| - 1], render, shift, parallelOffset)
         + render(rings[|rings| - 1], shift, parallelOffset) + " "
  }

  lemma {:induction false} RingsPathAppend(
    left: seq<Ring>, right: seq<Ring>, render: RingRenderer, shift: Vec, parallelOffset: real)
    ensures RingsPath(left + right, render, shift, parallelOffset)
         == RingsPath(left, render, shift, parallelOffset) + RingsPath(right, render, shift, parallelOffset)
    decreases |right|
  {
    if |right| > 0 {
      var init := right[..|right| - 1];
      assert (left + right)[..|left + right| - 1] == left + init;
      RingsPathAppend(left, init, render, shift, parallelOffset);
    } else {
      assert left + right == left;
    }
  }

  /** A figure's path is empty exactly when it has no rings at all. */
  lemma {:induction false} RingsPathEmpty(rings: seq<Ring>, render: RingRenderer, shift: Vec, parallelOffset: real)
    ensures RingsPath(rings, render, shift, parallelOffset) == "" <==> |rings| == 0
  {
    if |rings| > 0 {
      var path := RingsPath(rings, render, shift, parallelOffset);
      assert path[|path| - 1] == ' ';
    }
  }

  /** `Figure.get_path`: every ring drawn with the default parallel offset 0,
      outer rings first. */
  method GetPath(figure: Figure, render: RingRenderer, shift: Vec) returns (path: string)
    ensures path == RingsPath(figure.outers + figure.inners, render, shift, 0.0)
  {
    path := "";
    var k := 0;
    while k < |figure.outers|
      invariant 0 <= k <= |figure.outers|
      invariant path == RingsPath(figure.outers[..k], render, shift, 0.0)
    {
      path := path + render(figure.outers[k], shift, 0.0) + " ";
      assert figure.outers[..k + 1][..k] == figure.outers[..k];
      k := k + 1;
    }
    assert figure.outers[..k] == figure.outers;
    k := 0;
    while k < |figure.inners|
      invariant 0 <= k <= |figure.inners|
      invariant path == RingsPath(figure.outers, render, shift, 0.0)
                      + RingsPath(figure.inners[..k], render, shift, 0.0)
    {
      path := path + render(figure.inners[k], shift, 0.0) + " ";
      assert figure.inners[..k + 1][..k] == figure.inners[..k];
      k := k + 1;
    }
    assert figure.inners[..k] == figure.inners;
    RingsPathAppend(figure.outers, figure.inners, render, shift, 0.0);
  }

  /** `StyledFigure.get_path`: as `Figure.get_path`, with the line style's
      parallel offset passed for every ring. */
  method StyledGetPath(styled: StyledFigure, render: RingRenderer, shift: Vec) returns (path: string)
    ensures path == RingsPath(styled.figure.outers + styled.figure.inners, render, shift,
                              styled.lineStyle.parallelOffset)
  {
    var figure, offset := styled.figure, styled.lineStyle.parallelOffset;
    path := "";
    var k := 0;
    while k < |figure.outers|
      invariant 0 <= k <= |figure.outers|
      invariant path == RingsPath(figure.outers[..k], render, shift, offset)
    {
      var commands := render(figure.outers[k], shift, offset);
      path := path + commands + " ";
      assert figure.outers[..k + 1][..k] == figure.outers[..k];
      k := k + 1;
    }
    assert figure.outers[..k] == figure.outers;
    k := 0;
    while k < |figure.inners|
      invariant 0 <= k <= |figure.inners|
      invariant path == RingsPath(figure.outers, render, shift, offset)
                      + RingsPath(figure.inners[..k], render, shift, offset)
    {
      var commands := render(figure.inners[k], shift, offset);
      path := path + commands + " ";
      assert figure.inners[..k + 1][..k] == figure.inners[..k];
      k := k + 1;
    }
    assert figure.inners[..k] == figure.inners;
    RingsPathAppend(figure.outers, figure.inners, render, shift, offset);
  }
}
