/** Direction tags (`direction`, `camera:direction`): sectors given as a
    range or as a single direction, the three-valued "is right" test, and the
    gradient sectors a direction feature adds to the drawing.

    Angles are kept as multiples of pi, which makes every angle the source
    computes exact: the default half-angle pi/30 is 1/30, the smallest
    half-angle pi/15 is 1/15, and `radians(a) / 2` is `a / 360`. Parsing a
    direction text into a unit vector and rotating a vector are
    trigonometry and are given as parameters. */
module Direction {
  import opened Wrappers
  import opened Colors
  import opened Osm
  import opened Svg
  import Text

  const SmallestAngle: real := 1.0 / 15.0
  const DefaultAngle: real := 1.0 / 30.0

  /** `np.allclose(x, 0.0)` holds exactly when |x| is at most numpy's
      default absolute tolerance 1e-8 (the relative term vanishes at 0). */
  const ZeroTolerance: real := 0.00000001

  /** The computations this model leaves abstract: `parse_vector` (a compass
      point or a degree value to a unit vector, None when neither parses),
      rotation of a vector by an angle in multiples of pi (`rotation_matrix`
      and `np.dot`), and Python's `float()` on tag values. */
  datatype Parsers = Parsers(
    parseVector: string -> Option<Vec>,
    rotate: (real, Vec) -> Vec,
    parseFloat: string -> Option<real>)

  /** What the source raises: a TypeError when a vector is None where one
      is needed, a ValueError when an angle tag is not a number. */
  datatype DirectionError = MissingVector(text: string) | NotANumber(text: string)

  datatype Sector = Sector(start: Option<Vec>, end: Option<Vec>, mainDirection: Option<Vec>)

  /** Text containing "-" but not starting with it is a range "from-to". */
  predicate IsRange(text: string)
  {
    '-' in text && !Text.StartsWith(text, '-')
  }

  /** The first (0) or second (1) "-"-separated piece of a range; pieces
      after the second are ignored. */
  function RangeBound(text: string, which: nat): string
    requires IsRange(text) && which <= 1
  {
    Text.CountZero(text, '-');
    Text.Split(text, '-')[which]
  }

  /** Half the opening of a single-direction sector. */
  function HalfAngle(angle: Option<real>): (r: real)
    ensures angle.None? ==> r == DefaultAngle
    ensures angle.Some? ==> r >= SmallestAngle && r >= angle.value / 360.0
    ensures angle.Some? ==> r == SmallestAngle || r == angle.value / 360.0
    ensures angle.Some? ==> r > DefaultAngle
  {
    match angle
    case None => DefaultAngle
    case Some(degrees) => if degrees / 360.0 > SmallestAngle then degrees / 360.0 else SmallestAngle
  }

  /** `Sector.__init__`. A range takes its bounds from the first two pieces
      and its main direction as their average, and raises when either bound
      does not parse; a single direction is rotated both ways by the
      half-angle, and leaves every vector None when it does not parse. */
  function NewSector(text: string, angle: Option<real>, parsers: Parsers): (r: Result<Sector, DirectionError>)
    ensures r.Err? <==> (IsRange(text) &&
      (parsers.parseVector(RangeBound(text, 0)).None? ||
       parsers.parseVector(RangeBound(text, 1)).None?))
    ensures r.Ok? ==>
      (r.value.start.Some? <==> r.value.mainDirection.Some?) &&
      (r.value.end.Some? <==> r.value.mainDirection.Some?)
    ensures r.Ok? && IsRange(text) ==>
      r.value.mainDirection.Some? &&
      r.value.mainDirection.value == r.value.start.value.Plus(r.value.end.value).Times(0.5)
    ensures r.Ok? && !IsRange(text) ==> r.value.mainDirection == parsers.parseVector(text)
    ensures r.Ok? && IsRange(text) ==>
      r.value.start == parsers.parseVector(RangeBound(text, 0)) &&
      r.value.end == parsers.parseVector(RangeBound(text, 1))
    ensures !IsRange(text) && parsers.parseVector(text).Some? ==>
      r.Ok? &&
      r.value.start == Some(parsers.rotate(HalfAngle(angle), parsers.parseVector(text).value)) &&
      r.value.end == Some(parsers.rotate(-HalfAngle(angle), parsers.parseVector(text).value))
  {
    if IsRange(text) then
      var start := parsers.parseVector(RangeBound(text, 0));
      var end := parsers.parseVector(RangeBound(text, 1));
      if start.None? || end.None? then Err(MissingVector(text))
      else Ok(Sector(start, end, Some(start.value.Plus(end.value).Times(0.5))))
    else
      var half := HalfAngle(angle);
      match parsers.parseVector(text)
      case None => Ok(Sector(None, None, None))
      case Some(vector) =>
        Ok(Sector(Some(parsers.rotate(half, vector)), Some(parsers.rotate(-half, vector)), Some(vector)))
  }

  /** `Sector.draw`: the arc runs from the end vector back to the start
      vector, both scaled by the radius around the centre. */
  function DrawSector(sector: Sector, center: Vec, radius: real): (r: Option<Arc>)
    ensures r.Some? <==> sector.start.Some? && sector.end.Some?
    ensures r.Some? ==>
      r.value.lineTo == center.Plus(sector.end.value.Times(radius)) &&
      r.value.arcTo == center.Plus(sector.start.value.Times(radius)) &&
      r.value.rx == radius && r.value.ry == radius &&
      r.value.xAxisRotation == 0 && r.value.largeArcFlag == "0" && r.value.sweepFlag == 0
  {
    if sector.start.None? || sector.end.None? then None
    else
      Some(Arc(center.Plus(sector.end.value.Times(radius)), radius, radius, 0, "0", 0,
               center.Plus(sector.start.value.Times(radius))))
  }

  /** A constructed sector draws exactly when its text parsed. */
  lemma SectorDrawsIffParsed(text: string, angle: Option<real>, parsers: Parsers, center: Vec, radius: real)
    requires NewSector(text, angle, parsers).Ok?
    ensures DrawSector(NewSector(text, angle, parsers).value, center, radius).Some?
        <==> IsRange(text) || parsers.parseVector(text).Some?
  {
  }

  /** `Sector.is_right`: None without a main direction or when its x is
      within tolerance of 0, otherwise whether x is positive. */
  function IsRight(sector: Sector): (r: Option<bool>)
    ensures r == Some(true) <==> sector.mainDirection.Some? && sector.mainDirection.value.x > ZeroTolerance
    ensures r == Some(false) <==> sector.mainDirection.Some? && sector.mainDirection.value.x < -ZeroTolerance
  {
    match sector.mainDirection
    case None => None
    case Some(direction) =>
      if -ZeroTolerance <= direction.x <= ZeroTolerance then None
      else if direction.x > 0.0 then Some(true)
      else Some(false)
  }

  /** The sectors of a `;`-separated direction value, built one after the
      other; the first one that raises ends the list with its error. */
  function Sectors(parts: seq<string>, parsers: Parsers): (r: Result<seq<Sector>, DirectionError>)
    ensures r.Ok? ==> |r.value| == |parts|
    ensures r.Ok? <==> forall k :: 0 <= k < |parts| ==> NewSector(parts[k], None, parsers).Ok?
    ensures r.Ok? ==> forall k :: 0 <= k < |parts| ==> r.value[k] == NewSector(parts[k], None, parsers).value
    ensures r.Err? ==> exists j :: (0 <= j < |parts| && NewSector(parts[j], None, parsers).Err? &&
      (forall k :: 0 <= k < j ==> NewSector(parts[k], None, parsers).Ok?) &&
      r.error == NewSector(parts[j], None, parsers).error)
  {
    if |parts| == 0 then Ok([])
    else
      match NewSector(parts[0], None, parsers)
      case Err(e) => Err(e)
      case Ok(first) =>
        match Sectors(parts[1..], parsers)
        case Err(e) => Err(e)
        case Ok(rest) =>
          assert forall k :: 1 <= k < |parts| ==> parts[k] == parts[1..][k - 1];
          Ok([first] + rest)
  }

  /** `DirectionSet.is_right`: True when every sector is right (also when
      there are none), False when every sector is left, None otherwise. */
  function SetIsRight(text: string, parsers: Parsers): (r: Result<Option<bool>, DirectionError>)
    ensures r.Ok? <==> Sectors(Text.Split(text, ';'), parsers).Ok?
    ensures r.Ok? ==>
      var sectors := Sectors(Text.Split(text, ';'), parsers).value;
      (r.value == Some(true) <==> forall k :: 0 <= k < |sectors| ==> IsRight(sectors[k]) == Some(true)) &&
      (r.value == Some(false) <==>
         (exists k :: 0 <= k < |sectors| && IsRight(sectors[k]) != Some(true)) &&
         (forall k :: 0 <= k < |sectors| ==> IsRight(sectors[k]) == Some(false)))
  {
    match Sectors(Text.Split(text, ';'), parsers)
    case Err(e) => Err(e)
    case Ok(sectors) =>
      if forall k :: 0 <= k < |sectors| ==> IsRight(sectors[k]) == Some(true) then Ok(Some(true))
      else if forall k :: 0 <= k < |sectors| ==> IsRight(sectors[k]) == Some(false) then Ok(Some(false))
      else Ok(None)
  }

  /** The arcs `DirectionSet.draw` yields, in part order, skipping sectors
      that do not draw; `failure` is the error of the first part that
      raises, after which nothing more is yielded. */
  datatype SetPaths = SetPaths(paths: seq<Arc>, failure: Option<DirectionError>)

  /** The arc of one part, when its sector constructs and draws. */
  function PartArc(part: string, center: Vec, radius: real, parsers: Parsers): Option<Arc>
  {
    match NewSector(part, None, parsers)
    case Err(_) => None
    case Ok(sector) => DrawSector(sector, center, radius)
  }

  /** Reference definition: the arcs of the parts that draw, in part order,
      skipping every other part. */
  function Drawable(parts: seq<string>, center: Vec, radius: real, parsers: Parsers): seq<Arc>
  {
    if |parts| == 0 then []
    else
      match PartArc(parts[0], center, radius, parsers)
      case None => Drawable(parts[1..], center, radius, parsers)
      case Some(arc) => [arc] + Drawable(parts[1..], center, radius, parsers)
  }

  /** A part added at the end adds its arc, if any, at the end. */
  lemma {:induction false} DrawableSnoc(parts: seq<string>, part: string, center: Vec, radius: real, parsers: Parsers)
    ensures Drawable(parts + [part], center, radius, parsers) ==
      Drawable(parts, center, radius, parsers) +
      (match PartArc(part, center, radius, parsers) case None => [] case Some(arc) => [arc])
  {
    if |parts| > 0 {
      assert (parts + [part])[1..] == parts[1..] + [part];
      DrawableSnoc(parts[1..], part, center, radius, parsers);
    } else {
      assert parts + [part] == [part];
    }
  }

  function DrawSet(parts: seq<string>, center: Vec, radius: real, parsers: Parsers): (r: SetPaths)
    ensures |r.paths| <= |parts|
    ensures r.failure.None? <==> forall k :: 0 <= k < |parts| ==> NewSector(parts[k], None, parsers).Ok?
    ensures r.failure.None? ==> r.paths == Drawable(parts, center, radius, parsers)
  {
    if |parts| == 0 then SetPaths([], None)
    else
      var previous := DrawSet(parts[..|parts| - 1], center, radius, parsers);
      assert forall k :: 0 <= k < |parts| - 1 ==> parts[..|parts| - 1][k] == parts[k];
      if previous.failure.Some? then previous
      else
        assert parts == parts[..|parts| - 1] + [parts[|parts| - 1]];
        DrawableSnoc(parts[..|parts| - 1], parts[|parts| - 1], center, radius, parsers);
        match NewSector(parts[|parts| - 1], None, parsers)
        case Err(e) => SetPaths(previous.paths, Some(e))
        case Ok(sector) =>
          match DrawSector(sector, center, radius)
          case None => previous
          case Some(arc) => SetPaths(previous.paths + [arc], None)
  }

  /** When part `j` is the first that raises, `DirectionSet.draw` has
      yielded the arcs of the parts before it and raises its error. */
  lemma {:induction false} DrawSetStops(parts: seq<string>, j: nat, center: Vec, radius: real, parsers: Parsers)
    requires j < |parts| && NewSector(parts[j], None, parsers).Err?
    requires forall i :: 0 <= i < j ==> NewSector(parts[i], None, parsers).Ok?
    ensures DrawSet(parts, center, radius, parsers) ==
      SetPaths(Drawable(parts[..j], center, radius, parsers), Some(NewSector(parts[j], None, parsers).error))
  {
    var init := parts[..|parts| - 1];
    if |parts| == j + 1 {
      assert init == parts[..j];
    } else {
      assert init[j] == parts[j] && init[..j] == parts[..j];
      DrawSetStops(init, j, center, radius, parsers);
    }
  }

  /** Truncation toward zero, as numpy's `astype(int)`. */
  function Truncate(x: real): (r: int)
    ensures 0.0 <= x ==> 0 <= r && r as real <= x < r as real + 1.0
    ensures x < 0.0 ==> r <= 0 && r as real - 1.0 < x <= r as real
  {
    if x >= 0.0 then x.Floor else -((-x).Floor)
  }

  function TruncateVec(v: Vec): Vec
  {
    Vec(Truncate(v.x) as real, Truncate(v.y) as real)
  }

  /** A node with a direction tag, at its projected position. */
  datatype DirectionSector = DirectionSector(tags: Tags, point: Vec)

  /** What the tags of a direction feature select: the direction text, an
      explicit opening angle in degrees, the radius, the colour and whether
      the gradient fades in (reverted) or out. */
  datatype SectorStyle = SectorStyle(
    direction: Option<string>, angle: Option<real>, radius: real, color: Color, reverted: bool)

  predicate IsCamera(tags: Tags) { Get(tags, "man_made") == Some("surveillance") }

  predicate IsStopSign(tags: Tags) { Get(tags, "traffic_sign") == Some("stop") }

  /** The angle tags of a camera, `angle` overriding `camera:angle`; both
      are converted when present, so either can raise. */
  function CameraAngle(tags: Tags, parsers: Parsers): (r: Result<Option<real>, DirectionError>)
    ensures r.Ok? && HasKey(tags, "angle") ==> r.value == parsers.parseFloat(Get(tags, "angle").value)
    ensures r.Ok? && !HasKey(tags, "angle") && HasKey(tags, "camera:angle") ==>
      r.value == parsers.parseFloat(Get(tags, "camera:angle").value)
    ensures r.Ok? ==> (r.value.Some? <==> HasKey(tags, "angle") || HasKey(tags, "camera:angle"))
    ensures r.Err? <==>
      (HasKey(tags, "camera:angle") && parsers.parseFloat(Get(tags, "camera:angle").value).None?) ||
      (HasKey(tags, "angle") && parsers.parseFloat(Get(tags, "angle").value).None?)
  {
    var cameraAngle := Get(tags, "camera:angle");
    var angle := Get(tags, "angle");
    if cameraAngle.Some? && parsers.parseFloat(cameraAngle.value).None? then Err(NotANumber(cameraAngle.value))
    else if angle.Some? && parsers.parseFloat(angle.value).None? then Err(NotANumber(angle.value))
    else if angle.Some? then Ok(parsers.parseFloat(angle.value))
    else if cameraAngle.Some? then Ok(parsers.parseFloat(cameraAngle.value))
    else Ok(None)
  }

  /** The tag dispatch at the start of `DirectionSector.draw`. */
  function Style(tags: Tags, parsers: Parsers): (r: Result<SectorStyle, DirectionError>)
    ensures r.Err? <==> IsCamera(tags) && CameraAngle(tags, parsers).Err?
    ensures r.Ok? ==>
      (r.value.direction == Get(tags, if IsCamera(tags) then "camera:direction" else "direction")) &&
      (r.value.radius == if !IsCamera(tags) && IsStopSign(tags) then 25.0 else 50.0) &&
      (r.value.reverted <==> !IsCamera(tags) && !IsStopSign(tags)) &&
      (r.value.angle.Some? ==> IsCamera(tags)) &&
      (r.value.angle == if IsCamera(tags) then CameraAngle(tags, parsers).value else None) &&
      (r.value.color ==
         if IsCamera(tags) then FromScheme("direction_camera_color")
         else if IsStopSign(tags) then Named("red")
         else FromScheme("direction_view_color"))
  {
    if IsCamera(tags) then
      match CameraAngle(tags, parsers)
      case Err(e) => Err(e)
      case Ok(angle) =>
        Ok(SectorStyle(Get(tags, "camera:direction"), angle, 50.0, FromScheme("direction_camera_color"), false))
    else if IsStopSign(tags) then
      Ok(SectorStyle(Get(tags, "direction"), None, 25.0, Named("red"), false))
    else
      Ok(SectorStyle(Get(tags, "direction"), None, 50.0, FromScheme("direction_view_color"), true))
  }

  /** The path candidates `DirectionSector.draw` loops over, and the error
      raised once they are exhausted (or before any, for an explicit angle).
      With an explicit angle the whole text is one sector and its arc is
      not filtered, so a direction that does not parse gives a None
      candidate; otherwise every `;`-separated part is one sector. */
  datatype Candidates = Candidates(arcs: seq<Option<Arc>>, failure: Option<DirectionError>)

  function PathCandidates(direction: string, angle: Option<real>, center: Vec, radius: real, parsers: Parsers): (r: Candidates)
    ensures angle.Some? ==> |r.arcs| <= 1
    ensures angle.None? ==> |r.arcs| <= |Text.Split(direction, ';')| && forall k :: 0 <= k < |r.arcs| ==> r.arcs[k].Some?
    ensures angle.Some? && NewSector(direction, angle, parsers).Ok? ==>
      r == Candidates([DrawSector(NewSector(direction, angle, parsers).value, center, radius)], None)
    ensures angle.Some? && NewSector(direction, angle, parsers).Err? ==>
      r == Candidates([], Some(NewSector(direction, angle, parsers).error))
    ensures angle.None? ==>
      var drawn := DrawSet(Text.Split(direction, ';'), center, radius, parsers);
      r.failure == drawn.failure && |r.arcs| == |drawn.paths| &&
      forall k :: 0 <= k < |r.arcs| ==> r.arcs[k] == Some(drawn.paths[k])
    ensures angle.None? && r.failure.None? ==>
      var drawable := Drawable(Text.Split(direction, ';'), center, radius, parsers);
      |r.arcs| == |drawable| && forall k :: 0 <= k < |r.arcs| ==> r.arcs[k] == Some(drawable[k])
  {
    if angle.Some? then
      match NewSector(direction, angle, parsers)
      case Err(e) => Candidates([], Some(e))
      case Ok(sector) => Candidates([DrawSector(sector, center, radius)], None)
    else
      var drawn := DrawSet(Text.Split(direction, ';'), center, radius, parsers);
      Candidates(seq(|drawn.paths|, k requires 0 <= k < |drawn.paths| => Some(drawn.paths[k])), drawn.failure)
  }

  /** What drawing adds: gradients to the definitions, paths to the
      elements, and whether it finished without raising. */
  datatype Output = Output(defs: seq<Gradient>, elements: seq<Element>, ok: bool)

  /** One gradient and one closed sector path per candidate, in order; a
      None candidate raises after its gradient has been added. */
  function Emit(arcs: seq<Option<Arc>>, center: Vec, style: SectorStyle): (r: Output)
    ensures |r.defs| == |r.elements| + (if r.ok then 0 else 1)
    ensures r.ok <==> forall k :: 0 <= k < |arcs| ==> arcs[k].Some?
    ensures |r.elements| <= |arcs|
    ensures forall k :: 0 <= k < |r.elements| ==>
      arcs[k].Some? && r.elements[k].DirectionPath? && r.elements[k].arc == arcs[k].value
    ensures r.ok ==> |r.elements| == |arcs|
    ensures !r.ok ==> |r.elements| < |arcs| && arcs[|r.elements|].None?
  {
    if |arcs| == 0 then Output([], [], true)
    else
      var previous := Emit(arcs[..|arcs| - 1], center, style);
      assert forall k :: 0 <= k < |arcs| - 1 ==> arcs[..|arcs| - 1][k] == arcs[k];
      if !previous.ok then previous
      else
        var gradient := RadialGradient(center, style.radius, style.color, style.reverted);
        match arcs[|arcs| - 1]
        case None => Output(previous.defs + [gradient], previous.elements, false)
        case Some(arc) =>
          Output(previous.defs + [gradient], previous.elements + [DirectionPath(center, arc, gradient)], true)
  }

  lemma {:induction false} EmitAfterFailure(arcs: seq<Option<Arc>>, k: nat, center: Vec, style: SectorStyle)
    requires k <= |arcs| && !Emit(arcs[..k], center, style).ok
    ensures Emit(arcs, center, style) == Emit(arcs[..k], center, style)
    decreases |arcs| - k
  {
    if k < |arcs| {
      assert arcs[..k + 1][..k] == arcs[..k];
      EmitAfterFailure(arcs, k + 1, center, style);
    } else {
      assert arcs[..k] == arcs;
    }
  }

  /** Everything `DirectionSector.draw` adds to the drawing. */
  function DrawOutput(sector: DirectionSector, parsers: Parsers): Output
  {
    match Style(sector.tags, parsers)
    case Err(_) => Output([], [], false)
    case Ok(style) =>
      if style.direction.None? || style.direction.value == "" then Output([], [], true)
      else
        var center := TruncateVec(sector.point);
        var candidates := PathCandidates(style.direction.value, style.angle, center, style.radius, parsers);
        var emitted := Emit(candidates.arcs, center, style);
        Output(emitted.defs, emitted.elements, emitted.ok && candidates.failure.None?)
  }

  /** Every path drawn is a sector around the truncated point, filled by
      the gradient added with it, which has the style's radius; each path
      has one gradient, and one more gradient is left over only when the
      drawing raised. */
  lemma {:induction false} DrawOutputShape(sector: DirectionSector, parsers: Parsers)
    ensures var out := DrawOutput(sector, parsers);
      |out.defs| <= |out.elements| + 1 &&
      (out.ok ==> |out.defs| == |out.elements|)
    ensures Style(sector.tags, parsers).Ok? ==>
      var style := Style(sector.tags, parsers).value;
      PathsMatchGradients(DrawOutput(sector, parsers), TruncateVec(sector.point), style)
  {
    match Style(sector.tags, parsers)
    case Err(_) =>
    case Ok(style) =>
      if style.direction.Some? && style.direction.value != "" {
        var center := TruncateVec(sector.point);
        var candidates := PathCandidates(style.direction.value, style.angle, center, style.radius, parsers);
        EmitShape(candidates.arcs, center, style);
        var emitted := Emit(candidates.arcs, center, style);
        assert DrawOutput(sector, parsers) == Output(emitted.defs, emitted.elements, emitted.ok && candidates.failure.None?);
      }
  }

  /** Every element is a sector path around `center` filled by the
      gradient at the same position in the definitions. */
  predicate PathsMatchGradients(out: Output, center: Vec, style: SectorStyle)
  {
    |out.elements| <= |out.defs| &&
    forall k :: 0 <= k < |out.elements| ==>
      out.elements[k].DirectionPath? &&
      out.elements[k] == DirectionPath(center, out.elements[k].arc, out.defs[k]) &&
      out.defs[k] == RadialGradient(center, style.radius, style.color, style.reverted)
  }

  lemma {:induction false} EmitShape(arcs: seq<Option<Arc>>, center: Vec, style: SectorStyle)
    ensures PathsMatchGradients(Emit(arcs, center, style), center, style)
  {
    if |arcs| > 0 {
      var init := arcs[..|arcs| - 1];
      var previous := Emit(init, center, style);
      EmitShape(init, center, style);
      var gradient := RadialGradient(center, style.radius, style.color, style.reverted);
      if previous.ok {
        assert |previous.defs| == |previous.elements|;
        match arcs[|arcs| - 1]
        case None =>
          assert Emit(arcs, center, style) == Output(previous.defs + [gradient], previous.elements, false);
        case Some(arc) =>
          var out := Output(previous.defs + [gradient], previous.elements + [DirectionPath(center, arc, gradient)], true);
          assert Emit(arcs, center, style) == out;
          forall k | 0 <= k < |out.elements|
            ensures out.elements[k].DirectionPath?
            ensures out.elements[k] == DirectionPath(center, out.elements[k].arc, out.defs[k])
            ensures out.defs[k] == gradient
          {
            if k < |previous.elements| {
              assert out.elements[k] == previous.elements[k] && out.defs[k] == previous.defs[k];
            }
          }
      } else {
        assert Emit(arcs, center, style) == previous;
      }
    }
  }

  /** Without an explicit angle, a drawing that finishes draws one path per
      part whose sector draws, in part order, each closing that part's arc. */
  lemma DrawOutputArcs(sector: DirectionSector, parsers: Parsers)
    requires Style(sector.tags, parsers).Ok?
    requires var style := Style(sector.tags, parsers).value;
      style.direction.Some? && style.direction.value != "" && style.angle.None?
    requires DrawOutput(sector, parsers).ok
    ensures var style := Style(sector.tags, parsers).value;
      var out := DrawOutput(sector, parsers);
      var drawable := Drawable(Text.Split(style.direction.value, ';'), TruncateVec(sector.point), style.radius, parsers);
      |out.elements| == |drawable| &&
      forall k :: 0 <= k < |drawable| ==> out.elements[k].DirectionPath? && out.elements[k].arc == drawable[k]
  {
    var style := Style(sector.tags, parsers).value;
    var center := TruncateVec(sector.point);
    var candidates := PathCandidates(style.direction.value, style.angle, center, style.radius, parsers);
    var emitted := Emit(candidates.arcs, center, style);
    assert DrawOutput(sector, parsers) == Output(emitted.defs, emitted.elements, emitted.ok && candidates.failure.None?);
  }

  /** Everything `DirectionSector.draw` adds to the elements is a sector
      path. */
  lemma DrawOutputPaths(sector: DirectionSector, parsers: Parsers)
    ensures forall e :: e in DrawOutput(sector, parsers).elements ==> e.DirectionPath?
  {
    DrawOutputShape(sector, parsers);
    var out := DrawOutput(sector, parsers);
    if Style(sector.tags, parsers).Ok? {
      forall e | e in out.elements ensures e.DirectionPath? {
        var k :| 0 <= k < |out.elements| && out.elements[k] == e;
      }
    }
  }

  /** A camera whose angle tag is not a number raises before anything is
      drawn, whatever its direction tag. */
  lemma CameraAngleRaisesFirst(sector: DirectionSector, parsers: Parsers)
    requires IsCamera(sector.tags) && CameraAngle(sector.tags, parsers).Err?
    ensures DrawOutput(sector, parsers) == Output([], [], false)
  {
  }

  /** When the tag dispatch does not raise, a feature without its
      direction tag, or with an empty one, draws nothing. A camera's angle
      tags are converted before the direction is tested, so a camera whose
      angle is not a number raises even without a direction. */
  lemma NoDirectionDrawsNothing(sector: DirectionSector, parsers: Parsers)
    requires Style(sector.tags, parsers).Ok?
    requires var direction := Style(sector.tags, parsers).value.direction;
      direction.None? || direction.value == ""
    ensures DrawOutput(sector, parsers) == Output([], [], true)
  {
  }

  /** The loop of `DirectionSector.draw`: a gradient definition, then the
      sector path that it fills, for each candidate; a None candidate raises
      after its gradient. */
  method EmitInto(arcs: seq<Option<Arc>>, center: Vec, style: SectorStyle, svg: Drawing) returns (ok: bool)
    modifies svg
    ensures svg.elements == old(svg.elements) + Emit(arcs, center, style).elements
    ensures svg.defs == old(svg.defs) + Emit(arcs, center, style).defs
    ensures ok == Emit(arcs, center, style).ok
  {
    var k := 0;
    ok := true;
    while k < |arcs| && ok
      invariant 0 <= k <= |arcs|
      invariant ok == Emit(arcs[..k], center, style).ok
      invariant svg.defs == old(svg.defs) + Emit(arcs[..k], center, style).defs
      invariant svg.elements == old(svg.elements) + Emit(arcs[..k], center, style).elements
    {
      var gradient := RadialGradient(center, style.radius, style.color, style.reverted);
      svg.AddDefinition(gradient);
      assert arcs[..k + 1][..k] == arcs[..k];
      if arcs[k].None? {
        ok := false;
      } else {
        svg.Add(DirectionPath(center, arcs[k].value, gradient));
      }
      k := k + 1;
    }
    if ok {
      assert arcs[..k] == arcs;
    } else {
      EmitAfterFailure(arcs, k, center, style);
    }
  }

  /** `DirectionSector.draw`: adds a gradient and a sector path for each
      path candidate, stopping where the source raises. */
  method Draw(sector: DirectionSector, svg: Drawing, parsers: Parsers) returns (ok: bool)
    modifies svg
    ensures svg.elements == old(svg.elements) + DrawOutput(sector, parsers).elements
    ensures svg.defs == old(svg.defs) + DrawOutput(sector, parsers).defs
    ensures ok == DrawOutput(sector, parsers).ok
  {
    var styled := Style(sector.tags, parsers);
    if styled.Err? {
      return false;
    }
    var style := styled.value;
    if style.direction.None? || style.direction.value == "" {
      return true;
    }
    var center := TruncateVec(sector.point);
    var candidates := PathCandidates(style.direction.value, style.angle, center, style.radius, parsers);
    ok := EmitInto(candidates.arcs, center, style, svg);
    ok := ok && candidates.failure.None?;
  }
}
