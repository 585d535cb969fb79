/** Map drawing configuration: the three mode enumerations, the
    configuration record with its defaults, construction from command-line
    options and the two derived decisions. */
module MapConfiguration {
  import opened Wrappers
  import opened Colors

  datatype DrawingMode = Normal | Author | Time | White | Black
  datatype LabelMode = No | Main | All | Address
  datatype BuildingMode = No | Flat | Isometric | IsometricNoParts

  function DrawingModeValue(mode: DrawingMode): string
  {
    match mode
    case Normal => "normal"
    case Author => "author"
    case Time => "time"
    case White => "white"
    case Black => "black"
  }

  function LabelModeValue(mode: LabelMode): string
  {
    match mode
    case No => "no"
    case Main => "main"
    case All => "all"
    case Address => "address"
  }

  function BuildingModeValue(mode: BuildingMode): string
  {
    match mode
    case No => "no"
    case Flat => "flat"
    case Isometric => "isometric"
    case IsometricNoParts => "isometric-no-parts"
  }

  /** `DrawingMode(text)`: the member whose value is `text`; None where
      Python raises ValueError. */
  function ParseDrawingMode(text: string): (r: Option<DrawingMode>)
    ensures r.Some? ==> DrawingModeValue(r.value) == text
    ensures forall mode :: DrawingModeValue(mode) == text ==> r == Some(mode)
  {
    if text == "normal" then Some(Normal)
    else if text == "author" then Some(Author)
    else if text == "time" then Some(Time)
    else if text == "white" then Some(White)
    else if text == "black" then Some(Black)
    else None
  }

  /** `LabelMode(text)`. */
  function ParseLabelMode(text: string): (r: Option<LabelMode>)
    ensures r.Some? ==> LabelModeValue(r.value) == text
    ensures forall mode :: LabelModeValue(mode) == text ==> r == Some(mode)
  {
    if text == "no" then Some(LabelMode.No)
    else if text == "main" then Some(Main)
    else if text == "all" then Some(All)
    else if text == "address" then Some(Address)
    else None
  }

  /** `BuildingMode(text)`. */
  function ParseBuildingMode(text: string): (r: Option<BuildingMode>)
    ensures r.Some? ==> BuildingModeValue(r.value) == text
    ensures forall mode :: BuildingModeValue(mode) == text ==> r == Some(mode)
  {
    if text == "no" then Some(BuildingMode.No)
    else if text == "flat" then Some(Flat)
    else if text == "isometric" then Some(Isometric)
    else if text == "isometric-no-parts" then Some(IsometricNoParts)
    else None
  }

  const OpenStreetMapCredit: string := "© OpenStreetMap contributors"

  datatype Configuration = Configuration(
    drawingMode: DrawingMode,
    buildingMode: BuildingMode,
    labelMode: LabelMode,
    zoomLevel: real,
    overlap: int,
    level: string,
    seed: string,
    showTooltips: bool,
    country: string,
    ignoreLevelMatching: bool,
    drawRoofs: bool,
    useBuildingColors: bool,
    showOverlapped: bool,
    credit: Option<string>)

  /** `MapConfiguration()` with every field at its declared default. */
  const Default: Configuration := Configuration(
    Normal, Flat, Main, 18.0, 12, "overground", "", false, "world",
    false, true, false, false, Some(OpenStreetMapCredit))

  /** The parsed command-line options that `from_options` reads. */
  datatype Options = Options(
    mode: string,
    buildings: string,
    labelMode: string,
    overlap: int,
    level: string,
    seed: string,
    tooltips: bool,
    country: string,
    ignoreLevelMatching: bool,
    roofs: bool,
    buildingColors: bool,
    showOverlapped: bool)

  /** The option values the command line gives when no flag is passed. */
  const CommandLineDefaults: Options := Options(
    "normal", "flat", "main", 12, "overground", "", false, "world",
    false, true, false, false)

  /** The ValueError raised by an enumeration for an unknown value. */
  datatype ConfigurationError = InvalidValue(enumeration: string, text: string)

  /** `MapConfiguration.from_options`: the positional arguments fill the
      fields in declaration order, the three enumerations are parsed left to
      right (the first unknown value raises), and `credit` is never passed. */
  function FromOptions(options: Options, zoomLevel: real): (r: Result<Configuration, ConfigurationError>)
    ensures r.Ok? <==>
      ParseDrawingMode(options.mode).Some? &&
      ParseBuildingMode(options.buildings).Some? &&
      ParseLabelMode(options.labelMode).Some?
    ensures r.Ok? ==>
      DrawingModeValue(r.value.drawingMode) == options.mode &&
      BuildingModeValue(r.value.buildingMode) == options.buildings &&
      LabelModeValue(r.value.labelMode) == options.labelMode &&
      r.value.zoomLevel == zoomLevel && r.value.overlap == options.overlap &&
      r.value.level == options.level && r.value.seed == options.seed &&
      r.value.showTooltips == options.tooltips && r.value.country == options.country &&
      r.value.ignoreLevelMatching == options.ignoreLevelMatching &&
      r.value.drawRoofs == options.roofs &&
      r.value.useBuildingColors == options.buildingColors &&
      r.value.showOverlapped == options.showOverlapped &&
      r.value.credit == Default.credit
    ensures r.Err? && ParseDrawingMode(options.mode).None? ==>
      r.error == InvalidValue("DrawingMode", options.mode)
    ensures r.Err? && ParseDrawingMode(options.mode).Some? && ParseBuildingMode(options.buildings).None? ==>
      r.error == InvalidValue("BuildingMode", options.buildings)
    ensures r.Err? && ParseDrawingMode(options.mode).Some? && ParseBuildingMode(options.buildings).Some? ==>
      r.error == InvalidValue("LabelMode", options.labelMode)
  {
    match ParseDrawingMode(options.mode)
    case None => Err(InvalidValue("DrawingMode", options.mode))
    case Some(drawingMode) =>
      match ParseBuildingMode(options.buildings)
      case None => Err(InvalidValue("BuildingMode", options.buildings))
      case Some(buildingMode) =>
        match ParseLabelMode(options.labelMode)
        case None => Err(InvalidValue("LabelMode", options.labelMode))
        case Some(labelMode) =>
          Ok(Configuration(
            drawingMode, buildingMode, labelMode, zoomLevel, options.overlap,
            options.level, options.seed, options.tooltips, options.country,
            options.ignoreLevelMatching, options.roofs, options.buildingColors,
            options.showOverlapped, Default.credit))
  }

  /** Without any flag, the command line yields the dataclass defaults. */
  lemma CommandLineDefaultsGiveDefault()
    ensures FromOptions(CommandLineDefaults, 18.0) == Ok(Default)
  {
  }

  predicate IsWireframe(configuration: Configuration)
  {
    configuration.drawingMode != Normal
  }

  /** The background colour a drawing mode forces, if any. */
  function BackgroundColor(configuration: Configuration): (r: Option<Color>)
    ensures r.Some? ==> r.value == Hex("#111111")
    ensures r.None? <==> configuration.drawingMode in {Normal, Black}
  {
    if configuration.drawingMode !in {Normal, Black} then Some(Hex("#111111"))
    else None
  }

  /** A forced background comes only with a wireframe mode; BLACK is the one
      wireframe mode that keeps the scheme's background. */
  lemma BackgroundColorWireframe(configuration: Configuration)
    ensures BackgroundColor(configuration).Some? ==> IsWireframe(configuration)
    ensures IsWireframe(configuration) && BackgroundColor(configuration).None?
        <==> configuration.drawingMode == Black
  {
  }
}
