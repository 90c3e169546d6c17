/** The records the race generator reads and writes: the race properties of a
    human or animal template, the alien-race graphics settings of the human,
    the morph definitions that name an animal, and the derived implied race.
    Identifiers of other definitions (think trees, body plans, sounds, ...)
    are kept as their def names. */
module RaceTypes {
  import opened Wrappers

  datatype Vector2 = Vector2(x: real, y: real)

  /** One entry of `lifeStageAges`: the age the stage starts at, the stage
      definition and the four creature sounds of that stage. */
  datatype LifeStageAge = LifeStageAge(
    minAge: real,
    def: string,
    soundAngry: string,
    soundCall: string,
    soundDeath: string,
    soundWounded: string)

  /** A `(stat, value)` entry of a `statBases` or `statModifiers` list. */
  datatype StatModifier = StatModifier(stat: string, value: real)

  /** The modelled part of `RaceProperties`. `foodType` is the
      `FoodTypeFlags` bit set. */
  datatype RaceProperties = RaceProperties(
    // taken from the human template
    thinkTreeMain: string,
    intelligence: string,
    body: string,
    lifeExpectancy: real,
    gestationPeriodDays: real,
    // taken from the animal template
    leatherDef: string,
    meatDef: string,
    packAnimal: bool,
    manhunterOnDamageChance: real,
    deathActionWorkerClass: string,
    // computed
    makesFootprints: bool,
    baseBodySize: real,
    baseHealthScale: real,
    baseHungerRate: real,
    foodType: bv32,
    lifeStageAges: seq<LifeStageAge>)

  datatype Tool = Tool(name: string)
  datatype VerbProperties = VerbProperties(name: string)

  // ---- body addons (alien race graphics) ----

  datatype BodyTypeOffset = BodyTypeOffset(bodyType: string, offset: Vector2)
  datatype CrownTypeOffset = CrownTypeOffset(crownType: string, offset: Vector2)

  /** The offsets of an addon for one facing. */
  datatype RotationOffset = RotationOffset(
    bodyTypes: Option<seq<BodyTypeOffset>>,
    portraitBodyTypes: Option<seq<BodyTypeOffset>>,
    portraitCrownTypes: Option<seq<CrownTypeOffset>>,
    crownTypes: Option<seq<CrownTypeOffset>>)

  /** The four facings, each optional. */
  datatype BodyAddonOffsets = BodyAddonOffsets(
    south: Option<RotationOffset>,
    north: Option<RotationOffset>,
    east: Option<RotationOffset>,
    west: Option<RotationOffset>)

  /** The modelled part of an alien-race body addon. */
  datatype BodyAddon = BodyAddon(
    path: string,
    bodyPart: string,
    offsets: BodyAddonOffsets,
    drawSize: Vector2,
    angle: real,
    inFrontOfBody: bool,
    layerOffset: real,
    variantCount: int)

  datatype DirectionalOffset = DirectionalOffset(south: Vector2, north: Vector2, east: Vector2, west: Vector2)

  /** The modelled part of an alien-race `GraphicPaths` entry. */
  datatype GraphicPaths = GraphicPaths(
    body: string,
    head: string,
    customDrawSize: Vector2,
    customPortraitDrawSize: Vector2,
    customHeadDrawSize: Vector2,
    customPortraitHeadDrawSize: Vector2,
    headOffset: Vector2,
    headOffsetDirectional: DirectionalOffset)

  /** The alien-race settings the generator rewrites: the body addons of the
      part generator and the graphic paths. */
  datatype AlienSettings = AlienSettings(bodyAddons: seq<BodyAddon>, graphicPaths: seq<GraphicPaths>)

  /** A race definition. `alienRace` is present exactly when the def is an
      alien race (a `ThingDef_AlienRace`). */
  datatype ThingDef = ThingDef(
    defName: string,
    labelText: string,
    description: Option<string>,
    race: RaceProperties,
    statBases: Option<seq<StatModifier>>,
    tools: Option<seq<Tool>>,
    verbs: Option<seq<VerbProperties>>,
    alienRace: Option<AlienSettings>)

  /** The custom draw sizes a morph may configure. */
  datatype GraphicsSettings = GraphicsSettings(customDrawSize: Option<Vector2>, customHeadDrawSize: Option<Vector2>)

  datatype RaceSettings = RaceSettings(
    statModifiers: Option<seq<StatModifier>>,
    graphicsSettings: Option<GraphicsSettings>)

  /** The identity of a race in the lookup table: the i-th race generated in
      the pass (a fresh object), or an existing race def named by the morph. */
  datatype RaceRef = Implied(index: nat) | Existing(defName: string)

  /** A morph definition: its animal race, settings, optional explicit hybrid
      race, and the hybrid race the generator assigns to it. */
  datatype MorphDef = MorphDef(
    defName: string,
    labelText: string,
    description: Option<string>,
    race: ThingDef,
    raceSettings: RaceSettings,
    explicitHybridRace: Option<string>,
    hybridRaceDef: Option<RaceRef>)

  /** The generated implied race of a morph. The stat bases are a map because
      the source emits them in dictionary order, which is unspecified. */
  datatype ImpliedRace = ImpliedRace(
    defName: string,
    labelText: string,
    description: Option<string>,
    race: RaceProperties,
    statBases: map<string, real>,
    tools: seq<Tool>,
    verbs: seq<VerbProperties>,
    alienRace: AlienSettings)

  /** What aborts generation. */
  datatype RaceError =
    | HumanNotAlienRace            // the cast of the human def fails
    | AnimalLifeStageOutOfRange    // `animal[j]` with an empty animal stage list
    | HumanGraphicPathsEmpty       // `First()` of an empty list
    | MeshGenerationFailed(race: string)
    | RaceArgumentNull             // `IsMorphRace(null)`
}
