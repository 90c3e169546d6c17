/** The implied race of one morph (`GenerateHybridProperties`,
    `GenerateImplicitRace`): the field-by-field merge of the human race def
    and the morph's animal race def. */
module HybridRace {
  import opened Wrappers
  import opened MergeAlgebra
  import opened RaceTypes
  import opened FoodStats
  import opened LifeStages
  import opened StatModifiers
  import opened FoodFlags
  import opened BodyAddons
  import opened GraphicPathsGen

  const HealthScaleLerpValue: real := 0.4
  const ImpliedSuffix: string := "Race_Implied"

  /** `GenerateHybridProperties(human, animal)`; `f` is the square root
      `GetFoodStats` takes of the gamma deviation. */
  function GenerateHybridProperties(human: RaceProperties, animal: RaceProperties, f: real): (r: Result<RaceProperties, RaceError>)
    requires HasPositiveMetabolism(human) && HasPositiveMetabolism(animal)
    requires IsRootOf(f, GammaDeviation(human, animal))
    ensures r.Failure? <==> |human.lifeStageAges| > 0 && |animal.lifeStageAges| == 0
    ensures r.Success? ==>
      var p := r.value;
      // structural fields: the human's
      && p.thinkTreeMain == human.thinkTreeMain
      && p.intelligence == human.intelligence
      && p.body == human.body
      && p.lifeExpectancy == human.lifeExpectancy
      && p.gestationPeriodDays == human.gestationPeriodDays
      // biological fields: the animal's
      && p.leatherDef == animal.leatherDef
      && p.meatDef == animal.meatDef
      && p.packAnimal == animal.packAnimal
      && p.manhunterOnDamageChance == animal.manhunterOnDamageChance
      && p.deathActionWorkerClass == animal.deathActionWorkerClass
      // merged fields
      && p.makesFootprints
      && HasPositiveMetabolism(p)
      && Between(p.baseBodySize, animal.baseBodySize, human.baseBodySize)
      && Between(p.baseBodySize / p.baseHungerRate, Gamma(animal), Gamma(human))
      && p.baseHealthScale == human.baseHealthScale + 0.4 * (animal.baseHealthScale - human.baseHealthScale)
      && p.foodType & Meal == Meal && p.foodType & !Meal == animal.foodType & !Meal
      && |p.lifeStageAges| == |human.lifeStageAges|
    ensures r.Success? ==>
      && MakeLifeStages(human.lifeStageAges, animal.lifeStageAges).Success?
      && r.value.lifeStageAges == MakeLifeStages(human.lifeStageAges, animal.lifeStageAges).value
      && FoodStatPair(r.value.baseBodySize, r.value.baseHungerRate) == GetFoodStats(human, animal, f)
  {
    var stats := GetFoodStats(human, animal, f);
    var stages := MakeLifeStages(human.lifeStageAges, animal.lifeStageAges);
    if stages.Failure? then Failure(stages.error)
    else
      Success(RaceProperties(
        thinkTreeMain := human.thinkTreeMain,
        intelligence := human.intelligence,
        body := human.body,
        lifeExpectancy := human.lifeExpectancy,
        gestationPeriodDays := human.gestationPeriodDays,
        leatherDef := animal.leatherDef,
        meatDef := animal.meatDef,
        packAnimal := animal.packAnimal,
        manhunterOnDamageChance := animal.manhunterOnDamageChance,
        deathActionWorkerClass := animal.deathActionWorkerClass,
        makesFootprints := true,
        baseBodySize := stats.bodySize,
        baseHealthScale := Lerp(human.baseHealthScale, animal.baseHealthScale, HealthScaleLerpValue),
        baseHungerRate := stats.hungerRate,
        foodType := GenerateFoodFlags(animal.foodType),
        lifeStageAges := stages.value))
  }

  /** Over the modelled fields, crossing a race with itself gives the race
      back, except that it now leaves footprints and can eat meals. */
  lemma HybridWithItself(p: RaceProperties)
    requires HasPositiveMetabolism(p)
    ensures GammaDeviation(p, p) == 0.0
    ensures GenerateHybridProperties(p, p, 0.0) == Success(p.(makesFootprints := true, foodType := GenerateFoodFlags(p.foodType)))
  {
    var stages := MakeLifeStages(p.lifeStageAges, p.lifeStageAges).value;
    forall i | 0 <= i < |stages|
      ensures stages[i] == p.lifeStageAges[i]
    {
      EqualCountsPairStagesInOrder(i, |p.lifeStageAges|);
    }
    assert stages == p.lifeStageAges;
  }

  /** The implied race's def name. */
  function ImpliedDefName(morphName: string): (r: string)
    ensures |r| == |morphName| + |ImpliedSuffix|
    ensures r[..|morphName|] == morphName && r[|morphName|..] == ImpliedSuffix
  {
    morphName + ImpliedSuffix
  }

  /** Recovers the morph's def name from an implied race's def name. */
  function MorphNameOfImplied(defName: string): Option<string>
  {
    if |defName| >= |ImpliedSuffix| && defName[|defName| - |ImpliedSuffix|..] == ImpliedSuffix
    then Some(defName[..|defName| - |ImpliedSuffix|])
    else None
  }

  /** The name round-trips: distinct morphs get distinct implied race names. */
  lemma ImpliedDefNameRoundTrip(morphName: string)
    ensures MorphNameOfImplied(ImpliedDefName(morphName)) == Some(morphName)
  {
    var n := ImpliedDefName(morphName);
    assert n[|n| - |ImpliedSuffix|..] == ImpliedSuffix;
  }

  /** `string.IsNullOrEmpty(morph.description) ? morph.race.description : morph.description`. */
  function ImpliedDescription(morph: MorphDef): (r: Option<string>)
    ensures morph.description.Some? && morph.description.value != "" ==> r == morph.description
    ensures morph.description.None? || morph.description.value == "" ==> r == morph.race.description
  {
    if morph.description.None? || morph.description.value == "" then morph.race.description else morph.description
  }

  /** The `verbs` field of the def being built when its `Verbs` are read:
      the object initializer never sets it, so it is still null. */
  const UnsetVerbs: Option<seq<VerbProperties>> := None

  /** `GenerateImplicitRace(humanDef, morph)`; `f` is the square root of the
      gamma deviation and `blank` a freshly constructed `GraphicPaths`. */
  function GenerateImplicitRace(humanDef: ThingDef, morph: MorphDef, f: real, blank: GraphicPaths): (r: Result<ImpliedRace, RaceError>)
    requires humanDef.alienRace.Some?
    requires HasPositiveMetabolism(humanDef.race) && HasPositiveMetabolism(morph.race.race)
    requires IsRootOf(f, GammaDeviation(humanDef.race, morph.race.race))
    ensures r.Success? <==>
      && !(|humanDef.race.lifeStageAges| > 0 && |morph.race.race.lifeStageAges| == 0)
      && |humanDef.alienRace.value.graphicPaths| > 0
    ensures r.Failure? && |humanDef.race.lifeStageAges| > 0 && |morph.race.race.lifeStageAges| == 0 ==>
      r.error == AnimalLifeStageOutOfRange
    ensures r.Success? ==>
      var race := r.value;
      && race.defName == ImpliedDefName(morph.defName)
      && race.labelText == morph.labelText
      && race.description == ImpliedDescription(morph)
      && race.race == GenerateHybridProperties(humanDef.race, morph.race.race, f).value
      && race.statBases == GenerateHybridStatModifiers(humanDef.statBases, morph.race.statBases, morph.raceSettings.statModifiers)
      && race.tools == OrEmpty(humanDef.tools) + OrEmpty(morph.race.tools)
      && race.verbs == OrEmpty(morph.race.verbs)
      && race.alienRace.bodyAddons == GenerateBodyAddons(humanDef.alienRace.value.bodyAddons, morph)
      && race.alienRace.graphicPaths == GenerateGraphicPaths(humanDef.alienRace.value.graphicPaths, morph, blank).value
  {
    var props := GenerateHybridProperties(humanDef.race, morph.race.race, f);
    if props.Failure? then Failure(props.error)
    else
      var paths := GenerateGraphicPaths(humanDef.alienRace.value.graphicPaths, morph, blank);
      if paths.Failure? then Failure(paths.error)
      else
        Success(ImpliedRace(
          defName := ImpliedDefName(morph.defName),
          labelText := morph.labelText,
          description := ImpliedDescription(morph),
          race := props.value,
          statBases := GenerateHybridStatModifiers(humanDef.statBases, morph.race.statBases, morph.raceSettings.statModifiers),
          tools := OrEmpty(humanDef.tools) + OrEmpty(morph.race.tools),
          verbs := OrEmpty(UnsetVerbs) + OrEmpty(morph.race.verbs),
          alienRace := AlienSettings(
            GenerateBodyAddons(humanDef.alienRace.value.bodyAddons, morph),
            paths.value)))
  }

  /** The other failure: with the life stages remappable, a failure is the
      `First()` of the human's empty graphic-paths list. */
  lemma ImplicitRaceFailsOnlyForStagesOrPaths(humanDef: ThingDef, morph: MorphDef, f: real, blank: GraphicPaths)
    requires humanDef.alienRace.Some?
    requires HasPositiveMetabolism(humanDef.race) && HasPositiveMetabolism(morph.race.race)
    requires IsRootOf(f, GammaDeviation(humanDef.race, morph.race.race))
    ensures var r := GenerateImplicitRace(humanDef, morph, f, blank);
      r.Failure? && !(|humanDef.race.lifeStageAges| > 0 && |morph.race.race.lifeStageAges| == 0) ==>
        r.error == HumanGraphicPathsEmpty
  {
  }

  /** The human's verbs never reach the implied race: the concatenation reads
      the verbs of the def under construction, not the human's. */
  lemma ImpliedVerbsIgnoreHumanVerbs(humanDef: ThingDef, morph: MorphDef, f: real, blank: GraphicPaths, humanVerbs: Option<seq<VerbProperties>>)
    requires humanDef.alienRace.Some?
    requires HasPositiveMetabolism(humanDef.race) && HasPositiveMetabolism(morph.race.race)
    requires IsRootOf(f, GammaDeviation(humanDef.race, morph.race.race))
    ensures GenerateImplicitRace(humanDef.(verbs := humanVerbs), morph, f, blank) == GenerateImplicitRace(humanDef, morph, f, blank)
  {
  }
}
