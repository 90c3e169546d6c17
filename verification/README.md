# Pawnmorph hybrid races and capacity patches, modelled in Dafny

This project models two parts of the Pawnmorph mod for RimWorld.

**Hybrid race generation** (`RaceGenerator`). For every morph def, an
"implied" hybrid race is built by merging the human race def with the morph's
animal race def, field by field:

- body size and hunger rate are balanced by their ratio, "gamma";
- health scale is interpolated;
- life stages are remapped by position;
- stat bases are averaged, then the morph's modifiers are added;
- the meal food flag is forced on;
- tools are concatenated;
- body addons are copied and resized for the morph's custom draw sizes;
- a fresh graphic-paths entry is made.

The pass over all morphs fills a lookup table from each generated race, and
from each morph's explicit hybrid race, back to the morph.

**Capacity patches** (`PawnCapacityUtilsPatch`). The `Postfix` on
`CalculateCapacityLevel` lowers a capacity level using the pawn's aspects. It
folds their capacity modifiers (sum of offsets, product of post-factors,
minimum of the defined caps) over an uncapped recomputation of the hediff
level (`GetTotalCapacityOffset`), and keeps the smaller of that and the
host's value. The `Transpiler` on `CalculatePartEfficiency` scans the
instruction list with a window of five and rewrites the first window that
matches a fixed pattern.

Modules, one file each:

| module | file |
|---|---|
| `Wrappers` (`Option`, `Result`, `OrEmpty` for `MakeSafe`) | `wrappers.dfy` |
| `MergeAlgebra` (`Lerp`, `Min`, `Between`) | `merge_algebra.dfy` |
| `RaceTypes` (the defs as datatypes) | `race_types.dfy` |
| `FoodStats` | `food_stats.dfy` |
| `LifeStages` | `life_stages.dfy` |
| `StatModifiers` | `stat_modifiers.dfy` |
| `FoodFlags` | `food_flags.dfy` |
| `BodyAddons` | `body_addons.dfy` |
| `GraphicPathsGen` | `graphic_paths.dfy` |
| `HybridRace` | `implied_race.dfy` |
| `RaceRegistry` | `race_registry.dfy` |
| `CapacityPatch` | `capacity.dfy` |
| `PartEfficiencyTranspiler` | `transpiler.dfy` |

Floats are modelled as reals. Thrown exceptions become `Result` failures and
null references become `Option`.

Some values come from code that is not shown, so they are parameters:

- `Mathf.Pow(_, 0.5f)` is the value `f` (or the function `sqrt`). It is only
  assumed to be non-negative and zero exactly when its argument is zero.
- A freshly constructed `GraphicPaths` is the parameter `blank`.
- `CreateImplicitMeshes` succeeding is the predicate `meshesOk`.
- The capacity worker's level is `workerLevel`.
- `MatchesPattern` against the fixed pattern is the predicate `matches`.

Behaviour of the source worth noting (the model follows the code):

- **Verbs.** The implied race's verbs are the animal's verbs only. The
  concatenation on `RaceGenerator.cs:535` reads `impliedRace.Verbs`, the def
  under construction, whose `verbs` field is still unset. It does not read
  the human's verbs.
- **Name collisions.** Nothing checks them. A later morph that names the same
  explicit hybrid race overwrites the table entry.
- **`minValue` and rounding.** `PawnCapacityUtilsPatch.cs:66` applies the
  floor and the rounding, then throws the result away. Neither affects the
  output.
- **Impactors.** One impactor is appended for every aspect with `HasCapMods`,
  whether or not any of its modifiers targets the queried capacity.
- **Recomputation without modifiers.** A pawn with an aspect tracker but no
  matching cap mods still gets the minimum of the host's result and the
  uncapped recomputation (`PawnCapacityUtilsPatch.cs:62-67`). The host's own
  `minValue` floor or rounding can put its result above that recomputation,
  and then the postfix lowers it.
- **Life-stage index.** The source computes it as a float product truncated
  to an int. The model uses the exact `floor(i * n / m)`.

## Model

| member | source | states |
|---|---|---|
| `MergeAlgebra.Lerp` | Source/Pawnmorphs/Esoteria/Hybrids/RaceGenerator.cs:111-113 | `Mathf.Lerp` clamps its parameter. The result lies between the two endpoints. It is the first endpoint for t ≤ 0 and the second for t ≥ 1. |
| `MergeAlgebra.LerpHalfIsMean` | Source/Pawnmorphs/Esoteria/Hybrids/RaceGenerator.cs:462 | Interpolating half way, as the stat merge does, gives the arithmetic mean. |
| `FoodStats.GammaDeviation` | Source/Pawnmorphs/Esoteria/Hybrids/RaceGenerator.cs:104-107 | The relative gamma difference under the square root is non-negative. It is zero exactly when the human's and the animal's gammas are equal. |
| `FoodStats.BalanceWeight` | Source/Pawnmorphs/Esoteria/Hybrids/RaceGenerator.cs:109 | The weight given to the human side lies in (0, 1]. It is 1 exactly when the square root is 0. |
| `FoodStats.GetFoodStats` | Source/Pawnmorphs/Esoteria/Hybrids/RaceGenerator.cs:100-117 | The hybrid's body size and hunger rate are positive, and its body size lies between the animal's and the human's. Its size/rate ratio is exactly the interpolated gamma, so it lies between the two gammas. Equal gammas give back the human's own pair. |
| `FoodStats.RatioRoundTrip` | Source/Pawnmorphs/Esoteria/Hybrids/RaceGenerator.cs:114 | Choosing the hunger rate as size / gamma reproduces gamma as the size/rate ratio. |
| `FoodStats.FoodStatsExample` | Source/Pawnmorphs/Esoteria/Hybrids/RaceGenerator.cs:100-117 | Worked example: human 1/1 and animal 4/2 give f = 1 and a = 1/2. The hybrid then has size 2.5 and ratio 1.5. |
| `LifeStages.AnimalStageIndex` | Source/Pawnmorphs/Esoteria/Hybrids/RaceGenerator.cs:123-128 | The remapped animal index is always inside the animal's stage list when that list is non-empty. |
| `LifeStages.MakeLifeStages` | Source/Pawnmorphs/Esoteria/Hybrids/RaceGenerator.cs:119-145 | Fails exactly when the human has stages and the animal has none. That is the out-of-range `animal[0]`. Otherwise there is one stage per human stage. Each keeps the human stage's minimum age and def and takes its four sounds from animal stage floor(i·n/m). |
| `LifeStages.AnimalStageIndexMonotone` | Source/Pawnmorphs/Esoteria/Hybrids/RaceGenerator.cs:123-126 | Later human stages never draw on earlier animal stages. |
| `LifeStages.EqualCountsPairStagesInOrder` | Source/Pawnmorphs/Esoteria/Hybrids/RaceGenerator.cs:123-126 | With equally many stages on both sides, stage i pairs with stage i. |
| `LifeStages.MakeLifeStagesKeepsOrder` | Source/Pawnmorphs/Esoteria/Hybrids/RaceGenerator.cs:119-145 | Ascending human ages stay ascending in the result. The first stage always takes the animal's first stage's sounds. |
| `StatModifiers.WriteHumanStats` | Source/Pawnmorphs/Esoteria/Hybrids/RaceGenerator.cs:451-454 | The keys are the old keys plus the listed stats. Each listed stat holds the value of its last entry, and every other key is untouched. |
| `StatModifiers.BlendAnimalStats` | Source/Pawnmorphs/Esoteria/Hybrids/RaceGenerator.cs:457-467 | The keys are the old keys plus the animal's stats. For distinct animal stats, a stat already present becomes the mean of the old and animal values, and a new stat takes the animal's value. |
| `StatModifiers.AddStatOverrides` | Source/Pawnmorphs/Esoteria/Hybrids/RaceGenerator.cs:470-475 | The keys are the old keys plus the overridden stats. Each value is the old value (0 when absent) plus the sum of all override entries for that stat. |
| `StatModifiers.GenerateHybridStatModifiers` | Source/Pawnmorphs/Esoteria/Hybrids/RaceGenerator.cs:445-488 | The result's stats are the union of the three lists' stats, with null lists read as empty. For distinct animal stats, each value equals the reference `ExpectedStat`. That is the mean when both templates define the stat, the single definition otherwise, plus every override. |
| `FoodFlags.GenerateFoodFlags` | Source/Pawnmorphs/Esoteria/Hybrids/RaceGenerator.cs:490-495 | The meal bit is set, and every other bit is the animal's. |
| `FoodFlags.FoodFlagsKeepAnimalFlags` | Source/Pawnmorphs/Esoteria/Hybrids/RaceGenerator.cs:492 | No animal food flag is cleared. |
| `FoodFlags.FoodFlagsIdempotent` | Source/Pawnmorphs/Esoteria/Hybrids/RaceGenerator.cs:492 | Forcing the meal bit twice is the same as once, and flags that already allow meals are unchanged. |
| `BodyAddons.GenerateBodyTypeOffsets` | Source/Pawnmorphs/Esoteria/Hybrids/RaceGenerator.cs:391-405 | The copied body-type list equals the original: same length, body types and offsets. |
| `BodyAddons.GenerateRotationOffsets` | Source/Pawnmorphs/Esoteria/Hybrids/RaceGenerator.cs:376-389 | The copied rotation offset equals the original, and a null body-type list stays null. |
| `BodyAddons.GenerateBodyAddonOffsets` | Source/Pawnmorphs/Esoteria/Hybrids/RaceGenerator.cs:362-374 | The copied offsets equal the original, and absent facings stay absent. |
| `BodyAddons.HeadAndBodyPartsDisjoint` | Source/Pawnmorphs/Esoteria/Hybrids/RaceGenerator.cs:293-303 | No part name is both a head part and a body part, so at most one resize applies to an addon. |
| `BodyAddons.ShiftOffsets` | Source/Pawnmorphs/Esoteria/Hybrids/RaceGenerator.cs:335-347 | Every body-type offset of every present facing has its y raised by the shift. x, the body types, the crown and portrait lists, and which facings are present all stay the same. |
| `BodyAddons.ShiftOffsetsInverse` | Source/Pawnmorphs/Esoteria/Hybrids/RaceGenerator.cs:335-347 | Shifting by −dy undoes a shift by dy, and a zero shift changes nothing. |
| `BodyAddons.GenerateBodyAddons` | Source/Pawnmorphs/Esoteria/Hybrids/RaceGenerator.cs:272-360 | There is one addon per human addon, with path, part, angle, layer and variant count kept. Head parts take the custom head size, body parts take the custom body size, and other addons keep their draw size. Head parts' offsets are shifted by 0.34·(bodySize.y − 1) exactly when there is a custom body size. All other offsets are unchanged. |
| `GraphicPathsGen.GenerateGraphicPaths` | Source/Pawnmorphs/Esoteria/Hybrids/RaceGenerator.cs:429-443 | Fails exactly when the human list is empty (`First()`). Otherwise it returns one fresh entry. Its custom draw sizes are the morph's or the fresh defaults. Its head offset is (0, 0.34·(y − 1)) for a custom body size, otherwise the default. Its directional head offset is the first human entry's. |
| `GraphicPathsGen.HeadOffsetMatchesAddonShift` | Source/Pawnmorphs/Esoteria/Hybrids/RaceGenerator.cs:437 | The head offset rises by exactly as much as each head addon's offsets, so heads and head addons stay aligned. |
| `HybridRace.GenerateHybridProperties` | Source/Pawnmorphs/Esoteria/Hybrids/RaceGenerator.cs:58-98 | Fails exactly when the life-stage remap does. Structural fields come from the human and biological fields from the animal. The hybrid makes footprints. Its body size and hunger rate are the `GetFoodStats` pair, with its bounds. Health scale is lerp(human, animal, 0.4). The meal bit is forced on. Its life stages are the `MakeLifeStages` remap, one per human stage. |
| `HybridRace.HybridWithItself` | Source/Pawnmorphs/Esoteria/Hybrids/RaceGenerator.cs:58-98 | Over the modelled fields, crossing a race with itself returns the race, except that it makes footprints and can eat meals. |
| `HybridRace.ImpliedDefName` | Source/Pawnmorphs/Esoteria/Hybrids/RaceGenerator.cs:502 | The implied race's name is the morph's name followed by "Race_Implied". |
| `HybridRace.ImpliedDefNameRoundTrip` | Source/Pawnmorphs/Esoteria/Hybrids/RaceGenerator.cs:502 | Stripping the suffix recovers the morph's name, so distinct morph names give distinct race names. |
| `HybridRace.ImpliedDescription` | Source/Pawnmorphs/Esoteria/Hybrids/RaceGenerator.cs:517 | A null or empty morph description falls back to the animal race's description. |
| `HybridRace.GenerateImplicitRace` | Source/Pawnmorphs/Esoteria/Hybrids/RaceGenerator.cs:498-543 | Succeeds exactly when the life stages can be remapped and the human has graphic paths. The race then has the implied name, the morph's label and the fallback description. Its properties, stat bases, body addons and graphic paths are the merged ones. Its tools are human then animal tools, and its verbs are the animal's. |
| `HybridRace.ImplicitRaceFailsOnlyForStagesOrPaths` | Source/Pawnmorphs/Esoteria/Hybrids/RaceGenerator.cs:429-439 | When the life stages can be remapped, the only failure is the human's empty graphic-paths list. `First()` throws there, reached from line 540 through line 421, and the error is `HumanGraphicPathsEmpty`. |
| `HybridRace.ImpliedVerbsIgnoreHumanVerbs` | Source/Pawnmorphs/Esoteria/Hybrids/RaceGenerator.cs:534-537 | The human def's verbs have no effect on the implied race. |
| `RaceRegistry.BuildRace` | Source/Pawnmorphs/Esoteria/Hybrids/RaceGenerator.cs:181-197 | Succeeds exactly when `GenerateImplicitRace` succeeds and mesh creation succeeds for its race, and then returns that race. A generation failure is passed on. A mesh failure reports `MeshGenerationFailed` with the implied race's name. |
| `RaceRegistry.RegisterAll` | Source/Pawnmorphs/Esoteria/Hybrids/RaceGenerator.cs:179-200 | The pass succeeds exactly when every morph builds, and otherwise reports the first failure. On success: one race per morph, in order. Implied race i maps to morph i. A morph without an explicit hybrid race gets hybrid race `Implied(i)`, and other morphs are unchanged. The table's keys are exactly the generated races and the named explicit races. The last morph naming an explicit race owns its entry. |
| `RaceRegistry.RegisterStep` | Source/Pawnmorphs/Esoteria/Hybrids/RaceGenerator.cs:183-192 | One loop iteration extends the registered prefix of the morph list by one morph. |
| `RaceRegistry.GenerateAllImpliedRaces` | Source/Pawnmorphs/Esoteria/Hybrids/RaceGenerator.cs:161-203 | A human def that is not an alien race is a fatal failure. Otherwise the pass succeeds exactly when every morph's race builds. When it fails, it reports the `BuildRace` error of the first morph that fails. On success, the races are the built ones in morph order, and each implied race maps to its morph. A morph without an explicit hybrid race gets hybrid race `Implied(i)`, and other morphs are unchanged. The keys are exactly the registered races, and the last morph naming an explicit race owns its entry. |
| `RaceRegistry.TryGetMorphOfRace` | Source/Pawnmorphs/Esoteria/Hybrids/RaceGenerator.cs:44-47 | A null race fails with an argument-null error, as `TryGetValue` throws on a null key. Otherwise it finds a morph exactly for registered races, and returns that race's table entry. |
| `RaceRegistry.IsMorphRace` | Source/Pawnmorphs/Esoteria/Hybrids/RaceGenerator.cs:553-557 | A null argument fails with an argument-null error. Otherwise the answer is true exactly when the lookup finds a morph. |
| `RaceRegistry.MorphRacesAfterGeneration` | Source/Pawnmorphs/Esoteria/Hybrids/RaceGenerator.cs:553-557 | After a complete pass, a race is a morph race exactly when it is a generated race or some morph's explicit hybrid race. |
| `CapacityPatch.MatchingSelects` | Source/Pawnmorphs/Esoteria/HPatches/PawnCapacityUtilsPatch.cs:44 | Only modifiers for the queried capacity take part, and all of them do. |
| `CapacityPatch.MinCapIsMinimum` | Source/Pawnmorphs/Esoteria/HPatches/PawnCapacityUtilsPatch.cs:38-51 | The running cap is infinite exactly when no modifier defines one. Otherwise it is one of the defined caps and no larger than any of them, so undefined caps never constrain. |
| `CapacityPatch.CapAtBounds` | Source/Pawnmorphs/Esoteria/HPatches/PawnCapacityUtilsPatch.cs:63 | Capping never raises a value. An infinite cap leaves it alone, and a finite one makes it at most the cap, being either the value or the cap. |
| `CapacityPatch.SumOffsetsAppend` | Source/Pawnmorphs/Esoteria/HPatches/PawnCapacityUtilsPatch.cs:46 | Offsets add across any split of the modifier list. |
| `CapacityPatch.ProductFactorsAppend` | Source/Pawnmorphs/Esoteria/HPatches/PawnCapacityUtilsPatch.cs:47 | Post-factors multiply across any split of the modifier list. |
| `CapacityPatch.AspectModsAppend` | Source/Pawnmorphs/Esoteria/HPatches/PawnCapacityUtilsPatch.cs:39-57 | The modifiers of two groups of aspects are those of the first group followed by those of the second. |
| `CapacityPatch.AddHediffMods` | Source/Pawnmorphs/Esoteria/HPatches/PawnCapacityUtilsPatch.cs:94-104 | The inner loop adds the matching offsets and multiplies in the matching post-factors of one hediff's modifiers. |
| `CapacityPatch.GetTotalCapacityOffset` | Source/Pawnmorphs/Esoteria/HPatches/PawnCapacityUtilsPatch.cs:84-109 | The result is (worker level + sum of matching hediff offsets) · product of matching hediff post-factors. Hediffs with null modifier lists are skipped and no cap applies. |
| `CapacityPatch.AddAspectMods` | Source/Pawnmorphs/Esoteria/HPatches/PawnCapacityUtilsPatch.cs:42-52 | The inner loop folds one aspect's matching modifiers into the running offset, post-factor and cap. |
| `CapacityPatch.FoldAspects` | Source/Pawnmorphs/Esoteria/HPatches/PawnCapacityUtilsPatch.cs:39-57 | The aspect loop gives the sum, product and minimum cap over the matching modifiers of aspects with cap mods. It appends one impactor per such aspect, in order, and leaves a null impactor list null. |
| `CapacityPatch.AspectCappedLevel` | Source/Pawnmorphs/Esoteria/HPatches/PawnCapacityUtilsPatch.cs:36-63 | The capped aspect level is the uncapped hediff level plus the matching aspect offsets, times their post-factors, under their smallest cap. The impactor list grows by the aspects with cap mods. |
| `CapacityPatch.Postfix` | Source/Pawnmorphs/Esoteria/HPatches/PawnCapacityUtilsPatch.cs:29-74 | The result never exceeds the incoming one. Without a tracker, or with a non-positive result, nothing changes. Otherwise the result is min(result, min((aspect offsets + uncapped level) · aspect factors, cap)), and the impactors are extended as in the aspect loop. |
| `CapacityPatch.CapPrecedenceExample` | Source/Pawnmorphs/Esoteria/HPatches/PawnCapacityUtilsPatch.cs:48-51 | Caps 10 and 15 give 10 in either order. An undefined cap next to 15 gives 15. |
| `CapacityPatch.AspectsWithoutCapModsAreInert` | Source/Pawnmorphs/Esoteria/HPatches/PawnCapacityUtilsPatch.cs:41 | Aspects without cap mods contribute no modifiers and no impactors. |
| `CapacityPatch.AspectImpactors` | Source/Pawnmorphs/Esoteria/HPatches/PawnCapacityUtilsPatch.cs:41-55 | There is exactly one impactor per aspect with cap mods: the list's length is the number of such aspects. |
| `CapacityPatch.AspectImpactorsAreCapModAspects` | Source/Pawnmorphs/Esoteria/HPatches/PawnCapacityUtilsPatch.cs:41-55 | By membership, the appended impactors are exactly the aspects with cap mods. |
| `CapacityPatch.UnmatchedAspectsGiveUncappedLevel` | Source/Pawnmorphs/Esoteria/HPatches/PawnCapacityUtilsPatch.cs:39-67 | When no aspect's cap mods target the capacity, the aspect level is the uncapped hediff recomputation itself. The postfix still takes the minimum with it. |
| `CapacityPatch.RecomputeLowersResultExample` | Source/Pawnmorphs/Esoteria/HPatches/PawnCapacityUtilsPatch.cs:29-74 | Witness: a tracker with no aspects, a host result of 1.0 and a recomputed level of 0.5 give 0.5. An aspect tracker without matching modifiers can still lower the result. |
| `PartEfficiencyTranspiler.Window` | Source/Pawnmorphs/Esoteria/HPatches/PawnCapacityUtilsPatch.cs:142 | The window holds the five instructions starting at i, in order. |
| `PartEfficiencyTranspiler.SourceScanBound` | Source/Pawnmorphs/Esoteria/HPatches/PawnCapacityUtilsPatch.cs:140 | No start is tried for five instructions or fewer. Otherwise the last start tried leaves the last instruction outside every window. |
| `PartEfficiencyTranspiler.FirstMatch` | Source/Pawnmorphs/Esoteria/HPatches/PawnCapacityUtilsPatch.cs:140-151 | The scan returns the least matching start in range, or none when no window in range matches. |
| `PartEfficiencyTranspiler.FirstMatchIsUnique` | Source/Pawnmorphs/Esoteria/HPatches/PawnCapacityUtilsPatch.cs:150 | There is at most one first match, so the `break` leaves every later matching window alone. |
| `PartEfficiencyTranspiler.TranspileUpTo` | Source/Pawnmorphs/Esoteria/HPatches/PawnCapacityUtilsPatch.cs:140-151 | The length is kept, and no match means no change. At the first match i, element i+1 becomes a no-op with a null operand and element i+4 a call of the substitute. Every other element, later matching windows included, is untouched. |
| `PartEfficiencyTranspiler.Transpile` | Source/Pawnmorphs/Esoteria/HPatches/PawnCapacityUtilsPatch.cs:115-155 | Has the same shape as `TranspileUpTo` with the source's bound. Lists of five or fewer instructions are returned unchanged. |
| `PartEfficiencyTranspiler.TranspileEveryWindow` | Source/Pawnmorphs/Esoteria/HPatches/PawnCapacityUtilsPatch.cs:140 | The corrected scan, which tries every start at which a whole window fits. Its shape is the same as `TranspileUpTo`. |
| `PartEfficiencyTranspiler.EveryWindowFindsAnyMatch` | Source/Pawnmorphs/Esoteria/HPatches/PawnCapacityUtilsPatch.cs:140 | With every start tried, any matching window anywhere means a first match at or before it. |
| `PartEfficiencyTranspiler.ScansAgreeBeforeLastWindow` | Source/Pawnmorphs/Esoteria/HPatches/PawnCapacityUtilsPatch.cs:140-150 | The scan as written and the corrected scan agree whenever the first match does not end at the last instruction. |
| `PartEfficiencyTranspiler.LastWindowIsSkipped` | Source/Pawnmorphs/Esoteria/HPatches/PawnCapacityUtilsPatch.cs:140 | Five matching instructions are left alone by the scan as written but rewritten by the corrected scan. |

## Left out

- `MainTabWindow_ChamberDatabase.cs`: user interface only (drawing, scroll views, labels).
- Harmony: the patch attributes and runtime interception are host mechanisms. The postfix and transpiler are modelled as plain functions of their inputs.
- The `verbs` field is set by reflection (`RaceGenerator.cs:534-537`). Only the resulting list is modelled.
- `DefDatabase` and `ThingDef.Named` lookups: the human def and the morph list are inputs. A human def that does not cast to an alien race is the `HumanNotAlienRace` failure.
- Logging: the `StringBuilder` report and `Log.Message` are not modelled.
- `CreateImplicitMeshes`: mesh-pool generation is a foreign graphics call, so it is the `meshesOk` parameter.
- Table state after a failure: the pass is all-or-nothing, and the entries written before a thrown exception are not modelled. The pass runs lazily in the source, so this matters only after a failure.
- `MatchesPattern` and the pattern's field and method handles are reflection objects in code that is not shown. They are the `matches` predicate and opaque operands.
- Float behaviour: rounding, NaN and infinity are not modelled, and neither is the exact value of `Mathf.Pow`. The square root is the `f` parameter.
- `GetFoodStats`, `GenerateHybridProperties`, `GenerateImplicitRace`, `BuildRace`, `GenerateAllImpliedRaces`: require positive body sizes and hunger rates. A zero there gives IEEE infinities or NaN, which reals cannot express.
- `LifeStages.AnimalStageIndex`: uses exact integer division where the source truncates the float product `convert * i`. These can differ by rounding for very long lists.
- `StatModifiers.GenerateHybridStatModifiers`: returns a map from stat name to value, so the order of the source's result list is not modelled. The list follows the dictionary's enumeration order.
- `BodyAddons.GenerateBodyAddons`: `BodyAddon` is modelled with eight of its fields. The initializer at `RaceGenerator.cs:307-328` also copies eleven more, which are not modelled: `linkVariantIndexWithPrevious`, `layerInvert`, `drawnOnGround`, `drawnInBed`, `drawForMale`, `drawForFemale`, `hediffGraphics`, `backstoryGraphics`, `hiddenUnderApparelFor`, `hiddenUnderApparelTag` and `backstoryRequirement`. The source builds a new `BodyAddon`, so fields the initializer does not name take their defaults. That is not modelled either. "Unchanged" in its contract means over the modelled fields.
- `StatModifiers.BlendAnimalStats`, `StatModifiers.GenerateHybridStatModifiers`: give values only for animal lists without repeated stats. With repeats the source averages an entry into a value that an earlier animal entry already averaged. Only the key set is stated then.
- Unused code: `GetBodySize`, `GetHungerRate` and `GetDebugBodySizes` (`TEST_BODY_SIZE`) are never called in a normal build.
- `HybridRace.HybridWithItself`: holds only over the modelled fields. `RaceProperties` is modelled as a subset of its fields. The source builds a new `RaceProperties` (`RaceGenerator.cs:63-97`), so fields outside its initializer take the host's defaults, not the human's. Sixteen initializer fields are also not modelled, among them `thinkTreeConstant`, `nameCategory`, `litterSizeCurve`, `meatColor`, `manhunterOnTameFailChance`, the `soundMelee*` fields, `hediffGiverSets` and `corpseDef`.
- Verbatim and pass-through fields: the restriction settings (an empty stub), thought, hair, relation and general settings, and the other copied `ThingDef` fields are not modelled.
- Object identity: a generated race is identified by its position (`Implied(i)`) and an explicit hybrid race by its def name. The source's aliasing of shared lists and of `CodeInstruction` objects is not modelled, because the copies here are values.
- Null paths not modelled: `raceSettings`, `offsets` and `capMods` of aspects with `HasCapMods` are taken to be non-null, as the source assumes by dereferencing them.

## Findings

| source | as written | input that shows it | evidently intended | confidence | as-written member | corrected member |
|---|---|---|---|---|---|---|
| Source/Pawnmorphs/Esoteria/HPatches/PawnCapacityUtilsPatch.cs:140 | `i < lst.Count - len` never tries the last whole window. | Five instructions that match the pattern: no start is tried and nothing is rewritten. | `i <= lst.Count - len`, so that every window is scanned. | low; not executed. Compiled method bodies end in `ret`, so a match ending at the last instruction may never occur in practice. | `PartEfficiencyTranspiler.LastWindowIsSkipped` | `PartEfficiencyTranspiler.TranspileEveryWindow` |
