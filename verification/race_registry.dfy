/** The generation pass over all morphs (`GenerateAllImpliedRaces`) and the
    race-to-morph lookup table it fills (`TryGetMorphOfRace`,
    `IsMorphRace`). The table starts empty and is only ever added to: each
    generated race maps to its morph, and so does a morph's explicit hybrid
    race when it has one. There is no check that generated names are unique. */
module RaceRegistry {
  import opened Wrappers
  import opened RaceTypes
  import opened FoodStats
  import opened HybridRace

  datatype Registry<R> = Registry(
    lookup: map<RaceRef, MorphDef>,   // `_raceLookupTable`
    races: seq<R>,                    // the generated races, in morph order
    morphs: seq<MorphDef>)            // the morphs after `hybridRaceDef` is set

  /** What `Mathf.Pow(_, 0.5f)` is relied on to be, for every argument. */
  ghost predicate IsSquareRootLike(sqrt: real -> real)
  {
    forall d :: d >= 0.0 ==> IsRootOf(sqrt(d), d)
  }

  predicate AllPositiveMetabolism(human: ThingDef, morphs: seq<MorphDef>)
  {
    HasPositiveMetabolism(human.race) && forall i :: 0 <= i < |morphs| ==> HasPositiveMetabolism(morphs[i].race.race)
  }

  /** One iteration's fallible work for a morph: `GenerateImplicitRace`, then
      `CreateImplicitMeshes`, which `meshesOk` stands for (false: it throws). */
  function BuildRace(human: ThingDef, morph: MorphDef, sqrt: real -> real, blank: GraphicPaths, meshesOk: ImpliedRace -> bool): (r: Result<ImpliedRace, RaceError>)
    requires human.alienRace.Some? && IsSquareRootLike(sqrt)
    requires HasPositiveMetabolism(human.race) && HasPositiveMetabolism(morph.race.race)
    ensures r.Success? ==> r.value.defName == ImpliedDefName(morph.defName) && meshesOk(r.value)
    ensures var race := GenerateImplicitRace(human, morph, sqrt(GammaDeviation(human.race, morph.race.race)), blank);
      && (r.Success? <==> race.Success? && meshesOk(race.value))
      && (r.Success? ==> r.value == race.value)
      && (race.Failure? ==> r.error == race.error)
      && (race.Success? && !meshesOk(race.value) ==> r.error == MeshGenerationFailed(ImpliedDefName(morph.defName)))
  {
    var race := GenerateImplicitRace(human, morph, sqrt(GammaDeviation(human.race, morph.race.race)), blank);
    if race.Failure? then race
    else if meshesOk(race.value) then race
    else Failure(MeshGenerationFailed(race.value.defName))
  }

  /** The keys the table holds after the first `n` morphs. */
  predicate IsRegisteredRef(morphs: seq<MorphDef>, n: nat, x: RaceRef)
    requires n <= |morphs|
  {
    match x
    case Implied(k) => k < n
    case Existing(e) => exists i :: 0 <= i < n && morphs[i].explicitHybridRace == Some(e)
  }

  /** No morph after `j` (and before `n`) names the same explicit hybrid race. */
  predicate LastToName(morphs: seq<MorphDef>, n: nat, j: nat)
    requires j < n <= |morphs|
  {
    forall k :: j < k < n ==> morphs[k].explicitHybridRace != morphs[j].explicitHybridRace
  }

  /** The morph once the loop has visited it as the i-th. */
  function AfterRegistration(morph: MorphDef, i: nat): MorphDef
  {
    if morph.explicitHybridRace.None? then morph.(hybridRaceDef := Some(Implied(i))) else morph
  }

  /** One registration step: `_raceLookupTable[race] = morphDef`, then either
      `morphDef.hybridRaceDef = race` or `_raceLookupTable[explicit] = morphDef`. */
  function Register<R>(reg: Registry<R>, morph: MorphDef, race: R): Registry<R>
  {
    var i := |reg.races|;
    var m := AfterRegistration(morph, i);
    var lookup := reg.lookup[Implied(i) := m];
    Registry(
      if morph.explicitHybridRace.Some? then lookup[Existing(morph.explicitHybridRace.value) := m] else lookup,
      reg.races + [race],
      reg.morphs + [m])
  }

  /** The `foreach (morphDef in morphs)` loop, over whatever `build` makes of
      each morph; the first failure ends the pass. */
  method RegisterAll<R>(morphs: seq<MorphDef>, build: MorphDef --> Result<R, RaceError>) returns (r: Result<Registry<R>, RaceError>)
    requires forall i :: 0 <= i < |morphs| ==> build.requires(morphs[i])
    ensures r.Success? <==> forall i :: 0 <= i < |morphs| ==> build(morphs[i]).Success?
    ensures r.Failure? ==> exists i :: (
      && 0 <= i < |morphs|
      && build(morphs[i]).Failure?
      && (forall j :: 0 <= j < i ==> build(morphs[j]).Success?)
      && r.error == build(morphs[i]).error)
    ensures r.Success? ==> |r.value.races| == |morphs| && |r.value.morphs| == |morphs|
    ensures r.Success? ==> forall i :: 0 <= i < |morphs| ==> r.value.races[i] == build(morphs[i]).value
    ensures r.Success? ==> forall i :: 0 <= i < |morphs| ==>
      && r.value.morphs[i].(hybridRaceDef := morphs[i].hybridRaceDef) == morphs[i]
      && (morphs[i].explicitHybridRace.None? ==> r.value.morphs[i].hybridRaceDef == Some(Implied(i)))
      && (morphs[i].explicitHybridRace.Some? ==> r.value.morphs[i] == morphs[i])
    ensures r.Success? ==> forall i :: 0 <= i < |morphs| ==>
      Implied(i) in r.value.lookup && r.value.lookup[Implied(i)] == r.value.morphs[i]
    ensures r.Success? ==> forall x :: x in r.value.lookup <==> IsRegisteredRef(morphs, |morphs|, x)
    ensures r.Success? ==> forall i :: 0 <= i < |morphs| && morphs[i].explicitHybridRace.Some? && LastToName(morphs, |morphs|, i) ==>
      && Existing(morphs[i].explicitHybridRace.value) in r.value.lookup
      && r.value.lookup[Existing(morphs[i].explicitHybridRace.value)] == r.value.morphs[i]
  {
    var reg: Registry<R> := Registry(map[], [], []);
    var i := 0;
    while i < |morphs|
      invariant 0 <= i <= |morphs|
      invariant forall j :: 0 <= j < i ==> build(morphs[j]).Success?
      invariant RegisteredPrefix(reg, morphs, i)
      invariant forall j :: 0 <= j < i ==> reg.races[j] == build(morphs[j]).value
    {
      var race := build(morphs[i]);
      if race.Failure? {
        return Failure(race.error);
      }
      RegisterStep(reg, morphs, i, race.value);
      reg := Register(reg, morphs[i], race.value);
      i := i + 1;
    }
    return Success(reg);
  }

  /** The table, hybrid-race assignments and race count after the first `n`
      morphs have been registered. */
  ghost predicate RegisteredPrefix<R>(reg: Registry<R>, morphs: seq<MorphDef>, n: nat)
  {
    && n <= |morphs|
    && |reg.races| == n && |reg.morphs| == n
    && (forall j :: 0 <= j < n ==> reg.morphs[j] == AfterRegistration(morphs[j], j))
    && (forall j :: 0 <= j < n ==> Implied(j) in reg.lookup && reg.lookup[Implied(j)] == reg.morphs[j])
    && (forall x :: x in reg.lookup <==> IsRegisteredRef(morphs, n, x))
    && (forall j :: 0 <= j < n && morphs[j].explicitHybridRace.Some? && LastToName(morphs, n, j) ==>
          && Existing(morphs[j].explicitHybridRace.value) in reg.lookup
          && reg.lookup[Existing(morphs[j].explicitHybridRace.value)] == reg.morphs[j])
  }

  /** Registering the next morph extends the prefix by one. */
  lemma RegisterStep<R>(reg: Registry<R>, morphs: seq<MorphDef>, n: nat, race: R)
    requires RegisteredPrefix(reg, morphs, n) && n < |morphs|
    ensures RegisteredPrefix(Register(reg, morphs[n], race), morphs, n + 1)
    ensures Register(reg, morphs[n], race).races == reg.races + [race]
  {
    var next := Register(reg, morphs[n], race);
    assert next.morphs == reg.morphs + [AfterRegistration(morphs[n], n)];
    RegisterStepImplied(reg, morphs, n, race);
    RegisterStepKeys(reg, morphs, n, race);
    RegisterStepExplicit(reg, morphs, n, race);
  }

  /** After the step, every generated race so far maps to its morph. */
  lemma RegisterStepImplied<R>(reg: Registry<R>, morphs: seq<MorphDef>, n: nat, race: R)
    requires RegisteredPrefix(reg, morphs, n) && n < |morphs|
    ensures var next := Register(reg, morphs[n], race);
      forall j :: 0 <= j < n + 1 ==> Implied(j) in next.lookup && next.lookup[Implied(j)] == next.morphs[j]
  {
    var next := Register(reg, morphs[n], race);
    assert next.morphs == reg.morphs + [AfterRegistration(morphs[n], n)];
    forall j | 0 <= j < n + 1
      ensures Implied(j) in next.lookup && next.lookup[Implied(j)] == next.morphs[j]
    {
      if j < n {
        assert Implied(j) in reg.lookup;
      }
    }
  }

  /** After the step, the table's keys are the refs registered by the first
      `n + 1` morphs. */
  lemma RegisterStepKeys<R>(reg: Registry<R>, morphs: seq<MorphDef>, n: nat, race: R)
    requires RegisteredPrefix(reg, morphs, n) && n < |morphs|
    ensures var next := Register(reg, morphs[n], race);
      forall x :: x in next.lookup <==> IsRegisteredRef(morphs, n + 1, x)
  {
    var next := Register(reg, morphs[n], race);
    var e := morphs[n].explicitHybridRace;
    forall x
      ensures x in next.lookup <==> IsRegisteredRef(morphs, n + 1, x)
    {
      if x.Existing? {
        if IsRegisteredRef(morphs, n + 1, x) && e != Some(x.defName) {
          var i :| 0 <= i < n + 1 && morphs[i].explicitHybridRace == Some(x.defName);
          assert IsRegisteredRef(morphs, n, x);
        }
        if x in reg.lookup {
          assert IsRegisteredRef(morphs, n, x);
          var i :| 0 <= i < n && morphs[i].explicitHybridRace == Some(x.defName);
          assert IsRegisteredRef(morphs, n + 1, x);
        }
      }
    }
  }

  /** After the step, each explicit race maps to the last morph naming it. */
  lemma RegisterStepExplicit<R>(reg: Registry<R>, morphs: seq<MorphDef>, n: nat, race: R)
    requires RegisteredPrefix(reg, morphs, n) && n < |morphs|
    ensures var next := Register(reg, morphs[n], race);
      forall j :: 0 <= j < n + 1 && morphs[j].explicitHybridRace.Some? && LastToName(morphs, n + 1, j) ==>
        && Existing(morphs[j].explicitHybridRace.value) in next.lookup
        && next.lookup[Existing(morphs[j].explicitHybridRace.value)] == next.morphs[j]
  {
    var next := Register(reg, morphs[n], race);
    var e := morphs[n].explicitHybridRace;
    assert next.morphs == reg.morphs + [AfterRegistration(morphs[n], n)];
    forall j | 0 <= j < n + 1 && morphs[j].explicitHybridRace.Some? && LastToName(morphs, n + 1, j)
      ensures Existing(morphs[j].explicitHybridRace.value) in next.lookup
      ensures next.lookup[Existing(morphs[j].explicitHybridRace.value)] == next.morphs[j]
    {
      if j < n {
        assert LastToName(morphs, n, j);
        assert e != morphs[j].explicitHybridRace;
      }
    }
  }

  /** `GenerateAllImpliedRaces()` run to completion by `ImplicitRaces`: the
      cast of the human def, then one iteration per morph. An exception ends
      the pass; it is the `Failure` here. */
  method GenerateAllImpliedRaces(human: ThingDef, morphs: seq<MorphDef>, sqrt: real -> real, blank: GraphicPaths, meshesOk: ImpliedRace -> bool)
    returns (r: Result<Registry<ImpliedRace>, RaceError>)
    requires IsSquareRootLike(sqrt)
    requires AllPositiveMetabolism(human, morphs)
    ensures human.alienRace.None? ==> r == Failure(HumanNotAlienRace)
    ensures human.alienRace.Some? ==>
      (r.Success? <==> forall i :: 0 <= i < |morphs| ==> BuildRace(human, morphs[i], sqrt, blank, meshesOk).Success?)
    ensures r.Success? ==> |r.value.races| == |morphs| && |r.value.morphs| == |morphs|
    ensures r.Success? ==> forall i :: 0 <= i < |morphs| ==>
      r.value.races[i] == BuildRace(human, morphs[i], sqrt, blank, meshesOk).value
    ensures r.Success? ==> forall i :: 0 <= i < |morphs| ==>
      Implied(i) in r.value.lookup && r.value.lookup[Implied(i)] == r.value.morphs[i]
    ensures r.Success? ==> forall x :: x in r.value.lookup <==> IsRegisteredRef(morphs, |morphs|, x)
    ensures human.alienRace.Some? && r.Failure? ==> exists i :: (
      && 0 <= i < |morphs|
      && BuildRace(human, morphs[i], sqrt, blank, meshesOk).Failure?
      && (forall j :: 0 <= j < i ==> BuildRace(human, morphs[j], sqrt, blank, meshesOk).Success?)
      && r.error == BuildRace(human, morphs[i], sqrt, blank, meshesOk).error)
    ensures r.Success? ==> forall i :: 0 <= i < |morphs| ==>
      && r.value.morphs[i].(hybridRaceDef := morphs[i].hybridRaceDef) == morphs[i]
      && (morphs[i].explicitHybridRace.None? ==> r.value.morphs[i].hybridRaceDef == Some(Implied(i)))
      && (morphs[i].explicitHybridRace.Some? ==> r.value.morphs[i] == morphs[i])
    ensures r.Success? ==> forall i :: 0 <= i < |morphs| && morphs[i].explicitHybridRace.Some? && LastToName(morphs, |morphs|, i) ==>
      && Existing(morphs[i].explicitHybridRace.value) in r.value.lookup
      && r.value.lookup[Existing(morphs[i].explicitHybridRace.value)] == r.value.morphs[i]
  {
    if human.alienRace.None? {
      return Failure(HumanNotAlienRace);
    }
    var build := (m: MorphDef) requires HasPositiveMetabolism(m.race.race) => BuildRace(human, m, sqrt, blank, meshesOk);
    assert forall i :: 0 <= i < |morphs| ==> build.requires(morphs[i]);
    r := RegisterAll(morphs, build);
    assert forall i :: 0 <= i < |morphs| ==> build(morphs[i]) == BuildRace(human, morphs[i], sqrt, blank, meshesOk);
  }

  /** `TryGetMorphOfRace(race, out result)` / `GetMorphOfRace(race)`: the
      table's `TryGetValue`, which throws on a null key. */
  function TryGetMorphOfRace<R>(reg: Registry<R>, race: Option<RaceRef>): (r: Result<Option<MorphDef>, RaceError>)
    ensures race.None? <==> r.Failure?
    ensures r.Failure? ==> r.error == RaceArgumentNull
    ensures r.Success? ==> (r.value.Some? <==> race.value in reg.lookup)
    ensures r.Success? && r.value.Some? ==> r.value.value == reg.lookup[race.value]
  {
    if race.None? then Failure(RaceArgumentNull)
    else if race.value in reg.lookup then Success(Some(reg.lookup[race.value]))
    else Success(None)
  }

  /** `IsMorphRace(raceDef)`; a null argument throws. */
  function IsMorphRace<R>(reg: Registry<R>, race: Option<RaceRef>): (r: Result<bool, RaceError>)
    ensures race.None? <==> r.Failure?
    ensures r.Failure? ==> r.error == RaceArgumentNull
    ensures r.Success? ==> (r.value <==> TryGetMorphOfRace(reg, race).value.Some?)
  {
    if race.None? then Failure(RaceArgumentNull) else Success(race.value in reg.lookup)
  }

  /** After a successful pass, a race is a morph race exactly when it is one
      of the generated races or some morph's explicit hybrid race. */
  lemma MorphRacesAfterGeneration<R>(reg: Registry<R>, morphs: seq<MorphDef>, x: RaceRef)
    requires forall y :: y in reg.lookup <==> IsRegisteredRef(morphs, |morphs|, y)
    ensures IsMorphRace(reg, Some(x)) == Success(IsRegisteredRef(morphs, |morphs|, x))
  {
  }
}
