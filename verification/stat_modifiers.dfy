/** The stat-base merge (`GenerateHybridStatModifiers`): the human's stats
    are written into a dictionary, the animal's are averaged into it (or
    added when new), and the morph's stat modifiers are then added on top
    (to 0 when the stat is new). The dictionary is the result; its
    enumeration order is unspecified, so it is modelled as a map. */
module StatModifiers {
  import opened Wrappers
  import opened RaceTypes
  import opened MergeAlgebra

  /** The stats a list mentions. */
  function Stats(mods: seq<StatModifier>): (r: set<string>)
    ensures forall k :: 0 <= k < |mods| ==> mods[k].stat in r
    ensures forall s :: s in r ==> exists k :: 0 <= k < |mods| && mods[k].stat == s
  {
    if |mods| == 0 then {} else Stats(mods[..|mods| - 1]) + {mods[|mods| - 1].stat}
  }

  /** The value of the last entry for `s`, the one a dictionary write keeps. */
  function LastValue(mods: seq<StatModifier>, s: string): (r: Option<real>)
    ensures r.None? <==> s !in Stats(mods)
  {
    if |mods| == 0 then None
    else if mods[|mods| - 1].stat == s then Some(mods[|mods| - 1].value)
    else LastValue(mods[..|mods| - 1], s)
  }

  /** The total of all entries for `s`. */
  function OverrideSum(mods: seq<StatModifier>, s: string): real
  {
    if |mods| == 0 then 0.0
    else OverrideSum(mods[..|mods| - 1], s) + (if mods[|mods| - 1].stat == s then mods[|mods| - 1].value else 0.0)
  }

  lemma {:induction false} OverrideSumOfAbsentStat(mods: seq<StatModifier>, s: string)
    requires s !in Stats(mods)
    ensures OverrideSum(mods, s) == 0.0
  {
    if |mods| > 0 {
      OverrideSumOfAbsentStat(mods[..|mods| - 1], s);
    }
  }

  predicate DistinctStats(mods: seq<StatModifier>)
  {
    forall i, j :: 0 <= i < j < |mods| ==> mods[i].stat != mods[j].stat
  }

  /** The human loop: `valDict[stat] = value`. */
  function WriteHumanStats(acc: map<string, real>, mods: seq<StatModifier>): (r: map<string, real>)
    ensures r.Keys == acc.Keys + Stats(mods)
    ensures forall s :: s in r ==> r[s] == LastValue(mods, s).GetOr(if s in acc then acc[s] else 0.0)
  {
    if |mods| == 0 then acc
    else
      var m := mods[|mods| - 1];
      WriteHumanStats(acc, mods[..|mods| - 1])[m.stat := m.value]
  }

  /** The animal loop: the mean with an existing value, else the animal's. */
  function BlendAnimalStats(acc: map<string, real>, mods: seq<StatModifier>): (r: map<string, real>)
    ensures r.Keys == acc.Keys + Stats(mods)
    ensures DistinctStats(mods) ==> forall s :: s in r ==>
      r[s] == match LastValue(mods, s)
              case None => acc[s]
              case Some(v) => if s in acc then (acc[s] + v) / 2.0 else v
  {
    if |mods| == 0 then acc
    else
      var m := mods[|mods| - 1];
      var prev := BlendAnimalStats(acc, mods[..|mods| - 1]);
      if m.stat in prev then
        LerpHalfIsMean(prev[m.stat], m.value);
        prev[m.stat := Lerp(prev[m.stat], m.value, 0.5)]
      else
        prev[m.stat := m.value]
  }

  /** The override loop: `valDict.TryGetValue(stat) + value`. */
  function AddStatOverrides(acc: map<string, real>, mods: seq<StatModifier>): (r: map<string, real>)
    ensures r.Keys == acc.Keys + Stats(mods)
    ensures forall s :: s in r ==> r[s] == (if s in acc then acc[s] else 0.0) + OverrideSum(mods, s)
  {
    if |mods| == 0 then acc
    else
      var m := mods[|mods| - 1];
      var init := mods[..|mods| - 1];
      var prev := AddStatOverrides(acc, init);
      var r := prev[m.stat := (if m.stat in prev then prev[m.stat] else 0.0) + m.value];
      assert forall s :: s in r ==> r[s] == (if s in acc then acc[s] else 0.0) + OverrideSum(mods, s) by {
        forall s | s in r
          ensures r[s] == (if s in acc then acc[s] else 0.0) + OverrideSum(mods, s)
        {
          assert OverrideSum(mods, s) == OverrideSum(init, s) + (if m.stat == s then m.value else 0.0);
          if s != m.stat {
            assert s in prev;
          } else if s !in prev {
            OverrideSumOfAbsentStat(init, s);
          }
        }
      }
      r
  }

  /** The merged value a stat should end up with: the mean when both
      templates define it, the one definition otherwise, plus every override. */
  function ExpectedStat(human: seq<StatModifier>, animal: seq<StatModifier>, overrides: seq<StatModifier>, s: string): real
  {
    var base :=
      match (LastValue(human, s), LastValue(animal, s))
      case (Some(h), Some(a)) => (h + a) / 2.0
      case (Some(h), None) => h
      case (None, Some(a)) => a
      case (None, None) => 0.0;
    base + OverrideSum(overrides, s)
  }

  /** `GenerateHybridStatModifiers(humanModifiers, animalModifiers, statMods)`;
      null lists read as empty. */
  function GenerateHybridStatModifiers(human: Option<seq<StatModifier>>, animal: Option<seq<StatModifier>>, statMods: Option<seq<StatModifier>>): (r: map<string, real>)
    ensures r.Keys == Stats(OrEmpty(human)) + Stats(OrEmpty(animal)) + Stats(OrEmpty(statMods))
    ensures DistinctStats(OrEmpty(animal)) ==> forall s :: s in r ==>
      r[s] == ExpectedStat(OrEmpty(human), OrEmpty(animal), OrEmpty(statMods), s)
  {
    var h := OrEmpty(human);
    var a := OrEmpty(animal);
    var o := OrEmpty(statMods);
    var d1 := WriteHumanStats(map[], h);
    var d2 := BlendAnimalStats(d1, a);
    AddStatOverrides(d2, o)
  }
}
