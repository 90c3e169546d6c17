/** The capacity-level postfix: after the host has computed a capacity level
    from a pawn's hediffs, the pawn's aspects may lower it. Aspect modifiers
    for the queried capacity are folded with a fixed algebra (sum of offsets,
    product of post-factors, minimum of the defined caps) on top of an
    uncapped recomputation of the hediff-based level, and the host's value
    is replaced by the smaller of the two. */
module CapacityPatch {
  import opened Wrappers
  import opened MergeAlgebra

  /** `PawnCapacityModifier`; `setMax == None` is `SetMaxDefined == false`. */
  datatype CapacityModifier = CapacityModifier(capacity: string, offset: real, postFactor: real, setMax: Option<real>)

  /** An aspect as the postfix sees it: `HasCapMods` and `CapMods`. */
  datatype Aspect = Aspect(name: string, hasCapMods: bool, capMods: seq<CapacityModifier>)

  /** A hediff as the recomputation sees it; `CapMods` may be null. */
  datatype Hediff = Hediff(name: string, capMods: Option<seq<CapacityModifier>>)

  /** An entry of the host's impactor list: the postfix adds the aspect
      kind, the host itself adds the others. */
  datatype CapacityImpactor = AspectImpactor(aspect: Aspect) | HostImpactor(name: string)

  /** The modifiers of `mods` that target `capacity`, in order. */
  function Matching(mods: seq<CapacityModifier>, capacity: string): seq<CapacityModifier>
  {
    if |mods| == 0 then []
    else
      var last := mods[|mods| - 1];
      Matching(mods[..|mods| - 1], capacity) + (if last.capacity == capacity then [last] else [])
  }

  /** `Matching` keeps exactly the modifiers that target the capacity. */
  lemma {:induction false} MatchingSelects(mods: seq<CapacityModifier>, capacity: string)
    ensures forall m :: m in Matching(mods, capacity) <==> m in mods && m.capacity == capacity
    decreases |mods|
  {
    if |mods| > 0 {
      var init := mods[..|mods| - 1];
      MatchingSelects(init, capacity);
      assert mods == init + [mods[|mods| - 1]];
    }
  }

  /** The matching modifiers of every aspect with `HasCapMods`, in the
      order the postfix visits them. */
  function AspectMods(aspects: seq<Aspect>, capacity: string): seq<CapacityModifier>
  {
    if |aspects| == 0 then []
    else
      var last := aspects[|aspects| - 1];
      AspectMods(aspects[..|aspects| - 1], capacity) + (if last.hasCapMods then Matching(last.capMods, capacity) else [])
  }

  /** The matching modifiers of every hediff whose `CapMods` is not null. */
  function HediffMods(hediffs: seq<Hediff>, capacity: string): seq<CapacityModifier>
  {
    if |hediffs| == 0 then []
    else
      var last := hediffs[|hediffs| - 1];
      HediffMods(hediffs[..|hediffs| - 1], capacity) + (if last.capMods.Some? then Matching(last.capMods.value, capacity) else [])
  }

  function SumOffsets(mods: seq<CapacityModifier>): real
  {
    if |mods| == 0 then 0.0 else SumOffsets(mods[..|mods| - 1]) + mods[|mods| - 1].offset
  }

  function ProductFactors(mods: seq<CapacityModifier>): real
  {
    if |mods| == 0 then 1.0 else ProductFactors(mods[..|mods| - 1]) * mods[|mods| - 1].postFactor
  }

  /** The running `setMax`: `None` is `float.PositiveInfinity`, and a
      defined cap replaces it only when it is smaller. */
  function MinCap(mods: seq<CapacityModifier>): Option<real>
  {
    if |mods| == 0 then None
    else
      var prior := MinCap(mods[..|mods| - 1]);
      var last := mods[|mods| - 1];
      if last.setMax.Some? && (prior.None? || last.setMax.value < prior.value) then last.setMax else prior
  }

  /** The running cap is the minimum of the defined caps: infinite exactly
      when none is defined, otherwise one of them and no larger than any. */
  lemma {:induction false} MinCapIsMinimum(mods: seq<CapacityModifier>)
    ensures MinCap(mods).None? <==> forall k :: 0 <= k < |mods| ==> mods[k].setMax.None?
    ensures MinCap(mods).Some? ==> forall k :: 0 <= k < |mods| && mods[k].setMax.Some? ==> MinCap(mods).value <= mods[k].setMax.value
    ensures MinCap(mods).Some? ==> exists k :: 0 <= k < |mods| && mods[k].setMax == MinCap(mods)
    decreases |mods|
  {
    if |mods| > 0 {
      var init := mods[..|mods| - 1];
      MinCapIsMinimum(init);
      assert forall k :: 0 <= k < |init| ==> init[k] == mods[k];
      if MinCap(mods) != mods[|mods| - 1].setMax {
        var k :| 0 <= k < |init| && init[k].setMax == MinCap(init);
        assert mods[k].setMax == MinCap(mods);
      }
    }
  }

  /** `Mathf.Min(x, cap)` with an infinite cap written `None`. */
  function CapAt(x: real, cap: Option<real>): real
  {
    if cap.None? then x else Min(x, cap.value)
  }

  /** An infinite cap leaves the value alone; a finite one bounds it and
      only ever lowers it to the cap itself. */
  lemma CapAtBounds(x: real, cap: Option<real>)
    ensures CapAt(x, cap) <= x
    ensures cap.None? ==> CapAt(x, cap) == x
    ensures cap.Some? ==> CapAt(x, cap) <= cap.value && (CapAt(x, cap) == x || CapAt(x, cap) == cap.value)
  {
  }

  /** How many of the aspects have `HasCapMods`. */
  function CapModAspectCount(aspects: seq<Aspect>): nat
  {
    if |aspects| == 0 then 0
    else CapModAspectCount(aspects[..|aspects| - 1]) + (if aspects[|aspects| - 1].hasCapMods then 1 else 0)
  }

  /** The impactors the postfix appends: one per aspect with `HasCapMods`. */
  function AspectImpactors(aspects: seq<Aspect>): (r: seq<CapacityImpactor>)
    ensures |r| == CapModAspectCount(aspects)
  {
    if |aspects| == 0 then []
    else
      var last := aspects[|aspects| - 1];
      AspectImpactors(aspects[..|aspects| - 1]) + (if last.hasCapMods then [AspectImpactor(last)] else [])
  }

  /** What `GetTotalCapacityOffset` is meant to compute: the worker's level
      plus the matching hediff offsets, times their post-factors, with no cap. */
  function UncappedLevel(workerLevel: real, hediffs: seq<Hediff>, capacity: string): real
  {
    var mods := HediffMods(hediffs, capacity);
    (workerLevel + SumOffsets(mods)) * ProductFactors(mods)
  }

  /** The value the postfix compares the host's result with. */
  function AspectLevel(aspects: seq<Aspect>, uncapped: real, capacity: string): real
  {
    var mods := AspectMods(aspects, capacity);
    CapAt((SumOffsets(mods) + uncapped) * ProductFactors(mods), MinCap(mods))
  }

  lemma SumOffsetsAppend(xs: seq<CapacityModifier>, ys: seq<CapacityModifier>)
    ensures SumOffsets(xs + ys) == SumOffsets(xs) + SumOffsets(ys)
    decreases |ys|
  {
    if |ys| > 0 {
      var zs := xs + ys;
      assert zs[..|zs| - 1] == xs + ys[..|ys| - 1];
      SumOffsetsAppend(xs, ys[..|ys| - 1]);
    } else {
      assert xs + ys == xs;
    }
  }

  lemma ProductFactorsAppend(xs: seq<CapacityModifier>, ys: seq<CapacityModifier>)
    ensures ProductFactors(xs + ys) == ProductFactors(xs) * ProductFactors(ys)
    decreases |ys|
  {
    if |ys| > 0 {
      var zs := xs + ys;
      assert zs[..|zs| - 1] == xs + ys[..|ys| - 1];
      ProductFactorsAppend(xs, ys[..|ys| - 1]);
    } else {
      assert xs + ys == xs;
    }
  }

  /** The fold does not care in which aspect a modifier sits: offsets add
      and factors multiply across a split of the modifier list. */
  lemma {:induction false} AspectModsAppend(as1: seq<Aspect>, as2: seq<Aspect>, capacity: string)
    ensures AspectMods(as1 + as2, capacity) == AspectMods(as1, capacity) + AspectMods(as2, capacity)
    decreases |as2|
  {
    if |as2| == 0 {
      assert as1 + as2 == as1;
    } else {
      var all := as1 + as2;
      assert all[..|all| - 1] == as1 + as2[..|as2| - 1];
      AspectModsAppend(as1, as2[..|as2| - 1], capacity);
    }
  }

  /** One more modifier seen by the loop over a modifier list. */
  lemma MatchingStep(mods: seq<CapacityModifier>, j: nat, capacity: string)
    requires j < |mods|
    ensures Matching(mods[..j + 1], capacity) == Matching(mods[..j], capacity) + (if mods[j].capacity == capacity then [mods[j]] else [])
  {
    assert mods[..j + 1][..j] == mods[..j];
  }

  /** One more matching modifier folded into the running offset, factor and cap. */
  lemma SumStep(seen: seq<CapacityModifier>, m: CapacityModifier)
    ensures SumOffsets(seen + [m]) == SumOffsets(seen) + m.offset
  {
    assert (seen + [m])[..|seen|] == seen;
  }

  lemma ProductStep(seen: seq<CapacityModifier>, m: CapacityModifier)
    ensures ProductFactors(seen + [m]) == ProductFactors(seen) * m.postFactor
  {
    assert (seen + [m])[..|seen|] == seen;
  }

  lemma ProductAfter(seen: seq<CapacityModifier>, m: CapacityModifier, p: real)
    requires p == ProductFactors(seen)
    ensures p * m.postFactor == ProductFactors(seen + [m])
  {
    ProductStep(seen, m);
  }

  lemma MinCapStep(seen: seq<CapacityModifier>, m: CapacityModifier)
    ensures MinCap(seen + [m]) == (if m.setMax.Some? && (MinCap(seen).None? || m.setMax.value < MinCap(seen).value) then m.setMax else MinCap(seen))
  {
    assert (seen + [m])[..|seen|] == seen;
  }

  /** One more hediff, or one more aspect, visited by an outer loop. */
  lemma HediffModsStep(hediffs: seq<Hediff>, i: nat, capacity: string)
    requires i < |hediffs|
    ensures HediffMods(hediffs[..i + 1], capacity) ==
      HediffMods(hediffs[..i], capacity) + (if hediffs[i].capMods.Some? then Matching(hediffs[i].capMods.value, capacity) else [])
  {
    assert hediffs[..i + 1][..i] == hediffs[..i];
  }

  lemma AspectStep(aspects: seq<Aspect>, i: nat, capacity: string)
    requires i < |aspects|
    ensures AspectMods(aspects[..i + 1], capacity) ==
      AspectMods(aspects[..i], capacity) + (if aspects[i].hasCapMods then Matching(aspects[i].capMods, capacity) else [])
    ensures AspectImpactors(aspects[..i + 1]) ==
      AspectImpactors(aspects[..i]) + (if aspects[i].hasCapMods then [AspectImpactor(aspects[i])] else [])
  {
    assert aspects[..i + 1][..i] == aspects[..i];
  }

  /** The running values the postfix holds after its aspect loop, once the
      uncapped level is added, give the capped level they stand for. */
  lemma CappedRunningValues(sum: real, product: real, cap: Option<real>, uncapped: real, offset: real, postFix: real, setMax: Option<real>)
    requires offset == sum + uncapped && postFix == product && setMax == cap
    ensures CapAt(offset * postFix, setMax) == CapAt((sum + uncapped) * product, cap)
  {
  }

  /** The inner loop of `GetTotalCapacityOffset` over one hediff's `CapMods`:
      `seen` is what the running values stand for so far. */
  method AddHediffMods(mods: seq<CapacityModifier>, capacity: string, num: real, num3: real,
                       ghost base: real, ghost seen: seq<CapacityModifier>)
    returns (num': real, num3': real)
    requires num == base + SumOffsets(seen) && num3 == ProductFactors(seen)
    ensures num' == base + SumOffsets(seen + Matching(mods, capacity))
    ensures num3' == ProductFactors(seen + Matching(mods, capacity))
  {
    num', num3' := num, num3;
    ghost var acc := seen;
    var j := 0;
    assert seen + Matching(mods[..0], capacity) == seen;
    while j < |mods|
      invariant 0 <= j <= |mods|
      invariant acc == seen + Matching(mods[..j], capacity)
      invariant num' == base + SumOffsets(acc)
      invariant num3' == ProductFactors(acc)
    {
      var mod := mods[j];
      MatchingStep(mods, j, capacity);
      if mod.capacity == capacity {
        SumStep(acc, mod);
        ProductAfter(acc, mod, num3');
        num' := num' + mod.offset;
        num3' := num3' * mod.postFactor;
        acc := acc + [mod];
      }
      j := j + 1;
    }
    assert mods[..j] == mods;
  }

  /** `GetTotalCapacityOffset(hSet, capacity)`, with the worker's
      `CalculateCapacityLevel(hSet)` given as `workerLevel`. */
  method GetTotalCapacityOffset(hediffs: seq<Hediff>, capacity: string, workerLevel: real) returns (r: real)
    ensures r == UncappedLevel(workerLevel, hediffs, capacity)
  {
    var num := workerLevel;
    var num3 := 1.0;
    var i := 0;
    while i < |hediffs|
      invariant 0 <= i <= |hediffs|
      invariant num == workerLevel + SumOffsets(HediffMods(hediffs[..i], capacity))
      invariant num3 == ProductFactors(HediffMods(hediffs[..i], capacity))
    {
      HediffModsStep(hediffs, i, capacity);
      var capMods := hediffs[i].capMods;
      if capMods.Some? {
        num, num3 := AddHediffMods(capMods.value, capacity, num, num3, workerLevel, HediffMods(hediffs[..i], capacity));
      } else {
        assert HediffMods(hediffs[..i], capacity) + [] == HediffMods(hediffs[..i], capacity);
      }
      i := i + 1;
    }
    assert hediffs[..i] == hediffs;
    r := num * num3;
  }

  /** The inner loop of the postfix over one aspect's `CapMods`. */
  method AddAspectMods(mods: seq<CapacityModifier>, capacity: string, offset: real, postFix: real, setMax: Option<real>,
                       ghost seen: seq<CapacityModifier>)
    returns (offset': real, postFix': real, setMax': Option<real>)
    requires offset == SumOffsets(seen) && postFix == ProductFactors(seen) && setMax == MinCap(seen)
    ensures offset' == SumOffsets(seen + Matching(mods, capacity))
    ensures postFix' == ProductFactors(seen + Matching(mods, capacity))
    ensures setMax' == MinCap(seen + Matching(mods, capacity))
  {
    offset', postFix', setMax' := offset, postFix, setMax;
    ghost var acc := seen;
    var j := 0;
    assert seen + Matching(mods[..0], capacity) == seen;
    while j < |mods|
      invariant 0 <= j <= |mods|
      invariant acc == seen + Matching(mods[..j], capacity)
      invariant offset' == SumOffsets(acc)
      invariant postFix' == ProductFactors(acc)
      invariant setMax' == MinCap(acc)
    {
      var capMod := mods[j];
      MatchingStep(mods, j, capacity);
      if capMod.capacity == capacity {
        SumStep(acc, capMod);
        ProductAfter(acc, capMod, postFix');
        MinCapStep(acc, capMod);
        offset' := offset' + capMod.offset;
        postFix' := postFix' * capMod.postFactor;
        acc := acc + [capMod];
        if capMod.setMax.Some? && (setMax'.None? || capMod.setMax.value < setMax'.value) {
          setMax' := capMod.setMax;
        }
      }
      j := j + 1;
    }
    assert mods[..j] == mods;
  }

  /** The postfix's `foreach (Aspect aspect in aspectTracker.Aspects)`:
      the running offset, post-factor and cap over the aspects' matching
      modifiers, and the impactor list with the aspects appended. */
  method FoldAspects(aspects: seq<Aspect>, capacity: string, impactors: Option<seq<CapacityImpactor>>)
    returns (offset: real, postFix: real, setMax: Option<real>, newImpactors: Option<seq<CapacityImpactor>>)
    ensures offset == SumOffsets(AspectMods(aspects, capacity))
    ensures postFix == ProductFactors(AspectMods(aspects, capacity))
    ensures setMax == MinCap(AspectMods(aspects, capacity))
    ensures newImpactors == (if impactors.None? then None else Some(impactors.value + AspectImpactors(aspects)))
  {
    offset, postFix, setMax, newImpactors := 0.0, 1.0, None, impactors;
    var i := 0;
    assert impactors.Some? ==> impactors.value + AspectImpactors(aspects[..0]) == impactors.value;
    while i < |aspects|
      invariant 0 <= i <= |aspects|
      invariant offset == SumOffsets(AspectMods(aspects[..i], capacity))
      invariant postFix == ProductFactors(AspectMods(aspects[..i], capacity))
      invariant setMax == MinCap(AspectMods(aspects[..i], capacity))
      invariant newImpactors == (if impactors.None? then None else Some(impactors.value + AspectImpactors(aspects[..i])))
    {
      var aspect := aspects[i];
      AspectStep(aspects, i, capacity);
      if aspect.hasCapMods {
        offset, postFix, setMax := AddAspectMods(aspect.capMods, capacity, offset, postFix, setMax, AspectMods(aspects[..i], capacity));
        if newImpactors.Some? {
          newImpactors := Some(newImpactors.value + [AspectImpactor(aspect)]);
          assert newImpactors.value == impactors.value + AspectImpactors(aspects[..i + 1]);
        }
      } else {
        assert AspectMods(aspects[..i], capacity) + [] == AspectMods(aspects[..i], capacity);
        assert AspectImpactors(aspects[..i]) + [] == AspectImpactors(aspects[..i]);
      }
      i := i + 1;
    }
    assert aspects[..i] == aspects;
  }

  /** Lines 39-63 of the postfix: the aspect loop, then the uncapped level
      shifted and scaled by the aspects' modifiers and capped by their cap. */
  method AspectCappedLevel(aspects: seq<Aspect>, capacity: string, uncapped: real, impactors: Option<seq<CapacityImpactor>>)
    returns (level: real, newImpactors: Option<seq<CapacityImpactor>>)
    ensures level == AspectLevel(aspects, uncapped, capacity)
    ensures newImpactors == (if impactors.None? then None else Some(impactors.value + AspectImpactors(aspects)))
  {
    var offset, postFix, setMax;
    offset, postFix, setMax, newImpactors := FoldAspects(aspects, capacity, impactors);
    ghost var mods := AspectMods(aspects, capacity);
    offset := offset + uncapped;
    CappedRunningValues(SumOffsets(mods), ProductFactors(mods), MinCap(mods), uncapped, offset, postFix, setMax);
    level := CapAt(offset * postFix, setMax);
  }

  /** `GetCapacityLvPatch.Postfix`. `tracker` is the pawn's aspect tracker
      (its aspects, or null), `hediffs` its hediff set, `workerLevel` the
      capacity worker's level for that set, and `impactors` the host's list
      (or null). The `minValue` floor and the rounding on line 66 compute a
      value that is thrown away, so they do not appear. */
  method Postfix(result: real, tracker: Option<seq<Aspect>>, hediffs: seq<Hediff>, capacity: string,
                 workerLevel: real, impactors: Option<seq<CapacityImpactor>>)
    returns (newResult: real, newImpactors: Option<seq<CapacityImpactor>>)
    ensures newResult <= result
    ensures tracker.None? || result <= 0.0 ==> newResult == result && newImpactors == impactors
    ensures tracker.Some? && result > 0.0 ==>
      newResult == Min(result, AspectLevel(tracker.value, UncappedLevel(workerLevel, hediffs, capacity), capacity))
    ensures tracker.Some? && result > 0.0 ==>
      newImpactors == (if impactors.None? then None else Some(impactors.value + AspectImpactors(tracker.value)))
  {
    newResult, newImpactors := result, impactors;
    if tracker.Some? && result > 0.0 {
      var uncapped := GetTotalCapacityOffset(hediffs, capacity, workerLevel);
      var level;
      level, newImpactors := AspectCappedLevel(tracker.value, capacity, uncapped, impactors);
      newResult := Min(result, level);
    }
  }

  /** The cap is the smallest defined one, wherever it sits: caps 10 and 15
      give 10, and an undefined cap does not lift the other's. */
  lemma CapPrecedenceExample(capacity: string)
    ensures MinCap([CapacityModifier(capacity, 0.0, 1.0, Some(15.0)), CapacityModifier(capacity, 0.0, 1.0, Some(10.0))]) == Some(10.0)
    ensures MinCap([CapacityModifier(capacity, 0.0, 1.0, Some(10.0)), CapacityModifier(capacity, 0.0, 1.0, Some(15.0))]) == Some(10.0)
    ensures MinCap([CapacityModifier(capacity, 0.0, 1.0, None), CapacityModifier(capacity, 0.0, 1.0, Some(15.0))]) == Some(15.0)
    ensures MinCap([CapacityModifier(capacity, 0.0, 1.0, Some(15.0)), CapacityModifier(capacity, 0.0, 1.0, None)]) == Some(15.0)
  {
    var m10 := CapacityModifier(capacity, 0.0, 1.0, Some(10.0));
    var m15 := CapacityModifier(capacity, 0.0, 1.0, Some(15.0));
    var noCap := CapacityModifier(capacity, 0.0, 1.0, None);
    MinCapPair(m15, m10);
    MinCapPair(m10, m15);
    MinCapPair(noCap, m15);
    MinCapPair(m15, noCap);
  }

  lemma MinCapPair(a: CapacityModifier, b: CapacityModifier)
    ensures MinCap([a, b]) == (if b.setMax.Some? && (a.setMax.None? || b.setMax.value < a.setMax.value) then b.setMax else a.setMax)
  {
    assert [a, b][..1] == [a];
    assert [a][..0] == [];
    assert MinCap([a]) == a.setMax;
  }

  /** Aspects without cap mods change nothing: neither the level nor the
      impactors they would add. */
  lemma {:induction false} AspectsWithoutCapModsAreInert(aspects: seq<Aspect>, capacity: string)
    requires forall k :: 0 <= k < |aspects| ==> !aspects[k].hasCapMods
    ensures AspectMods(aspects, capacity) == []
    ensures AspectImpactors(aspects) == []
    decreases |aspects|
  {
    if |aspects| > 0 {
      AspectsWithoutCapModsAreInert(aspects[..|aspects| - 1], capacity);
    }
  }

  /** Aspects none of whose cap mods target the capacity leave the level
      at the uncapped recomputation: the postfix still takes the minimum
      with it, so it can lower the host's result. */
  lemma {:induction false} UnmatchedAspectsGiveUncappedLevel(aspects: seq<Aspect>, uncapped: real, capacity: string)
    requires forall k :: 0 <= k < |aspects| ==> !aspects[k].hasCapMods || Matching(aspects[k].capMods, capacity) == []
    ensures AspectMods(aspects, capacity) == []
    ensures AspectLevel(aspects, uncapped, capacity) == uncapped
    decreases |aspects|
  {
    if |aspects| > 0 {
      UnmatchedAspectsGiveUncappedLevel(aspects[..|aspects| - 1], uncapped, capacity);
    }
  }

  /** A pawn with an aspect tracker but no aspects: a host result of 1.0
      above the recomputed level 0.5 is lowered to 0.5. */
  method RecomputeLowersResultExample(capacity: string) returns (newResult: real)
    ensures newResult == 0.5
  {
    UnmatchedAspectsGiveUncappedLevel([], 0.5, capacity);
    assert UncappedLevel(0.5, [], capacity) == 0.5;
    var impactors;
    newResult, impactors := Postfix(1.0, Some([]), [], capacity, 0.5, None);
  }

  /** By membership, the impactors the postfix appends are exactly the
      aspects with cap mods (`AspectImpactors` fixes their order). */
  lemma {:induction false} AspectImpactorsAreCapModAspects(aspects: seq<Aspect>)
    ensures forall x :: x in AspectImpactors(aspects) ==> x.AspectImpactor? && x.aspect in aspects && x.aspect.hasCapMods
    ensures forall a :: a in aspects && a.hasCapMods ==> AspectImpactor(a) in AspectImpactors(aspects)
    decreases |aspects|
  {
    if |aspects| > 0 {
      var init := aspects[..|aspects| - 1];
      AspectImpactorsAreCapModAspects(init);
      assert aspects == init + [aspects[|aspects| - 1]];
    }
  }
}
