/** Positional remapping of life stages (`MakeLifeStages`): every human stage
    is kept with its age threshold and stage def, and takes its creature
    sounds from the animal stage at the same relative position. */
module LifeStages {
  import opened Wrappers
  import opened RaceTypes

  /** The animal stage used for human stage `i` of `m`: floor(i * n / m). */
  function AnimalStageIndex(i: nat, n: nat, m: nat): (j: nat)
    requires i < m
    ensures n > 0 ==> j < n
  {
    if n > 0 then QuotientBelow(i * n, m, n); i * n / m else i * n / m
  }

  lemma QuotientBelow(a: nat, m: nat, n: nat)
    requires 0 < m && a < m * n
    ensures a / m < n
  {
    var q := a / m;
    assert q * m <= a < n * m;
    LessFromProduct(q, n, m);
  }

  lemma ProductMonotone(x: int, y: int, m: nat)
    ensures x <= y ==> x * m <= y * m
  {
    if x <= y {
      assert y * m - x * m == (y - x) * m;
    }
  }

  lemma LessFromProduct(x: int, y: int, m: nat)
    ensures x * m < y * m ==> x < y
  {
    ProductMonotone(y, x, m);
  }

  /** Human stage `h` with the sounds of animal stage `a`. */
  function WithSoundsOf(h: LifeStageAge, a: LifeStageAge): LifeStageAge
  {
    h.(soundAngry := a.soundAngry, soundCall := a.soundCall,
       soundDeath := a.soundDeath, soundWounded := a.soundWounded)
  }

  predicate SameSounds(x: LifeStageAge, y: LifeStageAge)
  {
    x.soundAngry == y.soundAngry && x.soundCall == y.soundCall &&
    x.soundDeath == y.soundDeath && x.soundWounded == y.soundWounded
  }

  /** `MakeLifeStages(human, animal)`. Indexing an empty animal list throws,
      which happens exactly when the human has stages and the animal none. */
  function MakeLifeStages(human: seq<LifeStageAge>, animal: seq<LifeStageAge>): (r: Result<seq<LifeStageAge>, RaceError>)
    ensures r.Failure? <==> |human| > 0 && |animal| == 0
    ensures r.Failure? ==> r.error == AnimalLifeStageOutOfRange
    ensures r.Success? ==> |r.value| == |human|
    ensures r.Success? ==> forall i :: 0 <= i < |human| ==>
      && r.value[i].minAge == human[i].minAge
      && r.value[i].def == human[i].def
      && SameSounds(r.value[i], animal[AnimalStageIndex(i, |animal|, |human|)])
  {
    if |human| > 0 && |animal| == 0 then
      Failure(AnimalLifeStageOutOfRange)
    else
      Success(seq(|human|, i requires 0 <= i < |human| =>
        WithSoundsOf(human[i], animal[AnimalStageIndex(i, |animal|, |human|)])))
  }

  /** Later human stages never draw on earlier animal stages. */
  lemma {:induction false} AnimalStageIndexMonotone(i: nat, k: nat, n: nat, m: nat)
    requires i <= k < m
    ensures AnimalStageIndex(i, n, m) <= AnimalStageIndex(k, n, m)
  {
    assert i * n <= k * n;
    QuotientMonotone(i * n, k * n, m);
  }

  lemma QuotientMonotone(a: nat, b: nat, m: nat)
    requires 0 < m && a <= b
    ensures a / m <= b / m
  {
    var p, q := a / m, b / m;
    assert p * m <= a <= b < (q + 1) * m;
    LessFromProduct(p, q + 1, m);
  }

  /** With as many animal stages as human stages the remap is the identity. */
  lemma {:induction false} EqualCountsPairStagesInOrder(i: nat, m: nat)
    requires i < m
    ensures AnimalStageIndex(i, m, m) == i
  {
    var q := i * m / m;
    assert q * m <= i * m < (q + 1) * m;
    LessFromProduct(q, i + 1, m);
    LessFromProduct(i, q + 1, m);
  }

  predicate AgesAscending(stages: seq<LifeStageAge>)
  {
    forall i, j :: 0 <= i < j < |stages| ==> stages[i].minAge <= stages[j].minAge
  }

  /** The result keeps the human's age order, and the first stage always gets
      the animal's first stage's sounds. */
  lemma {:induction false} MakeLifeStagesKeepsOrder(human: seq<LifeStageAge>, animal: seq<LifeStageAge>)
    requires AgesAscending(human)
    requires MakeLifeStages(human, animal).Success?
    ensures AgesAscending(MakeLifeStages(human, animal).value)
    ensures |human| > 0 ==> SameSounds(MakeLifeStages(human, animal).value[0], animal[0])
  {
    var r := MakeLifeStages(human, animal).value;
    forall i, j | 0 <= i < j < |r|
      ensures r[i].minAge <= r[j].minAge
    {
      assert r[i].minAge == human[i].minAge && r[j].minAge == human[j].minAge;
    }
    if |human| > 0 {
      assert AnimalStageIndex(0, |animal|, |human|) == 0;
    }
  }
}
