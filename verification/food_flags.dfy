/** `GenerateFoodFlags`: every hybrid can eat meals. */
module FoodFlags {

  /** `FoodTypeFlags.Meal` of the host game; only its being a single bit
      matters to the properties below. */
  const Meal: bv32 := 0x100

  /** The animal's food flags with the meal bit forced on. */
  function GenerateFoodFlags(animal: bv32): (r: bv32)
    ensures r & Meal == Meal
    ensures r & !Meal == animal & !Meal
  {
    animal | Meal
  }

  /** No flag of the animal is cleared. */
  lemma FoodFlagsKeepAnimalFlags(animal: bv32)
    ensures GenerateFoodFlags(animal) & animal == animal
  {
  }

  /** Forcing the bit a second time changes nothing, and a set that already
      allows meals is returned as it is. */
  lemma FoodFlagsIdempotent(animal: bv32)
    ensures GenerateFoodFlags(GenerateFoodFlags(animal)) == GenerateFoodFlags(animal)
    ensures animal & Meal == Meal ==> GenerateFoodFlags(animal) == animal
  {
  }
}
