/**
 * The shapes of a food entry and of the analysis the language model returns
 * for it. Numbers are JavaScript numbers, modelled as reals; a field the model
 * may omit from its JSON reply is optional.
 */
module NutritionTypes {
  import opened Wrappers

  /** A food entry as the client submits it: description, time of day, date. */
  datatype FoodIntake = FoodIntake(food: string, time: string, date: string)

  datatype Macros = Macros(protein: real, carbs: real, fats: real, fiber: real)

  datatype DishAnalysis = DishAnalysis(name: string, calories: real)

  /** The parsed JSON reply of the language model for one food entry. */
  datatype NutritionAnalysis = NutritionAnalysis(
    totalCalories: Option<real>,
    macros: Option<Macros>,
    foods: seq<DishAnalysis>,
    recommendations: seq<string>)
}
