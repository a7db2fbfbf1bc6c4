/** The menu page: its search filter and the enablement of its Add and Save buttons. */
module FoodPage {
  import opened Wrappers
  import opened Text
  import opened Seqs
  import opened Pricing

  /** The test `filteredFoods` applies: name or description contains the term, ignoring case. */
  predicate FoodMatches(f: Food, term: string)
  {
    Includes(ToLower(f.name), ToLower(term))
    || (f.description.Some? && Includes(ToLower(f.description.value), ToLower(term)))
  }

  /** `filteredFoods` */
  function FilteredFoods(foods: seq<Food>, term: string): seq<Food>
  {
    Filter(foods, (f: Food) => FoodMatches(f, term))
  }

  /** The result keeps a subsequence of the menu, in menu order. */
  lemma FilteredFoodsIsSubsequence(foods: seq<Food>, term: string)
    ensures IsSubsequence(FilteredFoods(foods, term), foods)
  {
    FilterIsSubsequence(foods, (f: Food) => FoodMatches(f, term));
  }

  /** A dish is listed iff it is on the menu and its name or description contains the term. */
  lemma FilteredFoodsKeepsMatches(foods: seq<Food>, term: string, f: Food)
    ensures f in FilteredFoods(foods, term)
        <==> f in foods && (Includes(ToLower(f.name), ToLower(term))
                            || (f.description.Some? && Includes(ToLower(f.description.value), ToLower(term))))
    ensures multiset(FilteredFoods(foods, term))[f] == if FoodMatches(f, term) then multiset(foods)[f] else 0
  {
    FilterMembership(foods, (f: Food) => FoodMatches(f, term), f);
    FilterCount(foods, (f: Food) => FoodMatches(f, term), f);
  }

  /** With an empty term the whole menu is listed: every dish has a name. */
  lemma EmptyTermKeepsEveryFood(foods: seq<Food>)
    ensures FilteredFoods(foods, "") == foods
  {
    assert ToLower("") == "";
    forall i | 0 <= i < |foods| ensures FoodMatches(foods[i], "") {
      IncludesTrivial(ToLower(foods[i].name));
    }
    FilterKeepsAll(foods, (f: Food) => FoodMatches(f, ""));
  }

  /** The search does not depend on the case of the term. */
  lemma FoodSearchIgnoresTermCase(foods: seq<Food>, term: string)
    ensures FilteredFoods(foods, term) == FilteredFoods(foods, ToLower(term))
  {
    ToLowerIdempotent(term);
    FilterSamePredicate(foods, (f: Food) => FoodMatches(f, term), (f: Food) => FoodMatches(f, ToLower(term)));
  }

  /** The add dialog's form; `price` is `Number` of the price input. */
  datatype NewFoodForm = NewFoodForm(name: string, price: int, description: string)

  /** `!newFood.name || newFood.price <= 0` disables Add. */
  predicate AddFoodEnabled(form: NewFoodForm)
  {
    form.name != "" && form.price > 0
  }

  /** `!selectedFood?.name || selectedFood?.price <= 0` disables Save. */
  predicate SaveFoodEnabled(selected: Option<Food>)
  {
    selected.Some? && selected.value.name != "" && selected.value.price > 0
  }

  /** `resetForm` */
  function ResetFoodForm(): NewFoodForm
  {
    NewFoodForm("", 0, "")
  }

  /** Add needs a name and a positive price, so a reset form keeps it disabled. */
  lemma AddFoodRule(form: NewFoodForm)
    ensures AddFoodEnabled(form) <==> form.name != "" && form.price > 0
    ensures !AddFoodEnabled(ResetFoodForm())
    ensures AddFoodEnabled(ResetFoodForm().(name := form.name, price := form.price)) == AddFoodEnabled(form)
  {
  }

  /** Save on edit follows the same rule as Add, and is disabled while no dish is selected. */
  lemma SaveFoodRule(f: Food)
    ensures SaveFoodEnabled(Some(f)) == AddFoodEnabled(NewFoodForm(f.name, f.price, ""))
    ensures !SaveFoodEnabled(None)
  {
  }
}
