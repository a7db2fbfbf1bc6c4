/**
 * The order-detail page: the line search, the add-line form and the header's
 * status text. Its price lookup and total are those of module Pricing.
 */
module OrderDetailPage {
  import opened Wrappers
  import opened Text
  import opened Seqs
  import opened Pricing
  import OrderPage

  /**
   * The test `filteredOrderDetails` applies: the resolved dish name, AS IT IS,
   * contains the lowercased term.
   */
  predicate DetailMatches(menu: seq<Food>, d: OrderDetail, term: string)
  {
    Includes(FoodName(menu, d.foodId), ToLower(term))
  }

  /** `filteredOrderDetails` */
  function FilteredOrderDetails(menu: seq<Food>, details: seq<OrderDetail>, term: string): seq<OrderDetail>
  {
    Filter(details, (d: OrderDetail) => DetailMatches(menu, d, term))
  }

  /** The result keeps a subsequence of the lines, in their original order. */
  lemma FilteredDetailsIsSubsequence(menu: seq<Food>, details: seq<OrderDetail>, term: string)
    ensures IsSubsequence(FilteredOrderDetails(menu, details, term), details)
  {
    FilterIsSubsequence(details, (d: OrderDetail) => DetailMatches(menu, d, term));
  }

  /** A line is listed iff it is one of the lines and its dish name contains the lowercased term. */
  lemma FilteredDetailsKeepsMatches(menu: seq<Food>, details: seq<OrderDetail>, term: string, d: OrderDetail)
    ensures d in FilteredOrderDetails(menu, details, term)
        <==> d in details && Includes(FoodName(menu, d.foodId), ToLower(term))
    ensures multiset(FilteredOrderDetails(menu, details, term))[d]
         == if DetailMatches(menu, d, term) then multiset(details)[d] else 0
  {
    FilterMembership(details, (d: OrderDetail) => DetailMatches(menu, d, term), d);
    FilterCount(details, (d: OrderDetail) => DetailMatches(menu, d, term), d);
  }

  /** With an empty term every line is listed, in order. */
  lemma EmptyTermKeepsAllDetails(menu: seq<Food>, details: seq<OrderDetail>)
    ensures FilteredOrderDetails(menu, details, "") == details
  {
    assert ToLower("") == "";
    forall i | 0 <= i < |details| ensures DetailMatches(menu, details[i], "") {
      IncludesTrivial(FoodName(menu, details[i].foodId));
    }
    FilterKeepsAll(details, (d: OrderDetail) => DetailMatches(menu, d, ""));
  }

  /**
   * As written, searching for a dish by its exact, capitalised name hides it:
   * the term "Pho" is lowered to "pho", which "Pho" does not contain.
   */
  lemma ExactCapitalisedNameNotFound()
    ensures var menu := [Food(1, "Pho", 50000, None)];
            var line := OrderDetail(7, 3, 1, 2);
            FoodName(menu, 1) == "Pho" && !DetailMatches(menu, line, "Pho")
  {
    var menu := [Food(1, "Pho", 50000, None)];
    LookupUsesFirstMatch(menu, 0);
    assert ToLower("Pho") == "pho";
    IncludesNeedsEveryChar("Pho", "pho", 0);
  }

  /** The search as the other pages write it: both sides lowercased. */
  predicate DetailMatchesFolded(menu: seq<Food>, d: OrderDetail, term: string)
  {
    Includes(ToLower(FoodName(menu, d.foodId)), ToLower(term))
  }

  /** `filteredOrderDetails` with the dish name lowercased as well. */
  function FilteredOrderDetailsFolded(menu: seq<Food>, details: seq<OrderDetail>, term: string): seq<OrderDetail>
  {
    Filter(details, (d: OrderDetail) => DetailMatchesFolded(menu, d, term))
  }

  /**
   * The corrected search finds a line by its dish name typed in any case, and
   * its result does not depend on the case of the term.
   */
  lemma FoldedSearchFindsDishName(menu: seq<Food>, details: seq<OrderDetail>, i: nat, term: string)
    requires i < |details|
    ensures ToLower(term) == ToLower(FoodName(menu, details[i].foodId))
        ==> details[i] in FilteredOrderDetailsFolded(menu, details, term)
    ensures FilteredOrderDetailsFolded(menu, details, term) == FilteredOrderDetailsFolded(menu, details, ToLower(term))
  {
    if ToLower(term) == ToLower(FoodName(menu, details[i].foodId)) {
      IncludesTrivial(ToLower(FoodName(menu, details[i].foodId)));
      FilterMembership(details, (d: OrderDetail) => DetailMatchesFolded(menu, d, term), details[i]);
    }
    ToLowerIdempotent(term);
    assert forall d :: DetailMatchesFolded(menu, d, term) == DetailMatchesFolded(menu, d, ToLower(term));
    FilterSamePredicate(details, (d: OrderDetail) => DetailMatchesFolded(menu, d, term),
                        (d: OrderDetail) => DetailMatchesFolded(menu, d, ToLower(term)));
  }

  /** The add-line form: `orderId` is `Number` of the route parameter. */
  datatype NewDetailForm = NewDetailForm(orderId: JsNumber, foodId: int, quantity: JsNumber)

  /** `!newOrderDetail.foodId || !newOrderDetail.quantity` disables the Add button. */
  predicate AddDetailEnabled(form: NewDetailForm)
  {
    form.foodId != 0 && NumberTruthy(form.quantity)
  }

  /** `resetOrderDetailForm`: the route's order, no dish (0), one portion. */
  function ResetOrderDetailForm(routeOrderId: string): NewDetailForm
  {
    NewDetailForm(ToNumber(routeOrderId), 0, Int(1))
  }

  /**
   * The reset form points at the order whose id the route carries, and keeps
   * the Add button disabled until a dish is chosen; a cleared quantity (NaN
   * from `parseInt("")`) or a zero one disables it as well.
   */
  lemma ResetFormTargetsRouteOrder(orderId: int, foodId: int, quantity: JsNumber)
    ensures ResetOrderDetailForm(IntToString(orderId)).orderId == Int(orderId)
    ensures !AddDetailEnabled(ResetOrderDetailForm(IntToString(orderId)))
    ensures AddDetailEnabled(NewDetailForm(Int(orderId), foodId, quantity))
        <==> foodId != 0 && quantity != NaN && quantity != Int(0)
  {
    ToNumberInvertsToString(orderId);
  }

  /** The header's status text: "Đã phục vụ" for a served order, "Đã hoàn thành" otherwise. */
  function HeaderStatusLabel(status: string): (r: string)
    ensures r == "Đã phục vụ" <==> status == "SERVED"
    ensures r == "Đã hoàn thành" <==> status != "SERVED"
  {
    if status == "SERVED" then "Đã phục vụ" else "Đã hoàn thành"
  }

  /**
   * The header and the order list agree on completed orders but word a served
   * order differently, and the header calls every unknown status completed.
   */
  lemma HeaderAndListLabels(status: string)
    ensures HeaderStatusLabel("COMPLETED") == OrderPage.StatusLabel("COMPLETED")
    ensures HeaderStatusLabel("SERVED") != OrderPage.StatusLabel("SERVED")
    ensures status != "SERVED" && status != "COMPLETED" && status != "Đã hoàn thành"
        ==> HeaderStatusLabel(status) != OrderPage.StatusLabel(status)
  {
  }
}
