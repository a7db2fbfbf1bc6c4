/**
 * The order list page: its search filter, the decision `handleAddOrder` makes,
 * the add-line form and the status labels.
 */
module OrderPage {
  import opened Wrappers
  import opened Text
  import opened Seqs

  /** The user attached to a listed order; any of its fields may be missing. */
  datatype OrderUser = OrderUser(id: Option<int>, name: Option<string>)

  /** An order as the list receives it; the page tests each searched field for absence. */
  datatype Order = Order(id: Option<int>, description: Option<string>, user: Option<OrderUser>, status: string)

  /** `field?.toLowerCase().includes(term.toLowerCase())`: false when the field is absent. */
  predicate FoldedFieldIncludes(field: Option<string>, term: string)
  {
    field.Some? && Includes(ToLower(field.value), ToLower(term))
  }

  /** The name of the order's user, when both the user and its name are present. */
  function UserName(o: Order): Option<string>
  {
    if o.user.Some? then o.user.value.name else None
  }

  /**
   * The test `filteredOrders` applies: the description or the user's name contains
   * the term ignoring case, or the id's decimal form contains the term as typed.
   */
  predicate OrderMatches(o: Order, term: string)
  {
    FoldedFieldIncludes(o.description, term)
    || (o.id.Some? && Includes(IntToString(o.id.value), term))
    || FoldedFieldIncludes(UserName(o), term)
  }

  /** `filteredOrders` */
  function FilteredOrders(orders: seq<Order>, term: string): seq<Order>
  {
    Filter(orders, (o: Order) => OrderMatches(o, term))
  }

  /** The result keeps a subsequence of the orders, in their original order. */
  lemma FilteredOrdersIsSubsequence(orders: seq<Order>, term: string)
    ensures IsSubsequence(FilteredOrders(orders, term), orders)
  {
    FilterIsSubsequence(orders, (o: Order) => OrderMatches(o, term));
  }

  /** An order is listed iff it is one of the orders and matches the term. */
  lemma FilteredOrdersKeepsMatches(orders: seq<Order>, term: string, o: Order)
    ensures o in FilteredOrders(orders, term) <==> o in orders && OrderMatches(o, term)
    ensures multiset(FilteredOrders(orders, term))[o] == if OrderMatches(o, term) then multiset(orders)[o] else 0
  {
    FilterMembership(orders, (o: Order) => OrderMatches(o, term), o);
    FilterCount(orders, (o: Order) => OrderMatches(o, term), o);
  }

  /** With an empty term an order matches iff it has an id, a description or a user name. */
  lemma EmptyTermMatchesPresentFields(o: Order)
    ensures OrderMatches(o, "") <==> o.id.Some? || o.description.Some? || UserName(o).Some?
  {
    assert ToLower("") == "";
    if o.id.Some? { IncludesTrivial(IntToString(o.id.value)); }
    if o.description.Some? { IncludesTrivial(ToLower(o.description.value)); }
    if UserName(o).Some? { IncludesTrivial(ToLower(UserName(o).value)); }
  }

  /** With an empty term every order that has an id is listed. */
  lemma EmptyTermKeepsOrdersWithId(orders: seq<Order>, i: nat)
    requires i < |orders| && orders[i].id.Some?
    ensures orders[i] in FilteredOrders(orders, "")
  {
    EmptyTermMatchesPresentFields(orders[i]);
    FilteredOrdersKeepsMatches(orders, "", orders[i]);
  }

  lemma CapitalNotInId(n: int, term: string)
    requires exists k :: 0 <= k < |term| && (IsUpper(term[k]) || 'a' <= term[k] <= 'z')
    ensures !Includes(IntToString(n), term)
  {
    var k :| 0 <= k < |term| && (IsUpper(term[k]) || 'a' <= term[k] <= 'z');
    IncludesNeedsEveryChar(IntToString(n), term, k);
  }

  /**
   * Although the id test does not lowercase the term, the whole search ignores
   * the case of the term: an id's decimal form holds no letter at all.
   */
  lemma OrderSearchIgnoresTermCase(o: Order, term: string)
    ensures OrderMatches(o, term) == OrderMatches(o, ToLower(term))
  {
    ToLowerIdempotent(term);
    if o.id.Some? {
      var n := o.id.value;
      if exists k :: 0 <= k < |term| && IsUpper(term[k]) {
        var k :| 0 <= k < |term| && IsUpper(term[k]);
        CapitalNotInId(n, term);
        assert 'a' <= ToLower(term)[k] <= 'z';
        CapitalNotInId(n, ToLower(term));
      } else {
        ToLowerFixesLowercase(term);
      }
    }
  }

  /** The body `handleAddOrder` posts. */
  datatype CreateOrderRequest = CreateOrderRequest(userId: int, description: string, status: string)

  /**
   * `handleAddOrder`: the id of the user stored at login decides. A missing or
   * falsy (zero) id sends nothing; otherwise an empty, served order is created
   * for that user.
   */
  function AddOrderRequest(loggedInUserId: Option<int>): (r: Option<CreateOrderRequest>)
    ensures r.None? <==> loggedInUserId.None? || loggedInUserId.value == 0
    ensures r.Some? ==> r.value.userId == loggedInUserId.value
    ensures r.Some? ==> r.value.description == "" && r.value.status == "SERVED"
  {
    if loggedInUserId.None? || loggedInUserId.value == 0 then None
    else Some(CreateOrderRequest(loggedInUserId.value, "", "SERVED"))
  }

  /** The label of an order's status in the list and in the edit dialog's menu. */
  function StatusLabel(status: string): (r: string)
    ensures status == "SERVED" ==> r == "Đang phục vụ"
    ensures status == "COMPLETED" ==> r == "Đã hoàn thành"
    ensures status != "SERVED" && status != "COMPLETED" ==> r == status
  {
    if status == "SERVED" then "Đang phục vụ"
    else if status == "COMPLETED" then "Đã hoàn thành"
    else status
  }

  /** A freshly created order is labelled as being served. */
  lemma NewOrderIsBeingServed(loggedInUserId: Option<int>)
    requires AddOrderRequest(loggedInUserId).Some?
    ensures StatusLabel(AddOrderRequest(loggedInUserId).value.status) == "Đang phục vụ"
  {
  }

  /**
   * The add-line form. `foodId` starts as the empty string (None here) and
   * becomes the id chosen in the menu; `quantity` is `parseInt` of the input.
   */
  datatype NewDetailForm = NewDetailForm(orderId: Option<int>, foodId: Option<int>, quantity: JsNumber)

  /** `!newOrderDetail.foodId || !newOrderDetail.quantity` disables the Add button. */
  predicate AddDetailEnabled(form: NewDetailForm)
  {
    form.foodId.Some? && form.foodId.value != 0 && NumberTruthy(form.quantity)
  }

  /** `resetOrderDetailForm`: the order being viewed, no dish, one portion. */
  function ResetOrderDetailForm(currentOrderId: Option<int>): NewDetailForm
  {
    NewDetailForm(currentOrderId, None, Int(1))
  }

  /**
   * The reset form adds to the order being viewed, and its Add button stays
   * disabled until a non-zero dish id is chosen.
   */
  lemma ResetFormDisablesAdd(currentOrderId: Option<int>, foodId: int)
    ensures ResetOrderDetailForm(currentOrderId).orderId == currentOrderId
    ensures !AddDetailEnabled(ResetOrderDetailForm(currentOrderId))
    ensures AddDetailEnabled(ResetOrderDetailForm(currentOrderId).(foodId := Some(foodId))) <==> foodId != 0
  {
  }
}
