/**
 * Menu lookups and the order total, written identically in the order page and
 * the order-detail page: `getFoodPriceById`, `getFoodNameById` and
 * `calculateTotal`. Prices are whole amounts of VND.
 */
module Pricing {
  import opened Wrappers
  import opened Seqs

  /** A menu item. The name is always present; the description is optional. */
  datatype Food = Food(id: int, name: string, price: int, description: Option<string>)

  /** One line of an order: `quantity` portions of the dish `foodId`. */
  datatype OrderDetail = OrderDetail(id: int, orderId: int, foodId: int, quantity: int)

  /** The name shown for a dish that is not on the menu. */
  const UnknownFoodName: string := "Không xác định"

  /** `foods.find((f) => f.id === foodId)` */
  function FindFood(menu: seq<Food>, foodId: int): Option<Food>
  {
    Find(menu, (f: Food) => f.id == foodId)
  }

  /** `getFoodPriceById`: the price of the matching dish, 0 when there is none. */
  function FoodPrice(menu: seq<Food>, foodId: int): int
  {
    match FindFood(menu, foodId)
    case Some(f) => f.price
    case None => 0
  }

  /** `getFoodNameById`: the name of the matching dish, or the placeholder. */
  function FoodName(menu: seq<Food>, foodId: int): string
  {
    match FindFood(menu, foodId)
    case Some(f) => f.name
    case None => UnknownFoodName
  }

  /** Whether some menu item has this id. */
  predicate OnMenu(menu: seq<Food>, foodId: int)
  {
    exists i :: 0 <= i < |menu| && menu[i].id == foodId
  }

  /** The price and name of the FIRST menu item carrying the id are the ones used. */
  lemma LookupUsesFirstMatch(menu: seq<Food>, i: nat)
    requires i < |menu|
    requires forall j :: 0 <= j < i ==> menu[j].id != menu[i].id
    ensures FoodPrice(menu, menu[i].id) == menu[i].price
    ensures FoodName(menu, menu[i].id) == menu[i].name
  {
    FindFirst(menu, (f: Food) => f.id == menu[i].id, i);
  }

  /** A dish missing from the menu costs 0 and is called "Không xác định". */
  lemma LookupOfUnknownFood(menu: seq<Food>, foodId: int)
    requires !OnMenu(menu, foodId)
    ensures FoodPrice(menu, foodId) == 0
    ensures FoodName(menu, foodId) == UnknownFoodName
  {
    assert forall j :: 0 <= j < |menu| ==> menu[j].id != foodId;
  }

  /** For a dish on the menu, the price returned is that of some item with its id. */
  lemma PriceComesFromMenu(menu: seq<Food>, foodId: int)
    requires OnMenu(menu, foodId)
    ensures exists i :: 0 <= i < |menu| && menu[i].id == foodId && FoodPrice(menu, foodId) == menu[i].price
  {
    var k := FindIndex(menu, (f: Food) => f.id == foodId);
    assert k.Some?;
    assert menu[k.value].id == foodId && FoodPrice(menu, foodId) == menu[k.value].price;
  }

  /** What one line adds to the total: price times quantity. */
  function LineAmount(menu: seq<Food>, d: OrderDetail): int
  {
    FoodPrice(menu, d.foodId) * d.quantity
  }

  /** `details.reduce((total, d) => total + price(d.foodId) * d.quantity, acc)`, left to right. */
  function Reduce(menu: seq<Food>, acc: int, details: seq<OrderDetail>): int
    decreases |details|
  {
    if |details| == 0 then acc else Reduce(menu, acc + LineAmount(menu, details[0]), details[1..])
  }

  /** `calculateTotal`: the reduction started at 0. */
  function CalculateTotal(menu: seq<Food>, details: seq<OrderDetail>): int
  {
    Reduce(menu, 0, details)
  }

  /** The sum of the line amounts: the reference the total is checked against. */
  function Sum(menu: seq<Food>, details: seq<OrderDetail>): int
  {
    if |details| == 0 then 0 else LineAmount(menu, details[0]) + Sum(menu, details[1..])
  }

  lemma {:induction false} ReduceIsSum(menu: seq<Food>, acc: int, details: seq<OrderDetail>)
    ensures Reduce(menu, acc, details) == acc + Sum(menu, details)
    decreases |details|
  {
    if |details| > 0 {
      ReduceIsSum(menu, acc + LineAmount(menu, details[0]), details[1..]);
    }
  }

  lemma {:induction false} SumConcat(menu: seq<Food>, a: seq<OrderDetail>, b: seq<OrderDetail>)
    ensures Sum(menu, a + b) == Sum(menu, a) + Sum(menu, b)
  {
    if |a| == 0 {
      assert a + b == b;
    } else {
      assert (a + b)[1..] == a[1..] + b;
      SumConcat(menu, a[1..], b);
    }
  }

  /** `calculateTotal` is the sum over the lines of price times quantity. */
  lemma TotalIsSumOfLines(menu: seq<Food>, details: seq<OrderDetail>)
    ensures CalculateTotal(menu, details) == Sum(menu, details)
  {
    ReduceIsSum(menu, 0, details);
  }

  /** An order without lines totals 0. */
  lemma TotalOfNoLines(menu: seq<Food>)
    ensures CalculateTotal(menu, []) == 0
  {
  }

  /** The total of two lists of lines is the sum of their totals. */
  lemma TotalConcat(menu: seq<Food>, a: seq<OrderDetail>, b: seq<OrderDetail>)
    ensures CalculateTotal(menu, a + b) == CalculateTotal(menu, a) + CalculateTotal(menu, b)
  {
    ReduceIsSum(menu, 0, a + b);
    ReduceIsSum(menu, 0, a);
    ReduceIsSum(menu, 0, b);
    SumConcat(menu, a, b);
  }

  /** Adding a line adds exactly its price times its quantity. */
  lemma TotalAppend(menu: seq<Food>, details: seq<OrderDetail>, d: OrderDetail)
    ensures CalculateTotal(menu, details + [d])
         == CalculateTotal(menu, details) + FoodPrice(menu, d.foodId) * d.quantity
  {
    TotalConcat(menu, details, [d]);
    assert [d][1..] == [];
    assert CalculateTotal(menu, [d]) == Reduce(menu, LineAmount(menu, d), []);
  }

  /** Lines whose dish is missing from the menu do not change the total. */
  lemma {:induction false} UnknownLinesAddNothing(menu: seq<Food>, details: seq<OrderDetail>)
    ensures CalculateTotal(menu, details)
         == CalculateTotal(menu, Filter(details, (d: OrderDetail) => OnMenu(menu, d.foodId)))
  {
    var known := (d: OrderDetail) => OnMenu(menu, d.foodId);
    TotalIsSumOfLines(menu, details);
    TotalIsSumOfLines(menu, Filter(details, known));
    SumOfKnownLines(menu, details);
  }

  lemma {:induction false} SumOfKnownLines(menu: seq<Food>, details: seq<OrderDetail>)
    ensures Sum(menu, details) == Sum(menu, Filter(details, (d: OrderDetail) => OnMenu(menu, d.foodId)))
  {
    var known := (d: OrderDetail) => OnMenu(menu, d.foodId);
    if |details| > 0 {
      SumOfKnownLines(menu, details[1..]);
      var head := details[0];
      var rest := Filter(details[1..], known);
      if known(head) {
        assert Filter(details, known) == [head] + rest;
        assert ([head] + rest)[1..] == rest;
      } else {
        LookupOfUnknownFood(menu, head.foodId);
        assert Filter(details, known) == rest;
      }
    }
  }

  /** With non-negative prices and quantities the total is never negative. */
  lemma {:induction false} TotalNonNegative(menu: seq<Food>, details: seq<OrderDetail>)
    requires forall i :: 0 <= i < |menu| ==> menu[i].price >= 0
    requires forall i :: 0 <= i < |details| ==> details[i].quantity >= 0
    ensures CalculateTotal(menu, details) >= 0
  {
    TotalIsSumOfLines(menu, details);
    SumNonNegative(menu, details);
  }

  lemma {:induction false} SumNonNegative(menu: seq<Food>, details: seq<OrderDetail>)
    requires forall i :: 0 <= i < |menu| ==> menu[i].price >= 0
    requires forall i :: 0 <= i < |details| ==> details[i].quantity >= 0
    ensures Sum(menu, details) >= 0
  {
    if |details| > 0 {
      SumNonNegative(menu, details[1..]);
      var d := details[0];
      match FindIndex(menu, (f: Food) => f.id == d.foodId) {
        case None =>
        case Some(k) =>
          assert FoodPrice(menu, d.foodId) == menu[k].price >= 0;
      }
    }
  }
}
