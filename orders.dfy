/** Order placement, listing, status changes and deletion (controller/orderController.js).
    The order collection is a sequence in storage order; the product collection is a map from
    product id to its record. */
module Orders {
  import opened Seqs
  import opened Models
  import opened Store

  const Delivered := "Delivered"

  // ---- lookups -----------------------------------------------------------------------------

  function OrderHasId(id: Id): Order -> bool
  {
    (o: Order) => o.id == id
  }

  /** `Order.findById(id)`: the position of the order with that id. */
  function FindOrder(orders: seq<Order>, id: Id): (r: Option<nat>)
    ensures r.Some? ==> r.value < |orders| && orders[r.value].id == id
    ensures r.None? <==> forall j :: 0 <= j < |orders| ==> orders[j].id != id
  {
    FindFirst(orders, OrderHasId(id))
  }

  /** getSingleOrder (the `populate` of the owner's name and email is not modelled). */
  function GetSingleOrder(orders: seq<Order>, id: Id): (r: Result<Order>)
    ensures r.Ok? <==> exists j :: 0 <= j < |orders| && orders[j].id == id
    ensures r.Ok? ==> r.value in orders && r.value.id == id
    ensures r.Fail? ==> r.failure == HttpError(404, NoOrderFound)
  {
    match FindOrder(orders, id)
    case None => Fail(HttpError(404, NoOrderFound))
    case Some(k) => Ok(orders[k])
  }

  function OrderOf(user: Id): Order -> bool
  {
    (o: Order) => o.user == user
  }

  /** allMyOrders: `Order.find({ user })`. */
  function AllMyOrders(orders: seq<Order>, user: Id): (r: seq<Order>)
    ensures forall i :: 0 <= i < |r| ==> r[i] in orders && r[i].user == user
    ensures forall i :: 0 <= i < |orders| && orders[i].user == user ==> orders[i] in r
  {
    Filter(orders, OrderOf(user))
  }

  // ---- createNewOrder: validation pass ----------------------------------------------------

  /** The checks createNewOrder makes on one line item against the unmodified product table,
      in the order the source makes them. */
  function ItemProblem(products: map<Id, Product>, item: LineItem): (r: Option<Failure>)
    ensures r.Some? ==> r.value.HttpError?
    ensures r.Some? ==> r.value.code == (if item.product in products then 400 else 404)
    ensures r.None? <==>
      && item.product in products
      && !products[item.product].isOutOfStock
      && item.quantity <= products[item.product].maxOrderQuantity
      && item.quantity <= products[item.product].stock
  {
    if item.product !in products then Some(HttpError(404, ProductNotFoundNamed(item.name)))
    else
      var p := products[item.product];
      if p.isOutOfStock then Some(HttpError(400, ProductOutOfStock(p.name)))
      else if item.quantity > p.maxOrderQuantity then
        Some(HttpError(400, ExceedsMaxQuantity(p.name, p.maxOrderQuantity)))
      else if item.quantity > p.stock then Some(HttpError(400, InsufficientStock(p.name)))
      else None
  }

  /** The error of the first line item that fails its checks. */
  function FirstProblem(products: map<Id, Product>, items: seq<LineItem>): (r: Option<Failure>)
    ensures r.None? <==> forall i :: 0 <= i < |items| ==> ItemProblem(products, items[i]).None?
    ensures r.Some? ==> exists k :: 0 <= k < |items| && r == ItemProblem(products, items[k]) &&
                                    (forall i :: 0 <= i < k ==> ItemProblem(products, items[i]).None?)
  {
    if items == [] then None
    else match ItemProblem(products, items[0])
      case Some(f) => Some(f)
      case None =>
        var rest := FirstProblem(products, items[1..]);
        assert forall i :: 1 <= i < |items| ==> items[i] == items[1..][i - 1];
        rest
  }

  // ---- createNewOrder: stock pass ---------------------------------------------------------

  /** `product.stock = stock; product.isOutOfStock = product.stock === 0` */
  function WithStock(p: Product, stock: int): Product
  {
    p.(stock := stock, isOutOfStock := stock == 0)
  }

  predicate AllListed(products: map<Id, Product>, items: seq<LineItem>)
  {
    forall i :: 0 <= i < |items| ==> items[i].product in products
  }

  /** The second loop of createNewOrder: each item, in order, lowers its product's stock by its
      quantity and recomputes the out-of-stock flag. */
  function TakeStock(products: map<Id, Product>, items: seq<LineItem>): (r: map<Id, Product>)
    requires AllListed(products, items)
    ensures r.Keys == products.Keys
  {
    if items == [] then products
    else
      var before := TakeStock(products, items[..|items| - 1]);
      var last := items[|items| - 1];
      var p := before[last.product];
      before[last.product := WithStock(p, p.stock - last.quantity)]
  }

  /** The total quantity the items order of product `pid`; nothing when no item names it. */
  function QuantityOf(items: seq<LineItem>, pid: Id): (r: int)
    ensures !Names(items, pid) ==> r == 0
  {
    if items == [] then 0
    else
      var last := items[|items| - 1];
      QuantityOf(items[..|items| - 1], pid) + (if last.product == pid then last.quantity else 0)
  }

  predicate Names(items: seq<LineItem>, pid: Id)
  {
    exists i :: 0 <= i < |items| && items[i].product == pid
  }

  /** After the stock pass, a product some item names has lost exactly the quantity ordered of
      it and its flag agrees with its stock; every other product is untouched. */
  lemma {:induction false} StockAfterOrder(products: map<Id, Product>, items: seq<LineItem>, pid: Id)
    requires AllListed(products, items)
    requires pid in products
    ensures Names(items, pid) ==>
      TakeStock(products, items)[pid] ==
        WithStock(products[pid], products[pid].stock - QuantityOf(items, pid))
    ensures !Names(items, pid) ==> TakeStock(products, items)[pid] == products[pid]
  {
    if items != [] {
      var init := items[..|items| - 1];
      var last := items[|items| - 1];
      StockAfterOrder(products, init, pid);
      assert NamesInit: Names(init, pid) ==> Names(items, pid) by {
        if Names(init, pid) {
          var i :| 0 <= i < |init| && init[i].product == pid;
          assert items[i].product == pid;
        }
      }
      if last.product == pid {
        assert Names(items, pid) by { assert items[|items| - 1].product == pid; }
      } else {
        assert Names(items, pid) ==> Names(init, pid) by {
          if Names(items, pid) {
            var i :| 0 <= i < |items| && items[i].product == pid;
            assert i < |init| && init[i].product == pid;
          }
        }
      }
    }
  }

  predicate DistinctProducts(items: seq<LineItem>)
  {
    forall i, j :: 0 <= i < j < |items| ==> items[i].product != items[j].product
  }

  lemma {:induction false} QuantityOfDistinct(items: seq<LineItem>, k: nat)
    requires DistinctProducts(items)
    requires k < |items|
    ensures QuantityOf(items, items[k].product) == items[k].quantity
  {
    var pid := items[k].product;
    var init := items[..|items| - 1];
    if k == |items| - 1 {
      assert !Names(init, pid) by {
        forall i | 0 <= i < |init| ensures init[i].product != pid {
          assert init[i] == items[i];
        }
      }
    } else {
      assert init[k] == items[k];
      QuantityOfDistinct(init, k);
    }
  }

  /** Items that pass validation all name listed products. */
  lemma PassingItemsListed(products: map<Id, Product>, items: seq<LineItem>)
    requires FirstProblem(products, items).None?
    ensures AllListed(products, items)
  {
    forall i | 0 <= i < |items| ensures items[i].product in products {
      assert ItemProblem(products, items[i]).None?;
    }
  }

  /** When the items name distinct products and all pass validation, each product ends with
      exactly its stock minus the item's quantity, which is at least 0, and its flag agrees. */
  lemma DistinctOrderKeepsStock(products: map<Id, Product>, items: seq<LineItem>, k: nat)
    requires DistinctProducts(items)
    requires forall i :: 0 <= i < |items| ==> ItemProblem(products, items[i]).None?
    requires k < |items|
    ensures AllListed(products, items)
    ensures var p := products[items[k].product];
      && TakeStock(products, items)[items[k].product] == WithStock(p, p.stock - items[k].quantity)
      && TakeStock(products, items)[items[k].product].stock >= 0
  {
    assert AllListed(products, items) by {
      forall i | 0 <= i < |items| ensures items[i].product in products {
        assert ItemProblem(products, items[i]).None?;
      }
    }
    var pid := items[k].product;
    assert ItemProblem(products, items[k]).None?;
    StockAfterOrder(products, items, pid);
    assert Names(items, pid);
    QuantityOfDistinct(items, k);
  }

  /** Validation reads the unmodified stock for every item, so two lines of one product can
      together overdraw it: stock 5, two lines of 3 each, and the stock ends at -1. */
  lemma RepeatedProductOverdraws(p: Product)
    requires p.stock == 5 && p.maxOrderQuantity == 10 && !p.isOutOfStock
    ensures var items := [LineItem(7, "x", 3, 0), LineItem(7, "x", 3, 0)];
      && FirstProblem(map[7 := p], items).None?
      && TakeStock(map[7 := p], items)[7].stock == -1
  {
    var items := [LineItem(7, "x", 3, 0), LineItem(7, "x", 3, 0)];
    var m := map[7 := p];
    var one := [LineItem(7, "x", 3, 0)];
    assert items[..1] == one && items[1..] == one;
    assert one[..0] == [] && one[1..] == [];
    assert FirstProblem(m, one).None?;
    assert TakeStock(m, one)[7].stock == 2;
  }

  /** The validation loop of createNewOrder: it reads the product table and writes nothing. */
  method ValidateItems(db: Db, orderItems: seq<LineItem>) returns (problem: Option<Failure>)
    ensures problem == FirstProblem(db.products, orderItems)
  {
    var i := 0;
    while i < |orderItems|
      invariant 0 <= i <= |orderItems|
      invariant forall j :: 0 <= j < i ==> ItemProblem(db.products, orderItems[j]).None?
    {
      var item := orderItems[i];
      problem := None;
      if item.product !in db.products {
        problem := Some(HttpError(404, ProductNotFoundNamed(item.name)));
      } else {
        var product := db.products[item.product];
        if product.isOutOfStock {
          problem := Some(HttpError(400, ProductOutOfStock(product.name)));
        } else if item.quantity > product.maxOrderQuantity {
          problem := Some(HttpError(400, ExceedsMaxQuantity(product.name, product.maxOrderQuantity)));
        } else if item.quantity > product.stock {
          problem := Some(HttpError(400, InsufficientStock(product.name)));
        }
      }
      assert problem == ItemProblem(db.products, item);
      if problem.Some? {
        ghost var first := FirstProblem(db.products, orderItems);
        assert first.Some? && first == problem by {
          var k :| 0 <= k < |orderItems| && first == ItemProblem(db.products, orderItems[k]) &&
            forall j :: 0 <= j < k ==> ItemProblem(db.products, orderItems[j]).None?;
          assert k == i;
        }
        return;
      }
      i := i + 1;
    }
    problem := None;
  }

  /** The stock loop of createNewOrder. */
  method TakeOrderedStock(db: Db, orderItems: seq<LineItem>)
    requires AllListed(db.products, orderItems)
    modifies db`products
    ensures db.products == TakeStock(old(db.products), orderItems)
  {
    var i := 0;
    while i < |orderItems|
      invariant 0 <= i <= |orderItems|
      invariant db.products == TakeStock(old(db.products), orderItems[..i])
    {
      var item := orderItems[i];
      assert orderItems[..i + 1][..i] == orderItems[..i];
      var product := db.products[item.product];
      db.products := db.products[item.product := WithStock(product, product.stock - item.quantity)];
      i := i + 1;
    }
    assert orderItems[..i] == orderItems;
  }

  /** createNewOrder. Every item is validated before anything is written; the first failure is
      returned with no order created and no stock touched. Then the order is stored and the
      stock pass runs. */
  method CreateNewOrder(
    db: Db, requester: Id, shippingInfo: string, orderItems: seq<LineItem>, paymentInfo: string,
    itemPrice: int, taxPrice: int, shippingPrice: int, totalPrice: int)
    returns (r: Result<Order>)
    requires db.Valid()
    modifies db`products, db`orders, db`nextId, db`clock
    ensures db.Valid()
    ensures r.Fail? <==> FirstProblem(old(db.products), orderItems).Some?
    ensures r.Fail? ==>
      && r.failure == FirstProblem(old(db.products), orderItems).value
      && db.products == old(db.products) && db.orders == old(db.orders)
    ensures r.Ok? ==>
      && AllListed(old(db.products), orderItems)
      && db.products == TakeStock(old(db.products), orderItems)
      && r.value == Order(old(db.nextId), requester, shippingInfo, orderItems, paymentInfo,
                          itemPrice, taxPrice, shippingPrice, totalPrice, old(db.clock), None,
                          db.orderStatusDefault)
      && db.orders == old(db.orders) + [r.value]
    ensures db.nextId == old(db.nextId) + (if r.Ok? then 1 else 0)
    ensures db.clock == old(db.clock) + (if r.Ok? then 1 else 0)
  {
    var problem := ValidateItems(db, orderItems);
    if problem.Some? {
      return Fail(problem.value);
    }
    PassingItemsListed(db.products, orderItems);
    var order := Order(db.nextId, requester, shippingInfo, orderItems, paymentInfo,
                       itemPrice, taxPrice, shippingPrice, totalPrice, db.clock, None,
                       db.orderStatusDefault);
    db.orders := db.orders + [order];
    db.nextId := db.nextId + 1;
    db.clock := db.clock + 1;
    TakeOrderedStock(db, orderItems);
    return Ok(order);
  }

  // ---- getAllOrders -------------------------------------------------------------------------

  function TotalPriceOf(o: Order): int
  {
    o.totalPrice
  }

  /** The sum of `totalPrice` over the orders. */
  function SumTotals(orders: seq<Order>): int
  {
    SumOf(orders, TotalPriceOf)
  }

  /** Placing an order raises the grand total by its total. */
  lemma SumTotalsAppend(orders: seq<Order>, o: Order)
    ensures SumTotals(orders + [o]) == SumTotals(orders) + o.totalPrice
  {
    SumOfConcat(orders, [o], TotalPriceOf);
    assert [o][..0] == [];
  }

  /** Removing an order lowers the grand total by its total. */
  lemma SumTotalsRemove(orders: seq<Order>, k: nat)
    requires k < |orders|
    ensures SumTotals(orders[..k] + orders[k + 1..]) == SumTotals(orders) - orders[k].totalPrice
  {
    SumOfRemove(orders, k, TotalPriceOf);
  }

  /** getAllOrders: every order, and `totalAmount` accumulated over them. */
  method GetAllOrders(db: Db) returns (orders: seq<Order>, totalAmount: int)
    ensures orders == db.orders
    ensures totalAmount == SumTotals(db.orders)
  {
    orders := db.orders;
    totalAmount := 0;
    var i := 0;
    while i < |orders|
      invariant 0 <= i <= |orders|
      invariant totalAmount == SumTotals(orders[..i])
    {
      assert orders[..i + 1][..i] == orders[..i];
      totalAmount := totalAmount + orders[i].totalPrice;
      i := i + 1;
    }
    assert orders[..i] == orders;
  }

  // ---- updateOrderStatus --------------------------------------------------------------------

  /** updateQuantity(id, quantity) on the current product table: the table afterwards and the
      error it throws, if any. */
  function UpdateQuantity(products: map<Id, Product>, pid: Id, quantity: int)
    : (r: (map<Id, Product>, Option<Failure>))
    ensures r.0.Keys == products.Keys
    ensures r.1 == None <==> pid in products && products[pid].stock >= quantity
    ensures r.1 != None ==> r.0 == products
    ensures r.1 == None ==>
      r.0 == products[pid := WithStock(products[pid], products[pid].stock - quantity)]
    ensures pid !in products ==> r.1 == Some(HttpError(404, ProductNotFound))
    ensures pid in products && products[pid].stock < quantity ==>
      r.1 == Some(HttpError(400, InsufficientStock(products[pid].name)))
  {
    if pid !in products then (products, Some(HttpError(404, ProductNotFound)))
    else
      var p := products[pid];
      if p.stock < quantity then (products, Some(HttpError(400, InsufficientStock(p.name))))
      else (products[pid := WithStock(p, p.stock - quantity)], None)
  }

  /** The per-item updateQuantity calls of the `Delivered` branch, run in item order: every
      call runs (one failing does not stop the others), each against the stock the earlier
      ones left, and the error reported is the first one. */
  function DeliverStock(products: map<Id, Product>, items: seq<LineItem>)
    : (r: (map<Id, Product>, Option<Failure>))
    ensures r.0.Keys == products.Keys
    ensures r.1.Some? ==> r.1.value.HttpError? && (r.1.value.code == 404 || r.1.value.code == 400)
    ensures items == [] ==> r == (products, None)
  {
    if items == [] then (products, None)
    else
      var (before, err) := DeliverStock(products, items[..|items| - 1]);
      var last := items[|items| - 1];
      var (after, err') := UpdateQuantity(before, last.product, last.quantity);
      (after, if err.Some? then err else err')
  }

  /** The second decrement never takes a stock that was non-negative below zero. */
  lemma {:induction false} DeliverKeepsStockNonNegative(products: map<Id, Product>, items: seq<LineItem>, pid: Id)
    requires pid in products && products[pid].stock >= 0
    ensures DeliverStock(products, items).0[pid].stock >= 0
  {
    if items != [] {
      DeliverKeepsStockNonNegative(products, items[..|items| - 1], pid);
    }
  }

  lemma {:induction false} DeliverTouchesOnlyNamed(products: map<Id, Product>, items: seq<LineItem>, pid: Id)
    requires pid in products
    ensures !Names(items, pid) ==> DeliverStock(products, items).0[pid] == products[pid]
    ensures DeliverStock(products, items).0[pid] != products[pid] ==>
      StockFlagAgrees(DeliverStock(products, items).0[pid])
  {
    if items != [] {
      var init := items[..|items| - 1];
      DeliverTouchesOnlyNamed(products, init, pid);
      if !Names(items, pid) {
        assert !Names(init, pid) by {
          forall i | 0 <= i < |init| ensures init[i].product != pid { assert init[i] == items[i]; }
        }
      }
    }
  }

  /** For items naming distinct products that all exist with enough stock, the transition
      succeeds and lowers each product's stock by its item's quantity. */
  lemma {:induction false} DeliverDistinctSucceeds(products: map<Id, Product>, items: seq<LineItem>)
    requires DistinctProducts(items)
    requires forall i :: 0 <= i < |items| ==>
      items[i].product in products && products[items[i].product].stock >= items[i].quantity
    ensures DeliverStock(products, items).1 == None
    ensures forall i :: 0 <= i < |items| ==>
      DeliverStock(products, items).0[items[i].product] ==
        WithStock(products[items[i].product], products[items[i].product].stock - items[i].quantity)
  {
    if items != [] {
      var init := items[..|items| - 1];
      var last := items[|items| - 1];
      DeliverDistinctSucceeds(products, init);
      var before := DeliverStock(products, init).0;
      assert !Names(init, last.product) by {
        forall i | 0 <= i < |init| ensures init[i].product != last.product {
          assert init[i] == items[i];
        }
      }
      DeliverTouchesOnlyNamed(products, init, last.product);
      assert before[last.product] == products[last.product];
      forall i | 0 <= i < |items|
        ensures DeliverStock(products, items).0[items[i].product] ==
          WithStock(products[items[i].product], products[items[i].product].stock - items[i].quantity)
      {
        if i < |init| {
          assert items[i] == init[i];
          assert items[i].product != last.product;
        }
      }
    }
  }

  /** An item whose product is missing fails the transition; so does an item whose stock is
      below its quantity, when the items name distinct products (no earlier decrement can then
      have touched that stock). */
  lemma {:induction false} DeliverFailsAtProblem(products: map<Id, Product>, items: seq<LineItem>, k: nat)
    requires k < |items|
    ensures items[k].product !in products ==> DeliverStock(products, items).1.Some?
    ensures DistinctProducts(items) ==>
      items[k].product in products && products[items[k].product].stock < items[k].quantity ==>
      DeliverStock(products, items).1.Some?
  {
    var init := items[..|items| - 1];
    var last := items[|items| - 1];
    var bad := items[k].product !in products ||
      (DistinctProducts(items) && products[items[k].product].stock < items[k].quantity);
    if k < |init| {
      assert items[k] == init[k];
      assert DistinctProducts(items) ==> DistinctProducts(init) by {
        forall i, j | 0 <= i < j < |init| ensures init[i] == items[i] && init[j] == items[j] { }
      }
      DeliverFailsAtProblem(products, init, k);
    } else if bad {
      var before := DeliverStock(products, init).0;
      if last.product in products {
        assert !Names(init, last.product) by {
          forall i | 0 <= i < |init| ensures init[i].product != last.product {
            assert init[i] == items[i];
          }
        }
        DeliverTouchesOnlyNamed(products, init, last.product);
      }
      assert UpdateQuantity(before, last.product, last.quantity).1.Some?;
    }
  }

  /** For items naming distinct products, the transition succeeds exactly when every product
      exists with enough stock for its item. */
  lemma DeliverDistinctSucceedsIff(products: map<Id, Product>, items: seq<LineItem>)
    requires DistinctProducts(items)
    ensures DeliverStock(products, items).1 == None <==>
      forall i :: 0 <= i < |items| ==>
        items[i].product in products && products[items[i].product].stock >= items[i].quantity
  {
    if forall i :: 0 <= i < |items| ==>
        items[i].product in products && products[items[i].product].stock >= items[i].quantity {
      DeliverDistinctSucceeds(products, items);
    } else {
      var k :| 0 <= k < |items| &&
        !(items[k].product in products && products[items[k].product].stock >= items[k].quantity);
      DeliverFailsAtProblem(products, items, k);
    }
  }

  /** The decrements are not all-or-nothing: a missing second product fails the transition,
      yet the first product has already lost its quantity. */
  lemma DeliverIsNotAtomic(p: Product)
    requires p.stock == 5
    ensures var items := [LineItem(1, "a", 2, 0), LineItem(2, "b", 1, 0)];
      && DeliverStock(map[1 := p], items).1 == Some(HttpError(404, ProductNotFound))
      && DeliverStock(map[1 := p], items).0[1].stock == 3
  {
    var items := [LineItem(1, "a", 2, 0), LineItem(2, "b", 1, 0)];
    var m := map[1 := p];
    var one := [LineItem(1, "a", 2, 0)];
    assert items[..1] == one;
    assert one[..0] == [];
    assert DeliverStock(m, []) == (m, None);
    var first := DeliverStock(m, one);
    assert first == UpdateQuantity(m, 1, 2);
    assert first.1 == None && first.0[1].stock == 3;
    assert DeliverStock(m, items) == (first.0, Some(HttpError(404, ProductNotFound)));
  }

  /** The per-item updateQuantity loop of the `Delivered` branch. */
  method DeliverItems(db: Db, items: seq<LineItem>) returns (err: Option<Failure>)
    modifies db`products
    ensures (db.products, err) == DeliverStock(old(db.products), items)
  {
    err := None;
    var i := 0;
    while i < |items|
      invariant 0 <= i <= |items|
      invariant (db.products, err) == DeliverStock(old(db.products), items[..i])
    {
      assert items[..i + 1][..i] == items[..i];
      var item := items[i];
      if item.product !in db.products {
        if err.None? { err := Some(HttpError(404, ProductNotFound)); }
      } else {
        var product := db.products[item.product];
        if product.stock < item.quantity {
          if err.None? { err := Some(HttpError(400, InsufficientStock(product.name))); }
        } else {
          db.products := db.products[item.product := WithStock(product, product.stock - item.quantity)];
        }
      }
      i := i + 1;
    }
    assert items[..i] == items;
  }

  /** Rewriting an order in place under its own id keeps the ids fresh and distinct. */
  lemma ReplaceOrderFacts(orders: seq<Order>, k: nat, o: Order, nextId: Id)
    requires k < |orders| && o.id == orders[k].id && OrderIdsFresh(orders, nextId)
    ensures OrderIdsFresh(orders[k := o], nextId)
  {
    var updated := orders[k := o];
    forall i, j | 0 <= i < j < |updated| ensures updated[i].id != updated[j].id {
      assert updated[i].id == orders[i].id && updated[j].id == orders[j].id;
    }
  }

  /** updateOrderStatus. `Delivered` is terminal; moving to it runs the second stock decrement
      and stamps `deliveredAt`; if any decrement fails, the order is left as it was (earlier
      decrements stay). Any other target only sets `orderStatus`. */
  method UpdateOrderStatus(db: Db, id: Id, status: string) returns (r: Result<Order>)
    requires db.Valid()
    modifies db`products, db`orders
    ensures db.Valid()
    ensures FindOrder(old(db.orders), id).None? ==>
      r == Fail(HttpError(404, NoOrderFound)) &&
      db.products == old(db.products) && db.orders == old(db.orders)
    ensures FindOrder(old(db.orders), id).Some? ==>
      var k := FindOrder(old(db.orders), id).value;
      var order := old(db.orders)[k];
      && (order.orderStatus == Delivered ==>
            r == Fail(HttpError(400, AlreadyDelivered)) &&
            db.products == old(db.products) && db.orders == old(db.orders))
      && (order.orderStatus != Delivered && status != Delivered ==>
            var updated := order.(orderStatus := status);
            r == Ok(updated) && db.orders == old(db.orders)[k := updated] &&
            db.products == old(db.products))
      && (order.orderStatus != Delivered && status == Delivered ==>
            var (after, err) := DeliverStock(old(db.products), order.orderItems);
            && db.products == after
            && (err.Some? ==> r == Fail(err.value) && db.orders == old(db.orders))
            && (err.None? ==>
                  var updated := order.(deliveredAt := Some(db.clock), orderStatus := status);
                  r == Ok(updated) && db.orders == old(db.orders)[k := updated]))
  {
    var found := FindOrder(db.orders, id);
    if found.None? {
      return Fail(HttpError(404, NoOrderFound));
    }
    var k := found.value;
    var order := db.orders[k];
    if order.orderStatus == Delivered {
      return Fail(HttpError(400, AlreadyDelivered));
    }
    if status == Delivered {
      var err := DeliverItems(db, order.orderItems);
      if err.Some? {
        return Fail(err.value);
      }
      order := order.(deliveredAt := Some(db.clock));
    }
    order := order.(orderStatus := status);
    ReplaceOrderFacts(db.orders, k, order, db.nextId);
    db.orders := db.orders[k := order];
    return Ok(order);
  }

  // ---- deleteOrder --------------------------------------------------------------------------

  /** Removing the order at `k` leaves no order with its id and keeps the others' ids fresh and
      distinct. */
  lemma RemoveOrderFacts(orders: seq<Order>, k: nat, nextId: Id)
    requires k < |orders| && OrderIdsFresh(orders, nextId)
    ensures var rest := orders[..k] + orders[k + 1..];
      && OrderIdsFresh(rest, nextId)
      && forall j :: 0 <= j < |rest| ==> rest[j].id != orders[k].id
  {
    var rest := orders[..k] + orders[k + 1..];
    forall j | 0 <= j < |rest| ensures rest[j].id != orders[k].id {
      assert rest[j] == orders[if j < k then j else j + 1];
    }
    assert OrderIdsFresh(rest, nextId) by {
      forall i, j | 0 <= i < j < |rest| ensures rest[i].id != rest[j].id {
        assert rest[i] == orders[if i < k then i else i + 1];
        assert rest[j] == orders[if j < k then j else j + 1];
      }
      forall i | 0 <= i < |rest| ensures rest[i].id < nextId {
        assert rest[i] == orders[if i < k then i else i + 1];
      }
    }
  }

  /** deleteOrder: only a delivered order can be deleted; deleting it restores no stock. */
  method DeleteOrder(db: Db, id: Id) returns (r: Result<()>)
    requires db.Valid()
    modifies db`orders
    ensures db.Valid()
    ensures db.products == old(db.products)
    ensures FindOrder(old(db.orders), id).None? ==>
      r == Fail(HttpError(404, NoOrderFound)) && db.orders == old(db.orders)
    ensures FindOrder(old(db.orders), id).Some? ==>
      var k := FindOrder(old(db.orders), id).value;
      && (old(db.orders)[k].orderStatus != Delivered ==>
            r == Fail(HttpError(404, OrderUnderProcessing)) && db.orders == old(db.orders))
      && (old(db.orders)[k].orderStatus == Delivered ==>
            r == Ok(()) && db.orders == old(db.orders)[..k] + old(db.orders)[k + 1..] &&
            FindOrder(db.orders, id).None?)
  {
    var found := FindOrder(db.orders, id);
    if found.None? {
      return Fail(HttpError(404, NoOrderFound));
    }
    var k := found.value;
    if db.orders[k].orderStatus != Delivered {
      return Fail(HttpError(404, OrderUnderProcessing));
    }
    RemoveOrderFacts(db.orders, k, db.nextId);
    db.orders := db.orders[..k] + db.orders[k + 1..];
    return Ok(());
  }
}
