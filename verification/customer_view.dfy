/** The rules of the customer's screen (views/CustomerView.tsx): the cart total,
    placing an order, the order being tracked, the tracking steps, the ETA display
    and confirming delivery. */
module CustomerView {
  import opened Types
  import StockRules
  import Catalog
  import Carts
  import AppStore
  import Text

  /** Where every customer order is delivered. */
  const CustomerLocation: Location := Location(13.0827, 80.2707)

  /** `totalAmount`: the cart at menu prices. */
  function TotalAmount(cart: Carts.Cart): int {
    Carts.Total(cart)
  }

  /** The menu entry of an id the cart holds. */
  function MenuEntry(id: string): Catalog.MenuItem
    requires Catalog.IsMenuId(id)
  {
    Catalog.Find(id).value
  }

  /** One order line per cart entry, zero quantities included, carrying the menu name and price. */
  function OrderItems(cart: Carts.Cart): (items: seq<LineItem>)
    requires Carts.InMenu(cart)
    ensures |items| == |cart|
    ensures forall i :: 0 <= i < |cart| ==>
              items[i] == LineItem(MenuEntry(cart[i].id).name, cart[i].qty, MenuEntry(cart[i].id).price)
  {
    seq(|cart|, i requires 0 <= i < |cart| => LineItem(MenuEntry(cart[i].id).name, cart[i].qty, MenuEntry(cart[i].id).price))
  }

  /** No truck selected, an empty total or nobody signed in: the order button does nothing. */
  predicate Refused(selected: Option<Vehicle>, cart: Carts.Cart, user: Option<User>) {
    selected.None? || TotalAmount(cart) == 0 || user.None?
  }

  /** `handleOrder`: unless refused, places a pending, unpaid order for the selected
      truck and empties the cart. Every id in a cart built from the menu buttons is
      a menu id, which the order lines rely on. */
  function HandleOrder(s: AppStore.Store, selected: Option<Vehicle>, cart: Carts.Cart, user: Option<User>,
                       orderId: string, now: int): (r: (AppStore.Store, Carts.Cart))
    requires !Refused(selected, cart, user) ==> Carts.InMenu(cart)
    ensures Refused(selected, cart, user) ==> r == (s, cart)
    ensures !Refused(selected, cart, user) ==>
              && r.1 == []
              && r.0 == s.(orders := r.0.orders)
              && |r.0.orders| == |s.orders| + 1 && r.0.orders[1..] == s.orders
              && r.0.orders[0] == Order(orderId, user.value.id, user.value.name, selected.value.id, OrderItems(cart),
                                        TotalAmount(cart), OrderStatus.Pending, Unpaid, now, CustomerLocation)
  {
    if Refused(selected, cart, user) then (s, cart)
    else
      var order := Order(orderId, user.value.id, user.value.name, selected.value.id, OrderItems(cart),
                         TotalAmount(cart), OrderStatus.Pending, Unpaid, now, CustomerLocation);
      (AppStore.PlaceOrder(s, order), [])
  }

  /** The lines of a placed order add up to its recorded total. */
  lemma {:induction false} OrderItemsAddUpToTotal(cart: Carts.Cart)
    requires Carts.InMenu(cart)
    ensures AppStore.LineTotal(OrderItems(cart)) == TotalAmount(cart)
    decreases |cart|
  {
    if cart != [] {
      var items := OrderItems(cart);
      assert Carts.InMenu(cart[1..]) by {
        forall i | 0 <= i < |cart[1..]|
          ensures Catalog.IsMenuId(cart[1..][i].id)
        {
          assert cart[1..][i] == cart[i + 1];
        }
      }
      assert items[1..] == OrderItems(cart[1..]);
      OrderItemsAddUpToTotal(cart[1..]);
      var id := cart[0].id;
      assert MenuEntry(id).price == Catalog.PriceOf(id);
      assert items[0].price * items[0].quantity == Catalog.PriceOf(id) * cart[0].qty;
    }
  }

  /** Whether a menu id names one of the teas. */
  predicate IsTeaId(id: string) {
    Catalog.IsMenuId(id) && MenuEntry(id) in Catalog.TeaTypes
  }

  /** Units of teas in the cart. */
  function TeaUnits(cart: Carts.Cart): int
    decreases |cart|
  {
    if cart == [] then 0
    else (if IsTeaId(cart[0].id) then cart[0].qty else 0) + TeaUnits(cart[1..])
  }

  /** An order placed from a cart the "+" and "−" buttons built keeps the store
      valid: its lines carry the cart's quantities, none of them negative. */
  lemma HandleOrderKeepsValid(s: AppStore.Store, selected: Option<Vehicle>, cart: Carts.Cart, user: Option<User>,
                              orderId: string, now: int)
    requires !Refused(selected, cart, user) ==> Carts.InMenu(cart)
    requires AppStore.Valid(s) && Carts.NonNegative(cart)
    ensures AppStore.Valid(HandleOrder(s, selected, cart, user, orderId, now).0)
  {
    if !Refused(selected, cart, user) {
      var order := HandleOrder(s, selected, cart, user, orderId, now).0.orders[0];
      assert StockRules.NonNegativeQuantities(order.items);
      AppStore.OrderTransitionsKeepValid(s, order, "", Delivered, None, (k: nat) => "", now);
    }
  }

  /** A line named after a menu entry counts as tea exactly when the entry is a tea. */
  lemma MenuEntryNameIsTea(id: string)
    requires Catalog.IsMenuId(id)
    ensures Text.IsTea(MenuEntry(id).name) <==> IsTeaId(id)
  {
    var m := MenuEntry(id);
    Catalog.FindInFinds(Catalog.Menu, id);
    assert m in Catalog.TeaTypes || m in Catalog.SnackTypes;
    Catalog.MenuNamesAreTeaExactlyForTeas();
  }

  /** Customer orders carry menu names, so their tea lines are exactly the teas in the cart. */
  lemma {:induction false} OrderTeaUnits(cart: Carts.Cart)
    requires Carts.InMenu(cart)
    ensures StockRules.TeaQuantity(OrderItems(cart)) == TeaUnits(cart)
    ensures StockRules.OtherQuantity(OrderItems(cart)) == Carts.Quantity(cart) - TeaUnits(cart)
    decreases |cart|
  {
    if cart != [] {
      var items := OrderItems(cart);
      assert Carts.InMenu(cart[1..]) by {
        forall i | 0 <= i < |cart[1..]|
          ensures Catalog.IsMenuId(cart[1..][i].id)
        {
          assert cart[1..][i] == cart[i + 1];
        }
      }
      assert items[1..] == OrderItems(cart[1..]);
      OrderTeaUnits(cart[1..]);
      MenuEntryNameIsTea(cart[0].id);
    }
  }

  // ---------------------------------------------------------------------------
  // Tracking

  /** The statuses of an order that is still under way. */
  predicate Active(status: OrderStatus) {
    status == OrderStatus.Pending || status == Accepted || status == Preparing || status == OnTheWay
  }

  /** Whether the order is the signed-in customer's; without a user nothing is. */
  predicate Mine(o: Order, user: Option<User>) {
    user.Some? && o.customerId == user.value.id
  }

  /** The first of the customer's orders whose status is still under way. */
  function ActiveOrder(orders: seq<Order>, user: Option<User>): Option<Order> {
    AppStore.Find(orders, (o: Order) => Mine(o, user) && Active(o.status))
  }

  /** The tracked order is the first of the customer's orders still under way;
      there is none exactly when every order of theirs is delivered or cancelled. */
  lemma ActiveOrderIsFirstUnderWay(orders: seq<Order>, user: Option<User>) returns (i: int)
    ensures ActiveOrder(orders, user).Some? ==>
              && 0 <= i < |orders| && orders[i] == ActiveOrder(orders, user).value
              && Mine(orders[i], user) && orders[i].status != Delivered && orders[i].status != Cancelled
              && forall k :: 0 <= k < i ==> !(Mine(orders[k], user) && Active(orders[k].status))
    ensures ActiveOrder(orders, user).None? <==>
              forall k :: 0 <= k < |orders| && Mine(orders[k], user) ==> (orders[k].status == Delivered || orders[k].status == Cancelled)
  {
    i := AppStore.FindIsFirst(orders, (o: Order) => Mine(o, user) && Active(o.status));
  }

  datatype Step = Done | Current | Waiting

  /** The four steps: received, preparation, on the way, delivered. */
  function TrackingSteps(status: OrderStatus): (steps: seq<Step>)
    ensures |steps| == 4
    ensures steps[0] == Done && steps[3] == Waiting
    ensures steps[1] == Done <==> status == Preparing || status == OnTheWay
    ensures steps[1] == Current <==> !(status == Preparing || status == OnTheWay)
    ensures steps[2] == Current <==> status == OnTheWay
    ensures steps[2] == Waiting <==> status != OnTheWay
  {
    [Done,
     if status == Preparing || status == OnTheWay then Done else Current,
     if status == OnTheWay then Current else Waiting,
     Waiting]
  }

  function StepRank(st: Step): nat {
    match st
    case Done => 2
    case Current => 1
    case Waiting => 0
  }

  /** Position of an order status along the happy path. */
  function Progress(status: OrderStatus): nat {
    match status
    case Pending => 0
    case Accepted => 1
    case Preparing => 2
    case OnTheWay => 3
    case Delivered => 4
    case Cancelled => 0
  }

  /** The steps read as a progress bar: no step is further along than the one
      before it, and an order further along the happy path never shows a step as
      less advanced. */
  lemma StepsAreProgress(a: OrderStatus, b: OrderStatus)
    requires a != Delivered && b != Delivered
    ensures forall i, j :: 0 <= i < j < 4 ==> StepRank(TrackingSteps(a)[i]) >= StepRank(TrackingSteps(a)[j])
    ensures Progress(a) <= Progress(b) ==> forall i :: 0 <= i < 4 ==> StepRank(TrackingSteps(a)[i]) <= StepRank(TrackingSteps(b)[i])
  {
  }

  /** The ETA in seconds shown as whole minutes and the remaining seconds. */
  function EtaSplit(eta: nat): (r: (nat, nat))
    ensures r.0 * 60 + r.1 == eta && r.1 < 60
  {
    (eta / 60, eta % 60)
  }

  /** The split is the only one with fewer than 60 seconds. */
  lemma EtaSplitUnique(eta: nat, mins: nat, secs: nat)
    requires mins * 60 + secs == eta && secs < 60
    ensures EtaSplit(eta) == (mins, secs)
  {
  }

  /** "Confirm Delivery": the tracked order becomes delivered and paid. */
  function ConfirmDelivery(s: AppStore.Store, active: Order, ids: AppStore.IdStream, now: int): AppStore.Store {
    AppStore.UpdateOrderStatus(s, active.id, Delivered, Some(Paid), ids, now)
  }

  /** After confirming, the confirmed order is delivered and paid and is no longer tracked. */
  lemma ConfirmedOrderLeavesTracking(s: AppStore.Store, active: Order, user: Option<User>, ids: AppStore.IdStream, now: int)
    ensures var r := ConfirmDelivery(s, active, ids, now);
            && (forall i :: 0 <= i < |s.orders| && s.orders[i].id == active.id ==>
                  r.orders[i].status == Delivered && r.orders[i].paymentStatus == Paid)
            && (ActiveOrder(r.orders, user).Some? ==> ActiveOrder(r.orders, user).value.id != active.id)
  {
    var r := ConfirmDelivery(s, active, ids, now);
    var i := ActiveOrderIsFirstUnderWay(r.orders, user);
  }
}
