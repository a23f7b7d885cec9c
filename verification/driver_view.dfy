/** The rules of the driver's screen (views/DriverView.tsx): which truck and shift
    are the driver's, the shift countdown, the day's tallies, slot booking and the
    quick-sale cart. */
module DriverView {
  import opened Types
  import StockRules
  import Catalog
  import Carts
  import AppStore
  import Text

  /** The signed-in driver's name; an absent user or an empty name falls back to Ravi. */
  function DriverName(user: Option<User>): string {
    if user.Some? && user.value.name != "" then user.value.name else "Ravi"
  }

  /** The first truck driven under the name, or else the first truck; the screen needs
      at least one truck. */
  function MyVehicle(vs: seq<Vehicle>, user: Option<User>): (v: Vehicle)
    requires |vs| > 0
  {
    AppStore.Find(vs, (x: Vehicle) => x.driverName == DriverName(user)).GetOr(vs[0])
  }

  /** The driver's truck is the first one they drive, or the first truck when none is theirs. */
  lemma MyVehicleIsFirstDriven(vs: seq<Vehicle>, user: Option<User>)
    requires |vs| > 0
    ensures MyVehicle(vs, user) in vs
    ensures (exists i :: 0 <= i < |vs| && vs[i].driverName == DriverName(user)) ==>
              MyVehicle(vs, user).driverName == DriverName(user)
    ensures (forall i :: 0 <= i < |vs| ==> vs[i].driverName != DriverName(user)) ==> MyVehicle(vs, user) == vs[0]
  {
    var i := AppStore.FindIsFirst(vs, (x: Vehicle) => x.driverName == DriverName(user));
  }

  /** The signed-in driver's first open attendance log; without a signed-in user no
      log matches. */
  function ActiveShift(logs: seq<AttendanceLog>, user: Option<User>): Option<AttendanceLog> {
    match user
    case None => None
    case Some(u) => AppStore.FindOpen(logs, u.id)
  }

  /** The seconds the timer shows: the whole seconds since clock-in. */
  function Elapsed(now: int, clockIn: int): int {
    (now - clockIn) / 1000
  }

  /** The shift countdown: the planned minutes less the whole minutes elapsed, never
      below 0, and 0 when no shift is open. */
  function RemainingMinutes(shift: Option<AttendanceLog>, elapsed: int): (m: int)
    ensures m >= 0
    ensures shift.None? ==> m == 0
    ensures shift.Some? && m > 0 ==> m == shift.value.durationMinutes - elapsed / 60
  {
    match shift
    case None => 0
    case Some(l) => if l.durationMinutes - elapsed / 60 >= 0 then l.durationMinutes - elapsed / 60 else 0
  }

  /** Once the clock has started, the countdown lies between 0 and the planned length. */
  lemma RemainingWithinShift(l: AttendanceLog, elapsed: int)
    requires elapsed >= 0 && l.durationMinutes >= 0
    ensures 0 <= RemainingMinutes(Some(l), elapsed) <= l.durationMinutes
    ensures RemainingMinutes(Some(l), elapsed) == 0 <==> elapsed / 60 >= l.durationMinutes
  {
  }

  /** The countdown never goes up as time passes. */
  lemma RemainingNeverRises(shift: Option<AttendanceLog>, e1: int, e2: int)
    requires e1 <= e2
    ensures RemainingMinutes(shift, e2) <= RemainingMinutes(shift, e1)
  {
  }

  /** The shift button: ends the driver's open shift, or else starts a 180-minute
      Morning shift on their truck. */
  function ToggleShift(s: AppStore.Store, user: User, logId: string, noteId: string, now: int): AppStore.Store
    requires |s.vehicles| > 0
  {
    if ActiveShift(s.attendanceLogs, Some(user)).Some? then AppStore.ClockOut(s, user.id, noteId, now)
    else AppStore.ClockIn(s, user.id, user.name, MyVehicle(s.vehicles, Some(user)).id, "Morning", Some(180), logId, noteId, now)
  }

  /** Starting a shift gives the driver an open 180-minute shift on their truck;
      ending one closes the shift the screen showed. */
  lemma ToggleShiftFlips(s: AppStore.Store, user: User, logId: string, noteId: string, now: int)
    requires |s.vehicles| > 0 && now != 0
    ensures var r := ToggleShift(s, user, logId, noteId, now);
            ActiveShift(s.attendanceLogs, Some(user)).None? ==>
              && ActiveShift(r.attendanceLogs, Some(user)) == Some(r.attendanceLogs[0])
              && r.attendanceLogs[0].durationMinutes == 180
              && r.attendanceLogs[0].vehicleId == MyVehicle(s.vehicles, Some(user)).id
    ensures var r := ToggleShift(s, user, logId, noteId, now);
            ActiveShift(s.attendanceLogs, Some(user)).Some? ==>
              forall i :: 0 <= i < |s.attendanceLogs| && s.attendanceLogs[i].id == ActiveShift(s.attendanceLogs, Some(user)).value.id ==>
                !AppStore.IsOpen(r.attendanceLogs[i])
  {
  }

  // ---------------------------------------------------------------------------
  // Tallies

  /** An order of this truck that has been delivered. */
  predicate DeliveredBy(o: Order, vehicleId: string) {
    o.vehicleId == vehicleId && o.status == Delivered
  }

  /** Units on tea lines over the truck's delivered orders. */
  function CupsSoldToday(orders: seq<Order>, vehicleId: string): int
    decreases |orders|
  {
    if orders == [] then 0
    else (if DeliveredBy(orders[0], vehicleId) then StockRules.TeaQuantity(orders[0].items) else 0)
         + CupsSoldToday(orders[1..], vehicleId)
  }

  /** The totals of the truck's delivered orders. */
  function RevenueToday(orders: seq<Order>, vehicleId: string): int
    decreases |orders|
  {
    if orders == [] then 0
    else (if DeliveredBy(orders[0], vehicleId) then orders[0].totalPrice else 0) + RevenueToday(orders[1..], vehicleId)
  }

  /** Orders of other trucks, and orders not delivered, never move the tallies. */
  lemma {:induction false} TalliesIgnoreOthers(orders: seq<Order>, vehicleId: string)
    requires forall i :: 0 <= i < |orders| ==> !DeliveredBy(orders[i], vehicleId)
    ensures CupsSoldToday(orders, vehicleId) == 0 && RevenueToday(orders, vehicleId) == 0
    decreases |orders|
  {
    if orders != [] {
      TalliesIgnoreOthers(orders[1..], vehicleId);
    }
  }

  // ---------------------------------------------------------------------------
  // Colours

  datatype Colour = Red | Yellow | Green | Dark

  /** `getFuelColor` */
  function FuelColour(pct: real): (c: Colour)
    ensures c != Dark
  {
    if pct < 20.0 then Red else if pct < 50.0 then Yellow else Green
  }

  /** The fuel colour bands: red below 20, yellow from 20 to below 50, green from 50. */
  lemma FuelBands(pct: real)
    ensures FuelColour(pct) == Red <==> pct < 20.0
    ensures FuelColour(pct) == Yellow <==> 20.0 <= pct < 50.0
    ensures FuelColour(pct) == Green <==> 50.0 <= pct
  {
  }

  /** How alarming a colour is. */
  function Severity(c: Colour): nat {
    match c
    case Red => 2
    case Yellow => 1
    case Green => 0
    case Dark => 0
  }

  /** Burning fuel never makes the fuel colour less alarming. */
  lemma FuelColourWorsensAsFuelBurns(s: AppStore.Store, i: int)
    requires 0 <= i < |s.vehicles|
    ensures Severity(FuelColour(AppStore.BurnFuel(s).vehicles[i].stock.fuel)) >= Severity(FuelColour(s.vehicles[i].stock.fuel))
  {
  }

  /** The shift-clock banner: red below 15 minutes, yellow below 30, dark otherwise. */
  function ShiftClockColour(remaining: int): (c: Colour)
    ensures c == Red <==> remaining < 15
    ensures c == Yellow <==> 15 <= remaining < 30
    ensures c == Dark <==> remaining >= 30
  {
    if remaining < 15 then Red else if remaining < 30 then Yellow else Dark
  }

  // ---------------------------------------------------------------------------
  // Slot booking

  /** Whether the driver already holds a booking for that date and slot. */
  predicate AlreadyBooked(bs: seq<ShiftBooking>, driverId: string, date: string, slot: string) {
    exists i :: 0 <= i < |bs| && bs[i].driverId == driverId && bs[i].date == date && bs[i].slot == slot
  }

  /** `handleBookSlot`: a slot the driver already holds on that date is refused
      (nothing changes); otherwise one pending booking for the driver's truck is sent. */
  function HandleBookSlot(s: AppStore.Store, user: User, date: string, slot: string,
                          bookingId: string, noteId: string, now: int): (r: AppStore.Store)
    requires |s.vehicles| > 0
    ensures AlreadyBooked(s.shiftBookings, user.id, date, slot) ==> r == s
    ensures !AlreadyBooked(s.shiftBookings, user.id, date, slot) ==>
              r == AppStore.BookShift(s, ShiftBooking(bookingId, user.id, MyVehicle(s.vehicles, Some(user)).id, date, slot,
                                                      ShiftStatus.Pending, now), noteId, now)
  {
    if AlreadyBooked(s.shiftBookings, user.id, date, slot) then s
    else AppStore.BookShift(s, ShiftBooking(bookingId, user.id, MyVehicle(s.vehicles, Some(user)).id, date, slot,
                                            ShiftStatus.Pending, now), noteId, now)
  }

  /** No driver holds two bookings for the same date and slot. */
  predicate UniqueSlots(bs: seq<ShiftBooking>) {
    forall i, j :: 0 <= i < j < |bs| ==>
      !(bs[i].driverId == bs[j].driverId && bs[i].date == bs[j].date && bs[i].slot == bs[j].slot)
  }

  /** A booking for a slot the driver does not hold yet keeps the slots unique. */
  lemma {:induction false} PrependKeepsSlotsUnique(b: ShiftBooking, bs: seq<ShiftBooking>)
    requires UniqueSlots(bs) && !AlreadyBooked(bs, b.driverId, b.date, b.slot)
    ensures UniqueSlots([b] + bs)
  {
  }

  /** Booking through the screen adds at most one booking, leaves the driver holding
      the slot and keeps one booking per driver, date and slot. */
  lemma {:induction false} BookingKeepsSlotsUnique(s: AppStore.Store, user: User, date: string, slot: string,
                                bookingId: string, noteId: string, now: int)
    requires |s.vehicles| > 0 && UniqueSlots(s.shiftBookings)
    ensures var r := HandleBookSlot(s, user, date, slot, bookingId, noteId, now);
            && UniqueSlots(r.shiftBookings)
            && |r.shiftBookings| <= |s.shiftBookings| + 1
            && AlreadyBooked(r.shiftBookings, user.id, date, slot)
  {
    var r := HandleBookSlot(s, user, date, slot, bookingId, noteId, now);
    if !AlreadyBooked(s.shiftBookings, user.id, date, slot) {
      var b := r.shiftBookings[0];
      assert r.shiftBookings == [b] + s.shiftBookings;
      PrependKeepsSlotsUnique(b, s.shiftBookings);
    }
  }

  /** Approving or rejecting bookings keeps one booking per driver, date and slot. */
  lemma DecisionKeepsSlotsUnique(s: AppStore.Store, id: string, status: ShiftStatus, ids: AppStore.IdStream, now: int)
    requires UniqueSlots(s.shiftBookings)
    ensures UniqueSlots(AppStore.UpdateShiftStatus(s, id, status, ids, now).shiftBookings)
  {
  }

  // ---------------------------------------------------------------------------
  // Quick sale

  /** What the screen asks to collect: the cart at menu prices. */
  function CollectAmount(cart: Carts.Cart): int {
    Carts.Total(cart)
  }

  /** The lines "Payment Done" records: the menu id as the type and a flat price of 10. */
  function ManualSaleItems(cart: Carts.Cart): (items: seq<LineItem>)
    ensures |items| == |cart|
    ensures forall i :: 0 <= i < |cart| ==> items[i] == LineItem(cart[i].id, cart[i].qty, 10)
  {
    seq(|cart|, i requires 0 <= i < |cart| => LineItem(cart[i].id, cart[i].qty, 10))
  }

  /** "Payment Done": the sale is recorded on the driver's truck and the cart is emptied. */
  function RecordManualSale(s: AppStore.Store, user: Option<User>, cart: Carts.Cart, orderId: string,
                            ids: AppStore.IdStream, now: int): (r: (AppStore.Store, Carts.Cart))
    requires |s.vehicles| > 0
    ensures r.1 == []
    ensures r.0 == AppStore.ProcessManualSale(s, MyVehicle(s.vehicles, user).id, ManualSaleItems(cart), orderId, ids, now)
  {
    (AppStore.ProcessManualSale(s, MyVehicle(s.vehicles, user).id, ManualSaleItems(cart), orderId, ids, now), [])
  }

  /** A quick sale from a cart the "+" and "−" buttons built keeps the store valid:
      its lines carry the cart's quantities, none of them negative. */
  lemma RecordManualSaleKeepsValid(s: AppStore.Store, user: Option<User>, cart: Carts.Cart, orderId: string,
                                   ids: AppStore.IdStream, now: int)
    requires |s.vehicles| > 0 && AppStore.Valid(s) && Carts.NonNegative(cart)
    ensures AppStore.Valid(RecordManualSale(s, user, cart, orderId, ids, now).0)
  {
    var items := ManualSaleItems(cart);
    assert StockRules.NonNegativeQuantities(items);
    AppStore.DeductKeepsValid(s, MyVehicle(s.vehicles, user).id, items, orderId, ids, now);
  }

  /** Menu ids never mention "tea", so every recorded line counts as a snack, and the
      recorded total is 10 per unit whatever the menu price. */
  lemma {:induction false} ManualSaleItemsFacts(cart: Carts.Cart)
    requires Carts.InMenu(cart)
    ensures StockRules.TeaQuantity(ManualSaleItems(cart)) == 0
    ensures StockRules.OtherQuantity(ManualSaleItems(cart)) == Carts.Quantity(cart)
    ensures AppStore.LineTotal(ManualSaleItems(cart)) == 10 * Carts.Quantity(cart)
    decreases |cart|
  {
    if cart != [] {
      var items := ManualSaleItems(cart);
      assert items[1..] == ManualSaleItems(cart[1..]);
      assert Carts.InMenu(cart[1..]) by {
        forall i | 0 <= i < |cart[1..]|
          ensures Catalog.IsMenuId(cart[1..][i].id)
        {
          assert cart[1..][i] == cart[i + 1];
        }
      }
      ManualSaleItemsFacts(cart[1..]);
      var id := cart[0].id;
      assert !Text.IsTea(id) by {
        Catalog.PriceOfIsMenuPrice(id);
        Catalog.MenuIdsAreNotTea();
        var m :| m in Catalog.Menu && m.id == id;
      }
    }
  }

  /** A quick sale adds 10 per unit to the truck's revenue and never adds to its cups sold. */
  lemma ManualSaleTallies(s: AppStore.Store, user: Option<User>, cart: Carts.Cart, orderId: string,
                          ids: AppStore.IdStream, now: int)
    requires |s.vehicles| > 0 && Carts.InMenu(cart)
    ensures var r := RecordManualSale(s, user, cart, orderId, ids, now).0;
            var vid := MyVehicle(s.vehicles, user).id;
            && RevenueToday(r.orders, vid) == RevenueToday(s.orders, vid) + 10 * Carts.Quantity(cart)
            && CupsSoldToday(r.orders, vid) == CupsSoldToday(s.orders, vid)
  {
    var r := RecordManualSale(s, user, cart, orderId, ids, now).0;
    ManualSaleItemsFacts(cart);
    assert r.orders[1..] == s.orders;
  }

  /** A quick sale takes 2 per unit from the truck's snacks and leaves every other
      level, fuel included, as it was. */
  lemma {:induction false} ManualSaleStock(s: AppStore.Store, user: Option<User>, cart: Carts.Cart, orderId: string,
                        ids: AppStore.IdStream, now: int, i: int)
    requires |s.vehicles| > 0 && Carts.InMenu(cart)
    requires 0 <= i < |s.vehicles| && s.vehicles[i].id == MyVehicle(s.vehicles, user).id
    requires StockRules.InRange(s.vehicles[i].stock)
    ensures var before := s.vehicles[i].stock;
            RecordManualSale(s, user, cart, orderId, ids, now).0.vehicles[i].stock
            == before.(snacks := StockRules.Max(0.0, before.snacks - 2.0 * Carts.Quantity(cart) as real))
  {
    var st := s.vehicles[i].stock;
    var after := RecordManualSale(s, user, cart, orderId, ids, now).0.vehicles[i].stock;
    var items := ManualSaleItems(cart);
    calc {
      after;
      { RecordedSaleDeducts(s, user, cart, orderId, ids, now, i); }
      StockRules.Deduct(st, items);
      { SnackSale(st, cart); }
      st.(snacks := StockRules.Max(0.0, st.snacks - 2.0 * Carts.Quantity(cart) as real));
    }
  }

  lemma {:induction false} RecordedSaleDeducts(s: AppStore.Store, user: Option<User>, cart: Carts.Cart, orderId: string,
                            ids: AppStore.IdStream, now: int, i: int)
    requires |s.vehicles| > 0
    requires 0 <= i < |s.vehicles| && s.vehicles[i].id == MyVehicle(s.vehicles, user).id
    ensures RecordManualSale(s, user, cart, orderId, ids, now).0.vehicles[i].stock
            == StockRules.Deduct(s.vehicles[i].stock, ManualSaleItems(cart))
  {
  }

  lemma {:induction false} SnackSale(st: Stock, cart: Carts.Cart)
    requires Carts.InMenu(cart) && StockRules.InRange(st)
    ensures StockRules.Deduct(st, ManualSaleItems(cart))
            == st.(snacks := StockRules.Max(0.0, st.snacks - 2.0 * Carts.Quantity(cart) as real))
  {
    assert StockRules.Get(st, StockRules.Tea) >= 0.0 && StockRules.Get(st, StockRules.Milk) >= 0.0;
    assert StockRules.Get(st, StockRules.Sugar) >= 0.0 && StockRules.Get(st, StockRules.Cups) >= 0.0;
    ManualSaleItemsFacts(cart);
    StockRules.DeductWithoutTea(st, ManualSaleItems(cart));
  }

  /** The amount shown and the amount recorded disagree: one masala tea is shown as
      15 but recorded as 10. */
  lemma CollectDiffersFromRecorded()
    ensures CollectAmount([Carts.Entry("masala", 1)]) == 15
    ensures AppStore.LineTotal(ManualSaleItems([Carts.Entry("masala", 1)])) == 10
  {
  }

  // ---------------------------------------------------------------------------
  // Inbox

  /** A notification addressed to the signed-in driver or to everyone. */
  predicate ForMe(n: Notification, user: Option<User>) {
    (user.Some? && n.userId == user.value.id) || n.userId == "all"
  }

  /** The badge count: unread notifications addressed to the driver or to all. */
  function UnreadCount(notes: seq<Notification>, user: Option<User>): nat
    decreases |notes|
  {
    if notes == [] then 0
    else (if ForMe(notes[0], user) && !notes[0].read then 1 else 0) + UnreadCount(notes[1..], user)
  }

  /** Opening a notification never raises the badge count, and lowers it when an
      unread notification of the driver's carries that id. */
  lemma {:induction false} MarkReadLowersUnread(notes: seq<Notification>, id: string, user: Option<User>)
    ensures var after := AppStore.MapIf(notes, (n: Notification) => n.id == id, (n: Notification) => n.(read := true));
            && UnreadCount(after, user) <= UnreadCount(notes, user)
            && ((exists i :: 0 <= i < |notes| && notes[i].id == id && ForMe(notes[i], user) && !notes[i].read) ==>
                  UnreadCount(after, user) < UnreadCount(notes, user))
    decreases |notes|
  {
    var p := (n: Notification) => n.id == id;
    var f := (n: Notification) => n.(read := true);
    if notes != [] {
      var after := AppStore.MapIf(notes, p, f);
      assert after[1..] == AppStore.MapIf(notes[1..], p, f);
      MarkReadLowersUnread(notes[1..], id, user);
      if exists i :: 0 <= i < |notes| && notes[i].id == id && ForMe(notes[i], user) && !notes[i].read {
        var i :| 0 <= i < |notes| && notes[i].id == id && ForMe(notes[i], user) && !notes[i].read;
        if i > 0 {
          assert notes[1..][i - 1] == notes[i];
        }
      }
    }
  }

  /** The same, stated on the store's mark-read transition. */
  lemma MarkNotificationReadLowersUnread(s: AppStore.Store, id: string, user: Option<User>)
    ensures UnreadCount(AppStore.MarkNotificationRead(s, id).notifications, user) <= UnreadCount(s.notifications, user)
  {
    MarkReadLowersUnread(s.notifications, id, user);
  }
}
