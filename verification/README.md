# Thambi Chai fleet store, modelled in Dafny

A model of the tea-truck app's in-memory store and of the business rules its three
screens compute from it. The app runs a small fleet of tea trucks; customers order
from a truck, drivers clock in and sell at the roadside, and an admin approves
shift bookings, tops up stock and fills refill requests.

- `types.dfy` (`Types`): the records of the app as datatypes.
  - vehicles with a six-level stock record;
  - orders and their line items;
  - attendance logs;
  - shift bookings, refill requests and health reports;
  - notifications and messages.
- `text.dfy` (`Text`): the case-insensitive "contains tea" test used to tell drinks from snacks.
- `catalog.dfy` (`Catalog`): the menu (five teas, three snacks), the shift slots and the three seed trucks.
- `stock.dfy` (`StockRules`): the stock arithmetic.
  - per-unit consumption of tea, milk, sugar, cups and snacks;
  - levels clamped at 0 and capped at 100;
  - the levels that cross below 20;
  - refills, inbound top-ups and fuel burn.
- `cart.dfy` (`Carts`): the id→quantity carts of the customer and driver screens, with their "+" and "−" buttons and totals.
- `store.dfy` (`AppStore`): the store. Every mutator is a pure `Store -> Store` function.
  - Random ids and `Date.now()` are parameters.
  - An operation that sends a variable number of notifications takes a stream of ids (`IdStream`).
  - The invariant `Valid` says every level lies in 0..100 and no order line has a negative quantity. Every mutator keeps it, with three conditions on the arguments:
    - `UpdateVehicleStock` only for a value in 0..100, because the app does not clamp it;
    - `AddInboundStock` only for an amount of at least 0;
    - `PlaceOrder`, `DeductStock`, `ProcessManualSale` and `UpdateOrderStatus` only for order lines with quantity at least 0, because a negative quantity raises levels and can push them past 100.
  - The screens always meet the last condition: carts built by the "+" and "−" buttons hold no negative quantity, so a customer order (`CustomerView.HandleOrderKeepsValid`) and a quick sale (`DriverView.RecordManualSaleKeepsValid`) keep the store valid.
  - A truck's health follows its newest health report (`HealthFollowsReports`).
- `driver_view.dfy` (`DriverView`): the driver's screen.
  - the truck and open shift of the signed-in driver;
  - the shift countdown and its colours;
  - the day's tallies and the fuel colour;
  - the duplicate-slot guard;
  - the quick sale, whose recorded lines differ from the amount shown;
  - the inbox's unread count.
- `customer_view.dfy` (`CustomerView`): the customer's screen.
  - the cart total and placing an order;
  - the order being tracked and its four tracking steps;
  - the ETA minutes/seconds split;
  - confirming delivery.
- `admin_view.dfy` (`AdminView`): the admin's screen.
  - the active-shift and pending-booking filters;
  - the shift timers and their colours, and the "Return to HQ" alert;
  - approve/deny;
  - the clock-in history, sorted latest first;
  - the inbound-stock buttons and "Mark Filled".

Stock levels are `real`, so the ratios 0.5, 0.8, 0.2, 1.5 and 2 are exact. Quantities,
prices, minutes and timestamps are `int`; `/` on the non-negative operands used here is the
floor that `Math.floor` takes.

Several quirks of the app are modelled as they are, not fixed:
- The driver's quick sale records each line with the menu *id* as its type and a flat price of 10. No id contains "tea", so every quick-sale line is deducted as a snack (`DriverView.ManualSaleItemsFacts`, `DriverView.ManualSaleStock`). The amount shown to collect is the menu total, which differs (`DriverView.CollectDiffersFromRecorded`).
- Customer orders carry menu *names*, and the tea names do contain "Tea" (`CustomerView.OrderTeaUnits`).
- Marking an order delivered a second time deducts its stock a second time (`AppStore.DeliveredTwiceDeductsTwice`).
- A log counts as open when `clockOut` is absent or 0, following JavaScript's truthiness of `!l.clockOut` (`AppStore.IsOpen`).

## Model

| member | source | states |
|---|---|---|
| Text.TeaAt | store.ts:119 | a type holding "t","e","a" at some position, in any case, counts as tea |
| Text.NotTeaWithout | store.ts:119 | a type lacking one of the letters of "tea" in both cases never counts as tea |
| Catalog.FindInFinds | views/CustomerView.tsx:21 | the menu lookup finds an entry with the id exactly when one exists, and with distinct ids it finds that entry |
| Catalog.MenuFacts | constants.ts:11-23 | the menu is the five teas followed by the three snacks, with distinct ids and non-negative prices |
| Catalog.PriceOfIsMenuPrice | views/CustomerView.tsx:20-23 | a cart id is priced at its menu price, and at 0 when no menu entry has that id |
| Catalog.MenuIdsSpelledOut | constants.ts:11-23 | none of the eight menu ids contains "tea" |
| Catalog.MenuIdsAreNotTea | views/DriverView.tsx:371 | no menu id counts as tea, so a quick-sale line is never a drink |
| Catalog.TeaNamesSpelledOut | constants.ts:11-17 | each of the five tea names counts as tea |
| Catalog.SnackNamesSpelledOut | constants.ts:19-23 | none of the three snack names counts as tea |
| Catalog.MenuNamesAreTeaExactlyForTeas | views/CustomerView.tsx:42-45 | a menu name counts as tea exactly when the entry is one of the teas |
| StockRules.Set | store.ts:244-246 | writing one stock key sets that level and keeps the other five |
| StockRules.UsageIsProportional | store.ts:112-127 | the consumption of a list of lines is 0.5/0.8/0.2/1.5 per tea unit and 2 per other unit |
| StockRules.QuantitiesNonNegative | store.ts:118-127 | with no negative quantity, the tea and other unit counts are at least 0 |
| StockRules.Deduct | store.ts:129-136 | each consumable becomes max(0, level − consumption) and fuel is untouched |
| StockRules.DeductWithoutTea | store.ts:118-136 | a deduction without tea lines changes only the snacks level |
| StockRules.DeductNeverIncreases | store.ts:129-136 | for non-negative quantities no level rises, no consumable goes below 0 and fuel stays |
| StockRules.NoDuplicatesDistinct | store.ts:138 | a key list without repeats holds different keys at different positions |
| StockRules.NamesDistinct | store.ts:140 | different stock keys print different names in the alert |
| StockRules.CrossedAmong | store.ts:138-142 | the keys kept are exactly the listed ones whose level went from at least 20 to below 20; they keep the list's order, and a list without repeats gives a result without repeats |
| StockRules.ItemsListsEveryKeyOnce | store.ts:138 | the entries of the stock record list every key exactly once, in record order |
| StockRules.Crossings | store.ts:138-142 | the crossing keys are exactly those that went from at least 20 to below 20, each once and in the record's key order |
| StockRules.DeductNeverCrossesFuel | store.ts:129-142 | a deduction never raises a fuel alert |
| StockRules.Refill | store.ts:226-229 | a fuel refill sets only fuel to 100; a stock refill sets tea, milk, sugar and cups to 100 and snacks to 50, keeping fuel |
| StockRules.Inbound | store.ts:76 | the chosen level becomes min(100, old + amount) and the others stay |
| StockRules.Decay | store.ts:64-67 | fuel drops by 0.05 for an available truck and 0.01 otherwise, never below 0; nothing else changes |
| StockRules.RulesKeepRange | store.ts:64-136 | deduction, refill, inbound top-up and fuel burn keep every level within 0..100 |
| Carts.Get | views/CustomerView.tsx:121-123 | a key the cart does not hold reads as 0 |
| Carts.Put | views/CustomerView.tsx:121-123 | writing a key sets it, keeps every other key's value, adds the key once and keeps keys unique |
| Carts.Inc | views/CustomerView.tsx:123 | "+" adds exactly 1 to the clicked id and changes no other id |
| Carts.Dec | views/CustomerView.tsx:121 | "−" takes 1 off the clicked id but never below 0, and changes no other id |
| Carts.TotalAfterPut | views/CustomerView.tsx:20-23 | overwriting one entry moves the total by that item's price times the change in quantity |
| Carts.IncRaisesTotalAt | views/DriverView.tsx:324 | "+" raises the total by the item's price, for any price table |
| Carts.DecLowersTotalAt | views/DriverView.tsx:322 | "−" lowers the total by the item's price unless the quantity was 0 |
| Carts.IncRaisesTotal | views/CustomerView.tsx:123 | "+" raises the cart total by the item's menu price |
| Carts.DecLowersTotal | views/CustomerView.tsx:121 | "−" lowers the cart total by the item's menu price unless the quantity was 0 |
| Carts.GetNonNegative | views/CustomerView.tsx:121 | a cart without negative quantities reads no negative quantity |
| Carts.TotalNonNegativeAt | views/CustomerView.tsx:20-23 | with non-negative prices and quantities the total is at least 0 |
| Carts.TotalNonNegative | views/CustomerView.tsx:20-23 | a cart without negative quantities has a total of at least 0 |
| Carts.ClicksKeepCartWellFormed | views/CustomerView.tsx:121-123 | clicking "+" or "−" on a menu item keeps keys unique, ids on the menu and quantities non-negative |
| Carts.PutKeepsWellFormed | views/DriverView.tsx:322-324 | writing a non-negative quantity for a menu id keeps the cart on the menu and non-negative |
| AppStore.MapIf | store.ts:106 | mapping by id keeps the length, rewrites exactly the matching elements and keeps the rest |
| AppStore.Notify | store.ts:92-102 | a notification is prepended, unread, with the given id, recipient, title, text, kind and time; the older ones follow unchanged |
| AppStore.PostStacksNotices | store.ts:140 | notices sent one after another end up newest first, in front of the older notifications, with the k-th id of the stream |
| AppStore.SendNotification | store.ts:92-103 | exactly one unread notification is prepended and nothing else in the store changes |
| AppStore.MarkNotificationRead | store.ts:105-107 | the length is kept, only notifications with the id become read, and nothing else changes |
| AppStore.MarkReadIdempotent | store.ts:105-107 | marking the same id read twice is the same as once |
| AppStore.SendMessage | store.ts:80-90 | without a signed-in user nothing changes; otherwise one message from that user is appended |
| AppStore.MessagesKeepSendingOrder | store.ts:80-90 | two messages sent in turn end up after the old ones, in the order they were sent |
| AppStore.AddInboundStock | store.ts:73-78 | the target truck's chosen level becomes min(100, old + amount); other levels and other trucks are unchanged |
| AppStore.DeductStock | store.ts:109-148 | only trucks with the id have their stock deducted, and the low-stock warnings are posted |
| AppStore.LowStockAlertInjective | store.ts:140 | two warnings for the same truck are equal only for the same key |
| AppStore.LowStockAlertsExactlyCrossings | store.ts:138-142 | a truck gets a warning for a key exactly when that level crosses below 20, and every warning in the list is the warning of such a key |
| AppStore.LowStockAlertsOnePerCrossing | store.ts:138-142 | the warnings come one per crossed key, in the record's key order, no two alike, all to the admin as warnings |
| AppStore.NoTruckNoNotices | store.ts:110-147 | an unknown truck id produces no warnings |
| AppStore.OneTruckNotices | store.ts:110-147 | with unique truck ids, the warnings are exactly those of the one matching truck |
| AppStore.DeductStockNotices | store.ts:109-148 | with unique truck ids, the notifications posted are the matching truck's crossings; an unknown id changes nothing |
| AppStore.ProcessManualSale | store.ts:150-166 | one delivered, paid "WALK-IN" order with total Σ price × quantity is prepended, then the same lines are deducted |
| AppStore.FindIsFirst | store.ts:184 | `find` yields the first element meeting the test, and nothing exactly when no element does |
| AppStore.FindAfterMap | store.ts:256 | when a mapping keeps the test true, finding after the mapping gives the mapped first hit |
| AppStore.ClockIn | store.ts:168-181 | an open log (duration defaulting to 180) is prepended, the truck becomes available and the admin is told |
| AppStore.ClockOut | store.ts:183-192 | without an open log nothing changes; otherwise only that log is closed, its truck goes offline and the admin is told |
| AppStore.ClockInOpensShift | store.ts:168-184 | right after clocking in, the driver's open log is the new one |
| AppStore.ClockInThenOut | store.ts:168-192 | clocking in then out closes the new log, takes the truck offline and leaves both notices, newest first |
| AppStore.BookShift | store.ts:194-197 | the booking is prepended and the admin is told who requested which slot |
| AppStore.ShiftNotices | store.ts:200-206 | at most one notice per booking is sent |
| AppStore.UpdateShiftStatus | store.ts:199-207 | bookings with the id take the new status, the others are unchanged, and each matching driver is told |
| AppStore.ShiftNoticesForUniqueIds | store.ts:199-207 | with unique booking ids, an unknown id sends nothing and a known one sends one notice to that booking's driver |
| AppStore.RequestRefill | store.ts:209-220 | one pending request (kind defaulting to stock) is prepended and the admin is warned |
| AppStore.CompleteRefill | store.ts:222-230 | an unknown id changes nothing; otherwise the request is completed and its truck refilled by kind |
| AppStore.CompleteRefillIdempotent | store.ts:222-230 | filling the same request twice is the same as once |
| AppStore.RequestThenComplete | store.ts:209-230 | filling a request right after making it completes it and refills the requesting truck by the requested kind (stock by default); nothing else is notified, and a new id leaves the older requests alone |
| AppStore.SubmitHealthReport | store.ts:232-238 | the report is prepended and sets its truck's health; only a critical report notifies the admin |
| AppStore.SubmitKeepsHealthFollowingReports | store.ts:232-238 | filing a report keeps every truck's health equal to the status of its newest report, and the initial store starts out that way |
| AppStore.UpdateVehicleStatus | store.ts:240-242 | trucks with the id take the status and nothing else changes |
| AppStore.VehicleStatusLastWins | store.ts:240-242 | setting a truck's status twice leaves the second status |
| AppStore.ShiftSetsVehicleStatus | store.ts:168-192 | clocking in sets the truck's status to available and clocking out sets the open log's truck offline, exactly as the status update does |
| AppStore.UpdateVehicleStock | store.ts:244-246 | the target truck's chosen level becomes the value; other levels and trucks are unchanged |
| AppStore.PlaceOrder | store.ts:248-250 | the order is prepended and nothing else changes |
| AppStore.UpdateOrderStatus | store.ts:252-261 | only orders with the id change status; payment is kept when absent; stock is deducted exactly when the status is delivered and the id exists |
| AppStore.DeliveredTwiceDeductsTwice | store.ts:252-261 | marking the same order delivered twice deducts its lines from the truck twice |
| AppStore.BurnFuel | store.ts:56-71 | every truck's fuel burns by its status and nothing else changes |
| AppStore.InitialIsValid | store.ts:40-53 | the seeded store has every level within 0..100 and distinct truck ids |
| AppStore.InboundKeepsValid | store.ts:73-78 | an inbound top-up with a non-negative amount keeps the store valid |
| AppStore.DeductKeepsValid | store.ts:109-166 | a deduction or quick sale with non-negative quantities keeps the store valid |
| AppStore.RefillAndBurnKeepValid | store.ts:56-71 | filling a refill request and the fuel tick keep the store valid |
| AppStore.OrderTransitionsKeepValid | store.ts:248-261 | placing an order and changing an order's status keep the store valid |
| AppStore.UpdateVehicleStockKeepsValid | store.ts:244-246 | writing a level within 0..100 keeps the store valid |
| AppStore.MessagingKeepsValid | store.ts:80-107 | sending a notification, marking one read and sending a message keep the store valid |
| AppStore.RequestsKeepValid | store.ts:194-220 | booking a shift, deciding a booking and requesting a refill keep the store valid |
| AppStore.TruckStatusChangesKeepValid | store.ts:168-242 | clocking in or out, filing a health report and setting a truck's status keep the store valid |
| DriverView.MyVehicleIsFirstDriven | views/DriverView.tsx:27 | the driver's truck is one driven under their name (default "Ravi") when there is one, else the first truck |
| DriverView.RemainingMinutes | views/DriverView.tsx:35 | the countdown is never negative, is 0 without an open shift, and otherwise is duration minus whole elapsed minutes when positive |
| DriverView.RemainingWithinShift | views/DriverView.tsx:34-35 | the countdown lies within 0..duration and reaches 0 exactly when the elapsed minutes reach the duration |
| DriverView.RemainingNeverRises | views/DriverView.tsx:35 | as time passes the countdown never goes up |
| DriverView.ToggleShiftFlips | views/DriverView.tsx:305 | the header button opens a 180-minute shift on the driver's truck when none is open, and closes the open one otherwise |
| DriverView.TalliesIgnoreOthers | views/DriverView.tsx:45-48 | orders not delivered by this truck add nothing to cups sold or revenue |
| DriverView.FuelColour | views/DriverView.tsx:69-73 | the fuel colour is one of red, yellow and green |
| DriverView.FuelBands | views/DriverView.tsx:69-73 | red below 20, yellow from 20 below 50, green from 50 |
| DriverView.FuelColourWorsensAsFuelBurns | views/DriverView.tsx:69-73 | the fuel tick never improves a truck's fuel colour |
| DriverView.ShiftClockColour | views/DriverView.tsx:93 | the shift clock is red below 15 minutes, yellow below 30, dark otherwise |
| DriverView.HandleBookSlot | views/DriverView.tsx:50-67 | a slot the driver already holds on that date changes nothing; otherwise one pending booking for their truck is sent |
| DriverView.PrependKeepsSlotsUnique | views/DriverView.tsx:51-57 | adding a booking for a slot the driver does not hold keeps one booking per driver, date and slot |
| DriverView.BookingKeepsSlotsUnique | views/DriverView.tsx:50-67 | booking adds at most one booking, leaves the driver holding the slot and keeps slots unique |
| DriverView.DecisionKeepsSlotsUnique | store.ts:199-207 | approving or rejecting bookings keeps one booking per driver, date and slot |
| DriverView.ManualSaleItems | views/DriverView.tsx:371 | one line per cart entry, typed by the menu id, priced 10 |
| DriverView.RecordManualSale | views/DriverView.tsx:371 | "Payment Done" records the sale on the driver's truck and empties the cart |
| DriverView.RecordManualSaleKeepsValid | views/DriverView.tsx:371 | a quick sale from a cart without negative quantities keeps every level in 0..100 and every order line non-negative |
| DriverView.ManualSaleItemsFacts | views/DriverView.tsx:371 | a quick sale has no tea lines, its units are all counted as snacks, and its total is 10 per unit |
| DriverView.ManualSaleTallies | views/DriverView.tsx:45-48 | a quick sale adds 10 per unit to the truck's revenue and nothing to its cups sold |
| DriverView.ManualSaleStock | views/DriverView.tsx:371 | a quick sale takes 2 per unit from the truck's snacks and leaves every other level as it was |
| DriverView.RecordedSaleDeducts | views/DriverView.tsx:371 | the recorded sale deducts its lines from the driver's truck |
| DriverView.SnackSale | store.ts:118-136 | deducting quick-sale lines only lowers the snacks level |
| DriverView.CollectDiffersFromRecorded | views/DriverView.tsx:367-371 | one masala tea is shown as 15 to collect but recorded as 10 |
| DriverView.MarkReadLowersUnread | views/DriverView.tsx:29-30 | marking a notification read never raises the unread count, and lowers it when it was an unread one of the driver's |
| DriverView.MarkNotificationReadLowersUnread | views/DriverView.tsx:336 | tapping a notification never raises the unread badge |
| CustomerView.OrderItems | views/CustomerView.tsx:42-45 | one order line per cart entry, zero quantities included, with the menu name and price |
| CustomerView.HandleOrder | views/CustomerView.tsx:35-55 | with no truck, a zero total or no user nothing changes; otherwise one pending, unpaid order for the total is prepended and the cart is cleared |
| CustomerView.HandleOrderKeepsValid | views/CustomerView.tsx:35-55 | an order placed from a cart without negative quantities keeps the store valid |
| CustomerView.OrderItemsAddUpToTotal | views/CustomerView.tsx:42-46 | the lines of a placed order add up to its recorded total |
| CustomerView.MenuEntryNameIsTea | views/CustomerView.tsx:44 | an order line counts as tea exactly when its menu entry is a tea |
| CustomerView.OrderTeaUnits | views/CustomerView.tsx:42-45 | an order's tea units are the cart's tea units and the rest are counted as snacks |
| CustomerView.ActiveOrderIsFirstUnderWay | views/CustomerView.tsx:16-17 | the tracked order is the customer's first one still under way; none is tracked exactly when all are delivered or cancelled |
| CustomerView.TrackingSteps | views/CustomerView.tsx:184-189 | received is done, preparation is done iff preparing or on the way, on the way is current iff on the way, delivered is waiting |
| CustomerView.StepsAreProgress | views/CustomerView.tsx:184-189 | the steps never get more advanced further down, and an order further along never shows a step less advanced |
| CustomerView.EtaSplit | views/CustomerView.tsx:147-148 | minutes × 60 + seconds is the ETA, with seconds below 60 |
| CustomerView.EtaSplitUnique | views/CustomerView.tsx:147-148 | that split is the only one with fewer than 60 seconds |
| CustomerView.ConfirmedOrderLeavesTracking | views/CustomerView.tsx:203-207 | confirming makes the order delivered and paid, and it is no longer tracked |
| AdminView.Filter | views/AdminView.tsx:22-23 | the filtered list holds exactly the elements that pass and is no longer than the input |
| AdminView.FilterCounts | views/AdminView.tsx:22-23 | each element that passes is kept as many times as the input has it, and every other element is dropped |
| AdminView.FilterAppend | views/AdminView.tsx:22-23 | filtering a concatenation concatenates the filtered parts, so the kept elements stay in input order |
| AdminView.TimersFollowClockInAndOut | views/AdminView.tsx:23 | a new clock-in shows a timer, and a clock-out removes that shift's timer |
| AdminView.RemainMin | views/AdminView.tsx:32-33 | the admin timer is never negative |
| AdminView.RemainMinBounds | views/AdminView.tsx:32-33 | the timer lies within 0..duration and reaches 0 exactly when the elapsed minutes reach the duration |
| AdminView.FloorOfFloor | views/AdminView.tsx:32 | whole minutes of whole seconds are whole minutes of milliseconds |
| AdminView.TimerMatchesDriverCountdown | views/AdminView.tsx:32-33 | the admin timer equals the driver's countdown for elapsed = whole seconds since clock-in |
| AdminView.TimerColour | views/AdminView.tsx:34 | red below 15 minutes, yellow below 30, green otherwise |
| AdminView.TimerColoursAgree | views/AdminView.tsx:34 | the admin and driver colours agree below 30 minutes; above, green stands for the driver's dark |
| AdminView.AlertDriver | views/AdminView.tsx:47 | "Return to HQ" prepends one unread warning with the fixed title and message to the log's driver and changes nothing else |
| AdminView.AlertRaisesDriverBadge | views/AdminView.tsx:47 | the alert raises the alerted driver's unread badge by one and leaves other users' badges unchanged |
| AdminView.DecisionLeavesQueue | views/AdminView.tsx:59-65 | approve/deny moves only the chosen booking from pending to approved or rejected, and it leaves the queue |
| AdminView.DecisionNotifiesDriver | views/AdminView.tsx:64-65 | a decision tells the booking's driver once and keeps the older notifications |
| AdminView.InsertAtMost | views/AdminView.tsx:87 | inserting a log no later than a bound keeps every log no later than it |
| AdminView.InsertKeepsDescending | views/AdminView.tsx:87 | inserting into a list sorted latest first keeps it sorted |
| AdminView.InsertAddsOne | views/AdminView.tsx:87 | inserting adds exactly one copy of the log and drops nothing |
| AdminView.HistoryIsSortedPermutation | views/AdminView.tsx:87 | the history lists every log as often as the store holds it, latest clock-in first |
| AdminView.InboundButtonsCapAt100 | views/AdminView.tsx:134-149 | each inbound button raises its level by 20 or 10 or up to 100, never past 100, touches nothing else and keeps the store valid |
| AdminView.MarkFilledRemovesButton | views/AdminView.tsx:164 | after "Mark Filled" the request is completed and its button is gone |

## Left out

- Truck location jitter in the periodic tick uses `Math.random`; only the fuel burn of that tick is modelled (`AppStore.BurnFuel`).
- The ETA itself is computed with a square root over floating-point degrees; the model takes the ETA in seconds as a natural number (`CustomerView.EtaSplit`).
- Random ids, `Date.now()` and the ISO date strings are parameters of the operations rather than generated.
- `alert()` popups, React hooks, `setInterval` timers, markup and charts carry no rules and are not modelled. The driver's `elapsed` is taken as an argument (its first value, 0, before the timer fires is not modelled).
- React's state updaters, which fire notifications and deductions from inside other updaters, are modelled as ordinary effects in sequence.
- Numbers are exact reals and unbounded integers rather than JavaScript doubles, so rounding of the consumption ratios is not modelled.
- Case-insensitive matching of "tea" lower-cases ASCII letters only.
- The `stockAlerts` list of the store is never written by the app and is not modelled.
- The optional user fields (`location`, `goldPoints`, `bonusCredits`, `salesTarget`) are left out. So are the driver's sales-target progress bar, with its default target of 50, and the points and credit displays, which default to 0.
- The driver's "Request Stock Refill", "Request Fuel" and health-report buttons and the chat boxes only call `AppStore.RequestRefill`, `AppStore.SubmitHealthReport` and `AppStore.SendMessage` with constant arguments; those calls are not modelled separately.
- AdminView.HistoryIsSortedPermutation: the history is a sorted copy. The app sorts the store's own list in place, and that mutation is not modelled. Stability of the order among equal clock-in times is not stated.
- DriverView.MyVehicleIsFirstDriven: requires at least one truck, as the screen does when it reads `vehicles[0]`.
- AdminView.DecisionLeavesQueue: requires unique booking ids; with repeated ids the app updates every booking with that id and sends one notice for each.
- Carts.Put: keeps entries in insertion order, the order `Object.entries` lists non-numeric keys in; numeric-looking keys are not on the menu and their ordering is not modelled.
- CustomerView.HandleOrder: requires cart ids to be menu ids when the order goes through, because the app reads the menu entry of every id without checking it; an id off the menu would fail there.
- AppStore.ClockInThenOut: requires the clock-out time to differ from 0, because a log closed at time 0 still counts as open (`AppStore.IsOpen`); DriverView.ToggleShiftFlips and AdminView.TimersFollowClockInAndOut require the same of `now`.
- App routing, the login screen, the map and the stock gauges are presentational and are not part of this model.
