/** The application store (store.ts): every collection the views read, and the
    mutators as pure transitions `Store -> Store`. Random ids, `Date.now()` and the
    signed-in user are parameters. */
module AppStore {
  import opened Types
  import StockRules
  import Catalog

  datatype Store = Store(
    vehicles: seq<Vehicle>,
    orders: seq<Order>,
    attendanceLogs: seq<AttendanceLog>,
    refillRequests: seq<RefillRequest>,
    shiftBookings: seq<ShiftBooking>,
    healthReports: seq<HealthReport>,
    notifications: seq<Notification>,
    messages: seq<Message>)

  /** The random id generator as seen by one call: `ids(k)` is the k-th id it draws. */
  type IdStream = nat -> string

  /** Rewrites with `f` the elements `hit` selects and keeps the rest: the shape of
      every id-targeted update. */
  function MapIf<T>(xs: seq<T>, hit: T -> bool, f: T -> T): (r: seq<T>)
    ensures |r| == |xs|
    ensures forall i :: 0 <= i < |xs| ==> r[i] == if hit(xs[i]) then f(xs[i]) else xs[i]
  {
    seq(|xs|, i requires 0 <= i < |xs| => if hit(xs[i]) then f(xs[i]) else xs[i])
  }

  /** No two trucks share an id. */
  predicate UniqueVehicleIds(vs: seq<Vehicle>) {
    forall i, j :: 0 <= i < j < |vs| ==> vs[i].id != vs[j].id
  }

  // ---------------------------------------------------------------------------
  // Notifications and messages

  /** What a `sendNotification` call says, before it is given an id and a time. */
  datatype Notice = Notice(userId: string, title: string, message: string, kind: NoticeKind)

  function Stamp(n: Notice, id: string, now: int): Notification {
    Notification(id, n.userId, n.title, n.message, n.kind, now, false)
  }

  /** `sendNotification` on the list alone: a new unread notification goes first. */
  function Notify(notes: seq<Notification>, n: Notice, id: string, now: int): (r: seq<Notification>)
    ensures |r| == |notes| + 1 && r[1..] == notes
    ensures r[0].id == id && r[0].userId == n.userId && r[0].title == n.title
    ensures r[0].message == n.message && r[0].kind == n.kind && r[0].timestamp == now && !r[0].read
  {
    [Stamp(n, id, now)] + notes
  }

  /** Several notices sent one after another; the k-th gets the id `ids(k0 + k)`. */
  function Post(notes: seq<Notification>, ns: seq<Notice>, ids: IdStream, k0: nat, now: int): seq<Notification>
    decreases |ns|
  {
    if ns == [] then notes
    else Post(Notify(notes, ns[0], ids(k0), now), ns[1..], ids, k0 + 1, now)
  }

  /** Sending notices one by one stacks them on top of the list, last sent first,
      each unread and with its own id; the old list stays underneath. */
  lemma {:induction false} PostStacksNotices(notes: seq<Notification>, ns: seq<Notice>, ids: IdStream, k0: nat, now: int)
    ensures |Post(notes, ns, ids, k0, now)| == |notes| + |ns|
    ensures Post(notes, ns, ids, k0, now)[|ns|..] == notes
    ensures forall k :: 0 <= k < |ns| ==> Post(notes, ns, ids, k0, now)[|ns| - 1 - k] == Stamp(ns[k], ids(k0 + k), now)
    decreases |ns|
  {
    if ns != [] {
      var notes1 := Notify(notes, ns[0], ids(k0), now);
      PostStacksNotices(notes1, ns[1..], ids, k0 + 1, now);
      var r := Post(notes, ns, ids, k0, now);
      assert r == Post(notes1, ns[1..], ids, k0 + 1, now);
      assert r[|ns| - 1..] == notes1;
      assert r[|ns|..] == notes1[1..];
      forall k | 0 <= k < |ns|
        ensures r[|ns| - 1 - k] == Stamp(ns[k], ids(k0 + k), now)
      {
        if k == 0 {
          assert r[|ns| - 1] == r[|ns| - 1..][0];
        } else {
          assert ns[k] == ns[1..][k - 1];
        }
      }
    }
  }

  function SendNotification(s: Store, userId: string, title: string, message: string, kind: NoticeKind,
                            id: string, now: int): (r: Store)
    ensures r == s.(notifications := r.notifications)
    ensures |r.notifications| == |s.notifications| + 1 && r.notifications[1..] == s.notifications
    ensures r.notifications[0] == Notification(id, userId, title, message, kind, now, false)
  {
    s.(notifications := Notify(s.notifications, Notice(userId, title, message, kind), id, now))
  }

  function MarkNotificationRead(s: Store, id: string): (r: Store)
    ensures r == s.(notifications := r.notifications)
    ensures |r.notifications| == |s.notifications|
    ensures forall i :: 0 <= i < |s.notifications| ==>
              if s.notifications[i].id == id then r.notifications[i] == s.notifications[i].(read := true)
              else r.notifications[i] == s.notifications[i]
  {
    s.(notifications := MapIf(s.notifications, (n: Notification) => n.id == id, (n: Notification) => n.(read := true)))
  }

  /** Marking a notification read a second time changes nothing. */
  lemma MarkReadIdempotent(s: Store, id: string)
    ensures MarkNotificationRead(MarkNotificationRead(s, id), id) == MarkNotificationRead(s, id)
  {
  }

  /** Without a signed-in user nothing is sent; otherwise the message is appended. */
  function SendMessage(s: Store, user: Option<User>, receiverId: string, text: string, id: string, now: int): (r: Store)
    ensures user.None? ==> r == s
    ensures user.Some? ==>
              && r == s.(messages := r.messages)
              && r.messages == s.messages + [Message(id, user.value.id, receiverId, text, now)]
  {
    match user
    case None => s
    case Some(u) => s.(messages := s.messages + [Message(id, u.id, receiverId, text, now)])
  }

  /** A user's messages are kept in the order they were sent. */
  lemma MessagesKeepSendingOrder(s: Store, u: User, to1: string, text1: string, id1: string, t1: int,
                                 to2: string, text2: string, id2: string, t2: int)
    ensures SendMessage(SendMessage(s, Some(u), to1, text1, id1, t1), Some(u), to2, text2, id2, t2).messages
            == s.messages + [Message(id1, u.id, to1, text1, t1), Message(id2, u.id, to2, text2, t2)]
  {
    var m1, m2 := Message(id1, u.id, to1, text1, t1), Message(id2, u.id, to2, text2, t2);
    assert s.messages + [m1] + [m2] == s.messages + [m1, m2];
  }

  // ---------------------------------------------------------------------------
  // Stock

  function AddInboundStock(s: Store, vehicleId: string, it: StockRules.Item, amount: real): (r: Store)
    ensures r == s.(vehicles := r.vehicles) && |r.vehicles| == |s.vehicles|
    ensures forall i :: 0 <= i < |s.vehicles| && s.vehicles[i].id != vehicleId ==> r.vehicles[i] == s.vehicles[i]
    ensures forall i :: 0 <= i < |s.vehicles| && s.vehicles[i].id == vehicleId ==>
              && r.vehicles[i] == s.vehicles[i].(stock := r.vehicles[i].stock)
              && StockRules.Get(r.vehicles[i].stock, it)
                 == StockRules.Min(StockRules.Full, StockRules.Get(s.vehicles[i].stock, it) + amount)
              && forall o :: o != it ==> StockRules.Get(r.vehicles[i].stock, o) == StockRules.Get(s.vehicles[i].stock, o)
  {
    s.(vehicles := MapIf(s.vehicles, (v: Vehicle) => v.id == vehicleId,
                         (v: Vehicle) => v.(stock := StockRules.Inbound(v.stock, it, amount))))
  }

  /** The admin warning for one key of one truck. */
  function LowStockAlert(vehicleId: string, it: StockRules.Item): Notice {
    Notice("admin", "Low Stock Alert", StockRules.Name(it) + " is below 20% on truck " + vehicleId, Warning)
  }

  /** The warnings raised by deducting `items` from truck `v`, in record order. */
  function LowStockAlerts(v: Vehicle, items: seq<LineItem>): seq<Notice> {
    var cs := StockRules.Crossings(v.stock, StockRules.Deduct(v.stock, items));
    seq(|cs|, k requires 0 <= k < |cs| => LowStockAlert(v.id, cs[k]))
  }

  /** The warnings of a deduction, truck by truck over the trucks with the id. */
  function DeductionNotices(vs: seq<Vehicle>, vehicleId: string, items: seq<LineItem>): seq<Notice>
    decreases |vs|
  {
    if vs == [] then []
    else (if vs[0].id == vehicleId then LowStockAlerts(vs[0], items) else []) + DeductionNotices(vs[1..], vehicleId, items)
  }

  /** `deductStock`: the truck's consumables drop by the fixed ratios (see
      StockRules.Deduct) and an admin warning is sent per level that crossed below 20. */
  function DeductStock(s: Store, vehicleId: string, items: seq<LineItem>, ids: IdStream, now: int): (r: Store)
    ensures r == s.(vehicles := r.vehicles, notifications := r.notifications) && |r.vehicles| == |s.vehicles|
    ensures forall i :: 0 <= i < |s.vehicles| && s.vehicles[i].id != vehicleId ==> r.vehicles[i] == s.vehicles[i]
    ensures forall i :: 0 <= i < |s.vehicles| && s.vehicles[i].id == vehicleId ==>
              r.vehicles[i] == s.vehicles[i].(stock := StockRules.Deduct(s.vehicles[i].stock, items))
    ensures r.notifications == Post(s.notifications, DeductionNotices(s.vehicles, vehicleId, items), ids, 0, now)
  {
    s.(vehicles := MapIf(s.vehicles, (v: Vehicle) => v.id == vehicleId,
                         (v: Vehicle) => v.(stock := StockRules.Deduct(v.stock, items))),
       notifications := Post(s.notifications, DeductionNotices(s.vehicles, vehicleId, items), ids, 0, now))
  }

  /** Different keys give different warnings. */
  lemma LowStockAlertInjective(vehicleId: string, a: StockRules.Item, b: StockRules.Item)
    requires LowStockAlert(vehicleId, a) == LowStockAlert(vehicleId, b)
    ensures a == b
  {
    var x := " is below 20% on truck " + vehicleId;
    var na, nb := StockRules.Name(a), StockRules.Name(b);
    var m := na + x;
    assert m == LowStockAlert(vehicleId, a).message == LowStockAlert(vehicleId, b).message == nb + x;
    assert m[..|na|] == na && m[..|nb|] == nb;
    StockRules.NamesDistinct(a, b);
  }

  /** A deduction warns about exactly the levels that crossed below 20: each such
      level has its warning, and every warning is the one of some such level. */
  lemma LowStockAlertsExactlyCrossings(v: Vehicle, items: seq<LineItem>)
    ensures forall it :: LowStockAlert(v.id, it) in LowStockAlerts(v, items)
                         <==> StockRules.Crossed(v.stock, StockRules.Deduct(v.stock, items), it)
    ensures forall n :: n in LowStockAlerts(v, items) ==>
              exists it :: StockRules.Crossed(v.stock, StockRules.Deduct(v.stock, items), it) && n == LowStockAlert(v.id, it)
  {
    var after := StockRules.Deduct(v.stock, items);
    var cs := StockRules.Crossings(v.stock, after);
    var a := LowStockAlerts(v, items);
    forall it
      ensures LowStockAlert(v.id, it) in a <==> StockRules.Crossed(v.stock, after, it)
    {
      if LowStockAlert(v.id, it) in a {
        var k :| 0 <= k < |a| && a[k] == LowStockAlert(v.id, it);
        LowStockAlertInjective(v.id, cs[k], it);
      }
      if StockRules.Crossed(v.stock, after, it) {
        var k :| 0 <= k < |cs| && cs[k] == it;
        assert a[k] == LowStockAlert(v.id, it);
      }
    }
    forall n | n in a
      ensures exists it :: StockRules.Crossed(v.stock, after, it) && n == LowStockAlert(v.id, it)
    {
      var k :| 0 <= k < |a| && a[k] == n;
      assert StockRules.Crossed(v.stock, after, cs[k]);
    }
  }

  /** The warnings come one per crossed level, in the record order of the levels
      (see StockRules.Crossings), no two alike, all to the admin as warnings. */
  lemma LowStockAlertsOnePerCrossing(v: Vehicle, items: seq<LineItem>)
    ensures |LowStockAlerts(v, items)| == |StockRules.Crossings(v.stock, StockRules.Deduct(v.stock, items))|
    ensures forall k :: 0 <= k < |LowStockAlerts(v, items)| ==>
              LowStockAlerts(v, items)[k] == LowStockAlert(v.id, StockRules.Crossings(v.stock, StockRules.Deduct(v.stock, items))[k])
    ensures forall i, j :: 0 <= i < j < |LowStockAlerts(v, items)| ==> LowStockAlerts(v, items)[i] != LowStockAlerts(v, items)[j]
    ensures forall n :: n in LowStockAlerts(v, items) ==> n.userId == "admin" && n.kind == Warning
  {
    var cs := StockRules.Crossings(v.stock, StockRules.Deduct(v.stock, items));
    var a := LowStockAlerts(v, items);
    StockRules.NoDuplicatesDistinct(cs);
    forall i, j | 0 <= i < j < |a|
      ensures a[i] != a[j]
    {
      if a[i] == a[j] {
        LowStockAlertInjective(v.id, cs[i], cs[j]);
      }
    }
  }

  lemma {:induction false} NoTruckNoNotices(vs: seq<Vehicle>, vehicleId: string, items: seq<LineItem>)
    requires forall i :: 0 <= i < |vs| ==> vs[i].id != vehicleId
    ensures DeductionNotices(vs, vehicleId, items) == []
    decreases |vs|
  {
    if vs != [] {
      NoTruckNoNotices(vs[1..], vehicleId, items);
    }
  }

  lemma {:induction false} OneTruckNotices(vs: seq<Vehicle>, vehicleId: string, items: seq<LineItem>, j: nat)
    requires UniqueVehicleIds(vs) && j < |vs| && vs[j].id == vehicleId
    ensures DeductionNotices(vs, vehicleId, items) == LowStockAlerts(vs[j], items)
    decreases |vs|
  {
    if j == 0 {
      NoTruckNoNotices(vs[1..], vehicleId, items);
    } else {
      OneTruckNotices(vs[1..], vehicleId, items, j - 1);
    }
  }

  /** On a fleet with unique ids, `deductStock` posts the targeted truck's warnings
      and nothing more; an unknown truck id changes nothing at all. */
  lemma DeductStockNotices(s: Store, vehicleId: string, items: seq<LineItem>, ids: IdStream, now: int)
    requires UniqueVehicleIds(s.vehicles)
    ensures forall j :: 0 <= j < |s.vehicles| && s.vehicles[j].id == vehicleId ==>
              DeductStock(s, vehicleId, items, ids, now).notifications
              == Post(s.notifications, LowStockAlerts(s.vehicles[j], items), ids, 0, now)
    ensures (forall j :: 0 <= j < |s.vehicles| ==> s.vehicles[j].id != vehicleId) ==>
              DeductStock(s, vehicleId, items, ids, now) == s
  {
    forall j | 0 <= j < |s.vehicles| && s.vehicles[j].id == vehicleId
      ensures DeductStock(s, vehicleId, items, ids, now).notifications
              == Post(s.notifications, LowStockAlerts(s.vehicles[j], items), ids, 0, now)
    {
      OneTruckNotices(s.vehicles, vehicleId, items, j);
    }
    if forall j :: 0 <= j < |s.vehicles| ==> s.vehicles[j].id != vehicleId {
      NoTruckNoNotices(s.vehicles, vehicleId, items);
      var r := DeductStock(s, vehicleId, items, ids, now);
      assert r.vehicles == s.vehicles;
    }
  }

  /** Σ price × quantity over the lines. */
  function LineTotal(items: seq<LineItem>): int
    decreases |items|
  {
    if items == [] then 0
    else items[0].price * items[0].quantity + LineTotal(items[1..])
  }

  /** `processManualSale`: records a paid, delivered walk-in order at the top of the
      order list, then deducts the same items from the truck. */
  function ProcessManualSale(s: Store, vehicleId: string, items: seq<LineItem>, orderId: string,
                             ids: IdStream, now: int): (r: Store)
    ensures |r.orders| == |s.orders| + 1 && r.orders[1..] == s.orders
    ensures r.orders[0] == Order(orderId, "WALK-IN", "Street Customer", vehicleId, items, LineTotal(items),
                                 Delivered, Paid, now, Location(0.0, 0.0))
    ensures r == DeductStock(s, vehicleId, items, ids, now).(orders := r.orders)
  {
    var sale := Order(orderId, "WALK-IN", "Street Customer", vehicleId, items, LineTotal(items),
                      Delivered, Paid, now, Location(0.0, 0.0));
    DeductStock(s.(orders := [sale] + s.orders), vehicleId, items, ids, now)
  }

  // ---------------------------------------------------------------------------
  // Finding by predicate

  /** The first element satisfying `p`, if any. */
  function Find<T>(xs: seq<T>, p: T -> bool): Option<T>
    decreases |xs|
  {
    if xs == [] then None
    else if p(xs[0]) then Some(xs[0])
    else Find(xs[1..], p)
  }

  /** Find returns nothing exactly when no element qualifies, and otherwise the
      element at the first qualifying position. */
  lemma {:induction false} FindIsFirst<T>(xs: seq<T>, p: T -> bool) returns (i: int)
    ensures Find(xs, p).None? <==> forall k :: 0 <= k < |xs| ==> !p(xs[k])
    ensures Find(xs, p).Some? ==>
              && 0 <= i < |xs| && xs[i] == Find(xs, p).value && p(xs[i])
              && forall k :: 0 <= k < i ==> !p(xs[k])
    decreases |xs|
  {
    if xs == [] {
      i := 0;
    } else if p(xs[0]) {
      i := 0;
    } else {
      var j := FindIsFirst(xs[1..], p);
      i := j + 1;
      forall k | 0 <= k < |xs| && k != 0
        ensures xs[k] == xs[1..][k - 1]
      {
      }
    }
  }

  /** Updating with `f` the elements `p` selects, where `f` keeps `p` true, makes
      Find return the updated first element. */
  lemma {:induction false} FindAfterMap<T>(xs: seq<T>, p: T -> bool, f: T -> T)
    requires forall x :: p(x) ==> p(f(x))
    ensures Find(MapIf(xs, p, f), p) == if Find(xs, p).Some? then Some(f(Find(xs, p).value)) else None
    decreases |xs|
  {
    if xs != [] {
      FindAfterMap(xs[1..], p, f);
      assert MapIf(xs, p, f)[1..] == MapIf(xs[1..], p, f);
    }
  }

  // ---------------------------------------------------------------------------
  // Attendance

  const DefaultShiftMinutes: int := 180

  /** A log without a clock-out time is open; a clock-out time of 0 is falsy in
      JavaScript, so such a log still counts as open. */
  predicate IsOpen(l: AttendanceLog) {
    l.clockOut.None? || l.clockOut == Some(0)
  }

  /** The driver's first open log, as `clockOut` looks it up. */
  function FindOpen(logs: seq<AttendanceLog>, driverId: string): Option<AttendanceLog> {
    Find(logs, (l: AttendanceLog) => l.driverId == driverId && IsOpen(l))
  }

  /** `clockIn`: an open log goes on top, the truck becomes available and the admin is told. */
  function ClockIn(s: Store, driverId: string, driverName: string, vehicleId: string, shift: string,
                   duration: Option<int>, logId: string, noteId: string, now: int): (r: Store)
    ensures r == s.(attendanceLogs := r.attendanceLogs, vehicles := r.vehicles, notifications := r.notifications)
    ensures |r.attendanceLogs| == |s.attendanceLogs| + 1 && r.attendanceLogs[1..] == s.attendanceLogs
    ensures r.attendanceLogs[0].clockOut.None? && r.attendanceLogs[0].clockIn == now
    ensures r.attendanceLogs[0].durationMinutes == if duration.Some? then duration.value else DefaultShiftMinutes
    ensures r.attendanceLogs[0] == AttendanceLog(logId, driverId, driverName, vehicleId, now, None, shift,
                                                 r.attendanceLogs[0].durationMinutes)
    ensures |r.vehicles| == |s.vehicles|
    ensures forall i :: 0 <= i < |s.vehicles| ==>
              r.vehicles[i] == if s.vehicles[i].id == vehicleId then s.vehicles[i].(status := Available) else s.vehicles[i]
    ensures r.notifications == Notify(s.notifications, Notice("admin", "Shift Started", driverName + " clocked in for " + shift, Info), noteId, now)
  {
    var log := AttendanceLog(logId, driverId, driverName, vehicleId, now, None, shift, duration.GetOr(DefaultShiftMinutes));
    s.(attendanceLogs := [log] + s.attendanceLogs,
       vehicles := MapIf(s.vehicles, (v: Vehicle) => v.id == vehicleId, (v: Vehicle) => v.(status := Available)),
       notifications := Notify(s.notifications, Notice("admin", "Shift Started", driverName + " clocked in for " + shift, Info), noteId, now))
  }

  /** `clockOut`: closes the driver's first open log (every log sharing its id),
      takes its truck offline and tells the admin; with no open log nothing at all happens. */
  function ClockOut(s: Store, driverId: string, noteId: string, now: int): (r: Store)
    ensures FindOpen(s.attendanceLogs, driverId).None? ==> r == s
    ensures FindOpen(s.attendanceLogs, driverId).Some? ==>
              var l := FindOpen(s.attendanceLogs, driverId).value;
              && r == s.(attendanceLogs := r.attendanceLogs, vehicles := r.vehicles, notifications := r.notifications)
              && |r.attendanceLogs| == |s.attendanceLogs|
              && (forall i :: 0 <= i < |s.attendanceLogs| ==>
                    r.attendanceLogs[i] == if s.attendanceLogs[i].id == l.id then s.attendanceLogs[i].(clockOut := Some(now))
                                           else s.attendanceLogs[i])
              && |r.vehicles| == |s.vehicles|
              && (forall i :: 0 <= i < |s.vehicles| ==>
                    r.vehicles[i] == if s.vehicles[i].id == l.vehicleId then s.vehicles[i].(status := Offline) else s.vehicles[i])
              && r.notifications == Notify(s.notifications, Notice("admin", "Shift Ended", l.driverName + " clocked out", Info), noteId, now)
  {
    match FindOpen(s.attendanceLogs, driverId)
    case None => s
    case Some(l) =>
      s.(attendanceLogs := MapIf(s.attendanceLogs, (x: AttendanceLog) => x.id == l.id, (x: AttendanceLog) => x.(clockOut := Some(now))),
         vehicles := MapIf(s.vehicles, (v: Vehicle) => v.id == l.vehicleId, (v: Vehicle) => v.(status := Offline)),
         notifications := Notify(s.notifications, Notice("admin", "Shift Ended", l.driverName + " clocked out", Info), noteId, now))
  }

  /** After clocking in, the new log is the driver's open log: the one a later
      clock-out closes. */
  lemma ClockInOpensShift(s: Store, driverId: string, driverName: string, vehicleId: string, shift: string,
                          duration: Option<int>, logId: string, noteId: string, now: int)
    ensures var r := ClockIn(s, driverId, driverName, vehicleId, shift, duration, logId, noteId, now);
            FindOpen(r.attendanceLogs, driverId) == Some(r.attendanceLogs[0])
  {
  }

  /** Clocking in and then out closes the new log with the clock-out time, leaves
      the truck offline and tells the admin twice. */
  lemma ClockInThenOut(s: Store, driverId: string, driverName: string, vehicleId: string, shift: string,
                       duration: Option<int>, logId: string, noteIn: string, noteOut: string, t0: int, t1: int)
    requires t1 != 0
    ensures var s1 := ClockIn(s, driverId, driverName, vehicleId, shift, duration, logId, noteIn, t0);
            var s2 := ClockOut(s1, driverId, noteOut, t1);
            && s2.attendanceLogs[0] == s1.attendanceLogs[0].(clockOut := Some(t1))
            && !IsOpen(s2.attendanceLogs[0])
            && (forall i :: 0 <= i < |s.vehicles| && s.vehicles[i].id == vehicleId ==> s2.vehicles[i].status == Offline)
            && |s2.notifications| == |s.notifications| + 2
            && s2.notifications[0].title == "Shift Ended" && s2.notifications[1].title == "Shift Started"
  {
  }

  // ---------------------------------------------------------------------------
  // Shift bookings

  /** The status as it is spelled in the booking record and in messages. */
  function ShiftStatusName(st: ShiftStatus): string {
    match st
    case Pending => "pending"
    case Approved => "approved"
    case Rejected => "rejected"
    case Completed => "completed"
  }

  /** `bookShift`: the booking goes on top and the admin is told. */
  function BookShift(s: Store, b: ShiftBooking, noteId: string, now: int): (r: Store)
    ensures r == s.(shiftBookings := r.shiftBookings, notifications := r.notifications)
    ensures r.shiftBookings == [b] + s.shiftBookings
    ensures r.notifications == Notify(s.notifications, Notice("admin", "New Slot Booking", "Driver " + b.driverId + " requested " + b.slot, Info), noteId, now)
  {
    s.(shiftBookings := [b] + s.shiftBookings,
       notifications := Notify(s.notifications, Notice("admin", "New Slot Booking", "Driver " + b.driverId + " requested " + b.slot, Info), noteId, now))
  }

  /** The message a driver receives when a booking of theirs is decided. */
  function ShiftNotice(b: ShiftBooking, status: ShiftStatus): Notice {
    Notice(b.driverId, "Shift Updated", "Your booking has been " + ShiftStatusName(status), if status == Approved then Success else Error)
  }

  /** One message per booking with the id, in list order. */
  function ShiftNotices(bs: seq<ShiftBooking>, id: string, status: ShiftStatus): (r: seq<Notice>)
    ensures |r| <= |bs|
    decreases |bs|
  {
    if bs == [] then []
    else (if bs[0].id == id then [ShiftNotice(bs[0], status)] else []) + ShiftNotices(bs[1..], id, status)
  }

  /** `updateShiftStatus`: every booking with the id takes the new status and its
      driver is told, with a success notice for an approval and an error notice otherwise. */
  function UpdateShiftStatus(s: Store, id: string, status: ShiftStatus, ids: IdStream, now: int): (r: Store)
    ensures r == s.(shiftBookings := r.shiftBookings, notifications := r.notifications)
    ensures |r.shiftBookings| == |s.shiftBookings|
    ensures forall i :: 0 <= i < |s.shiftBookings| ==>
              r.shiftBookings[i] == if s.shiftBookings[i].id == id then s.shiftBookings[i].(status := status) else s.shiftBookings[i]
    ensures r.notifications == Post(s.notifications, ShiftNotices(s.shiftBookings, id, status), ids, 0, now)
  {
    s.(shiftBookings := MapIf(s.shiftBookings, (b: ShiftBooking) => b.id == id, (b: ShiftBooking) => b.(status := status)),
       notifications := Post(s.notifications, ShiftNotices(s.shiftBookings, id, status), ids, 0, now))
  }

  /** With unique booking ids, a decision sends exactly one notice, to the booking's
      driver, when the id exists and none otherwise. */
  lemma {:induction false} ShiftNoticesForUniqueIds(bs: seq<ShiftBooking>, id: string, status: ShiftStatus)
    requires forall i, j :: 0 <= i < j < |bs| ==> bs[i].id != bs[j].id
    ensures (forall i :: 0 <= i < |bs| ==> bs[i].id != id) ==> ShiftNotices(bs, id, status) == []
    ensures forall j :: 0 <= j < |bs| && bs[j].id == id ==> ShiftNotices(bs, id, status) == [ShiftNotice(bs[j], status)]
    decreases |bs|
  {
    if bs != [] {
      ShiftNoticesForUniqueIds(bs[1..], id, status);
      forall j | 0 <= j < |bs| && bs[j].id == id
        ensures ShiftNotices(bs, id, status) == [ShiftNotice(bs[j], status)]
      {
        if j == 0 {
          assert forall i :: 0 <= i < |bs[1..]| ==> bs[1..][i].id != id by {
            forall i | 0 <= i < |bs[1..]|
              ensures bs[1..][i].id != id
            {
              assert bs[1..][i] == bs[i + 1];
            }
          }
        } else {
          assert bs[1..][j - 1] == bs[j];
        }
      }
    }
  }

  // ---------------------------------------------------------------------------
  // Refills and health

  function RefillKindName(k: RefillKind): string {
    match k
    case StockRefill => "stock"
    case FuelRefill => "fuel"
  }

  /** `requestRefill`: a pending request (a stock refill unless told otherwise) goes on top and the admin is warned. */
  function RequestRefill(s: Store, vehicleId: string, items: seq<string>, kind: Option<RefillKind>,
                         requestId: string, noteId: string, now: int): (r: Store)
    ensures r == s.(refillRequests := r.refillRequests, notifications := r.notifications)
    ensures |r.refillRequests| == |s.refillRequests| + 1 && r.refillRequests[1..] == s.refillRequests
    ensures r.refillRequests[0].status == RefillStatus.Pending
    ensures r.refillRequests[0].kind == if kind.Some? then kind.value else StockRefill
    ensures r.refillRequests[0] == RefillRequest(requestId, vehicleId, items, r.refillRequests[0].kind, now, RefillStatus.Pending)
    ensures r.notifications == Notify(s.notifications,
              Notice("admin", "Refill Needed", "Truck " + vehicleId + " requested " + RefillKindName(r.refillRequests[0].kind) + " refill", Warning),
              noteId, now)
  {
    var k := kind.GetOr(StockRefill);
    s.(refillRequests := [RefillRequest(requestId, vehicleId, items, k, now, RefillStatus.Pending)] + s.refillRequests,
       notifications := Notify(s.notifications,
         Notice("admin", "Refill Needed", "Truck " + vehicleId + " requested " + RefillKindName(k) + " refill", Warning), noteId, now))
  }

  function FindRequest(reqs: seq<RefillRequest>, requestId: string): Option<RefillRequest> {
    Find(reqs, (q: RefillRequest) => q.id == requestId)
  }

  /** `completeRefill`: an unknown id changes nothing; otherwise every request with
      the id is completed and the first one's truck is refilled (see StockRules.Refill). */
  function CompleteRefill(s: Store, requestId: string): (r: Store)
    ensures FindRequest(s.refillRequests, requestId).None? ==> r == s
    ensures FindRequest(s.refillRequests, requestId).Some? ==>
              var q := FindRequest(s.refillRequests, requestId).value;
              && r == s.(refillRequests := r.refillRequests, vehicles := r.vehicles)
              && |r.refillRequests| == |s.refillRequests|
              && (forall i :: 0 <= i < |s.refillRequests| ==>
                    r.refillRequests[i] == if s.refillRequests[i].id == requestId
                                           then s.refillRequests[i].(status := RefillStatus.Completed) else s.refillRequests[i])
              && |r.vehicles| == |s.vehicles|
              && (forall i :: 0 <= i < |s.vehicles| ==>
                    r.vehicles[i] == if s.vehicles[i].id == q.vehicleId
                                     then s.vehicles[i].(stock := StockRules.Refill(s.vehicles[i].stock, q.kind)) else s.vehicles[i])
  {
    match FindRequest(s.refillRequests, requestId)
    case None => s
    case Some(q) =>
      s.(refillRequests := MapIf(s.refillRequests, (x: RefillRequest) => x.id == requestId,
                                 (x: RefillRequest) => x.(status := RefillStatus.Completed)),
         vehicles := MapIf(s.vehicles, (v: Vehicle) => v.id == q.vehicleId,
                           (v: Vehicle) => v.(stock := StockRules.Refill(v.stock, q.kind))))
  }

  /** Completing a request a second time changes nothing more: the request is
      already completed and refilling a full truck again gives the same levels. */
  lemma CompleteRefillIdempotent(s: Store, requestId: string)
    ensures CompleteRefill(CompleteRefill(s, requestId), requestId) == CompleteRefill(s, requestId)
  {
    var once := CompleteRefill(s, requestId);
    var p := (x: RefillRequest) => x.id == requestId;
    var f := (x: RefillRequest) => x.(status := RefillStatus.Completed);
    if FindRequest(s.refillRequests, requestId).Some? {
      var q := FindRequest(s.refillRequests, requestId).value;
      FindAfterMap(s.refillRequests, p, f);
      assert once.refillRequests == MapIf(s.refillRequests, p, f);
      assert FindRequest(once.refillRequests, requestId) == Some(f(q));
      var twice := CompleteRefill(once, requestId);
      assert twice.refillRequests == once.refillRequests;
      forall i | 0 <= i < |s.vehicles|
        ensures twice.vehicles[i] == once.vehicles[i]
      {
        if s.vehicles[i].id == q.vehicleId {
          var st := s.vehicles[i].stock;
          assert StockRules.Refill(StockRules.Refill(st, q.kind), q.kind) == StockRules.Refill(st, q.kind);
        }
      }
    }
  }

  /** Filling a request right after making it completes that request and refills
      the requesting truck by the requested kind (stock unless told otherwise);
      when the id was new, the older requests are left alone. */
  lemma RequestThenComplete(s: Store, vehicleId: string, items: seq<string>, kind: Option<RefillKind>,
                            requestId: string, noteId: string, now: int)
    ensures var s1 := RequestRefill(s, vehicleId, items, kind, requestId, noteId, now);
            var r := CompleteRefill(s1, requestId);
            && |r.refillRequests| == |s.refillRequests| + 1
            && r.refillRequests[0] == RefillRequest(requestId, vehicleId, items, kind.GetOr(StockRefill), now, RefillStatus.Completed)
            && |r.vehicles| == |s.vehicles|
            && (forall i :: 0 <= i < |s.vehicles| ==>
                  r.vehicles[i] == if s.vehicles[i].id == vehicleId
                                   then s.vehicles[i].(stock := StockRules.Refill(s.vehicles[i].stock, kind.GetOr(StockRefill)))
                                   else s.vehicles[i])
            && r.notifications == s1.notifications
            && ((forall i :: 0 <= i < |s.refillRequests| ==> s.refillRequests[i].id != requestId) ==>
                  r.refillRequests[1..] == s.refillRequests)
  {
    var s1 := RequestRefill(s, vehicleId, items, kind, requestId, noteId, now);
    var r := CompleteRefill(s1, requestId);
    assert FindRequest(s1.refillRequests, requestId) == Some(s1.refillRequests[0]);
    if forall i :: 0 <= i < |s.refillRequests| ==> s.refillRequests[i].id != requestId {
      forall i | 0 <= i < |s.refillRequests|
        ensures r.refillRequests[1..][i] == s.refillRequests[i]
      {
        assert s1.refillRequests[i + 1] == s.refillRequests[i];
      }
    }
  }

  /** `submitHealthReport`: the report goes on top, the truck takes its health and a
      critical report alerts the admin. */
  function SubmitHealthReport(s: Store, report: HealthReport, noteId: string, now: int): (r: Store)
    ensures r == s.(healthReports := r.healthReports, vehicles := r.vehicles, notifications := r.notifications)
    ensures r.healthReports == [report] + s.healthReports
    ensures |r.vehicles| == |s.vehicles|
    ensures forall i :: 0 <= i < |s.vehicles| ==>
              r.vehicles[i] == if s.vehicles[i].id == report.vehicleId then s.vehicles[i].(health := report.status) else s.vehicles[i]
    ensures report.status != Critical ==> r.notifications == s.notifications
    ensures report.status == Critical ==>
              r.notifications == Notify(s.notifications, Notice("admin", "Critical Health", "Truck " + report.vehicleId + " critical failure", Error), noteId, now)
  {
    var s1 := s.(healthReports := [report] + s.healthReports,
                 vehicles := MapIf(s.vehicles, (v: Vehicle) => v.id == report.vehicleId, (v: Vehicle) => v.(health := report.status)));
    if report.status == Critical then
      s1.(notifications := Notify(s.notifications, Notice("admin", "Critical Health", "Truck " + report.vehicleId + " critical failure", Error), noteId, now))
    else s1
  }

  /** The newest report filed for a truck. */
  function LatestReport(reports: seq<HealthReport>, vehicleId: string): Option<HealthReport> {
    Find(reports, (h: HealthReport) => h.vehicleId == vehicleId)
  }

  /** Every truck with a report on file shows the status of its newest report. */
  predicate HealthFollowsReports(s: Store) {
    forall i :: 0 <= i < |s.vehicles| && LatestReport(s.healthReports, s.vehicles[i].id).Some? ==>
      s.vehicles[i].health == LatestReport(s.healthReports, s.vehicles[i].id).value.status
  }

  /** Filing a report keeps every truck's health equal to its newest report: the
      reported truck takes the new status and the other trucks' newest reports stay
      as they were. The initial store has no reports, so it starts out that way. */
  lemma SubmitKeepsHealthFollowingReports(s: Store, report: HealthReport, noteId: string, now: int)
    requires HealthFollowsReports(s)
    ensures HealthFollowsReports(SubmitHealthReport(s, report, noteId, now))
    ensures HealthFollowsReports(Initial(now))
  {
    var r := SubmitHealthReport(s, report, noteId, now);
    assert r.healthReports[0] == report && r.healthReports[1..] == s.healthReports;
    forall i | 0 <= i < |r.vehicles| && LatestReport(r.healthReports, r.vehicles[i].id).Some?
      ensures r.vehicles[i].health == LatestReport(r.healthReports, r.vehicles[i].id).value.status
    {
      var id := s.vehicles[i].id;
      assert r.vehicles[i].id == id;
      if id == report.vehicleId {
        assert LatestReport(r.healthReports, id) == Some(report);
      } else {
        assert LatestReport(r.healthReports, id) == LatestReport(s.healthReports, id);
      }
    }
  }

  // ---------------------------------------------------------------------------
  // Trucks and orders

  function UpdateVehicleStatus(s: Store, id: string, status: VehicleStatus): (r: Store)
    ensures r == s.(vehicles := r.vehicles) && |r.vehicles| == |s.vehicles|
    ensures forall i :: 0 <= i < |s.vehicles| ==>
              r.vehicles[i] == if s.vehicles[i].id == id then s.vehicles[i].(status := status) else s.vehicles[i]
  {
    s.(vehicles := MapIf(s.vehicles, (v: Vehicle) => v.id == id, (v: Vehicle) => v.(status := status)))
  }

  /** Setting a truck's status twice leaves the second status: the last write wins. */
  lemma VehicleStatusLastWins(s: Store, id: string, a: VehicleStatus, b: VehicleStatus)
    ensures UpdateVehicleStatus(UpdateVehicleStatus(s, id, a), id, b) == UpdateVehicleStatus(s, id, b)
  {
    var r1 := UpdateVehicleStatus(UpdateVehicleStatus(s, id, a), id, b);
    var r2 := UpdateVehicleStatus(s, id, b);
    assert r1.vehicles == r2.vehicles;
  }

  /** Clocking in makes the truck available and clocking out takes the open log's
      truck offline, exactly as the status update does. */
  lemma ShiftSetsVehicleStatus(s: Store, driverId: string, driverName: string, vehicleId: string, shift: string,
                               duration: Option<int>, logId: string, noteId: string, now: int)
    ensures ClockIn(s, driverId, driverName, vehicleId, shift, duration, logId, noteId, now).vehicles
            == UpdateVehicleStatus(s, vehicleId, Available).vehicles
    ensures FindOpen(s.attendanceLogs, driverId).Some? ==>
              ClockOut(s, driverId, noteId, now).vehicles
              == UpdateVehicleStatus(s, FindOpen(s.attendanceLogs, driverId).value.vehicleId, Offline).vehicles
  {
    var r := ClockIn(s, driverId, driverName, vehicleId, shift, duration, logId, noteId, now);
    assert r.vehicles == UpdateVehicleStatus(s, vehicleId, Available).vehicles;
    if FindOpen(s.attendanceLogs, driverId).Some? {
      var l := FindOpen(s.attendanceLogs, driverId).value;
      assert ClockOut(s, driverId, noteId, now).vehicles == UpdateVehicleStatus(s, l.vehicleId, Offline).vehicles;
    }
  }

  /** `updateVehicleStock`: overwrites one level of the truck with the id, without any clamping. */
  function UpdateVehicleStock(s: Store, id: string, it: StockRules.Item, value: real): (r: Store)
    ensures r == s.(vehicles := r.vehicles) && |r.vehicles| == |s.vehicles|
    ensures forall i :: 0 <= i < |s.vehicles| && s.vehicles[i].id != id ==> r.vehicles[i] == s.vehicles[i]
    ensures forall i :: 0 <= i < |s.vehicles| && s.vehicles[i].id == id ==>
              && r.vehicles[i] == s.vehicles[i].(stock := r.vehicles[i].stock)
              && StockRules.Get(r.vehicles[i].stock, it) == value
              && forall o :: o != it ==> StockRules.Get(r.vehicles[i].stock, o) == StockRules.Get(s.vehicles[i].stock, o)
  {
    s.(vehicles := MapIf(s.vehicles, (v: Vehicle) => v.id == id, (v: Vehicle) => v.(stock := StockRules.Set(v.stock, it, value))))
  }

  function PlaceOrder(s: Store, order: Order): (r: Store)
    ensures r == s.(orders := [order] + s.orders)
  {
    s.(orders := [order] + s.orders)
  }

  function FindOrder(orders: seq<Order>, id: string): Option<Order> {
    Find(orders, (o: Order) => o.id == id)
  }

  /** The order after `updateOrderStatus`: the new status, and the new payment status when one is given. */
  function Restatus(o: Order, status: OrderStatus, payment: Option<PaymentStatus>): Order {
    o.(status := status, paymentStatus := payment.GetOr(o.paymentStatus))
  }

  /** `updateOrderStatus`: every order with the id takes the new status (and payment
      status, if given); marking an existing order delivered deducts its items
      from its truck, every time it is done. */
  function UpdateOrderStatus(s: Store, id: string, status: OrderStatus, payment: Option<PaymentStatus>,
                             ids: IdStream, now: int): (r: Store)
    ensures |r.orders| == |s.orders|
    ensures forall i :: 0 <= i < |s.orders| && s.orders[i].id != id ==> r.orders[i] == s.orders[i]
    ensures forall i :: 0 <= i < |s.orders| && s.orders[i].id == id ==>
              && r.orders[i].(status := s.orders[i].status, paymentStatus := s.orders[i].paymentStatus) == s.orders[i]
              && r.orders[i].status == status
              && r.orders[i].paymentStatus == if payment.Some? then payment.value else s.orders[i].paymentStatus
    ensures status == Delivered && FindOrder(s.orders, id).Some? ==>
              var o := FindOrder(s.orders, id).value;
              r == DeductStock(s, o.vehicleId, o.items, ids, now).(orders := r.orders)
    ensures !(status == Delivered && FindOrder(s.orders, id).Some?) ==> r == s.(orders := r.orders)
  {
    var s1 := s.(orders := MapIf(s.orders, (o: Order) => o.id == id, (o: Order) => Restatus(o, status, payment)));
    if status == Delivered then
      match FindOrder(s.orders, id)
      case Some(o) => DeductStock(s1, o.vehicleId, o.items, ids, now)
      case None => s1
    else s1
  }

  /** Marking an order delivered twice deducts its items twice from its truck. */
  lemma DeliveredTwiceDeductsTwice(s: Store, id: string, payment: Option<PaymentStatus>,
                                   ids1: IdStream, ids2: IdStream, t1: int, t2: int)
    requires FindOrder(s.orders, id).Some?
    ensures var o := FindOrder(s.orders, id).value;
            var r := UpdateOrderStatus(UpdateOrderStatus(s, id, Delivered, payment, ids1, t1), id, Delivered, payment, ids2, t2);
            forall i :: 0 <= i < |s.vehicles| && s.vehicles[i].id == o.vehicleId ==>
              r.vehicles[i].stock == StockRules.Deduct(StockRules.Deduct(s.vehicles[i].stock, o.items), o.items)
  {
    var o := FindOrder(s.orders, id).value;
    var p := (x: Order) => x.id == id;
    var f := (x: Order) => Restatus(x, Delivered, payment);
    var s1 := UpdateOrderStatus(s, id, Delivered, payment, ids1, t1);
    FindAfterMap(s.orders, p, f);
    assert s1.orders == MapIf(s.orders, p, f);
    assert FindOrder(s1.orders, id) == Some(f(o));
  }

  // ---------------------------------------------------------------------------
  // Telemetry tick

  /** The fuel part of the five-second tick: every truck burns fuel at the rate
      for its status (see StockRules.Decay); nothing else changes. */
  function BurnFuel(s: Store): (r: Store)
    ensures r == s.(vehicles := r.vehicles) && |r.vehicles| == |s.vehicles|
    ensures forall i :: 0 <= i < |s.vehicles| ==>
              r.vehicles[i] == s.vehicles[i].(stock := StockRules.Decay(s.vehicles[i].stock, s.vehicles[i].status))
  {
    s.(vehicles := MapIf(s.vehicles, (v: Vehicle) => true, (v: Vehicle) => v.(stock := StockRules.Decay(v.stock, v.status))))
  }

  // ---------------------------------------------------------------------------
  // The initial store and the stock invariant

  /** The store as the provider creates it at time `now`: the seeded trucks, two
      closed shifts of Ravi and two unread notifications. */
  function Initial(now: int): Store {
    Store(
      Catalog.InitialVehicles,
      [],
      [AttendanceLog("h1", "ravi_id", "Ravi", "v1", now - 86400000, Some(now - 80000000), "Morning", 420),
       AttendanceLog("h2", "ravi_id", "Ravi", "v1", now - 172800000, Some(now - 160000000), "Morning", 420)],
      [],
      [],
      [],
      [Notification("n1", "all", "System Update", "New inventory tracking live!", Info, now - 100000, false),
       Notification("n2", "driver_id", "Great Sales!", "You reached 80% of your target today. Keep going!", Success, now - 50000, false)],
      [])
  }

  /** Every truck's levels are percentages and no order line has a negative quantity. */
  predicate Valid(s: Store) {
    && (forall i :: 0 <= i < |s.vehicles| ==> StockRules.InRange(s.vehicles[i].stock))
    && (forall i :: 0 <= i < |s.orders| ==> StockRules.NonNegativeQuantities(s.orders[i].items))
  }

  /** The initial store is valid and its trucks have distinct ids. */
  lemma InitialIsValid(now: int)
    ensures Valid(Initial(now)) && UniqueVehicleIds(Initial(now).vehicles)
  {
  }

  /** An inbound delivery of a non-negative amount keeps the store valid. */
  lemma InboundKeepsValid(s: Store, vehicleId: string, it: StockRules.Item, amount: real)
    requires Valid(s) && amount >= 0.0
    ensures Valid(AddInboundStock(s, vehicleId, it, amount))
  {
  }

  /** Deducting lines without negative quantities keeps the store valid, and so
      does recording them as a manual sale. */
  lemma DeductKeepsValid(s: Store, vehicleId: string, items: seq<LineItem>, orderId: string, ids: IdStream, now: int)
    requires Valid(s) && StockRules.NonNegativeQuantities(items)
    ensures Valid(DeductStock(s, vehicleId, items, ids, now))
    ensures Valid(ProcessManualSale(s, vehicleId, items, orderId, ids, now))
  {
    forall i | 0 <= i < |s.vehicles|
      ensures StockRules.InRange(StockRules.Deduct(s.vehicles[i].stock, items))
    {
      StockRules.RulesKeepRange(s.vehicles[i].stock, items, StockRefill, StockRules.Fuel, 0.0, Available);
    }
  }

  /** Completing a refill and burning fuel keep the store valid. */
  lemma RefillAndBurnKeepValid(s: Store, requestId: string)
    requires Valid(s)
    ensures Valid(CompleteRefill(s, requestId))
    ensures Valid(BurnFuel(s))
  {
    forall i | 0 <= i < |s.vehicles|
      ensures StockRules.InRange(StockRules.Decay(s.vehicles[i].stock, s.vehicles[i].status))
      ensures forall k :: StockRules.InRange(StockRules.Refill(s.vehicles[i].stock, k))
    {
      StockRules.RulesKeepRange(s.vehicles[i].stock, [], StockRefill, StockRules.Fuel, 0.0, s.vehicles[i].status);
      StockRules.RulesKeepRange(s.vehicles[i].stock, [], FuelRefill, StockRules.Fuel, 0.0, s.vehicles[i].status);
    }
  }

  /** Order transitions keep the store valid: a placed order must have no negative
      quantity, and a status change deducts only items already in the store. */
  lemma OrderTransitionsKeepValid(s: Store, order: Order, id: string, status: OrderStatus,
                                  payment: Option<PaymentStatus>, ids: IdStream, now: int)
    requires Valid(s) && StockRules.NonNegativeQuantities(order.items)
    ensures Valid(PlaceOrder(s, order))
    ensures Valid(UpdateOrderStatus(s, id, status, payment, ids, now))
  {
    var r := UpdateOrderStatus(s, id, status, payment, ids, now);
    if status == Delivered && FindOrder(s.orders, id).Some? {
      var k := FindIsFirst(s.orders, (o: Order) => o.id == id);
      var o := FindOrder(s.orders, id).value;
      DeductKeepsValid(s, o.vehicleId, o.items, "", ids, now);
    }
  }

  /** Setting a level by hand keeps the store valid when the value is a percentage. */
  lemma UpdateVehicleStockKeepsValid(s: Store, id: string, it: StockRules.Item, value: real)
    requires Valid(s) && 0.0 <= value <= StockRules.Full
    ensures Valid(UpdateVehicleStock(s, id, it, value))
  {
  }

  /** A store with the same orders and, truck by truck, the same levels as a valid one is valid. */
  lemma SameLevelsKeepValid(s: Store, r: Store)
    requires Valid(s) && r.orders == s.orders && |r.vehicles| == |s.vehicles|
    requires forall i :: 0 <= i < |s.vehicles| ==> r.vehicles[i].stock == s.vehicles[i].stock
    ensures Valid(r)
  {
  }

  /** Notifications and chat messages touch neither the trucks' levels nor the
      orders, so they keep the store valid. */
  lemma MessagingKeepsValid(s: Store, user: Option<User>, userId: string, title: string, message: string,
                            kind: NoticeKind, id: string, now: int)
    requires Valid(s)
    ensures Valid(SendNotification(s, userId, title, message, kind, id, now))
    ensures Valid(MarkNotificationRead(s, id))
    ensures Valid(SendMessage(s, user, userId, message, id, now))
  {
    SameLevelsKeepValid(s, SendNotification(s, userId, title, message, kind, id, now));
    SameLevelsKeepValid(s, MarkNotificationRead(s, id));
    SameLevelsKeepValid(s, SendMessage(s, user, userId, message, id, now));
  }

  /** Shift bookings, their decisions and refill requests touch neither the trucks'
      levels nor the orders, so they keep the store valid. */
  lemma RequestsKeepValid(s: Store, b: ShiftBooking, status: ShiftStatus, vehicleId: string, items: seq<string>,
                          refill: Option<RefillKind>, id: string, noteId: string, ids: IdStream, now: int)
    requires Valid(s)
    ensures Valid(BookShift(s, b, noteId, now))
    ensures Valid(UpdateShiftStatus(s, id, status, ids, now))
    ensures Valid(RequestRefill(s, vehicleId, items, refill, id, noteId, now))
  {
    SameLevelsKeepValid(s, BookShift(s, b, noteId, now));
    SameLevelsKeepValid(s, UpdateShiftStatus(s, id, status, ids, now));
    SameLevelsKeepValid(s, RequestRefill(s, vehicleId, items, refill, id, noteId, now));
  }

  /** Clocking in or out, filing a health report and setting a truck's status
      change only statuses and health, never levels or orders, so they keep the
      store valid. */
  lemma TruckStatusChangesKeepValid(s: Store, driverId: string, driverName: string, vehicleId: string,
                                    shift: string, duration: Option<int>, report: HealthReport,
                                    status: VehicleStatus, logId: string, noteId: string, now: int)
    requires Valid(s)
    ensures Valid(ClockIn(s, driverId, driverName, vehicleId, shift, duration, logId, noteId, now))
    ensures Valid(ClockOut(s, driverId, noteId, now))
    ensures Valid(SubmitHealthReport(s, report, noteId, now))
    ensures Valid(UpdateVehicleStatus(s, vehicleId, status))
  {
    SameLevelsKeepValid(s, ClockIn(s, driverId, driverName, vehicleId, shift, duration, logId, noteId, now));
    SameLevelsKeepValid(s, ClockOut(s, driverId, noteId, now));
    SameLevelsKeepValid(s, SubmitHealthReport(s, report, noteId, now));
    SameLevelsKeepValid(s, UpdateVehicleStatus(s, vehicleId, status));
  }
}
