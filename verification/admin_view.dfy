/** The rules of the admin console (views/AdminView.tsx): active shift timers,
    the approval queue, the clock-in history, inbound stock buttons and the refill
    board. */
module AdminView {
  import opened Types
  import StockRules
  import AppStore
  import DriverView

  /** The elements of `xs` that satisfy `p`, in their original order. */
  function Filter<T(!new)>(xs: seq<T>, p: T -> bool): (r: seq<T>)
    ensures |r| <= |xs|
    ensures forall x :: x in r <==> x in xs && p(x)
    decreases |xs|
  {
    if xs == [] then []
    else
      var rest := Filter(xs[1..], p);
      if p(xs[0]) then [xs[0]] + rest else rest
  }

  /** Filtering keeps every element that passes as many times as the input has it
      and drops every other one. */
  lemma {:induction false} FilterCounts<T(!new)>(xs: seq<T>, p: T -> bool)
    ensures forall x :: multiset(Filter(xs, p))[x] == if p(x) then multiset(xs)[x] else 0
    decreases |xs|
  {
    if xs != [] {
      FilterCounts(xs[1..], p);
      assert xs == [xs[0]] + xs[1..];
      assert multiset(xs) == multiset{xs[0]} + multiset(xs[1..]);
    }
  }

  /** Filtering a concatenation filters each part and keeps them in order, so the
      selected elements keep their relative order. */
  lemma {:induction false} FilterAppend<T(!new)>(a: seq<T>, b: seq<T>, p: T -> bool)
    ensures Filter(a + b, p) == Filter(a, p) + Filter(b, p)
    decreases |a|
  {
    if a == [] {
      assert a + b == b;
    } else {
      var head := if p(a[0]) then [a[0]] else [];
      assert (a + b)[0] == a[0] && (a + b)[1..] == a[1..] + b;
      calc {
        Filter(a + b, p);
        head + Filter(a[1..] + b, p);
        { FilterAppend(a[1..], b, p); }
        head + (Filter(a[1..], p) + Filter(b, p));
        Filter(a, p) + Filter(b, p);
      }
    }
  }

  /** The attendance logs still open, in list order: the active shift timers. */
  function ActiveLogs(logs: seq<AttendanceLog>): seq<AttendanceLog> {
    Filter(logs, (l: AttendanceLog) => AppStore.IsOpen(l))
  }

  /** The bookings still pending, in list order: the approval queue. */
  function PendingShifts(bs: seq<ShiftBooking>): seq<ShiftBooking> {
    Filter(bs, (b: ShiftBooking) => b.status == ShiftStatus.Pending)
  }

  /** A clock-in shows up among the timers and its clock-out removes it. */
  lemma TimersFollowClockInAndOut(s: AppStore.Store, driverId: string, driverName: string, vehicleId: string,
                                  shift: string, duration: Option<int>, logId: string, noteId: string, now: int)
    requires now != 0
    ensures var r := AppStore.ClockIn(s, driverId, driverName, vehicleId, shift, duration, logId, noteId, now);
            r.attendanceLogs[0] in ActiveLogs(r.attendanceLogs)
    ensures var r := AppStore.ClockOut(s, driverId, noteId, now);
            AppStore.FindOpen(s.attendanceLogs, driverId).Some? ==>
              forall l :: l in ActiveLogs(r.attendanceLogs) ==> l.id != AppStore.FindOpen(s.attendanceLogs, driverId).value.id
  {
  }

  /** The minutes left on a timer: the planned minutes less the whole minutes since
      clock-in, never below 0. */
  function RemainMin(log: AttendanceLog, now: int): (m: int)
    ensures m >= 0
  {
    var elapsedMin := (now - log.clockIn) / 60000;
    if log.durationMinutes - elapsedMin >= 0 then log.durationMinutes - elapsedMin else 0
  }

  /** Once the shift has started, the timer lies between 0 and the planned length,
      and reaches 0 exactly when the planned minutes have elapsed. */
  lemma RemainMinBounds(log: AttendanceLog, now: int)
    requires now >= log.clockIn && log.durationMinutes >= 0
    ensures 0 <= RemainMin(log, now) <= log.durationMinutes
    ensures RemainMin(log, now) == 0 <==> (now - log.clockIn) / 60000 >= log.durationMinutes
  {
  }

  /** Whole minutes computed from whole seconds are whole minutes computed from milliseconds. */
  lemma FloorOfFloor(x: int)
    ensures (x / 1000) / 60 == x / 60000
  {
  }

  /** The admin's timer shows what the driver's countdown shows, given the elapsed
      seconds the driver's timer derives from the same clock. */
  lemma TimerMatchesDriverCountdown(log: AttendanceLog, now: int)
    ensures RemainMin(log, now) == DriverView.RemainingMinutes(Some(log), DriverView.Elapsed(now, log.clockIn))
  {
  }

  /** The timer colour: red below 15 minutes, yellow below 30, green otherwise. */
  function TimerColour(remain: int): (c: DriverView.Colour)
    ensures c == DriverView.Red <==> remain < 15
    ensures c == DriverView.Yellow <==> 15 <= remain < 30
    ensures c == DriverView.Green <==> remain >= 30
  {
    if remain < 15 then DriverView.Red else if remain < 30 then DriverView.Yellow else DriverView.Green
  }

  /** The admin's timer and the driver's shift clock use the same thresholds: they
      agree below 30 minutes and differ only in the calm colour. */
  lemma TimerColoursAgree(remain: int)
    ensures remain < 30 ==> TimerColour(remain) == DriverView.ShiftClockColour(remain)
    ensures remain >= 30 ==> TimerColour(remain) == DriverView.Green && DriverView.ShiftClockColour(remain) == DriverView.Dark
  {
  }

  /** The "Alert" button on a timer. */
  function AlertDriver(s: AppStore.Store, log: AttendanceLog, noteId: string, now: int): (r: AppStore.Store)
    ensures |r.notifications| == |s.notifications| + 1
    ensures r.notifications[1..] == s.notifications && r == s.(notifications := r.notifications)
    ensures r.notifications[0].userId == log.driverId && r.notifications[0].kind == Warning && !r.notifications[0].read
    ensures r.notifications[0] == Notification(noteId, log.driverId, "Return to HQ",
                                               "Your shift is ending. Please head to Admin Office.", Warning, now, false)
  {
    AppStore.SendNotification(s, log.driverId, "Return to HQ", "Your shift is ending. Please head to Admin Office.", Warning, noteId, now)
  }
  /** The alert raises the unread badge by one for the alerted driver (and for
      everyone, should the log's driver id be "all") and leaves every other
      user's badge as it was. */
  lemma AlertRaisesDriverBadge(s: AppStore.Store, log: AttendanceLog, noteId: string, now: int, user: Option<User>)
    ensures DriverView.UnreadCount(AlertDriver(s, log, noteId, now).notifications, user)
            == DriverView.UnreadCount(s.notifications, user)
               + (if (user.Some? && user.value.id == log.driverId) || log.driverId == "all" then 1 else 0)
  {
    var r := AlertDriver(s, log, noteId, now);
    assert r.notifications[1..] == s.notifications;
  }


  // ---------------------------------------------------------------------------
  // Approval queue

  predicate UniqueBookingIds(bs: seq<ShiftBooking>) {
    forall i, j :: 0 <= i < j < |bs| ==> bs[i].id != bs[j].id
  }

  /** "Approve" or "Deny" on a booking of the queue. */
  function Decide(s: AppStore.Store, b: ShiftBooking, approve: bool, ids: AppStore.IdStream, now: int): AppStore.Store
    requires b in PendingShifts(s.shiftBookings)
  {
    AppStore.UpdateShiftStatus(s, b.id, if approve then Approved else Rejected, ids, now)
  }

  /** With unique booking ids, a decision moves the chosen booking from pending to
      approved or rejected, touches no other booking and leaves the queue without it. */
  lemma DecisionLeavesQueue(s: AppStore.Store, b: ShiftBooking, approve: bool, ids: AppStore.IdStream, now: int)
    requires b in PendingShifts(s.shiftBookings) && UniqueBookingIds(s.shiftBookings)
    ensures var r := Decide(s, b, approve, ids, now);
            && |r.shiftBookings| == |s.shiftBookings|
            && (forall i :: 0 <= i < |s.shiftBookings| ==>
                  if s.shiftBookings[i] == b then r.shiftBookings[i] == b.(status := if approve then Approved else Rejected)
                  else r.shiftBookings[i] == s.shiftBookings[i])
            && (forall x :: x in PendingShifts(r.shiftBookings) ==> x.id != b.id)
  {
  }

  /** With unique booking ids, a decision tells the booking's driver exactly once. */
  lemma DecisionNotifiesDriver(s: AppStore.Store, b: ShiftBooking, approve: bool, ids: AppStore.IdStream, now: int)
    requires b in PendingShifts(s.shiftBookings) && UniqueBookingIds(s.shiftBookings)
    ensures var r := Decide(s, b, approve, ids, now);
            && |r.notifications| == |s.notifications| + 1
            && r.notifications[1..] == s.notifications
            && r.notifications[0].userId == b.driverId
  {
    var status := if approve then Approved else Rejected;
    var j :| 0 <= j < |s.shiftBookings| && s.shiftBookings[j] == b;
    AppStore.ShiftNoticesForUniqueIds(s.shiftBookings, b.id, status);
    AppStore.PostStacksNotices(s.notifications, [AppStore.ShiftNotice(b, status)], ids, 0, now);
  }

  // ---------------------------------------------------------------------------
  // Clock-in history

  /** Descending by clock-in time. */
  predicate Descending(logs: seq<AttendanceLog>) {
    forall i, j :: 0 <= i < j < |logs| ==> logs[i].clockIn >= logs[j].clockIn
  }

  /** Puts `l` after every log that clocked in no earlier, so logs with equal times
      keep their arrival order. */
  function Insert(l: AttendanceLog, sorted: seq<AttendanceLog>): seq<AttendanceLog>
    decreases |sorted|
  {
    if sorted == [] then [l]
    else if sorted[0].clockIn >= l.clockIn then [sorted[0]] + Insert(l, sorted[1..])
    else [l] + sorted
  }

  /** No log of `logs` clocked in after `t`. */
  predicate AtMost(logs: seq<AttendanceLog>, t: int) {
    forall k :: 0 <= k < |logs| ==> logs[k].clockIn <= t
  }

  lemma {:induction false} InsertAtMost(l: AttendanceLog, sorted: seq<AttendanceLog>, t: int)
    requires AtMost(sorted, t) && l.clockIn <= t
    ensures AtMost(Insert(l, sorted), t)
    decreases |sorted|
  {
    if sorted != [] && sorted[0].clockIn >= l.clockIn {
      InsertAtMost(l, sorted[1..], t);
      var rest := Insert(l, sorted[1..]);
      forall k | 0 <= k < |rest| + 1
        ensures ([sorted[0]] + rest)[k].clockIn <= t
      {
        if k > 0 {
          assert ([sorted[0]] + rest)[k] == rest[k - 1];
        }
      }
    }
  }

  /** Inserting into a descending list gives a descending list. */
  lemma {:induction false} InsertKeepsDescending(l: AttendanceLog, sorted: seq<AttendanceLog>)
    requires Descending(sorted)
    ensures Descending(Insert(l, sorted))
    decreases |sorted|
  {
    if sorted != [] && sorted[0].clockIn >= l.clockIn {
      var x := sorted[0];
      InsertKeepsDescending(l, sorted[1..]);
      assert AtMost(sorted[1..], x.clockIn) by {
        forall k | 0 <= k < |sorted[1..]|
          ensures sorted[1..][k].clockIn <= x.clockIn
        {
          assert sorted[1..][k] == sorted[k + 1];
        }
      }
      var rest := Insert(l, sorted[1..]);
      InsertAtMost(l, sorted[1..], x.clockIn);
      var r := [x] + rest;
      forall i, j | 0 <= i < j < |r|
        ensures r[i].clockIn >= r[j].clockIn
      {
        assert r[j] == rest[j - 1];
        if i > 0 {
          assert r[i] == rest[i - 1];
        }
      }
    }
  }

  /** Inserting adds exactly one copy of `l` and drops nothing. */
  lemma {:induction false} InsertAddsOne(l: AttendanceLog, sorted: seq<AttendanceLog>)
    ensures multiset(Insert(l, sorted)) == multiset(sorted) + multiset{l}
    decreases |sorted|
  {
    if sorted != [] && sorted[0].clockIn >= l.clockIn {
      InsertAddsOne(l, sorted[1..]);
      assert sorted == [sorted[0]] + sorted[1..];
    }
  }

  /** The clock-in history, latest clock-in first, built by inserting each log in turn. */
  function History(logs: seq<AttendanceLog>): seq<AttendanceLog>
    decreases |logs|
  {
    if logs == [] then []
    else Insert(logs[|logs| - 1], History(logs[..|logs| - 1]))
  }

  /** The history lists every log exactly as often as the store holds it, latest clock-in first. */
  lemma {:induction false} HistoryIsSortedPermutation(logs: seq<AttendanceLog>)
    ensures Descending(History(logs))
    ensures multiset(History(logs)) == multiset(logs)
    decreases |logs|
  {
    if logs != [] {
      var init, last := logs[..|logs| - 1], logs[|logs| - 1];
      var h := History(init);
      assert History(logs) == Insert(last, h);
      HistoryIsSortedPermutation(init);
      InsertKeepsDescending(last, h);
      assert logs == init + [last];
      calc {
        multiset(History(logs));
        { InsertAddsOne(last, h); }
        multiset(h) + multiset{last};
        multiset(init) + multiset([last]);
        multiset(logs);
      }
    }
  }

  // ---------------------------------------------------------------------------
  // Stock board and refills

  datatype InboundButton = InboundFuel | AddTea | AddMilk

  function ButtonItem(b: InboundButton): StockRules.Item {
    match b
    case InboundFuel => StockRules.Fuel
    case AddTea => StockRules.Tea
    case AddMilk => StockRules.Milk
  }

  function ButtonAmount(b: InboundButton): real {
    match b
    case InboundFuel => 20.0
    case AddTea => 10.0
    case AddMilk => 10.0
  }

  function PressInbound(s: AppStore.Store, vehicleId: string, b: InboundButton): AppStore.Store {
    AppStore.AddInboundStock(s, vehicleId, ButtonItem(b), ButtonAmount(b))
  }

  /** An inbound button raises its level by its amount but never past 100, leaves
      the other levels alone and keeps the store valid. */
  lemma InboundButtonsCapAt100(s: AppStore.Store, vehicleId: string, b: InboundButton, i: int)
    requires AppStore.Valid(s) && 0 <= i < |s.vehicles| && s.vehicles[i].id == vehicleId
    ensures var before := StockRules.Get(s.vehicles[i].stock, ButtonItem(b));
            var after := StockRules.Get(PressInbound(s, vehicleId, b).vehicles[i].stock, ButtonItem(b));
            && before <= after <= StockRules.Full
            && (after == StockRules.Full || after == before + ButtonAmount(b))
    ensures forall o :: o != ButtonItem(b) ==>
              StockRules.Get(PressInbound(s, vehicleId, b).vehicles[i].stock, o) == StockRules.Get(s.vehicles[i].stock, o)
    ensures AppStore.Valid(PressInbound(s, vehicleId, b))
  {
  }

  /** The pending requests: the ones that show a "Mark Filled" button. */
  function MarkFilledShown(reqs: seq<RefillRequest>): seq<RefillRequest> {
    Filter(reqs, (q: RefillRequest) => q.status == RefillStatus.Pending)
  }

  /** Pressing "Mark Filled" completes the request and its button disappears. */
  lemma MarkFilledRemovesButton(s: AppStore.Store, q: RefillRequest)
    requires q in MarkFilledShown(s.refillRequests)
    ensures var r := AppStore.CompleteRefill(s, q.id);
            && (forall x :: x in MarkFilledShown(r.refillRequests) ==> x.id != q.id)
            && (forall i :: 0 <= i < |s.refillRequests| && s.refillRequests[i].id == q.id ==>
                  r.refillRequests[i].status == RefillStatus.Completed)
  {
    var r := AppStore.CompleteRefill(s, q.id);
    var k := AppStore.FindIsFirst(s.refillRequests, (x: RefillRequest) => x.id == q.id);
    forall x | x in MarkFilledShown(r.refillRequests)
      ensures x.id != q.id
    {
      var i :| 0 <= i < |r.refillRequests| && r.refillRequests[i] == x;
    }
  }
}
