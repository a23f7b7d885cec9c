/** The records of the tea-vendor application, as immutable datatypes.
    Every field keeps the name it has in the application, except the order line's
    `type`, which is a Dafny keyword and is called `kind` here. */
module Types {

  /** An optional value: TypeScript's `T | undefined` and `T | null`. */
  datatype Option<+T> = None | Some(value: T) {

    /** The value, or `default` when there is none. */
    function GetOr(default: T): T {
      match this
      case Some(v) => v
      case None => default
    }
  }

  datatype Role = Customer | Driver | Admin

  /** A signed-in user; the optional profile counters are not part of this model. */
  datatype User = User(id: string, name: string, phone: string, role: Role)

  /** A map position in degrees. */
  datatype Location = Location(lat: real, lng: real)

  datatype VehicleStatus = Available | Busy | Offline

  datatype Health = Perfect | NeedsService | Critical

  /** The six stock levels of a truck, each a percentage. */
  datatype Stock = Stock(tea: real, milk: real, sugar: real, cups: real, fuel: real, snacks: real)

  datatype Vehicle = Vehicle(
    id: string,
    name: string,
    driverName: string,
    location: Location,
    status: VehicleStatus,
    stock: Stock,
    health: Health,
    lastMaintained: string,
    rating: real)

  /** One order line. `kind` holds a menu name (customer orders) or a menu id
      (manual sales); only whether it mentions "tea" matters to the stock rules. */
  datatype LineItem = LineItem(kind: string, quantity: int, price: int)

  datatype OrderStatus = Pending | Accepted | Preparing | OnTheWay | Delivered | Cancelled

  datatype PaymentStatus = Unpaid | Paid

  datatype Order = Order(
    id: string,
    customerId: string,
    customerName: string,
    vehicleId: string,
    items: seq<LineItem>,
    totalPrice: int,
    status: OrderStatus,
    paymentStatus: PaymentStatus,
    timestamp: int,
    location: Location)

  /** A shift log; `durationMinutes` is the planned length of the shift. */
  datatype AttendanceLog = AttendanceLog(
    id: string,
    driverId: string,
    driverName: string,
    vehicleId: string,
    clockIn: int,
    clockOut: Option<int>,
    shift: string,
    durationMinutes: int)

  datatype Message = Message(id: string, senderId: string, receiverId: string, text: string, timestamp: int)

  datatype ShiftStatus = Pending | Approved | Rejected | Completed

  datatype ShiftBooking = ShiftBooking(
    id: string,
    driverId: string,
    vehicleId: string,
    date: string,
    slot: string,
    status: ShiftStatus,
    timestamp: int)

  datatype NoticeKind = Info | Success | Warning | Error

  datatype Notification = Notification(
    id: string,
    userId: string,
    title: string,
    message: string,
    kind: NoticeKind,
    timestamp: int,
    read: bool)

  datatype RefillKind = StockRefill | FuelRefill

  datatype RefillStatus = Pending | Completed

  datatype RefillRequest = RefillRequest(
    id: string,
    vehicleId: string,
    items: seq<string>,
    kind: RefillKind,
    timestamp: int,
    status: RefillStatus)

  datatype HealthReport = HealthReport(
    id: string,
    vehicleId: string,
    driverId: string,
    status: Health,
    notes: string,
    timestamp: int)
}
