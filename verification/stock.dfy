/** The stock arithmetic of a truck: per-line consumption, clamped deduction,
    low-stock crossings, refills, inbound top-ups and fuel decay. */
module StockRules {
  import opened Types
  import opened Text

  /** A key of the stock record. */
  datatype Item = Tea | Milk | Sugar | Cups | Fuel | Snacks

  /** The keys in the order the stock record declares them, which is the order
      the low-stock check visits them. */
  const Items: seq<Item> := [Tea, Milk, Sugar, Cups, Fuel, Snacks]

  /** The position of a key in the record, the order `Object.entries` visits it. */
  function Rank(it: Item): nat {
    match it
    case Tea => 0
    case Milk => 1
    case Sugar => 2
    case Cups => 3
    case Fuel => 4
    case Snacks => 5
  }

  /** Keys listed strictly in record order (hence each at most once). */
  predicate InRecordOrder(its: seq<Item>) {
    forall i, j :: 0 <= i < j < |its| ==> Rank(its[i]) < Rank(its[j])
  }

  /** The key as it appears in the low-stock message. */
  function Name(it: Item): string {
    match it
    case Tea => "tea"
    case Milk => "milk"
    case Sugar => "sugar"
    case Cups => "cups"
    case Fuel => "fuel"
    case Snacks => "snacks"
  }

  function Get(st: Stock, it: Item): real {
    match it
    case Tea => st.tea
    case Milk => st.milk
    case Sugar => st.sugar
    case Cups => st.cups
    case Fuel => st.fuel
    case Snacks => st.snacks
  }

  /** The stock with the level of `it` set to `x`, the others kept. */
  function Set(st: Stock, it: Item, x: real): (r: Stock)
    ensures Get(r, it) == x
    ensures forall o :: o != it ==> Get(r, o) == Get(st, o)
  {
    match it
    case Tea => st.(tea := x)
    case Milk => st.(milk := x)
    case Sugar => st.(sugar := x)
    case Cups => st.(cups := x)
    case Fuel => st.(fuel := x)
    case Snacks => st.(snacks := x)
  }

  function Min(a: real, b: real): real {
    if a <= b then a else b
  }

  function Max(a: real, b: real): real {
    if a >= b then a else b
  }

  const Full: real := 100.0
  const SnackRefillLevel: real := 50.0
  const LowStock: real := 20.0

  /** Consumption per unit of a tea line, and per unit of any other line. */
  const TeaPerUnit: real := 0.5
  const MilkPerUnit: real := 0.8
  const SugarPerUnit: real := 0.2
  const CupsPerUnit: real := 1.5
  const SnacksPerUnit: real := 2.0

  /** Fuel burnt per telemetry tick by an available truck and by any other truck. */
  const FuelBurnAvailable: real := 0.05
  const FuelBurnIdle: real := 0.01

  /** The five reductions accumulated by the deduction loop. */
  datatype Usage = Usage(tea: real, milk: real, sugar: real, cups: real, snacks: real)

  function LineUsage(item: LineItem): Usage {
    var q := item.quantity as real;
    if IsTea(item.kind) then Usage(q * TeaPerUnit, q * MilkPerUnit, q * SugarPerUnit, q * CupsPerUnit, 0.0)
    else Usage(0.0, 0.0, 0.0, 0.0, q * SnacksPerUnit)
  }

  function Add(a: Usage, b: Usage): Usage {
    Usage(a.tea + b.tea, a.milk + b.milk, a.sugar + b.sugar, a.cups + b.cups, a.snacks + b.snacks)
  }

  /** The reductions summed line by line, as the `forEach` over the items does. */
  function UsageOf(items: seq<LineItem>): Usage
    decreases |items|
  {
    if items == [] then Usage(0.0, 0.0, 0.0, 0.0, 0.0)
    else Add(LineUsage(items[0]), UsageOf(items[1..]))
  }

  /** Units on lines whose kind mentions "tea". */
  function TeaQuantity(items: seq<LineItem>): int
    decreases |items|
  {
    if items == [] then 0
    else (if IsTea(items[0].kind) then items[0].quantity else 0) + TeaQuantity(items[1..])
  }

  /** Units on all other lines. */
  function OtherQuantity(items: seq<LineItem>): int
    decreases |items|
  {
    if items == [] then 0
    else (if IsTea(items[0].kind) then 0 else items[0].quantity) + OtherQuantity(items[1..])
  }

  predicate NonNegativeQuantities(items: seq<LineItem>) {
    forall i :: 0 <= i < |items| ==> items[i].quantity >= 0
  }

  /** Every reduction is its fixed ratio times the number of tea units (or, for
      snacks, of other units). */
  lemma {:induction false} UsageIsProportional(items: seq<LineItem>)
    ensures UsageOf(items) == Usage(
      TeaPerUnit * TeaQuantity(items) as real,
      MilkPerUnit * TeaQuantity(items) as real,
      SugarPerUnit * TeaQuantity(items) as real,
      CupsPerUnit * TeaQuantity(items) as real,
      SnacksPerUnit * OtherQuantity(items) as real)
    decreases |items|
  {
    if items != [] {
      UsageIsProportional(items[1..]);
    }
  }

  lemma {:induction false} QuantitiesNonNegative(items: seq<LineItem>)
    requires NonNegativeQuantities(items)
    ensures TeaQuantity(items) >= 0 && OtherQuantity(items) >= 0
    decreases |items|
  {
    if items != [] {
      QuantitiesNonNegative(items[1..]);
    }
  }

  /** The stock after one delivery of `items`: each consumable drops by its ratio
      times the relevant units, clamped at 0; fuel is not touched. */
  function Deduct(st: Stock, items: seq<LineItem>): (r: Stock)
    ensures r.tea == Max(0.0, st.tea - TeaPerUnit * TeaQuantity(items) as real)
    ensures r.milk == Max(0.0, st.milk - MilkPerUnit * TeaQuantity(items) as real)
    ensures r.sugar == Max(0.0, st.sugar - SugarPerUnit * TeaQuantity(items) as real)
    ensures r.cups == Max(0.0, st.cups - CupsPerUnit * TeaQuantity(items) as real)
    ensures r.snacks == Max(0.0, st.snacks - SnacksPerUnit * OtherQuantity(items) as real)
    ensures r.fuel == st.fuel
  {
    UsageIsProportional(items);
    var u := UsageOf(items);
    st.(tea := Max(0.0, st.tea - u.tea),
        milk := Max(0.0, st.milk - u.milk),
        sugar := Max(0.0, st.sugar - u.sugar),
        cups := Max(0.0, st.cups - u.cups),
        snacks := Max(0.0, st.snacks - u.snacks))
  }

  /** A sale without tea lines takes only snacks, and leaves every other level as it was. */
  lemma DeductWithoutTea(st: Stock, items: seq<LineItem>)
    requires TeaQuantity(items) == 0
    requires st.tea >= 0.0 && st.milk >= 0.0 && st.sugar >= 0.0 && st.cups >= 0.0
    ensures Deduct(st, items) == st.(snacks := Max(0.0, st.snacks - SnacksPerUnit * OtherQuantity(items) as real))
  {
  }

  /** With no negative quantities, a deduction never raises a level and never
      leaves a consumable below 0. */
  lemma DeductNeverIncreases(st: Stock, items: seq<LineItem>)
    requires NonNegativeQuantities(items)
    requires forall it :: Get(st, it) >= 0.0
    ensures forall it :: Get(Deduct(st, items), it) <= Get(st, it)
    ensures forall it :: it != Fuel ==> Get(Deduct(st, items), it) >= 0.0
    ensures Get(Deduct(st, items), Fuel) == Get(st, Fuel)
  {
    QuantitiesNonNegative(items);
  }

  /** A level that falls from at least 20 to below 20. */
  predicate Crossed(before: Stock, after: Stock, it: Item) {
    Get(before, it) >= LowStock && Get(after, it) < LowStock
  }

  /** No key occurs twice. */
  predicate NoDuplicates(its: seq<Item>)
    decreases |its|
  {
    its == [] || (its[0] !in its[1..] && NoDuplicates(its[1..]))
  }

  /** Without duplicates, different positions hold different keys. */
  lemma {:induction false} NoDuplicatesDistinct(its: seq<Item>)
    requires NoDuplicates(its)
    ensures forall i, j :: 0 <= i < j < |its| ==> its[i] != its[j]
    decreases |its|
  {
    if its != [] {
      NoDuplicatesDistinct(its[1..]);
      forall i, j | 0 <= i < j < |its|
        ensures its[i] != its[j]
      {
        if i == 0 {
          assert its[j] == its[1..][j - 1];
        } else {
          assert its[i] == its[1..][i - 1] && its[j] == its[1..][j - 1];
        }
      }
    }
  }

  /** Different keys have different names. */
  lemma NamesDistinct(a: Item, b: Item)
    requires Name(a) == Name(b)
    ensures a == b
  {
  }

  function CrossedAmong(its: seq<Item>, before: Stock, after: Stock): (r: seq<Item>)
    ensures forall it :: it in r <==> it in its && Crossed(before, after, it)
    ensures NoDuplicates(its) ==> NoDuplicates(r)
    ensures InRecordOrder(its) ==> InRecordOrder(r)
    decreases |its|
  {
    if its == [] then []
    else
      var rest := CrossedAmong(its[1..], before, after);
      if Crossed(before, after, its[0]) then
        var r := [its[0]] + rest;
        assert r[1..] == rest;
        assert InRecordOrder(its) ==> InRecordOrder(r) by {
          if InRecordOrder(its) {
            forall i, j | 0 <= i < j < |r|
              ensures Rank(r[i]) < Rank(r[j])
            {
              assert r[j] in its[1..];
              var k :| 0 <= k < |its[1..]| && its[1..][k] == r[j];
              assert its[k + 1] == r[j];
            }
          }
        }
        r
      else rest
  }

  lemma ItemsListsEveryKeyOnce()
    ensures forall it :: it in Items
    ensures NoDuplicates(Items)
    ensures InRecordOrder(Items)
  {
    assert Items[1..] == [Milk, Sugar, Cups, Fuel, Snacks];
    assert Items[1..][1..] == [Sugar, Cups, Fuel, Snacks];
    assert Items[1..][1..][1..] == [Cups, Fuel, Snacks];
    assert Items[1..][1..][1..][1..] == [Fuel, Snacks];
    assert Items[1..][1..][1..][1..][1..] == [Snacks];
    forall it ensures it in Items {
      match it
      case Tea => assert Items[0] == it;
      case Milk => assert Items[1] == it;
      case Sugar => assert Items[2] == it;
      case Cups => assert Items[3] == it;
      case Fuel => assert Items[4] == it;
      case Snacks => assert Items[5] == it;
    }
  }

  /** The keys whose level crossed below 20, in record order, each once. */
  function Crossings(before: Stock, after: Stock): (r: seq<Item>)
    ensures forall it :: it in r <==> Crossed(before, after, it)
    ensures NoDuplicates(r)
    ensures InRecordOrder(r)
  {
    ItemsListsEveryKeyOnce();
    CrossedAmong(Items, before, after)
  }

  /** A deduction never raises a fuel alert. */
  lemma DeductNeverCrossesFuel(st: Stock, items: seq<LineItem>)
    ensures Fuel !in Crossings(st, Deduct(st, items))
  {
  }

  /** The refill applied when a request is completed: a fuel refill fills the
      tank and nothing else; a stock refill fills tea, milk, sugar and cups,
      sets snacks to 50 and leaves fuel alone. */
  function Refill(st: Stock, kind: RefillKind): (r: Stock)
    ensures kind == FuelRefill ==> Get(r, Fuel) == Full && forall it :: it != Fuel ==> Get(r, it) == Get(st, it)
    ensures kind == StockRefill ==>
              && r.tea == Full && r.milk == Full && r.sugar == Full && r.cups == Full
              && r.snacks == SnackRefillLevel && r.fuel == st.fuel
  {
    if kind == FuelRefill then st.(fuel := Full)
    else st.(tea := Full, milk := Full, sugar := Full, cups := Full, snacks := SnackRefillLevel)
  }

  /** An inbound delivery: the chosen level rises by `amount`, capped at 100. */
  function Inbound(st: Stock, it: Item, amount: real): (r: Stock)
    ensures Get(r, it) == Min(Full, Get(st, it) + amount)
    ensures forall o :: o != it ==> Get(r, o) == Get(st, o)
  {
    Set(st, it, Min(Full, Get(st, it) + amount))
  }

  /** One telemetry tick: fuel drops by the burn rate for the truck's status, clamped at 0. */
  function Decay(st: Stock, status: VehicleStatus): (r: Stock)
    ensures r.fuel == Max(0.0, st.fuel - (if status == Available then FuelBurnAvailable else FuelBurnIdle))
    ensures forall it :: it != Fuel ==> Get(r, it) == Get(st, it)
  {
    st.(fuel := Max(0.0, st.fuel - (if status == Available then FuelBurnAvailable else FuelBurnIdle)))
  }

  /** Every level is a percentage. */
  predicate InRange(st: Stock) {
    forall it :: 0.0 <= Get(st, it) <= Full
  }

  /** Each stock-changing rule keeps levels within 0..100, given non-negative
      quantities and amounts. */
  lemma RulesKeepRange(st: Stock, items: seq<LineItem>, kind: RefillKind, it: Item, amount: real, status: VehicleStatus)
    requires InRange(st)
    requires NonNegativeQuantities(items) && amount >= 0.0
    ensures InRange(Deduct(st, items))
    ensures InRange(Refill(st, kind))
    ensures InRange(Inbound(st, it, amount))
    ensures InRange(Decay(st, status))
  {
    DeductNeverIncreases(st, items);
  }
}
