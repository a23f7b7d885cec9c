/** The fixed tables of the application (constants.ts): the menu, the shift
    slots and the three seeded trucks. */
module Catalog {
  import opened Types
  import opened Text

  datatype MenuItem = MenuItem(id: string, name: string, price: int)

  const TeaTypes: seq<MenuItem> := [
    MenuItem("masala", "Masala Tea", 15),
    MenuItem("ginger", "Ginger Tea", 15),
    MenuItem("cardamom", "Cardamom Tea", 20),
    MenuItem("black", "Black Tea", 10),
    MenuItem("lemon", "Lemon Tea", 12)
  ]

  const SnackTypes: seq<MenuItem> := [
    MenuItem("samosa", "Samosa (2pc)", 30),
    MenuItem("biscuits", "Butter Biscuits", 10),
    MenuItem("vada", "Medhu Vada", 15)
  ]

  /** Both views list the menu as the teas followed by the snacks. */
  const Menu: seq<MenuItem> := TeaTypes + SnackTypes

  const ShiftSlots: seq<string> := ["5:00 AM - 12:00 PM", "12:00 PM - 7:00 PM", "7:00 PM - 2:00 AM"]

  /** The first entry of `items` with the given id. */
  function FindIn(items: seq<MenuItem>, id: string): Option<MenuItem>
    decreases |items|
  {
    if items == [] then None
    else if items[0].id == id then Some(items[0])
    else FindIn(items[1..], id)
  }

  predicate DistinctIds(items: seq<MenuItem>) {
    forall i, j :: 0 <= i < j < |items| ==> items[i].id != items[j].id
  }

  /** FindIn returns an entry with the id, returns nothing only when no entry has
      it, and among distinct ids returns the one entry that has it. */
  lemma {:induction false} FindInFinds(items: seq<MenuItem>, id: string)
    ensures FindIn(items, id).Some? ==> FindIn(items, id).value in items && FindIn(items, id).value.id == id
    ensures FindIn(items, id).None? <==> forall m :: m in items ==> m.id != id
    ensures DistinctIds(items) ==> forall m :: m in items && m.id == id ==> FindIn(items, id) == Some(m)
    decreases |items|
  {
    if items != [] && items[0].id != id {
      FindInFinds(items[1..], id);
      assert forall m :: m in items ==> m == items[0] || m in items[1..];
      if DistinctIds(items) {
        assert DistinctIds(items[1..]);
      }
    }
  }

  function Find(id: string): Option<MenuItem> {
    FindIn(Menu, id)
  }

  predicate IsMenuId(id: string) {
    Find(id).Some?
  }

  /** The menu written out entry by entry: its ids are distinct and its prices are not negative. */
  lemma MenuFacts()
    ensures Menu == [TeaTypes[0], TeaTypes[1], TeaTypes[2], TeaTypes[3], TeaTypes[4],
                     SnackTypes[0], SnackTypes[1], SnackTypes[2]]
    ensures DistinctIds(Menu)
    ensures forall m :: m in Menu ==> m.price >= 0
  {
  }

  /** The menu price of an id, or 0 for an id that is not on the menu. */
  function PriceOf(id: string): int {
    match Find(id)
    case Some(m) => m.price
    case None => 0
  }

  /** PriceOf charges each menu item its listed price and anything else nothing. */
  lemma PriceOfIsMenuPrice(id: string)
    ensures PriceOf(id) >= 0
    ensures IsMenuId(id) <==> exists m :: m in Menu && m.id == id
    ensures !IsMenuId(id) ==> PriceOf(id) == 0
    ensures forall m :: m in Menu && m.id == id ==> PriceOf(id) == m.price
  {
    MenuFacts();
    FindInFinds(Menu, id);
  }

  lemma MenuIdsSpelledOut()
    ensures !IsTea("masala") && !IsTea("ginger") && !IsTea("cardamom") && !IsTea("black")
    ensures !IsTea("lemon") && !IsTea("samosa") && !IsTea("biscuits") && !IsTea("vada")
  {
    NotTeaWithout("masala", 0);
    NotTeaWithout("ginger", 0);
    NotTeaWithout("cardamom", 0);
    NotTeaWithout("black", 0);
    NotTeaWithout("lemon", 0);
    NotTeaWithout("samosa", 0);
    NotTeaWithout("biscuits", 1);
    NotTeaWithout("vada", 0);
  }

  /** No menu id mentions "tea": a line whose kind is a menu id never counts as tea. */
  lemma MenuIdsAreNotTea()
    ensures forall m :: m in Menu ==> !IsTea(m.id)
  {
    MenuIdsSpelledOut();
    MenuFacts();
  }

  lemma TeaNamesSpelledOut()
    ensures IsTea("Masala Tea") && IsTea("Ginger Tea") && IsTea("Cardamom Tea")
    ensures IsTea("Black Tea") && IsTea("Lemon Tea")
  {
    TeaAt("Masala Tea", 7);
    TeaAt("Ginger Tea", 7);
    TeaAt("Cardamom Tea", 9);
    TeaAt("Black Tea", 6);
    TeaAt("Lemon Tea", 6);
  }

  lemma SnackNamesSpelledOut()
    ensures !IsTea("Samosa (2pc)") && !IsTea("Butter Biscuits") && !IsTea("Medhu Vada")
  {
    NotTeaWithout("Samosa (2pc)", 0);
    NotTeaWithout("Butter Biscuits", 2);
    NotTeaWithout("Medhu Vada", 0);
  }

  /** Exactly the tea names mention "tea": a line whose kind is a menu name counts
      as tea iff it names one of the teas. */
  lemma MenuNamesAreTeaExactlyForTeas()
    ensures forall m :: m in TeaTypes ==> IsTea(m.name)
    ensures forall m :: m in SnackTypes ==> !IsTea(m.name)
  {
    TeaNamesSpelledOut();
    SnackNamesSpelledOut();
    assert TeaTypes == [TeaTypes[0], TeaTypes[1], TeaTypes[2], TeaTypes[3], TeaTypes[4]];
    assert SnackTypes == [SnackTypes[0], SnackTypes[1], SnackTypes[2]];
  }

  const InitialVehicles: seq<Vehicle> := [
    Vehicle("v1", "Thambi 01 - Ravi", "Ravi", Location(13.0827, 80.2707), Available,
            Stock(85.0, 75.0, 90.0, 95.0, 80.0, 40.0), Perfect, "2025-05-15", 4.9),
    Vehicle("v2", "Thambi 02 - Dinesh", "Dinesh", Location(13.0850, 80.2600), Available,
            Stock(45.0, 40.0, 60.0, 50.0, 70.0, 20.0), Perfect, "2025-05-15", 4.7),
    Vehicle("v3", "Thambi 03 - Kumar", "Kumar", Location(13.0780, 80.2800), Busy,
            Stock(15.0, 10.0, 25.0, 10.0, 50.0, 5.0), Perfect, "2025-05-15", 4.4)
  ]
}
