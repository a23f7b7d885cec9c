/** The shopping carts of the customer and driver views: a record from menu id
    to quantity, kept as entries in insertion order (the order `Object.entries`
    lists non-numeric keys in). */
module Carts {
  import Catalog

  datatype Entry = Entry(id: string, qty: int)

  type Cart = seq<Entry>

  /** Whether the record has the key `id`. */
  predicate Has(c: Cart, id: string)
    decreases |c|
  {
    c != [] && (c[0].id == id || Has(c[1..], id))
  }

  /** A record holds each key at most once. */
  predicate UniqueIds(c: Cart)
    decreases |c|
  {
    c == [] || (!Has(c[1..], c[0].id) && UniqueIds(c[1..]))
  }

  predicate NonNegative(c: Cart) {
    forall i :: 0 <= i < |c| ==> c[i].qty >= 0
  }

  predicate InMenu(c: Cart) {
    forall i :: 0 <= i < |c| ==> Catalog.IsMenuId(c[i].id)
  }

  /** The quantity recorded for `id`, or 0 when the cart has no entry for it. */
  function Get(c: Cart, id: string): (q: int)
    ensures !Has(c, id) ==> q == 0
    decreases |c|
  {
    if c == [] then 0
    else if c[0].id == id then c[0].qty
    else Get(c[1..], id)
  }

  /** The cart with the quantity of `id` set to `v`: the entry is overwritten in place,
      or a new one is appended. */
  function Put(c: Cart, id: string, v: int): (r: Cart)
    ensures Get(r, id) == v
    ensures forall o :: o != id ==> Get(r, o) == Get(c, o)
    ensures forall o :: Has(r, o) <==> Has(c, o) || o == id
    ensures |r| == if Has(c, id) then |c| else |c| + 1
    ensures UniqueIds(c) ==> UniqueIds(r)
    decreases |c|
  {
    if c == [] then [Entry(id, v)]
    else if c[0].id == id then [Entry(id, v)] + c[1..]
    else
      var rest := Put(c[1..], id, v);
      assert ([c[0]] + rest)[1..] == rest;
      [c[0]] + rest
  }

  /** The "+" button: one more of `id`, nothing else changes. */
  function Inc(c: Cart, id: string): (r: Cart)
    ensures Get(r, id) == Get(c, id) + 1
    ensures forall o :: o != id ==> Get(r, o) == Get(c, o)
  {
    Put(c, id, Get(c, id) + 1)
  }

  /** The "-" button: one fewer of `id`, but never below 0; nothing else changes. */
  function Dec(c: Cart, id: string): (r: Cart)
    ensures Get(r, id) == if Get(c, id) > 0 then Get(c, id) - 1 else 0
    ensures Get(r, id) >= 0
    ensures forall o :: o != id ==> Get(r, o) == Get(c, o)
  {
    Put(c, id, if Get(c, id) - 1 >= 0 then Get(c, id) - 1 else 0)
  }

  /** Σ price × quantity over the entries, for a given price table. */
  function TotalAt(c: Cart, price: string -> int): int
    decreases |c|
  {
    if c == [] then 0
    else price(c[0].id) * c[0].qty + TotalAt(c[1..], price)
  }

  /** The cart total at menu prices; an unknown id is priced 0. */
  function Total(c: Cart): int {
    TotalAt(c, Catalog.PriceOf)
  }

  /** Σ quantity over the entries. */
  function Quantity(c: Cart): int
    decreases |c|
  {
    if c == [] then 0
    else c[0].qty + Quantity(c[1..])
  }

  /** Overwriting one entry changes the total by that entry's price times the change in quantity. */
  lemma {:induction false} TotalAfterPut(c: Cart, id: string, v: int, price: string -> int)
    requires UniqueIds(c)
    ensures TotalAt(Put(c, id, v), price) == TotalAt(c, price) + price(id) * (v - Get(c, id))
    decreases |c|
  {
    var p := price(id);
    if c == [] {
      assert Put(c, id, v) == [Entry(id, v)];
    } else if c[0].id != id {
      TotalAfterPut(c[1..], id, v, price);
      assert Put(c, id, v)[1..] == Put(c[1..], id, v);
    } else {
      var q := c[0].qty;
      assert Put(c, id, v)[1..] == c[1..];
      assert p * v == p * q + p * (v - q);
    }
  }

  lemma IncRaisesTotalAt(c: Cart, id: string, price: string -> int)
    requires UniqueIds(c)
    ensures TotalAt(Inc(c, id), price) == TotalAt(c, price) + price(id)
  {
    var g, p := Get(c, id), price(id);
    assert p * (g + 1 - g) == p by { assert g + 1 - g == 1; }
    calc {
      TotalAt(Inc(c, id), price);
      TotalAt(Put(c, id, g + 1), price);
      { TotalAfterPut(c, id, g + 1, price); }
      TotalAt(c, price) + p * (g + 1 - g);
    }
  }

  /** Multiplying by -1 negates. */
  lemma NegateByMinusOne(p: int, d: int)
    requires d == -1
    ensures p * d == -p
  {
  }

  lemma DecLowersTotalAt(c: Cart, id: string, price: string -> int)
    requires UniqueIds(c) && NonNegative(c)
    ensures TotalAt(Dec(c, id), price) == if Get(c, id) > 0 then TotalAt(c, price) - price(id) else TotalAt(c, price)
  {
    var g, p, t := Get(c, id), price(id), TotalAt(c, price);
    GetNonNegative(c, id);
    if g > 0 {
      assert Dec(c, id) == Put(c, id, g - 1);
      TotalAfterPut(c, id, g - 1, price);
      NegateByMinusOne(p, g - 1 - g);
      assert TotalAt(Dec(c, id), price) == t - p;
    } else {
      assert g == 0 && Dec(c, id) == Put(c, id, g);
      TotalAfterPut(c, id, g, price);
      assert TotalAt(Dec(c, id), price) == t;
    }
  }

  /** "+" raises the total by the item's menu price. */
  lemma IncRaisesTotal(c: Cart, id: string)
    requires UniqueIds(c)
    ensures Total(Inc(c, id)) == Total(c) + Catalog.PriceOf(id)
  {
    IncRaisesTotalAt(c, id, Catalog.PriceOf);
  }

  /** "-" lowers the total by the item's menu price, unless the quantity was already 0. */
  lemma DecLowersTotal(c: Cart, id: string)
    requires UniqueIds(c) && NonNegative(c)
    ensures Total(Dec(c, id)) == if Get(c, id) > 0 then Total(c) - Catalog.PriceOf(id) else Total(c)
  {
    DecLowersTotalAt(c, id, Catalog.PriceOf);
  }

  lemma {:induction false} GetNonNegative(c: Cart, id: string)
    requires NonNegative(c)
    ensures Get(c, id) >= 0
    decreases |c|
  {
    if c != [] && c[0].id != id {
      GetNonNegative(c[1..], id);
    }
  }

  /** A cart without negative quantities has a total of at least 0. */
  lemma {:induction false} TotalNonNegativeAt(c: Cart, price: string -> int)
    requires NonNegative(c)
    requires forall id :: price(id) >= 0
    ensures TotalAt(c, price) >= 0
    decreases |c|
  {
    if c != [] {
      TotalNonNegativeAt(c[1..], price);
      var p := price(c[0].id);
      assert p * c[0].qty >= 0;
    }
  }

  lemma TotalNonNegative(c: Cart)
    requires NonNegative(c)
    ensures Total(c) >= 0
  {
    forall id ensures Catalog.PriceOf(id) >= 0 {
      Catalog.PriceOfIsMenuPrice(id);
    }
    TotalNonNegativeAt(c, Catalog.PriceOf);
  }

  /** Clicking "+" or "-" on a menu item keeps a well-formed cart well formed:
      unique keys, menu ids only, no negative quantity. */
  lemma ClicksKeepCartWellFormed(c: Cart, id: string)
    requires UniqueIds(c) && NonNegative(c) && InMenu(c) && Catalog.IsMenuId(id)
    ensures UniqueIds(Inc(c, id)) && NonNegative(Inc(c, id)) && InMenu(Inc(c, id))
    ensures UniqueIds(Dec(c, id)) && NonNegative(Dec(c, id)) && InMenu(Dec(c, id))
  {
    GetNonNegative(c, id);
    PutKeepsWellFormed(c, id, Get(c, id) + 1);
    PutKeepsWellFormed(c, id, if Get(c, id) - 1 >= 0 then Get(c, id) - 1 else 0);
  }

  lemma {:induction false} PutKeepsWellFormed(c: Cart, id: string, v: int)
    requires NonNegative(c) && InMenu(c) && Catalog.IsMenuId(id) && v >= 0
    ensures NonNegative(Put(c, id, v)) && InMenu(Put(c, id, v))
    decreases |c|
  {
    if c != [] && c[0].id != id {
      PutKeepsWellFormed(c[1..], id, v);
      assert Put(c, id, v) == [c[0]] + Put(c[1..], id, v);
    }
  }
}
