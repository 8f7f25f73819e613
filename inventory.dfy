/**
 * The process-wide store `stock_data` of inventory_system.py as an object
 * whose fields the operations update in place, and the demonstration
 * sequence of `main` as a client of it.
 */
module InventorySystem {
  import opened Stock

  class Inventory {
    /** The dict `stock_data`: quantity by item name. */
    var stock: map<string, int>
    /** The dict's iteration (insertion) order. */
    var order: seq<string>

    function State(): Store
      reads this
    {
      Store(stock, order)
    }

    /** The order lists every key of `stock` exactly once. Positivity of the
        quantities (`AllPositive`) is deliberately not part of this invariant:
        in the source, loading a file replaces the dict with unchecked
        contents, so the operations here promise only to preserve positivity,
        and every object this class can build is positive. */
    ghost predicate Valid()
      reads this
    {
      WellFormed(State())
    }

    /** `stock_data = {}` at module load. */
    constructor ()
      ensures Valid() && State() == Empty
      ensures AllPositive(stock)
    {
      stock := map[];
      order := [];
    }

    /** `add_item(item, qty)`; the result names the message it logs. */
    method AddItem(item: string := "default", qty: int := 0) returns (outcome: Outcome)
      requires Valid()
      modifies this
      ensures Valid()
      ensures Step(State(), outcome) == Add(old(State()), item, qty)
      ensures item == "" || qty <= 0 ==> stock == old(stock) && order == old(order)
      ensures item != "" && qty > 0 ==> stock == old(stock)[item := old(GetQty(item)) + qty]
      ensures old(AllPositive(stock)) ==> AllPositive(stock)
    {
      AddPreservesWellFormed(State(), item, qty);
      if item == "" {
        return InvalidName;
      }
      if qty <= 0 {
        return NonPositiveAdd;
      }
      if item !in stock {
        order := order + [item];
      }
      stock := stock[item := GetQty(item) + qty];
      outcome := Added(stock[item]);
    }

    /** `remove_item(item, qty)`; the result names the message it logs. */
    method RemoveItem(item: string, qty: int) returns (outcome: Outcome)
      requires Valid()
      modifies this
      ensures Valid()
      ensures Step(State(), outcome) == Remove(old(State()), item, qty)
      ensures item == "" || qty <= 0 || item !in old(stock) ==> stock == old(stock) && order == old(order)
      ensures outcome == RemovedEntirely ==> item !in stock && stock == old(stock) - {item}
      ensures outcome.Decremented? ==> stock == old(stock)[item := old(stock[item]) - qty] && order == old(order)
      ensures old(AllPositive(stock)) ==> AllPositive(stock)
    {
      RemovePreservesWellFormed(State(), item, qty);
      if item == "" {
        return InvalidName;
      }
      if qty <= 0 {
        return InvalidRemoveQuantity;
      }
      if item !in stock {
        return NotInStock;
      }
      if stock[item] <= qty {
        stock := stock - {item};
        order := Filter(order, k => k != item);
        outcome := RemovedEntirely;
      } else {
        stock := stock[item := stock[item] - qty];
        outcome := Decremented(stock[item]);
      }
    }

    /** `get_qty(item)`: the stored quantity, or 0 for an absent item. */
    function GetQty(item: string): (r: int)
      reads this
      ensures item in stock ==> r == stock[item]
      ensures item !in stock ==> r == 0
      ensures AllPositive(stock) ==> (r == 0 <==> item !in stock)
    {
      Quantity(State(), item)
    }

    /** `check_low_items(threshold)`: every stored name whose quantity is at
        most `threshold`, each once, in iteration order. */
    function CheckLowItems(threshold: int := DefaultThreshold): (r: seq<string>)
      reads this
      requires Valid()
      ensures forall x :: x in r <==> x in stock && stock[x] <= threshold
      ensures NoDuplicates(r) && SubsequenceOf(r, order)
      ensures r == [] <==> forall x :: x in stock ==> stock[x] > threshold
    {
      LowItemsSpec(State(), threshold);
      var r := LowItems(State(), threshold);
      assert r != [] ==> r[0] in r;
      r
    }
  }

  /** The typed add/remove calls of `main`, starting from an empty store. */
  method DemoCalls() returns (inv: Inventory)
    ensures fresh(inv) && inv.Valid()
    ensures inv.stock == map["apple" := 7, "banana" := 25]
  {
    inv := new Inventory();
    var o := inv.AddItem("apple", 10);
    assert inv.stock == map["apple" := 10];
    o := inv.AddItem("banana", 25);
    assert inv.stock == map["apple" := 10, "banana" := 25];
    o := inv.AddItem("banana", -2);
    assert o == NonPositiveAdd;
    o := inv.RemoveItem("apple", 3);
    assert o == Decremented(7);
    o := inv.RemoveItem("orange", 1);
    assert o == NotInStock;
  }

  /** The calls of `DemoCalls`, followed by the queries of `main` (apple's
      quantity, the low items) and a query for orange, which `main` itself
      does not make: apple ends at 7, orange reads 0, nothing is low. */
  method Demo() returns (apple: int, orange: int, low: seq<string>)
    ensures apple == 7 && orange == 0 && low == []
  {
    var inv := DemoCalls();
    apple := inv.GetQty("apple");
    orange := inv.GetQty("orange");
    low := inv.CheckLowItems();
  }
}
