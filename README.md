# Inventory store — a Dafny model

`inventory_system.py` keeps an in-memory inventory: a process-wide dict
`stock_data` from item name to integer quantity, changed in place by
`add_item` and `remove_item` and read by `get_qty` and `check_low_items`.
The dict keeps its keys in insertion order, and `check_low_items` reports
them in that order. So the model keeps two things: the mapping and the
sequence of its keys.

The project has two modules:

- `Stock` (stock.dfy) models the store as a value, `Store(stock, order)`.
  `Add` and `Remove` are the transitions that `add_item` and `remove_item`
  perform. Each one returns the new store and an `Outcome`. The `Outcome`
  names the log message the call emits, and `Severity` gives the log level
  (info, warning or error). `Quantity` is `get_qty` and `LowItems` is
  `check_low_items`. `Filter` is shared by `check_low_items` and by
  `del stock_data[item]`. The lemmas state what each operation promises.
  They also prove the store's invariant: every stored quantity is strictly
  positive, and the order lists each key exactly once. `Run` applies any
  sequence of add/remove calls, and `ReachableStoresPositive` proves the
  invariant for every store reachable from the empty one.
- `InventorySystem` (inventory.dfy) holds the class `Inventory`. Its fields
  `stock` and `order` are the dict. `AddItem` and `RemoveItem` update them
  in place, and their postconditions tie the new state to `Stock.Add` and
  `Stock.Remove`. `GetQty` and `CheckLowItems` are functions that read the
  object. `Demo` replays the typed add/remove calls of `main` and its
  queries, plus a query for orange, and is checked against the values they
  produce.

The source reports failures only by logging. The model makes each logged
condition an explicit `Outcome` value, and it keeps every condition: an
empty name, a non-positive quantity, and a remove of an absent item. Each
of these leaves the mapping and the order unchanged. The source's
`isinstance` checks have no counterpart, because Dafny's types already
rule out a name that is not a string or a quantity that is not an integer.
Python integers are unbounded, and so is Dafny's `int`.

## Model

| member | source | states |
|---|---|---|
| `Stock.Quantity` | inventory_system.py:86 | `dict.get(item, 0)` on the store; its properties are stated by `Stock.QuantityZeroIffAbsent`, `Stock.EmptyQuantity`, `Stock.NeverAddedReadsZero` and `Inventory.GetQty` |
| `Stock.Add` | inventory_system.py:15-35 | the transition of `add_item`, with the outcome it logs; its properties are stated by `Stock.AddRejected`, `Stock.AddIncrements`, `Stock.AddPreservesWellFormed` and `Stock.AddPreservesPositive` |
| `Stock.Delete` | inventory_system.py:58 | `del stock_data[item]`, removing the key from mapping and order; its properties are stated by `Stock.RemoveDeletes` and `Stock.DeleteKeepsOrder` |
| `Stock.Remove` | inventory_system.py:38-70 | the transition of `remove_item`, with the outcome it logs; its properties are stated by `Stock.RemoveRejected`, `Stock.RemoveDeletes`, `Stock.RemoveDecrements`, `Stock.RemovePreservesWellFormed` and `Stock.RemovePreservesPositive` |
| `Stock.LowItems` | inventory_system.py:148 | the list comprehension of `check_low_items`; its properties are stated by `Stock.LowItemsSpec`, `Stock.LowItemsUnique`, `Stock.LowItemsExample` and `Inventory.CheckLowItems` |
| `Stock.Outcome.Severity` | inventory_system.py:25-67 | the log level of each message: error for an invalid name or remove quantity (25, 50, 53), warning for a non-positive add or an absent item (31, 67), info for the three success messages (35, 59, 63); the add/remove rejection lemmas state which outcome each rejected call gets |
| `Stock.EmptyQuantity` | inventory_system.py:12 | the store starts empty: every item reads 0, and the empty store satisfies the invariant |
| `Stock.QuantityZeroIffAbsent` | inventory_system.py:83-86 | under the positivity invariant, `get_qty` is never negative, and it is 0 exactly when the item is absent |
| `Stock.AddRejected` | inventory_system.py:23-32 | an empty name or a quantity <= 0 leaves mapping and order unchanged; an empty name logs an error, a non-positive quantity a warning |
| `Stock.AddIncrements` | inventory_system.py:34-35 | a valid add sets the item to its old quantity (0 if absent) plus `qty` and reports that total; no other entry changes; an existing key keeps its place and a new key is appended to the order |
| `Stock.AddPreservesWellFormed` | inventory_system.py:34 | after an add the order still lists every key exactly once |
| `Stock.AddPreservesPositive` | inventory_system.py:30-34 | if all stored quantities are > 0 before an add, they are > 0 after it |
| `Stock.RemoveRejected` | inventory_system.py:48-67 | an empty name, a quantity <= 0 or an absent item leaves the store unchanged, with the matching error or "not in stock" warning |
| `Stock.RemoveDeletes` | inventory_system.py:57-60 | when the stored quantity is <= `qty` (equality included), the key leaves both the mapping and the order; the item then reads 0 and every other entry is unchanged |
| `Stock.DeleteKeepsOrder` | inventory_system.py:58 | deleting a key takes it out of the iteration order and leaves all other keys in their relative order |
| `Stock.RemoveDecrements` | inventory_system.py:61-64 | when the stored quantity is > `qty`, the key stays where it is and its quantity drops by exactly `qty`; the new total is reported; other entries are unchanged |
| `Stock.RemovePreservesWellFormed` | inventory_system.py:56-64 | after a remove the order still lists every key exactly once |
| `Stock.RemovePreservesPositive` | inventory_system.py:56-64 | if all stored quantities are > 0 before a remove, they are > 0 after it; no zero entry is ever stored |
| `Stock.LowItemsSpec` | inventory_system.py:138-148 | `check_low_items(t)` returns exactly the stored names whose quantity is <= `t` (inclusive), each once, as a subsequence of the iteration order |
| `Stock.LowItemsUnique` | inventory_system.py:148 | any list with the three properties of `LowItemsSpec` equals `check_low_items(t)`, so those properties pin the result down |
| `Stock.RemovedNotLow` | inventory_system.py:57-58 | after removing at least the whole quantity, the item reads 0 and is absent from the low-items list for every threshold |
| `Stock.LowItemsExample` | inventory_system.py:138-148 | on {apple: 7, banana: 3, cherry: 5} the default threshold 5 gives exactly [banana, cherry] |
| `Stock.NeverAddedReadsZero` | inventory_system.py:12-86 | for an item absent at the start, after any sequence of calls none of which successfully adds that item, `get_qty` still returns 0; add calls for it that are rejected (empty name, quantity <= 0) and removes of it are allowed in the sequence |
| `Stock.RunPreservesInvariant` | inventory_system.py:15-70 | any sequence of add/remove calls keeps every quantity > 0 and keeps the order exactly listing the keys |
| `Stock.ReachableStoresPositive` | inventory_system.py:12-70 | starting from the empty store, after any sequence of add/remove calls every stored quantity is strictly positive |
| `InventorySystem.Inventory.constructor` | inventory_system.py:12 | the store is created empty |
| `InventorySystem.Inventory.AddItem` | inventory_system.py:15-35 | updates the fields in place to exactly `Stock.Add` of the old state: no change when rejected, otherwise the item gains `qty`; positivity is preserved; the defaults are "default" and 0 |
| `InventorySystem.Inventory.RemoveItem` | inventory_system.py:38-70 | updates the fields in place to exactly `Stock.Remove` of the old state: no change when rejected or absent, deletion when quantity <= `qty`, decrement by `qty` otherwise; positivity is preserved |
| `InventorySystem.Inventory.GetQty` | inventory_system.py:73-86 | returns the stored quantity of a present item and 0 for an absent one, without changing state; under positivity, 0 means absent |
| `InventorySystem.Inventory.CheckLowItems` | inventory_system.py:138-148 | returns exactly the stored names with quantity <= threshold (default 5), each once, in iteration order, without changing state; it is empty exactly when every quantity exceeds the threshold |
| `InventorySystem.DemoCalls` | inventory_system.py:161-169 | the typed add/remove calls of `main` on an empty store (the rejected add of -2 and the remove of the absent orange change nothing) leave apple at 7 and banana at 25 |
| `InventorySystem.Demo` | inventory_system.py:159-172 | the typed add/remove calls of `main`, run on an empty store, followed by `main`'s two queries and a query for orange (which `main` does not make): apple ends at 7, orange reads 0 and no item is low |

## Left out

- `load_data` and `save_data` (inventory_system.py:89-125): file I/O and JSON encoding through a library that is not part of this model. Loading replaces the whole mapping with untrusted contents, so it could store non-positive or non-numeric values. For this reason positivity is a separate predicate (`AllPositive`), and `Inventory.Valid` does not include it.
- `print_data` (inventory_system.py:128-135): writes to standard output only.
- `main` (inventory_system.py:151-175): only its add/remove calls and its two queries (apple's quantity, the low items) are modelled, as `Demo`, starting from an empty store (the case where the inventory file is missing). `Demo` also queries orange, which `main` does not do; that query checks that an item which was only removed, never added, reads 0 (the default of `dict.get`). Logging setup, printing, loading and saving are left out.
- `InventorySystem.Demo`: leaves out the call `add_item(123, "ten")`, because its arguments cannot be given Dafny types.
- Logging: the model returns which message is logged (`Outcome`) and its level (`Outcome.Severity`). Message text, timestamps and the log sink are not modelled.
- The `isinstance` checks (inventory_system.py:24, 27, 52, 83): Dafny's static types make them unnecessary.
- `InventorySystem.Inventory.CheckLowItems`: the threshold is an `int`. `check_low_items` (inventory_system.py:138-148) does not check its argument's type. A float threshold works there, and for integer quantities it behaves like its floor. A non-numeric threshold raises an uncaught `TypeError` at line 148 once the store is non-empty. Neither case is modelled.
- The `TypeError` "corrupt data" branch of `remove_item` (inventory_system.py:68-70): it can fire only for a non-numeric stored value, and in this model every stored value is an `int`.
