/**
 * Value-level model of the in-memory inventory store `stock_data` of
 * inventory_system.py: a mapping from item name to quantity together with the
 * mapping's iteration order (a Python dict iterates in insertion order).
 *
 * The operations `add_item` and `remove_item` are modelled as transitions
 * `Add` and `Remove` from one store to the next; each also reports which of
 * the source's log messages it would emit (`Outcome`), since the source
 * signals every failure only through the log.
 */
module Stock {

  /** The log level of a diagnostic. */
  datatype Level = Info | Warning | Error

  /** What an add or remove call reports; one constructor per log message. */
  datatype Outcome =
    | Added(total: int)        // "Added .. New total"
    | RemovedEntirely          // "Removed item .. from stock"
    | Decremented(total: int)  // "Removed .. New total"
    | InvalidName              // empty item name
    | NonPositiveAdd           // add with a quantity <= 0
    | InvalidRemoveQuantity    // remove with a quantity <= 0
    | NotInStock               // remove of an absent item
  {
    function Severity(): Level {
      match this
      case Added(_) | RemovedEntirely | Decremented(_) => Info
      case NonPositiveAdd | NotInStock => Warning
      case InvalidName | InvalidRemoveQuantity => Error
    }

    /** True when the call changed the store. */
    predicate Changed() {
      Added? || RemovedEntirely? || Decremented?
    }
  }

  /** The store: quantities by name, and the names in iteration order. */
  datatype Store = Store(stock: map<string, int>, order: seq<string>)

  /** The new store after a call, and what the call reported. */
  datatype Step = Step(after: Store, outcome: Outcome)

  /** The store at process start. */
  const Empty: Store := Store(map[], [])

  /** The threshold `check_low_items` uses when none is given. */
  const DefaultThreshold: int := 5

  predicate NoDuplicates(xs: seq<string>) {
    forall i, j :: 0 <= i < j < |xs| ==> xs[i] != xs[j]
  }

  /** The order lists every key of the mapping exactly once. */
  predicate WellFormed(s: Store) {
    && NoDuplicates(s.order)
    && (forall k :: k in s.order ==> k in s.stock)
    && (forall k :: k in s.stock ==> k in s.order)
  }

  /** No entry is stored with a quantity of zero or below. */
  predicate AllPositive(m: map<string, int>) {
    forall k :: k in m ==> m[k] > 0
  }

  /** `a` is obtained from `b` by deleting elements, keeping the rest in order. */
  ghost predicate SubsequenceOf(a: seq<string>, b: seq<string>)
    decreases |b|
  {
    || a == []
    || (&& b != []
        && ((a[0] == b[0] && SubsequenceOf(a[1..], b[1..])) || SubsequenceOf(a, b[1..])))
  }

  /** The elements of `xs` that satisfy `keep`, in the order of `xs`. */
  function Filter(xs: seq<string>, keep: string -> bool): (r: seq<string>)
  {
    if xs == [] then []
    else (if keep(xs[0]) then [xs[0]] else []) + Filter(xs[1..], keep)
  }

  /** `dict.get(item, 0)`. */
  function Quantity(s: Store, item: string): int {
    if item in s.stock then s.stock[item] else 0
  }

  /** `add_item(item, qty)`. */
  function Add(s: Store, item: string, qty: int): Step {
    if item == "" then Step(s, InvalidName)
    else if qty <= 0 then Step(s, NonPositiveAdd)
    else
      var total := Quantity(s, item) + qty;
      // assigning to an existing key keeps its place; a new key goes last
      var order := if item in s.stock then s.order else s.order + [item];
      Step(Store(s.stock[item := total], order), Added(total))
  }

  /** `del stock_data[item]`: the key leaves the mapping and the order. */
  function Delete(s: Store, item: string): Store {
    Store(s.stock - {item}, Filter(s.order, k => k != item))
  }

  /** `remove_item(item, qty)`. */
  function Remove(s: Store, item: string, qty: int): Step {
    if item == "" then Step(s, InvalidName)
    else if qty <= 0 then Step(s, InvalidRemoveQuantity)
    else if item !in s.stock then Step(s, NotInStock)
    else if s.stock[item] <= qty then Step(Delete(s, item), RemovedEntirely)
    else
      var total := s.stock[item] - qty;
      Step(Store(s.stock[item := total], s.order), Decremented(total))
  }

  /** `check_low_items(threshold)`: the names whose quantity is at most `threshold`. */
  function LowItems(s: Store, threshold: int): seq<string> {
    Filter(s.order, k => k in s.stock && s.stock[k] <= threshold)
  }

  // ---------------------------------------------------------------------
  // Filter: what it keeps, that it keeps the order, and that those two
  // facts determine it.
  // ---------------------------------------------------------------------

  lemma {:induction false} FilterMembers(xs: seq<string>, keep: string -> bool)
    ensures forall x :: x in Filter(xs, keep) <==> x in xs && keep(x)
  {
    if xs != [] {
      FilterMembers(xs[1..], keep);
      assert xs == [xs[0]] + xs[1..];
    }
  }

  lemma {:induction false} FilterNoDuplicates(xs: seq<string>, keep: string -> bool)
    requires NoDuplicates(xs)
    ensures NoDuplicates(Filter(xs, keep))
  {
    if xs != [] {
      var rest := Filter(xs[1..], keep);
      FilterNoDuplicates(xs[1..], keep);
      FilterMembers(xs[1..], keep);
      assert xs[0] !in xs[1..] by {
        forall j | 0 <= j < |xs[1..]| ensures xs[1..][j] != xs[0] {
          assert xs[1..][j] == xs[j + 1];
        }
      }
      if keep(xs[0]) {
        var r := [xs[0]] + rest;
        forall i, j | 0 <= i < j < |r| ensures r[i] != r[j] {
          if i == 0 {
            assert r[j] == rest[j - 1];
            assert rest[j - 1] in rest;
          } else {
            assert r[i] == rest[i - 1] && r[j] == rest[j - 1];
          }
        }
      } else {
        assert Filter(xs, keep) == rest;
      }
    }
  }

  lemma {:induction false} FilterSubsequence(xs: seq<string>, keep: string -> bool)
    ensures SubsequenceOf(Filter(xs, keep), xs)
  {
    if xs != [] {
      var rest := Filter(xs[1..], keep);
      FilterSubsequence(xs[1..], keep);
      if keep(xs[0]) {
        var r := [xs[0]] + rest;
        assert r[0] == xs[0] && r[1..] == rest;
      } else {
        assert Filter(xs, keep) == rest;
      }
    }
  }

  lemma {:induction false} SubsequenceMembers(a: seq<string>, b: seq<string>)
    requires SubsequenceOf(a, b)
    ensures forall x :: x in a ==> x in b
    decreases |b|
  {
    if a != [] {
      if a[0] == b[0] && SubsequenceOf(a[1..], b[1..]) {
        SubsequenceMembers(a[1..], b[1..]);
        assert a == [a[0]] + a[1..];
        assert b == [b[0]] + b[1..];
      } else {
        SubsequenceMembers(a, b[1..]);
        assert b == [b[0]] + b[1..];
      }
    }
  }

  /** Over a list without repetitions, a repetition-free subsequence with the
      members of the filter is the filter itself. */
  lemma {:induction false} FilterUnique(xs: seq<string>, keep: string -> bool, r: seq<string>)
    requires NoDuplicates(xs) && NoDuplicates(r) && SubsequenceOf(r, xs)
    requires forall x :: x in r <==> x in xs && keep(x)
    ensures r == Filter(xs, keep)
    decreases |xs|
  {
    if xs != [] {
      var tail := xs[1..];
      assert xs == [xs[0]] + tail;
      assert xs[0] !in tail by {
        forall j | 0 <= j < |tail| ensures tail[j] != xs[0] {
          assert tail[j] == xs[j + 1];
        }
      }
      assert NoDuplicates(tail) by {
        forall i, j | 0 <= i < j < |tail| ensures tail[i] != tail[j] {
          assert tail[i] == xs[i + 1] && tail[j] == xs[j + 1];
        }
      }
      if keep(xs[0]) {
        assert xs[0] in r;
        if !(r[0] == xs[0] && SubsequenceOf(r[1..], tail)) {
          SubsequenceMembers(r, tail);
          assert false;
        }
        var rt := r[1..];
        assert r == [r[0]] + rt;
        assert r[0] !in rt by {
          forall j | 0 <= j < |rt| ensures rt[j] != r[0] {
            assert rt[j] == r[j + 1];
          }
        }
        assert NoDuplicates(rt) by {
          forall i, j | 0 <= i < j < |rt| ensures rt[i] != rt[j] {
            assert rt[i] == r[i + 1] && rt[j] == r[j + 1];
          }
        }
        forall x ensures x in rt <==> x in tail && keep(x) {
          assert x in r <==> x == r[0] || x in rt;
        }
        FilterUnique(tail, keep, rt);
      } else {
        assert xs[0] !in r;
        assert r != [] ==> r[0] in r;
        assert SubsequenceOf(r, tail);
        forall x ensures x in r <==> x in tail && keep(x) {
          assert x in xs <==> x == xs[0] || x in tail;
        }
        FilterUnique(tail, keep, r);
      }
    }
  }

  // ---------------------------------------------------------------------
  // get_qty
  // ---------------------------------------------------------------------

  /** With no zero or negative entries, a quantity of 0 means "absent". */
  lemma QuantityZeroIffAbsent(s: Store, item: string)
    requires AllPositive(s.stock)
    ensures Quantity(s, item) >= 0
    ensures Quantity(s, item) == 0 <==> item !in s.stock
  {
  }

  /** Nothing was ever added to the empty store. */
  lemma EmptyQuantity(item: string)
    ensures Quantity(Empty, item) == 0
    ensures WellFormed(Empty) && AllPositive(Empty.stock)
  {
  }

  // ---------------------------------------------------------------------
  // add_item
  // ---------------------------------------------------------------------

  /** An empty name or a quantity <= 0 leaves mapping and order untouched. */
  lemma AddRejected(s: Store, item: string, qty: int)
    requires item == "" || qty <= 0
    ensures Add(s, item, qty).after == s
    ensures !Add(s, item, qty).outcome.Changed()
    ensures Add(s, item, qty).outcome == (if item == "" then InvalidName else NonPositiveAdd)
    ensures Add(s, item, qty).outcome.Severity() == (if item == "" then Error else Warning)
  {
  }

  /** A valid add raises the item's quantity by `qty` and changes no other entry;
      an existing key keeps its place in the order, a new key is appended. */
  lemma AddIncrements(s: Store, item: string, qty: int)
    requires item != "" && qty > 0
    ensures var t := Add(s, item, qty);
      && Quantity(t.after, item) == Quantity(s, item) + qty
      && t.outcome == Added(Quantity(t.after, item))
      && t.after.stock.Keys == s.stock.Keys + {item}
      && (forall k :: k != item ==> Quantity(t.after, k) == Quantity(s, k))
      && t.after.order == (if item in s.stock then s.order else s.order + [item])
  {
  }

  lemma AddPreservesWellFormed(s: Store, item: string, qty: int)
    requires WellFormed(s)
    ensures WellFormed(Add(s, item, qty).after)
  {
  }

  /** If every stored quantity is positive before an add, it is afterwards. */
  lemma AddPreservesPositive(s: Store, item: string, qty: int)
    requires AllPositive(s.stock)
    ensures AllPositive(Add(s, item, qty).after.stock)
  {
  }

  // ---------------------------------------------------------------------
  // remove_item
  // ---------------------------------------------------------------------

  /** An empty name, a quantity <= 0 or an absent item leaves the store untouched. */
  lemma RemoveRejected(s: Store, item: string, qty: int)
    requires item == "" || qty <= 0 || item !in s.stock
    ensures Remove(s, item, qty).after == s
    ensures !Remove(s, item, qty).outcome.Changed()
    ensures Remove(s, item, qty).outcome ==
      (if item == "" then InvalidName else if qty <= 0 then InvalidRemoveQuantity else NotInStock)
  {
  }

  /** Removing at least the stored quantity deletes the key from the mapping and
      from the order, so no zero entry is ever stored; nothing else changes. */
  lemma RemoveDeletes(s: Store, item: string, qty: int)
    requires item != "" && qty > 0 && item in s.stock && s.stock[item] <= qty
    ensures var t := Remove(s, item, qty);
      && t.outcome == RemovedEntirely
      && item !in t.after.stock
      && Quantity(t.after, item) == 0
      && t.after.stock.Keys == s.stock.Keys - {item}
      && (forall k :: k != item ==> Quantity(t.after, k) == Quantity(s, k))
      && item !in t.after.order
      && (forall k :: k != item ==> (k in t.after.order <==> k in s.order))
  {
    FilterMembers(s.order, k => k != item);
  }

  /** Python's `del` takes the key out of the iteration order and leaves the
      other keys where they were. */
  lemma {:induction false} DeleteKeepsOrder(s: Store, item: string, i: nat)
    requires WellFormed(s) && i < |s.order| && s.order[i] == item
    ensures Delete(s, item).order == s.order[..i] + s.order[i + 1..]
  {
    var xs := s.order;
    var keep := k => k != item;
    var r := xs[..i] + xs[i + 1..];
    assert xs == xs[..i] + [item] + xs[i + 1..];
    assert NoDuplicates(r) && (forall x :: x in r <==> x in xs && keep(x)) by {
      forall a, b | 0 <= a < b < |r| ensures r[a] != r[b] {
        var a' := if a < i then a else a + 1;
        var b' := if b < i then b else b + 1;
        assert r[a] == xs[a'] && r[b] == xs[b'];
      }
      forall x ensures x in r <==> x in xs && keep(x) {
        if x in r {
          var j :| 0 <= j < |r| && r[j] == x;
          var j' := if j < i then j else j + 1;
          assert xs[j'] == x && j' != i;
        }
        if x in xs && x != item {
          var j :| 0 <= j < |xs| && xs[j] == x;
          assert j != i;
          if j < i { assert r[j] == x; } else { assert r[j - 1] == x; }
        }
      }
    }
    assert SubsequenceOf(r, xs) by {
      SkipOneIsSubsequence(xs, i);
    }
    FilterUnique(xs, keep, r);
  }

  lemma {:induction false} SkipOneIsSubsequence(xs: seq<string>, i: nat)
    requires i < |xs|
    ensures SubsequenceOf(xs[..i] + xs[i + 1..], xs)
  {
    if i == 0 {
      assert xs[..0] + xs[1..] == xs[1..];
      SelfSubsequence(xs[1..]);
    } else {
      var r := xs[..i] + xs[i + 1..];
      SkipOneIsSubsequence(xs[1..], i - 1);
      assert xs[1..][..i - 1] + xs[1..][i..] == r[1..];
      assert r[0] == xs[0];
    }
  }

  lemma {:induction false} SelfSubsequence(xs: seq<string>)
    ensures SubsequenceOf(xs, xs)
  {
    if xs != [] {
      SelfSubsequence(xs[1..]);
    }
  }

  /** Removing less than the stored quantity keeps the key and its place and
      lowers its quantity by exactly `qty`. */
  lemma RemoveDecrements(s: Store, item: string, qty: int)
    requires item != "" && qty > 0 && item in s.stock && s.stock[item] > qty
    ensures var t := Remove(s, item, qty);
      && t.outcome == Decremented(Quantity(t.after, item))
      && Quantity(t.after, item) == Quantity(s, item) - qty
      && t.after.stock.Keys == s.stock.Keys
      && (forall k :: k != item ==> Quantity(t.after, k) == Quantity(s, k))
      && t.after.order == s.order
  {
  }

  lemma {:induction false} RemovePreservesWellFormed(s: Store, item: string, qty: int)
    requires WellFormed(s)
    ensures WellFormed(Remove(s, item, qty).after)
  {
    if item != "" && qty > 0 && item in s.stock && s.stock[item] <= qty {
      FilterMembers(s.order, k => k != item);
      FilterNoDuplicates(s.order, k => k != item);
    }
  }

  /** If every stored quantity is positive before a remove, it is afterwards. */
  lemma RemovePreservesPositive(s: Store, item: string, qty: int)
    requires AllPositive(s.stock)
    ensures AllPositive(Remove(s, item, qty).after.stock)
  {
  }

  // ---------------------------------------------------------------------
  // check_low_items
  // ---------------------------------------------------------------------

  /** Exactly the stored names with quantity <= threshold (inclusive), each once,
      in the mapping's iteration order. */
  lemma LowItemsSpec(s: Store, threshold: int)
    requires WellFormed(s)
    ensures forall x :: x in LowItems(s, threshold) <==> x in s.stock && s.stock[x] <= threshold
    ensures NoDuplicates(LowItems(s, threshold))
    ensures SubsequenceOf(LowItems(s, threshold), s.order)
  {
    var keep := k => k in s.stock && s.stock[k] <= threshold;
    FilterMembers(s.order, keep);
    FilterNoDuplicates(s.order, keep);
    FilterSubsequence(s.order, keep);
  }

  /** The properties of `LowItemsSpec` single out `LowItems`. */
  lemma LowItemsUnique(s: Store, threshold: int, r: seq<string>)
    requires WellFormed(s) && NoDuplicates(r) && SubsequenceOf(r, s.order)
    requires forall x :: x in r <==> x in s.stock && s.stock[x] <= threshold
    ensures r == LowItems(s, threshold)
  {
    FilterUnique(s.order, k => k in s.stock && s.stock[k] <= threshold, r);
  }

  /** After a remove that takes at least the whole quantity the item is no
      longer reported low, whatever the threshold. */
  lemma RemovedNotLow(s: Store, item: string, qty: int, threshold: int)
    requires WellFormed(s)
    requires item != "" && qty > 0 && item in s.stock && s.stock[item] <= qty
    ensures Quantity(Remove(s, item, qty).after, item) == 0
    ensures item !in LowItems(Remove(s, item, qty).after, threshold)
  {
    RemovePreservesWellFormed(s, item, qty);
    LowItemsSpec(Remove(s, item, qty).after, threshold);
  }

  /** The mapping {apple: 7, banana: 3, cherry: 5} with the default threshold. */
  lemma LowItemsExample()
    ensures LowItems(Store(map["apple" := 7, "banana" := 3, "cherry" := 5],
                           ["apple", "banana", "cherry"]), DefaultThreshold)
            == ["banana", "cherry"]
  {
  }

  // ---------------------------------------------------------------------
  // Any sequence of calls
  // ---------------------------------------------------------------------

  datatype Call = AddCall(item: string, qty: int) | RemoveCall(item: string, qty: int)

  function Apply(s: Store, c: Call): Store {
    match c
    case AddCall(item, qty) => Add(s, item, qty).after
    case RemoveCall(item, qty) => Remove(s, item, qty).after
  }

  function Run(s: Store, calls: seq<Call>): Store
    decreases |calls|
  {
    if calls == [] then s else Run(Apply(s, calls[0]), calls[1..])
  }

  lemma {:induction false} RunPreservesInvariant(s: Store, calls: seq<Call>)
    requires WellFormed(s) && AllPositive(s.stock)
    ensures WellFormed(Run(s, calls)) && AllPositive(Run(s, calls).stock)
    decreases |calls|
  {
    if calls != [] {
      match calls[0] {
        case AddCall(item, qty) =>
          AddPreservesWellFormed(s, item, qty);
          AddPreservesPositive(s, item, qty);
        case RemoveCall(item, qty) =>
          RemovePreservesWellFormed(s, item, qty);
          RemovePreservesPositive(s, item, qty);
      }
      RunPreservesInvariant(Apply(s, calls[0]), calls[1..]);
    }
  }

  /** Starting from empty, no sequence of add/remove calls ever stores a
      quantity of zero or below, and the order always lists each key once. */
  lemma ReachableStoresPositive(calls: seq<Call>)
    ensures WellFormed(Run(Empty, calls))
    ensures forall k :: k in Run(Empty, calls).stock ==> Run(Empty, calls).stock[k] > 0
  {
    RunPreservesInvariant(Empty, calls);
  }

  /** An item that no call in the sequence adds keeps reading 0: add calls
      for it that are rejected (empty name, quantity <= 0) store nothing,
      removes of an absent item change nothing, and no other call creates
      its key. */
  lemma {:induction false} NeverAddedReadsZero(s: Store, calls: seq<Call>, item: string)
    requires item !in s.stock
    requires forall c :: c in calls ==> !(c.AddCall? && c.item == item && c.item != "" && c.qty > 0)
    ensures Quantity(Run(s, calls), item) == 0
    decreases |calls|
  {
    if calls != [] {
      assert calls[0] in calls;
      forall c | c in calls[1..] ensures !(c.AddCall? && c.item == item && c.item != "" && c.qty > 0) {
        assert c in calls;
      }
      NeverAddedReadsZero(Apply(s, calls[0]), calls[1..], item);
    }
  }
}
