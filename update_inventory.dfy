/** The stand-alone script update_inventory.py: a dictionary from product name
    to count, updated in place by `update_inventory(shipment, inventory)` for a
    shipment whose status is "delivered" (add) or "departed" (remove when
    enough is on hand), and the sample run over two shipments. */
module InventoryLedger {
  import opened Wrappers
  import Text

  /** A shipment record of the script: its id, its status string and its
      `items` dict as (name, quantity) pairs in insertion order. */
  datatype LedgerShipment = LedgerShipment(id: int, status: string, items: seq<(string, int)>)

  /** `name` is one of the keys of the items dict. */
  predicate Names(items: seq<(string, int)>, name: string)
  {
    exists j :: 0 <= j < |items| && items[j].0 == name
  }

  /** `inventory.get(name, 0)`. */
  function Get(inventory: map<string, int>, name: string): int
  {
    if name in inventory then inventory[name] else 0
  }

  /** What the loop leaves behind: the dictionary, and the name whose
      `inventory[item] -= qty` raised `KeyError`, if one did. */
  datatype LedgerRun = LedgerRun(counts: map<string, int>, keyError: Option<string>)

  /** The loop of `update_inventory` over the items, front to back. A
      "departed" line whose quantity is at most 0 passes the `get(item, 0) >= qty`
      check for a name the dictionary lacks, and the subtraction then raises
      `KeyError`, ending the loop with the earlier lines already applied. */
  function Ledger(status: string, items: seq<(string, int)>, inventory: map<string, int>): (r: LedgerRun)
    ensures status != "departed" ==> r.keyError.None?
    decreases |items|
  {
    if items == [] then LedgerRun(inventory, None)
    else
      var (name, qty) := items[0];
      if status == "delivered" then
        Ledger(status, items[1..], inventory[name := Get(inventory, name) + qty])
      else if status == "departed" then
        if Get(inventory, name) >= qty then
          if name !in inventory then LedgerRun(inventory, Some(name))
          else Ledger(status, items[1..], inventory[name := inventory[name] - qty])
        else
          Ledger(status, items[1..], inventory)
      else
        Ledger(status, items[1..], inventory)
  }

  /** Names the shipment does not list are never touched, whatever the status. */
  lemma {:induction false} UnlistedUntouched(status: string, items: seq<(string, int)>, inventory: map<string, int>, k: string)
    requires !Names(items, k)
    ensures var r := Ledger(status, items, inventory);
      (k in r.counts <==> k in inventory) && (k in inventory ==> r.counts[k] == inventory[k])
    decreases |items|
  {
    if items != [] {
      assert items[0].0 != k;
      assert !Names(items[1..], k);
      var (name, qty) := items[0];
      if status == "delivered" {
        UnlistedUntouched(status, items[1..], inventory[name := Get(inventory, name) + qty], k);
      } else if status == "departed" {
        if Get(inventory, name) >= qty {
          if name in inventory {
            UnlistedUntouched(status, items[1..], inventory[name := inventory[name] - qty], k);
          }
        } else {
          UnlistedUntouched(status, items[1..], inventory, k);
        }
      } else {
        UnlistedUntouched(status, items[1..], inventory, k);
      }
    }
  }

  /** Splitting off the first line: the rest does not list its name. */
  lemma RestOmitsFirst(items: seq<(string, int)>)
    requires items != [] && Text.DistinctKeys(items)
    ensures !Names(items[1..], items[0].0) && Text.DistinctKeys(items[1..])
  {
  }

  /** "delivered" never fails and sets each listed name to its old count (0
      when absent, in which case the key is created) plus the quantity. */
  lemma {:induction false} DeliveredAdds(items: seq<(string, int)>, inventory: map<string, int>, j: nat)
    requires Text.DistinctKeys(items) && j < |items|
    ensures var r := Ledger("delivered", items, inventory);
      && r.keyError.None?
      && items[j].0 in r.counts
      && r.counts[items[j].0] == Get(inventory, items[j].0) + items[j].1
    decreases |items|
  {
    var (name, qty) := items[0];
    var next := inventory[name := Get(inventory, name) + qty];
    RestOmitsFirst(items);
    if j == 0 {
      UnlistedUntouched("delivered", items[1..], next, name);
    } else {
      assert items[1..][j - 1] == items[j];
      assert items[j].0 != name;
      DeliveredAdds(items[1..], next, j - 1);
    }
  }

  /** "departed" decrements a listed name only when its count covers the
      quantity, and otherwise leaves it as it was; it creates no key. */
  lemma {:induction false} DepartedRemoves(items: seq<(string, int)>, inventory: map<string, int>, j: nat)
    requires Text.DistinctKeys(items) && j < |items|
    requires Ledger("departed", items, inventory).keyError.None?
    ensures var r := Ledger("departed", items, inventory);
      var (name, qty) := items[j];
      && (name in r.counts <==> name in inventory)
      && (name in inventory ==> r.counts[name] == if inventory[name] >= qty then inventory[name] - qty else inventory[name])
    decreases |items|
  {
    var (name, qty) := items[0];
    RestOmitsFirst(items);
    if Get(inventory, name) >= qty {
      var next := inventory[name := inventory[name] - qty];
      if j == 0 {
        UnlistedUntouched("departed", items[1..], next, name);
      } else {
        assert items[1..][j - 1] == items[j];
        DepartedRemoves(items[1..], next, j - 1);
      }
    } else {
      if j == 0 {
        UnlistedUntouched("departed", items[1..], inventory, name);
      } else {
        assert items[1..][j - 1] == items[j];
        DepartedRemoves(items[1..], inventory, j - 1);
      }
    }
  }

  /** "departed" never adds a key and never takes a count below zero. */
  lemma {:induction false} DepartedKeepsKeysAndSign(items: seq<(string, int)>, inventory: map<string, int>)
    requires forall k :: k in inventory ==> inventory[k] >= 0
    ensures var r := Ledger("departed", items, inventory);
      r.counts.Keys == inventory.Keys && forall k :: k in r.counts ==> r.counts[k] >= 0
    decreases |items|
  {
    if items != [] {
      var (name, qty) := items[0];
      if Get(inventory, name) >= qty && name in inventory {
        DepartedKeepsKeysAndSign(items[1..], inventory[name := inventory[name] - qty]);
      } else if Get(inventory, name) < qty {
        DepartedKeepsKeysAndSign(items[1..], inventory);
      }
    }
  }

  /** "departed" raises `KeyError` exactly when it meets a name absent from
      the dictionary with a quantity of 0 or less. */
  lemma {:induction false} DepartedKeyError(items: seq<(string, int)>, inventory: map<string, int>)
    ensures Ledger("departed", items, inventory).keyError.Some?
        <==> exists j :: 0 <= j < |items| && items[j].0 !in inventory && items[j].1 <= 0
    decreases |items|
  {
    if items != [] {
      var (name, qty) := items[0];
      var missing := exists j :: 0 <= j < |items| && items[j].0 !in inventory && items[j].1 <= 0;
      if Get(inventory, name) >= qty && name in inventory {
        var next := inventory[name := inventory[name] - qty];
        DepartedKeyError(items[1..], next);
        assert next.Keys == inventory.Keys;
        assert (exists j :: 0 <= j < |items[1..]| && items[1..][j].0 !in next && items[1..][j].1 <= 0) <==> missing by {
          if missing {
            var j :| 0 <= j < |items| && items[j].0 !in inventory && items[j].1 <= 0;
            assert j != 0 && items[1..][j - 1] == items[j];
          }
        }
      } else if Get(inventory, name) < qty {
        DepartedKeyError(items[1..], inventory);
        assert (exists j :: 0 <= j < |items[1..]| && items[1..][j].0 !in inventory && items[1..][j].1 <= 0) <==> missing by {
          if missing {
            var j :| 0 <= j < |items| && items[j].0 !in inventory && items[j].1 <= 0;
            assert j != 0 && items[1..][j - 1] == items[j];
          }
        }
      } else {
        assert items[0].0 !in inventory && items[0].1 <= 0;
      }
    }
  }

  /** Any status other than the exact strings "delivered" and "departed"
      ("Delivered", "arrived", ...) leaves the dictionary as it was. */
  lemma {:induction false} UnknownStatusChangesNothing(status: string, items: seq<(string, int)>, inventory: map<string, int>)
    requires status != "delivered" && status != "departed"
    ensures Ledger(status, items, inventory) == LedgerRun(inventory, None)
    decreases |items|
  {
    if items != [] {
      UnknownStatusChangesNothing(status, items[1..], inventory);
    }
  }

  /** The `inventory` dictionary the script updates in place. */
  class Inventory {
    var counts: map<string, int>

    constructor (counts: map<string, int>)
      ensures this.counts == counts
    {
      this.counts := counts;
    }

    /** `update_inventory(shipment, inventory)`; returns the name that raised
        `KeyError`, if any. The messages it prints are not modelled. */
    method UpdateInventory(shipment: LedgerShipment) returns (keyError: Option<string>)
      modifies this
      ensures var r := Ledger(shipment.status, shipment.items, old(counts));
        counts == r.counts && keyError == r.keyError
    {
      var items := shipment.items;
      var i := 0;
      while i < |items|
        invariant 0 <= i <= |items|
        invariant Ledger(shipment.status, items, old(counts)) == Ledger(shipment.status, items[i..], counts)
      {
        var (name, qty) := items[i];
        assert items[i..][0] == items[i] && items[i..][1..] == items[i + 1..];
        if shipment.status == "delivered" {
          counts := counts[name := Get(counts, name) + qty];
        } else if shipment.status == "departed" {
          if Get(counts, name) >= qty {
            if name !in counts {
              return Some(name);
            }
            counts := counts[name := counts[name] - qty];
          }
        }
        i := i + 1;
      }
      keyError := None;
    }
  }

  const SampleInventory: map<string, int> := map["laptop" := 10, "mouse" := 25, "keyboard" := 15]

  const SampleShipments: seq<LedgerShipment> := [
    LedgerShipment(1, "departed", [("laptop", 2), ("mouse", 5)]),
    LedgerShipment(2, "delivered", [("laptop", 3), ("keyboard", 4)])
  ]

  /** The script's run: both sample shipments applied in order to the
      sample inventory. */
  method SampleRun() returns (final: map<string, int>)
    ensures final == map["laptop" := 11, "mouse" := 20, "keyboard" := 19]
  {
    var inventory := new Inventory(SampleInventory);
    for s := 0 to |SampleShipments|
      invariant s == 0 ==> inventory.counts == SampleInventory
      invariant s == 1 ==> inventory.counts == map["laptop" := 8, "mouse" := 20, "keyboard" := 15]
      invariant s == 2 ==> inventory.counts == map["laptop" := 11, "mouse" := 20, "keyboard" := 19]
    {
      var _ := inventory.UpdateInventory(SampleShipments[s]);
    }
    final := inventory.counts;
  }

  /** A "departed" line of 0 for a missing name raises `KeyError` after the
      earlier line has already been applied. */
  lemma ZeroForMissingNameRaises()
    ensures Ledger("departed", [("mouse", 5), ("cable", 0)], SampleInventory)
         == LedgerRun(map["laptop" := 10, "mouse" := 20, "keyboard" := 15], Some("cable"))
  {
  }
}
