/** The inventory endpoint of the backend (backend/api/views/inventory_views.py):
    the list filters of `get_queryset`, the `low_stock` action and the
    `categories` action, all read-only views of the inventory table. */
module InventoryViews {
  import opened Wrappers
  import Text
  import opened QueryParams

  /** An `InventoryItem` row. Quantity and minimum stock carry
      `MinValueValidator(0)`, so they are natural numbers here. */
  datatype InventoryItem = InventoryItem(
    id: int,
    name: string,
    sku: string,
    description: string,
    quantity: nat,
    location: string,
    category: string,
    minimumStock: nat)

  /** `quantity__lte=F('minimum_stock')`: at or below the minimum counts as low. */
  predicate IsLow(item: InventoryItem)
  {
    item.quantity <= item.minimumStock
  }

  /** The `low_stock` action: every low item, in the table's order. */
  function LowStock(items: seq<InventoryItem>): (r: seq<InventoryItem>)
    ensures forall x :: x in r <==> x in items && x.quantity <= x.minimumStock
  {
    Text.Filter(items, IsLow)
  }

  /** An item exactly at its minimum is reported as low, although the action's
      docstring speaks of items below it. */
  lemma AtMinimumIsLow(items: seq<InventoryItem>, x: InventoryItem)
    requires x in items && x.quantity == x.minimumStock
    ensures x in LowStock(items)
  {
  }

  /** `low_stock` filters only when the parameter is exactly the string 'true'. */
  predicate LowStockRequested(p: Option<string>)
  {
    p == Some("true")
  }

  /** `Q(name__icontains=...) | Q(sku__icontains=...) | Q(description__icontains=...)`. */
  function Mentions(v: string): InventoryItem -> bool
  {
    (x: InventoryItem) => Text.IContains(x.name, v) || Text.IContains(x.sku, v) || Text.IContains(x.description, v)
  }

  /** `filter(category=...)`: exact match. */
  function InCategory(v: string): InventoryItem -> bool
  {
    (x: InventoryItem) => x.category == v
  }

  /** The conjunction the filters of `get_queryset` impose on one item. */
  predicate ItemMatches(x: InventoryItem, search: Option<string>, category: Option<string>, lowStock: Option<string>)
  {
    && (Given(search) ==>
          Text.IContains(x.name, search.value) || Text.IContains(x.sku, search.value)
          || Text.IContains(x.description, search.value))
    && (Given(category) ==> x.category == category.value)
    && (LowStockRequested(lowStock) ==> x.quantity <= x.minimumStock)
  }

  /** `get_queryset`: the `search`, `category` and `low_stock` filters applied
      one after the other to every item in the table's order. */
  function FilterItems(items: seq<InventoryItem>, search: Option<string>, category: Option<string>, lowStock: Option<string>): (r: seq<InventoryItem>)
    ensures forall x :: x in r <==> x in items && ItemMatches(x, search, category, lowStock)
    ensures !Given(search) && !Given(category) && !LowStockRequested(lowStock) ==> r == items
  {
    var bySearch := if Given(search) then Text.Filter(items, Mentions(Param(search))) else items;
    var byCategory := if Given(category) then Text.Filter(bySearch, InCategory(Param(category))) else bySearch;
    if LowStockRequested(lowStock) then Text.Filter(byCategory, IsLow) else byCategory
  }

  /** The chain of filters is one filter by the conjunction of the conditions
      whose parameters are given, in the table's order. */
  lemma ItemFiltersAreConjunctive(items: seq<InventoryItem>, search: Option<string>, category: Option<string>, lowStock: Option<string>)
    ensures FilterItems(items, search, category, lowStock)
         == Text.Filter(items, (x: InventoryItem) => ItemMatches(x, search, category, lowStock))
  {
    Text.FilterChain3(items, Given(search), Mentions(Param(search)), Given(category), InCategory(Param(category)),
      LowStockRequested(lowStock), IsLow, (x: InventoryItem) => ItemMatches(x, search, category, lowStock));
  }

  /** A `low_stock` value other than 'true' ('True', '1', '') filters nothing. */
  lemma LowStockParameterMustBeTrue(items: seq<InventoryItem>, lowStock: Option<string>)
    requires !LowStockRequested(lowStock)
    ensures FilterItems(items, None, None, lowStock) == items
  {
  }

  /** The list filter with `low_stock=true` alone is the `low_stock` action. */
  lemma LowStockParameterIsLowStockAction(items: seq<InventoryItem>)
    ensures FilterItems(items, None, None, Some("true")) == LowStock(items)
  {
  }

  /** The `categories` action as its docstring intends it: every category of
      the table, each once. */
  function Categories(items: seq<InventoryItem>): (r: seq<string>)
    ensures forall i, j :: 0 <= i < j < |r| ==> r[i] != r[j]
    ensures forall c :: c in r <==> exists i :: 0 <= i < |items| && items[i].category == c
    decreases |items|
  {
    if items == [] then []
    else
      var rest := Categories(items[1..]);
      assert forall i :: 0 <= i < |items[1..]| ==> items[1..][i] == items[i + 1];
      if items[0].category in rest then rest else [items[0].category] + rest
  }

  /** The (category, name) pair of each item, each pair once, in the table's
      order. */
  function CategoryNamePairs(items: seq<InventoryItem>): (r: seq<(string, string)>)
    ensures forall i, j :: 0 <= i < j < |r| ==> r[i] != r[j]
    ensures forall p :: p in r <==> exists i :: 0 <= i < |items| && (items[i].category, items[i].name) == p
    decreases |items|
  {
    if items == [] then []
    else
      var rest := CategoryNamePairs(items[1..]);
      assert forall i :: 0 <= i < |items[1..]| ==> items[1..][i] == items[i + 1];
      var p := (items[0].category, items[0].name);
      if p in rest then rest else [p] + rest
  }

  /** The `categories` action as written: `values_list('category', flat=True)
      .distinct()` on a model whose default ordering is by name. The ordering
      column joins the `SELECT DISTINCT`, so rows are distinct as (category,
      name) pairs, and a category is listed once per distinct item name. */
  function CategoriesAsWritten(items: seq<InventoryItem>): (r: seq<string>)
    ensures |r| == |CategoryNamePairs(items)|
    ensures forall c :: c in r <==> exists i :: 0 <= i < |items| && items[i].category == c
  {
    var pairs := CategoryNamePairs(items);
    var r := seq(|pairs|, i requires 0 <= i < |pairs| => pairs[i].0);
    assert forall c :: (exists i :: 0 <= i < |items| && items[i].category == c) ==> c in r by {
      forall c | exists i :: 0 <= i < |items| && items[i].category == c ensures c in r {
        var i :| 0 <= i < |items| && items[i].category == c;
        assert (items[i].category, items[i].name) in pairs;
        var k :| 0 <= k < |pairs| && pairs[k] == (items[i].category, items[i].name);
        assert r[k] == c;
      }
    }
    assert forall c :: c in r ==> exists i :: 0 <= i < |items| && items[i].category == c by {
      forall c | c in r ensures exists i :: 0 <= i < |items| && items[i].category == c {
        var k :| 0 <= k < |r| && r[k] == c;
        assert pairs[k] in pairs;
      }
    }
    r
  }

  /** The distinct names of the items in category `c`. */
  ghost function NamesIn(items: seq<InventoryItem>, c: string): set<string>
  {
    set i | 0 <= i < |items| && items[i].category == c :: items[i].name
  }

  /** The names in a category are those of the first item, if it is in
      that category, and those of the rest. */
  lemma {:induction false} NamesInCons(items: seq<InventoryItem>, c: string)
    requires items != []
    ensures NamesIn(items, c) == NamesIn(items[1..], c) + (if items[0].category == c then {items[0].name} else {})
  {
    var tail := items[1..];
    forall n | n in NamesIn(items, c) ensures n in NamesIn(tail, c) + (if items[0].category == c then {items[0].name} else {}) {
      var i :| 0 <= i < |items| && items[i].category == c && items[i].name == n;
      if i > 0 {
        assert tail[i - 1] == items[i];
      }
    }
    forall n | n in NamesIn(tail, c) ensures n in NamesIn(items, c) {
      var i :| 0 <= i < |tail| && tail[i].category == c && tail[i].name == n;
      assert items[i + 1] == tail[i];
    }
  }

  /** The first item's pair recurs in the rest exactly when its name recurs
      in its category. */
  lemma {:induction false} PairRecurs(items: seq<InventoryItem>)
    requires items != []
    ensures (items[0].category, items[0].name) in CategoryNamePairs(items[1..])
        <==> items[0].name in NamesIn(items[1..], items[0].category)
  {
    var tail := items[1..];
    var p := (items[0].category, items[0].name);
    if p in CategoryNamePairs(tail) {
      var i :| 0 <= i < |tail| && (tail[i].category, tail[i].name) == p;
    }
    if items[0].name in NamesIn(tail, items[0].category) {
      var i :| 0 <= i < |tail| && tail[i].category == items[0].category && tail[i].name == items[0].name;
      assert (tail[i].category, tail[i].name) in CategoryNamePairs(tail);
    }
  }

  /** Peeling off the first item: its category is listed again unless its
      (category, name) pair recurs later. */
  lemma {:induction false} AsWrittenCons(items: seq<InventoryItem>)
    requires items != []
    ensures var p := (items[0].category, items[0].name);
      CategoriesAsWritten(items)
        == if p in CategoryNamePairs(items[1..]) then CategoriesAsWritten(items[1..])
           else [items[0].category] + CategoriesAsWritten(items[1..])
  {
    var p := (items[0].category, items[0].name);
    var rest := CategoryNamePairs(items[1..]);
    if p !in rest {
      assert CategoryNamePairs(items) == [p] + rest;
    }
  }

  /** The action as written lists each category once per distinct name of an
      item in it. */
  lemma {:induction false} CategoryCountIsDistinctNames(items: seq<InventoryItem>, c: string)
    ensures multiset(CategoriesAsWritten(items))[c] == |NamesIn(items, c)|
    decreases |items|
  {
    if items != [] {
      var tail := items[1..];
      CategoryCountIsDistinctNames(tail, c);
      NamesInCons(items, c);
      PairRecurs(items);
      AsWrittenCons(items);
    }
  }

  /** Two items of one category with different names: the action as written
      lists the category twice, the intended one once. */
  lemma CategoryListedTwice()
    ensures CategoriesAsWritten([Item1, Item3]) == ["Electronics", "Electronics"]
    ensures Categories([Item1, Item3]) == ["Electronics"]
  {
    assert [Item1, Item3][1..] == [Item3] && [Item3][1..] == [];
    assert CategoryNamePairs([Item3]) == [("Electronics", Item3.name)];
    assert CategoryNamePairs([Item1, Item3]) == [("Electronics", Item1.name), ("Electronics", Item3.name)];
    assert Categories([Item3]) == ["Electronics"];
  }

  // ---------------------------------------------------------------------------
  // The backend tests' fixtures
  // ---------------------------------------------------------------------------

  const Item1 := InventoryItem(1, "Test Item 1", "SKU001", "Test Description 1", 10, "A1", "Electronics", 5)
  const Item2 := InventoryItem(2, "Test Item 2", "SKU002", "Test Description 2", 3, "B2", "Furniture", 5)
  const Item3 := InventoryItem(3, "Test Item 3", "SKU003", "Test Description 3", 7, "A2", "Electronics", 2)

  /** Only the second fixture (3 against a minimum of 5) is low on stock. */
  lemma LowStockFixtures()
    ensures LowStock([Item1, Item2]) == [Item2]
  {
  }

  /** Filtering by 'Electronics' keeps the first fixture only. */
  lemma CategoryFixtures()
    ensures FilterItems([Item1, Item2], None, Some("Electronics"), None) == [Item1]
  {
    var p := InCategory("Electronics");
    assert [Item1, Item2][1..] == [Item2] && [Item2][1..] == [];
    assert Text.Filter([Item2], p) == [];
    assert Text.Filter([Item1, Item2], p) == [Item1] + Text.Filter([Item2], p);
  }

  /** Searching 'Test' matches both fixtures by name. */
  lemma SearchFixtures()
    ensures FilterItems([Item1, Item2], Some("Test"), None, None) == [Item1, Item2]
  {
    assert Text.Lower("Test") == "test";
    assert Text.Lower(Item1.name)[0..4] == "test";
    assert Text.OccursAt(Text.Lower(Item1.name), Text.Lower("Test"), 0);
    assert Text.Lower(Item2.name)[0..4] == "test";
    assert Text.OccursAt(Text.Lower(Item2.name), Text.Lower("Test"), 0);
    var p := Mentions("Test");
    assert p(Item1) && p(Item2);
    assert [Item1, Item2][1..] == [Item2] && [Item2][1..] == [];
    assert Text.Filter([Item2], p) == [Item2];
    assert Text.Filter([Item1, Item2], p) == [Item1] + Text.Filter([Item2], p);
  }
}
