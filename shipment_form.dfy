/** The item-list handlers and the inventory search of the client's shipment
    form (frontend/src/components/shipments/ShipmentForm.jsx). Each handler
    builds a new shipment draft from the current one, which the form then
    passes to `setShipment`; only `shipment_items` ever changes. */
module ShipmentForm {
  import opened Wrappers
  import Text

  /** A JavaScript number as `parseInt` produces it: an integer or `NaN`. */
  datatype JsNumber = Num(n: int) | NaN

  /** One entry of `shipment_items`: inventory item id, quantity and unit
      price. */
  datatype DraftLine = DraftLine(itemId: int, quantity: JsNumber, unitPrice: real)

  /** The draft shipment: its other fields, and `shipment_items`, which is
      `undefined` on a draft that never had items. */
  datatype Draft = Draft(fields: map<string, string>, items: Option<seq<DraftLine>>)

  /** Calling `filter` or `map` on a missing `shipment_items` throws `TypeError`. */
  datatype HandlerError = MissingItemList

  /** `shipment.shipment_items || []`. */
  function Lines(d: Draft): seq<DraftLine>
  {
    if d.items.Some? then d.items.value else []
  }

  /** `shipment_items.some(item => item.item_id === itemId)`. */
  function Has(lines: seq<DraftLine>, id: int): (b: bool)
    ensures b <==> exists i :: 0 <= i < |lines| && lines[i].itemId == id
    decreases |lines|
  {
    if lines == [] then false
    else if lines[0].itemId == id then true
    else
      assert forall i :: 0 <= i < |lines[1..]| ==> lines[1..][i] == lines[i + 1];
      Has(lines[1..], id)
  }

  /** No inventory item appears twice in a draft, as `unique_together` on
      shipment and item demands of the stored rows. */
  predicate DistinctIds(lines: seq<DraftLine>)
  {
    forall i, j :: 0 <= i < j < |lines| ==> lines[i].itemId != lines[j].itemId
  }

  /** The entry `handleAddItem` appends: quantity 1, price 0. */
  function NewLine(id: int): DraftLine
  {
    DraftLine(id, Num(1), 0.0)
  }

  /** `handleAddItem`: nothing changes when the item is already listed;
      otherwise one new entry goes at the end, a missing list counting as
      empty. */
  function AddItem(d: Draft, id: int): (r: Draft)
    ensures r.fields == d.fields
    ensures Has(Lines(d), id) ==> r == d
    ensures !Has(Lines(d), id) ==>
      && r.items.Some?
      && |Lines(r)| == |Lines(d)| + 1
      && Lines(r)[..|Lines(d)|] == Lines(d)
      && Lines(r)[|Lines(d)|] == NewLine(id)
    ensures DistinctIds(Lines(d)) ==> DistinctIds(Lines(r))
  {
    if Has(Lines(d), id) then d
    else Draft(d.fields, Some(Lines(d) + [NewLine(id)]))
  }

  /** The predicate of `handleRemoveItem`'s filter. */
  function OtherItem(id: int): DraftLine -> bool
  {
    (l: DraftLine) => l.itemId != id
  }

  /** `handleRemoveItem`: keeps every entry with another id, in order. */
  function RemoveItem(d: Draft, id: int): (r: Result<Draft, HandlerError>)
    ensures r.Err? <==> d.items.None?
    ensures r.Ok? ==> r.value.fields == d.fields && r.value.items.Some?
    ensures r.Ok? ==> forall i :: 0 <= i < |Lines(r.value)| ==> Lines(r.value)[i].itemId != id && Lines(r.value)[i] in Lines(d)
    ensures r.Ok? ==> forall i :: 0 <= i < |Lines(d)| && Lines(d)[i].itemId != id ==> Lines(d)[i] in Lines(r.value)
    ensures r.Ok? ==>
      var kept := Text.Selected(Lines(d), OtherItem(id));
      |Lines(r.value)| == |kept| && forall k :: 0 <= k < |kept| ==> Lines(r.value)[k] == Lines(d)[kept[k]]
  {
    if d.items.None? then Err(MissingItemList)
    else
      Text.FilterSelects(Lines(d), OtherItem(id));
      Ok(Draft(d.fields, Some(Text.Filter(Lines(d), OtherItem(id)))))
  }

  /** Removing an id the list does not hold leaves the list as it was. */
  lemma RemoveAbsentIsIdentity(d: Draft, id: int)
    requires d.items.Some? && !Has(Lines(d), id)
    ensures RemoveItem(d, id) == Ok(d)
  {
    Text.FilterAll(Lines(d), OtherItem(id));
  }

  /** Removing keeps the ids of the remaining entries distinct. */
  lemma {:induction false} RemoveKeepsIdsDistinct(lines: seq<DraftLine>, id: int)
    requires DistinctIds(lines)
    ensures DistinctIds(Text.Filter(lines, OtherItem(id)))
    decreases |lines|
  {
    if lines != [] {
      assert DistinctIds(lines[1..]) by {
        assert forall i :: 0 <= i < |lines[1..]| ==> lines[1..][i] == lines[i + 1];
      }
      RemoveKeepsIdsDistinct(lines[1..], id);
      var rest := Text.Filter(lines[1..], OtherItem(id));
      assert forall i :: 0 <= i < |rest| ==> rest[i] in lines[1..];
      assert forall i :: 0 <= i < |rest| ==> rest[i].itemId != lines[0].itemId;
    }
  }

  /** Removing a newly added item undoes the addition. */
  lemma RemoveUndoesAdd(d: Draft, id: int)
    requires d.items.Some? && !Has(Lines(d), id)
    ensures RemoveItem(AddItem(d, id), id) == Ok(d)
  {
    RemoveAfterAppend(Lines(d), id);
  }

  lemma RemoveAfterAppend(lines: seq<DraftLine>, id: int)
    requires !Has(lines, id)
    ensures Text.Filter(lines + [NewLine(id)], OtherItem(id)) == lines
  {
    var p := OtherItem(id);
    Text.FilterConcat(lines, [NewLine(id)], p);
    Text.FilterAll(lines, p);
    assert [NewLine(id)][1..] == [];
    assert Text.Filter([NewLine(id)], p) == [];
  }

  /** Adding an item that is already listed is the same as adding nothing, so
      a second add of the same id is a no-op. */
  lemma AddItemIdempotent(d: Draft, id: int)
    ensures AddItem(AddItem(d, id), id) == AddItem(d, id)
  {
    if !Has(Lines(d), id) {
      var r := AddItem(d, id);
      assert Lines(r)[|Lines(d)|].itemId == id;
    }
  }

  /** `handleItemQuantityChange`: every entry with the id takes the parsed
      quantity; every other entry, and the order, are kept. */
  function ChangeQuantity(d: Draft, id: int, quantity: string): (r: Result<Draft, HandlerError>)
    ensures r.Err? <==> d.items.None?
    ensures r.Ok? ==>
      && r.value.fields == d.fields
      && |Lines(r.value)| == |Lines(d)|
      && forall i :: 0 <= i < |Lines(d)| ==>
           Lines(r.value)[i] == if Lines(d)[i].itemId == id then Lines(d)[i].(quantity := ParseInt(quantity)) else Lines(d)[i]
  {
    if d.items.None? then Err(MissingItemList)
    else
      var lines := Lines(d);
      Ok(Draft(d.fields, Some(seq(|lines|, i requires 0 <= i < |lines| =>
        if lines[i].itemId == id then lines[i].(quantity := ParseInt(quantity)) else lines[i]))))
  }

  /** A quantity change keeps every id in its place, so it keeps them
      distinct. */
  lemma ChangeQuantityKeepsIds(d: Draft, id: int, quantity: string)
    requires d.items.Some?
    ensures var r := ChangeQuantity(d, id, quantity).value;
      && (forall i :: 0 <= i < |Lines(d)| ==> Lines(r)[i].itemId == Lines(d)[i].itemId)
      && (DistinctIds(Lines(d)) ==> DistinctIds(Lines(r)))
  {
    var r := ChangeQuantity(d, id, quantity).value;
    assert forall i :: 0 <= i < |Lines(d)| ==> Lines(r)[i].itemId == Lines(d)[i].itemId;
  }

  // ---------------------------------------------------------------------------
  // parseInt
  // ---------------------------------------------------------------------------

  /** The value of `c` as a digit of `radix` (10 or 16), if it is one. */
  function DigitValue(c: char, radix: nat): (r: Option<nat>)
    ensures r.Some? ==> r.value < radix || (radix < 10 && r.value < 16)
  {
    if '0' <= c <= '9' && (c as int - '0' as int) < radix then Some(c as int - '0' as int)
    else if radix == 16 && 'a' <= c <= 'f' then Some(c as int - 'a' as int + 10)
    else if radix == 16 && 'A' <= c <= 'F' then Some(c as int - 'A' as int + 10)
    else None
  }

  /** The length of the longest prefix of `s` made of digits of `radix`. */
  function DigitRun(s: string, radix: nat): (n: nat)
    ensures n <= |s|
    ensures forall i :: 0 <= i < n ==> DigitValue(s[i], radix).Some?
    ensures n < |s| ==> DigitValue(s[n], radix).None?
    decreases |s|
  {
    if s == [] || DigitValue(s[0], radix).None? then 0 else 1 + DigitRun(s[1..], radix)
  }

  /** The number a run of digits denotes, most significant digit first. */
  function DigitsValue(ds: string, radix: nat): (v: nat)
    requires forall i :: 0 <= i < |ds| ==> DigitValue(ds[i], radix).Some?
    decreases |ds|
  {
    if ds == [] then 0
    else
      var n := |ds| - 1;
      DigitsValue(ds[..n], radix) * radix + DigitValue(ds[n], radix).value
  }

  /** `parseInt(s)` with no radix: leading whitespace is skipped, then the
      rest is read by `ParseTrimmed`. */
  function ParseInt(s: string): (r: JsNumber)
    decreases |s|
  {
    if s != [] && Text.IsJsWhitespace(s[0]) then ParseInt(s[1..]) else ParseTrimmed(s)
  }

  /** A sign is read, then the magnitude; `NaN` when there is none. */
  function ParseTrimmed(s: string): (r: JsNumber)
  {
    var negative := s != [] && s[0] == '-';
    var unsigned := if s != [] && (s[0] == '-' || s[0] == '+') then s[1..] else s;
    match ParseMagnitude(unsigned)
    case None => NaN
    case Some(v) => Num(if negative then -(v as int) else v)
  }

  /** A "0x"/"0X" prefix selects base 16, and the longest run of digits that
      follows is the value; `None` when that run is empty. */
  function ParseMagnitude(unsigned: string): (r: Option<nat>)
  {
    var hex := |unsigned| >= 2 && unsigned[0] == '0' && (unsigned[1] == 'x' || unsigned[1] == 'X');
    var radix := if hex then 16 else 10;
    var body := if hex then unsigned[2..] else unsigned;
    var n := DigitRun(body, radix);
    if n == 0 then None else Some(DigitsValue(body[..n], radix))
  }

  /** The decimal digit of `d`. */
  function DigitChar(d: nat): (c: char)
    requires d < 10
    ensures DigitValue(c, 10) == Some(d)
  {
    ('0' as int + d) as char
  }

  /** The decimal numeral of `n`, as `String(n)` writes it. */
  function ShowNat(n: nat): (s: string)
    ensures |s| >= 1
    ensures forall i :: 0 <= i < |s| ==> DigitValue(s[i], 10).Some?
    decreases n
  {
    if n < 10 then [DigitChar(n)] else ShowNat(n / 10) + [DigitChar(n % 10)]
  }

  /** Reading back a numeral gives its number. */
  lemma {:induction false} DigitsOfShowNat(n: nat)
    ensures DigitsValue(ShowNat(n), 10) == n
    decreases n
  {
    var s := ShowNat(n);
    if n >= 10 {
      DigitsOfShowNat(n / 10);
      assert s[..|s| - 1] == ShowNat(n / 10);
    } else {
      assert s[..0] == [];
    }
  }

  /** The numeral of an integer, with a leading '-' when it is negative. */
  function ShowInt(n: int): string
  {
    if n < 0 then "-" + ShowNat(-n) else ShowNat(n)
  }

  /** `parseInt` reads back what a number input holds for any whole number. */
  lemma ParseIntShowInt(n: int)
    ensures ParseInt(ShowInt(n)) == Num(n)
  {
    var m := if n < 0 then -n else n;
    DigitsOfShowNat(m);
    if n < 0 {
      ParseNegative(ShowNat(m));
    } else {
      ParseUnsigned(ShowNat(m));
    }
  }

  /** A run of decimal digits reads as its value. */
  lemma {:induction false} ParseUnsigned(digits: string)
    requires |digits| >= 1 && forall i :: 0 <= i < |digits| ==> DigitValue(digits[i], 10).Some?
    ensures ParseInt(digits) == Num(DigitsValue(digits, 10))
  {
    assert !Text.IsJsWhitespace(digits[0]) && digits[0] != '-' && digits[0] != '+';
    MagnitudeOfDigits(digits);
  }

  /** A '-' before a run of decimal digits negates its value. */
  lemma {:induction false} ParseNegative(digits: string)
    requires |digits| >= 1 && forall i :: 0 <= i < |digits| ==> DigitValue(digits[i], 10).Some?
    ensures ParseInt("-" + digits) == Num(-(DigitsValue(digits, 10) as int))
  {
    var s := "-" + digits;
    assert s[0] == '-' && s[1..] == digits;
    MagnitudeOfDigits(digits);
    SignedRead(s, DigitsValue(digits, 10));
    NoLeadingSpace(s);
  }

  /** A string that does not start with whitespace is read as it is. */
  lemma NoLeadingSpace(s: string)
    requires s != [] && !Text.IsJsWhitespace(s[0])
    ensures ParseInt(s) == ParseTrimmed(s)
  {
  }

  /** With '-' first and a magnitude after it, the reading is negative. */
  lemma SignedRead(s: string, v: nat)
    requires |s| >= 1 && s[0] == '-' && ParseMagnitude(s[1..]) == Some(v)
    ensures ParseTrimmed(s) == Num(-(v as int))
  {
  }

  /** The magnitude of a run of decimal digits is its value. */
  lemma {:induction false} MagnitudeOfDigits(digits: string)
    requires |digits| >= 1 && forall i :: 0 <= i < |digits| ==> DigitValue(digits[i], 10).Some?
    ensures ParseMagnitude(digits) == Some(DigitsValue(digits, 10))
  {
    assert |digits| >= 2 ==> digits[1] != 'x' && digits[1] != 'X';
    assert DigitRun(digits, 10) == |digits|;
    assert digits[..|digits|] == digits;
  }

  /** Text after the digits is ignored: "12abc" reads as 12. */
  lemma TrailingTextIgnored()
    ensures ParseInt("12abc") == Num(12)
  {
    var s := "12abc";
    assert ParseInt(s) == ParseTrimmed(s);
    assert s[1..] == "2abc" && s[1..][1..] == "abc";
    assert DigitRun("abc", 10) == 0;
    assert DigitRun("2abc", 10) == 1;
    assert DigitRun(s, 10) == 2;
    assert s[..2] == "12" && "12"[..1] == "1" && "1"[..0] == "";
    assert DigitsValue("1", 10) == 1;
    assert DigitsValue("12", 10) == 12;
    assert ParseMagnitude(s) == Some(12);
  }

  /** An empty field reads as `NaN`. */
  lemma EmptyIsNaN()
    ensures ParseInt("") == NaN
  {
  }

  // ---------------------------------------------------------------------------
  // Inventory search
  // ---------------------------------------------------------------------------

  /** The fields of an inventory item the search reads. */
  datatype InventoryEntry = InventoryEntry(id: int, name: string, sku: string)

  /** `item.name.toLowerCase().includes(term) || item.sku.toLowerCase().includes(term)`
      with the term lower-cased. */
  function NameOrSku(term: string): InventoryEntry -> bool
  {
    (x: InventoryEntry) => Text.IContains(x.name, term) || Text.IContains(x.sku, term)
  }

  /** `filteredItems`: the inventory items whose name or sku contains the
      search term, ignoring case, in their original order. */
  function FilteredItems(items: seq<InventoryEntry>, term: string): (r: seq<InventoryEntry>)
    ensures forall x :: x in r <==> x in items && (Text.IContains(x.name, term) || Text.IContains(x.sku, term))
    ensures var kept := Text.Selected(items, NameOrSku(term));
      |r| == |kept| && forall k :: 0 <= k < |kept| ==> r[k] == items[kept[k]]
  {
    Text.FilterSelects(items, NameOrSku(term));
    Text.Filter(items, NameOrSku(term))
  }

  /** An empty search term keeps every item. */
  lemma EmptyTermKeepsAll(items: seq<InventoryEntry>)
    ensures FilteredItems(items, "") == items
  {
    forall i | 0 <= i < |items| ensures NameOrSku("")(items[i]) {
      Text.ContainsEmpty(Text.Lower(items[i].name));
    }
    Text.FilterAll(items, NameOrSku(""));
  }
}
