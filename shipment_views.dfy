/** The shipment endpoint of the backend (backend/api/views/shipment_views.py):
    the `update_status` action, which moves a shipment through its statuses and,
    on delivery, adjusts the stock of every inventory item it lists; and the
    list filters of `get_queryset`.

    Stock lives in the database, one row per inventory item; here it is a map
    from inventory item id to quantity that the action updates in place, one
    saved row at a time. */
module ShipmentViews {
  import opened Wrappers
  import opened Enums
  import Text
  import opened QueryParams

  /** Primary key of an `InventoryItem`. */
  type ItemId = int

  /** A `ShipmentItem` row: the inventory item it refers to and how many units
      the shipment carries. The model field has no validator, so the quantity
      is any integer. */
  datatype Line = Line(item: ItemId, quantity: int)

  /** The `Shipment` fields that the action and the filters read or write;
      `actualArrival` is a timestamp, `None` while unset. */
  datatype Shipment = Shipment(
    kind: ShipmentType,
    status: ShipmentStatus,
    trackingNumber: string,
    carrier: string,
    actualArrival: Option<int>,
    lines: seq<Line>)

  /** `unique_together = ['shipment', 'item']`: an inventory item is listed at
      most once per shipment. */
  predicate DistinctItems(lines: seq<Line>)
  {
    forall i, j :: 0 <= i < j < |lines| ==> lines[i].item != lines[j].item
  }

  /** Every line refers to an existing inventory item (the foreign key). */
  predicate Listed(lines: seq<Line>, stock: map<ItemId, int>)
  {
    forall i :: 0 <= i < |lines| ==> lines[i].item in stock
  }

  /** Stock never goes below zero (`MinValueValidator(0)` on the quantity). */
  predicate NonNegative(stock: map<ItemId, int>)
  {
    forall k :: k in stock ==> stock[k] >= 0
  }

  // ---------------------------------------------------------------------------
  // The delivery loop as a function
  // ---------------------------------------------------------------------------

  /** What the delivery loop leaves behind: the saved stock, and the item whose
      shortage stopped the loop, if one did. */
  datatype Delivery = Delivery(stock: map<ItemId, int>, shortOf: Option<ItemId>)

  /** The loop over the shipment's lines, front to back. An incoming shipment
      adds each line's quantity; an outgoing one first checks that the current
      stock covers the line and stops at the first line it does not cover,
      keeping whatever earlier lines have already saved. */
  function Deliver(kind: ShipmentType, lines: seq<Line>, stock: map<ItemId, int>): (d: Delivery)
    requires Listed(lines, stock)
    ensures d.stock.Keys == stock.Keys
    ensures d.shortOf.Some? ==> kind.Outgoing?
    decreases |lines|
  {
    if lines == [] then Delivery(stock, None)
    else
      var l := lines[0];
      if kind == Incoming then
        Deliver(kind, lines[1..], stock[l.item := stock[l.item] + l.quantity])
      else if stock[l.item] < l.quantity then
        Delivery(stock, Some(l.item))
      else
        Deliver(kind, lines[1..], stock[l.item := stock[l.item] - l.quantity])
  }

  /** The signed change a line of `kind` makes to stock. */
  function Signed(kind: ShipmentType, quantity: int): int
  {
    if kind == Incoming then quantity else -quantity
  }

  /** The reference definition: every line applied, with no check at all. */
  function Apply(kind: ShipmentType, lines: seq<Line>, stock: map<ItemId, int>): (r: map<ItemId, int>)
    requires Listed(lines, stock)
    ensures r.Keys == stock.Keys
    decreases |lines|
  {
    if lines == [] then stock
    else
      var l := lines[0];
      Apply(kind, lines[1..], stock[l.item := stock[l.item] + Signed(kind, l.quantity)])
  }

  /** Total quantity the lines carry of item `k`. */
  function QuantityOf(lines: seq<Line>, k: ItemId): int
    decreases |lines|
  {
    if lines == [] then 0
    else (if lines[0].item == k then lines[0].quantity else 0) + QuantityOf(lines[1..], k)
  }

  /** Applying lines moves each item's stock by exactly the quantity listed for it. */
  lemma {:induction false} ApplyEffect(kind: ShipmentType, lines: seq<Line>, stock: map<ItemId, int>, k: ItemId)
    requires Listed(lines, stock)
    requires k in stock
    ensures Apply(kind, lines, stock)[k] == stock[k] + Signed(kind, QuantityOf(lines, k))
    decreases |lines|
  {
    if lines != [] {
      var l := lines[0];
      ApplyEffect(kind, lines[1..], stock[l.item := stock[l.item] + Signed(kind, l.quantity)], k);
    }
  }

  /** With distinct items, the quantity of a listed item is its one line's
      quantity, and an unlisted item has none. */
  lemma {:induction false} QuantityOfDistinct(lines: seq<Line>, k: ItemId)
    requires DistinctItems(lines)
    ensures forall j :: 0 <= j < |lines| && lines[j].item == k ==> QuantityOf(lines, k) == lines[j].quantity
    ensures (forall j :: 0 <= j < |lines| ==> lines[j].item != k) ==> QuantityOf(lines, k) == 0
    decreases |lines|
  {
    if lines != [] {
      QuantityOfDistinct(lines[1..], k);
      forall j | 0 < j < |lines| && lines[j].item == k
        ensures QuantityOf(lines, k) == lines[j].quantity
      {
        assert lines[1..][j - 1] == lines[j];
        assert lines[0].item != k;
      }
    }
  }

  /** Delivering an incoming shipment applies every line and never stops. */
  lemma {:induction false} DeliverIncoming(lines: seq<Line>, stock: map<ItemId, int>)
    requires Listed(lines, stock)
    ensures Deliver(Incoming, lines, stock) == Delivery(Apply(Incoming, lines, stock), None)
    decreases |lines|
  {
    if lines != [] {
      var l := lines[0];
      DeliverIncoming(lines[1..], stock[l.item := stock[l.item] + l.quantity]);
    }
  }

  /** Every line of an outgoing shipment finds enough stock before the loop starts. */
  predicate Covered(lines: seq<Line>, stock: map<ItemId, int>)
    requires Listed(lines, stock)
  {
    forall i :: 0 <= i < |lines| ==> stock[lines[i].item] >= lines[i].quantity
  }

  /** Updating an item that no line lists leaves coverage as it was. */
  lemma CoveredFrame(lines: seq<Line>, stock: map<ItemId, int>, k: ItemId, v: int)
    requires Listed(lines, stock) && k in stock
    requires forall i :: 0 <= i < |lines| ==> lines[i].item != k
    ensures Covered(lines, stock[k := v]) == Covered(lines, stock)
  {
  }

  /** Outgoing delivery with every line covered applies every line. */
  lemma {:induction false} DeliverOutgoingCovered(lines: seq<Line>, stock: map<ItemId, int>)
    requires Listed(lines, stock) && DistinctItems(lines)
    requires Covered(lines, stock)
    ensures Deliver(Outgoing, lines, stock) == Delivery(Apply(Outgoing, lines, stock), None)
    decreases |lines|
  {
    if lines != [] {
      var l := lines[0];
      var next := stock[l.item := stock[l.item] - l.quantity];
      assert forall i :: 0 <= i < |lines[1..]| ==> lines[1..][i] == lines[i + 1];
      CoveredFrame(lines[1..], stock, l.item, stock[l.item] - l.quantity);
      DeliverOutgoingCovered(lines[1..], next);
    }
  }

  /** Outgoing delivery whose first uncovered line is `j`: lines before `j`
      are applied and saved, the loop stops at `j`, nothing from `j` on is
      applied. */
  lemma {:induction false} DeliverOutgoingShort(lines: seq<Line>, stock: map<ItemId, int>, j: nat)
    requires Listed(lines, stock) && DistinctItems(lines)
    requires j < |lines| && stock[lines[j].item] < lines[j].quantity
    requires forall i :: 0 <= i < j ==> stock[lines[i].item] >= lines[i].quantity
    ensures Listed(lines[..j], stock)
    ensures Deliver(Outgoing, lines, stock) == Delivery(Apply(Outgoing, lines[..j], stock), Some(lines[j].item))
    decreases j
  {
    if j > 0 {
      var l := lines[0];
      var next := stock[l.item := stock[l.item] - l.quantity];
      assert forall i :: 0 < i < |lines| ==> lines[i].item != l.item;
      assert forall i :: 0 <= i < |lines[1..]| ==> lines[1..][i] == lines[i + 1];
      DeliverOutgoingShort(lines[1..], next, j - 1);
      assert lines[..j][1..] == lines[1..][..j - 1];
    }
  }

  /** An outgoing delivery stops exactly when some line is not covered. */
  lemma DeliverOutgoingStops(lines: seq<Line>, stock: map<ItemId, int>)
    requires Listed(lines, stock) && DistinctItems(lines)
    ensures Deliver(Outgoing, lines, stock).shortOf.None? <==> Covered(lines, stock)
  {
    if Covered(lines, stock) {
      DeliverOutgoingCovered(lines, stock);
    } else {
      var j := FirstUncovered(lines, stock);
      DeliverOutgoingShort(lines, stock, j);
    }
  }

  /** The first line whose item has less stock than the line asks for. */
  function FirstUncovered(lines: seq<Line>, stock: map<ItemId, int>): (j: nat)
    requires Listed(lines, stock) && !Covered(lines, stock)
    ensures j < |lines| && stock[lines[j].item] < lines[j].quantity
    ensures forall i :: 0 <= i < j ==> stock[lines[i].item] >= lines[i].quantity
    decreases |lines|
  {
    if stock[lines[0].item] < lines[0].quantity then 0
    else
      assert !Covered(lines[1..], stock) by {
        var i :| 0 <= i < |lines| && stock[lines[i].item] < lines[i].quantity;
        assert lines[1..][i - 1] == lines[i];
      }
      1 + FirstUncovered(lines[1..], stock)
  }

  /** An outgoing delivery never takes any stock below zero: every subtraction
      is guarded by the sufficiency check. */
  lemma {:induction false} OutgoingKeepsNonNegative(lines: seq<Line>, stock: map<ItemId, int>)
    requires Listed(lines, stock) && NonNegative(stock)
    ensures NonNegative(Deliver(Outgoing, lines, stock).stock)
    decreases |lines|
  {
    if lines != [] {
      var l := lines[0];
      if stock[l.item] >= l.quantity {
        OutgoingKeepsNonNegative(lines[1..], stock[l.item := stock[l.item] - l.quantity]);
      }
    }
  }

  /** An incoming delivery keeps stock non-negative when no line is negative. */
  lemma {:induction false} IncomingKeepsNonNegative(lines: seq<Line>, stock: map<ItemId, int>)
    requires Listed(lines, stock) && NonNegative(stock)
    requires forall i :: 0 <= i < |lines| ==> lines[i].quantity >= 0
    ensures NonNegative(Deliver(Incoming, lines, stock).stock)
    decreases |lines|
  {
    if lines != [] {
      var l := lines[0];
      IncomingKeepsNonNegative(lines[1..], stock[l.item := stock[l.item] + l.quantity]);
    }
  }

  /** Nothing validates a line's quantity, so an incoming line of -3 against a
      stock of 1 leaves the item at -2. */
  lemma IncomingNegativeLineGoesBelowZero()
    ensures Deliver(Incoming, [Line(7, -3)], map[7 := 1]).stock[7] == -2
  {
  }

  // ---------------------------------------------------------------------------
  // update_status
  // ---------------------------------------------------------------------------

  datatype StatusError =
    | InvalidStatus                        // 'Invalid status'
    | FinalStatus(current: ShipmentStatus)  // 'Cannot change status from ...'
    | NotEnoughInventory(item: ItemId)     // 'Not enough inventory for item ...'

  /** What one `update_status` request leaves in the database, and its response:
      the serialized shipment on 200, the error on 400. */
  datatype Outcome = Outcome(shipment: Shipment, stock: map<ItemId, int>, response: Result<Shipment, StatusError>)

  /** `update_status` on a shipment and the current stock, for the requested
      status string and the current time `now`. */
  function UpdateStatusOutcome(sh: Shipment, stock: map<ItemId, int>, requested: string, now: int): (o: Outcome)
    requires Listed(sh.lines, stock)
    ensures ParseStatus(requested).None? ==> o == Outcome(sh, stock, Err(InvalidStatus))
    ensures ParseStatus(requested).Some? && IsFinal(sh.status) ==> o == Outcome(sh, stock, Err(FinalStatus(sh.status)))
    ensures o.response.Ok? ==> !IsFinal(sh.status) && StatusValue(o.shipment.status) == requested && o.response.value == o.shipment
    ensures o.response.Ok? && requested != "DELIVERED" ==> o.stock == stock && o.shipment == sh.(status := o.shipment.status)
    ensures o.response.Err? ==> o.shipment == sh
    ensures o.stock.Keys == stock.Keys && o.shipment.lines == sh.lines
  {
    match ParseStatus(requested)
    case None => Outcome(sh, stock, Err(InvalidStatus))
    case Some(next) =>
      if IsFinal(sh.status) then Outcome(sh, stock, Err(FinalStatus(sh.status)))
      else if next != Delivered then
        var updated := sh.(status := next);
        Outcome(updated, stock, Ok(updated))
      else
        var d := Deliver(sh.kind, sh.lines, stock);
        match d.shortOf
        case Some(item) => Outcome(sh, d.stock, Err(NotEnoughInventory(item)))
        case None =>
          var updated := sh.(status := Delivered, actualArrival := Some(now));
          Outcome(updated, d.stock, Ok(updated))
  }

  /** DELIVERED and CANCELLED are absorbing: every request is refused and
      neither the shipment nor any stock changes. */
  lemma FinalIsAbsorbing(sh: Shipment, stock: map<ItemId, int>, requested: string, now: int)
    requires Listed(sh.lines, stock) && IsFinal(sh.status)
    ensures var o := UpdateStatusOutcome(sh, stock, requested, now);
      o.response.Err? && o.shipment == sh && o.stock == stock
  {
  }

  /** From PENDING or IN_TRANSIT every valid status other than DELIVERED is
      accepted (PENDING to PENDING and IN_TRANSIT to PENDING included) and
      touches no stock. */
  lemma OpenStatusAcceptsAnyMove(sh: Shipment, stock: map<ItemId, int>, next: ShipmentStatus, now: int)
    requires Listed(sh.lines, stock) && !IsFinal(sh.status) && next != Delivered
    ensures UpdateStatusOutcome(sh, stock, StatusValue(next), now)
         == Outcome(sh.(status := next), stock, Ok(sh.(status := next)))
  {
  }

  /** Delivering an incoming shipment succeeds, raises each listed item's stock
      by exactly its line's quantity and leaves every other item alone. */
  lemma DeliverIncomingShipment(sh: Shipment, stock: map<ItemId, int>, now: int)
    requires Listed(sh.lines, stock) && DistinctItems(sh.lines)
    requires !IsFinal(sh.status) && sh.kind == Incoming
    ensures var o := UpdateStatusOutcome(sh, stock, "DELIVERED", now);
      && o.response.Ok?
      && o.shipment == sh.(status := Delivered, actualArrival := Some(now))
      && (forall j :: 0 <= j < |sh.lines| ==>
            o.stock[sh.lines[j].item] == stock[sh.lines[j].item] + sh.lines[j].quantity)
      && (forall k :: k in stock && (forall j :: 0 <= j < |sh.lines| ==> sh.lines[j].item != k) ==>
            o.stock[k] == stock[k])
  {
    DeliverIncoming(sh.lines, stock);
    forall k | k in stock
      ensures Apply(Incoming, sh.lines, stock)[k] == stock[k] + QuantityOf(sh.lines, k)
      ensures forall j :: 0 <= j < |sh.lines| && sh.lines[j].item == k ==> QuantityOf(sh.lines, k) == sh.lines[j].quantity
      ensures (forall j :: 0 <= j < |sh.lines| ==> sh.lines[j].item != k) ==> QuantityOf(sh.lines, k) == 0
    {
      ApplyEffect(Incoming, sh.lines, stock, k);
      QuantityOfDistinct(sh.lines, k);
    }
  }

  /** Delivering an outgoing shipment whose lines are all covered succeeds and
      lowers each listed item by its line's quantity, keeping non-negative
      stock non-negative. */
  lemma DeliverOutgoingShipment(sh: Shipment, stock: map<ItemId, int>, now: int)
    requires Listed(sh.lines, stock) && DistinctItems(sh.lines)
    requires !IsFinal(sh.status) && sh.kind == Outgoing && Covered(sh.lines, stock)
    ensures var o := UpdateStatusOutcome(sh, stock, "DELIVERED", now);
      && o.response.Ok?
      && o.shipment == sh.(status := Delivered, actualArrival := Some(now))
      && (NonNegative(stock) ==> NonNegative(o.stock))
      && (forall j :: 0 <= j < |sh.lines| ==>
            o.stock[sh.lines[j].item] == stock[sh.lines[j].item] - sh.lines[j].quantity)
      && (forall k :: k in stock && (forall j :: 0 <= j < |sh.lines| ==> sh.lines[j].item != k) ==>
            o.stock[k] == stock[k])
  {
    DeliverOutgoingCovered(sh.lines, stock);
    if NonNegative(stock) {
      OutgoingKeepsNonNegative(sh.lines, stock);
    }
    forall k | k in stock
      ensures Apply(Outgoing, sh.lines, stock)[k] == stock[k] - QuantityOf(sh.lines, k)
      ensures forall j :: 0 <= j < |sh.lines| && sh.lines[j].item == k ==> QuantityOf(sh.lines, k) == sh.lines[j].quantity
      ensures (forall j :: 0 <= j < |sh.lines| ==> sh.lines[j].item != k) ==> QuantityOf(sh.lines, k) == 0
    {
      ApplyEffect(Outgoing, sh.lines, stock, k);
      QuantityOfDistinct(sh.lines, k);
    }
  }

  /** A shortage at line `j` of an outgoing delivery answers 400 and leaves the
      shipment as it was, but there is no rollback: the items of the lines
      before `j` keep their reduced stock, and the item of line `j` and those
      after it are untouched. */
  lemma OutgoingShortageHasNoRollback(sh: Shipment, stock: map<ItemId, int>, now: int, j: nat)
    requires Listed(sh.lines, stock) && DistinctItems(sh.lines)
    requires !IsFinal(sh.status) && sh.kind == Outgoing
    requires j < |sh.lines| && stock[sh.lines[j].item] < sh.lines[j].quantity
    requires forall i :: 0 <= i < j ==> stock[sh.lines[i].item] >= sh.lines[i].quantity
    ensures var o := UpdateStatusOutcome(sh, stock, "DELIVERED", now);
      && o.response == Err(NotEnoughInventory(sh.lines[j].item))
      && o.shipment == sh
      && (forall i :: 0 <= i < j ==>
            o.stock[sh.lines[i].item] == stock[sh.lines[i].item] - sh.lines[i].quantity)
      && (forall i :: j <= i < |sh.lines| ==> o.stock[sh.lines[i].item] == stock[sh.lines[i].item])
  {
    var lines := sh.lines;
    DeliverOutgoingShort(lines, stock, j);
    var done := lines[..j];
    QuantityOfDistinct(lines, 0);
    assert DistinctItems(done);
    forall i | 0 <= i < |lines|
      ensures Apply(Outgoing, done, stock)[lines[i].item]
           == stock[lines[i].item] - (if i < j then lines[i].quantity else 0)
    {
      ApplyEffect(Outgoing, done, stock, lines[i].item);
      QuantityOfDistinct(done, lines[i].item);
      if i < j {
        assert done[i] == lines[i];
      } else {
        assert forall m :: 0 <= m < |done| ==> done[m] == lines[m];
      }
    }
  }

  /** The backend test: delivering an incoming shipment of 5 units of an item
      stocked at 10 leaves it at 15. */
  lemma DeliveryScenarioFromTests(now: int)
    ensures var sh := Shipment(Incoming, Pending, "TRACK003", "FedEx", None, [Line(1, 5)]);
      var o := UpdateStatusOutcome(sh, map[1 := 10, 2 := 10], "DELIVERED", now);
      o.response.Ok? && o.stock == map[1 := 15, 2 := 10]
  {
  }

  /** A shipment and the stock table it draws on, as the database holds them
      while `update_status` runs. */
  class StatusDesk {
    var shipment: Shipment
    var stock: map<ItemId, int>

    ghost predicate Valid()
      reads this
    {
      DistinctItems(shipment.lines) && Listed(shipment.lines, stock)
    }

    constructor (shipment: Shipment, stock: map<ItemId, int>)
      requires DistinctItems(shipment.lines) && Listed(shipment.lines, stock)
      ensures Valid() && this.shipment == shipment && this.stock == stock
    {
      this.shipment := shipment;
      this.stock := stock;
    }

    /** `update_status`: validates the requested status, refuses final states,
        and on DELIVERED walks the lines saving each item's new stock as it
        goes; `now` stands for `timezone.now()`. The shipment row is saved only
        at the end, so a mid-loop 400 leaves its status and arrival as they were. */
    method UpdateStatus(requested: string, now: int) returns (response: Result<Shipment, StatusError>)
      requires Valid()
      modifies this
      ensures Valid()
      ensures var o := UpdateStatusOutcome(old(shipment), old(stock), requested, now);
        shipment == o.shipment && stock == o.stock && response == o.response
    {
      var parsed := ParseStatus(requested);
      if parsed.None? {
        return Err(InvalidStatus);
      }
      if IsFinal(shipment.status) {
        return Err(FinalStatus(shipment.status));
      }
      var next := parsed.value;
      if next == Delivered {
        var lines := shipment.lines;
        var kind := shipment.kind;
        var i := 0;
        while i < |lines|
          invariant 0 <= i <= |lines|
          invariant shipment == old(shipment) && stock.Keys == old(stock).Keys
          invariant Listed(lines[i..], stock)
          invariant Deliver(kind, lines, old(stock)) == Deliver(kind, lines[i..], stock)
        {
          var line := lines[i];
          assert lines[i..][0] == line && lines[i..][1..] == lines[i + 1..];
          if kind == Incoming {
            stock := stock[line.item := stock[line.item] + line.quantity];
          } else {
            if stock[line.item] < line.quantity {
              return Err(NotEnoughInventory(line.item));
            }
            stock := stock[line.item := stock[line.item] - line.quantity];
          }
          i := i + 1;
        }
        shipment := shipment.(status := Delivered, actualArrival := Some(now));
      } else {
        shipment := shipment.(status := next);
      }
      response := Ok(shipment);
    }
  }

  // ---------------------------------------------------------------------------
  // get_queryset
  // ---------------------------------------------------------------------------

  /** `filter(type=...)`: exact match on the stored type value. */
  function KindIs(v: string): Shipment -> bool
  {
    (s: Shipment) => TypeValue(s.kind) == v
  }

  /** `filter(status=...)`: exact match on the stored status value. */
  function StatusIs(v: string): Shipment -> bool
  {
    (s: Shipment) => StatusValue(s.status) == v
  }

  /** `filter(Q(tracking_number__icontains=...) | Q(carrier__icontains=...))`. */
  function Mentions(v: string): Shipment -> bool
  {
    (s: Shipment) => Text.IContains(s.trackingNumber, v) || Text.IContains(s.carrier, v)
  }

  /** The conjunction the filters of `get_queryset` impose on one shipment. */
  predicate ShipmentMatches(s: Shipment, kind: Option<string>, status: Option<string>, search: Option<string>)
  {
    && (Given(kind) ==> TypeValue(s.kind) == kind.value)
    && (Given(status) ==> StatusValue(s.status) == status.value)
    && (Given(search) ==> Text.IContains(s.trackingNumber, search.value) || Text.IContains(s.carrier, search.value))
  }

  /** `get_queryset`: the `type`, `status` and `search` filters applied one
      after the other to all shipments in their default order. */
  function FilterShipments(all: seq<Shipment>, kind: Option<string>, status: Option<string>, search: Option<string>): (r: seq<Shipment>)
    ensures forall s :: s in r <==> s in all && ShipmentMatches(s, kind, status, search)
    ensures !Given(kind) && !Given(status) && !Given(search) ==> r == all
  {
    var byKind := if Given(kind) then Text.Filter(all, KindIs(Param(kind))) else all;
    var byStatus := if Given(status) then Text.Filter(byKind, StatusIs(Param(status))) else byKind;
    if Given(search) then Text.Filter(byStatus, Mentions(Param(search))) else byStatus
  }

  /** The chain of filters is one filter by the conjunction of the three
      conditions: the default order is kept, and a shipment is listed exactly
      when it meets every condition whose parameter is given. */
  lemma ShipmentFiltersAreConjunctive(all: seq<Shipment>, kind: Option<string>, status: Option<string>, search: Option<string>)
    ensures FilterShipments(all, kind, status, search)
         == Text.Filter(all, (s: Shipment) => ShipmentMatches(s, kind, status, search))
  {
    Text.FilterChain3(all, Given(kind), KindIs(Param(kind)), Given(status), StatusIs(Param(status)),
      Given(search), Mentions(Param(search)), (s: Shipment) => ShipmentMatches(s, kind, status, search));
  }
}
