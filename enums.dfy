/** The two enumerations of the backend models (backend/api/models/enums.py):
    the direction of a shipment and its status, each member with the string
    value stored in the database and its Python member name. */
module Enums {
  import opened Wrappers

  datatype ShipmentType = Incoming | Outgoing

  datatype ShipmentStatus = Pending | InTransit | Delivered | Cancelled

  /** Members in declaration order, as iterating over the enum class yields them. */
  const AllTypes: seq<ShipmentType> := [Incoming, Outgoing]
  const AllStatuses: seq<ShipmentStatus> := [Pending, InTransit, Delivered, Cancelled]

  function TypeValue(t: ShipmentType): string
  {
    match t
    case Incoming => "IN"
    case Outgoing => "OUT"
  }

  function TypeName(t: ShipmentType): string
  {
    match t
    case Incoming => "INCOMING"
    case Outgoing => "OUTGOING"
  }

  function StatusValue(s: ShipmentStatus): string
  {
    match s
    case Pending => "PENDING"
    case InTransit => "IN_TRANSIT"
    case Delivered => "DELIVERED"
    case Cancelled => "CANCELLED"
  }

  function StatusName(s: ShipmentStatus): string
  {
    match s
    case Pending => "PENDING"
    case InTransit => "IN_TRANSIT"
    case Delivered => "DELIVERED"
    case Cancelled => "CANCELLED"
  }

  /** Each enumeration lists every member exactly once. */
  lemma MembersListedOnce()
    ensures forall t: ShipmentType :: t in AllTypes
    ensures forall s: ShipmentStatus :: s in AllStatuses
    ensures forall i, j :: 0 <= i < j < |AllTypes| ==> AllTypes[i] != AllTypes[j]
    ensures forall i, j :: 0 <= i < j < |AllStatuses| ==> AllStatuses[i] != AllStatuses[j]
  {
    forall t: ShipmentType ensures t in AllTypes {
      match t
      case Incoming => assert AllTypes[0] == t;
      case Outgoing => assert AllTypes[1] == t;
    }
    forall s: ShipmentStatus ensures s in AllStatuses {
      match s
      case Pending => assert AllStatuses[0] == s;
      case InTransit => assert AllStatuses[1] == s;
      case Delivered => assert AllStatuses[2] == s;
      case Cancelled => assert AllStatuses[3] == s;
    }
  }

  /** `ShipmentType.choices()`: one (value, name) pair per member, in declaration order. */
  function TypeChoices(): (r: seq<(string, string)>)
    ensures |r| == |AllTypes|
    ensures forall i :: 0 <= i < |r| ==> r[i] == (TypeValue(AllTypes[i]), TypeName(AllTypes[i]))
  {
    seq(|AllTypes|, i requires 0 <= i < |AllTypes| => (TypeValue(AllTypes[i]), TypeName(AllTypes[i])))
  }

  /** `ShipmentStatus.choices()`: one (value, name) pair per member, in declaration order. */
  function StatusChoices(): (r: seq<(string, string)>)
    ensures |r| == |AllStatuses|
    ensures forall i :: 0 <= i < |r| ==> r[i] == (StatusValue(AllStatuses[i]), StatusName(AllStatuses[i]))
  {
    seq(|AllStatuses|, i requires 0 <= i < |AllStatuses| => (StatusValue(AllStatuses[i]), StatusName(AllStatuses[i])))
  }

  /** The stored choices are exactly ('IN', 'INCOMING') and ('OUT', 'OUTGOING'). */
  lemma TypeChoicesAre()
    ensures TypeChoices() == [("IN", "INCOMING"), ("OUT", "OUTGOING")]
  {
  }

  /** Every status choice has its value equal to its name. */
  lemma StatusChoiceValueIsName()
    ensures |StatusChoices()| == 4
    ensures forall i :: 0 <= i < |StatusChoices()| ==> StatusChoices()[i].0 == StatusChoices()[i].1
  {
  }

  /** Looks a requested status string up among the status values; `None`
      when `s` is not the value of any member (the comparison is exact). */
  function ParseStatus(s: string): (r: Option<ShipmentStatus>)
    ensures r.Some? ==> StatusValue(r.value) == s
    ensures r.None? ==> forall st: ShipmentStatus :: StatusValue(st) != s
  {
    if s == "PENDING" then Some(Pending)
    else if s == "IN_TRANSIT" then Some(InTransit)
    else if s == "DELIVERED" then Some(Delivered)
    else if s == "CANCELLED" then Some(Cancelled)
    else None
  }

  /** Looks a shipment type string up among the type values. */
  function ParseType(s: string): (r: Option<ShipmentType>)
    ensures r.Some? ==> TypeValue(r.value) == s
    ensures r.None? ==> forall t: ShipmentType :: TypeValue(t) != s
  {
    if s == "IN" then Some(Incoming)
    else if s == "OUT" then Some(Outgoing)
    else None
  }

  /** Parsing a member's value gives the member back, so values are distinct. */
  lemma ParseValueRoundTrip(st: ShipmentStatus, t: ShipmentType)
    ensures ParseStatus(StatusValue(st)) == Some(st)
    ensures ParseType(TypeValue(t)) == Some(t)
  {
  }

  /** The two final statuses, from which no further change is accepted. */
  predicate IsFinal(s: ShipmentStatus)
  {
    s == Delivered || s == Cancelled
  }
}
