/** The display helpers of the client (frontend/src/utils/statusUtils.ts):
    Tailwind class strings for a shipment's status and type, the status label
    with its underscore replaced, and the "N/A" fallback of the date format. */
module StatusUtils {
  import opened Wrappers
  import Enums
  import Text

  const Yellow := "bg-yellow-100 text-yellow-800"
  const Blue := "bg-blue-100 text-blue-800"
  const Green := "bg-green-100 text-green-800"
  const Red := "bg-red-100 text-red-800"
  const Gray := "bg-gray-100 text-gray-800"

  /** `getStatusColor`: one class string per known status, gray otherwise. */
  function GetStatusColor(status: string): (r: string)
    ensures r in {Yellow, Blue, Green, Red, Gray}
    ensures r == Gray <==> Enums.ParseStatus(status).None?
  {
    match status
    case "PENDING" => Yellow
    case "IN_TRANSIT" => Blue
    case "DELIVERED" => Green
    case "CANCELLED" => Red
    case _ => Gray
  }

  /** Every status the backend can store has its own colour, none of them the
      gray fallback. */
  lemma StatusColorsDistinct(a: Enums.ShipmentStatus, b: Enums.ShipmentStatus)
    ensures GetStatusColor(Enums.StatusValue(a)) != Gray
    ensures a != b ==> GetStatusColor(Enums.StatusValue(a)) != GetStatusColor(Enums.StatusValue(b))
  {

  }

  /** `getTypeColor`: green for "IN" only; "OUT" and anything else are blue. */
  function GetTypeColor(kind: string): (r: string)
    ensures r == Green <==> kind == Enums.TypeValue(Enums.Incoming)
    ensures r != Green ==> r == Blue
  {
    if kind == "IN" then Green else Blue
  }

  /** `status.replace("_", " ")`: a string pattern replaces its first
      occurrence only. */
  function FormatStatus(status: string): (r: string)
    ensures |r| == |status|
    ensures '_' !in status ==> r == status
    ensures '_' in status ==>
      var i := Text.IndexOf(status, '_').value;
      r[i] == ' ' && r[..i] == status[..i] && r[i + 1..] == status[i + 1..]
  {
    match Text.IndexOf(status, '_')
    case None => status
    case Some(i) => status[..i] + " " + status[i + 1..]
  }

  /** Every position but the first underscore keeps its character, so a second
      underscore survives and no other character is touched. */
  lemma FormatStatusChangesOnePosition(status: string, k: nat)
    requires '_' in status && k < |status|
    ensures FormatStatus(status)[k] == if k == Text.IndexOf(status, '_').value then ' ' else status[k]
  {
    var i := Text.IndexOf(status, '_').value;
    var r := FormatStatus(status);
    if k < i {
      assert r[..i][k] == status[..i][k];
    } else if k > i {
      assert r[i + 1..][k - i - 1] == status[i + 1..][k - i - 1];
    }
  }

  /** The dialog's label for the in-transit status. */
  lemma FormatInTransit()
    ensures FormatStatus("IN_TRANSIT") == "IN TRANSIT"
  {
    var s := "IN_TRANSIT";
    assert s[0] != '_' && s[1] != '_' && s[2] == '_';
    assert Text.IndexOf(s, '_') == Some(2);
  }

  /** A second underscore is left in place. */
  lemma FormatSecondUnderscoreKept()
    ensures FormatStatus("A_B_C") == "A B_C"
  {
    var t := "A_B_C";
    assert t[0] != '_' && t[1] == '_';
    assert Text.IndexOf(t, '_') == Some(1);
  }

  /** `formatDate`: "N/A" for a missing or empty date string; the locale
      formatting of a present one is the parameter `localeFormat`. */
  function FormatDate(dateString: Option<string>, localeFormat: string -> string): (r: string)
    ensures dateString.None? || dateString == Some("") ==> r == "N/A"
    ensures dateString.Some? && dateString.value != "" ==> r == localeFormat(dateString.value)
  {
    if dateString.None? || dateString.value == "" then "N/A" else localeFormat(dateString.value)
  }
}
