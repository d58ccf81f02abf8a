# Warehouse inventory and shipments: the business rules, in Dafny

The system is a small warehouse application. A Django REST backend keeps
inventory items and shipments. A React client lists, creates and edits them.
This project models the rules that live in its code, and proves what each
rule promises:

- **Status change** (`ShipmentViews`). The status action of the shipment
  endpoint refuses unknown statuses. It also refuses any change from the final
  statuses DELIVERED and CANCELLED. On delivery it adds an incoming
  shipment's quantities to stock, or subtracts an outgoing shipment's
  quantities after a per-item sufficiency check. Each item is saved as the
  loop goes, so a shortage half-way leaves the earlier items reduced. The
  `StatusDesk` class holds the shipment and the stock table and updates them
  in place.
- **Shipment list filters** (`ShipmentViews.FilterShipments`): exact type,
  exact status, and a case-insensitive search.
- **Inventory endpoint** (`InventoryViews`): the list filters, the low-stock
  action and the categories action.
- **Nested serializer** (`ShipmentSerializer`). `create` builds a shipment and
  its item rows. `update` overwrites only the fields it is given, and replaces
  the item rows only when an `items` key is present. `ShipmentRecord` holds
  the attributes and the item rows. The client never sets `created_by` or
  `updated_by`: validation drops them. The view sets them instead, passing
  the requesting user to `save`, which merges its keyword arguments into the
  validated data (`SaveData`).
- **Enumerations** (`Enums`): the two enumerations and their `choices()`.
- **Stand-alone ledger** (`InventoryLedger`, from update_inventory.py). A
  dictionary of counts is updated in place by "delivered" and "departed"
  shipments. The sample run is included.
- **Session guard** (`SessionGuard`). The client's route guard: a tri-state
  `isAuthenticated` (`Loading`, `Authenticated`, `Unauthenticated` for
  `null`, `true`, `false`), the two storage slots for the access and refresh
  tokens, and the single refresh request. The `Session` class holds the
  storage and the state. The JWT decoder, the clock and the refresh endpoint
  are parameters. The expiry test compares `exp * 1000 < Date.now()`, which
  is exact for the integer NumericDate of section 2 and section 4.1.4 of
  RFC 7519.
- **Form validation** (`FormValidator`): the registration chain of checks, the
  e-mail regular expression, and the login check.
- **Shipment form** (`ShipmentForm`): the item-list handlers, JavaScript's
  `parseInt`, and the inventory search.
- **Display helpers** (`StatusUtils`): the display helpers.

`Text` holds shared helpers: ASCII lower-casing, substring search, JavaScript
whitespace, and an order-preserving `Filter` with its algebra. `QueryParams`
holds the truthiness of a query parameter. `Wrappers` holds `Option` and
`Result`.

Four behaviours of the route guard in ProtectedRoute.jsx are worth noting:

- An access token the decoder rejects is not treated as expired. The guard
  stays on its loading placeholder (see Findings).
- An expired token with no stored refresh token still sends one request, with
  a `null` refresh token.
- A failed refresh leaves both stored tokens in place. Nothing clears them.
- A token whose payload has no `exp` counts as unexpired, because
  `undefined < now` is false.

## Model

| member | source | states |
|---|---|---|
| Enums.MembersListedOnce | backend/api/models/enums.py:3-15 | each enumeration lists every member, each exactly once, in declaration order |
| Enums.TypeChoices | backend/api/models/enums.py:7-9 | one (value, name) pair per type member, in declaration order |
| Enums.StatusChoices | backend/api/models/enums.py:17-19 | one (value, name) pair per status member, in declaration order |
| Enums.TypeChoicesAre | backend/api/models/enums.py:3-9 | the type choices are exactly ('IN', 'INCOMING') and ('OUT', 'OUTGOING') |
| Enums.StatusChoiceValueIsName | backend/api/models/enums.py:11-19 | four status choices, each with value equal to name |
| Enums.ParseStatus | backend/api/views/shipment_views.py:65 | a requested string is accepted iff it is exactly the value of some status member |
| Enums.ParseValueRoundTrip | backend/api/models/enums.py:3-15 | parsing a member's value gives the member back, so values are distinct |
| ShipmentViews.Deliver | backend/api/views/shipment_views.py:82-103 | the delivery loop keeps the set of stock keys; only an outgoing shipment can stop on a shortage |
| ShipmentViews.ApplyEffect | backend/api/views/shipment_views.py:83-100 | applying the lines moves each item's stock by exactly the signed total quantity listed for it |
| ShipmentViews.QuantityOfDistinct | backend/api/models/shipment_item.py:14-15 | with each item listed at most once, an item's listed total is its one line's quantity, and 0 when unlisted |
| ShipmentViews.DeliverIncoming | backend/api/views/shipment_views.py:84-88 | an incoming delivery applies every line and never stops |
| ShipmentViews.DeliverOutgoingCovered | backend/api/views/shipment_views.py:89-103 | an outgoing delivery whose lines are all covered applies every line |
| ShipmentViews.DeliverOutgoingShort | backend/api/views/shipment_views.py:92-103 | at the first uncovered line the loop stops; exactly the lines before it are applied |
| ShipmentViews.DeliverOutgoingStops | backend/api/views/shipment_views.py:92-97 | an outgoing delivery stops iff some line's stock is below its quantity |
| ShipmentViews.OutgoingKeepsNonNegative | backend/api/views/shipment_views.py:92-100 | an outgoing delivery never takes stock below zero |
| ShipmentViews.IncomingKeepsNonNegative | backend/api/views/shipment_views.py:84-88 | an incoming delivery keeps stock non-negative when no line quantity is negative |
| ShipmentViews.IncomingNegativeLineGoesBelowZero | backend/api/models/shipment_item.py:8 | a line quantity is unvalidated, so an incoming line of -3 takes a stock of 1 to -2 |
| ShipmentViews.UpdateStatusOutcome | backend/api/views/shipment_views.py:62-111 | an invalid status or a final current status gives 400 and changes nothing; success sets the requested status; only DELIVERED touches stock; a 400 never saves the shipment |
| ShipmentViews.FinalIsAbsorbing | backend/api/views/shipment_views.py:71-76 | from DELIVERED or CANCELLED every request is refused and neither the shipment nor the stock changes |
| ShipmentViews.OpenStatusAcceptsAnyMove | backend/api/views/shipment_views.py:65-107 | from PENDING or IN_TRANSIT any valid status other than DELIVERED is accepted, including PENDING again, with stock unchanged |
| ShipmentViews.DeliverIncomingShipment | backend/api/views/shipment_views.py:79-107 | delivering an incoming shipment succeeds, sets the arrival time, raises each listed item by its quantity, and leaves unlisted items alone |
| ShipmentViews.DeliverOutgoingShipment | backend/api/views/shipment_views.py:79-107 | delivering a covered outgoing shipment succeeds, lowers each listed item by exactly its quantity from any starting stock, keeps non-negative stock non-negative, and leaves unlisted items alone |
| ShipmentViews.OutgoingShortageHasNoRollback | backend/api/views/shipment_views.py:83-103 | a shortage at line j answers 400 and leaves the shipment as it was, while items before j keep their reduced stock and items from j on are untouched |
| ShipmentViews.DeliveryScenarioFromTests | backend/api/tests/test_shipments.py:108-114 | delivering 5 units of an incoming item stocked at 10 gives 15 |
| ShipmentViews.StatusDesk.UpdateStatus | backend/api/views/shipment_views.py:50-111 | the in-place action, with its save-as-you-go loop, leaves exactly the shipment, stock and response of `UpdateStatusOutcome` |
| ShipmentViews.FilterShipments | backend/api/views/shipment_views.py:24-42 | a shipment is listed iff it matches every given filter: exact type, exact status, and the search term in its tracking number or carrier ignoring case; no parameters lists all |
| ShipmentViews.ShipmentFiltersAreConjunctive | backend/api/views/shipment_views.py:24-42 | the chain of filters equals one order-preserving filter by the conjunction of the given conditions |
| InventoryViews.LowStock | backend/api/views/inventory_views.py:57-64 | exactly the items whose quantity is at most their minimum stock |
| InventoryViews.AtMinimumIsLow | backend/api/views/inventory_views.py:60-62 | an item exactly at its minimum is reported, although the docstring says below |
| InventoryViews.FilterItems | backend/api/views/inventory_views.py:22-41 | an item is listed iff the search term is in its name, sku or description ignoring case, its category matches exactly, and it is low when `low_stock` is 'true'; no parameters lists all |
| InventoryViews.ItemFiltersAreConjunctive | backend/api/views/inventory_views.py:22-41 | the chain of filters equals one order-preserving filter by the conjunction |
| InventoryViews.LowStockParameterMustBeTrue | backend/api/views/inventory_views.py:38-39 | any `low_stock` value other than exactly 'true' filters nothing |
| InventoryViews.LowStockParameterIsLowStockAction | backend/api/views/inventory_views.py:38-39 | `low_stock=true` alone lists the same items as the low-stock action |
| InventoryViews.Categories | backend/api/views/inventory_views.py:49-55 | the intended action: every category that occurs, each exactly once |
| InventoryViews.CategoryNamePairs | backend/api/views/inventory_views.py:54 | the distinct (category, name) rows the query selects, each once |
| InventoryViews.CategoriesAsWritten | backend/api/views/inventory_views.py:54 | the action as written lists every category that occurs, once per distinct (category, name) pair |
| InventoryViews.CategoryCountIsDistinctNames | backend/api/views/inventory_views.py:54 | as written, each category appears as many times as there are distinct names among its items |
| InventoryViews.CategoryListedTwice | backend/api/views/inventory_views.py:54 | two Electronics items with different names: the as-written action lists the category twice, the intended one once |
| InventoryViews.LowStockFixtures | backend/api/tests/test_inventory.py:107-111 | of the two fixtures only the one with quantity 3 and minimum 5 is low |
| InventoryViews.CategoryFixtures | backend/api/tests/test_inventory.py:100-105 | filtering by 'Electronics' keeps exactly the first fixture |
| InventoryViews.SearchFixtures | backend/api/tests/test_inventory.py:94-98 | searching 'Test' keeps both fixtures |
| InventoryLedger.Ledger | update_inventory.py:28-42 | only "departed" can raise KeyError; the loop runs over the items front to back |
| InventoryLedger.UnlistedUntouched | update_inventory.py:29 | names the shipment does not list are never touched, whatever the status |
| InventoryLedger.DeliveredAdds | update_inventory.py:30-32 | "delivered" never fails and sets each listed name to its old count (0 if absent) plus the quantity |
| InventoryLedger.DepartedRemoves | update_inventory.py:34-40 | "departed" decrements a name only when its count covers the quantity, otherwise leaves it, and creates no key |
| InventoryLedger.DepartedKeepsKeysAndSign | update_inventory.py:34-40 | "departed" keeps the set of keys and never makes a count negative |
| InventoryLedger.DepartedKeyError | update_inventory.py:36-37 | "departed" raises KeyError iff some listed name is absent with a quantity of 0 or less |
| InventoryLedger.UnknownStatusChangesNothing | update_inventory.py:41-42 | any other status string, compared exactly, leaves the dictionary unchanged |
| InventoryLedger.Inventory.UpdateInventory | update_inventory.py:28-42 | the in-place loop leaves exactly the counts and KeyError of `Ledger` |
| InventoryLedger.SampleRun | update_inventory.py:44-46 | the two sample shipments applied in order give laptop 11, mouse 20, keyboard 19 |
| InventoryLedger.ZeroForMissingNameRaises | update_inventory.py:36-37 | a departed line of 0 for a missing name raises KeyError after the earlier line was applied |
| ShipmentSerializer.Validate | backend/api/serializers/shipment_serializer.py:20-25 | validation keeps exactly the input entries whose key is a writable field or `items`, so no read-only or unknown field survives |
| ShipmentSerializer.PopItems | backend/api/serializers/shipment_serializer.py:43 | popping `items` leaves exactly the scalar fields, and yields the item list iff the key was present |
| ShipmentSerializer.Assigned | backend/api/serializers/shipment_serializer.py:45-46 | the setattr loop assigns exactly the supplied fields, each its supplied value |
| ShipmentSerializer.UpdatedAttributes | backend/api/serializers/shipment_serializer.py:45-47 | after update a supplied field has its new value and an absent field keeps its old value or stays absent |
| ShipmentSerializer.ReadOnlyFieldsKept | backend/api/serializers/shipment_serializer.py:17-25 | the setattr loop over validated client input never assigns id, created_at, updated_at, created_by or updated_by |
| ShipmentSerializer.Saved | backend/api/models/shipment.py:14 | `save()` sets `updated_at` to the current time (`auto_now`) and writes every other attribute unchanged |
| ShipmentSerializer.Inserted | backend/api/models/shipment.py:13-14 | `objects.create` adds the primary key (the database's unless given), and sets `created_at` and `updated_at` to the current time whatever the data held; other attributes are unchanged |
| ShipmentSerializer.Find | backend/api/views/shipment_views.py:44-48 | the value under a key, absent iff no entry has that key, and the entry's value when keys are distinct |
| ShipmentSerializer.SaveData | backend/api/views/shipment_views.py:44-48 | `save`'s keyword arguments override or extend the validated data: an entry survives iff it is a keyword argument or a validated entry whose key no keyword argument has, keys stay distinct and the validated keys keep their places |
| ShipmentSerializer.CreateKwargs | backend/api/views/shipment_views.py:44-45 | `perform_create` passes the requesting user as `created_by` and `updated_by`, and nothing else |
| ShipmentSerializer.UpdateKwargs | backend/api/views/shipment_views.py:47-48 | `perform_update` passes the requesting user as `updated_by`, and nothing else |
| ShipmentSerializer.UpdateStampsEditor | backend/api/views/shipment_views.py:47-48 | after an update through the view, `updated_by` is the requesting user, `updated_at` is the time of the save, and id, created_at and created_by keep their values, whatever the client sent |
| ShipmentSerializer.CreateStampsCreator | backend/api/views/shipment_views.py:44-45 | a shipment created through the view has the requesting user as `created_by` and `updated_by`, the creation time as `created_at` and `updated_at`, and the database's primary key; none comes from the request |
| ShipmentSerializer.ShipmentRecord.Create | backend/api/serializers/shipment_serializer.py:27-37 | the shipment is inserted from the non-item fields only, with its key and timestamps stamped on insertion, then one item row per supplied item in order, and none without `items` |
| ShipmentSerializer.ShipmentRecord.Update | backend/api/serializers/shipment_serializer.py:39-56 | the supplied fields overwrite the old ones and `save()` stamps `updated_at`; the item rows become exactly the supplied list when `items` is present, even empty, and are untouched otherwise |
| ShipmentSerializer.ShipmentRecord.AssignAll | backend/api/serializers/shipment_serializer.py:45-46 | assigning the fields in turn leaves the old attributes overridden by exactly the supplied fields, item rows untouched |
| ShipmentSerializer.ShipmentRecord.ReplaceItems | backend/api/serializers/shipment_serializer.py:49-54 | after deleting and recreating, the item rows are exactly the supplied list in order, attributes untouched |
| SessionGuard.Render | frontend/src/components/ProtectedRoute.jsx:63-67 | null shows the placeholder, true the children, false the redirect to /login |
| SessionGuard.NoTokenNoRequest | frontend/src/components/ProtectedRoute.jsx:53-60 | with no stored token, or an empty one, the state becomes false, with no request and no storage change |
| SessionGuard.UnexpiredTokenNoRequest | frontend/src/components/ProtectedRoute.jsx:41-50 | an unexpired token, or one without `exp`, gives true with no request and no storage change |
| SessionGuard.ExpiredTokenSendsStoredRefresh | frontend/src/components/ProtectedRoute.jsx:28-32 | an expired token posts the stored refresh token exactly once, even when it is null |
| SessionGuard.RefreshedTokensAreStored | frontend/src/components/ProtectedRoute.jsx:14-22 | a 200 reply overwrites both stored tokens with the reply's and gives true |
| SessionGuard.FailedRefreshKeepsTokens | frontend/src/components/ProtectedRoute.jsx:19-39 | a non-200 reply or a throw gives false and leaves both tokens untouched |
| SessionGuard.AtMostOneRequest | frontend/src/components/ProtectedRoute.jsx:28-39 | an activation posts at most one request and keeps the earlier log |
| SessionGuard.AuthenticatedExactly | frontend/src/components/ProtectedRoute.jsx:41-60 | from a fresh mount the state becomes true iff the token decodes and is unexpired, or is refreshed with a 200 |
| SessionGuard.MalformedTokenStaysLoading | frontend/src/components/ProtectedRoute.jsx:10-12 | a token the decoder rejects leaves everything unchanged and the placeholder showing |
| SessionGuard.ActivateIntended | frontend/src/components/ProtectedRoute.jsx:10-12 | with the decoding failure handled as the `catch` intends, no activation stays loading |
| SessionGuard.IntendedActivationAgrees | frontend/src/components/ProtectedRoute.jsx:10-12 | from a fresh mount the corrected activation agrees with the original wherever the original settles |
| SessionGuard.ActivationStableWhenFresh | frontend/src/components/ProtectedRoute.jsx:41-50 | with an unexpired token a second activation changes nothing and sends nothing |
| SessionGuard.LoginThenActivate | frontend/src/components/Form.jsx:19-22 | after a login with an unexpired token, activation gives true with no request |
| SessionGuard.LogoutThenActivate | frontend/src/components/Navbar.jsx:10-13 | after logout, activation redirects to login with no request and both slots empty |
| SessionGuard.Session.Mount | frontend/src/components/ProtectedRoute.jsx:8 | a mounted guard starts at null over the stored tokens, with no request sent |
| SessionGuard.Session.Login | frontend/src/components/Form.jsx:19-22 | login stores both returned tokens; a missing field is stored as "undefined" |
| SessionGuard.Session.Logout | frontend/src/components/Navbar.jsx:10-13 | logout clears both storage slots |
| SessionGuard.Session.RefreshApi | frontend/src/components/ProtectedRoute.jsx:14-26 | posts the token; on 200 stores both tokens and yields true, else false, and nothing on a throw |
| SessionGuard.Session.AttemptToRefreshToken | frontend/src/components/ProtectedRoute.jsx:28-39 | sends the stored refresh token and sets the state from the outcome, a throw counting as false |
| SessionGuard.Session.CheckToken | frontend/src/components/ProtectedRoute.jsx:41-51 | a decode failure changes nothing; an expired token refreshes; otherwise the state becomes true |
| SessionGuard.Session.Authenticate | frontend/src/components/ProtectedRoute.jsx:53-61 | leaves exactly the storage, state and request log of `Activate` |
| FormValidator.EmailCheckIsRegex | frontend/src/utils/FormValidator.ts:5 | the executable e-mail check accepts exactly the strings the regular expression matches |
| FormValidator.ValidateRegisterForm | frontend/src/utils/FormValidator.ts:8-39 | each message is returned iff every earlier check passes and its own fails, in source order; Ok(true) iff all pass |
| FormValidator.ValidateLoginForm | frontend/src/utils/FormValidator.ts:42-46 | throws "Please fill in all fields" iff the username or the password is missing or empty |
| FormValidator.RegisteredCredentialsPassLogin | frontend/src/utils/FormValidator.ts:8-46 | credentials a registration accepts pass the login check and meet the length minimums |
| FormValidator.AddressWithDotInDomainIsValid | frontend/src/utils/FormValidator.ts:5 | "a@b.co" is a valid address |
| FormValidator.AddressWithoutDotIsInvalid | frontend/src/utils/FormValidator.ts:5 | "a@bco" is rejected |
| FormValidator.EmptyLocalPartIsInvalid | frontend/src/utils/FormValidator.ts:5 | "@b.co" is rejected |
| FormValidator.SecondAtIsInvalid | frontend/src/utils/FormValidator.ts:5 | "a@b@c.d" is rejected |
| ShipmentForm.Has | frontend/src/components/shipments/ShipmentForm.jsx:33 | true iff some entry has the id |
| ShipmentForm.AddItem | frontend/src/components/shipments/ShipmentForm.jsx:30-47 | a listed id changes nothing; a new id appends one entry {id, 1, 0} at the end, a missing list counting as empty; other fields unchanged; distinct ids stay distinct |
| ShipmentForm.AddItemIdempotent | frontend/src/components/shipments/ShipmentForm.jsx:33-36 | adding the same id twice is adding it once |
| ShipmentForm.RemoveItem | frontend/src/components/shipments/ShipmentForm.jsx:49-52 | throws iff the list is missing; otherwise keeps exactly the entries with another id, each once and in their original order (the increasing positions `Text.Selected` picks), and the other fields |
| ShipmentForm.RemoveAbsentIsIdentity | frontend/src/components/shipments/ShipmentForm.jsx:49-52 | removing an absent id leaves the draft as it was |
| ShipmentForm.RemoveKeepsIdsDistinct | frontend/src/components/shipments/ShipmentForm.jsx:50 | removal keeps distinct ids distinct |
| ShipmentForm.RemoveUndoesAdd | frontend/src/components/shipments/ShipmentForm.jsx:40-52 | removing a newly added id gives back the original draft |
| ShipmentForm.ChangeQuantity | frontend/src/components/shipments/ShipmentForm.jsx:54-61 | throws iff the list is missing; otherwise only entries with the id take the parsed quantity, and length, order, other entries and other fields are kept |
| ShipmentForm.ChangeQuantityKeepsIds | frontend/src/components/shipments/ShipmentForm.jsx:54-61 | a quantity change keeps every id in place, so distinct ids stay distinct |
| ShipmentForm.ParseIntShowInt | frontend/src/components/shipments/ShipmentForm.jsx:57 | `parseInt` reads back the decimal numeral of every integer |
| ShipmentForm.TrailingTextIgnored | frontend/src/components/shipments/ShipmentForm.jsx:57 | "12abc" reads as 12 |
| ShipmentForm.EmptyIsNaN | frontend/src/components/shipments/ShipmentForm.jsx:57 | an emptied quantity field reads as NaN |
| ShipmentForm.FilteredItems | frontend/src/components/shipments/ShipmentForm.jsx:72-75 | an item is kept iff its name or sku contains the term ignoring case, each once and in the inventory's order (the increasing positions `Text.Selected` picks) |
| ShipmentForm.EmptyTermKeepsAll | frontend/src/components/shipments/ShipmentForm.jsx:72-75 | an empty term keeps every item |
| StatusUtils.GetStatusColor | frontend/src/utils/statusUtils.ts:2-15 | one of the five class strings, and gray exactly for strings that are no status value |
| StatusUtils.StatusColorsDistinct | frontend/src/utils/statusUtils.ts:4-12 | the four statuses get four distinct colours, none of them gray |
| StatusUtils.GetTypeColor | frontend/src/utils/statusUtils.ts:18-22 | green iff the type is "IN", blue otherwise |
| StatusUtils.FormatStatus | frontend/src/utils/statusUtils.ts:25-27 | same length; the identity without '_'; otherwise only the first '_' becomes a space |
| StatusUtils.FormatStatusChangesOnePosition | frontend/src/utils/statusUtils.ts:25-27 | every position except the first underscore keeps its character |
| StatusUtils.FormatInTransit | frontend/src/utils/statusUtils.ts:25-27 | "IN_TRANSIT" is shown as "IN TRANSIT" |
| StatusUtils.FormatSecondUnderscoreKept | frontend/src/utils/statusUtils.ts:25-27 | "A_B_C" is shown as "A B_C" |
| StatusUtils.FormatDate | frontend/src/utils/statusUtils.ts:30-37 | "N/A" for a missing or empty date; otherwise the locale formatting |

## Left out

- The HTTP layer, permissions, authentication classes, routing and the
  serializer's read path are not modelled. Neither are database transactions
  or concurrent requests. Each action is one request over one database state.
- `ShipmentViews.StatusDesk.UpdateStatus`: the lookup of the shipment by
  primary key and the serialized response body are not modelled. The
  response carries the shipment value.
- `ShipmentViews.Deliver`: every line's item is assumed to exist in the
  stock table. The foreign key guarantees it.
- `InventoryViews.InventoryItem`: the non-negative quantities rely on
  `MinValueValidator`. `save()` does not run it. The stock map of
  `ShipmentViews` is therefore plain integers.
- `InventoryViews.FilterItems` and `ShipmentViews.FilterShipments` take the
  table in its default order (by name, and by newest first) as their input
  sequence. The ordering itself is not modelled.
- `Text.IContains`: case folding covers ASCII letters only. Django's
  `icontains` and JavaScript's `toLowerCase` also fold other letters.
- `InventoryLedger.Inventory.UpdateInventory`: the messages the script prints
  are not modelled.
- `ShipmentSerializer.ShipmentRecord.Update`: line 51 calls `delete()` on the
  many-to-many manager of inventory items. The model removes this shipment's
  item rows, which is the evident intent, not the inventory items.
- `ShipmentSerializer.Validate`: field-level validation (choices, formats,
  nested item validation) is not modelled. Unknown and read-only keys are
  dropped. Its contract states which entries survive, not their order; the
  order does not affect the attributes `update` assigns.
- `ShipmentSerializer.Saved` and `ShipmentSerializer.Inserted`: the clock and
  the database's key sequence are parameters (`now`, `pk`). The item rows'
  own keys are not modelled.
- `ShipmentSerializer.SaveData`: DRF's `Serializer.save` is not part of this
  model. `SaveData` states the merge it performs, `{**validated_data,
  **kwargs}`. The requesting user is a parameter, identified by its id.
- `SessionGuard.Activate`: concurrent activations, React's re-rendering and
  the unhandled-rejection log are not modelled. The console output is not
  modelled either. `exp` is taken as an integer number of seconds.
- `FormValidator.IsValidEmail`: regular-expression matching is a predicate
  over the regex structure, not a general regex engine.
- `ShipmentForm.ParseInt`: numbers are unbounded integers. The rounding of
  very long numerals to double precision, and `-0`, are not modelled.
- `handleItemPriceChange` in ShipmentForm.jsx, line totals and the dashboard
  sum are not modelled. They compute in floating point, and the unit price is
  kept as an untouched value.
- `StatusUtils.FormatDate`: the locale formatting of a present date is a
  parameter.
- The React rendering, modals, toasts, charts, HTTP service wrappers,
  populate_db.py, update_deps.py, the user endpoints and the legacy `api/`
  tree are not part of this model.

## Findings

| source | as written | input that shows it | evidently intended | confidence | as-written member | corrected member |
|---|---|---|---|---|---|---|
| frontend/src/components/ProtectedRoute.jsx:57 | `checkToken(token)` is neither awaited nor returned, so a decoder throw never reaches the `.catch` at line 11 | a stored access token `jwtDecode` cannot parse, such as "undefined" | the `catch` sets the state to false and the guard redirects to login | high, not executed | SessionGuard.MalformedTokenStaysLoading | SessionGuard.ActivateIntended |
| backend/api/views/inventory_views.py:54 | `values_list('category', flat=True).distinct()` on a model ordered by name puts `name` into the `SELECT DISTINCT`, so rows are distinct per (category, name) | two items in "Electronics" named "Test Item 1" and "Test Item 3" | each category listed once, as the docstring says | medium, not executed | InventoryViews.CategoryListedTwice | InventoryViews.Categories |
