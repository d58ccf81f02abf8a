/** The nested shipment serializer of the backend
    (backend/api/serializers/shipment_serializer.py): `create` builds a shipment
    and its item rows from validated data, `update` overwrites the fields it is
    given and replaces the item rows only when an `items` key is present.

    A shipment's scalar attributes are a map from field name to value, as
    `setattr` sees them; its item rows are the `ShipmentItem`s whose `shipment`
    foreign key points at it, in creation order. */
module ShipmentSerializer {
  import opened Wrappers
  import Text

  /** A scalar field value: a string (type, status, tracking number, carrier),
      a timestamp (the arrival dates and the row's own timestamps), a
      reference to a user (the audit fields the view supplies), the row's
      primary key, or null. */
  datatype Value = Str(s: string) | Time(t: int) | User(id: int) | Key(pk: int) | Null

  /** The data of one nested `ShipmentItem`: inventory item id, quantity and
      unit price in cents. */
  datatype ItemData = ItemData(item: int, quantity: int, unitPriceCents: int)

  /** An entry of `validated_data`: a scalar field, or the nested `items` list. */
  datatype Entry = Scalar(value: Value) | Nested(items: seq<ItemData>)

  /** The fields the serializer accepts from a client. */
  const WritableFields: set<string> := {"type", "status", "tracking_number", "carrier", "estimated_arrival", "actual_arrival"}

  /** `id` and the `read_only_fields`: never taken from client input. */
  const ReadOnlyFields: set<string> := {"id", "created_at", "updated_at", "created_by", "updated_by"}

  /** `validated_data` as `create` and `update` receive it: a dictionary (no
      key twice) whose `items` entry, if any, is the nested list with no
      inventory item twice (`unique_together` on shipment and item), and
      whose other entries are scalars. */
  predicate WellFormed(data: seq<(string, Entry)>)
  {
    && Text.DistinctKeys(data)
    && (forall j :: 0 <= j < |data| ==>
          if data[j].0 == "items" then data[j].1.Nested? && DistinctItems(data[j].1.items)
          else data[j].1.Scalar?)
  }

  predicate DistinctItems(items: seq<ItemData>)
  {
    forall i, j :: 0 <= i < j < |items| ==> items[i].item != items[j].item
  }

  /** The fields validation lets through. */
  predicate Accepted(e: (string, Entry))
  {
    e.0 in WritableFields || e.0 == "items"
  }

  /** DRF validation of a request body: read-only and unknown fields are
      dropped, the writable ones and `items` keep their order. */
  function Validate(input: seq<(string, Entry)>): (r: seq<(string, Entry)>)
    ensures forall j :: 0 <= j < |r| ==> (r[j].0 in WritableFields || r[j].0 == "items") && r[j] in input
    ensures forall j :: 0 <= j < |input| && (input[j].0 in WritableFields || input[j].0 == "items") ==> input[j] in r
  {
    Text.Filter(input, Accepted)
  }

  /** The value stored under key `k`, if any. */
  function Find<V>(entries: seq<(string, V)>, k: string): (r: Option<V>)
    ensures r.None? <==> forall j :: 0 <= j < |entries| ==> entries[j].0 != k
    ensures r.Some? ==> (k, r.value) in entries
    ensures Text.DistinctKeys(entries) ==> forall j :: 0 <= j < |entries| && entries[j].0 == k ==> r == Some(entries[j].1)
    decreases |entries|
  {
    if entries == [] then None
    else if entries[0].0 == k then Some(entries[0].1)
    else
      assert forall j :: 0 <= j < |entries[1..]| ==> entries[1..][j] == entries[j + 1];
      Find(entries[1..], k)
  }

  /** The keyword arguments of `save` that `validated_data` does not have. */
  function NewKey(validated: seq<(string, Entry)>): ((string, Entry)) -> bool
  {
    (e: (string, Entry)) => Find(validated, e.0).None?
  }

  /** `serializer.save(**kwargs)`: DRF merges the keyword arguments into
      `validated_data` as `{**validated_data, **kwargs}` does, so a keyword
      overrides the value of a key already present, in that key's place, and
      new keys follow in their own order. */
  function SaveData(validated: seq<(string, Entry)>, kwargs: seq<(string, Entry)>): (r: seq<(string, Entry)>)
    requires WellFormed(validated) && WellFormed(kwargs)
    ensures WellFormed(r)
    ensures forall k, e :: (k, e) in r <==> (k, e) in kwargs || ((k, e) in validated && Find(kwargs, k).None?)
    ensures |validated| <= |r| && forall j :: 0 <= j < |validated| ==> r[j].0 == validated[j].0
  {
    var kept := seq(|validated|, j requires 0 <= j < |validated| =>
      var e := Find(kwargs, validated[j].0); if e.Some? then (validated[j].0, e.value) else validated[j]);
    var added := Text.Filter(kwargs, NewKey(validated));
    Text.FilterKeepsDistinctKeys(kwargs, NewKey(validated));
    MergeProperties(validated, kwargs, kept, added);
    kept + added
  }

  lemma {:induction false} MergeProperties(validated: seq<(string, Entry)>, kwargs: seq<(string, Entry)>,
                        kept: seq<(string, Entry)>, added: seq<(string, Entry)>)
    requires WellFormed(validated) && WellFormed(kwargs) && Text.DistinctKeys(added)
    requires |kept| == |validated|
    requires forall j :: 0 <= j < |validated| ==>
      kept[j] == (var e := Find(kwargs, validated[j].0); if e.Some? then (validated[j].0, e.value) else validated[j])
    requires forall i :: 0 <= i < |added| ==> Find(validated, added[i].0).None? && added[i] in kwargs
    requires forall i :: 0 <= i < |kwargs| && Find(validated, kwargs[i].0).None? ==> kwargs[i] in added
    ensures WellFormed(kept + added)
    ensures forall k, e :: (k, e) in kept + added <==> (k, e) in kwargs || ((k, e) in validated && Find(kwargs, k).None?)
  {
    var r := kept + added;
    forall k, e | (k, e) in r ensures (k, e) in kwargs || ((k, e) in validated && Find(kwargs, k).None?) {
      var j :| 0 <= j < |r| && r[j] == (k, e);
      if j >= |kept| {
        assert r[j] == added[j - |kept|];
      }
    }
    forall k, e | (k, e) in kwargs || ((k, e) in validated && Find(kwargs, k).None?) ensures (k, e) in r {
      if (k, e) in kwargs {
        var i :| 0 <= i < |kwargs| && kwargs[i] == (k, e);
        var v := Find(validated, k);
        if v.Some? {
          var j :| 0 <= j < |validated| && validated[j] == (k, v.value);
          assert r[j] == kept[j];
        } else {
          assert (k, e) in added;
        }
      } else {
        var j :| 0 <= j < |validated| && validated[j] == (k, e);
        assert r[j] == kept[j];
      }
    }
    forall i, j | 0 <= i < j < |r| ensures r[i].0 != r[j].0 {
      if j < |kept| {
        assert r[i] == kept[i] && r[j] == kept[j];
      } else if i < |kept| {
        assert r[i] == kept[i] && r[j] == added[j - |kept|];
      } else {
        assert r[i] == added[i - |kept|] && r[j] == added[j - |kept|];
      }
    }
    forall j | 0 <= j < |r| ensures if r[j].0 == "items" then r[j].1.Nested? && DistinctItems(r[j].1.items) else r[j].1.Scalar? {
      assert r[j] in kwargs || r[j] in validated;
    }
  }

  /** `validated_data.pop('items', ...)`: the scalar fields that remain, in
      order, and the nested list when the key was present. */
  function PopItems(data: seq<(string, Entry)>): (r: (seq<(string, Value)>, Option<seq<ItemData>>))
    requires WellFormed(data)
    ensures forall j :: 0 <= j < |r.0| ==> r.0[j].0 != "items"
    ensures forall k, v :: (k, v) in r.0 <==> (k, Scalar(v)) in data
    ensures Text.DistinctKeys(r.0)
    ensures r.1.Some? <==> exists j :: 0 <= j < |data| && data[j].0 == "items"
    ensures forall j :: 0 <= j < |data| && data[j].0 == "items" ==> r.1 == Some(data[j].1.items)
    decreases |data|
  {
    if data == [] then ([], None)
    else
      assert WellFormed(data[1..]) by {
        assert forall j :: 0 <= j < |data[1..]| ==> data[1..][j] == data[j + 1];
      }
      var rest := PopItems(data[1..]);
      assert forall k, v :: (k, Scalar(v)) in data[1..] ==> k != data[0].0;
      if data[0].0 == "items" then
        (rest.0, Some(data[0].1.items))
      else
        ([(data[0].0, data[0].1.value)] + rest.0, rest.1)
  }

  /** The attributes that `setattr` over `fields` assigns, as a map; fields
      are assigned in order, so the recursion peels off the last one. */
  function Assigned(fields: seq<(string, Value)>): (m: map<string, Value>)
    requires Text.DistinctKeys(fields)
    ensures forall k :: k in m <==> exists j :: 0 <= j < |fields| && fields[j].0 == k
    ensures forall j :: 0 <= j < |fields| ==> fields[j].0 in m && m[fields[j].0] == fields[j].1
    decreases |fields|
  {
    if fields == [] then map[]
    else
      var n := |fields| - 1;
      var rest := Assigned(fields[..n]);
      assert forall j :: 0 <= j < n ==> fields[j] == fields[..n][j];
      rest[fields[n].0 := fields[n].1]
  }

  /** Assigning one more field extends the map by that field. */
  lemma {:induction false} AssignStep(base: map<string, Value>, fields: seq<(string, Value)>, i: nat)
    requires Text.DistinctKeys(fields) && i < |fields|
    ensures Text.DistinctKeys(fields[..i]) && Text.DistinctKeys(fields[..i + 1])
    ensures (base + Assigned(fields[..i]))[fields[i].0 := fields[i].1] == base + Assigned(fields[..i + 1])
  {
    assert fields[..i + 1][..i] == fields[..i];
  }

  /** What `update` leaves in the attributes: a supplied field takes its new
      value, an absent one keeps its old value, and no other field appears. */
  lemma {:induction false} UpdatedAttributes(attrs: map<string, Value>, data: seq<(string, Entry)>, k: string)
    requires WellFormed(data)
    ensures var updated := attrs + Assigned(PopItems(data).0);
      && (forall v :: (k, Scalar(v)) in data ==> k in updated && updated[k] == v)
      && ((forall j :: 0 <= j < |data| ==> data[j].0 != k) ==>
            (k in updated <==> k in attrs) && (k in attrs ==> updated[k] == attrs[k]))
  {
    var fields := PopItems(data).0;
    forall v | (k, Scalar(v)) in data ensures k in Assigned(fields) && Assigned(fields)[k] == v {
      assert (k, v) in fields;
      var j :| 0 <= j < |fields| && fields[j] == (k, v);
    }
  }

  /** No read-only field is writable, and none is called `items`. */
  lemma ReadOnlyNotWritable(f: string)
    requires f in ReadOnlyFields
    ensures f !in WritableFields && f != "items"
  {
  }

  /** Validation keeps no key outside the writable fields and `items`. */
  lemma {:induction false} ValidatedKeys(input: seq<(string, Entry)>, f: string)
    requires f !in WritableFields && f != "items"
    ensures forall j :: 0 <= j < |Validate(input)| ==> Validate(input)[j].0 != f
  {
  }

  /** Read-only fields are never overwritten from client input: validation
      drops them before `update` sees the data. */
  lemma {:induction false} ReadOnlyFieldsKept(attrs: map<string, Value>, input: seq<(string, Entry)>, f: string)
    requires WellFormed(Validate(input)) && f in ReadOnlyFields
    ensures var updated := attrs + Assigned(PopItems(Validate(input)).0);
      (f in updated <==> f in attrs) && (f in attrs ==> updated[f] == attrs[f])
  {
    ReadOnlyNotWritable(f);
    ValidatedKeys(input, f);
    UpdatedAttributes(attrs, Validate(input), f);
  }

  /** The keyword arguments `perform_create` passes to `save`: the requesting
      user as creator and as editor. */
  function CreateKwargs(user: int): (r: seq<(string, Entry)>)
    ensures WellFormed(r)
    ensures ("created_by", Scalar(User(user))) in r && ("updated_by", Scalar(User(user))) in r
    ensures forall j :: 0 <= j < |r| ==> r[j].0 == "created_by" || r[j].0 == "updated_by"
  {
    [("created_by", Scalar(User(user))), ("updated_by", Scalar(User(user)))]
  }

  /** The keyword argument `perform_update` passes to `save`: the requesting
      user as editor. */
  function UpdateKwargs(user: int): (r: seq<(string, Entry)>)
    ensures WellFormed(r)
    ensures ("updated_by", Scalar(User(user))) in r
    ensures forall j :: 0 <= j < |r| ==> r[j].0 == "updated_by"
  {
    [("updated_by", Scalar(User(user)))]
  }

  /** A key the save data holds comes from the keyword arguments or from
      validation. */
  lemma {:induction false} SaveDataKeys(input: seq<(string, Entry)>, kwargs: seq<(string, Entry)>, f: string)
    requires WellFormed(Validate(input)) && WellFormed(kwargs)
    requires f !in WritableFields && f != "items"
    requires forall j :: 0 <= j < |kwargs| ==> kwargs[j].0 != f
    ensures forall j :: 0 <= j < |SaveData(Validate(input), kwargs)| ==> SaveData(Validate(input), kwargs)[j].0 != f
  {
    ValidatedKeys(input, f);
    var data := SaveData(Validate(input), kwargs);
    forall j | 0 <= j < |data| ensures data[j].0 != f {
      var (k, e) := data[j];
      assert (k, e) in data;
      assert (k, e) in kwargs || (k, e) in Validate(input);
    }
  }

  /** `save()` on an existing row: `auto_now=True` on `updated_at` stamps it
      with the current time; every other attribute is written as it is. */
  function Saved(attrs: map<string, Value>, now: int): (r: map<string, Value>)
    ensures r.Keys == attrs.Keys + {"updated_at"}
    ensures r["updated_at"] == Time(now)
    ensures forall k :: k in attrs && k != "updated_at" ==> r[k] == attrs[k]
  {
    attrs["updated_at" := Time(now)]
  }

  /** `Shipment.objects.create(...)`: the database assigns the primary key
      unless one is given, `auto_now_add=True` stamps `created_at` and
      `auto_now=True` stamps `updated_at`, whatever the data held. */
  function Inserted(attrs: map<string, Value>, pk: int, now: int): (r: map<string, Value>)
    ensures r.Keys == attrs.Keys + {"id", "created_at", "updated_at"}
    ensures r["id"] == (if "id" in attrs then attrs["id"] else Key(pk))
    ensures r["created_at"] == Time(now) && r["updated_at"] == Time(now)
    ensures forall k :: k in attrs && k != "id" && k != "created_at" && k != "updated_at" ==> r[k] == attrs[k]
  {
    var id := if "id" in attrs then attrs["id"] else Key(pk);
    attrs["id" := id]["created_at" := Time(now)]["updated_at" := Time(now)]
  }

  /** `perform_update`: whatever the client sent, the editor becomes the
      requesting user, `save()` stamps `updated_at` with the current time,
      and every other read-only field keeps its value. */
  lemma {:induction false} UpdateStampsEditor(attrs: map<string, Value>, input: seq<(string, Entry)>, user: int, now: int, f: string)
    requires WellFormed(Validate(input))
    ensures var updated := Saved(attrs + Assigned(PopItems(SaveData(Validate(input), UpdateKwargs(user))).0), now);
      && "updated_by" in updated && updated["updated_by"] == User(user)
      && "updated_at" in updated && updated["updated_at"] == Time(now)
      && (f in ReadOnlyFields && f != "updated_by" && f != "updated_at" ==>
            (f in updated <==> f in attrs) && (f in attrs ==> updated[f] == attrs[f]))
  {
    var data := SaveData(Validate(input), UpdateKwargs(user));
    UpdatedAttributes(attrs, data, "updated_by");
    if f in ReadOnlyFields && f != "updated_by" && f != "updated_at" {
      ReadOnlyNotWritable(f);
      SaveDataKeys(input, UpdateKwargs(user), f);
      UpdatedAttributes(attrs, data, f);
    }
  }

  /** `perform_create`: creator and editor are both the requesting user, both
      timestamps are the current time, and the primary key is the one the
      database assigns; none of them comes from the request. */
  lemma {:induction false} CreateStampsCreator(input: seq<(string, Entry)>, user: int, pk: int, now: int)
    requires WellFormed(Validate(input))
    ensures var created := Inserted(Assigned(PopItems(SaveData(Validate(input), CreateKwargs(user))).0), pk, now);
      && "created_by" in created && created["created_by"] == User(user)
      && "updated_by" in created && created["updated_by"] == User(user)
      && created["created_at"] == Time(now) && created["updated_at"] == Time(now)
      && created["id"] == Key(pk)
  {
    var data := SaveData(Validate(input), CreateKwargs(user));
    var setattrs := Assigned(PopItems(data).0);
    var none: map<string, Value> := map[];
    assert none + setattrs == setattrs;
    assert "created_by" in setattrs && setattrs["created_by"] == User(user) by {
      UpdatedAttributes(none, data, "created_by");
    }
    assert "updated_by" in setattrs && setattrs["updated_by"] == User(user) by {
      UpdatedAttributes(none, data, "updated_by");
    }
    assert "id" !in setattrs by {
      ReadOnlyNotWritable("id");
      SaveDataKeys(input, CreateKwargs(user), "id");
      UpdatedAttributes(none, data, "id");
    }
  }

  /** A shipment row and the item rows that point at it. */
  class ShipmentRecord {
    var attrs: map<string, Value>
    var items: seq<ItemData>

    /** `create`: pops `items` (none when absent), creates the shipment from the
        remaining fields only, then one item row per supplied item, in order.
        `pk` is the key the database would assign and `now` the current time. */
    constructor Create(data: seq<(string, Entry)>, pk: int, now: int)
      requires WellFormed(data)
      ensures attrs == Inserted(Assigned(PopItems(data).0), pk, now)
      ensures items == (if PopItems(data).1.Some? then PopItems(data).1.value else [])
    {
      var (fields, supplied) := PopItems(data);
      var itemsData := if supplied.Some? then supplied.value else [];
      attrs := Inserted(Assigned(fields), pk, now);
      items := [];
      new;
      for i := 0 to |itemsData|
        invariant attrs == Inserted(Assigned(fields), pk, now)
        invariant items == itemsData[..i]
      {
        items := items + [itemsData[i]];
      }
    }

    /** `update`: assigns every supplied field in turn and saves; when the
        `items` key is present, even with an empty list, deletes this
        shipment's item rows and creates the supplied ones in order.
        The source's line 51 calls `delete()` on `instance.items`, the
        many-to-many manager of inventory items; the intended effect, removing
        this shipment's item rows, is what is modelled. `now` is the time
        at which `save()` runs. */
    method Update(data: seq<(string, Entry)>, now: int)
      requires WellFormed(data)
      modifies this
      ensures attrs == Saved(old(attrs) + Assigned(PopItems(data).0), now)
      ensures items == (if PopItems(data).1.Some? then PopItems(data).1.value else old(items))
    {
      var popped := PopItems(data);
      AssignAll(popped.0);
      attrs := attrs["updated_at" := Time(now)];
      if popped.1.Some? {
        ReplaceItems(popped.1.value);
      }
    }

    /** The `setattr` loop of `update`: each field in turn. */
    method AssignAll(fields: seq<(string, Value)>)
      requires Text.DistinctKeys(fields)
      modifies this
      ensures attrs == old(attrs) + Assigned(fields)
      ensures items == old(items)
    {
      assert fields[..0] == [];
      for i := 0 to |fields|
        invariant Text.DistinctKeys(fields[..i])
        invariant items == old(items)
        invariant attrs == old(attrs) + Assigned(fields[..i])
      {
        AssignStep(old(attrs), fields, i);
        attrs := attrs[fields[i].0 := fields[i].1];
      }
      assert fields[..|fields|] == fields;
    }

    /** Deleting this shipment's item rows, then creating the supplied ones
        in order. */
    method ReplaceItems(supplied: seq<ItemData>)
      modifies this
      ensures attrs == old(attrs)
      ensures items == supplied
    {
      items := [];
      for i := 0 to |supplied|
        invariant attrs == old(attrs)
        invariant items == supplied[..i]
      {
        items := items + [supplied[i]];
      }
    }
  }
}
