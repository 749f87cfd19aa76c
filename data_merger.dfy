/** `DataMerger.merge` of `services/merger.py`: the records of one hotel are
    merged into one by starting from the last record and replacing each
    configured field by what that field's merger makes of the batch of
    `(value, source)` pairs of all the records, in input order; the result is
    then re-validated as a `Hotel` with source `"merged"`. */
module DataMerger {
  import opened Wrappers
  import opened Models
  import opened Bias
  import opened Merger

  /** Why `DataMerger.merge` raises `MergerException`: a field's merger
      raised, or the rebuilt record failed `Hotel` validation. */
  datatype MergeError = FieldFailed(field: Attribute) | InvalidHotel

  /** The record being merged.  `setattr` does not validate, so the required
      `name` and `location` may become `None` before the final validation. */
  datatype Draft = Draft(
    hotelId: string,
    destinationId: int,
    name: Option<string>,
    description: Option<string>,
    location: Option<Location>,
    amenities: Option<Amenities>,
    images: Option<HotelImages>,
    bookingConditions: Option<seq<string>>,
    source: string)

  /** The copy of the last record that the merged fields are written into. */
  function DraftOf(h: Hotel): Draft {
    Draft(h.hotelId, h.destinationId, Some(h.name), h.description, Some(h.location),
          h.amenities, h.images, h.bookingConditions, h.source)
  }

  /** The value of each merged field of a record. */
  function NameField(h: Hotel): Option<string> { Some(h.name) }
  function DescriptionField(h: Hotel): Option<string> { h.description }
  function LocationField(h: Hotel): Option<Location> { Some(h.location) }
  function AmenitiesField(h: Hotel): Option<Amenities> { h.amenities }
  function ImagesField(h: Hotel): Option<HotelImages> { h.images }
  function BookingField(h: Hotel): Option<seq<string>> { h.bookingConditions }

  /** The `merge_batch` of one field: one encoded pair per record, in order,
      tagged with the record's source. */
  function FieldBatch<T>(data: seq<Hotel>, f: Hotel -> T): (r: seq<Tagged<T>>)
    ensures |r| == |data|
    ensures forall i :: 0 <= i < |data| ==> Decode(r[i]) == f(data[i]) && r[i].src == data[i].source
  {
    seq(|data|, i requires 0 <= i < |data| => Encode(f(data[i]), data[i].source))
  }

  /** The inner loop that builds `merge_batch`. */
  method CollectBatch<T>(data: seq<Hotel>, f: Hotel -> T) returns (b: seq<Tagged<T>>)
    ensures b == FieldBatch(data, f)
  {
    b := [];
    var i := 0;
    while i < |data|
      invariant 0 <= i <= |data|
      invariant b == FieldBatch(data[..i], f)
    {
      b := b + [Encode(f(data[i]), data[i].source)];
      i := i + 1;
    }
    assert data[..|data|] == data;
  }

  /** Whether the merger configured for `a` raises on the records. */
  predicate FieldFails(t: Table, a: Attribute, data: seq<Hotel>) {
    match a
    case NameAttr => ScalarMerge(t, FieldBatch(data, NameField)).Err?
    case DescriptionAttr => ScalarMerge(t, FieldBatch(data, DescriptionField)).Err?
    case ImagesAttr => ImagesMerge(FieldBatch(data, ImagesField)).Err?
    case _ => false
  }

  /** One iteration of the loop over the configured mergers: the field is
      set to what its merger returns for the field's batch. */
  function ApplyMerger(t: Table, a: Attribute, data: seq<Hotel>, d: Draft): Result<Draft, MergeError> {
    match a
    case NameAttr =>
      (match ScalarMerge(t, FieldBatch(data, NameField))
       case Err(_) => Err(FieldFailed(a))
       case Ok(v) => Ok(d.(name := v)))
    case DescriptionAttr =>
      (match ScalarMerge(t, FieldBatch(data, DescriptionField))
       case Err(_) => Err(FieldFailed(a))
       case Ok(v) => Ok(d.(description := v)))
    case LocationAttr => Ok(d.(location := LocationMerge(FieldBatch(data, LocationField))))
    case AmenitiesAttr => Ok(d.(amenities := AmenitiesMerge(FieldBatch(data, AmenitiesField))))
    case ImagesAttr =>
      (match ImagesMerge(FieldBatch(data, ImagesField))
       case Err(_) => Err(FieldFailed(a))
       case Ok(v) => Ok(d.(images := v)))
    case BookingConditionsAttr =>
      Ok(d.(bookingConditions := BookingConditionsMerge(FieldBatch(data, BookingField))))
  }

  /** The draft after the first `|ms|` configured mergers; the first failure
      ends the loop. */
  function ApplyMergers(t: Table, ms: seq<Attribute>, data: seq<Hotel>, d0: Draft): Result<Draft, MergeError>
    decreases |ms|
  {
    if ms == [] then Ok(d0)
    else
      match ApplyMergers(t, ms[..|ms| - 1], data, d0)
      case Err(e) => Err(e)
      case Ok(d) => ApplyMerger(t, ms[|ms| - 1], data, d)
  }

  /** The source becomes `"merged"` and the draft is rebuilt as a `Hotel`,
      which raises exactly when the name or the location is missing, keeps the
      id and destination, and re-validates the location. */
  function Finalize(d: Draft): (r: Result<Hotel, MergeError>)
    ensures r.Err? <==> d.name.None? || d.location.None?
    ensures r.Err? ==> r.error == InvalidHotel
    ensures r.Ok? ==> && r.value.hotelId == d.hotelId && r.value.destinationId == d.destinationId
                      && r.value.source == "merged" && WellFormedLocation(r.value.location)
  {
    if d.name.None? || d.location.None? then Err(InvalidHotel)
    else Ok(Hotel(d.hotelId, d.destinationId, d.name.value, d.description, Revalidate(d.location.value),
                  d.amenities, d.images, d.bookingConditions, "merged"))
  }

  /** What `DataMerger.merge` returns for the mergers `ms` (the keys of the
      `mergers` dictionary, in order): `None` for no records, and otherwise,
      unless a merger or the final validation raises, one record whose source
      is `"merged"` and whose location is well formed. */
  function MergeSpec(t: Table, ms: seq<Attribute>, data: seq<Hotel>): (r: Result<Option<Hotel>, MergeError>)
    ensures data == [] ==> r == Ok(None)
    ensures data != [] && r.Ok? ==> r.value.Some? && r.value.value.source == "merged" && WellFormedLocation(r.value.value.location)
  {
    if data == [] then Ok(None)
    else
      match ApplyMergers(t, ms, data, DraftOf(data[|data| - 1]))
      case Err(e) => Err(e)
      case Ok(d) =>
        match Finalize(d)
        case Err(e) => Err(e)
        case Ok(h) => Ok(Some(h))
  }

  /** The merger configured for one field, on the records. */
  method MergeField(t: Table, a: Attribute, data: seq<Hotel>, d: Draft) returns (r: Result<Draft, MergeError>)
    ensures r == ApplyMerger(t, a, data, d)
  {
    match a
    case NameAttr =>
      var batch := CollectBatch(data, NameField);
      var v := MergeScalar(t, batch);
      if v.Err? {
        return Err(FieldFailed(a));
      }
      r := Ok(d.(name := v.value));
    case DescriptionAttr =>
      var batch := CollectBatch(data, DescriptionField);
      var v := MergeScalar(t, batch);
      if v.Err? {
        return Err(FieldFailed(a));
      }
      r := Ok(d.(description := v.value));
    case LocationAttr =>
      var batch := CollectBatch(data, LocationField);
      var v := MergeLocation(batch);
      r := Ok(d.(location := v));
    case AmenitiesAttr =>
      var batch := CollectBatch(data, AmenitiesField);
      var v := MergeAmenities(batch);
      r := Ok(d.(amenities := v));
    case ImagesAttr =>
      var batch := CollectBatch(data, ImagesField);
      var v := MergeImages(batch);
      if v.Err? {
        return Err(FieldFailed(a));
      }
      r := Ok(d.(images := v.value));
    case BookingConditionsAttr =>
      var batch := CollectBatch(data, BookingField);
      var v := MergeBookingConditions(batch);
      r := Ok(d.(bookingConditions := v));
  }

  /** `DataMerger.merge`. */
  method Merge(t: Table, ms: seq<Attribute>, data: seq<Hotel>) returns (r: Result<Option<Hotel>, MergeError>)
    ensures r == MergeSpec(t, ms, data)
  {
    if |data| == 0 {
      return Ok(None);
    }
    var d0 := DraftOf(data[|data| - 1]);
    var d := d0;
    var i := 0;
    while i < |ms|
      invariant 0 <= i <= |ms|
      invariant ApplyMergers(t, ms[..i], data, d0) == Ok(d)
    {
      assert ms[..i + 1][..i] == ms[..i];
      var next := MergeField(t, ms[i], data, d);
      if next.Err? {
        MergersFail(t, ms, data, d0, i + 1);
        return Err(next.error);
      }
      d := next.value;
      i := i + 1;
    }
    assert ms[..|ms|] == ms;
    var h := Finalize(d);
    if h.Err? {
      return Err(h.error);
    }
    r := Ok(Some(h.value));
  }

  // ---------------------------------------------------------------------
  // Properties

  /** Once a merger has raised, the loop's outcome is that failure. */
  lemma {:induction false} MergersFail(t: Table, ms: seq<Attribute>, data: seq<Hotel>, d0: Draft, i: nat)
    requires i <= |ms| && ApplyMergers(t, ms[..i], data, d0).Err?
    ensures ApplyMergers(t, ms, data, d0) == ApplyMergers(t, ms[..i], data, d0)
    decreases |ms| - i
  {
    if i < |ms| {
      assert ms[..i + 1][..i] == ms[..i];
      MergersFail(t, ms, data, d0, i + 1);
    } else {
      assert ms[..i] == ms;
    }
  }

  /** The loop over the mergers fails exactly when some configured merger
      raises, and then with the first one. */
  lemma {:induction false} ApplyMergersFailure(t: Table, ms: seq<Attribute>, data: seq<Hotel>, d0: Draft)
    ensures ApplyMergers(t, ms, data, d0).Err? <==> exists i :: 0 <= i < |ms| && FieldFails(t, ms[i], data)
    ensures ApplyMergers(t, ms, data, d0).Err? ==>
      exists i :: 0 <= i < |ms| && FieldFails(t, ms[i], data)
        && ApplyMergers(t, ms, data, d0).error == FieldFailed(ms[i])
        && forall j :: 0 <= j < i ==> !FieldFails(t, ms[j], data)
    decreases |ms|
  {
    if ms != [] {
      var n := |ms| - 1;
      var init := ms[..n];
      ApplyMergersFailure(t, init, data, d0);
      match ApplyMergers(t, init, data, d0)
      case Err(e) =>
        var i :| 0 <= i < n && FieldFails(t, init[i], data) && e == FieldFailed(init[i])
          && forall j :: 0 <= j < i ==> !FieldFails(t, init[j], data);
        assert ApplyMergers(t, ms, data, d0) == Err(e);
        forall j | 0 <= j < i ensures !FieldFails(t, ms[j], data) {
          assert ms[j] == init[j];
        }
        assert ms[i] == init[i];
      case Ok(d) =>
        assert ApplyMergers(t, ms, data, d0) == ApplyMerger(t, ms[n], data, d);
        forall j | 0 <= j < n ensures !FieldFails(t, ms[j], data) {
          assert ms[j] == init[j];
        }
        StepFailure(t, ms[n], data, d);
    }
  }

  lemma StepFailure(t: Table, a: Attribute, data: seq<Hotel>, d: Draft)
    ensures ApplyMerger(t, a, data, d).Err? <==> FieldFails(t, a, data)
    ensures ApplyMerger(t, a, data, d).Err? ==> ApplyMerger(t, a, data, d).error == FieldFailed(a)
  {
  }

  /** When the loop over the mergers succeeds, each configured field holds
      its merger's result, every other field keeps its starting value, and
      the id, destination and source are untouched. */
  lemma {:induction false} ApplyMergersFields(t: Table, ms: seq<Attribute>, data: seq<Hotel>, d0: Draft)
    ensures ApplyMergers(t, ms, data, d0).Ok? ==> Configured(t, ms, data, d0, ApplyMergers(t, ms, data, d0).value)
    decreases |ms|
  {
    if ms != [] {
      var n := |ms| - 1;
      var init := ms[..n];
      ApplyMergersFields(t, init, data, d0);
      assert ms == init + [ms[n]];
      if ApplyMergers(t, init, data, d0).Ok? {
        StepFields(t, init, ms[n], data, d0, ApplyMergers(t, init, data, d0).value);
      }
    }
  }

  lemma StepFields(t: Table, ms: seq<Attribute>, a: Attribute, data: seq<Hotel>, d0: Draft, d: Draft)
    requires Configured(t, ms, data, d0, d)
    ensures ApplyMerger(t, a, data, d).Ok? ==> Configured(t, ms + [a], data, d0, ApplyMerger(t, a, data, d).value)
  {
    assert forall x :: x in ms + [a] <==> x in ms || x == a;
  }

  /** `d` is `d0` with exactly the fields named in `ms` replaced by their
      mergers' results. */
  ghost predicate Configured(t: Table, ms: seq<Attribute>, data: seq<Hotel>, d0: Draft, d: Draft) {
    && d.hotelId == d0.hotelId && d.destinationId == d0.destinationId && d.source == d0.source
    && (if NameAttr in ms then ScalarMerge(t, FieldBatch(data, NameField)) == Ok(d.name) else d.name == d0.name)
    && (if DescriptionAttr in ms then ScalarMerge(t, FieldBatch(data, DescriptionField)) == Ok(d.description)
        else d.description == d0.description)
    && d.location == (if LocationAttr in ms then LocationMerge(FieldBatch(data, LocationField)) else d0.location)
    && d.amenities == (if AmenitiesAttr in ms then AmenitiesMerge(FieldBatch(data, AmenitiesField)) else d0.amenities)
    && (if ImagesAttr in ms then ImagesMerge(FieldBatch(data, ImagesField)) == Ok(d.images) else d.images == d0.images)
    && d.bookingConditions ==
         (if BookingConditionsAttr in ms then BookingConditionsMerge(FieldBatch(data, BookingField))
          else d0.bookingConditions)
  }

  /** Every attribute merger, and `DataMerger.merge`, returns `None` on an
      empty batch. */
  lemma EmptyBatches(t: Table, ms: seq<Attribute>)
    ensures ScalarMerge(t, []) == Ok(None)
    ensures LocationMerge([]) == None
    ensures AmenitiesMerge([]) == None
    ensures ImagesMerge([]) == Ok(None)
    ensures BookingConditionsMerge([]) == None
    ensures MergeSpec(t, ms, []) == Ok(None)
  {
  }

  /** Every record has a name, so the name merger never raises and always
      returns a name. */
  lemma NameNeverFails(t: Table, data: seq<Hotel>)
    requires data != []
    ensures ScalarMerge(t, FieldBatch(data, NameField)).Ok?
    ensures ScalarMerge(t, FieldBatch(data, NameField)).value.Some?
  {
    ScalarMergePresent(t, FieldBatch(data, NameField));
  }

  /** What the merged record holds: the id and destination of the last
      record, source `"merged"`, a well-formed location, each configured
      field as its merger makes it from the records in input order, and every
      other field as the last record has it (its location re-validated). */
  ghost predicate MergedRecord(t: Table, ms: seq<Attribute>, data: seq<Hotel>, h: Hotel)
    requires data != []
  {
    var last := data[|data| - 1];
    && h.hotelId == last.hotelId && h.destinationId == last.destinationId
    && h.source == "merged" && WellFormedLocation(h.location)
    && (if NameAttr in ms then ScalarMerge(t, FieldBatch(data, NameField)) == Ok(Some(h.name)) else h.name == last.name)
    && (if DescriptionAttr in ms then ScalarMerge(t, FieldBatch(data, DescriptionField)) == Ok(h.description)
        else h.description == last.description)
    && (if LocationAttr in ms then LocationMerge(FieldBatch(data, LocationField)) == Some(h.location)
        else h.location == Revalidate(last.location))
    && h.amenities == (if AmenitiesAttr in ms then AmenitiesMerge(FieldBatch(data, AmenitiesField)) else last.amenities)
    && (if ImagesAttr in ms then ImagesMerge(FieldBatch(data, ImagesField)) == Ok(h.images) else h.images == last.images)
    && h.bookingConditions ==
         (if BookingConditionsAttr in ms then BookingConditionsMerge(FieldBatch(data, BookingField))
          else last.bookingConditions)
  }

  /** `DataMerger.merge` on a non-empty group: it raises exactly when some
      configured merger raises, naming the first such field (so the final
      validation never fails), and otherwise returns the merged record. */
  lemma MergeSpecResult(t: Table, ms: seq<Attribute>, data: seq<Hotel>)
    requires data != []
    ensures MergeSpec(t, ms, data).Err? <==> exists i :: 0 <= i < |ms| && FieldFails(t, ms[i], data)
    ensures MergeSpec(t, ms, data).Err? ==>
      exists i :: 0 <= i < |ms| && FieldFails(t, ms[i], data)
        && MergeSpec(t, ms, data).error == FieldFailed(ms[i])
        && forall j :: 0 <= j < i ==> !FieldFails(t, ms[j], data)
    ensures MergeSpec(t, ms, data).Ok? ==>
      MergeSpec(t, ms, data).value.Some? && MergedRecord(t, ms, data, MergeSpec(t, ms, data).value.value)
  {
    var d0 := DraftOf(data[|data| - 1]);
    ApplyMergersFailure(t, ms, data, d0);
    if ApplyMergers(t, ms, data, d0).Ok? {
      ApplyMergersFields(t, ms, data, d0);
      FinalizeMerged(t, ms, data, ApplyMergers(t, ms, data, d0).value);
    }
  }

  /** A draft holding the configured merges always passes the final
      validation, and the record it gives is the merged record. */
  lemma FinalizeMerged(t: Table, ms: seq<Attribute>, data: seq<Hotel>, d: Draft)
    requires data != [] && Configured(t, ms, data, DraftOf(data[|data| - 1]), d)
    ensures Finalize(d).Ok? && MergedRecord(t, ms, data, Finalize(d).value)
  {
    NameNeverFails(t, data);
    assert d.name.Some? && d.location.Some?;
    if LocationAttr in ms {
      var l := LocationMerge(FieldBatch(data, LocationField)).value;
      assert Revalidate(l) == l;
    }
  }

  /** When every record has a description, the name and description mergers
      cannot raise, so only the images merger can. */
  lemma OnlyImagesFail(t: Table, a: Attribute, data: seq<Hotel>)
    requires forall i :: 0 <= i < |data| ==> data[i].description.Some?
    ensures FieldFails(t, a, data) ==> a == ImagesAttr
  {
    if data != [] {
      NameNeverFails(t, data);
      ScalarMergePresent(t, FieldBatch(data, DescriptionField));
    }
  }
}
