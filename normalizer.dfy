/** Attribute normalisation of `services/normalizer.py`: one normaliser per
    hotel attribute, built on the text cleaner, and `DataNormalizer.normalize`,
    which applies the configured normalisers to every record in place. */
module Normalizer {
  import opened Wrappers
  import opened Models
  import opened Cleaner

  /** `NameNormalizer.normalize`: a falsy name is returned as it is, any other
      name is cleaned; either way the result has the shape of cleaned text. */
  function NormalizeName(name: string): (r: string)
    ensures name == "" ==> r == ""
    ensures name != "" ==> r == CleanText(Some(name))
    ensures Tidy(r)
  {
    if name == "" then name else CleanText(Some(name))
  }

  /** `DescriptionNormalizer.normalize`: `clean_text` unconditionally, so a
      normalised description is always present, is `""` for a missing one, and
      has the shape of cleaned text. */
  function NormalizeDescription(d: Option<string>): (r: Option<string>)
    ensures r.Some?
    ensures d.None? ==> r == Some("")
    ensures d.Some? ==> r == Some(CleanText(d))
    ensures Tidy(r.value)
  {
    Some(CleanText(d))
  }

  /** Cleans one text field of a location when it is truthy. */
  function CleanIfTruthy(v: Option<string>): (r: Option<string>)
    ensures Truthy(v) ==> r == Some(CleanText(v)) && Tidy(r.value)
    ensures !Truthy(v) ==> r == v
  {
    if Truthy(v) then Some(CleanText(v)) else v
  }

  /** `LocationNormalizer.normalize`: the four text fields are cleaned when
      truthy; latitude and longitude are not touched.  The assignment does
      not re-run the validator, so a field whose text cleans to `""` holds
      `""`. */
  function NormalizeLocation(l: Location): (r: Location)
    ensures r.latitude == l.latitude && r.longitude == l.longitude
    ensures Truthy(l.address) ==> r.address == Some(CleanText(l.address))
    ensures !Truthy(l.address) ==> r.address == l.address
    ensures Truthy(l.city) ==> r.city == Some(CleanText(l.city))
    ensures !Truthy(l.city) ==> r.city == l.city
    ensures Truthy(l.country) ==> r.country == Some(CleanText(l.country))
    ensures !Truthy(l.country) ==> r.country == l.country
    ensures Truthy(l.postalCode) ==> r.postalCode == Some(CleanText(l.postalCode))
    ensures !Truthy(l.postalCode) ==> r.postalCode == l.postalCode
  {
    l.(address := CleanIfTruthy(l.address), city := CleanIfTruthy(l.city),
       country := CleanIfTruthy(l.country), postalCode := CleanIfTruthy(l.postalCode))
  }

  /** `clean_amenity` applied to each amenity. */
  function CleanAmenities(xs: seq<string>): (r: seq<string>)
    ensures |r| == |xs|
    ensures forall i :: 0 <= i < |xs| ==> r[i] == CleanAmenity(Some(xs[i]))
  {
    if xs == [] then [] else [CleanAmenity(Some(xs[0]))] + CleanAmenities(xs[1..])
  }

  /** `clean_text` applied to each condition. */
  function CleanTexts(xs: seq<string>): (r: seq<string>)
    ensures |r| == |xs|
    ensures forall i :: 0 <= i < |xs| ==> r[i] == CleanText(Some(xs[i]))
  {
    if xs == [] then [] else [CleanText(Some(xs[0]))] + CleanTexts(xs[1..])
  }

  /** One list of amenities: a falsy list passes through; a non-empty one is
      mapped element by element, keeping its length and order, to lowercase
      text. */
  function CleanAmenityList(v: Option<seq<string>>): (r: Option<seq<string>>)
    ensures !NonEmpty(v) ==> r == v
    ensures NonEmpty(v) ==> r.Some? && |r.value| == |v.value|
    ensures NonEmpty(v) ==> forall i :: 0 <= i < |v.value| ==> r.value[i] == CleanAmenity(Some(v.value[i]))
    ensures Lowercase(r)
  {
    if NonEmpty(v) then Some(CleanAmenities(v.value)) else v
  }

  /** No amenity of the list holds a capital letter. */
  ghost predicate Lowercase(v: Option<seq<string>>) {
    v.Some? ==> forall i, j :: 0 <= i < |v.value| && 0 <= j < |v.value[i]| ==> !IsUpper(v.value[i][j])
  }

  /** `AmenitiesNormalizer.normalize`: `None` stays `None`; otherwise both
      lists are normalised, after which no amenity holds a capital letter. */
  function NormalizeAmenities(a: Option<Amenities>): (r: Option<Amenities>)
    ensures a.None? <==> r.None?
    ensures a.Some? ==> r.value.general == CleanAmenityList(a.value.general) && r.value.room == CleanAmenityList(a.value.room)
    ensures a.Some? ==> Lowercase(r.value.general) && Lowercase(r.value.room)
  {
    match a
    case None => None
    case Some(am) => Some(am.(general := CleanAmenityList(am.general), room := CleanAmenityList(am.room)))
  }

  /** The per-image step of `ImagesNormalizer`: an `Image` has no `caption`
      attribute, so the guard never holds and the image is left as it is. */
  function NormalizeImage(img: Image): Image {
    img
  }

  /** The loop over one list of images, which leaves it as it is. */
  function WalkImages(xs: seq<Image>): (r: seq<Image>)
    ensures r == xs
  {
    if xs == [] then [] else [NormalizeImage(xs[0])] + WalkImages(xs[1..])
  }

  function WalkIfNonEmpty(v: Option<seq<Image>>): (r: Option<seq<Image>>)
    ensures r == v
  {
    if NonEmpty(v) then Some(WalkImages(v.value)) else v
  }

  /** `ImagesNormalizer.normalize`: walks `rooms` and `amenities`; `site` is
      never visited.  The result is its input unchanged. */
  function NormalizeImages(d: Option<HotelImages>): (r: Option<HotelImages>)
    ensures r == d
  {
    match d
    case None => None
    case Some(im) => Some(im.(rooms := WalkIfNonEmpty(im.rooms), amenities := WalkIfNonEmpty(im.amenities)))
  }

  /** `BookingConditionsNormalizer.normalize`: a falsy list passes through; a
      non-empty one is cleaned element by element, keeping its length and
      order. */
  function NormalizeBookingConditions(v: Option<seq<string>>): (r: Option<seq<string>>)
    ensures !NonEmpty(v) ==> r == v
    ensures NonEmpty(v) ==> r.Some? && |r.value| == |v.value|
    ensures NonEmpty(v) ==> forall i :: 0 <= i < |v.value| ==> r.value[i] == CleanText(Some(v.value[i])) && Tidy(r.value[i])
  {
    if NonEmpty(v) then Some(CleanTexts(v.value)) else v
  }

  /** The field replaced by its normalised value. */
  function ApplyNormalizer(h: Hotel, a: Attribute): Hotel {
    match a
    case NameAttr => h.(name := NormalizeName(h.name))
    case DescriptionAttr => h.(description := NormalizeDescription(h.description))
    case LocationAttr => h.(location := NormalizeLocation(h.location))
    case AmenitiesAttr => h.(amenities := NormalizeAmenities(h.amenities))
    case ImagesAttr => h.(images := NormalizeImages(h.images))
    case BookingConditionsAttr => h.(bookingConditions := NormalizeBookingConditions(h.bookingConditions))
  }

  /** One record after the configured normalisers, in configuration order:
      the id, destination and source are never touched. */
  function NormalizeHotel(ns: seq<Attribute>, h: Hotel): (r: Hotel)
    ensures r.hotelId == h.hotelId && r.destinationId == h.destinationId && r.source == h.source
  {
    if ns == [] then h else ApplyNormalizer(NormalizeHotel(ns[..|ns| - 1], h), ns[|ns| - 1])
  }

  /** The inner loop of `DataNormalizer.normalize`: the configured
      normalisers overwrite one record's fields, in configuration order. */
  method NormalizeRecord(h0: Hotel, ns: seq<Attribute>) returns (h: Hotel)
    ensures h == NormalizeHotel(ns, h0)
  {
    h := h0;
    var k := 0;
    while k < |ns|
      invariant 0 <= k <= |ns|
      invariant h == NormalizeHotel(ns[..k], h0)
    {
      NormalizeHotelSnoc(ns, k, h0);
      h := ApplyNormalizer(h, ns[k]);
      k := k + 1;
    }
    assert ns[..|ns|] == ns;
  }

  /** `DataNormalizer.normalize`: visits the records in order and overwrites
      each configured field of each record in place, once per normaliser. */
  method Normalize(data: array<Hotel>, ns: seq<Attribute>)
    modifies data
    ensures forall i :: 0 <= i < data.Length ==> data[i] == NormalizeHotel(ns, old(data[i]))
  {
    var i := 0;
    while i < data.Length
      invariant 0 <= i <= data.Length
      invariant forall j :: 0 <= j < i ==> data[j] == NormalizeHotel(ns, old(data[j]))
      invariant forall j :: i <= j < data.Length ==> data[j] == old(data[j])
    {
      ghost var done := data[..i];
      var h := NormalizeRecord(data[i], ns);
      data[i] := h;
      assert data[..i] == done;
      i := i + 1;
    }
  }

  lemma NormalizeHotelSnoc(ns: seq<Attribute>, k: nat, h: Hotel)
    requires k < |ns|
    ensures NormalizeHotel(ns[..k + 1], h) == ApplyNormalizer(NormalizeHotel(ns[..k], h), ns[k])
  {
    assert ns[..k + 1][..k] == ns[..k];
  }

  // ---------------------------------------------------------------------
  // Properties

  /** Dictionary keys are unique. */
  ghost predicate Distinct(ns: seq<Attribute>) {
    forall i, j :: 0 <= i < j < |ns| ==> ns[i] != ns[j]
  }

  /** With each attribute configured at most once, a normalised record has
      each configured field normalised once and every other field unchanged,
      whatever the configuration order. */
  lemma {:induction false} NormalizeHotelFields(ns: seq<Attribute>, h: Hotel)
    requires Distinct(ns)
    ensures NormalizeHotel(ns, h).name == if NameAttr in ns then NormalizeName(h.name) else h.name
    ensures NormalizeHotel(ns, h).description ==
      if DescriptionAttr in ns then NormalizeDescription(h.description) else h.description
    ensures NormalizeHotel(ns, h).location == if LocationAttr in ns then NormalizeLocation(h.location) else h.location
    ensures NormalizeHotel(ns, h).amenities ==
      if AmenitiesAttr in ns then NormalizeAmenities(h.amenities) else h.amenities
    ensures NormalizeHotel(ns, h).images == if ImagesAttr in ns then NormalizeImages(h.images) else h.images
    ensures NormalizeHotel(ns, h).bookingConditions ==
      if BookingConditionsAttr in ns then NormalizeBookingConditions(h.bookingConditions) else h.bookingConditions
  {
    if ns != [] {
      var init := ns[..|ns| - 1];
      var last := ns[|ns| - 1];
      assert Distinct(init);
      NormalizeHotelFields(init, h);
      assert last !in init;
      assert forall a :: a in ns <==> a in init || a == last;
    }
  }
}
