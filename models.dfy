/** The record shapes of `models/hotel.py`. Every pydantic model becomes a
    datatype; `Optional[...]` becomes `Option<...>`; latitude and longitude are
    reals standing for Python floats (no rounding is modelled). */
module Models {
  import opened Wrappers

  /** One image: a link (treated as an opaque key; URL validation is not
      modelled) and an optional description. */
  datatype Image = Image(link: string, description: Option<string>)

  datatype Amenities = Amenities(general: Option<seq<string>>, room: Option<seq<string>>)

  datatype Location = Location(
    address: Option<string>,
    city: Option<string>,
    country: Option<string>,
    postalCode: Option<string>,
    latitude: Option<real>,
    longitude: Option<real>)

  datatype HotelImages = HotelImages(
    rooms: Option<seq<Image>>,
    site: Option<seq<Image>>,
    amenities: Option<seq<Image>>)

  datatype Hotel = Hotel(
    hotelId: string,
    destinationId: int,
    name: string,
    description: Option<string>,
    location: Location,
    amenities: Option<Amenities>,
    images: Option<HotelImages>,
    bookingConditions: Option<seq<string>>,
    source: string)

  /** The attributes that a normaliser or a merger can be configured for. */
  datatype Attribute = NameAttr | DescriptionAttr | LocationAttr | AmenitiesAttr | ImagesAttr | BookingConditionsAttr

  /** A raw latitude or longitude as a supplier sends it: a number, or the
      empty string. */
  datatype RawCoordinate = Blank | Number(value: real)

  /** Python truthiness of an optional string: `None` and `""` are falsy. */
  predicate Truthy(s: Option<string>) {
    s.Some? && s.value != ""
  }

  /** Python truthiness of an optional list: `None` and `[]` are falsy. */
  predicate NonEmpty<T>(xs: Option<seq<T>>) {
    xs.Some? && xs.value != []
  }

  /** The `Location` field validator on a text field: the empty string becomes `None`. */
  function EmptyStringToNone(v: Option<string>): (r: Option<string>)
    ensures r == None <==> v == None || v == Some("")
    ensures r != None ==> r == v
  {
    if v == Some("") then None else v
  }

  /** The same validator on a coordinate field. */
  function BlankToNone(v: Option<RawCoordinate>): (r: Option<real>)
    ensures r == None <==> v == None || v == Some(Blank)
    ensures v.Some? && v.value.Number? ==> r == Some(v.value.value)
  {
    match v
    case None => None
    case Some(Blank) => None
    case Some(Number(x)) => Some(x)
  }

  /** Constructing a `Location`: every field is optional and the validator
      turns an empty string into `None` on each of the six fields. */
  function NewLocation(
    address: Option<string>, city: Option<string>, country: Option<string>, postalCode: Option<string>,
    latitude: Option<RawCoordinate>, longitude: Option<RawCoordinate>): (r: Location)
    ensures WellFormedLocation(r)
    ensures r.address == EmptyStringToNone(address) && r.city == EmptyStringToNone(city)
    ensures r.country == EmptyStringToNone(country) && r.postalCode == EmptyStringToNone(postalCode)
    ensures r.latitude == BlankToNone(latitude) && r.longitude == BlankToNone(longitude)
  {
    Location(EmptyStringToNone(address), EmptyStringToNone(city), EmptyStringToNone(country),
             EmptyStringToNone(postalCode), BlankToNone(latitude), BlankToNone(longitude))
  }

  /** A location as the validator leaves it: no text field holds `""`. */
  predicate WellFormedLocation(l: Location) {
    l.address != Some("") && l.city != Some("") && l.country != Some("") && l.postalCode != Some("")
  }

  /** Re-validating an existing `Location`, as rebuilding it from its own
      fields does: the text fields pass through the validator again. */
  function Revalidate(l: Location): (r: Location)
    ensures WellFormedLocation(r)
    ensures WellFormedLocation(l) ==> r == l
    ensures r.latitude == l.latitude && r.longitude == l.longitude
  {
    NewLocation(l.address, l.city, l.country, l.postalCode, Coordinate(l.latitude), Coordinate(l.longitude))
  }

  /** A stored float as raw validator input. */
  function Coordinate(v: Option<real>): Option<RawCoordinate> {
    match v
    case None => None
    case Some(x) => Some(Number(x))
  }
}
