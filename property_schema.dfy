/**
  The Property document of backend/models/Property.js: its fields, the `trim` on
  the title, the `required` and `min: 0` constraints and the status enum with its
  default. Building a document from loose fields either yields a record that
  satisfies every constraint or fails validation, as `save` and
  `findByIdAndUpdate(..., { runValidators: true })` do.
*/
module PropertySchema {

  import opened Wrappers
  import opened Text

  type UserId = nat
  type PropertyId = nat

  datatype Status = Active | Inactive

  /** The strings the enum admits. */
  function StatusName(s: Status): string
  {
    match s
    case Active => "active"
    case Inactive => "inactive"
  }

  /** Cast of the status path: absent means the default, otherwise the value must be in the enum. */
  function ParseStatus(raw: Option<string>): (r: Option<Status>)
    ensures raw.None? ==> r == Some(Active)
    ensures raw.Some? ==> (r.Some? <==> raw.value == "active" || raw.value == "inactive")
    ensures r.Some? && raw.Some? ==> StatusName(r.value) == raw.value
  {
    match raw
    case None => Some(Active)
    case Some(s) =>
      if s == "active" then Some(Active)
      else if s == "inactive" then Some(Inactive)
      else None
  }

  /** An image descriptor as stored: one per uploaded file. */
  datatype Image = Image(filename: string, originalName: string, path: string)

  datatype Property = Property(
    id: PropertyId,
    owner: UserId,
    title: string,
    description: string,
    state: string,
    city: string,
    address: string,
    rent: int,
    bedrooms: int,
    bathrooms: int,
    images: seq<Image>,
    status: Status,
    amenities: seq<string>)

  /**
    Every schema constraint: required strings are non-empty (Mongoose's `required`
    refuses the empty string), the title is stored trimmed, and the counts are at
    least 0. The status is one of the enum values by its type.
  */
  predicate ValidProperty(p: Property)
  {
    && p.title != "" && Trimmed(p.title)
    && p.description != "" && p.state != "" && p.city != "" && p.address != ""
    && p.rent >= 0 && p.bedrooms >= 0 && p.bathrooms >= 0
  }

  /** Loose field values before casting and validation; `None` is a path never set. */
  datatype Draft = Draft(
    owner: Option<UserId>,
    title: Option<string>,
    description: Option<string>,
    state: Option<string>,
    city: Option<string>,
    address: Option<string>,
    rent: Option<int>,
    bedrooms: Option<int>,
    bathrooms: Option<int>,
    images: seq<Image>,
    status: Option<string>,
    amenities: seq<string>)

  predicate Present(s: Option<string>)
  {
    s.Some? && s.value != ""
  }

  /** The required number paths are set and at least 0. */
  predicate CountOk(n: Option<int>)
  {
    n.Some? && n.value >= 0
  }

  /** The draft passes validation once the title has been trimmed. */
  predicate Acceptable(d: Draft)
  {
    && d.owner.Some?
    && d.title.Some? && Trim(d.title.value) != ""
    && Present(d.description) && Present(d.state) && Present(d.city) && Present(d.address)
    && CountOk(d.rent) && CountOk(d.bedrooms) && CountOk(d.bathrooms)
    && ParseStatus(d.status).Some?
  }

  /**
    The document the draft becomes under id `id`: setters (trim), the default
    status, then the validators. `None` is a validation failure.
  */
  function Validate(id: PropertyId, d: Draft): (r: Option<Property>)
    ensures r.Some? <==> Acceptable(d)
    ensures r.Some? ==> ValidProperty(r.value)
    ensures r.Some? ==> r.value.id == id && r.value.owner == d.owner.value
    ensures r.Some? ==> r.value.title == Trim(d.title.value)
    ensures r.Some? ==> r.value.description == d.description.value && r.value.state == d.state.value
                        && r.value.city == d.city.value && r.value.address == d.address.value
    ensures r.Some? ==> r.value.rent == d.rent.value && r.value.bedrooms == d.bedrooms.value
                        && r.value.bathrooms == d.bathrooms.value
    ensures r.Some? ==> r.value.images == d.images && r.value.amenities == d.amenities
    ensures r.Some? ==> Some(r.value.status) == ParseStatus(d.status)
    ensures r.Some? && d.status.None? ==> r.value.status == Active
  {
    if !Acceptable(d) then None
    else
      Some(Property(
        id, d.owner.value, Trim(d.title.value), d.description.value, d.state.value,
        d.city.value, d.address.value, d.rent.value, d.bedrooms.value, d.bathrooms.value,
        d.images, ParseStatus(d.status).value, d.amenities))
  }

  /** The draft a stored property reads back as: validating it reproduces the property. */
  function ToDraft(p: Property): Draft
  {
    Draft(Some(p.owner), Some(p.title), Some(p.description), Some(p.state), Some(p.city),
          Some(p.address), Some(p.rent), Some(p.bedrooms), Some(p.bathrooms), p.images,
          Some(StatusName(p.status)), p.amenities)
  }

  /** A valid stored document survives a round trip through validation unchanged. */
  lemma ValidRoundTrip(p: Property)
    requires ValidProperty(p)
    ensures Validate(p.id, ToDraft(p)) == Some(p)
  {
    TrimmedIsFixpoint(p.title);
  }
}
