/**
  backend/controllers/propertyController.js: listing creation, the public search,
  the owner's and the single-property reads, and the guarded update and delete.
  Each successful mutation is followed by exactly one activity-log append.
*/
module PropertyController {

  import opened Wrappers
  import opened Text
  import opened PropertySchema
  import opened Store
  import opened Http
  import Seqs

  const CreatedMessage := "Property listed successfully!"
  const CreateErrorMessage := "Error creating property"
  const NotFoundMessage := "Property not found"
  const UpdateForbiddenMessage := "Access denied. You can only update your own properties."
  const UpdatedMessage := "Property updated successfully"
  const UpdateErrorMessage := "Error updating property"
  const DeleteForbiddenMessage := "Access denied. You can only delete your own properties."
  const DeletedMessage := "Property deleted successfully"
  const DeleteErrorMessage := "Error deleting property"

  /** The fields of an uploaded file record that the controller copies. */
  datatype UploadedFile = UploadedFile(filename: string, originalname: string, path: string)

  function Describe(f: UploadedFile): Image
  {
    Image(f.filename, f.originalname, f.path)
  }

  /** `req.files.map(...)`: one descriptor per uploaded file, in upload order. */
  function ImagesOf(files: seq<UploadedFile>): (images: seq<Image>)
    ensures |images| == |files|
    ensures forall i :: 0 <= i < |files| ==>
              && images[i].filename == files[i].filename
              && images[i].originalName == files[i].originalname
              && images[i].path == files[i].path
  {
    if files == [] then [] else [Describe(files[0])] + ImagesOf(files[1..])
  }

  /**
    `amenities ? amenities.split(',') : []`: nothing for an absent or empty string,
    otherwise one tag per comma-separated piece, which join back to the input.
  */
  function Amenities(raw: Option<string>): (tags: seq<string>)
    ensures raw.None? || raw.value == "" ==> tags == []
    ensures raw.Some? && raw.value != "" ==>
              |tags| == multiset(raw.value)[','] + 1 && Join(tags, ',') == raw.value
    ensures forall i :: 0 <= i < |tags| ==> ',' !in tags[i]
  {
    if raw.None? || raw.value == "" then []
    else
      JoinSplit(raw.value, ',');
      SplitCount(raw.value, ',');
      Split(raw.value, ',')
  }

  /** The body of a create request; `owner` and `status` may be sent but are not read. */
  datatype CreateBody = CreateBody(
    title: Option<string>,
    description: Option<string>,
    state: Option<string>,
    city: Option<string>,
    address: Option<string>,
    rent: Option<int>,
    bedrooms: Option<int>,
    bathrooms: Option<int>,
    amenities: Option<string>,
    owner: Option<UserId>,
    status: Option<string>)

  /**
    `new Property({...})` in `createProperty`: the caller owns it, it starts active,
    it carries one image per uploaded file and the title as sent (validation trims it).
  */
  function NewDraft(caller: UserId, body: CreateBody, files: seq<UploadedFile>): (d: Draft)
    ensures d.owner == Some(caller) && ParseStatus(d.status) == Some(Active)
    ensures |d.images| == |files| && d.title == body.title
  {
    Draft(Some(caller), body.title, body.description, body.state, body.city, body.address,
          body.rent, body.bedrooms, body.bathrooms, ImagesOf(files), Some(StatusName(Active)),
          Amenities(body.amenities))
  }

  /** Whatever the body says about owner and status, a created listing is the caller's and active. */
  lemma CreatedIsActiveAndOwned(caller: UserId, body: CreateBody, files: seq<UploadedFile>,
                                id: PropertyId, owner: Option<UserId>, status: Option<string>)
    ensures NewDraft(caller, body, files) == NewDraft(caller, body.(owner := owner, status := status), files)
    ensures var v := Validate(id, NewDraft(caller, body, files));
            v.Some? ==> v.value.owner == caller && v.value.status == Active && v.value.id == id
  {
  }

  /**
    `createProperty`: builds the document, saves it, then logs `PROPERTY_CREATE`
    with the title as sent. A validation failure answers 500 and changes nothing.
  */
  method CreateProperty(db: Database, caller: UserId, body: CreateBody, files: seq<UploadedFile>)
    returns (reply: Reply, created: Option<Property>)
    requires db.Valid()
    modifies db
    ensures db.Valid()
    ensures db.users == old(db.users)
    ensures var v := Validate(old(db.nextPropertyId), NewDraft(caller, body, files));
            && created == v
            && (v.None? ==> reply == Reply(500, CreateErrorMessage)
                            && db.properties == old(db.properties) && db.logs == old(db.logs))
            && (v.Some? ==> reply == Reply(201, CreatedMessage)
                            && db.properties == old(db.properties) + [v.value]
                            && db.logs == old(db.logs)
                                          + [LogEntry(caller, "PROPERTY_CREATE", "Created property: " + body.title.value)])
  {
    var property := Validate(db.nextPropertyId, NewDraft(caller, body, files));
    if property.None? {
      reply, created := Reply(500, CreateErrorMessage), None;
      return;
    }
    db.Insert(property.value);
    db.Record(LogEntry(caller, "PROPERTY_CREATE", "Created property: " + body.title.value));
    reply, created := Reply(201, CreatedMessage), property;
  }

  /** The query string of the public search, with numbers already parsed. */
  datatype Query = Query(
    state: Option<string>,
    city: Option<string>,
    minRent: Option<int>,
    maxRent: Option<int>,
    bedrooms: Option<int>)

  datatype RentRange = RentRange(gte: Option<int>, lte: Option<int>)

  /** The filter document handed to `Property.find`; `None` is a key that is not set. */
  datatype Filter = Filter(
    status: Status,
    state: Option<string>,
    city: Option<string>,
    rent: Option<RentRange>,
    bedrooms: Option<int>)

  /** A property satisfies every constraint the filter carries. */
  predicate Matches(f: Filter, p: Property)
    ensures f == Filter(f.status, None, None, None, None) ==> (Matches(f, p) <==> p.status == f.status)
    ensures (f.rent.Some? && f.rent.value.gte.Some? && f.rent.value.lte.Some?
             && f.rent.value.gte.value > f.rent.value.lte.value) ==> !Matches(f, p)
  {
    && p.status == f.status
    && (f.state.Some? ==> ContainsIgnoreCase(p.state, f.state.value))
    && (f.city.Some? ==> ContainsIgnoreCase(p.city, f.city.value))
    && (f.rent.Some? ==> (f.rent.value.gte.Some? ==> p.rent >= f.rent.value.gte.value)
                         && (f.rent.value.lte.Some? ==> p.rent <= f.rent.value.lte.value))
    && (f.bedrooms.Some? ==> p.bedrooms == f.bedrooms.value)
  }

  function MatchesFilter(f: Filter): Property -> bool
  {
    (p: Property) => Matches(f, p)
  }

  /** The intended search: active, and each supplied parameter's own constraint, nothing else. */
  predicate Satisfies(q: Query, p: Property)
  {
    && p.status == Active
    && (Present(q.state) ==> ContainsIgnoreCase(p.state, q.state.value))
    && (Present(q.city) ==> ContainsIgnoreCase(p.city, q.city.value))
    && (q.minRent.Some? ==> p.rent >= q.minRent.value)
    && (q.maxRent.Some? ==> p.rent <= q.maxRent.value)
    && (q.bedrooms.Some? ==> p.bedrooms == q.bedrooms.value)
  }

  /** The filter of `getPublicProperties`, built one key at a time. */
  method BuildFilter(q: Query) returns (f: Filter)
    ensures f.status == Active
    ensures f.state.Some? <==> Present(q.state)
    ensures f.state.Some? ==> f.state == q.state
    ensures f.city.Some? <==> Present(q.city)
    ensures f.city.Some? ==> f.city == q.city
    ensures f.rent.Some? <==> q.minRent.Some? || q.maxRent.Some?
    ensures f.rent.Some? ==> f.rent.value.gte == q.minRent && f.rent.value.lte == q.maxRent
    ensures f.bedrooms == q.bedrooms
    ensures q == Query(None, None, None, None, None) ==> f == Filter(Active, None, None, None, None)
    ensures forall p :: Matches(f, p) <==> Satisfies(q, p)
  {
    f := Filter(Active, None, None, None, None);
    if Present(q.state) {
      f := f.(state := q.state);
    }
    if Present(q.city) {
      f := f.(city := q.city);
    }
    if q.minRent.Some? || q.maxRent.Some? {
      var range := RentRange(None, None);
      if q.minRent.Some? {
        range := range.(gte := q.minRent);
      }
      if q.maxRent.Some? {
        range := range.(lte := q.maxRent);
      }
      f := f.(rent := Some(range));
    }
    if q.bedrooms.Some? {
      f := f.(bedrooms := q.bedrooms);
    }
  }

  /** `getPublicProperties`: the listings satisfying the query, newest first. */
  method GetPublicProperties(properties: seq<Property>, q: Query) returns (result: seq<Property>)
    ensures forall p :: p in result ==> p in properties && Satisfies(q, p)
    ensures forall p :: p in properties && Satisfies(q, p) ==> p in result
    ensures Seqs.Increasing(properties, PropertyKey) ==> Seqs.Decreasing(result, PropertyKey)
  {
    var filter := BuildFilter(q);
    result := Seqs.Reverse(Seqs.Filter(properties, MatchesFilter(filter)));
    Seqs.NewestFirstQuery(properties, MatchesFilter(filter), PropertyKey);
  }

  /** An active listing is found by a search for its own state, city, rent and bedrooms. */
  lemma FoundByOwnDetails(p: Property)
    requires p.status == Active
    ensures Satisfies(Query(Some(p.state), Some(p.city), Some(p.rent), Some(p.rent), Some(p.bedrooms)), p)
  {
    ContainsItself(p.state);
    ContainsItself(p.city);
  }

  /** `getOwnerProperties`: exactly the caller's listings, newest first. */
  function OwnerProperties(properties: seq<Property>, caller: UserId): (r: seq<Property>)
    ensures forall p :: p in r ==> p in properties && p.owner == caller
    ensures forall p :: p in properties && p.owner == caller ==> p in r
    ensures Seqs.Increasing(properties, PropertyKey) ==> Seqs.Decreasing(r, PropertyKey)
  {
    Seqs.NewestFirstQuery(properties, OwnedBy(caller), PropertyKey);
    Seqs.Reverse(Seqs.Filter(properties, OwnedBy(caller)))
  }

  /** The reply message of `Failed`. */
  const FetchErrorMessage := "Error fetching property"

  /** The outcome of `getProperty`: the listing, the 404, or the 500 of a failed cast. */
  datatype Lookup = Found(property: Property) | Missing | Failed

  /** `getProperty`: the stored listing with that id. */
  function GetProperty(properties: seq<Property>, id: PathId): (r: Lookup)
    ensures r == Failed <==> id.Malformed?
    ensures r.Found? ==> r.property in properties && id == Parsed(r.property.id)
    ensures r == Missing <==> id.Parsed? && forall k :: 0 <= k < |properties| ==> properties[k].id != id.id
  {
    match id
    case Malformed => Failed
    case Parsed(n) =>
      match FindProperty(properties, n)
      case None => Missing
      case Some(k) => Found(properties[k])
  }

  /** The guard shared by update and delete: the cast, then existence, then ownership. */
  datatype Access = CastFailed | NotFound | Forbidden | Granted(index: nat)

  function CheckAccess(properties: seq<Property>, id: PathId, caller: UserId): (r: Access)
    ensures r == CastFailed <==> id.Malformed?
    ensures r == NotFound <==> id.Parsed? && forall k :: 0 <= k < |properties| ==> properties[k].id != id.id
    ensures r.Granted? ==> r.index < |properties| && id == Parsed(properties[r.index].id)
                           && properties[r.index].owner == caller
    ensures r == Forbidden ==> id.Parsed? && exists k :: 0 <= k < |properties| && properties[k].id == id.id
                                                         && properties[k].owner != caller
  {
    match id
    case Malformed => CastFailed
    case Parsed(n) =>
      match FindProperty(properties, n)
      case None => NotFound
      case Some(k) => if properties[k].owner != caller then Forbidden else Granted(k)
  }

  /** For a stored listing, the guard passes exactly its owner and refuses everyone else. */
  lemma OwnershipGuard(properties: seq<Property>, k: nat, caller: UserId)
    requires Seqs.Increasing(properties, PropertyKey) && k < |properties|
    ensures properties[k].owner == caller <==> CheckAccess(properties, Parsed(properties[k].id), caller) == Granted(k)
    ensures properties[k].owner != caller <==> CheckAccess(properties, Parsed(properties[k].id), caller) == Forbidden
  {
    FindPropertyUnique(properties, k);
  }

  /** The body of an update request; every field it carries is written as is. */
  datatype UpdateBody = UpdateBody(
    owner: Option<UserId>,
    title: Option<string>,
    description: Option<string>,
    state: Option<string>,
    city: Option<string>,
    address: Option<string>,
    rent: Option<int>,
    bedrooms: Option<int>,
    bathrooms: Option<int>,
    status: Option<string>,
    amenities: Option<seq<string>>)

  /** `updates` in `updateProperty`: the copied body, plus images when files were uploaded. */
  datatype Updates = Updates(body: UpdateBody, images: Option<seq<Image>>)

  function Override<T>(current: T, update: Option<T>): T
  {
    if update.Some? then update.value else current
  }

  /**
    What `findByIdAndUpdate` writes: each set path replaces the stored value. Every
    path of the result is set, and an update that sets nothing reads back as the
    stored document.
  */
  function Apply(p: Property, u: Updates): (d: Draft)
    ensures d.owner.Some? && d.title.Some? && d.description.Some? && d.state.Some? && d.city.Some?
            && d.address.Some? && d.rent.Some? && d.bedrooms.Some? && d.bathrooms.Some? && d.status.Some?
    ensures u == Updates(UpdateBody(None, None, None, None, None, None, None, None, None, None, None), None)
            ==> d == ToDraft(p)
  {
    var b := u.body;
    Draft(Some(Override(p.owner, b.owner)), Some(Override(p.title, b.title)),
          Some(Override(p.description, b.description)), Some(Override(p.state, b.state)),
          Some(Override(p.city, b.city)), Some(Override(p.address, b.address)),
          Some(Override(p.rent, b.rent)), Some(Override(p.bedrooms, b.bedrooms)),
          Some(Override(p.bathrooms, b.bathrooms)), Override(p.images, u.images),
          Some(Override(StatusName(p.status), b.status)), Override(p.amenities, b.amenities))
  }

  function UpdatesFor(body: UpdateBody, files: seq<UploadedFile>): Updates
  {
    Updates(body, if |files| > 0 then Some(ImagesOf(files)) else None)
  }

  /** The body sets no path at all. */
  predicate EmptyUpdate(body: UpdateBody)
  {
    body == UpdateBody(None, None, None, None, None, None, None, None, None, None, None)
  }

  /**
    The merge keeps the id; every field the body carries is written (the title
    trimmed, the status by its enum name, the owner included) and every field it
    leaves out keeps its stored value; the images change exactly when files were
    uploaded.
  */
  lemma {:induction false} UpdateMerge(p: Property, body: UpdateBody, files: seq<UploadedFile>)
    requires ValidProperty(p)
    ensures var r := Validate(p.id, Apply(p, UpdatesFor(body, files)));
            r.Some? ==>
              && r.value.id == p.id
              && r.value.owner == (if body.owner.Some? then body.owner.value else p.owner)
              && r.value.title == (if body.title.Some? then Trim(body.title.value) else p.title)
              && r.value.description == (if body.description.Some? then body.description.value else p.description)
              && r.value.state == (if body.state.Some? then body.state.value else p.state)
              && r.value.city == (if body.city.Some? then body.city.value else p.city)
              && r.value.address == (if body.address.Some? then body.address.value else p.address)
              && r.value.rent == (if body.rent.Some? then body.rent.value else p.rent)
              && r.value.bedrooms == (if body.bedrooms.Some? then body.bedrooms.value else p.bedrooms)
              && r.value.bathrooms == (if body.bathrooms.Some? then body.bathrooms.value else p.bathrooms)
              && (body.status.Some? ==> StatusName(r.value.status) == body.status.value)
              && (body.status.None? ==> r.value.status == p.status)
              && r.value.amenities == (if body.amenities.Some? then body.amenities.value else p.amenities)
              && r.value.images == (if |files| > 0 then ImagesOf(files) else p.images)
  {
    TrimmedIsFixpoint(p.title);
  }

  /**
    The merged document passes the validators exactly when every field the body
    carries is acceptable on its own: the stored fields already are.
  */
  lemma {:induction false} UpdateAccepted(p: Property, body: UpdateBody, files: seq<UploadedFile>)
    requires ValidProperty(p)
    ensures Validate(p.id, Apply(p, UpdatesFor(body, files))).Some? <==>
              && (body.title.Some? ==> Trim(body.title.value) != "")
              && (body.description.Some? ==> body.description.value != "")
              && (body.state.Some? ==> body.state.value != "")
              && (body.city.Some? ==> body.city.value != "")
              && (body.address.Some? ==> body.address.value != "")
              && (body.rent.Some? ==> body.rent.value >= 0)
              && (body.bedrooms.Some? ==> body.bedrooms.value >= 0)
              && (body.bathrooms.Some? ==> body.bathrooms.value >= 0)
              && (body.status.Some? ==> body.status.value == "active" || body.status.value == "inactive")
  {
    TrimmedIsFixpoint(p.title);
    assert ParseStatus(Some(StatusName(p.status))) == Some(p.status);
  }

  /** An update with an empty body and no files leaves a valid listing as it was. */
  lemma {:induction false} EmptyUpdateChangesNothing(p: Property, body: UpdateBody, files: seq<UploadedFile>)
    requires ValidProperty(p) && EmptyUpdate(body) && files == []
    ensures Validate(p.id, Apply(p, UpdatesFor(body, files))) == Some(p)
  {
    assert Apply(p, UpdatesFor(body, files)) == ToDraft(p);
    ValidRoundTrip(p);
  }

  /**
    `updateProperty`: 500 when the id does not cast, 404 when it is unknown, then 403 when the caller does not
    own it, then the merge and the validators (500 on failure). Only a written
    update replaces the record and appends one `PROPERTY_UPDATE` entry naming the
    stored title.
  */
  method UpdateProperty(db: Database, caller: UserId, id: PathId, body: UpdateBody,
                        files: seq<UploadedFile>)
    returns (reply: Reply, updated: Option<Property>)
    requires db.Valid()
    modifies db
    ensures db.Valid()
    ensures db.users == old(db.users) && db.nextPropertyId == old(db.nextPropertyId)
    ensures match CheckAccess(old(db.properties), id, caller)
            case CastFailed =>
              reply == Reply(500, UpdateErrorMessage) && updated.None?
              && db.properties == old(db.properties) && db.logs == old(db.logs)
            case NotFound =>
              reply == Reply(404, NotFoundMessage) && updated.None?
              && db.properties == old(db.properties) && db.logs == old(db.logs)
            case Forbidden =>
              reply == Reply(403, UpdateForbiddenMessage) && updated.None?
              && db.properties == old(db.properties) && db.logs == old(db.logs)
            case Granted(k) =>
              var v := Validate(id.id, Apply(old(db.properties)[k], UpdatesFor(body, files)));
              && updated == v
              && (v.None? ==> reply == Reply(500, UpdateErrorMessage)
                              && db.properties == old(db.properties) && db.logs == old(db.logs))
              && (v.Some? ==> reply == Reply(200, UpdatedMessage)
                              && db.properties == old(db.properties)[k := v.value]
                              && db.logs == old(db.logs)
                                 + [LogEntry(caller, "PROPERTY_UPDATE", "Updated property: " + v.value.title)])
  {
    if id.Malformed? {
      reply, updated := Reply(500, UpdateErrorMessage), None;
      return;
    }
    var found := FindProperty(db.properties, id.id);
    if found.None? {
      assert CheckAccess(db.properties, id, caller) == NotFound;
      reply, updated := Reply(404, NotFoundMessage), None;
      return;
    }
    var k := found.value;
    var property := db.properties[k];
    if property.owner != caller {
      assert CheckAccess(db.properties, id, caller) == Forbidden;
      reply, updated := Reply(403, UpdateForbiddenMessage), None;
      return;
    }
    assert CheckAccess(db.properties, id, caller) == Granted(k);
    var updates := Updates(body, None);
    if |files| > 0 {
      updates := updates.(images := Some(ImagesOf(files)));
    }
    assert updates == UpdatesFor(body, files);
    var result := Validate(id.id, Apply(property, updates));
    if result.None? {
      reply, updated := Reply(500, UpdateErrorMessage), None;
      return;
    }
    db.Replace(k, result.value);
    db.Record(LogEntry(caller, "PROPERTY_UPDATE", "Updated property: " + result.value.title));
    reply, updated := Reply(200, UpdatedMessage), result;
  }

  /**
    `deleteProperty`: the same guard as update (500 for an id that does not cast); on success the record is removed,
    no record with that id remains, and one `PROPERTY_DELETE` entry names the title
    the listing had before deletion.
  */
  method DeleteProperty(db: Database, caller: UserId, id: PathId) returns (reply: Reply)
    requires db.Valid()
    modifies db
    ensures db.Valid()
    ensures db.users == old(db.users) && db.nextPropertyId == old(db.nextPropertyId)
    ensures match CheckAccess(old(db.properties), id, caller)
            case CastFailed =>
              reply == Reply(500, DeleteErrorMessage)
              && db.properties == old(db.properties) && db.logs == old(db.logs)
            case NotFound =>
              reply == Reply(404, NotFoundMessage)
              && db.properties == old(db.properties) && db.logs == old(db.logs)
            case Forbidden =>
              reply == Reply(403, DeleteForbiddenMessage)
              && db.properties == old(db.properties) && db.logs == old(db.logs)
            case Granted(k) =>
              && reply == Reply(200, DeletedMessage)
              && db.properties == old(db.properties)[..k] + old(db.properties)[k + 1..]
              && (forall p :: p in db.properties ==> p.id != id.id)
              && db.logs == old(db.logs)
                 + [LogEntry(caller, "PROPERTY_DELETE", "Deleted property: " + old(db.properties)[k].title)]
  {
    if id.Malformed? {
      reply := Reply(500, DeleteErrorMessage);
      return;
    }
    var found := FindProperty(db.properties, id.id);
    if found.None? {
      reply := Reply(404, NotFoundMessage);
      return;
    }
    var k := found.value;
    var property := db.properties[k];
    if property.owner != caller {
      reply := Reply(403, DeleteForbiddenMessage);
      return;
    }
    db.Remove(k);
    db.Record(LogEntry(caller, "PROPERTY_DELETE", "Deleted property: " + property.title));
    reply := Reply(200, DeletedMessage);
  }
}
