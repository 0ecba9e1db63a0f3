/**
  The abstract document store the controllers and the middleware work on: the
  users collection, the properties collection and the activity log, each in
  creation order. The User and ActivityLog models are not part of this model;
  their records carry the fields the core reads and writes.
*/
module Store {

  import opened Wrappers
  import opened PropertySchema
  import Seqs

  datatype Role = Owner | Admin

  datatype User = User(
    id: UserId,
    name: string,
    email: string,
    password: string,
    phone: string,
    role: Role,
    isActive: bool)

  /** A user as `select('-password')` returns it. */
  datatype PublicUser = PublicUser(
    id: UserId,
    name: string,
    email: string,
    phone: string,
    role: Role,
    isActive: bool)

  function WithoutPassword(u: User): PublicUser
  {
    PublicUser(u.id, u.name, u.email, u.phone, u.role, u.isActive)
  }

  /**
    A `:id` route parameter as Mongoose casts it: either a well-formed ObjectId
    naming some id, or a string whose cast throws a CastError inside `findById`.
  */
  datatype PathId = Parsed(id: nat) | Malformed

  /** One audit entry: who did it, the action code and a readable detail. */
  datatype LogEntry = LogEntry(user: UserId, action: string, details: string)

  function UserKey(u: User): int { u.id }
  function PropertyKey(p: Property): int { p.id }

  /** The query `{ owner: id }`. */
  function OwnedBy(id: UserId): Property -> bool
  {
    (p: Property) => p.owner == id
  }

  /** `User.findById(id)`: the position of the user with that id. */
  function FindUser(users: seq<User>, id: UserId): (r: Option<nat>)
    ensures r.Some? ==> r.value < |users| && users[r.value].id == id
    ensures r.None? <==> forall k :: 0 <= k < |users| ==> users[k].id != id
  {
    Seqs.FirstIndex(users, (u: User) => u.id == id)
  }

  /** `Property.findById(id)`: the position of the property with that id. */
  function FindProperty(properties: seq<Property>, id: PropertyId): (r: Option<nat>)
    ensures r.Some? ==> r.value < |properties| && properties[r.value].id == id
    ensures r.None? <==> forall k :: 0 <= k < |properties| ==> properties[k].id != id
  {
    Seqs.FirstIndex(properties, (p: Property) => p.id == id)
  }

  /** With ids in creation order, a lookup by id finds the only record carrying it. */
  lemma FindPropertyUnique(properties: seq<Property>, k: nat)
    requires Seqs.Increasing(properties, PropertyKey)
    requires k < |properties|
    ensures FindProperty(properties, properties[k].id) == Some(k)
  {
  }

  /**
    The properties collection is in id order, every id is below `next` (the id the
    store hands out next), and every stored property satisfies the schema.
  */
  ghost predicate PropertiesOk(properties: seq<Property>, next: PropertyId)
  {
    && Seqs.Increasing(properties, PropertyKey)
    && (forall i :: 0 <= i < |properties| ==> properties[i].id < next)
    && (forall i :: 0 <= i < |properties| ==> ValidProperty(properties[i]))
  }

  /** Replacing a property by a valid one with the same id keeps the collection well formed. */
  lemma ReplaceKeepsOk(properties: seq<Property>, next: PropertyId, k: nat, q: Property)
    requires PropertiesOk(properties, next)
    requires k < |properties| && q.id == properties[k].id && ValidProperty(q)
    ensures PropertiesOk(properties[k := q], next)
  {
    var r := properties[k := q];
    forall i, j | 0 <= i < j < |r| ensures PropertyKey(r[i]) < PropertyKey(r[j]) {
      assert PropertyKey(r[i]) == PropertyKey(properties[i]);
      assert PropertyKey(r[j]) == PropertyKey(properties[j]);
    }
  }

  /** Appending a valid property with a fresh id, then advancing `next`, keeps it well formed. */
  lemma AppendKeepsOk(properties: seq<Property>, next: PropertyId, q: Property)
    requires PropertiesOk(properties, next)
    requires q.id == next && ValidProperty(q)
    ensures PropertiesOk(properties + [q], next + 1)
  {
  }

  /** Removing a property keeps the collection well formed, and its id is no longer present. */
  lemma RemoveKeepsOk(properties: seq<Property>, next: PropertyId, k: nat)
    requires PropertiesOk(properties, next) && k < |properties|
    ensures PropertiesOk(properties[..k] + properties[k + 1..], next)
    ensures forall p :: p in properties[..k] + properties[k + 1..] ==> p.id != properties[k].id
  {
    Seqs.RemoveKeepsIncreasing(properties, k, PropertyKey);
    var r := properties[..k] + properties[k + 1..];
    forall p | p in r ensures p.id != properties[k].id {
      var j :| 0 <= j < |r| && r[j] == p;
      if j < k {
        assert p == properties[j] && PropertyKey(properties[j]) < PropertyKey(properties[k]);
      } else {
        assert p == properties[j + 1] && PropertyKey(properties[k]) < PropertyKey(properties[j + 1]);
      }
    }
  }

  class Database {
    var users: seq<User>
    var properties: seq<Property>
    var logs: seq<LogEntry>
    /** The id the next created property receives. */
    var nextPropertyId: PropertyId

    /** User ids are in creation order and the properties collection is well formed. */
    ghost predicate Valid()
      reads this
    {
      Seqs.Increasing(users, UserKey) && PropertiesOk(properties, nextPropertyId)
    }

    /** A store holding the given users and nothing else. */
    constructor (initialUsers: seq<User>)
      requires Seqs.Increasing(initialUsers, UserKey)
      ensures Valid()
      ensures users == initialUsers && properties == [] && logs == []
    {
      users := initialUsers;
      properties := [];
      logs := [];
      nextPropertyId := 0;
    }

    /** `property.save()` of a new document carrying the next id. */
    method Insert(q: Property)
      requires Valid() && ValidProperty(q) && q.id == nextPropertyId
      modifies this
      ensures Valid()
      ensures properties == old(properties) + [q] && nextPropertyId == old(nextPropertyId) + 1
      ensures users == old(users) && logs == old(logs)
    {
      AppendKeepsOk(properties, nextPropertyId, q);
      properties := properties + [q];
      nextPropertyId := nextPropertyId + 1;
    }

    /** `Property.findByIdAndUpdate`: the record at `k` is replaced by a valid one with its id. */
    method Replace(k: nat, q: Property)
      requires Valid() && k < |properties| && q.id == properties[k].id && ValidProperty(q)
      modifies this
      ensures Valid()
      ensures properties == old(properties)[k := q]
      ensures users == old(users) && logs == old(logs) && nextPropertyId == old(nextPropertyId)
    {
      ReplaceKeepsOk(properties, nextPropertyId, k, q);
      properties := properties[k := q];
    }

    /** `Property.findByIdAndDelete`: the record at `k` is removed; its id no longer occurs. */
    method Remove(k: nat)
      requires Valid() && k < |properties|
      modifies this
      ensures Valid()
      ensures properties == old(properties)[..k] + old(properties)[k + 1..]
      ensures forall p :: p in properties ==> p.id != old(properties)[k].id
      ensures users == old(users) && logs == old(logs) && nextPropertyId == old(nextPropertyId)
    {
      RemoveKeepsOk(properties, nextPropertyId, k);
      properties := properties[..k] + properties[k + 1..];
    }

    /** `user.save()` after an in-place change that keeps the id. */
    method SaveUser(i: nat, u: User)
      requires Valid() && i < |users| && u.id == users[i].id
      modifies this
      ensures Valid()
      ensures users == old(users)[i := u]
      ensures properties == old(properties) && logs == old(logs) && nextPropertyId == old(nextPropertyId)
    {
      ghost var r := users[i := u];
      forall a, b | 0 <= a < b < |r| ensures UserKey(r[a]) < UserKey(r[b]) {
        assert UserKey(r[a]) == UserKey(users[a]) && UserKey(r[b]) == UserKey(users[b]);
      }
      users := users[i := u];
    }

    /** `ActivityLog.create`: one entry at the end of the log, nothing else touched. */
    method Record(e: LogEntry)
      requires Valid()
      modifies this
      ensures Valid()
      ensures logs == old(logs) + [e]
      ensures users == old(users) && properties == old(properties) && nextPropertyId == old(nextPropertyId)
    {
      logs := logs + [e];
    }
  }
}
