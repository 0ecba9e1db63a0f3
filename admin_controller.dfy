/**
  backend/controllers/adminController.js: the dashboard counts, the owner list with
  per-owner listing counts, the full listing and log views, and the status toggle
  of a user account.
*/
module AdminController {

  import opened Wrappers
  import opened PropertySchema
  import opened Store
  import opened Http
  import Seqs

  const UserNotFoundMessage := "User not found"
  const ToggleErrorMessage := "Error updating user status"
  /** `.limit(100)` on the activity-log view. */
  const LogPageSize := 100

  function IsOwnerAccount(u: User): bool { u.role == Owner }
  function IsActiveListing(p: Property): bool { p.status == Active }

  datatype Stats = Stats(totalUsers: nat, totalProperties: nat, activeProperties: nat)

  /**
    `getDashboardStats`: owner-role accounts, all listings, and active listings,
    counted over one snapshot of the store.
  */
  function DashboardStats(users: seq<User>, properties: seq<Property>): (s: Stats)
    ensures s.totalUsers == |Seqs.Filter(users, IsOwnerAccount)|
    ensures s.totalProperties == |properties|
    ensures s.activeProperties == |Seqs.Filter(properties, IsActiveListing)|
    ensures s.totalUsers <= |users| && s.activeProperties <= s.totalProperties
  {
    Seqs.CountIsFilterLength(users, IsOwnerAccount);
    Seqs.CountIsFilterLength(properties, IsActiveListing);
    Stats(Seqs.Count(users, IsOwnerAccount), |properties|, Seqs.Count(properties, IsActiveListing))
  }

  /** An entry of `getUsers`: the account without its password, and how many listings it owns. */
  datatype UserSummary = UserSummary(user: PublicUser, propertiesCount: nat)

  function SummaryOf(properties: seq<Property>): User -> UserSummary
  {
    (u: User) => UserSummary(WithoutPassword(u), Seqs.Count(properties, OwnedBy(u.id)))
  }

  /** `getUsers`: the owner-role accounts, newest first, each with its listing count. */
  function UserListing(users: seq<User>, properties: seq<Property>): (r: seq<UserSummary>)
    ensures |r| == Seqs.Count(users, IsOwnerAccount)
    ensures forall i :: 0 <= i < |r| ==>
              r[i].user.role == Owner && r[i].propertiesCount == Seqs.Count(properties, OwnedBy(r[i].user.id))
  {
    Seqs.CountIsFilterLength(users, IsOwnerAccount);
    var owners := Seqs.Reverse(Seqs.Filter(users, IsOwnerAccount));
    assert forall k :: 0 <= k < |owners| ==> owners[k] in Seqs.Filter(users, IsOwnerAccount);
    Seqs.Map(owners, SummaryOf(properties))
  }

  /**
    One entry per owner-role account and no other; every entry is an owner, carries
    no password, counts exactly the listings that account owns, and the entries run
    newest first.
  */
  lemma UserListingSpec(users: seq<User>, properties: seq<Property>)
    ensures |UserListing(users, properties)| == Seqs.Count(users, IsOwnerAccount)
    ensures forall e :: e in UserListing(users, properties) ==>
              e.user.role == Owner && e.propertiesCount == |Seqs.Filter(properties, OwnedBy(e.user.id))|
    ensures forall u :: u in users && u.role == Owner ==>
              SummaryOf(properties)(u) in UserListing(users, properties)
    ensures forall e :: e in UserListing(users, properties) ==>
              exists u :: u in users && u.role == Owner && e.user == WithoutPassword(u)
    ensures Seqs.Increasing(users, UserKey) ==>
              forall i, j :: 0 <= i < j < |UserListing(users, properties)| ==>
                UserListing(users, properties)[i].user.id > UserListing(users, properties)[j].user.id
  {
    var owners := Seqs.Reverse(Seqs.Filter(users, IsOwnerAccount));
    var r := UserListing(users, properties);
    Seqs.CountIsFilterLength(users, IsOwnerAccount);
    Seqs.NewestFirstQuery(users, IsOwnerAccount, UserKey);
    Seqs.MapElements(owners, SummaryOf(properties));
    forall e | e in r
      ensures e.user.role == Owner && e.propertiesCount == |Seqs.Filter(properties, OwnedBy(e.user.id))|
      ensures exists u :: u in users && u.role == Owner && e.user == WithoutPassword(u)
    {
      var k :| 0 <= k < |r| && r[k] == e;
      assert owners[k] in owners;
      Seqs.CountIsFilterLength(properties, OwnedBy(owners[k].id));
    }
    if Seqs.Increasing(users, UserKey) {
      forall i, j | 0 <= i < j < |r| ensures r[i].user.id > r[j].user.id {
        assert UserKey(owners[i]) > UserKey(owners[j]);
      }
    }
  }

  /** `getAllProperties`: every listing, newest first. */
  function AllProperties(properties: seq<Property>): (r: seq<Property>)
    ensures forall p :: p in r ==> p in properties
    ensures forall p :: p in properties ==> p in r
    ensures |r| == |properties|
    ensures Seqs.Increasing(properties, PropertyKey) ==> Seqs.Decreasing(r, PropertyKey)
  {
    Seqs.ReverseSameElements(properties);
    Seqs.ReverseOfIncreasing(properties, PropertyKey);
    Seqs.Reverse(properties)
  }

  /** `getActivityLogs`: the 100 most recent entries at most, the latest first. */
  function RecentLogs(logs: seq<LogEntry>): (r: seq<LogEntry>)
    ensures |r| == if |logs| < LogPageSize then |logs| else LogPageSize
    ensures forall i :: 0 <= i < |r| ==> r[i] == logs[|logs| - 1 - i]
  {
    var newest := Seqs.Reverse(logs);
    if |newest| < LogPageSize then newest else newest[..LogPageSize]
  }

  /** The account with its active flag flipped. */
  function Toggled(u: User): User
  {
    u.(isActive := !u.isActive)
  }

  /** The log detail of a toggle, from the account's new state. */
  function ToggleDetails(u: User): string
  {
    (if u.isActive then "Activated" else "Deactivated") + " user: " + u.name
  }

  /** The reply message of a toggle, from the account's new state. */
  function ToggleMessage(u: User): string
  {
    "User " + (if u.isActive then "activated" else "deactivated") + " successfully"
  }

  /** Detail and message both say "activated" exactly when the new state is active. */
  lemma ToggleWording(u: User)
    ensures ToggleDetails(u)[..9] == "Activated" <==> u.isActive
    ensures ToggleMessage(u)[5..14] == "activated" <==> u.isActive
  {
    if u.isActive {
      assert ToggleDetails(u)[..9] == "Activated";
      assert ToggleMessage(u)[5..14] == "activated";
    } else {
      assert ToggleDetails(u)[..9] == "Deactivat";
      assert ToggleMessage(u)[5..14] == "deactivat";
    }
  }

  /** Two toggles in a row restore the account and log two different details. */
  lemma ToggleTwiceRestores(users: seq<User>, i: nat)
    requires i < |users|
    ensures Toggled(Toggled(users[i])) == users[i]
    ensures users[i := Toggled(users[i])][i := Toggled(Toggled(users[i]))] == users
    ensures ToggleDetails(Toggled(users[i])) != ToggleDetails(Toggled(Toggled(users[i])))
  {
    var once := Toggled(users[i]);
    var twice := Toggled(once);
    assert ToggleDetails(once)[0] != ToggleDetails(twice)[0];
  }

  /**
    `toggleUserStatus`: a malformed id fails the cast and answers 500, an unknown
    id 404, both with nothing changed; otherwise the account's `isActive` flips,
    nothing else in the store changes, and one `USER_STATUS_TOGGLE` entry by the
    acting admin is appended.
  */
  method ToggleUserStatus(db: Database, admin: UserId, id: PathId) returns (reply: Reply, toggled: Option<User>)
    requires db.Valid()
    modifies db
    ensures db.Valid()
    ensures db.properties == old(db.properties) && db.nextPropertyId == old(db.nextPropertyId)
    ensures id.Malformed? ==>
              reply == Reply(500, ToggleErrorMessage) && toggled.None?
              && db.users == old(db.users) && db.logs == old(db.logs)
    ensures id.Parsed? ==>
              match FindUser(old(db.users), id.id)
              case None =>
                reply == Reply(404, UserNotFoundMessage) && toggled.None?
                && db.users == old(db.users) && db.logs == old(db.logs)
              case Some(i) =>
                var u := Toggled(old(db.users)[i]);
                && reply == Reply(200, ToggleMessage(u)) && toggled == Some(u)
                && db.users == old(db.users)[i := u]
                && db.logs == old(db.logs) + [LogEntry(admin, "USER_STATUS_TOGGLE", ToggleDetails(u))]
  {
    if id.Malformed? {
      reply, toggled := Reply(500, ToggleErrorMessage), None;
      return;
    }
    var found := FindUser(db.users, id.id);
    if found.None? {
      reply, toggled := Reply(404, UserNotFoundMessage), None;
      return;
    }
    var i := found.value;
    var user := db.users[i];
    user := user.(isActive := !user.isActive);
    db.SaveUser(i, user);
    db.Record(LogEntry(admin, "USER_STATUS_TOGGLE", ToggleDetails(user)));
    reply, toggled := Reply(200, ToggleMessage(user)), Some(user);
  }

  /** Toggling the same account twice restores the users collection and appends two entries. */
  method ToggleTwice(db: Database, admin: UserId, id: UserId)
    requires db.Valid()
    modifies db
    ensures db.Valid()
    ensures db.users == old(db.users) && db.properties == old(db.properties)
    ensures FindUser(old(db.users), id).Some? ==> |db.logs| == |old(db.logs)| + 2
                                                  && db.logs[..|old(db.logs)|] == old(db.logs)
                                                  && db.logs[|old(db.logs)|] != db.logs[|old(db.logs)| + 1]
    ensures FindUser(old(db.users), id).None? ==> db.logs == old(db.logs)
  {
    var _, _ := ToggleUserStatus(db, admin, Parsed(id));
    var _, _ := ToggleUserStatus(db, admin, Parsed(id));
    if FindUser(old(db.users), id).Some? {
      ToggleTwiceRestores(old(db.users), FindUser(old(db.users), id).value);
    }
  }
}
