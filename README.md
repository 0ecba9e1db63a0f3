# Room-rental backend: credential gate, listing operations and admin views

A Dafny model of the logic of a room-rental listing backend (an Express/Mongoose
service): the bearer-token credential check and the admin/owner role gates, the
property listing operations (create, public search, owner listing, single read,
guarded update and delete, each mutation followed by one activity-log entry),
the admin views and the user status toggle, and the Property schema.

The document store is abstracted as a `Database` object holding the users, the
properties and the activity log as sequences in creation order, with strictly
increasing ids; "sort by `createdAt`, newest first" is therefore a reversal, a
query is a filter and `countDocuments` is a count. `jwt.verify` is a parameter
(`verifier`, a function from the token to its outcome), `Date.now()` is the
parameter `nowMs`, and the Express request/response pair is an `Exchange`
object (`req.user` and the replies written) plus a `Continuation` for `next`.

Files:

- `wrappers.dfy`: `Option`.
- `seqs.dfy`: reversal, filter, count, map, first index, and the ordering lemmas.
- `text.dfy`: first-occurrence `replace`, `split`/`join`, JavaScript `trim`, case-insensitive substring.
- `property_schema.dfy`: the Property record, the status enum, the validity predicate, validation of a draft.
- `store.dfy`: users, log entries, lookups, the `Database` class and its write primitives.
- `http.dfy`: replies, the request/response exchange, the `next` continuation.
- `auth.dfy`: `auth`, `adminAuth`/`ownerAuth`, `checkSession`.
- `property_controller.dfy`: the property handlers.
- `admin_controller.dfy`: the admin handlers.

The model follows the code as written; in particular:

- The explicit expiry check is strict (`exp < now`), so a token whose `exp` equals the current second passes it. A missing or zero `exp` skips it.
- `replace('Bearer ', '')` removes the first occurrence of `Bearer ` anywhere in the header, not only a prefix (`Text.RemoveFirst`).
- An update writes whatever fields the body carries, `owner` included. The owner is not immutable.
- A `:id` route parameter that is not a well-formed ObjectId makes `findById` throw a CastError, which the handler's `catch` answers with 500, not 404 (`Store.PathId`).
- When `auth` refuses inside a role gate, the gate's own 403 comes after the 401 was already sent. The model keeps the first reply.

## Model

| member | source | states |
|---|---|---|
| `AuthMiddleware.Authenticate` | backend/middlewares/auth.js:4-62 | a refusal is always status 401; a success yields an active stored user without its password |
| `AuthMiddleware.AuthenticatedIffAdmitted` | backend/middlewares/auth.js:8-43 | success with user i exactly when the token is present, verified, unexpired, names user i's id, and user i is active |
| `AuthMiddleware.MissingTokenShortCircuits` | backend/middlewares/auth.js:6-13 | without a token the reply is 401 "No token provided" whatever the verifier, clock and store |
| `AuthMiddleware.BearerToken` | backend/middlewares/auth.js:6 | no header gives no token; otherwise the token is the header, or the header with the seven characters of `Bearer ` cut out |
| `AuthMiddleware.StandardHeader` | backend/middlewares/auth.js:6 | the header `Bearer <t>` yields the token `t` |
| `AuthMiddleware.LibraryErrorsMapped` | backend/middlewares/auth.js:44-61 | TokenExpiredError gives "Session expired", JsonWebTokenError gives "Invalid token", any other failure gives "Authentication failed", all 401 |
| `AuthMiddleware.ExpiredSkipsLookup` | backend/middlewares/auth.js:17-24 | a verified but expired payload is refused with "Session expired" whatever the store holds |
| `AuthMiddleware.ExpiryIsStrict` | backend/middlewares/auth.js:17-43 | for an active user named by a verified token, access is granted exactly when `exp` is 0 or not below the current second; otherwise the reply is 401 "Session expired" |
| `AuthMiddleware.DeactivatedRefused` | backend/middlewares/auth.js:35-40 | an inactive account is refused with "Account is deactivated" for any verified token naming it whose `exp` has not passed |
| `AuthMiddleware.UnknownIdRefused` | backend/middlewares/auth.js:26-33 | a verified, unexpired token naming no stored user is refused with 401 "Invalid token" |
| `AuthMiddleware.Auth` | backend/middlewares/auth.js:4-62 | on success `req.user` is set and `next` runs once with no reply; on failure one 401 reply is sent, `req.user` is untouched and `next` does not run |
| `AuthMiddleware.RoleAuth` | backend/middlewares/auth.js:65-104 | `next` runs exactly when the credentials pass and the role matches; a credential failure leaves its 401 as the only reply; a role mismatch gives 403 with the role's message |
| `AuthMiddleware.CheckSession` | backend/middlewares/auth.js:107-110 | passes the request on: `next` runs once |
| `Text.RemoveFirst` | backend/middlewares/auth.js:6 | `replace` with a string pattern removes at most one occurrence: the result is as long as the input, or shorter by exactly the pattern's length |
| `Text.RemoveFirstCutsFirstOccurrence` | backend/middlewares/auth.js:6 | the header with its first `Bearer ` occurrence cut out, the rest kept |
| `Text.RemoveFirstWithoutOccurrence` | backend/middlewares/auth.js:6 | a header without `Bearer ` is the token unchanged |
| `Text.Split` | backend/controllers/propertyController.js:36 | a split yields at least one piece, and no piece contains the separator |
| `Text.JoinSplit` | backend/controllers/propertyController.js:36 | joining the split pieces with the separator gives back the input |
| `Text.SplitCount` | backend/controllers/propertyController.js:36 | a split has one more piece than the input has separators |
| `Text.Trim` | backend/models/Property.js:9-13 | the trimmed title has no whitespace at either end and is a slice of the input with only whitespace cut away |
| `Text.TrimIdempotent` | backend/models/Property.js:9-13 | trimming a stored title again changes nothing |
| `PropertySchema.ParseStatus` | backend/models/Property.js:50-54 | absent status defaults to active; a given status is accepted exactly when it is "active" or "inactive" |
| `PropertySchema.Validate` | backend/models/Property.js:3-56 | a draft is accepted exactly when owner and all required strings are present (title non-empty after trim), counts are set and at least 0 and the status is in the enum; the result satisfies the schema and carries the draft's owner, trimmed title, description, state, city, address, counts, images, amenities and parsed status (active by default) |
| `PropertySchema.ValidRoundTrip` | backend/models/Property.js:3-56 | a valid stored property re-validates to itself |
| `Store.Database.Insert` | backend/controllers/propertyController.js:40 | saving a valid new listing appends it under a fresh id and keeps the store well formed |
| `Store.Database.Replace` | backend/controllers/propertyController.js:176-180 | an update replaces one record by a valid one with the same id, nothing else |
| `Store.Database.Remove` | backend/controllers/propertyController.js:223 | a delete removes one record and no record with its id remains |
| `Store.Database.Record` | backend/controllers/propertyController.js:43-47 | the activity log only grows by the one entry appended |
| `Store.Database.SaveUser` | backend/controllers/adminController.js:138-139 | saving a user replaces only that user's record |
| `PropertyController.ImagesOf` | backend/controllers/propertyController.js:19-23 | one image descriptor per uploaded file, in order, with filename, original name and path copied |
| `PropertyController.Amenities` | backend/controllers/propertyController.js:36 | absent or empty gives no tags; otherwise commas-plus-one tags, none containing a comma, that join back to the input |
| `PropertyController.NewDraft` | backend/controllers/propertyController.js:25-38 | the new document belongs to the caller, starts active, has one image per uploaded file and the title as sent |
| `PropertyController.CreatedIsActiveAndOwned` | backend/controllers/propertyController.js:25-38 | whatever owner or status the body carries, a created listing belongs to the caller and is active |
| `PropertyController.CreateProperty` | backend/controllers/propertyController.js:5-61 | a valid listing is appended and exactly one `PROPERTY_CREATE` entry by the caller follows; a validation failure gives 500 and changes nothing |
| `PropertyController.Matches` | backend/controllers/propertyController.js:81 | a filter with only the status key matches exactly the listings with that status; a rent range whose `$gte` exceeds its `$lte` matches nothing |
| `PropertyController.BuildFilter` | backend/controllers/propertyController.js:66-79 | the filter always holds status active; each parameter adds only its own key; the rent key exists iff minRent or maxRent is given, with `$gte`/`$lte` exactly for those given; no parameters gives the status constraint alone; a listing matches iff it satisfies every supplied constraint |
| `PropertyController.GetPublicProperties` | backend/controllers/propertyController.js:64-100 | exactly the active listings satisfying the supplied constraints, newest first |
| `PropertyController.FoundByOwnDetails` | backend/controllers/propertyController.js:64-81 | an active listing is found by a search for its own state, city, rent and bedrooms |
| `PropertyController.OwnerProperties` | backend/controllers/propertyController.js:103-119 | exactly the caller's listings, newest first |
| `PropertyController.GetProperty` | backend/controllers/propertyController.js:122-145 | a malformed id is the 500 (failed cast); otherwise the stored listing with that id, or the 404 exactly when no listing has it |
| `PropertyController.CheckAccess` | backend/controllers/propertyController.js:148-165 | a malformed id fails first (the 500); then not found exactly when no listing has the id; forbidden only when one exists with another owner; granted only to its owner |
| `PropertyController.OwnershipGuard` | backend/controllers/propertyController.js:159-165 | for a stored listing the guard grants its owner and forbids everyone else |
| `PropertyController.Apply` | backend/controllers/propertyController.js:167-180 | the merged document has every path set, and an update that sets nothing reads back as the stored document |
| `PropertyController.UpdateMerge` | backend/controllers/propertyController.js:167-180 | the merge keeps the id; each field the body carries is written (title trimmed, status by its enum name, owner included) and each field it omits keeps its stored value; images are replaced exactly when files were uploaded |
| `PropertyController.UpdateAccepted` | backend/controllers/propertyController.js:176-180 | the merged document passes the validators exactly when every field the body carries is acceptable: non-empty strings, a title non-empty after trim, counts at least 0, a status in the enum |
| `PropertyController.EmptyUpdateChangesNothing` | backend/controllers/propertyController.js:167-180 | an update with no fields and no files leaves a valid listing as it was |
| `PropertyController.UpdateProperty` | backend/controllers/propertyController.js:148-201 | a malformed id gives 500, then 404 before 403, all with store and log unchanged; a validation failure also changes nothing; a success replaces only that record and appends one `PROPERTY_UPDATE` entry naming the new title |
| `PropertyController.DeleteProperty` | backend/controllers/propertyController.js:204-243 | a malformed id gives 500, then 404 before 403, all with store and log unchanged; a success removes only that record and appends one `PROPERTY_DELETE` entry with the title before deletion |
| `AdminController.DashboardStats` | backend/controllers/adminController.js:6-34 | counts the owner-role users, all listings and active listings; active listings never exceed all listings |
| `AdminController.UserListing` | backend/controllers/adminController.js:37-70 | as many entries as owner-role accounts, each an owner carrying the count of that account's listings |
| `AdminController.UserListingSpec` | backend/controllers/adminController.js:37-70 | one entry per owner-role user, newest first, without password, each counting exactly the listings that user owns |
| `AdminController.AllProperties` | backend/controllers/adminController.js:73-95 | every listing once, newest first |
| `AdminController.RecentLogs` | backend/controllers/adminController.js:98-121 | at most 100 entries, the latest first |
| `AdminController.ToggleWording` | backend/controllers/adminController.js:142-150 | detail and message say "Activated"/"activated" exactly when the new state is active |
| `AdminController.ToggleTwiceRestores` | backend/controllers/adminController.js:138-146 | toggling twice restores the account, and the two log details differ |
| `AdminController.ToggleUserStatus` | backend/controllers/adminController.js:124-161 | a malformed id gives 500 and an unknown id 404, both with nothing changed; otherwise only that user's active flag flips and one `USER_STATUS_TOGGLE` entry by the admin is appended |
| `AdminController.ToggleTwice` | backend/controllers/adminController.js:138-146 | two toggles leave the users as they were and append two different entries |

## Left out

- The signature check of `jwt.verify` and its own expiry check: their outcome is the `verifier` parameter.
- The clock: `Date.now()` is the parameter `nowMs`.
- The Mongoose query engine: `find`, `populate`, `select`, `sort` and `countDocuments` are functions over the sequences. `populate` of the owner or log user is not modelled.
- Timestamps: `createdAt`/`updatedAt` are not stored. Newest first is reverse creation order, which assumes creation times increase with creation.
- Regular-expression search: state and city match as an ASCII case-insensitive substring. Metacharacters in the query are not interpreted.
- Number parsing: `parseInt`/`parseFloat` are not modelled. Parameters arrive parsed as optional integers, and `rent` is an integer rather than a float.
- Query or body values that are arrays or other non-string JSON are not modelled.
- Update validation checks the merged record against the whole schema, which stands for `runValidators` on the updated paths.
- `amenities` in an update body arrives already cast to a list of strings.
- Store failures: a failing store or log write (the 500 paths after a committed write) and a log write after a committed mutation that fails are not modelled. No transaction spans the write and the log entry.
- Concurrency: `async`/`await` interleaving and the `Promise.all` fan-out in `getUsers` are modelled sequentially.
- `console.log` output.
- The User and ActivityLog models, `authController`, upload handling, route wiring, server startup, the database connection and the admin seeding script are not part of this model. The User record carries the fields the core reads.
- The error response a role gate tries to send after a refused credential check (`ERR_HTTP_HEADERS_SENT`) is dropped; only the first reply is kept.
