/**
  backend/middlewares/auth.js: the credential check (`auth`), the role gates
  (`adminAuth`, `ownerAuth`) and `checkSession`. The signature check of
  `jwt.verify` is a parameter (`verifier`), the clock is `nowMs`, and the users
  collection is passed as a value.
*/
module AuthMiddleware {

  import opened Wrappers
  import opened Text
  import opened PropertySchema
  import opened Store
  import opened Http

  /** The `id` claim: missing, a well-formed ObjectId, or a string that is not one. */
  datatype PayloadId = Absent | ObjectId(uid: UserId) | Malformed

  /** The decoded token payload: the subject id and the optional `exp` claim in seconds. */
  datatype Payload = Payload(id: PayloadId, exp: Option<int>)

  /** What `jwt.verify` does with a token: returns the payload or throws one of its errors. */
  datatype VerifyResult =
    | Verified(payload: Payload)
    | TokenExpiredError
    | JsonWebTokenError
    | OtherError

  datatype AuthOutcome = Authenticated(user: PublicUser) | Rejected(reply: Reply)

  const NoTokenMessage := "Access denied. No token provided."
  const ExpiredMessage := "Session expired. Please login again."
  const InvalidTokenMessage := "Invalid token."
  const DeactivatedMessage := "Account is deactivated."
  const FailedMessage := "Authentication failed."
  const AccessDeniedMessage := "Access denied."

  function RoleRequiredMessage(role: Role): string
  {
    match role
    case Admin => "Access denied. Admin role required."
    case Owner => "Access denied. Owner role required."
  }

  const BearerPrefix := "Bearer "

  /** `req.header('Authorization')?.replace('Bearer ', '')`. */
  function BearerToken(header: Option<string>): (token: Option<string>)
    ensures token.None? <==> header.None?
    ensures token.Some? ==> |token.value| == |header.value| || |token.value| == |header.value| - |BearerPrefix|
  {
    match header
    case None => None
    case Some(h) => Some(RemoveFirst(h, BearerPrefix))
  }

  /** The token is truthy: present and not the empty string. */
  predicate HasToken(token: Option<string>)
  {
    token.Some? && token.value != ""
  }

  /** `Math.floor(Date.now() / 1000)`. */
  function NowSeconds(nowMs: nat): nat
  {
    nowMs / 1000
  }

  /** `decoded.exp && decoded.exp < currentTime`: a missing or zero `exp` never expires. */
  predicate IsExpired(exp: Option<int>, nowSec: int)
  {
    exp.Some? && exp.value != 0 && exp.value < nowSec
  }

  /**
    The decision of `auth`: the first failing check of presence, verification,
    expiry, lookup and the active flag decides the reply.
  */
  function Authenticate(header: Option<string>, verifier: string -> VerifyResult,
                        nowMs: nat, users: seq<User>): (r: AuthOutcome)
    ensures r.Rejected? ==> r.reply.status == 401
    ensures r.Authenticated? ==> r.user.isActive
    ensures r.Authenticated? ==>
              exists i :: 0 <= i < |users| && users[i].isActive && r.user == WithoutPassword(users[i])
  {
    var token := BearerToken(header);
    if !HasToken(token) then Rejected(Reply(401, NoTokenMessage))
    else match verifier(token.value)
      case TokenExpiredError => Rejected(Reply(401, ExpiredMessage))
      case JsonWebTokenError => Rejected(Reply(401, InvalidTokenMessage))
      case OtherError => Rejected(Reply(401, FailedMessage))
      case Verified(payload) =>
        if IsExpired(payload.exp, NowSeconds(nowMs)) then Rejected(Reply(401, ExpiredMessage))
        else match payload.id
          // findById(undefined) finds nothing
          case Absent => Rejected(Reply(401, InvalidTokenMessage))
          // findById throws a CastError, which the catch maps to the generic message
          case Malformed => Rejected(Reply(401, FailedMessage))
          case ObjectId(uid) =>
            match FindUser(users, uid)
            case None => Rejected(Reply(401, InvalidTokenMessage))
            case Some(i) =>
              if !users[i].isActive then Rejected(Reply(401, DeactivatedMessage))
              else Authenticated(WithoutPassword(users[i]))
  }

  /** Every check passes for the stored user at index `i`. */
  predicate AdmittedAt(header: Option<string>, verifier: string -> VerifyResult,
                       nowMs: nat, users: seq<User>, i: nat)
  {
    var token := BearerToken(header);
    && i < |users|
    && HasToken(token)
    && verifier(token.value).Verified?
    && !IsExpired(verifier(token.value).payload.exp, NowSeconds(nowMs))
    && verifier(token.value).payload.id == ObjectId(users[i].id)
    && users[i].isActive
  }

  /** The credential check succeeds exactly when every check passes, with that user. */
  lemma AuthenticatedIffAdmitted(header: Option<string>, verifier: string -> VerifyResult,
                                 nowMs: nat, users: seq<User>, i: nat)
    requires Seqs.Increasing(users, UserKey)
    requires i < |users|
    ensures Authenticate(header, verifier, nowMs, users) == Authenticated(WithoutPassword(users[i]))
            <==> AdmittedAt(header, verifier, nowMs, users, i)
  {
    var r := Authenticate(header, verifier, nowMs, users);
    if r == Authenticated(WithoutPassword(users[i])) {
      var token := BearerToken(header);
      var uid := verifier(token.value).payload.id.uid;
      var f := FindUser(users, uid);
      assert WithoutPassword(users[f.value]).id == users[i].id;
    }
  }

  /** A missing or empty token is refused before the verifier or the store is consulted. */
  lemma MissingTokenShortCircuits(header: Option<string>, v1: string -> VerifyResult, v2: string -> VerifyResult,
                                  t1: nat, t2: nat, u1: seq<User>, u2: seq<User>)
    requires !HasToken(BearerToken(header))
    ensures Authenticate(header, v1, t1, u1) == Authenticate(header, v2, t2, u2)
                                             == Rejected(Reply(401, NoTokenMessage))
  {
  }

  /** The usual `Bearer <token>` header yields the token. */
  lemma StandardHeader(token: string)
    ensures BearerToken(Some(BearerPrefix + token)) == Some(token)
  {
    var h := BearerPrefix + token;
    assert h[..|BearerPrefix|] == BearerPrefix;
    assert h[|BearerPrefix|..] == token;
  }

  /** Library failures map to their own messages, all with status 401. */
  lemma LibraryErrorsMapped(header: Option<string>, verifier: string -> VerifyResult,
                            nowMs: nat, users: seq<User>)
    requires HasToken(BearerToken(header))
    ensures var v := verifier(BearerToken(header).value);
            var r := Authenticate(header, verifier, nowMs, users);
            && (v == TokenExpiredError ==> r == Rejected(Reply(401, ExpiredMessage)))
            && (v == JsonWebTokenError ==> r == Rejected(Reply(401, InvalidTokenMessage)))
            && (v == OtherError ==> r == Rejected(Reply(401, FailedMessage)))
  {
  }

  /** An expired payload is refused whatever the store holds. */
  lemma ExpiredSkipsLookup(header: Option<string>, verifier: string -> VerifyResult,
                           nowMs: nat, u1: seq<User>, u2: seq<User>)
    requires HasToken(BearerToken(header))
    requires verifier(BearerToken(header).value).Verified?
    requires IsExpired(verifier(BearerToken(header).value).payload.exp, NowSeconds(nowMs))
    ensures Authenticate(header, verifier, nowMs, u1) == Authenticate(header, verifier, nowMs, u2)
                                                    == Rejected(Reply(401, ExpiredMessage))
  {
  }

  /**
    The comparison is strict and skips a zero `exp`: an active user whose verified
    token names it is admitted exactly when `exp` is 0 or not below the current
    second, and is otherwise told the session expired.
  */
  lemma ExpiryIsStrict(header: Option<string>, verifier: string -> VerifyResult,
                       nowMs: nat, users: seq<User>, i: nat, e: int)
    requires i < |users| && users[i].isActive
    requires Seqs.Increasing(users, UserKey)
    requires HasToken(BearerToken(header))
    requires verifier(BearerToken(header).value) == Verified(Payload(ObjectId(users[i].id), Some(e)))
    ensures Authenticate(header, verifier, nowMs, users) == Authenticated(WithoutPassword(users[i]))
            <==> e == 0 || e >= NowSeconds(nowMs)
    ensures !(e == 0 || e >= NowSeconds(nowMs)) ==>
              Authenticate(header, verifier, nowMs, users) == Rejected(Reply(401, ExpiredMessage))
  {
    AuthenticatedIffAdmitted(header, verifier, nowMs, users, i);
  }

  /** A deactivated account is refused even with a verified, unexpired token naming it. */
  lemma DeactivatedRefused(header: Option<string>, verifier: string -> VerifyResult,
                           nowMs: nat, users: seq<User>, i: nat, e: Option<int>)
    requires i < |users| && !users[i].isActive
    requires Seqs.Increasing(users, UserKey)
    requires HasToken(BearerToken(header))
    requires verifier(BearerToken(header).value) == Verified(Payload(ObjectId(users[i].id), e))
    requires !IsExpired(e, NowSeconds(nowMs))
    ensures Authenticate(header, verifier, nowMs, users) == Rejected(Reply(401, DeactivatedMessage))
  {
  }

  /** A verified, unexpired token naming no stored user is an invalid token. */
  lemma UnknownIdRefused(header: Option<string>, verifier: string -> VerifyResult,
                         nowMs: nat, users: seq<User>, uid: UserId, e: Option<int>)
    requires forall k :: 0 <= k < |users| ==> users[k].id != uid
    requires HasToken(BearerToken(header))
    requires verifier(BearerToken(header).value) == Verified(Payload(ObjectId(uid), e))
    requires !IsExpired(e, NowSeconds(nowMs))
    ensures Authenticate(header, verifier, nowMs, users) == Rejected(Reply(401, InvalidTokenMessage))
  {
  }

  /**
    `auth`: on success `req.user` is set and `next` runs once; on failure one 401
    reply is written, `req.user` is left alone and `next` does not run.
  */
  method Auth(ex: Exchange, next: Continuation, header: Option<string>,
              verifier: string -> VerifyResult, nowMs: nat, users: seq<User>)
    modifies ex, next
    ensures var r := Authenticate(header, verifier, nowMs, users);
            && (r.Authenticated? ==> ex.user == Some(r.user) && ex.replies == old(ex.replies)
                                     && next.calls == old(next.calls) + 1)
            && (r.Rejected? ==> ex.user == old(ex.user) && ex.replies == Sent(old(ex.replies), r.reply)
                                && next.calls == old(next.calls))
  {
    var token := BearerToken(header);
    if !HasToken(token) {
      ex.Send(Reply(401, NoTokenMessage));
      return;
    }
    var decoded: Payload;
    match verifier(token.value) {
      case TokenExpiredError =>
        ex.Send(Reply(401, ExpiredMessage));
        return;
      case JsonWebTokenError =>
        ex.Send(Reply(401, InvalidTokenMessage));
        return;
      case OtherError =>
        ex.Send(Reply(401, FailedMessage));
        return;
      case Verified(payload) =>
        decoded := payload;
    }
    if IsExpired(decoded.exp, NowSeconds(nowMs)) {
      ex.Send(Reply(401, ExpiredMessage));
      return;
    }
    var found: Option<nat>;
    match decoded.id {
      case Malformed =>
        ex.Send(Reply(401, FailedMessage));
        return;
      case Absent =>
        found := None;
      case ObjectId(uid) =>
        found := FindUser(users, uid);
    }
    if found.None? {
      ex.Send(Reply(401, InvalidTokenMessage));
      return;
    }
    var user := users[found.value];
    if !user.isActive {
      ex.Send(Reply(401, DeactivatedMessage));
      return;
    }
    ex.user := Some(WithoutPassword(user));
    next.Call();
  }

  /**
    `adminAuth` (required = Admin) and `ownerAuth` (required = Owner): `auth` runs
    with a no-op continuation, then the role is compared. `next` runs exactly when
    the credentials pass and the role matches. When `auth` has refused, reading
    `req.user.role` throws and the catch's 403 finds a reply already written, so
    the 401 is what the client sees.
  */
  method RoleAuth(required: Role, ex: Exchange, next: Continuation, header: Option<string>,
                  verifier: string -> VerifyResult, nowMs: nat, users: seq<User>)
    requires ex.user.None? && ex.replies == []
    modifies ex, next
    ensures var r := Authenticate(header, verifier, nowMs, users);
            && next.calls == old(next.calls) + (if r.Authenticated? && r.user.role == required then 1 else 0)
            && (r.Rejected? ==> ex.user.None? && ex.replies == [r.reply])
            && (r.Authenticated? ==> ex.user == Some(r.user))
            && (r.Authenticated? && r.user.role != required ==>
                  ex.replies == [Reply(403, RoleRequiredMessage(required))])
            && (r.Authenticated? && r.user.role == required ==> ex.replies == [])
  {
    var noop := new Continuation();
    Auth(ex, noop, header, verifier, nowMs, users);
    if ex.user.None? {
      ex.Send(Reply(403, AccessDeniedMessage));
      return;
    }
    if ex.user.value.role != required {
      ex.Send(Reply(403, RoleRequiredMessage(required)));
      return;
    }
    next.Call();
  }

  /** `checkSession`: expiry is left to the token, so the request always passes on. */
  method CheckSession(ex: Exchange, next: Continuation)
    modifies next
    ensures next.calls == old(next.calls) + 1
  {
    next.Call();
  }
}
