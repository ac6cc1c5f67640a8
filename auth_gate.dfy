/** The authentication middleware: reading the bearer token from the `Authorization`
    header, `protect` (reject or attach the identity), `optionalAuth` (never reject) and
    `requireRole` (role-set membership). Token verification is a parameter. */
module AuthGate {
  import opened Wrappers
  import opened JsText
  import opened UserModel

  /** The payload a token carries, which `protect` attaches as `req.user`. */
  datatype Claims = Claims(id: string, email: string, role: Role, companyName: string)

  /** `jwt.verify` under the server's secret: the claims of a well-signed, unexpired
      token, or nothing when verification throws. */
  type Verifier = string -> Option<Claims>

  /** A response the middleware sends itself: a status code and its message. */
  datatype Reply = Reply(status: int, message: string)

  const BearerPrefix := "Bearer "
  const NoTokenReply := Reply(401, "Access denied. No token provided.")
  const BadTokenReply := Reply(401, "Invalid or expired token. Please login again.")
  const ForbiddenReply := Reply(403, "Access denied. You do not have permission to perform this action.")

  /** A header `!authHeader || !authHeader.startsWith("Bearer ")` lets through. */
  predicate IsBearerHeader(header: Option<string>) {
    header.Some? && header.value != "" && StartsWith(header.value, BearerPrefix)
  }

  /** "Bearer" holds no space, so a bearer header splits into at least two parts. */
  lemma BearerSplit(h: string)
    requires StartsWith(h, BearerPrefix)
    ensures Split(h, ' ') == ["Bearer"] + Split(h[|BearerPrefix|..], ' ')
  {
    assert h == "Bearer" + [' '] + h[|BearerPrefix|..];
    SplitAfterWord("Bearer", ' ', h[|BearerPrefix|..]);
  }

  /** The token the middleware verifies: `authHeader.split(" ")[1]`. */
  function BearerToken(header: Option<string>): (t: Option<string>)
    ensures t.Some? <==> IsBearerHeader(header)
  {
    if IsBearerHeader(header) then
      BearerSplit(header.value);
      Some(Split(header.value, ' ')[1])
    else None
  }

  /** The token is the text after "Bearer " up to the next space: with two spaces after
      "Bearer" it is empty, and whatever follows a second word is ignored. */
  lemma BearerTokenIsFirstWord(h: string)
    requires StartsWith(h, BearerPrefix)
    ensures var rest := h[|BearerPrefix|..];
      BearerToken(Some(h)) == Some(rest[..IndexOf(rest, ' ')])
  {
    BearerSplit(h);
    SplitHead(h[|BearerPrefix|..], ' ');
  }

  /** What `protect` decides: reject with a reply, or go on with the decoded claims. */
  datatype Verdict = Reject(reply: Reply) | Proceed(user: Claims)

  function ProtectVerdict(header: Option<string>, verify: Verifier): (v: Verdict)
    ensures v == Reject(NoTokenReply) <==> !IsBearerHeader(header)
    ensures v == Reject(BadTokenReply) <==> IsBearerHeader(header) && verify(BearerToken(header).value).None?
    ensures v.Proceed? ==> verify(BearerToken(header).value) == Some(v.user)
    ensures IsBearerHeader(header) && verify(BearerToken(header).value).Some? ==>
      v == Proceed(verify(BearerToken(header).value).value)
  {
    match BearerToken(header)
    case None => Reject(NoTokenReply)
    case Some(token) =>
      match verify(token)
      case None => Reject(BadTokenReply)
      case Some(claims) => Proceed(claims)
  }

  /** The user `optionalAuth` attaches, if any. */
  function OptionalUser(header: Option<string>, verify: Verifier): Option<Claims> {
    match BearerToken(header)
    case None => None
    case Some(token) => verify(token)
  }

  /** `optionalAuth` attaches exactly the identity `protect` would, and where `protect`
      would reject, it attaches nothing. */
  lemma OptionalAuthAgreesWithProtect(header: Option<string>, verify: Verifier)
    ensures OptionalUser(header, verify).Some? <==> ProtectVerdict(header, verify).Proceed?
    ensures ProtectVerdict(header, verify).Proceed? ==>
      OptionalUser(header, verify) == Some(ProtectVerdict(header, verify).user)
  {
  }

  /** The check `requireRole(...roles)` makes. */
  predicate RoleAllowed(user: Option<Claims>, roles: seq<Role>) {
    user.Some? && user.value.role in roles
  }

  /** After `protect` has let a request through, `requireRole` passes exactly when the
      verified token's role is listed. */
  lemma RoleGateAfterProtect(header: Option<string>, verify: Verifier, roles: seq<Role>)
    requires ProtectVerdict(header, verify).Proceed?
    ensures RoleAllowed(Some(ProtectVerdict(header, verify).user), roles) <==>
      exists c :: verify(BearerToken(header).value) == Some(c) && c.role in roles
  {
  }

  /** `req.user?.id` when it is truthy: the identifier the controllers scope by. */
  function ClaimedId(user: Option<Claims>): (id: Option<string>)
    ensures id.Some? <==> user.Some? && user.value.id != ""
    ensures id.Some? ==> id.value == user.value.id
  {
    if user.Some? && user.value.id != "" then Some(user.value.id) else None
  }

  /** The owner key the controllers scope records by: the claimed id after the `trim`
      setter their schemas put on the owner field, which applies to query filters as well
      as to stored documents; `None` when no identity is attached or its id is empty. */
  function OwnerKey(user: Option<Claims>): (key: Option<string>)
    ensures key.Some? <==> user.Some? && user.value.id != ""
    ensures key.Some? ==> key.value == Trim(user.value.id)
  {
    match ClaimedId(user)
    case None => None
    case Some(id) => Some(Trim(id))
  }

  /** One request passing through the middleware: the header it came with, the user
      attached to it, the reply sent (if any) and how often `next` was called. */
  class AuthExchange {
    const authorization: Option<string>
    var user: Option<Claims>
    var reply: Option<Reply>
    var nextCalls: nat

    constructor (authorization: Option<string>)
      ensures this.authorization == authorization
      ensures user == None && reply == None && nextCalls == 0
    {
      this.authorization := authorization;
      user := None;
      reply := None;
      nextCalls := 0;
    }

    /** `protect`: without a bearer header, or with a token that does not verify, reply
        401 and stop; otherwise attach the claims and call `next` once. */
    method Protect(verify: Verifier)
      modifies this
      ensures match ProtectVerdict(authorization, verify)
        case Reject(r) =>
          reply == Some(r) && user == old(user) && nextCalls == old(nextCalls)
        case Proceed(c) =>
          user == Some(c) && reply == old(reply) && nextCalls == old(nextCalls) + 1
    {
      if !IsBearerHeader(authorization) {
        reply := Some(NoTokenReply);
        return;
      }
      var token := BearerToken(authorization).value;
      var decoded := verify(token);
      if decoded.None? {
        reply := Some(BadTokenReply);
        return;
      }
      user := decoded;
      nextCalls := nextCalls + 1;
    }

    /** `optionalAuth`: never replies, calls `next` once on every path, and attaches a
        user only when the token verifies. */
    method OptionalAuth(verify: Verifier)
      modifies this
      ensures reply == old(reply) && nextCalls == old(nextCalls) + 1
      ensures user == if OptionalUser(authorization, verify).Some?
        then OptionalUser(authorization, verify) else old(user)
    {
      if IsBearerHeader(authorization) {
        var token := BearerToken(authorization).value;
        var decoded := verify(token);
        if decoded.Some? {
          user := decoded;
        }
      }
      nextCalls := nextCalls + 1;
    }

    /** `requireRole(...roles)`: call `next` when a user is attached and its role is
        listed; otherwise reply 403. */
    method RequireRole(roles: seq<Role>)
      modifies this
      ensures user == old(user)
      ensures RoleAllowed(old(user), roles) ==> reply == old(reply) && nextCalls == old(nextCalls) + 1
      ensures !RoleAllowed(old(user), roles) ==> reply == Some(ForbiddenReply) && nextCalls == old(nextCalls)
    {
      if user.None? || user.value.role !in roles {
        reply := Some(ForbiddenReply);
        return;
      }
      nextCalls := nextCalls + 1;
    }
  }
}
