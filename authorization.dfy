/**
 * The `token_required` decorator (api/app.py:202-300): the bearer token is
 * taken from the `Authorization` header, verified against the tenant's signing
 * keys, and the caller is let through when the token carries one of the
 * required scopes or roles, or the caller belongs to one of the required
 * groups.
 *
 * Fetching the signing keys and `jwt.decode` are library and network
 * behaviour: their outcome for the extracted token is the input `verify`. The
 * Graph group lookup is the input `member` (None: the lookup raised).
 */
module Authorization {
  import opened Wrappers
  import Text

  /** The claims the decision reads. `scp` is the space-separated scope string, `roles` the role list. */
  datatype Payload = Payload(oid: Option<string>, scp: Option<string>, roles: Option<seq<string>>)

  /** What verifying the token gave: the key set could not be fetched (non-200), no key has the
      token's `kid`, `jwt.decode` or the key lookup raised (expired, wrong audience or issuer,
      malformed), or the verified claims. */
  datatype JwtCheck = JwksUnavailable | SigningKeyNotFound | TokenRejected | TokenAccepted(payload: Payload)

  datatype AuthDecision =
    | Proceed
    | TokenMissing
    | JwksFailed
    | KeyNotFound
    | TokenInvalid
    | MissingUserId
    | AccessDenied

  function StatusCode(d: AuthDecision): int
    requires !d.Proceed?
  {
    match d
    case JwksFailed => 500
    case MissingUserId => 403
    case AccessDenied => 403
    case _ => 401
  }

  /** The token of an `Authorization` header: exactly two whitespace-separated words, the first
      `Bearer`. */
  function ParseAuthorization(header: Option<string>): (token: Option<string>)
    ensures token.Some? ==> Text.IsToken(token.value)
  {
    if header.None? then None
    else
      var parts := Text.Words(header.value);
      if |parts| == 2 && parts[0] == "Bearer" then Some(parts[1]) else None
  }

  /** `any(scope in payload['scp'].split() for scope in required_permissions)`. */
  predicate HasScopePermission(p: Payload, required: seq<string>) {
    p.scp.Some? && required != [] && exists i :: 0 <= i < |required| && required[i] in Text.Words(p.scp.value)
  }

  /** `any(role in payload['roles'] for role in required_permissions)`. */
  predicate HasRolePermission(p: Payload, required: seq<string>) {
    p.roles.Some? && required != [] && exists i :: 0 <= i < |required| && required[i] in p.roles.value
  }

  /** The decorator's decision for one request. */
  function TokenRequired(header: Option<string>, required: seq<string>, groupIds: seq<string>,
                         verify: string -> JwtCheck, member: Option<bool>): AuthDecision
  {
    var token := ParseAuthorization(header);
    if token.None? then TokenMissing
    else
      var check := verify(token.value);
      if check.JwksUnavailable? then JwksFailed
      else if check.SigningKeyNotFound? then KeyNotFound
      else if check.TokenRejected? then TokenInvalid
      else
        var p := check.payload;
        if !Truthy(p.oid) then MissingUserId
        // an exception from the group lookup reaches the generic handler
        else if groupIds != [] && member.None? then TokenInvalid
        else if HasScopePermission(p, required) || HasRolePermission(p, required)
             || (groupIds != [] && member == Some(true)) then Proceed
        else AccessDenied
  }

  // ---------------------------------------------------------------------------
  // Properties

  /** A header yields a token iff it splits into exactly `Bearer` and one more word. */
  lemma ParseAuthorizationShape(header: Option<string>)
    ensures var t := ParseAuthorization(header);
      && (t.Some? <==> header.Some? && |Text.Words(header.value)| == 2 && Text.Words(header.value)[0] == "Bearer")
      && (t.Some? ==> Text.Words(header.value) == ["Bearer", t.value])
  {
    if header.Some? {
      var parts := Text.Words(header.value);
      if |parts| == 2 && parts[0] == "Bearer" {
        assert parts == ["Bearer", parts[1]];
      }
    }
  }

  /** The header the probe task builds, `Bearer <token>`, gives the token back. */
  lemma BearerRoundTrip(token: string)
    requires Text.IsToken(token)
    ensures ParseAuthorization(Some("Bearer " + token)) == Some(token)
  {
    var ws := ["Bearer", token];
    assert Text.IsToken("Bearer") by {
      forall i | 0 <= i < 6 ensures !Text.IsSpace("Bearer"[i]) {}
    }
    assert Text.JoinSpaced(ws[1..]) == token;
    assert Text.JoinSpaced(ws) == "Bearer " + token;
    Text.WordsOfJoin(ws);
  }

  /** Everything the token grants: its scopes and its roles. */
  function Claims(p: Payload): set<string> {
    (if p.scp.Some? then (set w | w in Text.Words(p.scp.value)) else {})
    + (if p.roles.Some? then (set r | r in p.roles.value) else {})
  }

  /** The two `any(...)` loops together: some required permission is among the token's claims. */
  lemma PermissionByClaims(p: Payload, required: seq<string>)
    ensures HasScopePermission(p, required) || HasRolePermission(p, required)
        <==> (set x | x in required) * Claims(p) != {}
  {
    var common := (set x | x in required) * Claims(p);
    if HasScopePermission(p, required) {
      var i :| 0 <= i < |required| && required[i] in Text.Words(p.scp.value);
      assert required[i] in common;
    } else if HasRolePermission(p, required) {
      var i :| 0 <= i < |required| && required[i] in p.roles.value;
      assert required[i] in common;
    }
    if common != {} {
      var x :| x in common;
      var i :| 0 <= i < |required| && required[i] == x;
      if p.scp.Some? && x in Text.Words(p.scp.value) {
        assert HasScopePermission(p, required);
      } else {
        assert HasRolePermission(p, required);
      }
    }
  }

  /** Access is granted exactly when the token was extracted and verified, names a user, and one of
      the required permissions is among its scopes and roles or the caller is in a required group
      (with the group lookup not raising when groups are required). */
  lemma GrantedIff(header: Option<string>, required: seq<string>, groupIds: seq<string>,
                   verify: string -> JwtCheck, member: Option<bool>)
    ensures TokenRequired(header, required, groupIds, verify, member) == Proceed <==>
      var t := ParseAuthorization(header);
      && t.Some? && verify(t.value).TokenAccepted?
      && var p := verify(t.value).payload;
      && Truthy(p.oid)
      && (groupIds != [] ==> member.Some?)
      && ((set x | x in required) * Claims(p) != {} || (groupIds != [] && member == Some(true)))
  {
    var t := ParseAuthorization(header);
    if t.Some? && verify(t.value).TokenAccepted? {
      PermissionByClaims(verify(t.value).payload, required);
    }
  }

  /** Without a required permission list, only the group check can grant access; without both,
      every verified token is refused. */
  lemma NoPermissionsOnlyGroups(header: Option<string>, groupIds: seq<string>, verify: string -> JwtCheck, member: Option<bool>)
    ensures TokenRequired(header, [], groupIds, verify, member) == Proceed ==> groupIds != [] && member == Some(true)
    ensures TokenRequired(header, [], [], verify, member) != Proceed
  {
  }

  /** A request without a well-formed `Bearer` header is answered 401 before the token is looked at. */
  lemma MalformedHeaderRejected(header: Option<string>, required: seq<string>, groupIds: seq<string>,
                                verify: string -> JwtCheck, member: Option<bool>)
    requires header.None? || |Text.Words(header.value)| != 2 || Text.Words(header.value)[0] != "Bearer"
    ensures TokenRequired(header, required, groupIds, verify, member) == TokenMissing
    ensures StatusCode(TokenMissing) == 401
  {
  }
}
