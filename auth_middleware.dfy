/** `middleware/authMiddleware.js`: the `Authorization` header must carry a
    `Bearer ` token (prefix matched case-sensitively, as written) that the
    JWT verifier accepts; the verifier is a parameter. */
module AuthMiddleware {

  import opened Wrappers
  import Text

  /** The claims `issueToken` signs: the user id and address. */
  datatype Claims = Claims(sub: string, email: string)

  datatype Verdict = Pass(claims: Claims) | Reject(message: string)

  const BearerPrefix := "Bearer "
  const Unauthorized := "Unauthorized"
  const SessionInvalid := "Session expired or invalid"

  /** The token after the seven-character `Bearer ` prefix; `None` for a
      missing header, another scheme, or an empty token. */
  function ExtractToken(header: Option<string>): (t: Option<string>)
    ensures t.Some? <==> header.Some? && Text.StartsWith(header.value, BearerPrefix) && |header.value| > 7
    ensures t.Some? ==> header.value == BearerPrefix + t.value && t.value != []
  {
    var h := if header.Some? then header.value else "";
    if Text.StartsWith(h, BearerPrefix) then
      var token := h[7..];
      assert h == h[..7] + token;
      if token == [] then None else Some(token)
    else None
  }

  /** The header built from a token gives that token back, when it is
      non-empty. */
  lemma ExtractTokenRoundTrip(token: string)
    ensures ExtractToken(Some(BearerPrefix + token)) == (if token == [] then None else Some(token))
  {
    var h := BearerPrefix + token;
    assert h[..7] == BearerPrefix;
    assert h[7..] == token;
  }

  /** The scheme's name is case-sensitive here: a lower-case `bearer`
      header is refused. */
  lemma LowerCaseSchemeRefused(token: string)
    ensures ExtractToken(Some("bearer " + token)).None?
  {
    var h := "bearer " + token;
    assert h[0] == 'b' != BearerPrefix[0];
    assert h[..7] != BearerPrefix by {
      assert h[..7][0] == 'b';
    }
  }

  /** The decision: 401 "Unauthorized" without a token, 401 "Session
      expired or invalid" when verification fails, otherwise the claims. */
  function Authenticate(header: Option<string>, verify: string -> Option<Claims>): (v: Verdict)
    ensures v.Pass? <==> ExtractToken(header).Some? && verify(ExtractToken(header).value).Some?
    ensures v.Pass? ==> v.claims == verify(ExtractToken(header).value).value
    ensures ExtractToken(header).None? ==> v == Reject(Unauthorized)
    ensures ExtractToken(header).Some? && verify(ExtractToken(header).value).None? ==> v == Reject(SessionInvalid)
  {
    match ExtractToken(header)
    case None => Reject(Unauthorized)
    case Some(token) =>
      match verify(token)
      case None => Reject(SessionInvalid)
      case Some(claims) => Pass(claims)
  }

  /** One request passing through the middleware: `user` is `req.user`,
      `status` and `message` the reply sent, `nextCalls` how often `next`
      ran. */
  class Exchange {
    var user: Option<Claims>
    var status: Option<nat>
    var message: string
    var nextCalls: nat

    constructor ()
      ensures user.None? && status.None? && message == [] && nextCalls == 0
    {
      user, status, message, nextCalls := None, None, [], 0;
    }

    /** `authMiddleware(req, res, next)`. */
    method Run(header: Option<string>, verify: string -> Option<Claims>)
      modifies this
      ensures var v := Authenticate(header, verify);
        && (v.Pass? ==> user == Some(v.claims) && nextCalls == old(nextCalls) + 1 && status == old(status)
                        && message == old(message))
        && (v.Reject? ==> status == Some(401) && message == v.message && nextCalls == old(nextCalls)
                          && user == old(user))
    {
      var authHeader := if header.Some? then header.value else "";
      var token: Option<string> := None;
      if Text.StartsWith(authHeader, BearerPrefix) {
        token := Some(authHeader[7..]);
      }
      if token.None? || token.value == [] {
        status, message := Some(401), Unauthorized;
        return;
      }
      assert ExtractToken(header) == token;
      var payload := verify(token.value);
      if payload.None? {
        status, message := Some(401), SessionInvalid;
        return;
      }
      user := payload;
      nextCalls := nextCalls + 1;
    }
  }

  /** A fresh request with a valid token reaches the handler exactly once
      and with the verified claims; without one it never does. */
  method FreshRequest(header: Option<string>, verify: string -> Option<Claims>) returns (e: Exchange)
    ensures fresh(e)
    ensures e.nextCalls == (if Authenticate(header, verify).Pass? then 1 else 0)
    ensures e.nextCalls == 1 ==> e.user == verify(ExtractToken(header).value) && e.status.None?
    ensures e.nextCalls == 0 ==> e.status == Some(401) && e.user.None?
  {
    e := new Exchange();
    e.Run(header, verify);
  }
}
