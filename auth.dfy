/**
 * `authenticateToken`: take the second space-separated word of the
 * Authorization header as the token, answer 401 when there is none, 403
 * when verification fails, and otherwise record the token's user id on the
 * request and pass it on.
 */
module Auth {
  import opened Wrappers
  import Strings

  /** jsonwebtoken's `verify` with the server secret, left abstract:
      the `id` of a valid token's payload, or `None`. */
  type Verifier = string -> Option<int>

  /** `authHeader && authHeader.split(' ')[1]`: an absent header has no token,
      the empty header short-circuits to itself, and a header with a single
      word has no second word. */
  function BearerToken(header: Option<string>): (token: Option<string>)
    ensures header.None? ==> token.None?
    ensures header == Some("") ==> token == Some("")
    ensures header.Some? && header.value != "" ==>
      (token.Some? <==> |Strings.Split(header.value, ' ')| >= 2)
    ensures header.Some? && header.value != "" && token.Some? ==> token.value == Strings.Split(header.value, ' ')[1]
  {
    match header
    case None => None
    case Some(h) =>
      if h == "" then Some("")
      else
        var parts := Strings.Split(h, ' ');
        if |parts| >= 2 then Some(parts[1]) else None
  }

  datatype Decision = Unauthorized | Forbidden | Authenticated(userId: int)
  {
    /** The status `sendStatus` answers with, when the request is stopped. */
    function Status(): int
      requires !Authenticated?
    {
      if Unauthorized? then 401 else 403
    }
  }

  /** The middleware's verdict. jsonwebtoken refuses an empty token outright. */
  function Decide(header: Option<string>, verify: Verifier): (d: Decision)
    ensures d == Unauthorized <==> BearerToken(header).None?
    ensures d.Authenticated? <==>
      BearerToken(header).Some? && BearerToken(header).value != "" && verify(BearerToken(header).value).Some?
    ensures d.Authenticated? ==> d.userId == verify(BearerToken(header).value).value
  {
    match BearerToken(header)
    case None => Unauthorized
    case Some(token) =>
      if token == "" then Forbidden
      else match verify(token)
        case None => Forbidden
        case Some(id) => Authenticated(id)
  }

  /** The part of an Express request the middleware reads and writes. */
  class Request {
    const authorization: Option<string>
    var userId: Option<int>
    /** How often the next handler in the chain has been called. */
    var nextCalls: nat
    /** The status sent by the middleware, if it answered itself. */
    var sentStatus: Option<int>

    constructor (authorization: Option<string>)
      ensures this.authorization == authorization
      ensures userId.None? && nextCalls == 0 && sentStatus.None?
    {
      this.authorization := authorization;
      userId := None;
      nextCalls := 0;
      sentStatus := None;
    }
  }

  /** Run the middleware on `req`: either answer 401/403 and stop, or set
      `userId` and call `next` exactly once. */
  method AuthenticateToken(req: Request, verify: Verifier)
    modifies req
    ensures var d := Decide(req.authorization, verify);
      if d.Authenticated? then
        req.userId == Some(d.userId) && req.nextCalls == old(req.nextCalls) + 1 && req.sentStatus == old(req.sentStatus)
      else
        req.sentStatus == Some(d.Status()) && req.userId == old(req.userId) && req.nextCalls == old(req.nextCalls)
  {
    var token := BearerToken(req.authorization);
    if token.None? {
      req.sentStatus := Some(401);
      return;
    }
    var payload := if token.value == "" then None else verify(token.value);
    if payload.None? {
      req.sentStatus := Some(403);
      return;
    }
    req.userId := Some(payload.value);
    req.nextCalls := req.nextCalls + 1;
  }

  /** `Bearer <token>` yields the token whenever the token holds no space. */
  lemma BearerRoundTrip(token: string)
    requires ' ' !in token
    ensures BearerToken(Some("Bearer " + token)) == Some(token)
  {
    var parts := ["Bearer", token];
    assert ' ' !in parts[0];
    Strings.SplitJoin(parts, ' ');
    assert Strings.Join(parts, [' ']) == "Bearer " + token;
  }

  /** A token the verifier accepts, sent as `Bearer <token>`, authenticates its user. */
  lemma SignedTokenAuthenticates(token: string, verify: Verifier, id: int)
    requires ' ' !in token && token != "" && verify(token) == Some(id)
    ensures Decide(Some("Bearer " + token), verify) == Authenticated(id)
  {
    BearerRoundTrip(token);
  }

  /** A non-empty header with no space has no second word: 401. */
  lemma SingleWordUnauthorized(header: string)
    requires header != "" && ' ' !in header
    ensures forall verify: Verifier :: Decide(Some(header), verify) == Unauthorized
  {
    Strings.SplitJoin([header], ' ');
    assert Strings.Join([header], [' ']) == header;
  }

  /** `"Bearer "` has an empty second word, which is not null: it reaches
      verification and is refused with 403. */
  lemma TrailingSpaceForbidden(verify: Verifier)
    ensures BearerToken(Some("Bearer ")) == Some("")
    ensures Decide(Some("Bearer "), verify) == Forbidden
  {
    BearerRoundTrip("");
    assert "Bearer " + "" == "Bearer ";
  }

  /** The empty header is falsy but not null: 403, not 401. */
  lemma EmptyHeaderForbidden(verify: Verifier)
    ensures Decide(Some(""), verify) == Forbidden
  {
  }
}
