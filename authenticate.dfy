/** The bearer-header gate in front of the user routes: `Authorization: Bearer <token>`
    (the scheme of section 2.1 of RFC 6750, simplified to a split on single spaces and a
    case-sensitive scheme), then JWT verification and a user lookup. Verification is the
    function `verify`, which yields the user id in the token's payload or nothing when
    the token is rejected (bad signature, expired, malformed). */
module Authenticate {
  import opened Options
  import opened JsString
  import opened Users

  datatype Denial = NotAuthorized | TokenMissing

  /** The middleware either attaches a user to the request or answers 401. */
  datatype AuthResult = Authorized(user: User) | Denied(reason: Denial)

  const UnauthorizedStatus: int := 401

  function Message(d: Denial): (msg: string)
    ensures d == NotAuthorized <==> msg == "Not authorized"
    ensures d == TokenMissing <==> msg == "Token missing"
  {
    match d
    case NotAuthorized => "Not authorized"
    case TokenMissing => "Token missing"
  }

  /** `bearer`, the first space-separated piece of the header: everything before the
      first space, or the whole header when it has none. */
  function Scheme(header: string): (scheme: string)
    ensures ' ' !in scheme && scheme <= header
    ensures |scheme| < |header| ==> header[|scheme|] == ' '
  {
    SplitFront(header);
    Split(header)[0]
  }

  /** `token`, the second space-separated piece, with an absent one read as `""` (both
      are falsy): the text between the first space and the next one or the end. */
  function TokenOf(header: string): (token: string)
    ensures ' ' !in token
    ensures ' ' !in header ==> token == ""
    ensures ' ' in header ==> Scheme(header) + " " + token <= header
    ensures ' ' in header && |Scheme(header)| + 1 + |token| < |header| ==>
      header[|Scheme(header)| + 1 + |token|] == ' '
  {
    SplitFront(header);
    var pieces := Split(header);
    if |pieces| >= 2 then pieces[1] else ""
  }

  /** The guard `!user || !user.accessToken` passes: the verified id names a user whose
      access token is neither absent nor empty. */
  predicate Admits(users: map<UserId, User>, id: Option<UserId>)
    ensures Admits(users, id) <==>
      id.Some? && id.value in users && users[id.value].accessToken != None && users[id.value].accessToken != Some("")
  {
    id.Some? && id.value in users && HasToken(users[id.value].accessToken)
  }

  /** `authenticate`: an absent header is `""`. */
  function Authenticate(authorization: Option<string>, verify: string -> Option<UserId>,
                        users: map<UserId, User>): (r: AuthResult)
    ensures var h := authorization.GetOr("");
      && (Scheme(h) != "Bearer" ==> r == Denied(NotAuthorized))
      && (Scheme(h) == "Bearer" && TokenOf(h) == "" ==> r == Denied(TokenMissing))
      && (r.Authorized? <==> Scheme(h) == "Bearer" && TokenOf(h) != "" && Admits(users, verify(TokenOf(h))))
      && (r.Authorized? ==> r.user == users[verify(TokenOf(h)).value])
      && (r.Denied? && r.reason == TokenMissing ==> Scheme(h) == "Bearer" && TokenOf(h) == "")
  {
    var header := authorization.GetOr("");
    var bearer := Scheme(header);
    var token := TokenOf(header);
    if bearer != "Bearer" then Denied(NotAuthorized)
    else if token == "" then Denied(TokenMissing)
    else
      match verify(token)
      case None => Denied(NotAuthorized)
      case Some(id) =>
        if id !in users || !HasToken(users[id].accessToken) then Denied(NotAuthorized)
        else Authorized(users[id])
  }

  /** No header at all is treated as an empty one, which has no "Bearer" scheme. */
  lemma MissingHeaderDenied(verify: string -> Option<UserId>, users: map<UserId, User>)
    ensures Authenticate(None, verify, users) == Denied(NotAuthorized)
    ensures Authenticate(Some(""), verify, users) == Denied(NotAuthorized)
  {
  }

  /** A header `"Bearer " + token`, possibly followed by more space-separated text, presents
      exactly `token`: the second piece is the token, and anything after it is ignored. */
  lemma BearerToken(token: string, tail: string)
    requires ' ' !in token
    ensures Scheme("Bearer " + token) == "Bearer" && TokenOf("Bearer " + token) == token
    ensures Scheme("Bearer " + token + " " + tail) == "Bearer" && TokenOf("Bearer " + token + " " + tail) == token
  {
    BearerPieces(token, tail);
  }

  /** How a `Bearer` header splits. */
  lemma BearerPieces(token: string, tail: string)
    requires ' ' !in token
    ensures Split("Bearer " + token) == ["Bearer", token]
    ensures Split("Bearer " + token + " " + tail) == ["Bearer", token] + Split(tail)
  {
    assert ' ' !in "Bearer";
    assert "Bearer " + token == "Bearer" + " " + token;
    SplitTwoWords("Bearer", token);
    SplitTwoWordsThen("Bearer", token, tail);
  }

  /** Only the second piece is used: extra pieces do not change the outcome. */
  lemma ExtraPiecesIgnored(token: string, tail: string, verify: string -> Option<UserId>, users: map<UserId, User>)
    requires ' ' !in token
    ensures Authenticate(Some("Bearer " + token + " " + tail), verify, users)
         == Authenticate(Some("Bearer " + token), verify, users)
  {
    BearerToken(token, tail);
  }

  /** The scheme match is case-sensitive: `"bearer <token>"` is refused whatever the token. */
  lemma LowerCaseSchemeDenied(token: string, verify: string -> Option<UserId>, users: map<UserId, User>)
    ensures Authenticate(Some("bearer " + token), verify, users) == Denied(NotAuthorized)
  {
    assert "bearer " + token == "bearer" + " " + token;
    SplitAtSpace("bearer", token);
    SplitNoSpace("bearer");
  }

  /** A bare `"Bearer"` and `"Bearer "` both lack a token. */
  lemma BareSchemeTokenMissing(verify: string -> Option<UserId>, users: map<UserId, User>)
    ensures Authenticate(Some("Bearer"), verify, users) == Denied(TokenMissing)
    ensures Authenticate(Some("Bearer "), verify, users) == Denied(TokenMissing)
  {
    assert ' ' !in "Bearer";
    SplitNoSpace("Bearer");
    assert "Bearer " == "Bearer" + " " + "";
    SplitTwoWords("Bearer", "");
  }

  /** Success happens only on a header of the form `"Bearer " + token` followed by nothing
      or by a space, with a non-empty space-free token that verifies to the id of a user
      holding an access token; that user is the one attached. */
  lemma AuthorizedShape(header: string, verify: string -> Option<UserId>, users: map<UserId, User>)
    returns (token: string, tail: string)
    requires Authenticate(Some(header), verify, users).Authorized?
    ensures header == "Bearer " + token + tail
    ensures token != "" && ' ' !in token
    ensures tail == "" || tail[0] == ' '
    ensures Admits(users, verify(token))
    ensures Authenticate(Some(header), verify, users).user == users[verify(token).value]
  {
    SplitFront(header);
    var pieces := Split(header);
    token := pieces[1];
    tail := header[|pieces[0]| + 1 + |token|..];
    assert header == (pieces[0] + " " + token) + tail;
  }

  /** A user whose access token was cleared (as logout does) is refused even when their
      token still verifies. */
  lemma ClearedTokenDenied(header: string, verify: string -> Option<UserId>, users: map<UserId, User>, id: UserId)
    requires id in users && users[id].accessToken == Some("")
    requires verify(TokenOf(header)) == Some(id)
    ensures Authenticate(Some(header), verify, users).Denied?
  {
  }
}
