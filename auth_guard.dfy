/** `AuthGuard`: the bearer token taken from the `authorization` header, and
    the decision that admits a request and attaches the caller's account.
    Token verification is a parameter standing for the JWT library: it gives
    the account id of the payload, or nothing when verification throws. */
module AuthGuard {
  import opened Wrappers
  import opened Domain
  import opened Text

  /** `extractTokenFromHeader`: the header split on spaces; the second piece
      when the first is exactly `Bearer`, nothing otherwise (and nothing when
      there is no header or no second piece). */
  function ExtractToken(header: Option<string>): (token: Option<string>)
    ensures header.None? ==> token.None?
    ensures header.Some? ==> (token.Some? <==> |Split(header.value, ' ')| >= 2 && Split(header.value, ' ')[0] == "Bearer")
    ensures token.Some? ==> token.value == Split(header.value, ' ')[1] && ' ' !in token.value
  {
    if header.None? then None
    else
      var parts := Split(header.value, ' ');
      if parts[0] == "Bearer" && |parts| >= 2 then Some(parts[1]) else None
  }

  /** The header the web client sends (`Bearer ${token}`, or the empty string
      when it holds no token). */
  function ClientHeader(token: Option<string>): string {
    if Truthy(token) then "Bearer " + token.value else ""
  }

  /** The client's header carries its token back to the server, for a token
      without spaces; with no token none is found. */
  lemma {:induction false} HeaderRoundTrip(token: Option<string>)
    requires token.Some? ==> ' ' !in token.value
    ensures Truthy(token) ==> ExtractToken(Some(ClientHeader(token))) == token
    ensures !Truthy(token) ==> ExtractToken(Some(ClientHeader(token))).None?
  {
    if Truthy(token) {
      var parts := ["Bearer", token.value];
      assert Join(parts, ' ') == ClientHeader(token) by {
        assert Join(parts[1..], ' ') == token.value;
      }
      SplitJoin(parts, ' ');
    } else {
      assert Split("", ' ') == [""];
    }
  }

  /** The account a request is admitted as: a truthy token, verified, whose
      payload id names a stored account. */
  function Authenticate(header: Option<string>, verify: string -> Option<Id>, accounts: map<Id, Account>): (r: Option<Account>)
    ensures r.Some? <==>
      && Truthy(ExtractToken(header))
      && verify(ExtractToken(header).value).Some?
      && verify(ExtractToken(header).value).value in accounts
    ensures r.Some? ==> r.value == accounts[verify(ExtractToken(header).value).value]
  {
    var token := ExtractToken(header);
    if !Truthy(token) then None
    else match verify(token.value)
      case None => None
      case Some(id) => if id in accounts then Some(accounts[id]) else None
  }

  /** An empty token, as from `Bearer` followed by a space, is refused before
      verification. */
  lemma EmptyTokenRefused(verify: string -> Option<Id>, accounts: map<Id, Account>)
    ensures Authenticate(Some("Bearer "), verify, accounts).None?
    ensures Authenticate(Some("Bearer"), verify, accounts).None?
    ensures Authenticate(None, verify, accounts).None?
  {
    assert Join(["Bearer", ""], ' ') == "Bearer ";
    SplitJoin(["Bearer", ""], ' ');
    assert Split("Bearer", ' ') == ["Bearer"];
  }

  /** The request as the guard sees it. */
  class Request {
    var authorization: Option<string>
    var user: Option<Account>

    constructor(authorization: Option<string>)
      ensures this.authorization == authorization && user.None?
    {
      this.authorization := authorization;
      user := None;
    }
  }

  /** `canActivate`: admits the request exactly when it authenticates, and
      then, and only then, sets `request.user` to the account. */
  method CanActivate(request: Request, verify: string -> Option<Id>, accounts: map<Id, Account>) returns (ok: bool)
    modifies request`user
    ensures ok == Authenticate(request.authorization, verify, accounts).Some?
    ensures ok ==> request.user == Authenticate(request.authorization, verify, accounts)
    ensures !ok ==> request.user == old(request.user)
  {
    var token := ExtractToken(request.authorization);
    if token.None? || token.value == "" {
      return false;
    }
    var payload := verify(token.value);
    if payload.None? || payload.value !in accounts {
      return false;
    }
    request.user := Some(accounts[payload.value]);
    return true;
  }
}
