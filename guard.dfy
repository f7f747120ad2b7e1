/** The bearer-token guard in front of the authenticated routes. It checks
    only the header's form: any token longer than ten UTF-16 code units is
    accepted as the same demo user. */
module Guard {
  import opened Wrappers
  import opened Text

  const Bearer := "Bearer "
  const NoToken := "No authorization token provided"
  const InvalidToken := "Invalid token"
  const DemoUser := "demo-user"

  /** An incoming request: its `authorization` header and the `user.sub` the
      guard attaches. */
  class Request {
    var authorization: Option<string>
    var user: Option<string>

    constructor (authorization: Option<string>)
      ensures this.authorization == authorization && user == None
    {
      this.authorization := authorization;
      user := None;
    }
  }

  /** The guard's decision on a header: the subject it attaches, or the
      message of the `UnauthorizedException` it raises. `startsWith` and
      `substring(7)` agree with their character-wise forms because the prefix
      is ASCII; `length` counts UTF-16 code units. */
  function Authorize(header: Option<string>): (r: Result<string>)
    ensures r.Ok? ==> r.value == DemoUser
    ensures r.Err? ==> r.message in {NoToken, InvalidToken}
    ensures (r.Err? && r.message == NoToken) <==> header.None? || !StartsWith(header.value, Bearer)
    ensures r.Ok? <==> header.Some? && StartsWith(header.value, Bearer) && Utf16Length(header.value) > 17
  {
    if header.None? || !StartsWith(header.value, Bearer) then Err(NoToken)
    else
      var token := header.value[|Bearer|..];
      HeaderLength(header.value);
      if Utf16Length(token) > 10 then Ok(DemoUser) else Err(InvalidToken)
  }

  /** The header's length is the prefix's seven units plus the token's. */
  lemma HeaderLength(header: string)
    requires StartsWith(header, Bearer)
    ensures Utf16Length(header) == 7 + Utf16Length(header[7..])
  {
    assert header == Bearer + header[7..];
    Utf16LengthAppend(Bearer, header[7..]);
    assert Utf16Length(Bearer) == 7;
  }

  /** The token alone does not matter: two well-formed headers with tokens of
      the same length get the same decision. */
  lemma SameLengthSameDecision(a: string, b: string)
    requires StartsWith(a, Bearer) && StartsWith(b, Bearer)
    requires Utf16Length(a[7..]) == Utf16Length(b[7..])
    ensures Authorize(Some(a)) == Authorize(Some(b))
  {
    HeaderLength(a);
    HeaderLength(b);
  }

  /** `canActivate`: attaches the demo user on success, and changes nothing
      when it refuses. */
  method CanActivate(request: Request) returns (r: Result<bool>)
    modifies request
    ensures request.authorization == old(request.authorization)
    ensures r.Ok? <==> Authorize(request.authorization).Ok?
    ensures r.Ok? ==> r.value && request.user == Some(DemoUser)
    ensures r.Err? ==> r.message == Authorize(request.authorization).message && request.user == old(request.user)
  {
    var decision := Authorize(request.authorization);
    if decision.Err? {
      return Err(decision.message);
    }
    request.user := Some(decision.value);
    r := Ok(true);
  }
}
