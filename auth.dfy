/** The `authenticate` middleware (middlewares/auth.js): bearer-header parsing
    and the decision chain that either attaches the user and calls `next`, or
    answers 401. `jwt.verify` and `User.findById` are oracles passed in. */
module Auth {
  import opened Types
  import JsString

  const BearerPrefix: string := "Bearer "

  const TokenMissing: string := "Unauthorized: Token missing"
  const InvalidPayload: string := "Invalid token payload"
  const UserNotFound: string := "User not found"
  const InvalidOrExpired: string := "Invalid or expired token"

  /** What `jwt.verify(token, secret)` does: throw (bad signature, expired token),
      or return a payload whose `id` may be missing. */
  datatype Verification = VerifyThrows | Decoded(id: Option<string>)

  /** What `User.findById(id).select("-password")` does: throw (for instance on
      an id that is not an ObjectId), find nothing, or find the user. */
  datatype UserLookup = LookupThrows | NoSuchUser | Found(user: User)

  /** Either the user handed on to the next handler, or the 401 error text. */
  datatype Decision = Reject(error: string) | Accept(user: User)

  datatype ErrorReply = ErrorReply(status: int, error: string)

  function WellFormedHeader(header: Option<string>): (b: bool)
    ensures b <==> exists rest :: header == Some(BearerPrefix + rest)
  {
    header.Some? && JsString.StartsWith(header.value, BearerPrefix)
  }

  /** `authHeader.split(" ")[1]`: the run of non-spaces right after the prefix,
      which is empty when a second space follows it. */
  function Token(header: string): (t: string)
    requires JsString.StartsWith(header, BearerPrefix)
    ensures ' ' !in t
    ensures JsString.StartsWith(header[|BearerPrefix|..], t)
    ensures |BearerPrefix| + |t| == |header| || header[|BearerPrefix| + |t|] == ' '
  {
    var rest := header[|BearerPrefix|..];
    assert header == "Bearer" + [' '] + rest;
    JsString.SplitAfterWord("Bearer", ' ', rest);
    JsString.FirstField(rest, ' ');
    JsString.Split(header, ' ')[1]
  }

  /** With two spaces after "Bearer" the token is the empty string. */
  lemma DoubleSpaceGivesEmptyToken(rest: string)
    ensures JsString.StartsWith("Bearer  " + rest, BearerPrefix)
    ensures Token("Bearer  " + rest) == ""
  {
    var h := "Bearer  " + rest;
    assert h[..|BearerPrefix|] == BearerPrefix;
    assert h[|BearerPrefix|] == ' ';
  }

  /** The client sends `Bearer ${token}`; the middleware recovers exactly that
      token whenever it holds no space. */
  lemma BearerRoundTrip(token: string)
    requires ' ' !in token
    ensures JsString.StartsWith(BearerPrefix + token, BearerPrefix)
    ensures Token(BearerPrefix + token) == token
  {
    var h := BearerPrefix + token;
    assert h[..|BearerPrefix|] == BearerPrefix;
    assert h[|BearerPrefix|..] == token;
  }

  /** `!decoded?.id` is false: the payload id is present and not empty. */
  predicate Truthy(id: Option<string>)
  {
    id.Some? && id.value != ""
  }

  /** The chain of checks, in the order the middleware makes them. */
  function Decide(header: Option<string>, verify: string -> Verification, findById: Id -> UserLookup): (d: Decision)
    ensures !WellFormedHeader(header) ==> d == Reject(TokenMissing)
    ensures WellFormedHeader(header) ==>
      var v := verify(Token(header.value));
      && (v.VerifyThrows? ==> d == Reject(InvalidOrExpired))
      && (v.Decoded? && !Truthy(v.id) ==> d == Reject(InvalidPayload))
      && (v.Decoded? && Truthy(v.id) ==>
           match findById(v.id.value)
           case LookupThrows => d == Reject(InvalidOrExpired)
           case NoSuchUser => d == Reject(UserNotFound)
           case Found(u) => d == Accept(u))
    ensures d.Accept? <==>
      && WellFormedHeader(header)
      && verify(Token(header.value)).Decoded?
      && Truthy(verify(Token(header.value)).id)
      && findById(verify(Token(header.value)).id.value).Found?
  {
    if !WellFormedHeader(header) then Reject(TokenMissing)
    else
      match verify(Token(header.value))
      case VerifyThrows => Reject(InvalidOrExpired)
      case Decoded(id) =>
        if !Truthy(id) then Reject(InvalidPayload)
        else
          match findById(id.value)
          case LookupThrows => Reject(InvalidOrExpired)
          case NoSuchUser => Reject(UserNotFound)
          case Found(u) => Accept(u)
  }

  /** The Express request and response as the middleware sees them. */
  class AuthRequest {
    const authorization: Option<string>
    var user: Option<User>
    /** How many times `next()` has been called for this request. */
    var nextCalls: nat
    var reply: Option<ErrorReply>

    constructor (authorization: Option<string>)
      ensures this.authorization == authorization
      ensures user == None && nextCalls == 0 && reply == None
    {
      this.authorization := authorization;
      user := None;
      nextCalls := 0;
      reply := None;
    }
  }

  /** `authenticate(req, res, next)`: on acceptance `req.user` is the loaded user
      and `next` is called once; on every rejection `next` is not called and the
      response is a 401 with the decision's error text. */
  method Authenticate(req: AuthRequest, verify: string -> Verification, findById: Id -> UserLookup)
    modifies req
    ensures match Decide(req.authorization, verify, findById)
      case Accept(u) =>
        && req.user == Some(u)
        && req.nextCalls == old(req.nextCalls) + 1
        && req.reply == old(req.reply)
      case Reject(e) =>
        && req.user == old(req.user)
        && req.nextCalls == old(req.nextCalls)
        && req.reply == Some(ErrorReply(401, e))
  {
    var header := req.authorization;
    if header.None? || !JsString.StartsWith(header.value, BearerPrefix) {
      req.reply := Some(ErrorReply(401, TokenMissing));
      return;
    }
    var token := Token(header.value);
    var decoded := verify(token);
    if decoded.VerifyThrows? {
      req.reply := Some(ErrorReply(401, InvalidOrExpired));
      return;
    }
    if !Truthy(decoded.id) {
      req.reply := Some(ErrorReply(401, InvalidPayload));
      return;
    }
    var found := findById(decoded.id.value);
    if found.LookupThrows? {
      req.reply := Some(ErrorReply(401, InvalidOrExpired));
      return;
    }
    if found.NoSuchUser? {
      req.reply := Some(ErrorReply(401, UserNotFound));
      return;
    }
    req.user := Some(found.user);
    req.nextCalls := req.nextCalls + 1;
  }
}
