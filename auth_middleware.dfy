/** The bearer-token gate of `src/middleware/auth.js`: take the token out of the
    `Authorization` header, verify it, and either attach the claims to the request and pass
    it on, or answer 401/403 and stop. */
module AuthMiddleware {
  import opened Wrappers
  import opened Clock
  import opened Errors
  import opened Jwt

  const NoTokenMessage := "No token provided. Please include Authorization header with Bearer token."
  const ExpiredMessage := "Token has expired. Please login again."
  const InvalidMessage := "Invalid or malformed token."

  /** `String.prototype.split(' ')`: the pieces between single spaces (empty pieces kept). */
  function Split(s: string): (parts: seq<string>)
    ensures |parts| >= 1
    ensures forall i | 0 <= i < |parts| :: ' ' !in parts[i]
  {
    if |s| == 0 then [""]
    else
      var rest := Split(s[1..]);
      if s[0] == ' ' then [""] + rest else [[s[0]] + rest[0]] + rest[1..]
  }

  /** The inverse of `Split`: the pieces glued back with single spaces. */
  function Join(parts: seq<string>): string
    requires |parts| >= 1
  {
    if |parts| == 1 then parts[0] else parts[0] + " " + Join(parts[1..])
  }

  /** Splitting loses nothing: joining the pieces gives the header back. */
  lemma {:induction false} JoinSplit(s: string)
    ensures Join(Split(s)) == s
  {
    if |s| > 0 {
      var rest := Split(s[1..]);
      JoinSplit(s[1..]);
      if s[0] == ' ' {
        assert ([""] + rest)[1..] == rest;
        assert s == [' '] + s[1..];
      } else {
        var parts := [[s[0]] + rest[0]] + rest[1..];
        if |rest| == 1 {
          assert s == [s[0]] + s[1..];
        } else {
          assert parts[1..] == rest[1..];
          assert Join(rest) == rest[0] + " " + Join(rest[1..]);
          assert s == [s[0]] + s[1..];
        }
      }
    }
  }

  /** A space-free prefix joins the first piece of what follows it. */
  lemma {:induction false} SplitPrefix(a: string, s: string)
    requires ' ' !in a
    ensures Split(a + s) == [a + Split(s)[0]] + Split(s)[1..]
  {
    var tail := Split(s);
    if |a| > 0 {
      assert a[0] in a;
      assert (a + s)[1..] == a[1..] + s;
      assert (a + s)[0] == a[0];
      SplitPrefix(a[1..], s);
      var rest := Split(a[1..] + s);
      assert rest == [a[1..] + tail[0]] + tail[1..];
      assert rest[0] == a[1..] + tail[0] && rest[1..] == tail[1..];
      assert [a[0]] + (a[1..] + tail[0]) == a + tail[0];
    } else {
      assert a + s == s;
      assert a + tail[0] == tail[0];
      assert tail == [tail[0]] + tail[1..];
    }
  }

  /** A space-free word followed by a space is one whole piece. */
  lemma SplitWord(a: string, s: string)
    requires ' ' !in a
    ensures Split(a + " " + s) == [a] + Split(s)
  {
    var spaced := " " + s;
    assert a + " " + s == a + spaced;
    assert spaced[0] == ' ' && spaced[1..] == s;
    assert Split(spaced) == [""] + Split(s);
    SplitPrefix(a, spaced);
    assert a + "" == a;
  }

  /** A header without any space is a single piece. */
  lemma SplitNoSpace(a: string)
    requires ' ' !in a
    ensures Split(a) == [a]
  {
    SplitPrefix(a, "");
    assert a + "" == a;
  }

  /** `req.headers.authorization?.split(' ')[1]`, where `undefined` and `''` both count as
      "no token". The first piece is not compared with `Bearer`. */
  function HeaderToken(header: Option<string>): (t: Option<string>)
    ensures t.Some? ==> WellFormed(t.value)
  {
    match header
    case None => None
    case Some(h) =>
      var parts := Split(h);
      if |parts| >= 2 && parts[1] != "" then Some(parts[1]) else None
  }

  /** What a request carries on: the claims (with `id` as a number) or the rejection sent. */
  datatype GuardResult = Pass(user: Claims) | Reject(error: HttpError)

  /** The whole decision of `verifyToken`. The decoded `id` is already an integer here, so
      `Number(decoded.id)` leaves the claims as they are. */
  function Guard(header: Option<string>, svc: TokenService, now: Timestamp): (g: GuardResult)
    ensures g == Reject(HttpError(401, NoTokenMessage)) <==> HeaderToken(header).None?
    ensures g == Reject(HttpError(401, ExpiredMessage)) <==>
      HeaderToken(header).Some? && svc.verify(HeaderToken(header).value, now).Expired?
    ensures g == Reject(HttpError(403, InvalidMessage)) <==>
      HeaderToken(header).Some? && svc.verify(HeaderToken(header).value, now).Invalid?
    ensures g.Pass? <==>
      HeaderToken(header).Some? && svc.verify(HeaderToken(header).value, now).Verified?
    ensures g.Pass? ==> g.user == svc.verify(HeaderToken(header).value, now).claims
  {
    match HeaderToken(header)
    case None => Reject(HttpError(401, NoTokenMessage))
    case Some(token) =>
      match svc.verify(token, now)
      case Verified(decoded) => Pass(decoded)
      case Expired => Reject(HttpError(401, ExpiredMessage))
      case Invalid => Reject(HttpError(403, InvalidMessage))
  }

  /** The header a client sends, `<scheme> <token>`, gives back exactly the token, whatever
      the scheme word is; anything after a further space is ignored. */
  lemma {:induction false} TokenAfterAnyScheme(scheme: string, token: string, tail: string)
    requires ' ' !in scheme && WellFormed(token)
    ensures HeaderToken(Some(scheme + " " + token)) == Some(token)
    ensures HeaderToken(Some(scheme + " " + token + " " + tail)) == Some(token)
  {
    SplitWord(scheme, token);
    SplitNoSpace(token);
    assert scheme + " " + token + " " + tail == scheme + " " + (token + " " + tail);
    SplitWord(scheme, token + " " + tail);
    SplitWord(token, tail);
  }

  /** A header with no space, or with two spaces after the first word, has no token. */
  lemma {:induction false} NoTokenShapes(word: string, rest: string)
    requires ' ' !in word
    ensures HeaderToken(Some(word)) == None
    ensures HeaderToken(Some(word + " ")) == None
    ensures HeaderToken(Some(word + "  " + rest)) == None
  {
    SplitNoSpace(word);
    SplitWord(word, "");
    assert word + " " == word + " " + "";
    assert word + "  " + rest == word + " " + (" " + rest);
    SplitWord(word, " " + rest);
    SplitWord("", rest);
    assert "" + " " + rest == " " + rest;
  }

  /** A token the service signed passes the gate until it expires, with its own claims,
      and is rejected with the expiry message (never the 403) from then on. */
  lemma IssuedTokenPasses(svc: TokenService, p: Payload, iat: Timestamp, now: Timestamp)
    requires Honest(svc)
    ensures var g := Guard(Some("Bearer " + svc.sign(p, iat)), svc, now);
      && (now < iat + svc.ttl ==> g == Pass(Issued(p, iat, svc.ttl)) && g.user.id == p.id)
      && (iat + svc.ttl <= now ==> g == Reject(HttpError(401, ExpiredMessage)))
  {
    var token := svc.sign(p, iat);
    assert WellFormed(token);
    assert svc.verify(token, now) ==
      if now < iat + svc.ttl then Verified(Issued(p, iat, svc.ttl)) else Expired;
    assert ' ' !in "Bearer";
    TokenAfterAnyScheme("Bearer", token, "");
    assert "Bearer " + token == "Bearer" + " " + token;
  }

  /** The request as the gate sees it: the header it arrived with and the user it may set. */
  class Request {
    const authorization: Option<string>
    var user: Option<Claims>

    constructor (authorization: Option<string>)
      ensures this.authorization == authorization && user == None
    {
      this.authorization := authorization;
      user := None;
    }
  }

  /** `verifyToken`: on success set `req.user` and call `next`; otherwise send the rejection,
      leave the request as it was and do not call `next`. */
  method VerifyToken(req: Request, svc: TokenService, now: Timestamp)
    returns (calledNext: bool, sent: Option<HttpError>)
    modifies req
    ensures var g := Guard(req.authorization, svc, now);
      && calledNext == g.Pass?
      && (g.Pass? ==> req.user == Some(g.user) && sent == None)
      && (g.Reject? ==> req.user == old(req.user) && sent == Some(g.error))
  {
    match Guard(req.authorization, svc, now)
    case Pass(claims) =>
      req.user := Some(claims);
      calledNext, sent := true, None;
    case Reject(error) =>
      calledNext, sent := false, Some(error);
  }
}
