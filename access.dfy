/**
 * The server's request gates (api/server.js): the CORS origin rule, the extraction of a
 * bearer token from the `Authorization` header, and `requireAdmin`, which lets a request
 * through only with a valid token issued to the configured administrator.
 */
module Access {
  import opened Wrappers
  import opened Text

  // ------------------------------------------------------------------ CORS

  /** `http://<host>:`, the part of a development origin before the port. */
  function OriginPrefix(host: string): string { "http://" + host + ":" }

  /** `^http://<host>:\d+$` (`$` without the `m` flag is the end of the text). */
  predicate LocalOrigin(o: string, host: string) {
    var p := OriginPrefix(host);
    |o| > |p| && HasAt(o, 0, p) && AllDigits(o[|p|..])
  }

  /**
   * The `origin` callback: no `Origin` header (or an empty one) is allowed, and so is a
   * localhost or 127.0.0.1 origin on any port; every other origin is refused.
   */
  predicate AllowOrigin(origin: Option<string>) {
    match origin
    case None => true
    case Some(o) => o == "" || LocalOrigin(o, "localhost") || LocalOrigin(o, "127.0.0.1")
  }

  /** Every port of the two development hosts is allowed. */
  lemma AllowsDevelopmentPorts(host: string, port: string)
    requires host == "localhost" || host == "127.0.0.1"
    requires port != [] && AllDigits(port)
    ensures AllowOrigin(Some(OriginPrefix(host) + port))
  {
    var o := OriginPrefix(host) + port;
    assert o[|OriginPrefix(host)|..] == port;
  }

  /**
   * An origin is allowed exactly when it is empty or one of the two development hosts
   * followed by a non-empty run of digits; every other origin, whatever it starts with,
   * is refused.
   */
  lemma AllowedOriginShape(o: string)
    ensures AllowOrigin(Some(o)) <==>
      o == "" || exists k | 0 < k < |o| :: (o[..k] == OriginPrefix("localhost") || o[..k] == OriginPrefix("127.0.0.1")) && AllDigits(o[k..])
  {
    if AllowOrigin(Some(o)) && o != "" {
      var host := if LocalOrigin(o, "localhost") then "localhost" else "127.0.0.1";
      var k := |OriginPrefix(host)|;
      assert o[..k] == OriginPrefix(host);
    }
    if o != "" && exists k | 0 < k < |o| :: (o[..k] == OriginPrefix("localhost") || o[..k] == OriginPrefix("127.0.0.1")) && AllDigits(o[k..]) {
      var k :| 0 < k < |o| && (o[..k] == OriginPrefix("localhost") || o[..k] == OriginPrefix("127.0.0.1")) && AllDigits(o[k..]);
      var host := if o[..k] == OriginPrefix("localhost") then "localhost" else "127.0.0.1";
      PrefixHasAt(o, k, OriginPrefix(host));
      assert LocalOrigin(o, host);
    }
  }

  /** A text whose first `k` characters are `p` holds `p` at 0. */
  lemma PrefixHasAt(o: string, k: nat, p: string)
    requires k <= |o| && o[..k] == p
    ensures HasAt(o, 0, p) && o[|p|..] == o[k..]
  {
    forall i | 0 <= i < |p|
      ensures o[i] == p[i]
    {
      assert o[..k][i] == o[i];
    }
  }

  /**
   * An allowed non-empty origin starts with `http://` and ends in a digit; so every
   * non-empty origin with another scheme (`https://` included), without a port or with
   * a trailing path is refused.
   */
  lemma AllowedOriginEnds(o: string)
    requires AllowOrigin(Some(o)) && o != ""
    ensures |o| >= 7 && o[..7] == "http://"
    ensures IsDigit(o[|o| - 1])
  {
    var host := if LocalOrigin(o, "localhost") then "localhost" else "127.0.0.1";
    var p := OriginPrefix(host);
    forall k | 0 <= k < 7
      ensures o[k] == "http://"[k]
    {
      assert o[0 + k] == p[k];
    }
    assert o[|p|..][|o| - 1 - |p|] == o[|o| - 1];
  }

  /** A secure scheme, a missing port or a trailing path are all refused. */
  lemma RefusedOrigins()
    ensures !AllowOrigin(Some("https://localhost:3000"))
    ensures !AllowOrigin(Some("http://localhost:"))
    ensures !AllowOrigin(Some("http://localhost:3000/"))
  {
    var secure := "https://localhost:3000";
    assert secure[4] != OriginPrefix("localhost")[4];
    assert secure[4] != OriginPrefix("127.0.0.1")[4];
    var trailing := "http://localhost:3000/";
    assert !IsDigit(trailing[|trailing| - 1]);
    assert trailing[7] != OriginPrefix("127.0.0.1")[7];
  }

  // ------------------------------------------------------------------ bearer token

  /** No code point that `.` refuses. */
  predicate NoLineTerminator(s: string) { forall i | 0 <= i < |s| :: !IsLineTerminator(s[i]) }

  /**
   * The capture of `^Bearer\s+(.+)$` with the `i` flag. The run of white space is greedy,
   * so it is as long as it can be while leaving at least one character to the token; the
   * token runs to the end of the header and holds no line terminator.
   */
  function BearerToken(h: string): (t: Option<string>)
    ensures t.Some? ==>
      0 < |t.value| && 7 + |t.value| <= |h| && SameUpToCase(h[..6], "bearer")
      && AllSpaces(h[6..|h| - |t.value|]) && h[|h| - |t.value|..] == t.value && NoLineTerminator(t.value)
  {
    if |h| >= 8 && SameUpToCase(h[..6], "bearer") && IsSpace(h[6]) then
      var j := SpaceRunEnd(h, 6);
      var k := if j < |h| then j else |h| - 1;
      AllSpacesShorter(h, 6, k, j);
      if NoLineTerminator(h[k..]) then Some(h[k..]) else None
    else None
  }

  /** `Bearer`, white space, then a token that does not start with white space: the token is captured whole. */
  lemma BearerTokenShape(p: string, w: string, t: string)
    requires SameUpToCase(p, "bearer") && w != [] && AllSpaces(w)
    requires t != [] && !IsSpace(t[0]) && NoLineTerminator(t)
    ensures BearerToken(p + w + t) == Some(t)
  {
    var h := p + w + t;
    assert h[..6] == p;
    assert h[6..6 + |w|] == w;
    SpaceRunEndAt(h, 6, 6 + |w|);
    assert h[6 + |w|..] == t;
  }

  /** A header of white space only after `Bearer` yields its last character as the token. */
  lemma BearerSpacesOnly(p: string, w: string)
    requires SameUpToCase(p, "bearer") && |w| >= 2 && AllSpaces(w) && !IsLineTerminator(w[|w| - 1])
    ensures BearerToken(p + w) == Some([w[|w| - 1]])
  {
    var h := p + w;
    assert h[..6] == p;
    assert h[6..] == w;
    SpaceRunEndAt(h, 6, |h|);
    assert h[|h| - 1..] == [w[|w| - 1]];
  }

  /** The scheme must be followed by white space and something more. */
  lemma BearerRejects(p: string, t: string)
    requires SameUpToCase(p, "bearer")
    ensures BearerToken(p) == None
    ensures t != [] && !IsSpace(t[0]) ==> BearerToken(p + t) == None
  {
    if t != [] && !IsSpace(t[0]) {
      assert (p + t)[6] == t[0];
    }
  }

  // ------------------------------------------------------------------ requireAdmin

  /** The part of a verified token's payload the gate reads: its `email` claim, if any. */
  datatype Claims = Claims(email: Option<string>)

  /** What `requireAdmin` does with a request: 401, 403, or `next()` with the payload. */
  datatype Gate = Unauthorized | Forbidden | Pass(claims: Claims)

  function GateStatus(g: Gate): nat {
    match g
    case Unauthorized => 401
    case Forbidden => 403
    case Pass(_) => 200
  }

  /**
   * `requireAdmin`. `verify` stands for `jwt.verify` with the server's secret: the
   * payload of a valid token, or None where it throws. The header defaults to ''.
   */
  function RequireAdmin(authorization: Option<string>, verify: string -> Option<Claims>, adminEmail: string): (g: Gate)
    ensures g.Pass? ==> adminEmail != "" && g.claims.email == Some(adminEmail)
    ensures g.Pass? ==> exists token :: BearerToken(Header(authorization)) == Some(token) && verify(token) == Some(g.claims)
    ensures BearerToken(Header(authorization)).None? ==> g == Unauthorized
  {
    match BearerToken(Header(authorization))
    case None => Unauthorized
    case Some(token) =>
      match verify(token)
      case None => Unauthorized
      case Some(claims) => if adminEmail == "" || claims.email != Some(adminEmail) then Forbidden else Pass(claims)
  }

  /** `req.headers.authorization || ''`. */
  function Header(authorization: Option<string>): string {
    match authorization
    case None => ""
    case Some(h) => h
  }

  /** A token that verifies but belongs to someone else, or any token when no administrator is configured, is forbidden. */
  lemma RequireAdminForbidden(authorization: Option<string>, verify: string -> Option<Claims>, adminEmail: string, token: string)
    requires BearerToken(Header(authorization)) == Some(token) && verify(token).Some?
    ensures RequireAdmin(authorization, verify, adminEmail).Forbidden?
        <==> adminEmail == "" || verify(token).value.email != Some(adminEmail)
    ensures RequireAdmin(authorization, verify, adminEmail).Pass?
        <==> adminEmail != "" && verify(token).value.email == Some(adminEmail)
  {
  }

  /** A token that does not verify is unauthorized whatever the configuration. */
  lemma RequireAdminUnverified(authorization: Option<string>, verify: string -> Option<Claims>, adminEmail: string, token: string)
    requires BearerToken(Header(authorization)) == Some(token) && verify(token).None?
    ensures RequireAdmin(authorization, verify, adminEmail) == Unauthorized
  {
  }

  /** With no administrator configured nothing passes. */
  lemma NoAdminConfigured(authorization: Option<string>, verify: string -> Option<Claims>)
    ensures !RequireAdmin(authorization, verify, "").Pass?
  {
  }
}
