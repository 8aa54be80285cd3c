/** src/web/mw_auth.rs: reading the auth-token cookie into a request context,
    the gate that requires one, and the extractor that hands it to handlers. */
module MwAuth {
  import opened Basics
  import opened Text
  import opened Errors

  /** src/ctx.rs: the authenticated user. */
  datatype Ctx = Ctx(userId: string)

  /** What `parse_token` returns: user id, expiration and signature. */
  datatype Token = Token(userId: string, exp: string, sign: string)

  const TOKEN_PREFIX: string := "user-"

  /** The length of the longest prefix of digits (`\d+`, greedy). */
  function DigitRun(s: string): (n: nat)
    ensures n <= |s| && AllDigits(s[..n]) && (n < |s| ==> !IsDigit(s[n]))
    decreases |s|
  {
    if s == [] || !IsDigit(s[0]) then 0
    else
      var n := 1 + DigitRun(s[1..]);
      assert forall i | 1 <= i < n :: s[..n][i] == s[1..][..n - 1][i - 1];
      n
  }

  /** The text up to the first line feed: regex `.` matches anything but `\n`. */
  function FirstLine(s: string): (l: string)
    ensures |l| <= |s| && l == s[..|l|] && '\n' !in l
    ensures |l| < |s| ==> s[|l|] == '\n'
    decreases |s|
  {
    if s == [] || s[0] == '\n' then [] else [s[0]] + FirstLine(s[1..])
  }

  /** The last `.` at a position in `1..p`: where the greedy `(.+)` of the
      expiration stops when the signature must still get a character. */
  function LastDot(line: string, p: int): (r: Option<nat>)
    requires p < |line|
    ensures r.Some? ==> 1 <= r.value <= p && line[r.value] == '.'
    ensures r.Some? ==> forall q | r.value < q <= p :: line[q] != '.'
    ensures r.None? ==> forall q | 1 <= q <= p :: line[q] != '.'
    decreases p
  {
    if p < 1 then None
    else if line[p] == '.' then Some(p)
    else LastDot(line, p - 1)
  }

  /** `parse_token`: the capture `^user-(\d+)\.(.+)\.(.+)` and the `u64`
      parse of the user id, rendered again with `to_string`. */
  function ParseToken(t: string): (r: Result<Token, Error>)
    ensures r.Failure? ==> r.error == AuthFailTokenWrongFormat
  {
    if |t| < |TOKEN_PREFIX| || t[..|TOKEN_PREFIX|] != TOKEN_PREFIX then Failure(AuthFailTokenWrongFormat)
    else ParseUserPart(t[|TOKEN_PREFIX|..])
  }

  /** After `user-`: `(\d+)\.`, then the rest of the pattern. */
  function ParseUserPart(rest: string): (r: Result<Token, Error>)
    ensures r.Failure? ==> r.error == AuthFailTokenWrongFormat
  {
    var n := DigitRun(rest);
    if n == 0 || n == |rest| || rest[n] != '.' then Failure(AuthFailTokenWrongFormat)
    else ParseRemainder(rest[..n], rest[n + 1..])
  }

  /** After the first dot: `(.+)\.(.+)` within the first line, then the
      `u64` parse of the digits. */
  function ParseRemainder(digits: string, after: string): (r: Result<Token, Error>)
    ensures r.Failure? ==> r.error == AuthFailTokenWrongFormat
  {
    var line := FirstLine(after);
    var dot := LastDot(line, |line| - 2);
    if dot.None? then Failure(AuthFailTokenWrongFormat)
    else
      match ParseU64(digits)
      case None => Failure(AuthFailTokenWrongFormat)
      case Some(v) => Success(Token(Decimal(v), line[..dot.value], line[dot.value + 1..]))
  }

  // ---------------------------------------------------------------------------
  // The token grammar, both ways

  lemma {:induction false} DigitRunOf(d: string, tail: string)
    requires AllDigits(d) && (tail == [] || !IsDigit(tail[0]))
    ensures DigitRun(d + tail) == |d|
    decreases |d|
  {
    if d == [] {
      assert d + tail == tail;
    } else {
      assert (d + tail)[1..] == d[1..] + tail;
      DigitRunOf(d[1..], tail);
    }
  }

  lemma {:induction false} FirstLineOf(x: string, w: string)
    requires '\n' !in x && (w == [] || w[0] == '\n')
    ensures FirstLine(x + w) == x
    decreases |x|
  {
    if x == [] {
      assert x + w == w;
    } else {
      assert (x + w)[0] == x[0] && (x + w)[1..] == x[1..] + w;
      FirstLineOf(x[1..], w);
      assert x == [x[0]] + x[1..];
    }
  }

  lemma {:induction false} LastDotAt(line: string, p: int, q: nat)
    requires p < |line| && 1 <= q <= p && line[q] == '.'
    requires forall j | q < j <= p :: line[j] != '.'
    ensures LastDot(line, p) == Some(q)
    decreases p
  {
    if p > q {
      LastDotAt(line, p - 1, q);
    }
  }

  lemma U64OfDigits(d: string)
    requires 1 <= |d| && AllDigits(d)
    ensures ParseU64(d) == if DecimalValue(d) < U64_LIMIT then Some(DecimalValue(d) as u64) else None
  {
    assert UnsignedDigits(d) == d;
  }

  lemma PrefixOf(rest: string)
    ensures ParseToken("user-" + rest) == ParseUserPart(rest)
  {
    assert ("user-" + rest)[..5] == "user-" && ("user-" + rest)[5..] == rest;
  }

  lemma UserPartOf(d: string, after: string)
    requires 1 <= |d| && AllDigits(d)
    ensures ParseUserPart(d + "." + after) == ParseRemainder(d, after)
  {
    var rest := d + "." + after;
    assert rest == d + ("." + after);
    DigitRunOf(d, "." + after);
    assert rest[..|d|] == d && rest[|d|] == '.' && rest[|d| + 1..] == after;
  }

  lemma ConcatSlices(a: string, c: char, b: string)
    ensures (a + [c] + b)[..|a|] == a && (a + [c] + b)[|a| + 1..] == b
  {
  }

  /** In `exp.sign`, with no dot in the signature, the last dot that leaves
      the signature a character is the one after the expiration. */
  lemma DotSplit(exp: string, sign: string)
    requires |exp| >= 1 && |sign| >= 1 && '.' !in sign
    ensures LastDot(exp + "." + sign, |exp + "." + sign| - 2) == Some(|exp|)
  {
    var line := exp + "." + sign;
    forall j | |exp| < j <= |line| - 2 ensures line[j] != '.' {
      assert line[j] == sign[j - |exp| - 1];
    }
    LastDotAt(line, |line| - 2, |exp|);
  }

  /** The first line of what follows the user id is `exp.sign`. */
  lemma LineOf(exp: string, sign: string, w: string)
    requires '\n' !in exp && '\n' !in sign
    requires w == [] || w[0] == '\n'
    ensures FirstLine(exp + "." + sign + w) == exp + "." + sign
  {
    var line := exp + "." + sign;
    assert '\n' !in line by {
      forall j | 0 <= j < |line| ensures line[j] != '\n' {
        if j < |exp| {
          assert line[j] == exp[j];
        } else if j > |exp| {
          assert line[j] == sign[j - |exp| - 1];
        }
      }
    }
    FirstLineOf(line, w);
  }

  lemma RemainderOf(d: string, exp: string, sign: string, w: string)
    requires 1 <= |d| && AllDigits(d) && DecimalValue(d) < U64_LIMIT
    requires |exp| >= 1 && '\n' !in exp
    requires |sign| >= 1 && '\n' !in sign && '.' !in sign
    requires w == [] || w[0] == '\n'
    ensures ParseRemainder(d, exp + "." + sign + w) == Success(Token(StripLeadingZeros(d), exp, sign))
  {
    LineOf(exp, sign, w);
    DotSplit(exp, sign);
    ConcatSlices(exp, '.', sign);
    U64OfDigits(d);
    DecimalRoundTrip(d, 0);
  }

  /** Every token of the shape `user-<digits>.<exp>.<sign>` is accepted, the
      user id losing its leading zeros; the expiration may contain dots, and
      whatever follows the first line is ignored. */
  lemma ParseTokenComplete(d: string, exp: string, sign: string, w: string)
    requires 1 <= |d| && AllDigits(d) && DecimalValue(d) < U64_LIMIT
    requires |exp| >= 1 && '\n' !in exp
    requires |sign| >= 1 && '\n' !in sign && '.' !in sign
    requires w == [] || w[0] == '\n'
    ensures ParseToken("user-" + d + "." + exp + "." + sign + w) == Success(Token(StripLeadingZeros(d), exp, sign))
  {
    var after := exp + "." + sign + w;
    ShapeAssoc(d, exp, sign, w);
    PrefixOf(d + "." + after);
    UserPartOf(d, after);
    RemainderOf(d, exp, sign, w);
  }

  lemma UserPartSound(rest: string) returns (d: string, after: string)
    requires ParseUserPart(rest).Success?
    ensures 1 <= |d| && AllDigits(d) && rest == d + "." + after
    ensures ParseUserPart(rest) == ParseRemainder(d, after)
  {
    var n := DigitRun(rest);
    d, after := rest[..n], rest[n + 1..];
    assert rest == d + "." + after;
  }

  lemma RemainderSound(d: string, after: string) returns (w: string)
    requires 1 <= |d| && AllDigits(d) && ParseRemainder(d, after).Success?
    ensures var tok := ParseRemainder(d, after).value;
      && DecimalValue(d) < U64_LIMIT
      && after == tok.exp + "." + tok.sign + w
      && tok.userId == StripLeadingZeros(d)
      && |tok.exp| >= 1 && '\n' !in tok.exp
      && |tok.sign| >= 1 && '\n' !in tok.sign
      && (w == [] || w[0] == '\n')
  {
    var tok := ParseRemainder(d, after).value;
    var line := FirstLine(after);
    var p := LastDot(line, |line| - 2).value;
    w := after[|line|..];
    assert tok.exp == line[..p] && tok.sign == line[p + 1..];
    assert line == tok.exp + "." + tok.sign;
    assert after == line + w;
    U64OfDigits(d);
    DecimalRoundTrip(d, 0);
  }

  /** `t` is `user-`, the digit run `d`, a dot, the token's expiration, a
      dot, its signature and `w`, which is empty or starts a new line. */
  predicate TokenShape(t: string, tok: Token, d: string, w: string) {
    && 1 <= |d| && AllDigits(d) && DecimalValue(d) < U64_LIMIT
    && t == "user-" + d + "." + tok.exp + "." + tok.sign + w
    && tok.userId == StripLeadingZeros(d)
    && |tok.exp| >= 1 && '\n' !in tok.exp
    && |tok.sign| >= 1 && '\n' !in tok.sign
    && (w == [] || w[0] == '\n')
  }

  /** Whatever `parse_token` accepts has that shape: the user id is the
      digits between `user-` and the first dot after them, without their
      leading zeros. */
  lemma ParseTokenSound(t: string)
    requires ParseToken(t).Success?
    ensures exists d, w :: TokenShape(t, ParseToken(t).value, d, w)
  {
    var tok := ParseToken(t).value;
    var rest := t[5..];
    assert t == "user-" + rest;
    var d, after := UserPartSound(rest);
    var w := RemainderSound(d, after);
    ShapeAssoc(d, tok.exp, tok.sign, w);
    assert TokenShape(t, tok, d, w);
  }

  lemma ShapeAssoc(d: string, exp: string, sign: string, w: string)
    ensures "user-" + (d + "." + (exp + "." + sign + w)) == "user-" + d + "." + exp + "." + sign + w
  {
  }

  /** A user id beyond the `u64` range is rejected. */
  lemma ParseTokenOverflow(d: string, tail: string)
    requires 1 <= |d| && AllDigits(d) && DecimalValue(d) >= U64_LIMIT
    requires tail == [] || !IsDigit(tail[0])
    ensures ParseToken("user-" + d + tail) == Failure(AuthFailTokenWrongFormat)
  {
    assert "user-" + d + tail == "user-" + (d + tail);
    PrefixOf(d + tail);
    DigitRunOf(d, tail);
    assert (d + tail)[..|d|] == d;
    U64OfDigits(d);
  }

  // ---------------------------------------------------------------------------
  // The middleware

  /** The outcome `mw_ctx_resolver` stores: no cookie, or the parsed token. */
  function ResolveCtx(token: Option<string>): Result<Ctx, Error> {
    match token
    case None => Failure(AuthFailNoAuthTokenCookie)
    case Some(t) =>
      match ParseToken(t)
      case Success(tok) => Success(Ctx(tok.userId))
      case Failure(e) => Failure(e)
  }

  /** The condition under which the resolver removes the cookie. */
  predicate RemovesCookie(ctx: Result<Ctx, Error>) {
    ctx.Failure? && ctx.error != AuthFailNoAuthTokenCookie
  }

  /** The cookie goes exactly when one is sent and it is malformed; a valid
      one yields the context of its user. */
  lemma ResolveCtxCases(token: Option<string>)
    ensures token.None? ==> ResolveCtx(token) == Failure(AuthFailNoAuthTokenCookie)
    ensures RemovesCookie(ResolveCtx(token)) <==> token.Some? && ParseToken(token.value).Failure?
    ensures ResolveCtx(token).Success? <==> token.Some? && ParseToken(token.value).Success?
    ensures ResolveCtx(token).Success? ==> ResolveCtx(token).value.userId == ParseToken(token.value).value.userId
  {
  }

  /** The cookie jar of one request. */
  class Cookies {
    var authToken: Option<string>

    constructor (token: Option<string>)
      ensures authToken == token
    {
      authToken := token;
    }
  }

  /** The request's extensions, where the resolver leaves the context. */
  class Extensions {
    var ctx: Option<Result<Ctx, Error>>

    constructor ()
      ensures ctx == None
    {
      ctx := None;
    }
  }

  /** `mw_ctx_resolver`: always passes the request on, after storing the
      context and, on a failure other than a missing cookie, removing the cookie. */
  method CtxResolver(cookies: Cookies, ext: Extensions) returns (r: Result<(), Error>)
    modifies cookies`authToken, ext`ctx
    ensures r.Success?
    ensures ext.ctx == Some(ResolveCtx(old(cookies.authToken)))
    ensures RemovesCookie(ResolveCtx(old(cookies.authToken))) ==> cookies.authToken == None
    ensures !RemovesCookie(ResolveCtx(old(cookies.authToken))) ==> cookies.authToken == old(cookies.authToken)
  {
    var resultCtx := ResolveCtx(cookies.authToken);
    if resultCtx.Failure? && resultCtx.error != AuthFailNoAuthTokenCookie {
      cookies.authToken := None;
    }
    ext.ctx := Some(resultCtx);
    r := Success(());
  }

  /** `mw_require_auth`: `ctx?`, then the request goes on. */
  function RequireAuth(ctx: Result<Ctx, Error>): (r: Result<(), Error>)
    ensures r.Success? <==> ctx.Success?
    ensures r.Failure? ==> r.error == ctx.error
  {
    if ctx.Failure? then Failure(ctx.error) else Success(())
  }

  /** `from_request_parts` for `Ctx`: the stored outcome, or a failure when
      the resolver did not run. */
  function FromRequestParts(stored: Option<Result<Ctx, Error>>): (r: Result<Ctx, Error>)
    ensures stored.None? ==> r == Failure(AuthFailCtxNotInRequestExt)
    ensures stored.Some? ==> r == stored.value
  {
    match stored
    case None => Failure(AuthFailCtxNotInRequestExt)
    case Some(ctx) => ctx
  }

  /** Whether the cookie is missing or malformed or the context was never
      stored, a request the gate stops reaches the client as 403 NO_AUTH. */
  lemma RejectedRequestsAreForbidden(token: Option<string>, resolved: bool)
    ensures var stored := if resolved then Some(ResolveCtx(token)) else None;
      var gate := RequireAuth(FromRequestParts(stored));
      && (gate.Success? <==> resolved && token.Some? && ParseToken(token.value).Success?)
      && (gate.Failure? ==> IsAuthFailure(gate.error) && ClientStatusAndError(gate.error) == (403, NO_AUTH))
  {
  }

  /** The whole middleware chain on a request: the resolver, then the gate. */
  method Authenticate(cookies: Cookies, ext: Extensions) returns (gate: Result<(), Error>, ctx: Result<Ctx, Error>)
    modifies cookies`authToken, ext`ctx
    ensures gate.Success? <==> old(cookies.authToken).Some? && ParseToken(old(cookies.authToken).value).Success?
    ensures gate.Success? ==> ctx == Success(Ctx(ParseToken(old(cookies.authToken).value).value.userId))
    ensures gate.Failure? ==> ClientStatusAndError(gate.error) == (403, NO_AUTH)
    ensures cookies.authToken == None <==> old(cookies.authToken).None? || ParseToken(old(cookies.authToken).value).Failure?
  {
    var passed := CtxResolver(cookies, ext);
    ResolveCtxCases(old(cookies.authToken));
    ctx := FromRequestParts(ext.ctx);
    gate := RequireAuth(ctx);
  }
}
