/** The two admin guards: `adminAuth`, a shared-secret header check (the one
    the server mounts on its admin routes), and `requireAdmin`, a Bearer-token
    check. The JWT verification behind `requireAdmin` is a parameter. */
module Middlewares {
  import opened Wrappers
  import opened JsString
  import opened Http

  const UnauthorizedResponse := Response(Unauthorized, Error("unauthorized"))

  /** `adminAuth`: the `x-admin-secret` header must be present, non-empty and
      equal to the configured `ADMIN_SECRET`. */
  function AdminAuth(secretHeader: Option<string>, adminSecret: Option<string>): (d: Decision)
    ensures d == Next || d == Reject(UnauthorizedResponse)
    ensures secretHeader.None? ==> d.Reject?
    ensures secretHeader == Some("") ==> d.Reject?
    ensures adminSecret.None? ==> d.Reject?
    ensures secretHeader != adminSecret ==> d.Reject?
    ensures secretHeader.Some? && secretHeader.value != "" && secretHeader == adminSecret ==> d == Next
  {
    if secretHeader.None? || secretHeader.value == "" || Some(secretHeader.value) != adminSecret then
      Reject(UnauthorizedResponse)
    else
      Next
  }

  const BearerPrefix := "Bearer "
  const MissingBearerResponse := Response(Unauthorized, Error("Não autorizado"))
  const InvalidTokenResponse := Response(Unauthorized, Error("Token inválido ou expirado"))

  /** `authHeader.split(" ")[1]` for a header that starts with `"Bearer "`:
      the text after the prefix up to the next space, possibly empty. */
  function BearerToken(header: string): (token: string)
    requires StartsWith(header, BearerPrefix)
    ensures ' ' !in token
    ensures token <= header[|BearerPrefix|..]
    ensures |token| < |header| - |BearerPrefix| ==> header[|BearerPrefix| + |token|] == ' '
  {
    BearerSplit(header);
    Split(header, ' ')[1]
  }

  /** A header with the Bearer prefix splits into `"Bearer"` and the parts of
      the rest. */
  lemma BearerSplit(header: string)
    requires StartsWith(header, BearerPrefix)
    ensures Split(header, ' ') == ["Bearer"] + Split(header[|BearerPrefix|..], ' ')
    ensures Split(header, ' ')[1] == Split(header[|BearerPrefix|..], ' ')[0]
    ensures Split(header[|BearerPrefix|..], ' ')[0] <= header[|BearerPrefix|..]
    ensures var rest := header[|BearerPrefix|..];
      |Split(rest, ' ')[0]| < |rest| ==> rest[|Split(rest, ' ')[0]|] == ' '
  {
    var rest := header[|BearerPrefix|..];
    assert header == "Bearer" + [' '] + rest by {
      assert header[..|BearerPrefix|] == BearerPrefix;
    }
    SplitAfterWord("Bearer", rest, ' ');
    SplitFirstSpec(rest, ' ');
  }

  /** Two spaces after `Bearer` give the empty token; a second word after the
      token is ignored. */
  lemma BearerTokenExamples()
    ensures BearerToken("Bearer  x") == ""
    ensures BearerToken("Bearer a b") == "a"
  {
    assert "Bearer  x" == BearerPrefix + "" + [' '] + "x";
    BearerTokenOf("", "x");
    assert "Bearer a b" == BearerPrefix + "a" + [' '] + "b";
    BearerTokenOf("a", "b");
  }

  /** The token of `"Bearer " + token + " " + rest` is `token`, whatever
      `rest` holds. */
  lemma BearerTokenOf(token: string, rest: string)
    requires ' ' !in token
    ensures StartsWith(BearerPrefix + token + [' '] + rest, BearerPrefix)
    ensures BearerToken(BearerPrefix + token + [' '] + rest) == token
  {
    var header := BearerPrefix + token + [' '] + rest;
    assert header[..|BearerPrefix|] == BearerPrefix;
    BearerSplit(header);
    assert header[|BearerPrefix|..] == token + [' '] + rest;
    SplitAfterWord(token, rest, ' ');
  }

  /** `requireAdmin`: the `Authorization` header must start with the exact
      prefix `"Bearer "`, and the token after it must pass `verifies` against
      `JWT_SECRET`. The two rejections carry different messages. */
  function RequireAdmin(authorization: Option<string>, jwtSecret: Option<string>,
                        verifies: (string, Option<string>) -> bool): (d: Decision)
    ensures authorization.None? ==> d == Reject(MissingBearerResponse)
    ensures authorization.Some? && !StartsWith(authorization.value, BearerPrefix) ==>
              d == Reject(MissingBearerResponse)
    ensures authorization.Some? && StartsWith(authorization.value, BearerPrefix) ==>
              d == if verifies(BearerToken(authorization.value), jwtSecret) then Next
                   else Reject(InvalidTokenResponse)
    ensures d.Next? ==> authorization.Some? && StartsWith(authorization.value, BearerPrefix)
  {
    if authorization.None? || !StartsWith(authorization.value, BearerPrefix) then
      Reject(MissingBearerResponse)
    else if verifies(BearerToken(authorization.value), jwtSecret) then
      Next
    else
      Reject(InvalidTokenResponse)
  }

  /** A header-shape rejection can be told apart from a failed verification. */
  lemma RequireAdminMessagesDiffer()
    ensures MissingBearerResponse != InvalidTokenResponse
  {
    assert MissingBearerResponse.body.error[0] == 'N';
  }
}
