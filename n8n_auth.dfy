/** The `n8nAuth` middleware that guards the n8n webhook: no configuration
    lets everything through, configured Basic credentials (section 2 of
    RFC 7617) are the only check when both are set, otherwise an API key
    from the `X-API-Key` header or the `apiKey` query value is compared. */
module N8nAuth {
  import opened Common

  /** The three environment variables; "" stands for unset (falsy). */
  datatype AuthConfig = AuthConfig(apiKey: string, basicUsername: string, basicPassword: string)

  /** The parts of a request the middleware reads; "" stands for absent. */
  datatype AuthRequest = AuthRequest(authorization: string, xApiKey: string, queryApiKey: string)

  /** Pass to the handler (`next()`), or answer with a status and message. */
  datatype Decision = Next | Deny(status: int, message: string)

  const BasicRequired: string := "Basic authentication required"
  const BadBasic: string := "Invalid Basic Auth credentials"
  const KeyRequired: string := "API key is required. Provide it in header: X-API-Key or query: ?apiKey=YOUR_KEY"
  const BadKey: string := "Invalid API key"
  const AuthRequired: string := "Authentication required"

  /** A header that starts with `'Basic '` splits on spaces into `Basic`
      followed by the pieces of the rest. */
  lemma BasicSplit(header: string)
    requires StartsWith(header, "Basic ")
    ensures Split(header, {' '}) == ["Basic"] + Split(header[6..], {' '})
  {
    var rest := header[6..];
    assert header == header[..6] + rest;
    assert header[..6] == "Basic" + [' '];
    assert NoneIn("Basic", {' '});
    SplitAfterFree("Basic", ' ', rest, {' '});
  }

  /** `authHeader.split(' ')[1]` on a header that starts with `'Basic '`:
      the text between the first and the second space. */
  function BasicToken(header: string): (r: string)
    requires StartsWith(header, "Basic ")
    ensures NoneIn(r, {' '})
  {
    BasicSplit(header);
    SplitPiecesFree(header, {' '});
    Split(header, {' '})[1]
  }

  /** `const [username, password] = credentials.split(':')`: the first
      piece, and the second when there is one (otherwise `undefined`). */
  function Credentials(text: string): (r: (string, Option<string>))
    ensures NoneIn(r.0, {':'}) && (r.1.Some? ==> NoneIn(r.1.value, {':'}))
    ensures NoneIn(text, {':'}) ==> r == (text, None)
  {
    var pieces := Split(text, {':'});
    SplitPiecesFree(text, {':'});
    (pieces[0], if |pieces| >= 2 then Some(pieces[1]) else None)
  }

  /** The middleware's decision; `decode` is base64 decoding followed by
      UTF-8 decoding (`Buffer.from(t, 'base64').toString('utf-8')`). */
  function Decide(config: AuthConfig, req: AuthRequest, decode: string -> string): (r: Decision)
    ensures r.Deny? ==> r.status == 401 || r.status == 403
  {
    if config.apiKey == "" && config.basicUsername == "" && config.basicPassword == "" then Next
    else if config.basicUsername != "" && config.basicPassword != "" then
      if req.authorization == "" || !StartsWith(req.authorization, "Basic ") then Deny(401, BasicRequired)
      else
        var creds := Credentials(decode(BasicToken(req.authorization)));
        if creds.0 != config.basicUsername || creds.1 != Some(config.basicPassword) then Deny(403, BadBasic)
        else Next
    else if config.apiKey != "" then
      var provided := if req.xApiKey != "" then req.xApiKey else req.queryApiKey;
      if provided == "" then Deny(401, KeyRequired)
      else if provided != config.apiKey then Deny(403, BadKey)
      else Next
    else Deny(401, AuthRequired)
  }

  /** Nothing configured: every request passes. */
  lemma NoConfigPassesAll(req: AuthRequest, decode: string -> string)
    ensures Decide(AuthConfig("", "", ""), req, decode) == Next
  {
  }

  /** With both Basic settings present the API key plays no part: neither
      the configured key nor any key in the request changes the decision. */
  lemma BasicIgnoresApiKey(config: AuthConfig, req: AuthRequest, decode: string -> string,
                           key: string, header: string, query: string)
    requires config.basicUsername != "" && config.basicPassword != ""
    ensures Decide(config, req, decode) ==
            Decide(config.(apiKey := key), req.(xApiKey := header, queryApiKey := query), decode)
  {
  }

  /** A missing Authorization header, or one of another scheme, is a 401. */
  lemma BasicNeedsBasicHeader(config: AuthConfig, req: AuthRequest, decode: string -> string)
    requires config.basicUsername != "" && config.basicPassword != ""
    requires !StartsWith(req.authorization, "Basic ")
    ensures Decide(config, req, decode) == Deny(401, BasicRequired)
  {
  }

  /** The token of `Basic <token><rest>`, where `rest` is empty or starts
      with a space, is `token`. */
  lemma BasicTokenOf(token: string, rest: string)
    requires NoneIn(token, {' '}) && (rest == [] || rest[0] == ' ')
    ensures StartsWith("Basic " + token + rest, "Basic ")
    ensures BasicToken("Basic " + token + rest) == token
  {
    var h := "Basic " + token + rest;
    assert h[..6] == "Basic ";
    assert h[6..] == token + rest;
    BasicSplit(h);
    if rest == [] {
      assert FirstIn(token, {' '}).None?;
      assert token + rest == token;
    } else {
      assert token + rest == token + [' '] + rest[1..];
      SplitAfterFree(token, ' ', rest[1..], {' '});
    }
  }

  /** The Basic check in full: the request passes exactly when the decoded
      token of `Basic <token>` splits into the configured user-id as first
      piece and the configured password as second piece; otherwise 403. */
  lemma BasicDecision(config: AuthConfig, token: string, rest: string, decode: string -> string)
    requires config.basicUsername != "" && config.basicPassword != ""
    requires NoneIn(token, {' '}) && (rest == [] || rest[0] == ' ')
    ensures var pieces := Split(decode(token), {':'});
            Decide(config, AuthRequest("Basic " + token + rest, "", ""), decode) ==
              if |pieces| >= 2 && pieces[0] == config.basicUsername && pieces[1] == config.basicPassword
              then Next else Deny(403, BadBasic)
  {
    BasicTokenOf(token, rest);
  }

  /** Extra `:`-pieces after the password are ignored: `user:pass:extra`
      is accepted for the configured `user` and `pass`. */
  lemma ExtraPiecesAccepted(config: AuthConfig, token: string, decode: string -> string, extra: string)
    requires config.basicUsername != "" && config.basicPassword != ""
    requires NoneIn(config.basicUsername, {':'}) && NoneIn(config.basicPassword, {':'})
    requires NoneIn(token, {' '})
    requires decode(token) == config.basicUsername + ":" + config.basicPassword + ":" + extra
    ensures Decide(config, AuthRequest("Basic " + token, "", ""), decode) == Next
  {
    var u, p := config.basicUsername, config.basicPassword;
    var text := decode(token);
    Glue(u, p, extra, ':', ':');
    assert text == u + [':'] + (p + [':'] + extra);
    SplitAfterFree(u, ':', p + [':'] + extra, {':'});
    SplitAfterFree(p, ':', extra, {':'});
    var pieces := Split(text, {':'});
    assert pieces == [u] + ([p] + Split(extra, {':'}));
    assert |pieces| >= 2 && pieces[0] == u && pieces[1] == p;
    BasicDecision(config, token, "", decode);
    assert "Basic " + token + "" == "Basic " + token;
  }

  /** On the API-key path the header wins over the query value, and the
      request passes exactly when the chosen key equals the configured one. */
  lemma ApiKeyDecision(config: AuthConfig, req: AuthRequest, decode: string -> string)
    requires config.apiKey != "" && (config.basicUsername == "" || config.basicPassword == "")
    ensures req.xApiKey != "" ==>
              Decide(config, req, decode) == (if req.xApiKey == config.apiKey then Next else Deny(403, BadKey))
    ensures var provided := if req.xApiKey != "" then req.xApiKey else req.queryApiKey;
            provided != "" ==>
              Decide(config, req, decode) == (if provided == config.apiKey then Next else Deny(403, BadKey))
    ensures req.xApiKey == "" && req.queryApiKey == "" ==> Decide(config, req, decode) == Deny(401, KeyRequired)
    ensures Decide(config, req, decode) == Next <==>
              (if req.xApiKey != "" then req.xApiKey else req.queryApiKey) == config.apiKey
  {
  }

  /** Only one Basic setting and no key: every request gets the final 401. */
  lemma HalfBasicConfigDeniesAll(config: AuthConfig, req: AuthRequest, decode: string -> string)
    requires config.apiKey == "" && (config.basicUsername == "") != (config.basicPassword == "")
    ensures Decide(config, req, decode) == Deny(401, AuthRequired)
  {
  }

  // ---------------------------------------------------------------------
  // A configured password containing ':'
  // ---------------------------------------------------------------------

  /** Section 2 of RFC 7617 lets the password contain ':' (only the user-id
      may not), but every piece the split yields is free of ':', so a
      configured password with a colon is never matched: every request is
      refused, whatever credentials it carries. */
  lemma ColonPasswordNeverAccepted(config: AuthConfig, req: AuthRequest, decode: string -> string)
    requires config.basicUsername != "" && config.basicPassword != ""
    requires !NoneIn(config.basicPassword, {':'})
    ensures Decide(config, req, decode).Deny?
  {
    if StartsWith(req.authorization, "Basic ") && req.authorization != "" {
      var text := decode(BasicToken(req.authorization));
      SplitPiecesFree(text, {':'});
    }
  }

  /** The user-pass split of RFC 7617: at the first ':' only. */
  function CredentialsRfc(text: string): (r: Option<(string, string)>)
    ensures r.Some? ==> text == r.value.0 + ":" + r.value.1 && NoneIn(r.value.0, {':'})
    ensures r.None? <==> NoneIn(text, {':'})
  {
    match FirstIn(text, {':'})
    case None => None
    case Some(i) =>
      assert text == text[..i] + ":" + text[i + 1..];
      Some((text[..i], text[i + 1..]))
  }

  /** The Basic decision with the RFC 7617 split. */
  function DecideBasicRfc(config: AuthConfig, req: AuthRequest, decode: string -> string): (r: Decision)
    requires config.basicUsername != "" && config.basicPassword != ""
  {
    if req.authorization == "" || !StartsWith(req.authorization, "Basic ") then Deny(401, BasicRequired)
    else if CredentialsRfc(decode(BasicToken(req.authorization))) ==
            Some((config.basicUsername, config.basicPassword)) then Next
    else Deny(403, BadBasic)
  }

  /** With the RFC split, credentials `user:password` are accepted exactly
      for the configured pair, a password with ':' included. */
  lemma DecideBasicRfcAccepts(config: AuthConfig, token: string, decode: string -> string)
    requires config.basicUsername != "" && config.basicPassword != ""
    requires NoneIn(config.basicUsername, {':'}) && NoneIn(token, {' '})
    ensures DecideBasicRfc(config, AuthRequest("Basic " + token, "", ""), decode) == Next <==>
            decode(token) == config.basicUsername + ":" + config.basicPassword
  {
    var u, p := config.basicUsername, config.basicPassword;
    BasicTokenOf(token, "");
    assert "Basic " + token + "" == "Basic " + token;
    if decode(token) == u + ":" + p {
      assert u + ":" + p == u + [':'] + p;
      FirstInAfterFree(u, ':', p, {':'});
      assert (u + [':'] + p)[..|u|] == u;
      assert (u + [':'] + p)[|u| + 1..] == p;
    }
  }
}
