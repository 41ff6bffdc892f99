/** `requires_auth` in app/api/common/auth/__init__.py: the wrapper that runs
    before a protected handler. It extracts the bearer token, reads the
    token's unverified header, selects the signing key from the JWKS key
    list, asks `jwt.decode` to verify the token, and either stores the
    decoded claims as `current_user` and runs the handler, or ends with an
    `AuthError`. The JWKS fetch, `jwt.get_unverified_header` and `jwt.decode`
    are parameters: the key list, `peek` and `decode`. */
module RequiresAuth {
  import opened Outcomes
  import opened PySplit
  import opened TokenHeader
  import opened KeySelection

  /** The process configuration, read once at start-up. */
  datatype Config = Config(domain: string, algorithms: seq<string>, audience: string)

  /** The arguments of the one `jwt.decode` call. */
  datatype DecodeRequest = DecodeRequest(token: string, key: RsaKey, algorithms: seq<string>, audience: string, issuer: string)

  /** What `jwt.decode` does: return the claims, or raise `ExpiredSignatureError`,
      `JWTClaimsError` or any other exception. */
  datatype DecodeOutcome = Valid(payload: Object) | Expired | ClaimsError | OtherError

  const TokenExpired := AuthError("token_expired", "Token expired.", Unauthorized)
  const InvalidClaims := AuthError("invalid_claims", "Incorrect claims. Please, check the audience and issuer.", Unauthorized)
  const UnparsableToken := AuthError("invalid_header", "Unable to parse authentication token.", BadRequest)
  const KeyNotFound := AuthError("invalid_header", "Unable to find the appropriate key.", BadRequest)

  /** The `except` clauses around `jwt.decode`. */
  function ClassifyDecode(outcome: DecodeOutcome): (r: Outcome<Object>)
    ensures r.Ok? <==> outcome.Valid?
    ensures !r.Uncaught?
  {
    match outcome
    case Valid(payload) => Ok(payload)
    case Expired => Raised(TokenExpired)
    case ClaimsError => Raised(InvalidClaims)
    case OtherError => Raised(UnparsableToken)
  }

  /** `jwt.get_unverified_header(token)`: the header, or `JWTError`, which
      escapes the wrapper. */
  function UnverifiedHeader(peek: string -> Option<Object>, token: string): Outcome<Object> {
    if peek(token).Some? then Ok(peek(token).value) else Uncaught("JWTError")
  }

  /** Everything before `jwt.decode`: the request `decode` is called with, or
      the failure that ends the pipeline before it is called. */
  function DecodeAttempt(cfg: Config, auth: Option<string>, keys: seq<Object>, peek: string -> Option<Object>): Outcome<DecodeRequest> {
    var token :- GetTokenAuthHeader(auth);
    var header :- UnverifiedHeader(peek, token);
    var rsaKey :- SelectKey(keys, header);
    if rsaKey.None? then Raised(KeyNotFound)
    else Ok(DecodeRequest(token, rsaKey.value, cfg.algorithms, cfg.audience, "https://" + cfg.domain + "/"))
  }

  /** The verdict of the wrapper: the claims the handler runs with, or the
      failure that ends the request. */
  function Authorize(cfg: Config, auth: Option<string>, keys: seq<Object>, peek: string -> Option<Object>,
                     decode: DecodeRequest -> DecodeOutcome): Outcome<Object> {
    var request :- DecodeAttempt(cfg, auth, keys, peek);
    ClassifyDecode(decode(request))
  }

  /** A header failure ends the pipeline with that failure, before the token
      header is read and before `jwt.decode`. */
  lemma AuthorizeHeaderFailure(cfg: Config, auth: Option<string>, keys: seq<Object>, peek: string -> Option<Object>,
                               decode: DecodeRequest -> DecodeOutcome)
    requires !GetTokenAuthHeader(auth).Ok?
    ensures !DecodeAttempt(cfg, auth, keys, peek).Ok?
    ensures Authorize(cfg, auth, keys, peek, decode) == GetTokenAuthHeader(auth).PropagateFailure()
  {
  }

  /** When `jwt.get_unverified_header` raises, `JWTError` escapes the wrapper
      and `jwt.decode` is not called. */
  lemma AuthorizeUnverifiedHeaderFails(cfg: Config, auth: Option<string>, keys: seq<Object>, peek: string -> Option<Object>,
                                       decode: DecodeRequest -> DecodeOutcome, token: string)
    requires GetTokenAuthHeader(auth) == Ok(token) && peek(token) == None
    ensures DecodeAttempt(cfg, auth, keys, peek) == Uncaught("JWTError")
    ensures Authorize(cfg, auth, keys, peek, decode) == Uncaught("JWTError")
  {
  }

  /** When a lookup in the key scan raises, `KeyError` escapes the wrapper
      and `jwt.decode` is not called. */
  lemma AuthorizeKeyLookupFails(cfg: Config, auth: Option<string>, keys: seq<Object>, peek: string -> Option<Object>,
                                decode: DecodeRequest -> DecodeOutcome, token: string, header: Object)
    requires GetTokenAuthHeader(auth) == Ok(token) && peek(token) == Some(header)
    requires exists i :: 0 <= i < |keys| && LookupFails(keys[i], header)
    ensures DecodeAttempt(cfg, auth, keys, peek) == Uncaught("KeyError")
    ensures Authorize(cfg, auth, keys, peek, decode) == Uncaught("KeyError")
  {
    SelectKeyRaises(keys, header);
  }

  /** With no JWK matching the token's `kid`, the wrapper raises
      `invalid_header`/400 "Unable to find the appropriate key." and
      `jwt.decode` is not called. */
  lemma AuthorizeNoMatchingKey(cfg: Config, auth: Option<string>, keys: seq<Object>, peek: string -> Option<Object>,
                               decode: DecodeRequest -> DecodeOutcome, token: string, header: Object)
    requires GetTokenAuthHeader(auth) == Ok(token) && peek(token) == Some(header)
    requires forall i :: 0 <= i < |keys| ==> !LookupFails(keys[i], header) && !Matches(keys[i], header)
    ensures DecodeAttempt(cfg, auth, keys, peek) == Raised(KeyNotFound)
    ensures Authorize(cfg, auth, keys, peek, decode) == Raised(AuthError("invalid_header", "Unable to find the appropriate key.", 400))
  {
    SelectKeyLastMatch(keys, header);
  }

  /** With a matching JWK, `jwt.decode` is called once, with the token, the
      projection of the last matching JWK, the configured algorithms, the
      configured audience and the issuer `https://<domain>/`; its outcome
      decides the verdict. */
  lemma AuthorizeDecodes(cfg: Config, auth: Option<string>, keys: seq<Object>, peek: string -> Option<Object>,
                         decode: DecodeRequest -> DecodeOutcome, token: string, header: Object, i: nat)
    requires GetTokenAuthHeader(auth) == Ok(token) && peek(token) == Some(header)
    requires forall j :: 0 <= j < |keys| ==> !LookupFails(keys[j], header)
    requires i < |keys| && Matches(keys[i], header)
    requires forall j :: i < j < |keys| ==> !Matches(keys[j], header)
    ensures Project(keys[i]).Some?
    ensures var request := DecodeRequest(token, Project(keys[i]).value, cfg.algorithms, cfg.audience, "https://" + cfg.domain + "/");
            DecodeAttempt(cfg, auth, keys, peek) == Ok(request)
            && (decode(request) == Expired ==> Authorize(cfg, auth, keys, peek, decode) == Raised(AuthError("token_expired", "Token expired.", 401)))
            && (decode(request) == ClaimsError ==> Authorize(cfg, auth, keys, peek, decode) == Raised(AuthError("invalid_claims", "Incorrect claims. Please, check the audience and issuer.", 401)))
            && (decode(request) == OtherError ==> Authorize(cfg, auth, keys, peek, decode) == Raised(AuthError("invalid_header", "Unable to parse authentication token.", 400)))
            && (decode(request).Valid? ==> Authorize(cfg, auth, keys, peek, decode) == Ok(decode(request).payload))
  {
    SelectKeyLastMatch(keys, header);
  }

  /** Every request `jwt.decode` gets carries the configured algorithms and
      audience, the issuer `https://<domain>/`, the bearer token of the
      header, and a key whose `kid` is the token header's `kid`. */
  lemma DecodeRequestArguments(cfg: Config, auth: Option<string>, keys: seq<Object>, peek: string -> Option<Object>)
    requires DecodeAttempt(cfg, auth, keys, peek).Ok?
    ensures var request := DecodeAttempt(cfg, auth, keys, peek).value;
            request.algorithms == cfg.algorithms && request.audience == cfg.audience
            && request.issuer == "https://" + cfg.domain + "/"
            && GetTokenAuthHeader(auth) == Ok(request.token)
            && peek(request.token).Some? && "kid" in peek(request.token).value
            && request.key.kid == peek(request.token).value["kid"]
  {
    var token := GetTokenAuthHeader(auth).value;
    SelectedKid(keys, peek(token).value);
  }

  /** The handler runs exactly when `jwt.decode` returned claims, and it runs
      with those claims. */
  lemma AuthorizeSucceeds(cfg: Config, auth: Option<string>, keys: seq<Object>, peek: string -> Option<Object>,
                          decode: DecodeRequest -> DecodeOutcome)
    ensures Authorize(cfg, auth, keys, peek, decode).Ok?
            <==> DecodeAttempt(cfg, auth, keys, peek).Ok? && decode(DecodeAttempt(cfg, auth, keys, peek).value).Valid?
    ensures Authorize(cfg, auth, keys, peek, decode).Ok?
            ==> Authorize(cfg, auth, keys, peek, decode).value == decode(DecodeAttempt(cfg, auth, keys, peek).value).payload
  {
  }

  /** The errors the wrapper can end with: the eight `AuthError`s of the
      source, 400 exactly for the two key and token failures, and as
      uncaught exceptions only `IndexError`, `JWTError` and `KeyError`. */
  lemma AuthorizeErrors(cfg: Config, auth: Option<string>, keys: seq<Object>, peek: string -> Option<Object>,
                        decode: DecodeRequest -> DecodeOutcome)
    ensures var v := Authorize(cfg, auth, keys, peek, decode);
            (v.Raised? ==> v.error in {MissingHeader, WrongScheme, TokenNotFound, NotBearerToken, KeyNotFound, TokenExpired, InvalidClaims, UnparsableToken})
            && (v.Raised? ==> (v.error.statusCode == 400 <==> v.error in {KeyNotFound, UnparsableToken}))
            && (v.Raised? ==> v.error.statusCode in {400, 401})
            && (v.Uncaught? ==> v.exception in {"IndexError", "JWTError", "KeyError"})
  {
    var token := GetTokenAuthHeader(auth);
    if token.Ok? && peek(token.value).Some? {
      SelectKeyRaises(keys, peek(token.value).value);
    }
  }

  /** The request context of Flask: `current_user` is set before the
      protected handler runs. `decodeCalls` and `handlerCalls` record the
      calls of `jwt.decode` and of the handler (with the `current_user` the
      handler saw). */
  class RequestContext {
    var currentUser: Option<Object>
    ghost var decodeCalls: seq<DecodeRequest>
    ghost var handlerCalls: seq<Option<Object>>

    constructor ()
      ensures currentUser == None && decodeCalls == [] && handlerCalls == []
    {
      currentUser := None;
      decodeCalls := [];
      handlerCalls := [];
    }

    /** `decorated(*args, **kwargs)` for the header value `auth`, the JWKS
        key list `keys` and the wrapped handler `handler`. */
    method Decorated<R>(cfg: Config, auth: Option<string>, keys: seq<Object>, peek: string -> Option<Object>,
                        decode: DecodeRequest -> DecodeOutcome, handler: Option<Object> -> R)
      returns (r: Outcome<R>)
      modifies this
      ensures var v := Authorize(cfg, auth, keys, peek, decode);
              if v.Ok? then
                r == Ok(handler(Some(v.value))) && currentUser == Some(v.value)
                && handlerCalls == old(handlerCalls) + [Some(v.value)]
              else
                r == v.PropagateFailure() && currentUser == old(currentUser) && handlerCalls == old(handlerCalls)
      ensures var attempt := DecodeAttempt(cfg, auth, keys, peek);
              decodeCalls == old(decodeCalls) + (if attempt.Ok? then [attempt.value] else [])
    {
      var token :- GetTokenAuthHeader(auth);
      var unverified := peek(token);
      if unverified.None? {
        return Uncaught("JWTError");
      }
      var rsaKey :- FindRsaKey(keys, unverified.value);
      if rsaKey.None? {
        return Raised(KeyNotFound);
      }
      var request := DecodeRequest(token, rsaKey.value, cfg.algorithms, cfg.audience, "https://" + cfg.domain + "/");
      decodeCalls := decodeCalls + [request];
      var payload :- ClassifyDecode(decode(request));
      currentUser := Some(payload);
      handlerCalls := handlerCalls + [currentUser];
      r := Ok(handler(currentUser));
    }
  }
}
