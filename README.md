# Bearer-token authorization of the sensors service, in Dafny

This project models the authorization wrapper of a small Flask service. The
wrapper is `requires_auth` and its helper `get_token_auth_header`, in
`app/api/common/auth/__init__.py`. Before a protected handler runs, it:

1. takes the bearer token from the `Authorization` header, or rejects the
   header with a classified `AuthError`;
2. reads the token's unverified header and scans the JWKS key list for keys
   whose `kid` equals the token's `kid`. Each match overwrites the selected key
   with its five RSA fields, so the last match wins;
3. calls `jwt.decode` with that key, the configured algorithms, the configured
   audience and the issuer `https://<domain>/`. It maps an expired token, a
   claims error and any other failure to `AuthError`s;
4. on success, stores the claims as `current_user` in the request context and
   runs the handler.

Files:

- `outcomes.dfy` (module `Outcomes`): `Option`, the `AuthError` value, and
  `Outcome<T>`. An `Outcome<T>` is `Ok`, `Raised(AuthError)`, or `Uncaught(name)`.
  `Uncaught` stands for a Python exception that escapes the wrapper without
  being classified.
- `split.dfy` (module `PySplit`): Python's `str.split()` with no separator,
  over the characters for which `str.isspace()` holds. It also holds the
  whitespace runs it drops (`Gaps`), and the inverse operation (`Layout`) that
  puts words and whitespace back together.
- `token_header.dfy` (module `TokenHeader`): `get_token_auth_header`.
- `key_selection.dfy` (module `KeySelection`): the key-selection loop, as a
  method `FindRsaKey`, with its specification `SelectKey`.
- `requires_auth.dfy` (module `RequiresAuth`): the whole wrapper as a function
  `Authorize`. The class `RequestContext` holds the `current_user` field, and
  its method `Decorated` runs the steps and updates that field.

Foreign code becomes parameters:

- The JWKS document fetched from `https://<domain>/.well-known/jwks.json`
  becomes the key list `keys`.
- `jwt.get_unverified_header` becomes `peek`. It returns `None` where the
  library raises `JWTError`.
- `jwt.decode` becomes `decode`, a function from the request it receives
  (`DecodeRequest`) to one of four outcomes: `Valid(payload)`, `Expired`,
  `ClaimsError`, `OtherError`.
- The configuration (`AUTH0_DOMAIN`, `ALGORITHMS`, `API_AUDIENCE`) becomes an
  immutable `Config` value.
- The wrapped handler becomes `handler`, a function of the `current_user` it
  sees.

JSON objects (JWKs, the token header, the claims) are maps from strings to
strings. A missing field is a `KeyError`, as in the source.

At three edges the model follows the code exactly:

- An empty header counts as missing, because the code tests `not auth`.
- A non-empty header of whitespace only is not classified. `parts[0]` raises
  `IndexError` there.
- `KeyError` from a JWK or from the token header escapes the wrapper, and so
  does `JWTError` from `get_unverified_header`. The model returns `Uncaught`
  for these cases instead of inventing error codes.

## Model

| member | source | states |
|---|---|---|
| PySplit.Split | app/api/common/auth/__init__.py:30 | `auth.split()`: cut at runs of whitespace, dropping leading and trailing whitespace; characterized by SplitParts, SplitOfLayout, LayoutOfSplit, GapsSeparate and SplitEmptyIff |
| PySplit.SplitParts | app/api/common/auth/__init__.py:30 | every part of `auth.split()` is non-empty and contains no whitespace |
| PySplit.SplitOfLayout | app/api/common/auth/__init__.py:30 | words joined by non-empty whitespace, with any whitespace before and after, split back into exactly those words |
| PySplit.LayoutOfSplit | app/api/common/auth/__init__.py:30 | every string is its parts with the dropped whitespace put back (nothing but whitespace is lost) |
| PySplit.GapsSeparate | app/api/common/auth/__init__.py:30 | the dropped runs are whitespace, the inner ones non-empty; there is leading whitespace exactly when the string starts with whitespace |
| PySplit.SplitEmptyIff | app/api/common/auth/__init__.py:30-32 | the split is empty exactly for an all-whitespace string |
| TokenHeader.Lower | app/api/common/auth/__init__.py:32 | `parts[0].lower()` on ASCII letters, same length as its input; used only through IsBearer |
| TokenHeader.IsBearer | app/api/common/auth/__init__.py:32 | the negation of `parts[0].lower() != "bearer"`; characterized by BearerSpelling and HeaderSchemePrefixRejected |
| TokenHeader.BearerSpelling | app/api/common/auth/__init__.py:32 | `w.lower() == "bearer"` holds exactly for six-letter words spelling bearer in any mix of cases |
| TokenHeader.GetTokenAuthHeader | app/api/common/auth/__init__.py:17-57 | a returned token is a non-empty, whitespace-free word; the only unclassified failure is `IndexError` |
| TokenHeader.HeaderMissing | app/api/common/auth/__init__.py:20-28 | `authorization_header_missing`/401 "Authorization header is expected." exactly for an absent or empty header |
| TokenHeader.HeaderBlank | app/api/common/auth/__init__.py:30-32 | the result is an uncaught exception exactly for a non-empty all-whitespace header |
| TokenHeader.HeaderWrongScheme | app/api/common/auth/__init__.py:30-39 | a first word other than bearer (case-insensitive) gives `invalid_header`/401 about the scheme, whatever the number of words |
| TokenHeader.HeaderSchemeOnly | app/api/common/auth/__init__.py:41-45 | the scheme word alone, with any whitespace around it, gives `invalid_header`/401 "Token not found." |
| TokenHeader.HeaderTooManyParts | app/api/common/auth/__init__.py:47-54 | more than two words, the first a valid scheme, give `invalid_header`/401 "Authorization header must be bearer token." |
| TokenHeader.HeaderWellFormed | app/api/common/auth/__init__.py:30-57 | the scheme word and one token word, with any whitespace around and between them, yield that token |
| TokenHeader.HeaderTokenShape | app/api/common/auth/__init__.py:30-57 | conversely, a returned token comes from a header of exactly whitespace, a bearer word, non-empty whitespace, the token, whitespace |
| TokenHeader.HeaderBearerToken | app/api/common/auth/__init__.py:56-57 | `"Bearer " + t` yields `t` for every word `t` |
| TokenHeader.HeaderSchemePrefixRejected | app/api/common/auth/__init__.py:32-39 | the scheme test is equality, not a prefix test: "Bearerx t" is rejected with the scheme error |
| KeySelection.Project | app/api/common/auth/__init__.py:73-79 | the projection exists exactly when the JWK has all five fields, and it keeps the JWK's `kid` |
| KeySelection.Visit | app/api/common/auth/__init__.py:72-79 | one pass of the loop body: `KeyError` on a failed lookup, the projection of a matching key, otherwise the key selected so far; characterized through SelectKey's lemmas |
| KeySelection.SelectKey | app/api/common/auth/__init__.py:70-79 | the key left selected after the scan; characterized by SelectKeyRaises, SelectKeyLastMatch, SelectedKid and DistinctKidsSelectUnique, and computed by FindRsaKey |
| KeySelection.SelectKeyRaises | app/api/common/auth/__init__.py:71-79 | the scan raises (`KeyError`, never an `AuthError`) exactly when some JWK's lookups fail |
| KeySelection.SelectKeyLastMatch | app/api/common/auth/__init__.py:70-79 | without failing lookups, the result is the projection of the last matching JWK, and empty exactly when no JWK matches |
| KeySelection.SelectedKid | app/api/common/auth/__init__.py:72-79 | a selected key carries the token header's `kid` |
| KeySelection.DistinctKidsSelectUnique | app/api/common/auth/__init__.py:70-79 | with distinct `kid`s the unique matching JWK is the one selected |
| KeySelection.FindRsaKey | app/api/common/auth/__init__.py:70-79 | the loop leaves exactly the outcome `SelectKey` specifies (so the three lemmas above hold of it), and a key it selects carries the token header's `kid` |
| RequiresAuth.ClassifyDecode | app/api/common/auth/__init__.py:90-111 | the decode handlers give claims exactly for a valid token and never let an exception escape |
| RequiresAuth.UnverifiedHeader | app/api/common/auth/__init__.py:69 | `jwt.get_unverified_header(token)`: the header, or `JWTError` escaping uncaught; its effect on the verdict is stated by AuthorizeUnverifiedHeaderFails |
| RequiresAuth.DecodeAttempt | app/api/common/auth/__init__.py:66-88 | the request handed to `jwt.decode`, or the failure before it; characterized by AuthorizeHeaderFailure, AuthorizeUnverifiedHeaderFails, AuthorizeKeyLookupFails, AuthorizeNoMatchingKey, AuthorizeDecodes and DecodeRequestArguments |
| RequiresAuth.Authorize | app/api/common/auth/__init__.py:65-111 | the verdict of the wrapper; characterized by AuthorizeHeaderFailure, AuthorizeUnverifiedHeaderFails, AuthorizeKeyLookupFails, AuthorizeNoMatchingKey, AuthorizeDecodes, AuthorizeSucceeds and AuthorizeErrors, and carried out by RequestContext.Decorated |
| RequiresAuth.AuthorizeHeaderFailure | app/api/common/auth/__init__.py:66 | a header failure ends the request with that failure and `jwt.decode` is not reached |
| RequiresAuth.AuthorizeUnverifiedHeaderFails | app/api/common/auth/__init__.py:69 | when `jwt.get_unverified_header` raises, the wrapper ends with the uncaught `JWTError` and no decode request is formed |
| RequiresAuth.AuthorizeKeyLookupFails | app/api/common/auth/__init__.py:71-78 | when a `kid` or field lookup of the key scan fails, the wrapper ends with the uncaught `KeyError` and no decode request is formed |
| RequiresAuth.AuthorizeNoMatchingKey | app/api/common/auth/__init__.py:80-122 | with no matching JWK the result is `invalid_header`/400 "Unable to find the appropriate key." and no decode request is made |
| RequiresAuth.AuthorizeDecodes | app/api/common/auth/__init__.py:80-111 | with a last matching JWK, decode gets the token, that key, the algorithms, the audience and `https://<domain>/`; expired gives `token_expired`/401, claims error `invalid_claims`/401, other `invalid_header`/400, valid gives the payload |
| RequiresAuth.DecodeRequestArguments | app/api/common/auth/__init__.py:82-88 | every decode request carries the configured algorithms and audience, the issuer `https://<domain>/`, the header's token and a key with the token's `kid` |
| RequiresAuth.AuthorizeSucceeds | app/api/common/auth/__init__.py:80-114 | the handler runs exactly when decode returns claims, and with those claims |
| RequiresAuth.AuthorizeErrors | app/api/common/auth/__init__.py:20-122 | the wrapper ends only with the source's eight `AuthError`s (400 exactly for the key and parse failures) or with `IndexError`, `JWTError`, `KeyError` |
| RequiresAuth.RequestContext.Decorated | app/api/common/auth/__init__.py:65-122 | on success `current_user` is the payload, the handler runs once and its result is returned; on failure the context is unchanged and the failure is returned; decode is called once exactly when a key was selected, with the request `DecodeAttempt` gives |

## Left out

- Fetching the JWKS (`urlopen`, `json.loads`, `jwks["keys"]`) is network I/O. The key list is an input, so a
  fetch or parse failure and a document without `keys` are not modelled.
- Signature and claims checking inside `jwt.decode`, and header parsing inside `jwt.get_unverified_header`,
  are foreign cryptographic code. They are uninterpreted parameters.
- JSON values are modelled as strings, and JWKs and the token header as objects. So a `kid` of another JSON
  type is not modelled, and neither are the `TypeError`s that a `keys` entry that is not a JSON object, or a
  token header that is not one, raises in the lookups of the key scan.
- `str.lower()` is modelled for ASCII letters only. No other character lowers to a letter of `bearer`, so
  the scheme test is unchanged by this.
- The Flask glue is not modelled: the app factory and logging in `app/__init__.py`, the routes and
  `handle_auth_error` in `app/api/v1/sensors.py` (which copies the error body and status into the response),
  and the random mock data. `app/config.py` only reads environment variables; its values are the `Config`
  parameter.
- RequiresAuth.RequestContext.Decorated: the wrapped handler is a total, pure function of `current_user`; the
  request arguments it receives, the exceptions it may raise and its side effects are not modelled.
- `functools.wraps` copies the handler's name and docstring. It has no effect on behaviour and is not
  modelled.
