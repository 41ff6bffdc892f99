/** The key-selection loop of `requires_auth.decorated`: the JWKS key list is
    scanned from first to last, and every key whose `kid` equals the token
    header's `kid` overwrites the selected key with its five RSA fields, so
    the last match wins. A missing field raises `KeyError`. */
module KeySelection {
  import opened Outcomes

  /** A JSON object (a JWK, or the token's unverified header), with string values. */
  type Object = map<string, string>

  /** The signing key handed to `jwt.decode`: the five fields copied from a JWK. */
  datatype RsaKey = RsaKey(kty: string, kid: string, use: string, n: string, e: string)

  /** `key["kid"] == unverified_header["kid"]`; `None` when a lookup raises `KeyError`. */
  function KidMatch(key: Object, header: Object): Option<bool> {
    if "kid" in key && "kid" in header then Some(key["kid"] == header["kid"]) else None
  }

  /** The five-field projection of a JWK; `None` when a field is missing. */
  function Project(key: Object): (r: Option<RsaKey>)
    ensures r.Some? <==> "kty" in key && "kid" in key && "use" in key && "n" in key && "e" in key
    ensures r.Some? ==> r.value.kid == key["kid"]
  {
    if "kty" in key && "kid" in key && "use" in key && "n" in key && "e" in key
    then Some(RsaKey(key["kty"], key["kid"], key["use"], key["n"], key["e"]))
    else None
  }

  predicate Matches(key: Object, header: Object) {
    KidMatch(key, header) == Some(true)
  }

  /** Visiting `key` raises `KeyError`. */
  predicate LookupFails(key: Object, header: Object) {
    KidMatch(key, header).None? || (Matches(key, header) && Project(key).None?)
  }

  /** One pass of the loop body, from the key selected so far. */
  function Visit(selected: Option<RsaKey>, key: Object, header: Object): Outcome<Option<RsaKey>> {
    match KidMatch(key, header)
    case None => Uncaught("KeyError")
    case Some(false) => Ok(selected)
    case Some(true) => if Project(key).None? then Uncaught("KeyError") else Ok(Project(key))
  }

  /** The key the loop leaves selected after visiting `keys` in order. */
  function SelectKey(keys: seq<Object>, header: Object): Outcome<Option<RsaKey>>
    decreases |keys|
  {
    if keys == [] then Ok(None)
    else
      match SelectKey(keys[..|keys| - 1], header)
      case Ok(selected) => Visit(selected, keys[|keys| - 1], header)
      case failure => failure
  }

  /** Once a prefix of the keys has raised, so has the whole list. */
  lemma {:induction false} SelectKeyFailureSticks(keys: seq<Object>, header: Object, i: nat)
    requires i <= |keys| && !SelectKey(keys[..i], header).Ok?
    ensures SelectKey(keys, header) == SelectKey(keys[..i], header)
    decreases |keys| - i
  {
    if i < |keys| {
      assert keys[..i + 1][..i] == keys[..i];
      SelectKeyFailureSticks(keys, header, i + 1);
    } else {
      assert keys[..i] == keys;
    }
  }

  /** The scan raises exactly when some key's lookups raise, and then it
      raises `KeyError`; it never raises an `AuthError`. */
  lemma {:induction false} SelectKeyRaises(keys: seq<Object>, header: Object)
    ensures !SelectKey(keys, header).Raised?
    ensures SelectKey(keys, header).Uncaught? <==> exists i :: 0 <= i < |keys| && LookupFails(keys[i], header)
    ensures SelectKey(keys, header).Uncaught? ==> SelectKey(keys, header).exception == "KeyError"
    decreases |keys|
  {
    if keys != [] {
      var init := keys[..|keys| - 1];
      SelectKeyRaises(init, header);
      forall i | 0 <= i < |init| ensures init[i] == keys[i] { }
      if LookupFails(keys[|keys| - 1], header) {
        assert SelectKey(keys, header).Uncaught?;
      }
    }
  }

  /** When no lookup raises, the selected key is the projection of the last
      matching JWK, and nothing is selected when no JWK matches. */
  lemma {:induction false} SelectKeyLastMatch(keys: seq<Object>, header: Object)
    requires forall i :: 0 <= i < |keys| ==> !LookupFails(keys[i], header)
    ensures SelectKey(keys, header).Ok?
    ensures SelectKey(keys, header) == Ok(None) <==> forall i :: 0 <= i < |keys| ==> !Matches(keys[i], header)
    ensures forall i :: 0 <= i < |keys| && Matches(keys[i], header)
                     && (forall j :: i < j < |keys| ==> !Matches(keys[j], header))
                     ==> SelectKey(keys, header) == Ok(Project(keys[i]))
    decreases |keys|
  {
    if keys != [] {
      var init := keys[..|keys| - 1];
      var last := keys[|keys| - 1];
      forall i | 0 <= i < |init| ensures init[i] == keys[i] { }
      SelectKeyLastMatch(init, header);
      if Matches(last, header) {
        assert SelectKey(keys, header) == Ok(Project(last));
        assert Project(last).Some?;
      } else {
        assert SelectKey(keys, header) == SelectKey(init, header);
      }
    }
  }

  /** The selected key carries the token's `kid`. */
  lemma {:induction false} SelectedKid(keys: seq<Object>, header: Object)
    requires SelectKey(keys, header).Ok? && SelectKey(keys, header).value.Some?
    ensures "kid" in header && SelectKey(keys, header).value.value.kid == header["kid"]
    decreases |keys|
  {
    var init := keys[..|keys| - 1];
    match SelectKey(init, header)
    case Ok(selected) =>
      if !Matches(keys[|keys| - 1], header) {
        SelectedKid(init, header);
      }
    case _ =>
  }

  /** In a key set whose `kid`s are distinct, the last match is the only
      match, so the "last match wins" rule picks the same key as a
      first-match rule would. */
  lemma DistinctKidsSelectUnique(keys: seq<Object>, header: Object, i: nat)
    requires forall j :: 0 <= j < |keys| ==> !LookupFails(keys[j], header)
    requires forall j, k :: 0 <= j < k < |keys| && "kid" in keys[j] && "kid" in keys[k] ==> keys[j]["kid"] != keys[k]["kid"]
    requires i < |keys| && Matches(keys[i], header)
    ensures SelectKey(keys, header) == Ok(Project(keys[i]))
  {
    SelectKeyLastMatch(keys, header);
  }

  /** The loop itself: `rsa_key` is overwritten at every match. */
  method FindRsaKey(keys: seq<Object>, header: Object) returns (r: Outcome<Option<RsaKey>>)
    ensures r == SelectKey(keys, header)
    ensures r.Ok? && r.value.Some? ==> "kid" in header && r.value.value.kid == header["kid"]
  {
    var rsaKey: Option<RsaKey> := None;
    var i := 0;
    while i < |keys|
      invariant 0 <= i <= |keys|
      invariant SelectKey(keys[..i], header) == Ok(rsaKey)
    {
      var key := keys[i];
      assert keys[..i + 1][..i] == keys[..i];
      if !("kid" in key && "kid" in header) {
        SelectKeyFailureSticks(keys, header, i + 1);
        return Uncaught("KeyError");
      }
      if key["kid"] == header["kid"] {
        if !("kty" in key && "use" in key && "n" in key && "e" in key) {
          SelectKeyFailureSticks(keys, header, i + 1);
          return Uncaught("KeyError");
        }
        rsaKey := Some(RsaKey(key["kty"], key["kid"], key["use"], key["n"], key["e"]));
      }
      i := i + 1;
    }
    assert keys[..i] == keys;
    r := Ok(rsaKey);
    if rsaKey.Some? {
      SelectedKid(keys, header);
    }
  }
}
