/** Password hashing and the signed bearer-token codec.

    The bcrypt library is not modelled: a `Hasher` is a pair of functions
    passed in, with the randomness of the salt made an argument, and the one
    promise bcrypt makes — a password verifies against its own hash — is the
    predicate `Sound`, assumed only where a lemma needs it.

    A token is modelled by what it carries: the header's algorithm, the key it
    was signed with and the claim set. Checking the signature against the
    server's secret is comparing that key with the secret. */
module Encoders {
  import opened Exceptions

  /** The one signing algorithm, used to sign and the only one accepted on decode. */
  const Algorithm := "HS256"

  datatype Hasher = Hasher(hash: (string, nat) -> string, verify: (string, string) -> bool)

  /** A password verifies against every hash made from it, whatever the salt. */
  ghost predicate Sound(h: Hasher) {
    forall p, salt :: h.verify(p, h.hash(p, salt))
  }

  /** `verify_password`: with a sound hasher, a stored hash made from the
      offered password, under any salt, is accepted. */
  function VerifyPassword(h: Hasher, plainPassword: string, hashedPassword: string): (ok: bool)
    ensures Sound(h) && (exists salt: nat :: hashedPassword == h.hash(plainPassword, salt)) ==> ok
  {
    h.verify(plainPassword, hashedPassword)
  }

  function HashPassword(h: Hasher, password: string, salt: nat): (hashed: string)
    ensures Sound(h) ==> VerifyPassword(h, password, hashed)
  {
    h.hash(password, salt)
  }

  /** A JSON value a claim can hold: a string, or a time as seconds. */
  datatype ClaimValue = Text(text: string) | Instant(seconds: int)

  type Claims = map<string, ClaimValue>

  /** A bearer token: one that was signed, or a string that does not even parse. */
  datatype Jwt = Signed(alg: string, key: string, payload: Claims) | Unparseable(raw: string)

  /** `encode_token`: a copy of the claims with `exp` set to `now + expiresDelta`,
      signed with HS256. The caller's claims are a value and cannot change. */
  function EncodeToken(data: Claims, expiresDelta: int, now: int, secret: string): (t: Jwt)
    ensures t.Signed? && t.alg == Algorithm && t.key == secret
    ensures t.payload.Keys == data.Keys + {"exp"}
    ensures t.payload["exp"] == Instant(now + expiresDelta)
    ensures forall k | k in data && k != "exp" :: t.payload[k] == data[k]
  {
    Signed(Algorithm, secret, data["exp" := Instant(now + expiresDelta)])
  }

  /** True when `token` passes every check of the JWT library except expiry:
      it parses, names HS256, carries a valid signature, and any `exp` is a time. */
  predicate WellSigned(token: Jwt, secret: string) {
    && token.Signed?
    && token.alg == Algorithm
    && token.key == secret
    && ("exp" in token.payload ==> token.payload["exp"].Instant?)
  }

  /** True when a well-signed token's `exp` is at or before `now`. */
  predicate Expired(token: Jwt, secret: string, now: int)
    requires WellSigned(token, secret)
  {
    "exp" in token.payload && token.payload["exp"].seconds <= now
  }

  /** `decode_token`: the claims of a token that verifies and has not expired;
      `TOKEN_EXPIRE_EXCEPTION` for an expired one, `CREDENTIALS_EXCEPTION` otherwise. */
  function DecodeToken(token: Jwt, secret: string, now: int): (r: Result<Claims>)
    ensures r.Ok? <==> WellSigned(token, secret) && !Expired(token, secret, now)
    ensures r.Ok? ==> r.value == token.payload
    ensures r == Err(TokenExpireException) <==> WellSigned(token, secret) && Expired(token, secret, now)
    ensures r == Err(CredentialsException) <==> !WellSigned(token, secret)
  {
    match token
    case Unparseable(_) => Err(CredentialsException)
    case Signed(alg, key, payload) =>
      if alg != Algorithm || key != secret then Err(CredentialsException)
      else if "exp" !in payload then Ok(payload)
      else match payload["exp"]
        case Text(_) => Err(CredentialsException)
        case Instant(exp) => if exp <= now then Err(TokenExpireException) else Ok(payload)
  }

  /** Round trip: a token made by `EncodeToken` decodes, under the same secret, to
      the claims plus `exp` while `now` is before `exp`, and as expired from then on. */
  lemma DecodeEncoded(data: Claims, expiresDelta: int, issuedAt: int, secret: string, now: int)
    ensures DecodeToken(EncodeToken(data, expiresDelta, issuedAt, secret), secret, now)
         == if now < issuedAt + expiresDelta
            then Ok(data["exp" := Instant(issuedAt + expiresDelta)])
            else Err(TokenExpireException)
  {
  }

  /** A token signed under another key is refused as bad credentials, even when expired. */
  lemma ForeignKeyRejected(data: Claims, expiresDelta: int, issuedAt: int, key: string, secret: string, now: int)
    requires key != secret
    ensures DecodeToken(EncodeToken(data, expiresDelta, issuedAt, key), secret, now) == Err(CredentialsException)
  {
  }

  /** A token that names any algorithm but HS256 is refused. */
  lemma OnlyHs256Accepted(alg: string, secret: string, payload: Claims, now: int)
    requires alg != Algorithm
    ensures DecodeToken(Signed(alg, secret, payload), secret, now) == Err(CredentialsException)
  {
  }
}
