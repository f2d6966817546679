/**
 * The token codec of pkg/utils (GenerateJWT, ValidateJWT, RefreshJWT). Its
 * source is not part of this model: signing, parsing and expiry are abstract,
 * given as functions that either produce a value or fail with a message.
 */
module Jwt {
  import opened Common

  /** The identity carried inside a token (its registered expiry claims are not modelled). */
  datatype Claims = Claims(userId: nat, email: string, isAdmin: bool)

  /** The secret and the token lifetime from the configuration. */
  datatype JwtConfig = JwtConfig(secret: string, expiry: int)

  datatype Codec = Codec(
    /** GenerateJWT(userID, email, isAdmin, secret, expiry) */
    generate: (nat, string, bool, string, int) -> Result<string>,
    /** ValidateJWT(token, secret) */
    validate: (string, string) -> Result<Claims>,
    /** RefreshJWT(token, secret, expiry) */
    refresh: (string, string, int) -> Result<string>)
}
