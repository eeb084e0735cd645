/**
 * `EnsureTokenIsValid`, the `token.valid` middleware: expiry is checked lazily, on use. A request whose
 * current token has expired gets the token deleted and a 401; every other request is forwarded with
 * the ledger untouched.
 */
module TokenMiddleware {
  import opened Common
  import opened Schema
  import opened Database
  import opened Sessions

  const TokenExpirado: JsonError :=
    JsonError(401, "token_expired", "Tu sesión ha expirado. Por favor, inicia sesión nuevamente.")

  /**
   * Whether the middleware stops the request: there is an authenticated user with a current token and
   * that token is no longer live for its owner.
   */
  function Expired(tokens: map<int, Token>, current: Option<int>, now: nat): (r: bool)
    ensures r ==> current.Some? && current.value in tokens
    ensures current.Some? && current.value in tokens ==>
              (r <==> current.value !in Live(tokens, tokens[current.value].userId, now))
  {
    current.Some? && current.value in tokens && IsExpired(tokens[current.value], now)
  }

  /**
   * `handle`: an expired current token is deleted and the request answered with `TokenExpirado`;
   * otherwise (no user, no current token, no expiry, or not yet past it) the request goes on and the
   * database is unchanged. Once deleted, the token cannot be found again.
   */
  method Handle(db: Db, current: Option<int>, now: nat) returns (r: Option<JsonError>)
    requires db.Valid()
    modifies db
    ensures db.Valid()
    ensures r.Some? <==> Expired(old(db.tokens), current, now)
    ensures r.Some? ==> && r.value == TokenExpirado
                        && db.State() == old(db.State()).(tokens := old(db.tokens) - {current.value})
                        && current.value !in db.tokens
    ensures r.None? ==> db.State() == old(db.State())
  {
    if current.Some? {
      var id := current.value;
      if id in db.tokens {
        var isExpired := IsExpired(db.tokens[id], now);
        if isExpired {
          db.tokens := db.tokens - {id};
          return Some(TokenExpirado);
        }
      }
    }
    return None;
  }
}
