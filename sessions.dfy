/**
 * The session ledger: Sanctum's `personal_access_tokens` read as a map from token id to owner and
 * nullable expiry, against a clock `now` in whole seconds. The functions here are the ledger operations
 * the controllers and the middleware perform; `Live` is the set of tokens a request could still use.
 */
module Sessions {
  import opened Common
  import opened Schema

  /** The middleware's expiry test: an expiry is set and the clock is strictly past it. */
  predicate IsExpired(tok: Token, now: nat) {
    tok.expiresAt.Some? && now > tok.expiresAt.value
  }

  /** The tokens of user `u` that the middleware would still accept at `now`. */
  function Live(tokens: map<int, Token>, u: int, now: nat): (r: set<int>)
    ensures forall k :: k in r <==> k in tokens && tokens[k].userId == u && !IsExpired(tokens[k], now)
  {
    set k | k in tokens && tokens[k].userId == u && !IsExpired(tokens[k], now)
  }

  /**
   * The expiry `login` stores for a configured lifetime of `ttl` minutes: none without a configuration;
   * otherwise the token is accepted up to `ttl` minutes after issue and refused from the next second on.
   * A lifetime of 0 is not special: such a token is refused one second after it is issued.
   */
  function ExpiresAt(now: nat, ttl: Option<nat>): (r: Option<nat>)
    ensures ttl.None? ==> forall u, later: nat :: !IsExpired(Token(u, r), later)
    ensures ttl.Some? ==> forall u, later: nat :: IsExpired(Token(u, r), later) <==> later > now + 60 * ttl.value
  {
    if ttl.Some? then Some(now + 60 * ttl.value) else None
  }

  /**
   * `login`'s clean-up: deletes the tokens of `u` whose expiry is set and earlier than `now`. Those are
   * exactly `u`'s expired tokens, so no other user's token and no live token is touched.
   */
  function Purge(tokens: map<int, Token>, u: int, now: nat): (r: map<int, Token>)
    ensures forall k :: k in r <==> k in tokens && !(tokens[k].userId == u && IsExpired(tokens[k], now))
    ensures forall k | k in r :: r[k] == tokens[k]
    ensures forall v, k :: k in Live(r, v, now) <==> k in Live(tokens, v, now)
  {
    map k | k in tokens && !(tokens[k].userId == u && tokens[k].expiresAt.Some? && tokens[k].expiresAt.value < now)
      :: tokens[k]
  }

  /** Deletes every token of `u` (a deactivated or deleted account). */
  function RevokeAll(tokens: map<int, Token>, u: int): (r: map<int, Token>)
    ensures forall k :: k in r <==> k in tokens && tokens[k].userId != u
    ensures forall k | k in r :: r[k] == tokens[k]
    ensures forall now: nat, k :: k !in Live(r, u, now)
  {
    map k | k in tokens && tokens[k].userId != u :: tokens[k]
  }

  /** Deletes every token of `u` except `keep` (a password change). */
  function RevokeOthers(tokens: map<int, Token>, u: int, keep: int): (r: map<int, Token>)
    ensures forall k :: k in r <==> k in tokens && (tokens[k].userId != u || k == keep)
    ensures forall k | k in r :: r[k] == tokens[k]
    ensures forall now: nat, k | k in Live(r, u, now) :: k == keep
    ensures forall now: nat :: keep in Live(r, u, now) <==> keep in Live(tokens, u, now)
  {
    map k | k in tokens && (tokens[k].userId != u || k == keep) :: tokens[k]
  }
}
