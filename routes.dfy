/**
 * The API route table and the request gate it implies. Each route group names its middleware in order;
 * a request runs through that list, each middleware either stopping it with an outcome or passing it on.
 * `auth:sanctum` finds the caller from the bearer token, `token.valid` is `EnsureTokenIsValid` and
 * `admin` is `CheckAdmin`.
 */
module Routes {
  import opened Common
  import opened Schema
  import opened Sessions
  import Resolver
  import TokenMiddleware
  import CheckAdmin

  /** The endpoints of the API, by route group. */
  datatype Endpoint =
    | Ping
    | Login
    | PingToken
    | Logout
    | Refresh
    | CurrentUser
    | GetModulos
    | GetPermisosModulo(moduloId: int)
    | VerificarPermiso
    | ValidarToken
    | Profile
    | UpdateProfile
    | ChangePassword
    | Stats
    | Faenas
    | AdminArea(area: Area, action: string)

  /** The resources under the `admin` prefix. */
  datatype Area = Dashboard | Users | Roles | Permisos | Modulos | FaenasAdmin

  datatype Middleware = AuthSanctum | TokenValid | Admin

  /** The token and user a request was authenticated as. */
  datatype Caller = Caller(tokenId: int, userId: int)

  /** How the gate ends: stopped with one of three refusals, or passed on to the endpoint. */
  datatype Outcome = Unauthenticated | SessionExpired | Forbidden | Pass(caller: Option<Caller>)

  /** The outcome of the gate and the token ledger it leaves behind. */
  datatype GateResult = GateResult(outcome: Outcome, tokens: map<int, Token>)

  predicate IsPublic(e: Endpoint) {
    e.Ping? || e.Login?
  }

  predicate IsAdmin(e: Endpoint) {
    e.AdminArea?
  }

  /** The middleware list of each route group, in the order the group declares it. */
  function Chain(e: Endpoint): (r: seq<Middleware>)
    ensures IsPublic(e) <==> r == []
    ensures !IsPublic(e) ==> |r| >= 2 && r[0] == AuthSanctum && r[1] == TokenValid
    ensures Admin in r <==> IsAdmin(e)
  {
    if IsPublic(e) then []
    else if IsAdmin(e) then [AuthSanctum, TokenValid, Admin]
    else [AuthSanctum, TokenValid]
  }

  /**
   * Runs the middleware list: `auth:sanctum` needs a bearer token that exists in the ledger and adopts
   * its owner; `token.valid` deletes an expired current token and stops; `admin` stops a non-administrator.
   * Only a stop by `token.valid` changes the ledger.
   */
  function Run(t: Tables, chain: seq<Middleware>, bearer: Option<int>, now: nat, who: Option<Caller>): (r: GateResult)
    decreases |chain|
    ensures r.outcome != SessionExpired ==> r.tokens == t.tokens
    ensures r.outcome == Forbidden ==> Admin in chain
    ensures r.outcome == SessionExpired ==> TokenValid in chain
    ensures r.outcome.Pass? && (who.Some? || AuthSanctum in chain) ==> r.outcome.caller.Some?
  {
    if chain == [] then GateResult(Pass(who), t.tokens)
    else
      match chain[0]
      case AuthSanctum =>
        if bearer.Some? && bearer.value in t.tokens then
          Run(t, chain[1..], bearer, now, Some(Caller(bearer.value, t.tokens[bearer.value].userId)))
        else GateResult(Unauthenticated, t.tokens)
      case TokenValid =>
        var current := if who.Some? then Some(who.value.tokenId) else None;
        if TokenMiddleware.Expired(t.tokens, current, now) then GateResult(SessionExpired, t.tokens - {current.value})
        else Run(t, chain[1..], bearer, now, who)
      case Admin =>
        var user := if who.Some? then Some(who.value.userId) else None;
        match CheckAdmin.Handle(t, user)
        case None => Run(t, chain[1..], bearer, now, who)
        case Some(err) => if err.status == 401 then GateResult(Unauthenticated, t.tokens) else GateResult(Forbidden, t.tokens)
  }

  /** The gate in front of endpoint `e` for a request carrying `bearer`. */
  function Gate(t: Tables, e: Endpoint, bearer: Option<int>, now: nat): GateResult {
    Run(t, Chain(e), bearer, now, None)
  }

  /** The bearer token exists and is live for its owner at `now`. */
  predicate LiveBearer(t: Tables, bearer: Option<int>, now: nat) {
    bearer.Some? && bearer.value in t.tokens
    && bearer.value in Live(t.tokens, t.tokens[bearer.value].userId, now)
  }

  /** Only `/ping` and `/auth/login` are answered without a caller; every other route needs one. */
  lemma PublicNeedsNoToken(t: Tables, e: Endpoint, bearer: Option<int>, now: nat)
    ensures IsPublic(e) <==> Gate(t, e, bearer, now) == GateResult(Pass(None), t.tokens)
  {
    if !IsPublic(e) {
      var chain := Chain(e);
      if bearer.Some? && bearer.value in t.tokens {
        var who := Some(Caller(bearer.value, t.tokens[bearer.value].userId));
        assert Run(t, chain, bearer, now, None) == Run(t, chain[1..], bearer, now, who);
        assert chain[1..][0] == TokenValid;
      }
    }
  }

  /**
   * A protected (non-administrative) route passes exactly when the bearer token exists and is live, and
   * then the caller is that token and its owner, with the ledger unchanged.
   */
  lemma ProtectedGate(t: Tables, e: Endpoint, bearer: Option<int>, now: nat)
    requires !IsPublic(e) && !IsAdmin(e)
    ensures Gate(t, e, bearer, now).outcome.Pass? <==> LiveBearer(t, bearer, now)
    ensures LiveBearer(t, bearer, now) ==>
              Gate(t, e, bearer, now) == GateResult(Pass(Some(Caller(bearer.value, t.tokens[bearer.value].userId))), t.tokens)
  {
    assert Chain(e) == [AuthSanctum, TokenValid];
    if bearer.Some? && bearer.value in t.tokens {
      var who := Some(Caller(bearer.value, t.tokens[bearer.value].userId));
      assert Run(t, [AuthSanctum, TokenValid], bearer, now, None) == Run(t, [TokenValid], bearer, now, who);
      assert [TokenValid][1..] == [];
    }
  }

  /**
   * An administrative route passes exactly when the bearer token is live and its owner is an
   * administrator. A missing token is never answered with 403, and an expired one is answered with the
   * expiry before the administrator check is made.
   */
  lemma AdminGate(t: Tables, e: Endpoint, bearer: Option<int>, now: nat)
    requires IsAdmin(e)
    ensures Gate(t, e, bearer, now).outcome.Pass? <==>
              LiveBearer(t, bearer, now) && Resolver.EsAdministrador(t, t.tokens[bearer.value].userId)
    ensures !(bearer.Some? && bearer.value in t.tokens) ==> Gate(t, e, bearer, now).outcome == Unauthenticated
    ensures bearer.Some? && bearer.value in t.tokens && !LiveBearer(t, bearer, now) ==>
              Gate(t, e, bearer, now) == GateResult(SessionExpired, t.tokens - {bearer.value})
    ensures LiveBearer(t, bearer, now) && !Resolver.EsAdministrador(t, t.tokens[bearer.value].userId) ==>
              Gate(t, e, bearer, now).outcome == Forbidden
  {
    assert Chain(e) == [AuthSanctum, TokenValid, Admin];
    if bearer.Some? && bearer.value in t.tokens {
      var who := Some(Caller(bearer.value, t.tokens[bearer.value].userId));
      assert Run(t, [AuthSanctum, TokenValid, Admin], bearer, now, None) == Run(t, [TokenValid, Admin], bearer, now, who);
      assert [AuthSanctum, TokenValid, Admin][1..] == [TokenValid, Admin];
      assert [TokenValid, Admin][1..] == [Admin];
      assert [Admin][1..] == [];
    }
  }

  /** Once the gate has deleted an expired token, presenting it again is refused as unauthenticated. */
  lemma ExpiredTokenIsGone(t: Tables, e: Endpoint, e': Endpoint, bearer: Option<int>, now: nat, later: nat)
    requires !IsPublic(e) && !IsPublic(e')
    requires Gate(t, e, bearer, now).outcome == SessionExpired
    ensures Gate(t.(tokens := Gate(t, e, bearer, now).tokens), e', bearer, later).outcome == Unauthenticated
  {
    assert bearer.Some? && bearer.value in t.tokens;
    var r := Gate(t, e, bearer, now);
    if IsAdmin(e) {
      AdminGate(t, e, bearer, now);
    } else {
      ProtectedGate(t, e, bearer, now);
      assert !LiveBearer(t, bearer, now);
      var who := Some(Caller(bearer.value, t.tokens[bearer.value].userId));
      assert Run(t, [AuthSanctum, TokenValid], bearer, now, None) == Run(t, [TokenValid], bearer, now, who);
    }
    assert bearer.value !in r.tokens;
    assert Chain(e')[0] == AuthSanctum;
  }

  /**
   * Checking a permission or validating a token for another module needs a live token only: a caller who
   * is not an administrator is let through.
   */
  lemma VerificationNeedsNoAdmin(t: Tables, bearer: Option<int>, now: nat)
    requires LiveBearer(t, bearer, now) && !Resolver.EsAdministrador(t, t.tokens[bearer.value].userId)
    ensures Gate(t, VerificarPermiso, bearer, now).outcome.Pass?
    ensures Gate(t, ValidarToken, bearer, now).outcome.Pass?
    ensures Gate(t, AdminArea(Users, "index"), bearer, now).outcome == Forbidden
  {
    ProtectedGate(t, VerificarPermiso, bearer, now);
    ProtectedGate(t, ValidarToken, bearer, now);
    AdminGate(t, AdminArea(Users, "index"), bearer, now);
  }

  /** An expired token cannot be refreshed: `refresh` sits behind `token.valid`. */
  lemma ExpiredTokenCannotRefresh(t: Tables, bearer: int, now: nat)
    requires bearer in t.tokens && IsExpired(t.tokens[bearer], now)
    ensures Gate(t, Refresh, Some(bearer), now) == GateResult(SessionExpired, t.tokens - {bearer})
  {
    var who := Some(Caller(bearer, t.tokens[bearer].userId));
    assert Chain(Refresh) == [AuthSanctum, TokenValid];
    assert Run(t, [AuthSanctum, TokenValid], Some(bearer), now, None) == Run(t, [TokenValid], Some(bearer), now, who);
  }
}
