/**
 * ESITokenManager: the OAuth 2.0 authorization-code client (section 4.1 of
 * RFC 6749) that creates ESI tokens, with the single-use `state` value as
 * the CSRF defence of section 10.12, and the refresh-ahead renewal that
 * uses the refresh grant of section 6. The clock, the random seed, the
 * digest and every answer of the identity provider are inputs.
 */
module EsiTokenManager {
  import opened Wrappers
  import Tables
  import UserAccounts
  import opened EsiTokens
  import opened NewEsiTokens

  /** Default lifetime of a pending request: ten minutes, in milliseconds. */
  const DefaultTempTokenLifetime: int := 10 * 60 * 1000

  /** The configured `enterprises.orbital.tempTokenLifetime`, or the default when it is unset. */
  function TempTokenLifetime(configured: Option<int>): (ms: int)
    ensures configured.None? ==> ms == 600000
    ensures configured.Some? ==> ms == configured.value
  {
    match configured
    case None => DefaultTempTokenLifetime
    case Some(ms) => ms
  }

  /**
   * The three tables the manager works on, and `next`, the next value of the
   * shared sequence `dp_sequence` that issues the IDs of all of them.
   */
  datatype Db = Db(accounts: UserAccounts.Accounts, tokens: Tokens, pending: PendingTokens, next: int)

  /** What the identity provider returns for a code exchange or a refresh grant. */
  datatype Grant = Grant(accessToken: string, refreshToken: Option<string>, expiresIn: int)

  /** The provider reports lifetimes in seconds; the tables keep milliseconds. */
  function SecondsToMillis(seconds: int): int {
    seconds * 1000
  }

  /** The exceptions the Java operations throw, by cause. */
  datatype Failure =
    | ExchangeFailed      // the provider refused the authorization code
    | VerificationFailed  // the identity-verification request was not successful
    | UnknownKey          // no token with that kid
    | NoRefreshToken      // the token was invalidated earlier
    | RefreshFailed       // the provider refused the refresh grant

  datatype Outcome<T> = Returned(value: T) | Threw(failure: Failure)

  // ---------------------------------------------------------------------
  // Starting an authorization

  /** A re-authentication target must exist and belong to the caller. */
  predicate MayReauthenticate(db: Db, account: UserAccounts.UserAccount, existing: int) {
    existing in db.tokens && IsOwnedBy(db.accounts, db.tokens[existing], account)
  }

  /** The pending row createToken stores under `kid`. */
  function Request(kid: int, uid: int, now: int, lifetime: int, scopes: string,
                   existing: int, seed: int, h: Digest): NewEsiToken {
    NewEsiToken(kid, uid, now, now + lifetime, scopes, seed, h(kid, seed), existing)
  }

  datatype Begun = Begun(redirectState: Option<string>, db: Db)

  /**
   * Starts an authorization: checks the re-authentication target, stores a
   * pending request that expires after the configured lifetime, and returns
   * the state value the redirect to the provider carries (null when the
   * target check fails).
   */
  function CreateToken(db: Db, account: UserAccounts.UserAccount, scopes: string, existing: int, now: int,
                       configured: Option<int>, seed: int, h: Digest): (r: Begun)
    ensures existing != NoExistingKid && !MayReauthenticate(db, account, existing) ==>
      r == Begun(None, db)
    ensures existing == NoExistingKid || MayReauthenticate(db, account, existing) ==>
      exists kid :: kid !in db.pending && db.next <= kid
        && r.db == db.(pending := db.pending[kid := Request(kid, account.uid, now, TempTokenLifetime(configured), scopes, existing, seed, h)],
                       next := kid + 1)
        && r.redirectState == Some(h(kid, seed))
  {
    var expiry := now + TempTokenLifetime(configured);
    if existing != NoExistingKid && !MayReauthenticate(db, account, existing) then Begun(None, db)
    else
      var created := NewEsiTokens.CreateKey(db.pending, db.next, account.uid, now, expiry, scopes, existing, seed, h);
      assert created.token == Request(created.token.kid, account.uid, now, TempTokenLifetime(configured), scopes, existing, seed, h);
      assert created.pending == db.pending[created.token.kid := created.token];
      Begun(Some(created.token.stateKey), db.(pending := created.pending, next := created.token.kid + 1))
  }

  /** The state value a successful createToken hands out is unlike that of any request still pending. */
  lemma CreateTokenStateIsFresh(db: Db, account: UserAccounts.UserAccount, scopes: string, existing: int, now: int,
                                configured: Option<int>, seed: int, h: Digest)
    requires WellFormed(db.pending, h) && Injective(h)
    ensures var r := CreateToken(db, account, scopes, existing, now, configured, seed, h);
            r.redirectState.Some? ==> forall k :: k in db.pending ==> db.pending[k].stateKey != r.redirectState.value
  {
  }

  // ---------------------------------------------------------------------
  // Completing an authorization

  /**
   * `after` is `before` with the requested scopes and the provider's grant
   * written in: access token, its expiry and the refresh token together.
   */
  predicate GrantWritten(before: EsiToken, after: EsiToken, scopes: string, grant: Grant, now: int) {
    && after.kid == before.kid && after.owner == before.owner
    && after.characterName == before.characterName
    && after.scopes == scopes
    && after.accessToken == Some(grant.accessToken)
    && after.accessTokenExpiry == now + SecondsToMillis(grant.expiresIn)
    && after.refreshToken == grant.refreshToken
  }

  function ApplyGrant(t: EsiToken, scopes: string, grant: Grant, now: int): (r: EsiToken)
    ensures GrantWritten(t, r, scopes, grant, now) && r.valid == t.valid
  {
    t.(scopes := scopes, accessToken := Some(grant.accessToken),
       accessTokenExpiry := now + SecondsToMillis(grant.expiresIn), refreshToken := grant.refreshToken)
  }

  datatype Completed = Completed(outcome: Outcome<bool>, db: Db)

  /**
   * The provider's callback. `state` is the request parameter (null when
   * absent); `exchange` is the provider's answer to the code exchange (None
   * when it refuses); `characterName` is what the verification request
   * resolves (None when it is not successful). The matching request is
   * deleted before the exchange, so it is consumed whatever happens next.
   */
  function ProcessTokenCallback(db: Db, state: Option<string>, exchange: Option<Grant>,
                                characterName: Option<string>, now: int): (r: Completed)
    ensures state.None? || GetKeyByState(db.pending, state.value).None? ==>
      r == Completed(Returned(false), db)
    ensures state.Some? && GetKeyByState(db.pending, state.value).Some? ==>
      var request := GetKeyByState(db.pending, state.value).value;
      && r.db.pending == db.pending - {request.kid}
      && r.db.accounts == db.accounts
      && (exchange.None? ==> r == Completed(Threw(ExchangeFailed), db.(pending := r.db.pending)))
      && (exchange.Some? && characterName.None? ==>
            r == Completed(Threw(VerificationFailed), db.(pending := r.db.pending)))
    ensures db.next <= r.db.next
  {
    if state.None? then Completed(Returned(false), db)
    else
      match GetKeyByState(db.pending, state.value)
      case None => Completed(Returned(false), db)
      case Some(request) =>
        var consumed := db.(pending := NewEsiTokens.DeleteKey(db.pending, request.kid).pending);
        match exchange
        case None => Completed(Threw(ExchangeFailed), consumed)
        case Some(grant) =>
          match characterName
          case None => Completed(Threw(VerificationFailed), consumed)
          case Some(name) => Store(consumed, request, grant, name, now)
  }

  /**
   * The last step of the callback, after the exchange and the verification
   * succeeded: re-authentication updates the existing token in place when it
   * still belongs to the requester; a first authorization creates a token.
   */
  function Store(db: Db, request: NewEsiToken, grant: Grant, name: string, now: int): (r: Completed)
    ensures r.db.pending == db.pending && r.db.accounts == db.accounts
    ensures r.outcome.Returned?
    ensures r.outcome.value <==>
      request.existingKid == NoExistingKid
      || (request.existingKid in db.tokens && db.tokens[request.existingKid].owner == request.userAccount)
    ensures !r.outcome.value ==> r.db == db
    ensures db.next <= r.db.next
  {
    if request.existingKid != NoExistingKid then
      match EsiTokens.GetKeyByID(db.tokens, request.existingKid)
      case None => Completed(Returned(false), db)
      case Some(target) =>
        if target.owner != request.userAccount then Completed(Returned(false), db)
        else
          var updated := ApplyGrant(target, request.scopes, grant, now);
          Completed(Returned(true), db.(tokens := EsiTokens.Update(db.tokens, updated)))
    else
      var created := EsiTokens.CreateKey(db.tokens, db.next, request.userAccount, request.scopes, name);
      var updated := ApplyGrant(created.token, request.scopes, grant, now);
      Completed(Returned(true), db.(tokens := EsiTokens.Update(created.tokens, updated), next := created.token.kid + 1))
  }

  /** The pending request the callback consumes for this state value, if any. */
  function Consumed(db: Db, state: Option<string>): Option<NewEsiToken> {
    if state.None? then None else GetKeyByState(db.pending, state.value)
  }

  /**
   * Re-authentication writes the grant into the existing token in place
   * (same kid, owner and character name) when it still exists and belongs
   * to the requester, and otherwise returns false without touching tokens.
   */
  lemma CallbackReauthenticates(db: Db, state: Option<string>, grant: Grant, name: string, now: int)
    requires EsiTokens.Keyed(db.tokens)
    requires Consumed(db, state).Some? && Consumed(db, state).value.existingKid != NoExistingKid
    ensures var request := Consumed(db, state).value;
            var r := ProcessTokenCallback(db, state, Some(grant), Some(name), now);
            if request.existingKid in db.tokens && db.tokens[request.existingKid].owner == request.userAccount
            then
              && r.outcome == Returned(true)
              && r.db.next == db.next
              && r.db.tokens.Keys == db.tokens.Keys
              && Tables.SameExcept(db.tokens, r.db.tokens, request.existingKid)
              && GrantWritten(db.tokens[request.existingKid], r.db.tokens[request.existingKid], request.scopes, grant, now)
            else r.outcome == Returned(false) && r.db.tokens == db.tokens && r.db.next == db.next
  {
  }

  /** `t` is the token a first authorization creates under `kid`. */
  predicate IsNewToken(t: EsiToken, kid: int, owner: int, name: string, scopes: string, grant: Grant, now: int) {
    && !t.valid && t.kid == kid && t.owner == owner && t.characterName == name && t.scopes == scopes
    && t.accessToken == Some(grant.accessToken)
    && t.accessTokenExpiry == now + SecondsToMillis(grant.expiresIn)
    && t.refreshToken == grant.refreshToken
  }

  /**
   * A fresh grant creates one new token for the requester, named after the
   * verified character, holding the grant, under the sequence's next ID.
   */
  lemma CallbackCreatesToken(db: Db, state: Option<string>, grant: Grant, name: string, now: int)
    requires Consumed(db, state).Some? && Consumed(db, state).value.existingKid == NoExistingKid
    ensures var request := Consumed(db, state).value;
            var r := ProcessTokenCallback(db, state, Some(grant), Some(name), now);
            && r.outcome == Returned(true)
            && exists kid, t :: kid !in db.tokens && db.next <= kid
                 && r.db.tokens == db.tokens[kid := t] && r.db.next == kid + 1
                 && IsNewToken(t, kid, request.userAccount, name, request.scopes, grant, now)
  {
    var request := Consumed(db, state).value;
    var created := EsiTokens.CreateKey(db.tokens, db.next, request.userAccount, request.scopes, name);
    var kid := created.token.kid;
    var updated := ApplyGrant(created.token, request.scopes, grant, now);
    var r := ProcessTokenCallback(db, state, Some(grant), Some(name), now);
    assert r.db.tokens == EsiTokens.Update(created.tokens, updated);
    assert r.db.tokens == db.tokens[kid := updated];
    assert IsNewToken(updated, kid, request.userAccount, name, request.scopes, grant, now);
  }

  /**
   * No replay: once a callback has consumed the request for a state value,
   * a second callback with that value returns false and changes nothing,
   * whatever the provider would answer and however the first one ended.
   */
  lemma CallbackNoReplay(db: Db, h: Digest, state: string, exchange1: Option<Grant>, name1: Option<string>, now1: int,
                         exchange2: Option<Grant>, name2: Option<string>, now2: int)
    requires WellFormed(db.pending, h)
    ensures var first := ProcessTokenCallback(db, Some(state), exchange1, name1, now1);
            ProcessTokenCallback(first.db, Some(state), exchange2, name2, now2) == Completed(Returned(false), first.db)
  {
    var first := ProcessTokenCallback(db, Some(state), exchange1, name1, now1);
    if GetKeyByState(db.pending, state).Some? {
      var request := GetKeyByState(db.pending, state).value;
      forall k | k in db.pending && db.pending[k].stateKey == state
        ensures k == request.kid
      {
        assert db.pending[k] == request;
      }
      assert WithState(first.db.pending, state) == {};
    }
  }

  // ---------------------------------------------------------------------
  // Refreshing ahead of expiry

  datatype Refreshed = Refreshed(outcome: Outcome<Option<string>>, tokens: Tokens, providerCalled: bool)

  /** The token's access token expires within `window` of now. */
  predicate InWindow(t: EsiToken, window: int, now: int) {
    t.accessTokenExpiry - now < window
  }

  /**
   * Returns a usable access token for `kid`. The code reads the clock twice:
   * `now` is the reading the window test uses, and `renewedAt` the reading
   * taken after the provider has answered, from which a renewed expiry
   * counts. Outside the renewal window the stored token comes back untouched
   * and the provider is not asked. Inside it, `response` is the provider's
   * answer to the refresh grant (None when it refuses): a refusal clears the
   * refresh token, stores that, and fails.
   */
  function RefreshToken(tokens: Tokens, kid: int, window: int, now: int, response: Option<Grant>, renewedAt: int): (r: Refreshed)
    requires Keyed(tokens)
    ensures Keyed(r.tokens)
    ensures kid !in tokens ==> r == Refreshed(Threw(UnknownKey), tokens, false)
    ensures kid in tokens && !InWindow(tokens[kid], window, now) ==>
      r == Refreshed(Returned(tokens[kid].accessToken), tokens, false)
    ensures kid in tokens && InWindow(tokens[kid], window, now) && tokens[kid].refreshToken.None? ==>
      r == Refreshed(Threw(NoRefreshToken), tokens, false)
    ensures kid in tokens && InWindow(tokens[kid], window, now) && tokens[kid].refreshToken.Some? ==>
      && r.providerCalled
      && r.tokens.Keys == tokens.Keys
      && Tables.SameExcept(tokens, r.tokens, kid)
      && (response.None? ==>
            r.outcome == Threw(RefreshFailed) && r.tokens[kid] == tokens[kid].(refreshToken := None, valid := false))
      && (response.Some? ==>
            && r.outcome == Returned(Some(response.value.accessToken))
            && r.tokens[kid].accessToken == Some(response.value.accessToken)
            && r.tokens[kid].accessTokenExpiry == renewedAt + SecondsToMillis(response.value.expiresIn)
            && r.tokens[kid].refreshToken == response.value.refreshToken
            && !r.tokens[kid].valid
            && r.tokens[kid].(accessToken := tokens[kid].accessToken,
                              accessTokenExpiry := tokens[kid].accessTokenExpiry,
                              refreshToken := tokens[kid].refreshToken,
                              valid := tokens[kid].valid) == tokens[kid])
  {
    match EsiTokens.GetKeyByID(tokens, kid)
    case None => Refreshed(Threw(UnknownKey), tokens, false)
    case Some(key) =>
      if !InWindow(key, window, now) then Refreshed(Returned(key.accessToken), tokens, false)
      else
        match key.refreshToken
        case None => Refreshed(Threw(NoRefreshToken), tokens, false)
        case Some(_) =>
          match response
          case None =>
            Refreshed(Threw(RefreshFailed), EsiTokens.Update(tokens, key.(refreshToken := None)), true)
          case Some(grant) =>
            var renewed := key.(accessToken := Some(grant.accessToken),
                                accessTokenExpiry := renewedAt + SecondsToMillis(grant.expiresIn),
                                refreshToken := grant.refreshToken);
            Refreshed(Returned(renewed.accessToken), EsiTokens.Update(tokens, renewed), true)
  }

  /**
   * Once a refresh has been refused, every later request inside the window
   * fails without asking the provider and without changing anything, until
   * the token is re-authenticated.
   */
  lemma RefusedRefreshInvalidates(tokens: Tokens, kid: int, window: int, now: int,
                                  renewedAt: int, laterWindow: int, later: int, laterResponse: Option<Grant>, laterRenewedAt: int)
    requires Keyed(tokens)
    requires kid in tokens && InWindow(tokens[kid], window, now) && tokens[kid].refreshToken.Some?
    requires InWindow(tokens[kid], laterWindow, later)
    ensures var first := RefreshToken(tokens, kid, window, now, None, renewedAt);
            && first.outcome == Threw(RefreshFailed)
            && !HasRefreshToken(first.tokens[kid])
            && RefreshToken(first.tokens, kid, laterWindow, later, laterResponse, laterRenewedAt)
               == Refreshed(Threw(NoRefreshToken), first.tokens, false)
  {
  }

  /**
   * A renewed token that came with a refresh token is served from the table
   * on a request made at the instant its expiry was computed from exactly
   * when the provider's lifetime covers the window.
   */
  lemma RenewedTokenIsFresh(tokens: Tokens, kid: int, window: int, now: int, grant: Grant, renewedAt: int, againRenewedAt: int)
    requires Keyed(tokens)
    requires kid in tokens && InWindow(tokens[kid], window, now) && tokens[kid].refreshToken.Some?
    requires grant.refreshToken.Some?
    ensures var first := RefreshToken(tokens, kid, window, now, Some(grant), renewedAt);
            var again := RefreshToken(first.tokens, kid, window, renewedAt, None, againRenewedAt);
            && (!again.providerCalled <==> SecondsToMillis(grant.expiresIn) >= window)
            && (!again.providerCalled ==> again.outcome == Returned(Some(grant.accessToken)))
  {
    var first := RefreshToken(tokens, kid, window, now, Some(grant), renewedAt);
    assert first.tokens[kid].accessTokenExpiry == renewedAt + SecondsToMillis(grant.expiresIn);
    assert first.tokens[kid].refreshToken == grant.refreshToken;
  }

  /** The renewal window is a hard threshold: the provider is asked exactly when the token is inside it and can be refreshed. */
  lemma RefreshCallsProviderIffInWindow(tokens: Tokens, kid: int, window: int, now: int, response: Option<Grant>, renewedAt: int)
    requires Keyed(tokens)
    ensures RefreshToken(tokens, kid, window, now, response, renewedAt).providerCalled
            <==> kid in tokens && InWindow(tokens[kid], window, now) && tokens[kid].refreshToken.Some?
  {
  }

  // ---------------------------------------------------------------------
  // The expiry reaper

  datatype Cleaner = Cleaner(started: bool)

  datatype Started = Started(cleaner: Cleaner, launched: bool)

  /** Starts the reaper thread unless it was already started. */
  function Init(c: Cleaner): (r: Started)
    ensures r.cleaner.started
    ensures r.launched <==> !c.started
  {
    if c.started then Started(c, false) else Started(Cleaner(true), true)
  }

  /** However often init is called, the reaper is launched at most once. */
  lemma InitLaunchesOnce(c: Cleaner)
    ensures !Init(Init(c).cleaner).launched
  {
  }

  /** One pass of the reaper: pending requests expired by now are removed; nothing else changes. */
  function Sweep(db: Db, now: int): (r: Db)
    ensures r.accounts == db.accounts && r.tokens == db.tokens && r.next == db.next
    ensures forall k :: k in r.pending <==> k in db.pending && db.pending[k].expiry > now
    ensures forall k :: k in r.pending ==> r.pending[k] == db.pending[k]
  {
    db.(pending := CleanExpired(db.pending, now))
  }

  /**
   * A request started at `start` survives every sweep before its lifetime
   * has passed and is gone after the first sweep at or after that moment.
   */
  lemma RequestLifetime(db: Db, account: UserAccounts.UserAccount, scopes: string, start: int,
                        configured: Option<int>, seed: int, h: Digest, sweepAt: int)
    requires WellFormed(db.pending, h) && Injective(h)
    ensures var begun := CreateToken(db, account, scopes, NoExistingKid, start, configured, seed, h);
            var swept := Sweep(begun.db, sweepAt);
            (exists k :: k in swept.pending && swept.pending[k].stateKey == begun.redirectState.value)
            <==> sweepAt < start + TempTokenLifetime(configured)
  {
    var begun := CreateToken(db, account, scopes, NoExistingKid, start, configured, seed, h);
    var kid :| kid !in db.pending && db.next <= kid
      && begun.db == db.(pending := db.pending[kid := Request(kid, account.uid, start, TempTokenLifetime(configured), scopes, NoExistingKid, seed, h)],
                         next := kid + 1)
      && begun.redirectState == Some(h(kid, seed));
    var swept := Sweep(begun.db, sweepAt);
    forall k | k in swept.pending && swept.pending[k].stateKey == begun.redirectState.value
      ensures k == kid
    {
      assert k in begun.db.pending;
    }
    if sweepAt < start + TempTokenLifetime(configured) {
      assert kid in swept.pending;
    }
  }

  // ---------------------------------------------------------------------
  // Invariants and the whole flow

  /**
   * Table invariants the operations keep: rows under their own keys, state
   * values that are digests of kid and seed, the transient flag never
   * stored, and the sequence ahead of every table it issues IDs for.
   */
  predicate Valid(db: Db, h: Digest) {
    && WellFormed(db.pending, h) && EsiTokens.Keyed(db.tokens) && FlagUnstored(db.tokens)
    && Tables.InStep(db.pending.Keys, db.next)
    && Tables.InStep(db.tokens.Keys, db.next)
    && Tables.InStep(db.accounts.Keys, db.next)
  }

  lemma CreateTokenKeepsValid(db: Db, h: Digest, account: UserAccounts.UserAccount, scopes: string, existing: int,
                              now: int, configured: Option<int>, seed: int)
    requires Valid(db, h)
    ensures Valid(CreateToken(db, account, scopes, existing, now, configured, seed, h).db, h)
  {
  }

  lemma CallbackKeepsValid(db: Db, h: Digest, state: Option<string>, exchange: Option<Grant>, name: Option<string>, now: int)
    requires Valid(db, h)
    ensures Valid(ProcessTokenCallback(db, state, exchange, name, now).db, h)
  {
  }

  lemma RefreshKeepsValid(db: Db, h: Digest, kid: int, window: int, now: int, response: Option<Grant>, renewedAt: int)
    requires Valid(db, h)
    ensures Valid(db.(tokens := RefreshToken(db.tokens, kid, window, now, response, renewedAt).tokens), h)
  {
  }

  lemma SweepKeepsValid(db: Db, h: Digest, now: int)
    requires Valid(db, h)
    ensures Valid(Sweep(db, now), h)
  {
  }

  /** On its success path createToken hands out exactly what the pending table's createKey stored. */
  lemma CreateTokenStoresRequest(db: Db, account: UserAccounts.UserAccount, scopes: string, existing: int,
                                 now: int, configured: Option<int>, seed: int, h: Digest)
    requires existing == NoExistingKid || MayReauthenticate(db, account, existing)
    ensures var c := NewEsiTokens.CreateKey(db.pending, db.next, account.uid, now, now + TempTokenLifetime(configured), scopes, existing, seed, h);
            CreateToken(db, account, scopes, existing, now, configured, seed, h)
              == Begun(Some(c.token.stateKey), db.(pending := c.pending, next := c.token.kid + 1))
  {
  }

  /**
   * The state value a successful createToken hands out leads back to the
   * request it stored, and that request is the only row added.
   */
  lemma CreateTokenThenFound(db: Db, h: Digest, account: UserAccounts.UserAccount, scopes: string, existing: int,
                             now: int, configured: Option<int>, seed: int)
    requires WellFormed(db.pending, h) && Injective(h)
    requires existing == NoExistingKid || MayReauthenticate(db, account, existing)
    ensures var begun := CreateToken(db, account, scopes, existing, now, configured, seed, h);
            && begun.redirectState.Some?
            && var found := GetKeyByState(begun.db.pending, begun.redirectState.value);
            && found.Some? && found.value.existingKid == existing
            && found.value.userAccount == account.uid && found.value.scopes == scopes
            && found.value.expiry == now + TempTokenLifetime(configured)
            && NewEsiTokens.DeleteKey(begun.db.pending, found.value.kid).pending == db.pending
  {
    var expiry := now + TempTokenLifetime(configured);
    var c := NewEsiTokens.CreateKey(db.pending, db.next, account.uid, now, expiry, scopes, existing, seed, h);
    CreateTokenStoresRequest(db, account, scopes, existing, now, configured, seed, h);
    CreateKeyThenFound(db.pending, db.next, account.uid, now, expiry, scopes, existing, seed, h);
  }

  /**
   * The whole flow: a fresh authorization followed by its callback, with a
   * provider that grants a non-empty refresh token, leaves a token that is
   * stored without the flag and that the web view reports as valid once the
   * flag is recomputed, and the request is gone.
   */
  lemma AuthorizationFlow(db: Db, h: Digest, account: UserAccounts.UserAccount, scopes: string, now: int,
                          configured: Option<int>, seed: int, grant: Grant, name: string, later: int)
    requires Valid(db, h) && Injective(h)
    requires grant.refreshToken.Some? && grant.refreshToken.value != ""
    ensures var begun := CreateToken(db, account, scopes, NoExistingKid, now, configured, seed, h);
            var r := ProcessTokenCallback(begun.db, begun.redirectState, Some(grant), Some(name), later);
            && r.outcome == Returned(true)
            && r.db.pending == db.pending
            && exists kid, t :: kid !in db.tokens && r.db.tokens == db.tokens[kid := t]
                 && t.owner == account.uid && !t.valid && UpdateValid(t).valid
  {
    var begun := CreateToken(db, account, scopes, NoExistingKid, now, configured, seed, h);
    CreateTokenThenFound(db, h, account, scopes, NoExistingKid, now, configured, seed);
    var mid := begun.db;
    var request := GetKeyByState(begun.db.pending, begun.redirectState.value).value;
    assert Consumed(mid, begun.redirectState) == Some(request);
    CallbackCreatesToken(mid, begun.redirectState, grant, name, later);
    var r := ProcessTokenCallback(mid, begun.redirectState, Some(grant), Some(name), later);
    var tk, t :| tk !in db.tokens && r.db.tokens == db.tokens[tk := t]
      && IsNewToken(t, tk, account.uid, name, scopes, grant, later);
    assert UpdateValid(t).valid;
  }

  // ---------------------------------------------------------------------
  // Spent state values are never accepted again

  /**
   * `state` is retired: it was issued for `kid` (below the sequence's next
   * value) with `seed`, and no pending request carries it any more.
   */
  predicate Retired(db: Db, h: Digest, state: string, kid: int, seed: int) {
    state == h(kid, seed) && kid < db.next && WithState(db.pending, state) == {}
  }

  /** The callback retires the state value of the request it consumes, however it ends. */
  lemma CallbackRetiresState(db: Db, h: Digest, state: string, exchange: Option<Grant>, name: Option<string>, now: int)
    requires Valid(db, h)
    requires Consumed(db, Some(state)).Some?
    ensures var request := Consumed(db, Some(state)).value;
            Retired(ProcessTokenCallback(db, Some(state), exchange, name, now).db, h, state, request.kid, request.randomSeed)
  {
    var request := Consumed(db, Some(state)).value;
    var r := ProcessTokenCallback(db, Some(state), exchange, name, now);
    forall k | k in db.pending && db.pending[k].stateKey == state
      ensures k == request.kid
    {
      assert db.pending[k] == request;
    }
    assert WithState(r.db.pending, state) == {};
  }

  /** A retired state value is rejected: the callback returns false and changes nothing. */
  lemma RetiredStateRejected(db: Db, h: Digest, state: string, kid: int, seed: int,
                             exchange: Option<Grant>, name: Option<string>, now: int)
    requires Retired(db, h, state, kid, seed)
    ensures ProcessTokenCallback(db, Some(state), exchange, name, now) == Completed(Returned(false), db)
  {
  }

  /**
   * Starting another authorization never hands out a retired state value
   * again, since its kid comes from the sequence past every kid issued
   * before, and the value stays retired.
   */
  lemma CreateTokenKeepsRetired(db: Db, h: Digest, state: string, kid: int, seed: int,
                                account: UserAccounts.UserAccount, scopes: string, existing: int,
                                now: int, configured: Option<int>, seed2: int)
    requires Injective(h) && Retired(db, h, state, kid, seed)
    ensures var begun := CreateToken(db, account, scopes, existing, now, configured, seed2, h);
            begun.redirectState != Some(state) && Retired(begun.db, h, state, kid, seed)
  {
    var begun := CreateToken(db, account, scopes, existing, now, configured, seed2, h);
    if begun.redirectState.Some? {
      var k :| k !in db.pending && db.next <= k
        && begun.db == db.(pending := db.pending[k := Request(k, account.uid, now, TempTokenLifetime(configured), scopes, existing, seed2, h)],
                           next := k + 1)
        && begun.redirectState == Some(h(k, seed2));
      assert h(k, seed2) != h(kid, seed);
      assert WithState(begun.db.pending, state) <= WithState(db.pending, state);
    }
  }

  /** A callback only removes pending requests and only advances the sequence, so a retired value stays retired. */
  lemma CallbackKeepsRetired(db: Db, h: Digest, state: string, kid: int, seed: int,
                             state2: Option<string>, exchange: Option<Grant>, name: Option<string>, now: int)
    requires Retired(db, h, state, kid, seed)
    ensures Retired(ProcessTokenCallback(db, state2, exchange, name, now).db, h, state, kid, seed)
  {
    var r := ProcessTokenCallback(db, state2, exchange, name, now);
    assert WithState(r.db.pending, state) <= WithState(db.pending, state);
  }

  /** A refresh leaves the pending table and the sequence alone. */
  lemma RefreshKeepsRetired(db: Db, h: Digest, state: string, kid: int, seed: int,
                            tkid: int, window: int, now: int, response: Option<Grant>, renewedAt: int)
    requires Valid(db, h) && Retired(db, h, state, kid, seed)
    ensures Retired(db.(tokens := RefreshToken(db.tokens, tkid, window, now, response, renewedAt).tokens), h, state, kid, seed)
  {
  }

  /** A sweep only removes pending requests, so a retired value stays retired. */
  lemma SweepKeepsRetired(db: Db, h: Digest, state: string, kid: int, seed: int, now: int)
    requires Retired(db, h, state, kid, seed)
    ensures Retired(Sweep(db, now), h, state, kid, seed)
  {
    assert WithState(Sweep(db, now).pending, state) <= WithState(db.pending, state);
  }

  /**
   * No replay across later authorizations: after a callback consumed the
   * request for a state value, a new authorization (with any seed) gets a
   * different state value, and a callback replaying the old one is still
   * rejected.
   */
  lemma NoReplayAfterNewRequest(db: Db, h: Digest, state: string, exchange1: Option<Grant>, name1: Option<string>, now1: int,
                                account: UserAccounts.UserAccount, scopes: string, existing: int,
                                now2: int, configured: Option<int>, seed2: int,
                                exchange3: Option<Grant>, name3: Option<string>, now3: int)
    requires Valid(db, h) && Injective(h)
    requires Consumed(db, Some(state)).Some?
    ensures var first := ProcessTokenCallback(db, Some(state), exchange1, name1, now1);
            var begun := CreateToken(first.db, account, scopes, existing, now2, configured, seed2, h);
            && begun.redirectState != Some(state)
            && ProcessTokenCallback(begun.db, Some(state), exchange3, name3, now3) == Completed(Returned(false), begun.db)
  {
    var request := Consumed(db, Some(state)).value;
    var first := ProcessTokenCallback(db, Some(state), exchange1, name1, now1);
    CallbackRetiresState(db, h, state, exchange1, name1, now1);
    CreateTokenKeepsRetired(first.db, h, state, request.kid, request.randomSeed, account, scopes, existing, now2, configured, seed2);
    var begun := CreateToken(first.db, account, scopes, existing, now2, configured, seed2, h);
    RetiredStateRejected(begun.db, h, state, request.kid, request.randomSeed, exchange3, name3, now3);
  }

  /**
   * With the invariant in place, the kid a successful createToken uses is
   * exactly the sequence's next value, and the sequence moves on by one.
   */
  lemma CreateTokenUsesSequence(db: Db, h: Digest, account: UserAccounts.UserAccount, scopes: string, existing: int,
                                now: int, configured: Option<int>, seed: int)
    requires Valid(db, h)
    requires existing == NoExistingKid || MayReauthenticate(db, account, existing)
    ensures var begun := CreateToken(db, account, scopes, existing, now, configured, seed, h);
            && begun.db.next == db.next + 1
            && db.next in begun.db.pending
            && begun.redirectState == Some(h(db.next, seed))
  {
    Tables.FreshIdIsNext(db.pending.Keys, db.next);
    CreateTokenStoresRequest(db, account, scopes, existing, now, configured, seed, h);
  }
}
