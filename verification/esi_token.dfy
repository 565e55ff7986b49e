/**
 * ESIToken: the durable credential (`esi_token`), keyed by kid. It holds the
 * latest access token with its expiry and the latest refresh token; a
 * missing refresh token is how a credential is invalidated.
 */
module EsiTokens {
  import opened Wrappers
  import Tables
  import UserAccounts

  datatype EsiToken = EsiToken(
    kid: int,
    owner: int,
    scopes: string,
    characterName: string,
    accessToken: Option<string>,
    accessTokenExpiry: int,
    refreshToken: Option<string>,
    valid: bool)

  type Tokens = map<int, EsiToken>

  /** Every token is stored under its own kid. */
  predicate Keyed(tokens: Tokens) {
    forall k :: k in tokens ==> tokens[k].kid == k
  }

  /**
   * `valid` is a transient field: it is never written to the table, so every
   * row read back carries `false` until the caller recomputes it.
   */
  predicate FlagUnstored(tokens: Tokens) {
    forall k :: k in tokens ==> !tokens[k].valid
  }

  /** A refresh token that is present and non-empty. */
  predicate HasRefreshToken(t: EsiToken) {
    t.refreshToken.Some? && t.refreshToken.value != ""
  }

  /** Recomputes the transient `valid` flag shown to web clients; nothing else changes. */
  function UpdateValid(t: EsiToken): (r: EsiToken)
    ensures r.valid <==> r.refreshToken.Some? && |r.refreshToken.value| > 0
    ensures r.(valid := t.valid) == t
  {
    t.(valid := HasRefreshToken(t))
  }

  /** Recomputing the flag a second time changes nothing. */
  lemma UpdateValidIdempotent(t: EsiToken)
    ensures UpdateValid(UpdateValid(t)) == UpdateValid(t)
  {
  }

  /**
   * The ownership test of the Java code: the token's owner row, as stored
   * now, `equals` the caller's account value (all four fields).
   */
  predicate IsOwnedBy(accts: UserAccounts.Accounts, t: EsiToken, account: UserAccounts.UserAccount) {
    t.owner in accts && accts[t.owner] == account
  }

  /**
   * For a caller holding the current row of its account, ownership is
   * simply "the token's owner uid is the caller's uid".
   */
  lemma OwnershipByUid(accts: UserAccounts.Accounts, t: EsiToken, account: UserAccounts.UserAccount)
    requires UserAccounts.Keyed(accts)
    requires account.uid in accts && accts[account.uid] == account
    ensures IsOwnedBy(accts, t, account) <==> t.owner == account.uid
  {
  }

  /** A caller whose copy of its account is out of date (say, an older `last`) owns nothing. */
  lemma StaleAccountOwnsNothing(accts: UserAccounts.Accounts, t: EsiToken, account: UserAccounts.UserAccount)
    requires account.uid in accts && accts[account.uid] != account
    requires UserAccounts.Keyed(accts)
    ensures !IsOwnedBy(accts, t, account)
  {
  }

  datatype Created = Created(tokens: Tokens, token: EsiToken)

  /**
   * A new token for the owner with the given scopes and character name; it
   * holds no access or refresh token yet (expiry 0), and its kid comes from
   * the shared sequence whose next value is `next`.
   */
  function CreateKey(tokens: Tokens, next: int, owner: int, scopes: string, characterName: string): (r: Created)
    ensures r.token.kid !in tokens && next <= r.token.kid
    ensures r.token.owner == owner && r.token.scopes == scopes && r.token.characterName == characterName
    ensures r.token.accessToken.None? && r.token.refreshToken.None? && !r.token.valid
    ensures r.token.accessTokenExpiry == 0
    ensures r.tokens.Keys == tokens.Keys + {r.token.kid}
    ensures r.tokens[r.token.kid] == r.token
    ensures Tables.SameExcept(tokens, r.tokens, r.token.kid)
    ensures Keyed(tokens) ==> Keyed(r.tokens)
    ensures FlagUnstored(tokens) ==> FlagUnstored(r.tokens)
  {
    var kid := Tables.FreshId(tokens.Keys, next);
    var t := EsiToken(kid, owner, scopes, characterName, None, 0, None, false);
    Created(tokens[kid := t], t)
  }

  /** The token with this kid, or null. */
  function GetKeyByID(tokens: Tokens, kid: int): (r: Option<EsiToken>)
    ensures r.Some? <==> kid in tokens
    ensures r.Some? ==> r.value == tokens[kid]
  {
    if kid in tokens then Some(tokens[kid]) else None
  }

  datatype Deleted = Deleted(ok: bool, tokens: Tokens)

  /** Removes the token only when the caller owns it; reports success either way. */
  function DeleteKey(tokens: Tokens, accts: UserAccounts.Accounts, account: UserAccounts.UserAccount, kid: int): (r: Deleted)
    ensures r.ok
    ensures kid in tokens && IsOwnedBy(accts, tokens[kid], account) ==> r.tokens == tokens - {kid}
    ensures !(kid in tokens && IsOwnedBy(accts, tokens[kid], account)) ==> r.tokens == tokens
  {
    match GetKeyByID(tokens, kid)
    case Some(t) =>
      if IsOwnedBy(accts, t, account) then Deleted(true, tokens - {kid}) else Deleted(true, tokens)
    case None => Deleted(true, tokens)
  }

  /** After a delete by its owner the token can no longer be found; other tokens stay. */
  lemma DeleteByOwnerRemoves(tokens: Tokens, accts: UserAccounts.Accounts, kid: int)
    requires kid in tokens && tokens[kid].owner in accts
    ensures var after := DeleteKey(tokens, accts, accts[tokens[kid].owner], kid).tokens;
            GetKeyByID(after, kid).None? && Tables.SameExcept(tokens, after, kid)
  {
  }

  /**
   * Stores every persistent field of the given token under its kid,
   * replacing the previous row; the transient `valid` flag is not stored.
   */
  function Update(tokens: Tokens, t: EsiToken): (r: Tokens)
    ensures t.kid in r && !r[t.kid].valid
    ensures r[t.kid].(valid := t.valid) == t
    ensures r.Keys == tokens.Keys + {t.kid}
    ensures Tables.SameExcept(tokens, r, t.kid)
    ensures Keyed(tokens) ==> Keyed(r)
    ensures FlagUnstored(tokens) ==> FlagUnstored(r)
  {
    tokens[t.kid := t.(valid := false)]
  }

  /**
   * A token read back after being stored differs from the one written at
   * most in its flag, and recomputing the flag restores what the writer
   * would have computed.
   */
  lemma UpdateThenGet(tokens: Tokens, t: EsiToken)
    ensures var back := GetKeyByID(Update(tokens, t), t.kid);
      && back.Some? && !back.value.valid
      && UpdateValid(back.value) == UpdateValid(t)
  {
  }

  /** The JSON form of a token: everything except the two secrets. */
  datatype TokenView = TokenView(
    kid: int,
    userAccount: int,
    scopes: string,
    characterName: string,
    accessTokenExpiry: int,
    valid: bool)

  function SerializedView(t: EsiToken): (v: TokenView)
    ensures v.kid == t.kid && v.userAccount == t.owner && v.scopes == t.scopes
    ensures v.characterName == t.characterName && v.accessTokenExpiry == t.accessTokenExpiry
    ensures v.valid == t.valid
  {
    TokenView(t.kid, t.owner, t.scopes, t.characterName, t.accessTokenExpiry, t.valid)
  }

  /** The serialized view reveals nothing about the access or refresh token. */
  lemma ViewOmitsSecrets(t: EsiToken, access: Option<string>, refresh: Option<string>)
    ensures SerializedView(t.(accessToken := access, refreshToken := refresh)) == SerializedView(t)
  {
  }
}
