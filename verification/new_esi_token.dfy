/**
 * NewESIToken: the pending authorization (`esi_temp_token`), keyed by kid.
 * It records who asked for which scopes and carries the OAuth `state`
 * value the identity provider echoes back to the callback.
 */
module NewEsiTokens {
  import opened Wrappers
  import Tables

  /** `existingKid` when the request is a fresh grant rather than a re-authentication. */
  const NoExistingKid: int := -1

  datatype NewEsiToken = NewEsiToken(
    kid: int,
    userAccount: int,
    createTime: int,
    expiry: int,
    scopes: string,
    randomSeed: int,
    stateKey: string,
    existingKid: int)

  type PendingTokens = map<int, NewEsiToken>

  /**
   * The digest that turns (kid, random seed) into the state value. The
   * hash itself is not modelled; it is a parameter of the operations.
   */
  type Digest = (int, int) -> string

  ghost predicate Injective(h: Digest) {
    forall a, b, c, d :: h(a, b) == h(c, d) ==> a == c && b == d
  }

  /** Every row sits under its kid and carries the digest of its kid and seed as its state. */
  predicate WellFormed(p: PendingTokens, h: Digest) {
    forall k :: k in p ==> p[k].kid == k && p[k].stateKey == h(k, p[k].randomSeed)
  }

  /** No two live rows share a state value (the unique index on `stateKey`). */
  ghost predicate UniqueStates(p: PendingTokens) {
    forall j, k :: j in p && k in p && p[j].stateKey == p[k].stateKey ==> j == k
  }

  /** Unique kids and an injective digest give unique state values. */
  lemma WellFormedStatesUnique(p: PendingTokens, h: Digest)
    requires WellFormed(p, h) && Injective(h)
    ensures UniqueStates(p)
  {
  }

  datatype Created = Created(pending: PendingTokens, token: NewEsiToken)

  /**
   * Stores a pending request exactly as given, under a fresh kid, with the
   * digest of that kid and the random seed as its state value. The kid
   * comes from the shared sequence whose next value is `next`.
   */
  function CreateKey(p: PendingTokens, next: int, userAccount: int, createTime: int, expiry: int, scopes: string,
                     existingKid: int, seed: int, h: Digest): (r: Created)
    ensures r.token.kid !in p && next <= r.token.kid
    ensures r.token.userAccount == userAccount && r.token.createTime == createTime
    ensures r.token.expiry == expiry && r.token.scopes == scopes
    ensures r.token.existingKid == existingKid && r.token.randomSeed == seed
    ensures r.token.stateKey == h(r.token.kid, seed)
    ensures r.pending.Keys == p.Keys + {r.token.kid}
    ensures r.pending[r.token.kid] == r.token
    ensures Tables.SameExcept(p, r.pending, r.token.kid)
    ensures WellFormed(p, h) ==> WellFormed(r.pending, h)
  {
    var kid := Tables.FreshId(p.Keys, next);
    var t := NewEsiToken(kid, userAccount, createTime, expiry, scopes, seed, h(kid, seed), existingKid);
    Created(p[kid := t], t)
  }

  /** The state value handed out by createKey differs from that of every live row. */
  lemma CreateKeyStateIsFresh(p: PendingTokens, next: int, userAccount: int, createTime: int, expiry: int, scopes: string,
                              existingKid: int, seed: int, h: Digest)
    requires WellFormed(p, h) && Injective(h)
    ensures var t := CreateKey(p, next, userAccount, createTime, expiry, scopes, existingKid, seed, h).token;
            forall k :: k in p ==> p[k].stateKey != t.stateKey
  {
  }

  /** The row with this kid, or null. */
  function GetKeyByID(p: PendingTokens, kid: int): (r: Option<NewEsiToken>)
    ensures r.Some? <==> kid in p
    ensures r.Some? ==> r.value == p[kid]
  {
    if kid in p then Some(p[kid]) else None
  }

  /** Rows of the query `findByCred`. */
  function WithState(p: PendingTokens, state: string): set<int> {
    set k | k in p && p[k].stateKey == state
  }

  /** The row whose state value is `state`, or null when no single row has it. */
  function GetKeyByState(p: PendingTokens, state: string): (r: Option<NewEsiToken>)
    ensures r.Some? <==> |WithState(p, state)| == 1
    ensures r.Some? ==> r.value in p.Values && r.value.stateKey == state
    ensures r.Some? ==> forall k :: k in p && p[k].stateKey == state ==> p[k] == r.value
  {
    match Tables.Only(WithState(p, state))
    case None => None
    case Some(k) =>
      assert forall j :: j in p && p[j].stateKey == state ==> j in WithState(p, state);
      Some(p[k])
  }

  /** In a well-formed table every live row is found again by its own state value. */
  lemma GetKeyByStateFindsRow(p: PendingTokens, h: Digest, k: int)
    requires WellFormed(p, h) && Injective(h) && k in p
    ensures GetKeyByState(p, p[k].stateKey) == Some(p[k])
  {
    forall j | j in WithState(p, p[k].stateKey)
      ensures j == k
    {
    }
    Tables.OnlyMember(WithState(p, p[k].stateKey), k);
  }

  /**
   * A request just stored is found again by the state value handed out for
   * it, and deleting it restores the table.
   */
  lemma CreateKeyThenFound(p: PendingTokens, next: int, userAccount: int, createTime: int, expiry: int, scopes: string,
                           existingKid: int, seed: int, h: Digest)
    requires WellFormed(p, h) && Injective(h)
    ensures var c := CreateKey(p, next, userAccount, createTime, expiry, scopes, existingKid, seed, h);
            && GetKeyByState(c.pending, c.token.stateKey) == Some(c.token)
            && DeleteKey(c.pending, c.token.kid).pending == p
  {
    var c := CreateKey(p, next, userAccount, createTime, expiry, scopes, existingKid, seed, h);
    GetKeyByStateFindsRow(c.pending, h, c.token.kid);
    assert c.pending - {c.token.kid} == p;
  }

  /** The reaper's sweep: deletes exactly the rows whose expiry is at or before `limit`. */
  function CleanExpired(p: PendingTokens, limit: int): (r: PendingTokens)
    ensures forall k :: k in r <==> k in p && p[k].expiry > limit
    ensures forall k :: k in r ==> r[k] == p[k]
  {
    map k | k in p && p[k].expiry > limit :: p[k]
  }

  /** A second sweep with a limit no later than the first removes nothing more. */
  lemma CleanExpiredIdempotent(p: PendingTokens, limit: int, earlier: int)
    requires earlier <= limit
    ensures CleanExpired(CleanExpired(p, limit), earlier) == CleanExpired(p, limit)
  {
  }

  /** Two sweeps in a row remove what one sweep at the later limit removes. */
  lemma CleanExpiredCompose(p: PendingTokens, first: int, second: int)
    ensures CleanExpired(CleanExpired(p, first), second) == CleanExpired(p, if first < second then second else first)
  {
  }

  /** The sweep keeps a table well formed. */
  lemma CleanExpiredKeepsWellFormed(p: PendingTokens, h: Digest, limit: int)
    requires WellFormed(p, h)
    ensures WellFormed(CleanExpired(p, limit), h)
  {
  }

  datatype Deleted = Deleted(ok: bool, pending: PendingTokens)

  /** Removes the row with this kid if there is one; deleting a missing row is not an error. */
  function DeleteKey(p: PendingTokens, kid: int): (r: Deleted)
    ensures r.ok
    ensures GetKeyByID(r.pending, kid).None?
    ensures r.pending.Keys == p.Keys - {kid}
    ensures forall k :: k in r.pending ==> r.pending[k] == p[k]
  {
    Deleted(true, p - {kid})
  }
}
