/**
 * DataPlatformUserAuthSource: the sign-in sources of each user account
 * (`evekit_dp_auth_source`), keyed by sid. A row names its owning account
 * by uid; JPA compares entity references by their ID.
 */
module AuthSources {
  import opened Wrappers
  import Tables
  import UserAccounts

  datatype AuthSource = AuthSource(
    sid: int,
    account: int,
    source: string,
    screenName: string,
    details: string,
    last: int)

  type Sources = map<int, AuthSource>

  /** Every row is stored under its own sid. */
  predicate Keyed(ss: Sources) {
    forall k :: k in ss ==> ss[k].sid == k
  }

  /** Rows of the query `findByAcctAndSource`. */
  function Matching(ss: Sources, account: int, source: string): set<int> {
    set k | k in ss && ss[k].account == account && ss[k].source == source
  }

  /** Rows of the query `allSourcesByAcct`. */
  function OwnedBy(ss: Sources, account: int): set<int> {
    set k | k in ss && ss[k].account == account
  }

  /** At most one row per (account, source name); createSource is written to keep this. */
  ghost predicate UniquePerAccount(ss: Sources) {
    forall j, k :: j in ss && k in ss && ss[j].account == ss[k].account && ss[j].source == ss[k].source ==> j == k
  }

  /**
   * The account's row for this source name. No row gives null, and so do
   * several rows: the single-result query fails and the failure is logged.
   */
  function GetSource(ss: Sources, account: int, source: string): (r: Option<AuthSource>)
    ensures r.Some? <==> |Matching(ss, account, source)| == 1
    ensures r.Some? ==> r.value in ss.Values && r.value.account == account && r.value.source == source
  {
    match Tables.Only(Matching(ss, account, source))
    case None => None
    case Some(k) => Some(ss[k])
  }

  /** With at most one row per (account, source), every row is found by its own account and name. */
  lemma GetSourceFindsRow(ss: Sources, k: int)
    requires UniquePerAccount(ss) && k in ss
    ensures GetSource(ss, ss[k].account, ss[k].source) == Some(ss[k])
  {
    forall j | j in Matching(ss, ss[k].account, ss[k].source)
      ensures j == k
    {
    }
    assert Matching(ss, ss[k].account, ss[k].source) == {k};
  }

  /** With at most one row per (account, source), a null getSource means there is no such row. */
  lemma GetSourceNoneMeansNoRow(ss: Sources, owner: int, source: string)
    requires UniquePerAccount(ss)
    requires GetSource(ss, owner, source).None?
    ensures Matching(ss, owner, source) == {}
  {
    var matching := Matching(ss, owner, source);
    if matching != {} {
      Tables.NonEmptyHasElement(matching);
      var k :| k in matching;
      GetSourceFindsRow(ss, k);
      assert false;
    }
  }

  /**
   * The source the account used most recently (greatest `last`), or null
   * when the account has none. Rows tied on `last` come back in an order
   * the database picks; the model takes the least sid among them.
   */
  function GetLastUsedSource(ss: Sources, account: int): (r: Option<AuthSource>)
    ensures r.None? <==> OwnedBy(ss, account) == {}
    ensures r.Some? ==> r.value in ss.Values && r.value.account == account
    ensures r.Some? ==> forall k :: k in ss && ss[k].account == account ==> ss[k].last <= r.value.last
  {
    var owned := OwnedBy(ss, account);
    if owned == {} then None
    else Some(ss[Tables.ArgMax(ss, owned, (row: AuthSource) => row.last)])
  }

  /** Some row with this source name and screen name (the first the database returns), or null. */
  function GetBySourceScreenname(ss: Sources, source: string, screenName: string): (r: Option<AuthSource>)
    ensures r.None? <==> forall k :: k in ss ==> ss[k].source != source || ss[k].screenName != screenName
    ensures r.Some? ==> r.value in ss.Values && r.value.source == source && r.value.screenName == screenName
  {
    var found := set k | k in ss && ss[k].source == source && ss[k].screenName == screenName;
    if found == {} then
      assert forall k :: k in ss ==> k !in found;
      None
    else Some(ss[Tables.MinOf(found)])
  }

  datatype Created = Created(sources: Sources, source: AuthSource)

  /**
   * Returns the owner's existing row for this source untouched; otherwise
   * stores a new row whose last use is now and whose ID comes from the
   * shared sequence whose next value is `next`.
   */
  function CreateSource(ss: Sources, next: int, owner: int, source: string, screenName: string, details: string, now: int): (r: Created)
    ensures GetSource(ss, owner, source).Some? ==> r == Created(ss, GetSource(ss, owner, source).value)
    ensures GetSource(ss, owner, source).None? ==>
      && r.source.sid !in ss && next <= r.source.sid
      && r.source == AuthSource(r.source.sid, owner, source, screenName, details, now)
      && r.sources.Keys == ss.Keys + {r.source.sid}
      && r.sources[r.source.sid] == r.source
      && Tables.SameExcept(ss, r.sources, r.source.sid)
    ensures Keyed(ss) ==> Keyed(r.sources)
  {
    match GetSource(ss, owner, source)
    case Some(existing) => Created(ss, existing)
    case None =>
      var sid := Tables.FreshId(ss.Keys, next);
      var row := AuthSource(sid, owner, source, screenName, details, now);
      Created(ss[sid := row], row)
  }

  /**
   * A row createSource adds is what the lookup by source and screen name
   * finds, unless an older row shares both names.
   */
  lemma CreateSourceThenByScreenname(ss: Sources, next: int, owner: int, source: string, screenName: string, details: string, now: int)
    requires GetSource(ss, owner, source).None?
    ensures var r := CreateSource(ss, next, owner, source, screenName, details, now);
      && GetBySourceScreenname(r.sources, source, screenName).Some?
      && GetBySourceScreenname(r.sources, source, screenName).value.source == source
      && GetBySourceScreenname(r.sources, source, screenName).value.screenName == screenName
      && ((forall k :: k in ss ==> ss[k].source != source || ss[k].screenName != screenName) ==>
            GetBySourceScreenname(r.sources, source, screenName) == Some(r.source))
  {
    var r := CreateSource(ss, next, owner, source, screenName, details, now);
    assert r.sources[r.source.sid] == r.source;
    var found := set k | k in r.sources && r.sources[k].source == source && r.sources[k].screenName == screenName;
    if forall k :: k in ss ==> ss[k].source != source || ss[k].screenName != screenName {
      assert found == {r.source.sid};
    }
  }

  /** Creating the same source twice is the same as creating it once. */
  lemma CreateSourceIdempotent(ss: Sources, next: int, owner: int, source: string, screenName: string, details: string, now: int, later: int)
    requires UniquePerAccount(ss)
    ensures var first := CreateSource(ss, next, owner, source, screenName, details, now);
            CreateSource(first.sources, first.source.sid + 1, owner, source, screenName, details, later) == first
  {
    var first := CreateSource(ss, next, owner, source, screenName, details, now);
    if GetSource(ss, owner, source).None? {
      var sid := first.source.sid;
      GetSourceNoneMeansNoRow(ss, owner, source);
      forall j | j in Matching(first.sources, owner, source)
        ensures j == sid
      {
        assert j !in Matching(ss, owner, source);
      }
      assert Matching(first.sources, owner, source) == {sid};
    }
  }

  /** createSource never gives an account a second row for the same source name. */
  lemma CreateSourceKeepsUnique(ss: Sources, next: int, owner: int, source: string, screenName: string, details: string, now: int)
    requires UniquePerAccount(ss)
    ensures UniquePerAccount(CreateSource(ss, next, owner, source, screenName, details, now).sources)
  {
    if GetSource(ss, owner, source).None? {
      GetSourceNoneMeansNoRow(ss, owner, source);
    }
  }

  /** Deletes the owner's row for this source if getSource finds one; otherwise nothing changes. */
  function RemoveSourceIfExists(ss: Sources, owner: int, source: string): (r: Sources)
    ensures GetSource(ss, owner, source).None? ==> r == ss
    ensures GetSource(ss, owner, source).Some? ==>
      && r.Keys == ss.Keys - (Matching(ss, owner, source))
      && forall k :: k in r ==> r[k] == ss[k]
  {
    match Tables.Only(Matching(ss, owner, source))
    case None => ss
    case Some(k) => ss - {k}
  }

  /** After removal the owner has no row for that source name. */
  lemma RemoveThenAbsent(ss: Sources, owner: int, source: string)
    ensures GetSource(RemoveSourceIfExists(ss, owner, source), owner, source).None?
  {
    var r := RemoveSourceIfExists(ss, owner, source);
    if GetSource(ss, owner, source).Some? {
      assert Matching(r, owner, source) == {};
    }
  }

  datatype Updated = Updated(sources: Sources, source: Option<AuthSource>)

  /**
   * Sets `last` to now on the stored row that getSource finds for the
   * caller's (account, source); fails (null) without a write when there is none.
   */
  function Touch(ss: Sources, src: AuthSource, now: int): (r: Updated)
    ensures GetSource(ss, src.account, src.source).None? ==> r == Updated(ss, None)
    ensures GetSource(ss, src.account, src.source).Some? ==>
      var stored := GetSource(ss, src.account, src.source).value;
      && r.source.Some?
      && r.source.value.last == now
      && r.source.value.(last := stored.last) == stored
      && r.sources.Keys == ss.Keys
      && (forall k :: k in Matching(ss, src.account, src.source) ==> r.sources[k] == r.source.value)
      && (forall k :: k in ss && ss[k] != stored ==> r.sources[k] == ss[k])
    ensures Keyed(ss) ==> Keyed(r.sources)
  {
    match Tables.Only(Matching(ss, src.account, src.source))
    case None => Updated(ss, None)
    case Some(k) =>
      var touched := ss[k].(last := now);
      Updated(ss[k := touched], Some(touched))
  }

  /** A touched source becomes the account's last used source when no other row is later than now. */
  lemma TouchMakesLastUsed(ss: Sources, src: AuthSource, now: int)
    requires GetSource(ss, src.account, src.source).Some?
    requires forall k :: k in ss && ss[k].account == src.account ==> ss[k].last <= now
    ensures GetLastUsedSource(Touch(ss, src, now).sources, src.account).Some?
    ensures GetLastUsedSource(Touch(ss, src, now).sources, src.account).value.last == now
  {
    var r := Touch(ss, src, now);
    var k :| Matching(ss, src.account, src.source) == {k};
    assert k in OwnedBy(r.sources, src.account);
  }

  /**
   * Moves the stored row for (src.account, src.source) to another account;
   * fails (null) when that row or the new account cannot be found.
   */
  function UpdateAccount(ss: Sources, accts: UserAccounts.Accounts, src: AuthSource, newAccount: UserAccounts.UserAccount): (r: Updated)
    ensures GetSource(ss, src.account, src.source).None? ==> r == Updated(ss, None)
    ensures UserAccounts.GetAccount(accts, newAccount.uid).None? ==> r == Updated(ss, None)
    ensures GetSource(ss, src.account, src.source).Some? && newAccount.uid in accts ==>
      var stored := GetSource(ss, src.account, src.source).value;
      && r.source == Some(stored.(account := newAccount.uid))
      && r.sources.Keys == ss.Keys
      && (forall k :: k in Matching(ss, src.account, src.source) ==> r.sources[k] == r.source.value)
      && (forall k :: k in ss && ss[k] != stored ==> r.sources[k] == ss[k])
    ensures Keyed(ss) ==> Keyed(r.sources)
  {
    match Tables.Only(Matching(ss, src.account, src.source))
    case None => Updated(ss, None)
    case Some(k) =>
      match UserAccounts.GetAccount(accts, newAccount.uid)
      case None => Updated(ss, None)
      case Some(_) =>
        var moved := ss[k].(account := newAccount.uid);
        Updated(ss[k := moved], Some(moved))
  }

  /**
   * Moving a source keeps one row per (account, source name) provided the
   * new account has no row of that name besides, possibly, the moved one.
   */
  lemma UpdateAccountKeepsUnique(ss: Sources, accts: UserAccounts.Accounts, src: AuthSource, newAccount: UserAccounts.UserAccount)
    requires UniquePerAccount(ss)
    requires Matching(ss, newAccount.uid, src.source) <= Matching(ss, src.account, src.source)
    ensures UniquePerAccount(UpdateAccount(ss, accts, src, newAccount).sources)
  {
    var r := UpdateAccount(ss, accts, src, newAccount).sources;
    if GetSource(ss, src.account, src.source).Some? && newAccount.uid in accts {
      var m :| Matching(ss, src.account, src.source) == {m};
      forall k | k in r && k != m
        ensures r[k] == ss[k]
      {
      }
      assert r[m] == ss[m].(account := newAccount.uid);
      forall k | k in r && r[k].account == newAccount.uid && r[k].source == src.source
        ensures k == m
      {
        assert k == m || k in Matching(ss, newAccount.uid, src.source);
      }
    }
  }
}
