/**
 * DataPlatformUserAccount: the table of platform users (`evekit_dp_users`),
 * keyed by uid, and the key scheme under which per-user persistent
 * properties are stored.
 */
module UserAccounts {
  import opened Wrappers
  import Tables
  import Decimal

  /**
   * One user row. The Java `equals` compares all four fields, which is
   * exactly datatype equality here.
   */
  datatype UserAccount = UserAccount(uid: int, created: int, admin: bool, last: int)

  type Accounts = map<int, UserAccount>

  /** Every row is stored under its own uid. */
  predicate Keyed(accts: Accounts) {
    forall u :: u in accts ==> accts[u].uid == u
  }

  datatype Created = Created(accounts: Accounts, account: UserAccount)

  /**
   * A new user: created now, last sign-on equal to the creation time, its
   * uid drawn from the shared sequence whose next value is `next`.
   */
  function CreateNewUserAccount(accts: Accounts, next: int, admin: bool, now: int): (r: Created)
    ensures r.account.uid !in accts && next <= r.account.uid
    ensures r.account.created == now && r.account.last == r.account.created
    ensures r.account.admin == admin
    ensures r.accounts.Keys == accts.Keys + {r.account.uid}
    ensures r.accounts[r.account.uid] == r.account
    ensures Tables.SameExcept(accts, r.accounts, r.account.uid)
    ensures Keyed(accts) ==> Keyed(r.accounts)
  {
    var uid := Tables.FreshId(accts.Keys, next);
    var account := UserAccount(uid, now, admin, now);
    Created(accts[uid := account], account)
  }

  /** The row with this uid, or null. */
  function GetAccount(accts: Accounts, uid: int): (r: Option<UserAccount>)
    ensures r.Some? <==> uid in accts
    ensures r.Some? ==> r.value == accts[uid]
  {
    if uid in accts then Some(accts[uid]) else None
  }

  /** A new account is found by its uid; every other lookup is unchanged. */
  lemma CreateThenGet(accts: Accounts, next: int, admin: bool, now: int, uid: int)
    ensures var r := CreateNewUserAccount(accts, next, admin, now);
      && GetAccount(r.accounts, r.account.uid) == Some(r.account)
      && (uid != r.account.uid ==> GetAccount(r.accounts, uid) == GetAccount(accts, uid))
  {
  }

  datatype Touched = Touched(accounts: Accounts, account: Option<UserAccount>)

  /**
   * Re-reads the stored row for the caller's uid and sets its last sign-on
   * to now; an unknown uid fails (null) and writes nothing.
   */
  function Touch(accts: Accounts, user: UserAccount, now: int): (r: Touched)
    ensures user.uid !in accts ==> r.account == None && r.accounts == accts
    ensures user.uid in accts ==>
      && r.account.Some?
      && r.account.value.last == now
      && r.account.value.(last := accts[user.uid].last) == accts[user.uid]
      && r.accounts.Keys == accts.Keys
      && r.accounts[user.uid] == r.account.value
    ensures Tables.SameExcept(accts, r.accounts, user.uid)
  {
    match GetAccount(accts, user.uid)
    case None => Touched(accts, None)
    case Some(stored) =>
      var touched := stored.(last := now);
      Touched(accts[user.uid := touched], Some(touched))
  }

  /** After Touch, reading the account back gives the touched row with last sign-on now. */
  lemma TouchThenGet(accts: Accounts, user: UserAccount, now: int)
    requires user.uid in accts
    ensures var r := Touch(accts, user, now);
      && GetAccount(r.accounts, user.uid) == r.account
      && GetAccount(r.accounts, user.uid).value.last == now
      && GetAccount(r.accounts, user.uid).value.created == accts[user.uid].created
  {
  }

  /** Touch works from the stored row, so a stale copy of the caller's account changes nothing. */
  lemma TouchUsesStoredRow(accts: Accounts, a: UserAccount, b: UserAccount, now: int)
    requires a.uid == b.uid
    ensures Touch(accts, a, now) == Touch(accts, b, now)
  {
  }

  /** Touching twice at the same instant is the same as touching once. */
  lemma TouchIdempotent(accts: Accounts, user: UserAccount, now: int)
    ensures Touch(Touch(accts, user, now).accounts, user, now) == Touch(accts, user, now)
  {
  }

  /** Touch keeps every row under its own uid. */
  lemma TouchKeepsKeyed(accts: Accounts, user: UserAccount, now: int)
    requires Keyed(accts)
    ensures Keyed(Touch(accts, user, now).accounts)
  {
  }

  /** Platform accounts are never disabled. */
  function IsDisabled(account: UserAccount): (disabled: bool)
    ensures !disabled
  {
    false
  }

  const PropertyKeyPrefix: string := "DataPlatformUserAccount."

  /** Key scheme `DataPlatformUserAccount.<uid>.<field>` for persistent properties. */
  function PersistentPropertyKey(uid: int, field: string): (key: string)
    ensures |PropertyKeyPrefix| + |field| < |key|
    ensures key[..|PropertyKeyPrefix|] == PropertyKeyPrefix
    ensures key[|key| - |field|..] == field
  {
    PropertyKeyPrefix + Decimal.IntToString(uid) + "." + field
  }

  /** The first position of `c` in `s`. */
  function IndexOf(s: string, c: char): (r: Option<nat>)
    ensures r.Some? ==> r.value < |s| && s[r.value] == c
    ensures r.Some? ==> forall j :: 0 <= j < r.value ==> s[j] != c
    ensures r.None? ==> forall j :: 0 <= j < |s| ==> s[j] != c
  {
    if |s| == 0 then None
    else if s[0] == c then Some(0)
    else match IndexOf(s[1..], c)
      case None => None
      case Some(i) => Some(i + 1)
  }

  /**
   * Splits a persistent property key back into its uid and field; the uid
   * ends at the first dot after the prefix, so a field may itself hold dots.
   */
  function ParsePropertyKey(key: string): Option<(int, string)> {
    var n := |PropertyKeyPrefix|;
    if |key| < n || key[..n] != PropertyKeyPrefix then None
    else
      var rest := key[n..];
      match IndexOf(rest, '.')
      case None => None
      case Some(i) =>
        match Decimal.ParseInt(rest[..i])
        case None => None
        case Some(uid) => Some((uid, rest[i + 1..]))
  }

  /** Every key the scheme writes names exactly one (uid, field) pair and can be read back. */
  lemma {:induction false} PropertyKeyRoundTrip(uid: int, field: string)
    ensures ParsePropertyKey(PersistentPropertyKey(uid, field)) == Some((uid, field))
  {
    var digits := Decimal.IntToString(uid);
    var key := PersistentPropertyKey(uid, field);
    var n := |PropertyKeyPrefix|;
    var rest := key[n..];
    assert key[..n] == PropertyKeyPrefix;
    assert rest == digits + "." + field;
    assert rest[|digits|] == '.';
    assert forall j :: 0 <= j < |digits| ==> rest[j] == digits[j];
    assert IndexOf(rest, '.') == Some(|digits|);
    assert rest[..|digits|] == digits;
    assert rest[|digits| + 1..] == field;
    Decimal.IntRoundTrip(uid);
  }

  /** Different (uid, field) pairs never share a property key. */
  lemma PropertyKeyInjective(uid1: int, field1: string, uid2: int, field2: string)
    requires PersistentPropertyKey(uid1, field1) == PersistentPropertyKey(uid2, field2)
    ensures uid1 == uid2 && field1 == field2
  {
    PropertyKeyRoundTrip(uid1, field1);
    PropertyKeyRoundTrip(uid2, field2);
  }
}
