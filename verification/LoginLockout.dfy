/**
 The login lockout: two Redis keys with a time to live per user name
 (backend/app/core/security.py) and the `login` route that sequences the calls
 (backend/app/api/v1/routers/auth.py). Times are in whole seconds.
 */
module LoginLockout {
  import opened Wrappers

  /** A Redis value; it has no time to live while `expiresAt` is `None`. */
  datatype Entry = Entry(value: int, expiresAt: Option<int>)

  predicate Live(entry: Option<Entry>, now: int) {
    entry.Some? && (entry.value.expiresAt.Some? ==> now < entry.value.expiresAt.value)
  }

  function Lookup(entries: map<string, Entry>, key: string): Option<Entry> {
    if key in entries then Some(entries[key]) else None
  }

  /** The part of Redis the lockout uses: a key is there until its expiry time. */
  class TtlStore {
    var entries: map<string, Entry>

    constructor ()
      ensures entries == map[]
    {
      entries := map[];
    }

    function Find(key: string): Option<Entry>
      reads this
    {
      Lookup(entries, key)
    }

    method Exists(key: string, now: int) returns (there: bool)
      ensures there == Live(Find(key), now)
    {
      there := key in entries && (entries[key].expiresAt.Some? ==> now < entries[key].expiresAt.value);
    }

    /** INCR starts an absent or expired key from zero and keeps the expiry of a live one. */
    method Incr(key: string, now: int) returns (n: int)
      modifies this
      ensures n == if Live(old(Find(key)), now) then old(entries)[key].value + 1 else 1
      ensures entries == old(entries)[key :=
        Entry(n, if Live(old(Find(key)), now) then old(entries)[key].expiresAt else None)]
    {
      var live := Exists(key, now);
      n := if live then entries[key].value + 1 else 1;
      entries := entries[key := Entry(n, if live then entries[key].expiresAt else None)];
    }

    method Expire(key: string, seconds: int, now: int)
      modifies this
      ensures entries == if Live(old(Find(key)), now)
                         then old(entries)[key := old(entries)[key].(expiresAt := Some(now + seconds))]
                         else old(entries)
    {
      var live := Exists(key, now);
      if live {
        entries := entries[key := entries[key].(expiresAt := Some(now + seconds))];
      }
    }

    method SetEx(key: string, seconds: int, value: int, now: int)
      modifies this
      ensures entries == old(entries)[key := Entry(value, Some(now + seconds))]
    {
      entries := entries[key := Entry(value, Some(now + seconds))];
    }

    method Delete(key: string)
      modifies this
      ensures entries == old(entries) - {key}
    {
      entries := entries - {key};
    }
  }

  /* What the two keys of one user record */

  function AttemptsKey(user: string): string { "auth:login_attempts:" + user }

  function LockKey(user: string): string { "auth:locked:" + user }

  datatype Account = Account(attempts: Option<Entry>, lock: Option<Entry>)

  /** The account after a failed password check at `now`. */
  function Failed(account: Account, now: int, maxAttempts: int, lockout: int): Account {
    var live := Live(account.attempts, now);
    var count := if live then account.attempts.value.value + 1 else 1;
    // a first attempt starts the counter's time to live, later ones leave it alone
    var expiresAt := if count == 1 || !live then Some(now + lockout) else account.attempts.value.expiresAt;
    Account(Some(Entry(count, expiresAt)),
            if count >= maxAttempts then Some(Entry(1, Some(now + lockout))) else account.lock)
  }

  /**
   One call of the login route: when it checks the lock, when it records the outcome, and
   whether the password is right.
   */
  datatype Login = Login(checkedAt: int, recordedAt: int, passwordOk: bool)

  datatype Outcome = Locked | Rejected(attempts: int) | Accepted

  function OutcomeOf(account: Account, login: Login, maxAttempts: int, lockout: int): Outcome {
    if Live(account.lock, login.checkedAt) then Locked
    else if login.passwordOk then Accepted
    else Rejected(Failed(account, login.recordedAt, maxAttempts, lockout).attempts.value.value)
  }

  function After(account: Account, login: Login, maxAttempts: int, lockout: int): Account {
    match OutcomeOf(account, login, maxAttempts, lockout)
    case Locked => account
    case Accepted => Account(None, None)
    case Rejected(_) => Failed(account, login.recordedAt, maxAttempts, lockout)
  }

  /** User names arrive lower-cased. Without a Redis client nothing is recorded and nobody is locked out. */
  class LoginGuard {
    const redis: TtlStore?

    constructor (redis: TtlStore?)
      ensures this.redis == redis
    {
      this.redis := redis;
    }

    ghost function AccountOf(user: string): Account
      reads redis
    {
      if redis == null then Account(None, None) else Account(redis.Find(AttemptsKey(user)), redis.Find(LockKey(user)))
    }

    /** Nobody else's keys change. */
    twostate predicate OnlyTouches(user: string)
      reads redis
    {
      redis != null ==>
        forall key | key != AttemptsKey(user) && key != LockKey(user) :: redis.Find(key) == old(redis.Find(key))
    }

    method RecordLoginAttempt(user: string, success: bool, maxAttempts: int, lockout: int, now: int)
      returns (attempts: int)
      modifies redis
      ensures OnlyTouches(user)
      ensures forall other | other != user :: AccountOf(other) == old(AccountOf(other))
      ensures redis != null && !success ==>
        var before, after := old(AccountOf(user)), AccountOf(user);
        && attempts == (if Live(before.attempts, now) then before.attempts.value.value + 1 else 1)
        && after.attempts ==
             Some(Entry(attempts, if attempts == 1 then Some(now + lockout) else before.attempts.value.expiresAt))
        && after.lock == if attempts >= maxAttempts then Some(Entry(1, Some(now + lockout))) else before.lock
      ensures redis == null || success ==> attempts == 0 && AccountOf(user) == Account(None, None)
      ensures redis != null && !success ==>
        AccountOf(user) == Failed(old(AccountOf(user)), now, maxAttempts, lockout)
        && attempts == AccountOf(user).attempts.value.value
    {
      if redis == null {
        return 0;
      }
      KeysApart();
      if success {
        redis.Delete(AttemptsKey(user));
        redis.Delete(LockKey(user));
        return 0;
      }
      attempts := redis.Incr(AttemptsKey(user), now);
      if attempts == 1 {
        redis.Expire(AttemptsKey(user), lockout, now);
      }
      if attempts >= maxAttempts {
        redis.SetEx(LockKey(user), lockout, 1, now);
      }
    }

    method IsAccountLocked(user: string, now: int) returns (locked: bool)
      ensures locked == Live(AccountOf(user).lock, now)
    {
      if redis == null {
        return false;
      }
      locked := redis.Exists(LockKey(user), now);
    }

    method ClearLoginAttempts(user: string)
      modifies redis
      ensures OnlyTouches(user) && AccountOf(user) == Account(None, None)
      ensures forall other | other != user :: AccountOf(other) == old(AccountOf(other))
    {
      if redis == null {
        return;
      }
      KeysApart();
      redis.Delete(AttemptsKey(user));
      redis.Delete(LockKey(user));
    }

    /** The `login` route. */
    method LogIn(user: string, login: Login, maxAttempts: int, lockout: int) returns (outcome: Outcome)
      modifies redis
      ensures OnlyTouches(user)
      ensures forall other | other != user :: AccountOf(other) == old(AccountOf(other))
      ensures outcome.Locked? <==> Live(old(AccountOf(user)).lock, login.checkedAt)
      ensures outcome.Accepted? <==> login.passwordOk && !Live(old(AccountOf(user)).lock, login.checkedAt)
      ensures outcome.Locked? ==> AccountOf(user) == old(AccountOf(user))
      ensures outcome.Accepted? ==> AccountOf(user) == Account(None, None)
      ensures outcome.Rejected? && redis != null ==>
        AccountOf(user).attempts.Some? && outcome.attempts == AccountOf(user).attempts.value.value
      ensures redis != null ==>
        outcome == OutcomeOf(old(AccountOf(user)), login, maxAttempts, lockout)
        && AccountOf(user) == After(old(AccountOf(user)), login, maxAttempts, lockout)
      ensures redis != null ==>
        redis.entries == StoreAfter(old(redis.entries), [UserLogin(user, login)], maxAttempts, lockout)
      ensures redis == null ==> outcome == if login.passwordOk then Accepted else Rejected(0)
    {
      var locked := IsAccountLocked(user, login.checkedAt);
      if locked {
        outcome := Locked;
      } else if !login.passwordOk {
        var attempts := RecordLoginAttempt(user, false, maxAttempts, lockout, login.recordedAt);
        outcome := Rejected(attempts);
      } else {
        ClearLoginAttempts(user);
        outcome := Accepted;
      }
      if redis != null {
        forall key | key != AttemptsKey(user) && key != LockKey(user)
          ensures Lookup(redis.entries, key) == Lookup(old(redis.entries), key)
        {
          assert redis.Find(key) == old(redis.Find(key));
        }
        WrittenIs(old(redis.entries), redis.entries, user, AccountOf(user));
        OneLogin(old(redis.entries), UserLogin(user, login), maxAttempts, lockout);
      }
    }
  }

  /** No two of the keys of all users are the same. */
  lemma KeysApart()
    ensures forall u, v :: AttemptsKey(u) != LockKey(v)
    ensures forall u, v | AttemptsKey(u) == AttemptsKey(v) || LockKey(u) == LockKey(v) :: u == v
  {
    forall u, v
      ensures AttemptsKey(u) != LockKey(v)
    {
      assert AttemptsKey(u)[7] != LockKey(v)[7];
    }
    forall u, v | AttemptsKey(u) == AttemptsKey(v) || LockKey(u) == LockKey(v)
      ensures u == v
    {
      assert AttemptsKey(u)[20..] == u && AttemptsKey(v)[20..] == v;
      assert LockKey(u)[12..] == u && LockKey(v)[12..] == v;
    }
  }

  /* Runs of logins of many users */

  datatype UserLogin = UserLogin(user: string, login: Login)

  ghost function AccountIn(entries: map<string, Entry>, user: string): Account {
    Account(Lookup(entries, AttemptsKey(user)), Lookup(entries, LockKey(user)))
  }

  ghost function Put(entries: map<string, Entry>, key: string, entry: Option<Entry>): map<string, Entry> {
    if entry.Some? then entries[key := entry.value] else entries - {key}
  }

  /** The store once the two keys of a user record this account. */
  ghost function Written(entries: map<string, Entry>, user: string, account: Account): map<string, Entry> {
    Put(Put(entries, AttemptsKey(user), account.attempts), LockKey(user), account.lock)
  }

  ghost function StoreAfter(entries: map<string, Entry>, logins: seq<UserLogin>, maxAttempts: int, lockout: int)
    : map<string, Entry>
  {
    if logins == [] then entries else
      var n := |logins| - 1;
      var before, last := StoreAfter(entries, logins[..n], maxAttempts, lockout), logins[n];
      Written(before, last.user, After(AccountIn(before, last.user), last.login, maxAttempts, lockout))
  }

  lemma OneLogin(entries: map<string, Entry>, login: UserLogin, maxAttempts: int, lockout: int)
    ensures StoreAfter(entries, [login], maxAttempts, lockout) ==
            Written(entries, login.user, After(AccountIn(entries, login.user), login.login, maxAttempts, lockout))
  {
    assert [login][..0] == [];
  }

  ghost function OwnLogins(logins: seq<UserLogin>, user: string): seq<Login> {
    if logins == [] then [] else
      var n := |logins| - 1;
      if logins[n].user == user then OwnLogins(logins[..n], user) + [logins[n].login] else OwnLogins(logins[..n], user)
  }

  /** The account of a user whose logins are the only ones. */
  ghost function AfterOwn(account: Account, logins: seq<Login>, maxAttempts: int, lockout: int): Account {
    if logins == [] then account else
      After(AfterOwn(account, logins[..|logins| - 1], maxAttempts, lockout), logins[|logins| - 1], maxAttempts, lockout)
  }

  lemma WrittenReads(entries: map<string, Entry>, user: string, account: Account, other: string)
    ensures AccountIn(Written(entries, user, account), other) ==
            if other == user then account else AccountIn(entries, other)
  {
    KeysApart();
  }

  lemma {:induction false} AccountsAreApart(entries: map<string, Entry>, logins: seq<UserLogin>, user: string,
                                            maxAttempts: int, lockout: int)
    ensures AccountIn(StoreAfter(entries, logins, maxAttempts, lockout), user) ==
            AfterOwn(AccountIn(entries, user), OwnLogins(logins, user), maxAttempts, lockout)
  {
    if logins == [] {
    } else {
      var n := |logins| - 1;
      var before, last := StoreAfter(entries, logins[..n], maxAttempts, lockout), logins[n];
      AccountsAreApart(entries, logins[..n], user, maxAttempts, lockout);
      WrittenReads(before, last.user, After(AccountIn(before, last.user), last.login, maxAttempts, lockout), user);
      var own := OwnLogins(logins[..n], user);
      assert (own + [last.login])[..|own|] == own;
    }
  }

  /** In every run of logins of any users, the outcome of each is what it is among that user's own logins alone. */
  lemma OutcomesAreOwn(entries: map<string, Entry>, logins: seq<UserLogin>, k: nat, maxAttempts: int, lockout: int)
    requires k < |logins|
    ensures var UserLogin(user, login) := logins[k];
            var actual := AccountIn(StoreAfter(entries, logins[..k], maxAttempts, lockout), user);
            var alone := AfterOwn(AccountIn(entries, user), OwnLogins(logins[..k], user), maxAttempts, lockout);
            OutcomeOf(actual, login, maxAttempts, lockout) == OutcomeOf(alone, login, maxAttempts, lockout)
  {
    AccountsAreApart(entries, logins[..k], logins[k].user, maxAttempts, lockout);
  }

  /** A store whose other keys are as they were, and whose two keys record this account. */
  lemma WrittenIs(before: map<string, Entry>, after: map<string, Entry>, user: string, account: Account)
    requires forall key | key != AttemptsKey(user) && key != LockKey(user) :: Lookup(after, key) == Lookup(before, key)
    requires AccountIn(after, user) == account
    ensures after == Written(before, user, account)
  {
    KeysApart();
    forall key
      ensures Lookup(after, key) == Lookup(Written(before, user, account), key)
    {
    }
    SameLookups(after, Written(before, user, account));
  }

  lemma SameLookups(a: map<string, Entry>, b: map<string, Entry>)
    requires forall key :: Lookup(a, key) == Lookup(b, key)
    ensures a == b
  {
    assert forall key :: (key in a <==> Lookup(a, key).Some?) && (key in b <==> Lookup(b, key).Some?);
  }
}
