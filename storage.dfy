/** The mailbox store (redis/storage.go). Two families of keys live in Redis:
    `tkns/<token>`, a string holding the mailbox's username, and
    `accs/<username>`, a list of stored mails, newest at the head, whose oldest
    element is the `"-"` placeholder written at creation. Every store operation
    is a sequence of single Redis commands with no transaction around them.

    Each operation is given twice: as a function of the keyspace (its reply and the
    keyspace it leaves), and as a method of `Storage` that issues the commands one
    by one and is proved to agree with that function. The lemmas state what the
    operations promise. */
module Storage {
  import opened Entity
  import opened Keyspace
  import Codec
  import Redis

  /** The placeholder that makes a fresh mailbox's list exist. */
  const Sentinel: string := "-"

  function TokenKey(token: string): string
  {
    "tkns/" + token
  }

  function AccountKey(username: string): string
  {
    "accs/" + username
  }

  lemma KeysApart(token: string, username: string)
    ensures TokenKey(token) != AccountKey(username)
  {
    assert TokenKey(token)[0] != AccountKey(username)[0];
  }

  lemma TokenKeyInjective(a: string, b: string)
    ensures TokenKey(a) == TokenKey(b) <==> a == b
  {
    if TokenKey(a) == TokenKey(b) {
      assert a == TokenKey(a)[5..] && b == TokenKey(b)[5..];
    }
  }

  lemma AccountKeyInjective(a: string, b: string)
    ensures AccountKey(a) == AccountKey(b) <==> a == b
  {
    if AccountKey(a) == AccountKey(b) {
      assert a == AccountKey(a)[5..] && b == AccountKey(b)[5..];
    }
  }

  predicate IsTokenKey(k: string)
  {
    |k| >= 5 && k[..5] == "tkns/"
  }

  predicate IsAccountKey(k: string)
  {
    |k| >= 5 && k[..5] == "accs/"
  }

  lemma KeyKinds(token: string, username: string)
    ensures IsTokenKey(TokenKey(token)) && !IsAccountKey(TokenKey(token))
    ensures IsAccountKey(AccountKey(username)) && !IsTokenKey(AccountKey(username))
  {
    assert TokenKey(token)[..5] == "tkns/";
    assert AccountKey(username)[..5] == "accs/";
  }

  /** The store's errors: the not-found sentinel (`entity.ErrAccountDoesntExists`),
      a failed Redis command wrapped with the step that issued it, or a plain
      message. */
  datatype Error = ErrAccountDoesntExists | RedisFailure(context: string, cause: RedisError) | Failed(message: string)

  /** The keyspaces as this store uses them: token keys hold strings, account keys
      hold lists, and nothing else is stored. */
  predicate WellTyped(db: Db)
  {
    && Valid(db)
    && (forall k :: k in db.strings ==> IsTokenKey(k))
    && (forall k :: k in db.lists ==> IsAccountKey(k))
  }

  // ---------------------------------------------------------------------------
  // The operations as functions of the keyspace

  function CreateAccountSpec(db: Db, token: string, username: string, ttl: int): (Option<Error>, Db)
  {
    var tKey := TokenKey(token);
    var found := Exists(db, tKey);
    if found.Err? then (Some(RedisFailure("check token exists", found.error)), db)
    else if found.value == 1 then (Some(Failed("token already exists")), db)
    else
      var (reply, db1) := Set(db, tKey, username, ttl);
      if reply.Err? then (Some(Failed("set token")), db1)
      else
        var aKey := AccountKey(username);
        var found' := Exists(db1, aKey);
        if found'.Err? then (Some(RedisFailure("check account exists", found'.error)), db1)
        else if found'.value == 1 then (Some(Failed("account already exists")), db1)
        else
          var (push, db2) := LPush(db1, aKey, Sentinel);
          if push.Err? then (Some(RedisFailure("lpush account", push.error)), db2)
          else
            var (expire, db3) := Expire(db2, aKey, ttl);
            if expire.Err? then (Some(RedisFailure("expire account", expire.error)), db3)
            else (None, db3)
  }

  function ProlongAccountSpec(db: Db, token: string, ttl: int): (Option<Error>, Db)
  {
    var tKey := TokenKey(token);
    var (expire, db1) := Expire(db, tKey, ttl);
    if expire.Err? then (Some(RedisFailure("expire token", expire.error)), db1)
    else
      var username := Get(db1, tKey);
      if username.Err? then (Some(RedisFailure("get token username", username.error)), db1)
      else
        var (expire', db2) := Expire(db1, AccountKey(username.value), ttl);
        if expire'.Err? then (Some(RedisFailure("expire account", expire'.error)), db2)
        else (None, db2)
  }

  /** The part of `Account` after the token is resolved: the mailbox list of
      `username`, read with the token's TTL reply `ttl`. */
  function ReadMailbox(db: Db, username: string, ttl: TtlReply): Result<Account, Error>
  {
    var aKey := AccountKey(username);
    var emailLen := LLen(db, aKey);
    if emailLen.Err? then Failure(RedisFailure("llen account", emailLen.error))
    else if emailLen.value == 0 then Failure(ErrAccountDoesntExists)
    else if emailLen.value > 1 then
      var emailJSONs := LRange(db, aKey, 0, emailLen.value - 2);
      if emailJSONs.Err? then Failure(RedisFailure("lrange account", emailJSONs.error))
      else
        match Codec.DecodeAll(emailJSONs.value)
        case None => Failure(Failed("json unmarshal email json"))
        case Some(emails) => Success(Account(username, Milliseconds(ttl), emails))
    else Success(Account(username, Milliseconds(ttl), []))
  }

  function AccountSpec(db: Db, token: string): Result<Account, Error>
  {
    var tKey := TokenKey(token);
    var username := Get(db, tKey);
    if username.Err? then
      if username.error == Nil then Failure(ErrAccountDoesntExists)
      else Failure(RedisFailure("get token username", username.error))
    else
      var ttl := Ttl(db, tKey);
      if ttl.Err? then Failure(RedisFailure("account ttl", ttl.error))
      else if IsZeroDuration(ttl.value) then Failure(ErrAccountDoesntExists)
      else ReadMailbox(db, username.value, ttl.value)
  }

  function RemoveAccountSpec(db: Db, token: string): (Option<Error>, Db)
  {
    var tKey := TokenKey(token);
    var username := Get(db, tKey);
    if username.Err? then
      if username.error == Nil then (Some(ErrAccountDoesntExists), db)
      else (Some(RedisFailure("get token username", username.error)), db)
    else
      var (del, db1) := Del(db, AccountKey(username.value));
      if del.Err? then (Some(RedisFailure("remove account", del.error)), db1)
      else
        var (del', db2) := Del(db1, tKey);
        if del'.Err? then (Some(RedisFailure("remove account", del'.error)), db2)
        else (None, db2)
  }

  function AccountExistsSpec(db: Db, username: string): (bool, Option<RedisError>)
  {
    var found := Exists(db, AccountKey(username));
    if found.Err? then (false, Some(found.error)) else (found.value == 1, None)
  }

  function AddEmailSpec(db: Db, username: string, email: Email): (Option<Error>, Db)
  {
    PushEmailSpec(db, username, Codec.Encode(email))
  }

  /** `AddEmail` once the mail is encoded as `emailJSON`. */
  function PushEmailSpec(db: Db, username: string, emailJSON: string): (Option<Error>, Db)
  {
    var key := AccountKey(username);
    var found := Exists(db, key);
    if found.Err? then (Some(RedisFailure("check account exists", found.error)), db)
    else if found.value == 0 then (Some(ErrAccountDoesntExists), db)
    else
      var (push, db1) := LPush(db, key, emailJSON);
      if push.Err? then (Some(RedisFailure("lpush account email", push.error)), db1)
      else (None, db1)
  }

  /** The decoding loop of `Account`: each stored text in turn, stopping at the
      first that does not hold a mail. */
  method DecodeEmails(items: seq<string>) returns (r: Option<seq<Email>>)
    ensures r == Codec.DecodeAll(items)
  {
    var emails: seq<Email> := [];
    var i := 0;
    while i < |items|
      invariant 0 <= i <= |items|
      invariant Codec.DecodeAll(items[..i]) == Some(emails)
    {
      var email := Codec.Decode(items[i]);
      assert items[..i + 1][..i] == items[..i];
      if email.None? {
        Codec.DecodeAllFailsFrom(items, i + 1);
        return None;
      }
      emails := emails + [email.value];
      i := i + 1;
    }
    assert items[..i] == items;
    return Some(emails);
  }

  // ---------------------------------------------------------------------------
  // The store object

  class Storage {
    const redis: Redis.Client

    constructor (client: Redis.Client)
      ensures redis == client
    {
      redis := client;
    }

    method CreateAccount(token: string, username: string, ttl: int) returns (err: Option<Error>)
      requires redis.Valid()
      modifies redis
      ensures redis.Valid()
      ensures (err, redis.Db()) == CreateAccountSpec(old(redis.Db()), token, username, ttl)
    {
      var tKey := TokenKey(token);
      var found := redis.Exists(tKey);
      if found.Err? { return Some(RedisFailure("check token exists", found.error)); }
      if found.value == 1 { return Some(Failed("token already exists")); }
      var setReply := redis.Set(tKey, username, ttl);
      if setReply.Err? { return Some(Failed("set token")); }
      var aKey := AccountKey(username);
      found := redis.Exists(aKey);
      if found.Err? { return Some(RedisFailure("check account exists", found.error)); }
      if found.value == 1 { return Some(Failed("account already exists")); }
      var push := redis.LPush(aKey, Sentinel);
      if push.Err? { return Some(RedisFailure("lpush account", push.error)); }
      var expire := redis.Expire(aKey, ttl);
      if expire.Err? { return Some(RedisFailure("expire account", expire.error)); }
      return None;
    }

    method ProlongAccount(token: string, ttl: int) returns (err: Option<Error>)
      requires redis.Valid()
      modifies redis
      ensures redis.Valid()
      ensures (err, redis.Db()) == ProlongAccountSpec(old(redis.Db()), token, ttl)
    {
      var tKey := TokenKey(token);
      var expire := redis.Expire(tKey, ttl);
      if expire.Err? { return Some(RedisFailure("expire token", expire.error)); }
      var username := redis.Get(tKey);
      if username.Err? { return Some(RedisFailure("get token username", username.error)); }
      expire := redis.Expire(AccountKey(username.value), ttl);
      if expire.Err? { return Some(RedisFailure("expire account", expire.error)); }
      return None;
    }

    method Account(token: string) returns (r: Result<Entity.Account, Error>)
      requires redis.Valid()
      ensures r == AccountSpec(redis.Db(), token)
    {
      var tKey := TokenKey(token);
      var username := redis.Get(tKey);
      if username.Err? {
        if username.error == Nil { return Failure(ErrAccountDoesntExists); }
        return Failure(RedisFailure("get token username", username.error));
      }
      var ttl := redis.Ttl(tKey);
      if ttl.Err? { return Failure(RedisFailure("account ttl", ttl.error)); }
      if IsZeroDuration(ttl.value) { return Failure(ErrAccountDoesntExists); }
      var aKey := AccountKey(username.value);
      var emailLen := redis.LLen(aKey);
      if emailLen.Err? { return Failure(RedisFailure("llen account", emailLen.error)); }
      if emailLen.value == 0 { return Failure(ErrAccountDoesntExists); }
      var emails: seq<Email> := [];
      if emailLen.value > 1 {
        var emailJSONs := redis.LRange(aKey, 0, emailLen.value - 2);
        match emailJSONs
        case Err(cause) =>
          return Failure(RedisFailure("lrange account", cause));
        case Ok(items) =>
          var decoded := DecodeEmails(items);
          if decoded.None? { return Failure(Failed("json unmarshal email json")); }
          emails := decoded.value;
      }
      return Success(Entity.Account(username.value, Milliseconds(ttl.value), emails));
    }

    method RemoveAccount(token: string) returns (err: Option<Error>)
      requires redis.Valid()
      modifies redis
      ensures redis.Valid()
      ensures (err, redis.Db()) == RemoveAccountSpec(old(redis.Db()), token)
    {
      var tKey := TokenKey(token);
      var username := redis.Get(tKey);
      if username.Err? {
        if username.error == Nil { return Some(ErrAccountDoesntExists); }
        return Some(RedisFailure("get token username", username.error));
      }
      var del := redis.Del(AccountKey(username.value));
      if del.Err? { return Some(RedisFailure("remove account", del.error)); }
      del := redis.Del(tKey);
      if del.Err? { return Some(RedisFailure("remove account", del.error)); }
      return None;
    }

    method AccountExists(username: string) returns (ok: bool, err: Option<RedisError>)
      requires redis.Valid()
      ensures (ok, err) == AccountExistsSpec(redis.Db(), username)
    {
      var n := redis.Exists(AccountKey(username));
      if n.Err? { return false, Some(n.error); }
      return n.value == 1, None;
    }

    method AddEmail(username: string, email: Email) returns (err: Option<Error>)
      requires redis.Valid()
      modifies redis
      ensures redis.Valid()
      ensures (err, redis.Db()) == AddEmailSpec(old(redis.Db()), username, email)
    {
      var key := AccountKey(username);
      var found := redis.Exists(key);
      if found.Err? { return Some(RedisFailure("check account exists", found.error)); }
      if found.value == 0 { return Some(ErrAccountDoesntExists); }
      var emailJSON := Codec.Encode(email);
      var push := redis.LPush(key, emailJSON);
      if push.Err? { return Some(RedisFailure("lpush account email", push.error)); }
      return None;
    }
  }
}
