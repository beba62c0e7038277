/** The Redis connection the store holds (`*redis.Client`), as an object over an
    in-memory keyspace: one map for the string keys and one for the list keys,
    each entry carrying its own expiry. Every command is one atomic step; its
    reply and the keyspace it leaves behind are those of the `Keyspace` functions. */
module Redis {
  import opened Entity
  import opened Keyspace

  class Client {
    var strings: map<string, Entry<string>>
    var lists: map<string, Entry<seq<string>>>
    var online: bool

    function Db(): Db
      reads this
    {
      Keyspace.Db(strings, lists, online)
    }

    predicate Valid()
      reads this
    {
      Keyspace.Valid(Db())
    }

    constructor ()
      ensures Valid() && Db() == Keyspace.Db(map[], map[], true)
    {
      strings, lists, online := map[], map[], true;
    }

    method Exists(key: string) returns (r: Reply<int>)
      ensures r == Keyspace.Exists(Db(), key)
    {
      if !online { return Err(Unavailable); }
      r := Ok(if key in strings || key in lists then 1 else 0);
    }

    method Set(key: string, value: string, ttl: int) returns (r: Reply<string>)
      requires Valid()
      modifies this
      ensures Valid()
      ensures (r, Db()) == Keyspace.Set(old(Db()), key, value, ttl)
    {
      if !online { return Err(Unavailable); }
      strings := strings[key := Entry(value, ExpiryFor(ttl))];
      lists := lists - {key};
      r := Ok("OK");
    }

    method Get(key: string) returns (r: Reply<string>)
      ensures r == Keyspace.Get(Db(), key)
    {
      if !online { return Err(Unavailable); }
      if key in strings {
        r := Ok(strings[key].value);
      } else if key in lists {
        r := Err(WrongType);
      } else {
        r := Err(Nil);
      }
    }

    method Expire(key: string, ttl: int) returns (r: Reply<bool>)
      requires Valid()
      modifies this
      ensures Valid()
      ensures (r, Db()) == Keyspace.Expire(old(Db()), key, ttl)
    {
      if !online { return Err(Unavailable); }
      if key !in strings && key !in lists { return Ok(false); }
      var seconds := ExpireSeconds(ttl);
      if seconds <= 0 {
        strings, lists := strings - {key}, lists - {key};
      } else if key in strings {
        strings := strings[key := strings[key].(expiry := ExpiresIn(seconds * 1000))];
      } else {
        lists := lists[key := lists[key].(expiry := ExpiresIn(seconds * 1000))];
      }
      r := Ok(true);
    }

    method LPush(key: string, value: string) returns (r: Reply<int>)
      requires Valid()
      modifies this
      ensures Valid()
      ensures (r, Db()) == Keyspace.LPush(old(Db()), key, value)
    {
      if !online { return Err(Unavailable); }
      if key in strings { return Err(WrongType); }
      if key in lists {
        var e := lists[key];
        lists := lists[key := e.(value := [value] + e.value)];
        r := Ok(|e.value| + 1);
      } else {
        lists := lists[key := Entry([value], Persistent)];
        r := Ok(1);
      }
    }

    method LLen(key: string) returns (r: Reply<int>)
      ensures r == Keyspace.LLen(Db(), key)
    {
      if !online { return Err(Unavailable); }
      if key in strings {
        r := Err(WrongType);
      } else if key in lists {
        r := Ok(|lists[key].value|);
      } else {
        r := Ok(0);
      }
    }

    method LRange(key: string, start: int, stop: int) returns (r: Reply<seq<string>>)
      ensures r == Keyspace.LRange(Db(), key, start, stop)
    {
      if !online { return Err(Unavailable); }
      if key in strings {
        r := Err(WrongType);
      } else if key in lists {
        r := Ok(Range(lists[key].value, start, stop));
      } else {
        r := Ok([]);
      }
    }

    method Del(key: string) returns (r: Reply<int>)
      requires Valid()
      modifies this
      ensures Valid()
      ensures (r, Db()) == Keyspace.Del(old(Db()), key)
    {
      if !online { return Err(Unavailable); }
      r := Ok(if key in strings || key in lists then 1 else 0);
      strings, lists := strings - {key}, lists - {key};
    }

    method Ttl(key: string) returns (r: Reply<TtlReply>)
      ensures r == Keyspace.Ttl(Db(), key)
    {
      if !online { return Err(Unavailable); }
      var x := if key in strings then Some(strings[key].expiry)
               else if key in lists then Some(lists[key].expiry)
               else None;
      match x
      case None => r := Ok(NoKey);
      case Some(e) =>
        r := if e.Persistent? then Ok(NoExpiry) else Ok(Seconds((e.ms + 500) / 1000));
    }

    /** The passing of `elapsed` milliseconds: keys whose lifetime runs out vanish. */
    method Advance(elapsed: nat)
      requires Valid()
      modifies this
      ensures Valid()
      ensures Db() == Keyspace.Advance(old(Db()), elapsed)
    {
      strings := map k | k in strings && Survives(strings[k].expiry, elapsed)
                   :: strings[k].(expiry := Elapse(strings[k].expiry, elapsed));
      lists := map k | k in lists && Survives(lists[k].expiry, elapsed)
                 :: lists[k].(expiry := Elapse(lists[k].expiry, elapsed));
    }
  }
}
