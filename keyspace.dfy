/** The Redis server the mailbox store talks to, as a value: a keyspace of string
    keys and list keys, each key with its own expiry, and the replies of the
    commands the store issues, as Redis and its Go client give them.
    Lifetimes are in milliseconds. */
module Keyspace {
  import opened Entity

  /** How long a key still lives: for ever, or a number of milliseconds. */
  datatype Expiry = Persistent | ExpiresIn(ms: int)

  datatype Entry<V> = Entry(value: V, expiry: Expiry)

  /** The server's state. `online` is false while the server cannot be reached;
      every command then fails. */
  datatype Db = Db(strings: map<string, Entry<string>>, lists: map<string, Entry<seq<string>>>, online: bool)

  /** `Nil` is the client's "no such key" reply (`redis.Nil`). */
  datatype RedisError = Nil | WrongType | Unavailable

  datatype Reply<T> = Ok(value: T) | Err(error: RedisError)

  /** The TTL command's reply: -2 (no such key), -1 (no expiry) or whole seconds. */
  datatype TtlReply = NoKey | NoExpiry | Seconds(n: int)

  predicate Live(x: Expiry)
  {
    x.ExpiresIn? ==> x.ms > 0
  }

  /** What Redis itself guarantees: a key holds one type, an expired key is gone and
      an empty list is deleted. */
  predicate Valid(db: Db)
  {
    && db.strings.Keys !! db.lists.Keys
    && (forall k :: k in db.strings ==> Live(db.strings[k].expiry))
    && (forall k :: k in db.lists ==> Live(db.lists[k].expiry) && db.lists[k].value != [])
  }

  predicate Present(db: Db, key: string)
  {
    key in db.strings || key in db.lists
  }

  function Delete(db: Db, key: string): Db
  {
    db.(strings := db.strings - {key}, lists := db.lists - {key})
  }

  /** The expiry SET gives for a duration: the Go client adds PX only for a positive one. */
  function ExpiryFor(ttl: int): Expiry
  {
    if ttl > 0 then ExpiresIn(ttl) else Persistent
  }

  /** EXISTS key: the number of the given keys that exist (here 0 or 1). */
  function Exists(db: Db, key: string): (r: Reply<int>)
    ensures db.online ==> r.Ok? && (r.value == 1 <==> Present(db, key)) && (r.value == 0 <==> !Present(db, key))
  {
    if !db.online then Err(Unavailable)
    else Ok(if Present(db, key) then 1 else 0)
  }

  /** SET key value [PX ttl]: overwrites whatever the key held, of any type. */
  function Set(db: Db, key: string, value: string, ttl: int): (r: (Reply<string>, Db))
    ensures Valid(db) ==> Valid(r.1)
    ensures db.online ==> Get(r.1, key) == Ok(value) && Ttl(r.1, key).Ok?
  {
    if !db.online then (Err(Unavailable), db)
    else (Ok("OK"), db.(strings := db.strings[key := Entry(value, ExpiryFor(ttl))], lists := db.lists - {key}))
  }

  /** GET key. */
  function Get(db: Db, key: string): Reply<string>
  {
    if !db.online then Err(Unavailable)
    else if key in db.strings then Ok(db.strings[key].value)
    else if key in db.lists then Err(WrongType)
    else Err(Nil)
  }

  /** The timeout the Go client sends with EXPIRE for a duration of `ttl`
      milliseconds: whole seconds, truncated toward zero, and 1 for a positive
      duration under a second. */
  function ExpireSeconds(ttl: int): (s: int)
    ensures s > 0 <==> ttl > 0
  {
    if 0 < ttl < 1000 then 1
    else if ttl >= 0 then ttl / 1000
    else -((-ttl) / 1000)
  }

  /** The lifetime, in milliseconds, that EXPIRE with a duration of `ttl` gives a key. */
  function ExpireMs(ttl: int): int
  {
    ExpireSeconds(ttl) * 1000
  }

  /** EXPIRE key ttl, as the Go client issues it: false on a missing key; a timeout
      that is not positive deletes the key, a positive one sets the lifetime to
      that many whole seconds. */
  function Expire(db: Db, key: string, ttl: int): (r: (Reply<bool>, Db))
    ensures Valid(db) ==> Valid(r.1)
    ensures r.0 == Ok(false) ==> r.1 == db
  {
    if !db.online then (Err(Unavailable), db)
    else if !Present(db, key) then (Ok(false), db)
    else if ExpireSeconds(ttl) <= 0 then (Ok(true), Delete(db, key))
    else if key in db.strings then
      (Ok(true), db.(strings := db.strings[key := db.strings[key].(expiry := ExpiresIn(ExpireMs(ttl)))]))
    else
      (Ok(true), db.(lists := db.lists[key := db.lists[key].(expiry := ExpiresIn(ExpireMs(ttl)))]))
  }

  /** The lifetime EXPIRE gives: whole seconds, at least one, never more than a
      second away from the duration asked for, and the duration itself exactly when
      that is whole seconds. */
  lemma ExpireLifetime(ttl: int)
    requires ttl > 0
    ensures ExpireMs(ttl) > 0 && ExpireMs(ttl) % 1000 == 0
    ensures ttl < 1000 ==> ExpireMs(ttl) == 1000
    ensures ttl >= 1000 ==> ExpireMs(ttl) <= ttl < ExpireMs(ttl) + 1000
    ensures ExpireMs(ttl) == ttl <==> ttl % 1000 == 0
  {
    if ttl >= 1000 {
      assert ExpireMs(ttl) == ttl - ttl % 1000;
    }
  }

  /** LPUSH key value: prepends, creating the list (without expiry) when the key is
      missing; the reply is the new length. */
  function LPush(db: Db, key: string, value: string): (r: (Reply<int>, Db))
    ensures Valid(db) ==> Valid(r.1)
    ensures r.0.Ok? ==> key in r.1.lists && r.1.lists[key].value != [] && r.1.lists[key].value[0] == value
  {
    if !db.online then (Err(Unavailable), db)
    else if key in db.strings then (Err(WrongType), db)
    else if key in db.lists then
      var e := db.lists[key];
      (Ok(|e.value| + 1), db.(lists := db.lists[key := e.(value := [value] + e.value)]))
    else
      (Ok(1), db.(lists := db.lists[key := Entry([value], Persistent)]))
  }

  /** LLEN key: 0 for a missing key. */
  function LLen(db: Db, key: string): Reply<int>
  {
    if !db.online then Err(Unavailable)
    else if key in db.strings then Err(WrongType)
    else if key in db.lists then Ok(|db.lists[key].value|)
    else Ok(0)
  }

  /** The elements LRANGE returns for inclusive bounds, negative ones counting from
      the end, clamped to the list. */
  function Range(xs: seq<string>, start: int, stop: int): (r: seq<string>)
    ensures 0 <= start <= stop < |xs| ==> r == xs[start..stop + 1]
    ensures |r| <= |xs|
  {
    var n := |xs|;
    var s0 := if start < 0 then n + start else start;
    var e0 := if stop < 0 then n + stop else stop;
    var s := if s0 < 0 then 0 else s0;
    if s > e0 || s >= n then []
    else
      var e := if e0 >= n then n - 1 else e0;
      xs[s..e + 1]
  }

  /** LRANGE key start stop. */
  function LRange(db: Db, key: string, start: int, stop: int): Reply<seq<string>>
  {
    if !db.online then Err(Unavailable)
    else if key in db.strings then Err(WrongType)
    else if key in db.lists then Ok(Range(db.lists[key].value, start, stop))
    else Ok([])
  }

  /** DEL key: the number of keys removed. */
  function Del(db: Db, key: string): (r: (Reply<int>, Db))
    ensures Valid(db) ==> Valid(r.1)
    ensures db.online ==> !Present(r.1, key) && (r.0 == Ok(1) <==> Present(db, key))
  {
    if !db.online then (Err(Unavailable), db)
    else (Ok(if Present(db, key) then 1 else 0), Delete(db, key))
  }

  /** TTL key: Redis answers in seconds, rounding the remaining milliseconds to
      the nearest second. */
  function Ttl(db: Db, key: string): Reply<TtlReply>
  {
    if !db.online then Err(Unavailable)
    else
      var x := if key in db.strings then Some(db.strings[key].expiry)
               else if key in db.lists then Some(db.lists[key].expiry)
               else None;
      match x
      case None => Ok(NoKey)
      case Some(e) =>
        if e.Persistent? then Ok(NoExpiry) else Ok(Seconds((e.ms + 500) / 1000))
  }

  /** The Go client turns the TTL reply into a `time.Duration`: -2 ns, -1 ns or the
      seconds. This is `d == 0` on that duration. */
  predicate IsZeroDuration(t: TtlReply)
  {
    t == Seconds(0)
  }

  /** `d.Milliseconds()` on that duration; -2 ns and -1 ns truncate to 0. */
  function Milliseconds(t: TtlReply): int
  {
    match t
    case Seconds(n) => n * 1000
    case _ => 0
  }

  function Elapse(x: Expiry, elapsed: nat): Expiry
  {
    match x
    case Persistent => Persistent
    case ExpiresIn(ms) => ExpiresIn(ms - elapsed)
  }

  predicate Survives(x: Expiry, elapsed: nat)
  {
    x.Persistent? || x.ms > elapsed
  }

  /** The keyspace `elapsed` milliseconds later: every key whose lifetime ran out is
      gone, the others have that much less left. */
  function Advance(db: Db, elapsed: nat): (r: Db)
    ensures Valid(db) ==> Valid(r)
    ensures forall k :: k in r.strings <==> k in db.strings && Survives(db.strings[k].expiry, elapsed)
    ensures forall k :: k in r.lists <==> k in db.lists && Survives(db.lists[k].expiry, elapsed)
  {
    db.(strings := map k | k in db.strings && Survives(db.strings[k].expiry, elapsed)
                     :: db.strings[k].(expiry := Elapse(db.strings[k].expiry, elapsed)),
        lists := map k | k in db.lists && Survives(db.lists[k].expiry, elapsed)
                   :: db.lists[k].(expiry := Elapse(db.lists[k].expiry, elapsed)))
  }
}
