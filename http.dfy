/** The logic of the HTTP server (http_server.go): the per-IP limiter table, the
    generated mailbox names, the bulk creation endpoint and the path routing.

    The token-bucket arithmetic of a limiter, the random bytes behind tokens and
    names, duration parsing and the UI file system are not part of this model;
    they enter as parameters. */
module Http {
  import opened Entity
  import opened Keyspace
  import opened Storage

  // ---------------------------------------------------------------------------
  // Rate limiting

  /** A token-bucket limiter (`rate.Limiter`). Only what the server relies on is
      kept: a reservation succeeds unless one event exceeds the burst, and the
      server can cancel it again. `held` counts the reservations made and not
      cancelled. */
  class Limiter {
    const limit: real
    const burst: int
    var held: nat

    constructor (limit: real, burst: int)
      ensures this.limit == limit && this.burst == burst && held == 0
    {
      this.limit, this.burst, held := limit, burst, 0;
    }

    /** `Reserve()`: one event now. */
    method Reserve() returns (ok: bool)
      modifies this
      ensures ok <==> 1 <= burst
      ensures held == old(held) + if ok then 1 else 0
    {
      ok := 1 <= burst;
      if ok { held := held + 1; }
    }

    /** `Cancel()` on a reservation that succeeded. */
    method Cancel()
      requires held > 0
      modifies this
      ensures held == old(held) - 1
    {
      held := held - 1;
    }
  }

  /** One limiter per remote address, all with the same rate and burst. */
  class IpRateLimiter {
    var ips: map<string, Limiter>
    const r: real
    const b: int

    /** Every limiter in the table was made with the table's rate and burst, and
        no two addresses share one. */
    predicate Valid()
      reads this
    {
      && (forall ip :: ip in ips ==> ips[ip].limit == r && ips[ip].burst == b)
      && (forall ip, ip' :: ip in ips && ip' in ips && ip != ip' ==> ips[ip] != ips[ip'])
    }

    constructor (r: real, b: int)
      ensures Valid() && ips == map[] && this.r == r && this.b == b
    {
      ips, this.r, this.b := map[], r, b;
    }

    /** `AddIP`: a new limiter for `ip`, replacing any there was. */
    method AddIP(ip: string) returns (limiter: Limiter)
      requires Valid()
      modifies this
      ensures Valid()
      ensures fresh(limiter) && limiter.held == 0
      ensures ips == old(ips)[ip := limiter]
    {
      limiter := new Limiter(r, b);
      ips := ips[ip := limiter];
    }

    /** `GetLimiter`: the limiter of `ip`, made on first use. The table only
        grows. */
    method GetLimiter(ip: string) returns (limiter: Limiter)
      requires Valid()
      modifies this
      ensures Valid()
      ensures ip in ips && limiter == ips[ip]
      ensures ip in old(ips) ==> ips == old(ips)
      ensures ip !in old(ips) ==> fresh(limiter) && limiter.held == 0 && ips == old(ips)[ip := limiter]
      ensures old(ips).Keys <= ips.Keys && ips.Keys == old(ips).Keys + {ip}
    {
      if ip in ips {
        return ips[ip];
      }
      limiter := AddIP(ip);
    }
  }

  // ---------------------------------------------------------------------------
  // Generated names

  /** The digit alphabet of `generateEmail`: 35 characters, without `v`. */
  const Abc: string := "abcdefghijklmnopqrstuwxyz0123456789"

  /** The digits of `seed` in base 35, least significant first. */
  function Base35(seed: int): (r: string)
    ensures r == [] <==> seed <= 0
    decreases seed
  {
    if seed <= 0 then "" else [Abc[seed % |Abc|]] + Base35(seed / |Abc|)
  }

  /** The digit loop of `generateEmail`, the clock reading being `seed`. */
  method Base35Digits(seed: int) returns (s: string)
    ensures s == Base35(seed)
  {
    var l := |Abc|;
    var b := "";
    var i := seed;
    while i > 0
      invariant b + Base35(i) == Base35(seed)
      decreases i
    {
      b := b + [Abc[i % l]];
      i := i / l;
    }
    s := b;
  }

  /** `strings.ToLower` on ASCII text. */
  function ToLower(s: string): (r: string)
    ensures |r| == |s|
    ensures forall i :: 0 <= i < |s| ==> !('A' <= r[i] <= 'Z')
    ensures forall i :: 0 <= i < |s| ==>
              r[i] == if 'A' <= s[i] <= 'Z' then (s[i] as int + 32) as char else s[i]
  {
    if s == [] then []
    else [if 'A' <= s[0] <= 'Z' then (s[0] as int + 32) as char else s[0]] + ToLower(s[1..])
  }

  /** `generateEmail`: the digits of the clock reading and two random characters
      (`random`) in lower case. */
  method GenerateEmail(seed: int, random: string) returns (name: string)
    ensures name == Base35(seed) + ToLower(random)
  {
    var digits := Base35Digits(seed);
    name := digits + ToLower(random);
  }

  // ---------------------------------------------------------------------------
  // Bulk creation (PUT /api/account)

  /** `strings.Split(s, ",")`. */
  function Split(s: string): (parts: seq<string>)
    ensures |parts| >= 1
  {
    if s == [] then [""]
    else if s[0] == ',' then [""] + Split(s[1..])
    else
      var rest := Split(s[1..]);
      [[s[0]] + rest[0]] + rest[1..]
  }

  /** A response: its status and what is written as its body. */
  datatype Body = NoBody | Text(text: string) | TokenList(tokens: seq<string>)

  datatype Response = Response(status: int, body: Body)

  /** The parts of the request the endpoint reads. */
  datatype PutRequest = PutRequest(authorization: string, emails: string, ttl: string, accept: string)

  /** A creation call: the error it reports and the keyspace after it. */
  type Creation = (Db, string, string) -> (Option<Error>, Db)

  /** The creation loop for a creation call `create`: one account per name, in
      order, stopping at the first failure; on success the tokens, one per name. */
  function CreateEach(db: Db, emails: seq<string>, tokenFor: nat -> string, create: Creation): (r: (Option<seq<string>>, Db))
    ensures r.0.Some? ==> |r.0.value| == |emails| && forall i :: 0 <= i < |emails| ==> r.0.value[i] == tokenFor(i)
  {
    if emails == [] then (Some([]), db)
    else
      var n := |emails| - 1;
      var (tokens, db1) := CreateEach(db, emails[..n], tokenFor, create);
      if tokens.None? then (None, db1)
      else
        var (err, db2) := create(db1, tokenFor(n), emails[n]);
        if err.Some? then (None, db2) else (Some(tokens.value + [tokenFor(n)]), db2)
  }

  /** `CreateAccount` as a creation call. */
  function Creator(ttl: int): Creation
  {
    (db, token, username) => CreateAccountSpec(db, token, username, ttl)
  }

  /** The creation loop of the endpoint. */
  function CreateAll(db: Db, emails: seq<string>, tokenFor: nat -> string, ttl: int): (Option<seq<string>>, Db)
  {
    CreateEach(db, emails, tokenFor, Creator(ttl))
  }

  /** One more name: the loop goes on only after a success. */
  lemma CreateEachNext(db: Db, emails: seq<string>, i: nat, tokenFor: nat -> string, create: Creation)
    requires i < |emails|
    ensures var (tokens, db1) := CreateEach(db, emails[..i], tokenFor, create);
            CreateEach(db, emails[..i + 1], tokenFor, create)
              == if tokens.None? then (None, db1)
                 else var (err, db2) := create(db1, tokenFor(i), emails[i]);
                      if err.Some? then (None, db2) else (Some(tokens.value + [tokenFor(i)]), db2)
  {
    assert emails[..i + 1][..i] == emails[..i];
  }

  /** A failure ends the loop: the names after it are not tried. */
  lemma {:induction false} CreateEachStops(db: Db, before: seq<string>, emails: seq<string>, tokenFor: nat -> string, create: Creation)
    requires before <= emails && CreateEach(db, before, tokenFor, create).0.None?
    ensures CreateEach(db, emails, tokenFor, create) == CreateEach(db, before, tokenFor, create)
    decreases |emails|
  {
    if |before| < |emails| {
      var n := |emails| - 1;
      assert before <= emails[..n];
      CreateEachStops(db, before, emails[..n], tokenFor, create);
    } else {
      assert before == emails[..|before|] == emails;
    }
  }

  function Line(email: string, token: string): string
  {
    email + ": " + token + "\n"
  }

  /** The plain-text body: a line `email: token` per name, in order. */
  function FormatPlain(emails: seq<string>, tokens: seq<string>): string
    requires |tokens| == |emails|
  {
    if emails == [] then ""
    else
      var n := |emails| - 1;
      FormatPlain(emails[..n], tokens[..n]) + Line(emails[n], tokens[n])
  }

  predicate IsPlainAccept(accept: string)
  {
    accept == "" || accept == "*/*" || accept == "plain/text"
  }

  /** The body for the request's Accept header. */
  function BodyFor(accept: string, emails: seq<string>, tokens: seq<string>): Body
    requires |tokens| == |emails|
  {
    if IsPlainAccept(accept) then Text(FormatPlain(emails, tokens))
    else if accept == "application/json" then TokenList(tokens)
    else NoBody
  }

  /** Whether some name in the list is empty. */
  predicate HasEmptyName(emails: seq<string>)
  {
    exists i :: 0 <= i < |emails| && emails[i] == ""
  }

  /** The lifetime asked for: the default when the form has none, nothing when
      it does not parse. */
  function TtlFor(request: PutRequest, parseDuration: string -> Option<int>, defaultTtl: int): Option<int>
  {
    if request.ttl != "" then parseDuration(request.ttl) else Some(defaultTtl)
  }

  /** The endpoint once the caller is authorised. */
  function CreateSpec(db: Db, request: PutRequest, parseDuration: string -> Option<int>, defaultTtl: int,
                      tokenFor: nat -> string): (Response, Db)
  {
    var emails := Split(request.emails);
    if |emails| == 0 || HasEmptyName(emails) then (Response(400, NoBody), db)
    else
      var ttl := TtlFor(request, parseDuration, defaultTtl);
      if ttl.None? then (Response(400, NoBody), db)
      else
        var (tokens, db') := CreateAll(db, emails, tokenFor, ttl.value);
        if tokens.None? then (Response(500, NoBody), db')
        else (Response(200, BodyFor(request.accept, emails, tokens.value)), db')
  }

  /** The endpoint as a function of the keyspace. `reserved` is whether the
      limiter granted the reservation, `parseDuration` stands for
      `time.ParseDuration` and `tokenFor(i)` for the token made for the i-th name. */
  function PutSpec(db: Db, reserved: bool, authToken: string, request: PutRequest,
                   parseDuration: string -> Option<int>, defaultTtl: int, tokenFor: nat -> string): (Response, Db)
  {
    if !reserved then (Response(429, NoBody), db)
    else if authToken != request.authorization then (Response(401, NoBody), db)
    else CreateSpec(db, request, parseDuration, defaultTtl, tokenFor)
  }

  /** The check loop over the names. */
  method FindEmptyName(emails: seq<string>) returns (found: bool)
    ensures found <==> HasEmptyName(emails)
  {
    var i := 0;
    while i < |emails|
      invariant 0 <= i <= |emails|
      invariant forall j :: 0 <= j < i ==> emails[j] != ""
    {
      if |emails[i]| == 0 { return true; }
      i := i + 1;
    }
    return false;
  }

  /** The creation loop. */
  method CreateAccounts(store: Storage, emails: seq<string>, tokenFor: nat -> string, ttl: int)
    returns (tokens: Option<seq<string>>)
    requires store.redis.Valid()
    modifies store.redis
    ensures store.redis.Valid()
    ensures (tokens, store.redis.Db()) == CreateAll(old(store.redis.Db()), emails, tokenFor, ttl)
  {
    ghost var db0 := store.redis.Db();
    var made: seq<string> := [];
    var i := 0;
    while i < |emails|
      invariant 0 <= i <= |emails|
      invariant store.redis.Valid()
      invariant CreateAll(db0, emails[..i], tokenFor, ttl) == (Some(made), store.redis.Db())
    {
      CreateEachNext(db0, emails, i, tokenFor, Creator(ttl));
      var token := tokenFor(i);
      var err := store.CreateAccount(token, emails[i], ttl);
      if err.Some? {
        CreateEachStops(db0, emails[..i + 1], emails, tokenFor, Creator(ttl));
        return None;
      }
      made := made + [token];
      i := i + 1;
    }
    assert emails[..i] == emails;
    return Some(made);
  }

  /** The plain-text body loop. */
  method WritePlain(emails: seq<string>, tokens: seq<string>) returns (text: string)
    requires |tokens| == |emails|
    ensures text == FormatPlain(emails, tokens)
  {
    text := "";
    var i := 0;
    while i < |emails|
      invariant 0 <= i <= |emails|
      invariant text == FormatPlain(emails[..i], tokens[..i])
    {
      assert emails[..i + 1][..i] == emails[..i] && tokens[..i + 1][..i] == tokens[..i];
      text := text + Line(emails[i], tokens[i]);
      i := i + 1;
    }
    assert emails[..i] == emails && tokens[..i] == tokens;
  }

  /** The switch on the Accept header. */
  method WriteBody(accept: string, emails: seq<string>, tokens: seq<string>) returns (body: Body)
    requires |tokens| == |emails|
    ensures body == BodyFor(accept, emails, tokens)
  {
    if IsPlainAccept(accept) {
      var text := WritePlain(emails, tokens);
      body := Text(text);
    } else if accept == "application/json" {
      body := TokenList(tokens);
    } else {
      body := NoBody;
    }
  }

  /** `putAPIAccount` after the authorisation check. */
  method CreateRequested(store: Storage, request: PutRequest, parseDuration: string -> Option<int>,
                         defaultTtl: int, tokenFor: nat -> string)
    returns (response: Response)
    requires store.redis.Valid()
    modifies store.redis
    ensures store.redis.Valid()
    ensures (response, store.redis.Db())
            == CreateSpec(old(store.redis.Db()), request, parseDuration, defaultTtl, tokenFor)
  {
    var emails := Split(request.emails);
    // `strings.Split` never returns an empty list, so this branch of the source is dead.
    if |emails| == 0 { assert false; }
    var empty := FindEmptyName(emails);
    if empty { return Response(400, NoBody); }
    var ttl := defaultTtl;
    if request.ttl != "" {
      var parsed := parseDuration(request.ttl);
      if parsed.None? { return Response(400, NoBody); }
      ttl := parsed.value;
    }
    var tokens := CreateAccounts(store, emails, tokenFor, ttl);
    if tokens.None? { return Response(500, NoBody); }
    var body := WriteBody(request.accept, emails, tokens.value);
    return Response(200, body);
  }

  /** `putAPIAccount`. The reservation is cancelled once the caller is
      authorised, so only a refused authorization keeps it. */
  method PutAPIAccount(limiters: IpRateLimiter, remoteAddr: string, store: Storage, authToken: string,
                       request: PutRequest, parseDuration: string -> Option<int>, defaultTtl: int,
                       tokenFor: nat -> string)
    returns (response: Response)
    requires limiters.Valid() && store.redis.Valid()
    modifies limiters, limiters.ips.Values, store.redis
    ensures limiters.Valid() && store.redis.Valid()
    ensures (response, store.redis.Db())
            == PutSpec(old(store.redis.Db()), 1 <= limiters.b, authToken, request, parseDuration, defaultTtl, tokenFor)
    ensures remoteAddr in limiters.ips && limiters.ips.Keys == old(limiters.ips.Keys) + {remoteAddr}
    ensures forall ip :: ip in old(limiters.ips) ==> limiters.ips[ip] == old(limiters.ips[ip])
    ensures remoteAddr !in old(limiters.ips) ==> fresh(limiters.ips[remoteAddr])
    ensures forall ip :: ip in old(limiters.ips) && ip != remoteAddr ==> limiters.ips[ip].held == old(limiters.ips[ip].held)
    ensures var held0 := if remoteAddr in old(limiters.ips) then old(limiters.ips[remoteAddr].held) else 0;
            limiters.ips[remoteAddr].held
              == held0 + if 1 <= limiters.b && authToken != request.authorization then 1 else 0
  {
    var limiter := limiters.GetLimiter(remoteAddr);
    var ok := limiter.Reserve();
    if !ok { return Response(429, NoBody); }
    if authToken != request.authorization { return Response(401, NoBody); }
    limiter.Cancel();
    response := CreateRequested(store, request, parseDuration, defaultTtl, tokenFor);
  }

  // ---------------------------------------------------------------------------
  // Routing

  /** Where `handler` sends a request. */
  datatype Route = Api | MethodNotAllowed | ServeFile(path: string)

  function HasPrefix(s: string, prefix: string): bool
  {
    |prefix| <= |s| && s[..|prefix|] == prefix
  }

  /** `strings.TrimPrefix`. */
  function TrimPrefix(s: string, prefix: string): string
  {
    if HasPrefix(s, prefix) then s[|prefix|..] else s
  }

  const IndexHtml: string := "index.html"

  function RouteFor(verb: string, path: string): (r: Route)
    ensures r == Api <==> HasPrefix(path, "/api")
    ensures r == MethodNotAllowed <==> !HasPrefix(path, "/api") && verb != "GET"
    ensures r.ServeFile? ==> if path == "/" then r.path == IndexHtml
                             else if HasPrefix(path, "/") then "/" + r.path == path
                             else r.path == path
  {
    if HasPrefix(path, "/api") then Api
    else if verb != "GET" then MethodNotAllowed
    else if path == "/" then ServeFile(IndexHtml)
    else ServeFile(TrimPrefix(path, "/"))
  }

  /** What `serveFile` writes: the file opened and the path whose extension sets
      the Content-Type, or nothing at all when even `index.html` cannot be opened
      (the handler then panics on the deferred `Close` of the nil file). */
  datatype Served = Served(file: string, typeFrom: string) | NilFile

  /** `serveFile`, `opens` telling which paths the UI file system can open. */
  function ServeFileSpec(path: string, opens: string -> bool): (r: Served)
    ensures r.NilFile? <==> !opens(path) && !opens(IndexHtml)
    ensures opens(path) ==> r == Served(path, path)
    ensures r.Served? ==> opens(r.file) && r.typeFrom == path && (r.file == path || r.file == IndexHtml)
  {
    if opens(path) then Served(path, path)
    else if opens(IndexHtml) then Served(IndexHtml, path)
    else NilFile
  }
}
