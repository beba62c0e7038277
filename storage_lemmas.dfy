/** What the store's operations promise, and what they do not: stated on the
    functions of the keyspace that the `Storage` methods are proved to follow. */
module StorageLemmas {
  import opened Entity
  import opened Keyspace
  import Codec
  import opened Storage

  /** The TTL reply of a key just given the lifetime `ttl`. */
  function TtlReplyFor(ttl: int): TtlReply
  {
    if ttl > 0 then Seconds((ttl + 500) / 1000) else NoExpiry
  }

  function Reverse<T>(xs: seq<T>): (r: seq<T>)
    ensures |r| == |xs|
    ensures forall i :: 0 <= i < |xs| ==> r[i] == xs[|xs| - 1 - i]
  {
    if xs == [] then [] else [xs[|xs| - 1]] + Reverse(xs[..|xs| - 1])
  }

  /** The keyspace after `es` are delivered to `username` one after the other. */
  function AddEach(db: Db, username: string, es: seq<Email>): Db
  {
    if es == [] then db
    else AddEmailSpec(AddEach(db, username, es[..|es| - 1]), username, es[|es| - 1]).1
  }

  lemma NoKeyOfBothKinds(k: string)
    ensures IsTokenKey(k) ==> !IsAccountKey(k)
  {
    if IsTokenKey(k) {
      assert k[..5][0] == 't';
    }
  }

  lemma WellTypedParts(db: Db, token: string, username: string)
    requires WellTyped(db)
    ensures TokenKey(token) !in db.lists && AccountKey(username) !in db.strings
  {
    KeyKinds(token, username);
  }

  // ---------------------------------------------------------------------------
  // CreateAccount

  /** A token already in use is refused before anything is written. */
  lemma CreateAccountTokenTaken(db: Db, token: string, username: string, ttl: int)
    requires Present(db, TokenKey(token))
    ensures var (err, db') := CreateAccountSpec(db, token, username, ttl);
            && db' == db
            && err.Some?
            && (db.online ==> err == Some(Failed("token already exists")))
  {
  }

  /** A fresh token and a fresh name: the token maps to the name and lives `ttl`
      milliseconds; the mailbox holds only the placeholder and lives `ttl` in whole
      seconds, as EXPIRE sets it. A lifetime that is not positive leaves a token
      without expiry and no mailbox, and still reports success. */
  lemma CreateAccountFresh(db: Db, token: string, username: string, ttl: int)
    requires WellTyped(db) && db.online
    requires !Present(db, TokenKey(token)) && !Present(db, AccountKey(username))
    ensures var (err, db') := CreateAccountSpec(db, token, username, ttl);
            && err == None
            && db'.online
            && db'.strings == db.strings[TokenKey(token) := Entry(username, ExpiryFor(ttl))]
            && db'.lists == (if ttl > 0 then db.lists[AccountKey(username) := Entry([Sentinel], ExpiresIn(ExpireMs(ttl)))]
                             else db.lists)
            && WellTyped(db')
  {
    var tKey, aKey := TokenKey(token), AccountKey(username);
    KeysApart(token, username);
    KeyKinds(token, username);
    var db1 := db.(strings := db.strings[tKey := Entry(username, ExpiryFor(ttl))]);
    assert Set(db, tKey, username, ttl) == (Ok("OK"), db1) by {
      assert db.lists - {tKey} == db.lists;
    }
    var db2 := db1.(lists := db.lists[aKey := Entry([Sentinel], Persistent)]);
    assert LPush(db1, aKey, Sentinel) == (Ok(1), db2);
    var lists' := if ttl > 0 then db.lists[aKey := Entry([Sentinel], ExpiresIn(ExpireMs(ttl)))] else db.lists;
    assert Expire(db2, aKey, ttl) == (Ok(true), db1.(lists := lists')) by {
      if ttl <= 0 {
        assert db2.lists - {aKey} == db.lists && db1.strings - {aKey} == db1.strings;
      } else {
        assert db2.lists[aKey := db2.lists[aKey].(expiry := ExpiresIn(ExpireMs(ttl)))] == lists';
      }
    }
  }

  /** A taken name: the call fails, but the token it wrote stays behind, mapped to
      the existing name, and the mailbox is left as it was. */
  lemma CreateAccountNameTaken(db: Db, token: string, username: string, ttl: int)
    requires WellTyped(db) && db.online
    requires !Present(db, TokenKey(token)) && Present(db, AccountKey(username))
    ensures var (err, db') := CreateAccountSpec(db, token, username, ttl);
            && err == Some(Failed("account already exists"))
            && db' == db.(strings := db.strings[TokenKey(token) := Entry(username, ExpiryFor(ttl))])
            && WellTyped(db')
  {
    KeysApart(token, username);
    KeyKinds(token, username);
  }

  /** The emails `ReadMailbox` returns do not depend on the TTL reply. */
  lemma ReadMailboxTtlFree(db: Db, username: string, t1: TtlReply, t2: TtlReply)
    ensures ReadMailbox(db, username, t1).Success? <==> ReadMailbox(db, username, t2).Success?
    ensures ReadMailbox(db, username, t1).Success? ==>
              ReadMailbox(db, username, t1).value.emails == ReadMailbox(db, username, t2).value.emails
  {
  }

  /** The consequence of the check-then-write order: after a failed creation for a
      taken name, the new token reads the owner's mailbox. Whatever the owner's
      token `owner` reads, the leftover token reads the same messages. */
  lemma LeftoverTokenReadsMailbox(db: Db, token: string, owner: string, username: string, ttl: int)
    requires WellTyped(db) && db.online
    requires !Present(db, TokenKey(token)) && Present(db, AccountKey(username))
    requires TokenKey(owner) in db.strings && db.strings[TokenKey(owner)].value == username
    requires TtlReplyFor(ttl) != Seconds(0)
    requires AccountSpec(db, owner).Success?
    ensures var db' := CreateAccountSpec(db, token, username, ttl).1;
            && AccountSpec(db', token).Success?
            && AccountSpec(db', token).value.username == username
            && AccountSpec(db', token).value.emails == AccountSpec(db, owner).value.emails
  {
    CreateAccountNameTaken(db, token, username, ttl);
    var db' := CreateAccountSpec(db, token, username, ttl).1;
    var tKey, aKey := TokenKey(token), AccountKey(username);
    WellTypedParts(db', token, username);
    assert Get(db', tKey) == Ok(username);
    assert Ttl(db', tKey) == Ok(TtlReplyFor(ttl));
    assert AccountSpec(db', token) == ReadMailbox(db', username, TtlReplyFor(ttl));
    assert ReadMailbox(db', username, TtlReplyFor(ttl)) == ReadMailbox(db, username, TtlReplyFor(ttl));
    var ownerTtl := Ttl(db, TokenKey(owner)).value;
    assert AccountSpec(db, owner) == ReadMailbox(db, username, ownerTtl);
    ReadMailboxTtlFree(db, username, TtlReplyFor(ttl), ownerTtl);
  }

  // ---------------------------------------------------------------------------
  // ProlongAccount

  /** Prolonging a live token with a positive lifetime: no stored value changes, the
      token and its mailbox both get `ttl` in whole seconds, as EXPIRE sets it, so
      both then report the same TTL, and no other key is touched. */
  lemma ProlongAccountLive(db: Db, token: string, ttl: int)
    requires WellTyped(db) && db.online && TokenKey(token) in db.strings && ttl > 0
    ensures var (err, db') := ProlongAccountSpec(db, token, ttl);
            var tKey := TokenKey(token);
            var aKey := AccountKey(db.strings[tKey].value);
            && err == None
            && db'.online
            && db'.strings.Keys == db.strings.Keys && db'.lists.Keys == db.lists.Keys
            && (forall k :: k in db.strings ==> db'.strings[k].value == db.strings[k].value)
            && (forall k :: k in db.lists ==> db'.lists[k].value == db.lists[k].value)
            && db'.strings[tKey].expiry == ExpiresIn(ExpireMs(ttl))
            && (aKey in db.lists ==> db'.lists[aKey].expiry == ExpiresIn(ExpireMs(ttl)) && Ttl(db', aKey) == Ttl(db', tKey))
            && (forall k :: k in db.strings && k != tKey ==> db'.strings[k] == db.strings[k])
            && (forall k :: k in db.lists && k != aKey ==> db'.lists[k] == db.lists[k])
            && WellTyped(db')
  {
    var tKey := TokenKey(token);
    var username := db.strings[tKey].value;
    WellTypedParts(db, token, username);
  }

  /** An unknown token: EXPIRE answers false, and the GET that follows reports the
      missing key. The error is that failed step, not `ErrAccountDoesntExists`. */
  lemma ProlongAccountUnknown(db: Db, token: string, ttl: int)
    requires db.online && !Present(db, TokenKey(token))
    ensures ProlongAccountSpec(db, token, ttl) == (Some(RedisFailure("get token username", Nil)), db)
    ensures ProlongAccountSpec(db, token, ttl).0 != Some(ErrAccountDoesntExists)
  {
  }

  /** A lifetime that is not positive deletes the token, and the call then fails
      on the GET; the mailbox is left as it was. */
  lemma ProlongAccountNonPositive(db: Db, token: string, ttl: int)
    requires WellTyped(db) && db.online && TokenKey(token) in db.strings && ttl <= 0
    ensures ProlongAccountSpec(db, token, ttl) == (Some(RedisFailure("get token username", Nil)), Delete(db, TokenKey(token)))
  {
    WellTypedParts(db, token, "");
  }

  // ---------------------------------------------------------------------------
  // Account

  /** When `Account` reports the missing account: exactly when the token is gone,
      its TTL rounds to zero seconds, or its mailbox list is gone. */
  lemma AccountNotFoundExactly(db: Db, token: string)
    requires WellTyped(db) && db.online
    ensures var tKey := TokenKey(token);
            AccountSpec(db, token) == Failure(ErrAccountDoesntExists) <==>
              || tKey !in db.strings
              || (db.strings[tKey].expiry.ExpiresIn? && db.strings[tKey].expiry.ms < 500)
              || AccountKey(db.strings[tKey].value) !in db.lists
  {
    var tKey := TokenKey(token);
    WellTypedParts(db, token, "");
    if tKey in db.strings {
      var username := db.strings[tKey].value;
      WellTypedParts(db, token, username);
      var aKey := AccountKey(username);
      if aKey in db.lists {
        assert |db.lists[aKey].value| > 0;
      }
    }
  }

  /** An `AccountSpec` that succeeds reads the mailbox of the name the token maps to. */
  lemma AccountReadsOwnMailbox(db: Db, token: string)
    requires WellTyped(db) && db.online
    requires AccountSpec(db, token).Success?
    ensures TokenKey(token) in db.strings
    ensures var username := db.strings[TokenKey(token)].value;
            && AccountKey(username) in db.lists
            && AccountSpec(db, token).value.username == username
            && |AccountSpec(db, token).value.emails| == |db.lists[AccountKey(username)].value| - 1
  {
    AccountNotFoundExactly(db, token);
    var tKey := TokenKey(token);
    WellTypedParts(db, token, "");
    var username := db.strings[tKey].value;
    WellTypedParts(db, token, username);
    var items := db.lists[AccountKey(username)].value;
    if |items| > 1 {
      var emails := Codec.DecodeAll(Range(items, 0, |items| - 2)).value;
      DecodeAllLength(Range(items, 0, |items| - 2));
    }
  }

  lemma DecodeAllLength(items: seq<string>)
    requires Codec.DecodeAll(items).Some?
    ensures |Codec.DecodeAll(items).value| == |items|
  {
    EachLength(items, Codec.Decode);
  }

  lemma {:induction false} EachLength<T>(items: seq<string>, dec: string -> Option<T>)
    requires Codec.DecodeEach(items, dec).Some?
    ensures |Codec.DecodeEach(items, dec).value| == |items|
  {
    if items != [] {
      EachLength(items[..|items| - 1], dec);
    }
  }

  // ---------------------------------------------------------------------------
  // AddEmail

  lemma AddEmailToMissing(db: Db, username: string, email: Email)
    requires db.online && !Present(db, AccountKey(username))
    ensures AddEmailSpec(db, username, email) == (Some(ErrAccountDoesntExists), db)
  {
  }

  lemma PushEmailToExisting(db: Db, username: string, emailJSON: string)
    requires WellTyped(db) && db.online && AccountKey(username) in db.lists
    ensures var (err, db') := PushEmailSpec(db, username, emailJSON);
            var aKey := AccountKey(username);
            && err == None
            && db' == db.(lists := db.lists[aKey := db.lists[aKey].(value := [emailJSON] + db.lists[aKey].value)])
            && WellTyped(db')
  {
    WellTypedParts(db, "", username);
  }

  /** Delivery to an existing mailbox prepends exactly one stored text, the mail's
      encoding; the mailbox keeps its lifetime and nothing else changes. */
  lemma AddEmailToExisting(db: Db, username: string, email: Email)
    requires WellTyped(db) && db.online && AccountKey(username) in db.lists
    ensures var (err, db') := AddEmailSpec(db, username, email);
            var aKey := AccountKey(username);
            && err == None
            && db'.online && db'.strings == db.strings
            && db'.lists.Keys == db.lists.Keys
            && db'.lists[aKey].expiry == db.lists[aKey].expiry
            && |db'.lists[aKey].value| == |db.lists[aKey].value| + 1
            && db'.lists[aKey].value[1..] == db.lists[aKey].value
            && db'.lists[aKey].value[0] == Codec.Encode(email)
            && (forall k :: k in db.lists && k != aKey ==> db'.lists[k] == db.lists[k])
            && WellTyped(db')
  {
    var text := Codec.Encode(email);
    PushEmailToExisting(db, username, text);
    var aKey := AccountKey(username);
    var db' := PushEmailSpec(db, username, text).1;
    assert ([text] + db.lists[aKey].value)[1..] == db.lists[aKey].value;
  }

  lemma PushEmailsCommute(db: Db, u1: string, t1: string, u2: string, t2: string)
    requires u1 != u2
    ensures PushEmailSpec(PushEmailSpec(db, u1, t1).1, u2, t2).1 == PushEmailSpec(PushEmailSpec(db, u2, t2).1, u1, t1).1
  {
    AccountKeyInjective(u1, u2);
    var k1, k2 := AccountKey(u1), AccountKey(u2);
    var db1, db2 := PushEmailSpec(db, u1, t1).1, PushEmailSpec(db, u2, t2).1;
    PushEmailLists(db, u1, t1);
    PushEmailLists(db, u2, t2);
    PushEmailLists(db1, u2, t2);
    PushEmailLists(db2, u1, t1);
    if db.online && k1 in db.lists && k2 in db.lists && k1 !in db.strings && k2 !in db.strings {
      assert Prepended(db1, k2, t2) == Prepended(db2, k1, t1);
    }
  }

  /** The lists after an LPUSH of `t` onto `key` by `PushEmailSpec`: prepended
      when the key holds a list on a reachable server, unchanged otherwise. */
  function Prepended(db: Db, key: string, t: string): map<string, Entry<seq<string>>>
  {
    if db.online && key !in db.strings && key in db.lists
    then db.lists[key := db.lists[key].(value := [t] + db.lists[key].value)]
    else db.lists
  }

  lemma PushEmailLists(db: Db, username: string, t: string)
    ensures PushEmailSpec(db, username, t).1 == db.(lists := Prepended(db, AccountKey(username), t))
  {
  }

  /** Deliveries to two different mailboxes commute, so the order in which the
      SMTP handler fans a message out does not matter. */
  lemma AddEmailsCommute(db: Db, u1: string, e1: Email, u2: string, e2: Email)
    requires u1 != u2
    ensures AddEmailSpec(AddEmailSpec(db, u1, e1).1, u2, e2).1 == AddEmailSpec(AddEmailSpec(db, u2, e2).1, u1, e1).1
  {
    PushEmailsCommute(db, u1, Codec.Encode(e1), u2, Codec.Encode(e2));
  }

  /** The keyspace after the stored texts `texts` are delivered to `username` one
      after the other. */
  function PushEach(db: Db, username: string, texts: seq<string>): Db
  {
    if texts == [] then db
    else PushEmailSpec(PushEach(db, username, texts[..|texts| - 1]), username, texts[|texts| - 1]).1
  }

  lemma {:induction false} AddEachPushesEncodings(db: Db, username: string, es: seq<Email>)
    ensures AddEach(db, username, es) == PushEach(db, username, Codec.EncodeAll(es))
  {
    if es != [] {
      var init := es[..|es| - 1];
      var texts := Codec.EncodeAll(es);
      AddEachPushesEncodings(db, username, init);
      assert texts[..|texts| - 1] == Codec.EncodeAll(init);
    }
  }

  /** Pushing `texts` one after the other onto an existing mailbox leaves them at its
      head, last pushed first, above what it held; nothing else changes. */
  lemma {:induction false} PushEachPrepends(db: Db, username: string, texts: seq<string>)
    requires WellTyped(db) && db.online && AccountKey(username) in db.lists
    ensures var db' := PushEach(db, username, texts);
            var aKey := AccountKey(username);
            && WellTyped(db') && db'.online
            && db'.strings == db.strings
            && db'.lists == db.lists[aKey := db.lists[aKey].(value := Reverse(texts) + db.lists[aKey].value)]
  {
    var aKey := AccountKey(username);
    if texts == [] {
      assert Reverse(texts) + db.lists[aKey].value == db.lists[aKey].value;
      assert db.lists[aKey := db.lists[aKey]] == db.lists;
    } else {
      var init, last := texts[..|texts| - 1], texts[|texts| - 1];
      PushEachPrepends(db, username, init);
      var mid := PushEach(db, username, init);
      PushEmailToExisting(mid, username, last);
      assert Reverse(texts) == [last] + Reverse(init);
      var old0 := db.lists[aKey];
      assert mid.lists[aKey] == old0.(value := Reverse(init) + old0.value);
      assert [last] + (Reverse(init) + old0.value) == Reverse(texts) + old0.value;
      assert PushEach(db, username, texts).lists
        == mid.lists[aKey := mid.lists[aKey].(value := [last] + mid.lists[aKey].value)];
    }
  }

  lemma ReverseEach<T>(xs: seq<T>, enc: T -> string)
    ensures Reverse(Codec.EncodeEach(xs, enc)) == Codec.EncodeEach(Reverse(xs), enc)
  {
    var a, b := Reverse(Codec.EncodeEach(xs, enc)), Codec.EncodeEach(Reverse(xs), enc);
    forall i | 0 <= i < |a| ensures a[i] == b[i] {
      assert a[i] == enc(xs[|xs| - 1 - i]);
    }
  }

  lemma ReverseEncodeAll(es: seq<Email>)
    ensures Reverse(Codec.EncodeAll(es)) == Codec.EncodeAll(Reverse(es))
  {
    ReverseEach(es, Codec.Encode);
  }

  /** Delivering `es` one after the other to an existing mailbox leaves their texts
      at its head, newest first, above what it held; nothing else changes. */
  lemma AddEachPrepends(db: Db, username: string, es: seq<Email>)
    requires WellTyped(db) && db.online && AccountKey(username) in db.lists
    ensures var db' := AddEach(db, username, es);
            var aKey := AccountKey(username);
            && WellTyped(db') && db'.online
            && db'.strings == db.strings
            && db'.lists == db.lists[aKey := db.lists[aKey].(value := Codec.EncodeAll(Reverse(es)) + db.lists[aKey].value)]
  {
    AddEachPushesEncodings(db, username, es);
    PushEachPrepends(db, username, Codec.EncodeAll(es));
    ReverseEncodeAll(es);
  }

  /** A mailbox list of stored mails above the placeholder reads as those mails. */
  lemma ReadMailboxOf(db: Db, username: string, t: TtlReply, items: seq<string>, es: seq<Email>)
    requires db.online && AccountKey(username) !in db.strings
    requires AccountKey(username) in db.lists && db.lists[AccountKey(username)].value == items + [Sentinel]
    requires Codec.DecodeAll(items) == Some(es)
    ensures ReadMailbox(db, username, t) == Success(Account(username, Milliseconds(t), es))
  {
    if |items| > 0 {
      assert Range(items + [Sentinel], 0, |items| - 1) == items;
    } else {
      assert Codec.DecodeAll(items) == Some([]);
    }
  }

  /** The life of a mailbox: created with a positive lifetime, then sent `es` in
      order, it reads back as exactly those mails, newest first, with its lifetime
      rounded to whole seconds, or as missing when that rounds to zero. */
  lemma CreateDeliverRead(db: Db, token: string, username: string, ttl: int, es: seq<Email>)
    requires WellTyped(db) && db.online && ttl > 0
    requires !Present(db, TokenKey(token)) && !Present(db, AccountKey(username))
    ensures var db' := AddEach(CreateAccountSpec(db, token, username, ttl).1, username, es);
            AccountSpec(db', token) ==
              if (ttl + 500) / 1000 == 0 then Failure(ErrAccountDoesntExists)
              else Success(Account(username, (ttl + 500) / 1000 * 1000, Reverse(es)))
  {
    CreateAccountFresh(db, token, username, ttl);
    var db1 := CreateAccountSpec(db, token, username, ttl).1;
    AddEachPrepends(db1, username, es);
    var db' := AddEach(db1, username, es);
    var tKey := TokenKey(token);
    KeysApart(token, username);
    WellTypedParts(db', token, username);
    assert Get(db', tKey) == Ok(username);
    var t := Seconds((ttl + 500) / 1000);
    assert Ttl(db', tKey) == Ok(t);
    if (ttl + 500) / 1000 != 0 {
      assert AccountSpec(db', token) == ReadMailbox(db', username, t);
      Codec.DecodeAllRoundTrip(Reverse(es));
      ReadMailboxOf(db', username, t, Codec.EncodeAll(Reverse(es)), Reverse(es));
    }
  }

  // ---------------------------------------------------------------------------
  // RemoveAccount

  lemma RemoveAccountUnknown(db: Db, token: string)
    requires db.online && !Present(db, TokenKey(token))
    ensures RemoveAccountSpec(db, token) == (Some(ErrAccountDoesntExists), db)
  {
  }

  /** Removing deletes the mailbox and then the token; afterwards the token reads
      as missing and the name is free, and every other key is as it was. */
  lemma RemoveAccountKnown(db: Db, token: string)
    requires WellTyped(db) && db.online && TokenKey(token) in db.strings
    ensures var username := db.strings[TokenKey(token)].value;
            var (err, db') := RemoveAccountSpec(db, token);
            && err == None
            && db' == Delete(Delete(db, AccountKey(username)), TokenKey(token))
            && AccountSpec(db', token) == Failure(ErrAccountDoesntExists)
            && AccountExistsSpec(db', username) == (false, None)
            && WellTyped(db')
  {
    WellTypedParts(db, token, "");
  }

  // ---------------------------------------------------------------------------
  // Expiry and the store's invariant

  /** Once less than half a second of the token's lifetime is left, or none at
      all, the mailbox reads as missing. */
  lemma ExpiredAccountNotFound(db: Db, token: string, elapsed: nat)
    requires WellTyped(db) && db.online && TokenKey(token) in db.strings
    requires db.strings[TokenKey(token)].expiry.ExpiresIn?
    requires db.strings[TokenKey(token)].expiry.ms < elapsed + 500
    ensures AccountSpec(Advance(db, elapsed), token) == Failure(ErrAccountDoesntExists)
  {
    AdvanceKeepsWellTyped(db, elapsed);
    AccountNotFoundExactly(Advance(db, elapsed), token);
  }

  /** The token gets its lifetime from SET, in milliseconds, and the mailbox from
      EXPIRE, in whole seconds. For a lifetime longer than a second that is not
      whole seconds, the mailbox goes first: after `ExpireMs(ttl)` the token still
      maps to the name, yet `Account` reports the missing account. */
  lemma MailboxExpiresBeforeToken(db: Db, token: string, username: string, ttl: int, elapsed: nat)
    requires WellTyped(db) && db.online
    requires !Present(db, TokenKey(token)) && !Present(db, AccountKey(username))
    requires ExpireMs(ttl) <= elapsed < ttl
    ensures var db' := Advance(CreateAccountSpec(db, token, username, ttl).1, elapsed);
            && Get(db', TokenKey(token)) == Ok(username)
            && AccountSpec(db', token) == Failure(ErrAccountDoesntExists)
  {
    CreateAccountFresh(db, token, username, ttl);
    var db1 := CreateAccountSpec(db, token, username, ttl).1;
    AdvanceKeepsWellTyped(db1, elapsed);
    AccountNotFoundExactly(Advance(db1, elapsed), token);
  }

  /** For a lifetime under a second, the mailbox outlives its token: between `ttl`
      and one second, no token reads it, yet it still exists for the mail server
      to deliver to. */
  lemma MailboxOutlivesShortToken(db: Db, token: string, username: string, ttl: int, elapsed: nat)
    requires WellTyped(db) && db.online
    requires !Present(db, TokenKey(token)) && !Present(db, AccountKey(username))
    requires 0 < ttl <= elapsed < 1000
    ensures var db' := Advance(CreateAccountSpec(db, token, username, ttl).1, elapsed);
            && !Present(db', TokenKey(token))
            && AccountSpec(db', token) == Failure(ErrAccountDoesntExists)
            && AccountExistsSpec(db', username) == (true, None)
  {
    CreateAccountFresh(db, token, username, ttl);
    KeysApart(token, username);
    var db1 := CreateAccountSpec(db, token, username, ttl).1;
    AdvanceKeepsWellTyped(db1, elapsed);
  }

  /** Every store operation, and the passing of time, keeps token keys holding
      strings and account keys holding lists. */
  lemma CreateKeepsWellTyped(db: Db, token: string, username: string, ttl: int)
    requires WellTyped(db)
    ensures WellTyped(CreateAccountSpec(db, token, username, ttl).1)
  {
    KeyKinds(token, username);
  }

  lemma ProlongKeepsWellTyped(db: Db, token: string, ttl: int)
    requires WellTyped(db)
    ensures WellTyped(ProlongAccountSpec(db, token, ttl).1)
  {
    KeyKinds(token, "");
  }

  lemma RemoveKeepsWellTyped(db: Db, token: string)
    requires WellTyped(db)
    ensures WellTyped(RemoveAccountSpec(db, token).1)
  {
    KeyKinds(token, "");
  }

  lemma AddEmailKeepsWellTyped(db: Db, username: string, email: Email)
    requires WellTyped(db)
    ensures WellTyped(AddEmailSpec(db, username, email).1)
  {
    KeyKinds("", username);
  }

  lemma AdvanceKeepsWellTyped(db: Db, elapsed: nat)
    requires WellTyped(db)
    ensures WellTyped(Advance(db, elapsed))
  {
  }
}
