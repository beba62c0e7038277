/** Properties of the HTTP server model: generated names decode back to the clock
    reading, the name list splits and joins back, and the bulk creation endpoint
    stores exactly the accounts it reports. */
module HttpLemmas {
  import opened Entity
  import opened Keyspace
  import opened Storage
  import StorageLemmas
  import opened Http

  // ---------------------------------------------------------------------------
  // Generated names

  /** The digit a character of the alphabet stands for. */
  function Value(c: char): int
  {
    if 'a' <= c <= 'u' then c as int - 'a' as int
    else if 'w' <= c <= 'z' then c as int - 'w' as int + 21
    else c as int - '0' as int + 25
  }

  /** Reads digits back, least significant first: the inverse of `Base35`. */
  function FromDigits(s: string): int
  {
    if s == [] then 0 else Value(s[0]) + |Abc| * FromDigits(s[1..])
  }

  /** Each character of `digits` from position `k` on stands for its position. */
  predicate DigitsFrom(digits: string, k: nat)
    decreases 35 - k
  {
    k >= 35 || (k < |digits| && Value(digits[k]) == k && DigitsFrom(digits, k + 1))
  }

  lemma {:induction false} Table(digits: string, k: nat, d: int)
    requires DigitsFrom(digits, k) && k <= d < 35
    ensures d < |digits| && Value(digits[d]) == d
    decreases d - k
  {
    if k < d { Table(digits, k + 1, d); }
  }

  /** The alphabet has 35 distinct digits, `v` not among them. */
  lemma DigitValues()
    ensures |Abc| == 35 && 'v' !in Abc
    ensures forall d :: 0 <= d < |Abc| ==> Value(Abc[d]) == d
  {
    // The table is checked one position at a time, from the end.
    assert DigitsFrom(Abc, 35); assert DigitsFrom(Abc, 34); assert DigitsFrom(Abc, 33); assert DigitsFrom(Abc, 32);
    assert DigitsFrom(Abc, 31); assert DigitsFrom(Abc, 30); assert DigitsFrom(Abc, 29); assert DigitsFrom(Abc, 28);
    assert DigitsFrom(Abc, 27); assert DigitsFrom(Abc, 26); assert DigitsFrom(Abc, 25); assert DigitsFrom(Abc, 24);
    assert DigitsFrom(Abc, 23); assert DigitsFrom(Abc, 22); assert DigitsFrom(Abc, 21); assert DigitsFrom(Abc, 20);
    assert DigitsFrom(Abc, 19); assert DigitsFrom(Abc, 18); assert DigitsFrom(Abc, 17); assert DigitsFrom(Abc, 16);
    assert DigitsFrom(Abc, 15); assert DigitsFrom(Abc, 14); assert DigitsFrom(Abc, 13); assert DigitsFrom(Abc, 12);
    assert DigitsFrom(Abc, 11); assert DigitsFrom(Abc, 10); assert DigitsFrom(Abc, 9); assert DigitsFrom(Abc, 8);
    assert DigitsFrom(Abc, 7); assert DigitsFrom(Abc, 6); assert DigitsFrom(Abc, 5); assert DigitsFrom(Abc, 4);
    assert DigitsFrom(Abc, 3); assert DigitsFrom(Abc, 2); assert DigitsFrom(Abc, 1); assert DigitsFrom(Abc, 0);
    forall d | 0 <= d < 35 ensures Value(Abc[d]) == d { Table(Abc, 0, d); }
  }

  /** The digits of a positive clock reading read back to it. */
  lemma {:induction false} Base35RoundTrip(n: int)
    requires n > 0
    ensures FromDigits(Base35(n)) == n
    decreases n
  {
    DigitValues();
    var q := n / |Abc|;
    if q > 0 { Base35RoundTrip(q); }
    assert Base35(n)[1..] == Base35(q);
  }

  /** Two positive clock readings give the same digits only if they are equal. */
  lemma Base35Injective(m: int, n: int)
    requires m > 0 && n > 0
    ensures Base35(m) == Base35(n) <==> m == n
  {
    Base35RoundTrip(m);
    Base35RoundTrip(n);
  }

  /** The digits are drawn from the alphabet, so never contain `v`. */
  lemma {:induction false} Base35Alphabet(n: int)
    ensures forall i :: 0 <= i < |Base35(n)| ==> Base35(n)[i] in Abc && Base35(n)[i] != 'v'
    decreases n
  {
    DigitValues();
    if n > 0 {
      var q := n / |Abc|;
      Base35Alphabet(q);
      assert Base35(n) == [Abc[n % |Abc|]] + Base35(q);
    }
  }

  /** The most significant digit, written last, is never the zero digit `a`:
      the digits carry no padding. */
  lemma {:induction false} Base35NoPadding(n: int)
    requires n > 0
    ensures Base35(n)[|Base35(n)| - 1] != Abc[0]
    decreases n
  {
    var q := n / |Abc|;
    if q > 0 {
      Base35NoPadding(q);
      assert Base35(n) == [Abc[n % |Abc|]] + Base35(q);
    } else {
      var last := Abc[n % |Abc|];
      assert Base35(n) == [last] + Base35(q) && Base35(q) == [];
      DigitValues();
      assert Value(last) == n && Value(Abc[0]) == 0;
    }
  }

  /** A generated name is the digits of the clock reading followed by lower-case
      text of the random part's length. */
  lemma GeneratedName(seed: int, random: string)
    requires seed > 0
    ensures var name := Base35(seed) + ToLower(random);
            && |name| == |Base35(seed)| + |random|
            && FromDigits(name[..|Base35(seed)|]) == seed
            && forall i :: |Base35(seed)| <= i < |name| ==> !('A' <= name[i] <= 'Z')
  {
    var name := Base35(seed) + ToLower(random);
    assert name[..|Base35(seed)|] == Base35(seed);
    Base35RoundTrip(seed);
  }

  // ---------------------------------------------------------------------------
  // The name list

  /** `strings.Join(parts, ",")`. */
  function Join(parts: seq<string>): string
    requires |parts| >= 1
    decreases |parts|
  {
    if |parts| == 1 then parts[0] else parts[0] + "," + Join(parts[1..])
  }

  /** Splitting and joining again gives the form value back. */
  lemma {:induction false} JoinSplit(s: string)
    ensures Join(Split(s)) == s
    decreases |s|
  {
    if s == [] {
    } else if s[0] == ',' {
      JoinSplit(s[1..]);
      assert Split(s)[1..] == Split(s[1..]);
    } else {
      JoinSplit(s[1..]);
      var rest := Split(s[1..]);
      var parts := Split(s);
      assert parts[0] == [s[0]] + rest[0] && parts[1..] == rest[1..];
      if |rest| > 1 {
        assert Join(rest) == rest[0] + "," + Join(rest[1..]);
      }
    }
  }

  /** No name contains the separator. */
  lemma {:induction false} SplitNoComma(s: string)
    ensures forall i :: 0 <= i < |Split(s)| ==> ',' !in Split(s)[i]
    decreases |s|
  {
    if s != [] {
      SplitNoComma(s[1..]);
      var rest := Split(s[1..]);
      if s[0] != ',' {
        assert Split(s) == [[s[0]] + rest[0]] + rest[1..];
      } else {
        assert Split(s) == [""] + rest;
      }
    }
  }

  lemma {:induction false} SplitAfter(a: string, b: string)
    requires ',' !in a
    ensures Split(a + "," + b) == [a] + Split(b)
    decreases |a|
  {
    var s := a + "," + b;
    if a == [] {
      assert s[1..] == b;
    } else {
      assert s[0] == a[0] && s[1..] == a[1..] + "," + b;
      SplitAfter(a[1..], b);
      assert [a[0]] + a[1..] == a;
    }
  }

  lemma {:induction false} SplitPlain(a: string)
    requires ',' !in a
    ensures Split(a) == [a]
    decreases |a|
  {
    if a != [] {
      SplitPlain(a[1..]);
      assert [a[0]] + a[1..] == a;
    }
  }

  /** Names without a separator are split back out of their joined form. */
  lemma {:induction false} SplitJoin(parts: seq<string>)
    requires |parts| >= 1 && forall i :: 0 <= i < |parts| ==> ',' !in parts[i]
    ensures Split(Join(parts)) == parts
    decreases |parts|
  {
    if |parts| == 1 {
      SplitPlain(parts[0]);
    } else {
      SplitJoin(parts[1..]);
      SplitAfter(parts[0], Join(parts[1..]));
    }
  }

  // ---------------------------------------------------------------------------
  // The creation loop

  /** A successful creation: the token and the name were both free, and the call
      had the effect `CreateAccountFresh` describes. */
  lemma CreateAccountSucceeded(db: Db, token: string, username: string, ttl: int)
    requires WellTyped(db)
    requires CreateAccountSpec(db, token, username, ttl).0 == None
    ensures db.online && !Present(db, TokenKey(token)) && !Present(db, AccountKey(username))
    ensures var db' := CreateAccountSpec(db, token, username, ttl).1;
            && db'.online
            && db'.strings == db.strings[TokenKey(token) := Entry(username, ExpiryFor(ttl))]
            && db'.lists == (if ttl > 0 then db.lists[AccountKey(username) := Entry([Sentinel], ExpiresIn(ExpireMs(ttl)))]
                             else db.lists)
            && WellTyped(db')
  {
    KeysApart(token, username);
    assert db.online;
    assert !Present(db, TokenKey(token));
    var (_, db1) := Set(db, TokenKey(token), username, ttl);
    assert Present(db1, AccountKey(username)) <==> Present(db, AccountKey(username));
    StorageLemmas.CreateAccountFresh(db, token, username, ttl);
  }

  /** `db'` keeps every entry of `db`, is well typed and is as reachable. */
  predicate Kept(db: Db, db': Db)
  {
    && WellTyped(db') && db'.online == db.online
    && (forall k :: k in db.strings ==> k in db'.strings && db'.strings[k] == db.strings[k])
    && (forall k :: k in db.lists ==> k in db'.lists && db'.lists[k] == db.lists[k])
  }

  lemma KeptTransitive(db: Db, db1: Db, db2: Db)
    requires Kept(db, db1) && Kept(db1, db2)
    ensures Kept(db, db2)
  {
  }

  /** Whatever the outcome, a creation call changes no entry that was there. */
  lemma CreateAccountKeeps(db: Db, token: string, username: string, ttl: int)
    requires WellTyped(db)
    ensures Kept(db, CreateAccountSpec(db, token, username, ttl).1)
  {
    StorageLemmas.CreateKeepsWellTyped(db, token, username, ttl);
    KeysApart(token, username);
    var tKey, aKey := TokenKey(token), AccountKey(username);
    if db.online && !Present(db, tKey) {
      var (_, db1) := Set(db, tKey, username, ttl);
      assert Present(db1, aKey) <==> Present(db, aKey);
      if !Present(db, aKey) {
        StorageLemmas.CreateAccountFresh(db, token, username, ttl);
      } else {
        StorageLemmas.CreateAccountNameTaken(db, token, username, ttl);
      }
    }
  }

  /** The last step of a successful loop. */
  lemma CreateAllLast(db: Db, emails: seq<string>, tokenFor: nat -> string, ttl: int)
    requires emails != [] && CreateAll(db, emails, tokenFor, ttl).0.Some?
    ensures var n := |emails| - 1;
            var before := CreateAll(db, emails[..n], tokenFor, ttl);
            && before.0.Some?
            && CreateAccountSpec(before.1, tokenFor(n), emails[n], ttl).0 == None
            && CreateAll(db, emails, tokenFor, ttl)
               == (Some(before.0.value + [tokenFor(n)]), CreateAccountSpec(before.1, tokenFor(n), emails[n], ttl).1)
  {
  }

  /** The string keys before (`db`) and after (`db'`) creating `emails`: the
      token made for each position maps to its name and was free before, the
      tokens are distinct and are the only new keys, and no entry that was there
      changes. */
  predicate TokensStored(db: Db, db': Db, emails: seq<string>, tokenFor: nat -> string, ttl: int)
  {
    && (forall k :: k in db.strings ==> k in db'.strings && db'.strings[k] == db.strings[k])
    && (forall i :: 0 <= i < |emails| ==>
          && TokenKey(tokenFor(i)) !in db.strings
          && TokenKey(tokenFor(i)) in db'.strings
          && db'.strings[TokenKey(tokenFor(i))] == Entry(emails[i], ExpiryFor(ttl)))
    && db'.strings.Keys == db.strings.Keys + (set i | 0 <= i < |emails| :: TokenKey(tokenFor(i)))
    && (forall i, j :: 0 <= i < j < |emails| ==> tokenFor(i) != tokenFor(j))
  }

  lemma TokensKeptStep(db: Db, db1: Db, db2: Db, key: string, entry: Entry<string>)
    requires forall k :: k in db.strings ==> k in db1.strings && db1.strings[k] == db.strings[k]
    requires key !in db1.strings && db2.strings == db1.strings[key := entry]
    ensures forall k :: k in db.strings ==> k in db2.strings && db2.strings[k] == db.strings[k]
  {
    forall k | k in db.strings ensures k in db2.strings && db2.strings[k] == db.strings[k] {
      assert k in db1.strings && k != key;
    }
  }

  lemma TokensDistinctStep(db1: Db, n: nat, tokenFor: nat -> string)
    requires forall i :: 0 <= i < n ==> TokenKey(tokenFor(i)) in db1.strings
    requires forall i, j :: 0 <= i < j < n ==> tokenFor(i) != tokenFor(j)
    requires TokenKey(tokenFor(n)) !in db1.strings
    ensures forall i, j :: 0 <= i < j < n + 1 ==> tokenFor(i) != tokenFor(j)
  {
    forall i, j | 0 <= i < j < n + 1 ensures tokenFor(i) != tokenFor(j) {
      if j == n {
        assert TokenKey(tokenFor(i)) in db1.strings;
      }
    }
  }

  lemma TokensEntriesStep(db: Db, db1: Db, db2: Db, emails: seq<string>, tokenFor: nat -> string, ttl: int)
    requires emails != []
    requires var n := |emails| - 1;
             forall i :: 0 <= i < n ==>
               && TokenKey(tokenFor(i)) !in db.strings
               && TokenKey(tokenFor(i)) in db1.strings
               && db1.strings[TokenKey(tokenFor(i))] == Entry(emails[i], ExpiryFor(ttl))
    requires forall k :: k in db.strings ==> k in db1.strings
    requires var key := TokenKey(tokenFor(|emails| - 1));
             key !in db1.strings && db2.strings == db1.strings[key := Entry(emails[|emails| - 1], ExpiryFor(ttl))]
    ensures forall i :: 0 <= i < |emails| ==>
              && TokenKey(tokenFor(i)) !in db.strings
              && TokenKey(tokenFor(i)) in db2.strings
              && db2.strings[TokenKey(tokenFor(i))] == Entry(emails[i], ExpiryFor(ttl))
  {
  }

  lemma TokensKeysStep(db: Db, db1: Db, db2: Db, n: nat, tokenFor: nat -> string, entry: Entry<string>)
    requires db1.strings.Keys == db.strings.Keys + (set i | 0 <= i < n :: TokenKey(tokenFor(i)))
    requires db2.strings == db1.strings[TokenKey(tokenFor(n)) := entry]
    ensures db2.strings.Keys == db.strings.Keys + (set i | 0 <= i < n + 1 :: TokenKey(tokenFor(i)))
  {
    assert (set i | 0 <= i < n + 1 :: TokenKey(tokenFor(i)))
        == (set i | 0 <= i < n :: TokenKey(tokenFor(i))) + {TokenKey(tokenFor(n))};
  }

  lemma TokensStoredStep(db: Db, db1: Db, db2: Db, emails: seq<string>, tokenFor: nat -> string, ttl: int)
    requires emails != []
    requires TokensStored(db, db1, emails[..|emails| - 1], tokenFor, ttl)
    requires var token := tokenFor(|emails| - 1);
             && TokenKey(token) !in db1.strings
             && db2.strings == db1.strings[TokenKey(token) := Entry(emails[|emails| - 1], ExpiryFor(ttl))]
    ensures TokensStored(db, db2, emails, tokenFor, ttl)
  {
    var n := |emails| - 1;
    var entry := Entry(emails[n], ExpiryFor(ttl));
    assert forall i :: 0 <= i < n ==> emails[..n][i] == emails[i];
    TokensKeptStep(db, db1, db2, TokenKey(tokenFor(n)), entry);
    TokensDistinctStep(db1, n, tokenFor);
    TokensEntriesStep(db, db1, db2, emails, tokenFor, ttl);
    TokensKeysStep(db, db1, db2, n, tokenFor, entry);
  }

  /** Every name was created under the token made for its position, as
      `TokensStored` describes. */
  lemma {:induction false} CreateAllTokens(db: Db, emails: seq<string>, tokenFor: nat -> string, ttl: int)
    requires WellTyped(db)
    requires CreateAll(db, emails, tokenFor, ttl).0.Some?
    ensures TokensStored(db, CreateAll(db, emails, tokenFor, ttl).1, emails, tokenFor, ttl)
    ensures emails != [] ==> db.online && CreateAll(db, emails, tokenFor, ttl).1.online
    decreases |emails|
  {
    if emails != [] {
      var n := |emails| - 1;
      var prefix := emails[..n];
      CreateAllLast(db, emails, tokenFor, ttl);
      CreateAllTokens(db, prefix, tokenFor, ttl);
      CreateAllKeeps(db, prefix, tokenFor, ttl);
      var db1 := CreateAll(db, prefix, tokenFor, ttl).1;
      CreateAccountSucceeded(db1, tokenFor(n), emails[n], ttl);
      TokensStoredStep(db, db1, CreateAll(db, emails, tokenFor, ttl).1, emails, tokenFor, ttl);
    }
  }

  /** The lists before and after creating `emails` with a positive lifetime:
      each name got a fresh mailbox holding only the placeholder, so the names are
      distinct; those are the only new keys and no list that was there changes. */
  predicate MailboxesStored(db: Db, db': Db, emails: seq<string>, ttl: int)
  {
    && (forall k :: k in db.lists ==> k in db'.lists && db'.lists[k] == db.lists[k])
    && (forall i :: 0 <= i < |emails| ==>
          && AccountKey(emails[i]) !in db.lists
          && AccountKey(emails[i]) in db'.lists
          && db'.lists[AccountKey(emails[i])] == Entry([Sentinel], ExpiresIn(ExpireMs(ttl))))
    && db'.lists.Keys == db.lists.Keys + (set i | 0 <= i < |emails| :: AccountKey(emails[i]))
    && (forall i, j :: 0 <= i < j < |emails| ==> emails[i] != emails[j])
  }

  lemma ListsKeptStep(db: Db, db1: Db, db2: Db, key: string, entry: Entry<seq<string>>)
    requires forall k :: k in db.lists ==> k in db1.lists && db1.lists[k] == db.lists[k]
    requires key !in db1.lists && db2.lists == db1.lists[key := entry]
    ensures forall k :: k in db.lists ==> k in db2.lists && db2.lists[k] == db.lists[k]
  {
    forall k | k in db.lists ensures k in db2.lists && db2.lists[k] == db.lists[k] {
      assert k in db1.lists && k != key;
    }
  }

  lemma NamesDistinctStep(db1: Db, emails: seq<string>)
    requires emails != []
    requires forall i :: 0 <= i < |emails| - 1 ==> AccountKey(emails[i]) in db1.lists
    requires forall i, j :: 0 <= i < j < |emails| - 1 ==> emails[i] != emails[j]
    requires AccountKey(emails[|emails| - 1]) !in db1.lists
    ensures forall i, j :: 0 <= i < j < |emails| ==> emails[i] != emails[j]
  {
    forall i, j | 0 <= i < j < |emails| ensures emails[i] != emails[j] {
      if j == |emails| - 1 {
        assert AccountKey(emails[i]) in db1.lists;
      }
    }
  }

  lemma MailboxKeysStep(db: Db, db1: Db, db2: Db, emails: seq<string>, entry: Entry<seq<string>>)
    requires emails != []
    requires var n := |emails| - 1;
             db1.lists.Keys == db.lists.Keys + (set i | 0 <= i < n :: AccountKey(emails[i]))
    requires db2.lists == db1.lists[AccountKey(emails[|emails| - 1]) := entry]
    ensures db2.lists.Keys == db.lists.Keys + (set i | 0 <= i < |emails| :: AccountKey(emails[i]))
  {
    var n := |emails| - 1;
    assert (set i | 0 <= i < |emails| :: AccountKey(emails[i]))
        == (set i | 0 <= i < n :: AccountKey(emails[i])) + {AccountKey(emails[n])};
  }

  lemma MailboxEntriesStep(db: Db, db1: Db, db2: Db, emails: seq<string>, entry: Entry<seq<string>>)
    requires emails != []
    requires forall k :: k in db.lists ==> k in db1.lists
    requires forall i :: 0 <= i < |emails| - 1 ==>
               && AccountKey(emails[i]) !in db.lists
               && AccountKey(emails[i]) in db1.lists
               && db1.lists[AccountKey(emails[i])] == entry
    requires var key := AccountKey(emails[|emails| - 1]);
             key !in db1.lists && db2.lists == db1.lists[key := entry]
    ensures forall i :: 0 <= i < |emails| ==>
              && AccountKey(emails[i]) !in db.lists
              && AccountKey(emails[i]) in db2.lists
              && db2.lists[AccountKey(emails[i])] == entry
  {
  }

  lemma MailboxesStoredStep(db: Db, db1: Db, db2: Db, emails: seq<string>, ttl: int)
    requires emails != []
    requires MailboxesStored(db, db1, emails[..|emails| - 1], ttl)
    requires var name := emails[|emails| - 1];
             && AccountKey(name) !in db1.lists
             && db2.lists == db1.lists[AccountKey(name) := Entry([Sentinel], ExpiresIn(ExpireMs(ttl)))]
    ensures MailboxesStored(db, db2, emails, ttl)
  {
    var n := |emails| - 1;
    var entry := Entry([Sentinel], ExpiresIn(ExpireMs(ttl)));
    assert forall i :: 0 <= i < n ==> emails[..n][i] == emails[i];
    ListsKeptStep(db, db1, db2, AccountKey(emails[n]), entry);
    MailboxEntriesStep(db, db1, db2, emails, entry);
    NamesDistinctStep(db1, emails);
    MailboxKeysStep(db, db1, db2, emails, entry);
  }

  /** With a positive lifetime every name also got a mailbox, as
      `MailboxesStored` describes; otherwise the lists are as they were. */
  lemma {:induction false} CreateAllMailboxes(db: Db, emails: seq<string>, tokenFor: nat -> string, ttl: int)
    requires WellTyped(db)
    requires CreateAll(db, emails, tokenFor, ttl).0.Some?
    ensures var db' := CreateAll(db, emails, tokenFor, ttl).1;
            && (ttl <= 0 ==> db'.lists == db.lists)
            && (ttl > 0 ==> MailboxesStored(db, db', emails, ttl))
    decreases |emails|
  {
    if emails != [] {
      var n := |emails| - 1;
      var prefix := emails[..n];
      CreateAllLast(db, emails, tokenFor, ttl);
      CreateAllMailboxes(db, prefix, tokenFor, ttl);
      CreateAllKeeps(db, prefix, tokenFor, ttl);
      var db1 := CreateAll(db, prefix, tokenFor, ttl).1;
      CreateAccountSucceeded(db1, tokenFor(n), emails[n], ttl);
      if ttl > 0 {
        MailboxesStoredStep(db, db1, CreateAll(db, emails, tokenFor, ttl).1, emails, ttl);
      }
    }
  }

  /** Whatever the outcome, the loop changes no entry that was there: the
      accounts made before a failure are kept. */
  lemma {:induction false} CreateAllKeeps(db: Db, emails: seq<string>, tokenFor: nat -> string, ttl: int)
    requires WellTyped(db)
    ensures Kept(db, CreateAll(db, emails, tokenFor, ttl).1)
    decreases |emails|
  {
    if emails == [] {
    } else {
      var n := |emails| - 1;
      CreateAllKeeps(db, emails[..n], tokenFor, ttl);
      var (tokens1, db1) := CreateAll(db, emails[..n], tokenFor, ttl);
      if tokens1.Some? {
        var db2 := CreateAccountSpec(db1, tokenFor(n), emails[n], ttl).1;
        CreateAccountKeeps(db1, tokenFor(n), emails[n], ttl);
        KeptTransitive(db, db1, db2);
        CreateEachNext(db, emails, n, tokenFor, Creator(ttl));
        assert emails[..n + 1] == emails;
      }
    }
  }

  /** The loop failed at position `j`: the names before it were all created and
      the call for `j` failed, leaving the keyspace the result shows. */
  predicate FailsAt(db: Db, emails: seq<string>, tokenFor: nat -> string, ttl: int, j: nat)
  {
    && j < |emails|
    && var before := CreateAll(db, emails[..j], tokenFor, ttl);
    && before.0.Some?
    && var (err, db') := CreateAccountSpec(before.1, tokenFor(j), emails[j], ttl);
    && err.Some?
    && CreateAll(db, emails, tokenFor, ttl).1 == db'
  }

  /** A failed loop failed at one position, after creating all the names before it. */
  lemma {:induction false} CreateAllFails(db: Db, emails: seq<string>, tokenFor: nat -> string, ttl: int)
    requires CreateAll(db, emails, tokenFor, ttl).0.None?
    ensures exists j: nat :: FailsAt(db, emails, tokenFor, ttl, j)
    decreases |emails|
  {
    var n := |emails| - 1;
    var prefix := emails[..n];
    var before := CreateAll(db, prefix, tokenFor, ttl);
    if before.0.None? {
      CreateAllFails(db, prefix, tokenFor, ttl);
      var j: nat :| FailsAt(db, prefix, tokenFor, ttl, j);
      assert prefix[..j] == emails[..j] && prefix[j] == emails[j];
      assert CreateAll(db, emails, tokenFor, ttl) == (None, before.1);
      assert FailsAt(db, emails, tokenFor, ttl, j);
    } else {
      assert FailsAt(db, emails, tokenFor, ttl, n);
    }
  }

  /** Free distinct tokens and free distinct names on a reachable server: every
      creation succeeds. */
  lemma {:induction false} CreateAllFresh(db: Db, emails: seq<string>, tokenFor: nat -> string, ttl: int)
    requires WellTyped(db) && db.online
    requires forall i :: 0 <= i < |emails| ==> !Present(db, TokenKey(tokenFor(i))) && !Present(db, AccountKey(emails[i]))
    requires forall i, j :: 0 <= i < j < |emails| ==> tokenFor(i) != tokenFor(j) && emails[i] != emails[j]
    ensures CreateAll(db, emails, tokenFor, ttl).0.Some?
  {
    FreshPrefixSucceeds(db, emails, tokenFor, ttl, |emails|);
    assert emails[..|emails|] == emails;
  }

  /** The same for the first `n` names. */
  lemma {:induction false} FreshPrefixSucceeds(db: Db, emails: seq<string>, tokenFor: nat -> string, ttl: int, n: nat)
    requires WellTyped(db) && db.online && n <= |emails|
    requires forall i :: 0 <= i < |emails| ==> !Present(db, TokenKey(tokenFor(i))) && !Present(db, AccountKey(emails[i]))
    requires forall i, j :: 0 <= i < j < |emails| ==> tokenFor(i) != tokenFor(j) && emails[i] != emails[j]
    ensures CreateAll(db, emails[..n], tokenFor, ttl).0.Some?
    decreases n
  {
    if n == 0 {
      assert emails[..0] == [];
    } else {
      var prefix := emails[..n - 1];
      FreshPrefixSucceeds(db, emails, tokenFor, ttl, n - 1);
      NextCreationSucceeds(db, prefix, tokenFor, ttl, tokenFor(n - 1), emails[n - 1]);
      CreateEachNext(db, emails, n - 1, tokenFor, Creator(ttl));
    }
  }

  /** After a successful loop over `prefix`, a creation with a token and a name
      that were free and are not among those used succeeds. */
  lemma NextCreationSucceeds(db: Db, prefix: seq<string>, tokenFor: nat -> string, ttl: int, token: string, name: string)
    requires WellTyped(db) && db.online && CreateAll(db, prefix, tokenFor, ttl).0.Some?
    requires !Present(db, TokenKey(token)) && !Present(db, AccountKey(name))
    requires forall i :: 0 <= i < |prefix| ==> tokenFor(i) != token && prefix[i] != name
    ensures CreateAccountSpec(CreateAll(db, prefix, tokenFor, ttl).1, token, name, ttl).0 == None
  {
    var db1 := CreateAll(db, prefix, tokenFor, ttl).1;
    CreateAllKeeps(db, prefix, tokenFor, ttl);
    CreateAllTokens(db, prefix, tokenFor, ttl);
    TokenStillFree(db, db1, prefix, tokenFor, ttl, token);
    CreateAllMailboxes(db, prefix, tokenFor, ttl);
    NameStillFree(db, db1, prefix, ttl, name);
    StorageLemmas.CreateAccountFresh(db1, token, name, ttl);
  }

  /** A token that was free and was not made for the names created is still free. */
  lemma TokenStillFree(db: Db, db1: Db, prefix: seq<string>, tokenFor: nat -> string, ttl: int, token: string)
    requires WellTyped(db1) && TokensStored(db, db1, prefix, tokenFor, ttl)
    requires !Present(db, TokenKey(token))
    requires forall i :: 0 <= i < |prefix| ==> tokenFor(i) != token
    ensures !Present(db1, TokenKey(token))
  {
    forall i | 0 <= i < |prefix| ensures TokenKey(tokenFor(i)) != TokenKey(token) {
      TokenKeyInjective(token, tokenFor(i));
    }
    StorageLemmas.WellTypedParts(db1, token, "");
  }

  /** A name that was free and is not among the names created is still free. */
  lemma NameStillFree(db: Db, db1: Db, prefix: seq<string>, ttl: int, name: string)
    requires WellTyped(db1)
    requires ttl <= 0 ==> db1.lists == db.lists
    requires ttl > 0 ==> MailboxesStored(db, db1, prefix, ttl)
    requires WellTyped(db) && !Present(db, AccountKey(name))
    requires forall i :: 0 <= i < |prefix| ==> prefix[i] != name
    ensures !Present(db1, AccountKey(name))
  {
    forall i | 0 <= i < |prefix| ensures AccountKey(prefix[i]) != AccountKey(name) {
      AccountKeyInjective(name, prefix[i]);
    }
    StorageLemmas.WellTypedParts(db1, "", name);
  }


  // ---------------------------------------------------------------------------
  // The plain-text body

  lemma {:induction false} FormatPlainConcat(e1: seq<string>, t1: seq<string>, e2: seq<string>, t2: seq<string>)
    requires |t1| == |e1| && |t2| == |e2|
    ensures FormatPlain(e1 + e2, t1 + t2) == FormatPlain(e1, t1) + FormatPlain(e2, t2)
    decreases |e2|
  {
    if e2 != [] {
      var n := |e2| - 1;
      var e, t := e1 + e2, t1 + t2;
      assert e[..|e1| + n] == e1 + e2[..n] && t[..|t1| + n] == t1 + t2[..n];
      assert e[|e1| + n] == e2[n] && t[|t1| + n] == t2[n];
      FormatPlainConcat(e1, t1, e2[..n], t2[..n]);
      var a, b, c := FormatPlain(e1, t1), FormatPlain(e2[..n], t2[..n]), Line(e2[n], t2[n]);
      assert FormatPlain(e, t) == (a + b) + c;
      assert FormatPlain(e2, t2) == b + c;
      assert (a + b) + c == a + (b + c);
    } else {
      assert e1 + e2 == e1 && t1 + t2 == t1;
    }
  }

  /** The body is the lines of the names before `i` followed by those from `i` on. */
  lemma PlainSplit(emails: seq<string>, tokens: seq<string>, i: nat)
    requires |tokens| == |emails| && i <= |emails|
    ensures FormatPlain(emails, tokens) == FormatPlain(emails[..i], tokens[..i]) + FormatPlain(emails[i..], tokens[i..])
  {
    assert emails == emails[..i] + emails[i..] && tokens == tokens[..i] + tokens[i..];
    FormatPlainConcat(emails[..i], tokens[..i], emails[i..], tokens[i..]);
  }

  /** The lines up to and including name `i` end with that name's own line. */
  lemma PlainPrefixStep(emails: seq<string>, tokens: seq<string>, i: nat)
    requires |tokens| == |emails| && i < |emails|
    ensures FormatPlain(emails[..i + 1], tokens[..i + 1])
            == FormatPlain(emails[..i], tokens[..i]) + Line(emails[i], tokens[i])
  {
    var e1, t1 := emails[..i + 1], tokens[..i + 1];
    assert e1[..i] == emails[..i] && t1[..i] == tokens[..i];
    assert e1[i] == emails[i] && t1[i] == tokens[i];
  }

  /** The body has one line per name, in order: the lines up to and including the
      name's own, which comes last among them, then the lines of the names after. */
  lemma PlainLineInOrder(emails: seq<string>, tokens: seq<string>, i: nat)
    requires |tokens| == |emails| && i < |emails|
    ensures FormatPlain(emails, tokens)
            == FormatPlain(emails[..i + 1], tokens[..i + 1]) + FormatPlain(emails[i + 1..], tokens[i + 1..])
    ensures FormatPlain(emails[..i + 1], tokens[..i + 1])
            == FormatPlain(emails[..i], tokens[..i]) + Line(emails[i], tokens[i])
  {
    PlainSplit(emails, tokens, i + 1);
    PlainPrefixStep(emails, tokens, i);
  }

  // ---------------------------------------------------------------------------
  // The endpoint

  /** A request turned away before the loop (429, 401 or 400) changes nothing and
      has no body; only a 500 or a 200 comes after creating accounts. */
  lemma PutRejected(db: Db, reserved: bool, authToken: string, request: PutRequest,
                    parseDuration: string -> Option<int>, defaultTtl: int, tokenFor: nat -> string)
    ensures var (response, db') := PutSpec(db, reserved, authToken, request, parseDuration, defaultTtl, tokenFor);
            && (response.status == 429 <==> !reserved)
            && (response.status == 401 <==> reserved && authToken != request.authorization)
            && (response.status == 400 <==>
                  reserved && authToken == request.authorization
                  && (HasEmptyName(Split(request.emails)) || TtlFor(request, parseDuration, defaultTtl).None?))
            && (response.status in {429, 401, 400} ==> db' == db)
            && (response.status != 200 ==> response.body == NoBody)
  {
  }

  /** A 200: the caller was authorised, every comma-separated name got an account
      under the token made for its position, and the body lists the pairs or the
      tokens in the order of the names. */
  lemma PutSucceeded(db: Db, reserved: bool, authToken: string, request: PutRequest,
                     parseDuration: string -> Option<int>, defaultTtl: int, tokenFor: nat -> string)
    requires WellTyped(db)
    requires PutSpec(db, reserved, authToken, request, parseDuration, defaultTtl, tokenFor).0.status == 200
    ensures var (response, db') := PutSpec(db, reserved, authToken, request, parseDuration, defaultTtl, tokenFor);
            var emails := Split(request.emails);
            var tokens := seq(|emails|, i requires 0 <= i => tokenFor(i));
            && reserved && authToken == request.authorization
            && Join(emails) == request.emails && !HasEmptyName(emails)
            && TtlFor(request, parseDuration, defaultTtl).Some?
            && WellTyped(db') && db'.online
            && (forall i :: 0 <= i < |emails| ==>
                  Get(db', TokenKey(tokenFor(i))) == Ok(emails[i]) && !Present(db, TokenKey(tokenFor(i))))
            && (forall k :: k in db.strings ==> k in db'.strings && db'.strings[k] == db.strings[k])
            && response.body == BodyFor(request.accept, emails, tokens)
  {
    PutShape(db, reserved, authToken, request, parseDuration, defaultTtl, tokenFor);
    JoinSplit(request.emails);
    CreatedTokens(db, Split(request.emails), tokenFor, TtlFor(request, parseDuration, defaultTtl).value);
  }

  /** A 200 comes from a successful creation loop, after every check passed. */
  lemma PutShape(db: Db, reserved: bool, authToken: string, request: PutRequest,
                 parseDuration: string -> Option<int>, defaultTtl: int, tokenFor: nat -> string)
    requires PutSpec(db, reserved, authToken, request, parseDuration, defaultTtl, tokenFor).0.status == 200
    ensures reserved && authToken == request.authorization
    ensures !HasEmptyName(Split(request.emails)) && TtlFor(request, parseDuration, defaultTtl).Some?
    ensures var emails := Split(request.emails);
            var c := CreateAll(db, emails, tokenFor, TtlFor(request, parseDuration, defaultTtl).value);
            && c.0.Some?
            && PutSpec(db, reserved, authToken, request, parseDuration, defaultTtl, tokenFor)
               == (Response(200, BodyFor(request.accept, emails, c.0.value)), c.1)
  {
  }

  /** A successful loop: the tokens are those made for each position, each maps
      to its name and was free before, and no string entry that was there changes. */
  lemma CreatedTokens(db: Db, emails: seq<string>, tokenFor: nat -> string, ttl: int)
    requires WellTyped(db) && emails != [] && CreateAll(db, emails, tokenFor, ttl).0.Some?
    ensures var (tokens, db') := CreateAll(db, emails, tokenFor, ttl);
            && tokens.value == seq(|emails|, i requires 0 <= i => tokenFor(i))
            && WellTyped(db') && db'.online
            && (forall i :: 0 <= i < |emails| ==>
                  Get(db', TokenKey(tokenFor(i))) == Ok(emails[i]) && !Present(db, TokenKey(tokenFor(i))))
            && (forall k :: k in db.strings ==> k in db'.strings && db'.strings[k] == db.strings[k])
  {
    var (tokens, db') := CreateAll(db, emails, tokenFor, ttl);
    assert tokens.value == seq(|emails|, i requires 0 <= i => tokenFor(i));
    CreateAllKeeps(db, emails, tokenFor, ttl);
    CreateAllTokens(db, emails, tokenFor, ttl);
    forall i | 0 <= i < |emails| ensures !Present(db, TokenKey(tokenFor(i))) {
      StorageLemmas.WellTypedParts(db, tokenFor(i), emails[i]);
    }
  }


  /** A 500: the loop stopped at one name after creating all the names before
      it, and nothing stored before the request was changed. */
  lemma PutFailedMidway(db: Db, reserved: bool, authToken: string, request: PutRequest,
                        parseDuration: string -> Option<int>, defaultTtl: int, tokenFor: nat -> string)
    requires WellTyped(db)
    requires PutSpec(db, reserved, authToken, request, parseDuration, defaultTtl, tokenFor).0.status == 500
    ensures var db' := PutSpec(db, reserved, authToken, request, parseDuration, defaultTtl, tokenFor).1;
            var ttl := TtlFor(request, parseDuration, defaultTtl);
            && ttl.Some?
            && (exists j: nat :: FailsAt(db, Split(request.emails), tokenFor, ttl.value, j))
            && WellTyped(db')
            && (forall k :: k in db.strings ==> k in db'.strings && db'.strings[k] == db.strings[k])
            && (forall k :: k in db.lists ==> k in db'.lists && db'.lists[k] == db.lists[k])
  {
    var emails := Split(request.emails);
    var ttl := TtlFor(request, parseDuration, defaultTtl).value;
    CreateAllFails(db, emails, tokenFor, ttl);
    CreateAllKeeps(db, emails, tokenFor, ttl);
  }

  /** An authorised request with well-formed names and lifetime on a reachable
      server, whose tokens are free and distinct and whose names are free and
      distinct, is answered 200. */
  lemma PutSucceedsWhenFree(db: Db, authToken: string, request: PutRequest,
                            parseDuration: string -> Option<int>, defaultTtl: int, tokenFor: nat -> string)
    requires WellTyped(db) && db.online
    requires authToken == request.authorization
    requires !HasEmptyName(Split(request.emails)) && TtlFor(request, parseDuration, defaultTtl).Some?
    requires var emails := Split(request.emails);
             && (forall i :: 0 <= i < |emails| ==> !Present(db, TokenKey(tokenFor(i))) && !Present(db, AccountKey(emails[i])))
             && (forall i, j :: 0 <= i < j < |emails| ==> tokenFor(i) != tokenFor(j) && emails[i] != emails[j])
    ensures PutSpec(db, true, authToken, request, parseDuration, defaultTtl, tokenFor).0.status == 200
  {
    CreateAllFresh(db, Split(request.emails), tokenFor, TtlFor(request, parseDuration, defaultTtl).value);
  }

  // ---------------------------------------------------------------------------
  // Routing

  /** Outside `/api`, a request that is not a GET gets 405 whatever its path. */
  lemma NonGetRefusedAnyPath(verb: string, path: string, path': string)
    requires verb != "GET" && !HasPrefix(path, "/api") && !HasPrefix(path', "/api")
    ensures RouteFor(verb, path) == RouteFor(verb, path') == MethodNotAllowed
  {
  }

  /** Under `/api`, the method does not decide the route: the API router does. */
  lemma ApiAnyMethod(verb: string, verb': string, path: string)
    requires HasPrefix(path, "/api")
    ensures RouteFor(verb, path) == RouteFor(verb', path) == Api
  {
  }

  /** A file that cannot be opened is replaced by `index.html`, still typed by the
      requested path; the file served never depends on whether `index.html` opens
      when the requested one does. */
  lemma ServeFileFallback(path: string, opens: string -> bool, opens': string -> bool)
    requires opens(path) == opens'(path)
    requires !opens(path) ==> opens(IndexHtml) == opens'(IndexHtml)
    ensures ServeFileSpec(path, opens) == ServeFileSpec(path, opens')
    ensures !opens(path) && opens(IndexHtml) ==> ServeFileSpec(path, opens) == Served(IndexHtml, path)
  {
  }
}
