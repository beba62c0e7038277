/** What the SMTP handlers promise, stated on the functions the handler methods
    are proved to follow. */
module SmtpLemmas {
  import opened Entity
  import opened Keyspace
  import Codec
  import opened Storage
  import StorageLemmas
  import opened Smtp

  predicate HasSuffix(s: string, suffix: string)
  {
    |suffix| <= |s| && s[|s| - |suffix|..] == suffix
  }

  /** `n` copies of the stored text `t`. */
  function Copies(t: string, n: nat): seq<string>
  {
    if n == 0 then [] else [t] + Copies(t, n - 1)
  }

  // ---------------------------------------------------------------------------
  // Recipients

  /** An address names a mailbox exactly when it ends in `"@" + domain`, and the
      mailbox name put back in front of that suffix gives the address again. */
  lemma UsernameForExactly(address: string, domain: string)
    ensures UsernameFor(address, domain).Some? <==> HasSuffix(address, "@" + domain)
    ensures UsernameFor(address, domain).Some? ==> UsernameFor(address, domain).value + "@" + domain == address
  {
    var suffix := "@" + domain;
    if HasSuffix(address, suffix) {
      var username := address[..|address| - |suffix|];
      assert username + suffix == address;
    }
  }

  lemma UsernameForRoundTrip(username: string, domain: string)
    ensures UsernameFor(username + "@" + domain, domain) == Some(username)
  {
    var address := username + "@" + domain;
    assert address[|address| - |"@" + domain|..] == "@" + domain;
    assert address[..|address| - |"@" + domain|] == username;
  }

  /** RCPT accepts exactly the addresses under the domain whose mailbox exists; while
      the store cannot be reached it accepts nothing. */
  lemma RcptExactly(db: Db, domain: string, to: string)
    ensures RcptSpec(db, domain, to) <==>
              && db.online
              && UsernameFor(to, domain).Some?
              && Present(db, AccountKey(UsernameFor(to, domain).value))
  {
  }

  // ---------------------------------------------------------------------------
  // Normalisation

  /** Normalisation fails exactly when a part body cannot be read; attachments are
      read first, so their failure is the one reported. */
  lemma NormalizeFailsExactly(m: Message, now: int)
    ensures NormalizeSpec(m, now).Success? <==>
              && (forall i :: 0 <= i < |m.attachments| ==> m.attachments[i].data.Read?)
              && (forall i :: 0 <= i < |m.embeddedFiles| ==> m.embeddedFiles[i].data.Read?)
    ensures (exists i :: 0 <= i < |m.attachments| && m.attachments[i].data.ReadFailed?) ==>
              NormalizeSpec(m, now) == Failure(ReadAttachmentFailed)
    ensures (forall i :: 0 <= i < |m.attachments| ==> m.attachments[i].data.Read?) &&
            (exists i :: 0 <= i < |m.embeddedFiles| && m.embeddedFiles[i].data.ReadFailed?) ==>
              NormalizeSpec(m, now) == Failure(ReadEmbeddedFileFailed)
  {
  }

  /** The headers of the stored mail: a missing date becomes `now`, a missing
      resent date stays unset, a missing sender stays empty; every address list
      keeps its length and order, except that `resentTo` holds the parsed list
      twice and `replyTo` is always empty. */
  lemma HeadersFields(m: Message, now: int)
    ensures var mm := Headers(m, now);
            && mm.subject == m.subject && mm.messageId == m.messageId
            && mm.inReplyTo == m.inReplyTo && mm.references == m.references
            && mm.resentMessageId == m.resentMessageId && mm.contentType == m.contentType
            && mm.htmlBody == m.htmlBody && mm.textBody == m.textBody
            && (m.date != ZeroTime ==> mm.date == m.date)
            && (m.date == ZeroTime ==> mm.date == now)
            && (mm.resentDate.Some? <==> m.resentDate != ZeroTime)
            && (mm.resentDate.Some? ==> mm.resentDate.value == m.resentDate)
            && (m.sender.None? ==> mm.sender == "")
            && (m.sender.Some? ==> mm.sender == AddressString(m.sender.value))
            && (m.resentSender.None? ==> mm.resentSender == "")
            && (m.resentSender.Some? ==> mm.resentSender == AddressString(m.resentSender.value))
            && mm.replyTo == []
            && |mm.from| == |m.from| && (forall i :: 0 <= i < |m.from| ==> mm.from[i] == AddressString(m.from[i]))
            && |mm.to| == |m.to| && (forall i :: 0 <= i < |m.to| ==> mm.to[i] == AddressString(m.to[i]))
            && |mm.cc| == |m.cc| && (forall i :: 0 <= i < |m.cc| ==> mm.cc[i] == AddressString(m.cc[i]))
            && |mm.bcc| == |m.bcc| && (forall i :: 0 <= i < |m.bcc| ==> mm.bcc[i] == AddressString(m.bcc[i]))
            && |mm.resentFrom| == |m.resentFrom|
            && (forall i :: 0 <= i < |m.resentFrom| ==> mm.resentFrom[i] == AddressString(m.resentFrom[i]))
            && |mm.resentCc| == |m.resentCc|
            && (forall i :: 0 <= i < |m.resentCc| ==> mm.resentCc[i] == AddressString(m.resentCc[i]))
            && |mm.resentBcc| == |m.resentBcc|
            && (forall i :: 0 <= i < |m.resentBcc| ==> mm.resentBcc[i] == AddressString(m.resentBcc[i]))
            && |mm.resentTo| == 2 * |m.resentTo|
            && (forall i :: 0 <= i < |m.resentTo| ==>
                  mm.resentTo[i] == AddressString(m.resentTo[i]) &&
                  mm.resentTo[|m.resentTo| + i] == AddressString(m.resentTo[i]))
  {
    RenderedInOrder(m.from);
    RenderedInOrder(m.to);
    RenderedInOrder(m.cc);
    RenderedInOrder(m.bcc);
    RenderedInOrder(m.resentFrom);
    RenderedInOrder(m.resentCc);
    RenderedInOrder(m.resentBcc);
    RenderedInOrder(m.resentTo);
  }
  /** A normalised mail is the header record `HeadersFields` describes with the
      parts read: none of its header fields depends on the parts. */
  lemma NormalizeHeaders(m: Message, now: int)
    requires NormalizeSpec(m, now).Success?
    ensures NormalizeSpec(m, now).value.(attachments := [], embeddedFiles := []) == Headers(m, now)
  {
  }


  /** Attachments and embedded files keep their number, order, names, content types
      and the full bytes read. */
  lemma NormalizeParts(m: Message, now: int)
    requires NormalizeSpec(m, now).Success?
    ensures var mm := NormalizeSpec(m, now).value;
            && |mm.attachments| == |m.attachments|
            && (forall i :: 0 <= i < |m.attachments| ==>
                  && mm.attachments[i].filename == m.attachments[i].filename
                  && mm.attachments[i].contentType == m.attachments[i].contentType
                  && Read(mm.attachments[i].data) == m.attachments[i].data)
            && |mm.embeddedFiles| == |m.embeddedFiles|
            && (forall i :: 0 <= i < |m.embeddedFiles| ==>
                  && mm.embeddedFiles[i].cid == m.embeddedFiles[i].cid
                  && mm.embeddedFiles[i].contentType == m.embeddedFiles[i].contentType
                  && Read(mm.embeddedFiles[i].data) == m.embeddedFiles[i].data)
  {
  }

  // ---------------------------------------------------------------------------
  // Delivery

  /** A parse failure or an unreadable part stops the handler before any
      delivery: it reports the error and the keyspace is unchanged. */
  lemma HandlerStoresNothingOnError(db: Db, domain: string, now: int, parsed: Option<Message>)
    requires parsed.None? || NormalizeSpec(parsed.value, now).Failure?
    ensures HandlerSpec(db, domain, now, parsed).0.Some?
    ensures HandlerSpec(db, domain, now, parsed).1 == db
  {
  }

  /** A message that normalises is always answered without error, whatever the
      deliveries return, and one without `To` recipients changes nothing. */
  lemma HandlerAnswersNil(db: Db, domain: string, now: int, m: Message)
    requires NormalizeSpec(m, now).Success?
    ensures HandlerSpec(db, domain, now, Some(m)).0 == None
    ensures |m.to| == 0 ==> HandlerSpec(db, domain, now, Some(m)).1 == db
  {
    RenderedInOrder(m.to);
  }

  /** The fan-out with the mail already encoded as `t`. */
  function PushAll(db: Db, addrs: seq<Address>, domain: string, t: string): Db
  {
    if addrs == [] then db
    else
      var db1 := PushAll(db, addrs[..|addrs| - 1], domain, t);
      match UsernameFor(addrs[|addrs| - 1].address, domain)
      case None => db1
      case Some(username) => PushEmailSpec(db1, username, t).1
  }

  lemma {:induction false} DeliverPushes(db: Db, addrs: seq<Address>, domain: string, mm: Email)
    ensures Deliver(db, addrs, domain, mm) == PushAll(db, addrs, domain, Codec.Encode(mm))
  {
    if addrs != [] {
      DeliverPushes(db, addrs[..|addrs| - 1], domain, mm);
    }
  }

  /** What the fan-out of text `t` to `addrs` did to the keyspace, `db` before and
      `db'` after: only existing mailboxes changed, each gaining one copy of `t`
      per recipient naming it, at its head. */
  ghost predicate Pushed(db: Db, db': Db, addrs: seq<Address>, domain: string, t: string)
  {
    && WellTyped(db') && db'.online
    && db'.strings == db.strings
    && db'.lists.Keys == db.lists.Keys
    && (forall k :: k in db.lists ==> db'.lists[k].expiry == db.lists[k].expiry)
    && (forall u :: AccountKey(u) in db.lists ==>
          db'.lists[AccountKey(u)].value == Copies(t, Count(addrs, domain, u)) + db.lists[AccountKey(u)].value)
  }

  /** The last recipient pushes to an existing mailbox, giving `db2`. */
  lemma PushedToExisting(db: Db, db1: Db, db2: Db, addrs: seq<Address>, domain: string, t: string, v: string)
    requires addrs != [] && UsernameFor(addrs[|addrs| - 1].address, domain) == Some(v)
    requires Pushed(db, db1, addrs[..|addrs| - 1], domain, t) && AccountKey(v) in db1.lists
    requires var vKey := AccountKey(v);
             db2 == db1.(lists := db1.lists[vKey := db1.lists[vKey].(value := [t] + db1.lists[vKey].value)])
    requires WellTyped(db2)
    ensures Pushed(db, db2, addrs, domain, t)
  {
    forall u | AccountKey(u) in db.lists
      ensures db2.lists[AccountKey(u)].value == Copies(t, Count(addrs, domain, u)) + db.lists[AccountKey(u)].value
    {
      PushedAt(db.lists, db1.lists, db2.lists, addrs, domain, t, v, u);
    }
  }

  /** The mailbox of `u` after the last recipient, `v`, got one more copy. */
  lemma PushedAt(l0: map<string, Entry<seq<string>>>, l1: map<string, Entry<seq<string>>>,
                 l2: map<string, Entry<seq<string>>>, addrs: seq<Address>, domain: string, t: string, v: string, u: string)
    requires addrs != [] && UsernameFor(addrs[|addrs| - 1].address, domain) == Some(v)
    requires AccountKey(u) in l0 && AccountKey(u) in l1 && AccountKey(v) in l1
    requires l1[AccountKey(u)].value == Copies(t, Count(addrs[..|addrs| - 1], domain, u)) + l0[AccountKey(u)].value
    requires l2 == l1[AccountKey(v) := l1[AccountKey(v)].(value := [t] + l1[AccountKey(v)].value)]
    ensures l2[AccountKey(u)].value == Copies(t, Count(addrs, domain, u)) + l0[AccountKey(u)].value
  {
    AccountKeyInjective(u, v);
    var c := Count(addrs[..|addrs| - 1], domain, u);
    if u == v {
      assert Count(addrs, domain, u) == c + 1;
      assert [t] + (Copies(t, c) + l0[AccountKey(u)].value) == Copies(t, c + 1) + l0[AccountKey(u)].value;
    } else {
      assert Count(addrs, domain, u) == c;
    }
  }

  lemma PushedToMissing(db: Db, db1: Db, addrs: seq<Address>, domain: string, t: string, v: string)
    requires addrs != [] && UsernameFor(addrs[|addrs| - 1].address, domain) == Some(v)
    requires Pushed(db, db1, addrs[..|addrs| - 1], domain, t) && AccountKey(v) !in db1.lists
    ensures Pushed(db, PushEmailSpec(db1, v, t).1, addrs, domain, t)
  {
    StorageLemmas.WellTypedParts(db1, "", v);
    assert PushEmailSpec(db1, v, t).1 == db1;
    forall u | AccountKey(u) in db.lists
      ensures Count(addrs, domain, u) == Count(addrs[..|addrs| - 1], domain, u)
    {
      AccountKeyInjective(u, v);
    }
  }

  /** The fan-out of a text, as `Pushed` describes. */
  lemma {:induction false} PushAllEffect(db: Db, addrs: seq<Address>, domain: string, t: string)
    requires WellTyped(db) && db.online
    ensures Pushed(db, PushAll(db, addrs, domain, t), addrs, domain, t)
  {
    if addrs != [] {
      var init, last := addrs[..|addrs| - 1], addrs[|addrs| - 1];
      PushAllEffect(db, init, domain, t);
      var db1 := PushAll(db, init, domain, t);
      match UsernameFor(last.address, domain)
      case None =>
        assert PushAll(db, addrs, domain, t) == db1;
        forall u | AccountKey(u) in db.lists ensures Count(addrs, domain, u) == Count(init, domain, u) { }
      case Some(v) =>
        if AccountKey(v) in db1.lists {
          StorageLemmas.PushEmailToExisting(db1, v, t);
          PushedToExisting(db, db1, PushEmailSpec(db1, v, t).1, addrs, domain, t, v);
        } else {
          PushedToMissing(db, db1, addrs, domain, t, v);
        }
    }
  }

  /** The fan-out: every existing mailbox gains one copy of the stored mail per
      recipient naming it, at its head; no other key, value or lifetime changes. */
  lemma DeliverEffect(db: Db, addrs: seq<Address>, domain: string, mm: Email)
    requires WellTyped(db) && db.online
    ensures var db' := Deliver(db, addrs, domain, mm);
            && WellTyped(db') && db'.online
            && db'.strings == db.strings
            && db'.lists.Keys == db.lists.Keys
            && (forall k :: k in db.lists ==> db'.lists[k].expiry == db.lists[k].expiry)
            && (forall u :: AccountKey(u) in db.lists ==>
                  db'.lists[AccountKey(u)].value
                    == Copies(Codec.Encode(mm), Count(addrs, domain, u)) + db.lists[AccountKey(u)].value)
  {
    DeliverPushes(db, addrs, domain, mm);
    PushAllEffect(db, addrs, domain, Codec.Encode(mm));
  }

  /** The handler's effect on a reachable store: the normalised mail lands once per
      matching recipient in every existing mailbox, and nowhere else. */
  lemma HandlerDelivers(db: Db, domain: string, now: int, m: Message)
    requires WellTyped(db) && db.online && NormalizeSpec(m, now).Success?
    ensures var mm := NormalizeSpec(m, now).value;
            var db' := HandlerSpec(db, domain, now, Some(m)).1;
            && db'.strings == db.strings
            && db'.lists.Keys == db.lists.Keys
            && (forall k :: k in db.lists ==> db'.lists[k].expiry == db.lists[k].expiry)
            && (forall u :: AccountKey(u) in db.lists ==>
                  db'.lists[AccountKey(u)].value
                    == Copies(Codec.Encode(mm), Count(m.to, domain, u)) + db.lists[AccountKey(u)].value)
  {
    var mm := NormalizeSpec(m, now).value;
    RenderedInOrder(m.to);
    DeliverEffect(db, m.to, domain, mm);
    if |m.to| == 0 {
      assert Deliver(db, m.to, domain, mm) == db;
    }
  }
}
