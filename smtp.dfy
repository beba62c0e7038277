/** Mail ingestion (smtp_server.go): the RCPT check, which accepts only addresses
    of an existing mailbox under the served domain, and the delivery handler,
    which turns a parsed message into an `Email` and prepends it to the mailbox
    of every `To` recipient under the domain.

    MIME parsing is not part of this model: the handler receives its outcome, a
    `Message` or nothing. Reading an attachment's body is given the same way, as
    the bytes read or a failure. The clock is the parameter `now`. The
    per-recipient goroutines run here one after the other, which deliveries to
    distinct mailboxes permit (`StorageLemmas.AddEmailsCommute`). */
module Smtp {
  import opened Entity
  import opened Keyspace
  import Codec
  import opened Storage
  import StorageLemmas

  /** A parsed mail address (`mail.Address`). */
  datatype Address = Address(name: string, address: string)

  /** The outcome of reading a part's body to the end. */
  datatype Body = Read(bytes: seq<byte>) | ReadFailed

  datatype AttachmentPart = AttachmentPart(filename: string, contentType: string, data: Body)

  datatype EmbeddedPart = EmbeddedPart(cid: string, contentType: string, data: Body)

  /** What the MIME parser hands the handler. `date` and `resentDate` are
      `ZeroTime` when the header is missing. */
  datatype Message = Message(
    subject: string,
    sender: Option<Address>,
    from: seq<Address>,
    replyTo: seq<Address>,
    to: seq<Address>,
    cc: seq<Address>,
    bcc: seq<Address>,
    date: int,
    messageId: string,
    inReplyTo: seq<string>,
    references: seq<string>,
    resentFrom: seq<Address>,
    resentSender: Option<Address>,
    resentTo: seq<Address>,
    resentDate: int,
    resentCc: seq<Address>,
    resentBcc: seq<Address>,
    resentMessageId: string,
    contentType: string,
    htmlBody: string,
    textBody: string,
    attachments: seq<AttachmentPart>,
    embeddedFiles: seq<EmbeddedPart>)

  datatype HandlerError = ParseFailed | ReadAttachmentFailed | ReadEmbeddedFileFailed

  /** `Address.String()`: the address in angle brackets, after the name if there
      is one. The quoting of the name and of the local part is not modelled. */
  function AddressString(a: Address): string
  {
    if a.name == "" then "<" + a.address + ">" else a.name + " <" + a.address + ">"
  }

  /** The rendered addresses, in order. */
  function Rendered(addrs: seq<Address>): seq<string>
  {
    if addrs == [] then [] else Rendered(addrs[..|addrs| - 1]) + [AddressString(addrs[|addrs| - 1])]
  }

  /** Rendering keeps the length and the order of the list. */
  lemma {:induction false} RenderedInOrder(addrs: seq<Address>)
    ensures |Rendered(addrs)| == |addrs|
    ensures forall i :: 0 <= i < |addrs| ==> Rendered(addrs)[i] == AddressString(addrs[i])
  {
    if addrs != [] {
      RenderedInOrder(addrs[..|addrs| - 1]);
    }
  }

  /** The attachments with their bodies, if every body could be read. */
  function ReadAttachments(parts: seq<AttachmentPart>): (r: Option<seq<Attachment>>)
    ensures r.Some? <==> forall i :: 0 <= i < |parts| ==> parts[i].data.Read?
    ensures r.Some? ==>
      && |r.value| == |parts|
      && forall i :: 0 <= i < |parts| ==>
           r.value[i] == Attachment(parts[i].filename, parts[i].contentType, parts[i].data.bytes)
  {
    if parts == [] then Some([])
    else
      var last := parts[|parts| - 1];
      match ReadAttachments(parts[..|parts| - 1])
      case None => None
      case Some(init) =>
        match last.data
        case ReadFailed => None
        case Read(bytes) => Some(init + [Attachment(last.filename, last.contentType, bytes)])
  }

  /** The embedded files with their bodies, if every body could be read. */
  function ReadEmbeddedFiles(parts: seq<EmbeddedPart>): (r: Option<seq<EmbeddedFile>>)
    ensures r.Some? <==> forall i :: 0 <= i < |parts| ==> parts[i].data.Read?
    ensures r.Some? ==>
      && |r.value| == |parts|
      && forall i :: 0 <= i < |parts| ==>
           r.value[i] == EmbeddedFile(parts[i].cid, parts[i].contentType, parts[i].data.bytes)
  {
    if parts == [] then Some([])
    else
      var last := parts[|parts| - 1];
      match ReadEmbeddedFiles(parts[..|parts| - 1])
      case None => None
      case Some(init) =>
        match last.data
        case ReadFailed => None
        case Read(bytes) => Some(init + [EmbeddedFile(last.cid, last.contentType, bytes)])
  }

  /** The header fields of the stored form of a parsed message, before its parts
      are read. */
  function Headers(m: Message, now: int): Email
  {
    Email(
      subject := m.subject,
      sender := if m.sender.Some? then AddressString(m.sender.value) else "",
      from := Rendered(m.from),
      replyTo := [],
      to := Rendered(m.to),
      cc := Rendered(m.cc),
      bcc := Rendered(m.bcc),
      date := if m.date == ZeroTime then now else m.date,
      messageId := m.messageId,
      inReplyTo := m.inReplyTo,
      references := m.references,
      resentFrom := Rendered(m.resentFrom),
      resentSender := if m.resentSender.Some? then AddressString(m.resentSender.value) else "",
      resentTo := Rendered(m.resentTo) + Rendered(m.resentTo),
      resentDate := if m.resentDate == ZeroTime then None else Some(m.resentDate),
      resentCc := Rendered(m.resentCc),
      resentBcc := Rendered(m.resentBcc),
      resentMessageId := m.resentMessageId,
      contentType := m.contentType,
      htmlBody := m.htmlBody,
      textBody := m.textBody,
      attachments := [],
      embeddedFiles := [])
  }

  /** The stored form of a parsed message, or the body that could not be read. */
  function NormalizeSpec(m: Message, now: int): Result<Email, HandlerError>
  {
    var attachments := ReadAttachments(m.attachments);
    var embeddedFiles := ReadEmbeddedFiles(m.embeddedFiles);
    if attachments.None? then Failure(ReadAttachmentFailed)
    else if embeddedFiles.None? then Failure(ReadEmbeddedFileFailed)
    else Success(Headers(m, now).(attachments := attachments.value, embeddedFiles := embeddedFiles.value))
  }

  /** `strings.TrimSuffix`. */
  function TrimSuffix(s: string, suffix: string): string
  {
    if |suffix| <= |s| && s[|s| - |suffix|..] == suffix then s[..|s| - |suffix|] else s
  }

  /** The mailbox an address under `domain` names: the address with `"@" + domain`
      trimmed, or nothing when trimming changed nothing. */
  function UsernameFor(address: string, domain: string): Option<string>
  {
    var username := TrimSuffix(address, "@" + domain);
    if |username| == |address| then None else Some(username)
  }

  /** The number of recipients whose address names the mailbox `username`. */
  function Count(addrs: seq<Address>, domain: string, username: string): nat
  {
    if addrs == [] then 0
    else Count(addrs[..|addrs| - 1], domain, username)
         + if UsernameFor(addrs[|addrs| - 1].address, domain) == Some(username) then 1 else 0
  }

  /** The keyspace after the fan-out: `AddEmail(username, mm)` for every recipient
      under the domain, in order, whatever each call returns. */
  function Deliver(db: Db, addrs: seq<Address>, domain: string, mm: Email): Db
  {
    if addrs == [] then db
    else
      var db1 := Deliver(db, addrs[..|addrs| - 1], domain, mm);
      match UsernameFor(addrs[|addrs| - 1].address, domain)
      case None => db1
      case Some(username) => AddEmailSpec(db1, username, mm).1
  }

  /** One more recipient: its mailbox, if it names one, gets the mail. */
  lemma DeliverNext(db: Db, addrs: seq<Address>, i: nat, domain: string, mm: Email)
    requires i < |addrs|
    ensures Deliver(db, addrs[..i + 1], domain, mm)
            == match UsernameFor(addrs[i].address, domain)
               case None => Deliver(db, addrs[..i], domain, mm)
               case Some(username) => AddEmailSpec(Deliver(db, addrs[..i], domain, mm), username, mm).1
  {
    assert addrs[..i + 1][..i] == addrs[..i];
  }

  /** The handler as a function of the parse outcome and the keyspace. */
  function HandlerSpec(db: Db, domain: string, now: int, parsed: Option<Message>): (Option<HandlerError>, Db)
  {
    match parsed
    case None => (Some(ParseFailed), db)
    case Some(m) =>
      match NormalizeSpec(m, now)
      case Failure(e) => (Some(e), db)
      case Success(mm) =>
        if |mm.to| == 0 then (None, db) else (None, Deliver(db, m.to, domain, mm))
  }

  /** The RCPT check as a function of the keyspace. */
  function RcptSpec(db: Db, domain: string, to: string): bool
  {
    match UsernameFor(to, domain)
    case None => false
    case Some(username) =>
      var (found, err) := AccountExistsSpec(db, username);
      if err.Some? then false else found
  }

  // ---------------------------------------------------------------------------
  // The handlers

  /** One of the handler's append loops: `acc` followed by the rendered `addrs`. */
  method AppendRendered(acc: seq<string>, addrs: seq<Address>) returns (r: seq<string>)
    ensures r == acc + Rendered(addrs)
  {
    r := acc;
    var i := 0;
    while i < |addrs|
      invariant 0 <= i <= |addrs|
      invariant r == acc + Rendered(addrs[..i])
    {
      assert addrs[..i + 1][..i] == addrs[..i];
      r := r + [AddressString(addrs[i])];
      i := i + 1;
    }
    assert addrs[..i] == addrs;
  }

  /** The handler's field assignments and address loops. Each list starts empty
      and is appended to; `resentTo` is appended to by two loops. */
  method CopyHeaders(m: Message, now: int) returns (mm: Email)
    ensures mm == Headers(m, now)
  {
    var date := if m.date == ZeroTime then now else m.date;
    var sender := if m.sender.Some? then AddressString(m.sender.value) else "";
    var resentSender := if m.resentSender.Some? then AddressString(m.resentSender.value) else "";
    var from := AppendRendered([], m.from);
    assert from == Rendered(m.from);
    var resentTo := AppendRendered([], m.resentTo);
    assert resentTo == Rendered(m.resentTo);
    var resentDate: Option<int> := if m.resentDate != ZeroTime then Some(m.resentDate) else None;
    var to := AppendRendered([], m.to);
    assert to == Rendered(m.to);
    var cc := AppendRendered([], m.cc);
    assert cc == Rendered(m.cc);
    var bcc := AppendRendered([], m.bcc);
    assert bcc == Rendered(m.bcc);
    var resentFrom := AppendRendered([], m.resentFrom);
    assert resentFrom == Rendered(m.resentFrom);
    resentTo := AppendRendered(resentTo, m.resentTo);
    var resentCc := AppendRendered([], m.resentCc);
    assert resentCc == Rendered(m.resentCc);
    var resentBcc := AppendRendered([], m.resentBcc);
    assert resentBcc == Rendered(m.resentBcc);
    mm := Email(m.subject, sender, from, [], to, cc, bcc, date, m.messageId, m.inReplyTo, m.references,
                resentFrom, resentSender, resentTo, resentDate, resentCc, resentBcc, m.resentMessageId,
                m.contentType, m.htmlBody, m.textBody, [], []);
  }

  /** The attachment loop: each body read in turn, stopping at the first failure. */
  method ReadAttachmentBodies(parts: seq<AttachmentPart>) returns (r: Option<seq<Attachment>>)
    ensures r == ReadAttachments(parts)
  {
    var attachments: seq<Attachment> := [];
    var i := 0;
    while i < |parts|
      invariant 0 <= i <= |parts|
      invariant ReadAttachments(parts[..i]) == Some(attachments)
    {
      var a := parts[i];
      assert parts[..i + 1][..i] == parts[..i];
      match a.data
      case ReadFailed =>
        assert !parts[i].data.Read?;
        return None;
      case Read(data) =>
        attachments := attachments + [Attachment(a.filename, a.contentType, data)];
      i := i + 1;
    }
    assert parts[..i] == parts;
    return Some(attachments);
  }

  /** The embedded-file loop, in the same way. */
  method ReadEmbeddedBodies(parts: seq<EmbeddedPart>) returns (r: Option<seq<EmbeddedFile>>)
    ensures r == ReadEmbeddedFiles(parts)
  {
    var embeddedFiles: seq<EmbeddedFile> := [];
    var i := 0;
    while i < |parts|
      invariant 0 <= i <= |parts|
      invariant ReadEmbeddedFiles(parts[..i]) == Some(embeddedFiles)
    {
      var f := parts[i];
      assert parts[..i + 1][..i] == parts[..i];
      match f.data
      case ReadFailed =>
        assert !parts[i].data.Read?;
        return None;
      case Read(data) =>
        embeddedFiles := embeddedFiles + [EmbeddedFile(f.cid, f.contentType, data)];
      i := i + 1;
    }
    assert parts[..i] == parts;
    return Some(embeddedFiles);
  }

  /** The handler's first half: the headers copied, then the part bodies read. */
  method Normalize(m: Message, now: int) returns (r: Result<Email, HandlerError>)
    ensures r == NormalizeSpec(m, now)
  {
    var mm := CopyHeaders(m, now);
    var attachments := ReadAttachmentBodies(m.attachments);
    if attachments.None? { return Failure(ReadAttachmentFailed); }
    var embeddedFiles := ReadEmbeddedBodies(m.embeddedFiles);
    if embeddedFiles.None? { return Failure(ReadEmbeddedFileFailed); }
    return Success(mm.(attachments := attachments.value, embeddedFiles := embeddedFiles.value));
  }

  /** The DATA handler. The store is the server's; `now` stands for the clock. */
  method Handler(store: Storage, domain: string, now: int, parsed: Option<Message>)
    returns (err: Option<HandlerError>)
    requires store.redis.Valid()
    modifies store.redis
    ensures store.redis.Valid()
    ensures (err, store.redis.Db()) == HandlerSpec(old(store.redis.Db()), domain, now, parsed)
  {
    if parsed.None? { return Some(ParseFailed); }
    var m := parsed.value;
    var normalized := Normalize(m, now);
    if normalized.Failure? { return Some(normalized.error); }
    var mm := normalized.value;
    if |mm.to| == 0 { return None; }
    FanOut(store, m.to, domain, mm);
    return None;
  }

  /** The fan-out of `Handler`: the mail is added to the mailbox of every
      recipient under the domain, one after the other. The outcome of each
      `AddEmail` is only logged. */
  method FanOut(store: Storage, addrs: seq<Address>, domain: string, mm: Email)
    requires store.redis.Valid()
    modifies store.redis
    ensures store.redis.Valid()
    ensures store.redis.Db() == Deliver(old(store.redis.Db()), addrs, domain, mm)
  {
    ghost var db0 := store.redis.Db();
    var i := 0;
    while i < |addrs|
      invariant 0 <= i <= |addrs|
      invariant store.redis.Valid()
      invariant store.redis.Db() == Deliver(db0, addrs[..i], domain, mm)
    {
      DeliverNext(db0, addrs, i, domain, mm);
      var username := UsernameFor(addrs[i].address, domain);
      if username.Some? {
        var _ := store.AddEmail(username.value, mm);
      }
      i := i + 1;
    }
    assert addrs[..i] == addrs;
  }

  /** The RCPT handler: accept a recipient only if it names an existing mailbox
      under the domain; a storage error rejects it. */
  method HandlerRcpt(store: Storage, domain: string, to: string) returns (ok: bool)
    requires store.redis.Valid()
    ensures ok == RcptSpec(store.redis.Db(), domain, to)
  {
    var username := UsernameFor(to, domain);
    if username.None? { return false; }
    var exist, err := store.AccountExists(username.value);
    if err.Some? { return false; }
    return exist;
  }
}
