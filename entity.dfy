/** The records the mailbox service stores and returns (entity/entity.go), plus the
    small Option/Result wrappers the rest of the model uses.
    A Go `time.Time` is an `int` (0 stands for the zero time), a `*time.Time` an
    `Option<int>` and a `[]byte` a `seq<byte>`. */
module Entity {

  newtype byte = x: int | 0 <= x < 256

  datatype Option<+T> = None | Some(value: T) {
    predicate IsFailure() { None? }
    function PropagateFailure<U>(): Option<U>
      requires None?
    {
      None
    }
    function Extract(): T
      requires Some?
    {
      value
    }
  }

  datatype Result<+T, +E> = Success(value: T) | Failure(error: E)

  /** The zero value of `time.Time`, as recognised by `IsZero`. */
  const ZeroTime: int := 0

  datatype Attachment = Attachment(filename: string, contentType: string, data: seq<byte>)

  datatype EmbeddedFile = EmbeddedFile(cid: string, contentType: string, data: seq<byte>)

  datatype Email = Email(
    subject: string,
    sender: string,
    from: seq<string>,
    replyTo: seq<string>,
    to: seq<string>,
    cc: seq<string>,
    bcc: seq<string>,
    date: int,
    messageId: string,
    inReplyTo: seq<string>,
    references: seq<string>,
    resentFrom: seq<string>,
    resentSender: string,
    resentTo: seq<string>,
    resentDate: Option<int>,
    resentCc: seq<string>,
    resentBcc: seq<string>,
    resentMessageId: string,
    contentType: string,
    htmlBody: string,
    textBody: string,
    attachments: seq<Attachment>,
    embeddedFiles: seq<EmbeddedFile>)

  /** What `Account` hands back: the mailbox name, its remaining lifetime in
      milliseconds and its messages, newest first. */
  datatype Account = Account(username: string, ttl: int, emails: seq<Email>)
}
