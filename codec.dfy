/** The stored form of an `Email`. The service stores each mail as its JSON text
    (`json.Marshal` when it is added, `json.Unmarshal` when the mailbox is read);
    all the service relies on is that decoding gives back exactly the mail that
    was encoded. This module stands in for that pair with a self-delimiting text
    encoding of every field and proves the round trip; it makes no claim about the
    JSON text itself. */
module Codec {
  import opened Entity

  /** `n` written in unary: `n` marks followed by a terminator. */
  function EncodeNat(n: nat): string
  {
    if n == 0 then "." else "#" + EncodeNat(n - 1)
  }

  function DecodeNat(s: string): Option<(nat, string)>
  {
    if |s| == 0 then None
    else if s[0] == '.' then Some((0, s[1..]))
    else if s[0] == '#' then
      match DecodeNat(s[1..])
      case None => None
      case Some((n, rest)) => Some((n + 1, rest))
    else None
  }

  lemma {:induction false} NatRoundTrip(n: nat, rest: string)
    ensures DecodeNat(EncodeNat(n) + rest) == Some((n, rest))
  {
    var s := EncodeNat(n) + rest;
    if n == 0 {
      assert s[0] == '.' && s[1..] == rest;
    } else {
      NatRoundTrip(n - 1, rest);
      assert s[0] == '#' && s[1..] == EncodeNat(n - 1) + rest;
    }
  }

  /** A string: its length, then its characters. */
  function EncodeText(s: string): string
  {
    EncodeNat(|s|) + s
  }

  function DecodeText(s: string): Option<(string, string)>
  {
    match DecodeNat(s)
    case None => None
    case Some((n, rest)) => if n <= |rest| then Some((rest[..n], rest[n..])) else None
  }

  lemma TextRoundTrip(s: string, rest: string)
    ensures DecodeText(EncodeText(s) + rest) == Some((s, rest))
  {
    NatRoundTrip(|s|, s + rest);
    assert EncodeText(s) + rest == EncodeNat(|s|) + (s + rest);
    assert (s + rest)[..|s|] == s && (s + rest)[|s|..] == rest;
  }

  /** An integer: its sign, then its magnitude. */
  function EncodeInt(i: int): string
  {
    if i >= 0 then "+" + EncodeNat(i) else "-" + EncodeNat(-i)
  }

  function DecodeInt(s: string): Option<(int, string)>
  {
    if |s| == 0 then None
    else if s[0] == '+' then
      match DecodeNat(s[1..])
      case None => None
      case Some((n, rest)) => Some((n, rest))
    else if s[0] == '-' then
      match DecodeNat(s[1..])
      case None => None
      case Some((n, rest)) => if n == 0 then None else Some((-(n as int), rest))
    else None
  }

  lemma IntRoundTrip(i: int, rest: string)
    ensures DecodeInt(EncodeInt(i) + rest) == Some((i, rest))
  {
    var m: nat := if i >= 0 then i else -i;
    var sign := if i >= 0 then "+" else "-";
    NatRoundTrip(m, rest);
    assert EncodeInt(i) + rest == sign + (EncodeNat(m) + rest);
  }

  /** An optional time: a presence mark, then the time. */
  function EncodeTime(t: Option<int>): string
  {
    match t
    case None => "0"
    case Some(i) => "1" + EncodeInt(i)
  }

  function DecodeTime(s: string): Option<(Option<int>, string)>
  {
    if |s| == 0 then None
    else if s[0] == '0' then Some((None, s[1..]))
    else if s[0] == '1' then
      match DecodeInt(s[1..])
      case None => None
      case Some((i, rest)) => Some((Some(i), rest))
    else None
  }

  lemma TimeRoundTrip(t: Option<int>, rest: string)
    ensures DecodeTime(EncodeTime(t) + rest) == Some((t, rest))
  {
    match t
    case None =>
      assert (EncodeTime(t) + rest)[1..] == rest;
    case Some(i) =>
      IntRoundTrip(i, rest);
      assert (EncodeTime(t) + rest)[1..] == EncodeInt(i) + rest;
  }

  /** Raw bytes: each byte as the character with the same code. */
  function BytesToText(bs: seq<byte>): (s: string)
    ensures |s| == |bs|
  {
    seq(|bs|, i requires 0 <= i < |bs| => (bs[i] as int) as char)
  }

  function TextToBytes(s: string): Option<seq<byte>>
  {
    if forall i :: 0 <= i < |s| ==> (s[i] as int) < 256 then
      Some(seq(|s|, i requires 0 <= i < |s| && (s[i] as int) < 256 => (s[i] as int) as byte))
    else None
  }

  lemma BytesRoundTrip(bs: seq<byte>)
    ensures TextToBytes(BytesToText(bs)) == Some(bs)
  {
    var s := BytesToText(bs);
    assert forall i :: 0 <= i < |s| ==> (s[i] as int) == bs[i] as int;
    assert TextToBytes(s).value == bs;
  }

  function EncodeBytes(bs: seq<byte>): string
  {
    EncodeText(BytesToText(bs))
  }

  function DecodeBytes(s: string): Option<(seq<byte>, string)>
  {
    match DecodeText(s)
    case None => None
    case Some((t, rest)) =>
      match TextToBytes(t)
      case None => None
      case Some(bs) => Some((bs, rest))
  }

  lemma BytesTextRoundTrip(bs: seq<byte>, rest: string)
    ensures DecodeBytes(EncodeBytes(bs) + rest) == Some((bs, rest))
  {
    TextRoundTrip(BytesToText(bs), rest);
    BytesRoundTrip(bs);
  }

  /** A list: its length, then each element in order. */
  function EncodeItems<T>(xs: seq<T>, enc: T -> string): string
  {
    if xs == [] then "" else enc(xs[0]) + EncodeItems(xs[1..], enc)
  }

  function DecodeItems<T>(n: nat, s: string, dec: string -> Option<(T, string)>): Option<(seq<T>, string)>
  {
    if n == 0 then Some(([], s))
    else
      var head := dec(s);
      if head.None? then None
      else
        var tail := DecodeItems(n - 1, head.value.1, dec);
        if tail.None? then None
        else Some(([head.value.0] + tail.value.0, tail.value.1))
  }

  function EncodeList<T>(xs: seq<T>, enc: T -> string): string
  {
    EncodeNat(|xs|) + EncodeItems(xs, enc)
  }

  function DecodeList<T>(s: string, dec: string -> Option<(T, string)>): Option<(seq<T>, string)>
  {
    match DecodeNat(s)
    case None => None
    case Some((n, rest)) => DecodeItems(n, rest, dec)
  }

  ghost predicate Inverse<T(!new)>(enc: T -> string, dec: string -> Option<(T, string)>)
  {
    forall x, rest :: dec(enc(x) + rest) == Some((x, rest))
  }

  lemma {:induction false} ItemsRoundTrip<T(!new)>(xs: seq<T>, enc: T -> string, dec: string -> Option<(T, string)>, rest: string)
    requires Inverse(enc, dec)
    ensures DecodeItems(|xs|, EncodeItems(xs, enc) + rest, dec) == Some((xs, rest))
  {
    if xs != [] {
      var tail := EncodeItems(xs[1..], enc) + rest;
      ItemsRoundTrip(xs[1..], enc, dec, rest);
      assert EncodeItems(xs, enc) + rest == enc(xs[0]) + tail;
      assert dec(enc(xs[0]) + tail) == Some((xs[0], tail));
      assert DecodeItems(|xs| - 1, tail, dec) == Some((xs[1..], rest));
      assert [xs[0]] + xs[1..] == xs;
    } else {
      assert EncodeItems(xs, enc) + rest == rest;
    }
  }

  lemma ListRoundTrip<T(!new)>(xs: seq<T>, enc: T -> string, dec: string -> Option<(T, string)>, rest: string)
    requires Inverse(enc, dec)
    ensures DecodeList(EncodeList(xs, enc) + rest, dec) == Some((xs, rest))
  {
    ItemsRoundTrip(xs, enc, dec, rest);
    NatRoundTrip(|xs|, EncodeItems(xs, enc) + rest);
    assert EncodeList(xs, enc) + rest == EncodeNat(|xs|) + (EncodeItems(xs, enc) + rest);
  }

  function EncodeTexts(xs: seq<string>): string
  {
    EncodeList(xs, EncodeText)
  }

  function DecodeTexts(s: string): Option<(seq<string>, string)>
  {
    DecodeList(s, DecodeText)
  }

  lemma TextsRoundTrip(xs: seq<string>, rest: string)
    ensures DecodeTexts(EncodeTexts(xs) + rest) == Some((xs, rest))
  {
    forall x, r ensures DecodeText(EncodeText(x) + r) == Some((x, r)) {
      TextRoundTrip(x, r);
    }
    ListRoundTrip(xs, EncodeText, DecodeText, rest);
  }

  /** An attachment or embedded file: its three parts as a list of texts. */
  function EncodeAttachment(a: Attachment): string
  {
    EncodeTexts([a.filename, a.contentType, BytesToText(a.data)])
  }

  function DecodeAttachment(s: string): Option<(Attachment, string)>
  {
    var (parts, rest) :- DecodeTexts(s);
    if |parts| != 3 then None
    else
      var data :- TextToBytes(parts[2]);
      Some((Attachment(parts[0], parts[1], data), rest))
  }

  lemma AttachmentsInverse()
    ensures Inverse(EncodeAttachment, DecodeAttachment)
  {
    forall a: Attachment, rest ensures DecodeAttachment(EncodeAttachment(a) + rest) == Some((a, rest)) {
      TextsRoundTrip([a.filename, a.contentType, BytesToText(a.data)], rest);
      BytesRoundTrip(a.data);
    }
  }

  function EncodeEmbeddedFile(f: EmbeddedFile): string
  {
    EncodeTexts([f.cid, f.contentType, BytesToText(f.data)])
  }

  function DecodeEmbeddedFile(s: string): Option<(EmbeddedFile, string)>
  {
    var (parts, rest) :- DecodeTexts(s);
    if |parts| != 3 then None
    else
      var data :- TextToBytes(parts[2]);
      Some((EmbeddedFile(parts[0], parts[1], data), rest))
  }

  lemma EmbeddedFilesInverse()
    ensures Inverse(EncodeEmbeddedFile, DecodeEmbeddedFile)
  {
    forall f: EmbeddedFile, rest ensures DecodeEmbeddedFile(EncodeEmbeddedFile(f) + rest) == Some((f, rest)) {
      TextsRoundTrip([f.cid, f.contentType, BytesToText(f.data)], rest);
      BytesRoundTrip(f.data);
    }
  }

  /** The value decoded from the whole of a text, nothing left over. */
  function Whole<T>(r: Option<(T, string)>): Option<T>
  {
    if r.Some? && r.value.1 == "" then Some(r.value.0) else None
  }

  /** The encodings of a mail's fields, in declaration order, in four groups:
      the envelope, the thread, the resent headers and the content. */
  function EnvelopeFields(e: Email): seq<string>
  {
    [EncodeText(e.subject), EncodeText(e.sender), EncodeTexts(e.from), EncodeTexts(e.replyTo),
     EncodeTexts(e.to), EncodeTexts(e.cc), EncodeTexts(e.bcc)]
  }

  function ThreadFields(e: Email): seq<string>
  {
    [EncodeInt(e.date), EncodeText(e.messageId), EncodeTexts(e.inReplyTo), EncodeTexts(e.references)]
  }

  function ResentFields(e: Email): seq<string>
  {
    [EncodeTexts(e.resentFrom), EncodeText(e.resentSender), EncodeTexts(e.resentTo),
     EncodeTime(e.resentDate), EncodeTexts(e.resentCc), EncodeTexts(e.resentBcc),
     EncodeText(e.resentMessageId)]
  }

  function ContentFields(e: Email): seq<string>
  {
    [EncodeText(e.contentType), EncodeText(e.htmlBody), EncodeText(e.textBody),
     EncodeList(e.attachments, EncodeAttachment), EncodeList(e.embeddedFiles, EncodeEmbeddedFile)]
  }

  /** The stored text of a mail (`json.Marshal` in the service). */
  function Encode(e: Email): string
  {
    EncodeTexts([EncodeTexts(EnvelopeFields(e)), EncodeTexts(ThreadFields(e)),
                 EncodeTexts(ResentFields(e)), EncodeTexts(ContentFields(e))])
  }

  function DecodeEnvelope(s: string): Option<(string, string, seq<string>, seq<string>, seq<string>, seq<string>, seq<string>)>
  {
    var f :- Whole(DecodeTexts(s));
    if |f| != 7 then None
    else
      var subject :- Whole(DecodeText(f[0]));
      var sender :- Whole(DecodeText(f[1]));
      var from :- Whole(DecodeTexts(f[2]));
      var replyTo :- Whole(DecodeTexts(f[3]));
      var to :- Whole(DecodeTexts(f[4]));
      var cc :- Whole(DecodeTexts(f[5]));
      var bcc :- Whole(DecodeTexts(f[6]));
      Some((subject, sender, from, replyTo, to, cc, bcc))
  }

  function DecodeThread(s: string): Option<(int, string, seq<string>, seq<string>)>
  {
    var f :- Whole(DecodeTexts(s));
    if |f| != 4 then None
    else
      var date :- Whole(DecodeInt(f[0]));
      var messageId :- Whole(DecodeText(f[1]));
      var inReplyTo :- Whole(DecodeTexts(f[2]));
      var references :- Whole(DecodeTexts(f[3]));
      Some((date, messageId, inReplyTo, references))
  }

  function DecodeResent(s: string): Option<(seq<string>, string, seq<string>, Option<int>, seq<string>, seq<string>, string)>
  {
    var f :- Whole(DecodeTexts(s));
    if |f| != 7 then None
    else
      var resentFrom :- Whole(DecodeTexts(f[0]));
      var resentSender :- Whole(DecodeText(f[1]));
      var resentTo :- Whole(DecodeTexts(f[2]));
      var resentDate :- Whole(DecodeTime(f[3]));
      var resentCc :- Whole(DecodeTexts(f[4]));
      var resentBcc :- Whole(DecodeTexts(f[5]));
      var resentMessageId :- Whole(DecodeText(f[6]));
      Some((resentFrom, resentSender, resentTo, resentDate, resentCc, resentBcc, resentMessageId))
  }

  function DecodeContent(s: string): Option<(string, string, string, seq<Attachment>, seq<EmbeddedFile>)>
  {
    var f :- Whole(DecodeTexts(s));
    if |f| != 5 then None
    else
      var contentType :- Whole(DecodeText(f[0]));
      var htmlBody :- Whole(DecodeText(f[1]));
      var textBody :- Whole(DecodeText(f[2]));
      var attachments :- Whole(DecodeList(f[3], DecodeAttachment));
      var embeddedFiles :- Whole(DecodeList(f[4], DecodeEmbeddedFile));
      Some((contentType, htmlBody, textBody, attachments, embeddedFiles))
  }

  /** The mail a stored text holds, if it holds one (`json.Unmarshal`). */
  function Decode(s: string): Option<Email>
  {
    var g :- Whole(DecodeTexts(s));
    if |g| != 4 then None
    else
      var (subject, sender, from, replyTo, to, cc, bcc) :- DecodeEnvelope(g[0]);
      var (date, messageId, inReplyTo, references) :- DecodeThread(g[1]);
      var (resentFrom, resentSender, resentTo, resentDate, resentCc, resentBcc, resentMessageId) :- DecodeResent(g[2]);
      var (contentType, htmlBody, textBody, attachments, embeddedFiles) :- DecodeContent(g[3]);
      Some(Email(subject, sender, from, replyTo, to, cc, bcc, date, messageId, inReplyTo, references,
                 resentFrom, resentSender, resentTo, resentDate, resentCc, resentBcc, resentMessageId,
                 contentType, htmlBody, textBody, attachments, embeddedFiles))
  }

  lemma TextWhole(x: string)
    ensures Whole(DecodeText(EncodeText(x))) == Some(x)
  {
    TextRoundTrip(x, "");
    assert EncodeText(x) + "" == EncodeText(x);
  }

  lemma TextsWhole(xs: seq<string>)
    ensures Whole(DecodeTexts(EncodeTexts(xs))) == Some(xs)
  {
    TextsRoundTrip(xs, "");
    assert EncodeTexts(xs) + "" == EncodeTexts(xs);
  }

  lemma OtherFieldsWhole(e: Email)
    ensures Whole(DecodeInt(EncodeInt(e.date))) == Some(e.date)
    ensures Whole(DecodeTime(EncodeTime(e.resentDate))) == Some(e.resentDate)
    ensures Whole(DecodeList(EncodeList(e.attachments, EncodeAttachment), DecodeAttachment)) == Some(e.attachments)
    ensures Whole(DecodeList(EncodeList(e.embeddedFiles, EncodeEmbeddedFile), DecodeEmbeddedFile)) == Some(e.embeddedFiles)
  {
    IntRoundTrip(e.date, "");
    assert EncodeInt(e.date) + "" == EncodeInt(e.date);
    TimeRoundTrip(e.resentDate, "");
    assert EncodeTime(e.resentDate) + "" == EncodeTime(e.resentDate);
    AttachmentsInverse();
    ListRoundTrip(e.attachments, EncodeAttachment, DecodeAttachment, "");
    assert EncodeList(e.attachments, EncodeAttachment) + "" == EncodeList(e.attachments, EncodeAttachment);
    EmbeddedFilesInverse();
    ListRoundTrip(e.embeddedFiles, EncodeEmbeddedFile, DecodeEmbeddedFile, "");
    assert EncodeList(e.embeddedFiles, EncodeEmbeddedFile) + "" == EncodeList(e.embeddedFiles, EncodeEmbeddedFile);
  }

  lemma EnvelopeRoundTrip(e: Email)
    ensures DecodeEnvelope(EncodeTexts(EnvelopeFields(e))) == Some((e.subject, e.sender, e.from, e.replyTo, e.to, e.cc, e.bcc))
  {
    TextsWhole(EnvelopeFields(e));
    TextWhole(e.subject); TextWhole(e.sender);
    TextsWhole(e.from); TextsWhole(e.replyTo); TextsWhole(e.to); TextsWhole(e.cc); TextsWhole(e.bcc);
  }

  lemma ThreadRoundTrip(e: Email)
    ensures DecodeThread(EncodeTexts(ThreadFields(e))) == Some((e.date, e.messageId, e.inReplyTo, e.references))
  {
    TextsWhole(ThreadFields(e));
    OtherFieldsWhole(e);
    TextWhole(e.messageId); TextsWhole(e.inReplyTo); TextsWhole(e.references);
  }

  lemma ResentRoundTrip(e: Email)
    ensures DecodeResent(EncodeTexts(ResentFields(e)))
            == Some((e.resentFrom, e.resentSender, e.resentTo, e.resentDate, e.resentCc, e.resentBcc, e.resentMessageId))
  {
    TextsWhole(ResentFields(e));
    OtherFieldsWhole(e);
    TextsWhole(e.resentFrom); TextWhole(e.resentSender); TextsWhole(e.resentTo);
    TextsWhole(e.resentCc); TextsWhole(e.resentBcc); TextWhole(e.resentMessageId);
  }

  lemma ContentRoundTrip(e: Email)
    ensures DecodeContent(EncodeTexts(ContentFields(e)))
            == Some((e.contentType, e.htmlBody, e.textBody, e.attachments, e.embeddedFiles))
  {
    TextsWhole(ContentFields(e));
    OtherFieldsWhole(e);
    TextWhole(e.contentType); TextWhole(e.htmlBody); TextWhole(e.textBody);
  }

  /** Decoding the stored text of a mail gives back that mail, every field intact. */
  lemma RoundTrip(e: Email)
    ensures Decode(Encode(e)) == Some(e)
  {
    TextsWhole([EncodeTexts(EnvelopeFields(e)), EncodeTexts(ThreadFields(e)),
                EncodeTexts(ResentFields(e)), EncodeTexts(ContentFields(e))]);
    EnvelopeRoundTrip(e);
    ThreadRoundTrip(e);
    ResentRoundTrip(e);
    ContentRoundTrip(e);
  }

  /** Distinct mails are stored as distinct texts. */
  lemma EncodeInjective(e1: Email, e2: Email)
    requires Encode(e1) == Encode(e2)
    ensures e1 == e2
  {
    RoundTrip(e1);
    RoundTrip(e2);
  }

  /** Each element of a sequence encoded on its own, in the same order. */
  function EncodeEach<T>(xs: seq<T>, enc: T -> string): (items: seq<string>)
    ensures |items| == |xs|
    ensures forall i :: 0 <= i < |xs| ==> items[i] == enc(xs[i])
  {
    if xs == [] then [] else EncodeEach(xs[..|xs| - 1], enc) + [enc(xs[|xs| - 1])]
  }

  /** Each text decoded on its own, in the same order; nothing if one of them fails. */
  function DecodeEach<T>(items: seq<string>, dec: string -> Option<T>): Option<seq<T>>
  {
    if items == [] then Some([])
    else
      match DecodeEach(items[..|items| - 1], dec)
      case None => None
      case Some(xs) =>
        match dec(items[|items| - 1])
        case None => None
        case Some(x) => Some(xs + [x])
  }

  lemma {:induction false} EachRoundTrip<T(!new)>(xs: seq<T>, enc: T -> string, dec: string -> Option<T>)
    requires forall x :: dec(enc(x)) == Some(x)
    ensures DecodeEach(EncodeEach(xs, enc), dec) == Some(xs)
  {
    if xs != [] {
      var init, last := xs[..|xs| - 1], xs[|xs| - 1];
      var items := EncodeEach(xs, enc);
      EachRoundTrip(init, enc, dec);
      assert items[..|items| - 1] == EncodeEach(init, enc);
      assert dec(items[|items| - 1]) == Some(last);
      assert init + [last] == xs;
    }
  }

  /** A failure anywhere decides the whole decoding. */
  lemma {:induction false} EachFailsFrom<T>(items: seq<string>, j: nat, dec: string -> Option<T>)
    requires 0 < j <= |items| && DecodeEach(items[..j], dec) == None
    ensures DecodeEach(items, dec) == None
    decreases |items| - j
  {
    if j < |items| {
      var init := items[..|items| - 1];
      assert init[..j] == items[..j];
      EachFailsFrom(init, j, dec);
    } else {
      assert items[..j] == items;
    }
  }

  /** The stored texts of a sequence of mails, in the same order. */
  function EncodeAll(es: seq<Email>): (items: seq<string>)
    ensures |items| == |es|
    ensures forall i :: 0 <= i < |es| ==> items[i] == Encode(es[i])
  {
    EncodeEach(es, Encode)
  }

  /** The mails a sequence of stored texts holds, in the same order, if every
      text holds one (the decoding loop of `Account`). */
  function DecodeAll(items: seq<string>): Option<seq<Email>>
  {
    DecodeEach(items, Decode)
  }

  lemma DecodeAllRoundTrip(es: seq<Email>)
    ensures DecodeAll(EncodeAll(es)) == Some(es)
  {
    forall e ensures Decode(Encode(e)) == Some(e) {
      RoundTrip(e);
    }
    EachRoundTrip(es, Encode, Decode);
  }

  lemma DecodeAllFailsFrom(items: seq<string>, j: nat)
    requires 0 < j <= |items| && DecodeAll(items[..j]) == None
    ensures DecodeAll(items) == None
  {
    EachFailsFrom(items, j, Decode);
  }
}
