# tmpmail core, modelled in Dafny

tmpmail is a disposable-mailbox service. Mail arrives over SMTP and is kept in
Redis for a limited time. An HTTP API creates mailboxes, reads them, extends
them and removes them. This project models three parts of the service and
proves properties of the model:

- **The mailbox store** (`redis/storage.go`):
  - Two families of Redis keys:
    - `tkns/<token>` is a string key holding the mailbox name;
    - `accs/<name>` is a list of stored mails, newest at the head, above a `"-"` placeholder.
  - The six store operations, each a sequence of single Redis commands with no transaction.
- **Mail ingestion** (`smtp_server.go`):
  - the RCPT check;
  - the DATA handler, which normalises a parsed message into an `Email` and prepends it to the mailbox of every `To` recipient under the served domain.
- **The HTTP logic** (`http_server.go`):
  - the per-address limiter table;
  - the base-35 digit loop that generates mailbox names;
  - the bulk creation endpoint (`PUT /api/account`): validation, creation loop and response body;
  - the path routing of the UI handler.

The files:

| file | module | what it holds |
|---|---|---|
| entity.dfy | Entity | the records of `entity/entity.go`, plus Option/Result |
| codec.dfy | Codec | a self-delimiting text encoding of `Email` with its proved round trip, standing for the JSON pair |
| keyspace.dfy | Keyspace | the Redis keyspace as a value, and the replies and effects of the commands the store issues |
| redis.dfy | Redis | `Client`, a class whose two map fields are the string keys and the list keys; one method per command |
| storage.dfy | Storage | each store operation as a function of the keyspace, and as a method of the class `Storage` proved equal to it |
| storage_lemmas.dfy | StorageLemmas | what the store operations promise |
| smtp.dfy | Smtp | the handlers: specification functions, and methods with their loops |
| smtp_lemmas.dfy | SmtpLemmas | what the handlers promise |
| http.dfy | Http | limiter classes, name generation, the endpoint's functions and methods, routing |
| http_lemmas.dfy | HttpLemmas | what name generation and the endpoint promise |

How the methods are tied to the functions:

- **Store and SMTP operations:** each is an imperative method over the `Redis.Client` object. Its contract says that its reply and the client's new keyspace equal a function of the old keyspace. The lemmas are proved about those functions.
- **Loops:** every loop of the source is a `while` loop carrying the invariant that ties it to its function. These are the store's decoding loop, the handler's append and read loops, the SMTP fan-out, the digit loop, the name check, the creation loop and the body builder.
- **Time:** lifetimes are in milliseconds. The TTL reply rounds to whole seconds, as Redis does. `Keyspace.Advance` and `Redis.Client.Advance` model the passing of time.

The model follows the code as written:

- **Leftover token:** `CreateAccount` writes the token before it checks the name. A failed creation for a taken name leaves the token behind, and that token then reads the existing mailbox (`StorageLemmas.LeftoverTokenReadsMailbox`).
- **Unknown token on prolong:** `ProlongAccount` on an unknown token fails on its GET, not with the not-found error.
- **Zero TTL only:** `Account` tests only `ttl == 0` on the TTL duration. The "no expiry" and "no key" replies convert to -1 ns and -2 ns, so they do not count as zero. A mailbox reads as missing only when less than half a second is left, when its token is gone, or when its list is gone.
- **SMTP header quirks:** the handler fills `ResentTo` with two loops, so it holds the parsed list twice. `ReplyTo` is never set.
- **Dead branch:** the `len(emails) == 0` branch of `putAPIAccount` can never run, because `strings.Split` returns at least one element.
- **Reservation cancel:** `putAPIAccount` cancels the rate-limit reservation only after the shared-secret check succeeds (http_server.go:188), so a refused attempt keeps its reservation. `Http.PutAPIAccount` states this.
- **Two lifetimes:** `CreateAccount` gives the token its lifetime with SET, which go-redis sends in milliseconds, and the mailbox with EXPIRE, which go-redis sends in whole seconds, truncated, and as one second when shorter. For a lifetime over a second that is not whole seconds, the mailbox expires first and `Account` reports the missing account while the token still lives (`StorageLemmas.MailboxExpiresBeforeToken`). For one under a second, the mailbox outlives its token (`StorageLemmas.MailboxOutlivesShortToken`). `ProlongAccount` gives both keys whole seconds.
- **UI file fallback:** when `serveFile` falls back to `index.html`, the Content-Type still comes from the requested path. When `index.html` cannot be opened either, the handler panics on the deferred `Close` of the nil file (http_server.go:265), and neither the Content-Type nor the body is written; the model returns `NilFile`.

## Model

| member | source | states |
|---|---|---|
| Storage.KeysApart | redis/storage.go:31-37 | a token key never equals an account key |
| Storage.TokenKeyInjective | redis/storage.go:31-33 | two tokens have the same key if and only if they are equal |
| Storage.AccountKeyInjective | redis/storage.go:35-37 | two names have the same account key if and only if they are equal |
| Storage.KeyKinds | redis/storage.go:31-37 | a token key has the `tkns/` prefix and not `accs/`, and an account key the reverse |
| Storage.DecodeEmails | redis/storage.go:112-125 | the decoding loop gives the mails of the stored texts in order, or fails once some text holds no mail |
| Storage.Storage.constructor | redis/storage.go:19-25 | the store wraps the given client |
| Storage.Storage.CreateAccount | redis/storage.go:39-69 | EXISTS, SET, EXISTS, LPUSH `"-"` and EXPIRE in that order, stopping at the first failed or refused step; reply and keyspace equal `CreateAccountSpec` |
| Storage.Storage.ProlongAccount | redis/storage.go:71-86 | EXPIRE on the token, GET, then EXPIRE on the account; equal to `ProlongAccountSpec` |
| Storage.Storage.Account | redis/storage.go:88-132 | GET, TTL, LLEN, then LRANGE 0..len-2 with the decoding loop; every not-found and error exit of the source, changing nothing |
| Storage.Storage.RemoveAccount | redis/storage.go:134-153 | GET, DEL of the account, then DEL of the token; equal to `RemoveAccountSpec` |
| Storage.Storage.AccountExists | redis/storage.go:155-161 | true exactly when EXISTS answers 1; a Redis error gives false with that error |
| Storage.Storage.AddEmail | redis/storage.go:163-181 | EXISTS, then LPUSH of the mail's stored text; equal to `AddEmailSpec` |
| Redis.Client.constructor | redis/storage.go:19-25 | a new client sees an empty, reachable keyspace |
| Redis.Client.Exists | redis/storage.go:41 | the reply is `Keyspace.Exists` of the current keyspace: 1 exactly for a present key of either type; nothing changes |
| Redis.Client.Set | redis/storage.go:48 | reply and new keyspace are `Keyspace.Set` of the old one: the key of any type becomes a string key, with a lifetime only when the duration is positive; Redis's invariants are kept |
| Redis.Client.Get | redis/storage.go:77 | the reply is `Keyspace.Get`: the string, WRONGTYPE on a list, `redis.Nil` on a missing key; nothing changes |
| Redis.Client.Expire | redis/storage.go:64 | reply and new keyspace are `Keyspace.Expire` of the old one: false and no change on a missing key, a non-positive lifetime deletes the key, a positive one becomes whole seconds |
| Redis.Client.LPush | redis/storage.go:60 | reply and new keyspace are `Keyspace.LPush` of the old one: prepend, creating a list without lifetime when the key is missing; WRONGTYPE on a string |
| Redis.Client.LLen | redis/storage.go:105 | the reply is `Keyspace.LLen`: the list length, 0 for a missing key; nothing changes |
| Redis.Client.LRange | redis/storage.go:114 | the reply is `Keyspace.LRange`, the inclusive, clamped slice of the list; nothing changes |
| Redis.Client.Del | redis/storage.go:144 | reply and new keyspace are `Keyspace.Del` of the old one: the key of either type is removed and the reply says whether it was present |
| Redis.Client.Ttl | redis/storage.go:97 | the reply is `Keyspace.Ttl`: no key, no expiry, or the remaining lifetime rounded to whole seconds; nothing changes |
| Redis.Client.Advance | redis/storage.go:97-103 | the new keyspace is `Keyspace.Advance` of the old one: exactly the keys whose lifetime runs out are removed |
| Keyspace.Exists | redis/storage.go:41 | on a reachable server, the reply is 1 if and only if the key is present, and 0 if and only if it is absent |
| Keyspace.Set | redis/storage.go:48 | SET keeps Redis's invariants; afterwards GET gives the value |
| Keyspace.Expire | redis/storage.go:64 | EXPIRE as go-redis sends it keeps Redis's invariants; a false reply means nothing changed |
| Keyspace.ExpireSeconds | redis/storage.go:64 | the timeout go-redis sends is positive if and only if the duration is |
| Keyspace.ExpireLifetime | redis/storage.go:64 | the lifetime EXPIRE gives is whole seconds, one second for a shorter duration, less than a second short of a longer one, and exact only for whole seconds |
| Keyspace.LPush | redis/storage.go:60 | LPUSH keeps Redis's invariants; on success the list exists and its head is the pushed value |
| Keyspace.Range | redis/storage.go:114 | for bounds inside the list, LRANGE gives exactly the slice from start to stop, so `0..len-2` leaves out the last element, the placeholder |
| Keyspace.Del | redis/storage.go:144 | after DEL the key is absent, and the reply is 1 if and only if it was present |
| Keyspace.Advance | redis/storage.go:97-103 | a key survives `elapsed` milliseconds if and only if it is persistent or has more left |
| StorageLemmas.CreateAccountTokenTaken | redis/storage.go:40-47 | a token already in use gives an error and leaves the keyspace unchanged |
| StorageLemmas.CreateAccountFresh | redis/storage.go:48-67 | fresh token and fresh name: success; the token maps to the name and lives `ttl`; the list is exactly `["-"]` and lives `ttl` in whole seconds; a non-positive lifetime leaves a token without expiry and no mailbox, yet reports success |
| StorageLemmas.CreateAccountNameTaken | redis/storage.go:48-59 | a taken name gives "account already exists"; the token written stays and the existing mailbox is untouched, so creation is not all-or-nothing |
| StorageLemmas.LeftoverTokenReadsMailbox | redis/storage.go:48-59 | the token left by that failure reads the existing mailbox, with the same messages its owner's token reads |
| StorageLemmas.ReadMailboxTtlFree | redis/storage.go:104-131 | which mails `Account` returns does not depend on the TTL reply |
| StorageLemmas.ProlongAccountLive | redis/storage.go:71-85 | on a live token the token and its mailbox both get `ttl` in whole seconds and report the same TTL; no stored value and no other key changes |
| StorageLemmas.ProlongAccountUnknown | redis/storage.go:73-80 | an unknown token gives the GET's error, not the not-found error, and changes nothing |
| StorageLemmas.ProlongAccountNonPositive | redis/storage.go:73-80 | a non-positive lifetime deletes the token, then fails on the GET; the mailbox is left as it was |
| StorageLemmas.AccountNotFoundExactly | redis/storage.go:88-111 | `Account` reports not-found if and only if the token is absent, its TTL rounds to zero seconds, or its list is absent |
| StorageLemmas.AccountReadsOwnMailbox | redis/storage.go:88-131 | a successful read is of the list of the name the token maps to, one mail per element above the placeholder |
| StorageLemmas.DecodeAllLength | redis/storage.go:118-125 | a successful decoding has one mail per stored text |
| StorageLemmas.AddEmailToMissing | redis/storage.go:163-171 | a missing mailbox gives the not-found error and stores nothing |
| StorageLemmas.AddEmailToExisting | redis/storage.go:172-180 | an existing mailbox gains exactly one element at its head, the mail's stored text; every other entry and every lifetime is unchanged |
| StorageLemmas.PushEmailToExisting | redis/storage.go:176 | the LPUSH onto an existing mailbox prepends the text and changes nothing else |
| StorageLemmas.AddEmailsCommute | redis/storage.go:163-181 | deliveries to two different mailboxes commute |
| StorageLemmas.PushEmailLists | redis/storage.go:163-181 | the push changes only the lists: the mailbox's list is prepended when it holds a list on a reachable server, and nothing changes otherwise |
| StorageLemmas.PushEmailsCommute | redis/storage.go:176 | pushes onto two different mailboxes commute |
| StorageLemmas.AddEachPushesEncodings | redis/storage.go:172-176 | delivering mails one after the other is pushing their stored texts one after the other |
| StorageLemmas.PushEachPrepends | redis/storage.go:176 | texts pushed one after the other end up at the head, last pushed first; nothing else changes |
| StorageLemmas.AddEachPrepends | redis/storage.go:163-181 | mails delivered one after the other end up at the head, newest first, above what was there |
| StorageLemmas.ReadMailboxOf | redis/storage.go:104-131 | a list of stored texts above the placeholder reads back as exactly those mails |
| StorageLemmas.CreateDeliverRead | redis/storage.go:39-131 | create, then deliver e1..ek: `Account` gives exactly those mails, newest first, with the lifetime in milliseconds rounded to whole seconds, or not-found when that rounds to zero |
| StorageLemmas.RemoveAccountUnknown | redis/storage.go:134-142 | an unknown token gives the not-found error and changes nothing |
| StorageLemmas.RemoveAccountKnown | redis/storage.go:134-161 | both keys are deleted and nothing else; the token then reads not-found and `AccountExists` answers false |
| StorageLemmas.ExpiredAccountNotFound | redis/storage.go:97-103 | once less than half a second of the token's lifetime is left, the mailbox reads not-found |
| StorageLemmas.MailboxExpiresBeforeToken | redis/storage.go:48-67 | a lifetime over a second that is not whole seconds: once the mailbox's whole seconds have passed, the token still maps to the name but `Account` reports the missing account |
| StorageLemmas.MailboxOutlivesShortToken | redis/storage.go:48-67 | a lifetime under a second: between it and one second the token is gone and reads as missing, while `AccountExists` still finds the mailbox |
| StorageLemmas.CreateKeepsWellTyped | redis/storage.go:39-69 | creation keeps token keys holding strings and account keys holding lists |
| StorageLemmas.ProlongKeepsWellTyped | redis/storage.go:71-86 | prolonging keeps that invariant |
| StorageLemmas.RemoveKeepsWellTyped | redis/storage.go:134-153 | removal keeps it |
| StorageLemmas.AddEmailKeepsWellTyped | redis/storage.go:163-181 | delivery keeps it |
| Codec.TextRoundTrip | redis/storage.go:120 | a string field read back after being stored gives that string, whatever follows it |
| Codec.IntRoundTrip | redis/storage.go:120 | a time field reads back, negative or not |
| Codec.TimeRoundTrip | redis/storage.go:120 | an optional time reads back, unset or set |
| Codec.BytesRoundTrip | redis/storage.go:120 | bytes turned into text and back are the same bytes, as base64 gives them back |
| Codec.BytesTextRoundTrip | redis/storage.go:120 | an encoded byte field reads back whole |
| Codec.ItemsRoundTrip | redis/storage.go:120 | elements encoded one after the other decode back in order, given an inverse pair per element |
| Codec.ListRoundTrip | redis/storage.go:120 | a list field reads back whole |
| Codec.TextsRoundTrip | redis/storage.go:120 | a list of strings reads back whole |
| Codec.AttachmentsInverse | redis/storage.go:120 | attachments decode back from their encoding |
| Codec.EmbeddedFilesInverse | redis/storage.go:120 | embedded files decode back from their encoding |
| Codec.EnvelopeRoundTrip | redis/storage.go:120 | subject, sender and the five address lists decode back from their group |
| Codec.ThreadRoundTrip | redis/storage.go:120 | date, message id, in-reply-to and references decode back from their group |
| Codec.ResentRoundTrip | redis/storage.go:120 | the seven resent headers decode back from their group |
| Codec.ContentRoundTrip | redis/storage.go:120 | content type, both bodies, attachments and embedded files decode back from their group |
| Codec.RoundTrip | redis/storage.go:172 | decoding the stored text of a mail gives back that mail, every field intact: the stand-in for `json.Unmarshal` (line 120) after `json.Marshal` |
| Codec.EncodeInjective | redis/storage.go:172 | distinct mails are stored as distinct texts |
| Codec.EncodeEach | redis/storage.go:118-125 | one encoding per element, in the same order |
| Codec.EachRoundTrip | redis/storage.go:118-125 | decoding each encoding in order gives back the sequence |
| Codec.EachFailsFrom | redis/storage.go:121-123 | a failure on some prefix makes the whole decoding fail |
| Codec.EncodeAll | redis/storage.go:172 | the stored texts of a sequence of mails, in order |
| Codec.DecodeAllRoundTrip | redis/storage.go:118-125 | the texts of a sequence of mails decode back to that sequence |
| Codec.DecodeAllFailsFrom | redis/storage.go:121-123 | one undecodable text fails the whole read |
| Smtp.RenderedInOrder | smtp_server.go:66-95 | rendering an address list keeps its length and order, element by element |
| Smtp.ReadAttachments | smtp_server.go:96-106 | succeeds if and only if every body was read; then one attachment per part, with its name, type and bytes |
| Smtp.ReadEmbeddedFiles | smtp_server.go:107-117 | the same for embedded files, with their CIDs |
| Smtp.AppendRendered | smtp_server.go:66-68 | an append loop gives the list it started from, followed by the rendered addresses |
| Smtp.CopyHeaders | smtp_server.go:45-95 | the field assignments and address loops build exactly `Headers`, whose properties `SmtpLemmas.HeadersFields` states |
| Smtp.ReadAttachmentBodies | smtp_server.go:96-106 | the attachment loop equals `ReadAttachments`: it stops at the first unreadable body |
| Smtp.ReadEmbeddedBodies | smtp_server.go:107-117 | the embedded-file loop equals `ReadEmbeddedFiles` |
| Smtp.Normalize | smtp_server.go:45-117 | headers, then attachments, then embedded files; equal to `NormalizeSpec` |
| Smtp.DeliverNext | smtp_server.go:129-151 | one more recipient: its mailbox gets the mail if the address names one, otherwise nothing happens |
| Smtp.Handler | smtp_server.go:39-154 | the DATA handler: parse outcome, normalisation, then the fan-out; reply and keyspace equal `HandlerSpec` |
| Smtp.FanOut | smtp_server.go:128-152 | the fan-out loop: the keyspace afterwards is `Deliver` of the one before, one `AddEmail` per recipient under the domain, in order |
| Smtp.HandlerRcpt | smtp_server.go:155-166 | the RCPT handler equals `RcptSpec` |
| SmtpLemmas.UsernameForExactly | smtp_server.go:134-137 | an address names a mailbox if and only if it ends in `"@" + domain`, and then name + `"@" + domain` is the address |
| SmtpLemmas.UsernameForRoundTrip | smtp_server.go:156-159 | the address of a name under the domain gives back that name |
| SmtpLemmas.RcptExactly | smtp_server.go:155-166 | RCPT accepts if and only if the store is reachable, the address is under the domain and its mailbox exists; a storage error rejects |
| SmtpLemmas.NormalizeFailsExactly | smtp_server.go:96-117 | normalisation fails if and only if some body is unreadable; an attachment failure is reported before an embedded-file failure |
| SmtpLemmas.HeadersFields | smtp_server.go:45-95 | a zero date becomes `now` and a non-zero one is kept; the resent date is set if and only if it is non-zero; sender fields are empty when absent; the address lists keep length and order; `ResentTo` holds its list twice; `ReplyTo` is empty |
| SmtpLemmas.NormalizeHeaders | smtp_server.go:45-117 | a normalised mail is the header record with the parts read: no header field depends on the parts |
| SmtpLemmas.NormalizeParts | smtp_server.go:96-117 | attachments and embedded files keep count, order, name or CID, content type and the full bytes |
| SmtpLemmas.HandlerStoresNothingOnError | smtp_server.go:40-43 | a parse failure or an unreadable part gives an error and leaves the keyspace unchanged |
| SmtpLemmas.HandlerAnswersNil | smtp_server.go:123-153 | a message that normalises is answered nil whatever the deliveries return; without `To` recipients nothing changes |
| SmtpLemmas.DeliverPushes | smtp_server.go:143 | every call stores the same text, the encoding of the one normalised mail |
| SmtpLemmas.PushedAt | smtp_server.go:143 | for one mailbox: the recipient naming it adds one copy at its head, any other leaves it as it was |
| SmtpLemmas.PushedToExisting | smtp_server.go:143 | a recipient naming an existing mailbox adds one copy at its head, keeping the fan-out's description |
| SmtpLemmas.PushedToMissing | smtp_server.go:143-147 | a recipient naming no existing mailbox changes nothing |
| SmtpLemmas.PushAllEffect | smtp_server.go:128-152 | the fan-out of a text changes only existing mailboxes, each gaining one copy per recipient naming it |
| SmtpLemmas.DeliverEffect | smtp_server.go:128-152 | every existing mailbox gains one copy of the stored mail per `To` recipient naming it, at its head; no other key, value or lifetime changes |
| SmtpLemmas.HandlerDelivers | smtp_server.go:39-154 | the handler's effect on a reachable store: the normalised mail lands once per matching recipient, and nowhere else |
| Http.Limiter.constructor | http_server.go:310 | a new limiter has the table's rate and burst and no reservation |
| Http.Limiter.Reserve | http_server.go:176-177 | a reservation is granted if and only if one event fits the burst; a granted one is counted |
| Http.Limiter.Cancel | http_server.go:188 | cancelling gives the reservation back |
| Http.IpRateLimiter.constructor | http_server.go:295-304 | an empty table with the given rate and burst |
| Http.IpRateLimiter.AddIP | http_server.go:306-315 | a fresh limiter for the address, replacing any there was; the table maps the address to it, and no two addresses share a limiter |
| Http.IpRateLimiter.GetLimiter | http_server.go:317-329 | a known address gets its stored limiter and the table is unchanged; an unknown one gets a fresh limiter under exactly that new key; the key set only grows |
| Http.Base35 | http_server.go:137-139 | the digits are empty if and only if the seed is not positive |
| Http.Base35Digits | http_server.go:137-139 | the digit loop produces `Base35(seed)`, whose properties the HttpLemmas digit lemmas state |
| Http.ToLower | http_server.go:140 | same length, no upper-case letter left, each letter lowered and everything else kept |
| Http.GenerateEmail | http_server.go:131-142 | the name is the digits of the clock reading, then the lowered random part |
| Http.Split | http_server.go:190 | splitting yields at least one element, so the empty-list branch is dead |
| Http.CreateEach | http_server.go:216-227 | on success the loop yields one token per name, the i-th being the one made for position i |
| Http.CreateEachNext | http_server.go:218-226 | one more name is tried only after every earlier one succeeded |
| Http.CreateEachStops | http_server.go:220-225 | after a failure no later name is tried |
| Http.FindEmptyName | http_server.go:196-201 | true if and only if some name is empty |
| Http.CreateAccounts | http_server.go:216-227 | the creation loop over the store equals `CreateAll`: one `CreateAccount` per name, in order, stopping at the first failure |
| Http.WritePlain | http_server.go:232-238 | the builder loop produces `FormatPlain` |
| Http.WriteBody | http_server.go:229-241 | the switch on Accept produces `BodyFor` |
| Http.CreateRequested | http_server.go:190-241 | the endpoint after authorisation equals `CreateSpec` |
| Http.PutAPIAccount | http_server.go:173-242 | the endpoint equals `PutSpec`; the caller's limiter is fetched or made, and keeps one reservation more exactly when it was granted and the authorization was refused; every other address keeps its limiter and its count, and a known caller keeps its limiter object |
| Http.RouteFor | http_server.go:271-286 | `/api` paths go to the API if and only if they have that prefix; other non-GET requests get 405; `/` serves `index.html`; another path is served with its leading `/` removed |
| Http.ServeFileSpec | http_server.go:260-269 | the path's file when it opens, else `index.html`, else nothing; the Content-Type always comes from the requested path |
| HttpLemmas.DigitValues | http_server.go:132 | the alphabet has 35 characters, no `v`, and the k-th stands for digit k |
| HttpLemmas.Base35RoundTrip | http_server.go:137-139 | reading the digits back in base 35, least significant first, gives the seed |
| HttpLemmas.Base35Injective | http_server.go:137-139 | two positive seeds give the same digits if and only if they are equal |
| HttpLemmas.Base35Alphabet | http_server.go:132-138 | every digit is drawn from the alphabet, so none is `v` |
| HttpLemmas.Base35NoPadding | http_server.go:137-139 | the last, most significant digit is never the zero digit |
| HttpLemmas.GeneratedName | http_server.go:131-142 | a generated name is the seed's digits, which read back to the seed, followed by lower-case text as long as the random part |
| HttpLemmas.JoinSplit | http_server.go:190 | joining the split names with commas gives the form value back |
| HttpLemmas.SplitNoComma | http_server.go:190 | no split name contains a comma |
| HttpLemmas.SplitAfter | http_server.go:190 | a comma-free first name is split off by itself |
| HttpLemmas.SplitPlain | http_server.go:190 | a comma-free value splits into itself |
| HttpLemmas.SplitJoin | http_server.go:190 | comma-free names joined and split again are the same names |
| HttpLemmas.CreateAccountSucceeded | http_server.go:219-220 | a successful creation inside the loop had a free token and a free name, with the effect `CreateAccountFresh` states |
| HttpLemmas.CreateAccountKeeps | http_server.go:219-220 | whatever its outcome, a creation call changes no entry that was there |
| HttpLemmas.CreateAllTokens | http_server.go:216-227 | after a successful loop, token i maps to name i and was free before; the tokens are distinct and are the only new string keys |
| HttpLemmas.CreateAllMailboxes | http_server.go:216-227 | with a positive lifetime every name got a fresh mailbox with only the placeholder; the names are distinct and are the only new lists |
| HttpLemmas.CreateAllKeeps | http_server.go:216-227 | whatever the outcome, the loop keeps every entry that was there, so accounts created before a failure stay created |
| HttpLemmas.CreateAllFails | http_server.go:220-225 | a failed loop failed at one position, after every earlier name succeeded |
| HttpLemmas.CreateAllFresh | http_server.go:216-227 | free, distinct tokens and names on a reachable server: the loop succeeds |
| HttpLemmas.FreshPrefixSucceeds | http_server.go:216-227 | the loop over the first n names succeeds when all tokens and names are free and distinct |
| HttpLemmas.NextCreationSucceeds | http_server.go:219-220 | after a successful loop, a creation with a token and a name not used and free before succeeds |
| HttpLemmas.TokenStillFree | http_server.go:216-227 | a token that was free and not made for a created name is still free after the loop |
| HttpLemmas.NameStillFree | http_server.go:216-227 | a free name not among those created is still free after the loop |
| HttpLemmas.FormatPlainConcat | http_server.go:234-237 | the plain body of two lists is the body of the first followed by the body of the second |
| HttpLemmas.PlainSplit | http_server.go:234-237 | the body splits at any position into the lines before and after it |
| HttpLemmas.PlainPrefixStep | http_server.go:234-237 | the lines up to name i end with `name: token\n` for that name |
| HttpLemmas.PlainLineInOrder | http_server.go:232-238 | the body is one `email: token\n` line per name, in input order |
| HttpLemmas.PutRejected | http_server.go:176-214 | 429 if and only if not reserved, 401 if and only if the authorization is refused, 400 if and only if a name is empty or the lifetime does not parse; these change nothing, and every non-200 answer has no body |
| HttpLemmas.PutSucceeded | http_server.go:173-241 | a 200 means authorised, names well formed, token i stores name i and was free, nothing earlier changed, and the body lists the pairs or the tokens in name order |
| HttpLemmas.PutShape | http_server.go:173-241 | a 200 comes only after every check passed and the creation loop succeeded, with the body built from its tokens |
| HttpLemmas.CreatedTokens | http_server.go:216-227 | after a successful loop the tokens are the ones made for each position, each maps to its name and was free before, and no string entry that was there changes |
| HttpLemmas.PutFailedMidway | http_server.go:216-225 | a 500 means the loop stopped at one name after creating all before it, and nothing stored before changed |
| HttpLemmas.PutSucceedsWhenFree | http_server.go:173-227 | an authorised, well-formed request with free, distinct tokens and names on a reachable store gets 200 |
| HttpLemmas.NonGetRefusedAnyPath | http_server.go:272-278 | outside `/api`, any request that is not a GET gets 405, whatever its path |
| HttpLemmas.ApiAnyMethod | http_server.go:272-274 | under `/api` the route is the API whatever the method |
| HttpLemmas.ServeFileFallback | http_server.go:260-269 | a file that cannot be opened is replaced by `index.html`, still typed by the requested path; whether `index.html` opens matters only when the requested file does not |

## Left out

- Http.Limiter.Reserve: the token bucket is not modelled. `Reserve().OK()` is false only when one event exceeds the burst, so the model grants exactly when `1 <= burst`, whatever the time. With the server's burst of 5, the 429 answer is never given. The reservation's delay and the refill rate are not modelled, and `held` only counts reservations.
- Http.Limiter.Cancel: it gives the reservation back in the count; the timing effects of cancelling on the bucket are not modelled.
- Concurrency:
  - the mutex of the limiter table, and the window between unlocking and `AddIP` where two callers can both insert;
  - the goroutines and the WaitGroup of the SMTP fan-out, which run one after the other here (deliveries to distinct mailboxes commute: `StorageLemmas.AddEmailsCommute`);
  - the data race on the shared `err` and `logger` inside the fan-out.
- Smtp.Handler: the per-recipient return value of `AddEmail` is only logged in the source. The model ignores it, and its effect on the keyspace is kept.
- JSON: `encoding/json` is replaced by `Codec`, an encoding with a proved round trip. Nothing is claimed about the JSON text, about `omitempty`, about nil versus empty slices, or about a failing `json.Marshal`, which cannot happen for these types. JSON writes the `[]byte` data of a part as base64, while `Codec` writes one character per byte.
- Codec.RoundTrip: the round trip of the source is exact only in part. `json.Marshal` replaces invalid UTF-8 in string fields with U+FFFD, and a `time.Time` loses its Location and its monotonic reading. A Dafny `string` holds only characters and a time here is a number, so the model's round trip is exact.
- Redis client and time:
  - the Redis network client and `context` are left out;
  - a server that cannot be reached is the keyspace flag `online`;
  - go-redis sends an EXPIRE duration in whole seconds; `Keyspace.ExpireSeconds` models that, and the warning go-redis logs for a duration under a second is left out;
  - lifetimes are whole milliseconds, so what go-redis does on SET with a duration that is not whole milliseconds is left out: it sends one under a millisecond as 1 ms and truncates fractional milliseconds;
  - real expiry is a method that advances time explicitly.
- Storage.Storage.AddEmail: time passes only between store operations. A mailbox that expires between the EXISTS (redis/storage.go:165) and the LPUSH (redis/storage.go:176) is not modelled; in the source, LPUSH then recreates the list with no lifetime and holding no placeholder.
- Parameters for code outside the model:
  - MIME parsing (`email.Parse`), whose package is not part of this model: the handler receives its outcome, and each part body arrives already read or failed;
  - `time.Now` in the SMTP handler is the parameter `now`, and in `generateEmail` the seed;
  - `crypto/rand` with base62 becomes the parameter `tokenFor` and the random part of a name;
  - `time.ParseDuration` becomes `parseDuration`;
  - the UI file system becomes `opens`.
- `mail.Address.String()` is modelled as the address in angle brackets after an optional name; the quoting and encoding of names and of the local part, and the form written for an address without `@`, are left out.
- Http.ServeFileSpec: the MIME type is given by the path it is taken from (`typeFrom`); `mime.TypeByExtension` and the copying of the file are left out.
- The other HTTP handlers (`getAPIAccount`, `postAPIAccount`, `patchAPIAccount`, `deleteAPIAccount`) are left out: each is one store call with its status code. The stored behaviour is modelled by the store operations. The API router, CORS, TLS and server start-up are also left out.
- Logging, `cmd/tmpmail/main.go` and the UI build configuration are left out.
- `entity.ErrAccountDoesntExists` is used by the store, but its declaration is not part of this model; it is the constructor `Storage.ErrAccountDoesntExists`.
- Error texts: a wrapped Redis error is the step's message with the cause, and `errors.Is` is not modelled beyond the not-found case.
