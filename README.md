# Secure Multiuser Network System: mail-session layer in Dafny

This project models the mail layer of the Secure Multiuser Network System,
a Java application that exchanges messages over e-mail. It covers:

- The two IMAP clients (`network.MailClient` and `mail.MailClient`). Each
  creates its session and store once, and reopens folders in a loop until
  they are open in the mode a call needs (`ensureFolderIsOpen`). They list,
  search, move and delete messages and look a message up by its
  Message-ID.
- The two INBOX pollers (`mail.MailReceiver` and `network.MailReceiver`).
  Each keeps a watermark date. The newer one filters the server's
  day-granular hits by exact time. The older one hands the hits out as
  they come.
- The SMTP sender (`network.MailSender`). It validates its sender
  address, builds its session properties, creates its transport once and
  sends a multipart message.
- `MailUtils`: array concatenation and the choice of a message's sender
  address.
- `MailAuthenticator` and the two `AbstractMailClient` bases: validated
  value objects with `equals` and `hashCode`.
- `XMLSignerVerifier`: enveloped XML signatures. This covers the key
  selector's first-match rule, the result flow of `validate` and the fixed
  algorithms of `sign`.

JavaMail's `Folder`, `Store`, `Session` and `Transport` are Dafny classes
whose fields the operations update in place (module `Folders` and the
`Transport` class in `MailSender`).

- **The environment is input.** Each folder call that can fail takes an
  `Attempt`, which says whether the thread was interrupted and whether the
  open succeeded. The clock is a `now` parameter, and each poll of a
  receiver is a `Poll` record (mail arriving, the reopen environment, the
  time).
- **Nulls and exceptions.** Java's `null` is `Option` or a nullable class
  type. Exceptions are the `Error` values of `Result` and `Outcome`.
- **Subclassing.** It is modelled by composition: a concrete client holds
  its base, and the base records the runtime class that `equals`
  compares.

The reopen loop is specified by the function `FolderSession.Reopen`. The
methods are proved against it, and the properties the source promises
are proved as lemmas.

## Model

| member | source | states |
|---|---|---|
| AbstractMailClient.AbstractMailClient.Create | src/nz/ac/aut/hss/network/mail/AbstractMailClient.java:15-20 | a null host is an IllegalArgumentException; otherwise host and port are kept and there is no session yet |
| AbstractMailClient.AbstractMailClient.Connect | src/nz/ac/aut/hss/network/mail/AbstractMailClient.java:22-25 | the session is created from the given properties only when there is none, so a second connect keeps the same session |
| AbstractMailClient.EqualsProperties | src/nz/ac/aut/hss/network/mail/AbstractMailClient.java:35-46 | `equals` is reflexive, false for null, symmetric, and for two objects holds exactly when class, host and session agree (the port is ignored) |
| AbstractMailClient.HashCodeAgreesWithEquals | src/nz/ac/aut/hss/network/mail/AbstractMailClient.java:48-53 | equal clients have equal hash codes (`31*h(host) + h(session)`, port ignored) |
| NetworkAbstractMailClient.AbstractMailClient.Create | src/nz/ac/aut/hss/network/AbstractMailClient.java:20-24 | a null host is an IllegalArgumentException; otherwise it is stored unchanged and there is no session yet |
| NetworkAbstractMailClient.AbstractMailClient.Connect | src/nz/ac/aut/hss/network/AbstractMailClient.java:26-29 | the session is created only when there is none; a second connect keeps it |
| NetworkAbstractMailClient.EqualsProperties | src/nz/ac/aut/hss/network/AbstractMailClient.java:39-50 | `equals` is reflexive, false for null, symmetric, and for two objects holds exactly when class, host and session agree |
| NetworkAbstractMailClient.HashCodeAgreesWithEquals | src/nz/ac/aut/hss/network/AbstractMailClient.java:52-57 | equal clients have equal hash codes |
| MailAuthenticator.Create | src/nz/ac/aut/hss/network/MailAuthenticator.java:14-21 | succeeds exactly when user name and password are both non-null and non-empty, keeping them; otherwise an IllegalArgumentException |
| MailAuthenticator.CredentialsRoundTrip | src/nz/ac/aut/hss/network/MailAuthenticator.java:14-38 | the user name and password handed to JavaMail are the non-empty ones the authenticator was created with, and two authenticators are equal exactly when they hand out the same credentials |
| MailAuthenticator.EqualsIsValueEquality | src/nz/ac/aut/hss/network/MailAuthenticator.java:40-51 | `equals` is reflexive, false for null and other classes, and holds exactly for equal user name and password (hence symmetric and transitive) |
| MailAuthenticator.HashCodeAgreesWithEquals | src/nz/ac/aut/hss/network/MailAuthenticator.java:53-58 | equal authenticators have equal hash codes (`31*h(username) + h(password)` with 32-bit wrap-around) |
| Folders.Select | src/nz/ac/aut/hss/network/MailClient.java:139-143 | a folder search returns exactly the stored mails the term matches, never more than the folder holds |
| Folders.Expunged | src/nz/ac/aut/hss/network/MailClient.java:205-207 | expunge leaves exactly the mails whose uid is not flagged \Deleted |
| FolderSession.Reopen | src/nz/ac/aut/hss/network/MailClient.java:104-123 | the loop ends open in a sufficient mode or with Interrupted; a folder already open in a sufficient mode is left alone with no calls |
| FolderSession.ReopenCalls | src/nz/ac/aut/hss/network/MailClient.java:108-117 | the loop's calls are one close without expunge, first and only when the folder was open, and otherwise opens in the requested mode |
| FolderSession.ReopenStopsAtFirstDecisive | src/nz/ac/aut/hss/network/MailClient.java:108-122 | the interrupt is checked before every attempt and failed opens are retried: the loop stops at the first interrupted or successful attempt, fails exactly when that one was interrupted, and made one open per attempt before it |
| FolderSession.ReopenAdvance | src/nz/ac/aut/hss/network/MailClient.java:108-122 | one pass of the loop: an interrupted attempt ends it with Interrupted in the current state; otherwise the rest of the loop runs from the state after the close-and-open, with those calls already made |
| FolderSession.TryReopen | src/nz/ac/aut/hss/network/mail/MailClient.java:91-95 | an open folder is closed without expunging, then it is opened in the mode; it is open in that mode exactly when the open succeeds, and no message changes |
| FolderSession.EnsureFolderIsOpen | src/nz/ac/aut/hss/network/mail/MailClient.java:82-101 | a null folder is an IllegalArgumentException; otherwise outcome, folder state and call log are those of `Reopen`, and the messages are untouched |
| FolderSession.GetMessages | src/nz/ac/aut/hss/network/mail/MailClient.java:103-111 | a null folder is an IllegalArgumentException; otherwise after ensuring READ_ONLY it returns all the folder's messages for a null term and the search result for a term, or the interrupt |
| NetworkMailClient.ImapSessionProperties | src/nz/ac/aut/hss/network/MailClient.java:64-74 | the three IMAP timeouts are 300000, partial fetch is off, the fetch size is 819200, and every other property is kept |
| NetworkMailClient.IdTerms | src/nz/ac/aut/hss/network/MailClient.java:211-214 | exactly one Message-ID term per requested id, in order |
| NetworkMailClient.IdTermsMatch | src/nz/ac/aut/hss/network/MailClient.java:210-218 | the OR of the id terms matches a message exactly when one of the ids occurs in its Message-ID, letters compared ignoring case, and with no ids matches nothing |
| NetworkMailClient.ResolveUnique | src/nz/ac/aut/hss/network/MailClient.java:259-268 | more than one hit is an IllegalStateException, no hit or a non-MIME hit an IllegalArgumentException, and otherwise the single hit is returned (each an if-and-only-if) |
| NetworkMailClient.SingleHit | src/nz/ac/aut/hss/network/MailClient.java:256-269 | in a folder with distinct uids, an id contained (ignoring case) in exactly one Message-ID finds that message, which the lookup returns when it is MIME |
| NetworkMailClient.NoHit | src/nz/ac/aut/hss/network/MailClient.java:264-266 | an id that no stored Message-ID contains, even ignoring case, finds nothing |
| NetworkMailClient.ContainedIdIsAmbiguous | src/nz/ac/aut/hss/network/MailClient.java:259-262 | a Message-ID term matches by containment, so "1@h" is ambiguous between "<1@h>" and "<21@h>" and the lookup raises IllegalStateException |
| NetworkMailClient.MixedCaseIdFound | src/nz/ac/aut/hss/network/MailClient.java:256-269 | the lookup ignores case: "abc@h" finds and returns the message whose Message-ID is "<ABC@h>" |
| NetworkMailClient.RemovedFromSource | src/nz/ac/aut/hss/network/MailClient.java:196-208 | after the expunge no moved or deleted message is left in the source, and every remaining mail was there before and was not flagged |
| NetworkMailClient.MailClient.Create | src/nz/ac/aut/hss/network/MailClient.java:38-46 | fails exactly for a null host or a buffer size below 1, with IllegalArgumentException; otherwise keeps host, authenticator and buffer size (what `getBufferSize` returns) |
| NetworkMailClient.MailClient.CreateWithDefaults | src/nz/ac/aut/hss/network/MailClient.java:33-35 | the same with the default buffer size 65536 |
| NetworkMailClient.MailClient.Connect | src/nz/ac/aut/hss/network/MailClient.java:51-58 | session and "imap" store are created only when missing; without an authenticator a NullPointerException; a store already connected an IllegalStateException with nothing changed; otherwise the store is connected with the authenticator's credentials or a MessagingException |
| NetworkMailClient.MailClient.EnsureFolderIsOpen | src/nz/ac/aut/hss/network/MailClient.java:104-123 | a null folder is an IllegalArgumentException; otherwise the folder ends as `Reopen` says |
| NetworkMailClient.MailClient.GetMessages | src/nz/ac/aut/hss/network/MailClient.java:136-144 | READ_ONLY is ensured first; a null term lists all messages, otherwise the search result |
| NetworkMailClient.MailClient.BuildIdTerm | src/nz/ac/aut/hss/network/MailClient.java:211-215 | the array loop builds the OR of one Message-ID term per id |
| NetworkMailClient.MailClient.FindMessages | src/nz/ac/aut/hss/network/MailClient.java:210-219 | the folder is ensured READ_ONLY and searched with the OR of the id terms, which match Message-IDs by containment ignoring case |
| NetworkMailClient.MailClient.GetAndOpenFolder | src/nz/ac/aut/hss/network/MailClient.java:296-302 | the store's folder, opened in the given mode only when it is closed; an open folder is returned whatever its mode |
| NetworkMailClient.MailClient.FindMessageById | src/nz/ac/aut/hss/network/MailClient.java:256-269 | the folder is fetched; an open folder is left as it is, and a closed one gets exactly one READ_ONLY open, ending open READ_ONLY when that succeeds and unchanged in state when it fails; its messages and deletion flags are kept; it is searched by Message-ID ignoring case, and the hits are resolved by `ResolveUnique` |
| NetworkMailClient.MailClient.GetFolder | src/nz/ac/aut/hss/network/MailClient.java:275-277 | the store's folder of that name, a handle to a non-existent folder for an unknown name, a NullPointerException before `connect` |
| NetworkMailClient.MailClient.GetAndValidateFolder | src/nz/ac/aut/hss/network/MailClient.java:288-294 | returns the folder exactly when it exists, otherwise FolderNotFoundException |
| NetworkMailClient.MailClient.MoveMessages | src/nz/ac/aut/hss/network/MailClient.java:196-208 | no messages: nothing happens; otherwise the source is reopened READ_WRITE, the mails copied to the destination, flagged \Deleted and expunged, in that order, and the source loses exactly them |
| NetworkMailClient.Transfer | src/nz/ac/aut/hss/network/MailClient.java:205-207 | a missing destination fails the copy and nothing changes; otherwise the destination gains the mails in order and the source loses exactly them, after a copy, a \Deleted flag and an expunge |
| NetworkMailClient.MailClient.MoveMessagesTo | src/nz/ac/aut/hss/network/MailClient.java:166-173 | no messages: nothing happens; otherwise the destination is looked up by name and the move made, failing on a destination that does not exist |
| NetworkMailClient.MailClient.DeleteMessages | src/nz/ac/aut/hss/network/MailClient.java:236-245 | no messages: nothing happens; otherwise READ_WRITE is ensured, the messages flagged \Deleted and expunged |
| MailClient.ImapsSessionProperties | src/nz/ac/aut/hss/network/mail/MailClient.java:55-60 | the store protocol is "imaps" and "mail.debug" follows the debug switch; other properties are kept |
| MailClient.MailClient.Create | src/nz/ac/aut/hss/network/mail/MailClient.java:32-38 | fails exactly for a null host (checked by the base first) or a buffer size below 1, with IllegalArgumentException |
| MailClient.MailClient.CreateWithDefaults | src/nz/ac/aut/hss/network/mail/MailClient.java:27-29 | the same with the default buffer size |
| MailClient.MailClient.Connect | src/nz/ac/aut/hss/network/mail/MailClient.java:43-53 | the "imaps" store is created only when missing and reused afterwards; a refused connect is a ConnectionException, a missing authenticator a NullPointerException, and a store already connected an IllegalStateException that escapes the wrapping |
| MailClient.MailClient.EnsureFolderIsOpen | src/nz/ac/aut/hss/network/mail/MailClient.java:82-101 | a null folder is an IllegalArgumentException; otherwise the folder ends as `Reopen` says |
| MailClient.MailClient.GetMessages | src/nz/ac/aut/hss/network/mail/MailClient.java:103-111 | READ_ONLY first, then all messages or the search result |
| MailClient.MailClient.GetFolder | src/nz/ac/aut/hss/network/mail/MailClient.java:113-115 | the store's folder of that name, or a NullPointerException before `connect` |
| MailClient.MailClient.GetAndValidateFolder | src/nz/ac/aut/hss/network/mail/MailClient.java:126-132 | returns the folder exactly when it exists, otherwise FolderNotFoundException |
| MailReceiver.NewerThanKeeps | src/nz/ac/aut/hss/network/mail/MailReceiver.java:49-57 | `filter` keeps exactly the messages received strictly after the date |
| MailReceiver.NewerThanAppend | src/nz/ac/aut/hss/network/mail/MailReceiver.java:50-56 | filtering distributes over concatenation, so the kept messages stay in input order |
| MailReceiver.NewerThanIdempotent | src/nz/ac/aut/hss/network/mail/MailReceiver.java:49-57 | filtering twice by a date is filtering once |
| MailReceiver.NewerThanLater | src/nz/ac/aut/hss/network/mail/MailReceiver.java:49-57 | filtering by a later date after an earlier one is filtering by the later one |
| MailReceiver.Filter | src/nz/ac/aut/hss/network/mail/MailReceiver.java:49-57 | the loop returns the order-preserving filter |
| MailReceiver.FreshExactly | src/nz/ac/aut/hss/network/mail/MailReceiver.java:38-39 | a poll hands out a message exactly when it is in the inbox, the server's day-granular search selects it and it was received after the watermark |
| MailReceiver.FreshIsNewer | src/nz/ac/aut/hss/network/mail/MailReceiver.java:38-53 | every message a poll hands out belongs to the inbox and was received strictly after the watermark |
| MailReceiver.SameDayMailMissed | src/nz/ac/aut/hss/network/mail/MailReceiver.java:38 | against a server that answers the GT search with later calendar days only, a mail received after the watermark on the watermark's own day is not handed out, and not by any later poll either |
| MailReceiver.FromDayIsComplete | src/nz/ac/aut/hss/network/mail/MailReceiver.java:38-39 | with a day-inclusive search (GE, on or after the watermark's day) and the exact-time filter, a poll hands out exactly the inbox's mails received after the watermark |
| MailReceiver.FirstText | src/nz/ac/aut/hss/network/mail/MailReceiver.java:65-70 | the index of the first text/plain or text/html part (base type compared ignoring case), none exactly when there is no such part |
| MailReceiver.BaseTypeWithoutParameters | src/nz/ac/aut/hss/network/mail/MailReceiver.java:67 | a content type without parameters is compared as a whole |
| MailReceiver.ExtractText | src/nz/ac/aut/hss/network/mail/MailReceiver.java:59-73 | non-multipart content is an IllegalArgumentException, no text part an IllegalStateException, otherwise the first text part's text |
| MailReceiver.MailReceiver.Create | src/nz/ac/aut/hss/network/mail/MailReceiver.java:23-29 | succeeds exactly when the client is built, connects and INBOX exists, with the specific exception otherwise; the watermark starts at the construction time |
| MailReceiver.MailReceiver.PollOnce | src/nz/ac/aut/hss/network/mail/MailReceiver.java:38-39 | one poll returns exactly the filtered search result for the current watermark, or the interrupt |
| MailReceiver.MailReceiver.PollAt | src/nz/ac/aut/hss/network/mail/MailReceiver.java:36-44 | after quiet polls, one more poll sees every arrival so far, and an empty batch extends the run of quiet polls |
| MailReceiver.MailReceiver.WaitForMessages | src/nz/ac/aut/hss/network/mail/MailReceiver.java:35-47 | returns only a non-empty batch, exactly the fresh messages for the watermark, which then moves to that poll's time; every earlier poll found nothing and the watermark stays put unless a batch is returned |
| NetworkMailReceiver.LegacyBatchExactly | src/nz/ac/aut/hss/network/MailReceiver.java:34-35 | a poll hands out exactly the inbox's messages the server's code-1 comparison selects, whenever they were received |
| NetworkMailReceiver.PoliciesDiffer | src/nz/ac/aut/hss/network/MailReceiver.java:31-44 | a selected mail received at or before the watermark is handed out by this receiver and filtered away by the newer one |
| NetworkMailReceiver.LegacyHandsOutOldMail | src/nz/ac/aut/hss/network/MailReceiver.java:34-35 | against a server that reads code 1 as on-or-before-the-day, a mail received a day before the watermark is handed out |
| NetworkMailReceiver.MailReceiver.Create | src/nz/ac/aut/hss/network/MailReceiver.java:21-25 | succeeds exactly when INBOX exists in the client's store; the watermark starts at the construction time |
| NetworkMailReceiver.MailReceiver.PollOnce | src/nz/ac/aut/hss/network/MailReceiver.java:34-35 | one poll returns the server's code-1 search result unfiltered, or the interrupt |
| NetworkMailReceiver.MailReceiver.WaitForMessages | src/nz/ac/aut/hss/network/MailReceiver.java:31-44 | the watermark moves to "now" after every poll that returned, empty or not; it exits only with a non-empty unfiltered batch or the interrupt |
| MailUtils.Concat | src/nz/ac/aut/hss/network/mail/MailUtils.java:53-63 | `second` itself when `first` is null or empty, `first` itself when `second` is null or empty, otherwise a new array of both lengths with `first` as prefix and `second` as suffix |
| MailUtils.ConcatElements | src/nz/ac/aut/hss/network/mail/MailUtils.java:53-63 | apart from which null comes back, the elements are those of `first` followed by those of `second` |
| MailUtils.FirstInternet | src/nz/ac/aut/hss/network/mail/MailUtils.java:33-38 | the first non-null Internet address, and none exactly when there is none |
| MailUtils.GetSenderAddress | src/nz/ac/aut/hss/network/mail/MailUtils.java:23-42 | the loop returns the sender-address choice `SenderAddress` specifies |
| MailUtils.SenderAddressChoice | src/nz/ac/aut/hss/network/mail/MailUtils.java:26-41 | the Sender header wins; else the first Internet address of From, then of Reply-To; else null |
| MailUtils.FirstOfAppend | src/nz/ac/aut/hss/network/mail/MailUtils.java:31-38 | the first Internet address of From followed by Reply-To is From's if it has one, else Reply-To's |
| MailSender.SenderName | src/nz/ac/aut/hss/network/MailSender.java:36-39 | the display name is the given one unless null or empty, then the address; never empty for a valid address |
| MailSender.SmtpSessionProperties | src/nz/ac/aut/hss/network/MailSender.java:43-48 | "mail.smtp.auth" is "true" exactly when there is an authenticator, host and SSL-trusted host are the client's host, other properties kept |
| MailSender.TextBodyPart | src/nz/ac/aut/hss/network/MailSender.java:136-140 | a plain-text part carrying the text, which the receivers recognise as text |
| MailSender.AttachmentBeforeText | src/nz/ac/aut/hss/network/MailSender.java:146-152 | a file part carries the given file name; placed before the body text, it is what the receivers' `extractText` returns when the file's content type is text, and the body text is returned otherwise |
| MailSender.FileBodyPart | src/nz/ac/aut/hss/network/MailSender.java:142-144 | a file part is named after the file by default |
| MailSender.SentTextIsExtracted | src/nz/ac/aut/hss/network/MailSender.java:86-89 | a text sent by `sendMail(recipients, subject, text)` is what the receiver's `extractText` finds, also after non-text attachments |
| MailSender.TextFollowsNonText | src/nz/ac/aut/hss/network/mail/MailReceiver.java:65-70 | a text part placed after parts that are not text is the first text part found |
| MailSender.MailSender.Create | src/nz/ac/aut/hss/network/MailSender.java:29-40 | fails exactly for a null host or a null or empty address, with IllegalArgumentException; the sender name falls back to the address |
| MailSender.MailSender.Connect | src/nz/ac/aut/hss/network/MailSender.java:50-64 | the "smtp" transport is created only once; a transport already connected is an IllegalStateException with nothing changed; otherwise it is connected with credentials exactly when there is an authenticator and without them otherwise, and a refused connect is a ConnectionException |
| MailSender.MailSender.SendMail | src/nz/ac/aut/hss/network/MailSender.java:116-134 | the message goes from the address under its display name to the recipients with the body parts in the given order; no transport is a NullPointerException, and the transport's answer decides the rest |
| MailSender.MailSender.SendMailTo | src/nz/ac/aut/hss/network/MailSender.java:97-108 | an unparseable recipient list is an IllegalArgumentException and nothing is sent; otherwise as `SendMail` |
| MailSender.MailSender.SendText | src/nz/ac/aut/hss/network/MailSender.java:86-89 | sends a single plain-text part |
| XMLSignerVerifier.SelectKeyFound | src/nz/ac/aut/hss/network/mail/XMLSignerVerifier.java:280-299 | non-KeyValue and incompatible entries are skipped and the first compatible KeyValue's key is returned, whatever follows |
| XMLSignerVerifier.SelectKeyBroken | src/nz/ac/aut/hss/network/mail/XMLSignerVerifier.java:284-289 | a KeyValue whose key cannot be read ends the selection with a KeySelectorException |
| XMLSignerVerifier.SelectKeyMissing | src/nz/ac/aut/hss/network/mail/XMLSignerVerifier.java:280-302 | with no compatible KeyValue, incompatible ones included, the selection fails with a KeySelectorException |
| XMLSignerVerifier.SelectKeySound | src/nz/ac/aut/hss/network/mail/XMLSignerVerifier.java:273-303 | a selected key is a readable, compatible KeyValue of the list preceded only by skipped entries; every failure is a KeySelectorException |
| XMLSignerVerifier.CompatibleCases | src/nz/ac/aut/hss/network/mail/XMLSignerVerifier.java:291-298 | compatibility is an RSA key with RSA-SHA1 or a DSA key with DSA-SHA1, ignoring case, and nothing for any other method |
| XMLSignerVerifier.Select | src/nz/ac/aut/hss/network/mail/XMLSignerVerifier.java:273-303 | the selector's loop: a null KeyInfo is a KeySelectorException, otherwise the first-match result |
| XMLSignerVerifier.ValidationOutcomes | src/nz/ac/aut/hss/network/mail/XMLSignerVerifier.java:195-232 | only a missing document, Signature element or provider escapes (as NullPointerException); `true` means the first Signature verifies under a key its own KeyInfo carries |
| XMLSignerVerifier.SignThenValidate | src/nz/ac/aut/hss/network/mail/XMLSignerVerifier.java:122-192 | a freshly signed document validates exactly when the signature checks out under the signer's RSA public key, and never for a non-RSA key |
| XMLSignerVerifier.FirstSignatureDecides | src/nz/ac/aut/hss/network/mail/XMLSignerVerifier.java:212-219 | only the first Signature element in document order is validated |
| XMLSignerVerifier.EmbeddedKeyAccepted | src/nz/ac/aut/hss/network/mail/XMLSignerVerifier.java:212-231 | a document signed with an attacker's own RSA key pair, embedding that key, validates although the trusted key rejects it |
| XMLSignerVerifier.AnchorOnlyTrusts | src/nz/ac/aut/hss/network/mail/XMLSignerVerifier.java:106 | validated against the truststore key, `true` means the signature verifies under that key, and a document signed with the trusted pair still validates |
| XMLSignerVerifier.XMLSignerVerifier.Sign | src/nz/ac/aut/hss/network/mail/XMLSignerVerifier.java:118-193 | a missing provider, key or document is a NullPointerException, and so is a public key that `newKeyValue` cannot wrap (not DSA, RSA or EC), because its caught KeyException leaves the signature null; a signing failure leaves the document unsigned; otherwise one Signature with SHA-1, the enveloped transform, inclusive canonicalisation with comments, RSA-SHA1 and the public key as KeyValue is appended |
| XMLSignerVerifier.XMLSignerVerifier.Validate | src/nz/ac/aut/hss/network/mail/XMLSignerVerifier.java:195-232 | the result flow of `validate`: the uncaught NullPointerExceptions, `false` for an unmarshalling or key-selection failure, else the cryptographic check under the selected embedded key |
| XMLSignerVerifier.XMLSignerVerifier.ValidateAgainstAnchor | src/nz/ac/aut/hss/network/mail/XMLSignerVerifier.java:100-106 | validation with the truststore key: `true` only when the first Signature verifies under that key |

## Left out

- Network I/O, JavaMail's protocol handling and DOM parsing are left out. Whether an open, a connect, a send or a signature check succeeds is an input to the operation that needs it.
- Thread interrupts are inputs, not modelled threads. A folder shared between threads is not modelled.
- `Thread.sleep` is treated as a no-op. Its own InterruptedException is not modelled.
- The reopen loop and both poll loops never terminate by themselves. The model takes the sequence of attempts and polls as input. Reopening requires that the sequence contains an attempt that is interrupted or whose open succeeds (`Terminates`). A receiver that runs out of supplied polls ends as `StillWaiting`.
- `disconnect`, `isConnected`, `close`, `toString`, `getDefaultFolder`, `getMessageCount` and `getMessageId` are left out: they only forward to JavaMail or print.
- The single-message wrappers `moveMessage`, `deleteMessage` and `getMessages(String)` are left out, and so is the folder-only `getMessages(Folder)`. Each one forwards to a modelled operation.
- NetworkMailClient.MailClient.MoveMessages: a move into the source folder itself is excluded by a precondition. Copying a folder onto itself while deleting from it is JavaMail behaviour the model does not describe.
- JavaMail's own checks are modelled only where the clients depend on them: `open` requires a closed folder and `close` an open one; setting flags and expunging require a folder open READ_WRITE; copying to a folder that does not exist fails; a store or transport that is already connected refuses `connect` with an IllegalStateException; `sendMessage` refuses when not connected, and refuses empty recipients or a server rejection with a MessagingException. Other argument and state checks of JavaMail are not modelled. The environment is trusted to report a folder that does not exist as a failed open.
- Case-insensitive comparison folds ASCII letters only. This covers `equalsIgnoreCase` and the Message-ID search.
- Content types are compared up to the first ';' without trimming whitespace.
- MailReceiver.IsText: the "*" subtype wildcard of `isMimeType` is not modelled, so a part of type "text/*" does not count as text.
- `MimeMessage.getReplyTo` falls back to From when there is no Reply-To header. The model takes the arrays JavaMail returns as given.
- The 32-bit `String.hashCode` is modelled for text in the Basic Multilingual Plane. Java folds UTF-16 code units, and the model folds characters. `Session.hashCode` is the session's identity hash, which is an input.
- `mail/MailAuthenticator.java`, which the `mail` package's clients use, is not part of this model. Both packages use the `network` package's authenticator.
- KeyFetcher, Application, LoginClient and ConnectionException are not part of this model. The keystore keys and the provider are inputs to the `XMLSignerVerifier` constructor.
- XMLSignerVerifier.XMLSignerVerifier.Sign: after a signing failure the model leaves the document unsigned. The library may already have attached a partly built Signature element at that point.
- XMLSignerVerifier.XMLSignerVerifier.Sign: the algorithm and parameter exceptions that the XML-Sig reference provider cannot raise for its own standard algorithms are not modelled.
- XMLSignerVerifier.XMLSignerVerifier.Sign: serialising the signed document to the output stream is not modelled, and neither is a failure while serialising it.
- XMLSignerVerifier.ValidationOutcomes: reference digests, canonicalisation and signature arithmetic are the uninterpreted `verifies` parameter. It is not proved that a signature cannot be forged.
- MailSender.MailSender.Connect: `createSession` writes its SMTP settings into the JVM's system properties object. The model returns a new map instead of altering shared state.
- NetworkMailClient.ImapSessionProperties, MailClient.ImapsSessionProperties: the `createSession` methods of both IMAP clients also write into the JVM's system properties object. The model returns a new map instead.
- MailSender.MailSender.SendMail: the sender address's encoding exception is left out, and so is the `saveChanges` call after sending.

## Findings

| source | as written | input that shows it | evidently intended | confidence | as-written member | corrected member |
|---|---|---|---|---|---|---|
| src/nz/ac/aut/hss/network/MailReceiver.java:35 | the search passes the raw comparison code 1, which JavaMail's `ComparisonTerm` defines as LE (received on or before), so each poll asks for old mail | against an IMAP server, a mail received at time 0 while the watermark is one day later is handed out on the first poll | hand out only mail received after the watermark. The `mail` package's receiver keeps to this with GT and an exact-time filter, though it misses same-day mail (next row) | medium, not executed | NetworkMailReceiver.LegacyHandsOutOldMail | MailReceiver.FreshIsNewer |
| src/nz/ac/aut/hss/network/mail/XMLSignerVerifier.java:218 | `validate` checks the signature against the public key embedded in the document's own KeyInfo; the truststore key loaded in the constructor is used only for signing | a document signed with an attacker's own RSA key pair and carrying that public key validates as `true` | verify against the trusted public key from the truststore | high, not executed | XMLSignerVerifier.EmbeddedKeyAccepted | XMLSignerVerifier.AnchorOnlyTrusts |
| src/nz/ac/aut/hss/network/mail/MailReceiver.java:38 | the search uses GT, which JavaMail sends as NOT ON d SINCE d, so the server selects only mail received on a later calendar day than the watermark | a mail received one millisecond into the watermark's day, after the watermark, is not handed out by this poll, and once a later delivery moves the watermark past it, by no poll | hand out every mail received after the watermark: search from the watermark's day on (GE, SINCE d) and let the exact-time filter drop the earlier ones | medium, not executed | MailReceiver.SameDayMailMissed | MailReceiver.FromDayIsComplete |
