/** Values shared by the whole mail-session model: JavaMail's folder modes,
    the stored messages, the outcomes that stand for Java's exceptions, and
    Java's 32-bit `int` arithmetic as used by the `hashCode` methods. */
module MailTypes {

  /** `Folder.READ_ONLY` and `Folder.READ_WRITE` of JavaMail; they select a
      mailbox with EXAMINE and SELECT (sections 6.3.2 and 6.3.1 of RFC 3501). */
  const READ_ONLY: int := 1
  const READ_WRITE: int := 2

  datatype Option<+T> = None | Some(value: T)

  /** The Java exceptions the core throws or lets escape. */
  datatype Error =
    | IllegalArgument   // IllegalArgumentException
    | IllegalState      // IllegalStateException
    | Interrupted       // InterruptedException
    | FolderNotFound    // FolderNotFoundException
    | Messaging         // a MessagingException of the transport
    | Connection        // ConnectionException
    | NullPointer       // NullPointerException on a null field or argument
    | KeySelection      // KeySelectorException

  datatype Result<+T> = Ok(value: T) | Err(error: Error)

  /** The outcome of a `void` Java method: normal return or an exception. */
  datatype Outcome = Pass | Fail(error: Error)

  /** The argument of a Java `equals(Object)`: null, an instance of the same
      class, or an instance of some other class. */
  datatype Ref<+T> = Null | Instance(obj: T) | OtherClass

  /** One part of a multipart body: its MIME type, its text and the file name
      it carries when it is an attachment. */
  datatype BodyPart = BodyPart(mimeType: string, text: string, fileName: Option<string>)

  datatype Content = Multipart(parts: seq<BodyPart>) | SinglePart(text: string)

  /** A message as a folder stores it: `uid` is its identity inside the
      folder, `messageId` its Message-ID header (section 3.6.4 of RFC 5322),
      `receivedDate` its arrival time in milliseconds, `isMime` whether
      JavaMail hands it out as a `MimeMessage`. */
  datatype Mail = Mail(uid: nat, messageId: string, receivedDate: int, isMime: bool, content: Content)

  /** What the environment does in one iteration of the folder-reopen loop:
      whether the thread has been interrupted by then, and whether the
      transport lets the next `open` succeed. */
  datatype Attempt = Attempt(interrupted: bool, openSucceeds: bool)

  /** An attempt that ends the reopen loop. */
  predicate Decisive(a: Attempt) {
    a.interrupted || a.openSucceeds
  }

  /** Some attempt of `env` ends the reopen loop: exactly the condition under
      which the source's retry loop, started on a closed folder, terminates. */
  predicate Terminates(env: seq<Attempt>) {
    |env| > 0 && (Decisive(env[0]) || Terminates(env[1..]))
  }

  /** The index of the first attempt that ends the reopen loop. */
  function FirstDecisive(env: seq<Attempt>): (i: nat)
    requires Terminates(env)
    ensures i < |env| && Decisive(env[i])
    ensures forall j :: 0 <= j < i ==> !Decisive(env[j])
  {
    if Decisive(env[0]) then 0 else 1 + FirstDecisive(env[1..])
  }

  /** The calls the model records on a folder, in order. */
  datatype FolderOp =
    | OpenOp(mode: int)
    | CloseOp(expunge: bool)
    | CopyOp(copied: seq<nat>, dest: string)
    | FlagDeletedOp(flagged: set<nat>)
    | ExpungeOp

  /** The open/mode part of a folder's state. */
  datatype FolderState = FolderState(isOpen: bool, mode: int)

  /** A folder state in which an operation needing `mode` may run. */
  predicate Sufficient(s: FolderState, mode: int) {
    s.isOpen && s.mode >= mode
  }

  /** Java's `int`. */
  type int32 = x: int | -0x8000_0000 <= x < 0x8000_0000

  /** Two's-complement wrap-around of Java `int` arithmetic. */
  function Wrap32(x: int): (r: int32)
    ensures (r - x) % 0x1_0000_0000 == 0
  {
    (x + 0x8000_0000) % 0x1_0000_0000 - 0x8000_0000
  }

  /** `String.hashCode`: s[0]*31^(n-1) + ... + s[n-1], in `int` arithmetic. */
  function StringHash(s: string): int32 {
    if s == [] then 0 else Wrap32(31 * StringHash(s[..|s| - 1]) + s[|s| - 1] as int)
  }

  /** ASCII lower case, as Java's `equalsIgnoreCase` folds letters. */
  function Lower(c: char): (r: char)
    ensures 'A' <= c <= 'Z' ==> r as int == c as int + 32
    ensures !('A' <= c <= 'Z') ==> r == c
  {
    if 'A' <= c <= 'Z' then (c as int + 32) as char else c
  }

  /** `a.equalsIgnoreCase(b)` for ASCII text. */
  predicate EqualsIgnoreCase(a: string, b: string) {
    |a| == |b| && forall i :: 0 <= i < |a| ==> Lower(a[i]) == Lower(b[i])
  }
}
