/** The JavaMail objects the clients drive, reduced to the state the clients
    rely on: a `Folder` (open flag, mode, stored messages, \Deleted flags and
    a log of the calls made on it), a `Store` (its folders) and a `Session`
    (its properties). What the server decides (whether an `open` succeeds,
    how it compares dates) is given from outside. */
module Folders {
  import opened MailTypes

  /** `ComparisonTerm.GT` of JavaMail, the code `DateTerm.GT` stands for. */
  const GT: int := 5

  /** `ComparisonTerm.GE` of JavaMail. */
  const GE: int := 6

  /** Milliseconds per day. */
  const DAY: int := 86400000

  /** The search terms the clients build. */
  datatype SearchTerm =
    | MessageIdTerm(pattern: string)
    | OrTerm(terms: seq<SearchTerm>)
    | ReceivedDateTerm(comparison: int, date: int)

  /** `p` occurs in `s` as a contiguous run. */
  predicate ContainsRun(s: string, p: string) {
    p <= s || (|s| > 0 && ContainsRun(s[1..], p))
  }

  /** `s` with every letter folded to lower case. */
  function LowerString(s: string): (r: string)
    ensures |r| == |s|
    ensures forall i :: 0 <= i < |s| ==> r[i] == Lower(s[i])
  {
    if s == [] then [] else [Lower(s[0])] + LowerString(s[1..])
  }

  /** Folding leaves a string without upper-case letters unchanged. */
  lemma LowerStringKeeps(s: string)
    requires forall i :: 0 <= i < |s| ==> !('A' <= s[i] <= 'Z')
    ensures LowerString(s) == s
  {
    assert forall i :: 0 <= i < |s| ==> LowerString(s)[i] == s[i];
  }

  /** A Message-ID header matches a pattern when the pattern occurs in it,
      letters compared ignoring case (SEARCH HEADER, section 6.4.4 of
      RFC 3501; JavaMail's `MessageIDTerm` ignores case too). */
  predicate IdMatches(messageId: string, p: string) {
    ContainsRun(LowerString(messageId), LowerString(p))
  }

  /** Whether the server's search selects `m`: a Message-ID term matches
      as `IdMatches` says, an OR term when one of its terms does, and a date term as
      the server's own date comparison `dateMatches(code, received, date)`
      decides (SINCE and BEFORE compare dates only, not times). */
  predicate Matches(term: SearchTerm, m: Mail, dateMatches: (int, int, int) -> bool) {
    match term
    case MessageIdTerm(p) => IdMatches(m.messageId, p)
    case OrTerm(ts) => exists k :: 0 <= k < |ts| && Matches(ts[k], m, dateMatches)
    case ReceivedDateTerm(c, d) => dateMatches(c, m.receivedDate, d)
  }

  /** The messages of `mails` that `term` selects, in folder order. */
  function Select(mails: seq<Mail>, term: SearchTerm, dateMatches: (int, int, int) -> bool): (r: seq<Mail>)
    ensures |r| <= |mails|
    ensures forall m :: m in r <==> m in mails && Matches(term, m, dateMatches)
  {
    if mails == [] then []
    else (if Matches(term, mails[0], dateMatches) then [mails[0]] else [])
         + Select(mails[1..], term, dateMatches)
  }

  /** The messages that survive an expunge of the uids in `deleted`. */
  function Expunged(mails: seq<Mail>, deleted: set<nat>): (r: seq<Mail>)
    ensures |r| <= |mails|
    ensures forall m :: m in r <==> m in mails && m.uid !in deleted
  {
    if mails == [] then []
    else (if mails[0].uid in deleted then [] else [mails[0]]) + Expunged(mails[1..], deleted)
  }

  /** A JavaMail `Folder`. */
  class Folder {
    const name: string
    const present: bool
    /** The server's date comparison for `ReceivedDateTerm`. */
    const dateMatches: (int, int, int) -> bool
    var isOpen: bool
    var mode: int
    var messages: seq<Mail>
    /** The uids flagged \Deleted (section 2.3.2 of RFC 3501). */
    var deleted: set<nat>
    /** The calls made on this folder, oldest first. */
    var log: seq<FolderOp>

    constructor (name: string, present: bool, dateMatches: (int, int, int) -> bool, messages: seq<Mail>)
      ensures this.name == name && this.present == present && this.dateMatches == dateMatches
      ensures this.messages == messages && !isOpen && deleted == {} && log == []
    {
      this.name := name;
      this.present := present;
      this.dateMatches := dateMatches;
      this.messages := messages;
      isOpen := false;
      mode := READ_ONLY;
      deleted := {};
      log := [];
    }

    function State(): FolderState
      reads this
    {
      FolderState(isOpen, mode)
    }

    /** `open(m)`; the transport decides whether it succeeds. Opening an
        open folder is an IllegalStateException in JavaMail. */
    method Open(m: int, succeeds: bool)
      requires !isOpen
      modifies this
      ensures State() == if succeeds then FolderState(true, m) else old(State())
      ensures log == old(log) + [OpenOp(m)]
      ensures messages == old(messages) && deleted == old(deleted)
    {
      if succeeds {
        isOpen, mode := true, m;
      }
      log := log + [OpenOp(m)];
    }

    /** `close(expunge)`. */
    method Close(expunge: bool)
      requires isOpen
      modifies this
      ensures State() == FolderState(false, old(mode))
      ensures log == old(log) + [CloseOp(expunge)]
      ensures messages == if expunge then Expunged(old(messages), old(deleted)) else old(messages)
      ensures deleted == if expunge then {} else old(deleted)
    {
      if expunge {
        messages, deleted := Expunged(messages, deleted), {};
      }
      isOpen := false;
      log := log + [CloseOp(expunge)];
    }

    /** `getMessages()`: every stored message, flagged or not. */
    method GetMessages() returns (r: seq<Mail>)
      requires isOpen
      ensures r == messages
    {
      r := messages;
    }

    /** `search(term)`. */
    method Search(term: SearchTerm) returns (r: seq<Mail>)
      requires isOpen
      ensures r == Select(messages, term, dateMatches)
    {
      r := Select(messages, term, dateMatches);
    }

    /** `copyMessages(mails, dest)` (COPY, section 6.4.7 of RFC 3501): a
        destination that does not exist is a FolderNotFoundException;
        otherwise the copies arrive in `dest` in the given order, without the
        \Deleted flag. */
    method CopyMessages(mails: seq<Mail>, dest: Folder) returns (copied: bool)
      requires isOpen && dest != this
      modifies this, dest
      ensures copied == dest.present
      ensures dest.messages == if copied then old(dest.messages) + mails else old(dest.messages)
      ensures dest.State() == old(dest.State()) && dest.deleted == old(dest.deleted) && dest.log == old(dest.log)
      ensures log == if copied then old(log) + [CopyOp(Uids(mails), dest.name)] else old(log)
      ensures State() == old(State()) && messages == old(messages) && deleted == old(deleted)
    {
      copied := dest.present;
      if copied {
        dest.messages := dest.messages + mails;
        log := log + [CopyOp(Uids(mails), dest.name)];
      }
    }

    /** `setFlags(mails, DELETED, true)`; JavaMail refuses it on a folder
        that is not open READ_WRITE, the stronger of its two modes. */
    method FlagDeleted(uids: set<nat>)
      requires isOpen && mode >= READ_WRITE
      modifies this
      ensures deleted == old(deleted) + uids
      ensures log == old(log) + [FlagDeletedOp(uids)]
      ensures State() == old(State()) && messages == old(messages)
    {
      deleted := deleted + uids;
      log := log + [FlagDeletedOp(uids)];
    }

    /** `expunge()` (EXPUNGE, section 6.4.3 of RFC 3501): removes every
        message flagged \Deleted, whoever flagged it. */
    method Expunge()
      requires isOpen && mode >= READ_WRITE
      modifies this
      ensures messages == Expunged(old(messages), old(deleted)) && deleted == {}
      ensures log == old(log) + [ExpungeOp]
      ensures State() == old(State())
    {
      messages, deleted := Expunged(messages, deleted), {};
      log := log + [ExpungeOp];
    }

    /** New mail delivered to this folder by the server. */
    method Deliver(arrivals: seq<Mail>)
      modifies this
      ensures messages == old(messages) + arrivals
      ensures State() == old(State()) && deleted == old(deleted) && log == old(log)
    {
      messages := messages + arrivals;
    }
  }

  /** The uids of `mails`, in order. */
  function Uids(mails: seq<Mail>): (r: seq<nat>)
    ensures |r| == |mails| && forall k :: 0 <= k < |mails| ==> r[k] == mails[k].uid
  {
    if mails == [] then [] else [mails[0].uid] + Uids(mails[1..])
  }

  /** A message as JavaMail hands it out: the folder it belongs to and the
      stored message. */
  datatype Message = Message(folder: Folder, mail: Mail)

  /** The stored messages behind `msgs`. */
  function MailsOf(msgs: seq<Message>): (r: seq<Mail>)
    ensures |r| == |msgs| && forall k :: 0 <= k < |msgs| ==> r[k] == msgs[k].mail
  {
    if msgs == [] then [] else [msgs[0].mail] + MailsOf(msgs[1..])
  }

  /** `mails` handed out as messages of `folder`. */
  function InFolder(folder: Folder, mails: seq<Mail>): (r: seq<Message>)
    ensures |r| == |mails| && forall k :: 0 <= k < |mails| ==> r[k] == Message(folder, mails[k])
  {
    if mails == [] then [] else [Message(folder, mails[0])] + InFolder(folder, mails[1..])
  }

  /** A JavaMail `Session`: its properties and its identity hash code. */
  class Session {
    const props: map<string, string>
    const identityHash: int32

    constructor (props: map<string, string>, identityHash: int32)
      ensures this.props == props && this.identityHash == identityHash
    {
      this.props := props;
      this.identityHash := identityHash;
    }
  }

  /** A JavaMail `Store`: a connection to one server and its folders. */
  class Store {
    const protocol: string
    const folders: map<string, Folder>
    var connected: bool
    /** host, user name and password of the last successful connect */
    var credentials: Option<(string, string, string)>

    constructor (protocol: string, folders: map<string, Folder>)
      ensures this.protocol == protocol && this.folders == folders
      ensures !connected && credentials == None
    {
      this.protocol := protocol;
      this.folders := folders;
      connected := false;
      credentials := None;
    }

    /** `connect(host, user, password)`: an IllegalStateException when the
        store is already connected; otherwise the server decides whether it
        succeeds, a refusal being a MessagingException. */
    method Connect(host: string, user: string, password: string, succeeds: bool) returns (r: Outcome)
      modifies this
      ensures old(connected) ==> r == Fail(IllegalState) && connected && credentials == old(credentials)
      ensures !old(connected) ==> r == (if succeeds then Pass else Fail(Messaging)) && connected == succeeds
      ensures !old(connected) ==> credentials == if succeeds then Some((host, user, password)) else old(credentials)
    {
      if connected {
        return Fail(IllegalState);
      }
      if !succeeds {
        return Fail(Messaging);
      }
      connected, credentials := true, Some((host, user, password));
      r := Pass;
    }

    /** `getFolder(name)`: the server's folder of that name, or a fresh
        handle to a folder that does not exist. */
    method GetFolder(name: string) returns (f: Folder)
      ensures name in folders ==> f == folders[name]
      ensures name !in folders ==> fresh(f) && f.name == name && !f.present && !f.isOpen
    {
      if name in folders {
        f := folders[name];
      } else {
        f := new Folder(name, false, (c, r, d) => false, []);
      }
    }
  }
}
