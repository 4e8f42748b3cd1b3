/** `MailReceiver` of the `mail` package: polls the INBOX for messages
    received after a watermark. The server's date search compares calendar
    days only (SINCE and BEFORE, section 6.4.4 of RFC 3501), so the receiver
    filters the hits locally by their exact received time; the watermark
    moves to "now" only when a non-empty batch is handed out. Time is given
    as an input, and each poll is what the environment does before and
    during it. */
module MailReceiver {
  import opened MailTypes
  import opened Folders
  import opened FolderSession
  import MC = MailClient
  import Auth = MailAuthenticator

  const INBOX_FOLDER: string := "INBOX"

  /** One round of the poll loop: the mails the server receives before it,
      the reopen environment of its `getMessages`, and the clock when its
      search returns. */
  datatype Poll = Poll(arrivals: seq<Mail>, env: seq<Attempt>, now: int)

  /** How `waitForMessages` ends: a non-empty batch, an exception, or (in
      the model only) the supplied polls ran out while it was still
      waiting. */
  datatype Delivery = Delivered(msgs: seq<Message>) | Failed(error: Error) | StillWaiting

  /** `filter(messages, date)`: the messages received strictly after
      `date`, in their order. */
  function NewerThan(msgs: seq<Message>, date: int): (r: seq<Message>)
    ensures |r| <= |msgs|
  {
    if msgs == [] then []
    else
      var last := msgs[|msgs| - 1];
      NewerThan(msgs[..|msgs| - 1], date) + (if last.mail.receivedDate > date then [last] else [])
  }

  /** `filter` keeps exactly the messages received strictly after `date`. */
  lemma {:induction false} NewerThanKeeps(msgs: seq<Message>, date: int)
    ensures forall k :: 0 <= k < |NewerThan(msgs, date)| ==>
      NewerThan(msgs, date)[k] in msgs && NewerThan(msgs, date)[k].mail.receivedDate > date
    ensures forall k :: 0 <= k < |msgs| && msgs[k].mail.receivedDate > date ==> msgs[k] in NewerThan(msgs, date)
  {
    if msgs != [] {
      var init := msgs[..|msgs| - 1];
      var last := msgs[|msgs| - 1];
      NewerThanKeeps(init, date);
      var kept, r := NewerThan(init, date), NewerThan(msgs, date);
      assert r == kept + (if last.mail.receivedDate > date then [last] else []);
      forall k | 0 <= k < |r|
        ensures r[k] in msgs && r[k].mail.receivedDate > date
      {
        if k < |kept| {
          assert r[k] == kept[k] && kept[k] in init;
          assert msgs == init + [last];
        } else {
          assert r[k] == last;
        }
      }
      forall k | 0 <= k < |msgs| && msgs[k].mail.receivedDate > date
        ensures msgs[k] in NewerThan(msgs, date)
      {
        if k < |init| {
          assert msgs[k] == init[k];
        }
      }
    }
  }

  /** Filtering distributes over concatenation: kept messages stay in their
      relative order. */
  lemma {:induction false} NewerThanAppend(a: seq<Message>, b: seq<Message>, date: int)
    ensures NewerThan(a + b, date) == NewerThan(a, date) + NewerThan(b, date)
    decreases |b|
  {
    if b == [] {
      assert a + b == a;
    } else {
      var b' := b[..|b| - 1];
      assert (a + b)[..|a + b| - 1] == a + b';
      NewerThanAppend(a, b', date);
    }
  }

  /** Filtering twice by the same date is filtering once. */
  lemma {:induction false} NewerThanIdempotent(msgs: seq<Message>, date: int)
    ensures NewerThan(NewerThan(msgs, date), date) == NewerThan(msgs, date)
  {
    if msgs != [] {
      var init := msgs[..|msgs| - 1];
      var last := msgs[|msgs| - 1];
      NewerThanIdempotent(init, date);
      var tail := if last.mail.receivedDate > date then [last] else [];
      NewerThanAppend(NewerThan(init, date), tail, date);
      assert NewerThan(tail, date) == tail by {
        if tail != [] {
          assert tail[..0] == [];
        }
      }
    }
  }

  /** A later watermark filters out more: filtering by `later` after
      `earlier` is filtering by `later` alone. */
  lemma {:induction false} NewerThanLater(msgs: seq<Message>, earlier: int, later: int)
    requires earlier <= later
    ensures NewerThan(NewerThan(msgs, earlier), later) == NewerThan(msgs, later)
  {
    if msgs != [] {
      var init := msgs[..|msgs| - 1];
      var last := msgs[|msgs| - 1];
      NewerThanLater(init, earlier, later);
      var tail := if last.mail.receivedDate > earlier then [last] else [];
      NewerThanAppend(NewerThan(init, earlier), tail, later);
      if tail != [] {
        assert tail[..0] == [];
      }
    }
  }

  /** The loop of `filter`. */
  method Filter(msgs: seq<Message>, date: int) returns (r: seq<Message>)
    ensures r == NewerThan(msgs, date)
  {
    r := [];
    for i := 0 to |msgs|
      invariant r == NewerThan(msgs[..i], date)
    {
      assert msgs[..i + 1][..i] == msgs[..i];
      if msgs[i].mail.receivedDate > date {
        r := r + [msgs[i]];
      }
    }
    assert msgs[..|msgs|] == msgs;
  }

  /** What one poll hands out when the inbox holds `mails` and the
      watermark is `date`: the server's day-granular search for messages
      received after `date`, filtered by exact time. */
  function Fresh(inbox: Folder, mails: seq<Mail>, date: int): seq<Message> {
    NewerThan(InFolder(inbox, Select(mails, ReceivedDateTerm(GT, date), inbox.dateMatches)), date)
  }

  /** A poll hands out exactly the inbox's messages that the server's
      search selects and that were received after the watermark, each as a
      message of the inbox. */
  lemma FreshExactly(inbox: Folder, mails: seq<Mail>, date: int, m: Mail)
    ensures Message(inbox, m) in Fresh(inbox, mails, date) <==>
      m in mails && inbox.dateMatches(GT, m.receivedDate, date) && m.receivedDate > date
  {
    var sel := Select(mails, ReceivedDateTerm(GT, date), inbox.dateMatches);
    var held := InFolder(inbox, sel);
    NewerThanKeeps(held, date);
    if m in mails && inbox.dateMatches(GT, m.receivedDate, date) && m.receivedDate > date {
      var k :| 0 <= k < |sel| && sel[k] == m;
      assert held[k] == Message(inbox, m);
    }
    if Message(inbox, m) in Fresh(inbox, mails, date) {
      var k :| 0 <= k < |held| && held[k] == Message(inbox, m);
      assert sel[k] == m;
    }
  }

  /** The inbox after the first `n` polls' arrivals, starting from `start`. */
  function Held(start: seq<Mail>, polls: seq<Poll>, n: nat): (r: seq<Mail>)
    requires n <= |polls|
    ensures |r| >= |start| && r[..|start|] == start
  {
    if n == 0 then start else Held(start, polls, n - 1) + polls[n - 1].arrivals
  }

  /** Each of the first `n` polls, starting from an inbox holding `start`,
      found nothing received after `date`. */
  predicate Quiet(inbox: Folder, start: seq<Mail>, polls: seq<Poll>, n: nat, date: int)
    requires n <= |polls|
  {
    n == 0 || (Quiet(inbox, start, polls, n - 1, date) && Fresh(inbox, Held(start, polls, n), date) == [])
  }

  /** How an IMAP server answers JavaMail's GT received-date search, which
      JavaMail sends as NOT ON d SINCE d (section 6.4.4 of RFC 3501): the
      mails received on a later calendar day than the date. */
  predicate AfterDay(code: int, received: int, date: int) {
    code == GT && received / DAY > date / DAY
  }

  /** Against such a server, a mail received after the watermark but on the
      watermark's own day is not handed out; once the watermark has moved to
      its received time or later, no poll hands it out either. */
  lemma SameDayMailMissed(inbox: Folder, later: int)
    requires inbox.dateMatches == AfterDay
    requires later >= DAY + 1
    ensures var m := Mail(8, "<8@h>", DAY + 1, true, SinglePart("new"));
      && m.receivedDate > DAY
      && Message(inbox, m) !in Fresh(inbox, [m], DAY)
      && Message(inbox, m) !in Fresh(inbox, [m], later)
  {
    var m := Mail(8, "<8@h>", DAY + 1, true, SinglePart("new"));
    assert !AfterDay(GT, m.receivedDate, DAY);
    FreshExactly(inbox, [m], DAY, m);
    FreshExactly(inbox, [m], later, m);
  }

  /** How an IMAP server answers a GE received-date search (SINCE d): the
      mails received on the calendar day of the date or later. */
  predicate OnOrAfterDay(code: int, received: int, date: int) {
    code == GE && received / DAY >= date / DAY
  }

  /** The poll the receiver evidently intends: the mails received on or
      after the watermark's day, then filtered by their exact time. */
  function FreshFromDay(inbox: Folder, mails: seq<Mail>, date: int): seq<Message> {
    NewerThan(InFolder(inbox, Select(mails, ReceivedDateTerm(GE, date), inbox.dateMatches)), date)
  }

  /** Day numbers do not decrease with time. */
  lemma DayMonotone(a: int, b: int)
    requires a <= b
    ensures a / DAY <= b / DAY
  {
    var qa, ra := a / DAY, a % DAY;
    var qb, rb := b / DAY, b % DAY;
    assert a == DAY * qa + ra && b == DAY * qb + rb;
  }

  /** With the day-inclusive search, a poll hands out exactly the inbox's
      mails received strictly after the watermark, same-day mail included. */
  lemma FromDayIsComplete(inbox: Folder, mails: seq<Mail>, date: int, m: Mail)
    requires inbox.dateMatches == OnOrAfterDay
    ensures Message(inbox, m) in FreshFromDay(inbox, mails, date) <==> m in mails && m.receivedDate > date
  {
    var sel := Select(mails, ReceivedDateTerm(GE, date), inbox.dateMatches);
    var held := InFolder(inbox, sel);
    NewerThanKeeps(held, date);
    if m in mails && m.receivedDate > date {
      DayMonotone(date, m.receivedDate);
      assert inbox.dateMatches(GE, m.receivedDate, date);
      var k :| 0 <= k < |sel| && sel[k] == m;
      assert held[k] == Message(inbox, m);
    }
    if Message(inbox, m) in FreshFromDay(inbox, mails, date) {
      var k :| 0 <= k < |held| && held[k] == Message(inbox, m);
      assert sel[k] == m;
    }
  }

  /** Every message a poll hands out belongs to the inbox and was received
      strictly after the watermark. */
  lemma FreshIsNewer(inbox: Folder, mails: seq<Mail>, date: int)
    ensures forall k :: 0 <= k < |Fresh(inbox, mails, date)| ==> Fresh(inbox, mails, date)[k].folder == inbox
    ensures forall k :: 0 <= k < |Fresh(inbox, mails, date)| ==> Fresh(inbox, mails, date)[k].mail.receivedDate > date
  {
    var held := InFolder(inbox, Select(mails, ReceivedDateTerm(GT, date), inbox.dateMatches));
    NewerThanKeeps(held, date);
    forall k | 0 <= k < |Fresh(inbox, mails, date)|
      ensures Fresh(inbox, mails, date)[k].folder == inbox
    {
      var j :| 0 <= j < |held| && held[j] == Fresh(inbox, mails, date)[k];
    }
  }

  /** A content type that `isMimeType("text/plain") || isMimeType("text/html")`
      accepts: the type without its parameters, compared ignoring case. */
  predicate IsTextType(t: string) {
    var base := BaseType(t);
    EqualsIgnoreCase(base, "text/plain") || EqualsIgnoreCase(base, "text/html")
  }

  /** A text part, by its content type. */
  predicate IsText(part: BodyPart) {
    IsTextType(part.mimeType)
  }

  /** A content type up to its first ';'. */
  function BaseType(t: string): (r: string)
    ensures r <= t && ';' !in r
    ensures |r| < |t| ==> t[|r|] == ';'
  {
    if t == [] || t[0] == ';' then [] else [t[0]] + BaseType(t[1..])
  }

  /** A content type without parameters is its own base type. */
  lemma {:induction false} BaseTypeWithoutParameters(t: string)
    requires ';' !in t
    ensures BaseType(t) == t
  {
    if t != [] {
      assert t[0] in t;
      assert forall c :: c in t[1..] ==> c in t;
      BaseTypeWithoutParameters(t[1..]);
    }
  }

  /** The index of the first text part. */
  function FirstText(parts: seq<BodyPart>): (r: Option<nat>)
    ensures r.Some? ==> r.value < |parts| && IsText(parts[r.value])
    ensures r.Some? ==> forall j :: 0 <= j < r.value ==> !IsText(parts[j])
    ensures r.None? <==> forall j :: 0 <= j < |parts| ==> !IsText(parts[j])
  {
    if parts == [] then None
    else if IsText(parts[0]) then Some(0)
    else
      var rest := FirstText(parts[1..]);
      assert forall j :: 1 <= j < |parts| ==> parts[j] == parts[1..][j - 1];
      if rest.None? then None else Some(rest.value + 1)
  }

  /** `extractText(msg)`: a body that is not multipart is an
      IllegalArgumentException; otherwise the text of the first text/plain
      or text/html part, or an IllegalStateException when there is none. */
  method ExtractText(content: Content) returns (r: Result<string>)
    ensures content.SinglePart? ==> r == Err(IllegalArgument)
    ensures content.Multipart? && FirstText(content.parts).None? ==> r == Err(IllegalState)
    ensures content.Multipart? && FirstText(content.parts).Some? ==>
      r == Ok(content.parts[FirstText(content.parts).value].text)
  {
    if !content.Multipart? {
      return Err(IllegalArgument);
    }
    var parts := content.parts;
    var i := 0;
    while i < |parts|
      invariant 0 <= i <= |parts|
      invariant forall j :: 0 <= j < i ==> !IsText(parts[j])
    {
      if IsText(parts[i]) {
        return Ok(parts[i].text);
      }
      i := i + 1;
    }
    r := Err(IllegalState);
  }

  class MailReceiver {
    const client: MC.MailClient
    const inbox: Folder
    var lastUpdateDate: int

    constructor (client: MC.MailClient, inbox: Folder, now: int)
      ensures this.client == client && this.inbox == inbox && lastUpdateDate == now
    {
      this.client := client;
      this.inbox := inbox;
      lastUpdateDate := now;
    }

    /** The constructor: builds a client for host and port, connects it
        and looks up INBOX, any failure escaping; the watermark starts at
        the time of construction. */
    static method Create(host: Option<string>, port: int32, authenticator: Option<Auth.MailAuthenticator>,
                         sysProps: map<string, string>, identityHash: int32, remote: map<string, Folder>,
                         connects: bool, now: int)
      returns (r: Result<MailReceiver>)
      ensures r.Ok? <==> host.Some? && authenticator.Some? && connects && INBOX_FOLDER in remote && remote[INBOX_FOLDER].present
      ensures host.None? ==> r == Err(IllegalArgument)
      ensures host.Some? && authenticator.None? ==> r == Err(NullPointer)
      ensures host.Some? && authenticator.Some? && !connects ==> r == Err(Connection)
      ensures host.Some? && authenticator.Some? && connects && !(INBOX_FOLDER in remote && remote[INBOX_FOLDER].present) ==>
        r == Err(FolderNotFound)
      ensures r.Ok? ==> fresh(r.value) && r.value.lastUpdateDate == now && r.value.inbox == remote[INBOX_FOLDER]
    {
      var c := MC.MailClient.CreateWithDefaults(host, port, authenticator);
      if c.Err? {
        return Err(c.error);
      }
      var client := c.value;
      var o := client.Connect(sysProps, identityHash, remote, connects);
      if o.Fail? {
        return Err(o.error);
      }
      var f := client.GetAndValidateFolder(INBOX_FOLDER);
      if f.Err? {
        return Err(f.error);
      }
      var rcv := new MailReceiver(client, f.value, now);
      r := Ok(rcv);
    }

    /** One round of `waitForMessages` up to its decision: the server
        receives the poll's arrivals, the inbox is searched for messages
        received after the watermark and the hits filtered; an interrupt
        while reopening the inbox escapes. */
    method PollOnce(p: Poll) returns (r: Result<seq<Message>>)
      requires Terminates(p.env)
      modifies inbox
      ensures inbox.messages == old(inbox.messages) + p.arrivals
      ensures r.Err? ==> r.error == Interrupted
      ensures r.Ok? ==> r.value == Fresh(inbox, inbox.messages, lastUpdateDate)
    {
      inbox.Deliver(p.arrivals);
      var term := ReceivedDateTerm(GT, lastUpdateDate);
      var got := client.GetMessages(inbox, Some(term), p.env);
      if got.Err? {
        return Err(got.error);
      }
      var batch := Filter(got.value, lastUpdateDate);
      r := Ok(batch);
    }

    /** Poll `i` of `waitForMessages`, after polls that found nothing: the
        inbox then holds the arrivals of polls up to `i`, and an empty batch
        extends the run of quiet polls. */
    method PollAt(polls: seq<Poll>, i: nat, ghost start: seq<Mail>, ghost date: int)
      returns (r: Result<seq<Message>>)
      requires i < |polls| && Terminates(polls[i].env)
      requires lastUpdateDate == date
      requires inbox.messages == Held(start, polls, i) && Quiet(inbox, start, polls, i, date)
      modifies inbox
      ensures inbox.messages == Held(start, polls, i + 1)
      ensures r.Err? ==> r.error == Interrupted
      ensures r.Ok? ==> r.value == Fresh(inbox, inbox.messages, date)
      ensures r == Ok([]) ==> Quiet(inbox, start, polls, i + 1, date)
    {
      r := PollOnce(polls[i]);
    }

    /** `waitForMessages()`: polls until a poll hands out a non-empty batch
        of messages received after the watermark, which then moves to that
        poll's "now"; an interrupt while reopening the inbox ends it. Every
        earlier poll handed out nothing and left the watermark where it
        was. `polled` is the index of the last poll made. */
    method WaitForMessages(polls: seq<Poll>) returns (d: Delivery, ghost polled: nat)
      requires forall k :: 0 <= k < |polls| ==> Terminates(polls[k].env)
      modifies this, inbox
      ensures d.StillWaiting? <==> polled == |polls|
      ensures polled <= |polls|
      ensures inbox.messages == Held(old(inbox.messages), polls, if d.StillWaiting? then polled else polled + 1)
      ensures d.Delivered? ==> |d.msgs| > 0 && d.msgs == Fresh(inbox, inbox.messages, old(lastUpdateDate))
      ensures d.Delivered? ==> lastUpdateDate == polls[polled].now
      ensures !d.Delivered? ==> lastUpdateDate == old(lastUpdateDate)
      ensures d.Failed? ==> d.error == Interrupted
      ensures Quiet(inbox, old(inbox.messages), polls, polled, old(lastUpdateDate))
    {
      ghost var start, date := inbox.messages, lastUpdateDate;
      var i := 0;
      var batch: Result<seq<Message>> := Ok([]);
      while i < |polls|
        invariant 0 <= i <= |polls|
        invariant inbox.messages == Held(start, polls, i)
        invariant Quiet(inbox, start, polls, i, date)
        modifies inbox
      {
        batch := PollAt(polls, i, start, date);
        if batch.Err? || |batch.value| != 0 {
          break;
        }
        i := i + 1;
      }
      if i == |polls| {
        return StillWaiting, |polls|;
      }
      if batch.Err? {
        return Failed(batch.error), i;
      }
      lastUpdateDate := polls[i].now;
      d, polled := Delivered(batch.value), i;
    }
  }
}
