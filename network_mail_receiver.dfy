/** `MailReceiver` of the `network` package, the earlier poll loop: it
    searches the INBOX with the raw comparison code 1 against the watermark,
    moves the watermark to "now" after every poll, empty or not, and hands
    out the server's hits as they are, without a local time filter. */
module NetworkMailReceiver {
  import opened MailTypes
  import opened Folders
  import opened FolderSession
  import NC = NetworkMailClient
  import R = MailReceiver

  const INBOX_FOLDER: string := "INBOX"

  /** The comparison code the search passes; in JavaMail's `ComparisonTerm`
      it is `LE`. The server's comparison receives it unchanged. */
  const LEGACY_COMPARISON: int := 1

  /** What one poll hands out when the inbox holds `mails` and the
      watermark is `date`: the server's hits, unfiltered. */
  function LegacyBatch(inbox: Folder, mails: seq<Mail>, date: int): seq<Message> {
    InFolder(inbox, Select(mails, ReceivedDateTerm(LEGACY_COMPARISON, date), inbox.dateMatches))
  }

  /** The watermark in effect for poll `n`: the starting one for the first
      poll, otherwise the "now" of the poll before. */
  function WatermarkAt(start: int, polls: seq<R.Poll>, n: nat): (r: int)
    requires n <= |polls|
    ensures n == 0 ==> r == start
    ensures n > 0 ==> r == polls[n - 1].now
  {
    if n == 0 then start else polls[n - 1].now
  }

  /** Each of the first `n` polls found no hit. */
  predicate LegacyQuiet(inbox: Folder, start: seq<Mail>, date: int, polls: seq<R.Poll>, n: nat)
    requires n <= |polls|
  {
    n == 0 ||
    (LegacyQuiet(inbox, start, date, polls, n - 1) &&
     LegacyBatch(inbox, R.Held(start, polls, n), WatermarkAt(date, polls, n - 1)) == [])
  }

  /** A poll hands out exactly the inbox's messages the server's comparison
      selects, whenever they were received. */
  lemma LegacyBatchExactly(inbox: Folder, mails: seq<Mail>, date: int, m: Mail)
    ensures Message(inbox, m) in LegacyBatch(inbox, mails, date) <==>
      m in mails && inbox.dateMatches(LEGACY_COMPARISON, m.receivedDate, date)
  {
    var sel := Select(mails, ReceivedDateTerm(LEGACY_COMPARISON, date), inbox.dateMatches);
    if m in mails && inbox.dateMatches(LEGACY_COMPARISON, m.receivedDate, date) {
      var k :| 0 <= k < |sel| && sel[k] == m;
      assert LegacyBatch(inbox, mails, date)[k] == Message(inbox, m);
    }
    if Message(inbox, m) in LegacyBatch(inbox, mails, date) {
      var k :| 0 <= k < |sel| && LegacyBatch(inbox, mails, date)[k] == Message(inbox, m);
    }
  }

  /** The two policies differ on a mail received at or before the
      watermark that the server's comparison selects: the earlier receiver
      hands it out, the later one filters it away. */
  lemma PoliciesDiffer(inbox: Folder, mails: seq<Mail>, date: int, m: Mail)
    requires m in mails && m.receivedDate <= date
    requires inbox.dateMatches(LEGACY_COMPARISON, m.receivedDate, date)
    ensures Message(inbox, m) in LegacyBatch(inbox, mails, date)
    ensures Message(inbox, m) !in R.Fresh(inbox, mails, date)
  {
    LegacyBatchExactly(inbox, mails, date, m);
    R.FreshExactly(inbox, mails, date, m);
  }

  /** How an IMAP server answers the code-1 (LE) received-date search:
      received on or before the calendar day of the date (BEFORE or ON,
      section 6.4.4 of RFC 3501; days counted in UTC). */
  predicate OnOrBeforeDay(code: int, received: int, date: int) {
    code == LEGACY_COMPARISON && received / DAY <= date / DAY
  }

  /** Against such a server, the first poll of the earlier receiver hands
      out a mail that arrived a whole day before the receiver was created. */
  lemma LegacyHandsOutOldMail(inbox: Folder)
    requires inbox.dateMatches == OnOrBeforeDay
    ensures var old_mail := Mail(7, "<7@h>", 0, true, SinglePart("old"));
      Message(inbox, old_mail) in LegacyBatch(inbox, [old_mail], DAY)
  {
    var old_mail := Mail(7, "<7@h>", 0, true, SinglePart("old"));
    assert OnOrBeforeDay(LEGACY_COMPARISON, 0, DAY);
    LegacyBatchExactly(inbox, [old_mail], DAY, old_mail);
  }

  class MailReceiver {
    const client: NC.MailClient
    const inbox: Folder
    var lastUpdateDate: int

    constructor (client: NC.MailClient, inbox: Folder, now: int)
      ensures this.client == client && this.inbox == inbox && lastUpdateDate == now
    {
      this.client := client;
      this.inbox := inbox;
      lastUpdateDate := now;
    }

    /** The constructor: looks up INBOX through the given client (an
        exception escapes when it does not exist) and starts the watermark
        at the time of construction. */
    static method Create(client: NC.MailClient, now: int) returns (r: Result<MailReceiver>)
      ensures r.Ok? <==> client.store != null && INBOX_FOLDER in client.store.folders && client.store.folders[INBOX_FOLDER].present
      ensures r.Err? ==> r.error == if client.store == null then NullPointer else FolderNotFound
      ensures r.Ok? ==> fresh(r.value) && r.value.client == client && r.value.lastUpdateDate == now
      ensures r.Ok? ==> r.value.inbox == client.store.folders[INBOX_FOLDER]
    {
      var f := client.GetAndValidateFolder(INBOX_FOLDER);
      if f.Err? {
        return Err(f.error);
      }
      var rcv := new MailReceiver(client, f.value, now);
      r := Ok(rcv);
    }

    /** One round of `waitForMessages` up to its decision: the server
        receives the poll's arrivals and the inbox is searched with code 1
        against the watermark. */
    method PollOnce(p: R.Poll) returns (r: Result<seq<Message>>)
      requires Terminates(p.env)
      modifies inbox
      ensures inbox.messages == old(inbox.messages) + p.arrivals
      ensures r.Err? ==> r.error == Interrupted
      ensures r.Ok? ==> r.value == LegacyBatch(inbox, inbox.messages, lastUpdateDate)
    {
      inbox.Deliver(p.arrivals);
      r := client.GetMessages(inbox, Some(ReceivedDateTerm(LEGACY_COMPARISON, lastUpdateDate)), p.env);
    }

    /** Poll `i` of `waitForMessages`, after polls without a hit: the
        inbox then holds the arrivals of polls up to `i`; a search that
        returns moves the watermark to the poll's "now", and an empty one
        extends the run of polls without a hit. */
    method PollAt(polls: seq<R.Poll>, i: nat, ghost start: seq<Mail>, ghost date: int)
      returns (r: Result<seq<Message>>)
      requires i < |polls| && Terminates(polls[i].env)
      requires lastUpdateDate == WatermarkAt(date, polls, i)
      requires inbox.messages == R.Held(start, polls, i) && LegacyQuiet(inbox, start, date, polls, i)
      modifies this, inbox
      ensures inbox.messages == R.Held(start, polls, i + 1)
      ensures r.Err? ==> r.error == Interrupted && lastUpdateDate == old(lastUpdateDate)
      ensures r.Ok? ==> lastUpdateDate == polls[i].now
      ensures r.Ok? ==> r.value == LegacyBatch(inbox, inbox.messages, WatermarkAt(date, polls, i))
      ensures r == Ok([]) ==> LegacyQuiet(inbox, start, date, polls, i + 1)
    {
      r := PollOnce(polls[i]);
      if r.Ok? {
        lastUpdateDate := polls[i].now;
      }
    }

    /** `waitForMessages()`: polls until the server's search returns a hit,
        moving the watermark to "now" after every search that returned,
        empty or not; an interrupt while reopening the inbox ends it with
        the watermark of that poll. `polled` is the index of the last poll
        made. */
    method WaitForMessages(polls: seq<R.Poll>) returns (d: R.Delivery, ghost polled: nat)
      requires forall k :: 0 <= k < |polls| ==> Terminates(polls[k].env)
      modifies this, inbox
      ensures d.StillWaiting? <==> polled == |polls|
      ensures polled <= |polls|
      ensures inbox.messages == R.Held(old(inbox.messages), polls, if d.StillWaiting? then polled else polled + 1)
      ensures d.Delivered? ==> |d.msgs| > 0
      ensures d.Delivered? ==> d.msgs == LegacyBatch(inbox, inbox.messages, WatermarkAt(old(lastUpdateDate), polls, polled))
      ensures d.Delivered? ==> lastUpdateDate == polls[polled].now
      ensures !d.Delivered? ==> lastUpdateDate == WatermarkAt(old(lastUpdateDate), polls, polled)
      ensures d.Failed? ==> d.error == Interrupted
      ensures LegacyQuiet(inbox, old(inbox.messages), old(lastUpdateDate), polls, polled)
    {
      ghost var start, date := inbox.messages, lastUpdateDate;
      var i := 0;
      var batch: Result<seq<Message>> := Ok([]);
      while i < |polls|
        invariant 0 <= i <= |polls|
        invariant lastUpdateDate == WatermarkAt(date, polls, i)
        invariant inbox.messages == R.Held(start, polls, i)
        invariant LegacyQuiet(inbox, start, date, polls, i)
      {
        batch := PollAt(polls, i, start, date);
        if batch != Ok([]) {
          break;
        }
        i := i + 1;
      }
      if i == |polls| {
        d, polled := R.StillWaiting, |polls|;
      } else if batch.Err? {
        d, polled := R.Failed(batch.error), i;
      } else {
        d, polled := R.Delivered(batch.value), i;
      }
    }
  }
}
