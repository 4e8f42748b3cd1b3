/** `MailClient` of the `network` package: an IMAP client with a lazily
    created session and store, the folder reopen loop, and the message
    operations built on it (listing, search by Message-ID, move and delete).
    The server's folders are handed to `Connect`; every decision of the
    transport is an input. */
module NetworkMailClient {
  import opened MailTypes
  import opened Folders
  import opened FolderSession
  import Auth = MailAuthenticator

  /** The client's `Defaults`. */
  const RESPONSE_TIMEOUT: int := 300000
  const BUFFER_SIZE: int := 65536
  const FETCH_SIZE: int := 819200

  /** The keys `createSession` sets. */
  const IMAP_KEYS: set<string> := {"mail.imap.connectionpooltimeout", "mail.imap.connectiontimeout",
    "mail.imap.timeout", "mail.imaps.partialfetch", "mail.imap.fetchsize"}

  /** `createSession(properties)`: the system properties with the IMAP
      timeouts, partial fetch switched off and the fetch size raised. */
  function ImapSessionProperties(props: map<string, string>): (r: map<string, string>)
    ensures r.Keys == props.Keys + IMAP_KEYS
    ensures r["mail.imap.timeout"] == "300000" && r["mail.imap.connectiontimeout"] == "300000"
    ensures r["mail.imap.connectionpooltimeout"] == "300000"
    ensures r["mail.imaps.partialfetch"] == "false" && r["mail.imap.fetchsize"] == "819200"
    ensures forall k :: k in props && k !in IMAP_KEYS ==> r[k] == props[k]
  {
    props["mail.imap.connectionpooltimeout" := "300000"]["mail.imap.connectiontimeout" := "300000"]
         ["mail.imap.timeout" := "300000"]["mail.imaps.partialfetch" := "false"]
         ["mail.imap.fetchsize" := "819200"]
  }

  /** The one Message-ID term per requested id that `findMessages` OR-s. */
  function IdTerms(ids: seq<string>): (r: seq<SearchTerm>)
    ensures |r| == |ids|
    ensures forall k :: 0 <= k < |ids| ==> r[k] == MessageIdTerm(ids[k])
  {
    if ids == [] then [] else [MessageIdTerm(ids[0])] + IdTerms(ids[1..])
  }

  /** The OR of the id terms selects a message exactly when one of the ids
      occurs in its Message-ID, letters compared ignoring case; with no ids
      it selects nothing. */
  lemma {:induction false} IdTermsMatch(ids: seq<string>, m: Mail, dm: (int, int, int) -> bool)
    ensures Matches(OrTerm(IdTerms(ids)), m, dm) <==> exists k :: 0 <= k < |ids| && IdMatches(m.messageId, ids[k])
    ensures ids == [] ==> !Matches(OrTerm(IdTerms(ids)), m, dm)
  {
    var ts := IdTerms(ids);
    if Matches(OrTerm(ts), m, dm) {
      var k :| 0 <= k < |ts| && Matches(ts[k], m, dm);
      assert ts[k] == MessageIdTerm(ids[k]);
      assert IdMatches(m.messageId, ids[k]);
    }
    if exists k :: 0 <= k < |ids| && IdMatches(m.messageId, ids[k]) {
      var k :| 0 <= k < |ids| && IdMatches(m.messageId, ids[k]);
      assert ts[k] == MessageIdTerm(ids[k]);
      assert Matches(ts[k], m, dm);
    }
  }

  /** The last step of `findMessageById`: more than one hit is an
      IllegalStateException, none or a hit that is not a MimeMessage an
      IllegalArgumentException, otherwise the single hit. */
  function ResolveUnique(found: seq<Mail>): (r: Result<Mail>)
    ensures r == Err(IllegalState) <==> |found| > 1
    ensures r == Err(IllegalArgument) <==> |found| == 0 || (|found| == 1 && !found[0].isMime)
    ensures r.Ok? <==> |found| == 1 && found[0].isMime
    ensures r.Ok? ==> r.value == found[0] && r.value.isMime
  {
    if |found| > 1 then Err(IllegalState)
    else if |found| == 0 || !found[0].isMime then Err(IllegalArgument)
    else Ok(found[0])
  }

  /** In a folder whose uids are distinct, a search hits exactly the one
      stored mail whose Message-ID contains the id (ignoring case) when no
      other does; the
      lookup then returns it if it is a MimeMessage. */
  lemma {:induction false} SingleHit(mails: seq<Mail>, id: string, dm: (int, int, int) -> bool, m: Mail)
    requires forall i, j :: 0 <= i < j < |mails| ==> mails[i].uid != mails[j].uid
    requires m in mails && IdMatches(m.messageId, id)
    requires forall n :: n in mails && n != m ==> !IdMatches(n.messageId, id)
    ensures Select(mails, MessageIdTerm(id), dm) == [m]
    ensures ResolveUnique(Select(mails, MessageIdTerm(id), dm)) == if m.isMime then Ok(m) else Err(IllegalArgument)
  {
    var rest := mails[1..];
    assert forall i, j :: 0 <= i < j < |rest| ==> rest[i].uid != rest[j].uid by {
      forall i, j | 0 <= i < j < |rest|
        ensures rest[i].uid != rest[j].uid
      {
        assert rest[i] == mails[i + 1] && rest[j] == mails[j + 1];
      }
    }
    if mails[0] == m {
      forall n | n in rest
        ensures !IdMatches(n.messageId, id)
      {
        var j :| 0 <= j < |rest| && rest[j] == n;
        assert mails[j + 1] == n && n.uid != m.uid;
      }
      NoHit(rest, id, dm);
    } else {
      assert m in rest;
      SingleHit(rest, id, dm, m);
    }
  }

  /** A search for an id that no stored Message-ID contains finds nothing. */
  lemma {:induction false} NoHit(mails: seq<Mail>, id: string, dm: (int, int, int) -> bool)
    requires forall n :: n in mails ==> !IdMatches(n.messageId, id)
    ensures Select(mails, MessageIdTerm(id), dm) == []
  {
    if mails != [] {
      assert mails[0] in mails;
      NoHit(mails[1..], id, dm);
    }
  }

  /** Message-IDs are matched by containment, so an id that occurs inside
      another message's Message-ID makes the lookup ambiguous even though
      the Message-IDs are unique. */
  lemma ContainedIdIsAmbiguous(dm: (int, int, int) -> bool)
    ensures var a := Mail(1, "<1@h>", 0, true, SinglePart(""));
      var b := Mail(2, "<21@h>", 0, true, SinglePart(""));
      ResolveUnique(Select([a, b], MessageIdTerm("1@h"), dm)) == Err(IllegalState)
  {
    var a := Mail(1, "<1@h>", 0, true, SinglePart(""));
    var b := Mail(2, "<21@h>", 0, true, SinglePart(""));
    LowerStringKeeps("1@h");
    LowerStringKeeps(a.messageId);
    LowerStringKeeps(b.messageId);
    assert ContainsRun(a.messageId[1..], "1@h");
    assert ContainsRun(b.messageId[1..][1..], "1@h");
  }

  /** The search ignores case: an id in lower case finds a Message-ID
      written in upper case, and the lookup returns that message. */
  lemma MixedCaseIdFound(dm: (int, int, int) -> bool)
    ensures var m := Mail(1, "<ABC@h>", 0, true, SinglePart(""));
      Select([m], MessageIdTerm("abc@h"), dm) == [m] && ResolveUnique(Select([m], MessageIdTerm("abc@h"), dm)) == Ok(m)
  {
    UpperCaseHeaderMatches();
  }

  /** "abc@h" occurs in "<ABC@h>" once case is folded. */
  lemma UpperCaseHeaderMatches()
    ensures IdMatches("<ABC@h>", "abc@h")
  {
    var header := LowerString("<ABC@h>");
    LowerStringKeeps("abc@h");
    assert header[1..6] == "abc@h";
    assert ContainsRun(header[1..], "abc@h");
  }

  /** The uids of the messages, as `setFlags` marks them. */
  function UidSet(msgs: seq<Message>): (r: set<nat>)
    ensures forall k :: 0 <= k < |msgs| ==> msgs[k].mail.uid in r
    ensures forall u :: u in r ==> exists k :: 0 <= k < |msgs| && msgs[k].mail.uid == u
  {
    set k | 0 <= k < |msgs| :: msgs[k].mail.uid
  }

  /** After a move or delete that reached the expunge, no moved or deleted
      mail is left in the source folder, and every mail that is left was
      there before and was neither deleted now nor flagged earlier. */
  lemma RemovedFromSource(before: seq<Mail>, flagged: set<nat>, msgs: seq<Message>)
    ensures forall k :: 0 <= k < |msgs| ==> msgs[k].mail !in Expunged(before, flagged + UidSet(msgs))
    ensures forall m :: m in Expunged(before, flagged + UidSet(msgs)) ==>
      m in before && m.uid !in flagged && forall k :: 0 <= k < |msgs| ==> m.uid != msgs[k].mail.uid
  {
  }

  class MailClient {
    const host: string
    const authenticator: Option<Auth.MailAuthenticator>
    const bufferSize: int
    var session: Session?
    var store: Store?

    constructor (host: string, authenticator: Option<Auth.MailAuthenticator>, bufferSize: int)
      ensures this.host == host && this.authenticator == authenticator && this.bufferSize == bufferSize
      ensures session == null && store == null
    {
      this.host := host;
      this.authenticator := authenticator;
      this.bufferSize := bufferSize;
      session := null;
      store := null;
    }

    /** The constructor: a null host, then a buffer size below 1, is an
        IllegalArgumentException; `getBufferSize()` returns the size kept. */
    static method Create(host: Option<string>, authenticator: Option<Auth.MailAuthenticator>, bufferSize: int)
      returns (r: Result<MailClient>)
      ensures r.Err? <==> host.None? || bufferSize < 1
      ensures r.Err? ==> r.error == IllegalArgument
      ensures r.Ok? ==> fresh(r.value) && r.value.session == null && r.value.store == null
      ensures r.Ok? ==> Some(r.value.host) == host && r.value.authenticator == authenticator
      ensures r.Ok? ==> r.value.bufferSize == bufferSize && r.value.bufferSize >= 1
    {
      if host.None? || bufferSize < 1 {
        return Err(IllegalArgument);
      }
      var c := new MailClient(host.value, authenticator, bufferSize);
      r := Ok(c);
    }

    /** The two-argument constructor, with the default buffer size. */
    static method CreateWithDefaults(host: Option<string>, authenticator: Option<Auth.MailAuthenticator>)
      returns (r: Result<MailClient>)
      ensures r.Err? <==> host.None?
      ensures r.Err? ==> r.error == IllegalArgument
      ensures r.Ok? ==> fresh(r.value) && r.value.bufferSize == BUFFER_SIZE
    {
      r := Create(host, authenticator, BUFFER_SIZE);
    }

    /** `connect()`: the session and the "imap" store are created only when
        missing; a missing authenticator is a NullPointerException after
        that; otherwise the store connects with the authenticator's
        credentials, or the transport's MessagingException escapes; a store
        that is already connected refuses with an IllegalStateException. */
    method Connect(sysProps: map<string, string>, identityHash: int32, remote: map<string, Folder>, succeeds: bool)
      returns (r: Outcome)
      modifies this, store
      ensures old(session) != null ==> session == old(session)
      ensures old(session) == null ==> session != null && fresh(session)
      ensures old(session) == null ==> session.props == ImapSessionProperties(sysProps)
      ensures old(store) != null ==> store == old(store)
      ensures old(store) == null ==> store != null && fresh(store) && store.protocol == "imap" && store.folders == remote
      ensures store != null
      ensures authenticator.None? ==> r == Fail(NullPointer)
      ensures authenticator.None? ==> store.connected == (old(store) != null && old(store.connected))
      ensures authenticator.None? ==> store.credentials == if old(store) != null then old(store.credentials) else None
      ensures authenticator.Some? && old(store) != null && old(store.connected) ==>
        r == Fail(IllegalState) && store.connected && store.credentials == old(store.credentials)
      ensures authenticator.Some? && !(old(store) != null && old(store.connected)) ==>
        r == (if succeeds then Pass else Fail(Messaging)) && store.connected == succeeds
      ensures authenticator.Some? && !(old(store) != null && old(store.connected)) && succeeds ==>
        store.credentials == Some((host, authenticator.value.username, authenticator.value.password))
    {
      if session == null {
        session := new Session(ImapSessionProperties(sysProps), identityHash);
      }
      if store == null {
        store := new Store("imap", remote);
      }
      if authenticator.None? {
        return Fail(NullPointer);
      }
      r := store.Connect(host, authenticator.value.username, authenticator.value.password, succeeds);
    }

    /** `ensureFolderIsOpen(folder, mode)`, the loop `Reopen` specifies. */
    method EnsureFolderIsOpen(folder: Folder?, mode: int, env: seq<Attempt>) returns (r: Outcome)
      requires folder != null ==> Sufficient(folder.State(), mode) || Terminates(env)
      modifies folder
      ensures folder == null ==> r == Fail(IllegalArgument)
      ensures folder != null ==>
        var spec := Reopen(old(folder.State()), mode, env);
        && r == spec.outcome
        && folder.State() == spec.state
        && folder.log == old(folder.log) + spec.ops
        && folder.messages == old(folder.messages) && folder.deleted == old(folder.deleted)
    {
      r := FolderSession.EnsureFolderIsOpen(folder, mode, env);
    }

    /** `getMessages(folder, term)`. */
    method GetMessages(folder: Folder?, term: Option<SearchTerm>, env: seq<Attempt>) returns (r: Result<seq<Message>>)
      requires folder != null ==> Sufficient(folder.State(), READ_ONLY) || Terminates(env)
      modifies folder
      ensures folder == null ==> r == Err(IllegalArgument)
      ensures folder != null ==> Listed(folder, term, env, r)
    {
      r := FolderSession.GetMessages(folder, term, env);
    }

    /** Builds the id terms into an array, one per id, in order. */
    static method BuildIdTerm(ids: seq<string>) returns (term: SearchTerm)
      ensures term == OrTerm(IdTerms(ids))
    {
      var terms := new SearchTerm[|ids|];
      for i := 0 to |ids|
        invariant forall k :: 0 <= k < i ==> terms[k] == MessageIdTerm(ids[k])
      {
        terms[i] := MessageIdTerm(ids[i]);
      }
      term := OrTerm(terms[..]);
    }

    /** `findMessages(folder, ids)`: after the folder is ensured READ_ONLY,
        the messages whose Message-ID contains one of the ids, in folder
        order. */
    method FindMessages(folder: Folder?, ids: seq<string>, env: seq<Attempt>) returns (r: Result<seq<Message>>)
      requires folder != null ==> Sufficient(folder.State(), READ_ONLY) || Terminates(env)
      modifies folder
      ensures folder == null ==> r == Err(IllegalArgument)
      ensures folder != null ==> Listed(folder, Some(OrTerm(IdTerms(ids))), env, r)
    {
      var term := BuildIdTerm(ids);
      var o := EnsureFolderIsOpen(folder, READ_ONLY, env);
      if o.Fail? {
        return Err(o.error);
      }
      var mails := folder.Search(term);
      r := Ok(InFolder(folder, mails));
    }

    /** `getAndOpenFolder(name, mode)`: the store's folder, opened in `mode`
        only when it is closed; an open folder is returned in whatever mode
        it has. Without a store it is a NullPointerException; opening a
        folder that does not exist is a FolderNotFoundException, a refused
        open a MessagingException. */
    method GetAndOpenFolder(name: string, mode: int, openSucceeds: bool) returns (r: Result<Folder>)
      modifies if store != null && name in store.folders then {store.folders[name]} else {}
      ensures store == old(store)
      ensures store == null ==> r == Err(NullPointer)
      ensures store != null && name !in store.folders ==> r == Err(FolderNotFound)
      ensures store != null && name in store.folders && old(store.folders[name].isOpen) ==>
        r == Ok(store.folders[name]) && unchanged(store.folders[name])
      ensures store != null && name in store.folders && !old(store.folders[name].isOpen) ==>
        var f := store.folders[name];
        && f.log == old(f.log) + [OpenOp(mode)]
        && f.messages == old(f.messages) && f.deleted == old(f.deleted)
        && (r.Ok? <==> openSucceeds && f.present)
        && (r.Ok? ==> r.value == f && f.State() == FolderState(true, mode))
        && (r.Err? ==> f.State() == old(f.State()) && r.error == if f.present then Messaging else FolderNotFound)
    {
      if store == null {
        return Err(NullPointer);
      }
      var f := store.GetFolder(name);
      if !f.isOpen {
        f.Open(mode, openSucceeds && f.present);
        if !f.isOpen {
          return Err(if f.present then Messaging else FolderNotFound);
        }
      }
      r := Ok(f);
    }

    /** `findMessageById(id, folderName)`: the folder is fetched and opened
        READ_ONLY when closed, then searched for the id and the hits
        resolved by `ResolveUnique`. */
    method FindMessageById(id: string, name: string, openSucceeds: bool) returns (r: Result<Message>)
      modifies if store != null && name in store.folders then {store.folders[name]} else {}
      ensures store == old(store)
      ensures store == null ==> r == Err(NullPointer)
      ensures store != null && name !in store.folders ==> r == Err(FolderNotFound)
      ensures store != null && name in store.folders ==>
        var f := store.folders[name];
        && f.messages == old(f.messages)
        && (old(f.isOpen) || (openSucceeds && f.present) ==>
              && f.isOpen
              && var found := ResolveUnique(Select(f.messages, MessageIdTerm(id), f.dateMatches));
              r == if found.Ok? then Ok(Message(f, found.value)) else Err(found.error))
        && (!old(f.isOpen) && !(openSucceeds && f.present) ==>
              r == Err(if f.present then Messaging else FolderNotFound))
      ensures store != null && name in store.folders && old(store.folders[name].isOpen) ==>
        unchanged(store.folders[name])
      ensures store != null && name in store.folders && !old(store.folders[name].isOpen) ==>
        var f := store.folders[name];
        && f.log == old(f.log) + [OpenOp(READ_ONLY)]
        && f.deleted == old(f.deleted)
        && f.State() == if openSucceeds && f.present then FolderState(true, READ_ONLY) else old(f.State())
    {
      var got := GetAndOpenFolder(name, READ_ONLY, openSucceeds);
      if got.Err? {
        return Err(got.error);
      }
      var f := got.value;
      var found := f.Search(MessageIdTerm(id));
      var one := ResolveUnique(found);
      r := if one.Ok? then Ok(Message(f, one.value)) else Err(one.error);
    }

    /** `getFolder(name)`: the store's folder of that name, a handle to a
        folder that does not exist for an unknown name, and a
        NullPointerException before the first `connect`. */
    method GetFolder(name: string) returns (r: Result<Folder>)
      ensures store == null ==> r == Err(NullPointer)
      ensures store != null && name in store.folders ==> r == Ok(store.folders[name])
      ensures store != null && name !in store.folders ==> r.Ok? && fresh(r.value) && !r.value.present && r.value.name == name
    {
      if store == null {
        return Err(NullPointer);
      }
      var f := store.GetFolder(name);
      r := Ok(f);
    }

    /** `getAndValidateFolder(name)`: the folder when it exists, a
        FolderNotFoundException when it does not. */
    method GetAndValidateFolder(name: string) returns (r: Result<Folder>)
      ensures r.Ok? <==> store != null && name in store.folders && store.folders[name].present
      ensures r.Ok? ==> r.value == store.folders[name] && r.value.present
      ensures r.Err? ==> r.error == if store == null then NullPointer else FolderNotFound
    {
      var f := GetFolder(name);
      if f.Err? {
        return f;
      }
      if !f.value.present {
        return Err(FolderNotFound);
      }
      r := f;
    }

    /** `moveMessages(msgs, destFolder)`, as `Moved` states it. */
    method MoveMessages(msgs: seq<Message>, dest: Folder?, env: seq<Attempt>) returns (r: Outcome)
      requires |msgs| > 0 ==> dest != msgs[0].folder
      requires |msgs| > 0 ==> Sufficient(msgs[0].folder.State(), READ_WRITE) || Terminates(env)
      modifies if |msgs| == 0 then {} else {msgs[0].folder, dest}
      ensures Moved(msgs, dest, env, r)
    {
      if |msgs| == 0 {
        return Pass;
      }
      var src := msgs[0].folder;
      r := EnsureFolderIsOpen(src, READ_WRITE, env);
      if r.Fail? {
        return;
      }
      if dest == null {
        return Fail(NullPointer);
      }
      r := Transfer(src, msgs, dest);
    }

    /** `moveMessages(msgs, destName)`: no-op for no messages; otherwise
        the destination is looked up in the store (a NullPointerException
        without one) and the move runs as above. */
    method MoveMessagesTo(msgs: seq<Message>, destName: string, env: seq<Attempt>) returns (r: Outcome)
      requires |msgs| > 0 && store != null && destName in store.folders ==> store.folders[destName] != msgs[0].folder
      requires |msgs| > 0 ==> Sufficient(msgs[0].folder.State(), READ_WRITE) || Terminates(env)
      modifies if |msgs| == 0 then {} else {msgs[0].folder}
      modifies if |msgs| > 0 && store != null && destName in store.folders then {store.folders[destName]} else {}
      ensures |msgs| > 0 && store == null ==> r == Fail(NullPointer) && unchanged(msgs[0].folder)
      ensures |msgs| > 0 && store != null && destName in store.folders ==> Moved(msgs, store.folders[destName], env, r)
      ensures |msgs| > 0 && store != null && destName !in store.folders ==> MovedToMissing(msgs, env, r)
      ensures |msgs| == 0 ==> r == Pass
    {
      if |msgs| == 0 {
        return Pass;
      }
      if store == null {
        return Fail(NullPointer);
      }
      var dest := store.GetFolder(destName);
      r := MoveMessages(msgs, dest, env);
    }

    /** `deleteMessages(msgs)`: no-op for no messages; otherwise the folder
        of the first message is ensured READ_WRITE, the messages are flagged
        \Deleted and the folder expunged. */
    method DeleteMessages(msgs: seq<Message>, env: seq<Attempt>) returns (r: Outcome)
      requires |msgs| > 0 ==> Sufficient(msgs[0].folder.State(), READ_WRITE) || Terminates(env)
      modifies if |msgs| == 0 then {} else {msgs[0].folder}
      ensures |msgs| == 0 ==> r == Pass
      ensures |msgs| > 0 ==>
        var src := msgs[0].folder;
        var spec := Reopen(old(src.State()), READ_WRITE, env);
        && r == spec.outcome
        && src.State() == spec.state
        && (spec.outcome.Fail? ==>
              src.log == old(src.log) + spec.ops && src.messages == old(src.messages) && src.deleted == old(src.deleted))
        && (spec.outcome == Pass ==>
              && src.messages == Expunged(old(src.messages), old(src.deleted) + UidSet(msgs))
              && src.deleted == {}
              && src.log == old(src.log) + spec.ops + [FlagDeletedOp(UidSet(msgs)), ExpungeOp])
    {
      if |msgs| == 0 {
        return Pass;
      }
      var src := msgs[0].folder;
      r := EnsureFolderIsOpen(src, READ_WRITE, env);
      if r.Fail? {
        return;
      }
      src.FlagDeleted(UidSet(msgs));
      src.Expunge();
    }
  }

  /** The part of `moveMessages` after the source is open READ_WRITE:
      copy to `dest` (a FolderNotFoundException when it does not exist),
      flag the messages \Deleted in the source, expunge the source. */
  method Transfer(src: Folder, msgs: seq<Message>, dest: Folder) returns (r: Outcome)
    requires src.isOpen && src.mode >= READ_WRITE && dest != src
    modifies src, dest
    ensures src.State() == old(src.State())
    ensures dest.State() == old(dest.State()) && dest.deleted == old(dest.deleted) && dest.log == old(dest.log)
    ensures !dest.present ==>
      && r == Fail(FolderNotFound) && dest.messages == old(dest.messages)
      && src.log == old(src.log) && src.messages == old(src.messages) && src.deleted == old(src.deleted)
    ensures dest.present ==>
      && r == Pass
      && dest.messages == old(dest.messages) + MailsOf(msgs)
      && src.messages == Expunged(old(src.messages), old(src.deleted) + UidSet(msgs))
      && src.deleted == {}
      && src.log == old(src.log) + [CopyOp(Uids(MailsOf(msgs)), dest.name), FlagDeletedOp(UidSet(msgs)), ExpungeOp]
  {
    var copied := src.CopyMessages(MailsOf(msgs), dest);
    if !copied {
      return Fail(FolderNotFound);
    }
    src.FlagDeleted(UidSet(msgs));
    src.Expunge();
    r := Pass;
  }

  /** The effect of `moveMessages(msgs, dest)`: nothing for no messages;
      otherwise the folder of the first message is reopened as `Reopen`
      says; if that succeeds, the messages are copied to `dest` (a
      NullPointerException for a null destination, a FolderNotFoundException
      for one that does not exist), then flagged \Deleted in the source,
      then the source is expunged, in that order. */
  twostate predicate Moved(msgs: seq<Message>, dest: Folder?, env: seq<Attempt>, r: Outcome)
    requires |msgs| > 0 ==> Sufficient(old(msgs[0].folder.State()), READ_WRITE) || Terminates(env)
    reads if |msgs| == 0 then {} else {msgs[0].folder, dest}
  {
    if |msgs| == 0 then r == Pass
    else
      var src := msgs[0].folder;
      var spec := Reopen(old(src.State()), READ_WRITE, env);
      var copy := CopyOp(Uids(MailsOf(msgs)), if dest == null then "" else dest.name);
      && src.State() == spec.state
      && (dest != null ==> dest.State() == old(dest.State()) && dest.deleted == old(dest.deleted) && dest.log == old(dest.log))
      && if spec.outcome.Fail? then
           && r == spec.outcome
           && src.log == old(src.log) + spec.ops && src.messages == old(src.messages) && src.deleted == old(src.deleted)
           && (dest != null ==> dest.messages == old(dest.messages))
         else if dest == null || !dest.present then
           && r == (if dest == null then Fail(NullPointer) else Fail(FolderNotFound))
           && src.log == old(src.log) + spec.ops && src.messages == old(src.messages) && src.deleted == old(src.deleted)
           && (dest != null ==> dest.messages == old(dest.messages))
         else
           && r == Pass
           && dest.messages == old(dest.messages) + MailsOf(msgs)
           && src.messages == Expunged(old(src.messages), old(src.deleted) + UidSet(msgs))
           && src.deleted == {}
           && src.log == old(src.log) + spec.ops + [copy, FlagDeletedOp(UidSet(msgs)), ExpungeOp]
  }

  /** A move to a name the store does not know: the source is reopened, then
      the copy to the missing folder fails and nothing is deleted. */
  twostate predicate MovedToMissing(msgs: seq<Message>, env: seq<Attempt>, r: Outcome)
    requires |msgs| > 0 && (Sufficient(old(msgs[0].folder.State()), READ_WRITE) || Terminates(env))
    reads msgs[0].folder
  {
    var src := msgs[0].folder;
    var spec := Reopen(old(src.State()), READ_WRITE, env);
    && r == (if spec.outcome.Fail? then spec.outcome else Fail(FolderNotFound))
    && src.State() == spec.state
    && src.log == old(src.log) + spec.ops && src.messages == old(src.messages) && src.deleted == old(src.deleted)
  }
}
