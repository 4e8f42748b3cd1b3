/** `MailClient` of the `mail` package: an IMAPS client built on the
    `mail` package's `AbstractMailClient` (held by composition), with a
    lazily created store, the folder reopen loop, message listing and folder
    lookup. Connection failures surface as a ConnectionException. */
module MailClient {
  import opened MailTypes
  import opened Folders
  import opened FolderSession
  import Base = AbstractMailClient
  import Auth = MailAuthenticator

  const BUFFER_SIZE: int := 65536

  /** The runtime class name the base's `equals` compares. */
  const CLASS_NAME: string := "nz.ac.aut.hss.network.mail.MailClient"

  /** `Application.DEBUG`, which `createSession` copies into "mail.debug". */
  const DEBUG: bool := false

  /** `createSession(props)`: the properties with the store protocol set to
      "imaps" and "mail.debug" set from the debug switch. */
  function ImapsSessionProperties(props: map<string, string>): (r: map<string, string>)
    ensures r.Keys == props.Keys + {"mail.store.protocol", "mail.debug"}
    ensures r["mail.store.protocol"] == "imaps"
    ensures r["mail.debug"] == if DEBUG then "true" else "false"
    ensures forall k :: k in props && k != "mail.store.protocol" && k != "mail.debug" ==> r[k] == props[k]
  {
    props["mail.store.protocol" := "imaps"]["mail.debug" := if DEBUG then "true" else "false"]
  }

  class MailClient {
    const base: Base.AbstractMailClient
    const authenticator: Option<Auth.MailAuthenticator>
    const bufferSize: int
    var store: Store?

    constructor (base: Base.AbstractMailClient, authenticator: Option<Auth.MailAuthenticator>, bufferSize: int)
      ensures this.base == base && this.authenticator == authenticator && this.bufferSize == bufferSize
      ensures store == null
    {
      this.base := base;
      this.authenticator := authenticator;
      this.bufferSize := bufferSize;
      store := null;
    }

    /** The constructor: the base rejects a null host, then a buffer size
        below 1 is rejected; both are IllegalArgumentExceptions. */
    static method Create(host: Option<string>, port: int32, authenticator: Option<Auth.MailAuthenticator>, bufferSize: int)
      returns (r: Result<MailClient>)
      ensures r.Err? <==> host.None? || bufferSize < 1
      ensures r.Err? ==> r.error == IllegalArgument
      ensures r.Ok? ==> fresh(r.value) && fresh(r.value.base) && r.value.store == null
      ensures r.Ok? ==> Some(r.value.base.host) == host && r.value.base.port == port
      ensures r.Ok? ==> r.value.base.className == CLASS_NAME && r.value.base.session == null
      ensures r.Ok? ==> r.value.authenticator == authenticator && r.value.bufferSize == bufferSize
    {
      var b := Base.AbstractMailClient.Create(host, port, CLASS_NAME);
      if b.Err? {
        return Err(b.error);
      }
      if bufferSize < 1 {
        return Err(IllegalArgument);
      }
      var c := new MailClient(b.value, authenticator, bufferSize);
      r := Ok(c);
    }

    /** The three-argument constructor, with the default buffer size. */
    static method CreateWithDefaults(host: Option<string>, port: int32, authenticator: Option<Auth.MailAuthenticator>)
      returns (r: Result<MailClient>)
      ensures r.Err? <==> host.None?
      ensures r.Err? ==> r.error == IllegalArgument
      ensures r.Ok? ==> fresh(r.value) && fresh(r.value.base) && r.value.store == null
      ensures r.Ok? ==> Some(r.value.base.host) == host && r.value.base.port == port
      ensures r.Ok? ==> r.value.base.className == CLASS_NAME && r.value.base.session == null
      ensures r.Ok? ==> r.value.authenticator == authenticator && r.value.bufferSize == BUFFER_SIZE
    {
      r := Create(host, port, authenticator, BUFFER_SIZE);
    }

    /** `connect()`: the base creates the session when missing, then the
        "imaps" store is created when missing and connected with the
        authenticator's credentials. A refused connect is a
        ConnectionException; a missing authenticator a NullPointerException,
        which the ConnectionException wrapping does not catch, no more than
        the IllegalStateException of a store that is already connected. */
    method Connect(sysProps: map<string, string>, identityHash: int32, remote: map<string, Folder>, succeeds: bool)
      returns (r: Outcome)
      modifies base, this, store
      ensures old(base.session) != null ==> base.session == old(base.session)
      ensures old(base.session) == null ==> base.session != null && fresh(base.session)
      ensures old(base.session) == null ==> base.session.props == ImapsSessionProperties(sysProps)
      ensures old(store) != null ==> store == old(store)
      ensures old(store) == null ==> store != null && fresh(store) && store.protocol == "imaps" && store.folders == remote
      ensures store != null
      ensures authenticator.None? ==> r == Fail(NullPointer)
      ensures authenticator.None? ==> store.connected == (old(store) != null && old(store.connected))
      ensures authenticator.None? ==> store.credentials == if old(store) != null then old(store.credentials) else None
      ensures authenticator.Some? && old(store) != null && old(store.connected) ==>
        r == Fail(IllegalState) && store.connected && store.credentials == old(store.credentials)
      ensures authenticator.Some? && !(old(store) != null && old(store.connected)) ==>
        r == (if succeeds then Pass else Fail(Connection)) && store.connected == succeeds
      ensures authenticator.Some? && !(old(store) != null && old(store.connected)) && succeeds ==>
        store.credentials == Some((base.host, authenticator.value.username, authenticator.value.password))
    {
      base.Connect(ImapsSessionProperties(sysProps), identityHash);
      if store == null {
        store := new Store("imaps", remote);
      }
      if authenticator.None? {
        return Fail(NullPointer);
      }
      r := store.Connect(base.host, authenticator.value.username, authenticator.value.password, succeeds);
      if r == Fail(Messaging) {
        r := Fail(Connection);
      }
    }

    /** `ensureFolderIsOpen(folder, mode)`, the loop `Reopen` specifies. */
    method EnsureFolderIsOpen(folder: Folder?, mode: int, env: seq<Attempt>) returns (r: Outcome)
      requires folder != null ==> Sufficient(folder.State(), mode) || Terminates(env)
      modifies folder
      ensures folder == null ==> r == Fail(IllegalArgument)
      ensures folder != null ==>
        var spec := Reopen(old(folder.State()), mode, env);
        && r == spec.outcome
        && folder.State() == spec.state
        && folder.log == old(folder.log) + spec.ops
        && folder.messages == old(folder.messages) && folder.deleted == old(folder.deleted)
    {
      r := FolderSession.EnsureFolderIsOpen(folder, mode, env);
    }

    /** `getMessages(folder, term)`. */
    method GetMessages(folder: Folder?, term: Option<SearchTerm>, env: seq<Attempt>) returns (r: Result<seq<Message>>)
      requires folder != null ==> Sufficient(folder.State(), READ_ONLY) || Terminates(env)
      modifies folder
      ensures folder == null ==> r == Err(IllegalArgument)
      ensures folder != null ==> Listed(folder, term, env, r)
    {
      r := FolderSession.GetMessages(folder, term, env);
    }

    /** `getFolder(name)`: the store's folder of that name, a handle to a
        folder that does not exist for an unknown name, and a
        NullPointerException before the first `connect`. */
    method GetFolder(name: string) returns (r: Result<Folder>)
      ensures store == null ==> r == Err(NullPointer)
      ensures store != null && name in store.folders ==> r == Ok(store.folders[name])
      ensures store != null && name !in store.folders ==> r.Ok? && fresh(r.value) && !r.value.present && r.value.name == name
    {
      if store == null {
        return Err(NullPointer);
      }
      var f := store.GetFolder(name);
      r := Ok(f);
    }

    /** `getAndValidateFolder(name)`: the folder when it exists, a
        FolderNotFoundException when it does not. */
    method GetAndValidateFolder(name: string) returns (r: Result<Folder>)
      ensures r.Ok? <==> store != null && name in store.folders && store.folders[name].present
      ensures r.Ok? ==> r.value == store.folders[name] && r.value.present
      ensures r.Err? ==> r.error == if store == null then NullPointer else FolderNotFound
    {
      var f := GetFolder(name);
      if f.Err? {
        return f;
      }
      if !f.value.present {
        return Err(FolderNotFound);
      }
      r := f;
    }
  }
}
