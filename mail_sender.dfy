/** `MailSender` of the `network` package: an SMTP client built on the
    `network` package's `AbstractMailClient` (held by composition). It
    validates its sender address, defaults the display name to it, marks
    the session as authenticated exactly when it has an authenticator,
    creates its transport once, and sends a multipart message whose parts
    keep the order they were given in. */
module MailSender {
  import opened MailTypes
  import opened Folders
  import Base = NetworkAbstractMailClient
  import Auth = MailAuthenticator
  import MailUtils
  import MailReceiver

  /** The runtime class name the base's `equals` compares. */
  const CLASS_NAME: string := "nz.ac.aut.hss.network.MailSender"

  /** The session properties `createSession` sets. */
  const SMTP_KEYS: set<string> := {"mail.smtp.auth", "mail.smtp.host", "mail.smtp.ssl.trust"}

  /** The display name used in From: the given one unless it is null or
      empty, in which case the address itself. */
  function SenderName(address: string, senderName: Option<string>): (r: string)
    ensures senderName.Some? && senderName.value != [] ==> r == senderName.value
    ensures senderName.None? || senderName.value == [] ==> r == address
    ensures address != [] ==> r != []
  {
    if senderName.None? || senderName.value == [] then address else senderName.value
  }

  /** `createSession(properties)`: SMTP authentication on exactly when there
      is an authenticator, and both the SMTP host and the host trusted for
      SSL set to the client's host; other properties are kept. */
  function SmtpSessionProperties(props: map<string, string>, host: string, authenticated: bool): (r: map<string, string>)
    ensures r.Keys == props.Keys + SMTP_KEYS
    ensures r["mail.smtp.auth"] == "true" <==> authenticated
    ensures r["mail.smtp.auth"] in {"true", "false"}
    ensures r["mail.smtp.host"] == host && r["mail.smtp.ssl.trust"] == host
    ensures forall k :: k in props && k !in SMTP_KEYS ==> r[k] == props[k]
  {
    props["mail.smtp.auth" := if authenticated then "true" else "false"]
         ["mail.smtp.host" := host]["mail.smtp.ssl.trust" := host]
  }

  /** A file to attach: its name, the content type its data source reports
      and its contents. */
  datatype File = File(name: string, contentType: string, data: string)

  /** `createBodyPart(text)`: a plain-text part without a file name. */
  function TextBodyPart(text: string): (p: BodyPart)
    ensures MailReceiver.IsText(p) && p.text == text && p.fileName.None?
  {
    var p := BodyPart("text/plain", text, None);
    assert ';' !in p.mimeType;
    MailReceiver.BaseTypeWithoutParameters(p.mimeType);
    p
  }

  /** `createBodyPart(file, filename)`: the file's contents under the given
      file name. */
  function NamedFileBodyPart(file: File, fileName: string): (p: BodyPart)
    ensures p.fileName == Some(fileName) && p.mimeType == file.contentType && p.text == file.data
  {
    BodyPart(file.contentType, file.data, Some(fileName))
  }

  /** An attachment placed before the body text: the receivers'
      `extractText` returns the file's data when the file's content type is
      text/plain or text/html, and the body text otherwise; the attachment
      carries the given file name. */
  lemma AttachmentBeforeText(file: File, fileName: string, text: string)
    ensures var parts := [NamedFileBodyPart(file, fileName), TextBodyPart(text)];
      && parts[0].fileName == Some(fileName)
      && MailReceiver.FirstText(parts) == Some(if MailReceiver.IsTextType(file.contentType) then 0 else 1)
      && parts[MailReceiver.FirstText(parts).value].text == if MailReceiver.IsTextType(file.contentType) then file.data else text
  {
    var part := NamedFileBodyPart(file, fileName);
    if !MailReceiver.IsTextType(file.contentType) {
      TextFollowsNonText([part], TextBodyPart(text));
      assert [part] + [TextBodyPart(text)] == [part, TextBodyPart(text)];
    }
  }

  /** `createBodyPart(file)`: the same, named after the file. */
  function FileBodyPart(file: File): (p: BodyPart)
    ensures p == NamedFileBodyPart(file, file.name) && p.fileName == Some(file.name)
  {
    NamedFileBodyPart(file, file.name)
  }

  /** A message as handed to the transport: the From address with its
      display name, the TO recipients, the subject, the multipart content
      and the sent date. */
  datatype Outgoing = Outgoing(from: (string, string), to: seq<MailUtils.Address>, subject: string,
                               content: Content, sentDate: int)

  /** A mail's text as the receivers extract it survives sending: a text
      message sent with `sendMail(recipients, subject, text)` yields that
      text, and so does one whose text part follows attachments that are
      not text. */
  lemma {:induction false} SentTextIsExtracted(files: seq<File>, text: string)
    requires forall i :: 0 <= i < |files| ==> !MailReceiver.IsText(FileBodyPart(files[i]))
    ensures MailReceiver.FirstText([TextBodyPart(text)]) == Some(0)
    ensures var parts := Attachments(files) + [TextBodyPart(text)];
      MailReceiver.FirstText(parts) == Some(|files|) && parts[|files|].text == text
  {
    var a := Attachments(files);
    forall j | 0 <= j < |a| ensures !MailReceiver.IsText(a[j]) {
      assert a[j] == FileBodyPart(files[j]);
    }
    TextFollowsNonText([], TextBodyPart(text));
    TextFollowsNonText(a, TextBodyPart(text));
  }

  /** A text part placed after parts that are not text is the first text. */
  lemma {:induction false} TextFollowsNonText(a: seq<BodyPart>, p: BodyPart)
    requires forall j :: 0 <= j < |a| ==> !MailReceiver.IsText(a[j])
    requires MailReceiver.IsText(p)
    ensures MailReceiver.FirstText(a + [p]) == Some(|a|)
  {
    var parts := a + [p];
    if a == [] {
      assert parts == [p];
    } else {
      assert parts[0] == a[0];
      assert !MailReceiver.IsText(a[0]);
      assert parts[1..] == a[1..] + [p];
      TextFollowsNonText(a[1..], p);
    }
  }

  /** The file parts for a list of files, in order. */
  function Attachments(files: seq<File>): (r: seq<BodyPart>)
    ensures |r| == |files|
    ensures forall i :: 0 <= i < |files| ==> r[i] == FileBodyPart(files[i])
  {
    if files == [] then [] else [FileBodyPart(files[0])] + Attachments(files[1..])
  }

  /** A MIME multipart under construction. */
  class Multipart {
    var parts: seq<BodyPart>

    constructor ()
      ensures parts == []
    {
      parts := [];
    }

    /** `addBodyPart(part)`: appends the part. */
    method AddBodyPart(part: BodyPart)
      modifies this
      ensures parts == old(parts) + [part]
    {
      parts := parts + [part];
    }
  }

  /** A JavaMail SMTP `Transport`: its connection state, the credentials of
      its last successful connect (`None` for an unauthenticated one) and
      the messages it has handed to the server. */
  class Transport {
    const protocol: string
    var connected: bool
    var credentials: Option<(string, string, string)>
    var sent: seq<Outgoing>

    constructor (protocol: string)
      ensures this.protocol == protocol && !connected && credentials.None? && sent == []
    {
      this.protocol := protocol;
      connected := false;
      credentials := None;
      sent := [];
    }

    /** `connect(host, user, password)`: an IllegalStateException when the
        transport is already connected; otherwise the server's answer is
        `succeeds`, a refusal being a MessagingException. */
    method Connect(host: string, user: string, password: string, succeeds: bool) returns (r: Outcome)
      modifies this
      ensures old(connected) ==> r == Fail(IllegalState) && connected && credentials == old(credentials)
      ensures !old(connected) ==> r == (if succeeds then Pass else Fail(Messaging)) && connected == succeeds
      ensures !old(connected) ==> credentials == if succeeds then Some((host, user, password)) else old(credentials)
      ensures sent == old(sent)
    {
      if connected {
        return Fail(IllegalState);
      }
      if !succeeds {
        return Fail(Messaging);
      }
      connected := true;
      credentials := Some((host, user, password));
      r := Pass;
    }

    /** `connect()`: the same without authentication. */
    method ConnectAnonymously(succeeds: bool) returns (r: Outcome)
      modifies this
      ensures old(connected) ==> r == Fail(IllegalState) && connected && credentials == old(credentials)
      ensures !old(connected) ==> r == (if succeeds then Pass else Fail(Messaging)) && connected == succeeds
      ensures !old(connected) ==> credentials == if succeeds then None else old(credentials)
      ensures sent == old(sent)
    {
      if connected {
        return Fail(IllegalState);
      }
      if !succeeds {
        return Fail(Messaging);
      }
      connected := true;
      credentials := None;
      r := Pass;
    }

    /** `sendMessage(message, addresses)`: an IllegalStateException when not
        connected, a SendFailedException (a MessagingException) for no
        recipients or when the server refuses (`accepted` false). */
    method SendMessage(message: Outgoing, addresses: seq<MailUtils.Address>, accepted: bool) returns (r: Outcome)
      modifies this
      ensures r == if !connected then Fail(IllegalState)
                   else if addresses == [] || !accepted then Fail(Messaging)
                   else Pass
      ensures sent == old(sent) + if r.Pass? then [message] else []
      ensures connected == old(connected) && credentials == old(credentials)
    {
      if !connected {
        return Fail(IllegalState);
      }
      if addresses == [] || !accepted {
        return Fail(Messaging);
      }
      sent := sent + [message];
      r := Pass;
    }
  }

  class MailSender {
    const base: Base.AbstractMailClient
    const address: string
    const senderName: string
    const authenticator: Option<Auth.MailAuthenticator>
    var transport: Transport?

    constructor (base: Base.AbstractMailClient, authenticator: Option<Auth.MailAuthenticator>, address: string, senderName: string)
      ensures this.base == base && this.authenticator == authenticator
      ensures this.address == address && this.senderName == senderName && transport == null
    {
      this.base := base;
      this.authenticator := authenticator;
      this.address := address;
      this.senderName := senderName;
      transport := null;
    }

    /** The constructor: the base rejects a null host, then a null or empty
        address is rejected, both as IllegalArgumentExceptions; a null or
        empty sender name falls back to the address. */
    static method Create(host: Option<string>, authenticator: Option<Auth.MailAuthenticator>,
                         address: Option<string>, senderName: Option<string>) returns (r: Result<MailSender>)
      ensures r.Err? <==> host.None? || address.None? || address.value == []
      ensures r.Err? ==> r.error == IllegalArgument
      ensures r.Ok? ==> fresh(r.value) && fresh(r.value.base) && r.value.transport == null
      ensures r.Ok? ==> r.value.base.host == host.value && r.value.base.className == CLASS_NAME
      ensures r.Ok? ==> r.value.base.session == null
      ensures r.Ok? ==> r.value.address == address.value && r.value.authenticator == authenticator
      ensures r.Ok? ==> r.value.senderName == SenderName(address.value, senderName)
    {
      var b := Base.AbstractMailClient.Create(host, CLASS_NAME);
      if b.Err? {
        return Err(b.error);
      }
      if address.None? || address.value == [] {
        return Err(IllegalArgument);
      }
      var name := if senderName.None? || senderName.value == [] then address.value else senderName.value;
      var s := new MailSender(b.value, authenticator, address.value, name);
      r := Ok(s);
    }

    /** `connect()`: the base creates the session from the SMTP properties
        when missing, the "smtp" transport is created when missing, and it
        is connected with the authenticator's credentials when there is an
        authenticator and without authentication otherwise; a refused
        connect is a ConnectionException, while the IllegalStateException of
        a transport that is already connected escapes unwrapped. */
    method Connect(sysProps: map<string, string>, identityHash: int32, succeeds: bool) returns (r: Outcome)
      modifies base, this, transport
      ensures old(base.session) != null ==> base.session == old(base.session)
      ensures old(base.session) == null ==> base.session != null && fresh(base.session)
      ensures old(base.session) == null ==>
        base.session.props == SmtpSessionProperties(sysProps, base.host, authenticator.Some?)
      ensures old(transport) != null ==> transport == old(transport) && transport.sent == old(transport.sent)
      ensures old(transport) == null ==> transport != null && fresh(transport) && transport.protocol == "smtp" && transport.sent == []
      ensures transport != null
      ensures old(transport) != null && old(transport.connected) ==>
        r == Fail(IllegalState) && transport.connected && transport.credentials == old(transport.credentials)
      ensures !(old(transport) != null && old(transport.connected)) ==>
        r == (if succeeds then Pass else Fail(Connection)) && transport.connected == succeeds
      ensures !(old(transport) != null && old(transport.connected)) && succeeds && authenticator.Some? ==>
        transport.credentials == Some((base.host, authenticator.value.username, authenticator.value.password))
      ensures !(old(transport) != null && old(transport.connected)) && succeeds && authenticator.None? ==>
        transport.credentials.None?
      ensures !succeeds ==> transport.credentials == if old(transport) != null then old(transport.credentials) else None
    {
      base.Connect(SmtpSessionProperties(sysProps, base.host, authenticator.Some?), identityHash);
      if transport == null {
        transport := new Transport("smtp");
      }
      if authenticator.Some? {
        r := transport.Connect(base.host, authenticator.value.username, authenticator.value.password, succeeds);
      } else {
        r := transport.ConnectAnonymously(succeeds);
      }
      if r == Fail(Messaging) {
        r := Fail(Connection);
      }
    }

    /** The message `sendMail` builds: from the sender address under its
        display name, to the recipients, with the body parts in the given
        order as a multipart. */
    function Compose(recipients: seq<MailUtils.Address>, subject: string, bodyParts: seq<BodyPart>, now: int): (m: Outgoing)
      ensures m.from == (address, senderName) && m.to == recipients && m.subject == subject
      ensures m.content == Multipart(bodyParts) && m.sentDate == now
    {
      Outgoing((address, senderName), recipients, subject, Multipart(bodyParts), now)
    }

    /** `sendMail(recipients, subject, bodyParts...)`: builds the multipart
        part by part and hands the message to the transport, which must
        exist (a NullPointerException before the first `connect`). `now` is
        the sent date and `accepted` the server's answer. */
    method SendMail(recipients: seq<MailUtils.Address>, subject: string, bodyParts: seq<BodyPart>, now: int, accepted: bool)
      returns (r: Outcome)
      modifies transport
      ensures transport == null ==> r == Fail(NullPointer)
      ensures transport != null ==>
        r == if !transport.connected then Fail(IllegalState)
             else if recipients == [] || !accepted then Fail(Messaging)
             else Pass
      ensures transport != null ==>
        transport.sent == old(transport.sent) + if r.Pass? then [Compose(recipients, subject, bodyParts, now)] else []
      ensures transport != null ==> transport.connected == old(transport.connected) && transport.credentials == old(transport.credentials)
    {
      var multipart := new Multipart();
      for i := 0 to |bodyParts|
        invariant multipart.parts == bodyParts[..i]
        modifies multipart
      {
        multipart.AddBodyPart(bodyParts[i]);
      }
      assert bodyParts[..|bodyParts|] == bodyParts;
      var message := Outgoing((address, senderName), recipients, subject, Multipart(multipart.parts), now);
      if transport == null {
        return Fail(NullPointer);
      }
      r := transport.SendMessage(message, message.to, accepted);
    }

    /** `sendMail(recipientsAddresslist, subject, bodyParts...)`, with the
        outcome of parsing the list as `parsed`: a list that does not parse
        is an IllegalArgumentException and nothing is sent. */
    method SendMailTo(parsed: Option<seq<MailUtils.Address>>, subject: string, bodyParts: seq<BodyPart>, now: int, accepted: bool)
      returns (r: Outcome)
      modifies transport
      ensures parsed.None? ==> r == Fail(IllegalArgument)
      ensures parsed.None? && transport != null ==> transport.sent == old(transport.sent)
      ensures parsed.Some? && transport == null ==> r == Fail(NullPointer)
      ensures parsed.Some? && transport != null ==>
        r == if !transport.connected then Fail(IllegalState)
             else if parsed.value == [] || !accepted then Fail(Messaging)
             else Pass
      ensures parsed.Some? && transport != null ==>
        transport.sent == old(transport.sent) + if r.Pass? then [Compose(parsed.value, subject, bodyParts, now)] else []
      ensures transport != null ==> transport.connected == old(transport.connected) && transport.credentials == old(transport.credentials)
    {
      if parsed.None? {
        return Fail(IllegalArgument);
      }
      r := SendMail(parsed.value, subject, bodyParts, now, accepted);
    }

    /** `sendMail(recipientsAddresslist, subject, text)`: a single plain-text
        part. */
    method SendText(parsed: Option<seq<MailUtils.Address>>, subject: string, text: string, now: int, accepted: bool)
      returns (r: Outcome)
      modifies transport
      ensures parsed.None? ==> r == Fail(IllegalArgument)
      ensures parsed.None? && transport != null ==> transport.sent == old(transport.sent)
      ensures parsed.Some? && transport == null ==> r == Fail(NullPointer)
      ensures parsed.Some? && transport != null ==>
        r == if !transport.connected then Fail(IllegalState)
             else if parsed.value == [] || !accepted then Fail(Messaging)
             else Pass
      ensures parsed.Some? && transport != null ==>
        transport.sent == old(transport.sent) + if r.Pass? then [Compose(parsed.value, subject, [TextBodyPart(text)], now)] else []
      ensures transport != null ==> transport.connected == old(transport.connected) && transport.credentials == old(transport.credentials)
    {
      r := SendMailTo(parsed, subject, [TextBodyPart(text)], now, accepted);
    }
  }
}
