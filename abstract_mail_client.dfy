/** `AbstractMailClient` of the `mail` package: as the `network` one, with a
    port that is stored before the host is checked and that neither `equals`
    nor `hashCode` looks at. Subclassing is modelled by composition, with
    `className` standing for the runtime class `getClass()` compares. */
module AbstractMailClient {
  import opened MailTypes
  import opened Folders

  class AbstractMailClient {
    const host: string
    const port: int32
    const className: string
    var session: Session?

    constructor (host: string, port: int32, className: string)
      ensures this.host == host && this.port == port && this.className == className && session == null
    {
      this.host := host;
      this.port := port;
      this.className := className;
      session := null;
    }

    /** The constructor: a null host is an IllegalArgumentException,
        otherwise host and port are kept as given. */
    static method Create(host: Option<string>, port: int32, className: string) returns (r: Result<AbstractMailClient>)
      ensures host.None? <==> r == Err(IllegalArgument)
      ensures host.Some? ==> r.Ok? && fresh(r.value)
      ensures host.Some? ==> r.Ok? && r.value.host == host.value && r.value.port == port
      ensures host.Some? ==> r.Ok? && r.value.className == className && r.value.session == null
    {
      if host.None? {
        return Err(IllegalArgument);
      }
      var c := new AbstractMailClient(host.value, port, className);
      r := Ok(c);
    }

    /** `connect()`: creates the session, from the properties the concrete
        class's `createSession` fills in, only when there is none yet. */
    method Connect(props: map<string, string>, identityHash: int32)
      modifies this
      ensures old(session) != null ==> session == old(session)
      ensures old(session) == null ==> session != null && fresh(session) && session.props == props
    {
      if session == null {
        session := new Session(props, identityHash);
      }
    }

    /** `equals(o)`: true for this very object; false for null and for an
        object of another class; otherwise host and session compared
        null-safely. The port is not compared. */
    predicate Equals(o: AbstractMailClient?)
      reads this, o
    {
      if this == o then true
      else if o == null || o.className != className then false
      else host == o.host && session == o.session
    }

    /** `hashCode()`: 31 * hash(host) + hash(session), 0 for a null session;
        the port does not enter. */
    function HashCode(): int32
      reads this
    {
      Wrap32(31 * StringHash(host) + (if session == null then 0 else session.identityHash))
    }
  }

  /** `equals` is reflexive and symmetric, false for null, and between two
      distinct objects holds exactly when class, host and session agree,
      whatever their ports. */
  lemma EqualsProperties(a: AbstractMailClient, b: AbstractMailClient)
    ensures a.Equals(a) && !a.Equals(null)
    ensures a.Equals(b) <==> b.Equals(a)
    ensures a != b ==> (a.Equals(b) <==> a.className == b.className && a.host == b.host && a.session == b.session)
  {
  }

  /** Equal clients have equal hash codes, even when their ports differ. */
  lemma HashCodeAgreesWithEquals(a: AbstractMailClient, b: AbstractMailClient)
    requires a.Equals(b)
    ensures a.HashCode() == b.HashCode()
  {
  }
}
