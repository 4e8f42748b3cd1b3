/** `AbstractMailClient` of the `network` package: a host that must not be
    null, a session created lazily on the first `connect`, and equality on
    host and session. Java's subclassing is modelled by composition: a
    concrete client holds one of these, and `className` records the runtime
    class that `getClass()` compares. */
module NetworkAbstractMailClient {
  import opened MailTypes
  import opened Folders

  class AbstractMailClient {
    const host: string
    const className: string
    var session: Session?

    constructor (host: string, className: string)
      ensures this.host == host && this.className == className && session == null
    {
      this.host := host;
      this.className := className;
      session := null;
    }

    /** The constructor: a null host is an IllegalArgumentException,
        otherwise the host is kept as given. */
    static method Create(host: Option<string>, className: string) returns (r: Result<AbstractMailClient>)
      ensures host.None? <==> r == Err(IllegalArgument)
      ensures host.Some? ==> r.Ok? && fresh(r.value)
      ensures host.Some? ==> r.Ok? && r.value.host == host.value && r.value.className == className
      ensures host.Some? ==> r.Ok? && r.value.session == null
    {
      if host.None? {
        return Err(IllegalArgument);
      }
      var c := new AbstractMailClient(host.value, className);
      r := Ok(c);
    }

    /** `connect()`: creates the session, from the properties the concrete
        class's `createSession` fills in, only when there is none yet. */
    method Connect(props: map<string, string>, identityHash: int32)
      modifies this
      ensures old(session) != null ==> session == old(session)
      ensures old(session) == null ==> session != null && fresh(session) && session.props == props
    {
      if session == null {
        session := new Session(props, identityHash);
      }
    }

    /** `equals(o)`: true for this very object; false for null and for an
        object of another class; otherwise host and session compared
        null-safely (a Session is equal only to itself). */
    predicate Equals(o: AbstractMailClient?)
      reads this, o
    {
      if this == o then true
      else if o == null || o.className != className then false
      else host == o.host && session == o.session
    }

    /** `hashCode()`: 31 * hash(host) + hash(session), 0 for a null session. */
    function HashCode(): int32
      reads this
    {
      Wrap32(31 * StringHash(host) + (if session == null then 0 else session.identityHash))
    }
  }

  /** `equals` is reflexive and symmetric, false for null, and holds between
      two distinct objects exactly when class, host and session agree. */
  lemma EqualsProperties(a: AbstractMailClient, b: AbstractMailClient)
    ensures a.Equals(a) && !a.Equals(null)
    ensures a.Equals(b) <==> b.Equals(a)
    ensures a != b ==> (a.Equals(b) <==> a.className == b.className && a.host == b.host && a.session == b.session)
  {
  }

  /** Equal clients have equal hash codes. */
  lemma HashCodeAgreesWithEquals(a: AbstractMailClient, b: AbstractMailClient)
    requires a.Equals(b)
    ensures a.HashCode() == b.HashCode()
  {
  }
}
