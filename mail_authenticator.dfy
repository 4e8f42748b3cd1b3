/** `MailAuthenticator`: an immutable user name and password pair, validated
    on construction, with value equality and the matching hash code. */
module MailAuthenticator {
  import opened MailTypes

  datatype MailAuthenticator = MailAuthenticator(username: string, password: string)

  /** The constructor: a null or empty user name, then a null or empty
      password, is an IllegalArgumentException. */
  function Create(username: Option<string>, password: Option<string>): (r: Result<MailAuthenticator>)
    ensures r.Ok? <==> username.Some? && username.value != [] && password.Some? && password.value != []
    ensures r.Ok? ==> r.value.username == username.value && r.value.password == password.value
    ensures r.Err? ==> r.error == IllegalArgument
  {
    if username.None? || username.value == [] then Err(IllegalArgument)
    else if password.None? || password.value == [] then Err(IllegalArgument)
    else Ok(MailAuthenticator(username.value, password.value))
  }

  /** `getPasswordAuthentication()`: the user name and password handed to
      JavaMail. */
  function PasswordAuthentication(a: MailAuthenticator): (r: (string, string))
    ensures r.0 == a.username && r.1 == a.password
  {
    (a.username, a.password)
  }

  /** The credentials handed to JavaMail are the ones the authenticator was
      created with, and two authenticators are equal exactly when they hand
      out the same credentials. */
  lemma CredentialsRoundTrip(username: string, password: string, a: MailAuthenticator, b: MailAuthenticator)
    requires Create(Some(username), Some(password)) == Ok(a)
    ensures PasswordAuthentication(a) == (username, password)
    ensures username != [] && password != []
    ensures Equals(a, Instance(b)) <==> PasswordAuthentication(a) == PasswordAuthentication(b)
  {
  }

  /** `equals(o)`. */
  predicate Equals(a: MailAuthenticator, o: Ref<MailAuthenticator>) {
    match o
    case Null => false
    case OtherClass => false
    case Instance(b) => a.password == b.password && a.username == b.username
  }

  /** `hashCode()`: 31 * hash(username) + hash(password), in `int` arithmetic. */
  function HashCode(a: MailAuthenticator): int32 {
    Wrap32(31 * StringHash(a.username) + StringHash(a.password))
  }

  /** `equals` is an equivalence on authenticators, false for null and for
      other classes, and holds exactly for equal user name and password. */
  lemma EqualsIsValueEquality(a: MailAuthenticator, b: MailAuthenticator, c: MailAuthenticator)
    ensures Equals(a, Instance(a))
    ensures !Equals(a, Null) && !Equals(a, OtherClass)
    ensures Equals(a, Instance(b)) <==> a == b
    ensures Equals(a, Instance(b)) ==> Equals(b, Instance(a))
    ensures Equals(a, Instance(b)) && Equals(b, Instance(c)) ==> Equals(a, Instance(c))
  {
  }

  /** Equal authenticators have equal hash codes. */
  lemma HashCodeAgreesWithEquals(a: MailAuthenticator, b: MailAuthenticator)
    requires Equals(a, Instance(b))
    ensures HashCode(a) == HashCode(b)
  {
  }
}
