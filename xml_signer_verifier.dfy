/** `XMLSignerVerifier`: enveloped XML signatures (XML-Signature Syntax and
    Processing, W3C Recommendation) over a parsed DOM document. Signing
    always uses a SHA-1 digest, the enveloped-signature transform, inclusive
    canonicalisation with comments and RSA-SHA1, and embeds the signer's
    public key as a KeyValue. Validation takes the first Signature element
    in document order and checks it against the key its own KeyInfo
    carries, chosen by `KeyValueKeySelector`. Parsing, canonicalisation,
    digests and the signature arithmetic are not modelled: a parsed
    document is the list of its Signature elements, and whether a signature
    checks out under a key is the parameter `verifies`. */
module XMLSignerVerifier {
  import opened MailTypes

  const SHA1: string := "http://www.w3.org/2000/09/xmldsig#sha1"
  const ENVELOPED: string := "http://www.w3.org/2000/09/xmldsig#enveloped-signature"
  const INCLUSIVE_WITH_COMMENTS: string := "http://www.w3.org/TR/2001/REC-xml-c14n-20010315#WithComments"
  const DSA_SHA1: string := "http://www.w3.org/2000/09/xmldsig#dsa-sha1"
  const RSA_SHA1: string := "http://www.w3.org/2000/09/xmldsig#rsa-sha1"

  /** A key: its algorithm name ("RSA", "DSA", ...) and opaque key material. */
  datatype PublicKey = PublicKey(algorithm: string, material: int)
  datatype PrivateKey = PrivateKey(algorithm: string, material: int)

  /** An entry of a KeyInfo element: a KeyValue, whose public key can be
      read (`Some`) or fails with a KeyException (`None`), or any other
      structure (a KeyName, X509Data, ...). */
  datatype KeyInfoEntry = KeyValue(key: Option<PublicKey>) | OtherStructure

  /** A Signature element: whether it unmarshals, the algorithms its
      SignedInfo names, its KeyInfo (absent or a list of entries) and the
      private key its SignatureValue was computed with. */
  datatype SignatureElement = SignatureElement(
    wellFormed: bool,
    signatureMethod: string,
    digestMethod: string,
    transform: string,
    canonicalization: string,
    keyInfo: Option<seq<KeyInfoEntry>>,
    signer: PrivateKey)

  /** The public keys `newKeyValue` can wrap: DSA, RSA and EC keys; any
      other algorithm is a KeyException. */
  predicate KeyValueSupported(key: PublicKey) {
    key.algorithm == "DSA" || key.algorithm == "RSA" || key.algorithm == "EC"
  }

  /** The key selector's algorithm check: a DSA key for DSA-SHA1 or an RSA
      key for RSA-SHA1, both names compared ignoring case. */
  predicate Compatible(keyAlgorithm: string, sigMethod: string) {
    (EqualsIgnoreCase(keyAlgorithm, "DSA") && EqualsIgnoreCase(sigMethod, DSA_SHA1)) ||
    (EqualsIgnoreCase(keyAlgorithm, "RSA") && EqualsIgnoreCase(sigMethod, RSA_SHA1))
  }

  /** An entry the selector's loop walks past: not a KeyValue, or a
      KeyValue whose key is readable but incompatible. */
  predicate Skipped(e: KeyInfoEntry, sigMethod: string) {
    e.OtherStructure? || (e.key.Some? && !Compatible(e.key.value.algorithm, sigMethod))
  }

  /** Every entry before index `i` is walked past. */
  predicate SkippedBefore(entries: seq<KeyInfoEntry>, sigMethod: string, i: nat)
    requires i <= |entries|
  {
    forall j :: 0 <= j < i ==> Skipped(entries[j], sigMethod)
  }

  /** The selector's loop over the KeyInfo's entries: the first compatible
      KeyValue's key; a KeyException or the end of the list is a
      KeySelectorException. */
  function SelectKey(entries: seq<KeyInfoEntry>, sigMethod: string): Result<PublicKey>
    decreases |entries|
  {
    if entries == [] then Err(KeySelection)
    else match entries[0]
      case OtherStructure => SelectKey(entries[1..], sigMethod)
      case KeyValue(None) => Err(KeySelection)
      case KeyValue(Some(pk)) =>
        if Compatible(pk.algorithm, sigMethod) then Ok(pk) else SelectKey(entries[1..], sigMethod)
  }

  /** `select(keyInfo, ..., method, ...)`: a null KeyInfo is a
      KeySelectorException, otherwise the loop decides. */
  function SelectedKey(keyInfo: Option<seq<KeyInfoEntry>>, sigMethod: string): Result<PublicKey> {
    if keyInfo.None? then Err(KeySelection) else SelectKey(keyInfo.value, sigMethod)
  }

  /** The first compatible KeyValue is selected, whatever follows it. */
  lemma {:induction false} SelectKeyFound(entries: seq<KeyInfoEntry>, sigMethod: string, i: nat, pk: PublicKey)
    requires i < |entries| && SkippedBefore(entries, sigMethod, i)
    requires entries[i] == KeyValue(Some(pk)) && Compatible(pk.algorithm, sigMethod)
    ensures SelectKey(entries, sigMethod) == Ok(pk)
    decreases i
  {
    if i > 0 {
      assert Skipped(entries[0], sigMethod);
      assert entries[1..][i - 1] == entries[i];
      assert SkippedBefore(entries[1..], sigMethod, i - 1) by {
        forall j | 0 <= j < i - 1 ensures Skipped(entries[1..][j], sigMethod) {
          assert entries[1..][j] == entries[j + 1];
        }
      }
      SelectKeyFound(entries[1..], sigMethod, i - 1, pk);
    }
  }

  /** A KeyValue whose key cannot be read ends the search with a
      KeySelectorException, even when a compatible key follows. */
  lemma {:induction false} SelectKeyBroken(entries: seq<KeyInfoEntry>, sigMethod: string, i: nat)
    requires i < |entries| && SkippedBefore(entries, sigMethod, i)
    requires entries[i] == KeyValue(None)
    ensures SelectKey(entries, sigMethod) == Err(KeySelection)
    decreases i
  {
    if i > 0 {
      assert Skipped(entries[0], sigMethod);
      assert entries[1..][i - 1] == entries[i];
      assert SkippedBefore(entries[1..], sigMethod, i - 1) by {
        forall j | 0 <= j < i - 1 ensures Skipped(entries[1..][j], sigMethod) {
          assert entries[1..][j] == entries[j + 1];
        }
      }
      SelectKeyBroken(entries[1..], sigMethod, i - 1);
    }
  }

  /** With no compatible KeyValue, incompatible ones included, the
      selector fails with "No KeyValue element found". */
  lemma {:induction false} SelectKeyMissing(entries: seq<KeyInfoEntry>, sigMethod: string)
    requires SkippedBefore(entries, sigMethod, |entries|)
    ensures SelectKey(entries, sigMethod) == Err(KeySelection)
    decreases |entries|
  {
    if entries != [] {
      assert Skipped(entries[0], sigMethod);
      assert SkippedBefore(entries[1..], sigMethod, |entries| - 1) by {
        forall j | 0 <= j < |entries| - 1 ensures Skipped(entries[1..][j], sigMethod) {
          assert entries[1..][j] == entries[j + 1];
        }
      }
      SelectKeyMissing(entries[1..], sigMethod);
    }
  }

  /** A selected key is a readable, compatible KeyValue of the list with
      only walked-past entries before it; every failure is a
      KeySelectorException. */
  lemma {:induction false} SelectKeySound(entries: seq<KeyInfoEntry>, sigMethod: string)
    ensures SelectKey(entries, sigMethod).Err? ==> SelectKey(entries, sigMethod).error == KeySelection
    ensures SelectKey(entries, sigMethod).Ok? ==>
      var pk := SelectKey(entries, sigMethod).value;
      exists i :: 0 <= i < |entries| && entries[i] == KeyValue(Some(pk)) &&
        Compatible(pk.algorithm, sigMethod) && SkippedBefore(entries, sigMethod, i)
    decreases |entries|
  {
    if entries != [] && entries[0] != KeyValue(None) {
      var r := SelectKey(entries, sigMethod);
      if entries[0].OtherStructure? || !Compatible(entries[0].key.value.algorithm, sigMethod) {
        SelectKeySound(entries[1..], sigMethod);
        if r.Ok? {
          var i :| 0 <= i < |entries[1..]| && entries[1..][i] == KeyValue(Some(r.value)) &&
            Compatible(r.value.algorithm, sigMethod) && SkippedBefore(entries[1..], sigMethod, i);
          assert entries[i + 1] == KeyValue(Some(r.value));
          assert SkippedBefore(entries, sigMethod, i + 1) by {
            forall j | 0 <= j < i + 1 ensures Skipped(entries[j], sigMethod) {
              if j > 0 {
                assert entries[j] == entries[1..][j - 1];
              }
            }
          }
        }
      } else {
        assert SkippedBefore(entries, sigMethod, 0);
      }
    }
  }

  /** For the two signature methods it knows, compatibility is exactly the
      matching key algorithm; any other signature method selects nothing. */
  lemma CompatibleCases(keyAlgorithm: string, sigMethod: string)
    ensures Compatible(keyAlgorithm, RSA_SHA1) <==> EqualsIgnoreCase(keyAlgorithm, "RSA")
    ensures Compatible(keyAlgorithm, DSA_SHA1) <==> EqualsIgnoreCase(keyAlgorithm, "DSA")
    ensures !EqualsIgnoreCase(sigMethod, RSA_SHA1) && !EqualsIgnoreCase(sigMethod, DSA_SHA1) ==>
      !Compatible(keyAlgorithm, sigMethod)
  {
    assert RSA_SHA1[34] == 'r' && DSA_SHA1[34] == 'd';
    assert !EqualsIgnoreCase(RSA_SHA1, DSA_SHA1) by {
      assert Lower(RSA_SHA1[34]) != Lower(DSA_SHA1[34]);
    }
    assert !EqualsIgnoreCase(DSA_SHA1, RSA_SHA1) by {
      assert Lower(DSA_SHA1[34]) != Lower(RSA_SHA1[34]);
    }
  }

  /** What `validate` yields when the parse produced `signatures` (the
      document's Signature elements in document order; `None` when parsing
      failed) and the XML-Sig provider was or was not loaded: the uncaught
      NullPointerExceptions of a null document, a missing Signature element
      and a missing provider; `false` for a signature that does not
      unmarshal or whose key the selector cannot find; else the
      cryptographic check under the selected, embedded key. */
  function ValidationVerdict(providerLoaded: bool, signatures: Option<seq<SignatureElement>>,
                             verifies: (PublicKey, SignatureElement) -> bool): Result<bool>
  {
    if signatures.None? || signatures.value == [] || !providerLoaded then Err(NullPointer)
    else
      var s := signatures.value[0];
      if !s.wellFormed then Ok(false)
      else
        var key := SelectedKey(s.keyInfo, s.signatureMethod);
        if key.Err? then Ok(false) else Ok(verifies(key.value, s))
  }

  /** The outcomes of `validate`: only a missing document, Signature element
      or provider escapes as an exception; `true` means the first Signature
      element verifies under a key its own KeyInfo carries. */
  lemma ValidationOutcomes(providerLoaded: bool, signatures: Option<seq<SignatureElement>>,
                           verifies: (PublicKey, SignatureElement) -> bool)
    ensures ValidationVerdict(providerLoaded, signatures, verifies).Err? <==>
      signatures.None? || signatures.value == [] || !providerLoaded
    ensures ValidationVerdict(providerLoaded, signatures, verifies).Err? ==>
      ValidationVerdict(providerLoaded, signatures, verifies).error == NullPointer
    ensures ValidationVerdict(providerLoaded, signatures, verifies) == Ok(true) ==>
      var s := signatures.value[0];
      && s.wellFormed && s.keyInfo.Some?
      && exists i :: 0 <= i < |s.keyInfo.value| && s.keyInfo.value[i].KeyValue? && s.keyInfo.value[i].key.Some? &&
           verifies(s.keyInfo.value[i].key.value, s)
  {
    if ValidationVerdict(providerLoaded, signatures, verifies) == Ok(true) {
      var s := signatures.value[0];
      SelectKeySound(s.keyInfo.value, s.signatureMethod);
    }
  }

  /** The Signature element `sign` builds for the given key pair: SHA-1,
      the enveloped transform, inclusive canonicalisation with comments,
      RSA-SHA1, and a KeyInfo holding the public key as its only KeyValue. */
  function Enveloped(publicKey: PublicKey, privateKey: PrivateKey): (s: SignatureElement) {
    SignatureElement(true, RSA_SHA1, SHA1, ENVELOPED, INCLUSIVE_WITH_COMMENTS,
                     Some([KeyValue(Some(publicKey))]), privateKey)
  }

  /** Signing a document with no Signature yet and validating the result
      comes down to the cryptographic check of the new signature under the
      signer's own public key when that key is an RSA key, and is `false`
      for any other key, whose KeyValue the selector rejects for RSA-SHA1. */
  lemma SignThenValidate(publicKey: PublicKey, privateKey: PrivateKey,
                         verifies: (PublicKey, SignatureElement) -> bool)
    ensures var s := Enveloped(publicKey, privateKey);
      ValidationVerdict(true, Some([s]), verifies) ==
        if EqualsIgnoreCase(publicKey.algorithm, "RSA") then Ok(verifies(publicKey, s)) else Ok(false)
  {
    CompatibleCases(publicKey.algorithm, RSA_SHA1);
    var entries := [KeyValue(Some(publicKey))];
    assert entries[1..] == [];
    var s := Enveloped(publicKey, privateKey);
    assert s.keyInfo == Some(entries) && s.wellFormed && s.signatureMethod == RSA_SHA1;
    if EqualsIgnoreCase(publicKey.algorithm, "RSA") {
      assert SelectKey(entries, RSA_SHA1) == Ok(publicKey);
    } else {
      assert SelectKey(entries, RSA_SHA1) == Err(KeySelection);
    }
  }

  /** Validation looks only at the first Signature element in document
      order: a signature appended to a document that already holds one
      changes nothing. */
  lemma FirstSignatureDecides(providerLoaded: bool, signatures: seq<SignatureElement>, added: SignatureElement,
                              verifies: (PublicKey, SignatureElement) -> bool)
    requires signatures != []
    ensures ValidationVerdict(providerLoaded, Some(signatures + [added]), verifies) ==
            ValidationVerdict(providerLoaded, Some(signatures), verifies)
  {
    assert (signatures + [added])[0] == signatures[0];
  }

  /** The validation intended by the truststore key the constructor loads:
      the first Signature element is checked against that trusted key
      (when its algorithm suits the signature method), never against a key
      the document carries. A missing trusted key is the
      NullPointerException a validate context with a null key raises. */
  function AnchoredVerdict(providerLoaded: bool, signatures: Option<seq<SignatureElement>>,
                           anchor: Option<PublicKey>, verifies: (PublicKey, SignatureElement) -> bool): Result<bool>
  {
    if signatures.None? || signatures.value == [] || !providerLoaded || anchor.None? then Err(NullPointer)
    else
      var s := signatures.value[0];
      if !s.wellFormed || !Compatible(anchor.value.algorithm, s.signatureMethod) then Ok(false)
      else Ok(verifies(anchor.value, s))
  }

  /** Against the trusted key, `true` means the first Signature element
      verifies under that key, whatever its KeyInfo says; and the round
      trip of a document signed with the trusted RSA key pair still comes
      down to that key's check. */
  lemma AnchorOnlyTrusts(providerLoaded: bool, signatures: Option<seq<SignatureElement>>,
                         anchor: Option<PublicKey>, privateKey: PrivateKey,
                         verifies: (PublicKey, SignatureElement) -> bool)
    ensures AnchoredVerdict(providerLoaded, signatures, anchor, verifies) == Ok(true) ==>
      verifies(anchor.value, signatures.value[0])
    ensures anchor.Some? && EqualsIgnoreCase(anchor.value.algorithm, "RSA") ==>
      var s := Enveloped(anchor.value, privateKey);
      AnchoredVerdict(true, Some([s]), anchor, verifies) == Ok(verifies(anchor.value, s))
  {
    if anchor.Some? {
      CompatibleCases(anchor.value.algorithm, RSA_SHA1);
    }
  }

  /** As written, a document an attacker signed with a key pair of their
      own, embedding that public key, validates whenever the signature is
      mathematically sound, although the trusted key rejects it. */
  lemma EmbeddedKeyAccepted(anchor: PublicKey, attacker: PublicKey, forged: PrivateKey,
                            verifies: (PublicKey, SignatureElement) -> bool)
    requires EqualsIgnoreCase(attacker.algorithm, "RSA") && EqualsIgnoreCase(anchor.algorithm, "RSA")
    requires verifies(attacker, Enveloped(attacker, forged))
    requires !verifies(anchor, Enveloped(attacker, forged))
    ensures ValidationVerdict(true, Some([Enveloped(attacker, forged)]), verifies) == Ok(true)
    ensures AnchoredVerdict(true, Some([Enveloped(attacker, forged)]), Some(anchor), verifies) == Ok(false)
  {
    CompatibleCases(attacker.algorithm, RSA_SHA1);
    CompatibleCases(anchor.algorithm, RSA_SHA1);
  }

  /** A parsed DOM document, reduced to its Signature elements in document
      order; signing appends one as the last child of the root element. */
  class Document {
    var signatures: seq<SignatureElement>

    constructor (signatures: seq<SignatureElement>)
      ensures this.signatures == signatures
    {
      this.signatures := signatures;
    }
  }

  /** `KeyValueKeySelector.select`: the loop over the KeyInfo's entries. */
  method Select(keyInfo: Option<seq<KeyInfoEntry>>, sigMethod: string) returns (r: Result<PublicKey>)
    ensures r == SelectedKey(keyInfo, sigMethod)
  {
    if keyInfo.None? {
      return Err(KeySelection);
    }
    var list := keyInfo.value;
    var i := 0;
    while i < |list|
      invariant 0 <= i <= |list|
      invariant SelectKey(list[i..], sigMethod) == SelectKey(list, sigMethod)
    {
      if list[i].KeyValue? {
        if list[i].key.None? {
          return Err(KeySelection);
        }
        var pk := list[i].key.value;
        if Compatible(pk.algorithm, sigMethod) {
          return Ok(pk);
        }
      }
      assert list[i..][1..] == list[i + 1..];
      i := i + 1;
    }
    r := Err(KeySelection);
  }

  class XMLSignerVerifier {
    /** Whether the XML-Sig provider could be instantiated; when it could
        not, the signature factory stays null. */
    const providerLoaded: bool
    /** The keystore's private key and the truststore's public key, each
        null when loading it failed. */
    const privateKey: Option<PrivateKey>
    const publicKey: Option<PublicKey>

    /** The constructor, with the outcome of loading the provider and the
        two keys as inputs. */
    constructor (providerLoaded: bool, privateKey: Option<PrivateKey>, publicKey: Option<PublicKey>)
      ensures this.providerLoaded == providerLoaded
      ensures this.privateKey == privateKey && this.publicKey == publicKey
    {
      this.providerLoaded := providerLoaded;
      this.privateKey := privateKey;
      this.publicKey := publicKey;
    }

    /** `sign(is, os)` on the parsed `document` (null when parsing failed):
        a missing provider, public key, document or private key is a
        NullPointerException that escapes, and so is a public key that
        `newKeyValue` cannot wrap, whose KeyException is caught and leaves
        the signature null; a signing failure (`signs`
        false) is logged and the document goes out unsigned; otherwise the
        fixed-algorithm Signature element is appended. */
    method Sign(document: Document?, signs: bool) returns (r: Outcome)
      modifies document
      ensures r.Fail? <==> !providerLoaded || publicKey.None? || !KeyValueSupported(publicKey.value)
                            || document == null || privateKey.None?
      ensures r.Fail? ==> r.error == NullPointer
      ensures document != null && r.Pass? && signs ==>
        document.signatures == old(document.signatures) + [Enveloped(publicKey.value, privateKey.value)]
      ensures document != null && !(r.Pass? && signs) ==> document.signatures == old(document.signatures)
    {
      if !providerLoaded || publicKey.None? {
        return Fail(NullPointer);
      }
      if !KeyValueSupported(publicKey.value) {
        // the KeyException is caught and `signature` stays null
        return Fail(NullPointer);
      }
      if document == null || privateKey.None? {
        return Fail(NullPointer);
      }
      var signature := Enveloped(publicKey.value, privateKey.value);
      if signs {
        document.signatures := document.signatures + [signature];
      }
      r := Pass;
    }

    /** `validate(is)` on the parsed `document` (null when parsing failed),
        with the key taken from the document's own KeyInfo. */
    method Validate(document: Document?, verifies: (PublicKey, SignatureElement) -> bool) returns (r: Result<bool>)
      ensures r == ValidationVerdict(providerLoaded, if document == null then None else Some(document.signatures), verifies)
    {
      if document == null || document.signatures == [] || !providerLoaded {
        return Err(NullPointer);
      }
      var s := document.signatures[0];
      if !s.wellFormed {
        return Ok(false);
      }
      var key := Select(s.keyInfo, s.signatureMethod);
      if key.Err? {
        return Ok(false);
      }
      r := Ok(verifies(key.value, s));
    }

    /** Validation against the truststore key loaded by the constructor. */
    method ValidateAgainstAnchor(document: Document?, verifies: (PublicKey, SignatureElement) -> bool)
      returns (r: Result<bool>)
      ensures r == AnchoredVerdict(providerLoaded, if document == null then None else Some(document.signatures),
                                   publicKey, verifies)
      ensures r == Ok(true) ==> verifies(publicKey.value, document.signatures[0])
    {
      if document == null || document.signatures == [] || !providerLoaded || publicKey.None? {
        return Err(NullPointer);
      }
      var s := document.signatures[0];
      if !s.wellFormed || !Compatible(publicKey.value.algorithm, s.signatureMethod) {
        return Ok(false);
      }
      r := Ok(verifies(publicKey.value, s));
    }
  }
}
