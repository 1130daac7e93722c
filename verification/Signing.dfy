/** Signing and verifying JSON objects.  Marshalling an object and decoding it again is the
    identity on the JSON tree, so both work on trees; the cryptography is a parameter. */
module Signing {
  import opened Wrappers
  import opened JsonValues
  import opened CanonicalJson
  import opened CanonicalForm
  import Utf8

  type Bytes = seq<Utf8.byte>

  const SIGNATURES := "signatures"
  const UNSIGNED := "unsigned"

  /** The primitives: SHA-256, Ed25519 and the two base64 alphabets. */
  datatype Suite = Suite(
    digest: string -> Bytes,
    publicKey: string -> string,
    sign: (string, string) -> Bytes,
    verify: (string, string, Bytes) -> bool,
    encode: Bytes -> string,
    decode: string -> Option<Bytes>,
    encodeId: Bytes -> string)

  /** A signature verifies under the matching key, and base64 loses nothing. */
  ghost predicate Sound(suite: Suite) {
    && (forall key, text :: suite.verify(suite.publicKey(key), text, suite.sign(key, text)))
    && (forall bytes :: suite.decode(suite.encode(bytes)) == Some(bytes))
    && (forall text :: suite.encode(suite.digest(text)) != "")
    && (forall key, text :: suite.encode(suite.sign(key, text)) != "")
  }

  /** Distinct texts have distinct hashes and distinct hashes distinct encodings. */
  ghost predicate CollisionFree(suite: Suite) {
    && (forall s, t :: suite.encode(suite.digest(s)) == suite.encode(suite.digest(t)) ==> s == t)
    && (forall s, t :: suite.encodeId(suite.digest(s)) == suite.encodeId(suite.digest(t)) ==> s == t)
  }

  // ----- a suite that is both

  function Widen(bytes: Bytes): string {
    seq(|bytes|, i requires 0 <= i < |bytes| => bytes[i] as int as char)
  }

  function Narrow(text: string): Option<Bytes> {
    if text != "" && text[0] == '=' && forall i | 1 <= i < |text| :: text[i] < 256 as char
    then Some(seq(|text| - 1, i requires 0 <= i < |text| - 1 => text[i + 1] as int as Utf8.byte))
    else None
  }

  function Spell(bytes: Bytes): string {
    "=" + Widen(bytes)
  }

  /** The bytes of a text for its hash, those of key and text together for a signature, and one
      character for each byte. */
  ghost function PlainSuite(): Suite {
    Suite(
      (text: string) => Utf8.Encode(text),
      (key: string) => key,
      (key: string, text: string) => Utf8.Encode(key + text),
      (key: string, text: string, signature: Bytes) => signature == Utf8.Encode(key + text),
      Spell, Narrow, Spell)
  }

  /** The hypotheses on the primitives can be met. */
  lemma SuitesExist()
    ensures exists suite :: Sound(suite) && CollisionFree(suite)
  {
    PlainSuiteIsSound();
    PlainSuiteIsCollisionFree();
  }

  lemma PlainSuiteIsSound()
    ensures Sound(PlainSuite())
  {
    forall bytes: Bytes
      ensures Narrow(Spell(bytes)) == Some(bytes)
    {
      WideningIsUndone(bytes);
    }
  }

  lemma PlainSuiteIsCollisionFree()
    ensures CollisionFree(PlainSuite())
  {
    forall s, t | Spell(Utf8.Encode(s)) == Spell(Utf8.Encode(t))
      ensures s == t
    {
      WideningIsUndone(Utf8.Encode(s));
      WideningIsUndone(Utf8.Encode(t));
      Utf8.EncodeIsInjective(s, t);
    }
  }

  lemma WideningIsUndone(bytes: Bytes)
    ensures Narrow(Spell(bytes)) == Some(bytes)
  {
    var text := Spell(bytes);
    forall i | 1 <= i < |text|
      ensures text[i] < 256 as char && text[i] as int as Utf8.byte == bytes[i - 1]
    {
      assert text[i] == Widen(bytes)[i - 1];
    }
    assert Narrow(text).value == bytes;
  }

  /** What a signature covers. */
  function Payload(m: Fields): Fields {
    m - {SIGNATURES, UNSIGNED}
  }

  function SignaturesBy(m: Fields, server: string): Fields {
    FieldsIn(FieldsIn(m, SIGNATURES), server)
  }

  ghost function Signed(suite: Suite, m: Fields, server: string, keyId: string, key: string): Fields {
    var signature := String(suite.encode(suite.sign(key, TextOf(Object(Payload(m))))));
    var byServer := SignaturesBy(m, server)[keyId := signature];
    var signatures := FieldsIn(m, SIGNATURES)[server := Object(byServer)];
    m[SIGNATURES := Object(signatures)]
  }

  /** Taking both parts out, signing, and putting them back changes the signatures only. */
  lemma PutBackTogether(m: Fields, signatures: Json)
    ensures UNSIGNED in m ==>
              Payload(m)[SIGNATURES := signatures][UNSIGNED := m[UNSIGNED]] == m[SIGNATURES := signatures]
    ensures UNSIGNED !in m ==> Payload(m)[SIGNATURES := signatures] == m[SIGNATURES := signatures]
    ensures UNSIGNED != SIGNATURES
  {
  }

  method SignJson(suite: Suite, document: Fields, server: string, keyId: string, key: string)
    returns (result: Result<Fields, WriteError>)
    ensures result.Ok? <==> Writable(Object(Payload(document)))
    ensures result.Ok? ==> result.value == Signed(suite, document, server, keyId, key)
  {
    var m := document;
    var signatures := FieldsIn(m, SIGNATURES);
    var unsigned, hasUnsigned := Null, UNSIGNED in m;
    if hasUnsigned {
      unsigned := m[UNSIGNED];
    }
    m := m - {SIGNATURES};
    m := m - {UNSIGNED};
    assert m == Payload(document);
    var canonical := Canonical(Object(m));
    if canonical.Err? {
      return Err(canonical.error);
    }
    var byServer := FieldsIn(signatures, server);
    byServer := byServer[keyId := String(suite.encode(suite.sign(key, canonical.value)))];
    signatures := signatures[server := Object(byServer)];
    m := m[SIGNATURES := Object(signatures)];
    if hasUnsigned {
      m := m[UNSIGNED := unsigned];
    }
    PutBackTogether(document, m[SIGNATURES]);
    return Ok(m);
  }

  datatype VerifyError = NoSignature | BadEncoding | NotCanonical | BadSignature

  ghost function Verify(suite: Suite, m: Fields, server: string, keyId: string, publicKey: string): Option<VerifyError>
  {
    var encoded := StringIn(SignaturesBy(m, server), keyId);
    if encoded == "" then Some(NoSignature)
    else if suite.decode(encoded).None? then Some(BadEncoding)
    else if !Writable(Object(Payload(m))) then Some(NotCanonical)
    else if !suite.verify(publicKey, TextOf(Object(Payload(m))), suite.decode(encoded).value) then Some(BadSignature)
    else None
  }

  method VerifyJson(suite: Suite, document: Fields, server: string, keyId: string, publicKey: string)
    returns (error: Option<VerifyError>)
    ensures error == Verify(suite, document, server, keyId, publicKey)
  {
    var m := document;
    var signatures := FieldsIn(m, SIGNATURES);
    var byServer := FieldsIn(signatures, server);
    var encoded := StringIn(byServer, keyId);
    if encoded == "" {
      return Some(NoSignature);
    }
    var signature := suite.decode(encoded);
    if signature.None? {
      return Some(BadEncoding);
    }
    m := m - {SIGNATURES};
    m := m - {UNSIGNED};
    assert m == Payload(document);
    var canonical := Canonical(Object(m));
    if canonical.Err? {
      return Some(NotCanonical);
    }
    if !suite.verify(publicKey, canonical.value, signature.value) {
      return Some(BadSignature);
    }
    return None;
  }

  /** Only the payload and the signatures matter. */
  lemma VerifyReadsTwoParts(suite: Suite, m: Fields, n: Fields, server: string, keyId: string, publicKey: string)
    requires Payload(m) == Payload(n) && SIGNATURES in m && SIGNATURES in n && m[SIGNATURES] == n[SIGNATURES]
    ensures Verify(suite, m, server, keyId, publicKey) == Verify(suite, n, server, keyId, publicKey)
  {
  }

  lemma SigningKeepsThePayload(suite: Suite, m: Fields, server: string, keyId: string, key: string)
    ensures Payload(Signed(suite, m, server, keyId, key)) == Payload(m)
  {
  }

  /** A signed object verifies under the matching key, and signing it disturbs no other
      signature: under any other server or key id the outcome is what it was. */
  lemma SigningThenVerifying(suite: Suite, m: Fields, server: string, keyId: string, key: string,
                             other: string, otherId: string, otherKey: string)
    requires Sound(suite) && Writable(Object(Payload(m)))
    ensures var signed := Signed(suite, m, server, keyId, key);
            && Verify(suite, signed, server, keyId, suite.publicKey(key)).None?
            && ((other, otherId) != (server, keyId) ==>
                  Verify(suite, signed, other, otherId, otherKey) == Verify(suite, m, other, otherId, otherKey))
  {
    var signed := Signed(suite, m, server, keyId, key);
    SigningKeepsThePayload(suite, m, server, keyId, key);
    if other == server {
      assert SignaturesBy(signed, other) == SignaturesBy(m, server)[keyId := SignaturesBy(signed, other)[keyId]];
    } else {
      assert SignaturesBy(signed, other) == SignaturesBy(m, other);
    }
  }

  // ----- what is signed and where the signature goes, in the specification's words

  /** The signed text is the same exactly for objects that agree on all but these two fields. */
  lemma SignaturesCoverTheRest(m: Fields, n: Fields)
    ensures TextOf(Object(Payload(m))) == TextOf(Object(Payload(n))) <==>
              forall key | key !in {"signatures", "unsigned"} :: SameField(m, n, key)
  {
    SameRest(m, n, {SIGNATURES, UNSIGNED});
    if TextOf(Object(Payload(m))) == TextOf(Object(Payload(n))) {
      CanonicalTextIsInjective(Object(Payload(m)), Object(Payload(n)));
    }
  }

  /** The object has this text filed as the server's signature under the key id. */
  ghost predicate Files(m: Fields, server: string, keyId: string, text: string) {
    && "signatures" in m && m["signatures"].Object?
    && server in m["signatures"].fields && m["signatures"].fields[server].Object?
    && keyId in m["signatures"].fields[server].fields
    && m["signatures"].fields[server].fields[keyId] == String(text)
    && text != ""
  }

  /** The four faults and the one success: no signature filed, one that is not base64, an object
      with no canonical form, one the primitive refuses, and one it accepts. */
  lemma FaultsInWords(suite: Suite, m: Fields, server: string, keyId: string, publicKey: string)
    ensures var error, covered := Verify(suite, m, server, keyId, publicKey), Object(m - {"signatures", "unsigned"});
            && (error == Some(NoSignature) <==> forall text :: !Files(m, server, keyId, text))
            && (forall text | Files(m, server, keyId, text) ::
                  && (error == Some(BadEncoding) <==> suite.decode(text).None?)
                  && (forall signature | suite.decode(text) == Some(signature) ::
                        && (error == Some(NotCanonical) <==> !Writable(covered))
                        && (error == Some(BadSignature) <==>
                              Writable(covered) && !suite.verify(publicKey, TextOf(covered), signature))
                        && (error == None <==>
                              Writable(covered) && suite.verify(publicKey, TextOf(covered), signature))))
  {
    var encoded := StringIn(SignaturesBy(m, server), keyId);
    assert forall text :: Files(m, server, keyId, text) <==> text == encoded != "";
    assert encoded != "" ==> Files(m, server, keyId, encoded);
    assert m - {"signatures", "unsigned"} == Payload(m);
  }

  /** The signature goes under the server and the key id in the object's signatures, and nothing
      else changes. */
  lemma SignaturesGoUnderTheirKey(suite: Suite, m: Fields, server: string, keyId: string, key: string)
    ensures var signed := Signed(suite, m, server, keyId, key);
            && "signatures" in signed && signed["signatures"].Object?
            && var all := signed["signatures"].fields;
            && server in all && all[server].Object? && keyId in all[server].fields
            && all[server].fields[keyId] == String(suite.encode(suite.sign(key, TextOf(Object(Payload(m))))))
            && (forall other | other != "signatures" ::
                  (other in signed <==> other in m) && (other in m ==> signed[other] == m[other]))
            && (forall other | other != server && other in FieldsIn(m, "signatures") ::
                  other in all && all[other] == FieldsIn(m, "signatures")[other])
  {
  }
}
