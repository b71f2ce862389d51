/** The secret broker as a map from handle to (token, key), and AES-256-GCM as an ideal cipher:
    a table of everything ever sealed, in which opening is a lookup. Whatever a sealing draws from
    its environment (the broker's answer, the random nonce, the ciphertext bytes) is a parameter. */
module SealedVault {
  import opened Text
  import opened Envelope
  import Base64

  const NONCE_LENGTH := 12
  const TAG_LENGTH := 16
  const KEY_LENGTH := 32

  datatype Secret = Secret(token: Bytes, key: Bytes)
  datatype Sealing = Sealing(key: Bytes, nonce: Bytes, aad: Bytes, body: Bytes)
  datatype Vault = Vault(broker: map<Bytes, Secret>, sealings: map<Sealing, Bytes>)

  datatype Mint = MintRefused | Minted(handle: Bytes, token: Option<Bytes>, key: Bytes)
  datatype Draw = Draw(mint: Mint, nonce: Option<Bytes>, body: Bytes)

  datatype VaultError =
    | BrokerRefused
    | MissingToken
    | RandomFailure
    | BadKey
    | BadEnvelope(why: EnvelopeError)
    | LegacyEnvelope
    | PlaintextFound
    | CiphertextTooShort
    | DecryptionFailed
    | NotUtf8

  /** Mint a key, seal under it, frame as nonce, ciphertext and tag, and print the envelope. */
  function Encrypt(v: Vault, d: Draw, plaintext: Bytes, aad: Bytes): (Vault, Result<Bytes, VaultError>) {
    match d.mint
    case MintRefused => (v, Err(BrokerRefused))
    case Minted(handle, token, key) =>
      if token.None? then (v, Err(MissingToken))
      else
        var minted := v.(broker := v.broker[handle := Secret(token.value, key)]);
        if d.nonce.None? then (minted, Err(RandomFailure))
        else if |key| != KEY_LENGTH then (minted, Err(BadKey))
        else
          var sealing := Sealing(key, d.nonce.value, aad, d.body);
          (minted.(sealings := v.sealings[sealing := plaintext]),
           Ok(EncodePayload(handle, token.value, d.nonce.value + d.body)))
  }

  /** The broker trims the handle and the token before it looks them up. */
  function Unwrap(v: Vault, handle: Bytes, token: Bytes): Result<Bytes, VaultError> {
    var h, t := Trim(handle), Trim(token);
    if h in v.broker && v.broker[h].token == t then Ok(v.broker[h].key) else Err(BrokerRefused)
  }

  function Open(v: Vault, key: Bytes, frame: Bytes, aad: Bytes): Result<Bytes, VaultError> {
    if |frame| < NONCE_LENGTH + TAG_LENGTH then Err(CiphertextTooShort)
    else if |key| != KEY_LENGTH then Err(BadKey)
    else
      var sealing := Sealing(key, frame[..NONCE_LENGTH], aad, frame[NONCE_LENGTH..]);
      if sealing in v.sealings then Ok(v.sealings[sealing]) else Err(DecryptionFailed)
  }

  /** Unwrap the key the envelope names and open its ciphertext. */
  function Recover(v: Vault, parts: Parts, aad: Bytes): Result<Bytes, VaultError> {
    if parts.token.None? then Err(LegacyEnvelope)
    else
      var key :- Unwrap(v, parts.handle, parts.token.value);
      var plaintext :- Open(v, key, parts.ciphertext, aad);
      if Utf8(plaintext) then Ok(plaintext) else Err(NotUtf8)
  }

  function Decrypt(v: Vault, envelope: Bytes, aad: Bytes): Result<Bytes, VaultError> {
    match DecodePayload(envelope)
    case Err(why) => Err(BadEnvelope(why))
    case Ok(parts) => Recover(v, parts, aad)
  }

  /** A v2 envelope is stored as it is, a v1 envelope is refused, any other text is sealed. */
  function EnsureEncrypted(v: Vault, d: Draw, value: Bytes, aad: Bytes): (Vault, Result<Bytes, VaultError>) {
    if IsPayloadV2(value) then (v, Ok(value))
    else if IsPayload(value) then (v, Err(LegacyEnvelope))
    else Encrypt(v, d, value, aad)
  }

  /** A protected column must hold a v2 envelope that opens in the column's own context. */
  function DecryptPresent(v: Vault, value: Bytes, aad: Bytes): Result<Bytes, VaultError> {
    if IsPayloadV2(value) then Decrypt(v, value, aad)
    else if IsPayload(value) then Err(LegacyEnvelope)
    else Err(PlaintextFound)
  }

  // ---------- What an honest environment supplies ----------

  predicate FreshKey(v: Vault, key: Bytes) { forall k :: k in v.sealings ==> k.key != key }

  /** Fresh handle and key, text without surrounding white space, a 12-byte nonce, and a ciphertext
      as long as the plaintext and its tag. */
  predicate Lawful(v: Vault, d: Draw, plaintext: Bytes) {
    d.mint.Minted? ==>
      && d.mint.handle !in v.broker && FreshKey(v, d.mint.key)
      && Utf8(d.mint.handle) && Trimmed(d.mint.handle)
      && (d.mint.token.Some? ==> Utf8(d.mint.token.value) && Trimmed(d.mint.token.value))
      && (d.nonce.Some? ==> |d.nonce.value| == NONCE_LENGTH)
      && |d.body| == |plaintext| + TAG_LENGTH
  }

  /** A stored envelope draws nothing, so only a value to be sealed needs a lawful draw. */
  predicate LawfulFor(v: Vault, d: Draw, value: Bytes) { !IsPayload(value) ==> Lawful(v, d, value) }

  /** Nothing the broker or the cipher knew in v has been lost or changed in w. */
  predicate Grows(v: Vault, w: Vault) {
    (forall h :: h in v.broker ==> h in w.broker && w.broker[h] == v.broker[h])
    && (forall k :: k in v.sealings ==> k in w.sealings && w.sealings[k] == v.sealings[k])
  }

  /** The broker handle that an envelope names. */
  function HandleOf(envelope: Bytes): Option<Bytes> {
    match DecodePayload(envelope)
    case Err(_) => None
    case Ok(parts) => Some(Trim(parts.handle))
  }

  /** No sealing has been lost or changed, and none of these handles. */
  predicate Keeps(v: Vault, w: Vault, handles: set<Bytes>) {
    (forall h :: h in handles && h in v.broker ==> h in w.broker && w.broker[h] == v.broker[h])
    && (forall k :: k in v.sealings ==> k in w.sealings && w.sealings[k] == v.sealings[k])
  }

  lemma KeepsTransitive(u: Vault, v: Vault, w: Vault, handles: set<Bytes>)
    requires Keeps(u, v, handles) && Keeps(v, w, handles)
    ensures Keeps(u, w, handles)
  {
  }

  /** A sealed body is as long as its plaintext and the tag. */
  predicate Framed(v: Vault) {
    forall k :: k in v.sealings ==> |k.body| == |v.sealings[k]| + TAG_LENGTH
  }

  /** Every key has sealed at most once. */
  predicate OneUsePerKey(v: Vault) {
    forall j, k :: j in v.sealings && k in v.sealings && j.key == k.key ==> j == k
  }

  /** From v to w the vault only grew, and kept what holds of it: one use for each key, framed bodies. */
  predicate GrowsWell(v: Vault, w: Vault) {
    Grows(v, w) && (OneUsePerKey(v) ==> OneUsePerKey(w)) && (Framed(v) ==> Framed(w))
  }

  lemma EncryptGrows(v: Vault, d: Draw, plaintext: Bytes, aad: Bytes)
    requires Lawful(v, d, plaintext)
    ensures GrowsWell(v, Encrypt(v, d, plaintext, aad).0)
  {
    EncryptVault(v, d, plaintext, aad);
    SealedGrows(v, d, plaintext, aad);
  }

  lemma SealedGrows(v: Vault, d: Draw, plaintext: Bytes, aad: Bytes)
    requires Lawful(v, d, plaintext)
    ensures GrowsWell(v, AfterSealing(v, d, plaintext, aad))
  {
    if d.mint.Minted? && d.mint.token.Some? {
      var secret := Secret(d.mint.token.value, d.mint.key);
      AddHandle(v, d.mint.handle, secret);
      if d.nonce.Some? && |d.mint.key| == KEY_LENGTH {
        var k := Sealing(d.mint.key, d.nonce.value, aad, d.body);
        AddSealing(v, WithHandle(v, d.mint.handle, secret), k, plaintext);
      }
    }
  }

  function WithHandle(v: Vault, handle: Bytes, secret: Secret): Vault {
    v.(broker := v.broker[handle := secret])
  }

  function WithSealing(v: Vault, k: Sealing, plaintext: Bytes): Vault {
    v.(sealings := v.sealings[k := plaintext])
  }

  /** What an attempt to seal leaves behind, however far it came. */
  function AfterSealing(v: Vault, d: Draw, plaintext: Bytes, aad: Bytes): Vault {
    if d.mint.MintRefused? || d.mint.token.None? then v
    else
      var minted := WithHandle(v, d.mint.handle, Secret(d.mint.token.value, d.mint.key));
      if d.nonce.None? || |d.mint.key| != KEY_LENGTH then minted
      else WithSealing(minted, Sealing(d.mint.key, d.nonce.value, aad, d.body), plaintext)
  }

  lemma EncryptVault(v: Vault, d: Draw, plaintext: Bytes, aad: Bytes)
    ensures Encrypt(v, d, plaintext, aad).0 == AfterSealing(v, d, plaintext, aad)
  {
  }

  lemma AddHandle(v: Vault, handle: Bytes, secret: Secret)
    requires handle !in v.broker
    ensures GrowsWell(v, WithHandle(v, handle, secret))
  {
  }

  lemma AddSealing(v: Vault, minted: Vault, k: Sealing, plaintext: Bytes)
    requires FreshKey(v, k.key) && Grows(v, minted) && minted.sealings == v.sealings
    requires |k.body| == |plaintext| + TAG_LENGTH
    ensures GrowsWell(v, WithSealing(minted, k, plaintext))
  {
  }

  lemma EnsureGrows(v: Vault, d: Draw, value: Bytes, aad: Bytes)
    requires LawfulFor(v, d, value)
    ensures GrowsWell(v, EnsureEncrypted(v, d, value, aad).0)
  {
    if !IsPayload(value) {
      EncryptGrows(v, d, value, aad);
    }
  }

  lemma RecoverSealed(v: Vault, handle: Bytes, secret: Secret, nonce: Bytes, aad: Bytes, body: Bytes, plaintext: Bytes)
    requires handle in v.broker && v.broker[handle] == secret && |secret.key| == KEY_LENGTH
    requires Trim(handle) == handle && Trim(secret.token) == secret.token
    requires |nonce| == NONCE_LENGTH && |body| >= TAG_LENGTH && Utf8(plaintext)
    requires var k := Sealing(secret.key, nonce, aad, body); k in v.sealings && v.sealings[k] == plaintext
    ensures Recover(v, Parts(handle, Some(secret.token), nonce + body), aad) == Ok(plaintext)
  {
    var frame := nonce + body;
    assert frame[..NONCE_LENGTH] == nonce && frame[NONCE_LENGTH..] == body;
  }

  /** What was sealed opens again, in its own context, to what was sealed. */
  lemma EncryptDecrypt(v: Vault, d: Draw, plaintext: Bytes, aad: Bytes)
    requires Lawful(v, d, plaintext) && Utf8(plaintext)
    requires Encrypt(v, d, plaintext, aad).1.Ok?
    ensures var (w, s) := Encrypt(v, d, plaintext, aad);
            IsPayloadV2(s.value) && Decrypt(w, s.value, aad) == Ok(plaintext)
  {
    var (w, s) := Encrypt(v, d, plaintext, aad);
    var handle, token, frame := d.mint.handle, d.mint.token.value, d.nonce.value + d.body;
    V2Bijection(s.value, handle, token, frame);
    PayloadIsText(handle, token, frame);
    TrimExact(handle);
    TrimExact(token);
    EncryptVault(v, d, plaintext, aad);
    RecoverSealed(w, handle, Secret(token, d.mint.key), d.nonce.value, aad, d.body, plaintext);
  }

  lemma UnwrapStable(v: Vault, w: Vault, handles: set<Bytes>, handle: Bytes, token: Bytes)
    requires Keeps(v, w, handles) && Trim(handle) in handles && Unwrap(v, handle, token).Ok?
    ensures Unwrap(w, handle, token) == Unwrap(v, handle, token)
  {
  }

  lemma OpenStable(v: Vault, w: Vault, handles: set<Bytes>, key: Bytes, frame: Bytes, aad: Bytes)
    requires Keeps(v, w, handles) && Open(v, key, frame, aad).Ok?
    ensures Open(w, key, frame, aad) == Open(v, key, frame, aad)
  {
  }

  lemma RecoverStable(v: Vault, w: Vault, handles: set<Bytes>, parts: Parts, aad: Bytes)
    requires Keeps(v, w, handles) && Trim(parts.handle) in handles && Recover(v, parts, aad).Ok?
    ensures Recover(w, parts, aad) == Recover(v, parts, aad)
  {
    UnwrapStable(v, w, handles, parts.handle, parts.token.value);
    OpenStable(v, w, handles, Unwrap(v, parts.handle, parts.token.value).value, parts.ciphertext, aad);
  }

  /** An envelope keeps opening to the same value while the broker keeps the one handle it names. */
  lemma DecryptStable(v: Vault, w: Vault, handles: set<Bytes>, envelope: Bytes, aad: Bytes)
    requires Keeps(v, w, handles) && HandleOf(envelope).Some? && HandleOf(envelope).value in handles
    requires Decrypt(v, envelope, aad).Ok?
    ensures Decrypt(w, envelope, aad) == Decrypt(v, envelope, aad)
  {
    RecoverStable(v, w, handles, DecodePayload(envelope).value, aad);
  }

  lemma RecoverForgotten(v: Vault, parts: Parts, aad: Bytes)
    ensures Recover(v.(broker := v.broker - {Trim(parts.handle)}), parts, aad).Err?
  {
  }

  lemma DecryptForgotten(v: Vault, handle: Bytes, envelope: Bytes, aad: Bytes)
    requires HandleOf(envelope) == Some(handle)
    ensures Decrypt(v.(broker := v.broker - {handle}), envelope, aad).Err?
  {
    RecoverForgotten(v, DecodePayload(envelope).value, aad);
  }

  lemma OpenShorter(v: Vault, key: Bytes, frame: Bytes, aad: Bytes)
    requires Framed(v) && Open(v, key, frame, aad).Ok?
    ensures |Open(v, key, frame, aad).value| < |frame|
  {
  }

  lemma CiphertextInside(s: Bytes)
    requires DecodePayload(s).Ok?
    ensures |DecodePayload(s).value.ciphertext| <= |s|
  {
    DecodedShape(s);
    var p := DecodePayload(s).value;
    Base64.EncodeAlphabet(p.ciphertext);
    if p.token.Some? {
      PayloadJoins(p.handle, p.token.value, p.ciphertext);
    }
  }

  /** An envelope opens to something shorter than itself, so never to itself. */
  lemma DecryptShorter(v: Vault, envelope: Bytes, aad: Bytes)
    requires Framed(v) && Decrypt(v, envelope, aad).Ok?
    ensures |Decrypt(v, envelope, aad).value| < |envelope|
  {
    var parts := DecodePayload(envelope).value;
    OpenShorter(v, Unwrap(v, parts.handle, parts.token.value).value, parts.ciphertext, aad);
    CiphertextInside(envelope);
  }

  /** The sealing that a successful recovery looked up. */
  function SealingOf(v: Vault, parts: Parts, aad: Bytes): (k: Sealing)
    requires Recover(v, parts, aad).Ok?
    ensures k in v.sealings && k.aad == aad && v.sealings[k] == Recover(v, parts, aad).value
  {
    var key := Unwrap(v, parts.handle, parts.token.value).value;
    Sealing(key, parts.ciphertext[..NONCE_LENGTH], aad, parts.ciphertext[NONCE_LENGTH..])
  }

  /** An opened value is the plaintext of a sealing made with exactly this associated data. */
  lemma DecryptAuthentic(v: Vault, envelope: Bytes, aad: Bytes)
    requires Decrypt(v, envelope, aad).Ok?
    ensures exists k :: k in v.sealings && k.aad == aad
                        && v.sealings[k] == Decrypt(v, envelope, aad).value
  {
    var k := SealingOf(v, DecodePayload(envelope).value, aad);
  }

  lemma PresentOpens(v: Vault, value: Bytes, aad: Bytes)
    requires DecryptPresent(v, value, aad).Ok?
    ensures DecryptPresent(v, value, aad) == Decrypt(v, value, aad)
  {
  }

  /** An envelope that opens under one associated data opens under no other. */
  lemma OneContextOnly(v: Vault, envelope: Bytes, aad1: Bytes, aad2: Bytes)
    requires OneUsePerKey(v)
    requires Decrypt(v, envelope, aad1).Ok? && Decrypt(v, envelope, aad2).Ok?
    ensures aad1 == aad2
  {
    var parts := DecodePayload(envelope).value;
    assert SealingOf(v, parts, aad1).key == SealingOf(v, parts, aad2).key;
  }
}
