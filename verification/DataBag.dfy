/** The encrypted data bag item codec.  The cryptographic primitives and the JSON printer are
    arbitrary functions with the laws of `Lawful`; everything around them is modelled as is. */
module DataBag {
  import opened Wrappers
  import opened Bytes
  import opened Base64
  import opened Padding

  /** A finite float64: its sign, its whole part, and the rest in units of 2^-1074. */
  datatype Float = Float(negative: bool, whole: nat, fraction: nat)

  /** Conversion to int truncates toward zero. */
  function Truncate(f: Float): int {
    if f.negative then 0 - f.whole else f.whole
  }

  /** A JSON-decoded value. */
  datatype Json =
    | Null
    | Bool(b: bool)
    | Num(f: Float)
    | Str(s: string)
    | Arr(items: seq<Json>)
    | Obj(fields: map<string, Json>)

  type Item = map<string, Json>

  datatype Error = NotEncrypted | AuthFailed | NoId | NoRandomness | BadKey

  const JSON_WRAPPER_KEY := "json_wrapper"
  const NONCE_SIZE: nat := 12
  const TAG_SIZE: nat := 16

  type Nonce = n: Bytes | |n| == NONCE_SIZE witness seq(NONCE_SIZE, _ => 0)

  datatype Crypto = Crypto(
    sha256: Bytes -> Bytes,
    hmac: (Bytes, Bytes) -> Bytes,                    // key, message
    gcmSeal: (Bytes, Bytes, Bytes) -> Bytes,          // key, nonce, plaintext
    gcmOpen: (Bytes, Bytes, Bytes) -> Option<Bytes>,  // key, nonce, ciphertext with tag
    encryptBlock: Bytes -> BlockFn,                   // key
    decryptBlock: Bytes -> BlockFn,                   // key
    utf8: string -> Bytes,
    marshal: Json -> Bytes,
    unmarshal: Bytes -> Option<Json>)

  ghost predicate Lawful(c: Crypto) {
    && (forall s :: |c.sha256(s)| == 32)
    && (forall k, n, p :: |n| == NONCE_SIZE ==>
          |c.gcmSeal(k, n, p)| == |p| + TAG_SIZE && c.gcmOpen(k, n, c.gcmSeal(k, n, p)) == Some(p))
    && (forall k :: OnBlocks(c.encryptBlock(k)) && OnBlocks(c.decryptBlock(k))
          && Undoes(c.decryptBlock(k), c.encryptBlock(k)))
    && (forall j :: c.unmarshal(c.marshal(j)) == Some(j))
  }

  // ---------------------------------------------------------------------------
  // Wrappers

  datatype Wrapper = Wrapper(
    version: int, cipher: string, encryptedData: string, iv: string, authTag: string, hmac: string)

  /** m[key].(string) */
  function StringField(m: map<string, Json>, key: string): Option<string> {
    if key in m && m[key].Str? then Some(m[key].s) else None
  }

  function ParseWrapper(v: Json): Result<Wrapper, Error> {
    if !v.Obj? then Err(NotEncrypted)
    else
      var m := v.fields;
      if !("version" in m && m["version"].Num?) then Err(NotEncrypted)
      else
        var ver := Truncate(m["version"].f);
        var ed, iv := StringField(m, "encrypted_data"), StringField(m, "iv");
        var hmac, tag := StringField(m, "hmac"), StringField(m, "auth_tag");
        if (ver != 1 && ver != 2 && ver != 3) || ed.None? || iv.None?
           || (ver == 2 && hmac.None?) || (ver == 3 && tag.None?) then Err(NotEncrypted)
        else
          var cipher := StringField(m, "cipher");
          Ok(Wrapper(ver, if cipher.Some? then cipher.value else "", ed.value, iv.value,
                     if ver == 3 then tag.value else "", if ver == 2 then hmac.value else ""))
  }

  /** The fields that the version calls for. */
  predicate HasFields(m: map<string, Json>, version: int) {
    && StringField(m, "encrypted_data").Some? && StringField(m, "iv").Some?
    && (version == 2 ==> StringField(m, "hmac").Some?)
    && (version == 3 ==> StringField(m, "auth_tag").Some?)
  }

  /** A value is accepted exactly when it is an object whose version is at least 1 and below 4, with
      the fields of the version's whole part; the version read is the number written exactly when
      that number is whole. */
  lemma AcceptedIff(v: Json)
    ensures ParseWrapper(v).Ok? <==>
            && v.Obj? && "version" in v.fields && v.fields["version"].Num?
            && !v.fields["version"].f.negative && 1 <= v.fields["version"].f.whole <= 3
            && HasFields(v.fields, v.fields["version"].f.whole)
    ensures ParseWrapper(v).Ok? ==>
            var written, version := v.fields["version"].f, ParseWrapper(v).value.version;
            && version == written.whole
            && (written == Float(false, version, 0) <==> written.fraction == 0)
  {
  }

  /** A number just above 3 is read as version 3, and the wrapper as the one that says 3. */
  lemma FractionIsDropped(encryptedData: string, iv: string, authTag: string, fraction: nat)
    requires fraction > 0
    ensures var m := V3Fields(encryptedData, iv, authTag).fields;
            var odd := Obj(m["version" := Num(Float(false, 3, fraction))]);
            odd != Obj(m) && ParseWrapper(odd).Ok? && ParseWrapper(odd) == ParseWrapper(Obj(m))
  {
    ParseV3Fields(encryptedData, iv, authTag);
    var m := V3Fields(encryptedData, iv, authTag).fields;
    var odd := m["version" := Num(Float(false, 3, fraction))];
    assert odd["version"] != m["version"];
    assert forall key :: key != "version" ==> StringField(odd, key) == StringField(m, key);
  }

  function Box(c: Crypto, v: Json): Bytes {
    c.marshal(Obj(map[JSON_WRAPPER_KEY := v]))
  }

  function Unbox(c: Crypto, plaintext: Bytes): Result<Json, Error> {
    var box := c.unmarshal(plaintext);
    if box.None? || !box.value.Obj? || JSON_WRAPPER_KEY !in box.value.fields then Err(AuthFailed)
    else Ok(box.value.fields[JSON_WRAPPER_KEY])
  }

  /** aes.NewCipher takes no other key. */
  predicate AesKey(key: Bytes) {
    |key| == 16 || |key| == 24 || |key| == 32
  }

  function EncryptValueV3(c: Crypto, key: Bytes, nonce: Bytes, v: Json): Result<Json, Error> {
    if !AesKey(key) then Err(BadKey)
    else
      var sealed := c.gcmSeal(key, nonce, Box(c, v));
      var cut: nat := if |sealed| >= TAG_SIZE then |sealed| - TAG_SIZE else 0;
      Ok(V3Fields(Encode(sealed[..cut]), Encode(nonce), Encode(sealed[cut..])))
  }

  function V3Fields(encryptedData: string, iv: string, authTag: string): Json {
    Obj(map[
      "encrypted_data" := Str(encryptedData),
      "iv" := Str(iv),
      "auth_tag" := Str(authTag),
      "version" := Num(Float(false, 3, 0)),
      "cipher" := Str("aes-256-gcm")])
  }

  lemma ParseV3Fields(encryptedData: string, iv: string, authTag: string)
    ensures ParseWrapper(V3Fields(encryptedData, iv, authTag))
            == Ok(Wrapper(3, "aes-256-gcm", encryptedData, iv, authTag, ""))
  {
    var m := V3Fields(encryptedData, iv, authTag).fields;
    assert StringField(m, "encrypted_data") == Some(encryptedData);
    assert StringField(m, "iv") == Some(iv);
    assert StringField(m, "auth_tag") == Some(authTag);
    assert StringField(m, "cipher") == Some("aes-256-gcm");
    assert m["version"] == Num(Float(false, 3, 0));
  }

  function DecryptGCM(c: Crypto, key: Bytes, w: Wrapper): Result<Bytes, Error> {
    var ciphertext, nonce, tag := DecodeB64(w.encryptedData), DecodeB64(w.iv), DecodeB64(w.authTag);
    if ciphertext.None? || nonce.None? || tag.None? then Err(NotEncrypted)
    else if !AesKey(key) then Err(BadKey)
    else if |nonce.value| == 0 then Err(NotEncrypted)
    else
      var plaintext := c.gcmOpen(key, nonce.value, ciphertext.value + tag.value);
      if plaintext.None? then Err(AuthFailed) else Ok(plaintext.value)
  }

  function DecryptCBC(c: Crypto, key: Bytes, w: Wrapper): Result<Bytes, Error> {
    var ciphertext, iv := DecodeB64(w.encryptedData), DecodeB64(w.iv);
    if ciphertext.None? || iv.None? then Err(NotEncrypted)
    else if !AesKey(key) then Err(BadKey)
    else if |iv.value| != BLOCK then Err(NotEncrypted)
    else if |ciphertext.value| == 0 || |ciphertext.value| % BLOCK != 0 then Err(AuthFailed)
    else
      var unpadded := Unpad(CbcDecrypt(c.decryptBlock(key), iv.value, ciphertext.value), BLOCK);
      if unpadded.None? then Err(AuthFailed) else Ok(unpadded.value)
  }

  /** The MAC is over the text as stored, keyed by the raw secret. */
  function VerifyHMAC(c: Crypto, secret: Bytes, w: Wrapper): Option<Error> {
    var expected := c.hmac(secret, c.utf8(w.encryptedData));
    var got := DecodeB64(w.hmac);
    if got.None? then Some(NotEncrypted)
    else if expected != got.value then Some(AuthFailed)
    else None
  }

  function DecryptWrapper(c: Crypto, secret: Bytes, w: Wrapper): Result<Json, Error> {
    var key := c.sha256(secret);
    var bad := if w.version == 2 then VerifyHMAC(c, secret, w) else None;
    if bad.Some? then Err(bad.value)
    else
      var plaintext := if w.version == 3 then DecryptGCM(c, key, w)
                       else if w.version == 1 || w.version == 2 then DecryptCBC(c, key, w)
                       else Err(NotEncrypted);
      if plaintext.Err? then Err(plaintext.error) else Unbox(c, plaintext.value)
  }

  function DecryptValue(c: Crypto, secret: Bytes, v: Json): Result<Json, Error> {
    var w := ParseWrapper(v);
    if w.Err? then Err(w.error) else DecryptWrapper(c, secret, w.value)
  }

  // ---------------------------------------------------------------------------
  // Decryption step by step

  ghost predicate BlockSized(c: Crypto) {
    forall key :: OnBlocks(c.decryptBlock(key))
  }

  /** The block decrypter, with a log of the ciphertexts it was given. */
  class Decrypter {
    const c: Crypto
    var log: seq<Bytes>

    constructor (c: Crypto)
      ensures this.c == c && log == []
    {
      this.c, log := c, [];
    }

    method DecryptBlocks(key: Bytes, iv: Bytes, ciphertext: Bytes, out: array<byte>)
      requires BlockSized(c) && |iv| == BLOCK && Whole(ciphertext) && out.Length == |ciphertext|
      modifies this, out
      ensures log == old(log) + [ciphertext]
      ensures out[..] == CbcDecrypt(c.decryptBlock(key), iv, ciphertext)
    {
      log := log + [ciphertext];
      CryptBlocks(c.decryptBlock(key), iv, ciphertext, out);
    }
  }

  /** What decryptCBC gives the block decrypter: well-formed ciphertext, or nothing. */
  function Deciphered(key: Bytes, w: Wrapper): seq<Bytes> {
    var ciphertext, iv := DecodeB64(w.encryptedData), DecodeB64(w.iv);
    if ciphertext.Some? && iv.Some? && AesKey(key) && |iv.value| == BLOCK
       && |ciphertext.value| > 0 && |ciphertext.value| % BLOCK == 0 then [ciphertext.value] else []
  }

  /** decryptCBC, with the buffer it fills. */
  method DecryptCBCBuffered(d: Decrypter, key: Bytes, w: Wrapper) returns (r: Result<Bytes, Error>)
    requires BlockSized(d.c)
    modifies d
    ensures r == DecryptCBC(d.c, key, w)
    ensures d.log == old(d.log) + Deciphered(key, w)
  {
    var ciphertext := DecodeB64(w.encryptedData);
    if ciphertext.None? {
      return Err(NotEncrypted);
    }
    var iv := DecodeB64(w.iv);
    if iv.None? {
      return Err(NotEncrypted);
    }
    if !AesKey(key) {
      return Err(BadKey);
    }
    if |iv.value| != BLOCK {
      return Err(NotEncrypted);
    }
    if |ciphertext.value| == 0 || |ciphertext.value| % BLOCK != 0 {
      return Err(AuthFailed);
    }
    WholeIsMultiple(ciphertext.value);
    var out := new byte[|ciphertext.value|];
    d.DecryptBlocks(key, iv.value, ciphertext.value, out);
    var unpadded := Pkcs7Unpad(out[..], BLOCK);
    if unpadded.None? {
      return Err(AuthFailed);
    }
    return Ok(unpadded.value);
  }

  predicate MacMatches(c: Crypto, secret: Bytes, w: Wrapper) {
    DecodeB64(w.hmac) == Some(c.hmac(secret, c.utf8(w.encryptedData)))
  }

  /** What a stored value gives the block decrypter: the ciphertext of a version 1 wrapper, and of a
      version 2 wrapper whose MAC matches. */
  function Reaches(c: Crypto, secret: Bytes, v: Json): seq<Bytes> {
    var w := ParseWrapper(v);
    if w.Ok? && (w.value.version == 1 || (w.value.version == 2 && MacMatches(c, secret, w.value))) then
      Deciphered(c.sha256(secret), w.value)
    else []
  }

  /** A version 2 wrapper whose MAC does not match. */
  predicate Forged(c: Crypto, secret: Bytes, v: Json) {
    ParseWrapper(v).Ok? && ParseWrapper(v).value.version == 2 && !MacMatches(c, secret, ParseWrapper(v).value)
  }

  /** Parsing and decrypting a stored value.  A forged one is refused with the block decrypter never
      called. */
  method DecryptStored(d: Decrypter, secret: Bytes, v: Json) returns (r: Result<Json, Error>)
    requires BlockSized(d.c)
    modifies d
    ensures r == DecryptValue(d.c, secret, v)
    ensures d.log == old(d.log) + Reaches(d.c, secret, v)
    ensures Forged(d.c, secret, v) ==> r.Err? && d.log == old(d.log)
  {
    var w := ParseWrapper(v);
    if w.Err? {
      return Err(w.error);
    }
    var key := d.c.sha256(secret);
    var plaintext: Result<Bytes, Error>;
    if w.value.version == 1 || w.value.version == 2 {
      if w.value.version == 2 {
        var bad := VerifyHMAC(d.c, secret, w.value);
        if bad.Some? {
          return Err(bad.value);
        }
      }
      plaintext := DecryptCBCBuffered(d, key, w.value);
    } else {
      plaintext := DecryptGCM(d.c, key, w.value);
    }
    if plaintext.Err? {
      return Err(plaintext.error);
    }
    return Unbox(d.c, plaintext.value);
  }

  // ---------------------------------------------------------------------------
  // One value

  lemma UnboxBox(c: Crypto, v: Json)
    requires Lawful(c)
    ensures Unbox(c, Box(c, v)) == Ok(v)
  {
  }

  /** Splitting off the tag and joining it again loses nothing. */
  lemma OpenSealed(c: Crypto, key: Bytes, nonce: Bytes, p: Bytes, ed: string, iv: string, tag: string,
                   left: Bytes, right: Bytes)
    requires Lawful(c) && AesKey(key) && |nonce| == NONCE_SIZE && left + right == c.gcmSeal(key, nonce, p)
    requires DecodeB64(ed) == Some(left) && DecodeB64(iv) == Some(nonce) && DecodeB64(tag) == Some(right)
    ensures DecryptGCM(c, key, Wrapper(3, "aes-256-gcm", ed, iv, tag, "")) == Ok(p)
  {
  }

  lemma DecryptV3Fields(c: Crypto, secret: Bytes, v: Json, ed: string, iv: string, tag: string)
    requires Lawful(c)
    requires DecryptGCM(c, c.sha256(secret), Wrapper(3, "aes-256-gcm", ed, iv, tag, "")) == Ok(Box(c, v))
    ensures ParseWrapper(V3Fields(ed, iv, tag)).Ok? && DecryptValue(c, secret, V3Fields(ed, iv, tag)) == Ok(v)
  {
    ParseV3Fields(ed, iv, tag);
    UnboxBox(c, v);
  }

  /** A version 3 wrapper written with any nonce of the right size opens to its value. */
  lemma DecryptEncryptV3(c: Crypto, secret: Bytes, nonce: Bytes, v: Json)
    requires Lawful(c) && |nonce| == NONCE_SIZE
    ensures EncryptValueV3(c, c.sha256(secret), nonce, v).Ok?
    ensures ParseWrapper(EncryptValueV3(c, c.sha256(secret), nonce, v).value).Ok?
    ensures DecryptValue(c, secret, EncryptValueV3(c, c.sha256(secret), nonce, v).value) == Ok(v)
  {
    var key := c.sha256(secret);
    var sealed := c.gcmSeal(key, nonce, Box(c, v));
    var left, right := sealed[..|sealed| - TAG_SIZE], sealed[|sealed| - TAG_SIZE..];
    assert left + right == sealed;
    DecodeClean(left);
    DecodeClean(right);
    DecodeClean(nonce);
    OpenSealed(c, key, nonce, Box(c, v), Encode(left), Encode(nonce), Encode(right), left, right);
    DecryptV3Fields(c, secret, v, Encode(left), Encode(nonce), Encode(right));
  }

  /** The fields every conforming version 1 or 2 writer produces: the boxed value padded, chained
      and encoded, with whitespace anywhere in the text. */
  ghost predicate WrittenCBC(c: Crypto, secret: Bytes, v: Json, m: map<string, Json>) {
    && "version" in m && m["version"].Num?
    && StringField(m, "encrypted_data").Some? && StringField(m, "iv").Some?
    && exists iv :: |iv| == BLOCK
         && Strip(StringField(m, "iv").value) == Encode(iv)
         && Strip(StringField(m, "encrypted_data").value)
            == Encode(CbcEncrypt(c.encryptBlock(c.sha256(secret)), iv,
                                 Pad(c.marshal(Obj(map["json_wrapper" := v])), 16)))
  }

  ghost predicate WrittenV1(c: Crypto, secret: Bytes, v: Json, w: Json) {
    w.Obj? && WrittenCBC(c, secret, v, w.fields) && Truncate(w.fields["version"].f) == 1
  }

  /** Version 2 adds the MAC of the stored text. */
  ghost predicate WrittenV2(c: Crypto, secret: Bytes, v: Json, w: Json) {
    && w.Obj? && WrittenCBC(c, secret, v, w.fields) && Truncate(w.fields["version"].f) == 2
    && StringField(w.fields, "hmac").Some?
    && Strip(StringField(w.fields, "hmac").value)
       == Encode(c.hmac(secret, c.utf8(StringField(w.fields, "encrypted_data").value)))
  }

  lemma DecryptWrittenCBC(c: Crypto, secret: Bytes, v: Json, m: map<string, Json>, w: Wrapper)
    requires Lawful(c) && WrittenCBC(c, secret, v, m)
    requires w.encryptedData == StringField(m, "encrypted_data").value && w.iv == StringField(m, "iv").value
    ensures DecryptCBC(c, c.sha256(secret), w) == Ok(Box(c, v))
  {
    var key := c.sha256(secret);
    var iv :| |iv| == BLOCK
      && Strip(StringField(m, "iv").value) == Encode(iv)
      && Strip(StringField(m, "encrypted_data").value)
         == Encode(CbcEncrypt(c.encryptBlock(key), iv, Pad(Box(c, v), BLOCK)));
    var p := Pad(Box(c, v), BLOCK);
    var ct := CbcEncrypt(c.encryptBlock(key), iv, p);
    DecodeWithWhitespace(w.iv, iv);
    DecodeWithWhitespace(w.encryptedData, ct);
    UnpadInvertsPad(p, Box(c, v), BLOCK);
    WholeIsMultiple(p);
    CbcLength(c.encryptBlock(key), iv, p);
    CbcInverts(c.encryptBlock(key), c.decryptBlock(key), iv, p);
  }

  /** Every version 1 or 2 wrapper of a conforming writer decrypts to its value, whatever the
      block cipher and the whitespace. */
  lemma DecryptWritten(c: Crypto, secret: Bytes, v: Json, w: Json)
    requires Lawful(c) && (WrittenV1(c, secret, v, w) || WrittenV2(c, secret, v, w))
    ensures ParseWrapper(w).Ok? && DecryptValue(c, secret, w) == Ok(v)
  {
    var parsed := ParseWrapper(w).value;
    DecryptWrittenCBC(c, secret, v, w.fields, parsed);
    if WrittenV2(c, secret, v, w) {
      DecodeWithWhitespace(parsed.hmac, c.hmac(secret, c.utf8(parsed.encryptedData)));
    }
    UnboxBox(c, v);
  }

  /** A version 2 wrapper whose MAC does not match is refused before the block decrypter: no
      choice of the decrypter, of the chaining's input or of the JSON reader changes the answer. */
  lemma MacBeforeDecrypter(c: Crypto, secret: Bytes, v: Json, decryptBlock: Bytes -> BlockFn,
                           unmarshal: Bytes -> Option<Json>)
    requires Forged(c, secret, v)
    ensures DecryptValue(c, secret, v)
            == Err(if DecodeB64(ParseWrapper(v).value.hmac).None? then NotEncrypted else AuthFailed)
    ensures DecryptValue(c.(decryptBlock := decryptBlock, unmarshal := unmarshal), secret, v)
            == DecryptValue(c, secret, v)
  {
  }

  // ---------------------------------------------------------------------------
  // What each answer means

  /** The fields of a stored value that its version calls for, as they are stored. */
  datatype Stored = Stored(version: int, data: string, iv: string, mac: string, tag: string)

  ghost predicate StoredAs(v: Json, w: Stored) {
    && v.Obj? && "version" in v.fields && v.fields["version"].Num?
    && !v.fields["version"].f.negative && v.fields["version"].f.whole == w.version && 1 <= w.version <= 3
    && "encrypted_data" in v.fields && v.fields["encrypted_data"] == Str(w.data)
    && "iv" in v.fields && v.fields["iv"] == Str(w.iv)
    && (if w.version == 2 then "hmac" in v.fields && v.fields["hmac"] == Str(w.mac) else w.mac == "")
    && (if w.version == 3 then "auth_tag" in v.fields && v.fields["auth_tag"] == Str(w.tag) else w.tag == "")
  }

  ghost predicate Authentic(c: Crypto, secret: Bytes, w: Stored) {
    w.version == 2 ==> DecodeB64(w.mac) == Some(c.hmac(secret, c.utf8(w.data)))
  }

  /** A field that is read does not decode, or has a length that no iv or nonce has.  What comes after
      a MAC that differs is not read. */
  ghost predicate Undecodable(c: Crypto, secret: Bytes, w: Stored) {
    if w.version == 3 then
      || DecodeB64(w.data).None? || DecodeB64(w.iv).None? || DecodeB64(w.tag).None?
      || DecodeB64(w.iv) == Some([])
    else
      || (w.version == 2 && DecodeB64(w.mac).None?)
      || (Authentic(c, secret, w) &&
          (DecodeB64(w.data).None? || DecodeB64(w.iv).None? || |DecodeB64(w.iv).value| != 16))
  }

  /** `p` is the plaintext: what GCM opens to, or the message whose padding CBC decrypts to. */
  ghost predicate PlaintextOf(c: Crypto, secret: Bytes, w: Stored, p: Bytes)
    requires !Undecodable(c, secret, w)
  {
    if w.version == 3 then
      c.gcmOpen(c.sha256(secret), DecodeB64(w.iv).value, DecodeB64(w.data).value + DecodeB64(w.tag).value) == Some(p)
    else
      && Authentic(c, secret, w) && |DecodeB64(w.data).value| % 16 == 0
      && CbcDecrypt(c.decryptBlock(c.sha256(secret)), DecodeB64(w.iv).value, DecodeB64(w.data).value) == Pad(p, 16)
  }

  ghost predicate Boxed(c: Crypto, p: Bytes, v: Json) {
    && c.unmarshal(p).Some? && c.unmarshal(p).value.Obj?
    && "json_wrapper" in c.unmarshal(p).value.fields && c.unmarshal(p).value.fields["json_wrapper"] == v
  }

  /** Not a wrapper, or one with a field that is read and is malformed. */
  ghost predicate Unreadable(c: Crypto, secret: Bytes, v: Json) {
    forall w :: StoredAs(v, w) ==> Undecodable(c, secret, w)
  }

  ghost predicate Holds(c: Crypto, secret: Bytes, w: Stored, p: Bytes, x: Json) {
    !Undecodable(c, secret, w) && PlaintextOf(c, secret, w, p) && Boxed(c, p, x)
  }

  ghost predicate Contains(c: Crypto, secret: Bytes, v: Json, x: Json) {
    exists w, p :: StoredAs(v, w) && Holds(c, secret, w, p, x)
  }

  /** What the answer is for, spelled out from the fields and the primitives. */
  ghost predicate Answer(c: Crypto, secret: Bytes, v: Json, r: Result<Json, Error>) {
    match r
    case Ok(x) => Contains(c, secret, v, x)
    case Err(e) =>
      if Unreadable(c, secret, v) then e == NotEncrypted
      else e == AuthFailed && forall x :: !Contains(c, secret, v, x)
  }

  lemma StoredOnce(v: Json, w: Stored, w': Stored)
    requires StoredAs(v, w) && StoredAs(v, w')
    ensures w == w'
  {
  }

  lemma ParsedAs(v: Json, w: Stored)
    requires StoredAs(v, w)
    ensures ParseWrapper(v).Ok?
    ensures var p := ParseWrapper(v).value;
            p.version == w.version && p.encryptedData == w.data && p.iv == w.iv && p.authTag == w.tag && p.hmac == w.mac
  {
  }

  lemma ParsedIff(v: Json) returns (w: Stored)
    ensures ParseWrapper(v).Err? ==> ParseWrapper(v).error == NotEncrypted && forall w' :: !StoredAs(v, w')
    ensures ParseWrapper(v).Ok? ==> StoredAs(v, w)
  {
    w := Stored(0, "", "", "", "");
    if ParseWrapper(v).Ok? {
      var p := ParseWrapper(v).value;
      w := Stored(p.version, p.encryptedData, p.iv, p.hmac, p.authTag);
    } else {
      forall w' ensures !StoredAs(v, w') {
        if StoredAs(v, w') {
          ParsedAs(v, w');
          assert false;
        }
      }
    }
  }

  /** The plaintext of the three decrypters. */
  lemma OpenedIff(c: Crypto, secret: Bytes, v: Json, w: Stored, p: Bytes)
    requires Lawful(c) && StoredAs(v, w) && !Undecodable(c, secret, w) && Authentic(c, secret, w)
    ensures Opened(c, secret, ParseWrapper(v).value) == Ok(p) <==> PlaintextOf(c, secret, w, p)
    ensures Opened(c, secret, ParseWrapper(v).value).Err? ==> Opened(c, secret, ParseWrapper(v).value).error == AuthFailed
  {
    ParsedAs(v, w);
    if w.version != 3 {
      UnpadInvertsPad(CbcDecrypt(c.decryptBlock(c.sha256(secret)), DecodeB64(w.iv).value, DecodeB64(w.data).value), p, BLOCK);
      if DecodeB64(w.data).value == [] {
        assert CbcDecrypt(c.decryptBlock(c.sha256(secret)), DecodeB64(w.iv).value, []) == [];
      }
    }
  }

  function Opened(c: Crypto, secret: Bytes, w: Wrapper): Result<Bytes, Error> {
    if w.version == 3 then DecryptGCM(c, c.sha256(secret), w) else DecryptCBC(c, c.sha256(secret), w)
  }

  lemma BoxedIff(c: Crypto, p: Bytes, x: Json)
    ensures Unbox(c, p) == Ok(x) <==> Boxed(c, p, x)
    ensures Unbox(c, p).Err? ==> Unbox(c, p).error == AuthFailed
  {
  }

  /** A malformed field is always answered the same, and so is a MAC that differs. */
  lemma RefusedEarly(c: Crypto, secret: Bytes, v: Json, w: Stored)
    requires Lawful(c) && StoredAs(v, w)
    ensures Undecodable(c, secret, w) ==> DecryptValue(c, secret, v) == Err(NotEncrypted)
    ensures !Undecodable(c, secret, w) && !Authentic(c, secret, w) ==> DecryptValue(c, secret, v) == Err(AuthFailed)
  {
    ParsedAs(v, w);
  }

  lemma DecryptOpens(c: Crypto, secret: Bytes, v: Json, w: Stored)
    requires Lawful(c) && StoredAs(v, w) && !Undecodable(c, secret, w) && Authentic(c, secret, w)
    ensures ParseWrapper(v).Ok?
    ensures var p := Opened(c, secret, ParseWrapper(v).value);
            DecryptValue(c, secret, v) == if p.Err? then Err(p.error) else Unbox(c, p.value)
  {
    ParsedAs(v, w);
  }

  /** Each answer, exactly: the value the wrapper holds; "not encrypted" when it is no wrapper or a
      field that is read is malformed; failed authentication in every other case. */
  lemma DecryptAnswers(c: Crypto, secret: Bytes, v: Json, r: Result<Json, Error>)
    requires Lawful(c)
    ensures DecryptValue(c, secret, v) == r <==> Answer(c, secret, v, r)
  {
    var w := ParsedIff(v);
    if ParseWrapper(v).Ok? {
      assert forall w' :: StoredAs(v, w') ==> w' == w by {
        forall w' | StoredAs(v, w') ensures w' == w {
          StoredOnce(v, w, w');
        }
      }
      RefusedEarly(c, secret, v, w);
      if !Undecodable(c, secret, w) && Authentic(c, secret, w) {
        AnswerOpens(c, secret, v, w, r);
      }
    }
  }

  lemma AnswerOpens(c: Crypto, secret: Bytes, v: Json, w: Stored, r: Result<Json, Error>)
    requires Lawful(c) && StoredAs(v, w) && !Undecodable(c, secret, w) && Authentic(c, secret, w)
    requires forall w' :: StoredAs(v, w') ==> w' == w
    ensures DecryptValue(c, secret, v) == r <==> Answer(c, secret, v, r)
  {
    DecryptOpens(c, secret, v, w);
    var plaintext := Opened(c, secret, ParseWrapper(v).value);
    forall p, x ensures Holds(c, secret, w, p, x) <==> plaintext == Ok(p) && Unbox(c, p) == Ok(x) {
      OpenedIff(c, secret, v, w, p);
      BoxedIff(c, p, x);
    }
    OpenedIff(c, secret, v, w, []);
    if plaintext.Ok? {
      var unboxed := Unbox(c, plaintext.value);
      if unboxed.Ok? {
        assert Holds(c, secret, w, plaintext.value, unboxed.value);
        assert Contains(c, secret, v, unboxed.value);
      } else {
        BoxedIff(c, plaintext.value, Null);
      }
    }
  }

  /** The text of a version 3 wrapper: its five fields, the nonce, and GCM's output cut before its
      last sixteen bytes. */
  lemma V3Says(c: Crypto, secret: Bytes, nonce: Nonce, v: Json)
    returns (left: Bytes, right: Bytes)
    requires Lawful(c)
    ensures |nonce| == 12 && |right| == 16 && left + right == c.gcmSeal(c.sha256(secret), nonce, c.marshal(Obj(map["json_wrapper" := v])))
    ensures EncryptValueV3(c, c.sha256(secret), nonce, v) == Ok(Obj(map[
              "encrypted_data" := Str(Encode(left)), "iv" := Str(Encode(nonce)), "auth_tag" := Str(Encode(right)),
              "version" := Num(Float(false, 3, 0)), "cipher" := Str("aes-256-gcm")]))
  {
    var sealed := c.gcmSeal(c.sha256(secret), nonce, Box(c, v));
    left, right := sealed[..|sealed| - 16], sealed[|sealed| - 16..];
  }

  // ---------------------------------------------------------------------------
  // Items

  /** DataBagItem.ID */
  function ItemId(item: Item): string {
    if "id" in item && item["id"].Str? then item["id"].s else ""
  }

  /** What Encrypt makes of an item: the id as it is, and each other value sealed under some nonce. */
  ghost predicate Encrypts(c: Crypto, secret: Bytes, item: Item, enc: Item) {
    && enc.Keys == item.Keys
    && ("id" in item ==> enc["id"] == item["id"])
    && forall k :: k in item && k != "id" ==> Sealed(c, secret, item[k], enc[k])
  }

  ghost predicate Sealed(c: Crypto, secret: Bytes, v: Json, w: Json) {
    exists nonce :: |nonce| == NONCE_SIZE && EncryptValueV3(c, c.sha256(secret), nonce, v) == Ok(w)
  }

  /** What Decrypt makes of an item. */
  ghost predicate Decrypts(c: Crypto, secret: Bytes, item: Item, dec: Item) {
    && dec.Keys == item.Keys
    && ("id" in item ==> dec["id"] == item["id"])
    && forall k :: k in item && k != "id" ==> DecryptValue(c, secret, item[k]) == Ok(dec[k])
  }

  /** The random source: what each read of a nonce gives, or a failure. */
  type Random = nat -> Option<Nonce>

  /** Which read of the random source each value was sealed under: all reads come before `n`, and no
      two values share one. */
  ghost predicate UsedOnce(used: map<string, nat>, n: nat) {
    && (forall k :: k in used ==> used[k] < n)
    && (forall k, l :: k in used && l in used && k != l ==> used[k] != used[l])
  }

  ghost predicate SealedAt(c: Crypto, key: Bytes, random: Random, v: Json, w: Json, at: nat) {
    random(at).Some? && EncryptValueV3(c, key, random(at).value, v) == Ok(w)
  }

  /** The first `n` reads succeed. */
  ghost predicate Supplies(random: Random, n: nat) {
    forall i: nat :: i < n ==> random(i).Some?
  }

  /** Each of the values is sealed under its own read. */
  ghost predicate SealedUnder(c: Crypto, key: Bytes, random: Random, item: Item, out: Item, used: map<string, nat>) {
    forall k :: k in used ==> k in item && k in out && SealedAt(c, key, random, item[k], out[k], used[k])
  }

  /** The id is copied and every other value has a read. */
  ghost predicate Shape(item: Item, out: Item, used: map<string, nat>) {
    && (forall k :: k in out ==> k in item) && ("id" in out ==> out["id"] == item["id"])
    && (forall k :: k in used <==> k in out && k != "id")
  }

  /** What the loop of Encrypt has done. */
  ghost predicate SoFar(c: Crypto, key: Bytes, random: Random, item: Item, out: Item, used: map<string, nat>) {
    && Shape(item, out, used) && UsedOnce(used, |used|) && Supplies(random, |used|)
    && SealedUnder(c, key, random, item, out, used)
  }

  /** The keys of the map are visited in an arbitrary order.  No read of the random source is used
      for two values, and encryption succeeds exactly when there is an id and a read for each of the
      other values. */
  method Encrypt(c: Crypto, item: Item, secret: Bytes, random: Random) returns (r: Result<Item, Error>, ghost used: map<string, nat>)
    ensures r == Err(NoId) <==> !("id" in item && item["id"].Str? && item["id"].s != "")
    ensures r.Ok? ==> Encrypts(c, secret, item, r.value) && SoFar(c, c.sha256(secret), random, item, r.value, used)
    ensures Lawful(c) && ItemId(item) != "" ==>
              if Supplies(random, |item| - 1) then r.Ok? else r == Err(NoRandomness)
  {
    used := map[];
    var id := ItemId(item);
    if id == "" {
      return Err(NoId), used;
    }
    var key := c.sha256(secret);
    var out: Item := map[];
    var n := 0;
    var left := item.Keys;
    while left != {}
      invariant forall k :: k in out <==> k in item && k !in left
      invariant SoFar(c, key, random, item, out, used) && n == |used|
    {
      var k :| k in left && k in item;
      left := left - {k};
      if k == "id" {
        CopyId(c, key, random, item, out, used);
        out := out[k := item[k]];
      } else {
        ReadsLeft(item, out, used, k);
        var nonce := random(n);
        if nonce.None? {
          return Err(NoRandomness), used;
        }
        var w := EncryptValueV3(c, key, nonce.value, item[k]);
        if w.Err? {
          return Err(w.error), used;
        }
        SealOne(c, key, random, item, out, used, k, w.value);
        out := out[k := w.value];
        used := used[k := n];
        n := n + 1;
      }
    }
    AllSealed(c, secret, item, out, random, used);
    out := out["id" := Str(id)];
    return Ok(out), used;
  }

  lemma CopyId(c: Crypto, key: Bytes, random: Random, item: Item, out: Item, used: map<string, nat>)
    requires SoFar(c, key, random, item, out, used) && "id" in item
    ensures SoFar(c, key, random, item, out["id" := item["id"]], used)
  {
    ShapeOneMore(item, out, used, "id", item["id"]);
    SealedOneMore(c, key, random, item, out, used, "id", item["id"]);
  }

  /** One more value sealed under the next read. */
  lemma SealOne(c: Crypto, key: Bytes, random: Random, item: Item, out: Item, used: map<string, nat>, k: string, w: Json)
    requires SoFar(c, key, random, item, out, used) && k in item && k != "id" && k !in out
    requires SealedAt(c, key, random, item[k], w, |used|)
    ensures |used[k := |used|]| == |used| + 1
    ensures SoFar(c, key, random, item, out[k := w], used[k := |used|])
  {
    ShapeOneMore(item, out, used, k, w);
    UsedOneMore(random, used, k);
    SealedOneMore(c, key, random, item, out, used, k, w);
  }

  lemma ShapeOneMore(item: Item, out: Item, used: map<string, nat>, k: string, w: Json)
    requires Shape(item, out, used) && k in item && (k == "id" ==> w == item[k])
    ensures Shape(item, out[k := w], if k == "id" then used else used[k := |used|])
  {
  }

  lemma UsedOneMore(random: Random, used: map<string, nat>, k: string)
    requires UsedOnce(used, |used|) && Supplies(random, |used|) && random(|used|).Some? && k !in used
    ensures |used[k := |used|]| == |used| + 1
    ensures UsedOnce(used[k := |used|], |used| + 1) && Supplies(random, |used| + 1)
  {
    assert used[k := |used|].Keys == used.Keys + {k};
    assert |used[k := |used|].Keys| == |used[k := |used|]| && |used.Keys| == |used|;
  }

  lemma SealedOneMore(c: Crypto, key: Bytes, random: Random, item: Item, out: Item, used: map<string, nat>, k: string, w: Json)
    requires SealedUnder(c, key, random, item, out, used) && k in item && k !in used
    requires k != "id" ==> SealedAt(c, key, random, item[k], w, |used|)
    ensures SealedUnder(c, key, random, item, out[k := w], if k == "id" then used else used[k := |used|])
  {
    var more := if k == "id" then used else used[k := |used|];
    forall l | l in more ensures l in item && SealedAt(c, key, random, item[l], out[k := w][l], more[l]) {
      if l != k {
        assert l in used;
      }
    }
  }

  /** While a value is still to be sealed, fewer reads were made than there are values. */
  lemma ReadsLeft(item: Item, out: Item, used: map<string, nat>, k: string)
    requires Shape(item, out, used) && "id" in item && k in item && k != "id" && k !in out
    ensures |used| < |item| - 1
  {
    Subset(used.Keys + {k}, item.Keys - {"id"});
    assert |used.Keys + {k}| == |used| + 1 && |item.Keys - {"id"}| == |item| - 1;
  }

  lemma {:induction false} Subset(a: set<string>, b: set<string>)
    requires a <= b
    ensures |a| <= |b|
  {
    if x :| x in a {
      Subset(a - {x}, b - {x});
    }
  }

  lemma AllSealed(c: Crypto, secret: Bytes, item: Item, enc: Item, random: Random, used: map<string, nat>)
    requires SoFar(c, c.sha256(secret), random, item, enc, used) && enc.Keys == item.Keys && "id" in item
    ensures Encrypts(c, secret, item, enc) && |used| == |item| - 1
    ensures enc["id" := item["id"]] == enc
  {
    assert used.Keys == item.Keys - {"id"};
    assert |used| == |used.Keys| && |item.Keys - {"id"}| == |item| - 1;
    forall k | k in item && k != "id" ensures Sealed(c, secret, item[k], enc[k]) {
      assert k in used && SealedAt(c, c.sha256(secret), random, item[k], enc[k], used[k]);
    }
  }

  /** Whatever the outcome, the block decrypter saw only ciphertexts of values that reach it: none
      of a version 2 wrapper whose MAC does not match. */
  method Decrypt(d: Decrypter, item: Item, secret: Bytes) returns (r: Result<Item, Error>)
    requires BlockSized(d.c)
    modifies d
    ensures r.Ok? ==> Decrypts(d.c, secret, item, r.value)
    ensures r.Err? ==> exists k :: k in item && k != "id" && DecryptValue(d.c, secret, item[k]) == Err(r.error)
    ensures Lawful(d.c) && r.Ok? ==>
              r.value.Keys == item.Keys && forall k :: k in item && k != "id" ==> Contains(d.c, secret, item[k], r.value[k])
    ensures Lawful(d.c) && r.Err? ==> exists k :: k in item && k != "id" && Answer(d.c, secret, item[k], Err(r.error))
    ensures old(d.log) <= d.log
    ensures forall i :: |old(d.log)| <= i < |d.log| ==> FromItem(d.c, secret, item, d.log[i])
  {
    var out: Item := map[];
    var left := item.Keys;
    while left != {}
      invariant left <= item.Keys && out.Keys == item.Keys - left
      invariant "id" in out ==> out["id"] == item["id"]
      invariant forall k :: k in out && k != "id" ==> DecryptValue(d.c, secret, item[k]) == Ok(out[k])
      invariant old(d.log) <= d.log
      invariant forall i :: |old(d.log)| <= i < |d.log| ==> FromItem(d.c, secret, item, d.log[i])
    {
      var k :| k in left;
      left := left - {k};
      if k == "id" {
        out := out[k := item[k]];
      } else {
        var pt := DecryptStored(d, secret, item[k]);
        if pt.Err? {
          AnswersFor(d.c, secret, item[k], pt);
          return Err(pt.error);
        }
        out := out[k := pt.value];
      }
    }
    DecryptedAnswers(d.c, secret, item, out);
    return Ok(out);
  }

  lemma AnswersFor(c: Crypto, secret: Bytes, v: Json, r: Result<Json, Error>)
    requires DecryptValue(c, secret, v) == r
    ensures Lawful(c) ==> Answer(c, secret, v, r)
  {
    if Lawful(c) {
      DecryptAnswers(c, secret, v, r);
    }
  }

  lemma DecryptedAnswers(c: Crypto, secret: Bytes, item: Item, dec: Item)
    requires Decrypts(c, secret, item, dec)
    ensures Lawful(c) ==> forall k :: k in item && k != "id" ==> Contains(c, secret, item[k], dec[k])
  {
    forall k | Lawful(c) && k in item && k != "id" ensures Contains(c, secret, item[k], dec[k]) {
      DecryptAnswers(c, secret, item[k], Ok(dec[k]));
    }
  }

  /** GCM opens nothing that was sealed under the key of another secret. */
  ghost predicate Refuses(c: Crypto, secret: Bytes, other: Bytes) {
    forall n, p :: |n| == 12 ==> c.gcmOpen(c.sha256(other), n, c.gcmSeal(c.sha256(secret), n, p)).None?
  }

  /** Under no secret is an encrypted value "not encrypted": a wrong secret fails authentication
      whenever GCM refuses it. */
  lemma WrongSecret(c: Crypto, secret: Bytes, other: Bytes, item: Item, enc: Item, k: string)
    requires Lawful(c) && Encrypts(c, secret, item, enc) && k in item && k != "id"
    ensures DecryptValue(c, other, enc[k]) != Err(NotEncrypted)
    ensures Refuses(c, secret, other) ==>
              DecryptValue(c, other, enc[k]) == Err(AuthFailed) && forall dec :: !Decrypts(c, other, enc, dec)
  {
    var nonce: Nonce :| EncryptValueV3(c, c.sha256(secret), nonce, item[k]) == Ok(enc[k]);
    OtherSecret(c, secret, other, nonce, item[k], enc[k]);
    if Refuses(c, secret, other) {
      forall dec ensures !Decrypts(c, other, enc, dec) {
        assert k in enc && DecryptValue(c, other, enc[k]).Err?;
      }
    }
  }

  lemma OtherSecret(c: Crypto, secret: Bytes, other: Bytes, nonce: Nonce, v: Json, w: Json)
    requires Lawful(c) && EncryptValueV3(c, c.sha256(secret), nonce, v) == Ok(w)
    ensures DecryptValue(c, other, w) != Err(NotEncrypted)
    ensures Refuses(c, secret, other) ==> DecryptValue(c, other, w) == Err(AuthFailed)
  {
    var left, right := V3Says(c, secret, nonce, v);
    DecodeClean(left);
    DecodeClean(right);
    DecodeClean(nonce);
    OpensOrNot(c, c.sha256(other), nonce, Encode(left), Encode(nonce), Encode(right), left, right);
    UnpackV3(c, other, Encode(left), Encode(nonce), Encode(right));
  }

  lemma OpensOrNot(c: Crypto, key: Bytes, nonce: Nonce, ed: string, iv: string, tag: string, left: Bytes, right: Bytes)
    requires AesKey(key) && DecodeB64(ed) == Some(left) && DecodeB64(iv) == Some(nonce) && DecodeB64(tag) == Some(right)
    ensures var p := c.gcmOpen(key, nonce, left + right);
            DecryptGCM(c, key, Wrapper(3, "aes-256-gcm", ed, iv, tag, "")) == if p.None? then Err(AuthFailed) else Ok(p.value)
  {
  }

  lemma UnpackV3(c: Crypto, secret: Bytes, ed: string, iv: string, tag: string)
    ensures var p := DecryptGCM(c, c.sha256(secret), Wrapper(3, "aes-256-gcm", ed, iv, tag, ""));
            DecryptValue(c, secret, V3Fields(ed, iv, tag)) == if p.Err? then Err(p.error) else Unbox(c, p.value)
  {
    ParseV3Fields(ed, iv, tag);
  }

  ghost predicate FromItem(c: Crypto, secret: Bytes, item: Item, ciphertext: Bytes) {
    exists k :: k in item && k != "id" && Reaches(c, secret, item[k]) == [ciphertext]
  }

  /** Every value but the id is a wrapper, and there is one. */
  ghost predicate LooksEncrypted(item: Item) {
    && (exists k :: k in item && k != "id")
    && (forall k :: k in item && k != "id" ==> ParseWrapper(item[k]).Ok?)
  }

  method IsEncrypted(item: Item) returns (r: bool)
    ensures r <==> LooksEncrypted(item)
  {
    var seen := false;
    var left := item.Keys;
    while left != {}
      invariant left <= item.Keys
      invariant seen <==> exists k :: k in item && k !in left && k != "id"
      invariant forall k :: k in item && k !in left && k != "id" ==> ParseWrapper(item[k]).Ok?
    {
      var k :| k in left;
      ghost var before := left;
      left := left - {k};
      if k == "id" {
        assert forall j :: j in item && j !in left && j != "id" ==> j !in before;
        continue;
      }
      var w := ParseWrapper(item[k]);
      if w.Err? {
        return false;
      }
      seen := true;
    }
    return seen;
  }

  /** Decrypting what Encrypt returned never fails and gives back the item, for every nonce and
      every order of the keys; the encrypted item keeps the keys and the id, and it is reported as
      encrypted exactly when it has a value besides the id. */
  lemma RoundTrip(c: Crypto, secret: Bytes, item: Item, enc: Item)
    requires Lawful(c) && Encrypts(c, secret, item, enc)
    ensures Decrypts(c, secret, enc, item)
    ensures forall dec :: Decrypts(c, secret, enc, dec) ==> dec == item
    ensures LooksEncrypted(enc) <==> exists k :: k in item && k != "id"
    ensures ItemId(enc) == ItemId(item)
  {
    DecryptsToItem(c, secret, item, enc);
    LooksEncryptedIff(c, secret, item, enc);
    forall dec | Decrypts(c, secret, enc, dec) ensures dec == item {
      DecryptsUnique(c, secret, enc, dec, item);
    }
  }

  lemma DecryptsToItem(c: Crypto, secret: Bytes, item: Item, enc: Item)
    requires Lawful(c) && Encrypts(c, secret, item, enc)
    ensures Decrypts(c, secret, enc, item)
  {
    forall k | k in item && k != "id" ensures DecryptValue(c, secret, enc[k]) == Ok(item[k]) {
      DecryptSealed(c, secret, item[k], enc[k]);
    }
  }

  lemma LooksEncryptedIff(c: Crypto, secret: Bytes, item: Item, enc: Item)
    requires Lawful(c) && Encrypts(c, secret, item, enc)
    ensures LooksEncrypted(enc) <==> exists k :: k in item && k != "id"
  {
    forall k | k in item && k != "id" ensures ParseWrapper(enc[k]).Ok? {
      DecryptSealed(c, secret, item[k], enc[k]);
    }
  }

  lemma DecryptSealed(c: Crypto, secret: Bytes, v: Json, w: Json)
    requires Lawful(c) && Sealed(c, secret, v, w)
    ensures ParseWrapper(w).Ok? && DecryptValue(c, secret, w) == Ok(v)
  {
    var nonce :| |nonce| == NONCE_SIZE && EncryptValueV3(c, c.sha256(secret), nonce, v) == Ok(w);
    DecryptEncryptV3(c, secret, nonce, v);
  }

  /** An item decrypts to at most one item, in whatever order its keys are taken. */
  lemma DecryptsUnique(c: Crypto, secret: Bytes, item: Item, dec: Item, dec': Item)
    requires Decrypts(c, secret, item, dec) && Decrypts(c, secret, item, dec')
    ensures dec == dec'
  {
    forall k | k in item ensures dec[k] == dec'[k] {
      if k != "id" {
        assert DecryptValue(c, secret, item[k]) == Ok(dec[k]) && DecryptValue(c, secret, item[k]) == Ok(dec'[k]);
      }
    }
  }

  /** Encrypt followed by Decrypt, as a caller runs them. */
  method EncryptThenDecrypt(c: Crypto, item: Item, secret: Bytes, random: Random) returns (r: Result<Item, Error>)
    requires Lawful(c)
    ensures r == if ItemId(item) == "" then Err(NoId)
                 else if Supplies(random, |item| - 1) then Ok(item) else Err(NoRandomness)
  {
    ghost var used;
    r, used := Encrypt(c, item, secret, random);
    if r.Err? {
      return;
    }
    RoundTrip(c, secret, item, r.value);
    NothingFails(c, secret, r.value, item);
    var d := new Decrypter(c);
    r := Decrypt(d, r.value, secret);
  }

  lemma NothingFails(c: Crypto, secret: Bytes, enc: Item, dec: Item)
    requires Decrypts(c, secret, enc, dec)
    ensures forall k, e :: k in enc && k != "id" ==> DecryptValue(c, secret, enc[k]) != Err(e)
  {
    forall k, e | k in enc && k != "id" ensures DecryptValue(c, secret, enc[k]) != Err(e) {
      assert DecryptValue(c, secret, enc[k]) == Ok(dec[k]);
    }
  }
}
