/** Sealed records: the envelope text, the key ring, and what opening one proves about where it came from. */
module Envelope {
  import opened Wrappers
  import opened JsValues
  import Protocol

  const VERSION := "v1"

  /** Key material, known by the secret it was derived from. */
  type Key = nat

  /** AES-256-GCM, HKDF ids, base64url and JSON text, as the functions the envelope is made with. */
  datatype Cipher = Cipher(
    idOf: Key -> string,
    ivOf: string -> seq<Byte>,
    encrypt: (Key, seq<Byte>, string, string) -> (seq<Byte>, seq<Byte>),
    decrypt: (Key, seq<Byte>, string, seq<Byte>, seq<Byte>) -> Option<string>,
    base64: seq<Byte> -> string,
    bytesOf: string -> seq<Byte>,
    stringify: StoredResponse -> string,
    parse: string -> Option<StoredResponse>)

  predicate NoDot(s: string) {
    forall i :: 0 <= i < |s| ==> s[i] != '.'
  }

  /**
   * An ideal authenticated cipher: what decrypts is what was encrypted under
   * the same key, IV and associated data, and nothing was encrypted twice
   * from different inputs. Texts and bytes are inverse pairs, and so are JSON
   * text and the responses JSON carries unchanged.
   */
  ghost predicate Ideal(c: Cipher) {
    && (forall k, iv, aad, p :: var (ct, tag) := c.encrypt(k, iv, aad, p); tag != [] && c.decrypt(k, iv, aad, ct, tag) == Some(p))
    && (forall k, iv, aad, ct, tag :: var p := c.decrypt(k, iv, aad, ct, tag);
          p.Some? ==> c.encrypt(k, iv, aad, p.value) == (ct, tag))
    && (forall k, iv, aad, p, k', aad', p' ::
          c.encrypt(k, iv, aad, p) == c.encrypt(k', iv, aad', p') ==> k == k' && aad == aad' && p == p')
    && (forall b :: NoDot(c.base64(b)) && c.bytesOf(c.base64(b)) == b && (b != [] ==> c.base64(b) != ""))
    && (forall k :: NoDot(c.idOf(k)))
    && (forall r :: Storable(r) ==> c.parse(c.stringify(r)) == Some(r))
  }

  /** `join('.')` */
  function Dots(parts: seq<string>): string
    requires parts != []
  {
    if |parts| == 1 then parts[0] else parts[0] + ("." + Dots(parts[1..]))
  }

  function UpToDot(s: string): (n: nat)
    ensures n <= |s| && NoDot(s[..n]) && (n < |s| ==> s[n] == '.')
  {
    if s == "" || s[0] == '.' then 0 else 1 + UpToDot(s[1..])
  }

  /** `split('.')` */
  function Split(s: string): (parts: seq<string>)
    ensures parts != []
    decreases |s|
  {
    var n := UpToDot(s);
    if n == |s| then [s] else [s[..n]] + Split(s[n + 1..])
  }

  lemma {:induction false} DotFound(x: string, r: string)
    requires NoDot(x) && (r == "" || r[0] == '.')
    ensures UpToDot(x + r) == |x|
  {
    if x == "" {
      assert x + r == r;
    } else {
      DotFound(x[1..], r);
      assert (x + r)[1..] == x[1..] + r;
    }
  }

  lemma {:induction false} SplitJoin(parts: seq<string>)
    requires parts != [] && forall i :: 0 <= i < |parts| ==> NoDot(parts[i])
    ensures Split(Dots(parts)) == parts
    decreases |parts|
  {
    var x := parts[0];
    assert NoDot(x);
    if |parts| == 1 {
      DotFound(x, "");
      assert x + "" == x;
    } else {
      var r := "." + Dots(parts[1..]);
      DotFound(x, r);
      assert (x + r)[..|x|] == x && (x + r)[|x| + 1..] == Dots(parts[1..]);
      SplitJoin(parts[1..]);
      assert parts == [x] + parts[1..];
    }
  }

  datatype OpenError = NotSealed | MalformedEnvelope | UnknownKeyId(id: string) | AuthenticationFailed | EncryptionOff

  function Parts(c: Cipher, key: Key, storeKey: string, response: StoredResponse, nonce: string): seq<string> {
    var iv := c.ivOf(nonce);
    var (ct, tag) := c.encrypt(key, iv, storeKey, c.stringify(response));
    [VERSION, c.idOf(key), c.base64(iv), c.base64(ct), c.base64(tag)]
  }

  /** Seals with the newest key of the ring. */
  function Seal(c: Cipher, ring: seq<Key>, storeKey: string, response: StoredResponse, nonce: string): Payload
    requires ring != []
  {
    Sealed(Dots(Parts(c, ring[0], storeKey, response, nonce)))
  }

  /** What a sealed text is made of: the version, the id of the newest key, and three base64url texts, dots between them. */
  lemma SealedForm(c: Cipher, ring: seq<Key>, storeKey: string, response: StoredResponse, nonce: string)
    requires Ideal(c) && ring != []
    ensures Seal(c, ring, storeKey, response, nonce).Sealed?
    ensures var (ct, tag) := c.encrypt(ring[0], c.ivOf(nonce), storeKey, c.stringify(response));
      Split(Seal(c, ring, storeKey, response, nonce).text) ==
        ["v1", c.idOf(ring[0]), c.base64(c.ivOf(nonce)), c.base64(ct), c.base64(tag)]
  {
    assert NoDot("v1");
    SplitJoin(Parts(c, ring[0], storeKey, response, nonce));
  }

  /** `keys.find((k) => k.id === id)` */
  function Find(c: Cipher, ring: seq<Key>, id: string): Option<Key> {
    if ring == [] then None else if c.idOf(ring[0]) == id then Some(ring[0]) else Find(c, ring[1..], id)
  }

  function Open(c: Cipher, ring: seq<Key>, storeKey: string, payload: Payload): Result<StoredResponse, OpenError> {
    match payload
    case Plain(_) => Err(NotSealed)
    case Sealed(text) =>
      var parts := Split(text);
      if parts[0] != VERSION || |parts| != 5 || parts[4] == "" then Err(MalformedEnvelope)
      else
        var key := Find(c, ring, parts[1]);
        if key.None? then Err(UnknownKeyId(parts[1]))
        else
          var p := c.decrypt(key.value, c.bytesOf(parts[2]), storeKey, c.bytesOf(parts[3]), c.bytesOf(parts[4]));
          if p.None? || c.parse(p.value).None? then Err(AuthenticationFailed) else Ok(c.parse(p.value).value)
  }

  /**
   * Exactly what opening a sealed record gives, for any ring and store key:
   * the response if the key it was sealed with is the one the ring has under
   * its id and the store key is the one it was sealed for; an unknown id if
   * the ring has no such id; a failed authentication otherwise.
   */
  lemma OpensExactly(c: Cipher, sealing: seq<Key>, sealedFor: string, response: StoredResponse, nonce: string,
      ring: seq<Key>, storeKey: string)
    requires Ideal(c) && sealing != [] && Storable(response)
    ensures var id := c.idOf(sealing[0]);
      Open(c, ring, storeKey, Seal(c, sealing, sealedFor, response, nonce)) ==
        match Find(c, ring, id)
        case None => Err(UnknownKeyId(id))
        case Some(key) => if key == sealing[0] && storeKey == sealedFor then Ok(response) else Err(AuthenticationFailed)
  {
    var parts := Parts(c, sealing[0], sealedFor, response, nonce);
    var iv := c.ivOf(nonce);
    var (ct, tag) := c.encrypt(sealing[0], iv, sealedFor, c.stringify(response));
    assert c.decrypt(sealing[0], iv, sealedFor, ct, tag) == Some(c.stringify(response)) && tag != [];
    assert NoDot(VERSION);
    SplitJoin(parts);
    assert c.bytesOf(parts[2]) == iv && c.bytesOf(parts[3]) == ct && c.bytesOf(parts[4]) == tag && parts[4] != "";
    var found := Find(c, ring, c.idOf(sealing[0]));
    if found.Some? {
      var p := c.decrypt(found.value, iv, storeKey, ct, tag);
      if p.Some? {
        assert c.encrypt(found.value, iv, storeKey, p.value) == c.encrypt(sealing[0], iv, sealedFor, c.stringify(response));
      }
    }
  }

  /**
   * Which payloads are turned away before any decryption: those that are not
   * sealed, that are not five parts with the version first and a tag last, and
   * those whose key id nobody in the ring has.
   */
  lemma RefusedUnread(c: Cipher, ring: seq<Key>, storeKey: string, payload: Payload)
    ensures Open(c, ring, storeKey, payload) == Err(NotSealed) <==> payload.Plain?
    ensures payload.Sealed? ==>
      var parts := Split(payload.text);
      && (Open(c, ring, storeKey, payload) == Err(MalformedEnvelope) <==>
            !(|parts| == 5 && parts[0] == "v1" && parts[4] != ""))
      && (|parts| == 5 && parts[0] == "v1" && parts[4] != "" ==>
            (Open(c, ring, storeKey, payload) == Err(UnknownKeyId(parts[1])) <==>
               forall k :: k in ring ==> c.idOf(k) != parts[1]))
  {
    if payload.Sealed? && |Split(payload.text)| == 5 {
      FindsInRing(c, ring, Split(payload.text)[1]);
    }
  }

  /** Whatever opens was sealed: under a key of the ring, for this store key, with this response as its content. */
  lemma OnlySealedOpens(c: Cipher, ring: seq<Key>, storeKey: string, payload: Payload)
    returns (key: Key, iv: seq<Byte>, plaintext: string)
    requires Ideal(c) && Open(c, ring, storeKey, payload).Ok?
    ensures key in ring && c.parse(plaintext) == Some(Open(c, ring, storeKey, payload).value)
    ensures payload.Sealed? && |Split(payload.text)| == 5
    ensures var parts := Split(payload.text);
      && parts[0] == VERSION && parts[1] == c.idOf(key) && iv == c.bytesOf(parts[2])
      && c.encrypt(key, iv, storeKey, plaintext) == (c.bytesOf(parts[3]), c.bytesOf(parts[4]))
  {
    var parts := Split(payload.text);
    FindsInRing(c, ring, parts[1]);
    key := Find(c, ring, parts[1]).value;
    iv := c.bytesOf(parts[2]);
    plaintext := c.decrypt(key, iv, storeKey, c.bytesOf(parts[3]), c.bytesOf(parts[4])).value;
  }

  lemma {:induction false} FindsInRing(c: Cipher, ring: seq<Key>, id: string)
    ensures Find(c, ring, id).Some? <==> exists k :: k in ring && c.idOf(k) == id
    ensures Find(c, ring, id).Some? ==> Find(c, ring, id).value in ring && c.idOf(Find(c, ring, id).value) == id
  {
    if ring != [] {
      FindsInRing(c, ring[1..], id);
      assert ring == [ring[0]] + ring[1..];
    }
  }

  /** Rotation: a new first key with an id of its own changes nothing about any record that opened before. */
  lemma RotationKeepsReadable(c: Cipher, ring: seq<Key>, newest: Key, storeKey: string, payload: Payload)
    requires Open(c, ring, storeKey, payload).Ok?
    requires forall k :: k in ring ==> c.idOf(k) != c.idOf(newest)
    ensures Open(c, [newest] + ring, storeKey, payload) == Open(c, ring, storeKey, payload)
  {
    FindsInRing(c, ring, Split(payload.text)[1]);
    assert ([newest] + ring)[1..] == ring;
  }

  /** And exactly that is needed: a record stays readable unless another key takes the id it was sealed under. */
  lemma RotationExactly(c: Cipher, sealing: seq<Key>, storeKey: string, response: StoredResponse, nonce: string,
      ring: seq<Key>, newest: Key)
    requires Ideal(c) && sealing != [] && Storable(response)
    requires Open(c, ring, storeKey, Seal(c, sealing, storeKey, response, nonce)) == Ok(response)
    ensures Open(c, [newest] + ring, storeKey, Seal(c, sealing, storeKey, response, nonce)) == Ok(response) <==>
      c.idOf(newest) != c.idOf(sealing[0]) || newest == sealing[0]
  {
    OpensExactly(c, sealing, storeKey, response, nonce, ring, storeKey);
    OpensExactly(c, sealing, storeKey, response, nonce, [newest] + ring, storeKey);
    assert ([newest] + ring)[1..] == ring;
  }

  /** Without encryption, responses are stored as they are, and sealed records are refused. */
  function OpenPlain(payload: Payload): Result<StoredResponse, OpenError> {
    match payload
    case Plain(response) => Ok(response)
    case Sealed(_) => Err(EncryptionOff)
  }

  /** A sealed record is never read as plain text, and a plain one never as sealed. */
  lemma CodecsRefuseEachOther(c: Cipher, ring: seq<Key>, storeKey: string, text: string, response: StoredResponse)
    requires ring != []
    ensures PlainCodec().open(storeKey, Sealed(text)) == None
    ensures CipherCodec(c, ring).open(storeKey, Plain(response)) == None
  {
  }

  function Readable(result: Result<StoredResponse, OpenError>): Option<StoredResponse> {
    if result.Ok? then Some(result.value) else None
  }

  function CipherCodec(c: Cipher, ring: seq<Key>): Protocol.Codec
    requires ring != []
  {
    Protocol.Codec(
      (storeKey, response, nonce) => Some(Seal(c, ring, storeKey, response, nonce)),
      (storeKey, payload) => Readable(Open(c, ring, storeKey, payload)))
  }

  function PlainCodec(): Protocol.Codec {
    Protocol.Codec((storeKey, response, nonce) => Some(Plain(response)), (storeKey, payload) => Readable(OpenPlain(payload)))
  }
}
