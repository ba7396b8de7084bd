/** What the whole package promises about a replay, from the request that asks to the value that is handed out. */
module EndToEnd {
  import opened Wrappers
  import opened JsValues
  import opened JsHeap
  import opened StoreContract
  import opened StoreRuns
  import opened Protocol
  import opened ProtocolInvariant
  import opened ProtocolTheorems
  import Identity
  import Envelope
  import ResultCodec
  import GraphEncoder
  import GraphWriter
  import CanonicalText

  /** A call with the payload it is fingerprinted by, as an object graph. */
  datatype Asked = Asked(call: Identity.Call, src: GraphWriter.Source, payload: Val)

  ghost predicate WellAsked(digest: seq<Byte> -> string, x: Asked) {
    && x.call.Normalized() && x.src.digest == digest
    && Closed(x.src.heap) && InHeap(x.src.heap, x.payload)
    && GraphWriter.CanonicalJson(x.src, x.payload) == Ok(x.call.text)
  }

  /** Every attempt of the run was made for the call in its place. */
  ghost predicate AskedFor(hash: seq<Byte> -> string, digest: seq<Byte> -> string, s: State, asked: seq<Asked>) {
    && |asked| == |s.attempts|
    && forall a :: 0 <= a < |asked| ==>
      && WellAsked(digest, asked[a])
      && s.attempts[a].request.storeKey == asked[a].call.RecordKey()
      && s.attempts[a].request.fingerprint == asked[a].call.Fingerprint(hash)
  }

  ghost predicate SameCall(x: Asked, y: Asked)
    requires Closed(x.src.heap) && InHeap(x.src.heap, x.payload) && Closed(y.src.heap) && InHeap(y.src.heap, y.payload)
  {
    && x.call.scope == y.call.scope && x.call.key == y.call.key
    && Identity.Optional(x.call.suffix) == Identity.Optional(y.call.suffix)
    && Identity.IdentityOf(x.call.target) == Identity.IdentityOf(y.call.target)
    && GraphWriter.Meaning(x.src, x.payload) == GraphWriter.Meaning(y.src, y.payload)
  }

  lemma SameRecordSameCall(hash: seq<Byte> -> string, digest: seq<Byte> -> string, x: Asked, y: Asked)
    requires Identity.CollisionFree(hash) && CanonicalText.IdealDigest(digest)
    requires WellAsked(digest, x) && WellAsked(digest, y)
    ensures x.call.RecordKey() == y.call.RecordKey() && x.call.Fingerprint(hash) == y.call.Fingerprint(hash)
      <==> SameCall(x, y)
  {
    Identity.SeparateCalls(hash, x.call, y.call);
    GraphWriter.TextIsIdentity(x.src, x.payload, y.src, y.payload);
  }

  /**
   * A replay only answers the request that was stored: in every run, it hands
   * out what one earlier attempt captured and stored, under the live lock it
   * held, less than its ttl ago, for a call with the same scope, key, target
   * and payload.
   */
  lemma ReplayAnswersTheSameCall(cfg: Config, s: State, hash: seq<Byte> -> string, digest: seq<Byte> -> string,
      asked: seq<Asked>, b: nat) returns (a: nat, m: nat)
    requires Reachable(cfg, s) && CodecRoundTrips(cfg.codec)
    requires Identity.CollisionFree(hash) && CanonicalText.IdealDigest(digest) && AskedFor(hash, digest, s, asked)
    requires b < |s.attempts| && s.attempts[b].phase.Replayed?
    ensures Landed(s, s.attempts[b].acquireCall) && StoredBy(s, b, a, m)
    ensures s.attempts[a].outcome == Some(s.attempts[b].phase.response)
    ensures SameCall(asked[a], asked[b])
  {
    a, m := ReplayProvenance(cfg, s, b);
    SameRecordSameCall(hash, digest, asked[a], asked[b]);
  }

  /**
   * And every other request is refused: when an acquire finds a live entry,
   * the attempt is turned away as a reused key exactly if the entry was taken
   * for a call that differs in scope, key, suffix, target or payload.
   */
  lemma OtherCallsAreRefused(cfg: Config, s: State, hash: seq<Byte> -> string, digest: seq<Byte> -> string,
      asked: seq<Asked>, b: nat) returns (a: nat)
    requires Reachable(cfg, s)
    requires Identity.CollisionFree(hash) && CanonicalText.IdealDigest(digest) && AskedFor(hash, digest, s, asked)
    requires b < |s.attempts| && Landed(s, s.attempts[b].acquireCall) && ReplyTo(s, s.attempts[b].acquireCall) != Acquired
    requires !s.attempts[b].phase.Planning? && !s.attempts[b].phase.Failed?
    ensures a < |s.attempts| && Won(s, s.attempts[a])
    ensures s.attempts[b].phase == Refused(KeyReused) <==> !SameCall(asked[a], asked[b])
  {
    AnswerDecides(cfg, s, b);
    a := WhoseEntry(cfg, s, b);
    SameRecordSameCall(hash, digest, asked[a], asked[b]);
  }

  /** The two codecs the package has both give back what they sealed, under the key it was sealed for. */
  lemma CodecsRoundTrip(c: Envelope.Cipher, ring: seq<Envelope.Key>)
    requires Envelope.Ideal(c) && ring != []
    ensures CodecRoundTrips(Envelope.CipherCodec(c, ring)) && CodecRoundTrips(Envelope.PlainCodec())
  {
    forall key, response, nonce
      ensures Storable(response) && Sealing(Envelope.CipherCodec(c, ring), key, response, nonce).Some? ==>
        Envelope.CipherCodec(c, ring).open(key, Sealing(Envelope.CipherCodec(c, ring), key, response, nonce).value) == Some(response)
    {
      if Storable(response) {
        Envelope.OpensExactly(c, ring, key, response, nonce, ring, key);
      }
    }
  }

  /** The outcome an attempt captured is the encoding of the value its handler returned. */
  ghost predicate Captured(att: Attempt, returned: Val, ctx: GraphEncoder.Context) {
    && Closed(ctx.heap) && InHeap(ctx.heap, returned)
    && att.outcome.Some?
    && GraphEncoder.EncodeResult(ctx, returned) == Ok(att.outcome.value.body)
  }

  /**
   * From handler to replay: the value a replay hands out is the normal form of
   * what the handler returned to the attempt that ran, encrypted or not.
   */
  lemma ReplayHandsOutTheResult(cfg: Config, s: State, hash: seq<Byte> -> string, digest: seq<Byte> -> string,
      asked: seq<Asked>, b: nat, returned: seq<Val>, contexts: seq<GraphEncoder.Context>) returns (a: nat, m: nat)
    requires Reachable(cfg, s) && CodecRoundTrips(cfg.codec)
    requires Identity.CollisionFree(hash) && CanonicalText.IdealDigest(digest) && AskedFor(hash, digest, s, asked)
    requires |returned| == |contexts| == |s.attempts|
    requires forall i :: 0 <= i < |contexts| ==> ResultCodec.TextsRoundTrip(contexts[i].texts)
    requires forall i :: 0 <= i < |s.attempts| && s.attempts[i].outcome.Some? && s.attempts[i].outcome.value.error.None? ==>
      Captured(s.attempts[i], returned[i], contexts[i])
    requires b < |s.attempts| && s.attempts[b].phase.Replayed? && s.attempts[b].phase.response.error.None?
    ensures Landed(s, s.attempts[b].acquireCall) && StoredBy(s, b, a, m) && SameCall(asked[a], asked[b])
    ensures Captured(s.attempts[a], returned[a], contexts[a])
    ensures var tree := GraphEncoder.Unfold(contexts[a], {}, returned[a], false);
      var body := s.attempts[b].phase.response.body;
      && tree.Ok?
      && (match ResultCodec.Normal(tree.value)
          case Some(normal) => JsonSafe(body) && ResultCodec.Decode(contexts[a].texts, body) == Ok(normal)
          case None => body == Undefined)
  {
    a, m := ReplayAnswersTheSameCall(cfg, s, hash, digest, asked, b);
    GraphEncoder.GraphRoundTrip(contexts[a], returned[a]);
  }

  /** What a successful handler's result is captured as can always be stored. */
  lemma CapturedIsStorable(att: Attempt, returned: Val, ctx: GraphEncoder.Context)
    requires Captured(att, returned, ctx) && ResultCodec.TextsRoundTrip(ctx.texts)
    ensures Storable(att.outcome.value)
  {
    GraphEncoder.GraphRoundTrip(ctx, returned);
  }
}
