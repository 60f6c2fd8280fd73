/**
 * The two `POST /webhook` handlers end to end: what the request body
 * decodes to, the walk over it, and the HTTP status of the answer. An
 * exception that escapes a handler becomes status 500.
 */
module Webhooks {
  import opened Wrappers
  import opened Json
  import opened Inbound

  /** `{"status": "ok"}` with 200, or an unhandled exception answered with 500. */
  datatype Status = Ok | ServerError

  /** The status of the answer and the calls made before it. */
  datatype Outcome = Outcome(status: Status, effects: seq<Effect>)

  /** Some element of `xs` satisfies `p`, checked front to back. */
  predicate Any<T>(p: T -> bool, xs: seq<T>)
  {
    xs != [] && (p(xs[0]) || Any(p, xs[1..]))
  }

  lemma {:induction false} AnySome<T>(p: T -> bool, xs: seq<T>)
    ensures Any(p, xs) <==> exists i :: 0 <= i < |xs| && p(xs[i])
  {
    if xs != [] {
      AnySome(p, xs[1..]);
      if Any(p, xs[1..]) {
        var i :| 0 <= i < |xs[1..]| && p(xs[1..][i]);
        assert xs[i + 1] == xs[1..][i];
      }
      if exists i :: 0 <= i < |xs| && p(xs[i]) {
        var i :| 0 <= i < |xs| && p(xs[i]);
        if i > 0 {
          assert xs[i] == xs[1..][i - 1];
        }
      }
    }
  }

  /** Some message of `ms` raises when handled on its own. */
  predicate AnyRaises(h: Handler, ms: seq<Json>)
  {
    Any(m => Handle(h, m).raised, ms)
  }

  /** `AnyRaises` holds exactly when some message raises. */
  lemma AnyRaisesSome(h: Handler, ms: seq<Json>)
    ensures AnyRaises(h, ms) <==> exists i :: 0 <= i < |ms| && Handle(h, ms[i]).raised
  {
    AnySome(m => Handle(h, m).raised, ms);
  }

  /** The walk raises exactly when one of the visited messages raises. */
  lemma {:induction false} WalkMessagesRaised(h: Handler, ms: seq<Json>)
    ensures WalkMessages(h, ms).raised <==> AnyRaises(h, ms)
  {
    if ms != [] {
      WalkMessagesRaised(h, ms[1..]);
      assert AnyRaises(h, ms) == (Handle(h, ms[0]).raised || AnyRaises(h, ms[1..]));
    }
  }

  /** A body walked to the end: its list nesting is well formed and no message raises. */
  predicate WalksClean(h: Handler, body: Json) {
    var f := CollectBody(body);
    !f.malformed && !AnyRaises(h, f.msgs)
  }

  /** A walk over a body raises exactly when the body is not walked to the end. */
  lemma WalkBodyRaised(h: Handler, body: Json)
    ensures WalkBody(h, body).raised <==> !WalksClean(h, body)
  {
    WalkBodyFlat(h, body);
    WalkMessagesRaised(h, CollectBody(body).msgs);
  }

  /** A clean walk sends once per qualifying message. */
  lemma WalkBodySends(h: Handler, body: Json)
    requires WalksClean(h, body)
    ensures CountSends(WalkBody(h, body).effects) == CountQualifying(h, CollectBody(body).msgs)
  {
    var f := CollectBody(body);
    var w := WalkMessages(h, f.msgs);
    WalkMessagesRaised(h, f.msgs);
    assert !w.raised;
    WalkBodyFlat(h, body);
    assert WalkBody(h, body) == Run(w.effects + [], false);
    assert w.effects + [] == w.effects;
    SendsMatchQualifying(h, f.msgs);
  }

  // ---- The settings-based handler ----

  /**
   * `body = await req.json()` then the walk: a body that does not decode
   * (`None`: empty, not JSON or not UTF-8) and any exception in the walk
   * give status 500; the calls made before the exception stand.
   */
  function MainWebhook(answer: string -> Option<string>, body: Option<Json>): (o: Outcome)
    ensures body.None? ==> o == Outcome(ServerError, [])
    ensures body.Some? ==> o.effects == WalkBody(MainHandler(answer), body.value).effects
  {
    match body
    case None => Outcome(ServerError, [])
    case Some(b) =>
      var r := WalkBody(MainHandler(answer), b);
      Outcome(if r.raised then ServerError else Ok, r.effects)
  }

  /**
   * The answer is `{"status": "ok"}` exactly when the body decodes and is
   * walked to the end; then there is one answer call and one send per
   * qualifying message.
   */
  lemma MainWebhookStatus(answer: string -> Option<string>, body: Option<Json>)
    ensures MainWebhook(answer, body).status == Ok <==> body.Some? && WalksClean(MainHandler(answer), body.value)
    ensures MainWebhook(answer, body).status == Ok ==>
      CountSends(MainWebhook(answer, body).effects) == CountQualifying(MainHandler(answer), CollectBody(body.value).msgs)
    ensures MainTrace(answer, Run(MainWebhook(answer, body).effects, MainWebhook(answer, body).status == ServerError))
  {
    if body.Some? {
      var h := MainHandler(answer);
      WalkBodyRaised(h, body.value);
      MainBodyTrace(answer, body.value);
      if WalksClean(h, body.value) {
        WalkBodySends(h, body.value);
      }
    } else {
      assert AskSendPairs(answer, []);
    }
  }

  /**
   * A body whose first entry is not a `dict` (a number, a string, a list,
   * `null`, ...) raises on `entry.get` before any call is made: the answer
   * is 500 and nothing is sent.
   */
  lemma MainWebhookBadEntry(answer: string -> Option<string>, body: Json)
    requires body.Obj? && Get(body.fields, "entry", Arr([])).Arr?
    requires Get(body.fields, "entry", Arr([])).items != [] && !Get(body.fields, "entry", Arr([])).items[0].Obj?
    ensures MainWebhook(answer, Some(body)) == Outcome(ServerError, [])
  {
    var h := MainHandler(answer);
    var es := Get(body.fields, "entry", Arr([])).items;
    assert WalkEntry(h, es[0]) == Raise;
    assert WalkEntries(h, es) == Raise;
    assert WalkBody(h, body) == Raise;
  }

  // ---- The RAG handler ----

  /** What `json.loads(raw)` makes of a non-empty body. */
  datatype Decoded =
    | Parsed(value: Json)  // a JSON document
    | NotJson              // raises `JSONDecodeError`
    | NotUtf8              // raises `UnicodeDecodeError`, which is not a `JSONDecodeError`

  /**
   * The RAG handler as written: an empty body or one that is not JSON is
   * acknowledged without effects, but the `except` names only
   * `JSONDecodeError`, so a body that is not valid text escapes as status
   * 500. Exceptions in the walk are swallowed.
   */
  function RagWebhook(rag: Rag, raw: seq<bv8>, decoded: Decoded): (o: Outcome)
    ensures raw == [] ==> o == Outcome(Ok, [])
    ensures raw != [] && decoded.Parsed? ==> o == Outcome(Ok, WalkBody(RagHandler(rag), decoded.value).effects)
  {
    if raw == [] then Outcome(Ok, [])
    else
      match decoded
      case NotJson => Outcome(Ok, [])
      case NotUtf8 => Outcome(ServerError, [])
      case Parsed(body) => Outcome(Ok, WalkBody(RagHandler(rag), body).effects)
  }

  /** As written, the answer is 500 exactly for a non-empty body that is not valid text. */
  lemma RagWebhookStatus(rag: Rag, raw: seq<bv8>, decoded: Decoded)
    ensures RagWebhook(rag, raw, decoded).status == ServerError <==> raw != [] && decoded.NotUtf8?
  {
  }

  /** The one-byte body `0xFF` is not UTF-8, and the handler answers it with 500. */
  lemma RagWebhookInvalidUtf8(rag: Rag)
    ensures RagWebhook(rag, [0xFF], NotUtf8) == Outcome(ServerError, [])
  {
  }

  /** The RAG handler with `except ValueError`, which covers both decoding errors. */
  function RagWebhookFixed(rag: Rag, raw: seq<bv8>, decoded: Decoded): (o: Outcome)
    ensures o.status == Ok
    ensures raw == [] || !decoded.Parsed? ==> o.effects == []
  {
    if raw == [] then Outcome(Ok, [])
    else
      match decoded
      case Parsed(body) => Outcome(Ok, WalkBody(RagHandler(rag), body).effects)
      case _ => Outcome(Ok, [])
  }

  /**
   * The corrected handler always answers `{"status": "ok"}`, agrees with
   * the written one wherever that one answers 200, and follows the effect
   * shape of the RAG handler: blocks of mark-read, typing, answer call,
   * typing, send.
   */
  lemma RagWebhookFixedAgrees(rag: Rag, raw: seq<bv8>, decoded: Decoded)
    ensures RagWebhook(rag, raw, decoded).status == Ok ==> RagWebhookFixed(rag, raw, decoded) == RagWebhook(rag, raw, decoded)
    ensures RagTrace(rag, RagWebhookFixed(rag, raw, decoded).effects)
  {
    if raw != [] && decoded.Parsed? {
      RagBodyTrace(rag, decoded.value);
    } else {
      assert RagTrace(rag, []);
    }
  }

  /**
   * A JSON body is answered with 200 whatever the walk does; a body walked
   * to the end sends once per qualifying message.
   */
  lemma RagWebhookSends(rag: Rag, raw: seq<bv8>, body: Json)
    requires raw != []
    ensures RagWebhook(rag, raw, Parsed(body)).status == Ok
    ensures WalksClean(RagHandler(rag), body) ==>
      CountSends(RagWebhook(rag, raw, Parsed(body)).effects) == CountQualifying(RagHandler(rag), CollectBody(body).msgs)
  {
    if WalksClean(RagHandler(rag), body) {
      WalkBodySends(RagHandler(rag), body);
    }
  }
}
