/**
 * The `GET /webhook` verification handshake of both handlers: echo the
 * challenge with status 200 when the subscription request carries the
 * configured token, answer `forbidden` with status 403 otherwise.
 */
module Handshake {
  import opened Wrappers
  import opened PyStr
  import opened Environment

  /** A plain-text HTTP response. */
  datatype Reply = Reply(status: int, body: string)

  const Subscribe: string := "subscribe"
  const Forbidden: Reply := Reply(403, "forbidden")

  // ---- The settings-based handler ----

  /**
   * `verify(mode, challenge, token)` against the configured
   * `wa_verify_token`, which may be unset (`None`).
   */
  function Verify(mode: string, challenge: string, token: string, configured: Option<string>): (r: Reply)
    ensures r.status == 200 <==> mode == Subscribe && configured == Some(token)
    ensures r.status == 200 ==> r.body == challenge
    ensures r.status != 200 ==> r == Forbidden
  {
    if mode == Subscribe && configured == Some(token) then Reply(200, challenge) else Forbidden
  }

  /** An unset verify token rejects every request: a string never equals `None`. */
  lemma VerifyUnsetRejects(mode: string, challenge: string, token: string)
    ensures Verify(mode, challenge, token, None) == Forbidden
  {
  }

  /** There is no non-empty check on the challenge: an empty one is echoed too. */
  lemma VerifyEchoesEmpty(token: string)
    ensures Verify(Subscribe, "", token, Some(token)) == Reply(200, "")
  {
  }

  /**
   * The handler's parameters are the query parameters named `mode`,
   * `challenge` and `token`, each defaulting to `""`.
   */
  function VerifyQuery(q: Env, configured: Option<string>): Reply
  {
    Verify(Lookup(q, "mode").GetOr(""), Lookup(q, "challenge").GetOr(""), Lookup(q, "token").GetOr(""), configured)
  }

  /** The subscription request the platform sends: only `hub.`-prefixed parameters. */
  function HubRequest(token: string, challenge: string): (q: Env)
    ensures q.Keys == {"hub.mode", "hub.verify_token", "hub.challenge"}
  {
    map["hub.mode" := Subscribe, "hub.verify_token" := token, "hub.challenge" := challenge]
  }

  /**
   * As written, no request without a plain `mode` parameter is accepted, so
   * the platform's subscription request is refused even when its token is
   * the configured one.
   */
  lemma VerifyQueryRefusesHub(q: Env, configured: Option<string>, token: string, challenge: string)
    ensures "mode" !in q ==> VerifyQuery(q, configured) == Forbidden
    ensures VerifyQuery(HubRequest(token, challenge), Some(token)) == Forbidden
  {
    var h := HubRequest(token, challenge);
    assert "mode" !in h;
  }

  /** The handshake reading the `hub.`-prefixed parameters, as the second handler does. */
  function VerifyHubQuery(q: Env, configured: Option<string>): Reply
  {
    Verify(Lookup(q, "hub.mode").GetOr(""), Lookup(q, "hub.challenge").GetOr(""),
           Lookup(q, "hub.verify_token").GetOr(""), configured)
  }

  /** Reading `hub.*`, the platform's request with the configured token gets its challenge back, and only then. */
  lemma VerifyHubQueryAccepts(token: string, challenge: string, configured: Option<string>)
    ensures VerifyHubQuery(HubRequest(token, challenge), configured)
         == (if configured == Some(token) then Reply(200, challenge) else Forbidden)
  {
    var h := HubRequest(token, challenge);
    assert Lookup(h, "hub.mode") == Some(Subscribe);
    assert Lookup(h, "hub.verify_token") == Some(token);
    assert Lookup(h, "hub.challenge") == Some(challenge);
  }

  // ---- The RAG handler ----

  /** `(os.getenv("WA_VERIFY_TOKEN") or os.getenv("WHATSAPP_VERIFY_TOKEN") or "").strip()`. */
  function ConfiguredToken(env: Env): (t: string)
    ensures Strip(t) == t
  {
    var raw := PyOr(PyOr(Lookup(env, "WA_VERIFY_TOKEN"), Lookup(env, "WHATSAPP_VERIFY_TOKEN")), Some(""));
    StripIdempotent(raw.GetOr(""));
    Strip(raw.GetOr(""))
  }

  /** The first non-empty of the two variables wins; with neither set the token is `""`. */
  lemma ConfiguredTokenChoice(env: Env)
    ensures Lookup(env, "WA_VERIFY_TOKEN").GetOr("") != [] ==> ConfiguredToken(env) == Strip(env["WA_VERIFY_TOKEN"])
    ensures Lookup(env, "WA_VERIFY_TOKEN").GetOr("") == [] && Lookup(env, "WHATSAPP_VERIFY_TOKEN").GetOr("") != []
      ==> ConfiguredToken(env) == Strip(env["WHATSAPP_VERIFY_TOKEN"])
    ensures Lookup(env, "WA_VERIFY_TOKEN").GetOr("") == [] && Lookup(env, "WHATSAPP_VERIFY_TOKEN").GetOr("") == []
      ==> ConfiguredToken(env) == []
  {
  }

  /** `verify_webhook`: subscribe mode, the stripped token equal to the configured one, and a non-empty challenge. */
  function VerifyWebhook(q: Env, verifyToken: string): (r: Reply)
    ensures r.status == 200 <==>
      && Lookup(q, "hub.mode") == Some(Subscribe)
      && Strip(Lookup(q, "hub.verify_token").GetOr("")) == verifyToken
      && Lookup(q, "hub.challenge").GetOr("") != []
    ensures r.status == 200 ==> r.body == q["hub.challenge"]
    ensures r.status != 200 ==> r == Forbidden
  {
    var mode := Lookup(q, "hub.mode");
    var token := Strip(PyOr(Lookup(q, "hub.verify_token"), Some("")).GetOr(""));
    var challenge := Lookup(q, "hub.challenge");
    if mode == Some(Subscribe) && token == verifyToken && challenge.Some? && challenge.value != [] then
      Reply(200, challenge.value)
    else Forbidden
  }

  const HubToken: string := "hub.verify_token"
  const PrimaryTokenVar: string := "WA_VERIFY_TOKEN"
  const FallbackTokenVar: string := "WHATSAPP_VERIFY_TOKEN"

  /**
   * Both tokens are stripped, so whitespace around either does not matter:
   * padding the supplied token (present or not) leaves the answer
   * unchanged, and so does padding a non-empty value of either token
   * variable. An empty `WA_VERIFY_TOKEN` is the exception: padded, it is
   * no longer empty and would shadow the fallback variable.
   */
  lemma VerifyWebhookIgnoresPadding(q: Env, env: Env, key: string, pre: string, post: string)
    requires AllSpace(pre) && AllSpace(post)
    requires key == PrimaryTokenVar || key == FallbackTokenVar
    ensures VerifyWebhook(q[HubToken := pre + Lookup(q, HubToken).GetOr("") + post], ConfiguredToken(env))
         == VerifyWebhook(q, ConfiguredToken(env))
    ensures key in env && env[key] != [] ==>
      VerifyWebhook(q, ConfiguredToken(env[key := pre + env[key] + post])) == VerifyWebhook(q, ConfiguredToken(env))
  {
    QueryPadding(q, ConfiguredToken(env), pre, post);
    if key in env && env[key] != [] {
      ConfiguredIgnoresPadding(env, key, pre, post);
    }
  }

  /** Padding the supplied token, or supplying only whitespace where there was none, does not change the answer. */
  lemma QueryPadding(q: Env, verifyToken: string, pre: string, post: string)
    requires AllSpace(pre) && AllSpace(post)
    ensures VerifyWebhook(q[HubToken := pre + Lookup(q, HubToken).GetOr("") + post], verifyToken) == VerifyWebhook(q, verifyToken)
  {
    var t := Lookup(q, HubToken).GetOr("");
    var q2 := q[HubToken := pre + t + post];
    assert |"hub.mode"| == 8 && |"hub.challenge"| == 13 && |HubToken| == 16;
    assert Lookup(q2, "hub.mode") == Lookup(q, "hub.mode");
    assert Lookup(q2, "hub.challenge") == Lookup(q, "hub.challenge");
    assert Lookup(q2, HubToken) == Some(pre + t + post);
    StripPadded(pre, t, post);
  }

  /** Padding a non-empty token variable keeps it the one chosen, and stripping removes the padding. */
  lemma ConfiguredIgnoresPadding(env: Env, key: string, pre: string, post: string)
    requires AllSpace(pre) && AllSpace(post)
    requires key == PrimaryTokenVar || key == FallbackTokenVar
    requires key in env && env[key] != []
    ensures ConfiguredToken(env[key := pre + env[key] + post]) == ConfiguredToken(env)
  {
    var v := env[key];
    var env2 := env[key := pre + v + post];
    assert |PrimaryTokenVar| == 15 && |FallbackTokenVar| == 21;
    StripPadded(pre, v, post);
    ConfiguredTokenChoice(env);
    ConfiguredTokenChoice(env2);
    if key == FallbackTokenVar {
      assert Lookup(env2, PrimaryTokenVar) == Lookup(env, PrimaryTokenVar);
    }
  }

  /** Whitespace around any text is removed by `strip()`. */
  lemma StripPadded(pre: string, v: string, post: string)
    requires AllSpace(pre) && AllSpace(post)
    ensures Strip(pre + v + post) == Strip(v)
  {
    if AllSpace(v) {
      AllSpaceConcat(pre, v);
      AllSpaceConcat(pre + v, post);
    } else {
      var i := LeadingSpaces(v);
      var w := Strip(v);
      var p1 := v[..i];
      var p2 := v[i + |w|..];
      StripParts(v);
      StripIdempotent(v);
      Regroup(pre, p1, w, p2, post);
      AllSpaceConcat(pre, p1);
      AllSpaceConcat(p2, post);
      PaddedStrip(pre + p1, w, p2 + post);
    }
  }

  lemma Regroup<T>(pre: seq<T>, p1: seq<T>, w: seq<T>, p2: seq<T>, post: seq<T>)
    ensures pre + (p1 + w + p2) + post == (pre + p1) + w + (p2 + post)
  {
  }

  lemma AllSpaceConcat(a: string, b: string)
    requires AllSpace(a) && AllSpace(b)
    ensures AllSpace(a + b)
  {
    assert forall k :: |a| <= k < |a + b| ==> (a + b)[k] == b[k - |a|];
  }

  /**
   * With neither token variable set, the configured token is `""`, so a
   * subscribe request whose token is absent or only whitespace is accepted
   * whenever its challenge is non-empty.
   */
  lemma VerifyWebhookUnsetAcceptsBlank(env: Env, q: Env)
    requires "WA_VERIFY_TOKEN" !in env && "WHATSAPP_VERIFY_TOKEN" !in env
    requires Lookup(q, "hub.mode") == Some(Subscribe) && Lookup(q, "hub.challenge").GetOr("") != []
    requires AllSpace(Lookup(q, "hub.verify_token").GetOr(""))
    ensures VerifyWebhook(q, ConfiguredToken(env)) == Reply(200, q["hub.challenge"])
  {
    assert ConfiguredToken(env) == [];
  }
}
