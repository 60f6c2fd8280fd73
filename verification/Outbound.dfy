/**
 * The outbound half: the Graph API request each recorded `Effect` turns
 * into (URL, headers, JSON payload), and the result shape of the
 * settings-based sender. The HTTP post itself is not modelled; a response
 * is an argument.
 */
module Outbound {
  import opened Wrappers
  import opened PyStr
  import opened Environment
  import opened Json
  import opened Inbound

  const GraphHost: string := "https://graph.facebook.com/"
  const MessagesSuffix: string := "/messages"
  /** The longest text body sent; longer replies are cut. */
  const MaxBody: nat := 4096
  /** The longest piece of a failed response's text kept in the result. */
  const MaxErrorText: nat := 300
  const DefaultVersion: string := "v21.0"

  /** Where and as whom messages are sent; the phone number id and the token may be unset. */
  datatype Sender = Sender(version: string, phoneId: Option<string>, token: Option<string>)

  /**
   * The second handler's configuration, read from the environment with the
   * `WA_` name first and the `WHATSAPP_` name as fallback; the version
   * falls back to `"v21.0"` only when the variable is absent.
   */
  function EnvSender(env: Env): Sender
  {
    Sender(Lookup(env, "WA_API_VERSION").GetOr(DefaultVersion),
           PyOr(Lookup(env, "WA_PHONE_NUMBER_ID"), Lookup(env, "WHATSAPP_PHONE_NUMBER_ID")),
           PyOr(Lookup(env, "WA_ACCESS_TOKEN"), Lookup(env, "WHATSAPP_TOKEN")))
  }

  /** The value of a `WA_` name if it is set and non-empty, else whatever the `WHATSAPP_` name holds, possibly `""`. */
  function Preferred(env: Env, primary: string, fallback: string): Option<string>
  {
    if primary in env && env[primary] != "" then Some(env[primary])
    else if fallback in env then Some(env[fallback])
    else None
  }

  /**
   * The configuration in terms of which variables are set: the version is
   * `WA_API_VERSION` whenever that is set (even to `""`), else `"v21.0"`;
   * the phone number id and the token prefer a non-empty `WA_` variable and
   * otherwise take the `WHATSAPP_` one as it is, or stay unset.
   */
  lemma EnvSenderChoice(env: Env)
    ensures EnvSender(env).version == (if "WA_API_VERSION" in env then env["WA_API_VERSION"] else DefaultVersion)
    ensures EnvSender(env).phoneId == Preferred(env, "WA_PHONE_NUMBER_ID", "WHATSAPP_PHONE_NUMBER_ID")
    ensures EnvSender(env).token == Preferred(env, "WA_ACCESS_TOKEN", "WHATSAPP_TOKEN")
  {
  }

  // ---- URL ----

  /** `https://graph.facebook.com/{ver}/{phone_id}/messages`. */
  function MessagesUrl(s: Sender): (url: string)
    ensures Unframe(url, GraphHost, MessagesSuffix) == Some(s.version + "/" + PyFormat(s.phoneId))
  {
    var mid := s.version + "/" + PyFormat(s.phoneId);
    UnframeFramed(GraphHost, mid, MessagesSuffix);
    GraphHost + mid + MessagesSuffix
  }

  /** Index of the first `/` in `s`, or `|s|` when there is none. */
  function SlashIndex(s: string): (i: nat)
    ensures i <= |s|
    ensures forall k :: 0 <= k < i ==> s[k] != '/'
    ensures i < |s| ==> s[i] == '/'
  {
    if |s| == 0 || s[0] == '/' then 0 else 1 + SlashIndex(s[1..])
  }

  /** The part of `url` between the head `h` and the tail `t`, if it has both. */
  function Unframe(url: string, h: string, t: string): Option<string>
  {
    if |url| < |h| + |t| || url[..|h|] != h || url[|url| - |t|..] != t then None
    else Some(url[|h|..|url| - |t|])
  }

  /** Splits `s` at its first `/`, if it has one. */
  function SplitAtSlash(s: string): Option<(string, string)>
  {
    var i := SlashIndex(s);
    if i == |s| then None else Some((s[..i], s[i + 1..]))
  }

  /**
   * Reads a messages URL back into its version and phone number id: the
   * version runs up to the first `/` after the host.
   */
  function ParseMessagesUrl(url: string): Option<(string, string)>
  {
    match Unframe(url, GraphHost, MessagesSuffix)
    case None => None
    case Some(mid) => SplitAtSlash(mid)
  }

  /** The part between a head and a tail is recovered from their concatenation. */
  lemma UnframeFramed(h: string, mid: string, t: string)
    ensures Unframe(h + mid + t, h, t) == Some(mid)
  {
    var url := h + mid + t;
    assert url[..|h|] == h;
    assert url[|url| - |t|..] == t;
    assert url[|h|..|url| - |t|] == mid;
  }

  /** In `v + "/" + rest` with a slash-free `v`, the first `/` is the one after `v`. */
  lemma SplitAfterVersion(v: string, rest: string)
    requires forall k :: 0 <= k < |v| ==> v[k] != '/'
    ensures SplitAtSlash(v + "/" + rest) == Some((v, rest))
  {
    var mid := v + "/" + rest;
    assert mid[|v|] == '/';
    assert forall k :: 0 <= k < |v| ==> mid[k] == v[k];
    assert SlashIndex(mid) == |v|;
    assert mid[..|v|] == v;
    assert mid[|v| + 1..] == rest;
  }

  /** The URL holds the version and the formatted phone number id, recoverable when the version has no `/`. */
  lemma MessagesUrlRoundTrip(s: Sender)
    requires forall k :: 0 <= k < |s.version| ==> s.version[k] != '/'
    ensures ParseMessagesUrl(MessagesUrl(s)) == Some((s.version, PyFormat(s.phoneId)))
  {
    SplitAfterVersion(s.version, PyFormat(s.phoneId));
  }

  /** Senders with slash-free versions that differ in version or phone number id post to different URLs. */
  lemma MessagesUrlInjective(a: Sender, b: Sender)
    requires forall k :: 0 <= k < |a.version| ==> a.version[k] != '/'
    requires forall k :: 0 <= k < |b.version| ==> b.version[k] != '/'
    requires MessagesUrl(a) == MessagesUrl(b)
    ensures a.version == b.version && PyFormat(a.phoneId) == PyFormat(b.phoneId)
  {
    MessagesUrlRoundTrip(a);
    MessagesUrlRoundTrip(b);
  }

  // ---- Headers ----

  const BearerPrefix: string := "Bearer "

  /** The two request headers: a bearer token (`None` when unset) and the JSON content type. */
  function Headers(s: Sender): (h: map<string, string>)
    ensures h.Keys == {"Authorization", "Content-Type"}
    ensures BearerPrefix <= h["Authorization"] && h["Authorization"][|BearerPrefix|..] == PyFormat(s.token)
    ensures h["Content-Type"] == "application/json"
  {
    var auth := BearerPrefix + PyFormat(s.token);
    assert auth[|BearerPrefix|..] == PyFormat(s.token);
    map["Authorization" := auth, "Content-Type" := "application/json"]
  }

  // ---- Payloads ----

  /** The text message payload: fixed product and type, no link preview, the recipient as given, the body cut to 4096 characters. */
  function TextPayload(to: Json, body: string): (p: Json)
    ensures p.Obj? && p.fields.Keys == {"messaging_product", "to", "type", "text"}
    ensures p.fields["messaging_product"] == Str("whatsapp") && p.fields["type"] == Str("text")
    ensures p.fields["to"] == to
    ensures p.fields["text"].Obj? && p.fields["text"].fields.Keys == {"preview_url", "body"}
    ensures p.fields["text"].fields["preview_url"] == Bool(false)
    ensures var b := p.fields["text"].fields["body"];
      b.Str? && |b.s| <= MaxBody && b.s <= body && (|body| <= MaxBody ==> b.s == body)
  {
    Obj(map[
      "messaging_product" := Str("whatsapp"),
      "to" := to,
      "type" := Str("text"),
      "text" := Obj(map["preview_url" := Bool(false), "body" := Str(Prefix(body, MaxBody))])])
  }

  /** Reads a text payload back into its recipient and body; `None` for anything not of that exact shape. */
  function ReadTextPayload(p: Json): Option<(Json, string)>
  {
    if !p.Obj? || p.fields.Keys != {"messaging_product", "to", "type", "text"} then None
    else if p.fields["messaging_product"] != Str("whatsapp") || p.fields["type"] != Str("text") then None
    else
      var t := p.fields["text"];
      if !t.Obj? || t.fields.Keys != {"preview_url", "body"} || t.fields["preview_url"] != Bool(false) then None
      else if !t.fields["body"].Str? then None
      else Some((p.fields["to"], t.fields["body"].s))
  }

  /** Reading a built payload gives the recipient and the cut body; a body within the limit comes back whole. */
  lemma TextPayloadRoundTrip(to: Json, body: string)
    ensures ReadTextPayload(TextPayload(to, body)) == Some((to, Prefix(body, MaxBody)))
    ensures |body| <= MaxBody ==> ReadTextPayload(TextPayload(to, body)) == Some((to, body))
  {
  }

  /** Every payload that reads back is the one built from what it reads back to, with a body within the limit. */
  lemma ReadTextPayloadSound(p: Json)
    requires ReadTextPayload(p).Some?
    ensures var (to, body) := ReadTextPayload(p).value;
      |body| <= MaxBody ==> p == TextPayload(to, body)
  {
    var (to, body) := ReadTextPayload(p).value;
    if |body| <= MaxBody {
      var q := TextPayload(to, body);
      assert p.fields["text"].fields == q.fields["text"].fields;
      assert p.fields == q.fields;
    }
  }

  /** `wa_mark_read(message_id)`'s payload. */
  function MarkReadPayload(id: Json): (p: Json)
    ensures p.Obj? && p.fields.Keys == {"messaging_product", "status", "message_id"}
    ensures p.fields["messaging_product"] == Str("whatsapp")
    ensures p.fields["status"] == Str("read") && p.fields["message_id"] == id
  {
    Obj(map["messaging_product" := Str("whatsapp"), "status" := Str("read"), "message_id" := id])
  }

  /** `wa_typing(to, state)`'s payload. */
  function TypingPayload(to: Json, state: string): (p: Json)
    ensures p.Obj? && p.fields.Keys == {"messaging_product", "to", "type", "typing"}
    ensures p.fields["messaging_product"] == Str("whatsapp")
    ensures p.fields["to"] == to && p.fields["type"] == Str("typing")
    ensures p.fields["typing"] == Obj(map["state" := Str(state)])
  {
    Obj(map[
      "messaging_product" := Str("whatsapp"),
      "to" := to,
      "type" := Str("typing"),
      "typing" := Obj(map["state" := Str(state)])])
  }

  // ---- Requests ----

  datatype Request = Request(url: string, headers: map<string, string>, payload: Json)

  /**
   * The post an effect makes; the call to the answering function makes
   * none. All posts go to the same URL with the same headers.
   */
  function EffectRequest(s: Sender, e: Effect): (r: Option<Request>)
    ensures r.None? <==> e.Ask?
    ensures r.Some? ==> r.value.url == MessagesUrl(s) && r.value.headers == Headers(s)
    ensures e.Send? ==> ReadTextPayload(r.value.payload) == Some((e.to, Prefix(e.body, MaxBody)))
  {
    match e
    case Ask(_) => None
    case Send(to, body) =>
      TextPayloadRoundTrip(to, body);
      Some(Request(MessagesUrl(s), Headers(s), TextPayload(to, body)))
    case MarkRead(id) => Some(Request(MessagesUrl(s), Headers(s), MarkReadPayload(id)))
    case Typing(to, state) => Some(Request(MessagesUrl(s), Headers(s), TypingPayload(to, state)))
  }

  /** Reads any of the three payloads back into the call that posts it; `None` for anything else. */
  function ReadPayload(p: Json): Option<Effect>
  {
    match ReadTextPayload(p)
    case Some(tb) => Some(Send(tb.0, tb.1))
    case None =>
      if !p.Obj? || Get(p.fields, "messaging_product", Null) != Str("whatsapp") then None
      else if p.fields.Keys == {"messaging_product", "status", "message_id"} && p.fields["status"] == Str("read") then
        Some(MarkRead(p.fields["message_id"]))
      else if p.fields.Keys == {"messaging_product", "to", "type", "typing"} && p.fields["type"] == Str("typing")
        && p.fields["typing"].Obj? && p.fields["typing"].fields.Keys == {"state"} && p.fields["typing"].fields["state"].Str? then
        Some(Typing(p.fields["to"], p.fields["typing"].fields["state"].s))
      else None
  }

  /** What a call looks like once posted: a send's reply is cut to 4096 characters. */
  function Cut(e: Effect): Effect
  {
    if e.Send? then Send(e.to, Prefix(e.body, MaxBody)) else e
  }

  /** Each post reads back as the call that made it, the reply cut; nothing is lost or mixed up. */
  lemma RequestRoundTrip(s: Sender, e: Effect)
    requires !e.Ask?
    ensures ReadPayload(EffectRequest(s, e).value.payload) == Some(Cut(e))
  {
    match e
    case Send(to, body) =>
    case MarkRead(id) =>
      var p := MarkReadPayload(id);
      assert "text" !in p.fields.Keys;
    case Typing(to, state) =>
      var p := TypingPayload(to, state);
      assert "text" !in p.fields.Keys;
      assert p.fields.Keys != {"messaging_product", "status", "message_id"} by {
        assert "status" !in p.fields.Keys;
      }
  }

  /** The calls of a run that post something, in order, as posted. */
  function Posted(es: seq<Effect>): seq<Effect>
  {
    if es == [] then [] else (if es[0].Ask? then [] else [Cut(es[0])]) + Posted(es[1..])
  }

  /** The posts a run of effects makes, in order. */
  function Requests(s: Sender, es: seq<Effect>): (rs: seq<Request>)
    ensures |rs| <= |es|
  {
    if es == [] then []
    else
      var first := EffectRequest(s, es[0]);
      (if first.Some? then [first.value] else []) + Requests(s, es[1..])
  }

  /** The payloads of `rs` read back, one for one and in order, as `es`. */
  predicate ReadsBack(rs: seq<Request>, es: seq<Effect>)
  {
    |rs| == |es| && forall j :: 0 <= j < |rs| ==> ReadPayload(rs[j].payload) == Some(es[j])
  }

  lemma ReadsBackConcat(a: seq<Request>, b: seq<Request>, c: seq<Effect>, d: seq<Effect>)
    requires ReadsBack(a, c) && ReadsBack(b, d)
    ensures ReadsBack(a + b, c + d)
  {
    forall j | 0 <= j < |a + b|
      ensures ReadPayload((a + b)[j].payload) == Some((c + d)[j])
    {
      if j >= |a| {
        assert (a + b)[j] == b[j - |a|];
        assert (c + d)[j] == d[j - |a|];
      }
    }
  }

  /** The post of one call reads back as that call, if it posts at all. */
  lemma HeadReadsBack(s: Sender, e: Effect)
    ensures ReadsBack(if EffectRequest(s, e).Some? then [EffectRequest(s, e).value] else [], if e.Ask? then [] else [Cut(e)])
  {
    if !e.Ask? {
      RequestRoundTrip(s, e);
    }
  }

  /**
   * A run's posts read back, in order, exactly as its calls other than the
   * answer call, each send's reply cut to 4096 characters.
   */
  lemma {:induction false} RequestsReadBack(s: Sender, es: seq<Effect>)
    ensures ReadsBack(Requests(s, es), Posted(es))
    decreases |es|
  {
    if es != [] {
      RequestsReadBack(s, es[1..]);
      HeadReadsBack(s, es[0]);
      var first := EffectRequest(s, es[0]);
      ReadsBackConcat(if first.Some? then [first.value] else [], Requests(s, es[1..]),
                      if es[0].Ask? then [] else [Cut(es[0])], Posted(es[1..]));
    }
  }

  /** Every post of a run goes to the sender's messages URL with the sender's headers. */
  lemma {:induction false} RequestsShareEndpoint(s: Sender, es: seq<Effect>)
    ensures forall j :: 0 <= j < |Requests(s, es)| ==>
      Requests(s, es)[j].url == MessagesUrl(s) && Requests(s, es)[j].headers == Headers(s)
    decreases |es|
  {
    if es != [] {
      RequestsShareEndpoint(s, es[1..]);
    }
  }

  // ---- The settings-based sender's result ----

  /** The HTTP response: its status, its text, and its JSON body (`None` when the text is not JSON). */
  datatype Response = Response(status: int, text: string, json: Option<Json>)

  predicate Succeeded(r: Response) {
    200 <= r.status < 300 && r.json.Some?
  }

  /**
   * `raise_for_status()` then `resp.json()`: the decoded body on success;
   * otherwise `{"error": message, "text": text[:300]}`, where `message`
   * is the text of the exception raised.
   */
  function SendResult(r: Response, message: string): (out: Json)
    ensures Succeeded(r) ==> out == r.json.value
    ensures !Succeeded(r) ==> out.Obj? && out.fields.Keys == {"error", "text"} && out.fields["error"] == Str(message)
    ensures !Succeeded(r) ==> var t := out.fields["text"];
      && t.Str? && |t.s| <= MaxErrorText && t.s <= r.text
      && (|r.text| <= MaxErrorText ==> t.s == r.text)
      && (|r.text| > MaxErrorText ==> |t.s| == MaxErrorText)
  {
    if Succeeded(r) then r.json.value
    else Obj(map["error" := Str(message), "text" := Str(Prefix(r.text, MaxErrorText))])
  }

  /** A redirect or an error status is a failure even when its body is JSON. */
  lemma NonSuccessStatusFails(r: Response, message: string)
    requires !(200 <= r.status < 300)
    ensures SendResult(r, message) == Obj(map["error" := Str(message), "text" := Str(Prefix(r.text, MaxErrorText))])
  {
  }
}
