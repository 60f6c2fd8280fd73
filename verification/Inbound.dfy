/**
 * The inbound half of the two `POST /webhook` handlers: the walk
 * `entry -> changes -> value -> messages` over a decoded body, and what
 * each handler does with one message. Every outbound call is recorded as
 * an `Effect`; the answering function is an oracle argument.
 */
module Inbound {
  import opened Wrappers
  import opened PyStr
  import opened Json

  /** A call the handler makes, in the order it makes them. */
  datatype Effect =
    | MarkRead(messageId: Json)          // wa_mark_read(msg_id)
    | Typing(to: Json, state: string)    // wa_typing(user, state)
    | Ask(question: string)              // answer_with_rag(text)
    | Send(to: Json, body: string)       // send_whatsapp_text(to, body)

  /** The calls made so far and whether an exception escaped the walk. */
  datatype Run = Run(effects: seq<Effect>, raised: bool)

  const Done: Run := Run([], false)
  const Raise: Run := Run([], true)

  /** Run `a`, then `b` unless `a` raised. */
  function Then(a: Run, b: Run): Run
  {
    if a.raised then a else Run(a.effects + b.effects, b.raised)
  }

  /**
   * `answer_with_rag` as the second handler finds it: missing or not
   * callable (`Absent`), or a function whose `None` result stands for a
   * raised exception.
   */
  datatype Rag = Absent | Present(answer: string -> Option<string>)

  /** Which handler is walking: the settings-based one or the RAG one. */
  datatype Handler =
    | MainHandler(answer: string -> Option<string>)
    | RagHandler(rag: Rag)

  const ReplyPrefix: string := "Recibí tu mensaje: "
  const Composing: string := "composing"
  const Paused: string := "paused"

  /** `x.get(key, "").strip()`: raises unless `x` is a `dict` and the value a `str`; the result is trimmed. */
  function Field(x: Json, key: string): (r: Option<string>)
    ensures r.Some? <==> x.Obj? && Get(x.fields, key, Str("")).Str?
    ensures r.Some? ==> r.value == Strip(Get(x.fields, key, Str("")).s) && Strip(r.value) == r.value
  {
    match GetAny(x, key, Str(""))
    case None => None
    case Some(v) =>
      match v
      case Str(s) => StripIdempotent(s); Some(Strip(s))
      case _ => None
  }

  /**
   * The text the settings-based handler extracts from a message by its
   * `type`; `None` when the extraction raises.
   */
  function MainText(m: map<string, Json>): (t: Option<string>)
    ensures t.Some? ==> Strip(t.value) == t.value
    ensures Get(m, "type", Null) !in {Str("text"), Str("button"), Str("interactive")} ==> t == Some("")
  {
    var ty := Get(m, "type", Null);
    var r :=
      if ty == Str("text") then Field(OrEmpty(Get(m, "text", Null)), "body")
      else if ty == Str("button") then Field(OrEmpty(Get(m, "button", Null)), "text")
      else if ty == Str("interactive") then ReplyTitle(OrEmpty(Get(m, "interactive", Null)))
      else Some("");
    r
  }

  /** `x.get("button_reply", {}).get("title", "").strip()`. */
  function ReplyTitle(x: Json): (t: Option<string>)
    ensures !x.Obj? ==> t.None?
    ensures x.Obj? && "button_reply" !in x.fields ==> t == Some("")
    ensures t.Some? ==> Strip(t.value) == t.value
  {
    match GetAny(x, "button_reply", EmptyObj)
    case None => None
    case Some(reply) => Field(reply, "title")
  }

  /** The three message types are told apart by their type string. */
  lemma MainTextDispatch(m: map<string, Json>)
    ensures Get(m, "type", Null) == Str("interactive") ==> MainText(m) == ReplyTitle(OrEmpty(Get(m, "interactive", Null)))
  {
    assert |"interactive"| == 11 && |"text"| == 4 && |"button"| == 6;
  }

  /** A `"text"` message yields its stripped `text.body`. */
  lemma MainTextOfText(m: map<string, Json>, f: map<string, Json>, b: string)
    requires Get(m, "type", Null) == Str("text") && Get(m, "text", Null) == Obj(f) && Get(f, "body", Null) == Str(b)
    ensures MainText(m) == Some(Strip(b))
  {
    assert |"interactive"| == 11 && |"text"| == 4 && |"button"| == 6;
    assert OrEmpty(Obj(f)) == Obj(f);
  }

  /** A `"button"` message yields its stripped `button.text`. */
  lemma MainTextOfButton(m: map<string, Json>, f: map<string, Json>, b: string)
    requires Get(m, "type", Null) == Str("button") && Get(m, "button", Null) == Obj(f) && Get(f, "text", Null) == Str(b)
    ensures MainText(m) == Some(Strip(b))
  {
    assert |"interactive"| == 11 && |"text"| == 4 && |"button"| == 6;
    assert OrEmpty(Obj(f)) == Obj(f);
  }

  /**
   * An `"interactive"` message yields its stripped `button_reply.title`;
   * one without `button_reply` (a list reply) yields `""`, and a
   * `button_reply` of `null` raises.
   */
  lemma MainTextOfInteractive(m: map<string, Json>, i: map<string, Json>)
    requires Get(m, "type", Null) == Str("interactive") && Get(m, "interactive", Null) == Obj(i)
    ensures "button_reply" !in i ==> MainText(m) == Some("")
    ensures Get(i, "button_reply", EmptyObj) == Null ==> MainText(m) == None
    ensures forall br, x :: (Get(i, "button_reply", EmptyObj) == Obj(br) && Get(br, "title", Null) == Str(x)
                             ==> MainText(m) == Some(Strip(x)))
  {
    MainTextDispatch(m);
    assert OrEmpty(Obj(i)) == Obj(i);
  }

  /** A message whose type field is missing, or whose payload object is missing or empty, yields `""`. */
  lemma MainTextMissing(m: map<string, Json>)
    ensures "type" !in m ==> MainText(m) == Some("")
    ensures Get(m, "type", Null) == Str("text") && !Truthy(Get(m, "text", Null)) ==> MainText(m) == Some("")
    ensures Get(m, "type", Null) == Str("button") && !Truthy(Get(m, "button", Null)) ==> MainText(m) == Some("")
    ensures Get(m, "type", Null) == Str("interactive") && !Truthy(Get(m, "interactive", Null)) ==> MainText(m) == Some("")
  {
    MainTextDispatch(m);
  }

  /** A message the settings-based handler answers: a `dict` with a true `from` and non-empty extracted text. */
  predicate MainQualifies(msg: Json) {
    && msg.Obj?
    && MainText(msg.fields).Some?
    && MainText(msg.fields).value != []
    && Truthy(Get(msg.fields, "from", Null))
  }

  /** One message of the settings-based handler. */
  function MainMessage(answer: string -> Option<string>, msg: Json): (r: Run)
    ensures r.effects != [] <==> MainQualifies(msg)
    ensures MainQualifies(msg) ==>
      var t := MainText(msg.fields).value;
      r.effects[0] == Ask(t)
      && (r.raised <==> answer(t).None?)
      && (answer(t).Some? ==> r.effects == [Ask(t), Send(Get(msg.fields, "from", Null), answer(t).value)])
      && (answer(t).None? ==> r.effects == [Ask(t)])
    ensures !MainQualifies(msg) ==> (r.raised <==> !msg.Obj? || MainText(msg.fields).None?)
  {
    if !msg.Obj? then Raise
    else
      var from := Get(msg.fields, "from", Null);
      var text := MainText(msg.fields);
      if text.None? then Raise
      else if Truthy(from) && text.value != [] then
        var t := text.value;
        match answer(t)
        case None => Run([Ask(t)], true)
        case Some(reply) => Run([Ask(t), Send(from, reply)], false)
      else Done
  }

  /**
   * The RAG handler reads only `msg.text.body`, whatever the message type:
   * a missing or empty `text` object gives `""`, a `text` that is not a
   * `dict` or a `body` that is not a string raises.
   */
  function RagText(m: map<string, Json>): (t: Option<string>)
    ensures !Truthy(Get(m, "text", Null)) ==> t == Some("")
    ensures Truthy(Get(m, "text", Null)) && !Get(m, "text", Null).Obj? ==> t.None?
    ensures t.Some? ==> Strip(t.value) == t.value
  {
    Field(OrEmpty(Get(m, "text", Null)), "body")
  }

  /** The reply: the oracle's answer when it is present and returns, otherwise the echo fallback. */
  function RagReply(rag: Rag, text: string): (reply: string)
    ensures rag.Present? && rag.answer(text).Some? ==> reply == rag.answer(text).value
    ensures rag.Absent? || rag.answer(text).None? ==> reply == ReplyPrefix + text
  {
    match rag
    case Absent => ReplyPrefix + text
    case Present(f) =>
      match f(text)
      case Some(r) => r
      case None => ReplyPrefix + text
  }

  /** A message the RAG handler answers: a `dict` with a true `from` and a non-empty stripped `text.body`. */
  predicate RagQualifies(msg: Json) {
    && msg.Obj?
    && RagText(msg.fields).Some?
    && RagText(msg.fields).value != []
    && Truthy(Get(msg.fields, "from", Null))
  }

  /** The calls made for one answered message. */
  function RagBlock(rag: Rag, user: Json, id: Json, text: string): (b: seq<Effect>)
    ensures |b| >= 3
    ensures b[0] == MarkRead(id) <==> Truthy(id)
    ensures b[|b| - 2] == Typing(user, Paused)
    ensures b[|b| - 1] == Send(user, RagReply(rag, text))
  {
    (if Truthy(id) then [MarkRead(id)] else [])
    + [Typing(user, Composing)]
    + (if rag.Present? then [Ask(text)] else [])
    + [Typing(user, Paused), Send(user, RagReply(rag, text))]
  }

  /** One message of the RAG handler. */
  function RagMessage(rag: Rag, msg: Json): (r: Run)
    ensures r.raised <==> !msg.Obj? || RagText(msg.fields).None?
    ensures r.effects != [] <==> RagQualifies(msg)
    ensures RagQualifies(msg) ==>
      var user := Get(msg.fields, "from", Null);
      var id := Get(msg.fields, "id", Null);
      var t := RagText(msg.fields).value;
      r.effects == RagBlock(rag, user, id, t)
  {
    if !msg.Obj? then Raise
    else
      var user := Get(msg.fields, "from", Null);
      var id := Get(msg.fields, "id", Null);
      var text := RagText(msg.fields);
      if text.None? then Raise
      else if Truthy(user) && text.value != [] then Run(RagBlock(rag, user, id, text.value), false)
      else Done
  }

  function Handle(h: Handler, msg: Json): Run
  {
    match h
    case MainHandler(answer) => MainMessage(answer, msg)
    case RagHandler(rag) => RagMessage(rag, msg)
  }

  predicate Qualifies(h: Handler, msg: Json) {
    match h
    case MainHandler(_) => MainQualifies(msg)
    case RagHandler(_) => RagQualifies(msg)
  }

  // ---- The nested walk, level by level, as the handlers write it ----

  /** `for msg in messages: ...`, stopping at the first exception. */
  function WalkMessages(h: Handler, ms: seq<Json>): Run
  {
    if ms == [] then Done else Then(Handle(h, ms[0]), WalkMessages(h, ms[1..]))
  }

  /** `for m in value.get("messages", []): ...` */
  function WalkValue(h: Handler, value: Json): Run
  {
    match GetAny(value, "messages", Arr([]))
    case None => Raise
    case Some(ms) =>
      match Iterate(ms)
      case None => Raise
      case Some(xs) => WalkMessages(h, xs)
  }

  /** `value = change.get("value", {})` and its messages. */
  function WalkChange(h: Handler, change: Json): Run
  {
    match GetAny(change, "value", EmptyObj)
    case None => Raise
    case Some(v) => WalkValue(h, v)
  }

  function WalkChanges(h: Handler, cs: seq<Json>): Run
  {
    if cs == [] then Done else Then(WalkChange(h, cs[0]), WalkChanges(h, cs[1..]))
  }

  /** `for change in entry.get("changes", []): ...` */
  function WalkEntry(h: Handler, entry: Json): Run
  {
    match GetAny(entry, "changes", Arr([]))
    case None => Raise
    case Some(cs) =>
      match Iterate(cs)
      case None => Raise
      case Some(xs) => WalkChanges(h, xs)
  }

  function WalkEntries(h: Handler, es: seq<Json>): Run
  {
    if es == [] then Done else Then(WalkEntry(h, es[0]), WalkEntries(h, es[1..]))
  }

  /** `for entry in body.get("entry", []): ...` */
  function WalkBody(h: Handler, body: Json): Run
  {
    match GetAny(body, "entry", Arr([]))
    case None => Raise
    case Some(es) =>
      match Iterate(es)
      case None => Raise
      case Some(xs) => WalkEntries(h, xs)
  }

  // ---- The same traversal as a flat list of messages ----

  /** The messages the walk reaches, in order, and whether the structure itself raises after them. */
  datatype Flat = Flat(msgs: seq<Json>, malformed: bool)

  function Cat(a: Flat, b: Flat): Flat
  {
    if a.malformed then a else Flat(a.msgs + b.msgs, b.malformed)
  }

  function CollectValue(value: Json): Flat
  {
    match GetAny(value, "messages", Arr([]))
    case None => Flat([], true)
    case Some(ms) =>
      match Iterate(ms)
      case None => Flat([], true)
      case Some(xs) => Flat(xs, false)
  }

  function CollectChange(change: Json): Flat
  {
    match GetAny(change, "value", EmptyObj)
    case None => Flat([], true)
    case Some(v) => CollectValue(v)
  }

  function CollectChanges(cs: seq<Json>): Flat
  {
    if cs == [] then Flat([], false) else Cat(CollectChange(cs[0]), CollectChanges(cs[1..]))
  }

  function CollectEntry(entry: Json): Flat
  {
    match GetAny(entry, "changes", Arr([]))
    case None => Flat([], true)
    case Some(cs) =>
      match Iterate(cs)
      case None => Flat([], true)
      case Some(xs) => CollectChanges(xs)
  }

  function CollectEntries(es: seq<Json>): Flat
  {
    if es == [] then Flat([], false) else Cat(CollectEntry(es[0]), CollectEntries(es[1..]))
  }

  /** Every message of a well-formed body, in `entry -> change -> message` order. */
  function CollectBody(body: Json): Flat
  {
    match GetAny(body, "entry", Arr([]))
    case None => Flat([], true)
    case Some(es) =>
      match Iterate(es)
      case None => Flat([], true)
      case Some(xs) => CollectEntries(xs)
  }

  /** Handle the collected messages in order, then raise if the structure was malformed. */
  function Close(h: Handler, f: Flat): Run
  {
    Then(WalkMessages(h, f.msgs), Run([], f.malformed))
  }

  lemma ThenAssoc(a: Run, b: Run, c: Run)
    ensures Then(Then(a, b), c) == Then(a, Then(b, c))
  {
    if !a.raised && !b.raised {
      assert (a.effects + b.effects) + c.effects == a.effects + (b.effects + c.effects);
    }
  }

  lemma ThenDone(a: Run)
    ensures Then(a, Done) == a
  {
    assert a.effects + [] == a.effects;
  }

  /** Handling `xs + ys` is handling `xs`, then `ys` unless something raised. */
  lemma {:induction false} WalkMessagesAppend(h: Handler, xs: seq<Json>, ys: seq<Json>)
    ensures WalkMessages(h, xs + ys) == Then(WalkMessages(h, xs), WalkMessages(h, ys))
  {
    if xs == [] {
      assert xs + ys == ys;
    } else {
      assert (xs + ys)[1..] == xs[1..] + ys;
      WalkMessagesAppend(h, xs[1..], ys);
      ThenAssoc(Handle(h, xs[0]), WalkMessages(h, xs[1..]), WalkMessages(h, ys));
    }
  }

  lemma CatClose(h: Handler, a: Flat, b: Flat)
    ensures Close(h, Cat(a, b)) == Then(Close(h, a), Close(h, b))
  {
    if !a.malformed {
      WalkMessagesAppend(h, a.msgs, b.msgs);
      ThenDone(WalkMessages(h, a.msgs));
      ThenAssoc(WalkMessages(h, a.msgs), WalkMessages(h, b.msgs), Run([], b.malformed));
    }
  }

  lemma CloseLeaf(h: Handler, xs: seq<Json>)
    ensures Close(h, Flat([], true)) == Raise
    ensures Close(h, Flat([], false)) == Done
    ensures Close(h, Flat(xs, false)) == WalkMessages(h, xs)
  {
    ThenDone(WalkMessages(h, xs));
  }

  lemma ValueFlat(h: Handler, value: Json)
    ensures WalkValue(h, value) == Close(h, CollectValue(value))
  {
    match GetAny(value, "messages", Arr([]))
    case None => CloseLeaf(h, []);
    case Some(ms) =>
      match Iterate(ms)
      case None => CloseLeaf(h, []);
      case Some(xs) => CloseLeaf(h, xs);
  }

  lemma ChangeFlat(h: Handler, change: Json)
    ensures WalkChange(h, change) == Close(h, CollectChange(change))
  {
    CloseLeaf(h, []);
    match GetAny(change, "value", EmptyObj)
    case None =>
    case Some(v) => ValueFlat(h, v);
  }

  lemma {:induction false} ChangesFlat(h: Handler, cs: seq<Json>)
    ensures WalkChanges(h, cs) == Close(h, CollectChanges(cs))
  {
    CloseLeaf(h, []);
    if cs != [] {
      ChangeFlat(h, cs[0]);
      ChangesFlat(h, cs[1..]);
      CatClose(h, CollectChange(cs[0]), CollectChanges(cs[1..]));
    }
  }

  lemma EntryFlat(h: Handler, entry: Json)
    ensures WalkEntry(h, entry) == Close(h, CollectEntry(entry))
  {
    CloseLeaf(h, []);
    match GetAny(entry, "changes", Arr([]))
    case None =>
    case Some(cs) =>
      match Iterate(cs)
      case None =>
      case Some(xs) => ChangesFlat(h, xs);
  }

  lemma {:induction false} EntriesFlat(h: Handler, es: seq<Json>)
    ensures WalkEntries(h, es) == Close(h, CollectEntries(es))
  {
    CloseLeaf(h, []);
    if es != [] {
      EntryFlat(h, es[0]);
      EntriesFlat(h, es[1..]);
      CatClose(h, CollectEntry(es[0]), CollectEntries(es[1..]));
    }
  }

  /**
   * The nested walk is the flat one: handle every message of
   * `CollectBody(body)` in order, stopping at the first exception, and
   * raise afterwards if the structure was malformed. Missing keys count as
   * empty lists.
   */
  lemma WalkBodyFlat(h: Handler, body: Json)
    ensures WalkBody(h, body) == Close(h, CollectBody(body))
  {
    CloseLeaf(h, []);
    match GetAny(body, "entry", Arr([]))
    case None =>
    case Some(es) =>
      match Iterate(es)
      case None =>
      case Some(xs) => EntriesFlat(h, xs);
  }

  // ---- Traces ----

  /** `es` is a sequence of (question, reply) pairs, each reply the oracle's answer to its question. */
  predicate AskSendPairs(answer: string -> Option<string>, es: seq<Effect>)
    decreases |es|
  {
    es == []
    || (&& |es| >= 2 && es[0].Ask? && es[1].Send?
        && answer(es[0].question) == Some(es[1].body)
        && AskSendPairs(answer, es[2..]))
  }

  /**
   * The calls of the settings-based handler: complete pairs, except that a
   * raising oracle leaves a last question without its send.
   */
  predicate MainTrace(answer: string -> Option<string>, r: Run) {
    AskSendPairs(answer, r.effects)
    || (&& r.raised && r.effects != []
        && AskSendPairs(answer, r.effects[..|r.effects| - 1])
        && r.effects[|r.effects| - 1].Ask?
        && answer(r.effects[|r.effects| - 1].question).None?)
  }

  lemma {:induction false} AskSendAppend(answer: string -> Option<string>, xs: seq<Effect>, ys: seq<Effect>)
    requires AskSendPairs(answer, xs) && AskSendPairs(answer, ys)
    ensures AskSendPairs(answer, xs + ys)
    decreases |xs|
  {
    if xs == [] {
      assert xs + ys == ys;
    } else {
      var es := xs + ys;
      assert es[0] == xs[0] && es[1] == xs[1];
      assert es[2..] == xs[2..] + ys;
      AskSendAppend(answer, xs[2..], ys);
    }
  }

  lemma MainTraceThen(answer: string -> Option<string>, a: Run, b: Run)
    requires AskSendPairs(answer, a.effects) && MainTrace(answer, b)
    ensures MainTrace(answer, Run(a.effects + b.effects, b.raised))
  {
    var es := a.effects + b.effects;
    if AskSendPairs(answer, b.effects) {
      AskSendAppend(answer, a.effects, b.effects);
    } else {
      var n := |b.effects|;
      assert es[..|es| - 1] == a.effects + b.effects[..n - 1];
      AskSendAppend(answer, a.effects, b.effects[..n - 1]);
    }
  }

  /**
   * Whatever the messages, the settings-based handler's calls are
   * (question, reply) pairs with the reply the oracle's answer; a lone last
   * question appears only when the oracle raised on it; when nothing raised
   * every question has its send.
   */
  lemma {:induction false} MainMessagesTrace(answer: string -> Option<string>, ms: seq<Json>)
    ensures MainTrace(answer, WalkMessages(MainHandler(answer), ms))
    ensures !WalkMessages(MainHandler(answer), ms).raised ==>
      AskSendPairs(answer, WalkMessages(MainHandler(answer), ms).effects)
  {
    var h := MainHandler(answer);
    if ms != [] {
      var first := MainMessage(answer, ms[0]);
      var rest := WalkMessages(h, ms[1..]);
      MainMessagesTrace(answer, ms[1..]);
      MainMessageTrace(answer, ms[0]);
      assert WalkMessages(h, ms) == Then(first, rest);
      if !first.raised {
        MainTraceThen(answer, first, rest);
        if !rest.raised {
          AskSendAppend(answer, first.effects, rest.effects);
        }
      }
    }
  }

  /** One message: a complete pair, nothing, or a lone question the oracle raised on. */
  lemma MainMessageTrace(answer: string -> Option<string>, msg: Json)
    ensures var r := MainMessage(answer, msg);
      && MainTrace(answer, r)
      && (!r.raised ==> AskSendPairs(answer, r.effects))
  {
    if MainQualifies(msg) {
      var t := MainText(msg.fields).value;
      if answer(t).Some? {
        OnePair(answer, t, Get(msg.fields, "from", Null), answer(t).value);
      } else {
        LoneAsk(answer, t);
      }
    }
  }

  lemma OnePair(answer: string -> Option<string>, q: string, to: Json, body: string)
    requires answer(q) == Some(body)
    ensures AskSendPairs(answer, [Ask(q), Send(to, body)])
  {
    assert [Ask(q), Send(to, body)][2..] == [];
  }

  lemma LoneAsk(answer: string -> Option<string>, q: string)
    requires answer(q).None?
    ensures MainTrace(answer, Run([Ask(q)], true))
  {
    assert [Ask(q)][..0] == [];
  }

  /** The same for a whole body, whatever its shape. */
  lemma MainBodyTrace(answer: string -> Option<string>, body: Json)
    ensures MainTrace(answer, WalkBody(MainHandler(answer), body))
  {
    var h := MainHandler(answer);
    var f := CollectBody(body);
    WalkBodyFlat(h, body);
    MainMessagesTrace(answer, f.msgs);
    var w := WalkMessages(h, f.msgs);
    if !w.raised {
      assert w.effects + [] == w.effects;
    }
  }

  /**
   * One answered message's calls: optional mark-read of a true id, typing
   * "composing" to the sender, the oracle call when one is present, typing
   * "paused", then one send to the sender; the send carries the oracle's
   * answer for that question, or the echo fallback.
   */
  predicate IsRagBlock(rag: Rag, b: seq<Effect>) {
    && |b| >= 3
    && var a := if b[0].MarkRead? then 1 else 0;
    && (b[0].MarkRead? ==> Truthy(b[0].messageId))
    && |b| == a + (if rag.Present? then 4 else 3)
    && b[a].Typing? && b[a].state == Composing && Truthy(b[a].to)
    && b[|b| - 2] == Typing(b[a].to, Paused)
    && b[|b| - 1].Send? && b[|b| - 1].to == b[a].to
    && (rag.Present? ==>
          b[a + 1].Ask? && b[a + 1].question != [] && b[|b| - 1].body == RagReply(rag, b[a + 1].question))
    && (rag.Absent? ==>
          |b[|b| - 1].body| > |ReplyPrefix| && b[|b| - 1].body[..|ReplyPrefix|] == ReplyPrefix)
  }

  /** Length of the block starting at `es[0]`, read off its first call. */
  function BlockSize(rag: Rag, first: Effect): nat
  {
    (if first.MarkRead? then 1 else 0) + (if rag.Present? then 4 else 3)
  }

  /** `es` is a sequence of whole blocks. */
  predicate RagTrace(rag: Rag, es: seq<Effect>)
    decreases |es|
  {
    es == []
    || (var k := BlockSize(rag, es[0]);
        |es| >= k && IsRagBlock(rag, es[..k]) && RagTrace(rag, es[k..]))
  }

  lemma RagBlockShape(rag: Rag, user: Json, id: Json, t: string)
    requires Truthy(user) && t != []
    ensures var b := RagBlock(rag, user, id, t);
      && IsRagBlock(rag, b)
      && |b| == BlockSize(rag, b[0])
  {
    var b := RagBlock(rag, user, id, t);
    var a := if Truthy(id) then 1 else 0;
    assert b[0].MarkRead? <==> Truthy(id);
    assert b[a] == Typing(user, Composing);
    if rag.Present? {
      assert b[a + 1] == Ask(t);
    } else {
      var reply := ReplyPrefix + t;
      assert reply[..|ReplyPrefix|] == ReplyPrefix;
    }
  }

  lemma RagTraceCons(rag: Rag, b: seq<Effect>, rest: seq<Effect>)
    requires b != [] && |b| == BlockSize(rag, b[0]) && IsRagBlock(rag, b) && RagTrace(rag, rest)
    ensures RagTrace(rag, b + rest)
  {
    var es := b + rest;
    assert es[0] == b[0];
    assert es[..|b|] == b;
    assert es[|b|..] == rest;
  }

  /** Running nothing or one whole block before whole blocks gives whole blocks. */
  lemma RagTraceThen(rag: Rag, a: Run, b: Run)
    requires a.effects == [] || (|a.effects| == BlockSize(rag, a.effects[0]) && IsRagBlock(rag, a.effects))
    requires RagTrace(rag, b.effects)
    ensures RagTrace(rag, Then(a, b).effects)
  {
    if !a.raised {
      if a.effects != [] {
        RagTraceCons(rag, a.effects, b.effects);
      } else {
        assert a.effects + b.effects == b.effects;
      }
    } else if a.effects != [] {
      assert a.effects + [] == a.effects;
      RagTraceCons(rag, a.effects, []);
    }
  }

  /** Whatever the messages, the RAG handler's calls are whole blocks: an exception never cuts one short. */
  lemma {:induction false} RagMessagesTrace(rag: Rag, ms: seq<Json>)
    ensures RagTrace(rag, WalkMessages(RagHandler(rag), ms).effects)
  {
    if ms != [] {
      var h := RagHandler(rag);
      RagMessagesTrace(rag, ms[1..]);
      RagMessageBlock(rag, ms[0]);
      assert Handle(h, ms[0]) == RagMessage(rag, ms[0]);
      RagTraceThen(rag, Handle(h, ms[0]), WalkMessages(h, ms[1..]));
    }
  }

  /** One message: nothing, or one whole block. */
  lemma RagMessageBlock(rag: Rag, msg: Json)
    ensures var es := RagMessage(rag, msg).effects;
      es == [] || (|es| == BlockSize(rag, es[0]) && IsRagBlock(rag, es))
  {
    if RagQualifies(msg) {
      var m := msg.fields;
      RagBlockShape(rag, Get(m, "from", Null), Get(m, "id", Null), RagText(m).value);
    }
  }

  lemma RagBodyTrace(rag: Rag, body: Json)
    ensures RagTrace(rag, WalkBody(RagHandler(rag), body).effects)
  {
    var h := RagHandler(rag);
    var f := CollectBody(body);
    WalkBodyFlat(h, body);
    RagMessagesTrace(rag, f.msgs);
    var w := WalkMessages(h, f.msgs);
    if !w.raised {
      assert w.effects + [] == w.effects;
    }
  }

  // ---- Sends against qualifying messages ----

  function CountSends(es: seq<Effect>): nat
  {
    if es == [] then 0 else (if es[0].Send? then 1 else 0) + CountSends(es[1..])
  }

  function CountQualifying(h: Handler, ms: seq<Json>): nat
  {
    if ms == [] then 0 else (if Qualifies(h, ms[0]) then 1 else 0) + CountQualifying(h, ms[1..])
  }

  lemma {:induction false} CountSendsAppend(xs: seq<Effect>, ys: seq<Effect>)
    ensures CountSends(xs + ys) == CountSends(xs) + CountSends(ys)
  {
    if xs == [] {
      assert xs + ys == ys;
    } else {
      assert (xs + ys)[0] == xs[0];
      assert (xs + ys)[1..] == xs[1..] + ys;
      CountSendsAppend(xs[1..], ys);
    }
  }

  lemma {:induction false} NoSends(es: seq<Effect>)
    requires forall i :: 0 <= i < |es| ==> !es[i].Send?
    ensures CountSends(es) == 0
  {
    if es != [] {
      NoSends(es[1..]);
    }
  }

  /** An answered message of the RAG handler makes exactly one send. */
  lemma RagBlockSends(rag: Rag, user: Json, id: Json, t: string)
    ensures CountSends(RagBlock(rag, user, id, t)) == 1
  {
    var marks: seq<Effect> := if Truthy(id) then [MarkRead(id)] else [];
    var asks: seq<Effect> := if rag.Present? then [Ask(t)] else [];
    var pre := marks + [Typing(user, Composing)] + asks;
    var tail: seq<Effect> := [Typing(user, Paused), Send(user, RagReply(rag, t))];
    assert RagBlock(rag, user, id, t) == pre + tail;
    CountSendsAppend(pre, tail);
    NoSends(pre);
    assert tail[1..] == [Send(user, RagReply(rag, t))];
    assert tail[1..][1..] == [];
    assert CountSends(tail[1..]) == 1;
  }

  lemma MainMessageSends(answer: string -> Option<string>, msg: Json)
    requires !MainMessage(answer, msg).raised
    ensures CountSends(MainMessage(answer, msg).effects) == if MainQualifies(msg) then 1 else 0
  {
    var r := MainMessage(answer, msg);
    if MainQualifies(msg) {
      var t := MainText(msg.fields).value;
      assert answer(t).Some?;
      AskSendCount(t, Get(msg.fields, "from", Null), answer(t).value);
    } else {
      assert r.effects == [];
    }
  }

  lemma AskSendCount(q: string, to: Json, body: string)
    ensures CountSends([Ask(q), Send(to, body)]) == 1
  {
    var es := [Ask(q), Send(to, body)];
    assert es[1..] == [Send(to, body)];
    assert es[1..][1..] == [];
    assert CountSends(es[1..]) == 1;
  }

  lemma RagMessageSends(rag: Rag, msg: Json)
    requires !RagMessage(rag, msg).raised
    ensures CountSends(RagMessage(rag, msg).effects) == if RagQualifies(msg) then 1 else 0
  {
    if RagQualifies(msg) {
      var m := msg.fields;
      RagBlockSends(rag, Get(m, "from", Null), Get(m, "id", Null), RagText(m).value);
    }
  }

  lemma HandleSends(h: Handler, msg: Json)
    requires !Handle(h, msg).raised
    ensures CountSends(Handle(h, msg).effects) == if Qualifies(h, msg) then 1 else 0
  {
    match h
    case MainHandler(answer) => MainMessageSends(answer, msg);
    case RagHandler(rag) => RagMessageSends(rag, msg);
  }

  /**
   * When no exception escapes, there is exactly one send per qualifying
   * message: a true `from` and non-empty extracted text.
   */
  lemma {:induction false} SendsMatchQualifying(h: Handler, ms: seq<Json>)
    requires !WalkMessages(h, ms).raised
    ensures CountSends(WalkMessages(h, ms).effects) == CountQualifying(h, ms)
  {
    if ms != [] {
      var first := Handle(h, ms[0]);
      var rest := WalkMessages(h, ms[1..]);
      HandleSends(h, ms[0]);
      SendsMatchQualifying(h, ms[1..]);
      CountSendsAppend(first.effects, rest.effects);
    }
  }
}
