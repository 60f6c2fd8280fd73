# WhatsApp RAG chatbot — a Dafny model of its core

The chatbot answers WhatsApp messages from a document collection. This project models the parts of it that are plain logic. Each part is written as pure functions over immutable data, and the properties are proved about those functions.

- **Ingestion text pipeline** (`ingest/ingest_ccp.py`):
  - `normalize_text` cleans extracted text.
  - `word_chunks` cuts it into overlapping windows of whitespace-delimited words.
  - `build_chunks` flattens every document's chunks into three parallel lists: texts, metadata records and ids `ccp_<n>`.
  - Python's `str.isspace`, `strip()`, `split()`, `" ".join`, slicing and `f"{n}"` are modelled concretely in `PyStr`. The model does not take them as abstract.
- **Webhook verification handshake** (`GET /webhook`), in both handler variants:
  - the settings-based one in `app/main.py`;
  - the environment-based one in `app/rag.py`.
- **Inbound message walk** (`POST /webhook`) of both handlers:
  - The decoded body is a small `Json` datatype.
  - The walk `entry -> changes -> value -> messages` records every outbound call as an `Effect`, in order.
  - An exception is a `raised` flag that stops the walk.
  - The answering function `answer_with_rag` is an oracle argument. It returns `None` where the real one would raise.
  - Python's dynamic behaviour is modelled where the walk depends on it:
    - `dict.get` on a non-dict raises;
    - `(x or {})`;
    - iterating an empty string or dict visits nothing;
    - `.strip()` on a non-string raises.
- **Outbound requests** (`app/whatsapp.py` and its copy in `app/rag.py`):
  - the Graph API URL;
  - the headers;
  - the text, mark-read and typing payloads, with the 4096-character body cut;
  - the result dictionary of the settings-based sender.

Modules:

| file | module | models |
|---|---|---|
| Wrappers.dfy | Wrappers | `Option` |
| PyStr.dfy | PyStr | the Python string operations |
| Normalize.dfy | Normalize | `normalize_text` |
| Arith.dfy | Arith | ceiling division and multiples, defined recursively and tied to `/` and `*` |
| Chunking.dfy | Chunking | `word_chunks` |
| Ingest.dfy | Ingest | `build_chunks` |
| Json.dfy | Json | decoded JSON and the Python operations the handlers apply to it |
| Environment.dfy | Environment | environment/query lookups, `x or y`, f-string formatting of `None` |
| Handshake.dfy | Handshake | both `GET /webhook` handlers |
| Inbound.dfy | Inbound | the message walk and per-message effects of both `POST /webhook` handlers |
| Webhooks.dfy | Webhooks | both `POST /webhook` handlers end to end, with the response status |
| Outbound.dfy | Outbound | Graph API requests and the sender's result |

## Model

| member | source | states |
|---|---|---|
| PyStr.Strip | ingest/ingest_ccp.py:54 | `strip()` removes a whitespace prefix and a whitespace suffix and nothing else; neither end of the result is whitespace; the result is empty exactly when the input is all whitespace |
| PyStr.StripIdempotent | ingest/ingest_ccp.py:54 | stripping twice is stripping once |
| PyStr.Split | ingest/ingest_ccp.py:61 | `split()` yields only non-empty, whitespace-free words, and no words exactly when the text is all whitespace |
| PyStr.SplitJoin | ingest/ingest_ccp.py:70 | `" ".join` of a list of words splits back into exactly that list |
| PyStr.Prefix | app/whatsapp.py:18 | `s[:k]` is a prefix of `s` of length at most `k`, and all of `s` when `s` is no longer than `k` |
| PyStr.SplitConcat | ingest/ingest_ccp.py:61 | `split()` distributes over concatenation when the seam falls next to whitespace: the words of `x + y` are the words of `x` followed by those of `y` |
| PyStr.SplitStrip | ingest/ingest_ccp.py:54-61 | `strip()` never changes the words `split()` finds |
| PyStr.DecimalRoundTrip | ingest/ingest_ccp.py:205 | the decimal digits of `n` read back as `n` |
| PyStr.DecimalInjective | ingest/ingest_ccp.py:205 | distinct numbers format to distinct digit strings |
| Normalize.ReplaceNul | ingest/ingest_ccp.py:51 | same length; each NUL becomes a space and every other character stays in place |
| Normalize.RemoveZeroWidth | ingest/ingest_ccp.py:52 | no U+200B remains, every other character of the input remains, nothing new appears, text without U+200B is unchanged, and the result is shorter by exactly the number of U+200B in the input |
| Normalize.RemoveZeroWidthConcat | ingest/ingest_ccp.py:52 | removal distributes over concatenation: with `RemoveZeroWidthChar` this fixes the order and multiplicity of what remains |
| Normalize.RemoveZeroWidthChar | ingest/ingest_ccp.py:52 | a single character is removed when it is U+200B and kept otherwise |
| Normalize.CollapseHorizontal | ingest/ingest_ccp.py:48-53 | runs of space, tab, CR, FF and VT become one space: the result is empty only for empty input, its first and last characters correspond to the input's, it holds no horizontal whitespace but spaces, no two spaces in a row, and no character that was not in the input |
| Normalize.CollapseConcat | ingest/ingest_ccp.py:53 | collapsing distributes over concatenation when the seam is not inside a run of horizontal whitespace |
| Normalize.CollapseRun | ingest/ingest_ccp.py:48-53 | a non-empty run made only of space, tab, CR, FF and VT collapses to exactly one space |
| Normalize.SplitCollapse | ingest/ingest_ccp.py:53 | collapsing never changes the words `split()` finds |
| Normalize.NormalizeText | ingest/ingest_ccp.py:50-54 | the output of `normalize_text` holds no NUL, no U+200B, no tab, CR, FF or VT, never two consecutive spaces, and no whitespace at either end; and it has exactly the words of the input with NULs made spaces and U+200B removed |
| Normalize.CollapseKeepsVisible | ingest/ingest_ccp.py:53 | collapsing keeps every character other than horizontal whitespace (newlines included) in order |
| Normalize.CollapseStripCommute | ingest/ingest_ccp.py:53-54 | collapsing then stripping gives the same text as stripping then collapsing, for every input |
| Normalize.NormalizeKeepsVisible | ingest/ingest_ccp.py:50-54 | for every input, normalisation changes only horizontal whitespace and the whitespace at either end: every other character of the stripped NUL/U+200B-cleaned text, interior newlines included, survives in order, and all of the cleaned text's when it has no whitespace at either end |
| Normalize.CollapseFixed | ingest/ingest_ccp.py:53 | text that already has single spaces only is left unchanged |
| Normalize.NormalizeIdempotent | ingest/ingest_ccp.py:50-54 | normalising twice is normalising once |
| Arith.CeilDivIsQuotient | ingest/ingest_ccp.py:66 | the number of values `range(0, n, s)` visits is `(n + s - 1) / s`, i.e. `ceil(n / s)` |
| Arith.MultipleIsProduct | ingest/ingest_ccp.py:66 | the `k`-th value `range(0, n, s)` visits is `k * s` |
| Chunking.Stride | ingest/ingest_ccp.py:65 | the step is `chunk_size - chunk_overlap` when that is at least 1 and 1 otherwise: the larger of the two |
| Chunking.ChunksFromCount | ingest/ingest_ccp.py:66-71 | the loop from `start` produces `ceil((n - start) / s)` chunks for `chunk_size >= 1` |
| Chunking.ChunksFromAt | ingest/ingest_ccp.py:66-71 | chunk `k` of the loop from `start` is the joined window starting `k` strides after `start` |
| Chunking.WordChunks | ingest/ingest_ccp.py:56-72 | there are never more chunks than words |
| Chunking.WordChunksCount | ingest/ingest_ccp.py:61-71 | for `chunk_size >= 1` there are exactly `ceil(n / s)` chunks of `n` words |
| Chunking.WordChunkAt | ingest/ingest_ccp.py:65-70 | chunk `k` is `words[k*s .. min(k*s + chunk_size, n))` joined by single spaces |
| Chunking.WordChunksShape | ingest/ingest_ccp.py:61-71 | count and content together: `word_chunks` is the closed-form chunking of the text's words |
| Chunking.WindowWords | ingest/ingest_ccp.py:67-70 | each window holds between 1 and `chunk_size` words, and splitting its chunk gives exactly those words |
| Chunking.ChunkWordCount | ingest/ingest_ccp.py:65-70 | every chunk holds between 1 and `chunk_size` words |
| Chunking.WordChunksEmpty | ingest/ingest_ccp.py:61-63 | the result is empty exactly when the text has no words or the first slice is empty; for `chunk_size >= 1` exactly when the text is all whitespace; for `chunk_size == 0` always |
| Chunking.WordChunksCover | ingest/ingest_ccp.py:65-67 | with `0 <= chunk_overlap < chunk_size` the last window ends at the last word and every word lies in some window, word `j` in window `j / s` |
| Chunking.WordChunksOverlap | ingest/ingest_ccp.py:65-67 | with `0 <= chunk_overlap < chunk_size` the windows of consecutive chunks start `s` apart and the last `min(chunk_overlap, m)` words of chunk `k`, with `m` the next chunk's word count, are chunk `k + 1`'s first |
| Chunking.WordChunksClamped | ingest/ingest_ccp.py:65 | `chunk_overlap >= chunk_size` is not rejected: the stride is 1, there is one chunk per word, and chunk `k` starts at word `k` |
| Ingest.StampAll | ingest/ingest_ccp.py:199-201 | one metadata record per chunk, each the base record with `chunk_size` set |
| Ingest.BuildFromDocs | ingest/ingest_ccp.py:197-203 | `docs` is the concatenation of every document's chunks in input order |
| Ingest.BuildFromMetas | ingest/ingest_ccp.py:197-204 | `metas` is the concatenation of every document's stamped records in input order |
| Ingest.BuildFromIds | ingest/ingest_ccp.py:196-206 | from counter `idx`, the ids are `ccp_<idx>`, `ccp_<idx+1>`, … one per chunk |
| Ingest.BuildChunks | ingest/ingest_ccp.py:192-207 | the three lists have one length and the id at position `k` is `ccp_<k>` |
| Ingest.BuildChunksLists | ingest/ingest_ccp.py:193-207 | the three lists have one length `N`, the total chunk count; `docs` is the in-order concatenation of the chunks; the ids are `ccp_0 … ccp_<N-1>` in order and pairwise distinct |
| Ingest.BuildChunksPlace | ingest/ingest_ccp.py:198-202 | chunk `j` of document `i` sits at position `Offset(i) + j` of `docs` |
| Ingest.BuildChunksMeta | ingest/ingest_ccp.py:199-203 | the record at that position is document `i`'s base metadata with `chunk_size` set to the chunk's word count |
| Ingest.StampFields | ingest/ingest_ccp.py:200-201 | the stamped record keeps every other base key with its value and has `chunk_size` set, nothing else |
| Ingest.ChunkIdInjective | ingest/ingest_ccp.py:205 | distinct counters give distinct ids |
| Json.Iterate | app/main.py:24-27 | a `for` loop whose body calls `.get` visits a list's elements, nothing for an empty string or dict, and raises for anything else |
| Handshake.Verify | app/main.py:16-19 | status 200 with the challenge exactly when the mode is `subscribe` and the token equals the configured one; otherwise 403 `forbidden` |
| Handshake.VerifyUnsetRejects | app/main.py:17-19 | with no configured token every request is refused |
| Handshake.VerifyEchoesEmpty | app/main.py:16-18 | an empty challenge is echoed too: there is no non-empty check |
| Handshake.VerifyQueryRefusesHub | app/main.py:15-19 | the handler reads parameters `mode`, `token`, `challenge`; a query without `mode`, including the platform's `hub.*` subscription request, is refused even with the right token |
| Handshake.VerifyHubQueryAccepts | app/main.py:15-19 | reading the `hub.*` parameters instead, the platform's request gets its challenge back exactly when its token is the configured one |
| Handshake.ConfiguredToken | app/rag.py:28 | the configured token is trimmed |
| Handshake.ConfiguredTokenChoice | app/rag.py:28 | `WA_VERIFY_TOKEN` wins when non-empty, then `WHATSAPP_VERIFY_TOKEN`, else the token is `""` |
| Handshake.VerifyWebhook | app/rag.py:34-41 | status 200 with the challenge exactly when the mode is `subscribe`, the stripped token equals the configured one, and the challenge is non-empty; otherwise 403 `forbidden` |
| Handshake.VerifyWebhookIgnoresPadding | app/rag.py:28-39 | for every query and environment, whitespace around the query's `hub.verify_token`, or around a non-empty `WA_VERIFY_TOKEN` or `WHATSAPP_VERIFY_TOKEN` value, does not change the answer |
| Handshake.VerifyWebhookUnsetAcceptsBlank | app/rag.py:28-39 | with neither token variable set, a subscribe request with an absent or all-whitespace token and a non-empty challenge is accepted |
| Inbound.Field | app/main.py:31 | `x.get(key, "").strip()` succeeds exactly on a dict whose value is a string, and yields that string trimmed |
| Inbound.MainText | app/main.py:28-37 | the extracted text is trimmed, and `""` for any type other than text, button and interactive |
| Inbound.MainTextOfText | app/main.py:30-31 | a text message yields its stripped `text.body` |
| Inbound.MainTextOfButton | app/main.py:32-33 | a button message yields its stripped `button.text` |
| Inbound.MainTextOfInteractive | app/main.py:34-35 | an interactive message yields its stripped `button_reply.title`; a list reply yields `""`; a `null` `button_reply` raises |
| Inbound.ReplyTitle | app/main.py:35 | a non-dict `interactive` raises; one without `button_reply` yields `""`; a title is always trimmed |
| Inbound.MainTextMissing | app/main.py:28-37 | a missing type, or a missing or empty `text`, `button` or `interactive` object for its type, yields `""` |
| Inbound.MainMessage | app/main.py:28-41 | a message makes calls exactly when it is a dict with a true `from` and non-empty text; then it asks once and sends the answer to `from`, or raises after asking when the answer raises; otherwise it raises exactly when the message is not a dict or extraction raises |
| Inbound.RagReply | app/rag.py:102-112 | the reply is the answer when the function is present and returns, else `Recibí tu mensaje: ` followed by the text |
| Inbound.RagText | app/rag.py:94 | a missing or empty `text` yields `""`, a `text` that is not a dict raises, and a result is always trimmed |
| Inbound.RagBlock | app/rag.py:97-115 | an answered message's calls: mark-read first exactly when the id is true, typing `paused` second to last, the send of the reply last |
| Inbound.RagMessage | app/rag.py:92-115 | a message raises exactly when it is not a dict or its `text.body` is not a string; it makes calls exactly when `from` is true and the text non-empty, and then makes exactly one block |
| Inbound.WalkBodyFlat | app/main.py:24-27 | walking the nested lists is walking the flat list of their messages in entry, change, message order, stopped by the first malformed level |
| Inbound.MainBodyTrace | app/main.py:24-41 | the settings-based handler's calls are answer/send pairs, each send carrying the answer to its question, except that a raising answer ends the run with a lone question |
| Inbound.RagBodyTrace | app/rag.py:87-118 | the RAG handler's calls are whole blocks (mark-read if id, typing `composing`, answer if present, typing `paused`, send); an exception never cuts a block short |
| Inbound.SendsMatchQualifying | app/main.py:39-41 | when no exception escapes, there is exactly one send per qualifying message |
| Webhooks.WalkMessagesRaised | app/main.py:27-41 | the walk over messages raises exactly when some message raises on its own |
| Webhooks.AnyRaisesSome | app/main.py:27-41 | "some message raises" is an index whose message raises |
| Webhooks.WalkBodyRaised | app/main.py:24-41 | the walk of a body raises exactly when it is malformed or a message raises |
| Webhooks.MainWebhook | app/main.py:21-43 | a body that does not decode gives 500 with no calls; otherwise the calls are the walk's |
| Webhooks.MainWebhookStatus | app/main.py:21-43 | the answer is `{"status": "ok"}` exactly when the body decodes and is walked to the end, and then there is one send per qualifying message |
| Webhooks.MainWebhookBadEntry | app/main.py:24-25 | any dict body whose `entry` is a non-empty list starting with a non-dict raises, giving 500 with no calls |
| Webhooks.RagWebhook | app/rag.py:75-120 | an empty body gives 200 with no calls; a JSON body gives 200 and the walk's calls |
| Webhooks.RagWebhookStatus | app/rag.py:79-83 | as written, the answer is 500 exactly for a non-empty body that is not valid text |
| Webhooks.RagWebhookInvalidUtf8 | app/rag.py:79-83 | the one-byte body `0xFF` is answered with 500 |
| Webhooks.RagWebhookFixed | app/rag.py:75-120 | with both decoding errors caught, the answer is always `{"status": "ok"}` and an undecodable body makes no calls |
| Webhooks.RagWebhookFixedAgrees | app/rag.py:75-120 | the corrected handler agrees with the written one wherever that answers 200, and its calls are whole blocks |
| Webhooks.RagWebhookSends | app/rag.py:75-120 | as written, a non-empty body that decodes to JSON is answered with 200 whatever the walk does, and when walked to the end it makes one send per qualifying message |
| Outbound.EnvSenderChoice | app/rag.py:29-31 | the version is `WA_API_VERSION` whenever it is set, even empty, else `v21.0`; the phone id and token are the `WA_` variable when set and non-empty, else the `WHATSAPP_` one as it is (possibly empty), else unset |
| Outbound.MessagesUrl | app/whatsapp.py:5-9 | the URL is the Graph host, then `<ver>/<phone_id>`, then `/messages`, with an unset phone id formatted as `None` |
| Outbound.MessagesUrlRoundTrip | app/whatsapp.py:5-9 | the URL `https://graph.facebook.com/<ver>/<phone_id>/messages` reads back into the version and phone id when the version has no `/` |
| Outbound.MessagesUrlInjective | app/whatsapp.py:5-9 | senders with different version or phone id post to different URLs |
| Outbound.Headers | app/whatsapp.py:10-13 | exactly two headers: `Authorization` is `Bearer ` followed by the token (or `None`), `Content-Type` is `application/json` |
| Outbound.TextPayload | app/whatsapp.py:14-19 | the payload has exactly the fields `messaging_product = "whatsapp"`, `to` unchanged, `type = "text"`, and `text` with `preview_url = false` and a body that is a prefix of the reply, at most 4096 characters long, and the whole reply when it fits |
| Outbound.TextPayloadRoundTrip | app/whatsapp.py:14-19 | reading a built payload back gives the recipient and the cut body, the whole body when it fits |
| Outbound.ReadTextPayloadSound | app/whatsapp.py:14-19 | every payload of that shape is the one built from what it reads back to |
| Outbound.MarkReadPayload | app/rag.py:58-63 | the mark-read payload has exactly `messaging_product = "whatsapp"`, `status = "read"` and the message id |
| Outbound.TypingPayload | app/rag.py:65-70 | the typing payload has exactly `messaging_product = "whatsapp"`, the recipient, `type = "typing"` and the state |
| Outbound.EffectRequest | app/rag.py:44-70 | every call but the answer posts to the sender's messages URL with its headers; a send posts the cut reply to its recipient |
| Outbound.RequestRoundTrip | app/rag.py:44-70 | each mark-read, typing or send post reads back as exactly the call that made it, a send's reply cut to 4096 characters |
| Outbound.RequestsReadBack | app/rag.py:44-70 | the posts of a run read back, in order and one for one, as the run's calls other than the answer call, replies cut to 4096 characters |
| Outbound.RequestsShareEndpoint | app/rag.py:44-70 | all posts of a run go to one URL with one set of headers |
| Outbound.SendResult | app/whatsapp.py:20-25 | a 2xx response with a JSON body gives that body; anything else gives `{"error", "text"}` with a text that is a prefix of the response text, all of it when it fits in 300 characters and exactly its first 300 otherwise |
| Outbound.NonSuccessStatusFails | app/whatsapp.py:21-25 | a non-2xx status is a failure even with a JSON body |

## Left out

- File reading and format extraction (`read_pdf`, `read_txt`, `read_html`, `load_documents`, `READERS`): filesystem, PDF and HTML library calls.
- Embeddings (`embed_hf`, `embed_local`, `compute_embeddings`, the provider's `hf_embed`), mean pooling and cosine similarity: remote services and floating-point numerics.
- `groq_chat`, the HTTP helpers, the Chroma client and the ingestion script's add/delete/retry block: network only.
- Loading settings from the environment by the settings library: the settings are the `Sender` record and the configured verify token is an argument.
- The interactive validation REPL: it reads from the terminal.
- The HTTP posts themselves: they are recorded as `Effect` values and turned into `Request` values. A post that fails in transport is not modelled. In the handlers such a failure would raise mid-walk.
- `str(e)`, the text of the exception in the sender's error result: it is an argument.
- Decoding the request body: it is an argument. The settings-based handler gets `None` when the body is empty, not JSON or not UTF-8. The RAG handler gets a `Decoded` value that separates the two exceptions `json.loads` can raise.
- JSON floating-point numbers: `Num` holds integers only. The handlers only test numbers for truthiness, so this changes nothing they do.
- Repeated query parameters: a query is a map with one value per name.
- Inbound.Rag: the answering function is an oracle that returns a string or raises. A non-string return value is not modelled. Nor is whether repeated calls with the same question agree.
- Inbound.RagReply: in the repository as shipped, `app/rag.py` imports itself looking for `answer_with_rag`. It defines no such function, so the oracle is always `Absent` there. The model keeps `Present` for a deployment that supplies one.
- `app/main.py` imports `answer_with_rag` from `app/rag.py`, which does not define it, so that module fails at import. The model treats the name as the oracle argument.
- Webhooks.MainWebhook: the settings-based handler is modelled as written. Any exception answers 500 and does not answer `{"status": "ok"}`. The unconditional `{"status": "ok"}` holds only for a body walked to the end, which `MainWebhookStatus` states.
- Outbound.SendResult: `raise_for_status` is taken to raise for every non-2xx status, which is the behaviour of current `httpx`.
- The RAG sender's return value `{"status", "text"}` is not modelled: both handlers discard it.

## Findings

| source | as written | input that shows it | evidently intended | confidence | as-written member | corrected member |
|---|---|---|---|---|---|---|
| app/main.py:16 | the verification handler reads query parameters named `mode`, `token` and `challenge` | the platform's subscription request `?hub.mode=subscribe&hub.verify_token=T&hub.challenge=C` with `T` the configured token gets 403 | read `hub.mode`, `hub.verify_token` and `hub.challenge`, as the other handler does | medium, not executed | Handshake.VerifyQueryRefusesHub | Handshake.VerifyHubQueryAccepts |
| app/rag.py:81 | only `json.JSONDecodeError` is caught around `json.loads(raw)` | the one-byte body `b"\xff"` makes `json.loads` raise `UnicodeDecodeError`, which escapes and answers 500 | acknowledge every undecodable body with `{"status": "ok"}`, as the non-JSON branch does | medium, not executed | Webhooks.RagWebhookInvalidUtf8 | Webhooks.RagWebhookFixed |
