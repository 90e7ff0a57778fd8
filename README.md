# Kharchaa bot: a Dafny model of the WhatsApp expense pipeline

The bot is one Python file, `main.py`. A WhatsApp webhook delivers each user message to
`receive_message`. The handler walks the nested payload to the first message. It asks Gemini
to extract `amount`, `merchant` and `category` from the text, stores the result as a row of
the Supabase table `expenses`, and sends the user a confirmation. Every exception is caught,
and the handler always answers `"OK"`. A second endpoint, `verify_webhook`, answers the
provider's verification handshake.

The model has one Dafny module per concern:

- `PyStr`: Python's `str.isspace`, `lstrip`/`rstrip`/`strip`, `in` on strings, and
  `str.replace`.
- `PyInt`: `str(n)` and `int(s)` for integers.
- `PyValue`: the JSON values that `request.json()` and `json.loads` produce. It also holds
  the Python operations the handler applies to them: `dict.get`, `[0]`, `['key']`, `in`,
  truthiness and `str()`. An operation that raises yields `None`.
- `Cleanup`: the cleanup of the model's reply at main.py line 75.
- `Reply`: the confirmation template at line 89, and a parser that reads it back.
- `Webhook`: the `verify_webhook` decision.
- `Pipeline`: `receive_message` itself.
  - `Pipeline.Handle` is a declarative specification: the outcome of a call, and the trace of
    the calls it makes to the outside world (`Extract`, `Insert`, `Send`).
  - `Pipeline.ReceiveMessage` is the imperative handler, with the same early returns as the
    Python. It is proved to produce exactly that run and to answer `"OK"`.
  - `PipelineProps` states what a run does and does not do.

The collaborators are inputs:
- the decoded request body (`None` when it is not JSON);
- the model's reply text (`None` when the Gemini call or `.text` raises);
- `json.loads` as a function of the cleaned text (`None` for a decoding error);
- whether the insert succeeds;
- whether the send succeeds.

The model follows the code as written, including these points:

- The comment at main.py line 48 says the handler checks that the call carries a user's
  message. Only the `'messages' in value` test at line 53 skips quietly. A payload with no
  `entry`, or with an empty `entry` or `changes` list, makes `[0]` raise `IndexError`, which
  the catch-all at line 96 logs. The model's outcome is `Failed(BadPayload)`. No call is made
  and the answer is still `"OK"`.
- The prompt at line 71 tells the model to answer `{"error": "not_transaction"}` for a
  message that is not a transaction. The test at line 78 is Python's `in`, which accepts
  more than that object. It skips any decoded value that contains `"error"`: a dict with
  that key, a list holding that string, or a string containing it.
- The category is stored as the model returned it. It is not checked against the five names
  the prompt lists at line 69.
- With a matching token, a missing or non-integer `hub.challenge` makes `int()` raise
  outside any `try`, which gives a server error rather than a refusal.
- An unset `VERIFY_TOKEN` matches a request that sends no `hub.verify_token`.

## Model

| member | source | states |
|---|---|---|
| PyStr.Strip | main.py:75 | `strip()`, defined as `rstrip()` after `lstrip()`; its behaviour is stated by `StripSpec` and `StripOuterSpace` |
| PyStr.Replace | main.py:75 | `replace`, left to right without overlaps; its behaviour is stated by `ReplaceAbsent`, `ReplaceSkipsPrefix` and `Cleanup.RemoveFenceLeavesNoFence` |
| PyStr.LStripSpec | main.py:75 | `lstrip()` keeps a suffix of its input and removes only whitespace; what remains is empty or starts with a non-whitespace character |
| PyStr.RStripSpec | main.py:75 | `rstrip()` keeps a prefix of its input and removes only whitespace; what remains is empty or ends with a non-whitespace character |
| PyStr.StripSpec | main.py:75 | `strip()` returns the slice `s[i..j]`: everything before `i` and after `j` is whitespace, and the result is empty or has non-whitespace at both ends |
| PyStr.StripOuterSpace | main.py:75 | whitespace added before or after a string does not change what `strip()` returns |
| PyStr.ReplaceAbsent | main.py:75 | `replace` leaves a string unchanged when the pattern does not occur in it |
| PyStr.ReplaceSkipsPrefix | main.py:75 | `replace` copies unchanged a prefix that lacks the pattern's first character, then continues on the rest |
| PyInt.DecimalString | main.py:89 | `str(n)` of an integer is non-empty, has no whitespace at either end, and holds no space, `(` or backtick |
| PyInt.ParseDecimal | main.py:40 | `int(str(n)) == n` for every integer `n` |
| PyInt.ParseChallengeExample | main.py:40 | `int("1234") == 1234` |
| PyInt.ParseInt | main.py:40 | `int(s)`: skip the whitespace CPython skips, then an optional sign and digits with single underscores; its behaviour is stated by `ParseDecimal`, `ParsePadded` and `SeparatorNotSkipped` |
| PyInt.ParsePadded | main.py:40 | `int()` reads back the decimal text of any integer, with any whitespace it skips on either side |
| PyInt.SeparatorNotSkipped | main.py:40 | the ASCII separator U+001C is not skipped by `int()`, so the text is rejected, while a space or a no-break space is skipped |
| PyValue.Get | main.py:49-51 | `d.get(k, default)`, defined by cases; its behaviour is stated by `GetAgreesWithSubscript` |
| PyValue.First | main.py:49-50 | `v[0]`, defined by cases; its behaviour is stated by `FirstOfTruthy` |
| PyValue.Subscript | main.py:54-55 | `v['k']`, defined by cases; its behaviour is stated by `InDictMeansSubscript` and `GetAgreesWithSubscript` |
| PyValue.In | main.py:53 | `k in v`, defined by cases; its behaviour is stated by `InDictMeansSubscript` and `SubscriptNeedsDict` |
| PyValue.Truthy | main.py:59 | Python truthiness, defined by cases; `FirstOfTruthy` ties it to `[0]`, and `EmptyBodyNoEffects` to the empty-body skip |
| PyValue.Str | main.py:89 | `str(v)` in an f-string field: integers as `DecimalString`, strings unchanged; `ReplyEmbedsRow` and `TeaReply` state what it puts in the confirmation |
| PyValue.InDictMeansSubscript | main.py:53-54 | on a dict, `'k' in v` holds exactly when `v['k']` does not raise, so the lookup after the `messages` test succeeds |
| PyValue.GetAgreesWithSubscript | main.py:49-56 | `.get` never raises on a dict; it returns what `v['k']` returns where that succeeds, and the default where `k in v` is false |
| PyValue.FirstOfTruthy | main.py:49-54 | `v[0]` succeeds exactly on a truthy list or string; the item returned is an element of the list, or a substring of the string |
| PyValue.SubscriptNeedsDict | main.py:53-54 | whatever `v['k']` finds, `'k' in v` finds too; on a list or a string, `in` answers while `v['k']` raises |
| Cleanup.Clean | main.py:75 | the cleaned reply contains no "```" and has no leading or trailing whitespace |
| Cleanup.RemoveFenceLeavesNoFence | main.py:75 | removing "```" left to right never glues a new "```" together |
| Cleanup.CleanPlain | main.py:75 | text without backticks is only stripped |
| Cleanup.CleanFenced | main.py:75 | a payload without backticks, wrapped in a ```json fence with any whitespace around it, cleans to the same string as the bare payload |
| Cleanup.CleanIdempotent | main.py:75 | cleaning an already cleaned reply changes nothing |
| Reply.ReplyText | main.py:89 | the confirmation template; `ParseReply` and `ParseReplyText` are its inverse |
| Reply.ParseReply | main.py:89 | whatever the parser accepts is exactly `"✅ Recorded ₹" + amount + " for " + merchant + " (" + category + ")"` for the three parts it returns |
| Reply.ParseReplyText | main.py:89 | the confirmation reads back to the amount, merchant and category it was built from, when the amount has no space and the category no `(` |
| Webhook.VerifyWebhook | main.py:32-41 | the result is 403 "Forbidden" exactly when the token differs from the configured one; it echoes `int(hub.challenge)` exactly when the token matches and the challenge parses; otherwise it is a server error |
| Webhook.ModeIgnored | main.py:35-41 | `hub.mode` never affects the answer |
| Webhook.EchoesChallenge | main.py:39-40 | with the configured token, every integer sent as its decimal text is echoed back |
| Webhook.HandshakeExample | main.py:36-41 | challenge "1234" with the right token yields 1234; with a wrong token it yields 403 "Forbidden" |
| Webhook.SeparatorChallengeFails | main.py:39-40 | with the right token, a challenge led by U+001C makes `int()` raise, so the call ends in a server error |
| Webhook.UnsetTokenAcceptsMissingToken | main.py:18 | with no token configured, a request without `hub.verify_token` is accepted |
| Pipeline.Handle | main.py:43-99 | the declarative run of one call: the outcome and the ordered calls; `ReceiveMessage` is proved to compute it, and `PipelineProps` states its properties |
| Pipeline.ReadMessage | main.py:49-56 | the step-by-step payload walk ends where the specification `ReadInbound` says: an exception, no `messages`, or the sender and body of the first message |
| Pipeline.ReadExtraction | main.py:74-84 | the step-by-step reading of the model's reply (clean, decode, "error" test, field lookups in row order) ends as `Interpret` says |
| Pipeline.ReceiveMessage | main.py:43-99 | the handler always answers "OK", and its outcome and call trace are exactly the run `Handle` specifies |
| PipelineProps.TraceShape | main.py:78-90 | every trace is a prefix of: one extraction, one insert of a row holding the message body, one send to that row's sender of that row's confirmation; a full trace only occurs when the insert succeeded; the run ends `Replied` exactly when all three calls were made and the send succeeded |
| PipelineProps.NoReplyWithoutRecord | main.py:80-90 | when the insert fails, no send occurs |
| PipelineProps.MissingEntryNoEffects | main.py:49 | a payload without `entry`, or with an empty one, makes no call and ends logged with no effect |
| PipelineProps.MissingChangesNoEffects | main.py:50 | a first entry without `changes`, or with an empty list of them, makes no call |
| PipelineProps.NoMessagesNoEffects | main.py:51-53 | a first change whose `value` has no `messages` is skipped without any call |
| PipelineProps.MessagesNotInDictNoEffects | main.py:53-54 | a `value` that is a list holding "messages", or a string containing it, passes the `in` test, then `value['messages']` raises: no call is made |
| PipelineProps.EmptyBodyNoEffects | main.py:56-60 | a message with no `text`, no `body` or an empty body is skipped before the model is asked |
| PipelineProps.ErrorKeyNoRecord | main.py:78-94 | an extraction with an "error" key ends after the single model call, with no insert and no send |
| PipelineProps.MissingFieldNoRecord | main.py:80-86 | an extraction lacking `amount`, `merchant` or `category` raises before the insert, so there is no insert and no send |
| PipelineProps.TransactionRecorded | main.py:78-90 | on the transaction path the row is exactly (sender, amount, merchant, category as extracted, raw body), the category is not validated, the insert comes before the send, and the confirmation goes to the same sender only if the insert succeeded |
| PipelineProps.ReplyEmbedsRow | main.py:89 | the confirmation of an integer amount reads back to that amount's digits, the merchant and the category |
| PipelineProps.FencedReplySameRun | main.py:74-76 | a model reply wrapped in a ```json fence produces the same run as the bare reply |
| PipelineProps.PaidForTeaExample | main.py:74-90 | "Paid 50 for Tea", extracted as 50 / Tea / Food, is stored with its raw text and confirmed as "✅ Recorded ₹50 for Tea (Food)" |
| PipelineProps.GreetingExample | main.py:71-94 | "Hey, how are you?", answered with the not-a-transaction object, makes only the model call |

## Left out

- The FastAPI app, the `home` endpoint and the uvicorn bootstrap (main.py:13, 28-30, 115-117) are framework plumbing.
- Loading `.env` and the environment (main.py:10-21) is process set-up. The verify token is a parameter of `VerifyWebhook`; the other settings only feed the foreign clients.
- The Gemini client and its call (main.py:24-25, 74) are a foreign network call. The reply text is an input, and `Extract(body)` records that the call was made. The prompt text (main.py:63-72) is not modelled.
- `json.loads` (main.py:76) is a library parser. It is a function parameter from the cleaned text to a JSON value or a failure.
- The Supabase client (main.py:26, 80-86) is foreign. Its success is an input, and `Insert` records the attempted row; the id and timestamp the store assigns are not modelled.
- The HTTP mechanics of `send_whatsapp_msg` (main.py:101-113) are I/O: the URL, bearer header, JSON body and `httpx.post`. They are one `Send(to, text)` event, and its success is an input.
- The `print` of the caught exception (main.py:97) is I/O. The outcome names the stage that failed instead.
- Asynchronous, concurrent handling of requests is not modelled; each call is independent.
- PyValue.JsonValue: JSON numbers with a fraction or exponent (Python floats) are not modelled, and neither is float rendering in the reply. Numbers are integers.
- PyValue.JsonValue: a decoded object is a map, so the insertion order of keys and duplicate keys in the source text are not represented.
- PyValue.Str: Python's `repr` of lists and dicts, used when such a value is put in the reply, is not modelled. They render as the placeholders `[...]` and `{...}`.
- PyInt.ParseInt: only ASCII digits are accepted. Python's `int()` also accepts other Unicode decimal digits. CPython's limit on the number of digits converted, which applies both to `int()` at main.py:40 and to `str()` of an integer in the f-string at main.py:89 (`PyInt.DecimalString`, `PyValue.Str`), is not modelled.
- Lone surrogates are not modelled. A Python `str` can hold them, for example after `json.loads` of a `\ud800` escape. A Dafny `char` is a Unicode scalar value.
- PyStr.Replace: requires a non-empty pattern. Python's behaviour for an empty pattern is not modelled, since the bot only removes "```json" and "```".
- The HTTP encoding of the handler's answers (the JSON body "OK" with status 200, the integer echo) is framework behaviour. The model stops at the returned Python values.
