/**
 * What a webhook call does and does not do, stated on `Pipeline.Handle`, which
 * `Pipeline.ReceiveMessage` is proved to compute.
 */
module PipelineProps {
  import opened Wrappers
  import opened PyValue
  import opened Pipeline
  import PyStr
  import PyInt
  import Cleanup
  import Reply

  /** The calls a message can cause, in the only order they can happen. */
  function FullTrace(body: JsonValue, row: Expense): seq<Effect>
  {
    [Extract(body), Insert(Table, row), Send(row.userPhone, ReplyOf(row))]
  }

  /** Every run makes a prefix of: one extraction, one insert of a row holding the sender
      and the message body, one confirmation to that same sender built from that same row.
      So there is at most one insert and one send, a send always follows the insert, and a
      send only happens when the insert succeeded. */
  lemma TraceShape(payload: Option<JsonValue>, reply: Option<string>,
                   loads: string -> Option<JsonValue>, storeOk: bool, sendOk: bool)
    ensures var run := Handle(payload, reply, loads, storeOk, sendOk);
      && (exists body: JsonValue, row: Expense :: row.rawText == body && run.trace <= FullTrace(body, row))
      && (|run.trace| == 3 ==> storeOk)
      && (run.outcome == Replied <==> |run.trace| == 3 && sendOk)
  {
    var run := Handle(payload, reply, loads, storeOk, sendOk);
    var none := Expense(JNull, JNull, JNull, JNull, JNull);
    match ReadInbound(payload)
    case Unreadable =>
      assert run.trace == [] <= FullTrace(JNull, none);
    case NoMessage =>
      assert run.trace == [] <= FullTrace(JNull, none);
    case Message(sender, body) =>
      var other := Expense(sender, JNull, JNull, JNull, body);
      if !Truthy(body) {
        assert run.trace == [] <= FullTrace(body, other);
      } else {
        match Interpret(reply, loads)
        case Transaction(a, m, c) =>
          var row := Expense(sender, a, m, c, body);
          var full := FullTrace(body, row);
          if storeOk {
            assert run.trace == full;
          } else {
            assert run.trace == full[..2];
          }
        case NoReply =>
          assert run.trace == FullTrace(body, other)[..1];
        case Unparsable =>
          assert run.trace == FullTrace(body, other)[..1];
        case Refused =>
          assert run.trace == FullTrace(body, other)[..1];
        case Incomplete =>
          assert run.trace == FullTrace(body, other)[..1];
      }
  }

  /** A failed insert is never confirmed. */
  lemma NoReplyWithoutRecord(payload: Option<JsonValue>, reply: Option<string>,
                             loads: string -> Option<JsonValue>, sendOk: bool)
    ensures forall e :: e in Handle(payload, reply, loads, false, sendOk).trace ==> !e.Send?
  {
    var run := Handle(payload, reply, loads, false, sendOk);
    match ReadInbound(payload)
    case Message(sender, body) =>
      if Truthy(body) {
        match Interpret(reply, loads)
        case Transaction(a, m, c) =>
          assert run.trace == [Extract(body), Insert(Table, Expense(sender, a, m, c, body))];
        case _ =>
          assert run.trace == [Extract(body)];
      }
    case _ =>
  }

  /** A body that walks into a payload shaped like the provider's message callback. */
  function Envelope(value: JsonValue): JsonValue
  {
    JObj(map["entry" := JArr([JObj(map["changes" := JArr([JObj(map["value" := value])])])])])
  }

  lemma EnvelopeValue(value: JsonValue)
    ensures FirstValue(Envelope(value)) == Some(value)
  {
  }

  /** Without an `entry` list to index, `[0]` raises: nothing is called and the handler
      still answers. */
  lemma MissingEntryNoEffects(fields: map<string, JsonValue>, reply: Option<string>,
                              loads: string -> Option<JsonValue>, storeOk: bool, sendOk: bool)
    requires "entry" !in fields || fields["entry"] == JArr([])
    ensures Handle(Some(JObj(fields)), reply, loads, storeOk, sendOk) == Run(Failed(BadPayload), [])
  {
  }

  /** Likewise when the first entry has no `changes`, or an empty list of them. */
  lemma MissingChangesNoEffects(fields: map<string, JsonValue>, entryFields: map<string, JsonValue>,
                                more: seq<JsonValue>, reply: Option<string>,
                                loads: string -> Option<JsonValue>, storeOk: bool, sendOk: bool)
    requires "entry" in fields && fields["entry"] == JArr([JObj(entryFields)] + more)
    requires "changes" !in entryFields || entryFields["changes"] == JArr([])
    ensures Handle(Some(JObj(fields)), reply, loads, storeOk, sendOk) == Run(Failed(BadPayload), [])
  {
  }

  /** A callback whose first change carries no `messages` (a delivery status, say) is
      skipped without any call. */
  lemma NoMessagesNoEffects(data: JsonValue, valueFields: map<string, JsonValue>,
                            reply: Option<string>, loads: string -> Option<JsonValue>,
                            storeOk: bool, sendOk: bool)
    requires FirstValue(data) == Some(JObj(valueFields)) && "messages" !in valueFields
    ensures Handle(Some(data), reply, loads, storeOk, sendOk) == Run(Skipped(NoMessages), [])
  {
  }

  /** A `value` that is a list holding "messages", or a string containing it, passes the
      `'messages' in value` test, and then `value['messages']` raises `TypeError`: the
      handler logs it and makes no call. */
  lemma MessagesNotInDictNoEffects(data: JsonValue, value: JsonValue, reply: Option<string>,
                                   loads: string -> Option<JsonValue>, storeOk: bool, sendOk: bool)
    requires FirstValue(data) == Some(value) && (value.JArr? || value.JStr?)
    requires In("messages", value) == Some(true)
    ensures Handle(Some(data), reply, loads, storeOk, sendOk) == Run(Failed(BadPayload), [])
  {
    SubscriptNeedsDict("messages", value);
  }

  /** A message without text, or with an empty body, never reaches the model. */
  lemma EmptyBodyNoEffects(data: JsonValue, valueFields: map<string, JsonValue>,
                           messageFields: map<string, JsonValue>, more: seq<JsonValue>,
                           reply: Option<string>, loads: string -> Option<JsonValue>,
                           storeOk: bool, sendOk: bool)
    requires FirstValue(data) == Some(JObj(valueFields))
    requires "messages" in valueFields && valueFields["messages"] == JArr([JObj(messageFields)] + more)
    requires "from" in messageFields
    requires "text" !in messageFields
             || (messageFields["text"].JObj?
                 && ("body" !in messageFields["text"].fields
                     || messageFields["text"].fields["body"] == JStr("")))
    ensures Handle(Some(data), reply, loads, storeOk, sendOk) == Run(Skipped(EmptyBody), [])
  {
  }

  /** An extraction holding an "error" key is dropped after the one model call: no insert,
      no reply. */
  lemma ErrorKeyNoRecord(payload: Option<JsonValue>, sender: JsonValue, body: JsonValue,
                         text: string, loads: string -> Option<JsonValue>,
                         fields: map<string, JsonValue>, storeOk: bool, sendOk: bool)
    requires ReadInbound(payload) == Message(sender, body) && Truthy(body)
    requires loads(Cleanup.Clean(text)) == Some(JObj(fields)) && "error" in fields
    ensures Handle(payload, Some(text), loads, storeOk, sendOk)
         == Run(Skipped(NotATransaction), [Extract(body)])
  {
  }

  /** An extraction lacking `amount`, `merchant` or `category` raises while the row is
      built, before any insert. */
  lemma MissingFieldNoRecord(payload: Option<JsonValue>, sender: JsonValue, body: JsonValue,
                             text: string, loads: string -> Option<JsonValue>,
                             fields: map<string, JsonValue>, storeOk: bool, sendOk: bool)
    requires ReadInbound(payload) == Message(sender, body) && Truthy(body)
    requires loads(Cleanup.Clean(text)) == Some(JObj(fields)) && "error" !in fields
    requires "amount" !in fields || "merchant" !in fields || "category" !in fields
    ensures Handle(payload, Some(text), loads, storeOk, sendOk)
         == Run(Failed(MissingField), [Extract(body)])
  {
  }

  /** The transaction path: the row stored is exactly the sender, the three extracted fields
      as they came (the category is not checked against the five the prompt lists) and the
      message body; the reply goes to the same sender, after the insert, and only if the
      insert succeeded. */
  lemma TransactionRecorded(payload: Option<JsonValue>, sender: JsonValue, body: JsonValue,
                            text: string, loads: string -> Option<JsonValue>,
                            fields: map<string, JsonValue>, storeOk: bool, sendOk: bool)
    requires ReadInbound(payload) == Message(sender, body) && Truthy(body)
    requires loads(Cleanup.Clean(text)) == Some(JObj(fields)) && "error" !in fields
    requires "amount" in fields && "merchant" in fields && "category" in fields
    ensures var row := Expense(sender, fields["amount"], fields["merchant"], fields["category"], body);
      var reply := Reply.ReplyText(Str(fields["amount"]), Str(fields["merchant"]), Str(fields["category"]));
      Handle(payload, Some(text), loads, storeOk, sendOk)
      == if storeOk
         then Run(if sendOk then Replied else Failed(SendError),
                  [Extract(body), Insert(Table, row), Send(sender, reply)])
         else Run(Failed(StoreError), [Extract(body), Insert(Table, row)])
  {
  }

  /** The confirmation of an integer amount and a category without "(" can be read back into
      the amount, merchant and category that were stored. */
  lemma ReplyEmbedsRow(row: Expense)
    requires row.amount.JNum? && row.category.JStr? && '(' !in row.category.s
    ensures Reply.ParseReply(ReplyOf(row))
         == Some((PyInt.DecimalString(row.amount.n), Str(row.merchant), row.category.s))
  {
    Reply.ParseReplyText(Str(row.amount), Str(row.merchant), Str(row.category));
  }

  /** A reply wrapped in a ```json fence leads to the same run as the bare reply. */
  lemma FencedReplySameRun(payload: Option<JsonValue>, w1: string, content: string, w2: string,
                           loads: string -> Option<JsonValue>, storeOk: bool, sendOk: bool)
    requires PyStr.AllSpace(w1) && PyStr.AllSpace(w2) && Cleanup.NoTicks(content)
    ensures Handle(payload, Some(w1 + Cleanup.JsonFence + content + Cleanup.Fence + w2), loads, storeOk, sendOk)
         == Handle(payload, Some(content), loads, storeOk, sendOk)
  {
    Cleanup.CleanFenced(w1, content, w2);
  }

  const Phone: JsonValue := JStr("919876543210")

  function MessageCallback(body: string): JsonValue
  {
    Envelope(JObj(map["messages" := JArr([JObj(map["from" := Phone, "text" := JObj(map["body" := JStr(body)])])])]))
  }

  /** "Paid 50 for Tea", extracted as 50 / "Tea" / "Food", is stored with its raw text and
      confirmed as "✅ Recorded ₹50 for Tea (Food)". */
  lemma PaidForTeaExample(text: string, loads: string -> Option<JsonValue>)
    requires loads(Cleanup.Clean(text))
          == Some(JObj(map["amount" := JNum(50), "merchant" := JStr("Tea"), "category" := JStr("Food")]))
    ensures Handle(Some(MessageCallback("Paid 50 for Tea")), Some(text), loads, true, true)
         == Run(Replied, [Extract(JStr("Paid 50 for Tea")),
                          Insert("expenses", Expense(Phone, JNum(50), JStr("Tea"), JStr("Food"), JStr("Paid 50 for Tea"))),
                          Send(Phone, "\U{2705} Recorded \U{20B9}50 for Tea (Food)")])
  {
    var body := JStr("Paid 50 for Tea");
    var message := JObj(map["from" := Phone, "text" := JObj(map["body" := body])]);
    EnvelopeValue(JObj(map["messages" := JArr([message])]));
    assert FirstMessage(JObj(map["messages" := JArr([message])])) == Some((Phone, body));
    assert ReadInbound(Some(MessageCallback("Paid 50 for Tea"))) == Message(Phone, body);
    var fields := map["amount" := JNum(50), "merchant" := JStr("Tea"), "category" := JStr("Food")];
    TransactionRecorded(Some(MessageCallback("Paid 50 for Tea")), Phone, body, text, loads, fields, true, true);
    TeaReply();
  }

  lemma TeaReply()
    ensures Reply.ReplyText(Str(JNum(50)), Str(JStr("Tea")), Str(JStr("Food")))
         == "\U{2705} Recorded \U{20B9}50 for Tea (Food)"
  {
    assert PyInt.DecimalString(50) == "50";
  }

  /** "Hey, how are you?", answered with the not-a-transaction object, causes only the model call. */
  lemma GreetingExample(text: string, loads: string -> Option<JsonValue>, storeOk: bool, sendOk: bool)
    requires loads(Cleanup.Clean(text)) == Some(JObj(map["error" := JStr("not_transaction")]))
    ensures Handle(Some(MessageCallback("Hey, how are you?")), Some(text), loads, storeOk, sendOk)
         == Run(Skipped(NotATransaction), [Extract(JStr("Hey, how are you?"))])
  {
    EnvelopeValue(JObj(map["messages" := JArr([JObj(map["from" := Phone, "text" := JObj(map["body" := JStr("Hey, how are you?")])])])]));
  }
}
