/**
 * `POST /webhook` (main.py, lines 43-99): one inbound webhook call walks the payload to the
 * first message, asks the language model to extract a transaction, stores it in the
 * `expenses` table and confirms it to the sender. Every exception is caught and logged, and
 * the handler always answers "OK".
 *
 * The collaborators are inputs: the decoded request body (`None` when it is not JSON), the
 * model's reply text (`None` when the call or `.text` raises), `json.loads` as a function
 * of the cleaned text (`None` for a `JSONDecodeError`), and whether the insert and the send
 * succeed. Each call to a collaborator is recorded, in order, in a trace of effects.
 */
module Pipeline {
  import opened Wrappers
  import opened PyValue
  import Cleanup
  import Reply

  const Table: string := "expenses"

  /** One row of the `expenses` table as the handler builds it; the store adds id and time. */
  datatype Expense = Expense(userPhone: JsonValue, amount: JsonValue, merchant: JsonValue,
                             category: JsonValue, rawText: JsonValue)

  /** A call the handler makes to the outside world. */
  datatype Effect =
    | Extract(body: JsonValue)            // the model is asked about the prompt built from `body`
    | Insert(table: string, row: Expense) // an insert into the store, whether or not it succeeds
    | Send(to: JsonValue, text: string)   // a message to the sender, whether or not it arrives

  datatype SkipReason = NoMessages | EmptyBody | NotATransaction

  /** Where an exception ended the processing; the handler logs it and answers "OK".
      `BadPayload`: the walk through the request body raised (`IndexError`, `KeyError`,
      `TypeError`, `AttributeError`), or the body was not JSON.
      `ModelError`: the model call or its `.text` raised.
      `BadJson`: the cleaned reply is not JSON (`JSONDecodeError`), or it decodes to a
      number, a boolean or `null`, on which the `"error" in` test raises `TypeError`.
      `MissingField`: a lookup of `amount`, `merchant` or `category` raised while the row was
      built: `KeyError` on a dict without the key, `TypeError` on a list or a string.
      `StoreError`: the insert raised. `SendError`: the send raised. */
  datatype Stage = BadPayload | ModelError | BadJson | MissingField | StoreError | SendError

  datatype Outcome = Skipped(reason: SkipReason) | Failed(stage: Stage) | Replied

  datatype Run = Run(outcome: Outcome, trace: seq<Effect>)

  /** `data.get('entry', [])[0].get('changes', [])[0].get('value', {})` */
  function FirstValue(data: JsonValue): Option<JsonValue>
  {
    var entries :- Get(data, "entry", JArr([]));
    var entry :- First(entries);
    var changes :- Get(entry, "changes", JArr([]));
    var change :- First(changes);
    Get(change, "value", JObj(map[]))
  }

  /** `value['messages'][0]`, then its `['from']` and `.get('text', {}).get('body', '')`. */
  function FirstMessage(value: JsonValue): Option<(JsonValue, JsonValue)>
  {
    var messages :- Subscript(value, "messages");
    var message :- First(messages);
    var sender :- Subscript(message, "from");
    var text :- Get(message, "text", JObj(map[]));
    var body :- Get(text, "body", JStr(""));
    Some((sender, body))
  }

  /** Where walking the payload ends. */
  datatype Inbound = Unreadable | NoMessage | Message(sender: JsonValue, body: JsonValue)

  function ReadInbound(payload: Option<JsonValue>): Inbound
  {
    match payload
    case None => Unreadable
    case Some(data) =>
      match FirstValue(data)
      case None => Unreadable
      case Some(value) =>
        match In("messages", value)
        case None => Unreadable
        case Some(false) => NoMessage
        case Some(true) =>
          match FirstMessage(value)
          case None => Unreadable
          case Some((sender, body)) => Message(sender, body)
  }

  /** What the model's reply says about the message. */
  datatype Extraction =
    | NoReply
    | Unparsable
    | Refused
    | Incomplete
    | Transaction(amount: JsonValue, merchant: JsonValue, category: JsonValue)

  function Interpret(reply: Option<string>, loads: string -> Option<JsonValue>): Extraction
  {
    match reply
    case None => NoReply
    case Some(text) =>
      match loads(Cleanup.Clean(text))
      case None => Unparsable
      case Some(parsed) =>
        match In("error", parsed)
        case None => Unparsable
        case Some(true) => Refused
        case Some(false) =>
          match (Subscript(parsed, "amount"), Subscript(parsed, "merchant"), Subscript(parsed, "category"))
          case (Some(a), Some(m), Some(c)) => Transaction(a, m, c)
          case _ => Incomplete
  }

  /** The confirmation for a stored row. */
  function ReplyOf(row: Expense): string
  {
    Reply.ReplyText(Str(row.amount), Str(row.merchant), Str(row.category))
  }

  /** The run a webhook call produces: what it ends in and which calls it makes. */
  function Handle(payload: Option<JsonValue>, reply: Option<string>,
                  loads: string -> Option<JsonValue>, storeOk: bool, sendOk: bool): Run
  {
    match ReadInbound(payload)
    case Unreadable => Run(Failed(BadPayload), [])
    case NoMessage => Run(Skipped(NoMessages), [])
    case Message(sender, body) =>
      if !Truthy(body) then Run(Skipped(EmptyBody), [])
      else
        var asked := [Extract(body)];
        match Interpret(reply, loads)
        case NoReply => Run(Failed(ModelError), asked)
        case Unparsable => Run(Failed(BadJson), asked)
        case Refused => Run(Skipped(NotATransaction), asked)
        case Incomplete => Run(Failed(MissingField), asked)
        case Transaction(amount, merchant, category) =>
          var row := Expense(sender, amount, merchant, category, body);
          var stored := asked + [Insert(Table, row)];
          if !storeOk then Run(Failed(StoreError), stored)
          else Run(if sendOk then Replied else Failed(SendError), stored + [Send(sender, ReplyOf(row))])
  }

  /** The walk through the payload at the start of `receive_message`, step by step, stopping
      wherever Python raises or finds no `messages`. */
  method ReadMessage(payload: Option<JsonValue>) returns (inbound: Inbound)
    ensures inbound == ReadInbound(payload)
  {
    inbound := Unreadable;
    if payload.None? { return; }
    var entries := Get(payload.value, "entry", JArr([]));
    if entries.None? { return; }
    var entry := First(entries.value);
    if entry.None? { return; }
    var changes := Get(entry.value, "changes", JArr([]));
    if changes.None? { return; }
    var change := First(changes.value);
    if change.None? { return; }
    var value := Get(change.value, "value", JObj(map[]));
    if value.None? { return; }
    assert FirstValue(payload.value) == value;
    var hasMessages := In("messages", value.value);
    if hasMessages.None? { return; }
    if !hasMessages.value {
      inbound := NoMessage;
      return;
    }
    var messages := Subscript(value.value, "messages");
    if messages.None? { return; }
    var message := First(messages.value);
    if message.None? { return; }
    var userPhone := Subscript(message.value, "from");
    if userPhone.None? { return; }
    var text := Get(message.value, "text", JObj(map[]));
    if text.None? { return; }
    var msgBody := Get(text.value, "body", JStr(""));
    if msgBody.None? { return; }
    assert FirstMessage(value.value) == Some((userPhone.value, msgBody.value));
    inbound := Message(userPhone.value, msgBody.value);
  }

  /** Asking the model and reading its answer, step by step: the reply text is cleaned and
      decoded, checked for an "error" key, and its three fields are looked up in the order the
      row lists them. */
  method ReadExtraction(reply: Option<string>, loads: string -> Option<JsonValue>)
    returns (extraction: Extraction)
    ensures extraction == Interpret(reply, loads)
  {
    if reply.None? { return NoReply; }
    var cleaned := Cleanup.Clean(reply.value);
    var extracted := loads(cleaned);
    if extracted.None? { return Unparsable; }
    var hasError := In("error", extracted.value);
    if hasError.None? { return Unparsable; }
    if hasError.value { return Refused; }
    var amount := Subscript(extracted.value, "amount");
    if amount.None? { return Incomplete; }
    var merchant := Subscript(extracted.value, "merchant");
    if merchant.None? { return Incomplete; }
    var category := Subscript(extracted.value, "category");
    if category.None? { return Incomplete; }
    extraction := Transaction(amount.value, merchant.value, category.value);
  }

  /** `receive_message`: every step that can raise ends the run early; whatever happens, the
      answer is "OK". */
  method ReceiveMessage(payload: Option<JsonValue>, reply: Option<string>,
                        loads: string -> Option<JsonValue>, storeOk: bool, sendOk: bool)
    returns (ack: string, outcome: Outcome, trace: seq<Effect>)
    ensures ack == "OK"
    ensures Run(outcome, trace) == Handle(payload, reply, loads, storeOk, sendOk)
  {
    ack, trace := "OK", [];
    var inbound := ReadMessage(payload);
    if inbound.Unreadable? {
      outcome := Failed(BadPayload);
      return;
    }
    if inbound.NoMessage? {
      outcome := Skipped(NoMessages);
      return;
    }
    var userPhone, msgBody := inbound.sender, inbound.body;
    if !Truthy(msgBody) {
      outcome := Skipped(EmptyBody);
      return;
    }

    // 1. Extraction by the language model.
    trace := trace + [Extract(msgBody)];
    var extraction := ReadExtraction(reply, loads);
    match extraction {
      case NoReply =>
        outcome := Failed(ModelError);
        return;
      case Unparsable =>
        outcome := Failed(BadJson);
        return;
      case Refused =>
        outcome := Skipped(NotATransaction);
        return;
      case Incomplete =>
        outcome := Failed(MissingField);
        return;
      case Transaction(_, _, _) =>
    }

    // 2. The row, then the insert.
    var amount, merchant, category := extraction.amount, extraction.merchant, extraction.category;
    var row := Expense(userPhone, amount, merchant, category, msgBody);
    trace := trace + [Insert(Table, row)];
    if !storeOk {
      outcome := Failed(StoreError);
      return;
    }

    // 3. The confirmation.
    var replyText := Reply.ReplyText(Str(amount), Str(merchant), Str(category));
    trace := trace + [Send(userPhone, replyText)];
    outcome := if sendOk then Replied else Failed(SendError);
  }
}
