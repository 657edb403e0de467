/** The `whatsapp_webhook` HTTP handler: the GET subscription handshake,
    the keyword reply chosen for an inbound text message, and the walk
    over a POSTed event envelope that issues one reply per text message.
    Sending a reply is an action appended to a sequence of sends. */
module Webhook {
  import opened Text
  import opened Wrappers
  import opened Json

  const TrialText := "Awesome! To start your free trial, we'll need to check availability. Please reply with the date and time you prefer (e.g., 'Wed 3pm')."
  const BookText := "Got it. To book, please reply with the service name and preferred date/time."
  const GreetingText := "Hello! I'm QuickReserve's automated assistant. Reply 'TRIAL' to start your free trial, or 'HELP' for human assistance."

  const BusinessAccount := "whatsapp_business_account"

  /** What the handler returns to the framework: a body and a status code.
      A GET whose `hub.challenge` is absent echoes `None`. */
  datatype Response = Response(body: Option<string>, status: int)

  const Acknowledged := Response(Some("OK"), 200)
  const Mismatch := Response(Some("Verification token mismatch"), 403)
  const NotAllowed := Response(Some("Method Not Allowed"), 405)

  /** An inbound request: its method, its query-string arguments in order,
      and its body as `get_json(silent=True)` parses it (`JNull` when the
      body is missing or is not JSON). */
  datatype Request = Request(verb: string, args: seq<(string, string)>, json: Json)

  /** One call of `send_whatsapp_message(to, text)`. */
  datatype Send = Send(to: Json, text: string)

  // ---------------------------------------------------------------------
  // GET: subscription handshake

  /** `request.args.get(key)`: the first value given for `key`, if any. */
  function Arg(args: seq<(string, string)>, key: string): (r: Option<string>)
    ensures r.None? <==> forall i :: 0 <= i < |args| ==> args[i].0 != key
    ensures r.Some? ==> exists i :: 0 <= i < |args| && args[i] == (key, r.value)
                          && forall j :: 0 <= j < i ==> args[j].0 != key
  {
    if args == [] then None
    else if args[0].0 == key then Some(args[0].1)
    else
      var r := Arg(args[1..], key);
      assert r.Some? ==> exists i :: 1 <= i < |args| && args[i] == (key, r.value)
                          && forall j :: 0 <= j < i ==> args[j].0 != key by {
        if r.Some? {
          var i :| 0 <= i < |args[1..]| && args[1..][i] == (key, r.value)
                     && forall j :: 0 <= j < i ==> args[1..][j].0 != key;
          assert args[i + 1] == (key, r.value);
        }
      }
      r
  }

  /** The handshake decision. Mode and tokens are options, compared as Python
      compares them, so an unset configured token matches an absent one. */
  function Verify(mode: Option<string>, token: Option<string>, challenge: Option<string>,
                  verifyToken: Option<string>): (r: Response)
    ensures r.status == 200 <==> mode == Some("subscribe") && token == verifyToken
    ensures r.status == 200 ==> r.body == challenge
    ensures r.status != 200 ==> r == Mismatch
  {
    if mode == Some("subscribe") && token == verifyToken then Response(challenge, 200)
    else Mismatch
  }

  /** With no token configured, a subscribe request that sends no token is accepted. */
  lemma UnsetTokenAcceptsMissingToken(challenge: Option<string>)
    ensures Verify(Some("subscribe"), None, challenge, None) == Response(challenge, 200)
  {
  }

  // ---------------------------------------------------------------------
  // Keyword reply

  /** The reply text for an inbound body, chosen on its stripped, lower-cased
      form: trial/free first, then book, otherwise the greeting. */
  function ReplyFor(body: string): (r: string)
    ensures var n := Normalize(body);
      && (r == TrialText <==> Contains(n, "trial") || Contains(n, "free"))
      && (r == BookText <==> !Contains(n, "trial") && !Contains(n, "free") && Contains(n, "book"))
      && (r == GreetingText <==> !Contains(n, "trial") && !Contains(n, "free") && !Contains(n, "book"))
  {
    var n := Normalize(body);
    if Contains(n, "trial") || Contains(n, "free") then TrialText
    else if Contains(n, "book") then BookText
    else GreetingText
  }

  /** A body that asks both for a trial (or something free) and to book gets the trial reply. */
  lemma TrialBeforeBook(body: string)
    requires Contains(Normalize(body), "book")
    requires Contains(Normalize(body), "trial") || Contains(Normalize(body), "free")
    ensures ReplyFor(body) == TrialText
  {
  }

  /** Normalising a body first does not change its reply. */
  lemma ReplyOfNormalized(body: string)
    ensures ReplyFor(Normalize(body)) == ReplyFor(body)
  {
    NormalizeIdempotent(body);
  }

  /** The reply ignores letter case. */
  lemma ReplyIgnoresCase(body: string)
    ensures ReplyFor(Lower(body)) == ReplyFor(body)
  {
    StripLower(body);
    LowerIdempotent(Strip(body));
  }

  /** The reply ignores whitespace around the body. */
  lemma ReplyIgnoresPadding(w1: string, body: string, w2: string)
    requires AllSpace(w1) && AllSpace(w2)
    ensures ReplyFor(w1 + body + w2) == ReplyFor(body)
  {
    StripPadded(w1, body, w2);
  }

  // ---------------------------------------------------------------------
  // POST: walking the envelope

  /** What a part of the walk did: the sends it issued, and whether it
      raised (after which nothing else is visited). */
  datatype Trace = Trace(sends: seq<Send>, aborted: bool)

  const Done := Trace([], false)
  const Abort := Trace([], true)

  /** Running `t` and then, unless it raised, `u`. */
  function Then(t: Trace, u: Trace): Trace {
    if t.aborted then t else Trace(t.sends + u.sends, u.aborted)
  }

  /** A `for x in xs` loop whose body is `step`, stopped by the first exception. */
  function Walk<T>(step: T -> Trace, xs: seq<T>): Trace
  {
    if xs == [] then Done else Then(step(xs[0]), Walk(step, xs[1..]))
  }

  lemma ThenAssociative(t: Trace, u: Trace, v: Trace)
    ensures Then(Then(t, u), v) == Then(t, Then(u, v))
  {
  }

  /** A loop over `xs + ys` is the loop over `xs` followed by the loop over `ys`. */
  lemma {:induction false} WalkAppend<T>(step: T -> Trace, xs: seq<T>, ys: seq<T>)
    ensures Walk(step, xs + ys) == Then(Walk(step, xs), Walk(step, ys))
  {
    if xs == [] {
      assert xs + ys == ys;
    } else {
      assert (xs + ys)[0] == xs[0] && (xs + ys)[1..] == xs[1..] + ys;
      WalkAppend(step, xs[1..], ys);
      ThenAssociative(step(xs[0]), Walk(step, xs[1..]), Walk(step, ys));
    }
  }

  /** Sends issued by a prefix of the loop stay a prefix of the whole loop's
      sends, and once the prefix raised nothing is added. */
  lemma WalkPrefix<T>(step: T -> Trace, xs: seq<T>, ys: seq<T>)
    ensures Walk(step, xs).sends <= Walk(step, xs + ys).sends
    ensures Walk(step, xs).aborted ==> Walk(step, xs + ys) == Walk(step, xs)
  {
    WalkAppend(step, xs, ys);
  }

  /** The loop over `xs[..i + 1]` extends the loop over `xs[..i]` by one step. */
  lemma WalkStep<T>(step: T -> Trace, xs: seq<T>, i: nat)
    requires i < |xs|
    ensures Walk(step, xs[..i + 1]) == Then(Walk(step, xs[..i]), step(xs[i]))
  {
    assert xs[..i + 1] == xs[..i] + [xs[i]];
    WalkAppend(step, xs[..i], [xs[i]]);
    assert Walk(step, [xs[i]]) == Then(step(xs[i]), Done);
  }

  /** A loop stopped early, by an exception or by reaching the end, has the whole loop's trace. */
  lemma WalkStopped<T>(step: T -> Trace, xs: seq<T>, i: nat)
    requires i <= |xs|
    requires i == |xs| || Walk(step, xs[..i]).aborted
    ensures Walk(step, xs) == Walk(step, xs[..i])
  {
    if i == |xs| {
      assert xs[..i] == xs;
    } else {
      assert xs == xs[..i] + xs[i..];
      WalkPrefix(step, xs[..i], xs[i..]);
    }
  }

  /** The body of the innermost loop, for one message. */
  function MessageStep(m: Json): (r: Trace)
    ensures |r.sends| <= 1
    ensures |r.sends| == 1 ==>
      && !r.aborted
      && Index(m, "from") == Ok(r.sends[0].to)
      && Index(m, "type") == Ok(JStr("text"))
      && Index(m, "text").Ok?
      && exists body :: Index(Index(m, "text").value, "body") == Ok(JStr(body))
                        && r.sends[0].text == ReplyFor(body)
    ensures Index(m, "from").Err? || Index(m, "type").Err? ==> r == Abort
    ensures Index(m, "from").Ok? && Index(m, "type").Ok? && Index(m, "type").value != JStr("text") ==> r == Done
  {
    match Index(m, "from")
    case Err => Abort
    case Ok(from) =>
      match Index(m, "type")
      case Err => Abort
      case Ok(kind) =>
        if kind != JStr("text") then Done
        else
          match Index(m, "text")
          case Err => Abort
          case Ok(text) =>
            match Index(text, "body")
            case Err => Abort
            case Ok(body) =>
              if body.JStr? then Trace([Send(from, ReplyFor(body.s))], false) else Abort
  }

  /** The body of the middle loop, for one change: only a `messages` change
      is walked, over `change['value']['messages']`. */
  function ChangeStep(c: Json): (r: Trace)
    ensures !c.JObj? ==> r == Abort
    ensures GetOr(c, "field", JNull).Ok? && GetOr(c, "field", JNull).value != JStr("messages") ==> r == Done
  {
    match GetOr(c, "field", JNull)
    case Err => Abort
    case Ok(field) =>
      if field != JStr("messages") then Done
      else
        match Index(c, "value")
        case Err => Abort
        case Ok(value) =>
          match Index(value, "messages")
          case Err => Abort
          case Ok(messages) =>
            match Iterate(messages)
            case Err => Abort
            case Ok(ms) => Walk(MessageStep, ms)
  }

  /** The body of the outer loop, for one entry: its `changes`, `[]` when absent. */
  function EntryStep(e: Json): (r: Trace)
    ensures !e.JObj? ==> r == Abort
    ensures e.JObj? && Lookup(e.fields, "changes").None? ==> r == Done
  {
    match GetOr(e, "changes", JArr([]))
    case Err => Abort
    case Ok(changes) =>
      match Iterate(changes)
      case Err => Abort
      case Ok(cs) => Walk(ChangeStep, cs)
  }

  /** Everything the POST branch does with a parsed body. */
  function PostTrace(data: Json): (r: Trace)
    ensures GetOr(data, "object", JNull) != Ok(JStr(BusinessAccount)) ==> r.sends == []
  {
    match GetOr(data, "object", JNull)
    case Err => Abort
    case Ok(obj) =>
      if obj != JStr(BusinessAccount) then Done
      else
        match GetOr(data, "entry", JArr([]))
        case Err => Abort
        case Ok(entries) =>
          match Iterate(entries)
          case Err => Abort
          case Ok(es) => Walk(EntryStep, es)
  }

  /** The innermost loop: one reply per text message, until a message raises. */
  method ReplyToMessages(messages: seq<Json>) returns (sends: seq<Send>, raised: bool)
    ensures Trace(sends, raised) == Walk(MessageStep, messages)
  {
    sends, raised := [], false;
    var k := 0;
    while k < |messages| && !raised
      invariant 0 <= k <= |messages|
      invariant Trace(sends, raised) == Walk(MessageStep, messages[..k])
    {
      WalkStep(MessageStep, messages, k);
      var message := messages[k];
      var from := Index(message, "from");
      var kind := Index(message, "type");
      if from.Err? || kind.Err? {
        raised := true;
      } else if kind.value == JStr("text") {
        var text := Index(message, "text");
        if text.Err? || Index(text.value, "body").Err? || !Index(text.value, "body").value.JStr? {
          raised := true;
        } else {
          var reply := ReplyFor(Index(text.value, "body").value.s);
          sends := sends + [Send(from.value, reply)];
        }
      }
      k := k + 1;
    }
    WalkStopped(MessageStep, messages, k);
  }

  /** The middle loop: the messages of every `messages` change, until something raises. */
  method ReplyToChanges(changes: seq<Json>) returns (sends: seq<Send>, raised: bool)
    ensures Trace(sends, raised) == Walk(ChangeStep, changes)
  {
    sends, raised := [], false;
    var j := 0;
    while j < |changes| && !raised
      invariant 0 <= j <= |changes|
      invariant Trace(sends, raised) == Walk(ChangeStep, changes[..j])
    {
      WalkStep(ChangeStep, changes, j);
      var change := changes[j];
      var field := GetOr(change, "field", JNull);
      if field.Err? {
        raised := true;
      } else if field.value == JStr("messages") {
        var value := Index(change, "value");
        if value.Err? || Index(value.value, "messages").Err?
           || Iterate(Index(value.value, "messages").value).Err? {
          raised := true;
        } else {
          var more;
          more, raised := ReplyToMessages(Iterate(Index(value.value, "messages").value).value);
          sends := sends + more;
        }
      }
      j := j + 1;
    }
    WalkStopped(ChangeStep, changes, j);
  }

  /** The outer loop: the changes of every entry, until something raises. */
  method ReplyToEntries(entries: seq<Json>) returns (sends: seq<Send>, raised: bool)
    ensures Trace(sends, raised) == Walk(EntryStep, entries)
  {
    sends, raised := [], false;
    var i := 0;
    while i < |entries| && !raised
      invariant 0 <= i <= |entries|
      invariant Trace(sends, raised) == Walk(EntryStep, entries[..i])
    {
      WalkStep(EntryStep, entries, i);
      var changes := GetOr(entries[i], "changes", JArr([]));
      if changes.Err? || Iterate(changes.value).Err? {
        raised := true;
      } else {
        var more;
        more, raised := ReplyToChanges(Iterate(changes.value).value);
        sends := sends + more;
      }
      i := i + 1;
    }
    WalkStopped(EntryStep, entries, i);
  }

  /** The POST branch: walk entries, changes and messages, sending one reply
      per text message, and acknowledge with `OK`/200 whatever happens. An
      exception keeps the sends issued so far and jumps to the acknowledgement. */
  method HandlePost(data: Json) returns (resp: Response, sends: seq<Send>)
    ensures resp == Acknowledged
    ensures sends == PostTrace(data).sends
  {
    resp := Acknowledged;
    sends := [];
    var obj := GetOr(data, "object", JNull);
    if obj.Ok? && obj.value == JStr(BusinessAccount) {
      var entries := GetOr(data, "entry", JArr([]));
      if entries.Ok? && Iterate(entries.value).Ok? {
        var raised;
        sends, raised := ReplyToEntries(Iterate(entries.value).value);
      }
    }
  }

  /** The whole handler: GET verifies, POST walks the body, anything else is refused. */
  method HandleWebhook(req: Request, verifyToken: Option<string>) returns (resp: Response, sends: seq<Send>)
    ensures req.verb == "GET" ==>
      && resp == Verify(Arg(req.args, "hub.mode"), Arg(req.args, "hub.verify_token"),
                        Arg(req.args, "hub.challenge"), verifyToken)
      && sends == []
    ensures req.verb == "POST" ==> resp == Acknowledged && sends == PostTrace(req.json).sends
    ensures req.verb != "GET" && req.verb != "POST" ==> resp == NotAllowed && sends == []
  {
    if req.verb == "GET" {
      var mode := Arg(req.args, "hub.mode");
      var token := Arg(req.args, "hub.verify_token");
      var challenge := Arg(req.args, "hub.challenge");
      resp := Verify(mode, token, challenge, verifyToken);
      sends := [];
    } else if req.verb == "POST" {
      resp, sends := HandlePost(req.json);
    } else {
      resp := NotAllowed;
      sends := [];
    }
  }

  // ---------------------------------------------------------------------
  // Reference: a well-formed envelope, and the replies it should produce

  datatype Message = Message(sender: string, kind: string, body: string)
  datatype Change = Change(field: string, messages: seq<Message>)
  datatype Entry = Entry(changes: seq<Change>)
  datatype Envelope = Envelope(objectType: string, entries: seq<Entry>)

  /** The member `key` of `j`, when `j` is an object that has one. */
  function At(j: Json, key: string): Option<Json> {
    if j.JObj? then Lookup(j.fields, key) else None
  }

  /** `j` is an object describing message `m`: its `from` and `type` are the
      sender and kind, and a text message has a `text` object whose `body`
      is the body. Only these lookups are constrained, so the object may hold
      any other members (`id`, `timestamp`, ...), in any order, and a message
      of another kind need not have a `text` member. */
  predicate MessageIs(j: Json, m: Message) {
    && At(j, "from") == Some(JStr(m.sender))
    && At(j, "type") == Some(JStr(m.kind))
    && (m.kind == "text" ==>
          var text := At(j, "text");
          text.Some? && At(text.value, "body") == Some(JStr(m.body)))
  }

  predicate MessagesAre(js: seq<Json>, ms: seq<Message>) {
    |js| == |ms| && forall i :: 0 <= i < |js| ==> MessageIs(js[i], ms[i])
  }

  /** `j` is an object describing change `c`: its `field` is `c.field`, and a
      `messages` change has a `value` object whose `messages` list describes
      the messages. Other members (`metadata`, `contacts`, ...) may appear. */
  predicate ChangeIs(j: Json, c: Change) {
    && At(j, "field") == Some(JStr(c.field))
    && (c.field == "messages" ==>
          var value := At(j, "value");
          && value.Some?
          && var messages := At(value.value, "messages");
          && messages.Some? && messages.value.JArr?
          && MessagesAre(messages.value.items, c.messages))
  }

  predicate ChangesAre(js: seq<Json>, cs: seq<Change>) {
    |js| == |cs| && forall i :: 0 <= i < |js| ==> ChangeIs(js[i], cs[i])
  }

  /** `j` is an object describing entry `e`: its `changes` list describes the
      changes, or it has no `changes` and `e` has none. */
  predicate EntryIs(j: Json, e: Entry) {
    && j.JObj?
    && var changes := At(j, "changes");
    && (changes.None? ==> e.changes == [])
    && (changes.Some? ==> changes.value.JArr? && ChangesAre(changes.value.items, e.changes))
  }

  predicate EntriesAre(js: seq<Json>, es: seq<Entry>) {
    |js| == |es| && forall i :: 0 <= i < |js| ==> EntryIs(js[i], es[i])
  }

  /** `j` is an object describing envelope `env`: its `object` is the object
      type and, for a business-account event, its `entry` list describes the
      entries, or it has no `entry` and `env` has none. */
  predicate EnvelopeIs(j: Json, env: Envelope) {
    && At(j, "object") == Some(JStr(env.objectType))
    && (env.objectType == BusinessAccount ==>
          var entry := At(j, "entry");
          && (entry.None? ==> env.entries == [])
          && (entry.Some? ==> entry.value.JArr? && EntriesAre(entry.value.items, env.entries)))
  }

  /** One reply per text message, to its sender, in order. */
  function MessagesReplies(ms: seq<Message>): seq<Send> {
    if ms == [] then []
    else (if ms[0].kind == "text" then [Send(JStr(ms[0].sender), ReplyFor(ms[0].body))] else [])
         + MessagesReplies(ms[1..])
  }

  /** The replies of the `messages` changes, in order. */
  function ChangesReplies(cs: seq<Change>): seq<Send> {
    if cs == [] then []
    else (if cs[0].field == "messages" then MessagesReplies(cs[0].messages) else [])
         + ChangesReplies(cs[1..])
  }

  function EntriesReplies(es: seq<Entry>): seq<Send> {
    if es == [] then [] else ChangesReplies(es[0].changes) + EntriesReplies(es[1..])
  }

  /** The replies a well-formed envelope asks for: none unless it is a business-account event. */
  function ExpectedReplies(env: Envelope): seq<Send> {
    if env.objectType == BusinessAccount then EntriesReplies(env.entries) else []
  }

  lemma MessageStepOf(j: Json, m: Message)
    requires MessageIs(j, m)
    ensures MessageStep(j)
         == Trace(if m.kind == "text" then [Send(JStr(m.sender), ReplyFor(m.body))] else [], false)
  {
  }

  lemma {:induction false} WalkMessagesOf(js: seq<Json>, ms: seq<Message>)
    requires MessagesAre(js, ms)
    ensures Walk(MessageStep, js) == Trace(MessagesReplies(ms), false)
  {
    if ms != [] {
      MessageStepOf(js[0], ms[0]);
      assert MessagesAre(js[1..], ms[1..]) by {
        forall i | 0 <= i < |js| - 1 ensures MessageIs(js[1..][i], ms[1..][i]) {
          assert js[1..][i] == js[i + 1] && ms[1..][i] == ms[i + 1];
        }
      }
      WalkMessagesOf(js[1..], ms[1..]);
    }
  }

  lemma ChangeStepOf(j: Json, c: Change)
    requires ChangeIs(j, c)
    ensures ChangeStep(j) == if c.field == "messages" then Trace(MessagesReplies(c.messages), false) else Done
  {
    if c.field == "messages" {
      var messages := At(At(j, "value").value, "messages").value;
      WalkMessagesOf(messages.items, c.messages);
    }
  }

  lemma {:induction false} WalkChangesOf(js: seq<Json>, cs: seq<Change>)
    requires ChangesAre(js, cs)
    ensures Walk(ChangeStep, js) == Trace(ChangesReplies(cs), false)
  {
    if cs != [] {
      ChangeStepOf(js[0], cs[0]);
      assert ChangesAre(js[1..], cs[1..]) by {
        forall i | 0 <= i < |js| - 1 ensures ChangeIs(js[1..][i], cs[1..][i]) {
          assert js[1..][i] == js[i + 1] && cs[1..][i] == cs[i + 1];
        }
      }
      WalkChangesOf(js[1..], cs[1..]);
    }
  }

  lemma EntryStepOf(j: Json, e: Entry)
    requires EntryIs(j, e)
    ensures EntryStep(j) == Trace(ChangesReplies(e.changes), false)
  {
    var changes := At(j, "changes");
    if changes.Some? {
      WalkChangesOf(changes.value.items, e.changes);
    }
  }

  lemma {:induction false} WalkEntriesOf(js: seq<Json>, es: seq<Entry>)
    requires EntriesAre(js, es)
    ensures Walk(EntryStep, js) == Trace(EntriesReplies(es), false)
  {
    if es != [] {
      EntryStepOf(js[0], es[0]);
      assert EntriesAre(js[1..], es[1..]) by {
        forall i | 0 <= i < |js| - 1 ensures EntryIs(js[1..][i], es[1..][i]) {
          assert js[1..][i] == js[i + 1] && es[1..][i] == es[i + 1];
        }
      }
      WalkEntriesOf(js[1..], es[1..]);
    }
  }

  /** A body describing a well-formed envelope is walked to the end without
      raising, and its sends are exactly one reply per text message of a
      `messages` change, addressed to the message's sender, in entry, change
      and message order. Members the walk does not read are ignored. */
  lemma PostOfEnvelope(data: Json, env: Envelope)
    requires EnvelopeIs(data, env)
    ensures PostTrace(data) == Trace(ExpectedReplies(env), false)
  {
    if env.objectType == BusinessAccount {
      var entry := At(data, "entry");
      if entry.Some? {
        WalkEntriesOf(entry.value.items, env.entries);
      }
    }
  }

  // ---------------------------------------------------------------------
  // A delivery laid out as the Cloud API sends it

  /** The message object of an inbound text message notification, with the
      `id` and `timestamp` members the provider includes. */
  function DeliveredMessage(sender: string, body: string): Json {
    JObj([("from", JStr(sender)), ("id", JStr("wamid.ID")), ("timestamp", JStr("1700000000")),
          ("text", JObj([("body", JStr(body))])), ("type", JStr("text"))])
  }

  /** The change object around it: `value` (with `messaging_product`,
      `metadata` and `contacts`) comes before `field`. */
  function DeliveredChange(sender: string, body: string): Json {
    var value := JObj([("messaging_product", JStr("whatsapp")),
                       ("metadata", JObj([("display_phone_number", JStr("15550000000")),
                                          ("phone_number_id", JStr("PHONE_NUMBER_ID"))])),
                       ("contacts", JArr([JObj([("profile", JObj([("name", JStr("NAME"))])),
                                                ("wa_id", JStr(sender))])])),
                       ("messages", JArr([DeliveredMessage(sender, body)]))]);
    JObj([("value", value), ("field", JStr("messages"))])
  }

  /** The whole notification: one entry, with its `id`, holding the change. */
  function TextDelivery(sender: string, body: string): Json {
    var entry := JObj([("id", JStr("WHATSAPP_BUSINESS_ACCOUNT_ID")),
                       ("changes", JArr([DeliveredChange(sender, body)]))]);
    JObj([("object", JStr(BusinessAccount)), ("entry", JArr([entry]))])
  }

  lemma DeliveredMessageIs(sender: string, body: string)
    ensures MessageIs(DeliveredMessage(sender, body), Message(sender, "text", body))
  {
    var fields := DeliveredMessage(sender, body).fields;
    LookupSole(fields, 0, "from");
    LookupSole(fields, 4, "type");
    LookupSole(fields, 3, "text");
    LookupSole([("body", JStr(body))], 0, "body");
  }

  lemma DeliveredChangeIs(sender: string, body: string)
    ensures ChangeIs(DeliveredChange(sender, body), Change("messages", [Message(sender, "text", body)]))
  {
    var fields := DeliveredChange(sender, body).fields;
    LookupSole(fields, 1, "field");
    LookupSole(fields, 0, "value");
    LookupSole(fields[0].1.fields, 3, "messages");
    DeliveredMessageIs(sender, body);
  }

  /** The envelope such a delivery describes: one entry, one `messages` change, one text message. */
  function DeliveredEnvelope(sender: string, body: string): Envelope {
    Envelope(BusinessAccount, [Entry([Change("messages", [Message(sender, "text", body)])])])
  }

  lemma TextDeliveryIs(sender: string, body: string)
    ensures EnvelopeIs(TextDelivery(sender, body), DeliveredEnvelope(sender, body))
  {
    var data := TextDelivery(sender, body);
    var env := DeliveredEnvelope(sender, body);
    LookupSole(data.fields, 0, "object");
    LookupSole(data.fields, 1, "entry");
    var entry := data.fields[1].1.items[0];
    LookupSole(entry.fields, 1, "changes");
    DeliveredChangeIs(sender, body);
    assert EntryIs(entry, env.entries[0]);
  }

  lemma DeliveredEnvelopeReplies(sender: string, body: string)
    ensures ExpectedReplies(DeliveredEnvelope(sender, body)) == [Send(JStr(sender), ReplyFor(body))]
  {
    var m := Message(sender, "text", body);
    var c := Change("messages", [m]);
    var e := Entry([c]);
    assert [m][1..] == [] && [c][1..] == [] && [e][1..] == [];
    var sends := MessagesReplies([m]);
    assert sends == [Send(JStr(sender), ReplyFor(body))] + MessagesReplies([]);
    assert ChangesReplies([c]) == sends + ChangesReplies([]);
    assert EntriesReplies([e]) == ChangesReplies([c]) + EntriesReplies([]);
  }

  /** Such a delivery gets exactly one reply, to the message's sender. */
  lemma TextDeliveryReplies(sender: string, body: string)
    ensures PostTrace(TextDelivery(sender, body)) == Trace([Send(JStr(sender), ReplyFor(body))], false)
  {
    TextDeliveryIs(sender, body);
    PostOfEnvelope(TextDelivery(sender, body), DeliveredEnvelope(sender, body));
    DeliveredEnvelopeReplies(sender, body);
  }
}
