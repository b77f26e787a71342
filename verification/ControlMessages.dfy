/** Control messages on the way from MQTT through Kafka to the table. */
module ControlMessages {
  import opened Domain
  import opened ConnectionTable
  import opened MessageLog
  import Inventory
  import Topics

  // ----- Messages -----

  datatype ControlMessage = ControlMessage(kind: string, id: string, sent: int, content: Json)

  datatype Payload = Empty | Malformed | Decoded(msg: ControlMessage)

  datatype Header = Header(key: string, value: string)

  datatype KafkaMessage = KafkaMessage(headers: seq<Header>, key: string, value: Payload)

  const TOPIC_HEADER := "topic"
  const MESSAGE_ID_HEADER := "mqtt_message_id"
  const DATE_RECEIVED_HEADER := "date_received"

  function HeaderValue(headers: seq<Header>, name: string): string {
    if headers == [] then ""
    else if headers[0].key == name then headers[0].value
    else HeaderValue(headers[1..], name)
  }

  lemma {:induction false} HeaderValueIsFirst(headers: seq<Header>, name: string, i: nat)
    requires i < |headers| && headers[i].key == name
    requires forall j :: 0 <= j < i ==> headers[j].key != name
    ensures HeaderValue(headers, name) == headers[i].value
  {
    if i > 0 { HeaderValueIsFirst(headers[1..], name, i - 1); }
  }

  lemma {:induction false} HeaderValueMissing(headers: seq<Header>, name: string)
    requires forall j :: 0 <= j < |headers| ==> headers[j].key != name
    ensures HeaderValue(headers, name) == ""
  {
    if headers != [] { HeaderValueMissing(headers[1..], name); }
  }

  method GetHeaderValueAsString(headers: seq<Header>, name: string) returns (value: string)
    ensures value == HeaderValue(headers, name)
  {
    for i := 0 to |headers|
      invariant forall j :: 0 <= j < i ==> headers[j].key != name
    {
      if headers[i].key == name {
        HeaderValueIsFirst(headers, name, i);
        return headers[i].value;
      }
    }
    HeaderValueMissing(headers, name);
    value := "";
  }

  // ----- From MQTT to Kafka -----

  /** The log that the MQTT consumer writes. */
  class KafkaLog {
    const prefix: string
    var messages: seq<KafkaMessage>

    constructor (configuredPrefix: string)
      ensures prefix == (if configuredPrefix == "" then "redhat" else configuredPrefix) && messages == []
    {
      prefix := Topics.Prefix(configuredPrefix);
      messages := [];
    }

    /** Every message of the log carries a topic of the client that is its key. */
    ghost predicate Keyed()
      reads this
    {
      forall i :: 0 <= i < |messages| ==> KeyedMessage(prefix, messages[i])
    }

    method ControlMessageHandler(topic: string, messageId: string, received: string, payload: Payload, written: bool)
      requires Keyed()
      modifies this
      ensures Keyed()
      ensures var v := Topics.VerifyIncomingTopic(prefix, topic);
              if v.Invalid? || payload.Empty? || !written then messages == old(messages)
              else messages == old(messages) + [KafkaMessage(
                [Header("topic", topic), Header("mqtt_message_id", messageId), Header("date_received", received)],
                v.client, payload)]
    {
      var v := Topics.VerifyIncomingTopic(prefix, topic);
      if v.Invalid? {
        return;
      }
      if payload.Empty? {
        return;
      }
      if written {
        messages := messages + [KafkaMessage(
          [Header(TOPIC_HEADER, topic), Header(MESSAGE_ID_HEADER, messageId), Header(DATE_RECEIVED_HEADER, received)],
          v.client, payload)];
      }
    }

    /** Dispatches by topic type; data messages are only counted. */
    method DefaultMessageHandler(topic: string, messageId: string, received: string, payload: Payload, written: bool)
      requires Keyed()
      modifies this
      ensures Keyed()
      ensures var v := Topics.VerifyIncomingTopic(prefix, topic);
              if v.Invalid? || v.kind != Topics.ControlTopic || payload.Empty? || !written then messages == old(messages)
              else messages == old(messages) + [KafkaMessage(
                [Header("topic", topic), Header("mqtt_message_id", messageId), Header("date_received", received)],
                v.client, payload)]
    {
      var v := Topics.VerifyIncomingTopic(prefix, topic);
      if v.Invalid? {
        return;
      }
      if v.kind == Topics.ControlTopic {
        ControlMessageHandler(topic, messageId, received, payload, written);
      }
    }
  }

  ghost predicate KeyedMessage(prefix: string, m: KafkaMessage) {
    var v := Topics.VerifyIncomingTopic(prefix, HeaderValue(m.headers, TOPIC_HEADER));
    v.Incoming? && v.client == m.key
  }

  // ----- What the consumer makes of a message -----

  predicate TextIfPresent(fields: map<string, Json>, key: string) {
    key in fields ==> fields[key].Text?
  }

  /** Tags that are no map are ignored; the values of a map must be strings. */
  predicate TagsWellTyped(tags: Json) {
    tags.Object? ==> forall k :: k in tags.fields ==> tags.fields[k].Text?
  }

  /** The catalog's sources are registered with four strings, if all four are there. */
  predicate CatalogWellTyped(catalog: Json) {
    && catalog.Object?
    && var keys := {"ApplicationType", "SrcName", "SourceRef", "SrcType"};
       keys <= catalog.fields.Keys ==> forall k :: k in keys ==> TextIfPresent(catalog.fields, k)
  }

  /** Dispatchers are absent or a map; an explicit null is neither. */
  predicate DispatchersAccepted(fields: map<string, Json>) {
    "dispatchers" in fields ==>
      && fields["dispatchers"].Object?
      && var dispatchers := fields["dispatchers"].fields;
         "catalog" in dispatchers ==> CatalogWellTyped(dispatchers["catalog"])
  }

  /** The content that the handler's type assertions accept. */
  predicate WellTyped(m: ControlMessage) {
    m.kind == "connection-status" ==>
      && m.content.Object?
      && var fields := m.content.fields;
         && ("state" in fields ==> TextIfPresent(fields, "client_name") && TextIfPresent(fields, "client_version"))
         && (Inventory.Field(fields, "state") == Text("online") ==>
               && Inventory.FactsWellTyped(Inventory.Field(fields, "canonical_facts"))
               && TagsWellTyped(Inventory.Field(fields, "tags"))
               && DispatchersAccepted(fields))
  }

  /** Only messages that get as far as the handler of control messages matter. */
  predicate MessageWellTyped(prefix: string, m: KafkaMessage) {
    var v := Topics.VerifyIncomingTopic(prefix, HeaderValue(m.headers, TOPIC_HEADER));
    v.Incoming? && v.kind == Topics.ControlTopic && m.value.Decoded? ==> WellTyped(m.value.msg)
  }

  function ActionOf(client: ClientId, m: ControlMessage, validUUID: string -> bool): Action {
    if m.kind != "connection-status" || !m.content.Object? then Ignore
    else
      var fields := m.content.fields;
      if Inventory.Field(fields, "state") == Text("online") then
        Online(client, MessageColumns(m.id, m.sent, Inventory.Field(fields, "dispatchers"), Inventory.Field(fields, "tags"),
                                      Inventory.Sanitized(Inventory.Field(fields, "canonical_facts"), validUUID)))
      else if Inventory.Field(fields, "state") == Text("offline") then Offline(client)
      else Ignore
  }

  function Interpret(prefix: string, m: KafkaMessage, validUUID: string -> bool): Action {
    var v := Topics.VerifyIncomingTopic(prefix, HeaderValue(m.headers, TOPIC_HEADER));
    if v.Incoming? && v.kind == Topics.ControlTopic && m.value.Decoded?
    then ActionOf(v.client, m.value.msg, validUUID) else Ignore
  }

  /** The action that a keyed message stands for concerns the client that is its key,
      so a client's messages all lie in the partition of its key. */
  lemma ActionFollowsKey(prefix: string, m: KafkaMessage, validUUID: string -> bool)
    requires KeyedMessage(prefix, m)
    ensures var a := Interpret(prefix, m, validUUID);
            !a.Ignore? ==> a.client == m.key
  {
  }

  lemma ActionWellTyped(prefix: string, m: KafkaMessage, validUUID: string -> bool)
    requires MessageWellTyped(prefix, m)
    ensures var a := Interpret(prefix, m, validUUID);
            a.Online? ==> Inventory.ColumnsWellTyped(a.msg)
  {
  }

  // ----- The handler -----

  /** The returns of the handler's calls, and the updater statements that land
      between its lookup of the row and its write. */
  datatype Environment = Environment(
    queryFailed: bool,
    between: seq<Statement>,
    answer: Answer,
    outcome: WriteOutcome,
    delivery: Inventory.Delivery,
    now: int)

  predicate IsUpdaterStatement(st: Statement) {
    st.MarkFresh? || st.MarkFailed? || st.MarkResolved?
  }

  /** A client's message columns in the table. */
  function Columns(rows: seq<Row>, c: ClientId): Option<MessageColumns> {
    var o := Find(rows, c);
    if o.Some? then Some(o.value.message) else None
  }

  /** No updater statement touches a message column or adds or removes a row. */
  lemma UpdatersKeepColumns(rows: seq<Row>, st: Statement, c: ClientId)
    requires Unique(rows) && IsUpdaterStatement(st)
    ensures Unique(Execute(rows, st))
    ensures Columns(Execute(rows, st), c) == Columns(rows, c)
  {
    ExecuteRefinesMap(rows, st, c);
  }

  /** An upsert that passed the duplicate check applies the message to its client's columns. */
  lemma UpsertApplies(rows: seq<Row>, state: ClientState, now: int, c: ClientId)
    requires Unique(rows)
    requires Columns(rows, state.client).Some? ==> !IsDuplicateOrOld(Columns(rows, state.client).value, state.message)
    ensures Columns(Execute(rows, RegisterStatement(state, now)), c)
         == Apply(Columns(rows, c), Online(state.client, state.message), c)
  {
    ExecuteRefinesMap(rows, RegisterStatement(state, now), c);
  }

  lemma DeleteApplies(rows: seq<Row>, client: ClientId, c: ClientId)
    requires Unique(rows)
    ensures Columns(Execute(rows, Delete(client)), c) == Apply(Columns(rows, c), Offline(client), c)
  {
    ExecuteRefinesMap(rows, Delete(client), c);
  }

  /** Whether a call on `a` reports an error, and whether `a` is in the table afterwards. */
  function Verdict(a: Action, before: Option<MessageColumns>, env: Environment): (r: (bool, bool)) {
    match a
    case Ignore => (false, true)
    case Offline(_) => (!env.outcome.Written?, TookEffect(env.outcome))
    case Online(_, m) =>
      if env.queryFailed then (true, false)
      else if before.Some? && IsDuplicateOrOld(before.value, m) then (false, true)
      else (env.outcome.Broken?, TookEffect(env.outcome))
  }

  /** Whether the handler of an online message gets as far as `Register`. */
  predicate Registers(m: MessageColumns, before: Option<MessageColumns>, env: Environment) {
    !env.queryFailed && !(before.Some? && IsDuplicateOrOld(before.value, m))
  }

  function ExecuteAll(rows: seq<Row>, sts: seq<Statement>): seq<Row> {
    if sts == [] then rows else Execute(ExecuteAll(rows, sts[..|sts| - 1]), sts[|sts| - 1])
  }

  /** The table after a message, with the updaters' statements in between. */
  function Handled(a: Action, rows: seq<Row>, env: Environment): seq<Row> {
    match a
    case Ignore => rows
    case Offline(c) => if TookEffect(env.outcome) then Execute(rows, Delete(c)) else rows
    case Online(c, m) =>
      if !Registers(m, Columns(rows, c), env) then rows
      else
        var mid := ExecuteAll(rows, env.between);
        if !TookEffect(env.outcome) then mid
        else Execute(mid, RegisterStatement(ClientState(c, env.answer.account, env.answer.org, m), env.now))
  }

  /** The messages for host inventory that a control message leads to. */
  function Reported(a: Action, rows: seq<Row>, env: Environment): seq<Inventory.HostMessage> {
    if a.Online? && Registers(a.msg, Columns(rows, a.client), env) && env.outcome.Written?
       && Inventory.Records(a.msg, env.answer, env.delivery)
    then [Inventory.HostMessage(a.client, env.answer.org, env.answer)] else []
  }

  ghost predicate UpdatersOnly(sts: seq<Statement>) {
    forall st :: st in sts ==> IsUpdaterStatement(st)
  }

  lemma {:induction false} InterferenceKeepsColumns(rows: seq<Row>, sts: seq<Statement>, c: ClientId)
    requires Unique(rows) && UpdatersOnly(sts)
    ensures Unique(ExecuteAll(rows, sts))
    ensures Columns(ExecuteAll(rows, sts), c) == Columns(rows, c)
  {
    if sts != [] {
      var rest := sts[..|sts| - 1];
      InterferenceKeepsColumns(rows, rest, c);
      UpdatersKeepColumns(ExecuteAll(rows, rest), sts[|sts| - 1], c);
    }
  }

  /** Whatever the updaters do in between, a handled message has been applied to the
      message columns of every client or not at all, as the verdict says. */
  lemma HandledColumns(a: Action, rows: seq<Row>, env: Environment, c: ClientId)
    requires Unique(rows) && UpdatersOnly(env.between)
    ensures Unique(Handled(a, rows, env))
    ensures Columns(Handled(a, rows, env), c)
         == if Verdict(a, if a.Ignore? then None else Columns(rows, a.client), env).1
            then Apply(Columns(rows, c), a, c) else Columns(rows, c)
  {
    match a
    case Ignore =>
    case Offline(client) =>
      ExecuteKeepsUnique(rows, Delete(client));
      DeleteApplies(rows, client, c);
    case Online(client, m) =>
      if Registers(m, Columns(rows, client), env) {
        InterferenceKeepsColumns(rows, env.between, c);
        InterferenceKeepsColumns(rows, env.between, client);
        var state := ClientState(client, env.answer.account, env.answer.org, m);
        var mid := ExecuteAll(rows, env.between);
        ExecuteKeepsUnique(mid, RegisterStatement(state, env.now));
        UpsertApplies(mid, state, env.now, c);
      }
  }

  /** A message is acknowledged without being in the table only when `Register`
      failed without effect and the failure was not fatal. */
  lemma AcknowledgedMeansApplied(a: Action, before: Option<MessageColumns>, env: Environment)
    ensures var (failed, applied) := Verdict(a, before, env);
            !failed && !applied <==>
            && a.Online? && env.outcome == Rejected(false) && !env.queryFailed
            && !(before.Some? && IsDuplicateOrOld(before.value, a.msg))
  {
  }

  // ----- What a message means, from its own fields -----

  /** The message came in on the control topic of the client. */
  predicate Addressed(prefix: string, m: KafkaMessage, c: ClientId) {
    Topics.VerifyIncomingTopic(prefix, HeaderValue(m.headers, "topic")) == Topics.Incoming(Topics.ControlTopic, c)
  }

  predicate Announces(m: KafkaMessage, state: string) {
    && m.value.Decoded? && m.value.msg.kind == "connection-status" && m.value.msg.content.Object?
    && var fields := m.value.msg.content.fields;
       "state" in fields && fields["state"] == Text(state)
  }

  /** The table and the inventory around one message. */
  datatype Effect = Effect(failed: bool, before: map<ClientId, Row>, after: map<ClientId, Row>, sent: seq<Inventory.HostMessage>)

  /** An offline message removes its client, however old it is. */
  ghost predicate GoesOffline(c: ClientId, env: Environment, x: Effect) {
    && x.failed == !env.outcome.Written?
    && x.after == (if env.outcome.Written? || env.outcome.effective then x.before - {c} else x.before)
    && x.sent == []
  }

  /** The columns that an online message carries; facts come sanitized. */
  function Carried(msg: ControlMessage, validUUID: string -> bool): MessageColumns
    requires msg.content.Object?
  {
    var fields := msg.content.fields;
    MessageColumns(msg.id, msg.sent,
                   if "dispatchers" in fields then fields["dispatchers"] else Null,
                   if "tags" in fields then fields["tags"] else Null,
                   Inventory.Sanitized(if "canonical_facts" in fields then fields["canonical_facts"] else Null, validUUID))
  }

  /** The message is neither a repeat of the client's row nor older than it. */
  predicate IsNews(c: ClientId, msg: ControlMessage, before: map<ClientId, Row>) {
    c in before ==> before[c].message.id != msg.id && before[c].message.sent <= msg.sent
  }

  /** The row that a new online message leaves if nothing comes between. */
  function RowOnline(c: ClientId, carried: MessageColumns, env: Environment, before: map<ClientId, Row>): Row {
    var lookupTime := if env.answer.org == "" then Some(env.now) else None;
    if c in before then
      Row(c, env.answer.account, env.answer.org, carried.(facts := before[c].message.facts), before[c].staleTime,
          lookupTime, if env.answer.org == "" then before[c].failures else 0)
    else Row(c, env.answer.account, env.answer.org, carried, env.now, lookupTime, 0)
  }

  /** An online message registers its client, unless it is no news or the lookup fails,
      and a host with an identity is sent to inventory. */
  ghost predicate GoesOnline(c: ClientId, msg: ControlMessage, validUUID: string -> bool, env: Environment, x: Effect)
    requires msg.content.Object?
  {
    var carried := Carried(msg, validUUID);
    var news := !env.queryFailed && IsNews(c, msg, x.before);
    var effective := env.outcome.Written? || env.outcome.effective;
    && x.failed == (env.queryFailed || (news && env.outcome.Broken?))
    && (!news ==> x.after == x.before)
    && (news && env.between == [] ==>
          x.after == if effective then x.before[c := RowOnline(c, carried, env, x.before)] else x.before)
    && (news && UpdatersOnly(env.between) && effective ==>
          && x.after.Keys == x.before.Keys + {c}
          && x.after[c].message == carried.(facts := if c in x.before then x.before[c].message.facts else carried.facts)
          && x.after[c].account == env.answer.account && x.after[c].org == env.answer.org)
    && x.sent == (if news && env.outcome.Written? && env.answer.identity != "" && Inventory.IsHost(carried) && env.delivery.Sent?
                  then [Inventory.HostMessage(c, env.answer.org, env.answer)] else [])
  }

  /** What the table becomes, read from the message's fields. */
  ghost predicate Meant(prefix: string, m: KafkaMessage, validUUID: string -> bool, env: Environment, x: Effect) {
    && (forall c :: Addressed(prefix, m, c) && Announces(m, "offline") ==> GoesOffline(c, env, x))
    && (forall c :: Addressed(prefix, m, c) && Announces(m, "online") ==> GoesOnline(c, m.value.msg, validUUID, env, x))
    && ((forall c :: !Addressed(prefix, m, c)) || (!Announces(m, "offline") && !Announces(m, "online")) ==>
          !x.failed && x.after == x.before && x.sent == [])
  }

  ghost predicate SameMessages(view: map<ClientId, Row>, after: map<ClientId, Row>) {
    after.Keys == view.Keys && forall c :: c in view ==> after[c].message == view[c].message
  }

  lemma UpdaterKeepsMessages(view: map<ClientId, Row>, st: Statement)
    requires IsUpdaterStatement(st)
    ensures SameMessages(view, ExecuteOnMap(view, st))
  {
  }

  lemma {:induction false} ViewAfterAll(rows: seq<Row>, view: map<ClientId, Row>, sts: seq<Statement>)
    returns (after: map<ClientId, Row>)
    requires Agrees(rows, view)
    ensures Agrees(ExecuteAll(rows, sts), after)
    ensures sts == [] ==> after == view
    ensures UpdatersOnly(sts) ==> SameMessages(view, after)
  {
    after := view;
    if sts != [] {
      var rest, st := sts[..|sts| - 1], sts[|sts| - 1];
      var mid := ViewAfterAll(rows, view, rest);
      AgreesAfter(ExecuteAll(rows, rest), mid, st);
      after := ExecuteOnMap(mid, st);
      if UpdatersOnly(sts) {
        assert UpdatersOnly(rest) && IsUpdaterStatement(st);
        UpdaterKeepsMessages(mid, st);
      }
    }
  }

  lemma OfflineMeans(c: ClientId, env: Environment, rows: seq<Row>, x: Effect)
    requires Agrees(rows, x.before) && Agrees(Handled(Offline(c), rows, env), x.after)
    requires x.failed == Verdict(Offline(c), None, env).0 && x.sent == []
    ensures GoesOffline(c, env, x)
  {
    if TookEffect(env.outcome) {
      AgreesAfter(rows, x.before, Delete(c));
      ViewIsDetermined(Execute(rows, Delete(c)), x.after, ExecuteOnMap(x.before, Delete(c)));
    } else {
      ViewIsDetermined(rows, x.before, x.after);
    }
  }

  /** The upsert on the map of rows. */
  lemma RegisteredInView(view: map<ClientId, Row>, state: ClientState, now: int)
    ensures var st := RegisterStatement(state, now);
            ExecuteOnMap(view, st) == view[state.client := if state.client in view then Rewrite(st, view[state.client])
                                                           else Inserted(state, st.lookupTime, now)]
  {
  }

  /** An effective upsert, after whatever the updaters did, read as a map. */
  lemma OnlineRegisters(c: ClientId, carried: MessageColumns, env: Environment, rows: seq<Row>,
                        before: map<ClientId, Row>, after: map<ClientId, Row>)
    requires var state := ClientState(c, env.answer.account, env.answer.org, carried);
             && Agrees(rows, before)
             && Agrees(Execute(ExecuteAll(rows, env.between), RegisterStatement(state, env.now)), after)
    ensures env.between == [] ==> after == before[c := RowOnline(c, carried, env, before)]
    ensures UpdatersOnly(env.between) ==>
              && after.Keys == before.Keys + {c}
              && after[c].message == carried.(facts := if c in before then before[c].message.facts else carried.facts)
              && after[c].account == env.answer.account && after[c].org == env.answer.org
  {
    var mid := ViewAfterAll(rows, before, env.between);
    var state := ClientState(c, env.answer.account, env.answer.org, carried);
    var st := RegisterStatement(state, env.now);
    AgreesAfter(ExecuteAll(rows, env.between), mid, st);
    ViewIsDetermined(Execute(ExecuteAll(rows, env.between), st), after, ExecuteOnMap(mid, st));
    RegisteredInView(mid, state, env.now);
    if c in mid { FindInView(ExecuteAll(rows, env.between), mid, c); }
  }

  lemma FindInView(rows: seq<Row>, view: map<ClientId, Row>, c: ClientId)
    requires Agrees(rows, view) && c in view
    ensures view[c].client == c
  {
    assert Find(rows, c) == Get(view, c);
  }

  lemma OnlineMeans(c: ClientId, msg: ControlMessage, validUUID: string -> bool, env: Environment, rows: seq<Row>, x: Effect)
    requires msg.content.Object?
    requires var a := Online(c, Carried(msg, validUUID));
             && Agrees(rows, x.before) && Agrees(Handled(a, rows, env), x.after)
             && x.failed == Verdict(a, Columns(rows, c), env).0 && x.sent == Reported(a, rows, env)
    ensures GoesOnline(c, msg, validUUID, env, x)
  {
    var carried := Carried(msg, validUUID);
    Inventory.GateIsForHosts(carried, env.answer.identity);
    assert Find(rows, c) == Get(x.before, c);
    if Registers(carried, Columns(rows, c), env) {
      if TookEffect(env.outcome) {
        OnlineRegisters(c, carried, env, rows, x.before, x.after);
      } else {
        var mid := ViewAfterAll(rows, x.before, env.between);
        ViewIsDetermined(ExecuteAll(rows, env.between), x.after, mid);
      }
    } else {
      ViewIsDetermined(rows, x.before, x.after);
    }
  }

  lemma MessageMeans(prefix: string, m: KafkaMessage, validUUID: string -> bool, env: Environment, rows: seq<Row>, x: Effect)
    requires var a := Interpret(prefix, m, validUUID);
             && Agrees(rows, x.before) && Agrees(Handled(a, rows, env), x.after)
             && x.failed == Verdict(a, if a.Ignore? then None else Columns(rows, a.client), env).0
             && x.sent == Reported(a, rows, env)
    ensures Meant(prefix, m, validUUID, env, x)
  {
    var a := Interpret(prefix, m, validUUID);
    forall c | Addressed(prefix, m, c) && Announces(m, "offline") ensures GoesOffline(c, env, x) {
      OfflineMeans(c, env, rows, x);
    }
    forall c | Addressed(prefix, m, c) && Announces(m, "online") ensures GoesOnline(c, m.value.msg, validUUID, env, x) {
      assert a == Online(c, Carried(m.value.msg, validUUID));
      OnlineMeans(c, m.value.msg, validUUID, env, rows, x);
    }
    if (forall c :: !Addressed(prefix, m, c)) || (!Announces(m, "offline") && !Announces(m, "online")) {
      IgnoredUnlessAddressed(prefix, m, validUUID);
      ViewIsDetermined(rows, x.before, x.after);
    }
  }

  lemma IgnoredUnlessAddressed(prefix: string, m: KafkaMessage, validUUID: string -> bool)
    requires (forall c :: !Addressed(prefix, m, c)) || (!Announces(m, "offline") && !Announces(m, "online"))
    ensures Interpret(prefix, m, validUUID).Ignore?
  {
    var v := Topics.VerifyIncomingTopic(prefix, HeaderValue(m.headers, TOPIC_HEADER));
    if v.Incoming? && v.kind == Topics.ControlTopic { assert Addressed(prefix, m, v.client); }
  }

  /** The action that a message stands for in a log, from the message's fields. */
  lemma ActionMeans(prefix: string, m: KafkaMessage, validUUID: string -> bool, c: ClientId)
    ensures Interpret(prefix, m, validUUID) == Offline(c) <==> Addressed(prefix, m, c) && Announces(m, "offline")
    ensures (exists msg :: Interpret(prefix, m, validUUID) == Online(c, msg)) <==> Addressed(prefix, m, c) && Announces(m, "online")
    ensures Addressed(prefix, m, c) && Announces(m, "online") ==>
              Interpret(prefix, m, validUUID) == Online(c, Carried(m.value.msg, validUUID))
  {
    if Addressed(prefix, m, c) && Announces(m, "online") {
      assert Interpret(prefix, m, validUUID) == Online(c, Carried(m.value.msg, validUUID));
    }
  }

  class Handler {
    const prefix: string
    const validUUID: string -> bool
    const db: Database
    var inventory: seq<Inventory.HostMessage>

    constructor (configuredPrefix: string, validUUID: string -> bool, db: Database)
      ensures prefix == (if configuredPrefix == "" then "redhat" else configuredPrefix) && this.validUUID == validUUID
      ensures this.db == db && inventory == []
    {
      prefix := Topics.Prefix(configuredPrefix);
      this.validUUID := validUUID;
      this.db := db;
      inventory := [];
    }

    method CheckForDuplicateOnlineMessage(client: ClientId, msg: ControlMessage, queryFailed: bool)
      returns (fatal: bool, skip: bool)
      requires db.Valid()
      ensures fatal == queryFailed
      ensures !fatal ==>
                skip == (Columns(db.rows, client).Some? &&
                         var m := Columns(db.rows, client).value; m.id == msg.id || msg.sent < m.sent)
    {
      var found, err := db.FindConnectionByClientID(client, queryFailed);
      if err == NotFound {
        return false, false;
      }
      if err == Fatal {
        return true, false;
      }
      var current := found.value.message;
      return false, current.id == msg.id || msg.sent < current.sent;
    }

    /** The updaters' statements, run by their own processes. */
    method Interfere(sts: seq<Statement>)
      requires db.Valid()
      modifies db
      ensures db.Valid() && db.rows == ExecuteAll(old(db.rows), sts)
    {
      for i := 0 to |sts|
        invariant db.Valid() && db.rows == ExecuteAll(old(db.rows), sts[..i])
      {
        assert sts[..i + 1][..i] == sts[..i];
        db.Run(sts[i]);
      }
      assert sts[..|sts|] == sts;
    }

    method HandleOnlineMessage(client: ClientId, msg: ControlMessage, env: Environment) returns (failed: bool)
      requires db.Valid() && msg.kind == "connection-status" && WellTyped(msg)
      requires Inventory.Field(msg.content.fields, "state") == Text("online")
      modifies this, db
      ensures db.Valid()
      ensures var a := ActionOf(client, msg, validUUID);
              && failed == Verdict(a, old(Columns(db.rows, client)), env).0
              && db.rows == Handled(a, old(db.rows), env)
              && inventory == old(inventory) + Reported(a, old(db.rows), env)
    {
      var fatal, skip := CheckForDuplicateOnlineMessage(client, msg, env.queryFailed);
      if fatal {
        return true;
      }
      if skip {
        return false;
      }
      Interfere(env.between);

      // A failed lookup is logged; the connection is registered without a tenant.
      var fields := msg.content.fields;
      var facts := Inventory.SanitizeCanonicalFacts(Inventory.Field(fields, "canonical_facts"), validUUID);
      var columns := MessageColumns(msg.id, msg.sent, Inventory.Field(fields, "dispatchers"),
                                    Inventory.Field(fields, "tags"), facts);
      var state := ClientState(client, env.answer.account, env.answer.org, columns);

      var err := db.Register(state, env.now, env.outcome);
      if err == Fatal {
        return true;
      }
      if err == Plain {
        return false;
      }
      if Inventory.Records(columns, env.answer, env.delivery) {
        inventory := inventory + [Inventory.HostMessage(client, env.answer.org, env.answer)];
      }
      return false;
    }

    method HandleOfflineMessage(client: ClientId, env: Environment) returns (failed: bool)
      requires db.Valid()
      modifies db
      ensures db.Valid()
      ensures failed == Verdict(Offline(client), None, env).0
      ensures db.rows == Handled(Offline(client), old(db.rows), env)
    {
      var err := db.Unregister(client, env.outcome);
      failed := err == Fatal;
    }

    method HandleControlMessage(client: ClientId, payload: Payload, env: Environment) returns (failed: bool)
      requires db.Valid() && (payload.Decoded? ==> WellTyped(payload.msg))
      modifies this, db
      ensures db.Valid()
      ensures var a := if payload.Decoded? then ActionOf(client, payload.msg, validUUID) else Ignore;
              && failed == Verdict(a, old(Columns(db.rows, client)), env).0
              && db.rows == Handled(a, old(db.rows), env)
              && inventory == old(inventory) + Reported(a, old(db.rows), env)
    {
      failed := false;
      match payload
      case Empty => return;
      case Malformed => return;
      case Decoded(msg) =>
        if msg.kind != "connection-status" {
          return;
        }
        if "state" !in msg.content.fields {
          return;
        }
        var state := msg.content.fields["state"];
        if state == Text("online") {
          failed := HandleOnlineMessage(client, msg, env);
        } else if state == Text("offline") {
          failed := HandleOfflineMessage(client, env);
        }
    }

    /** The function that the consumer loop calls on each message it fetches: what it does
        is what the message means, and what the log's action for it stands for. */
    method HandleMessage(m: KafkaMessage, env: Environment) returns (failed: bool)
      requires db.Valid() && MessageWellTyped(prefix, m)
      modifies this, db
      ensures db.Valid()
      ensures var a := Interpret(prefix, m, validUUID);
              && failed == Verdict(a, if a.Ignore? then None else old(Columns(db.rows, a.client)), env).0
              && db.rows == Handled(a, old(db.rows), env)
              && inventory == old(inventory) + Reported(a, old(db.rows), env)
      ensures old(inventory) <= inventory
      ensures Meant(prefix, m, validUUID, env, Effect(failed, old(db.view), db.view, inventory[|old(inventory)|..]))
    {
      failed := HandleFetched(m, env);
      MessageMeans(prefix, m, validUUID, env, old(db.rows),
                   Effect(failed, old(db.view), db.view, inventory[|old(inventory)|..]));
    }

    method HandleFetched(m: KafkaMessage, env: Environment) returns (failed: bool)
      requires db.Valid() && MessageWellTyped(prefix, m)
      modifies this, db
      ensures db.Valid()
      ensures var a := Interpret(prefix, m, validUUID);
              && failed == Verdict(a, if a.Ignore? then None else old(Columns(db.rows, a.client)), env).0
              && db.rows == Handled(a, old(db.rows), env)
              && inventory == old(inventory) + Reported(a, old(db.rows), env)
    {
      failed := false;
      if m.headers == [] {
        return;
      }
      var topic := GetHeaderValueAsString(m.headers, TOPIC_HEADER);
      if |topic| == 0 {
        return;
      }
      var v := Topics.VerifyIncomingTopic(prefix, topic);
      if v.Invalid? {
        return;
      }
      if v.kind != Topics.ControlTopic {
        return;
      }
      failed := HandleControlMessage(v.client, m.value, env);
    }
  }
}
