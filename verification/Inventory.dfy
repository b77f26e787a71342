/** Canonical facts on their way in and out, and the gate in front of host inventory. */
module Inventory {
  import opened Domain

  const PLAYBOOK_WORKER := "rhc-worker-playbook"
  const PACKAGE_MANAGER := "package-manager"
  const SCRIPT_WORKER := "rhc-worker-script"

  function Field(fields: map<string, Json>, key: string): Json {
    if key in fields then fields[key] else Null
  }

  // ----- Sanitizing facts on the way in -----

  predicate KeepsFact(key: string, value: Json, validUUID: string -> bool) {
    key == "insights_id" ==> value.Text? && validUUID(value.s)
  }

  function Sanitized(facts: Json, validUUID: string -> bool): (out: Json)
    ensures out.Object?
    ensures facts.Object? ==> out.fields.Keys <= facts.fields.Keys
  {
    if facts.Object? then Object(map k | k in facts.fields && KeepsFact(k, facts.fields[k], validUUID) :: facts.fields[k])
    else Object(map[])
  }

  /** Sanitizing twice is sanitizing once, and no invalid id survives it. */
  lemma SanitizedIsClean(facts: Json, validUUID: string -> bool)
    ensures Sanitized(Sanitized(facts, validUUID), validUUID) == Sanitized(facts, validUUID)
    ensures var out := Sanitized(facts, validUUID).fields;
            "insights_id" in out ==> out["insights_id"].Text? && validUUID(out["insights_id"].s)
  {
    var once := Sanitized(facts, validUUID);
    assert Sanitized(once, validUUID).fields == once.fields;
  }

  /** `interface{}` must hold nothing or a map here, and its id a string: the type assertions. */
  predicate FactsWellTyped(facts: Json) {
    facts.Null? || (facts.Object? && ("insights_id" in facts.fields ==> facts.fields["insights_id"].Text?))
  }

  /** Every fact is kept unchanged but an id that is not valid. */
  lemma SanitizedKeeps(facts: map<string, Json>, validUUID: string -> bool)
    ensures var out := Sanitized(Object(facts), validUUID).fields;
            && (forall k :: k in out <==>
                  k in facts && (k != "insights_id" || (facts[k].Text? && validUUID(facts[k].s))))
            && (forall k :: k in out ==> out[k] == facts[k])
  {
  }

  method SanitizeCanonicalFacts(facts: Json, validUUID: string -> bool) returns (out: Json)
    requires FactsWellTyped(facts)
    ensures out == Sanitized(facts, validUUID)
    ensures facts.Null? ==> out == Object(map[])
    ensures facts.Object? ==>
              && out.Object?
              && (forall k :: k in out.fields <==>
                    k in facts.fields && (k != "insights_id" || validUUID(facts.fields[k].s)))
              && (forall k :: k in out.fields ==> out.fields[k] == facts.fields[k])
  {
    if facts.Null? {
      return Object(map[]);
    }
    var canonicalFacts := facts.fields;
    var sanitized: map<string, Json> := map[];
    var todo := canonicalFacts.Keys;
    while todo != {}
      invariant todo <= canonicalFacts.Keys
      invariant sanitized == map k | k in canonicalFacts && k !in todo && KeepsFact(k, canonicalFacts[k], validUUID) :: canonicalFacts[k]
      decreases todo
    {
      var key :| key in todo;
      var value := canonicalFacts[key];
      if key == "insights_id" {
        if validUUID(value.s) {
          sanitized := sanitized[key := value];
        }
      } else {
        sanitized := sanitized[key := value];
      }
      todo := todo - {key};
    }
    out := Object(sanitized);
  }

  // ----- Cleaning facts on the way out -----

  predicate Reportable(value: Json) {
    match value
    case Array(items) => |items| > 0
    case Text(s) => |s| > 0
    case _ => false
  }

  /** Keeps exactly the facts that are non-empty arrays or strings, unchanged. */
  method CleanupCanonicalFacts(facts: map<string, Json>) returns (host: map<string, Json>)
    ensures forall k :: k in host <==>
              k in facts && ((facts[k].Array? && facts[k].items != []) || (facts[k].Text? && facts[k].s != ""))
    ensures forall k :: k in host ==> host[k] == facts[k]
  {
    host := map[];
    var todo := facts.Keys;
    while todo != {}
      invariant todo <= facts.Keys
      invariant forall k :: k in host <==> k in facts && k !in todo && Reportable(facts[k])
      invariant forall k :: k in host ==> host[k] == facts[k]
      decreases todo
    {
      var key :| key in todo;
      var value := facts[key];
      match value {
        case Array(items) => if |items| > 0 { host := host[key := value]; }
        case Text(s) => if |s| > 0 { host := host[key := value]; }
        case _ =>
      }
      todo := todo - {key};
    }
  }

  // ----- The gate -----

  /** What the recorder's type assertions allow. */
  predicate DispatchersWellTyped(dispatchers: Json) {
    dispatchers.Null? || dispatchers.Object?
  }

  /** The columns that the handler writes: facts are never null. */
  predicate ColumnsWellTyped(m: MessageColumns) {
    m.facts.Object? && DispatchersWellTyped(m.dispatchers)
  }

  predicate HasCanonicalFacts(m: MessageColumns) {
    m.facts.Object? && |m.facts.fields| > 0
  }

  predicate HasDispatcher(m: MessageColumns, name: string) {
    m.dispatchers.Object? && name in m.dispatchers.fields
  }

  predicate ShouldHostBeRegistered(m: MessageColumns, identity: string) {
    && |identity| > 0
    && HasCanonicalFacts(m)
    && (HasDispatcher(m, PLAYBOOK_WORKER) || HasDispatcher(m, PACKAGE_MANAGER) || HasDispatcher(m, SCRIPT_WORKER))
  }

  /** What makes a connection a host for inventory: facts, and a worker that runs on hosts. */
  predicate IsHost(m: MessageColumns) {
    && m.facts.Object? && m.facts.fields != map[]
    && m.dispatchers.Object?
    && var workers := m.dispatchers.fields;
       "rhc-worker-playbook" in workers || "package-manager" in workers || "rhc-worker-script" in workers
  }

  lemma GateIsForHosts(m: MessageColumns, identity: string)
    ensures ShouldHostBeRegistered(m, identity) <==> identity != "" && IsHost(m)
  {
    if m.facts.Object? && m.facts.fields != map[] {
      var k :| k in m.facts.fields;
      assert k in m.facts.fields.Keys;
      assert |m.facts.fields| > 0;
    }
  }

  /** The WHERE clause of the stale query. */
  predicate StaleCandidate(r: Row, cutoff: int) {
    && r.org != ""
    && r.message.facts != Object(map[])
    && (HasKey(r.message.dispatchers, PLAYBOOK_WORKER) || HasKey(r.message.dispatchers, PACKAGE_MANAGER))
    && r.staleTime < cutoff
  }

  /** A row that the handler wrote passes the gate, with a tenant and any identity,
      exactly when the stale query would select it once old enough or the script worker
      speaks for it. */
  lemma GateAgainstStaleQuery(r: Row, identity: string)
    requires ColumnsWellTyped(r.message) && identity != ""
    ensures StaleCandidate(r, r.staleTime + 1) ==> ShouldHostBeRegistered(r.message, identity)
    ensures r.org != "" ==>
              (ShouldHostBeRegistered(r.message, identity) <==>
               StaleCandidate(r, r.staleTime + 1) || (HasCanonicalFacts(r.message) && HasDispatcher(r.message, SCRIPT_WORKER)))
  {
    if r.message.facts.fields != map[] {
      var k :| k in r.message.facts.fields;
      assert k in r.message.facts.fields.Keys;
      assert |r.message.facts.fields| > 0;
    }
  }

  /** Of the rows that pass the gate, those are refreshed in time that the playbook worker
      or the package manager speaks for; the gate has a third dispatcher. */
  lemma RefreshedExactlyWhen(r: Row, identity: string)
    requires ShouldHostBeRegistered(r.message, identity) && r.org != ""
    ensures (exists cutoff :: StaleCandidate(r, cutoff)) <==>
            HasDispatcher(r.message, PLAYBOOK_WORKER) || HasDispatcher(r.message, PACKAGE_MANAGER)
  {
    GateAgainstStaleQuery(r, identity);
    if HasDispatcher(r.message, PLAYBOOK_WORKER) || HasDispatcher(r.message, PACKAGE_MANAGER) {
      assert StaleCandidate(r, r.staleTime + 1);
    }
  }

  /** The rest have the script worker, and no cutoff ever selects them. */
  lemma ScriptWorkerIsNeverRefreshed(r: Row, identity: string, cutoff: int)
    requires ShouldHostBeRegistered(r.message, identity)
    requires !HasDispatcher(r.message, PLAYBOOK_WORKER) && !HasDispatcher(r.message, PACKAGE_MANAGER)
    ensures HasDispatcher(r.message, SCRIPT_WORKER) && !StaleCandidate(r, cutoff)
  {
    if r.org != "" { RefreshedExactlyWhen(r, identity); }
  }

  /** How the rest of `RecordConnectedClient` went once past the gate. */
  datatype Delivery = Sent | Unauthenticated | Undelivered

  /** A message for host inventory, with the lookup it was sent on. */
  datatype HostMessage = HostMessage(client: ClientId, org: OrgId, answer: Answer)

  predicate Records(m: MessageColumns, answer: Answer, d: Delivery) {
    ShouldHostBeRegistered(m, answer.identity) && d.Sent?
  }

  /** `RecordConnectedClient` returns an error only when the producer does. */
  predicate RecordFails(m: MessageColumns, answer: Answer, d: Delivery) {
    ShouldHostBeRegistered(m, answer.identity) && d.Undelivered?
  }
}
