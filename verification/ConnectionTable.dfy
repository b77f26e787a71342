/** The `connections` table and the SQL statements that write it.

    No constraint of the schema makes `client_id` unique, so the table is a
    sequence of rows, and at most one row per client is a property to prove. */
module ConnectionTable {
  import opened Domain

  /** One SQL statement with its arguments; each runs atomically. */
  datatype Statement =
    | Upsert(state: ClientState, lookupTime: Option<int>, resetFailures: bool, now: int)
    | Delete(client: ClientId)
    | MarkFresh(org: OrgId, client: ClientId, now: int)
    | MarkFailed(client: ClientId, now: int)
    | MarkResolved(client: ClientId, account: AccountId, org: OrgId)

  function Target(st: Statement): ClientId {
    match st
    case Upsert(state, _, _, _) => state.client
    case _ => st.client
  }

  /** The SET clause of a statement on a row whose client is the target. */
  function Rewrite(st: Statement, r: Row): (out: Row)
    ensures out.client == r.client
  {
    match st
    case Upsert(state, lookupTime, resetFailures, _) =>
      r.(account := state.account, org := state.org,
      message := state.message.(facts := r.message.facts),
      lookupTime := lookupTime,
      failures := if resetFailures then 0 else r.failures)
    case Delete(_) => r
    case MarkFresh(org, _, now) =>
      if r.org == org then r.(staleTime := now, lookupTime := None, failures := 0) else r
    case MarkFailed(_, now) =>
      r.(account := "", org := "", lookupTime := Some(now), failures := r.failures + 1)
    case MarkResolved(_, account, org) =>
      r.(account := account, org := org, lookupTime := None, failures := 0)
  }

  /** The row that the INSERT half of the upsert adds; omitted columns take their defaults. */
  function Inserted(state: ClientState, lookupTime: Option<int>, now: int): Row {
    Row(state.client, state.account, state.org, state.message, now, lookupTime, 0)
  }

  function Updated(rows: seq<Row>, st: Statement): (out: seq<Row>)
    ensures |out| == |rows| && forall i :: 0 <= i < |rows| ==> out[i].client == rows[i].client
    ensures forall i :: 0 <= i < |rows| ==>
                          out[i] == if rows[i].client == Target(st) then Rewrite(st, rows[i]) else rows[i]
  {
    if rows == [] then []
    else [if rows[0].client == Target(st) then Rewrite(st, rows[0]) else rows[0]] + Updated(rows[1..], st)
  }

  function Without(rows: seq<Row>, c: ClientId): (out: seq<Row>)
    ensures forall r :: r in out <==> r in rows && r.client != c
  {
    if rows == [] then []
    else if rows[0].client == c then Without(rows[1..], c)
    else [rows[0]] + Without(rows[1..], c)
  }

  predicate Matched(rows: seq<Row>, c: ClientId) {
    exists i :: 0 <= i < |rows| && rows[i].client == c
  }

  /** The table after a statement, row by row. */
  function Execute(rows: seq<Row>, st: Statement): seq<Row> {
    match st
    case Delete(c) => Without(rows, c)
    case Upsert(state, lookupTime, _, now) =>
      if Matched(rows, state.client) then Updated(rows, st)
      else Updated(rows, st) + [Inserted(state, lookupTime, now)]
    case _ => Updated(rows, st)
  }

  /** The row a query by client id returns first. */
  function Find(rows: seq<Row>, c: ClientId): (o: Option<Row>)
    ensures o.Some? ==> o.value in rows && o.value.client == c
    ensures o.None? ==> forall r :: r in rows ==> r.client != c
  {
    if rows == [] then None
    else if rows[0].client == c then Some(rows[0])
    else Find(rows[1..], c)
  }

  ghost predicate Unique(rows: seq<Row>) {
    forall i, j :: 0 <= i < j < |rows| ==> rows[i].client != rows[j].client
  }

  lemma FindOnlyRow(rows: seq<Row>, r: Row)
    requires Unique(rows) && r in rows
    ensures Find(rows, r.client) == Some(r)
  {
    var o := Find(rows, r.client);
    assert o.Some?;
    var i :| 0 <= i < |rows| && rows[i] == r;
    var j :| 0 <= j < |rows| && rows[j] == o.value;
  }

  /** What a statement does to the one row of its target, if there is one. */
  function ExecuteOn(o: Option<Row>, st: Statement): Option<Row> {
    match st
    case Delete(_) => None
    case Upsert(state, lookupTime, _, now) =>
      if o.Some? then Some(Rewrite(st, o.value)) else Some(Inserted(state, lookupTime, now))
    case _ => if o.Some? then Some(Rewrite(st, o.value)) else None
  }

  lemma {:induction false} WithoutKeepsUnique(rows: seq<Row>, c: ClientId)
    requires Unique(rows)
    ensures Unique(Without(rows, c))
  {
    if rows != [] {
      WithoutKeepsUnique(rows[1..], c);
      var rest := Without(rows[1..], c);
      if rows[0].client != c {
        forall j | 0 <= j < |rest| ensures rest[j].client != rows[0].client {
          assert rest[j] in rows[1..];
        }
      }
    }
  }

  lemma ExecuteKeepsUnique(rows: seq<Row>, st: Statement)
    requires Unique(rows)
    ensures Unique(Execute(rows, st))
  {
    if st.Delete? { WithoutKeepsUnique(rows, st.client); }
  }

  /** Sequences of the same clients are searched alike. */
  lemma {:induction false} FoundInSamePlace(rows: seq<Row>, out: seq<Row>, c: ClientId) returns (i: nat)
    requires |out| == |rows| && forall k :: 0 <= k < |rows| ==> out[k].client == rows[k].client
    ensures i <= |rows|
    ensures i == |rows| ==> Find(rows, c) == None && Find(out, c) == None
    ensures i < |rows| ==> rows[i].client == c && Find(rows, c) == Some(rows[i]) && Find(out, c) == Some(out[i])
  {
    if rows == [] {
      i := 0;
    } else if rows[0].client == c {
      i := 0;
    } else {
      var j := FoundInSamePlace(rows[1..], out[1..], c);
      i := j + 1;
    }
  }

  lemma FindInUpdated(rows: seq<Row>, st: Statement, c: ClientId)
    ensures Find(Updated(rows, st), c)
         == var o := Find(rows, c); if c == Target(st) && o.Some? then Some(Rewrite(st, o.value)) else o
  {
    var i := FoundInSamePlace(rows, Updated(rows, st), c);
  }

  lemma {:induction false} FindInWithout(rows: seq<Row>, gone: ClientId, c: ClientId)
    ensures Find(Without(rows, gone), c) == if c == gone then None else Find(rows, c)
  {
    if rows != [] { FindInWithout(rows[1..], gone, c); }
  }

  lemma {:induction false} FindInAppended(rows: seq<Row>, r: Row, c: ClientId)
    ensures Find(rows + [r], c)
         == var o := Find(rows, c); if o.None? && r.client == c then Some(r) else o
  {
    if rows == [] {
      assert [] + [r] == [r];
    } else {
      FindInAppended(rows[1..], r, c);
      assert (rows + [r])[1..] == rows[1..] + [r];
    }
  }

  lemma FindInExecuted(rows: seq<Row>, st: Statement, c: ClientId)
    ensures Find(Execute(rows, st), c)
         == if c == Target(st) then ExecuteOn(Find(rows, c), st) else Find(rows, c)
  {
    match st
    case Delete(gone) => FindInWithout(rows, gone, c);
    case Upsert(state, lookupTime, _, now) =>
      FindInUpdated(rows, st, c);
      FindInAppended(Updated(rows, st), Inserted(state, lookupTime, now), c);
    case _ => FindInUpdated(rows, st, c);
  }

  /** Every statement, run over the sequence of rows, keeps at most one row per
      client, acts on its target's row and on no other client's. */
  lemma ExecuteRefinesMap(rows: seq<Row>, st: Statement, c: ClientId)
    requires Unique(rows)
    ensures Unique(Execute(rows, st))
    ensures Find(Execute(rows, st), c)
         == if c == Target(st) then ExecuteOn(Find(rows, c), st) else Find(rows, c)
  {
    ExecuteKeepsUnique(rows, st);
    FindInExecuted(rows, st, c);
  }

  function Get(view: map<ClientId, Row>, c: ClientId): Option<Row> {
    if c in view then Some(view[c]) else None
  }

  /** The map update a statement amounts to. */
  function ExecuteOnMap(view: map<ClientId, Row>, st: Statement): map<ClientId, Row> {
    var o := ExecuteOn(Get(view, Target(st)), st);
    if o.Some? then view[Target(st) := o.value] else view - {Target(st)}
  }

  /** The map holds the rows of the table, each under its client. */
  ghost predicate Agrees(rows: seq<Row>, view: map<ClientId, Row>) {
    && Unique(rows)
    && forall c :: Find(rows, c) == Get(view, c)
  }

  lemma AgreesAfter(rows: seq<Row>, view: map<ClientId, Row>, st: Statement)
    requires Agrees(rows, view)
    ensures Agrees(Execute(rows, st), ExecuteOnMap(view, st))
  {
    ExecuteKeepsUnique(rows, st);
    forall c ensures Find(Execute(rows, st), c) == Get(ExecuteOnMap(view, st), c) {
      ExecuteRefinesMap(rows, st, c);
    }
  }

  /** A table has one such map. */
  lemma ViewIsDetermined(rows: seq<Row>, view1: map<ClientId, Row>, view2: map<ClientId, Row>)
    requires Agrees(rows, view1) && Agrees(rows, view2)
    ensures view1 == view2
  {
    forall c ensures (c in view1 <==> c in view2) && (c in view1 ==> view1[c] == view2[c]) {
      assert Get(view1, c) == Get(view2, c);
    }
  }

  predicate IsTenantless(state: ClientState) {
    |state.org| == 0
  }

  /** The upsert that `Register` prepares. */
  function RegisterStatement(state: ClientState, now: int): Statement {
    if IsTenantless(state) then Upsert(state, Some(now), false, now)
    else Upsert(state, None, true, now)
  }

  /** How a write went: a failed call may or may not have reached the table. */
  datatype WriteOutcome = Written | Rejected(effective: bool) | Broken(effective: bool)

  predicate TookEffect(o: WriteOutcome) {
    o.Written? || o.effective
  }

  datatype Error = NoError | NotFound | Plain | Fatal

  /** The database, and the registrar and updater methods that write it. */
  class Database {
    var rows: seq<Row>
    ghost var view: map<ClientId, Row>

    ghost predicate Valid()
      reads this
    {
      Agrees(rows, view)
    }

    constructor ()
      ensures Valid() && rows == [] && view == map[]
    {
      rows := [];
      view := map[];
    }

    /** One statement, run by the server. */
    method Run(st: Statement)
      requires Valid()
      modifies this
      ensures Valid()
      ensures rows == Execute(old(rows), st)
      ensures view == ExecuteOnMap(old(view), st)
    {
      AgreesAfter(rows, view, st);
      rows := Execute(rows, st);
      view := ExecuteOnMap(view, st);
    }

    method Register(state: ClientState, now: int, outcome: WriteOutcome) returns (err: Error)
      requires Valid()
      modifies this
      ensures Valid()
      ensures err == match outcome case Written => NoError case Rejected(_) => Plain case Broken(_) => Fatal
      ensures !TookEffect(outcome) ==> rows == old(rows) && view == old(view)
      ensures TookEffect(outcome) ==> rows == Execute(old(rows), RegisterStatement(state, now))
      ensures TookEffect(outcome) ==>
                && state.client in view
                && view == old(view)[state.client := view[state.client]]
                && var r := view[state.client];
                && r.account == state.account && r.org == state.org
                && r.lookupTime == (if state.org == "" then Some(now) else None)
                && (state.client !in old(view) ==> r.message == state.message && r.failures == 0 && r.staleTime == now)
                && (state.client in old(view) ==>
                      var before := old(view)[state.client];
                      && r.message == state.message.(facts := before.message.facts)
                      && r.staleTime == before.staleTime
                      && r.failures == if state.org == "" then before.failures else 0)
    {
      var lookupTime: Option<int> := None;
      var resetFailures := false;
      if IsTenantless(state) {
        lookupTime := Some(now);
      } else {
        resetFailures := true;
      }
      if TookEffect(outcome) {
        Run(Upsert(state, lookupTime, resetFailures, now));
      }
      match outcome
      case Written => return NoError;
      case Rejected(_) => return Plain;
      case Broken(_) => return Fatal;
    }

    /** Every failure of the delete is reported as fatal. */
    method Unregister(client: ClientId, outcome: WriteOutcome) returns (err: Error)
      requires Valid()
      modifies this
      ensures Valid()
      ensures err == if outcome.Written? then NoError else Fatal
      ensures view == if TookEffect(outcome) then old(view) - {client} else old(view)
      ensures rows == if TookEffect(outcome) then Execute(old(rows), Delete(client)) else old(rows)
    {
      if TookEffect(outcome) {
        Run(Delete(client));
      }
      err := if outcome.Written? then NoError else Fatal;
    }

    method FindConnectionByClientID(client: ClientId, queryFailed: bool) returns (found: Option<Row>, err: Error)
      requires Valid()
      ensures err == if queryFailed then Fatal else if client in view then NoError else NotFound
      ensures found == if queryFailed then None else Get(view, client)
    {
      if queryFailed {
        return None, Fatal;
      }
      found := Find(rows, client);
      err := if found.Some? then NoError else NotFound;
    }

    method RecordUpdatedStaleTimestamp(org: OrgId, client: ClientId, now: int)
      requires Valid()
      modifies this
      ensures Valid()
      ensures rows == Execute(old(rows), MarkFresh(org, client, now))
      ensures client !in old(view) || old(view)[client].org != org ==> view == old(view)
      ensures client in old(view) && old(view)[client].org == org ==>
                view == old(view)[client := old(view)[client].(staleTime := now, lookupTime := None, failures := 0)]
    {
      Run(MarkFresh(org, client, now));
    }

    method RecordFailedTenantLookup(client: ClientId, now: int, written: bool)
      requires Valid()
      modifies this
      ensures Valid()
      ensures rows == if written then Execute(old(rows), MarkFailed(client, now)) else old(rows)
      ensures !written || client !in old(view) ==> view == old(view)
      ensures written && client in old(view) ==>
                var before := old(view)[client];
                view == old(view)[client :=
                before.(account := "", org := "", lookupTime := Some(now), failures := before.failures + 1)]
    {
      if written {
        Run(MarkFailed(client, now));
      }
    }

    method RecordSuccessfulTenantLookup(client: ClientId, account: AccountId, org: OrgId, written: bool)
      requires Valid()
      modifies this
      ensures Valid()
      ensures rows == if written then Execute(old(rows), MarkResolved(client, account, org)) else old(rows)
      ensures !written || client !in old(view) ==> view == old(view)
      ensures written && client in old(view) ==>
                view == old(view)[client :=
                old(view)[client].(account := account, org := org, lookupTime := None, failures := 0)]
    {
      if written {
        Run(MarkResolved(client, account, org));
      }
    }
  }
}
