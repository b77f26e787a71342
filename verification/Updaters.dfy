/** The tenantless connection updater and the stale timestamp updater. */
module Updaters {
  import opened Domain
  import opened ConnectionTable
  import Inventory

  // ----- The two queries: ORDER BY a time, LIMIT -----

  predicate Selectable(r: Row, maxFailures: int) {
    r.org == "" && r.lookupTime.Some? && r.failures < maxFailures
  }

  predicate LookupCandidate(r: Row, cutoff: int, maxFailures: int) {
    Selectable(r, maxFailures) && r.lookupTime.value < cutoff
  }

  /** Which rows a query selects, and the time it orders them by. */
  datatype Query = Tenantless(cutoff: int, maxFailures: int) | Stale(cutoff: int) {
    predicate Selects(r: Row) {
      match this
      case Tenantless(_, maxFailures) => LookupCandidate(r, cutoff, maxFailures)
      case Stale(_) => Inventory.StaleCandidate(r, cutoff)
    }

    function Time(r: Row): int
      requires Selects(r)
    {
      match this
      case Tenantless(_, _) => r.lookupTime.value
      case Stale(_) => r.staleTime
    }
  }

  ghost predicate OldestFirst(q: Query, s: seq<Row>) {
    && (forall i :: 0 <= i < |s| ==> q.Selects(s[i]))
    && forall i, j :: 0 <= i < j < |s| ==> q.Time(s[i]) <= q.Time(s[j])
  }

  /** A possible result of a query; rows of equal time come in any order. */
  ghost predicate IsResult(rows: seq<Row>, q: Query, limit: nat, s: seq<Row>) {
    && |s| <= limit
    && Unique(s)
    && OldestFirst(q, s)
    && (forall i :: 0 <= i < |s| ==> s[i] in rows)
    && forall r :: r in rows && q.Selects(r) && r !in s ==>
                     |s| == limit && forall i :: 0 <= i < |s| ==> q.Time(s[i]) <= q.Time(r)
  }

  function InsertedAt(s: seq<Row>, i: nat, r: Row): (out: seq<Row>)
    requires i <= |s|
    ensures |out| == |s| + 1
    ensures forall k :: 0 <= k < |out| ==> out[k] == if k < i then s[k] else if k == i then r else s[k - 1]
  {
    s[..i] + [r] + s[i..]
  }

  lemma InsertKeepsOrder(q: Query, s: seq<Row>, i: nat, r: Row)
    requires OldestFirst(q, s) && q.Selects(r) && i <= |s|
    requires forall j :: 0 <= j < i ==> q.Time(s[j]) <= q.Time(r)
    requires i < |s| ==> q.Time(r) < q.Time(s[i])
    ensures OldestFirst(q, InsertedAt(s, i, r))
  {
    var out := InsertedAt(s, i, r);
    forall k | 0 <= k < |out| ensures q.Selects(out[k]) {
    }
    forall j, k | 0 <= j < k < |out| ensures q.Time(out[j]) <= q.Time(out[k]) {
      assert i < |s| && i < k ==> q.Time(s[i]) <= q.Time(s[k - 1]);
    }
  }

  lemma InsertKeepsUnique(s: seq<Row>, i: nat, r: Row)
    requires Unique(s) && i <= |s|
    requires forall k :: 0 <= k < |s| ==> s[k].client != r.client
    ensures Unique(InsertedAt(s, i, r))
    ensures forall x :: x in InsertedAt(s, i, r) <==> x == r || x in s
  {
    assert s == s[..i] + s[i..];
  }

  method Insert(q: Query, s: seq<Row>, r: Row) returns (out: seq<Row>)
    requires OldestFirst(q, s) && q.Selects(r) && Unique(s)
    requires forall i :: 0 <= i < |s| ==> s[i].client != r.client
    ensures OldestFirst(q, out) && Unique(out)
    ensures forall x :: x in out <==> x == r || x in s
  {
    var i := 0;
    while i < |s| && q.Time(s[i]) <= q.Time(r)
      invariant i <= |s|
      invariant forall j :: 0 <= j < i ==> q.Time(s[j]) <= q.Time(r)
    {
      i := i + 1;
    }
    out := InsertedAt(s, i, r);
    InsertKeepsOrder(q, s, i, r);
    InsertKeepsUnique(s, i, r);
  }

  /** The columns that make a row due for a tenant lookup. */
  predicate IsDueForLookup(r: Row, before: int, maxFailures: int) {
    r.org == "" && r.lookupTime.Some? && r.lookupTime.value < before && r.failures < maxFailures
  }

  /** The columns that make a row due for a refresh. */
  predicate IsDueForRefresh(r: Row, before: int) {
    && r.org != "" && r.message.facts != Object(map[]) && r.staleTime < before
    && (HasKey(r.message.dispatchers, "rhc-worker-playbook") || HasKey(r.message.dispatchers, "package-manager"))
  }

  /** The rows of the table that are due are taken, oldest first, up to the limit. */
  ghost predicate TakesOldest(rows: seq<Row>, due: Row -> bool, time: Row -> int, limit: nat, s: seq<Row>) {
    && |s| <= limit
    && (forall r :: r in s ==> r in rows && due(r))
    && (forall i, j :: 0 <= i < j < |s| ==> time(s[i]) <= time(s[j]) && s[i].client != s[j].client)
    && forall r :: r in rows && due(r) && r !in s ==> |s| == limit && forall x :: x in s ==> time(x) <= time(r)
  }

  function LookupTime(r: Row): int {
    if r.lookupTime.Some? then r.lookupTime.value else 0
  }

  lemma LookupResult(rows: seq<Row>, before: int, maxFailures: int, limit: nat, s: seq<Row>)
    requires IsResult(rows, Tenantless(before, maxFailures), limit, s)
    ensures TakesOldest(rows, r => IsDueForLookup(r, before, maxFailures), LookupTime, limit, s)
  {
    var q := Tenantless(before, maxFailures);
    assert forall r :: q.Selects(r) <==> IsDueForLookup(r, before, maxFailures);
    assert forall i :: 0 <= i < |s| ==> q.Selects(s[i]) && q.Time(s[i]) == LookupTime(s[i]);
  }

  lemma RefreshResult(rows: seq<Row>, before: int, limit: nat, s: seq<Row>)
    requires IsResult(rows, Stale(before), limit, s)
    ensures TakesOldest(rows, r => IsDueForRefresh(r, before), (r: Row) => r.staleTime, limit, s)
  {
    var q := Stale(before);
    assert forall r :: q.Selects(r) <==> IsDueForRefresh(r, before);
    assert forall i :: 0 <= i < |s| ==> q.Selects(s[i]) && q.Time(s[i]) == s[i].staleTime;
  }

  /** Every query has a result: the rows that are due by their columns, oldest first. */
  method Select(rows: seq<Row>, q: Query, limit: nat) returns (s: seq<Row>)
    requires Unique(rows)
    ensures IsResult(rows, q, limit, s)
    ensures q.Tenantless? ==> TakesOldest(rows, r => IsDueForLookup(r, q.cutoff, q.maxFailures), LookupTime, limit, s)
    ensures q.Stale? ==> TakesOldest(rows, r => IsDueForRefresh(r, q.cutoff), (r: Row) => r.staleTime, limit, s)
  {
    s := RunQuery(rows, q, limit);
    match q
    case Tenantless(before, maxFailures) => LookupResult(rows, before, maxFailures, limit, s);
    case Stale(before) => RefreshResult(rows, before, limit, s);
  }

  method RunQuery(rows: seq<Row>, q: Query, limit: nat) returns (s: seq<Row>)
    requires Unique(rows)
    ensures IsResult(rows, q, limit, s)
  {
    var all: seq<Row> := [];
    for i := 0 to |rows|
      invariant OldestFirst(q, all) && Unique(all)
      invariant forall r :: r in all <==> r in rows[..i] && q.Selects(r)
    {
      if q.Selects(rows[i]) {
        all := Insert(q, all, rows[i]);
      }
      assert rows[..i + 1] == rows[..i] + [rows[i]];
    }
    assert rows[..|rows|] == rows;
    s := if |all| <= limit then all else all[..limit];
    forall r | r in rows && q.Selects(r) && r !in s
      ensures |s| == limit && forall i :: 0 <= i < |s| ==> q.Time(s[i]) <= q.Time(r)
    {
      var k :| 0 <= k < |all| && all[k] == r;
      assert k >= |s|;
    }
  }

  // ----- The tenantless updater -----

  function LookupStatement(client: ClientId, answer: Answer, now: int): Statement {
    if answer.error.Some? then MarkFailed(client, now) else MarkResolved(client, answer.account, answer.org)
  }

  /** The returns of one callback of the tenantless updater. */
  datatype LookupCall = LookupCall(answer: Answer, written: bool, now: int)

  function LookupPass(rows: seq<Row>, s: seq<Row>, calls: seq<LookupCall>): seq<Row>
    requires |calls| == |s|
  {
    if s == [] then rows
    else
      var n := |s| - 1;
      var before := LookupPass(rows, s[..n], calls[..n]);
      if calls[n].written then Execute(before, LookupStatement(s[n].client, calls[n].answer, calls[n].now)) else before
  }

  /** How many more lookups the selectable rows can ask for. */
  function Potential(rows: seq<Row>, maxFailures: int): nat {
    if rows == [] then 0
    else (if Selectable(rows[0], maxFailures) then maxFailures - rows[0].failures else 0) + Potential(rows[1..], maxFailures)
  }

  /** The sum, row by row. */
  lemma {:induction false} PotentialIsSum(rows: seq<Row>, more: seq<Row>, r: Row, maxFailures: int)
    ensures Potential(rows + more, maxFailures) == Potential(rows, maxFailures) + Potential(more, maxFailures)
    ensures Potential([r], maxFailures) ==
            if r.org == "" && r.lookupTime.Some? && r.failures < maxFailures then maxFailures - r.failures else 0
  {
    if rows == [] {
      assert [] + more == more;
    } else {
      PotentialIsSum(rows[1..], more, r, maxFailures);
      assert (rows + more)[1..] == rows[1..] + more;
    }
  }

  lemma {:induction false} UpdatedElsewhere(rows: seq<Row>, st: Statement)
    requires forall r :: r in rows ==> r.client != Target(st)
    ensures Updated(rows, st) == rows
  {
  }

  /** A recorded lookup of a selectable row uses up some of the potential, whatever its answer. */
  lemma {:induction false} LookupUsesPotential(rows: seq<Row>, r: Row, answer: Answer, now: int, maxFailures: int)
    requires Unique(rows) && r in rows && Selectable(r, maxFailures)
    ensures Potential(Execute(rows, LookupStatement(r.client, answer, now)), maxFailures) < Potential(rows, maxFailures)
  {
    var st := LookupStatement(r.client, answer, now);
    if rows[0] == r {
      forall x | x in rows[1..] ensures x.client != r.client {
        var i :| 0 <= i < |rows[1..]| && rows[1..][i] == x;
        assert rows[i + 1] == x;
      }
      UpdatedElsewhere(rows[1..], st);
    } else {
      assert r in rows[1..];
      assert rows[0].client != r.client by {
        var i :| 0 <= i < |rows[1..]| && rows[1..][i] == r;
        assert rows[i + 1] == r;
      }
      LookupUsesPotential(rows[1..], r, answer, now, maxFailures);
    }
    assert Updated(rows, st)[1..] == Updated(rows[1..], st);
  }

  lemma {:induction false} NoPotentialNoCandidate(rows: seq<Row>, maxFailures: int)
    requires Potential(rows, maxFailures) == 0
    ensures forall r :: r in rows ==> !Selectable(r, maxFailures)
  {
    if rows != [] { NoPotentialNoCandidate(rows[1..], maxFailures); }
  }

  /** A lookup leaves the rows of other clients alone. */
  lemma LookupKeepsOthers(rows: seq<Row>, st: Statement, r: Row)
    requires st.MarkFailed? || st.MarkResolved?
    requires r in rows && r.client != Target(st)
    ensures r in Execute(rows, st)
  {
    var i :| 0 <= i < |rows| && rows[i] == r;
    assert Execute(rows, st)[i] == r;
  }

  lemma {:induction false} PassUsesPotential(rows: seq<Row>, s: seq<Row>, calls: seq<LookupCall>, maxFailures: int)
    requires |calls| == |s| && Unique(rows) && Unique(s)
    requires forall i :: 0 <= i < |s| ==> s[i] in rows && Selectable(s[i], maxFailures)
    requires forall i :: 0 <= i < |s| ==> calls[i].written
    ensures var after := LookupPass(rows, s, calls);
            && Unique(after)
            && Potential(after, maxFailures) + |s| <= Potential(rows, maxFailures)
            && forall r :: r in rows && (forall i :: 0 <= i < |s| ==> s[i].client != r.client) ==> r in after
  {
    if s != [] {
      var n := |s| - 1;
      PassUsesPotential(rows, s[..n], calls[..n], maxFailures);
      var before := LookupPass(rows, s[..n], calls[..n]);
      var st := LookupStatement(s[n].client, calls[n].answer, calls[n].now);
      assert s[n] in before;
      LookupUsesPotential(before, s[n], calls[n].answer, calls[n].now, maxFailures);
      ExecuteKeepsUnique(before, st);
      forall r | r in rows && (forall i :: 0 <= i < |s| ==> s[i].client != r.client)
        ensures r in LookupPass(rows, s, calls)
      {
        assert s[n].client != r.client;
        assert r in before;
        LookupKeepsOthers(before, st, r);
      }
    }
  }

  /** The callback for one row: a failure is counted, a success names the tenant. */
  method LookUpTenant(db: Database, row: Row, call: LookupCall)
    requires db.Valid()
    modifies db
    ensures db.Valid()
    ensures db.rows == if call.written then Execute(old(db.rows), LookupStatement(row.client, call.answer, call.now))
                       else old(db.rows)
    ensures !call.written || row.client !in old(db.view) ==> db.view == old(db.view)
    ensures call.written && row.client in old(db.view) ==>
              var r := old(db.view)[row.client];
              db.view == old(db.view)[row.client :=
                if call.answer.error.Some? then
                  r.(account := "", org := "", lookupTime := Some(call.now), failures := r.failures + 1)
                else r.(account := call.answer.account, org := call.answer.org, lookupTime := None, failures := 0)]
  {
    var rhcClient := row;
    if call.answer.error.Some? {
      db.RecordFailedTenantLookup(rhcClient.client, call.now, call.written);
    } else {
      rhcClient := rhcClient.(account := call.answer.account, org := call.answer.org);
      db.RecordSuccessfulTenantLookup(rhcClient.client, rhcClient.account, rhcClient.org, call.written);
    }
  }

  /** One run of the tenantless updater over the rows its query returned. */
  method ProcessTenantlessConnections(db: Database, s: seq<Row>, calls: seq<LookupCall>)
    requires db.Valid() && |calls| == |s|
    modifies db
    ensures db.Valid()
    ensures db.rows == LookupPass(old(db.rows), s, calls)
  {
    for i := 0 to |s|
      invariant db.Valid()
      invariant db.rows == LookupPass(old(db.rows), s[..i], calls[..i])
    {
      assert s[..i + 1][..i] == s[..i] && calls[..i + 1][..i] == calls[..i];
      LookUpTenant(db, s[i], calls[i]);
    }
    assert s[..|s|] == s && calls[..|s|] == calls;
  }

  // ----- The stale timestamp updater -----

  const HOUR := 3600

  /** Hosts are refreshed an hour before they would go stale. */
  function StaleCutoff(now: int, staleTimeOffset: int): int {
    now + -1 * (staleTimeOffset - HOUR)
  }

  function RefreshStatement(r: Row, answer: Answer, delivery: Inventory.Delivery, now: int): Option<Statement> {
    if answer.error.Some? then Some(MarkFailed(r.client, now))
    else if Inventory.RecordFails(r.message, answer, delivery) then None
    else Some(MarkFresh(r.org, r.client, now))
  }

  /** The returns of one callback of the stale updater. */
  datatype RefreshCall = RefreshCall(answer: Answer, delivery: Inventory.Delivery, written: bool, now: int)

  /** A failed write of the timestamp ends the process; a failed write of a failed lookup is logged. */
  predicate Dies(r: Row, call: RefreshCall) {
    var st := RefreshStatement(r, call.answer, call.delivery, call.now);
    st.Some? && st.value.MarkFresh? && !call.written
  }

  function RefreshOne(rows: seq<Row>, r: Row, call: RefreshCall): seq<Row> {
    var st := RefreshStatement(r, call.answer, call.delivery, call.now);
    if st.Some? && call.written then Execute(rows, st.value) else rows
  }

  function HostReport(r: Row, answer: Answer, delivery: Inventory.Delivery): seq<Inventory.HostMessage> {
    if !answer.error.Some? && Inventory.Records(r.message, answer, delivery)
    then [Inventory.HostMessage(r.client, r.org, answer)] else []
  }

  /** The table and the messages after a run that may end early. */
  function RefreshPass(rows: seq<Row>, sent: seq<Inventory.HostMessage>, s: seq<Row>, calls: seq<RefreshCall>)
    : (seq<Row>, seq<Inventory.HostMessage>)
    requires |calls| == |s|
    decreases |s|
  {
    if s == [] then (rows, sent)
    else
      var rows' := RefreshOne(rows, s[0], calls[0]);
      var sent' := sent + HostReport(s[0], calls[0].answer, calls[0].delivery);
      if Dies(s[0], calls[0]) then (rows', sent') else RefreshPass(rows', sent', s[1..], calls[1..])
  }

  /** The producer's error leaves the row for the next run. */
  predicate IsUndelivered(r: Row, call: RefreshCall) {
    call.answer.identity != "" && Inventory.IsHost(r.message) && call.delivery.Undelivered?
  }

  /** The callback for one row: a failed lookup takes the tenant away, a host is sent and
      then marked fresh, and an error of the producer leaves the row as it is. */
  method RefreshHost(db: Database, rhcClient: Row, call: RefreshCall) returns (sent: seq<Inventory.HostMessage>, died: bool)
    requires db.Valid()
    modifies db
    ensures db.Valid()
    ensures db.rows == RefreshOne(old(db.rows), rhcClient, call)
    ensures sent == HostReport(rhcClient, call.answer, call.delivery)
    ensures died == Dies(rhcClient, call)
    ensures sent == if call.answer.error.None? && call.answer.identity != ""
                       && Inventory.IsHost(rhcClient.message) && call.delivery.Sent?
                    then [Inventory.HostMessage(rhcClient.client, rhcClient.org, call.answer)] else []
    ensures died <==> call.answer.error.None? && !IsUndelivered(rhcClient, call) && !call.written
    ensures var c := rhcClient.client;
            db.view ==
            if !call.written || c !in old(db.view) then old(db.view)
            else
              var r := old(db.view)[c];
              if call.answer.error.Some? then
                old(db.view)[c := r.(account := "", org := "", lookupTime := Some(call.now), failures := r.failures + 1)]
              else if r.org == rhcClient.org && !IsUndelivered(rhcClient, call) then
                old(db.view)[c := r.(staleTime := call.now, lookupTime := None, failures := 0)]
              else old(db.view)
  {
    Inventory.GateIsForHosts(rhcClient.message, call.answer.identity);
    if call.answer.error.Some? {
      db.RecordFailedTenantLookup(rhcClient.client, call.now, call.written);
      return [], false;
    }
    sent := if Inventory.Records(rhcClient.message, call.answer, call.delivery)
    then [Inventory.HostMessage(rhcClient.client, rhcClient.org, call.answer)] else [];
    if Inventory.RecordFails(rhcClient.message, call.answer, call.delivery) {
      return sent, false;
    }
    if !call.written {
      return sent, true;
    }
    db.RecordUpdatedStaleTimestamp(rhcClient.org, rhcClient.client, call.now);
    died := false;
  }

  /** One run of the stale updater over the rows its query returned. */
  method ProcessStaleConnections(db: Database, s: seq<Row>, calls: seq<RefreshCall>) returns (sent: seq<Inventory.HostMessage>)
    requires db.Valid() && |calls| == |s|
    modifies db
    ensures db.Valid()
    ensures (db.rows, sent) == RefreshPass(old(db.rows), [], s, calls)
  {
    sent := [];
    for i := 0 to |s|
      invariant db.Valid()
      invariant RefreshPass(db.rows, sent, s[i..], calls[i..]) == RefreshPass(old(db.rows), [], s, calls)
    {
      assert s[i..][1..] == s[i + 1..] && calls[i..][1..] == calls[i + 1..];
      var more, died := RefreshHost(db, s[i], calls[i]);
      sent := sent + more;
      if died {
        return;
      }
    }
  }

  /** The run ends with the row whose successful refresh could not be written: no later
      row is written or sent. */
  lemma {:induction false} NothingAfterFailedWrite(rows: seq<Row>, sent: seq<Inventory.HostMessage>, s: seq<Row>,
                                                   calls: seq<RefreshCall>, i: nat)
    requires i < |calls| == |s|
    requires calls[i].answer.error.None? && !calls[i].written && !IsUndelivered(s[i], calls[i])
    ensures RefreshPass(rows, sent, s, calls) == RefreshPass(rows, sent, s[..i + 1], calls[..i + 1])
    decreases |s|
  {
    if i == 0 {
      Inventory.GateIsForHosts(s[0].message, calls[0].answer.identity);
    } else if !Dies(s[0], calls[0]) {
      var rows' := RefreshOne(rows, s[0], calls[0]);
      var sent' := sent + HostReport(s[0], calls[0].answer, calls[0].delivery);
      NothingAfterFailedWrite(rows', sent', s[1..], calls[1..], i - 1);
      assert s[..i + 1][1..] == s[1..][..i] && calls[..i + 1][1..] == calls[1..][..i];
    }
  }

  /** A failed lookup never leads to a message for host inventory. */
  lemma {:induction false} NoReportOfFailedLookup(rows: seq<Row>, sent: seq<Inventory.HostMessage>, s: seq<Row>, calls: seq<RefreshCall>)
    requires |calls| == |s|
    requires forall m :: m in sent ==> !m.answer.error.Some?
    ensures forall m :: m in RefreshPass(rows, sent, s, calls).1 ==> !m.answer.error.Some?
    decreases |s|
  {
    if s != [] && !Dies(s[0], calls[0]) {
      NoReportOfFailedLookup(RefreshOne(rows, s[0], calls[0]),
                             sent + HostReport(s[0], calls[0].answer, calls[0].delivery), s[1..], calls[1..]);
    }
  }
}
