/** What every reachable table says about tenants, and what reaches host inventory. */
module Tenancy {
  import opened Domain
  import opened ConnectionTable
  import opened MessageLog
  import Inventory
  import ControlMessages
  import Updaters
  import opened System
  import ExactlyOnce

  /** Every row after a statement is an old row, a rewritten one or the inserted one. */
  lemma ExecuteRows(rows: seq<Row>, st: Statement, r: Row)
    requires r in Execute(rows, st)
    ensures || (r in rows && (r.client != Target(st) || st.Delete?))
            || (exists r0 :: r0 in rows && r0.client == Target(st) && r == Rewrite(st, r0))
            || (st.Upsert? && r == Inserted(st.state, st.lookupTime, st.now))
  {
    var i :| 0 <= i < |Execute(rows, st)| && Execute(rows, st)[i] == r;
    if !st.Delete? && i < |rows| { assert rows[i] in rows; }
  }

  // ----- The tenant columns -----

  /** Failures are counted only on rows that await a lookup, and only rows without
      a tenant await one. */
  predicate TenantColumnsOk(r: Row) {
    && (r.failures > 0 ==> r.lookupTime.Some?)
    && (r.lookupTime.Some? ==> r.org == "")
  }

  /** A row without a tenant awaits a lookup, and no other row does. */
  predicate Settled(r: Row) {
    r.org == "" <==> r.lookupTime.Some?
  }

  /** Statements that the processes run: upserts come from `Register`, and the stale
      updater marks rows that had a tenant. */
  ghost predicate Genuine(st: Statement) {
    && (st.Upsert? ==> st == RegisterStatement(st.state, st.now))
    && (st.MarkFresh? ==> st.org != "")
  }

  lemma GenuineKeepsTenantColumns(rows: seq<Row>, st: Statement)
    requires Genuine(st) && forall r :: r in rows ==> TenantColumnsOk(r)
    ensures forall r :: r in Execute(rows, st) ==> TenantColumnsOk(r)
  {
    forall r | r in Execute(rows, st) ensures TenantColumnsOk(r) { ExecuteRows(rows, st, r); }
  }

  /** A statement leaves every row settled unless it records a successful lookup
      without an organization on a row that is there; and exactly then not. */
  lemma SettledExactlyWhen(rows: seq<Row>, st: Statement)
    requires Genuine(st) && forall r :: r in rows ==> Settled(r)
    ensures (forall r :: r in Execute(rows, st) ==> Settled(r))
            <==> !(st.MarkResolved? && st.org == "" && Find(rows, st.client).Some?)
  {
    if st.MarkResolved? && st.org == "" && Find(rows, st.client).Some? {
      var r := Find(rows, st.client).value;
      var i :| 0 <= i < |rows| && rows[i] == r;
      assert Execute(rows, st)[i] == Rewrite(st, r) && !Settled(Rewrite(st, r));
      assert Execute(rows, st)[i] in Execute(rows, st);
    } else {
      forall r | r in Execute(rows, st) ensures Settled(r) {
        ExecuteRows(rows, st, r);
        if st.MarkResolved? && Find(rows, st.client).None? { assert forall r0 :: r0 in rows ==> r0.client != st.client; }
      }
    }
  }

  /** Rows that await a refresh had a tenant when they were selected. */
  ghost predicate RefreshesHaveTenant(s: State) {
    forall i :: 0 <= i < |s.refreshes| ==> s.refreshes[i].org != ""
  }

  lemma StatementsAreGenuine(cfg: Config, s: State, e: Event)
    requires RefreshesHaveTenant(s)
    ensures var st := StatementOf(cfg, s, e);
            st.Some? ==> Genuine(st.value)
  {
  }

  lemma RefreshesKeepTenant(cfg: Config, s: State, e: Event)
    requires |s.workers| == |cfg.logs| && RefreshesHaveTenant(s)
    ensures RefreshesHaveTenant(Step(cfg, s, e))
  {
    if StartsRefreshes(cfg, s, e) {
      assert forall i :: 0 <= i < |e.result| ==> Updaters.Stale(Updaters.StaleCutoff(s.now, cfg.staleTimeOffset)).Selects(e.result[i]);
    }
  }

  lemma {:induction false} RunKeepsTenantColumns(cfg: Config, es: seq<Event>)
    ensures RefreshesHaveTenant(Reached(cfg, es))
    ensures forall r :: r in Reached(cfg, es).rows ==> TenantColumnsOk(r)
  {
    if es != [] {
      var s, e := Reached(cfg, es[..|es| - 1]), es[|es| - 1];
      RunKeepsTenantColumns(cfg, es[..|es| - 1]);
      StatementsAreGenuine(cfg, s, e);
      var st := StatementOf(cfg, s, e);
      if st.Some? { GenuineKeepsTenantColumns(s.rows, st.value); }
      RefreshesKeepTenant(cfg, s, e);
    }
  }

  ghost predicate AnswerFor(cfg: Config, c: ClientId, answer: Answer) {
    exists n :: answer == cfg.resolver(c, n)
  }

  /** The updaters act on the resolver's answers for the rows they have in hand. */
  ghost predicate UpdaterAnswersOk(cfg: Config, s: State) {
    && (s.lookupAnswer.Some? ==> s.lookups != [] && AnswerFor(cfg, s.lookups[0].client, s.lookupAnswer.value))
    && (s.refreshAnswer.Some? ==> s.refreshes != [] && AnswerFor(cfg, s.refreshes[0].client, s.refreshAnswer.value))
  }

  lemma StepKeepsUpdaterAnswers(cfg: Config, s: State, e: Event)
    requires |s.workers| == |cfg.logs| && UpdaterAnswersOk(cfg, s)
    ensures UpdaterAnswersOk(cfg, Step(cfg, s, e))
  {
  }

  lemma {:induction false} RunKeepsUpdaterAnswers(cfg: Config, es: seq<Event>)
    ensures UpdaterAnswersOk(cfg, Reached(cfg, es))
  {
    if es != [] {
      RunKeepsUpdaterAnswers(cfg, es[..|es| - 1]);
      StepKeepsUpdaterAnswers(cfg, Reached(cfg, es[..|es| - 1]), es[|es| - 1]);
    }
  }

  /** A successful lookup always names an organization. */
  ghost predicate SuccessNamesOrg(cfg: Config) {
    forall c, n :: !cfg.resolver(c, n).error.Some? ==> cfg.resolver(c, n).org != ""
  }

  lemma {:induction false} RunKeepsSettled(cfg: Config, es: seq<Event>)
    requires SuccessNamesOrg(cfg)
    ensures forall r :: r in Reached(cfg, es).rows ==> Settled(r)
  {
    if es != [] {
      var s, e := Reached(cfg, es[..|es| - 1]), es[|es| - 1];
      RunKeepsSettled(cfg, es[..|es| - 1]);
      RunKeepsUpdaterAnswers(cfg, es[..|es| - 1]);
      RunKeepsTenantColumns(cfg, es[..|es| - 1]);
      StatementsAreGenuine(cfg, s, e);
      var st := StatementOf(cfg, s, e);
      if st.Some? { SettledExactlyWhen(s.rows, st.value); }
    }
  }

  // ----- Rows without a tenant that nothing picks up -----

  /** Neither updater has the row in hand. */
  ghost predicate OutOfHands(s: State, r: Row) {
    && Unique(s.rows) && r in s.rows
    && (forall x :: x in s.lookups ==> x.client != r.client)
    && (forall x :: x in s.refreshes ==> x.client != r.client)
  }

  lemma ResultLeavesOut(rows: seq<Row>, q: Updaters.Query, limit: nat, result: seq<Row>, r: Row)
    requires Unique(rows) && r in rows && !q.Selects(r) && Updaters.IsResult(rows, q, limit, result)
    ensures forall x :: x in result ==> x.client != r.client
  {
    forall x | x in result ensures x.client != r.client {
      var i :| 0 <= i < |result| && result[i] == x;
      assert q.Selects(result[i]);
      FindOnlyRow(rows, r);
      FindOnlyRow(rows, x);
    }
  }

  lemma StepLeavesAlone(cfg: Config, s: State, e: Event, r: Row)
    requires |s.workers| == |cfg.logs| && Partitioned(cfg) && OutOfHands(s, r)
    requires Partition(e) != Some(cfg.partitionOf(r.client))
    ensures Unique(RowsAfter(cfg, s, e)) && r in RowsAfter(cfg, s, e)
  {
    var st := StatementOf(cfg, s, e);
    if st.Some? {
      if !ControlMessages.IsUpdaterStatement(st.value) { assert InPartition(cfg, e.p, InHand(cfg, s, e.p)); }
      ExecuteRefinesMap(s.rows, st.value, r.client);
      FindOnlyRow(s.rows, r);
    }
  }

  lemma HandsStayEmpty(cfg: Config, s: State, e: Event, r: Row)
    requires OutOfHands(s, r) && TenantColumnsOk(r) && !Settled(r)
    ensures forall x :: x in LookupsAfter(cfg, s, e) ==> x.client != r.client
    ensures forall x :: x in RefreshesAfter(cfg, s, e) ==> x.client != r.client
  {
    if StartsLookups(cfg, s, e) {
      ResultLeavesOut(s.rows, Updaters.Tenantless(s.now - cfg.lookupOffset, cfg.maxFailures), cfg.chunkSize, e.result, r);
    } else if StartsRefreshes(cfg, s, e) {
      ResultLeavesOut(s.rows, Updaters.Stale(Updaters.StaleCutoff(s.now, cfg.staleTimeOffset)), cfg.staleChunkSize, e.result, r);
    }
  }

  lemma StepKeepsOutOfHands(cfg: Config, s: State, e: Event, r: Row)
    requires |s.workers| == |cfg.logs| && Partitioned(cfg) && OutOfHands(s, r)
    requires TenantColumnsOk(r) && !Settled(r)
    requires Partition(e) != Some(cfg.partitionOf(r.client))
    ensures OutOfHands(Step(cfg, s, e), r)
  {
    StepLeavesAlone(cfg, s, e, r);
    HandsStayEmpty(cfg, s, e, r);
  }

  /** A row with neither a tenant nor a lookup to await is stuck: whatever the updaters
      and the other partitions do, it stays as it is until its client speaks again. */
  lemma {:induction false} UnsettledRowIsStuck(cfg: Config, s: State, es: seq<Event>, r: Row)
    requires |s.workers| == |cfg.logs| && Partitioned(cfg) && OutOfHands(s, r)
    requires TenantColumnsOk(r) && !Settled(r)
    requires forall i :: 0 <= i < |es| ==> Partition(es[i]) != Some(cfg.partitionOf(r.client))
    ensures OutOfHands(Run(cfg, s, es), r)
  {
    if es != [] {
      var n := |es| - 1;
      UnsettledRowIsStuck(cfg, s, es[..n], r);
      StepKeepsOutOfHands(cfg, Run(cfg, s, es[..n]), es[n], r);
    }
  }

  /** A host that the recorder's gate lets through, and a resolver that knows no organization. */
  const HOST_MESSAGE := MessageColumns("id", 1, Object(map[Inventory.PLAYBOOK_WORKER := Null]), Null, Object(map["fqdn" := Text("host")]))
  const HOMELESS_ANSWER := Answer("identity", "", "", None)
  const HOMELESS := Config([[Online("c", HOST_MESSAGE)]], c => 0, (c, n) => HOMELESS_ANSWER, 1, 1, 0, 1, 0)
  const HOMELESS_ROW := Row("c", "", "", HOST_MESSAGE, 0, Some(0), 0)
  const HOMELESS_REPORT := Inventory.HostMessage("c", "", HOMELESS_ANSWER)
  const UNSETTLED_ROW := HOMELESS_ROW.(lookupTime := None)

  /** Nothing is queued, and the table and what has been sent are as given. */
  predicate HomelessAt(s: State, rows: seq<Row>, sent: seq<Inventory.HostMessage>, now: int) {
    && s.rows == rows && s.inventory == sent && s.now == now && |s.workers| == 1
    && s.lookups == [] && s.refreshes == [] && s.lookupAnswer == None
  }

  predicate HomelessInHand(s: State, stage: Stage) {
    && HomelessAt(s, [], [], 0) && s.workers[0].stage == stage
    && s.workers[0].loop == K.START.(phase := K.Processing, next := 1)
  }

  lemma HomelessFound(s: State)
    requires s == Init(HOMELESS)
    ensures HomelessInHand(Step(HOMELESS, Step(HOMELESS, s, Fetch(0, K.Succeeded)), FindRow(0, false)), Checked)
  {
    var s' := Step(HOMELESS, s, Fetch(0, K.Succeeded));
    assert HomelessInHand(s', Unchecked);
    assert InHand(HOMELESS, s', 0) == Online("c", HOST_MESSAGE);
  }

  lemma HomelessPassesGate()
    ensures Inventory.Records(HOST_MESSAGE, HOMELESS_ANSWER, Inventory.Sent)
  {
    assert "fqdn" in HOST_MESSAGE.facts.fields.Keys;
    assert |HOST_MESSAGE.facts.fields| > 0;
  }

  lemma HomelessRegistered(s: State)
    requires HomelessInHand(s, Checked)
    ensures var s' := Step(HOMELESS, Step(HOMELESS, s, ResolveTenant(0)), RegisterRow(0, Written, Inventory.Sent));
            HomelessAt(s', [HOMELESS_ROW], [HOMELESS_REPORT], 0)
  {
    assert InHand(HOMELESS, s, 0) == Online("c", HOST_MESSAGE);
    var s' := Step(HOMELESS, s, ResolveTenant(0));
    assert HomelessInHand(s', Resolved(HOMELESS_ANSWER));
    assert InHand(HOMELESS, s', 0) == Online("c", HOST_MESSAGE);
    HomelessPassesGate();
  }

  lemma HomelessSelected(s: State)
    requires HomelessAt(s, [HOMELESS_ROW], [HOMELESS_REPORT], 0)
    ensures var s' := Step(HOMELESS, Step(HOMELESS, s, Tick(1)), StartLookups([HOMELESS_ROW]));
            s' == s.(now := 1, steps := s.steps + 2, lookups := [HOMELESS_ROW], lookupRuns := s.lookupRuns + 1)
  {
    var s' := Step(HOMELESS, s, Tick(1));
    assert HomelessAt(s', [HOMELESS_ROW], [HOMELESS_REPORT], 1);
    assert StartsLookups(HOMELESS, s', StartLookups([HOMELESS_ROW]));
  }

  lemma HomelessLookedUp(s: State)
    requires s.rows == [HOMELESS_ROW] == s.lookups && |s.workers| == 1 && s.refreshes == []
    ensures var s' := Step(HOMELESS, Step(HOMELESS, s, ResolveLookup), RecordLookup(true));
            HomelessAt(s', [UNSETTLED_ROW], s.inventory, s.now)
  {
    var s' := Step(HOMELESS, s, ResolveLookup);
    assert s'.lookupAnswer == Some(HOMELESS_ANSWER) && s'.rows == s.rows && s'.lookups == s.lookups;
    assert StatementOf(HOMELESS, s', RecordLookup(true)) == Some(MarkResolved("c", "", ""));
  }

  lemma HomelessRun() returns (es: seq<Event>)
    ensures HomelessAt(Reached(HOMELESS, es), [UNSETTLED_ROW], [HOMELESS_REPORT], 1)
  {
    var s := Init(HOMELESS);
    RunTwoMore(HOMELESS, s, [], Fetch(0, K.Succeeded), FindRow(0, false));
    HomelessFound(s);
    var es2 := [] + [Fetch(0, K.Succeeded), FindRow(0, false)];
    RunTwoMore(HOMELESS, s, es2, ResolveTenant(0), RegisterRow(0, Written, Inventory.Sent));
    HomelessRegistered(Reached(HOMELESS, es2));
    var es4 := es2 + [ResolveTenant(0), RegisterRow(0, Written, Inventory.Sent)];
    RunTwoMore(HOMELESS, s, es4, Tick(1), StartLookups([HOMELESS_ROW]));
    HomelessSelected(Reached(HOMELESS, es4));
    var es6 := es4 + [Tick(1), StartLookups([HOMELESS_ROW])];
    RunTwoMore(HOMELESS, s, es6, ResolveLookup, RecordLookup(true));
    HomelessLookedUp(Reached(HOMELESS, es6));
    es := es6 + [ResolveLookup, RecordLookup(true)];
  }

  /** A resolver that succeeds without an organization gets a row stuck: the premise on
      its successes is needed. */
  lemma OrglessSuccessStrandsRow()
    ensures exists cfg: Config, es, r ::
      && Partitioned(cfg) && OutOfHands(Reached(cfg, es), r)
      && TenantColumnsOk(r) && !Settled(r)
  {
    var es := HomelessRun();
    assert Partitioned(HOMELESS);
    assert OutOfHands(Reached(HOMELESS, es), UNSETTLED_ROW);
    assert TenantColumnsOk(UNSETTLED_ROW) && !Settled(UNSETTLED_ROW);
  }

  /** And the same run reports the connection without an organization to host inventory. */
  lemma OrglessSuccessIsReported()
    ensures exists cfg: Config, es, m ::
      && Partitioned(cfg) && FailureHasNoIdentity(cfg)
      && m in Reached(cfg, es).inventory && m.org == ""
  {
    var es := HomelessRun();
    assert Partitioned(HOMELESS) && FailureHasNoIdentity(HOMELESS);
    assert HOMELESS_REPORT in Reached(HOMELESS, es).inventory && HOMELESS_REPORT.org == "";
  }

  // ----- Interleaving independence -----

  /** The resolver gives one answer per client, and nothing but an error on failure. */
  ghost predicate FixedResolver(cfg: Config) {
    && (forall c, n :: cfg.resolver(c, n) == cfg.resolver(c, 0))
    && forall c :: cfg.resolver(c, 0).error.Some? ==> cfg.resolver(c, 0) == Answer("", "", "", cfg.resolver(c, 0).error)
  }

  predicate TenantAsResolved(cfg: Config, r: Row) {
    r.account == cfg.resolver(r.client, 0).account && r.org == cfg.resolver(r.client, 0).org
  }

  ghost predicate AnswersAsResolved(cfg: Config, s: State)
    requires |s.workers| == |cfg.logs|
  {
    forall p :: 0 <= p < |s.workers| && !s.workers[p].stage.Unchecked? ==>
                  && InHand(cfg, s, p).Online?
                  && (s.workers[p].stage.Resolved? ==> s.workers[p].stage.answer == cfg.resolver(InHand(cfg, s, p).client, 0))
  }

  lemma StepKeepsAnswers(cfg: Config, s: State, e: Event)
    requires FixedResolver(cfg) && |s.workers| == |cfg.logs| && AnswersAsResolved(cfg, s)
    ensures AnswersAsResolved(cfg, Step(cfg, s, e))
  {
    var s' := Step(cfg, s, e);
    forall p | 0 <= p < |s'.workers| && !s'.workers[p].stage.Unchecked?
      ensures InHand(cfg, s', p).Online?
      ensures s'.workers[p].stage.Resolved? ==> s'.workers[p].stage.answer == cfg.resolver(InHand(cfg, s', p).client, 0)
    {
      if Partition(e) == Some(p) {
        assert s'.workers[p] == WorkerAfter(cfg, s, p, e);
      } else {
        assert s'.workers[p] == s.workers[p];
      }
    }
  }

  /** A statement writes no tenant but the resolver's. */
  predicate WritesAsResolved(cfg: Config, st: Statement) {
    match st
    case Upsert(state, _, _, _) =>
      state.account == cfg.resolver(state.client, 0).account && state.org == cfg.resolver(state.client, 0).org
    case MarkFailed(c, _) => cfg.resolver(c, 0).account == "" == cfg.resolver(c, 0).org
    case MarkResolved(c, account, org) =>
      account == cfg.resolver(c, 0).account && org == cfg.resolver(c, 0).org
    case _ => true
  }

  lemma StatementsWriteAsResolved(cfg: Config, s: State, e: Event)
    requires FixedResolver(cfg) && |s.workers| == |cfg.logs| && AnswersAsResolved(cfg, s) && UpdaterAnswersOk(cfg, s)
    ensures var st := StatementOf(cfg, s, e);
            st.Some? ==> WritesAsResolved(cfg, st.value)
  {
  }

  lemma WritesKeepTenants(cfg: Config, rows: seq<Row>, st: Statement)
    requires WritesAsResolved(cfg, st) && forall r :: r in rows ==> TenantAsResolved(cfg, r)
    ensures forall r :: r in Execute(rows, st) ==> TenantAsResolved(cfg, r)
  {
    forall r | r in Execute(rows, st) ensures TenantAsResolved(cfg, r) { ExecuteRows(rows, st, r); }
  }

  lemma {:induction false} RunKeepsTenants(cfg: Config, es: seq<Event>)
    requires FixedResolver(cfg)
    ensures AnswersAsResolved(cfg, Reached(cfg, es))
    ensures forall r :: r in Reached(cfg, es).rows ==> TenantAsResolved(cfg, r)
  {
    if es != [] {
      var s, e := Reached(cfg, es[..|es| - 1]), es[|es| - 1];
      RunKeepsTenants(cfg, es[..|es| - 1]);
      StepKeepsAnswers(cfg, s, e);
      RunKeepsUpdaterAnswers(cfg, es[..|es| - 1]);
      StatementsWriteAsResolved(cfg, s, e);
      var st := StatementOf(cfg, s, e);
      if st.Some? { WritesKeepTenants(cfg, s.rows, st.value); }
    }
  }

  /** A row without the columns that come from clocks and from the counting of retries. */
  function Lasting(o: Option<Row>): Option<(ClientId, AccountId, OrgId, MessageColumns)> {
    if o.Some? then Some((o.value.client, o.value.account, o.value.org, o.value.message)) else None
  }

  predicate AwaitsLookup(o: Option<Row>) {
    o.Some? && o.value.lookupTime.Some?
  }

  /** Any two runs over the same logs that commit a client's partition end with the same
      row for the client, however the partitions, the updaters and the crashes interleave,
      if they lost the same messages of that partition; and they leave the same connections
      to the tenantless updater, if a success always names an organization. */
  lemma InterleavingsAgree(cfg: Config, es1: seq<Event>, es2: seq<Event>, c: ClientId)
    requires Partitioned(cfg) && FixedResolver(cfg)
    requires ExactlyOnce.FullyCommitted(cfg, Reached(cfg, es1), cfg.partitionOf(c))
    requires ExactlyOnce.FullyCommitted(cfg, Reached(cfg, es2), cfg.partitionOf(c))
    requires var p := cfg.partitionOf(c);
             Reached(cfg, es1).workers[p].lost == Reached(cfg, es2).workers[p].lost
    ensures Lasting(Find(Reached(cfg, es1).rows, c)) == Lasting(Find(Reached(cfg, es2).rows, c))
    ensures SuccessNamesOrg(cfg) ==>
              AwaitsLookup(Find(Reached(cfg, es1).rows, c)) == AwaitsLookup(Find(Reached(cfg, es2).rows, c))
  {
    ExactlyOnce.CommittedLogIsAppliedOnce(cfg, es1, c);
    ExactlyOnce.CommittedLogIsAppliedOnce(cfg, es2, c);
    SameColumnsSameRow(cfg, es1, es2, c);
  }

  lemma SameColumnsSameRow(cfg: Config, es1: seq<Event>, es2: seq<Event>, c: ClientId)
    requires FixedResolver(cfg)
    requires ControlMessages.Columns(Reached(cfg, es1).rows, c) == ControlMessages.Columns(Reached(cfg, es2).rows, c)
    ensures Lasting(Find(Reached(cfg, es1).rows, c)) == Lasting(Find(Reached(cfg, es2).rows, c))
    ensures SuccessNamesOrg(cfg) ==>
              AwaitsLookup(Find(Reached(cfg, es1).rows, c)) == AwaitsLookup(Find(Reached(cfg, es2).rows, c))
  {
    RunKeepsTenants(cfg, es1);
    RunKeepsTenants(cfg, es2);
    if SuccessNamesOrg(cfg) {
      RunKeepsSettled(cfg, es1);
      RunKeepsSettled(cfg, es2);
    }
  }

  /** In particular if no `Register` failed silently in either run. */
  lemma LosslessInterleavingsAgree(cfg: Config, es1: seq<Event>, es2: seq<Event>, c: ClientId)
    requires Partitioned(cfg) && FixedResolver(cfg)
    requires ExactlyOnce.FullyCommitted(cfg, Reached(cfg, es1), cfg.partitionOf(c))
    requires ExactlyOnce.FullyCommitted(cfg, Reached(cfg, es2), cfg.partitionOf(c))
    requires forall i :: 0 <= i < |es1| ==> !ExactlyOnce.SilentFailure(es1[i])
    requires forall i :: 0 <= i < |es2| ==> !ExactlyOnce.SilentFailure(es2[i])
    ensures Lasting(Find(Reached(cfg, es1).rows, c)) == Lasting(Find(Reached(cfg, es2).rows, c))
  {
    ExactlyOnce.OnlySilentFailuresLose(cfg, es1, cfg.partitionOf(c));
    ExactlyOnce.OnlySilentFailuresLose(cfg, es2, cfg.partitionOf(c));
    InterleavingsAgree(cfg, es1, es2, c);
  }

  // ----- Host inventory -----

  ghost predicate LogsWellTyped(cfg: Config) {
    forall p, k :: var a := ActionAt(cfg, p, k); a.Online? ==> Inventory.ColumnsWellTyped(a.msg)
  }

  lemma {:induction false} RowsStayWellTyped(cfg: Config, es: seq<Event>)
    requires LogsWellTyped(cfg)
    ensures forall r :: r in Reached(cfg, es).rows ==> Inventory.ColumnsWellTyped(r.message)
  {
    if es != [] {
      var s, e := Reached(cfg, es[..|es| - 1]), es[|es| - 1];
      RowsStayWellTyped(cfg, es[..|es| - 1]);
      var st := StatementOf(cfg, s, e);
      if st.Some? {
        if st.value.Upsert? {
          var a := InHand(cfg, s, e.p);
          assert ActionAt(cfg, e.p, s.workers[e.p].loop.current) == a;
        }
        forall r | r in Execute(s.rows, st.value) ensures Inventory.ColumnsWellTyped(r.message) {
          ExecuteRows(s.rows, st.value, r);
        }
      }
    }
  }

  /** In every run, each row that the stale updater has in hand passes the recorder's
      gate for any identity. */
  lemma {:induction false} StaleRowsPassGate(cfg: Config, es: seq<Event>, identity: string)
    requires LogsWellTyped(cfg) && identity != ""
    ensures forall i :: 0 <= i < |Reached(cfg, es).refreshes| ==>
                          Inventory.ShouldHostBeRegistered(Reached(cfg, es).refreshes[i].message, identity)
  {
    if es != [] {
      var s, e := Reached(cfg, es[..|es| - 1]), es[|es| - 1];
      StaleRowsPassGate(cfg, es[..|es| - 1], identity);
      if StartsRefreshes(cfg, s, e) {
        RowsStayWellTyped(cfg, es[..|es| - 1]);
        var q := Updaters.Stale(Updaters.StaleCutoff(s.now, cfg.staleTimeOffset));
        forall i | 0 <= i < |e.result| ensures Inventory.ShouldHostBeRegistered(e.result[i].message, identity) {
          assert e.result[i] in s.rows && q.Selects(e.result[i]);
          Inventory.GateAgainstStaleQuery(e.result[i], identity);
        }
      }
    }
  }

  /** A failed lookup returns no identity. */
  ghost predicate FailureHasNoIdentity(cfg: Config) {
    forall c, n :: cfg.resolver(c, n).error.Some? ==> cfg.resolver(c, n).identity == ""
  }

  ghost predicate AnswersComeFromResolver(cfg: Config, s: State) {
    forall p :: 0 <= p < |s.workers| && s.workers[p].stage.Resolved? ==>
                  exists c, n :: s.workers[p].stage.answer == cfg.resolver(c, n)
  }

  lemma {:induction false} RunKeepsResolvedAnswers(cfg: Config, es: seq<Event>)
    ensures AnswersComeFromResolver(cfg, Reached(cfg, es))
  {
    if es != [] {
      var s, e := Reached(cfg, es[..|es| - 1]), es[|es| - 1];
      var s' := Step(cfg, s, e);
      RunKeepsResolvedAnswers(cfg, es[..|es| - 1]);
      forall p | 0 <= p < |s'.workers| && s'.workers[p].stage.Resolved?
        ensures exists c, n :: s'.workers[p].stage.answer == cfg.resolver(c, n)
      {
        if Partition(e) == Some(p) {
          assert s'.workers[p] == WorkerAfter(cfg, s, p, e);
        } else {
          assert s'.workers[p] == s.workers[p];
        }
      }
    }
  }

  /** The event writes a connection, and the handler then sends `m`: a host, on a lookup
      with an identity. */
  predicate HandlerReports(cfg: Config, s: State, e: Event, m: Inventory.HostMessage) {
    && e.RegisterRow? && e.outcome.Written? && e.delivery.Sent?
    && var a := InHand(cfg, s, e.p);
       && a.Online? && Inventory.IsHost(a.msg) && s.workers[e.p].stage.Resolved?
       && var answer := s.workers[e.p].stage.answer;
          answer.identity != "" && m == Inventory.HostMessage(a.client, answer.org, answer)
  }

  /** The stale updater sends `m`: a host, on a lookup that succeeded with an identity. */
  predicate UpdaterReports(s: State, e: Event, m: Inventory.HostMessage) {
    && e.RecordRefresh? && e.delivery.Sent? && s.refreshes != [] && s.refreshAnswer.Some?
    && var r, answer := s.refreshes[0], s.refreshAnswer.value;
       && Inventory.IsHost(r.message) && answer.error.None? && answer.identity != ""
       && m == Inventory.HostMessage(r.client, r.org, answer)
  }

  lemma StepReports(cfg: Config, s: State, e: Event, m: Inventory.HostMessage)
    ensures m in InventoryAfter(cfg, s, e) <==>
            m in s.inventory || HandlerReports(cfg, s, e, m) || UpdaterReports(s, e, m)
  {
    if e.RegisterRow? {
      var a := InHand(cfg, s, e.p);
      if a.Online? && s.workers[e.p].stage.Resolved? {
        Inventory.GateIsForHosts(a.msg, s.workers[e.p].stage.answer.identity);
      }
    } else if RecordsRefresh(s, e) {
      Inventory.GateIsForHosts(s.refreshes[0].message, s.refreshAnswer.value.identity);
    }
  }

  /** The handler or the stale updater sends `m` in step `i` of the run. */
  ghost predicate ReportsAt(cfg: Config, es: seq<Event>, i: nat, m: Inventory.HostMessage)
    requires i < |es|
  {
    var s := Reached(cfg, es[..i]);
    HandlerReports(cfg, s, es[i], m) || UpdaterReports(s, es[i], m)
  }

  ghost predicate HandlerReportsAt(cfg: Config, es: seq<Event>, i: nat, m: Inventory.HostMessage)
    requires i < |es|
  {
    HandlerReports(cfg, Reached(cfg, es[..i]), es[i], m)
  }

  lemma EarlierReport(cfg: Config, es: seq<Event>, n: nat, i: nat, m: Inventory.HostMessage)
    requires i < n <= |es|
    ensures ReportsAt(cfg, es[..n], i, m) <==> ReportsAt(cfg, es, i, m)
  {
    assert es[..n][..i] == es[..i];
  }

  lemma ReportGoesOut(cfg: Config, es: seq<Event>, n: nat, m: Inventory.HostMessage)
    requires n + 1 == |es|
    ensures m in Reached(cfg, es).inventory <==>
            m in Reached(cfg, es[..n]).inventory || ReportsAt(cfg, es, n, m)
  {
    StepReports(cfg, Reached(cfg, es[..n]), es[n], m);
  }

  /** A message has gone out to host inventory exactly when, at some step of the run, the
      handler registered such a host or the stale updater refreshed it. */
  lemma {:induction false} ReportedExactlyWhen(cfg: Config, es: seq<Event>, m: Inventory.HostMessage)
    ensures m in Reached(cfg, es).inventory <==> exists i :: 0 <= i < |es| && ReportsAt(cfg, es, i, m)
  {
    if es != [] {
      var n := |es| - 1;
      ReportedExactlyWhen(cfg, es[..n], m);
      ReportGoesOut(cfg, es, n, m);
      forall i | 0 <= i < n ensures ReportsAt(cfg, es[..n], i, m) <==> ReportsAt(cfg, es, i, m) {
        EarlierReport(cfg, es, n, i, m);
      }
    }
  }

  lemma DoubtfulReportIsHandlers(cfg: Config, es: seq<Event>, i: nat, m: Inventory.HostMessage)
    requires i < |es| && (m.org == "" || m.answer.error.Some?)
    ensures ReportsAt(cfg, es, i, m) <==> HandlerReportsAt(cfg, es, i, m)
  {
    RunKeepsTenantColumns(cfg, es[..i]);
  }

  /** A message for host inventory without an organization, or on a failed lookup, goes
      out exactly when the handler registers a connection on such an answer, with an
      identity; the stale updater never sends one. */
  lemma DoubtfulReportExactlyWhen(cfg: Config, es: seq<Event>, m: Inventory.HostMessage)
    requires m.org == "" || m.answer.error.Some?
    ensures m in Reached(cfg, es).inventory <==>
            exists i :: 0 <= i < |es| && HandlerReportsAt(cfg, es, i, m)
  {
    ReportedExactlyWhen(cfg, es, m);
    forall i | 0 <= i < |es| ensures ReportsAt(cfg, es, i, m) <==> HandlerReportsAt(cfg, es, i, m) {
      DoubtfulReportIsHandlers(cfg, es, i, m);
    }
  }

  /** In every run, no failed lookup is reported, by the handler or by the stale updater. */
  lemma NoFailedLookupIsReported(cfg: Config, es: seq<Event>, m: Inventory.HostMessage)
    requires FailureHasNoIdentity(cfg) && m in Reached(cfg, es).inventory
    ensures m.answer.error.None?
  {
    if m.answer.error.Some? {
      DoubtfulReportExactlyWhen(cfg, es, m);
      var i :| 0 <= i < |es| && HandlerReportsAt(cfg, es, i, m);
      RunKeepsResolvedAnswers(cfg, es[..i]);
    }
  }

  /** In every run, no connection without a tenant is reported. */
  lemma OnlyTenantsAreReported(cfg: Config, es: seq<Event>, m: Inventory.HostMessage)
    requires FailureHasNoIdentity(cfg) && SuccessNamesOrg(cfg) && m in Reached(cfg, es).inventory
    ensures m.org != ""
  {
    if m.org == "" {
      DoubtfulReportExactlyWhen(cfg, es, m);
      var i :| 0 <= i < |es| && HandlerReportsAt(cfg, es, i, m);
      RunKeepsResolvedAnswers(cfg, es[..i]);
    }
  }
}
