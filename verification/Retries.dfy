/** Tenant lookups over whole runs: their number is bounded, and no row is passed over. */
module Retries {
  import opened Domain
  import opened ConnectionTable
  import Updaters
  import opened System
  import Tenancy

  // ----- Bounded retries -----

  /** The rows still to be looked up are as the query found them. */
  ghost predicate QueueIsCurrent(cfg: Config, s: State) {
    && Unique(s.rows) && Unique(s.lookups)
    && forall i :: 0 <= i < |s.lookups| ==> s.lookups[i] in s.rows && Updaters.Selectable(s.lookups[i], cfg.maxFailures)
  }

  /** The event writes nothing but the result of a lookup, and that succeeds. */
  ghost predicate OnlyLookupsWrite(cfg: Config, s: State, e: Event) {
    if e.RecordLookup? then e.written else StatementOf(cfg, s, e).None?
  }

  lemma LookupKeepsQueue(cfg: Config, s: State, st: Statement)
    requires QueueIsCurrent(cfg, s) && s.lookups != []
    requires (st.MarkFailed? || st.MarkResolved?) && Target(st) == s.lookups[0].client
    ensures QueueIsCurrent(cfg, s.(rows := Execute(s.rows, st), lookups := s.lookups[1..]))
  {
    ExecuteKeepsUnique(s.rows, st);
    forall i | 0 <= i < |s.lookups[1..]| ensures s.lookups[1..][i] in Execute(s.rows, st) {
      assert s.lookups[0].client != s.lookups[i + 1].client;
      Updaters.LookupKeepsOthers(s.rows, st, s.lookups[i + 1]);
    }
  }

  lemma StartMakesQueue(cfg: Config, s: State, result: seq<Row>)
    requires Unique(s.rows)
    requires Updaters.IsResult(s.rows, Updaters.Tenantless(s.now - cfg.lookupOffset, cfg.maxFailures), cfg.chunkSize, result)
    ensures QueueIsCurrent(cfg, s.(lookups := result))
  {
    var q := Updaters.Tenantless(s.now - cfg.lookupOffset, cfg.maxFailures);
    assert forall i :: 0 <= i < |result| ==> q.Selects(result[i]);
  }

  lemma LookupStepUsesPotential(cfg: Config, s: State, e: Event)
    requires |s.workers| == |cfg.logs| && QueueIsCurrent(cfg, s) && OnlyLookupsWrite(cfg, s, e)
    ensures var s' := Step(cfg, s, e);
            && QueueIsCurrent(cfg, s')
            && s'.lookupsMade - s.lookupsMade + Updaters.Potential(s'.rows, cfg.maxFailures) <= Updaters.Potential(s.rows, cfg.maxFailures)
  {
    if RecordsLookup(s, e) {
      var r, answer := s.lookups[0], s.lookupAnswer.value;
      Updaters.LookupUsesPotential(s.rows, r, answer, s.now, cfg.maxFailures);
      LookupKeepsQueue(cfg, s, Updaters.LookupStatement(r.client, answer, s.now));
    } else if StartsLookups(cfg, s, e) {
      StartMakesQueue(cfg, s, e.result);
    }
  }

  /** While only lookups write the table, each uses up some of the initial potential:
      however the resolver answers, their number is bounded by it. */
  lemma {:induction false} LookupsAreBounded(cfg: Config, s: State, es: seq<Event>)
    requires |s.workers| == |cfg.logs| && QueueIsCurrent(cfg, s)
    requires forall i :: 0 <= i < |es| ==> OnlyLookupsWrite(cfg, Run(cfg, s, es[..i]), es[i])
    ensures var s' := Run(cfg, s, es);
            && QueueIsCurrent(cfg, s')
            && s'.lookupsMade - s.lookupsMade + Updaters.Potential(s'.rows, cfg.maxFailures) <= Updaters.Potential(s.rows, cfg.maxFailures)
  {
    if es != [] {
      var n := |es| - 1;
      assert forall i :: 0 <= i < n ==> es[..n][..i] == es[..i];
      LookupsAreBounded(cfg, s, es[..n]);
      LookupStepUsesPotential(cfg, Run(cfg, s, es[..n]), es[n]);
    }
  }

  lemma NoPotentialNoResult(rows: seq<Row>, cutoff: int, maxFailures: int, limit: nat, s: seq<Row>)
    requires Updaters.Potential(rows, maxFailures) == 0 && Updaters.IsResult(rows, Updaters.Tenantless(cutoff, maxFailures), limit, s)
    ensures s == []
  {
    if s != [] {
      assert s[0] in rows && Updaters.Tenantless(cutoff, maxFailures).Selects(s[0]);
      Updaters.NoPotentialNoCandidate(rows, maxFailures);
    }
  }

  /** Once that many lookups have been made, no run selects a row again. */
  lemma NothingLeftToLookUp(cfg: Config, s: State, es: seq<Event>, e: Event)
    requires |s.workers| == |cfg.logs| && QueueIsCurrent(cfg, s)
    requires forall i :: 0 <= i < |es| ==> OnlyLookupsWrite(cfg, Run(cfg, s, es[..i]), es[i])
    ensures var s' := Run(cfg, s, es);
            && s'.lookupsMade - s.lookupsMade >= Updaters.Potential(s.rows, cfg.maxFailures)
            && StartsLookups(cfg, s', e)
            ==> e.result == []
  {
    LookupsAreBounded(cfg, s, es);
    var s' := Run(cfg, s, es);
    if s'.lookupsMade - s.lookupsMade >= Updaters.Potential(s.rows, cfg.maxFailures) && StartsLookups(cfg, s', e) {
      NoPotentialNoResult(s'.rows, s'.now - cfg.lookupOffset, cfg.maxFailures, cfg.chunkSize, e.result);
    }
  }

  // ----- First in, first out -----

  function ClientsOf(rows: seq<Row>): set<ClientId> {
    set r | r in rows :: r.client
  }

  lemma {:induction false} UniqueRowsCount(rows: seq<Row>)
    requires Unique(rows)
    ensures |ClientsOf(rows)| == |rows|
  {
    if rows != [] {
      UniqueRowsCount(rows[1..]);
      assert rows == [rows[0]] + rows[1..];
      assert ClientsOf(rows) == {rows[0].client} + ClientsOf(rows[1..]);
      assert rows[0].client !in ClientsOf(rows[1..]);
    }
  }

  /** A query may put the row before one of time `t`. */
  predicate IsRival(r: Row, t: int, maxFailures: int) {
    r.org == "" && r.lookupTime.Some? && r.lookupTime.value <= t && r.failures < maxFailures
  }

  /** The other clients that a query may put before a row of time `t`. */
  function Rivals(rows: seq<Row>, me: ClientId, t: int, maxFailures: int): set<ClientId> {
    set r | r in rows && r.client != me && IsRival(r, t, maxFailures) :: r.client
  }

  predicate WritesAfter(st: Statement, t: int) {
    st.Upsert? || st.MarkFresh? || st.MarkFailed? ==> st.now > t
  }

  lemma NoWriteMakesRival(st: Statement, r: Row, t: int, maxFailures: int)
    requires Tenancy.Genuine(st) && WritesAfter(st, t)
    ensures IsRival(Rewrite(st, r), t, maxFailures) ==>
              IsRival(r, t, maxFailures) && !st.MarkFailed? && !st.MarkResolved?
    ensures st.Upsert? ==> !IsRival(Inserted(st.state, st.lookupTime, st.now), t, maxFailures)
  {
  }

  /** Every write of a lookup time is a later time or null, so rivals never appear,
      and a lookup removes its client. */
  lemma RivalsNeverAppear(rows: seq<Row>, st: Statement, me: ClientId, t: int, maxFailures: int)
    requires Tenancy.Genuine(st) && WritesAfter(st, t)
    ensures Rivals(Execute(rows, st), me, t, maxFailures) <= Rivals(rows, me, t, maxFailures)
    ensures st.MarkFailed? || st.MarkResolved? ==> Target(st) !in Rivals(Execute(rows, st), me, t, maxFailures)
  {
    forall c | c in Rivals(Execute(rows, st), me, t, maxFailures)
      ensures c in Rivals(rows, me, t, maxFailures)
      ensures st.MarkFailed? || st.MarkResolved? ==> c != Target(st)
    {
      var r :| r in Execute(rows, st) && r.client == c && IsRival(r, t, maxFailures);
      Tenancy.ExecuteRows(rows, st, r);
      if !(r in rows && (r.client != Target(st) || st.Delete?)) {
        if r0 :| r0 in rows && r0.client == Target(st) && r == Rewrite(st, r0) {
          NoWriteMakesRival(st, r0, t, maxFailures);
        } else {
          NoWriteMakesRival(st, r, t, maxFailures);
        }
      }
    }
  }

  /** The run that starts with `e` takes up client `me`. */
  ghost predicate Picks(cfg: Config, s: State, e: Event, me: ClientId) {
    StartsLookups(cfg, s, e) && me in ClientsOf(e.result)
  }

  /** The updater stays up and its writes succeed; nothing else writes the row of `me`. */
  ghost predicate LeavesAlone(cfg: Config, s: State, e: Event, me: ClientId) {
    && !e.KillLookups?
    && (e.RecordLookup? ==> e.written)
    && (!e.RecordLookup? ==> var st := StatementOf(cfg, s, e); st.Some? ==> Target(st.value) != me)
  }

  /** A result that passes over `row` is full of its rivals. */
  lemma FullOfRivals(rows: seq<Row>, cutoff: int, maxFailures: int, limit: nat, s: seq<Row>, row: Row)
    requires Updaters.IsResult(rows, Updaters.Tenantless(cutoff, maxFailures), limit, s)
    requires row in rows && Updaters.LookupCandidate(row, cutoff, maxFailures) && row.client !in ClientsOf(s)
    ensures var rivals := Rivals(rows, row.client, row.lookupTime.value, maxFailures);
            |rivals - ClientsOf(s)| == |rivals| - limit
  {
    var q := Updaters.Tenantless(cutoff, maxFailures);
    assert q.Selects(row) && row !in s;
    UniqueRowsCount(s);
    forall c | c in ClientsOf(s) ensures c in Rivals(rows, row.client, row.lookupTime.value, maxFailures) {
      var i :| 0 <= i < |s| && s[i].client == c;
      assert q.Selects(s[i]) && s[i] in rows && q.Time(s[i]) <= q.Time(row);
    }
    DifferenceSize(Rivals(rows, row.client, row.lookupTime.value, maxFailures), ClientsOf(s));
  }

  /** `n` full results. */
  function Chunks(size: nat, n: nat): nat {
    if n == 0 then 0 else size + Chunks(size, n - 1)
  }

  lemma {:induction false} ChunksMultiply(size: nat, n: nat)
    ensures Chunks(size, n) == size * n
  {
    if n > 0 { ChunksMultiply(size, n - 1); }
  }

  lemma {:induction false} ChunksGrow(size: nat, m: nat, n: nat)
    requires m <= n
    ensures Chunks(size, m) <= Chunks(size, n)
  {
    if m < n { ChunksGrow(size, m, n - 1); }
  }

  lemma ChunksExceed(size: nat, n: nat, bound: nat)
    requires size > 0 && n >= bound / size + 1
    ensures Chunks(size, n) > bound
  {
    var q := bound / size;
    assert bound == size * q + bound % size;
    ChunksMultiply(size, q);
    ChunksGrow(size, q + 1, n);
  }

  /** The rivals that no run since the start has taken up. */
  ghost function Untaken(cfg: Config, s: State, row: Row): set<ClientId>
    requires row.lookupTime.Some?
  {
    Rivals(s.rows, row.client, row.lookupTime.value, cfg.maxFailures) - ClientsOf(s.lookups)
  }

  /** `row` has not been written or taken up since the start, at time `start` and with
      `bound` rivals; each run since then took up `chunkSize` of them. */
  ghost predicate StillWaiting(cfg: Config, s: State, row: Row, start: int, runs: nat, bound: nat) {
    && Unique(s.rows) && Tenancy.RefreshesHaveTenant(s)
    && row in s.rows && Updaters.LookupCandidate(row, start - cfg.lookupOffset, cfg.maxFailures)
    && start <= s.now
    && row.client !in ClientsOf(s.lookups)
    && runs <= s.lookupRuns
    && |Untaken(cfg, s, row)| + Chunks(cfg.chunkSize, s.lookupRuns - runs) <= bound
  }

  lemma RunTakesUpRivals(cfg: Config, s: State, s': State, row: Row, start: int, runs: nat, bound: nat)
    requires StillWaiting(cfg, s, row, start, runs, bound) && s.lookups == []
    requires |Untaken(cfg, s', row)| == |Untaken(cfg, s, row)| - cfg.chunkSize
    requires row.client !in ClientsOf(s'.lookups)
    requires s'.rows == s.rows && s'.refreshes == s.refreshes && s'.now == s.now
    requires s'.lookupRuns == s.lookupRuns + 1
    ensures StillWaiting(cfg, s', row, start, runs, bound)
  {
  }

  lemma QueueShrinks(cfg: Config, s: State, e: Event)
    requires |s.workers| == |cfg.logs| && !StartsLookups(cfg, s, e) && !e.KillLookups?
    ensures var queue := ClientsOf(Step(cfg, s, e).lookups);
            && queue <= ClientsOf(s.lookups)
            && forall c :: c in ClientsOf(s.lookups) - queue ==> RecordsLookup(s, e) && c == s.lookups[0].client
  {
    if RecordsLookup(s, e) {
      assert s.lookups == [s.lookups[0]] + s.lookups[1..];
    }
  }

  lemma RivalsShrink(cfg: Config, s: State, e: Event, row: Row)
    requires |s.workers| == |cfg.logs| && Tenancy.RefreshesHaveTenant(s)
    requires row.lookupTime.Some? && row.lookupTime.value < s.now
    requires e.RecordLookup? ==> e.written
    ensures var rivals := Rivals(Step(cfg, s, e).rows, row.client, row.lookupTime.value, cfg.maxFailures);
            && rivals <= Rivals(s.rows, row.client, row.lookupTime.value, cfg.maxFailures)
            && (RecordsLookup(s, e) ==> s.lookups[0].client !in rivals)
  {
    var st := StatementOf(cfg, s, e);
    if st.Some? {
      Tenancy.StatementsAreGenuine(cfg, s, e);
      RivalsNeverAppear(s.rows, st.value, row.client, row.lookupTime.value, cfg.maxFailures);
    }
  }

  lemma RowIsKept(cfg: Config, s: State, e: Event, row: Row)
    requires |s.workers| == |cfg.logs| && Unique(s.rows) && row in s.rows
    requires LeavesAlone(cfg, s, e, row.client) && row.client !in ClientsOf(s.lookups)
    ensures Unique(Step(cfg, s, e).rows) && row in Step(cfg, s, e).rows
  {
    StepKeepsUnique(cfg, s, e);
    var st := StatementOf(cfg, s, e);
    if st.Some? {
      if e.RecordLookup? { assert s.lookups[0].client in ClientsOf(s.lookups); }
      ExecuteRefinesMap(s.rows, st.value, row.client);
      FindOnlyRow(s.rows, row);
    }
  }

  lemma UntakenShrink(cfg: Config, s: State, e: Event, row: Row)
    requires |s.workers| == |cfg.logs| && Tenancy.RefreshesHaveTenant(s)
    requires row.lookupTime.Some? && row.lookupTime.value < s.now
    requires !StartsLookups(cfg, s, e) && !e.KillLookups? && (e.RecordLookup? ==> e.written)
    ensures |Untaken(cfg, Step(cfg, s, e), row)| <= |Untaken(cfg, s, row)|
  {
    QueueShrinks(cfg, s, e);
    RivalsShrink(cfg, s, e, row);
    SubsetSize(Untaken(cfg, Step(cfg, s, e), row), Untaken(cfg, s, row));
  }

  lemma WaitingGoesOn(cfg: Config, s: State, e: Event, row: Row, start: int, runs: nat, bound: nat)
    requires |s.workers| == |cfg.logs| && StillWaiting(cfg, s, row, start, runs, bound)
    requires LeavesAlone(cfg, s, e, row.client) && !StartsLookups(cfg, s, e)
    ensures StillWaiting(cfg, Step(cfg, s, e), row, start, runs, bound)
  {
    RowIsKept(cfg, s, e, row);
    QueueShrinks(cfg, s, e);
    UntakenShrink(cfg, s, e, row);
    Tenancy.RefreshesKeepTenant(cfg, s, e);
  }

  ghost predicate PassedOver(cfg: Config, s: State, e: Event, me: ClientId)
    requires |s.workers| == |cfg.logs|
  {
    LeavesAlone(cfg, s, e, me) && !Picks(cfg, s, e, me)
  }

  lemma NothingTakenYet(cfg: Config, s: State, row: Row)
    requires s.lookups == [] && row.lookupTime.Some?
    ensures Untaken(cfg, s, row) == Rivals(s.rows, row.client, row.lookupTime.value, cfg.maxFailures)
  {
  }

  lemma StartTakesRivals(cfg: Config, s: State, s': State, row: Row)
    requires Updaters.IsResult(s.rows, Updaters.Tenantless(s.now - cfg.lookupOffset, cfg.maxFailures), cfg.chunkSize, s'.lookups)
    requires row in s.rows && Updaters.LookupCandidate(row, s.now - cfg.lookupOffset, cfg.maxFailures)
    requires row.client !in ClientsOf(s'.lookups)
    requires s.lookups == [] && s'.rows == s.rows
    ensures |Untaken(cfg, s', row)| == |Untaken(cfg, s, row)| - cfg.chunkSize
  {
    FullOfRivals(s.rows, s.now - cfg.lookupOffset, cfg.maxFailures, cfg.chunkSize, s'.lookups, row);
    NothingTakenYet(cfg, s, row);
  }

  lemma StartChangesLittle(cfg: Config, s: State, e: Event)
    requires |s.workers| == |cfg.logs| && StartsLookups(cfg, s, e)
    ensures var s' := Step(cfg, s, e);
            && s'.rows == s.rows && s'.refreshes == s.refreshes && s'.now == s.now
            && s'.lookupRuns == s.lookupRuns + 1 && s'.lookups == e.result && s.lookups == []
  {
  }

  lemma StepWaits(cfg: Config, s: State, e: Event, s': State, row: Row, start: int, runs: nat, bound: nat)
    requires |s.workers| == |cfg.logs| && StillWaiting(cfg, s, row, start, runs, bound)
    requires PassedOver(cfg, s, e, row.client) && s' == Step(cfg, s, e)
    ensures StillWaiting(cfg, s', row, start, runs, bound)
  {
    if StartsLookups(cfg, s, e) {
      StartChangesLittle(cfg, s, e);
      StartTakesRivals(cfg, s, s', row);
      RunTakesUpRivals(cfg, s, s', row, start, runs, bound);
    } else {
      WaitingGoesOn(cfg, s, e, row, start, runs, bound);
    }
  }

  lemma RunWaits(cfg: Config, s: State, es: seq<Event>, k: nat, row: Row, start: int, runs: nat, bound: nat)
    requires |s.workers| == |cfg.logs| && k < |es|
    requires StillWaiting(cfg, Run(cfg, s, es[..k]), row, start, runs, bound)
    requires PassedOver(cfg, Run(cfg, s, es[..k]), es[k], row.client)
    ensures StillWaiting(cfg, Run(cfg, s, es[..k + 1]), row, start, runs, bound)
  {
    RunOneMore(cfg, s, es, k);
    StepWaits(cfg, Run(cfg, s, es[..k]), es[k], Run(cfg, s, es[..k + 1]), row, start, runs, bound);
  }

  lemma WaitingIsBounded(cfg: Config, s: State, es: seq<Event>, row: Row)
    requires |s.workers| == |cfg.logs| && Unique(s.rows) && Tenancy.RefreshesHaveTenant(s) && s.lookups == []
    requires row in s.rows && Updaters.LookupCandidate(row, s.now - cfg.lookupOffset, cfg.maxFailures)
    requires forall i :: 0 <= i < |es| ==> PassedOver(cfg, Run(cfg, s, es[..i]), es[i], row.client)
    ensures StillWaiting(cfg, Run(cfg, s, es), row, s.now, s.lookupRuns, |Untaken(cfg, s, row)|)
  {
    var start, runs, bound := s.now, s.lookupRuns, |Untaken(cfg, s, row)|;
    var holds := seq(|es| + 1, k requires 0 <= k <= |es| =>
                               StillWaiting(cfg, Run(cfg, s, es[..k]), row, start, runs, bound));
    assert StillWaiting(cfg, s, row, start, runs, bound);
    forall k | 0 <= k < |es| && holds[k] ensures holds[k + 1] {
      RunWaits(cfg, s, es, k, row, start, runs, bound);
    }
    HoldsUntil(k => 0 <= k <= |es| && holds[k], k => false, 0, |es|);
    assert es[..|es|] == es;
  }

  lemma WaitingRunsAreFew(cfg: Config, s: State, s': State, row: Row)
    requires row.lookupTime.Some? && s.lookups == [] && cfg.chunkSize > 0
    requires StillWaiting(cfg, s', row, s.now, s.lookupRuns, |Untaken(cfg, s, row)|)
    ensures s'.lookupRuns - s.lookupRuns
            <= |Rivals(s.rows, row.client, row.lookupTime.value, cfg.maxFailures)| / cfg.chunkSize
  {
    NothingTakenYet(cfg, s, row);
    var n, bound := s'.lookupRuns - s.lookupRuns, |Untaken(cfg, s, row)|;
    if n > bound / cfg.chunkSize {
      ChunksExceed(cfg.chunkSize, n, bound);
    }
  }

  /** A candidate with `r` rivals of equal or older lookup time is taken up within
      `r / chunkSize + 1` runs, whatever happens to the other clients meanwhile. */
  lemma OldestAreTakenUpFirst(cfg: Config, s: State, es: seq<Event>, row: Row)
    requires |s.workers| == |cfg.logs| && Unique(s.rows) && Tenancy.RefreshesHaveTenant(s) && s.lookups == []
    requires row in s.rows && row.org == "" && row.lookupTime.Some?
    requires row.lookupTime.value < s.now - cfg.lookupOffset && row.failures < cfg.maxFailures
    requires forall i :: 0 <= i < |es| ==> LeavesAlone(cfg, Run(cfg, s, es[..i]), es[i], row.client)
    requires cfg.chunkSize > 0
    requires Run(cfg, s, es).lookupRuns - s.lookupRuns
             >= |Rivals(s.rows, row.client, row.lookupTime.value, cfg.maxFailures)| / cfg.chunkSize + 1
    ensures exists i :: 0 <= i < |es| && Picks(cfg, Run(cfg, s, es[..i]), es[i], row.client)
  {
    if forall i :: 0 <= i < |es| ==> !Picks(cfg, Run(cfg, s, es[..i]), es[i], row.client) {
      forall i | 0 <= i < |es| ensures PassedOver(cfg, Run(cfg, s, es[..i]), es[i], row.client) {
      }
      WaitingIsBounded(cfg, s, es, row);
      WaitingRunsAreFew(cfg, s, Run(cfg, s, es), row);
      assert false;
    }
  }

  /** The updater's lookup of client `me` is recorded. */
  ghost predicate LooksUp(s: State, e: Event, me: ClientId) {
    RecordsLookup(s, e) && s.lookups[0].client == me
  }

  lemma StaysQueuedUntilLookedUp(cfg: Config, s: State, e: Event, me: ClientId)
    requires |s.workers| == |cfg.logs| && !e.KillLookups? && me in ClientsOf(s.lookups)
    ensures me in ClientsOf(Step(cfg, s, e).lookups) || LooksUp(s, e, me)
  {
    QueueShrinks(cfg, s, e);
  }

  lemma PickedIsQueued(cfg: Config, s: State, e: Event, me: ClientId)
    requires |s.workers| == |cfg.logs| && Picks(cfg, s, e, me)
    ensures me in ClientsOf(Step(cfg, s, e).lookups)
  {
  }

  ghost predicate LooksUpAt(cfg: Config, s: State, es: seq<Event>, k: int, me: ClientId)
    requires |s.workers| == |cfg.logs|
  {
    0 <= k < |es| && LooksUp(Run(cfg, s, es[..k]), es[k], me)
  }

  ghost predicate QueuedAt(cfg: Config, s: State, es: seq<Event>, n: nat, me: ClientId)
    requires |s.workers| == |cfg.logs| && n <= |es|
  {
    me in ClientsOf(Run(cfg, s, es[..n]).lookups)
  }

  ghost predicate PicksAt(cfg: Config, s: State, es: seq<Event>, i: nat, me: ClientId)
    requires |s.workers| == |cfg.logs| && i < |es|
  {
    Picks(cfg, Run(cfg, s, es[..i]), es[i], me)
  }

  lemma QueuedGoesOn(cfg: Config, s: State, es: seq<Event>, n: nat, me: ClientId)
    requires |s.workers| == |cfg.logs| && n < |es| && !es[n].KillLookups? && QueuedAt(cfg, s, es, n, me)
    ensures QueuedAt(cfg, s, es, n + 1, me) || LooksUpAt(cfg, s, es, n, me)
  {
    RunOneMore(cfg, s, es, n);
    StaysQueuedUntilLookedUp(cfg, Run(cfg, s, es[..n]), es[n], me);
  }

  lemma QueuedOncePicked(cfg: Config, s: State, es: seq<Event>, i: nat, me: ClientId)
    requires |s.workers| == |cfg.logs| && i < |es| && PicksAt(cfg, s, es, i, me)
    ensures QueuedAt(cfg, s, es, i + 1, me)
  {
    RunOneMore(cfg, s, es, i);
    PickedIsQueued(cfg, Run(cfg, s, es[..i]), es[i], me);
  }

  /** A client that is queued stays so until it is looked up. */
  lemma QueuedUntilLookedUp(cfg: Config, s: State, es: seq<Event>, i: nat, me: ClientId)
    requires |s.workers| == |cfg.logs| && i <= |es| && QueuedAt(cfg, s, es, i, me)
    requires forall j :: 0 <= j < |es| ==> !es[j].KillLookups?
    ensures QueuedAt(cfg, s, es, |es|, me) || exists k :: LooksUpAt(cfg, s, es, k, me)
  {
    var ends := seq(|es|, k requires 0 <= k < |es| => LooksUpAt(cfg, s, es, k, me));
    var holds := seq(|es| + 1, k requires 0 <= k <= |es| => QueuedAt(cfg, s, es, k, me));
    forall k | i <= k < |es| && holds[k] ensures holds[k + 1] || ends[k] {
      QueuedGoesOn(cfg, s, es, k, me);
    }
    HoldsUntil(k => 0 <= k <= |es| && holds[k], k => 0 <= k < |es| && ends[k], i, |es|);
  }

  lemma QueuedAtTheEnd(cfg: Config, s: State, es: seq<Event>, me: ClientId)
    requires |s.workers| == |cfg.logs| && QueuedAt(cfg, s, es, |es|, me)
    ensures me in ClientsOf(Run(cfg, s, es).lookups)
  {
    assert es[..|es|] == es;
  }

  /** A client that a run has taken up is looked up, or still queued in the end. */
  lemma PickedIsLookedUp(cfg: Config, s: State, es: seq<Event>, i: nat, me: ClientId)
    requires |s.workers| == |cfg.logs| && i < |es| && PicksAt(cfg, s, es, i, me)
    requires forall j :: 0 <= j < |es| ==> LeavesAlone(cfg, Run(cfg, s, es[..j]), es[j], me)
    ensures (exists k :: LooksUpAt(cfg, s, es, k, me)) || me in ClientsOf(Run(cfg, s, es).lookups)
  {
    QueuedOncePicked(cfg, s, es, i, me);
    QueuedUntilLookedUp(cfg, s, es, i + 1, me);
    if QueuedAt(cfg, s, es, |es|, me) { QueuedAtTheEnd(cfg, s, es, me); }
  }

  /** Hence the candidate is looked up by then, unless the last run is still busy with it:
      once the updater is through with its rows, the lookup has been recorded. */
  lemma OldestAreLookedUpFirst(cfg: Config, s: State, es: seq<Event>, row: Row)
    requires |s.workers| == |cfg.logs| && Unique(s.rows) && Tenancy.RefreshesHaveTenant(s) && s.lookups == []
    requires row in s.rows && row.org == "" && row.lookupTime.Some?
    requires row.lookupTime.value < s.now - cfg.lookupOffset && row.failures < cfg.maxFailures
    requires forall i :: 0 <= i < |es| ==> LeavesAlone(cfg, Run(cfg, s, es[..i]), es[i], row.client)
    requires cfg.chunkSize > 0
    requires Run(cfg, s, es).lookupRuns - s.lookupRuns
             >= |Rivals(s.rows, row.client, row.lookupTime.value, cfg.maxFailures)| / cfg.chunkSize + 1
    ensures (exists k :: LooksUpAt(cfg, s, es, k, row.client)) || row.client in ClientsOf(Run(cfg, s, es).lookups)
  {
    OldestAreTakenUpFirst(cfg, s, es, row);
    var i :| 0 <= i < |es| && Picks(cfg, Run(cfg, s, es[..i]), es[i], row.client);
    PickedIsLookedUp(cfg, s, es, i, row.client);
  }

  // ----- Failed lookups come again -----

  function AfterFailure(row: Row, now: int): Row {
    row.(account := "", org := "", lookupTime := Some(now), failures := row.failures + 1)
  }

  /** A recorded failure costs the row its tenant and counts once. */
  lemma FailureIsCounted(cfg: Config, s: State, e: Event, row: Row)
    requires |s.workers| == |cfg.logs| && Unique(s.rows) && row in s.rows
    requires RecordsLookup(s, e) && e.written && s.lookupAnswer.value.error.Some? && s.lookups[0].client == row.client
    ensures AfterFailure(row, s.now) in Step(cfg, s, e).rows
  {
    FailedRow(s.rows, row, s.now);
    FailureStep(cfg, s, e);
  }

  lemma FailedRow(rows: seq<Row>, row: Row, now: int)
    requires row in rows
    ensures AfterFailure(row, now) in Execute(rows, MarkFailed(row.client, now))
  {
    var st := MarkFailed(row.client, now);
    var i :| 0 <= i < |rows| && rows[i] == row;
    assert Execute(rows, st)[i] in Execute(rows, st);
  }

  lemma FailureStep(cfg: Config, s: State, e: Event)
    requires |s.workers| == |cfg.logs| && RecordsLookup(s, e) && e.written && s.lookupAnswer.value.error.Some?
    ensures Step(cfg, s, e).rows == Execute(s.rows, MarkFailed(s.lookups[0].client, s.now))
  {
  }

  /** A row whose lookup failed at time `t` is taken up again once the offset has passed,
      with the same bound as any other, as long as it has failures left. */
  lemma FailedLookupIsRetried(cfg: Config, s: State, es: seq<Event>, row: Row, t: int)
    requires |s.workers| == |cfg.logs| && Unique(s.rows) && Tenancy.RefreshesHaveTenant(s) && s.lookups == []
    requires AfterFailure(row, t) in s.rows
    requires t < s.now - cfg.lookupOffset && row.failures + 1 < cfg.maxFailures
    requires forall i :: 0 <= i < |es| ==> LeavesAlone(cfg, Run(cfg, s, es[..i]), es[i], row.client)
    requires cfg.chunkSize > 0
    requires Run(cfg, s, es).lookupRuns - s.lookupRuns
             >= |Rivals(s.rows, row.client, t, cfg.maxFailures)| / cfg.chunkSize + 1
    ensures exists i :: 0 <= i < |es| && Picks(cfg, Run(cfg, s, es[..i]), es[i], row.client)
  {
    OldestAreTakenUpFirst(cfg, s, es, AfterFailure(row, t));
  }

  /** A row without failures left is never taken up again. */
  lemma ExhaustedIsNeverPicked(cfg: Config, s: State, e: Event, row: Row)
    requires Unique(s.rows) && row in s.rows && row.failures >= cfg.maxFailures
    ensures !Picks(cfg, s, e, row.client)
  {
    if StartsLookups(cfg, s, e) {
      LookupsTakeOldest(cfg, s, e);
      forall r | r in e.result ensures r.client != row.client {
        FindOnlyRow(s.rows, row);
        FindOnlyRow(s.rows, r);
      }
    }
  }

  // ----- What the counters count -----

  ghost function LookupsRecorded(cfg: Config, s: State, es: seq<Event>): nat
    requires |s.workers| == |cfg.logs|
  {
    if es == [] then 0
    else
      var before, e := es[..|es| - 1], es[|es| - 1];
      LookupsRecorded(cfg, s, before) + if RecordsLookup(Run(cfg, s, before), e) then 1 else 0
  }

  ghost function RunsStarted(cfg: Config, s: State, es: seq<Event>): nat
    requires |s.workers| == |cfg.logs|
  {
    if es == [] then 0
    else
      var before, e := es[..|es| - 1], es[|es| - 1];
      RunsStarted(cfg, s, before) + if StartsLookups(cfg, Run(cfg, s, before), e) then 1 else 0
  }

  lemma CountersStep(cfg: Config, s: State, e: Event)
    requires |s.workers| == |cfg.logs|
    ensures Step(cfg, s, e).lookupsMade == s.lookupsMade + if RecordsLookup(s, e) then 1 else 0
    ensures Step(cfg, s, e).lookupRuns == s.lookupRuns + if StartsLookups(cfg, s, e) then 1 else 0
  {
  }

  /** The two counters in the bounds are the numbers of lookups recorded and of runs started. */
  lemma {:induction false} CountersCount(cfg: Config, s: State, es: seq<Event>)
    requires |s.workers| == |cfg.logs|
    ensures Run(cfg, s, es).lookupsMade == s.lookupsMade + LookupsRecorded(cfg, s, es)
    ensures Run(cfg, s, es).lookupRuns == s.lookupRuns + RunsStarted(cfg, s, es)
  {
    if es != [] {
      var before, e := es[..|es| - 1], es[|es| - 1];
      CountersCount(cfg, s, before);
      CountersStep(cfg, Run(cfg, s, before), e);
    }
  }
}
