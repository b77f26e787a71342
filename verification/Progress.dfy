/** The state machine against the code: the handler and the updaters take its steps,
    and no run wedges a partition. */
module Progress {
  import opened Domain
  import opened ConnectionTable
  import opened MessageLog
  import Inventory
  import ControlMessages
  import Updaters
  import opened System
  import ExactlyOnce
  import K = KafkaConsumer

  // ----- The machine takes the handler's steps -----

  lemma FindStep(cfg: Config, s: State, p: nat, queryFailed: bool)
    requires p < |s.workers| == |cfg.logs| && InHand(cfg, s, p).Online? && s.workers[p].stage.Unchecked?
    ensures var s' := Step(cfg, s, FindRow(p, queryFailed));
            var v := ControlMessages.Columns(s.rows, InHand(cfg, s, p).client);
            && s'.rows == s.rows && s'.inventory == s.inventory && s'.now == s.now && s'.steps == s.steps + 1
            && (if queryFailed then s'.workers[p] == Return(|cfg.logs[p]|, s.workers[p], ERROR, false) && InHand(cfg, s', p) == Ignore
                else if v.Some? && IsDuplicateOrOld(v.value, InHand(cfg, s, p).msg)
                then s'.workers[p] == Return(|cfg.logs[p]|, s.workers[p], K.Succeeded, true) && InHand(cfg, s', p) == Ignore
                else s'.workers[p] == s.workers[p].(stage := Checked) && InHand(cfg, s', p) == InHand(cfg, s, p))
  {
  }

  lemma ResolveStep(cfg: Config, s: State, p: nat)
    requires p < |s.workers| == |cfg.logs|
    ensures var s' := Step(cfg, s, ResolveTenant(p));
            var a := InHand(cfg, s, p);
            && s'.rows == s.rows && s'.inventory == s.inventory && s'.now == s.now && InHand(cfg, s', p) == a
            && s'.workers[p] == if a.Online? && s.workers[p].stage.Checked?
                                then s.workers[p].(stage := Resolved(cfg.resolver(a.client, s.steps))) else s.workers[p]
  {
  }

  lemma RegisterStep(cfg: Config, s: State, p: nat, outcome: WriteOutcome, delivery: Inventory.Delivery)
    requires p < |s.workers| == |cfg.logs|
    ensures var s' := Step(cfg, s, RegisterRow(p, outcome, delivery));
            var a, w := InHand(cfg, s, p), s.workers[p];
            if a.Online? && w.stage.Resolved? then
              var answer := w.stage.answer;
              var st := RegisterStatement(ClientState(a.client, answer.account, answer.org, a.msg), s.now);
              && s'.rows == (if TookEffect(outcome) then Execute(s.rows, st) else s.rows)
              && s'.inventory == s.inventory + (if outcome.Written? && Inventory.Records(a.msg, answer, delivery)
                                                then [Inventory.HostMessage(a.client, answer.org, answer)] else [])
              && s'.workers[p] == Return(|cfg.logs[p]|, w, if outcome.Broken? then ERROR else K.Succeeded,
                                         outcome.Written? || (outcome.Rejected? && outcome.effective))
            else
              s'.rows == s.rows && s'.inventory == s.inventory && s'.workers[p] == w
  {
  }

  /** The statements that a run executes. */
  ghost function StatementsOf(cfg: Config, s: State, es: seq<Event>): seq<Statement>
    requires |s.workers| == |cfg.logs|
  {
    if es == [] then []
    else
      var n := |es| - 1;
      var st := StatementOf(cfg, Run(cfg, s, es[..n]), es[n]);
      StatementsOf(cfg, s, es[..n]) + (if st.Some? then [st.value] else [])
  }

  ghost predicate ByOthers(es: seq<Event>, p: nat) {
    forall i :: 0 <= i < |es| ==> Partition(es[i]) != Some(p)
  }

  lemma StepByOthers(cfg: Config, s: State, e: Event, p: nat)
    requires p < |s.workers| == |cfg.logs| && Partition(e) != Some(p)
    ensures var s' := Step(cfg, s, e);
            && s'.workers[p] == s.workers[p] && s'.rows == RowsAfter(cfg, s, e)
  {
  }

  lemma StatementsExecuted(cfg: Config, s: State, e: Event, rows: seq<Row>, sts: seq<Statement>)
    requires s.rows == ControlMessages.ExecuteAll(rows, sts)
    ensures var st := StatementOf(cfg, s, e);
            RowsAfter(cfg, s, e) == ControlMessages.ExecuteAll(rows, sts + if st.Some? then [st.value] else [])
  {
    var st := StatementOf(cfg, s, e);
    if st.Some? {
      ExecutePushed(rows, sts, st.value);
    } else {
      assert sts + [] == sts;
    }
  }

  /** What the others do meanwhile leaves a consumer where it was, and their statements
      are all that happens to the table. */
  lemma {:induction false} RunByOthers(cfg: Config, s: State, es: seq<Event>, p: nat)
    requires p < |s.workers| == |cfg.logs| && ByOthers(es, p)
    ensures var s' := Run(cfg, s, es);
            && s'.workers[p] == s.workers[p] && InHand(cfg, s', p) == InHand(cfg, s, p)
            && s'.rows == ControlMessages.ExecuteAll(s.rows, StatementsOf(cfg, s, es))
  {
    if es != [] {
      var before, e := es[..|es| - 1], es[|es| - 1];
      RunByOthers(cfg, s, before, p);
      StepByOthers(cfg, Run(cfg, s, before), e, p);
      StatementsExecuted(cfg, Run(cfg, s, before), e, s.rows, StatementsOf(cfg, s, before));
    }
  }

  lemma ExecutePushed(rows: seq<Row>, sts: seq<Statement>, st: Statement)
    ensures ControlMessages.ExecuteAll(rows, sts + [st]) == Execute(ControlMessages.ExecuteAll(rows, sts), st)
  {
    assert (sts + [st])[..|sts|] == sts;
  }

  lemma {:induction false} ExecuteBoth(rows: seq<Row>, a: seq<Statement>, b: seq<Statement>)
    ensures ControlMessages.ExecuteAll(rows, a + b) == ControlMessages.ExecuteAll(ControlMessages.ExecuteAll(rows, a), b)
  {
    if b == [] {
      assert a + b == a;
    } else {
      var head, last := b[..|b| - 1], b[|b| - 1];
      assert b == head + [last] && a + b == a + head + [last];
      ExecuteBoth(rows, a, head);
      ExecutePushed(rows, a + head, last);
      ExecutePushed(ControlMessages.ExecuteAll(rows, a), head, last);
    }
  }

  /** Lookup, resolution and write of an online message, with any steps of the updaters
      and the other consumers before and after the resolution, have the effect that the
      handler's method is proved to have with their statements in between. */
  lemma HandlerTakesThreeSteps(cfg: Config, s: State, p: nat, queryFailed: bool, es1: seq<Event>, es2: seq<Event>,
                               outcome: WriteOutcome, delivery: Inventory.Delivery)
    requires p < |s.workers| == |cfg.logs| && InHand(cfg, s, p).Online? && s.workers[p].stage.Unchecked?
    requires ByOthers(es1, p) && ByOthers(es2, p)
    ensures var a := InHand(cfg, s, p);
            var s1 := Step(cfg, s, FindRow(p, queryFailed));
            var s2 := Run(cfg, s1, es1);
            var s3 := Step(cfg, s2, ResolveTenant(p));
            var s4 := Run(cfg, s3, es2);
            var s' := Step(cfg, s4, RegisterRow(p, outcome, delivery));
            var between := StatementsOf(cfg, s1, es1) + StatementsOf(cfg, s3, es2);
            var answer := cfg.resolver(a.client, s2.steps);
            var env := ControlMessages.Environment(queryFailed, between, answer, outcome, delivery, s4.now);
            var before := ControlMessages.Columns(s.rows, a.client);
            var (failed, applied) := ControlMessages.Verdict(a, before, env);
            && s'.rows == (if ControlMessages.Registers(a.msg, before, env) then ControlMessages.Handled(a, s.rows, env)
                           else ControlMessages.ExecuteAll(s.rows, between))
            && s'.inventory == s4.inventory + ControlMessages.Reported(a, s.rows, env)
            && s'.workers[p].loop == K.Step(|cfg.logs[p]|, s.workers[p].loop, if failed then ERROR else K.Succeeded)
            && (!failed ==> s'.workers[p].applied == applied)
  {
    var a := InHand(cfg, s, p);
    FindStep(cfg, s, p, queryFailed);
    var s1 := Step(cfg, s, FindRow(p, queryFailed));
    RunByOthers(cfg, s1, es1, p);
    var s2 := Run(cfg, s1, es1);
    ResolveStep(cfg, s2, p);
    var s3 := Step(cfg, s2, ResolveTenant(p));
    RunByOthers(cfg, s3, es2, p);
    var s4 := Run(cfg, s3, es2);
    RegisterStep(cfg, s4, p, outcome, delivery);
    ExecuteBoth(s.rows, StatementsOf(cfg, s1, es1), StatementsOf(cfg, s3, es2));
  }

  // ----- No partition is ever stuck -----

  lemma WorkerKeepsDiscipline(cfg: Config, s: State, p: nat, e: Event)
    requires p < |s.workers| == |cfg.logs| && K.Disciplined(|cfg.logs[p]|, s.workers[p].loop)
    ensures K.Disciplined(|cfg.logs[p]|, WorkerAfter(cfg, s, p, e).loop)
  {
    var length, l := |cfg.logs[p]|, s.workers[p].loop;
    if e.Fetch? || e.Commit? {
      K.HappenKeepsDiscipline(length, l, K.Call(e.call));
    } else if e.Crash? {
      K.HappenKeepsDiscipline(length, l, K.Crash);
    } else if e.Boot? {
      K.HappenKeepsDiscipline(length, l, K.Boot);
    } else {
      K.HappenKeepsDiscipline(length, l, K.Call(K.Succeeded));
      K.HappenKeepsDiscipline(length, l, K.Call(ERROR));
    }
  }

  lemma StepChangesWorker(cfg: Config, s: State, e: Event, p: nat)
    requires p < |s.workers| == |cfg.logs|
    ensures Step(cfg, s, e).workers[p] == if Partition(e) == Some(p) then WorkerAfter(cfg, s, p, e) else s.workers[p]
  {
  }

  lemma StepKeepsDiscipline(cfg: Config, s: State, e: Event, p: nat)
    requires p < |s.workers| == |cfg.logs| && K.Disciplined(|cfg.logs[p]|, s.workers[p].loop)
    ensures K.Disciplined(|cfg.logs[p]|, Step(cfg, s, e).workers[p].loop)
  {
    StepChangesWorker(cfg, s, e, p);
    WorkerKeepsDiscipline(cfg, s, p, e);
  }

  lemma {:induction false} RunKeepsDiscipline(cfg: Config, es: seq<Event>, p: nat)
    requires p < |cfg.logs|
    ensures K.Disciplined(|cfg.logs[p]|, Reached(cfg, es).workers[p].loop)
  {
    if es != [] {
      RunKeepsDiscipline(cfg, es[..|es| - 1], p);
      StepKeepsDiscipline(cfg, Reached(cfg, es[..|es| - 1]), es[|es| - 1], p);
    }
  }

  /** The message in hand was not written, and its commit would lose it; if the process
      dies instead, the message comes again. */
  predicate WouldLose(w: Worker) {
    w.loop.phase.Committing? && !w.applied && w.loop.committed == w.loop.current
  }

  /** What the consumer of `p` does next if nothing goes wrong. */
  function NextStep(cfg: Config, s: State, p: nat): Event
    requires p < |s.workers|
  {
    var w := s.workers[p];
    match w.loop.phase
    case Stopped => Boot(p)
    case Fetching => Fetch(p, K.Succeeded)
    case Committing => if WouldLose(w) then Crash(p) else Commit(p, K.Succeeded)
    case Processing =>
      match InHand(cfg, s, p)
      case Ignore => SkipMessage(p)
      case Offline(_) => UnregisterRow(p, Written)
      case Online(_, _) =>
        match w.stage
        case Unchecked => FindRow(p, false)
        case Checked => ResolveTenant(p)
        case Resolved(_) => RegisterRow(p, Written, Inventory.Unauthenticated)
  }

  /** How many steps a consumer is away from having committed its log, at most. */
  function StepsLeft(length: nat, w: Worker): int {
    match w.loop.phase
    case Stopped => 7 * (length - w.loop.committed) + 6
    case Fetching => 7 * (length - w.loop.committed) + 5
    case Processing => 7 * (length - w.loop.committed) +
                       (match w.stage case Unchecked => 4 case Checked => 3 case Resolved(_) => 2)
    case Committing => if WouldLose(w) then 7 * (length - w.loop.committed) + 7 else 7 * (length - w.loop.next) + 6
  }

  lemma WorkerProgresses(cfg: Config, s: State, p: nat)
    requires p < |s.workers| == |cfg.logs| && K.Disciplined(|cfg.logs[p]|, s.workers[p].loop)
    requires !ExactlyOnce.FullyCommitted(cfg, s, p)
    ensures var length := |cfg.logs[p]|;
            0 <= StepsLeft(length, WorkerAfter(cfg, s, p, NextStep(cfg, s, p))) < StepsLeft(length, s.workers[p])
    ensures WorkerAfter(cfg, s, p, NextStep(cfg, s, p)).lost == s.workers[p].lost
  {
  }

  lemma NextStepProgresses(cfg: Config, es: seq<Event>, p: nat) returns (e: Event)
    requires p < |cfg.logs| && !ExactlyOnce.FullyCommitted(cfg, Reached(cfg, es), p)
    ensures var length := |cfg.logs[p]|;
            0 <= StepsLeft(length, Reached(cfg, es + [e]).workers[p]) < StepsLeft(length, Reached(cfg, es).workers[p])
    ensures Reached(cfg, es + [e]).workers[p].lost == Reached(cfg, es).workers[p].lost
    ensures !ExactlyOnce.SilentFailure(e)
  {
    var s := Reached(cfg, es);
    e := NextStep(cfg, s, p);
    RunKeepsDiscipline(cfg, es, p);
    WorkerProgresses(cfg, s, p);
    StepChangesWorker(cfg, s, e, p);
    RunPushed(cfg, Init(cfg), es, e);
  }

  /** From every reachable state, whatever has gone wrong before, each partition's log can
      still be committed to the end without losing a message from then on. */
  lemma {:induction false} EveryRunCanFinish(cfg: Config, es: seq<Event>, p: nat) returns (all: seq<Event>)
    requires p < |cfg.logs|
    ensures es <= all && ExactlyOnce.FullyCommitted(cfg, Reached(cfg, all), p)
    ensures Reached(cfg, all).workers[p].lost == Reached(cfg, es).workers[p].lost
    ensures forall i :: |es| <= i < |all| ==> !ExactlyOnce.SilentFailure(all[i])
    decreases StepsLeft(|cfg.logs[p]|, Reached(cfg, es).workers[p])
  {
    if ExactlyOnce.FullyCommitted(cfg, Reached(cfg, es), p) {
      all := es;
    } else {
      var e := NextStepProgresses(cfg, es, p);
      all := EveryRunCanFinish(cfg, es + [e], p);
    }
  }

  // ----- The machine takes the updater's steps -----

  ghost function LookupEvents(calls: seq<Updaters.LookupCall>): seq<Event> {
    if calls == [] then []
    else LookupEvents(calls[..|calls| - 1]) + [ResolveLookup, RecordLookup(calls[|calls| - 1].written)]
  }

  /** The call is the one that looks up `r` in step `step`. */
  predicate MadeIn(cfg: Config, s: State, r: Row, step: nat, call: Updaters.LookupCall) {
    call.now == s.now && call.answer == cfg.resolver(r.client, step)
  }

  ghost predicate TookSteps(s: State, s': State, calls: seq<Updaters.LookupCall>) {
    && |calls| <= |s.lookups|
    && s'.rows == Updaters.LookupPass(s.rows, s.lookups[..|calls|], calls)
    && s'.lookups == s.lookups[|calls|..]
    && s'.steps == s.steps + 2 * |calls| && s'.now == s.now
  }

  function LookedUp(rows: seq<Row>, client: ClientId, call: Updaters.LookupCall): seq<Row> {
    if call.written then Execute(rows, Updaters.LookupStatement(client, call.answer, call.now)) else rows
  }

  lemma LookupTakesTwoSteps(cfg: Config, s: State, call: Updaters.LookupCall)
    requires |s.workers| == |cfg.logs| && s.lookups != [] && MadeIn(cfg, s, s.lookups[0], s.steps, call)
    ensures var s' := Step(cfg, Step(cfg, s, ResolveLookup), RecordLookup(call.written));
            && s'.rows == LookedUp(s.rows, s.lookups[0].client, call)
            && s'.lookups == s.lookups[1..] && s'.steps == s.steps + 2 && s'.now == s.now
  {
    var s1 := Step(cfg, s, ResolveLookup);
    assert s1.rows == s.rows && s1.lookups == s.lookups && s1.lookupAnswer == Some(call.answer)
           && s1.now == s.now && s1.steps == s.steps + 1;
  }

  lemma OneLookupMore(s: State, s1: State, s2: State, calls: seq<Updaters.LookupCall>)
    requires 0 < |calls| <= |s.lookups| && TookSteps(s, s1, calls[..|calls| - 1])
    requires var call := calls[|calls| - 1];
             s2.rows == LookedUp(s1.rows, s1.lookups[0].client, call)
    requires s2.lookups == s1.lookups[1..] && s2.steps == s1.steps + 2 && s2.now == s1.now
    ensures TookSteps(s, s2, calls)
  {
    var n := |calls| - 1;
    assert s.lookups[..n + 1][..n] == s.lookups[..n];
    assert s1.lookups[0] == s.lookups[n] == s.lookups[..n + 1][n];
    assert s.lookups[n..][1..] == s.lookups[n + 1..];
  }

  /** A run of the tenantless updater, undisturbed, is the machine's lookups of the
      queued rows one after the other. */
  lemma {:induction false} UpdaterTakesItsSteps(cfg: Config, s: State, calls: seq<Updaters.LookupCall>)
    requires |s.workers| == |cfg.logs| && |calls| <= |s.lookups|
    requires forall i :: 0 <= i < |calls| ==> MadeIn(cfg, s, s.lookups[i], s.steps + 2 * i, calls[i])
    ensures TookSteps(s, Run(cfg, s, LookupEvents(calls)), calls)
  {
    if calls == [] {
      assert s.lookups[0..] == s.lookups;
    } else {
      var n := |calls| - 1;
      UpdaterTakesItsSteps(cfg, s, calls[..n]);
      var s' := Run(cfg, s, LookupEvents(calls[..n]));
      assert MadeIn(cfg, s, s.lookups[n], s.steps + 2 * n, calls[n]) && s'.lookups[0] == s.lookups[n];
      LookupTakesTwoSteps(cfg, s', calls[n]);
      RunTwoMore(cfg, s, LookupEvents(calls[..n]), ResolveLookup, RecordLookup(calls[n].written));
      OneLookupMore(s, s', Run(cfg, s, LookupEvents(calls)), calls);
    }
  }

  // ----- The machine takes the stale updater's steps -----

  /** The machine's steps for a run of the stale updater, which ends with its process. */
  function RefreshEvents(s: seq<Row>, calls: seq<Updaters.RefreshCall>): seq<Event>
    requires |calls| <= |s|
    decreases |calls|
  {
    if calls == [] then []
    else [ResolveRefresh, RecordRefresh(calls[0].delivery, calls[0].written)]
         + (if Updaters.Dies(s[0], calls[0]) then [] else RefreshEvents(s[1..], calls[1..]))
  }

  predicate RefreshMadeIn(cfg: Config, s: State, r: Row, step: nat, call: Updaters.RefreshCall) {
    call.now == s.now && call.answer == cfg.resolver(r.client, step)
  }

  lemma RefreshTakesTwoSteps(cfg: Config, s: State, call: Updaters.RefreshCall)
    requires |s.workers| == |cfg.logs| && s.refreshes != [] && RefreshMadeIn(cfg, s, s.refreshes[0], s.steps, call)
    ensures var s' := Step(cfg, Step(cfg, s, ResolveRefresh), RecordRefresh(call.delivery, call.written));
            && s'.rows == Updaters.RefreshOne(s.rows, s.refreshes[0], call)
            && s'.inventory == s.inventory + Updaters.HostReport(s.refreshes[0], call.answer, call.delivery)
            && s'.refreshes == (if Updaters.Dies(s.refreshes[0], call) then [] else s.refreshes[1..])
            && s'.steps == s.steps + 2 && s'.now == s.now && |s'.workers| == |s.workers|
  {
    var s1 := Step(cfg, s, ResolveRefresh);
    assert s1.rows == s.rows && s1.refreshes == s.refreshes && s1.refreshAnswer == Some(call.answer)
           && s1.now == s.now && s1.steps == s.steps + 1 && s1.inventory == s.inventory;
  }

  lemma {:induction false} RunConcatenated(cfg: Config, s: State, es1: seq<Event>, es2: seq<Event>)
    requires |s.workers| == |cfg.logs|
    ensures Run(cfg, s, es1 + es2) == Run(cfg, Run(cfg, s, es1), es2)
  {
    if es2 == [] {
      assert es1 + es2 == es1;
    } else {
      var head, last := es2[..|es2| - 1], es2[|es2| - 1];
      assert es2 == head + [last] && es1 + es2 == es1 + head + [last];
      RunConcatenated(cfg, s, es1, head);
      RunPushed(cfg, s, es1 + head, last);
      RunPushed(cfg, Run(cfg, s, es1), head, last);
    }
  }

  /** The state after the first host's two steps. */
  ghost function AfterFirstRefresh(cfg: Config, s: State, call: Updaters.RefreshCall): (s': State)
    requires |s.workers| == |cfg.logs|
    ensures |s'.workers| == |cfg.logs|
  {
    Step(cfg, Step(cfg, s, ResolveRefresh), RecordRefresh(call.delivery, call.written))
  }

  lemma FirstRefreshIsRun(cfg: Config, s: State, call: Updaters.RefreshCall)
    requires |s.workers| == |cfg.logs|
    ensures Run(cfg, s, [ResolveRefresh, RecordRefresh(call.delivery, call.written)]) == AfterFirstRefresh(cfg, s, call)
  {
    RunTwoMore(cfg, s, [], ResolveRefresh, RecordRefresh(call.delivery, call.written));
    assert [] + [ResolveRefresh, RecordRefresh(call.delivery, call.written)]
        == [ResolveRefresh, RecordRefresh(call.delivery, call.written)];
  }

  ghost predicate Refreshed(s: State, s': State, calls: seq<Updaters.RefreshCall>)
    requires |calls| == |s.refreshes|
  {
    (s'.rows, s'.inventory) == Updaters.RefreshPass(s.rows, s.inventory, s.refreshes, calls) && s'.refreshes == []
  }

  /** The calls are those that look up the queued rows from now on. */
  ghost predicate MadeInTurn(cfg: Config, s: State, calls: seq<Updaters.RefreshCall>)
    requires |calls| == |s.refreshes|
  {
    forall i :: 0 <= i < |calls| ==> RefreshMadeIn(cfg, s, s.refreshes[i], s.steps + 2 * i, calls[i])
  }

  lemma LaterTurns(cfg: Config, s: State, s1: State, calls: seq<Updaters.RefreshCall>)
    requires 0 < |calls| == |s.refreshes| && MadeInTurn(cfg, s, calls)
    requires s1.refreshes == s.refreshes[1..] && s1.steps == s.steps + 2 && s1.now == s.now
    ensures MadeInTurn(cfg, s1, calls[1..])
  {
    forall i | 0 <= i < |calls[1..]|
      ensures RefreshMadeIn(cfg, s1, s1.refreshes[i], s1.steps + 2 * i, calls[1..][i])
    {
      assert RefreshMadeIn(cfg, s, s.refreshes[i + 1], s.steps + 2 * (i + 1), calls[i + 1]);
    }
  }

  lemma RefreshEventsRun(cfg: Config, s: State, rows: seq<Row>, calls: seq<Updaters.RefreshCall>)
    requires |s.workers| == |cfg.logs| && 0 < |calls| <= |rows|
    ensures Run(cfg, s, RefreshEvents(rows, calls)) ==
            if Updaters.Dies(rows[0], calls[0]) then AfterFirstRefresh(cfg, s, calls[0])
            else Run(cfg, AfterFirstRefresh(cfg, s, calls[0]), RefreshEvents(rows[1..], calls[1..]))
  {
    var first := [ResolveRefresh, RecordRefresh(calls[0].delivery, calls[0].written)];
    FirstRefreshIsRun(cfg, s, calls[0]);
    if Updaters.Dies(rows[0], calls[0]) {
      assert RefreshEvents(rows, calls) == first;
    } else {
      RunConcatenated(cfg, s, first, RefreshEvents(rows[1..], calls[1..]));
    }
  }

  /** A run of the stale updater, undisturbed, is the machine's lookups and writes of the
      queued rows one after the other, up to the one on which the process dies. */
  lemma {:induction false} RefresherTakesItsSteps(cfg: Config, s: State, calls: seq<Updaters.RefreshCall>)
    requires |s.workers| == |cfg.logs| && |calls| == |s.refreshes| && MadeInTurn(cfg, s, calls)
    ensures Refreshed(s, Run(cfg, s, RefreshEvents(s.refreshes, calls)), calls)
    decreases |calls|
  {
    if calls != [] {
      var s1 := AfterFirstRefresh(cfg, s, calls[0]);
      assert RefreshMadeIn(cfg, s, s.refreshes[0], s.steps + 2 * 0, calls[0]);
      RefreshTakesTwoSteps(cfg, s, calls[0]);
      RefreshEventsRun(cfg, s, s.refreshes, calls);
      if !Updaters.Dies(s.refreshes[0], calls[0]) {
        LaterTurns(cfg, s, s1, calls);
        RefresherTakesItsSteps(cfg, s1, calls[1..]);
        RefreshedAfterFirst(s, s1, Run(cfg, s1, RefreshEvents(s1.refreshes, calls[1..])), calls);
      }
    }
  }

  lemma RefreshedAfterFirst(s: State, s1: State, s2: State, calls: seq<Updaters.RefreshCall>)
    requires 0 < |calls| == |s.refreshes| && !Updaters.Dies(s.refreshes[0], calls[0])
    requires s1.rows == Updaters.RefreshOne(s.rows, s.refreshes[0], calls[0])
    requires s1.inventory == s.inventory + Updaters.HostReport(s.refreshes[0], calls[0].answer, calls[0].delivery)
    requires s1.refreshes == s.refreshes[1..] && Refreshed(s1, s2, calls[1..])
    ensures Refreshed(s, s2, calls)
  {
  }
}
