/** Crashes, redelivery, retries and the updaters do not show in the message columns. */
module ExactlyOnce {
  import opened Domain
  import opened ConnectionTable
  import opened MessageLog
  import ControlMessages
  import Inventory
  import opened System
  import K = KafkaConsumer

  /** What links client `c`'s columns `v` to its partition's log: they are those of a
      clean pass over the committed messages, or over one more. */
  ghost predicate Linked(log: seq<Action>, w: Worker, v: Option<MessageColumns>, c: ClientId) {
    var k := w.loop.committed;
    && K.Disciplined(|log|, w.loop)
    && (forall i :: i in w.lost ==> i < k)
    && var done := Pass(log, w.lost, k, c);
    match w.loop.phase
    case Committing =>
      v == if k == w.loop.next || !w.applied then done else Apply(done, log[k], c)
    case Processing =>
      && (v == done || v == Apply(done, log[k], c))
      && (!w.stage.Unchecked? ==>
            log[k].Online? && (log[k].client == c && v.Some? ==> !IsDuplicateOrOld(v.value, log[k].msg)))
    case _ => v == done || (k < |log| && v == Apply(done, log[k], c))
  }

  ghost predicate Tracks(cfg: Config, s: State, c: ClientId)
    requires |s.workers| == |cfg.logs| && cfg.partitionOf(c) < |cfg.logs|
  {
    var p := cfg.partitionOf(c);
    Linked(cfg.logs[p], s.workers[p], ControlMessages.Columns(s.rows, c), c)
  }

  /** The handler's return passes the message in hand on to the commit loop, or stops. */
  lemma ReturnLinks(log: seq<Action>, w: Worker, call: K.Outcome, applied: bool,
                    v: Option<MessageColumns>, v': Option<MessageColumns>, c: ClientId)
    requires Linked(log, w, v, c) && w.loop.phase.Processing?
    requires var done := Pass(log, w.lost, w.loop.committed, c);
             var next := Apply(done, log[w.loop.committed], c);
             if call.Succeeded? then v' == (if applied then next else done) else v' == done || v' == next
    ensures Linked(log, Return(|log|, w, call, applied), v', c)
  {
    K.HappenKeepsDiscipline(|log|, w.loop, K.Call(call));
  }

  lemma CommitLinks(log: seq<Action>, w: Worker, call: K.Outcome, v: Option<MessageColumns>, c: ClientId)
    requires Linked(log, w, v, c) && w.loop.phase.Committing?
    ensures Linked(log, CommitWorker(|log|, w, call), v, c)
  {
    var w' := CommitWorker(|log|, w, call);
    K.HappenKeepsDiscipline(|log|, w.loop, K.Call(call));
    PassIgnoresLaterLosses(log, w.lost, w'.lost, w.loop.committed, c);
    if w'.loop.committed > w.loop.committed {
      assert Pass(log, w'.lost, w'.loop.committed, c) == v;
    }
  }

  lemma FetchLinks(log: seq<Action>, w: Worker, call: K.Outcome, v: Option<MessageColumns>, c: ClientId)
    requires Linked(log, w, v, c) && w.loop.phase.Fetching?
    ensures Linked(log, w.(loop := K.Step(|log|, w.loop, call), stage := Unchecked), v, c)
  {
    K.HappenKeepsDiscipline(|log|, w.loop, K.Call(call));
  }

  lemma CrashLinks(log: seq<Action>, w: Worker, v: Option<MessageColumns>, c: ClientId)
    requires Linked(log, w, v, c)
    ensures Linked(log, w.(loop := w.loop.(phase := K.Stopped), stage := Unchecked), v, c)
  {
    K.HappenKeepsDiscipline(|log|, w.loop, K.Crash);
  }

  lemma BootLinks(log: seq<Action>, w: Worker, v: Option<MessageColumns>, c: ClientId)
    requires Linked(log, w, v, c) && w.loop.phase.Stopped?
    ensures Linked(log, w.(loop := K.Restart(w.loop), stage := Unchecked), v, c)
  {
    K.HappenKeepsDiscipline(|log|, w.loop, K.Boot);
  }

  /** A new online message finds the columns of the pass over the committed messages. */
  lemma NewMessageFindsDone(log: seq<Action>, w: Worker, v: Option<MessageColumns>, c: ClientId)
    requires Linked(log, w, v, c) && w.loop.phase.Processing? && !w.stage.Unchecked?
    ensures v == Pass(log, w.lost, w.loop.committed, c)
  {
  }

  lemma FindKeepsTrack(cfg: Config, s: State, p: nat, queryFailed: bool, c: ClientId)
    requires |s.workers| == |cfg.logs| && Partitioned(cfg) && Tracks(cfg, s, c) && p == cfg.partitionOf(c)
    ensures Tracks(cfg, Step(cfg, s, FindRow(p, queryFailed)), c)
  {
    var w, log, a, v := s.workers[p], cfg.logs[p], InHand(cfg, s, p), ControlMessages.Columns(s.rows, c);
    if a.Online? && w.stage.Unchecked? {
      var found := ControlMessages.Columns(s.rows, a.client);
      if queryFailed {
        ReturnLinks(log, w, ERROR, false, v, v, c);
      } else if found.Some? && IsDuplicateOrOld(found.value, a.msg) {
        RedeliveryIsNoOp(Pass(log, w.lost, w.loop.committed, c), a, c);
        ReturnLinks(log, w, K.Succeeded, true, v, v, c);
      }
    }
  }

  lemma RegisterKeepsTrack(cfg: Config, s: State, e: Event, c: ClientId)
    requires |s.workers| == |cfg.logs| && Unique(s.rows) && Partitioned(cfg) && Tracks(cfg, s, c)
    requires e.RegisterRow? && e.p == cfg.partitionOf(c)
    ensures Tracks(cfg, Step(cfg, s, e), c)
  {
    var p := e.p;
    var w, log, a, v := s.workers[p], cfg.logs[p], InHand(cfg, s, p), ControlMessages.Columns(s.rows, c);
    if a.Online? && w.stage.Resolved? {
      var v' := ControlMessages.Columns(Step(cfg, s, e).rows, c);
      NewMessageFindsDone(log, w, v, c);
      var st := StatementOf(cfg, s, e);
      if st.Some? {
        if a.client == c {
          ControlMessages.UpsertApplies(s.rows, st.value.state, s.now, c);
        } else {
          ExecuteRefinesMap(s.rows, st.value, c);
        }
        assert v' == Apply(v, a, c);
      }
      ReturnLinks(log, w, if e.outcome.Broken? then ERROR else K.Succeeded,
                  if e.outcome.Rejected? then e.outcome.effective else e.outcome.Written?, v, v', c);
    }
  }

  lemma UnregisterKeepsTrack(cfg: Config, s: State, e: Event, c: ClientId)
    requires |s.workers| == |cfg.logs| && Unique(s.rows) && Partitioned(cfg) && Tracks(cfg, s, c)
    requires e.UnregisterRow? && e.p == cfg.partitionOf(c)
    ensures Tracks(cfg, Step(cfg, s, e), c)
  {
    var p := e.p;
    var w, log, a, v := s.workers[p], cfg.logs[p], InHand(cfg, s, p), ControlMessages.Columns(s.rows, c);
    if a.Offline? {
      var v' := ControlMessages.Columns(Step(cfg, s, e).rows, c);
      RedeliveryIsNoOp(Pass(log, w.lost, w.loop.committed, c), a, c);
      if TookEffect(e.outcome) {
        ControlMessages.DeleteApplies(s.rows, a.client, c);
      }
      ReturnLinks(log, w, if e.outcome.Written? then K.Succeeded else ERROR, true, v, v', c);
    }
  }

  lemma CommitKeepsTrack(cfg: Config, s: State, p: nat, call: K.Outcome, c: ClientId)
    requires |s.workers| == |cfg.logs| && Partitioned(cfg) && Tracks(cfg, s, c) && p == cfg.partitionOf(c)
    ensures Tracks(cfg, Step(cfg, s, Commit(p, call)), c)
  {
    if s.workers[p].loop.phase.Committing? {
      CommitLinks(cfg.logs[p], s.workers[p], call, ControlMessages.Columns(s.rows, c), c);
    }
  }

  lemma SkipKeepsTrack(cfg: Config, s: State, p: nat, c: ClientId)
    requires |s.workers| == |cfg.logs| && Partitioned(cfg) && Tracks(cfg, s, c) && p == cfg.partitionOf(c)
    ensures Tracks(cfg, Step(cfg, s, SkipMessage(p)), c)
  {
    if s.workers[p].loop.phase.Processing? && InHand(cfg, s, p).Ignore? {
      var v := ControlMessages.Columns(s.rows, c);
      ReturnLinks(cfg.logs[p], s.workers[p], K.Succeeded, true, v, v, c);
    }
  }

  /** Fetching, looking up the tenant, dying and starting again. */
  lemma OtherStepsKeepTrack(cfg: Config, s: State, e: Event, c: ClientId)
    requires |s.workers| == |cfg.logs| && Partitioned(cfg) && Tracks(cfg, s, c)
    requires e.Fetch? || e.ResolveTenant? || e.Crash? || e.Boot?
    requires e.p == cfg.partitionOf(c)
    ensures Tracks(cfg, Step(cfg, s, e), c)
  {
    var w, log, v := s.workers[e.p], cfg.logs[e.p], ControlMessages.Columns(s.rows, c);
    match e
    case Fetch(_, call) => if w.loop.phase.Fetching? { FetchLinks(log, w, call, v, c); }
    case ResolveTenant(_) =>
    case Crash(_) => CrashLinks(log, w, v, c);
    case Boot(_) => if w.loop.phase.Stopped? { BootLinks(log, w, v, c); }
  }

  lemma StepKeepsTrack(cfg: Config, s: State, e: Event, c: ClientId)
    requires |s.workers| == |cfg.logs| && Unique(s.rows) && Partitioned(cfg) && Tracks(cfg, s, c)
    ensures Tracks(cfg, Step(cfg, s, e), c)
  {
    if Partition(e) != Some(cfg.partitionOf(c)) {
      OthersKeepColumns(cfg, s, e, c);
    } else if e.FindRow? {
      FindKeepsTrack(cfg, s, e.p, e.queryFailed, c);
    } else if e.RegisterRow? {
      RegisterKeepsTrack(cfg, s, e, c);
    } else if e.UnregisterRow? {
      UnregisterKeepsTrack(cfg, s, e, c);
    } else if e.Commit? {
      CommitKeepsTrack(cfg, s, e.p, e.call, c);
    } else if e.SkipMessage? {
      SkipKeepsTrack(cfg, s, e.p, c);
    } else {
      OtherStepsKeepTrack(cfg, s, e, c);
    }
  }

  lemma {:induction false} RunTracks(cfg: Config, es: seq<Event>, c: ClientId)
    requires Partitioned(cfg)
    ensures Unique(Reached(cfg, es).rows) && Tracks(cfg, Reached(cfg, es), c)
  {
    RunKeepsUnique(cfg, Init(cfg), es);
    if es != [] {
      var before := es[..|es| - 1];
      RunTracks(cfg, before, c);
      RunKeepsUnique(cfg, Init(cfg), before);
      StepKeepsTrack(cfg, Reached(cfg, before), es[|es| - 1], c);
    }
  }

  // ----- Exactly-once effect -----

  ghost predicate FullyCommitted(cfg: Config, s: State, p: nat)
    requires |s.workers| == |cfg.logs|
  {
    p < |cfg.logs| && s.workers[p].loop.committed == |cfg.logs[p]|
  }

  /** Once a partition's log is committed, its clients' message columns are those of one
      clean pass over the log without the messages that were lost on the way. */
  lemma CommittedLogIsAppliedOnce(cfg: Config, es: seq<Event>, c: ClientId)
    requires Partitioned(cfg)
    requires FullyCommitted(cfg, Reached(cfg, es), cfg.partitionOf(c))
    ensures var p := cfg.partitionOf(c);
            var s := Reached(cfg, es);
            ControlMessages.Columns(s.rows, c) == Pass(cfg.logs[p], s.workers[p].lost, |cfg.logs[p]|, c)
  {
    RunTracks(cfg, es, c);
  }

  /** `Register` fails, not fatally, and without effect. */
  predicate SilentFailure(e: Event) {
    e.RegisterRow? && e.outcome == Rejected(false)
  }

  lemma OnlySilentFailureLoses(cfg: Config, s: State, e: Event, p: nat)
    requires p < |s.workers| == |cfg.logs| && !SilentFailure(e)
    requires s.workers[p].lost == {} && (s.workers[p].loop.phase.Committing? ==> s.workers[p].applied)
    ensures var w := Step(cfg, s, e).workers[p];
            w.lost == {} && (w.loop.phase.Committing? ==> w.applied)
  {
  }

  lemma {:induction false} OnlySilentFailuresLose(cfg: Config, es: seq<Event>, p: nat)
    requires p < |cfg.logs| && forall i :: 0 <= i < |es| ==> !SilentFailure(es[i])
    ensures var w := Reached(cfg, es).workers[p];
            w.lost == {} && (w.loop.phase.Committing? ==> w.applied)
  {
    if es != [] {
      OnlySilentFailuresLose(cfg, es[..|es| - 1], p);
      OnlySilentFailureLoses(cfg, Reached(cfg, es[..|es| - 1]), es[|es| - 1], p);
    }
  }

  /** Exactly-once effect: with any crashes, restarts, fetch, commit and fatal handler
      errors, and with the updaters writing in between. */
  lemma ExactlyOnceEffect(cfg: Config, es: seq<Event>, c: ClientId)
    requires Partitioned(cfg)
    requires forall i :: 0 <= i < |es| ==> !SilentFailure(es[i])
    requires FullyCommitted(cfg, Reached(cfg, es), cfg.partitionOf(c))
    ensures var log := cfg.logs[cfg.partitionOf(c)];
            ControlMessages.Columns(Reached(cfg, es).rows, c) == Pass(log, {}, |log|, c)
  {
    CommittedLogIsAppliedOnce(cfg, es, c);
    OnlySilentFailuresLose(cfg, es, cfg.partitionOf(c));
  }

  const LOST_MESSAGE := MessageColumns("id", 1, Null, Null, Object(map[]))
  const LOSSY := Config([[Online("c", LOST_MESSAGE)]], c => 0, (c, n) => Answer("identity", "account", "org", None), 1, 1, 0, 1, 0)
  const LOSSY_EVENTS := [Fetch(0, K.Succeeded), FindRow(0, false), ResolveTenant(0),
                         RegisterRow(0, Rejected(false), Inventory.Sent), Commit(0, K.Succeeded)]

  /** The table is still empty and the message in hand. */
  predicate LossyAt(s: State, stage: Stage) {
    && s.rows == [] && |s.workers| == 1 && s.workers[0].stage == stage
    && s.workers[0].loop == K.START.(phase := K.Processing, next := 1)
  }

  lemma LossyFetch()
    ensures LossyAt(Run(LOSSY, Init(LOSSY), LOSSY_EVENTS[..1]), Unchecked)
  {
    RunOneMore(LOSSY, Init(LOSSY), LOSSY_EVENTS, 0);
  }

  lemma LossyFind(s: State)
    requires LossyAt(s, Unchecked)
    ensures LossyAt(Step(LOSSY, s, FindRow(0, false)), Checked)
  {
    assert InHand(LOSSY, s, 0) == Online("c", LOST_MESSAGE);
  }

  lemma LossyResolve(s: State)
    requires LossyAt(s, Checked)
    ensures LossyAt(Step(LOSSY, s, ResolveTenant(0)), Resolved(Answer("identity", "account", "org", None)))
  {
    assert InHand(LOSSY, s, 0) == Online("c", LOST_MESSAGE);
  }

  lemma LossyStart()
    ensures LossyAt(Run(LOSSY, Init(LOSSY), LOSSY_EVENTS[..3]), Resolved(Answer("identity", "account", "org", None)))
  {
    LossyFetch();
    RunOneMore(LOSSY, Init(LOSSY), LOSSY_EVENTS, 1);
    LossyFind(Run(LOSSY, Init(LOSSY), LOSSY_EVENTS[..1]));
    RunOneMore(LOSSY, Init(LOSSY), LOSSY_EVENTS, 2);
    LossyResolve(Run(LOSSY, Init(LOSSY), LOSSY_EVENTS[..2]));
  }

  lemma LossyRegister(s: State)
    requires LossyAt(s, Resolved(Answer("identity", "account", "org", None)))
    ensures var s' := Step(LOSSY, s, RegisterRow(0, Rejected(false), Inventory.Sent));
            LossyUncommitted(s')
  {
    assert InHand(LOSSY, s, 0) == Online("c", LOST_MESSAGE);
  }

  predicate LossyUncommitted(s: State) {
    && s.rows == [] && |s.workers| == 1
    && s.workers[0].loop.phase == K.Committing && s.workers[0].loop.current == 0
  }

  lemma LossyFailure()
    ensures LossyUncommitted(Run(LOSSY, Init(LOSSY), LOSSY_EVENTS[..4]))
  {
    LossyStart();
    RunOneMore(LOSSY, Init(LOSSY), LOSSY_EVENTS, 3);
    LossyRegister(Run(LOSSY, Init(LOSSY), LOSSY_EVENTS[..3]));
  }

  lemma LossyCommit(s: State)
    requires LossyUncommitted(s)
    ensures var s' := Step(LOSSY, s, Commit(0, K.Succeeded));
            s'.rows == [] && s'.workers[0].loop.committed == 1
  {
  }

  lemma LossyRun()
    ensures var s := Reached(LOSSY, LOSSY_EVENTS);
            s.rows == [] && s.workers[0].loop.committed == 1
  {
    LossyFailure();
    RunOneMore(LOSSY, Init(LOSSY), LOSSY_EVENTS, 4);
    LossyCommit(Run(LOSSY, Init(LOSSY), LOSSY_EVENTS[..4]));
    assert LOSSY_EVENTS[..5] == LOSSY_EVENTS;
  }

  /** A swallowed failure loses its message for good: the premise is needed. */
  lemma SilentFailureLosesMessage()
    ensures exists cfg: Config, es, c ::
      && Partitioned(cfg) && FullyCommitted(cfg, Reached(cfg, es), cfg.partitionOf(c))
      && var log := cfg.logs[cfg.partitionOf(c)];
         ControlMessages.Columns(Reached(cfg, es).rows, c) != Pass(log, {}, |log|, c)
  {
    LossyRun();
    assert Partitioned(LOSSY);
    var log := LOSSY.logs[0];
    assert Pass(log, {}, 0, "c") == None;
    assert Pass(log, {}, 1, "c") == Some(LOST_MESSAGE);
    assert FullyCommitted(LOSSY, Reached(LOSSY, LOSSY_EVENTS), LOSSY.partitionOf("c"));
  }

  // ----- Freshness -----

  /** While a client's row stays, its message is never replaced by an older one or by
      one with the same id, whatever lands between the handler's lookup and its write. */
  lemma RowsStayFresh(cfg: Config, es: seq<Event>, e: Event, c: ClientId)
    requires Partitioned(cfg)
    ensures var v := ControlMessages.Columns(Reached(cfg, es).rows, c);
            var v' := ControlMessages.Columns(Step(cfg, Reached(cfg, es), e).rows, c);
            v.Some? && v'.Some? ==>
              && v.value.sent <= v'.value.sent
              && v.value.facts == v'.value.facts
              && (v != v' ==> v.value.id != v'.value.id)
  {
    var s := Reached(cfg, es);
    RunTracks(cfg, es, c);
    var st := StatementOf(cfg, s, e);
    if Partition(e) != Some(cfg.partitionOf(c)) {
      OthersKeepColumns(cfg, s, e, c);
    } else if st.Some? {
      ExecuteRefinesMap(s.rows, st.value, c);
    }
  }

  /** The row of `c` is there in every state of the run from `es[..i]` on. */
  ghost predicate StaysAlive(cfg: Config, es: seq<Event>, i: nat, c: ClientId)
    requires i <= |es|
  {
    forall j :: i <= j <= |es| ==> ControlMessages.Columns(Reached(cfg, es[..j]).rows, c).Some?
  }

  lemma {:induction false} SentNeverDecreases(cfg: Config, es: seq<Event>, i: nat, c: ClientId)
    requires Partitioned(cfg) && i <= |es| && StaysAlive(cfg, es, i, c)
    ensures ControlMessages.Columns(Reached(cfg, es[..i]).rows, c).Some? && ControlMessages.Columns(Reached(cfg, es).rows, c).Some?
    ensures ControlMessages.Columns(Reached(cfg, es[..i]).rows, c).value.sent
            <= ControlMessages.Columns(Reached(cfg, es).rows, c).value.sent
  {
    assert es[..|es|] == es;
    if i < |es| {
      var before := es[..|es| - 1];
      assert forall j :: i <= j <= |before| ==> before[..j] == es[..j];
      SentNeverDecreases(cfg, before, i, c);
      RowsStayFresh(cfg, before, es[|es| - 1], c);
    }
  }
}
