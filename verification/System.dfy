/** The whole connection lifecycle as one state machine: a consumer on every
    partition, the two updaters, one table, one clock, and crashes of everything.

    An event that its process cannot make in a state leaves the state as it is,
    so every sequence of events is a run. */
module System {
  import opened Domain
  import opened ConnectionTable
  import opened MessageLog
  import Inventory
  import ControlMessages
  import Updaters
  import K = KafkaConsumer

  /** `resolver(c, n)` is the answer to a lookup of `c` made in step `n`. */
  datatype Config = Config(
    logs: seq<seq<Action>>,
    partitionOf: ClientId -> nat,
    resolver: (ClientId, nat) -> Answer,
    chunkSize: nat,
    maxFailures: int,
    lookupOffset: nat,
    staleChunkSize: nat,
    staleTimeOffset: int)

  ghost predicate InPartition(cfg: Config, p: nat, a: Action) {
    !a.Ignore? ==> cfg.partitionOf(a.client) == p
  }

  /** Messages lie in the partition of their client. */
  ghost predicate Partitioned(cfg: Config) {
    && (forall c :: cfg.partitionOf(c) < |cfg.logs|)
    && forall p, i :: 0 <= p < |cfg.logs| && 0 <= i < |cfg.logs[p]| ==> InPartition(cfg, p, cfg.logs[p][i])
  }

  /** How far the handler is with the message in hand: the row has been looked up
      and the message is new; the tenant has been looked up as well. */
  datatype Stage = Unchecked | Checked | Resolved(answer: Answer)

  /** A partition's consumer. `applied` says whether the message that awaits its commit
      is in the table, and `lost` collects the committed messages that never got there. */
  datatype Worker = Worker(loop: K.Loop, stage: Stage, applied: bool, lost: set<nat>)

  /** `lookups` and `refreshes` are the rows that the updaters still have before them, and
      each answer is that of the resolver for the first, once it has been asked. */
  datatype State = State(
    rows: seq<Row>,
    workers: seq<Worker>,
    now: int,
    steps: nat,
    lookups: seq<Row>,
    lookupAnswer: Option<Answer>,
    refreshes: seq<Row>,
    refreshAnswer: Option<Answer>,
    inventory: seq<Inventory.HostMessage>,
    lookupRuns: nat,
    lookupsMade: nat)

  datatype Event =
    | Tick(delta: nat)
    // the consumer of partition p
    | Fetch(p: nat, call: K.Outcome)
    | SkipMessage(p: nat)
    | FindRow(p: nat, queryFailed: bool)
    | ResolveTenant(p: nat)
    | RegisterRow(p: nat, outcome: WriteOutcome, delivery: Inventory.Delivery)
    | UnregisterRow(p: nat, outcome: WriteOutcome)
    | Commit(p: nat, call: K.Outcome)
    | Crash(p: nat)
    | Boot(p: nat)
    // the updaters
    | StartLookups(result: seq<Row>)
    | ResolveLookup
    | RecordLookup(written: bool)
    | KillLookups
    | StartRefreshes(result: seq<Row>)
    | ResolveRefresh
    | RecordRefresh(delivery: Inventory.Delivery, written: bool)
    | KillRefreshes

  function Partition(e: Event): Option<nat> {
    match e
    case Fetch(p, _) => Some(p)
    case SkipMessage(p) => Some(p)
    case FindRow(p, _) => Some(p)
    case ResolveTenant(p) => Some(p)
    case RegisterRow(p, _, _) => Some(p)
    case UnregisterRow(p, _) => Some(p)
    case Commit(p, _) => Some(p)
    case Crash(p) => Some(p)
    case Boot(p) => Some(p)
    case _ => None
  }

  function ActionAt(cfg: Config, p: nat, k: nat): Action {
    if p < |cfg.logs| && k < |cfg.logs[p]| then cfg.logs[p][k] else Ignore
  }

  /** The message that worker `p` is processing. */
  function InHand(cfg: Config, s: State, p: nat): Action {
    if p < |s.workers| && s.workers[p].loop.phase.Processing?
    then ActionAt(cfg, p, s.workers[p].loop.current) else Ignore
  }

  /** The tenantless updater acts on the answer for its first row. */
  predicate RecordsLookup(s: State, e: Event) {
    e.RecordLookup? && s.lookups != [] && s.lookupAnswer.Some?
  }

  /** The stale updater acts on the answer for its first row. */
  predicate RecordsRefresh(s: State, e: Event) {
    e.RecordRefresh? && s.refreshes != [] && s.refreshAnswer.Some?
  }

  /** The statement that an event runs on the table. */
  function StatementOf(cfg: Config, s: State, e: Event): Option<Statement> {
    match e
    case RegisterRow(p, outcome, _) =>
      var a := InHand(cfg, s, p);
      if a.Online? && s.workers[p].stage.Resolved? && TookEffect(outcome) then
        var answer := s.workers[p].stage.answer;
        Some(RegisterStatement(ClientState(a.client, answer.account, answer.org, a.msg), s.now))
      else None
    case UnregisterRow(p, outcome) =>
      var a := InHand(cfg, s, p);
      if a.Offline? && TookEffect(outcome) then Some(Delete(a.client)) else None
    case RecordLookup(written) =>
      if RecordsLookup(s, e) && written
      then Some(Updaters.LookupStatement(s.lookups[0].client, s.lookupAnswer.value, s.now)) else None
    case RecordRefresh(delivery, written) =>
      if RecordsRefresh(s, e) && written
      then Updaters.RefreshStatement(s.refreshes[0], s.refreshAnswer.value, delivery, s.now) else None
    case _ => None
  }

  function RowsAfter(cfg: Config, s: State, e: Event): seq<Row> {
    var st := StatementOf(cfg, s, e);
    if st.Some? then Execute(s.rows, st.value) else s.rows
  }

  const ERROR := K.Failed(false, false)

  /** The handler returns to the loop. */
  function Return(length: nat, w: Worker, call: K.Outcome, applied: bool): Worker {
    w.(loop := K.Step(length, w.loop, call), stage := Unchecked, applied := applied)
  }

  function CommitWorker(length: nat, w: Worker, call: K.Outcome): Worker {
    var loop := K.Step(length, w.loop, call);
    w.(loop := loop,
    lost := if loop.committed > w.loop.committed && !w.applied then w.lost + {w.loop.current} else w.lost)
  }

  function WorkerAfter(cfg: Config, s: State, p: nat, e: Event): Worker
    requires p < |s.workers| == |cfg.logs|
  {
    var w, length, a := s.workers[p], |cfg.logs[p]|, InHand(cfg, s, p);
    match e
    case Fetch(_, call) =>
      if w.loop.phase.Fetching? then w.(loop := K.Step(length, w.loop, call), stage := Unchecked) else w
    case SkipMessage(_) =>
      if w.loop.phase.Processing? && a.Ignore? then Return(length, w, K.Succeeded, true) else w
    case FindRow(_, queryFailed) =>
      if a.Online? && w.stage.Unchecked? then
        var v := ControlMessages.Columns(s.rows, a.client);
        if queryFailed then Return(length, w, ERROR, false)
        else if v.Some? && IsDuplicateOrOld(v.value, a.msg) then Return(length, w, K.Succeeded, true)
        else w.(stage := Checked)
      else w
    case ResolveTenant(_) =>
      if a.Online? && w.stage.Checked? then w.(stage := Resolved(cfg.resolver(a.client, s.steps))) else w
    case RegisterRow(_, outcome, _) =>
      if a.Online? && w.stage.Resolved? then
        match outcome
        case Written => Return(length, w, K.Succeeded, true)
        case Rejected(effective) => Return(length, w, K.Succeeded, effective)
        case Broken(_) => Return(length, w, ERROR, false)
      else w
    case UnregisterRow(_, outcome) =>
      if a.Offline? then Return(length, w, if outcome.Written? then K.Succeeded else ERROR, true) else w
    case Commit(_, call) => if w.loop.phase.Committing? then CommitWorker(length, w, call) else w
    case Crash(_) => w.(loop := w.loop.(phase := K.Stopped), stage := Unchecked)
    case Boot(_) => if w.loop.phase.Stopped? then w.(loop := K.Restart(w.loop), stage := Unchecked) else w
    case _ => w
  }

  function InventoryAfter(cfg: Config, s: State, e: Event): seq<Inventory.HostMessage> {
    match e
    case RegisterRow(p, outcome, delivery) =>
      var a := InHand(cfg, s, p);
      if a.Online? && s.workers[p].stage.Resolved? && outcome.Written?
         && Inventory.Records(a.msg, s.workers[p].stage.answer, delivery)
      then s.inventory + [Inventory.HostMessage(a.client, s.workers[p].stage.answer.org, s.workers[p].stage.answer)]
      else s.inventory
    case RecordRefresh(delivery, _) =>
      if RecordsRefresh(s, e) then s.inventory + Updaters.HostReport(s.refreshes[0], s.refreshAnswer.value, delivery)
      else s.inventory
    case _ => s.inventory
  }

  ghost predicate StartsLookups(cfg: Config, s: State, e: Event) {
    && e.StartLookups? && s.lookups == []
    && Updaters.IsResult(s.rows, Updaters.Tenantless(s.now - cfg.lookupOffset, cfg.maxFailures), cfg.chunkSize, e.result)
  }

  ghost predicate StartsRefreshes(cfg: Config, s: State, e: Event) {
    && e.StartRefreshes? && s.refreshes == []
    && Updaters.IsResult(s.rows, Updaters.Stale(Updaters.StaleCutoff(s.now, cfg.staleTimeOffset)), cfg.staleChunkSize, e.result)
  }

  ghost function LookupsAfter(cfg: Config, s: State, e: Event): seq<Row> {
    if StartsLookups(cfg, s, e) then e.result
    else if RecordsLookup(s, e) then s.lookups[1..]
    else if e.KillLookups? then []
    else s.lookups
  }

  ghost function RefreshesAfter(cfg: Config, s: State, e: Event): seq<Row> {
    if StartsRefreshes(cfg, s, e) then e.result
    else if RecordsRefresh(s, e) then
      var call := Updaters.RefreshCall(s.refreshAnswer.value, e.delivery, e.written, s.now);
      if Updaters.Dies(s.refreshes[0], call) then [] else s.refreshes[1..]
    else if e.KillRefreshes? then []
    else s.refreshes
  }

  function LookupAnswerAfter(cfg: Config, s: State, e: Event): Option<Answer> {
    if e.ResolveLookup? && s.lookups != [] then Some(cfg.resolver(s.lookups[0].client, s.steps))
    else if e.RecordLookup? || e.KillLookups? then None
    else s.lookupAnswer
  }

  function RefreshAnswerAfter(cfg: Config, s: State, e: Event): Option<Answer> {
    if e.ResolveRefresh? && s.refreshes != [] then Some(cfg.resolver(s.refreshes[0].client, s.steps))
    else if e.RecordRefresh? || e.KillRefreshes? then None
    else s.refreshAnswer
  }

  ghost function Step(cfg: Config, s: State, e: Event): State
    requires |s.workers| == |cfg.logs|
  {
    State(
      RowsAfter(cfg, s, e),
      if Partition(e).Some? && Partition(e).value < |s.workers|
      then s.workers[Partition(e).value := WorkerAfter(cfg, s, Partition(e).value, e)] else s.workers,
      s.now + (if e.Tick? then e.delta else 0),
      s.steps + 1,
      LookupsAfter(cfg, s, e),
      LookupAnswerAfter(cfg, s, e),
      RefreshesAfter(cfg, s, e),
      RefreshAnswerAfter(cfg, s, e),
      InventoryAfter(cfg, s, e),
      s.lookupRuns + (if StartsLookups(cfg, s, e) then 1 else 0),
      s.lookupsMade + (if RecordsLookup(s, e) then 1 else 0))
  }

  const IDLE := Worker(K.START, Unchecked, false, {})

  /** An empty table and consumers that have read nothing. */
  function Init(cfg: Config): (s: State)
    ensures |s.workers| == |cfg.logs|
  {
    State([], seq(|cfg.logs|, i => IDLE), 0, 0, [], None, [], None, [], 0, 0)
  }

  ghost function Run(cfg: Config, s: State, es: seq<Event>): (s': State)
    requires |s.workers| == |cfg.logs|
    ensures |s'.workers| == |cfg.logs|
  {
    if es == [] then s else Step(cfg, Run(cfg, s, es[..|es| - 1]), es[|es| - 1])
  }

  lemma RunOneMore(cfg: Config, s: State, es: seq<Event>, i: nat)
    requires |s.workers| == |cfg.logs| && i < |es|
    ensures Run(cfg, s, es[..i + 1]) == Step(cfg, Run(cfg, s, es[..i]), es[i])
  {
    assert es[..i + 1][..i] == es[..i];
  }

  lemma RunPushed(cfg: Config, s: State, es: seq<Event>, e: Event)
    requires |s.workers| == |cfg.logs|
    ensures Run(cfg, s, es + [e]) == Step(cfg, Run(cfg, s, es), e)
  {
    assert (es + [e])[..|es|] == es;
  }

  lemma RunTwoMore(cfg: Config, s: State, es: seq<Event>, e1: Event, e2: Event)
    requires |s.workers| == |cfg.logs|
    ensures Run(cfg, s, es + [e1, e2]) == Step(cfg, Step(cfg, Run(cfg, s, es), e1), e2)
  {
    var mid := es + [e1];
    assert mid + [e2] == es + [e1, e2];
    RunPushed(cfg, s, es, e1);
    RunPushed(cfg, s, mid, e2);
  }

  ghost function Reached(cfg: Config, es: seq<Event>): (s: State)
    ensures |s.workers| == |cfg.logs|
  {
    Run(cfg, Init(cfg), es)
  }

  // ----- What the updaters take up -----

  /** A run of the tenantless updater takes up the rows without a tenant that were last
      looked up longer ago than the offset and have failures left, oldest first. */
  lemma LookupsTakeOldest(cfg: Config, s: State, e: Event)
    requires StartsLookups(cfg, s, e)
    ensures Updaters.TakesOldest(s.rows, r => Updaters.IsDueForLookup(r, s.now - cfg.lookupOffset, cfg.maxFailures),
                                 Updaters.LookupTime, cfg.chunkSize, e.result)
  {
    Updaters.LookupResult(s.rows, s.now - cfg.lookupOffset, cfg.maxFailures, cfg.chunkSize, e.result);
  }

  /** A run of the stale updater takes up the hosts that were last refreshed longer ago
      than an hour before they go stale, oldest first. */
  lemma RefreshesTakeOldest(cfg: Config, s: State, e: Event)
    requires StartsRefreshes(cfg, s, e)
    ensures Updaters.TakesOldest(s.rows, r => Updaters.IsDueForRefresh(r, s.now - cfg.staleTimeOffset + 3600),
                                 (r: Row) => r.staleTime, cfg.staleChunkSize, e.result)
  {
    Updaters.RefreshResult(s.rows, s.now - cfg.staleTimeOffset + 3600, cfg.staleChunkSize, e.result);
  }

  // ----- What every step does to the table -----

  lemma StepKeepsUnique(cfg: Config, s: State, e: Event)
    requires |s.workers| == |cfg.logs| && Unique(s.rows)
    ensures Unique(Step(cfg, s, e).rows)
  {
    var st := StatementOf(cfg, s, e);
    if st.Some? { ExecuteKeepsUnique(s.rows, st.value); }
  }

  /** In every run there is at most one row per client. */
  lemma {:induction false} RunKeepsUnique(cfg: Config, s: State, es: seq<Event>)
    requires |s.workers| == |cfg.logs| && Unique(s.rows)
    ensures Unique(Run(cfg, s, es).rows)
  {
    if es != [] {
      RunKeepsUnique(cfg, s, es[..|es| - 1]);
      StepKeepsUnique(cfg, Run(cfg, s, es[..|es| - 1]), es[|es| - 1]);
    }
  }

  /** Only the consumer of a client's own partition writes its message columns. */
  lemma OthersKeepColumns(cfg: Config, s: State, e: Event, c: ClientId)
    requires |s.workers| == |cfg.logs| && Unique(s.rows) && Partitioned(cfg)
    requires Partition(e) != Some(cfg.partitionOf(c))
    ensures ControlMessages.Columns(Step(cfg, s, e).rows, c) == ControlMessages.Columns(s.rows, c)
  {
    var st := StatementOf(cfg, s, e);
    if st.Some? {
      if ControlMessages.IsUpdaterStatement(st.value) {
        ControlMessages.UpdatersKeepColumns(s.rows, st.value, c);
      } else {
        var a := InHand(cfg, s, e.p);
        assert InPartition(cfg, e.p, a);
        ExecuteRefinesMap(s.rows, st.value, c);
      }
    }
  }
}
