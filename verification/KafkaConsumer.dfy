/** The consumer loop: fetch, process, commit, one message of a partition at a time. */
module KafkaConsumer {

  const MAX_CONSECUTIVE_FETCH_ERRORS := 10
  const MAX_CONSECUTIVE_COMMIT_ERRORS := 10

  /** How one call of the loop went. A failed commit may have reached the broker;
      `interrupted` says that the shutdown signal ended the backoff wait. */
  datatype Outcome =
    | Succeeded
    | Failed(effective: bool, interrupted: bool)
    | Cancelled(effective: bool)

  datatype Phase = Fetching | Processing | Committing | Stopped

  /** The loop's variables, the broker's committed offset, and what has been processed.
      `next` is the reader's position and `current` the offset of the message in hand. */
  datatype Loop = Loop(
    phase: Phase,
    next: nat,
    current: nat,
    committed: nat,
    fetchErrors: nat,
    commitErrors: nat,
    signals: nat,
    processed: set<nat>)

  const START := Loop(Fetching, 0, 0, 0, 0, 0, 0, {})

  function StepFetch(length: nat, l: Loop, o: Outcome): Loop {
    match o
    case Succeeded =>
      if l.next >= length then l // nothing to read: the call is still waiting
      else l.(phase := Processing, current := l.next, next := l.next + 1, fetchErrors := 0)
    case Cancelled(_) => l.(phase := Stopped)
    case Failed(_, interrupted) =>
      var errors := l.fetchErrors + 1;
      if errors >= MAX_CONSECUTIVE_FETCH_ERRORS
      then l.(phase := Stopped, fetchErrors := errors, signals := l.signals + 1)
      else l.(phase := if interrupted then Stopped else Fetching, fetchErrors := errors)
  }

  function StepProcess(l: Loop, o: Outcome): Loop {
    if o.Succeeded? then l.(phase := Committing, processed := l.processed + {l.current})
    else l.(phase := Stopped, signals := l.signals + 1)
  }

  function StepCommit(l: Loop, o: Outcome): Loop {
    match o
    case Succeeded => l.(phase := Fetching, committed := l.current + 1, commitErrors := 0)
    case Cancelled(effective) =>
      l.(phase := Stopped, committed := if effective then l.current + 1 else l.committed)
    case Failed(effective, interrupted) =>
      var errors := l.commitErrors + 1;
      var l' := l.(committed := if effective then l.current + 1 else l.committed, commitErrors := errors);
      if errors >= MAX_CONSECUTIVE_COMMIT_ERRORS then l'.(phase := Stopped, signals := l.signals + 1)
      else l'.(phase := if interrupted then Stopped else Committing)
  }

  /** One call of the loop on a partition that holds `length` messages. */
  function Step(length: nat, l: Loop, o: Outcome): Loop {
    match l.phase
    case Fetching => StepFetch(length, l, o)
    case Processing => StepProcess(l, o)
    case Committing => StepCommit(l, o)
    case Stopped => l
  }

  function Run(length: nat, l: Loop, os: seq<Outcome>): Loop {
    if os == [] then l
    else Step(length, Run(length, l, os[..|os| - 1]), os[|os| - 1])
  }

  lemma RunOneMore(length: nat, l: Loop, os: seq<Outcome>, i: nat)
    requires i < |os|
    ensures Run(length, l, os[..i + 1]) == Step(length, Run(length, l, os[..i]), os[i])
  {
    assert os[..i + 1][..i] == os[..i];
  }

  /** A new process reads on from the committed offset. */
  function Restart(l: Loop): Loop {
    Loop(Fetching, l.committed, l.current, l.committed, 0, 0, 0, l.processed)
  }

  /** What can happen to a partition's consumer: a call of the loop returns, or the process dies. */
  datatype Event = Call(o: Outcome) | Crash | Boot

  function Happen(length: nat, l: Loop, e: Event): Loop {
    match e
    case Call(o) => Step(length, l, o)
    case Crash => l.(phase := Stopped)
    case Boot => if l.phase.Stopped? then Restart(l) else l
  }

  function Life(length: nat, es: seq<Event>): Loop {
    if es == [] then START
    else Happen(length, Life(length, es[..|es| - 1]), es[|es| - 1])
  }

  /** The commit discipline. */
  ghost predicate Disciplined(length: nat, l: Loop) {
    && l.committed <= length
    // every committed message has been processed, and at most one more
    && (forall k :: 0 <= k < l.committed ==> k in l.processed)
    && (forall k :: k in l.processed ==> k <= l.committed && k < length)
    && l.signals <= 1
    && (l.signals == 1 ==> l.phase.Stopped?)
    && match l.phase
       case Fetching => l.next == l.committed && l.fetchErrors < 10 && l.commitErrors == 0
       case Processing => l.current == l.committed < length && l.next == l.current + 1
                          && l.fetchErrors == 0 && l.commitErrors == 0
       case Committing => l.current < length && l.next == l.current + 1 && l.current in l.processed
                          && (l.committed == l.current || l.committed == l.next)
                          && l.fetchErrors == 0 && l.commitErrors < 10
       case Stopped => l.fetchErrors <= 10 && l.commitErrors <= 10
  }

  lemma HappenKeepsDiscipline(length: nat, l: Loop, e: Event)
    requires Disciplined(length, l)
    ensures Disciplined(length, Happen(length, l, e))
  {
  }

  lemma {:induction false} RunKeepsDiscipline(length: nat, l: Loop, os: seq<Outcome>)
    requires Disciplined(length, l)
    ensures Disciplined(length, Run(length, l, os))
  {
    if os != [] {
      RunKeepsDiscipline(length, l, os[..|os| - 1]);
      HappenKeepsDiscipline(length, Run(length, l, os[..|os| - 1]), Call(os[|os| - 1]));
    }
  }

  /** In every run with crashes, restarts and errors of every kind. */
  lemma {:induction false} LifeIsDisciplined(length: nat, es: seq<Event>)
    ensures Disciplined(length, Life(length, es))
  {
    if es != [] {
      LifeIsDisciplined(length, es[..|es| - 1]);
      HappenKeepsDiscipline(length, Life(length, es[..|es| - 1]), es[|es| - 1]);
    }
  }

  /** The committed offset never goes back, and a message that starts processing
      is exactly the first uncommitted one: a committed message is never processed again. */
  lemma CommittedMessagesStayDone(length: nat, es: seq<Event>, e: Event)
    ensures var l := Life(length, es);
            var l' := Happen(length, l, e);
            && l.committed <= l'.committed <= l.committed + 1
            && l.processed <= l'.processed
            && (l'.phase.Processing? && !l.phase.Processing? ==> l'.current == l.committed == l'.committed)
            && (l'.committed > l.committed ==> l.current == l.committed && l.current in l.processed)
  {
    LifeIsDisciplined(length, es);
  }

  /** A stopped loop makes no further call: nothing is fetched after the fatal signal. */
  lemma {:induction false} NothingAfterStop(length: nat, l: Loop, os: seq<Outcome>)
    requires l.phase.Stopped?
    ensures Run(length, l, os) == l
  {
    if os != [] { NothingAfterStop(length, l, os[..|os| - 1]); }
  }

  /** A commit call that does not end the loop counts one more error. */
  lemma CommitCounts(length: nat, l: Loop, o: Outcome)
    requires l.phase.Committing? && l.commitErrors < MAX_CONSECUTIVE_COMMIT_ERRORS
    ensures var l' := Step(length, l, o);
            l'.phase.Committing? ==> l'.commitErrors == l.commitErrors + 1 < MAX_CONSECUTIVE_COMMIT_ERRORS
  {
  }

  /** The commit loop makes at most ten calls: by then it has moved on or given up. */
  lemma CommitLoopEnds(length: nat, l: Loop, os: seq<Outcome>) returns (n: nat)
    requires Disciplined(length, l) && l.phase.Committing?
    requires |os| >= MAX_CONSECUTIVE_COMMIT_ERRORS
    ensures 1 <= n <= MAX_CONSECUTIVE_COMMIT_ERRORS - l.commitErrors
    ensures !Run(length, l, os[..n]).phase.Committing?
    ensures forall i :: 0 <= i < n ==> Run(length, l, os[..i]).phase.Committing?
  {
    n := 0;
    var r := l;
    while r.phase.Committing?
      invariant n <= MAX_CONSECUTIVE_COMMIT_ERRORS - l.commitErrors
      invariant r == Run(length, l, os[..n])
      invariant forall i :: 0 <= i < n ==> Run(length, l, os[..i]).phase.Committing?
      invariant n == 0 ==> r == l
      invariant r.phase.Committing? ==> r.commitErrors == l.commitErrors + n < MAX_CONSECUTIVE_COMMIT_ERRORS
      decreases MAX_CONSECUTIVE_COMMIT_ERRORS - n
    {
      RunOneMore(length, l, os, n);
      CommitCounts(length, r, os[n]);
      r := Step(length, r, os[n]);
      n := n + 1;
    }
  }

  /** Ten fetches in a row must fail before the loop gives up, and then it does. */
  lemma {:induction false} PersistentFetchErrorsStop(length: nat, l: Loop, os: seq<Outcome>)
    requires l.phase.Fetching? && l.fetchErrors == 0 && |os| <= 10
    requires forall i :: 0 <= i < |os| ==> os[i].Failed? && !os[i].interrupted
    ensures Run(length, l, os) ==
            if |os| < 10 then l.(fetchErrors := |os|)
            else l.(phase := Stopped, fetchErrors := 10, signals := l.signals + 1)
  {
    if os != [] { PersistentFetchErrorsStop(length, l, os[..|os| - 1]); }
  }

  /** A fetch or a commit stops the loop exactly when it is cancelled, its backoff is
      interrupted, or it is the tenth error in a row; and only that one gives the signal. */
  lemma StopsExactlyWhen(length: nat, l: Loop, o: Outcome)
    requires Disciplined(length, l) && (l.phase.Fetching? || l.phase.Committing?)
    ensures var l' := Step(length, l, o);
            var errors := if l.phase.Fetching? then l.fetchErrors else l.commitErrors;
            && (l'.phase.Stopped? <==> o.Cancelled? || (o.Failed? && (o.interrupted || errors == 9)))
            && (l'.signals == 1 <==> o.Failed? && errors == 9)
            && l'.processed == l.processed
  {
  }

  /** The handler's error stops the loop at once, with the signal. */
  lemma HandlerErrorStops(length: nat, l: Loop, o: Outcome)
    requires Disciplined(length, l) && l.phase.Processing?
    ensures var l' := Step(length, l, o);
            && (l'.phase.Stopped? <==> !o.Succeeded?) && (l'.signals == 1 <==> !o.Succeeded?)
            && l'.committed == l.committed
            && l'.processed == if o.Succeeded? then l.processed + {l.committed} else l.processed
  {
  }

  /** A fetch that succeeds takes up the first message that is not committed; a commit
      moves the offset past it exactly when it reaches the broker. */
  lemma CallsAdvanceExactlyWhen(length: nat, l: Loop, o: Outcome)
    requires Disciplined(length, l)
    ensures var l' := Step(length, l, o);
            && (l.phase.Fetching? && o.Succeeded? && l.committed < length ==>
                  l'.phase.Processing? && l'.current == l.committed && l'.fetchErrors == 0)
            && (l.phase.Fetching? ==> l'.committed == l.committed)
            && (l.phase.Committing? ==> l'.committed == if o.Succeeded? || o.effective then l.current + 1 else l.committed)
            && (l.phase.Committing? && o.Succeeded? ==> l'.phase.Fetching?)
            && (l.phase.Fetching? && o.Failed? ==> l'.fetchErrors == l.fetchErrors + 1)
            && (l.phase.Committing? && o.Failed? ==> l'.commitErrors == l.commitErrors + 1)
  {
  }

  /** The call ends the loop whatever comes after it. */
  predicate ShutsDown(l: Loop, o: Outcome) {
    (l.phase.Fetching? || l.phase.Committing?) && (o.Cancelled? || (o.Failed? && o.interrupted))
  }

  /** After a shutdown nothing more is processed. */
  lemma NothingAfterShutdown(length: nat, l: Loop, os: seq<Outcome>, i: nat)
    requires Disciplined(length, l) && i < |os| && ShutsDown(Run(length, l, os[..i]), os[i])
    ensures Run(length, l, os).phase.Stopped?
    ensures Run(length, l, os).processed == Run(length, l, os[..i]).processed
  {
    RunKeepsDiscipline(length, l, os[..i]);
    RunOneMore(length, l, os, i);
    StopsExactlyWhen(length, Run(length, l, os[..i]), os[i]);
    StoppedForGood(length, l, os, i + 1);
  }

  lemma NothingAfterAnyShutdown(length: nat, l: Loop, os: seq<Outcome>)
    requires Disciplined(length, l)
    ensures forall i :: 0 <= i < |os| && ShutsDown(Run(length, l, os[..i]), os[i]) ==>
                          && Run(length, l, os).phase.Stopped?
                          && Run(length, l, os).processed == Run(length, l, os[..i]).processed
  {
    forall i | 0 <= i < |os| && ShutsDown(Run(length, l, os[..i]), os[i])
      ensures Run(length, l, os).phase.Stopped? && Run(length, l, os).processed == Run(length, l, os[..i]).processed
    {
      NothingAfterShutdown(length, l, os, i);
    }
  }

  /** Only a shutdown ends the loop without the fatal signal. */
  lemma StopsSilentlyOnlyOnShutdown(length: nat, l: Loop, o: Outcome)
    requires Disciplined(length, l) && !l.phase.Stopped? && Step(length, l, o).phase.Stopped?
    ensures var l' := Step(length, l, o);
            && (l'.signals == 0 || l'.signals == 1)
            && (l'.signals == 0 ==> !l.phase.Processing? && (o.Cancelled? || (o.Failed? && o.interrupted)))
            && (o.Cancelled? && !l.phase.Processing? ==> l'.signals == 0)
  {
  }

  // ----- The loop itself -----

  /** One consumer process on one partition. */
  class Consumer {
    const length: nat
    var phase: Phase
    var next: nat
    var current: nat
    var committed: nat
    var consecutiveFetchErrors: nat
    var consecutiveCommitErrors: nat
    var fatalSignals: nat
    ghost var processed: set<nat>

    ghost function State(): Loop
      reads this
    {
      Loop(phase, next, current, committed, consecutiveFetchErrors, consecutiveCommitErrors, fatalSignals, processed)
    }

    /** A process that starts with `length` messages in the log, `committed` of them done. */
    constructor (length: nat, committed: nat, ghost processed: set<nat>)
      ensures this.length == length
      ensures State() == Loop(Fetching, committed, 0, committed, 0, 0, 0, processed)
    {
      this.length := length;
      phase := Fetching;
      next, current := committed, 0;
      this.committed := committed;
      consecutiveFetchErrors, consecutiveCommitErrors, fatalSignals := 0, 0, 0;
      this.processed := processed;
    }

    /** The inner loop: commits the current message, from call `i` on. */
    method CommitUntilDone(calls: seq<Outcome>, i: nat, ghost start: Loop) returns (j: nat)
      requires i <= |calls| && phase == Committing
      requires State() == Run(length, start, calls[..i])
      modifies this`phase, this`committed, this`consecutiveCommitErrors, this`fatalSignals
      ensures i <= j <= |calls|
      ensures State() == Run(length, start, calls[..j])
      ensures phase == Fetching || phase == Stopped || j == |calls|
    {
      j := i;
      while j < |calls|
        invariant i <= j <= |calls|
        invariant phase == Committing
        invariant State() == Run(length, start, calls[..j])
      {
        var commit := calls[j];
        RunOneMore(length, start, calls, j);
        j := j + 1;
        if commit.Succeeded? {
          committed := current + 1;
          consecutiveCommitErrors := 0;
          phase := Fetching;
          break;
        }
        if commit.effective {
          committed := current + 1;
        }
        if commit.Cancelled? {
          phase := Stopped;
          break;
        }
        consecutiveCommitErrors := consecutiveCommitErrors + 1;
        if consecutiveCommitErrors >= MAX_CONSECUTIVE_COMMIT_ERRORS {
          fatalSignals := fatalSignals + 1;
          phase := Stopped;
          break;
        }
        if commit.interrupted {
          phase := Stopped;
          break;
        }
      }
    }

    /** One fetch: a message arrives, the wait goes on, or an error is counted. */
    method FetchMessage(fetched: Outcome)
      requires phase == Fetching
      modifies this
      ensures State() == Step(length, old(State()), fetched)
    {
      if fetched.Cancelled? {
        phase := Stopped;
        return;
      }
      if fetched.Failed? {
        consecutiveFetchErrors := consecutiveFetchErrors + 1;
        if consecutiveFetchErrors >= MAX_CONSECUTIVE_FETCH_ERRORS {
          fatalSignals := fatalSignals + 1;
          phase := Stopped;
        } else if fetched.interrupted {
          phase := Stopped;
        }
        return;
      }
      if next < length {
        current, next, phase := next, next + 1, Processing;
        consecutiveFetchErrors := 0;
      }
    }

    /** One call of the message handler: an error ends the process. */
    method ProcessMessage(handled: Outcome)
      requires phase == Processing
      modifies this
      ensures State() == Step(length, old(State()), handled)
    {
      if !handled.Succeeded? {
        fatalSignals := fatalSignals + 1;
        phase := Stopped;
        return;
      }
      processed := processed + {current};
      phase := Committing;
    }

    /** Runs the loop until it stops or `calls`, the returns of its successive calls,
        are used up; the process may be killed at that point. */
    method ConsumeMqttMessages(calls: seq<Outcome>)
      requires phase == Fetching && Disciplined(length, State())
      modifies this
      ensures State() == Run(length, old(State()), calls)
      ensures Disciplined(length, State())
      ensures forall i :: 0 <= i < |calls| && ShutsDown(Run(length, old(State()), calls[..i]), calls[i]) ==>
                            phase == Stopped && processed == Run(length, old(State()), calls[..i]).processed
    {
      var i := 0;
      ghost var start := State();
      while phase == Fetching && i < |calls|
        invariant i <= |calls|
        invariant State() == Run(length, start, calls[..i])
        invariant phase != Fetching ==> i == |calls| || phase == Stopped
        decreases |calls| - i
      {
        RunOneMore(length, start, calls, i);
        FetchMessage(calls[i]);
        i := i + 1;
        if phase != Processing || i == |calls| {
          continue;
        }
        RunOneMore(length, start, calls, i);
        ProcessMessage(calls[i]);
        i := i + 1;
        if phase == Committing {
          i := CommitUntilDone(calls, i, start);
        }
      }
      LoopIsOver(length, start, calls, i);
      NothingAfterAnyShutdown(length, start, calls);
    }
  }

  lemma LoopIsOver(length: nat, start: Loop, calls: seq<Outcome>, i: nat)
    requires Disciplined(length, start)
    requires i <= |calls| && (i == |calls| || Run(length, start, calls[..i]).phase.Stopped?)
    ensures Run(length, start, calls[..i]) == Run(length, start, calls)
    ensures Disciplined(length, Run(length, start, calls))
  {
    if i == |calls| {
      assert calls[..i] == calls;
    } else {
      StoppedForGood(length, start, calls, i);
    }
    RunKeepsDiscipline(length, start, calls);
  }

  lemma {:induction false} StoppedForGood(length: nat, l: Loop, os: seq<Outcome>, i: nat)
    requires i <= |os| && Run(length, l, os[..i]).phase.Stopped?
    ensures Run(length, l, os) == Run(length, l, os[..i])
  {
    if i == |os| {
      assert os[..i] == os;
    } else {
      var rest := os[..|os| - 1];
      assert rest[..i] == os[..i];
      StoppedForGood(length, l, rest, i);
    }
  }
}
