/** What a log of control messages means for one client's row. */
module MessageLog {
  import opened Domain

  /** A control message as the handler acts on it; facts are already sanitized. */
  datatype Action =
    | Ignore
    | Online(client: ClientId, msg: MessageColumns)
    | Offline(client: ClientId)

  predicate IsDuplicateOrOld(current: MessageColumns, incoming: MessageColumns) {
    current.id == incoming.id || incoming.sent < current.sent
  }

  /** The row's message columns after a message; `None` is no row. */
  function Apply(v: Option<MessageColumns>, a: Action, c: ClientId): Option<MessageColumns> {
    match a
    case Ignore => v
    case Offline(d) => if d == c then None else v
    case Online(d, m) =>
      if d != c then v
      else if v.None? then Some(m)
      else if IsDuplicateOrOld(v.value, m) then v
      else Some(m.(facts := v.value.facts))
  }

  /** One clean pass over the first `n` messages, leaving out the lost ones. */
  function Pass(log: seq<Action>, lost: set<nat>, n: nat, c: ClientId): Option<MessageColumns>
    requires n <= |log|
  {
    if n == 0 then None
    else if n - 1 in lost then Pass(log, lost, n - 1, c)
    else Apply(Pass(log, lost, n - 1, c), log[n - 1], c)
  }

  /** Redelivery of the message that was handled last changes nothing. */
  lemma RedeliveryIsNoOp(v: Option<MessageColumns>, a: Action, c: ClientId)
    ensures Apply(Apply(v, a, c), a, c) == Apply(v, a, c)
  {
  }

  lemma {:induction false} PassIgnoresLaterLosses(log: seq<Action>, l1: set<nat>, l2: set<nat>, n: nat, c: ClientId)
    requires n <= |log|
    requires forall i :: 0 <= i < n ==> (i in l1 <==> i in l2)
    ensures Pass(log, l1, n, c) == Pass(log, l2, n, c)
  {
    if n > 0 { PassIgnoresLaterLosses(log, l1, l2, n - 1, c); }
  }

  // ----- The closed form of a clean pass -----

  predicate OnlineAt(log: seq<Action>, c: ClientId, i: int) {
    0 <= i < |log| && log[i].Online? && log[i].client == c
  }

  /** Message `i` brought `c` online and no offline of `c` follows it among the first `n`. */
  ghost predicate Alive(log: seq<Action>, n: nat, c: ClientId, i: int) {
    && OnlineAt(log, c, i) && i < n
    && forall j :: i < j < n && j < |log| ==> log[j] != Offline(c)
  }

  /** `w` is the last of the live messages with the greatest `Sent`. */
  ghost predicate Latest(log: seq<Action>, n: nat, c: ClientId, w: int) {
    && Alive(log, n, c, w)
    && forall i :: Alive(log, n, c, i) ==>
                     log[i].msg.sent <= log[w].msg.sent && (log[i].msg.sent == log[w].msg.sent ==> i <= w)
  }

  /** Equal message ids mean equal messages. */
  ghost predicate IdsIdentify(log: seq<Action>, c: ClientId) {
    forall i, j :: OnlineAt(log, c, i) && OnlineAt(log, c, j) && log[i].msg.id == log[j].msg.id
                   ==> log[i].msg == log[j].msg
  }

  predicate SameButFacts(a: MessageColumns, b: MessageColumns) {
    a.(facts := b.facts) == b
  }

  /** A message that repeats the id of the latest one before it, and is no older, repeats it whole. */
  ghost predicate RepeatsWhole(log: seq<Action>, n: nat, c: ClientId) {
    forall k, w :: OnlineAt(log, c, k) && 0 <= k < n && Latest(log, k, c, w)
                   && log[k].msg.id == log[w].msg.id && log[k].msg.sent >= log[w].msg.sent
                   ==> SameButFacts(log[k].msg, log[w].msg)
  }

  lemma IdentifyingIdsRepeatWhole(log: seq<Action>, n: nat, c: ClientId)
    requires IdsIdentify(log, c)
    ensures RepeatsWhole(log, n, c)
  {
  }

  ghost predicate First(log: seq<Action>, n: nat, c: ClientId, f: int) {
    && Alive(log, n, c, f)
    && forall i :: Alive(log, n, c, i) ==> f <= i
  }

  ghost predicate Closed(log: seq<Action>, n: nat, c: ClientId, w: int, f: int, v: Option<MessageColumns>) {
    if v.None? then forall i :: !Alive(log, n, c, i)
    else
      && Latest(log, n, c, w) && First(log, n, c, f)
      && v.value == log[w].msg.(facts := log[f].msg.facts)
  }

  lemma AliveExtends(log: seq<Action>, m: nat, n: nat, c: ClientId)
    requires n == m + 1 <= |log| && log[m] != Offline(c)
    ensures forall i :: Alive(log, n, c, i) ==> Alive(log, m, c, i) || (i == m && OnlineAt(log, c, m))
    ensures forall i :: Alive(log, m, c, i) ==> Alive(log, n, c, i)
    ensures OnlineAt(log, c, m) ==> Alive(log, n, c, m)
  {
  }

  /** One more online message is the latest unless it is older than the latest so far. */
  lemma OnlineExtends(log: seq<Action>, m: nat, n: nat, c: ClientId, w: int, f: int)
    requires n == m + 1 <= |log| && OnlineAt(log, c, m)
    ensures (forall i :: !Alive(log, m, c, i)) ==> Latest(log, n, c, m) && First(log, n, c, m)
    ensures Latest(log, m, c, w) ==> Latest(log, n, c, if log[m].msg.sent >= log[w].msg.sent then m else w)
    ensures First(log, m, c, f) ==> First(log, n, c, f)
  {
    AliveExtends(log, m, n, c);
  }

  lemma OthersExtend(log: seq<Action>, m: nat, n: nat, c: ClientId)
    requires n == m + 1 <= |log| && !OnlineAt(log, c, m)
    ensures log[m] == Offline(c) ==> forall i :: !Alive(log, n, c, i)
    ensures log[m] != Offline(c) ==> forall i :: Alive(log, n, c, i) <==> Alive(log, m, c, i)
    ensures log[m] != Offline(c) ==> forall i :: Latest(log, m, c, i) ==> Latest(log, n, c, i)
    ensures log[m] != Offline(c) ==> forall i :: First(log, m, c, i) ==> First(log, n, c, i)
  {
    if log[m] != Offline(c) { AliveExtends(log, m, n, c); }
  }

  /** After a failure-free pass a client has a row iff one of its online messages
      follows its last offline; the row is the latest of them, with the first one's facts. */
  lemma {:induction false} PassClosedForm(log: seq<Action>, n: nat, c: ClientId) returns (w: int, f: int)
    requires n <= |log| && RepeatsWhole(log, n, c)
    ensures Closed(log, n, c, w, f, Pass(log, {}, n, c))
  {
    w, f := 0, 0;
    if n > 0 {
      var m := n - 1;
      var v := Pass(log, {}, m, c);
      w, f := PassClosedForm(log, m, c);
      if OnlineAt(log, c, m) {
        OnlineExtends(log, m, n, c, w, f);
        if v.None? {
          w, f := m, m;
        } else if log[m].msg.sent >= v.value.sent {
          assert log[m].msg.id == v.value.id ==> SameButFacts(log[m].msg, log[w].msg);
          w := m;
        }
      } else {
        OthersExtend(log, m, n, c);
      }
    }
  }

  /** In particular when equal message ids mean equal messages. */
  lemma ClosedFormOfIdentifyingIds(log: seq<Action>, n: nat, c: ClientId) returns (w: int, f: int)
    requires n <= |log| && IdsIdentify(log, c)
    ensures Closed(log, n, c, w, f, Pass(log, {}, n, c))
  {
    IdentifyingIdsRepeatWhole(log, n, c);
    w, f := PassClosedForm(log, n, c);
  }

  /** The indices the closed form names are determined by the log alone. */
  lemma ClosedFormIsUnique(log: seq<Action>, n: nat, c: ClientId, w1: int, f1: int, w2: int, f2: int)
    requires Latest(log, n, c, w1) && Latest(log, n, c, w2)
    requires First(log, n, c, f1) && First(log, n, c, f2)
    ensures w1 == w2 && f1 == f2
  {
  }

  ghost predicate ClosedAt(log: seq<Action>, n: nat, c: ClientId)
    requires n <= |log|
  {
    exists w, f :: Closed(log, n, c, w, f, Pass(log, {}, n, c))
  }

  /** If the closed form holds before and after a message that repeats the latest id
      and is no older, then the message repeats the latest one whole. */
  lemma ClosedAroundRepeat(log: seq<Action>, k: nat, c: ClientId, w: int)
    requires OnlineAt(log, c, k) && Latest(log, k, c, w)
    requires ClosedAt(log, k, c) && ClosedAt(log, k + 1, c)
    requires log[k].msg.id == log[w].msg.id && log[k].msg.sent >= log[w].msg.sent
    ensures SameButFacts(log[k].msg, log[w].msg)
  {
    var v, v' := Pass(log, {}, k, c), Pass(log, {}, k + 1, c);
    var w0, f0 :| Closed(log, k, c, w0, f0, v);
    var w1, f1 :| Closed(log, k + 1, c, w1, f1, v');
    assert w0 == w && v' == v;
    assert Alive(log, k + 1, c, k);
    assert w1 != k ==> Alive(log, k, c, w1);
  }

  /** The closed form holds at every point of a log exactly when no message that reuses
      the latest id differs from the latest message, unless it is older. */
  lemma ClosedFormExactlyWhen(log: seq<Action>, c: ClientId)
    ensures (forall n :: 0 <= n <= |log| ==> ClosedAt(log, n, c)) <==> RepeatsWhole(log, |log|, c)
  {
    if forall n :: 0 <= n <= |log| ==> ClosedAt(log, n, c) {
      forall k, w | OnlineAt(log, c, k) && Latest(log, k, c, w)
                    && log[k].msg.id == log[w].msg.id && log[k].msg.sent >= log[w].msg.sent
        ensures SameButFacts(log[k].msg, log[w].msg)
      {
        ClosedAroundRepeat(log, k, c, w);
      }
    }
    if RepeatsWhole(log, |log|, c) {
      forall n | 0 <= n <= |log| ensures ClosedAt(log, n, c) {
        var w, f := PassClosedForm(log, n, c);
      }
    }
  }

  /** A client has a row iff it is online, whatever the ids. */
  lemma {:induction false} RowIffOnline(log: seq<Action>, n: nat, c: ClientId)
    requires n <= |log|
    ensures Pass(log, {}, n, c).Some? <==> exists i :: Alive(log, n, c, i)
  {
    if n > 0 {
      var m := n - 1;
      RowIffOnline(log, m, c);
      if log[n - 1].Online? && log[n - 1].client == c {
        assert Alive(log, n, c, n - 1);
      } else if log[n - 1] != Offline(c) {
        if i :| Alive(log, m, c, i) { assert Alive(log, n, c, i); }
        if i :| Alive(log, n, c, i) { assert Alive(log, m, c, i); }
      }
    }
  }

  /** A reused message id hides a later message: the closed form needs its premise. */
  lemma ReusedIdHidesLaterMessage()
    ensures exists log: seq<Action>, c ::
      && !IdsIdentify(log, c)
      && forall w, f :: !Closed(log, |log|, c, w, f, Pass(log, {}, |log|, c))
  {
    var m1 := MessageColumns("id", 1, Null, Null, Object(map[]));
    var m2 := m1.(sent := 2);
    var log := [Online("c", m1), Online("c", m2)];
    assert OnlineAt(log, "c", 0) && OnlineAt(log, "c", 1);
    assert Pass(log, {}, 1, "c") == Some(m1);
    assert Pass(log, {}, 2, "c") == Some(m1);
    assert Alive(log, 2, "c", 1);
    forall w, f ensures !Closed(log, |log|, "c", w, f, Pass(log, {}, |log|, "c")) {
    }
  }
}
