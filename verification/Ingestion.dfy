/** The ordering argument from the topic to the table: the MQTT consumer keys its messages
    by client, Kafka keeps the order of a key's partition, the consumers read the topic
    again, and the table shows the messages in the order in which they were logged. */
module Ingestion {
  import opened Domain
  import opened MessageLog
  import ControlMessages
  import opened System
  import Inventory
  import ExactlyOnce
  import Tenancy

  type KafkaMessage = ControlMessages.KafkaMessage

  /** The messages whose key belongs to partition `p`, in their order. */
  function PartitionLog(messages: seq<KafkaMessage>, partitionOf: ClientId -> nat, p: nat): seq<KafkaMessage> {
    if messages == [] then []
    else
      var n := |messages| - 1;
      var before := PartitionLog(messages[..n], partitionOf, p);
      if partitionOf(messages[n].key) == p then before + [messages[n]] else before
  }

  /** What a consumer makes of a log. */
  function Actions(prefix: string, messages: seq<KafkaMessage>, validUUID: string -> bool): (out: seq<Action>)
    ensures |out| == |messages|
    ensures forall i :: 0 <= i < |messages| ==> out[i] == ControlMessages.Interpret(prefix, messages[i], validUUID)
  {
    if messages == [] then []
    else
      var n := |messages| - 1;
      Actions(prefix, messages[..n], validUUID) + [ControlMessages.Interpret(prefix, messages[n], validUUID)]
  }

  /** The consumers read the partitions of a log. */
  ghost predicate Consumes(cfg: Config, prefix: string, messages: seq<KafkaMessage>, validUUID: string -> bool) {
    && (forall c :: cfg.partitionOf(c) < |cfg.logs|)
    && forall p :: 0 <= p < |cfg.logs| ==>
                     cfg.logs[p] == Actions(prefix, PartitionLog(messages, cfg.partitionOf, p), validUUID)
  }

  /** What `KafkaLog.Keyed` says of the log. */
  ghost predicate AllKeyed(prefix: string, messages: seq<KafkaMessage>) {
    forall i :: 0 <= i < |messages| ==> ControlMessages.KeyedMessage(prefix, messages[i])
  }

  lemma {:induction false} PartitionLogIsFiltered(messages: seq<KafkaMessage>, partitionOf: ClientId -> nat, p: nat)
    ensures forall m :: m in PartitionLog(messages, partitionOf, p) <==> m in messages && partitionOf(m.key) == p
  {
    if messages != [] {
      var n := |messages| - 1;
      PartitionLogIsFiltered(messages[..n], partitionOf, p);
      assert messages == messages[..n] + [messages[n]];
    }
  }

  /** A keyed log, partitioned by key and read through its topic headers, puts every
      client's messages in the client's partition. */
  lemma KeyedLogIsPartitioned(cfg: Config, prefix: string, messages: seq<KafkaMessage>, validUUID: string -> bool)
    requires AllKeyed(prefix, messages) && Consumes(cfg, prefix, messages, validUUID)
    ensures Partitioned(cfg)
  {
    forall p, i | 0 <= p < |cfg.logs| && 0 <= i < |cfg.logs[p]| ensures InPartition(cfg, p, cfg.logs[p][i]) {
      var m := PartitionLog(messages, cfg.partitionOf, p)[i];
      PartitionLogIsFiltered(messages, cfg.partitionOf, p);
      assert m in PartitionLog(messages, cfg.partitionOf, p);
      ControlMessages.ActionFollowsKey(prefix, m, validUUID);
    }
  }

  /** Messages that the handler's type assertions accept give well-typed columns. */
  lemma ReadLogIsWellTyped(cfg: Config, prefix: string, messages: seq<KafkaMessage>, validUUID: string -> bool)
    requires Consumes(cfg, prefix, messages, validUUID)
    requires forall i :: 0 <= i < |messages| ==> ControlMessages.MessageWellTyped(prefix, messages[i])
    ensures Tenancy.LogsWellTyped(cfg)
  {
    forall p: nat, k: nat | ActionAt(cfg, p, k).Online? ensures Inventory.ColumnsWellTyped(ActionAt(cfg, p, k).msg) {
      var m := PartitionLog(messages, cfg.partitionOf, p)[k];
      PartitionLogIsFiltered(messages, cfg.partitionOf, p);
      assert m in PartitionLog(messages, cfg.partitionOf, p);
      ControlMessages.ActionWellTyped(prefix, m, validUUID);
    }
  }

  lemma {:induction false} PassOfExtension(log: seq<Action>, longer: seq<Action>, lost: set<nat>, n: nat, c: ClientId)
    requires log <= longer && n <= |log|
    ensures Pass(log, lost, n, c) == Pass(longer, lost, n, c)
  {
    if n > 0 { PassOfExtension(log, longer, lost, n - 1, c); }
  }

  /** A pass over all of a log but the lost messages. */
  function PassOver(log: seq<Action>, lost: set<nat>, c: ClientId): Option<MessageColumns> {
    Pass(log, lost, |log|, c)
  }

  lemma PassOneMore(log: seq<Action>, a: Action, lost: set<nat>, c: ClientId)
    ensures PassOver(log + [a], lost, c) == if |log| in lost then PassOver(log, lost, c) else Apply(PassOver(log, lost, c), a, c)
  {
    PassOfExtension(log, log + [a], lost, |log|, c);
  }

  /** Where in the whole log the lost messages of a partition lie. */
  function LostInLog(messages: seq<KafkaMessage>, partitionOf: ClientId -> nat, p: nat, lost: set<nat>): set<nat> {
    set i: nat | i < |messages| && partitionOf(messages[i].key) == p && |PartitionLog(messages[..i], partitionOf, p)| in lost
  }

  lemma LostBefore(messages: seq<KafkaMessage>, partitionOf: ClientId -> nat, p: nat, lost: set<nat>, n: nat, i: nat)
    requires i < n <= |messages|
    ensures i in LostInLog(messages[..n], partitionOf, p, lost) <==> i in LostInLog(messages, partitionOf, p, lost)
  {
    assert messages[..n][..i] == messages[..i];
  }

  lemma PassBefore(log: seq<Action>, messages: seq<KafkaMessage>, partitionOf: ClientId -> nat, p: nat, lost: set<nat>,
                   n: nat, c: ClientId)
    requires |log| == n <= |messages|
    ensures PassOver(log, LostInLog(messages[..n], partitionOf, p, lost), c)
         == PassOver(log, LostInLog(messages, partitionOf, p, lost), c)
  {
    var l1, l2 := LostInLog(messages[..n], partitionOf, p, lost), LostInLog(messages, partitionOf, p, lost);
    forall i | 0 <= i < n ensures i in l1 <==> i in l2 { LostBefore(messages, partitionOf, p, lost, n, i); }
    PassIgnoresLaterLosses(log, l1, l2, n, c);
  }

  /** For a client its own partition says as much as the whole log. */
  lemma {:induction false} PartitionKeepsOrder(prefix: string, messages: seq<KafkaMessage>, validUUID: string -> bool,
                                               partitionOf: ClientId -> nat, lost: set<nat>, c: ClientId)
    requires AllKeyed(prefix, messages)
    ensures PassOver(Actions(prefix, PartitionLog(messages, partitionOf, partitionOf(c)), validUUID), lost, c)
         == PassOver(Actions(prefix, messages, validUUID), LostInLog(messages, partitionOf, partitionOf(c), lost), c)
  {
    if messages != [] {
      var n, p := |messages| - 1, partitionOf(c);
      var m := messages[n];
      var a := ControlMessages.Interpret(prefix, m, validUUID);
      var part, before := PartitionLog(messages[..n], partitionOf, p), Actions(prefix, messages[..n], validUUID);
      var lostHere := LostInLog(messages, partitionOf, p, lost);
      PartitionKeepsOrder(prefix, messages[..n], validUUID, partitionOf, lost, c);
      PassBefore(before, messages, partitionOf, p, lost, n, c);
      ControlMessages.ActionFollowsKey(prefix, m, validUUID);
      PassOneMore(before, a, lostHere, c);
      if partitionOf(m.key) == p {
        assert (part + [m])[..|part|] == part;
        PassOneMore(Actions(prefix, part, validUUID), a, lost, c);
        assert n in lostHere <==> |part| in lost;
      }
    }
  }

  /** The effect of a run in the order of the log that the MQTT consumer wrote: once a
      client's partition is committed, whatever crashed or failed on the way and however
      many partitions there are, its row shows one clean pass over that whole log, without
      the messages that the partition has lost. */
  lemma LogOrderDecides(cfg: Config, prefix: string, messages: seq<KafkaMessage>, validUUID: string -> bool,
                        es: seq<Event>, c: ClientId)
    requires AllKeyed(prefix, messages) && Consumes(cfg, prefix, messages, validUUID)
    requires ExactlyOnce.FullyCommitted(cfg, Reached(cfg, es), cfg.partitionOf(c))
    ensures var p := cfg.partitionOf(c);
            var lost := LostInLog(messages, cfg.partitionOf, p, Reached(cfg, es).workers[p].lost);
            ControlMessages.Columns(Reached(cfg, es).rows, c) == PassOver(Actions(prefix, messages, validUUID), lost, c)
  {
    KeyedLogIsPartitioned(cfg, prefix, messages, validUUID);
    ExactlyOnce.CommittedLogIsAppliedOnce(cfg, es, c);
    PartitionKeepsOrder(prefix, messages, validUUID, cfg.partitionOf, Reached(cfg, es).workers[cfg.partitionOf(c)].lost, c);
  }

  /** If the partition has lost none and equal message ids mean equal messages, that is the
      client's latest online message since it last went offline, with the facts of the first. */
  lemma LatestMessageWins(cfg: Config, prefix: string, messages: seq<KafkaMessage>, validUUID: string -> bool,
                          es: seq<Event>, c: ClientId) returns (w: int, f: int)
    requires AllKeyed(prefix, messages) && Consumes(cfg, prefix, messages, validUUID)
    requires IdsIdentify(Actions(prefix, messages, validUUID), c)
    requires ExactlyOnce.FullyCommitted(cfg, Reached(cfg, es), cfg.partitionOf(c))
    requires Reached(cfg, es).workers[cfg.partitionOf(c)].lost == {}
    ensures Closed(Actions(prefix, messages, validUUID), |messages|, c, w, f,
                   ControlMessages.Columns(Reached(cfg, es).rows, c))
  {
    LogOrderDecides(cfg, prefix, messages, validUUID, es, c);
    assert LostInLog(messages, cfg.partitionOf, cfg.partitionOf(c), {}) == {};
    w, f := ClosedFormOfIdentifyingIds(Actions(prefix, messages, validUUID), |messages|, c);
  }
}
