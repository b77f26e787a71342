/** MQTT topics: the verifier of incoming topics and the builder of outgoing ones. */
module Topics {
  import opened Domain

  // ----- strings.Split and its inverse -----

  function Split(s: string): (levels: seq<string>)
    ensures |levels| > 0
  {
    if s == "" then [""]
    else
      var rest := Split(s[1..]);
      if s[0] == '/' then [""] + rest else [[s[0]] + rest[0]] + rest[1..]
  }

  function Join(levels: seq<string>): string
    requires |levels| > 0
  {
    if |levels| == 1 then levels[0] else levels[0] + "/" + Join(levels[1..])
  }

  function PushChar(c: char, levels: seq<string>): seq<string>
    requires |levels| > 0
  {
    if c == '/' then [""] + levels else [[c] + levels[0]] + levels[1..]
  }

  lemma SplitPushed(c: char, s: string)
    ensures Split([c] + s) == PushChar(c, Split(s))
  {
    assert ([c] + s)[1..] == s;
  }

  lemma PushedApart(c: char, x: seq<string>, y: seq<string>)
    requires |x| > 0
    ensures PushChar(c, x + y) == PushChar(c, x) + y
  {
  }

  lemma {:induction false} SplitAtSlash(a: string, b: string)
    ensures Split(a + "/" + b) == Split(a) + Split(b)
  {
    if a == "" {
      SplitPushed('/', b);
      assert "" + "/" + b == ['/'] + b;
    } else {
      var rest := a[1..] + "/" + b;
      SplitAtSlash(a[1..], b);
      SplitPushed(a[0], a[1..]);
      SplitPushed(a[0], rest);
      assert a == [a[0]] + a[1..] && a + "/" + b == [a[0]] + rest;
      PushedApart(a[0], Split(a[1..]), Split(b));
    }
  }

  lemma {:induction false} SplitWithoutSlash(a: string)
    ensures |Split(a)| == 1 <==> '/' !in a
    ensures '/' !in a ==> Split(a) == [a]
  {
    if a != "" {
      SplitWithoutSlash(a[1..]);
      assert a == [a[0]] + a[1..];
    }
  }

  lemma {:induction false} SplitLevelsHaveNoSlash(s: string)
    ensures forall l :: l in Split(s) ==> '/' !in l
  {
    if s != "" { SplitLevelsHaveNoSlash(s[1..]); }
  }

  lemma {:induction false} JoinInvertsSplit(s: string)
    ensures Join(Split(s)) == s
  {
    if s != "" {
      JoinInvertsSplit(s[1..]);
      var rest := Split(s[1..]);
      if s[0] == '/' {
        assert Split(s)[1..] == rest;
      } else {
        assert Split(s)[1..] == rest[1..];
      }
    }
  }

  // ----- The verifier and the builder -----

  const DEFAULT_PREFIX := "redhat"

  /** The prefix that both constructors store. */
  function Prefix(configured: string): string {
    if configured != "" then configured else DEFAULT_PREFIX
  }

  datatype TopicType = ControlTopic | DataTopic

  function TypeName(kind: TopicType): string {
    match kind case ControlTopic => "control" case DataTopic => "data"
  }

  datatype Verified = Invalid | Incoming(kind: TopicType, client: ClientId)

  function VerifyIncomingTopic(prefix: string, topic: string): Verified {
    var items := Split(topic);
    if |items| != 5 then Invalid
    else if items[0] != prefix || items[1] != "insights" || items[4] != "out" then Invalid
    else if items[3] == "control" then Incoming(ControlTopic, items[2])
    else if items[3] == "data" then Incoming(DataTopic, items[2])
    else Invalid
  }

  function OutgoingTopic(prefix: string, kind: TopicType, client: ClientId): string {
    prefix + "/" + ("insights" + "/" + (client + "/" + (TypeName(kind) + "/" + "in")))
  }

  function IncomingTopic(prefix: string, kind: TopicType, client: ClientId): string {
    prefix + "/" + ("insights" + "/" + (client + "/" + (TypeName(kind) + "/" + "out")))
  }

  function IncomingWildcard(prefix: string, kind: TopicType): string {
    IncomingTopic(prefix, kind, "+")
  }

  /** Whether a topic filter matches a topic name, level by level:
      section 4.7.1 of MQTT Version 3.1.1. */
  predicate Matches(filter: seq<string>, topic: seq<string>) {
    if filter == [] then topic == []
    else if filter == ["#"] then true
    else topic != [] && (filter[0] == "+" || filter[0] == topic[0]) && Matches(filter[1..], topic[1..])
  }

  /** A topic name holds no wildcard characters. */
  predicate IsTopicName(topic: string) {
    '+' !in topic && '#' !in topic
  }

  /** A wildcard fills its level, and `#` comes last. */
  predicate ValidLevel(level: string, last: bool) {
    && ('+' in level ==> level == "+")
    && ('#' in level ==> level == "#" && last)
  }

  predicate ValidFilter(filter: seq<string>) {
    forall i :: 0 <= i < |filter| ==> ValidLevel(filter[i], i == |filter| - 1)
  }

  /** The broker delivers the topic; it refuses a filter that is not valid. */
  predicate Subscribed(prefix: string, kind: TopicType, topic: string) {
    var filter := Split(IncomingWildcard(prefix, kind));
    ValidFilter(filter) && Matches(filter, Split(topic))
  }

  lemma SplitFive(a: string, b: string, c: string, d: string, e: string)
    ensures Split(a + "/" + (b + "/" + (c + "/" + (d + "/" + e))))
         == Split(a) + (Split(b) + (Split(c) + (Split(d) + Split(e))))
  {
    var de := d + "/" + e;
    var cde := c + "/" + de;
    SplitAtSlash(d, e);
    SplitAtSlash(c, de);
    SplitAtSlash(b, cde);
    SplitAtSlash(a, b + "/" + cde);
  }

  lemma SplitWords(prefix: string, word: string, client: string, kind: string, end: string)
    requires '/' !in word && '/' !in kind && '/' !in end
    ensures Split(prefix + "/" + (word + "/" + (client + "/" + (kind + "/" + end))))
         == Split(prefix) + ([word] + (Split(client) + [kind, end]))
  {
    SplitFive(prefix, word, client, kind, end);
    SplitWithoutSlash(word);
    SplitWithoutSlash(kind);
    SplitWithoutSlash(end);
    assert [kind] + [end] == [kind, end];
  }

  lemma SplitTopic(prefix: string, client: string, kind: string, end: string)
    requires '/' !in kind && '/' !in end
    ensures Split(prefix + "/" + ("insights" + "/" + (client + "/" + (kind + "/" + end))))
         == Split(prefix) + (["insights"] + (Split(client) + [kind, end]))
  {
    SplitWords(prefix, "insights", client, kind, end);
  }

  lemma SplitWildcard(prefix: string, kind: TopicType)
    ensures Split(IncomingWildcard(prefix, kind)) == Split(prefix) + ["insights", "+", TypeName(kind), "out"]
  {
    SplitTopic(prefix, "+", TypeName(kind), "out");
    SplitWithoutSlash("+");
  }

  lemma {:induction false} MatchesLevelwise(filter: seq<string>, topic: seq<string>)
    requires filter == [] || filter[|filter| - 1] != "#"
    ensures Matches(filter, topic) <==>
            |topic| == |filter| && forall i :: 0 <= i < |filter| ==> filter[i] == "+" || filter[i] == topic[i]
  {
    if filter != [] && topic != [] {
      MatchesLevelwise(filter[1..], topic[1..]);
      if Matches(filter, topic) {
        forall i | 0 <= i < |filter| ensures filter[i] == "+" || filter[i] == topic[i] {
          if i > 0 { assert filter[i] == filter[1..][i - 1] && topic[i] == topic[1..][i - 1]; }
        }
      }
    }
  }

  /** The prefix may stand at the head of a filter. */
  predicate ValidPrefix(prefix: string) {
    forall level :: level in Split(prefix) ==> ValidLevel(level, false)
  }

  lemma TypeNameIsPlain(kind: TopicType)
    ensures '/' !in TypeName(kind) && IsTopicName(TypeName(kind))
  {
  }

  lemma SubscriptionIsValid(prefix: string, kind: TopicType)
    ensures ValidFilter(Split(IncomingWildcard(prefix, kind))) <==> ValidPrefix(prefix)
  {
    SplitWildcard(prefix, kind);
    TypeNameIsPlain(kind);
    TailIsValid(TypeName(kind));
    HeadIsValid(Split(prefix), ["insights", "+", TypeName(kind), "out"]);
  }

  lemma TailIsValid(name: string)
    requires IsTopicName(name)
    ensures ValidFilter(["insights", "+", name, "out"])
  {
  }

  lemma HeadIsValid(head: seq<string>, tail: seq<string>)
    requires |tail| > 0 && ValidFilter(tail)
    ensures ValidFilter(head + tail) <==> forall level :: level in head ==> ValidLevel(level, false)
  {
    var all := head + tail;
    if ValidFilter(all) {
      forall level | level in head ensures ValidLevel(level, false) {
        var i :| 0 <= i < |head| && head[i] == level;
        assert all[i] == level;
      }
    }
    if forall level :: level in head ==> ValidLevel(level, false) {
      forall i | 0 <= i < |all| ensures ValidLevel(all[i], i == |all| - 1) {
        if i < |head| { assert all[i] == head[i]; } else { assert all[i] == tail[i - |head|]; }
      }
    }
  }

  /** With a prefix of one level that is not the wildcard, a topic name is accepted with a
      type exactly when that type's subscription delivers it; and for any topic the client
      is the one that it is printed with. */
  lemma AcceptedIffSubscribed(prefix: string, kind: TopicType, topic: string)
    requires '/' !in prefix && prefix != "+"
    ensures IsTopicName(topic) ==>
              ((exists c :: VerifyIncomingTopic(prefix, topic) == Incoming(kind, c)) <==> Subscribed(prefix, kind, topic))
    ensures forall c :: VerifyIncomingTopic(prefix, topic) == Incoming(kind, c) <==>
                        '/' !in c && topic == IncomingTopic(prefix, kind, c)
  {
    forall c
      ensures VerifyIncomingTopic(prefix, topic) == Incoming(kind, c) <==>
              '/' !in c && topic == IncomingTopic(prefix, kind, c)
    {
      AcceptedRebuilds(prefix, kind, topic, c);
    }
    SubscribedLevels(prefix, kind, topic);
    var items := Split(topic);
    if Subscribed(prefix, kind, topic) {
      assert VerifyIncomingTopic(prefix, topic) == Incoming(kind, items[2]);
    }
    if c :| IsTopicName(topic) && VerifyIncomingTopic(prefix, topic) == Incoming(kind, c) {
      PrefixOfTopicName(prefix, kind, c);
      SubscriptionIsValid(prefix, kind);
    }
  }

  lemma PrefixOfTopicName(prefix: string, kind: TopicType, c: ClientId)
    requires '/' !in prefix && IsTopicName(IncomingTopic(prefix, kind, c))
    ensures ValidPrefix(prefix)
  {
    SplitWithoutSlash(prefix);
    var topic := IncomingTopic(prefix, kind, c);
    assert topic[..|prefix|] == prefix;
    assert forall ch :: ch in prefix ==> ch in topic;
  }

  lemma SubscribedLevels(prefix: string, kind: TopicType, topic: string)
    requires '/' !in prefix && prefix != "+"
    ensures Matches(Split(IncomingWildcard(prefix, kind)), Split(topic)) <==>
            var items := Split(topic);
            |items| == 5 && items[0] == prefix && items[1] == "insights" && items[3] == TypeName(kind) && items[4] == "out"
  {
    SplitWildcard(prefix, kind);
    SplitWithoutSlash(prefix);
    FiveLevels(prefix, TypeName(kind), Split(IncomingWildcard(prefix, kind)), Split(topic));
  }

  lemma FiveLevels(prefix: string, kind: string, filter: seq<string>, items: seq<string>)
    requires filter == [prefix, "insights", "+", kind, "out"] && prefix != "+" && kind != "+"
    ensures Matches(filter, items) <==>
            |items| == 5 && items[0] == prefix && items[1] == "insights" && items[3] == kind && items[4] == "out"
  {
    MatchesLevelwise(filter, items);
    if |items| == 5 {
      assert filter[0] == prefix && filter[1] == "insights" && filter[2] == "+" && filter[3] == kind && filter[4] == "out";
    }
  }

  lemma SplitIncoming(prefix: string, kind: TopicType, c: ClientId)
    requires '/' !in prefix && '/' !in c
    ensures Split(IncomingTopic(prefix, kind, c)) == [prefix, "insights", c, TypeName(kind), "out"]
  {
    SplitTopic(prefix, c, TypeName(kind), "out");
    SplitWithoutSlash(prefix);
    SplitWithoutSlash(c);
  }

  /** Parsing and printing invert each other. */
  lemma AcceptedRebuilds(prefix: string, kind: TopicType, topic: string, c: ClientId)
    requires '/' !in prefix
    ensures VerifyIncomingTopic(prefix, topic) == Incoming(kind, c) <==>
            '/' !in c && topic == IncomingTopic(prefix, kind, c)
  {
    if '/' !in c {
      SplitIncoming(prefix, kind, c);
      if VerifyIncomingTopic(prefix, topic) == Incoming(kind, c) {
        assert Split(topic) == [prefix, "insights", c, TypeName(kind), "out"];
        JoinInvertsSplit(topic);
        JoinInvertsSplit(IncomingTopic(prefix, kind, c));
      }
    } else {
      SplitLevelsHaveNoSlash(topic);
    }
  }

  lemma {:induction false} SplitInvertsJoin(levels: seq<string>)
    requires |levels| > 0 && forall l :: l in levels ==> '/' !in l
    ensures Split(Join(levels)) == levels
  {
    SplitWithoutSlash(levels[0]);
    if |levels| > 1 {
      SplitInvertsJoin(levels[1..]);
      SplitAtSlash(levels[0], Join(levels[1..]));
      assert levels == [levels[0]] + levels[1..];
    }
  }

  lemma {:induction false} JoinedTopicName(levels: seq<string>)
    requires |levels| > 0 && forall l :: l in levels ==> IsTopicName(l)
    ensures IsTopicName(Join(levels))
  {
    assert IsTopicName(levels[0]);
    if |levels| > 1 {
      JoinedTopicName(levels[1..]);
      var rest := Join(levels[1..]);
      assert Join(levels) == levels[0] + "/" + rest;
      forall ch | ch in Join(levels) ensures ch != '+' && ch != '#' {
        assert ch in levels[0] || ch == '/' || ch in rest;
      }
    }
  }

  /** A topic's levels that a filter's levels match. */
  function Ground(filter: seq<string>): (levels: seq<string>)
    ensures |levels| == |filter|
    ensures forall i :: 0 <= i < |filter| ==> levels[i] == if filter[i] == "+" then "a" else filter[i]
  {
    if filter == [] then [] else [if filter[0] == "+" then "a" else filter[0]] + Ground(filter[1..])
  }

  lemma GroundIsPlain(filter: seq<string>)
    requires forall l :: l in filter ==> '/' !in l && ValidLevel(l, false)
    ensures forall l :: l in Ground(filter) ==> '/' !in l && IsTopicName(l)
    ensures Matches(filter, Ground(filter))
  {
    var levels := Ground(filter);
    forall l | l in levels ensures '/' !in l && IsTopicName(l) {
      var i :| 0 <= i < |levels| && levels[i] == l;
      assert filter[i] in filter;
    }
    if filter != [] { assert filter[|filter| - 1] in filter; }
    MatchesLevelwise(filter, levels);
  }

  /** A valid prefix of several levels or of the wildcard subscribes to a topic that the
      verifier does not accept. */
  lemma PrefixDiffers(prefix: string, kind: TopicType) returns (topic: string)
    requires ValidPrefix(prefix) && ('/' in prefix || prefix == "+")
    ensures IsTopicName(topic) && Subscribed(prefix, kind, topic)
    ensures VerifyIncomingTopic(prefix, topic) == Invalid
  {
    var filter := Split(IncomingWildcard(prefix, kind));
    SplitWildcard(prefix, kind);
    SplitLevelsHaveNoSlash(prefix);
    SubscriptionIsValid(prefix, kind);
    TypeNameIsPlain(kind);
    WildcardLevels(prefix, kind, filter);
    GroundIsPlain(filter);
    topic := Join(Ground(filter));
    SplitInvertsJoin(Ground(filter));
    JoinedTopicName(Ground(filter));
    SplitWithoutSlash(prefix);
    assert filter[0] == Split(prefix)[0];
  }

  lemma WildcardLevels(prefix: string, kind: TopicType, filter: seq<string>)
    requires ValidPrefix(prefix) && forall l :: l in Split(prefix) ==> '/' !in l
    requires filter == Split(prefix) + ["insights", "+", TypeName(kind), "out"]
    ensures forall l :: l in filter ==> '/' !in l && ValidLevel(l, false)
  {
    TypeNameIsPlain(kind);
    forall l | l in filter ensures '/' !in l && ValidLevel(l, false) {
      if l !in Split(prefix) { assert l == "insights" || l == "+" || l == TypeName(kind) || l == "out"; }
    }
  }

  /** A prefix of several levels never passes the verifier. */
  lemma DeepPrefixNeverAccepted(prefix: string, topic: string)
    requires '/' in prefix
    ensures VerifyIncomingTopic(prefix, topic) == Invalid
  {
    SplitLevelsHaveNoSlash(topic);
  }

  /** On topic names the verifier agrees with the subscriptions exactly when the prefix is
      a single level and not the wildcard, or cannot be subscribed to at all. */
  lemma VerifierAgreesExactlyWhen(prefix: string)
    ensures (forall kind, topic :: IsTopicName(topic) ==>
               ((exists c :: VerifyIncomingTopic(prefix, topic) == Incoming(kind, c)) <==> Subscribed(prefix, kind, topic)))
            <==> (('/' !in prefix && prefix != "+") || !ValidPrefix(prefix))
  {
    if '/' !in prefix && prefix != "+" {
      forall kind, topic | IsTopicName(topic)
        ensures (exists c :: VerifyIncomingTopic(prefix, topic) == Incoming(kind, c)) <==> Subscribed(prefix, kind, topic)
      {
        AcceptedIffSubscribed(prefix, kind, topic);
      }
    } else if ValidPrefix(prefix) {
      var topic := PrefixDiffers(prefix, ControlTopic);
    } else {
      SplitWithoutSlash(prefix);
      forall kind, topic ensures VerifyIncomingTopic(prefix, topic) == Invalid && !Subscribed(prefix, kind, topic) {
        DeepPrefixNeverAccepted(prefix, topic);
        SubscriptionIsValid(prefix, kind);
      }
    }
  }

  /** No topic that the connector publishes on is accepted as incoming, whatever the client id. */
  lemma OutgoingIsNeverAccepted(prefix: string, kind: TopicType, client: ClientId)
    ensures VerifyIncomingTopic(prefix, OutgoingTopic(prefix, kind, client)) == Invalid
  {
    SplitTopic(prefix, client, TypeName(kind), "in");
    var items := Split(OutgoingTopic(prefix, kind, client));
    assert items[|items| - 1] == "in";
  }

  lemma Spelled(a: string, b: string, c: string, d: string)
    ensures a + "/" + ("insights" + "/" + (b + "/" + (c + "/" + d))) == a + "/insights/" + b + ("/" + c + "/" + d)
  {
    var tail := "/" + c + "/" + d;
    assert b + "/" + (c + "/" + d) == b + tail;
    assert "/insights/" == "/" + "insights" + "/";
    assert a + "/" + ("insights" + "/" + (b + tail)) == a + ("/" + "insights" + "/") + b + tail;
  }

  /** The topics spelled out. */
  lemma TopicsSpelledOut(prefix: string, client: ClientId)
    ensures OutgoingTopic(prefix, ControlTopic, client) == prefix + "/insights/" + client + "/control/in"
    ensures OutgoingTopic(prefix, DataTopic, client) == prefix + "/insights/" + client + "/data/in"
    ensures IncomingTopic(prefix, ControlTopic, client) == prefix + "/insights/" + client + "/control/out"
    ensures IncomingTopic(prefix, DataTopic, client) == prefix + "/insights/" + client + "/data/out"
  {
    SpelledAs(prefix, client, "control", "in", "/control/in");
    SpelledAs(prefix, client, "data", "in", "/data/in");
    SpelledAs(prefix, client, "control", "out", "/control/out");
    SpelledAs(prefix, client, "data", "out", "/data/out");
  }

  lemma SpelledAs(a: string, b: string, c: string, d: string, tail: string)
    requires tail == "/" + c + "/" + d
    ensures a + "/" + ("insights" + "/" + (b + "/" + (c + "/" + d))) == a + "/insights/" + b + tail
  {
    Spelled(a, b, c, d);
  }

  lemma WildcardsSpelledOut(prefix: string)
    ensures IncomingWildcard(prefix, ControlTopic) == prefix + "/insights/" + "+" + "/control/out"
    ensures IncomingWildcard(prefix, DataTopic) == prefix + "/insights/" + "+" + "/data/out"
  {
    TopicsSpelledOut(prefix, "+");
  }

  /** An outgoing topic names its kind and its client, and no two are the same. */
  lemma OutgoingIsInjective(prefix: string, kind1: TopicType, client1: ClientId, kind2: TopicType, client2: ClientId)
    requires '/' !in client1 && '/' !in client2
    requires OutgoingTopic(prefix, kind1, client1) == OutgoingTopic(prefix, kind2, client2)
    ensures kind1 == kind2 && client1 == client2
  {
    OutgoingLevels(prefix, kind1, client1);
    OutgoingLevels(prefix, kind2, client2);
    var n := |Split(prefix)|;
    var levels := Split(OutgoingTopic(prefix, kind1, client1));
    assert levels[n + 1] == client1 && levels[n + 1] == client2;
    assert levels[n + 2] == TypeName(kind1) && levels[n + 2] == TypeName(kind2);
  }

  lemma OutgoingLevels(prefix: string, kind: TopicType, client: ClientId)
    requires '/' !in client
    ensures Split(OutgoingTopic(prefix, kind, client)) == Split(prefix) + ["insights", client, TypeName(kind), "in"]
  {
    TypeNameIsPlain(kind);
    SplitTopic(prefix, client, TypeName(kind), "in");
    SplitWithoutSlash(client);
  }
}
