/** Topic subscriptions: the two key sets and the callback map of the client, the bindings the
    broker holds, and what reconnecting restores. */
module Subscriptions {
  import opened Messages
  import opened TopicPattern
  import opened TopicDispatch

  const P2P_QUEUE := "p2pmsgque"
  const TOPIC_QUEUE := "topicmsgque"
  const BROADCAST_QUEUE := "broadcastmsgque"

  // ---------------------------------------------------------------- the broker

  /** The queues declared by this client and their bindings, as (queue, routing key). The queues are
      auto-delete: they go when the client's connection goes. */
  datatype Broker = Broker(queues: set<string>, bindings: set<(string, string)>)

  const NO_QUEUES := Broker({}, {})

  function Declare(b: Broker, q: string, lost: bool): Broker {
    if lost then b else b.(queues := b.queues + {q})
  }

  function Bind(b: Broker, q: string, key: string, lost: bool): Broker {
    if lost || q !in b.queues then b else b.(bindings := b.bindings + {(q, key)})
  }

  function Unbind(b: Broker, q: string, key: string, lost: bool): Broker {
    if lost then b else b.(bindings := b.bindings - {(q, key)})
  }

  function BoundKeys(b: Broker, q: string): set<string> {
    set x | x in b.bindings && x.0 == q :: x.1
  }

  // ---------------------------------------------------------------- the client

  datatype Subscriber = Subscriber(
    mode: ExchangeType,
    moduleName: string,
    connected: bool,            // there is a connection object, alive or dead
    queueName: string,
    queueNameSelf: string,
    share: set<string>,         // bound_routing_keys_share
    self: set<string>,          // bound_routing_keys_self
    callbacks: seq<Registration>,
    broker: Broker)

  function Fresh(mode: ExchangeType, moduleName: string): Subscriber {
    Subscriber(mode, moduleName, false, "", "", {}, {}, [], NO_QUEUES)
  }

  datatype Stage = SocketFails | LoginFails | ChannelFails | Opened

  /** What the environment does to one connection attempt: how far it gets, which declarations and
      bind calls are lost (`lostOwn` is the one made while setting up, `lostBinds` those made when
      rebinding), and the host name, process id and time read for the self queue's name. */
  datatype Attempt = Attempt(
    stage: Stage, lostQueue: bool, lostQueueSelf: bool, lostOwn: bool, lostBinds: set<(string, string)>,
    host: string, pid: string, stamp: string)

  function SelfSuffix(a: Attempt): string {
    a.host + "-" + a.pid + "-" + a.stamp
  }

  /** The names `SetupExchgQueChannel` gives; the self queue is named once. */
  function Named(c: Subscriber, a: Attempt): Subscriber {
    match c.mode
    case P2PType => c.(queueName := c.moduleName + "-" + P2P_QUEUE)
    case TopicType =>
      c.(queueName := c.moduleName + "-" + TOPIC_QUEUE,
         queueNameSelf := if c.queueNameSelf == "" then c.moduleName + "-" + SelfSuffix(a) else c.queueNameSelf)
    case BroadcastType => c.(queueName := c.moduleName + "-" + BROADCAST_QUEUE)
  }

  function Declared(c: Subscriber, a: Attempt): Subscriber {
    var b := Declare(c.broker, c.queueName, a.lostQueue);
    c.(broker := if c.mode.TopicType? then Declare(b, c.queueNameSelf, a.lostQueueSelf) else b)
  }

  /** The one key a point-to-point or broadcast queue is bound to. */
  function OwnKey(c: Subscriber): string {
    if c.mode.P2PType? then c.moduleName else ""
  }

  function BindOwn(c: Subscriber, lost: bool): Subscriber {
    if c.mode.TopicType? then c else c.(broker := Bind(c.broker, c.queueName, OwnKey(c), lost))
  }

  function Setup(c: Subscriber, a: Attempt): (Subscriber, bool) {
    var named := Named(c, a);
    if a.stage.ChannelFails? then (named, false)
    else
      var d := BindOwn(Declared(named, a), a.lostOwn);
      (if c.mode.P2PType? then d.(share := d.share + {d.moduleName}) else d, true)
  }

  /** `ConnectInit`: refuses while there is a connection object, even a dead one. */
  function Connect(c: Subscriber, a: Attempt): (Subscriber, bool) {
    if c.connected then (c, false)
    else
      var linked := c.(connected := true);
      if a.stage.SocketFails? || a.stage.LoginFails? then (linked, false) else Setup(linked, a)
  }

  function Rebind(b: Broker, q: string, keys: set<string>, a: Attempt): Broker {
    if q !in b.queues then b
    else b.(bindings := b.bindings + set k | k in keys && (q, k) !in a.lostBinds :: (q, k))
  }

  /** `ReconnectProc`. Closing the old connection makes the broker drop its queues. */
  function Reconnect(c: Subscriber, a: Attempt): Subscriber {
    var closed := if c.connected then c.(connected := false, broker := NO_QUEUES) else c;
    var (d, ok) := Connect(closed, a);
    if !ok then d
    else if d.mode.TopicType? then
      d.(broker := Rebind(Rebind(d.broker, d.queueName, d.share, a), d.queueNameSelf, d.self, a))
    else BindOwn(d, (d.queueName, OwnKey(d)) in a.lostBinds)
  }

  function Subscribe(c: Subscriber, topic: string, instance: bool, cb: Callback, lost: bool): (Subscriber, bool) {
    if !c.mode.TopicType? || topic == "" then (c, false)
    else
      var d := if instance
               then c.(self := c.self + {topic}, broker := Bind(c.broker, c.queueNameSelf, topic, lost))
               else c.(share := c.share + {topic}, broker := Bind(c.broker, c.queueName, topic, lost));
      (d.(callbacks := Put(d.callbacks, topic, cb)), true)
  }

  function Unsubscribe(c: Subscriber, topic: string, lost: bool): (Subscriber, bool) {
    if !c.mode.TopicType? || topic == "" then (c, false)
    else if topic in c.share then
      (c.(share := c.share - {topic}, broker := Unbind(c.broker, c.queueName, topic, lost),
          callbacks := Erase(c.callbacks, topic)), true)
    else if topic in c.self then
      (c.(self := c.self - {topic}, broker := Unbind(c.broker, c.queueNameSelf, topic, lost),
          callbacks := Erase(c.callbacks, topic)), true)
    else (c, false)
  }

  // ---------------------------------------------------------------- runs

  datatype Action =
    | DoInit(attempt: Attempt)
    | DoReconnect(attempt: Attempt)
    | DoSubscribe(topic: string, instance: bool, cb: Callback, lost: bool)
    | DoUnsubscribe(topic: string, lost: bool)
    | ConnectionDrops

  function Apply(c: Subscriber, e: Action): Subscriber {
    match e
    case DoInit(a) => Connect(c, a).0
    case DoReconnect(a) => Reconnect(c, a)
    case DoSubscribe(topic, instance, cb, lost) => Subscribe(c, topic, instance, cb, lost).0
    case DoUnsubscribe(topic, lost) => Unsubscribe(c, topic, lost).0
    case ConnectionDrops => c.(broker := NO_QUEUES)
  }

  function Run(c: Subscriber, es: seq<Action>): Subscriber {
    if es == [] then c else Apply(Run(c, es[..|es| - 1]), es[|es| - 1])
  }

  ghost predicate IsSelfName(name: string, moduleName: string) {
    exists a :: name == moduleName + "-" + SelfSuffix(a)
  }

  ghost predicate ClientInv(c: Subscriber, moduleName: string) {
    && c.mode.TopicType? && c.moduleName == moduleName
    && Sorted(c.callbacks)
    && Patterns(c.callbacks) <= c.share + c.self
    && (c.queueName != "" ==> c.queueName == moduleName + "-" + TOPIC_QUEUE)
    && (c.queueNameSelf != "" ==> IsSelfName(c.queueNameSelf, moduleName))
    && (!c.connected ==> c.broker == NO_QUEUES)
  }

  /** Connecting touches the connection, the names and the broker, and names the self queue once. */
  lemma ConnectKeeps(c: Subscriber, a: Attempt, moduleName: string)
    requires ClientInv(c, moduleName)
    ensures var d := Connect(c, a).0;
      && d.mode == c.mode && d.moduleName == c.moduleName && d.connected
      && d.share == c.share && d.self == c.self && d.callbacks == c.callbacks
      && (d.queueName != "" ==> d.queueName == moduleName + "-" + TOPIC_QUEUE)
      && (c.queueName != "" ==> d.queueName == c.queueName)
      && (d.queueNameSelf != "" ==> IsSelfName(d.queueNameSelf, moduleName))
      && (c.queueNameSelf != "" ==> d.queueNameSelf == c.queueNameSelf)
  {
  }

  lemma ReconnectKeeps(c: Subscriber, a: Attempt, moduleName: string)
    requires ClientInv(c, moduleName)
    ensures ClientInv(Reconnect(c, a), moduleName)
    ensures c.queueName != "" ==> Reconnect(c, a).queueName == c.queueName
    ensures c.queueNameSelf != "" ==> Reconnect(c, a).queueNameSelf == c.queueNameSelf
  {
    ConnectKeeps(if c.connected then c.(connected := false, broker := NO_QUEUES) else c, a, moduleName);
  }

  lemma SubscribeKeeps(c: Subscriber, topic: string, instance: bool, cb: Callback, lost: bool, moduleName: string)
    requires ClientInv(c, moduleName)
    ensures ClientInv(Subscribe(c, topic, instance, cb, lost).0, moduleName)
  {
    PutMembers(c.callbacks, topic, cb);
    PutPatterns(c.callbacks, topic, cb);
  }

  lemma UnsubscribeKeeps(c: Subscriber, topic: string, lost: bool, moduleName: string)
    requires ClientInv(c, moduleName)
    ensures ClientInv(Unsubscribe(c, topic, lost).0, moduleName)
  {
    EraseMembers(c.callbacks, topic);
    ErasePatterns(c.callbacks, topic);
  }

  lemma ApplyKeeps(c: Subscriber, e: Action, moduleName: string)
    requires ClientInv(c, moduleName)
    ensures ClientInv(Apply(c, e), moduleName)
    ensures c.queueName != "" ==> Apply(c, e).queueName == c.queueName
    ensures c.queueNameSelf != "" ==> Apply(c, e).queueNameSelf == c.queueNameSelf
  {
    match e
    case DoInit(a) => ConnectKeeps(c, a, moduleName);
    case DoReconnect(a) => ReconnectKeeps(c, a, moduleName);
    case DoSubscribe(topic, instance, cb, lost) => SubscribeKeeps(c, topic, instance, cb, lost, moduleName);
    case DoUnsubscribe(topic, lost) => UnsubscribeKeeps(c, topic, lost, moduleName);
    case ConnectionDrops =>
  }

  lemma {:induction false} ActionsKeep(moduleName: string, es: seq<Action>)
    ensures ClientInv(Run(Fresh(TopicType, moduleName), es), moduleName)
  {
    if es != [] {
      ActionsKeep(moduleName, es[..|es| - 1]);
      ApplyKeeps(Run(Fresh(TopicType, moduleName), es[..|es| - 1]), es[|es| - 1], moduleName);
    }
  }

  // ---------------------------------------------------------------- what holds over every run

  /** A callback is never registered for a topic the client does not hold. */
  lemma CallbacksAreHeld(moduleName: string, es: seq<Action>)
    ensures var c := Run(Fresh(TopicType, moduleName), es); Patterns(c.callbacks) <= c.share + c.self
  {
    ActionsKeep(moduleName, es);
  }

  /** Step i unsubscribes a topic that is held in both sets. */
  ghost predicate DoubleUnsubscribe(c: Subscriber, es: seq<Action>, i: nat) {
    && i < |es| && es[i].DoUnsubscribe? && es[i].topic != ""
    && es[i].topic in Run(c, es[..i]).share && es[i].topic in Run(c, es[..i]).self
  }

  ghost predicate Covered(c: Subscriber) {
    Patterns(c.callbacks) == c.share + c.self
  }

  lemma ReconnectKeepsTopics(c: Subscriber, a: Attempt, moduleName: string)
    requires ClientInv(c, moduleName)
    ensures var d := Reconnect(c, a); d.share == c.share && d.self == c.self && d.callbacks == c.callbacks
  {
    ConnectKeeps(if c.connected then c.(connected := false, broker := NO_QUEUES) else c, a, moduleName);
  }

  lemma CoveredByUnsubscribe(c: Subscriber, topic: string, lost: bool, moduleName: string)
    requires ClientInv(c, moduleName) && Covered(c)
    ensures Covered(Unsubscribe(c, topic, lost).0) <==> !(topic != "" && topic in c.share && topic in c.self)
  {
    ErasePatterns(c.callbacks, topic);
  }

  lemma CoveredByStep(c: Subscriber, e: Action, moduleName: string)
    requires ClientInv(c, moduleName) && Covered(c)
    ensures Covered(Apply(c, e)) <==>
      !(e.DoUnsubscribe? && e.topic != "" && e.topic in c.share && e.topic in c.self)
  {
    match e
    case DoInit(a) => ConnectKeeps(c, a, moduleName);
    case DoReconnect(a) => ReconnectKeepsTopics(c, a, moduleName);
    case DoSubscribe(topic, _, cb, _) => PutPatterns(c.callbacks, topic, cb);
    case DoUnsubscribe(topic, lost) => CoveredByUnsubscribe(c, topic, lost, moduleName);
    case ConnectionDrops =>
  }

  lemma {:induction false} CoveredWithoutDouble(moduleName: string, es: seq<Action>)
    requires forall i: nat :: !DoubleUnsubscribe(Fresh(TopicType, moduleName), es, i)
    ensures Covered(Run(Fresh(TopicType, moduleName), es))
  {
    if es != [] {
      var f := Fresh(TopicType, moduleName);
      var k := |es| - 1;
      forall i: nat ensures !DoubleUnsubscribe(f, es[..k], i) {
        if i < k { assert es[..k][..i] == es[..i] && !DoubleUnsubscribe(f, es, i); }
      }
      CoveredWithoutDouble(moduleName, es[..k]);
      ActionsKeep(moduleName, es[..k]);
      CoveredByStep(Run(f, es[..k]), es[k], moduleName);
      assert !DoubleUnsubscribe(f, es, k);
    }
  }

  /** Over every run that unsubscribes no doubly held topic, a key that a held topic matches has its one
      callback: the one registered for the least matching pattern. */
  lemma HeldTopicsAreDispatched(moduleName: string, es: seq<Action>, topic: string, key: string)
    returns (r: Registration)
    requires forall i: nat :: !DoubleUnsubscribe(Fresh(TopicType, moduleName), es, i)
    requires var c := Run(Fresh(TopicType, moduleName), es); topic in c.share + c.self && PatternMatch(topic, key)
    ensures Chosen(Run(Fresh(TopicType, moduleName), es).callbacks, key, r)
  {
    var c := Run(Fresh(TopicType, moduleName), es);
    CoveredWithoutDouble(moduleName, es);
    ActionsKeep(moduleName, es);
    var hit :| hit in c.callbacks && hit.pattern == topic;
    r := LeastMatch(c.callbacks, key, hit);
  }

  ghost predicate CoveredAt(moduleName: string, es: seq<Action>, n: nat)
    requires n <= |es|
  {
    Covered(Run(Fresh(TopicType, moduleName), es[..n]))
  }

  lemma DoubleUncovers(moduleName: string, es: seq<Action>, i: nat)
    requires DoubleUnsubscribe(Fresh(TopicType, moduleName), es, i)
    ensures !CoveredAt(moduleName, es, i) || !CoveredAt(moduleName, es, i + 1)
  {
    ActionsKeep(moduleName, es[..i]);
    assert es[..i + 1][..i] == es[..i];
    if CoveredAt(moduleName, es, i) {
      CoveredByStep(Run(Fresh(TopicType, moduleName), es[..i]), es[i], moduleName);
    }
  }

  /** Every held topic has its callback at every moment of a run exactly when the run never
      unsubscribes a topic that is held in both sets. */
  lemma CoveredExactlyWithoutDouble(moduleName: string, es: seq<Action>)
    ensures (forall n: nat :: n <= |es| ==> CoveredAt(moduleName, es, n))
       <==> forall i: nat :: !DoubleUnsubscribe(Fresh(TopicType, moduleName), es, i)
  {
    var f := Fresh(TopicType, moduleName);
    if i: nat :| DoubleUnsubscribe(f, es, i) {
      DoubleUncovers(moduleName, es, i);
    } else {
      forall n: nat | n <= |es| ensures CoveredAt(moduleName, es, n) {
        forall i: nat ensures !DoubleUnsubscribe(f, es[..n], i) {
          if i < n { assert es[..n][..i] == es[..i] && !DoubleUnsubscribe(f, es, i); }
        }
        CoveredWithoutDouble(moduleName, es[..n]);
      }
    }
  }

  const CONNECTED := Attempt(Opened, false, false, false, {}, "host", "1", "0")

  lemma OneEvent(c: Subscriber, es: seq<Action>, e: Action)
    ensures Run(c, es + [e]) == Apply(Run(c, es), e) && (es + [e])[..|es|] == es
  {
    assert (es + [e])[..|es|] == es;
  }

  /** Such a run: the topic stays held, and bound to the self queue, after its callback is gone. */
  lemma DoubleTopicLosesCallback(moduleName: string, cb: Callback) returns (es: seq<Action>)
    ensures |es| == 4 && DoubleUnsubscribe(Fresh(TopicType, moduleName), es, 3)
    ensures var c := Run(Fresh(TopicType, moduleName), es);
      c.share == {} && c.self == {"t"} && c.callbacks == [] && BoundKeys(c.broker, c.queueNameSelf) == {"t"}
  {
    var f := Fresh(TopicType, moduleName);
    var shared, own := DoSubscribe("t", false, cb, false), DoSubscribe("t", true, cb, false);
    SelfQueueIsOwn(moduleName, CONNECTED);
    OneEvent(f, [], DoInit(CONNECTED));
    OneEvent(f, [] + [DoInit(CONNECTED)], shared);
    OneEvent(f, [] + [DoInit(CONNECTED)] + [shared], own);
    var past := [] + [DoInit(CONNECTED)] + [shared] + [own];
    OneEvent(f, past, DoUnsubscribe("t", false));
    es := past + [DoUnsubscribe("t", false)];
    var c := Run(f, es);
    assert c.broker.bindings == {(c.queueNameSelf, "t")};
  }

  /** Unsubscribing succeeds exactly for a non-empty topic held in either set. */
  lemma UnsubscribeSucceeds(moduleName: string, es: seq<Action>, topic: string, lost: bool)
    ensures var c := Run(Fresh(TopicType, moduleName), es);
      Unsubscribe(c, topic, lost).1 <==> topic != "" && topic in c.share + c.self
  {
    ActionsKeep(moduleName, es);
  }

  /** Unsubscribing undoes subscribing to a topic not held before, whatever the broker heard. */
  lemma UnsubscribeUndoes(
      moduleName: string, es: seq<Action>, topic: string, instance: bool, cb: Callback, lost: bool, lost': bool)
    requires var c := Run(Fresh(TopicType, moduleName), es); topic != "" && topic !in c.share + c.self
    ensures var c := Run(Fresh(TopicType, moduleName), es);
      Unsubscribe(Subscribe(c, topic, instance, cb, lost).0, topic, lost').0.(broker := c.broker) == c
  {
    ActionsKeep(moduleName, es);
    var c := Run(Fresh(TopicType, moduleName), es);
    EraseUndoesPut(c.callbacks, topic, cb);
  }

  // ---------------------------------------------------------------- reconnecting

  /** The self queue's name holds a dash after the module's prefix, so it is never the shared queue's. */
  lemma SelfQueueIsOwn(moduleName: string, a: Attempt)
    ensures moduleName + "-" + SelfSuffix(a) != moduleName + "-" + TOPIC_QUEUE
  {
    var x, y := moduleName + "-" + SelfSuffix(a), moduleName + "-" + TOPIC_QUEUE;
    assert SelfSuffix(a)[|a.host|] == '-';
    assert x[|moduleName| + 1..] == SelfSuffix(a) && y[|moduleName| + 1..] == TOPIC_QUEUE;
    assert forall i :: 0 <= i < |TOPIC_QUEUE| ==> TOPIC_QUEUE[i] != '-';
  }

  ghost predicate Healed(c: Subscriber) {
    && BoundKeys(c.broker, c.queueName) == c.share
    && BoundKeys(c.broker, c.queueNameSelf) == c.self
    && forall x :: x in c.broker.bindings ==> x.0 == c.queueName || x.0 == c.queueNameSelf
  }

  /** The attempt brings the keys of one queue to the broker. */
  predicate Restores(a: Attempt, q: string, keys: set<string>, lostQueue: bool) {
    keys == {} || (a.stage.Opened? && !lostQueue && forall k :: k in keys ==> (q, k) !in a.lostBinds)
  }

  lemma NamesDiffer(moduleName: string, c: Subscriber, a: Attempt)
    requires ClientInv(c, moduleName)
    ensures Named(c, a).queueName == moduleName + "-" + TOPIC_QUEUE
    ensures Named(c, a).queueNameSelf != Named(c, a).queueName
  {
    if c.queueNameSelf == "" {
      SelfQueueIsOwn(moduleName, a);
    } else {
      assert IsSelfName(c.queueNameSelf, moduleName);
      var b :| c.queueNameSelf == moduleName + "-" + SelfSuffix(b);
      SelfQueueIsOwn(moduleName, b);
    }
  }

  /** What a reconnect leaves of one queue. */
  lemma ReconnectRebinds(moduleName: string, c: Subscriber, a: Attempt)
    requires ClientInv(c, moduleName)
    ensures var d := Reconnect(c, a);
      && d.share == c.share && d.self == c.self && d.callbacks == c.callbacks && d.connected
      && (c.queueName != "" ==> d.queueName == c.queueName)
      && (c.queueNameSelf != "" ==> d.queueNameSelf == c.queueNameSelf)
      && (a.stage.Opened? ==>
            && d.queueName == moduleName + "-" + TOPIC_QUEUE
            && d.queueNameSelf != d.queueName
            && d.broker == Rebind(Rebind(Broker((if a.lostQueue then {} else {d.queueName})
                                                + (if a.lostQueueSelf then {} else {d.queueNameSelf}), {}),
                                         d.queueName, c.share, a),
                                  d.queueNameSelf, c.self, a))
      && (!a.stage.Opened? ==> d.broker == NO_QUEUES)
  {
    var closed := if c.connected then c.(connected := false, broker := NO_QUEUES) else c;
    NamesDiffer(moduleName, closed.(connected := true), a);
  }

  /** After any run, a reconnect brings the broker's bindings to the two key sets exactly when, for
      each set that is not empty, the connection opened, the queue was declared and no bind of the
      set's keys was lost. */
  lemma ReconnectHealsExactly(moduleName: string, es: seq<Action>, a: Attempt)
    ensures var c := Run(Fresh(TopicType, moduleName), es);
      var d := Reconnect(c, a);
      && d.share == c.share && d.self == c.self
      && (c.queueName != "" ==> d.queueName == c.queueName)
      && (c.queueNameSelf != "" ==> d.queueNameSelf == c.queueNameSelf)
      && (Healed(d) <==> Restores(a, d.queueName, c.share, a.lostQueue)
                         && Restores(a, d.queueNameSelf, c.self, a.lostQueueSelf))
  {
    ActionsKeep(moduleName, es);
    var c := Run(Fresh(TopicType, moduleName), es);
    var d := Reconnect(c, a);
    ReconnectRebinds(moduleName, c, a);
    if a.stage.Opened? {
      BoundAfterRebind(c, d, a);
      KeptExactly(d.queueName, c.share, a);
      KeptExactly(d.queueNameSelf, c.self, a);
    } else {
      assert BoundKeys(NO_QUEUES, d.queueName) == {} && BoundKeys(NO_QUEUES, d.queueNameSelf) == {};
    }
  }

  /** The keys of one set whose bind call got through. */
  function Kept(q: string, keys: set<string>, a: Attempt): set<string> {
    set k | k in keys && (q, k) !in a.lostBinds
  }

  lemma KeptExactly(q: string, keys: set<string>, a: Attempt)
    ensures Kept(q, keys, a) == keys <==> forall k :: k in keys ==> (q, k) !in a.lostBinds
  {
  }

  lemma BoundAfterRebind(c: Subscriber, d: Subscriber, a: Attempt)
    requires d.queueName != d.queueNameSelf
    requires d.broker == Rebind(Rebind(Broker((if a.lostQueue then {} else {d.queueName})
                                              + (if a.lostQueueSelf then {} else {d.queueNameSelf}), {}),
                                       d.queueName, c.share, a),
                                d.queueNameSelf, c.self, a)
    ensures BoundKeys(d.broker, d.queueName) == if a.lostQueue then {} else Kept(d.queueName, c.share, a)
    ensures BoundKeys(d.broker, d.queueNameSelf) == if a.lostQueueSelf then {} else Kept(d.queueNameSelf, c.self, a)
    ensures forall x :: x in d.broker.bindings ==> x.0 == d.queueName || x.0 == d.queueNameSelf
  {
  }

  // ---------------------------------------------------------------- while connected

  /** Connecting succeeds exactly when there is no connection object and the attempt opens; with one,
      it changes nothing. */
  lemma ConnectOnlyOnce(c: Subscriber, a: Attempt)
    ensures Connect(c, a).1 <==> !c.connected && a.stage.Opened?
    ensures Connect(c, a).0.connected && (c.connected ==> Connect(c, a).0 == c)
  {
  }

  /** Connected, both queues declared, and the bindings as they should be. */
  ghost predicate LiveClient(c: Subscriber) {
    && c.mode.TopicType? && c.connected && c.queueName != c.queueNameSelf
    && c.queueName in c.broker.queues && c.queueNameSelf in c.broker.queues
    && Healed(c)
  }

  lemma BindAdds(b: Broker, q: string, key: string, lost: bool)
    requires q in b.queues
    ensures BoundKeys(Bind(b, q, key, lost), q) == BoundKeys(b, q) + if lost then {} else {key}
    ensures forall o :: o != q ==> BoundKeys(Bind(b, q, key, lost), o) == BoundKeys(b, o)
    ensures forall x :: x in Bind(b, q, key, lost).bindings ==> x in b.bindings || x.0 == q
  {
    if !lost {
      var b' := Bind(b, q, key, lost);
      assert (q, key) in b'.bindings;
      forall o, k ensures k in BoundKeys(b', o) <==> k in BoundKeys(b, o) || (o == q && k == key) {
        assert k in BoundKeys(b', o) <==> (o, k) in b'.bindings;
        assert k in BoundKeys(b, o) <==> (o, k) in b.bindings;
      }
    }
  }

  lemma UnbindDrops(b: Broker, q: string, key: string, lost: bool)
    ensures BoundKeys(Unbind(b, q, key, lost), q) == BoundKeys(b, q) - if lost then {} else {key}
    ensures forall o :: o != q ==> BoundKeys(Unbind(b, q, key, lost), o) == BoundKeys(b, o)
    ensures forall x :: x in Unbind(b, q, key, lost).bindings ==> x in b.bindings
  {
    if !lost {
      var b' := Unbind(b, q, key, lost);
      forall o, k ensures k in BoundKeys(b', o) <==> k in BoundKeys(b, o) && !(o == q && k == key) {
        assert k in BoundKeys(b', o) <==> (o, k) in b'.bindings;
        assert k in BoundKeys(b, o) <==> (o, k) in b.bindings;
      }
    }
  }

  /** The broker misses this call although it had something to change. */
  predicate Misses(c: Subscriber, e: Action) {
    match e
    case DoSubscribe(topic, instance, _, lost) =>
      lost && topic != "" && topic !in (if instance then c.self else c.share)
    case DoUnsubscribe(topic, lost) => lost && topic != "" && topic in c.share + c.self
    case _ => false
  }

  predicate IsTopicCall(e: Action) {
    e.DoSubscribe? || e.DoUnsubscribe?
  }

  /** Apart from this topic, the bindings are as they should be. */
  predicate HealedBut(c: Subscriber, topic: string) {
    && BoundKeys(c.broker, c.queueName) - {topic} == c.share - {topic}
    && BoundKeys(c.broker, c.queueNameSelf) - {topic} == c.self - {topic}
  }

  lemma SubscribeWhileLive(c: Subscriber, topic: string, instance: bool, cb: Callback, lost: bool)
    requires LiveClient(c)
    ensures var d := Subscribe(c, topic, instance, cb, lost).0;
      && HealedBut(d, topic) && (LiveClient(d) <==> Healed(d))
      && (Healed(d) <==> !Misses(c, DoSubscribe(topic, instance, cb, lost)))
  {
    BindAdds(c.broker, if instance then c.queueNameSelf else c.queueName, topic, lost);
  }

  lemma UnsubscribeWhileLive(c: Subscriber, topic: string, lost: bool)
    requires LiveClient(c)
    ensures var d := Unsubscribe(c, topic, lost).0;
      HealedBut(d, topic) && (LiveClient(d) <==> Healed(d)) && (Healed(d) <==> !Misses(c, DoUnsubscribe(topic, lost)))
  {
    UnbindDrops(c.broker, if topic in c.share then c.queueName else c.queueNameSelf, topic, lost);
  }

  /** On a live client a subscription or unsubscription leaves the bindings right exactly if the broker did
      not miss it, and wrong for its own topic only. */
  lemma TopicCallWhileLive(c: Subscriber, e: Action)
    requires LiveClient(c) && IsTopicCall(e)
    ensures HealedBut(Apply(c, e), e.topic)
    ensures Healed(Apply(c, e)) <==> !Misses(c, e)
    ensures LiveClient(Apply(c, e)) <==> Healed(Apply(c, e))
  {
    match e
    case DoSubscribe(topic, instance, cb, lost) => SubscribeWhileLive(c, topic, instance, cb, lost);
    case DoUnsubscribe(topic, lost) => UnsubscribeWhileLive(c, topic, lost);
  }

  ghost predicate HealedAt(c: Subscriber, es: seq<Action>, n: nat)
    requires n <= |es|
  {
    Healed(Run(c, es[..n]))
  }

  predicate MissesAt(c: Subscriber, es: seq<Action>, i: nat)
    requires i < |es|
  {
    Misses(Run(c, es[..i]), es[i])
  }

  lemma {:induction false} LiveWithoutMisses(c: Subscriber, es: seq<Action>, n: nat)
    requires LiveClient(c) && n <= |es| && forall i :: 0 <= i < |es| ==> IsTopicCall(es[i])
    requires forall i: nat :: i < n ==> !MissesAt(c, es, i)
    ensures LiveClient(Run(c, es[..n]))
  {
    if n > 0 {
      LiveWithoutMisses(c, es, n - 1);
      assert es[..n][..n - 1] == es[..n - 1];
      assert !MissesAt(c, es, n - 1);
      TopicCallWhileLive(Run(c, es[..n - 1]), es[n - 1]);
    } else {
      assert es[..0] == [];
    }
  }

  /** While topics come and go on a live client, the bindings equal the key sets at every moment exactly if the
      broker misses no call. */
  lemma HealedExactlyWithoutMisses(c: Subscriber, es: seq<Action>)
    requires LiveClient(c) && forall i :: 0 <= i < |es| ==> IsTopicCall(es[i])
    ensures (forall n: nat :: n <= |es| ==> HealedAt(c, es, n)) <==> forall i: nat :: i < |es| ==> !MissesAt(c, es, i)
  {
    if forall i: nat :: i < |es| ==> !MissesAt(c, es, i) {
      forall n: nat | n <= |es| ensures HealedAt(c, es, n) {
        LiveWithoutMisses(c, es, n);
      }
    } else {
      var i := FirstMiss(c, es);
      LiveWithoutMisses(c, es, i);
      TopicCallWhileLive(Run(c, es[..i]), es[i]);
      assert es[..i + 1][..i] == es[..i];
      assert !HealedAt(c, es, i + 1);
    }
  }

  lemma FirstMiss(c: Subscriber, es: seq<Action>) returns (i: nat)
    requires exists j: nat :: j < |es| && MissesAt(c, es, j)
    ensures i < |es| && MissesAt(c, es, i) && forall j: nat :: j < i ==> !MissesAt(c, es, j)
  {
    i := 0;
    while !MissesAt(c, es, i)
      invariant i < |es| && forall j: nat :: j < i ==> !MissesAt(c, es, j)
      invariant exists j: nat :: i <= j < |es| && MissesAt(c, es, j)
      decreases |es| - i
    {
      i := i + 1;
    }
  }

  /** After any run, a reconnect in which nothing is lost makes the client live; so does a first connection
      before any topic is held. */
  lemma ReconnectMakesLive(moduleName: string, es: seq<Action>, a: Attempt)
    requires a.stage.Opened? && !a.lostQueue && !a.lostQueueSelf
    ensures var c := Run(Fresh(TopicType, moduleName), es);
      && (a.lostBinds == {} ==> LiveClient(Reconnect(c, a)))
      && (!c.connected && c.share == {} && c.self == {} ==> LiveClient(Connect(c, a).0))
  {
    var c := Run(Fresh(TopicType, moduleName), es);
    ActionsKeep(moduleName, es);
    ReconnectRebinds(moduleName, c, a);
    ReconnectHealsExactly(moduleName, es, a);
  }

  /** What a successful subscription holds and registers; its callback replaces an earlier one. */
  lemma SubscribeHolds(moduleName: string, es: seq<Action>, topic: string, instance: bool, cb: Callback, lost: bool)
    ensures var c := Run(Fresh(TopicType, moduleName), es);
      var (d, ok) := Subscribe(c, topic, instance, cb, lost);
      && (ok <==> topic != "") && (!ok ==> d == c)
      && (ok && instance ==> d.self == c.self + {topic} && d.share == c.share)
      && (ok && !instance ==> d.share == c.share + {topic} && d.self == c.self)
      && (ok ==> forall r :: r in d.callbacks <==>
            r == Registration(topic, cb) || (r in c.callbacks && r.pattern != topic))
  {
    ActionsKeep(moduleName, es);
    PutMembers(Run(Fresh(TopicType, moduleName), es).callbacks, topic, cb);
  }

  // ---------------------------------------------------------------- point to point and broadcast

  ghost predicate OwnInv(c: Subscriber, mode: ExchangeType, moduleName: string) {
    && c.mode == mode && c.moduleName == moduleName
    && (!c.connected ==> c.broker == NO_QUEUES)
    && c.share <= (if mode.P2PType? then {moduleName} else {})
    && c.self == {} && c.callbacks == []
  }

  lemma {:induction false} OwnRun(mode: ExchangeType, moduleName: string, es: seq<Action>)
    requires !mode.TopicType?
    ensures OwnInv(Run(Fresh(mode, moduleName), es), mode, moduleName)
  {
    if es != [] {
      OwnRun(mode, moduleName, es[..|es| - 1]);
    }
  }

  /** The queue a point-to-point or broadcast client reads and the key it is bound to. */
  function OwnBinding(mode: ExchangeType, moduleName: string): (string, string) {
    if mode.P2PType? then (moduleName + "-p2pmsgque", moduleName) else (moduleName + "-broadcastmsgque", "")
  }

  lemma OwnName(c: Subscriber, a: Attempt)
    requires !c.mode.TopicType?
    ensures (Named(c, a).queueName, OwnKey(c)) == OwnBinding(c.mode, c.moduleName)
    ensures Named(c, a) == c.(queueName := OwnBinding(c.mode, c.moduleName).0)
  {
    assert "-" + P2P_QUEUE == "-p2pmsgque" && "-" + BROADCAST_QUEUE == "-broadcastmsgque";
    assert c.moduleName + "-" + P2P_QUEUE == c.moduleName + "-p2pmsgque";
    assert c.moduleName + "-" + BROADCAST_QUEUE == c.moduleName + "-broadcastmsgque";
  }

  lemma OwnConnect(mode: ExchangeType, moduleName: string, c: Subscriber, a: Attempt)
    requires !mode.TopicType? && OwnInv(c, mode, moduleName) && !c.connected
    ensures var d, own := Connect(c, a).0, OwnBinding(mode, moduleName);
      var declared := a.stage.Opened? && !a.lostQueue;
      && d.broker == Broker(if declared then {own.0} else {}, if declared && !a.lostOwn then {own} else {})
      && d.mode == mode && d.moduleName == moduleName
      && (a.stage.Opened? ==> d.queueName == own.0 && d.share == if mode.P2PType? then {moduleName} else {})
  {
    OwnName(c.(connected := true), a);
  }

  lemma OwnReconnect(mode: ExchangeType, moduleName: string, c: Subscriber, a: Attempt)
    requires !mode.TopicType? && OwnInv(c, mode, moduleName)
    ensures var d, own := Reconnect(c, a), OwnBinding(mode, moduleName);
      var declared := a.stage.Opened? && !a.lostQueue;
      && d.broker.queues == (if declared then {own.0} else {})
      && d.broker.bindings == (if declared && !(a.lostOwn && own in a.lostBinds) then {own} else {})
      && (a.stage.Opened? ==> d.share == if mode.P2PType? then {moduleName} else {})
  {
    var closed := if c.connected then c.(connected := false, broker := NO_QUEUES) else c;
    OwnConnect(mode, moduleName, closed, a);
    var d, own := Connect(closed, a).0, OwnBinding(mode, moduleName);
    if a.stage.Opened? {
      assert own == (d.queueName, OwnKey(d));
    }
  }

  /** After any run, a connection of a point-to-point or broadcast client leaves its own queue bound to its own
      key and nothing else, exactly if the connection opened, the queue was declared and one of its bind calls
      got through: of the one made when connecting, and of both made when reconnecting. */
  lemma OwnQueueIsBound(mode: ExchangeType, moduleName: string, es: seq<Action>, a: Attempt)
    requires !mode.TopicType?
    ensures var c, own := Run(Fresh(mode, moduleName), es), OwnBinding(mode, moduleName);
      var declared := a.stage.Opened? && !a.lostQueue;
      && (var d := Reconnect(c, a);
          && d.broker.queues == (if declared then {own.0} else {})
          && d.broker.bindings == (if declared && !(a.lostOwn && own in a.lostBinds) then {own} else {})
          && (a.stage.Opened? ==> d.share == if mode.P2PType? then {moduleName} else {}))
      && (!c.connected ==>
          var d := Connect(c, a).0;
          && d.broker.queues == (if declared then {own.0} else {})
          && d.broker.bindings == (if declared && !a.lostOwn then {own} else {}))
  {
    var c := Run(Fresh(mode, moduleName), es);
    OwnRun(mode, moduleName, es);
    OwnReconnect(mode, moduleName, c, a);
    if !c.connected { OwnConnect(mode, moduleName, c, a); }
  }

  // ---------------------------------------------------------------- the object

  class TopicClient {
    const mode: ExchangeType
    const moduleName: string
    var connected: bool
    var queueName: string
    var queueNameSelf: string
    var share: set<string>
    var self: set<string>
    var callbacks: seq<Registration>
    var broker: Broker

    ghost function View(): Subscriber
      reads this
    {
      Subscriber(mode, moduleName, connected, queueName, queueNameSelf, share, self, callbacks, broker)
    }

    constructor (mode: ExchangeType, moduleName: string)
      ensures View() == Fresh(mode, moduleName)
    {
      this.mode, this.moduleName := mode, moduleName;
      connected, queueName, queueNameSelf := false, "", "";
      share, self, callbacks, broker := {}, {}, [], NO_QUEUES;
    }

    method SubscribeTopic(topic: string, cb: Callback, instance: bool, lost: bool) returns (ok: bool)
      modifies this
      ensures (View(), ok) == Subscribe(old(View()), topic, instance, cb, lost)
    {
      if mode != TopicType || topic == "" {
        return false;
      }
      if !instance {
        broker := Bind(broker, queueName, topic, lost);
        share := share + {topic};
      } else {
        broker := Bind(broker, queueNameSelf, topic, lost);
        self := self + {topic};
      }
      callbacks := Put(callbacks, topic, cb);
      return true;
    }

    method UnsubscribeTopic(topic: string, lost: bool) returns (ok: bool)
      modifies this
      ensures (View(), ok) == Unsubscribe(old(View()), topic, lost)
    {
      if mode != TopicType || topic == "" {
        return false;
      }
      if topic in share {
        broker := Unbind(broker, queueName, topic, lost);
        share := share - {topic};
        callbacks := Erase(callbacks, topic);
        return true;
      }
      if topic in self {
        broker := Unbind(broker, queueNameSelf, topic, lost);
        self := self - {topic};
        callbacks := Erase(callbacks, topic);
        return true;
      }
      return false;
    }

    method SetupQueues(a: Attempt) returns (ok: bool)
      modifies this
      ensures (View(), ok) == Setup(old(View()), a)
    {
      match mode {
        case P2PType => queueName := moduleName + "-" + P2P_QUEUE;
        case TopicType =>
          queueName := moduleName + "-" + TOPIC_QUEUE;
          if queueNameSelf == "" {
            queueNameSelf := moduleName + "-" + SelfSuffix(a);
          }
        case BroadcastType => queueName := moduleName + "-" + BROADCAST_QUEUE;
      }
      if a.stage == ChannelFails {
        return false;
      }
      broker := Declare(broker, queueName, a.lostQueue);
      if mode == TopicType {
        broker := Declare(broker, queueNameSelf, a.lostQueueSelf);
      }
      if mode == P2PType {
        broker := Bind(broker, queueName, moduleName, a.lostOwn);
        share := share + {moduleName};
      } else if mode == BroadcastType {
        broker := Bind(broker, queueName, "", a.lostOwn);
      }
      return true;
    }

    method ConnectInit(a: Attempt) returns (ok: bool)
      modifies this
      ensures (View(), ok) == Connect(old(View()), a)
    {
      if connected {
        return false;
      }
      connected := true;
      if a.stage == SocketFails {
        return false;
      }
      if a.stage == LoginFails {
        return false;
      }
      ok := SetupQueues(a);
    }

    /** One of the two rebinding loops, over the keys of a set in any order. */
    method RebindKeys(q: string, keys: set<string>, a: Attempt)
      modifies this`broker
      ensures broker == Rebind(old(broker), q, keys, a)
    {
      var left := keys;
      while left != {}
        invariant left <= keys
        invariant broker == Rebind(old(broker), q, keys - left, a)
      {
        var key :| key in left;
        broker := Bind(broker, q, key, (q, key) in a.lostBinds);
        left := left - {key};
      }
      assert keys - left == keys;
    }

    method ReconnectProc(a: Attempt)
      modifies this
      ensures View() == Reconnect(old(View()), a)
    {
      if connected {
        broker := NO_QUEUES;
        connected := false;
      }
      var ok := ConnectInit(a);
      if !ok {
        return;
      }
      if mode == TopicType {
        RebindKeys(queueName, share, a);
        RebindKeys(queueNameSelf, self, a);
      } else if mode == P2PType {
        broker := Bind(broker, queueName, moduleName, (queueName, moduleName) in a.lostBinds);
      } else {
        broker := Bind(broker, queueName, "", (queueName, "") in a.lostBinds);
      }
    }
  }
}
