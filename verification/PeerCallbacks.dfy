/** What application callbacks receive: every delivered message calls back once, in order, and what a callback
    is given comes from the call or response of the module it names. */
module PeerCallbacks {
  import opened Messages
  import opened TimerTasks
  import opened PeerModel
  import opened PeerInvariant
  import opened PeerSystem
  import opened PeerTheorems

  predicate IsResponse(e: Event) {
    e.OnRespTemp? || e.OnRespFinal?
  }

  predicate IsTimeout(e: Event) {
    e.OnRequestTimeout? || e.OnNotifyTimeout?
  }

  /** Callback e at module m passes on what this message says. */
  predicate Carries(env: Envelope, m: string, e: Event) {
    var p := env.props;
    && env.dest == m
    && match e
       case OnRequest(src, msgName, rid, body, inarg) =>
         && p.msgtype == Request && p.sender == src && p.msgname == msgName && p.rid == rid && p.inarg == inarg
         && env.body == body
       case OnNotify(src, msgName, body) =>
         p.msgtype == Notification && p.sender == src && p.msgname == msgName && env.body == body
       case OnReport(src, msgName, body) =>
         p.msgtype == Report && p.sender == src && p.msgname == msgName && env.body == body
       case OnRespTemp(_, _, rid, code, desc, body, _) =>
         && p.msgtype == TemporaryResponse && p.rid == rid && p.rspcode == code && p.rspdesc == desc
         && env.body == body
       case OnRespFinal(_, _, rid, code, desc, body, _) =>
         p.msgtype == FinalResponse && p.rid == rid && p.rspcode == code && p.rspdesc == desc && env.body == body
       case _ => false
  }

  /** The response the receive thread has in hand was delivered to it. */
  predicate HandDelivered(net: set<Envelope>, m: string, s: Peer) {
    match s.receiver
    case TempFound(_, _, env) => env in net && env.dest == m && env.props.msgtype == TemporaryResponse
    case FinalFound(_, _, env) => env in net && env.dest == m && env.props.msgtype == FinalResponse
    case _ => true
  }

  predicate WasDelivered(net: set<Envelope>, m: string, e: Event) {
    exists env :: env in net && Carries(env, m, e)
  }

  ghost predicate LogDelivered(net: set<Envelope>, m: string, s: Peer) {
    forall e :: e in s.log && !IsTimeout(e) ==> WasDelivered(net, m, e)
  }

  lemma HandStaysDelivered(net: set<Envelope>, m: string, s: Peer, op: Op)
    requires Enabled(s, op) && HandDelivered(net, m, s)
    requires op.Deliver? ==> op.env in net && op.env.dest == m
    ensures HandDelivered(net, m, Local(m, s, op))
  {
  }

  /** The callback made during delivery passes on the delivered message. */
  lemma CalledOnDelivery(m: string, s: Peer, op: Op)
    requires Enabled(s, op) && op.Deliver? && op.env.dest == m && Local(m, s, op).log != s.log
    ensures |Local(m, s, op).log| == |s.log| + 1 && Local(m, s, op).log[..|s.log|] == s.log
    ensures Carries(op.env, m, Local(m, s, op).log[|s.log|])
  {
  }

  lemma LogStaysDelivered(net: set<Envelope>, m: string, s: Peer, op: Op)
    requires Enabled(s, op) && HandDelivered(net, m, s) && LogDelivered(net, m, s)
    requires op.Deliver? ==> op.env in net && op.env.dest == m
    ensures LogDelivered(net, m, Local(m, s, op))
  {
    var s' := Local(m, s, op);
    if op.Sweep? {
      TimeoutsAreTimeouts(s.handlers, Doomed(s.tasks, DueIds(s.tasks, op.now)));
    } else if s'.log != s.log {
      OneCallbackPerStep(m, s, op);
      if op.Deliver? { CalledOnDelivery(m, s, op); }
      assert Carries(if op.Deliver? then op.env else s.receiver.env, m, s'.log[|s.log|]);
    }
  }

  lemma DeliveredInMore(net: set<Envelope>, net': set<Envelope>, m: string, s: Peer)
    requires net <= net' && HandDelivered(net, m, s) && LogDelivered(net, m, s)
    ensures HandDelivered(net', m, s) && LogDelivered(net', m, s)
  {
    forall e | e in s.log && !IsTimeout(e) ensures WasDelivered(net', m, e) {
      var env :| env in net && Carries(env, m, e);
      assert env in net';
    }
  }

  lemma {:induction false} AllDelivered(mods: map<string, (Handlers, int)>, steps: seq<Step>, m: string)
    requires Exec(Init(mods), steps).Some? && m in Exec(Init(mods), steps).value.peers
    ensures var sys := Exec(Init(mods), steps).value;
      HandDelivered(sys.net, m, sys.peers[m]) && LogDelivered(sys.net, m, sys.peers[m])
  {
    if steps != [] {
      var n := |steps| - 1;
      var sys := Exec(Init(mods), steps[..n]).value;
      AllDelivered(mods, steps[..n], m);
      if steps[n].m == m {
        HandStaysDelivered(sys.net, m, sys.peers[m], steps[n].op);
        LogStaysDelivered(sys.net, m, sys.peers[m], steps[n].op);
      }
      var sys' := Next(sys, steps[n]);
      DeliveredInMore(sys.net, sys'.net, m, sys'.peers[m]);
    }
  }

  /** Step i hands this message to the broker. */
  predicate SentAt(sys: System, steps: seq<Step>, i: nat, env: Envelope) {
    && i < |steps| && Exec(sys, steps[..i]).Some? && CanStep(Exec(sys, steps[..i]).value, steps[i])
    && env in Sent(steps[i].m, Exec(sys, steps[..i]).value.peers[steps[i].m], steps[i].op)
  }

  /** Nothing is in the network that no step sent. */
  lemma {:induction false} WasSent(mods: map<string, (Handlers, int)>, steps: seq<Step>, env: Envelope)
    returns (i: nat)
    requires Exec(Init(mods), steps).Some? && env in Exec(Init(mods), steps).value.net
    ensures SentAt(Init(mods), steps, i, env)
  {
    assert steps != [];
    var n := |steps| - 1;
    if env in Exec(Init(mods), steps[..n]).value.net {
      i := WasSent(mods, steps[..n], env);
      assert steps[..n][..i] == steps[..i];
    } else {
      i := n;
    }
  }

  /** Step i is a published response of module `who` to id e.rid of module m, with what e passes on. */
  predicate RespondedAt(steps: seq<Step>, i: nat, who: string, m: string, e: Event) {
    && IsResponse(e) && i < |steps| && steps[i].m == who && steps[i].op.Respond?
    && steps[i].op.src == m && steps[i].op.rid == e.rid && steps[i].op.published
    && steps[i].op.final == e.OnRespFinal?
    && steps[i].op.code == e.code && steps[i].op.desc == e.desc && steps[i].op.body == e.body
  }

  /** A response is sent by a responder or answers a notification by itself. */
  lemma SentByWhom(name: string, s: Peer, step: Step, env: Envelope, m: string, e: Event)
    requires IsResponse(e) && step.m == name && Enabled(s, step.op)
    requires env in Sent(name, s, step.op) && Carries(env, m, e)
    ensures env.props.sender == name
    ensures
      || RespondedAt([step], 0, name, m, e)
      || (s.receiver.NotifyCalled? && s.receiver.env.props.sender == m && s.receiver.env.props.rid == e.rid)
  {
  }

  /** The id a module is answering by itself is a notification of its sender, whenever one looks. */
  lemma NotifiedIsNotification(mods: map<string, (Handlers, int)>, steps: seq<Step>, i: nat, b: string, m: string)
    requires Exec(Init(mods), steps).Some? && i <= |steps| && Exec(Init(mods), steps[..i]).Some?
    requires b in Exec(Init(mods), steps[..i]).value.peers
    requires var s := Exec(Init(mods), steps[..i]).value.peers[b];
      s.receiver.NotifyCalled? && s.receiver.env.props.sender == m
    ensures m in Exec(Init(mods), steps).value.peers
    ensures var r := Exec(Init(mods), steps[..i]).value.peers[b].receiver.env.props.rid;
      var s' := Exec(Init(mods), steps).value.peers[m];
      r in s'.issued && s'.issued[r].notify
  {
    var sys := Exec(Init(mods), steps[..i]).value;
    Reachable(mods, steps[..i]);
    assert HeardInv(sys, b, sys.peers[b]);
    PrefixGrows(mods, steps, i, m);
  }

  /** The message behind a logged response names the call's addressee as its sender. */
  lemma SenderIsAddressee(mods: map<string, (Handlers, int)>, steps: seq<Step>, m: string, e: Event, env: Envelope)
    requires Exec(Init(mods), steps).Some? && m in Exec(Init(mods), steps).value.peers
    requires e in Exec(Init(mods), steps).value.peers[m].log && IsResponse(e)
    requires env in Exec(Init(mods), steps).value.net && Carries(env, m, e)
    ensures env.props.sender == e.dst
    ensures var s := Exec(Init(mods), steps).value.peers[m]; e.rid in s.issued && !s.issued[e.rid].notify
  {
    Reachable(mods, steps);
    var sys := Exec(Init(mods), steps).value;
    assert EnvInv(sys, env);
    assert EventInv(sys.peers[m], e);
  }

  /** The code, description and body of every response callback are those that the module the request was
      addressed to gave to a response it published, for this module and this id; a temporary one for a
      temporary callback, a final one for a final callback. */
  lemma ResponsesComeFromResponders(mods: map<string, (Handlers, int)>, steps: seq<Step>, m: string, e: Event)
    returns (i: nat)
    requires Exec(Init(mods), steps).Some? && m in Exec(Init(mods), steps).value.peers
    requires e in Exec(Init(mods), steps).value.peers[m].log && IsResponse(e)
    ensures RespondedAt(steps, i, e.dst, m, e)
  {
    AllDelivered(mods, steps, m);
    var env :| env in Exec(Init(mods), steps).value.net && Carries(env, m, e);
    SenderIsAddressee(mods, steps, m, e, env);
    i := WasSent(mods, steps, env);
    var b := steps[i].m;
    var s := Exec(Init(mods), steps[..i]).value.peers[b];
    SentByWhom(b, s, steps[i], env, m, e);
    if s.receiver.NotifyCalled? && s.receiver.env.props.sender == m && s.receiver.env.props.rid == e.rid {
      NotifiedIsNotification(mods, steps, i, b, m);
    }
  }

  /** What a published response, automatic answer or report puts into the network, field by field. */
  lemma PublishedIsSent(sys: System, step: Step)
    requires CanStep(sys, step)
    ensures step.op.Respond? && step.op.published ==>
      var o := step.op;
      var kind := if o.final then FinalResponse else TemporaryResponse;
      var name := if o.final then "finalrsp" else "temprsp";
      Envelope(o.src, IntProps(step.m, o.src, kind, name, o.rid, 0, o.stamp, o.code, o.desc, "no transparent"), o.body)
        in Next(sys, step).net
    ensures step.op.Finish? && step.op.published && sys.peers[step.m].receiver.NotifyCalled? ==>
      var p := sys.peers[step.m].receiver.env.props;
      Envelope(p.sender, IntProps(step.m, p.sender, FinalResponse, "finalrsp", p.rid, 0, step.op.stamp, "200",
                                  "Auto Rsp Ok", "no transparent"), "{}") in Next(sys, step).net
    ensures step.op.SendReport? && step.op.published ==>
      var o := step.op;
      Envelope(o.dest, IntProps(step.m, o.dest, Report, o.msgName, -1, 0, o.stamp, "no code", "no description",
                                "no transparent"), o.body) in Next(sys, step).net
  {
  }

  // ---------------------------------------------------------------- requests, notifications and reports

  lemma SentByCall(name: string, s: Peer, op: Op, env: Envelope)
    requires ThreadsInv(s) && Enabled(s, op) && env in Sent(name, s, op)
    requires env.props.msgtype == Request || env.props.msgtype == Notification
    ensures env.props.sender == name && env.props.rid in s.issued
    ensures env == CallEnvelope(name, env.props.rid, s.issued[env.props.rid])
  {
  }

  /** A request in the network says what its call was given. */
  lemma MessageOfCall(mods: map<string, (Handlers, int)>, steps: seq<Step>, env: Envelope)
    requires Exec(Init(mods), steps).Some? && env in Exec(Init(mods), steps).value.net
    requires env.props.msgtype == Request || env.props.msgtype == Notification
    ensures var b, sys := env.props.sender, Exec(Init(mods), steps).value;
      && b in sys.peers && env.props.rid in sys.peers[b].issued
      && env == CallEnvelope(b, env.props.rid, sys.peers[b].issued[env.props.rid])
  {
    var j := WasSent(mods, steps, env);
    var b := steps[j].m;
    PeerHolds(mods, steps[..j], b);
    SentByCall(b, Exec(Init(mods), steps[..j]).value.peers[b], steps[j].op, env);
    PrefixGrows(mods, steps, j, b);
  }

  /** What a request or notification callback receives is what the module it names gave to one of its calls,
      addressed to the module called back; for a request under the id and with the argument of that call. */
  lemma RequestsComeFromCalls(mods: map<string, (Handlers, int)>, steps: seq<Step>, m: string, e: Event)
    returns (i: nat, r: int, args: CallArgs)
    requires Exec(Init(mods), steps).Some? && m in Exec(Init(mods), steps).value.peers
    requires e in Exec(Init(mods), steps).value.peers[m].log && (e.OnRequest? || e.OnNotify?)
    ensures AllocatedAt(mods, steps, i, e.src, r, args)
    ensures args.receiver == m && args.msgName == e.msgName && args.body == e.body
    ensures args.notify <==> e.OnNotify?
    ensures e.OnRequest? ==> e.rid == r && e.inarg == args.inarg
  {
    AllDelivered(mods, steps, m);
    var sys := Exec(Init(mods), steps).value;
    var env :| env in sys.net && Carries(env, m, e);
    MessageOfCall(mods, steps, env);
    r := env.props.rid;
    args := sys.peers[e.src].issued[r];
    i := IssuedWasAllocated(mods, steps, e.src, r);
  }

  /** What a report callback receives is what the module it names published as a report to the module called
      back. */
  lemma ReportsComeFromReports(mods: map<string, (Handlers, int)>, steps: seq<Step>, m: string, e: Event)
    returns (i: nat)
    requires Exec(Init(mods), steps).Some? && m in Exec(Init(mods), steps).value.peers
    requires e in Exec(Init(mods), steps).value.peers[m].log && e.OnReport?
    ensures i < |steps| && steps[i].m == e.src && steps[i].op.SendReport? && steps[i].op.published
    ensures steps[i].op.dest == m && steps[i].op.msgName == e.msgName && steps[i].op.body == e.body
  {
    AllDelivered(mods, steps, m);
    var env :| env in Exec(Init(mods), steps).value.net && Carries(env, m, e);
    i := WasSent(mods, steps, env);
  }

  // ---------------------------------------------------------------- every delivery calls back once

  /** The callbacks of a log that are not timeouts. */
  function Incoming(log: seq<Event>): seq<Event> {
    if log == [] then [] else (if IsTimeout(log[0]) then [] else [log[0]]) + Incoming(log[1..])
  }

  lemma {:induction false} IncomingAppend(a: seq<Event>, b: seq<Event>)
    ensures Incoming(a + b) == Incoming(a) + Incoming(b)
  {
    if a == [] {
      assert a + b == b;
    } else {
      assert (a + b)[1..] == a[1..] + b;
      IncomingAppend(a[1..], b);
    }
  }

  lemma {:induction false} NoneIncoming(log: seq<Event>)
    requires forall e :: e in log ==> IsTimeout(e)
    ensures Incoming(log) == []
  {
    if log != [] { NoneIncoming(log[1..]); }
  }

  /** The callback a message makes when it is delivered in this state: none without its handler, and for a
      response none unless the id is listed; a final one calls back for requests only. */
  function CallbackFor(s: Peer, env: Envelope): seq<Event> {
    var p := env.props;
    match p.msgtype
    case Request =>
      if s.handlers.request then [OnRequest(p.sender, p.msgname, p.rid, env.body, p.inarg)] else []
    case Notification => if s.handlers.notify then [OnNotify(p.sender, p.msgname, env.body)] else []
    case Report => if s.handlers.report then [OnReport(p.sender, p.msgname, env.body)] else []
    case TemporaryResponse =>
      if s.handlers.respTemp && p.rid in Ids(s.tasks) && p.rid in s.issued then
        var a := s.issued[p.rid];
        [OnRespTemp(a.receiver, a.msgName, p.rid, p.rspcode, p.rspdesc, env.body, a.inarg)]
      else []
    case FinalResponse =>
      if s.handlers.respFinal && p.rid in Ids(s.tasks) && p.rid in s.issued && !s.issued[p.rid].notify then
        var a := s.issued[p.rid];
        [OnRespFinal(a.receiver, a.msgName, p.rid, p.rspcode, p.rspdesc, env.body, a.inarg)]
      else []
    case _ => []
  }

  /** The callback of a response that has been looked up and not yet called. */
  function Owed(s: Peer): seq<Event> {
    match s.receiver
    case TempFound(_, t, env) => [TempEvent(t, env)]
    case FinalFound(_, t, env) => FinalEvents(t, env)
    case _ => []
  }

  /** The callbacks the deliveries of a run make at module m, in order. */
  function Expected(sys: System, steps: seq<Step>, m: string): seq<Event>
    requires Exec(sys, steps).Some?
  {
    if steps == [] then []
    else
      var n := |steps| - 1;
      Expected(sys, steps[..n], m)
        + if steps[n].m == m && steps[n].op.Deliver?
          then CallbackFor(Exec(sys, steps[..n]).value.peers[m], steps[n].op.env) else []
  }

  lemma ResponseDelivered(name: string, s: Peer, op: Op)
    requires TasksInv(name, s) && Enabled(s, op) && op.Deliver?
    requires op.env.props.msgtype == TemporaryResponse || op.env.props.msgtype == FinalResponse
    ensures Local(name, s, op).log == s.log && Owed(Local(name, s, op)) == CallbackFor(s, op.env)
  {
    var r := op.env.props.rid;
    if r in Ids(s.tasks) {
      var t := s.tasks[IndexOf(s.tasks, r)];
      assert t in s.tasks && KnownTask(name, s, t) && Find(s.tasks, r) == Some(t);
    }
  }

  lemma OtherDelivered(name: string, s: Peer, op: Op)
    requires Enabled(s, op) && op.Deliver?
    requires op.env.props.msgtype != TemporaryResponse && op.env.props.msgtype != FinalResponse
    ensures Local(name, s, op).log == s.log + CallbackFor(s, op.env) && Owed(Local(name, s, op)) == []
    ensures |CallbackFor(s, op.env)| <= 1 && forall e :: e in CallbackFor(s, op.env) ==> !IsTimeout(e)
  {
  }

  lemma OwedBySweep(name: string, s: Peer, op: Op)
    requires Enabled(s, op) && op.Sweep?
    ensures Incoming(Local(name, s, op).log) == Incoming(s.log) && Owed(Local(name, s, op)) == Owed(s)
  {
    var es := AllTimeoutEvents(s.handlers, Doomed(s.tasks, DueIds(s.tasks, op.now)));
    TimeoutsAreTimeouts(s.handlers, Doomed(s.tasks, DueIds(s.tasks, op.now)));
    IncomingAppend(s.log, es);
    NoneIncoming(es);
  }

  lemma OwedByCallback(name: string, s: Peer, op: Op)
    requires Enabled(s, op) && op.Callback?
    ensures Incoming(Local(name, s, op).log) == Incoming(s.log) + Owed(s) && Owed(Local(name, s, op)) == []
  {
    OwedIsLogged(name, s, op);
    if Owed(s) == [] {
      assert s.log + [] == s.log && Incoming(s.log) + [] == Incoming(s.log);
    } else {
      IncomingOne(s.log, Owed(s)[0]);
    }
  }

  lemma OwedIsLogged(name: string, s: Peer, op: Op)
    requires Enabled(s, op) && op.Callback?
    ensures Local(name, s, op).log == s.log + Owed(s) && Owed(Local(name, s, op)) == []
    ensures Owed(s) == [] || (Owed(s) == [Owed(s)[0]] && !IsTimeout(Owed(s)[0]))
  {
  }

  lemma IncomingOne(log: seq<Event>, e: Event)
    requires !IsTimeout(e)
    ensures Incoming(log + [e]) == Incoming(log) + [e]
  {
    IncomingAppend(log, [e]);
    assert [e][1..] == [];
  }

  lemma OwedByOther(name: string, s: Peer, op: Op)
    requires Enabled(s, op) && !op.Deliver? && !op.Sweep? && !op.Callback?
    ensures Local(name, s, op).log == s.log && Owed(Local(name, s, op)) == Owed(s)
  {
  }

  lemma ExpectedByStep(name: string, s: Peer, op: Op)
    requires LocalInv(name, s) && Enabled(s, op) && DeliveryOk(s, op)
    ensures Incoming(Local(name, s, op).log) + Owed(Local(name, s, op))
         == Incoming(s.log) + Owed(s) + if op.Deliver? then CallbackFor(s, op.env) else []
  {
    if op.Deliver? {
      var es, kind := CallbackFor(s, op.env), op.env.props.msgtype;
      if kind == TemporaryResponse || kind == FinalResponse {
        ResponseDelivered(name, s, op);
      } else {
        OtherDelivered(name, s, op);
        if es != [] {
          assert es == [es[0]];
          IncomingOne(s.log, es[0]);
        }
      }
    } else if op.Sweep? {
      OwedBySweep(name, s, op);
    } else if op.Callback? {
      OwedByCallback(name, s, op);
    } else {
      OwedByOther(name, s, op);
    }
  }

  /** Over every run the callbacks made, timeouts apart, are exactly those the deliveries make, in order, each
      once; at most the callback of the response in hand is still to come. */
  lemma {:induction false} EveryDeliveryCallsBack(mods: map<string, (Handlers, int)>, steps: seq<Step>, m: string)
    requires Exec(Init(mods), steps).Some? && m in Exec(Init(mods), steps).value.peers
    ensures var s := Exec(Init(mods), steps).value.peers[m];
      Incoming(s.log) + Owed(s) == Expected(Init(mods), steps, m)
  {
    if steps != [] {
      var n := |steps| - 1;
      EveryDeliveryCallsBack(mods, steps[..n], m);
      if steps[n].m == m {
        Reachable(mods, steps[..n]);
        DeliveryIsOk(Exec(Init(mods), steps[..n]).value, steps[n]);
        ExpectedByStep(m, Exec(Init(mods), steps[..n]).value.peers[m], steps[n].op);
      }
    }
  }
}
