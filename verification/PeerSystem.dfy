/** The invariant of the whole system: what the network and the callbacks already made
    say about the modules, kept by every step of every run. */
module PeerSystem {
  import opened Messages
  import opened TimerTasks
  import opened PeerModel
  import opened PeerInvariant

  /** Ids are never forgotten, registered ids stay registered, and callbacks are not undone. */
  ghost predicate Grows(s: Peer, s': Peer) {
    && (forall r :: r in s.issued ==> r in s'.issued && s'.issued[r] == s.issued[r])
    && (forall r :: Live(s, r) ==> Live(s', r))
    && s.ended <= s'.ended
    && s.log <= s'.log
    && s'.handlers == s.handlers
    && s'.clock >= s.clock
  }

  lemma NoIdIsLost(s: Peer, op: Op, name: string)
    requires Enabled(s, op)
    ensures forall r :: Live(s, r) ==> Live(Local(name, s, op), r)
  {
    forall i | 0 <= i < |s.tasks| ensures Live(Local(name, s, op), s.tasks[i].id) {
      assert s.tasks[i] in s.tasks;
      match op
      case Register(_, _) => assert Local(name, s, op).tasks[i] == s.tasks[i];
      case Undo(th) => LiveAfterRemove(s, s.threads[th].rid, i);
      case Finish(_, _, _) => LiveAfterFinish(s, op, name, i);
      case Sweep(now) => PassMembers(s.tasks, DueIds(s.tasks, now));
      case _ =>
    }
  }

  lemma LiveAfterFinish(s: Peer, op: Op, name: string, i: nat)
    requires Enabled(s, op) && op.Finish? && i < |s.tasks|
    ensures Live(Local(name, s, op), s.tasks[i].id)
  {
    assert s.tasks[i] in s.tasks;
    if s.receiver.TempCalled? {
      assert Local(name, s, op).tasks[i].id == s.tasks[i].id;
    } else if s.receiver.FinalCalled? {
      LiveAfterRemove(s, s.receiver.rid, i);
    }
  }

  lemma LiveAfterRemove(s: Peer, r: int, i: nat)
    requires i < |s.tasks|
    ensures Live(RemoveTask(s, r), s.tasks[i].id)
  {
    var s' := RemoveTask(s, r);
    var k := IndexOf(s.tasks, r);
    assert s.tasks[i] in s.tasks;
    if s.tasks[i].id != r && k < |s.tasks| {
      assert s'.tasks[if i < k then i else i - 1] == s.tasks[i];
    }
  }

  lemma LocalGrows(name: string, s: Peer, op: Op)
    requires IdsInv(s) && Enabled(s, op)
    ensures Grows(s, Local(name, s, op))
  {
    NoIdIsLost(s, op, name);
    if op.Allocate? { assert s.nextId !in s.issued; }
  }

  /** Module b has been sent the request or notification that module src allocated under rid. */
  predicate Addressed(sys: System, b: string, src: string, rid: int, notify: bool) {
    && src in sys.peers
    && rid in sys.peers[src].issued && Live(sys.peers[src], rid)
    && sys.peers[src].issued[rid].receiver == b
    && sys.peers[src].issued[rid].notify == notify
  }

  predicate EnvInv(sys: System, env: Envelope) {
    var p := env.props;
    && env.dest == p.receiver
    && (match p.msgtype
        case Request => Addressed(sys, env.dest, p.sender, p.rid, false)
        case Notification => Addressed(sys, env.dest, p.sender, p.rid, true)
        case TemporaryResponse => env.dest in sys.peers && ResponseFor(sys.peers[env.dest], env)
        case FinalResponse => env.dest in sys.peers && ResponseFor(sys.peers[env.dest], env)
        case Report => true
        case _ => false)
  }

  /** What a module has been told about other modules is true of them. */
  ghost predicate HeardInv(sys: System, m: string, s: Peer) {
    && (forall e :: e in s.log && e.OnRequest? ==> Addressed(sys, m, e.src, e.rid, false))
    && (s.receiver.NotifyCalled? ==> Addressed(sys, m, s.receiver.env.props.sender, s.receiver.env.props.rid, true))
  }

  ghost predicate SysInv(sys: System) {
    && (forall m :: m in sys.peers ==> LocalInv(m, sys.peers[m]))
    && (forall m :: m in sys.peers ==> HeardInv(sys, m, sys.peers[m]))
    && (forall env :: env in sys.net ==> EnvInv(sys, env))
  }

  ghost predicate SysGrows(sys: System, sys': System) {
    && sys'.peers.Keys == sys.peers.Keys
    && (forall m :: m in sys.peers ==> Grows(sys.peers[m], sys'.peers[m]))
    && sys.net <= sys'.net
  }

  lemma FactsStay(sys: System, sys': System)
    requires SysGrows(sys, sys')
    ensures forall b, src, rid, n :: Addressed(sys, b, src, rid, n) ==> Addressed(sys', b, src, rid, n)
    ensures forall env :: EnvInv(sys, env) ==> EnvInv(sys', env)
  {
  }

  lemma DeliveryIsOk(sys: System, step: Step)
    requires SysInv(sys) && CanStep(sys, step)
    ensures DeliveryOk(sys.peers[step.m], step.op)
  {
    if step.op.Deliver? {
      assert EnvInv(sys, step.op.env);
    }
  }

  lemma NextGrows(sys: System, step: Step)
    requires SysInv(sys) && CanStep(sys, step)
    ensures SysGrows(sys, Next(sys, step))
  {
    LocalGrows(step.m, sys.peers[step.m], step.op);
  }

  lemma SentIsTrue(sys: System, step: Step)
    requires CanStep(sys, step)
    requires ThreadsInv(sys.peers[step.m]) && HeardInv(sys, step.m, sys.peers[step.m])
    ensures forall env :: env in Sent(step.m, sys.peers[step.m], step.op) ==> EnvInv(sys, env)
  {
    var s := sys.peers[step.m];
    match step.op
    case Publish(th, _, _) =>
      assert Live(s, s.threads[th].rid);
    case Respond(src, rid, _, _, _, _, _, _) =>
      var e :| e in s.log && e.OnRequest? && e.src == src && e.rid == rid;
      assert Addressed(sys, step.m, src, rid, false);
    case _ =>
  }

  lemma {:induction false} TimeoutsAreTimeouts(h: Handlers, ts: seq<TimerTask>)
    ensures forall e :: e in AllTimeoutEvents(h, ts) ==> e.OnRequestTimeout? || e.OnNotifyTimeout?
  {
    if ts != [] {
      TimeoutsAreTimeouts(h, ts[1..]);
    }
  }

  lemma HeardStays(sys: System, step: Step)
    requires CanStep(sys, step)
    requires HeardInv(sys, step.m, sys.peers[step.m])
    requires step.op.Deliver? ==> EnvInv(sys, step.op.env)
    ensures HeardInv(sys, step.m, Local(step.m, sys.peers[step.m], step.op))
  {
    var s := sys.peers[step.m];
    var s' := Local(step.m, s, step.op);
    if step.op.Sweep? {
      TimeoutsAreTimeouts(s.handlers, Doomed(s.tasks, DueIds(s.tasks, step.op.now)));
    }
    forall e | e in s'.log && e.OnRequest? ensures Addressed(sys, step.m, e.src, e.rid, false) {
      if e !in s.log { assert step.op.Deliver?; }
    }
  }

  lemma NextKeeps(sys: System, step: Step)
    requires SysInv(sys) && CanStep(sys, step)
    ensures SysInv(Next(sys, step)) && SysGrows(sys, Next(sys, step))
  {
    var sys' := Next(sys, step);
    DeliveryIsOk(sys, step);
    LocalKeeps(step.m, sys.peers[step.m], step.op);
    NextGrows(sys, step);
    SentIsTrue(sys, step);
    HeardStays(sys, step);
    FactsStay(sys, sys');
    forall m | m in sys'.peers ensures HeardInv(sys', m, sys'.peers[m]) {
      assert HeardInv(sys, m, sys'.peers[m]);
    }
    forall env | env in sys'.net ensures EnvInv(sys', env) {
      assert EnvInv(sys, env);
    }
  }

  // ---------------------------------------------------------------- runs

  lemma InitHolds(mods: map<string, (Handlers, int)>)
    ensures SysInv(Init(mods))
  {
  }

  lemma {:induction false} RunKeeps(sys: System, steps: seq<Step>)
    requires SysInv(sys) && Exec(sys, steps).Some?
    ensures SysInv(Exec(sys, steps).value) && SysGrows(sys, Exec(sys, steps).value)
  {
    if steps != [] {
      var n := |steps| - 1;
      RunKeeps(sys, steps[..n]);
      NextKeeps(Exec(sys, steps[..n]).value, steps[n]);
      GrowsChain(sys, Exec(sys, steps[..n]).value, Exec(sys, steps).value);
    }
  }

  lemma GrowsChain(a: System, b: System, c: System)
    requires SysGrows(a, b) && SysGrows(b, c)
    ensures SysGrows(a, c)
  {
    forall m | m in a.peers ensures Grows(a.peers[m], c.peers[m]) {
      assert Grows(a.peers[m], b.peers[m]) && Grows(b.peers[m], c.peers[m]);
    }
  }

  lemma Reachable(mods: map<string, (Handlers, int)>, steps: seq<Step>)
    requires Exec(Init(mods), steps).Some?
    ensures SysInv(Exec(Init(mods), steps).value)
  {
    InitHolds(mods);
    RunKeeps(Init(mods), steps);
  }

  lemma {:induction false} ExecPrefix(sys: System, steps: seq<Step>, k: nat)
    requires k <= |steps| && Exec(sys, steps).Some?
    ensures Exec(sys, steps[..k]).Some?
    ensures k < |steps| ==> CanStep(Exec(sys, steps[..k]).value, steps[k])
    ensures k < |steps| ==> Exec(sys, steps[..k + 1]) == Some(Next(Exec(sys, steps[..k]).value, steps[k]))
  {
    var n := |steps| - 1;
    if k == |steps| {
      assert steps[..k] == steps;
    } else if k < n {
      ExecPrefix(sys, steps[..n], k);
      assert steps[..n][..k] == steps[..k] && steps[..n][..k + 1] == steps[..k + 1];
    } else {
      assert steps[..k + 1] == steps;
    }
  }
}
