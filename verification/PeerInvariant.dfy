/** What every step of the peer-to-peer protocol keeps. */
module PeerInvariant {
  import opened Messages
  import opened TimerTasks
  import opened PeerModel

  // ---------------------------------------------------------------- counting callbacks

  datatype Kind = TempKind | FinalKind | TimeoutKind

  predicate Is(e: Event, kind: Kind, r: int) {
    match kind
    case TempKind => e.OnRespTemp? && e.rid == r
    case FinalKind => e.OnRespFinal? && e.rid == r
    case TimeoutKind => (e.OnRequestTimeout? || e.OnNotifyTimeout?) && e.rid == r
  }

  /** How many callbacks of this kind the log holds for id r. */
  function Count(log: seq<Event>, kind: Kind, r: int): nat {
    if log == [] then 0 else (if Is(log[0], kind, r) then 1 else 0) + Count(log[1..], kind, r)
  }

  lemma {:induction false} CountAppend(a: seq<Event>, b: seq<Event>, kind: Kind, r: int)
    ensures Count(a + b, kind, r) == Count(a, kind, r) + Count(b, kind, r)
  {
    if a == [] {
      assert a + b == b;
    } else {
      assert (a + b)[1..] == a[1..] + b;
      CountAppend(a[1..], b, kind, r);
    }
  }

  lemma {:induction false} CountZero(log: seq<Event>, kind: Kind, r: int)
    ensures Count(log, kind, r) == 0 <==> forall e :: e in log ==> !Is(e, kind, r)
  {
    if log != [] {
      CountZero(log[1..], kind, r);
      assert forall e :: e in log <==> e == log[0] || e in log[1..];
    }
  }

  // ---------------------------------------------------------------- invariant of one module

  /** The id has been registered: its task is in the list, or was taken out of it. */
  predicate Live(s: Peer, r: int) {
    r in Ids(s.tasks) || r in s.ended
  }

  predicate Pending(s: Peer, r: int) {
    exists th :: th in s.threads && s.threads[th].Allocated? && s.threads[th].rid == r
  }

  ghost predicate IdsInv(s: Peer) {
    && s.nextId >= 0
    && (forall r :: r in s.issued <==> 0 <= r < s.nextId)
    && (forall r :: Live(s, r) ==> r in s.issued)
    && (forall r :: r in s.ended ==> r !in Ids(s.tasks))
    && (forall r :: r in s.issued ==> Live(s, r) || Pending(s, r))
  }

  predicate KnownTask(name: string, s: Peer, t: TimerTask) {
    && t.id in s.issued && t.id in s.started
    && t == CallTask(name, t.id, s.issued[t.id], s.started[t.id])
  }

  ghost predicate TasksInv(name: string, s: Peer) {
    && DistinctIds(s.tasks)
    && (forall t :: t in s.tasks ==> KnownTask(name, s, t))
  }

  ghost predicate ThreadsInv(s: Peer) {
    && (forall th :: th in s.threads ==>
          && s.threads[th].rid in s.issued
          && s.issued[s.threads[th].rid] == s.threads[th].args
          && (s.threads[th].Allocated? <==> !Live(s, s.threads[th].rid)))
    && (forall th, th' :: th in s.threads && th' in s.threads && th != th' ==> s.threads[th].rid != s.threads[th'].rid)
  }

  /** A task snapshot taken at lookup names the arguments of the call that allocated r. */
  predicate SnapshotOf(name: string, s: Peer, r: int, t: TimerTask) {
    r in s.issued && t.props == CallProps(name, r, s.issued[r])
  }

  /** A response held or delivered at `name` is for a registered id of that module, and comes
      from the module the call of that id was addressed to. */
  predicate ResponseFor(s: Peer, env: Envelope) {
    && env.props.rid in s.issued && Live(s, env.props.rid)
    && env.props.sender == s.issued[env.props.rid].receiver
    && (env.props.msgtype.TemporaryResponse? ==> !s.issued[env.props.rid].notify)
  }

  predicate ReceiverInv(name: string, s: Peer) {
    match s.receiver
    case Idle => true
    case TempFound(r, t, env) =>
      SnapshotOf(name, s, r, t) && env.props.rid == r && env.props.msgtype.TemporaryResponse? && ResponseFor(s, env)
    case TempCalled(r) => Live(s, r)
    case FinalFound(r, t, env) =>
      && SnapshotOf(name, s, r, t) && env.props.rid == r && env.props.msgtype.FinalResponse? && ResponseFor(s, env)
      && Count(s.log, FinalKind, r) == 0
    case FinalCalled(r) =>
      Live(s, r) && r in s.issued && (!s.issued[r].notify ==> Count(s.log, FinalKind, r) == 1)
    case NotifyCalled(env) => env.props.msgtype.Notification?
  }

  /** A callback about id r carries the arguments of the call that allocated r. */
  predicate Correlated(s: Peer, r: int, dst: string, msgName: string, inarg: int, notify: bool) {
    && r in s.issued
    && s.issued[r].receiver == dst && s.issued[r].msgName == msgName && s.issued[r].inarg == inarg
    && s.issued[r].notify == notify
  }

  predicate EventInv(s: Peer, e: Event) {
    match e
    case OnRespTemp(dst, msgName, r, _, _, _, inarg) => Correlated(s, r, dst, msgName, inarg, false) && Live(s, r)
    case OnRespFinal(dst, msgName, r, _, _, _, inarg) =>
      && Correlated(s, r, dst, msgName, inarg, false) && Live(s, r)
      && (r in Ids(s.tasks) ==> s.receiver == FinalCalled(r))
    case OnRequestTimeout(dst, msgName, r, inarg) => Correlated(s, r, dst, msgName, inarg, false) && r in s.ended
    case OnNotifyTimeout(dst, msgName, r, inarg) => Correlated(s, r, dst, msgName, inarg, true) && r in s.ended
    case _ => true
  }

  ghost predicate LogInv(s: Peer) {
    && (forall e :: e in s.log ==> EventInv(s, e))
    && (forall r :: Count(s.log, FinalKind, r) <= 1)
    && (forall r :: Count(s.log, TimeoutKind, r) <= 1)
  }

  function Max(a: int, b: int): int {
    if a >= b then a else b
  }

  ghost predicate TimeInv(s: Peer) {
    && s.lastSweep <= s.clock
    && (forall r :: r in s.started ==> s.started[r] <= s.clock)
    && (forall t :: t in s.tasks && t.id in s.started ==> s.lastSweep <= Max(t.expireTime, s.started[t.id]))
  }

  ghost predicate LocalInv(name: string, s: Peer) {
    && IdsInv(s)
    && TasksInv(name, s)
    && ThreadsInv(s)
    && ReceiverInv(name, s)
    && LogInv(s)
    && TimeInv(s)
  }

  // ---------------------------------------------------------------- one step of one module

  /** What delivery may rely on: a response in the network is for a registered id. */
  predicate DeliveryOk(s: Peer, op: Op) {
    op.Deliver? && (op.env.props.msgtype.TemporaryResponse? || op.env.props.msgtype.FinalResponse?) ==>
      ResponseFor(s, op.env)
  }

  lemma PendingStays(s: Peer, s': Peer)
    requires forall th :: th in s.threads && s.threads[th].Allocated? ==>
      th in s'.threads && s'.threads[th] == s.threads[th]
    ensures forall r :: Pending(s, r) ==> Pending(s', r)
  {
  }

  lemma AllocateIds(name: string, s: Peer, op: Op)
    requires IdsInv(s) && ThreadsInv(s) && Enabled(s, op) && op.Allocate?
    ensures IdsInv(Local(name, s, op)) && ThreadsInv(Local(name, s, op))
  {
    var s' := Local(name, s, op);
    assert s.nextId !in s.issued;
    assert s'.threads[op.thread].rid == s.nextId;
    forall r | r in s'.issued ensures Live(s', r) || Pending(s', r) {
      if r != s.nextId && !Live(s, r) {
        var th :| th in s.threads && s.threads[th].Allocated? && s.threads[th].rid == r;
        assert th in s'.threads && s'.threads[th] == s.threads[th];
      }
    }
  }

  lemma AllocateKeeps(name: string, s: Peer, op: Op)
    requires LocalInv(name, s) && Enabled(s, op) && op.Allocate?
    ensures LocalInv(name, Local(name, s, op))
  {
    var s' := Local(name, s, op);
    AllocateIds(name, s, op);
    assert s.nextId !in s.issued;
    assert forall t :: t in s.tasks ==> KnownTask(name, s', t);
    assert forall e :: e in s.log ==> EventInv(s', e);
  }

  lemma RegisterKeepsTasks(name: string, s: Peer, op: Op)
    requires LocalInv(name, s) && Enabled(s, op) && op.Register?
    ensures Ids(Local(name, s, op).tasks) == Ids(s.tasks) + {s.threads[op.thread].rid}
    ensures TasksInv(name, Local(name, s, op)) && TimeInv(Local(name, s, op))
  {
    var s' := Local(name, s, op);
    var c := s.threads[op.thread];
    var t := CallTask(name, c.rid, c.args, op.now);
    assert !Live(s, c.rid);
    AddMembers(s.tasks, t);
    forall u | u in s'.tasks ensures KnownTask(name, s', u) {
      assert u == t || u in s.tasks;
      assert u in s.tasks ==> u.id in Ids(s.tasks);
    }
  }

  lemma RegisterKeeps(name: string, s: Peer, op: Op)
    requires LocalInv(name, s) && Enabled(s, op) && op.Register?
    ensures LocalInv(name, Local(name, s, op))
  {
    var s' := Local(name, s, op);
    var c := s.threads[op.thread];
    RegisterKeepsTasks(name, s, op);
    assert !Live(s, c.rid);
    assert forall r :: Live(s', r) <==> Live(s, r) || r == c.rid;
    forall r | r in s'.issued ensures Live(s', r) || Pending(s', r) {
      if r != c.rid && !Live(s, r) {
        var th :| th in s.threads && s.threads[th].Allocated? && s.threads[th].rid == r;
        assert th in s'.threads && s'.threads[th] == s.threads[th];
      }
    }
    assert forall e :: e in s.log ==> EventInv(s', e);
  }

  /** A thread that holds no unregistered id may finish. */
  lemma DropThreadIds(s: Peer, th: nat)
    requires IdsInv(s) && ThreadsInv(s) && th in s.threads && !s.threads[th].Allocated?
    ensures IdsInv(s.(threads := s.threads - {th})) && ThreadsInv(s.(threads := s.threads - {th}))
  {
    var s' := s.(threads := s.threads - {th});
    PendingStays(s, s');
    assert forall r :: Live(s', r) <==> Live(s, r);
  }

  lemma DropThreadKeeps(name: string, s: Peer, th: nat)
    requires LocalInv(name, s) && th in s.threads && !s.threads[th].Allocated?
    ensures LocalInv(name, s.(threads := s.threads - {th}))
  {
    var s' := s.(threads := s.threads - {th});
    DropThreadIds(s, th);
    assert forall t :: t in s.tasks ==> KnownTask(name, s', t);
    forall e | e in s.log ensures EventInv(s', e) { assert EventInv(s, e); }
  }

  lemma PublishIds(name: string, s: Peer, op: Op)
    requires IdsInv(s) && ThreadsInv(s) && Enabled(s, op) && op.Publish? && !op.ok
    ensures IdsInv(Local(name, s, op)) && ThreadsInv(Local(name, s, op))
  {
    PendingStays(s, Local(name, s, op));
    assert forall r :: Live(Local(name, s, op), r) <==> Live(s, r);
  }

  lemma PublishKeeps(name: string, s: Peer, op: Op)
    requires LocalInv(name, s) && Enabled(s, op) && op.Publish?
    ensures LocalInv(name, Local(name, s, op))
  {
    if op.ok {
      DropThreadKeeps(name, s, op.thread);
    } else {
      var s' := Local(name, s, op);
      PublishIds(name, s, op);
      assert forall t :: t in s.tasks ==> KnownTask(name, s', t);
      forall e | e in s.log ensures EventInv(s', e) { assert EventInv(s, e); }
    }
  }

  /** Taking an id out of the list moves it from active to ended. */
  lemma RemoveTaskList(name: string, s: Peer, r: int)
    requires LocalInv(name, s)
    ensures TasksInv(name, RemoveTask(s, r)) && TimeInv(RemoveTask(s, r))
    ensures Ids(RemoveTask(s, r).tasks) == Ids(s.tasks) - {r}
    ensures forall x :: Live(RemoveTask(s, r), x) <==> Live(s, x)
  {
    var s' := RemoveTask(s, r);
    RemoveMembers(s.tasks, r);
    RemoveRefinesDelete(s.tasks, r);
    forall t | t in s'.tasks ensures KnownTask(name, s', t) {
      assert KnownTask(name, s, t);
    }
  }

  lemma RemoveTaskKeeps(name: string, s: Peer, r: int)
    requires LocalInv(name, s)
    ensures LocalInv(name, RemoveTask(s, r))
    ensures Ids(RemoveTask(s, r).tasks) == Ids(s.tasks) - {r}
  {
    var s' := RemoveTask(s, r);
    RemoveTaskList(name, s, r);
    PendingStays(s, s');
    assert IdsInv(s') && ThreadsInv(s');
    forall e | e in s.log ensures EventInv(s', e) { assert EventInv(s, e); }
  }

  lemma UndoKeeps(name: string, s: Peer, op: Op)
    requires LocalInv(name, s) && Enabled(s, op) && op.Undo?
    ensures LocalInv(name, Local(name, s, op))
  {
    RemoveTaskKeeps(name, s, s.threads[op.thread].rid);
    DropThreadKeeps(name, RemoveTask(s, s.threads[op.thread].rid), op.thread);
  }

  /** Callbacks that neither answer nor time out any id do not disturb the counts. */
  lemma LogOther(s: Peer, e: Event, receiver: Receiver)
    requires LogInv(s) && s.receiver.Idle?
    requires e.OnRequest? || e.OnNotify? || e.OnReport?
    ensures LogInv(s.(log := s.log + [e], receiver := receiver))
  {
    var s' := s.(log := s.log + [e], receiver := receiver);
    forall kind, r ensures Count(s'.log, kind, r) == Count(s.log, kind, r) {
      CountAppend(s.log, [e], kind, r);
    }
    forall x | x in s'.log ensures EventInv(s', x) {
      assert x == e || EventInv(s, x);
    }
  }

  lemma SameListKeeps(name: string, s: Peer, s': Peer)
    requires IdsInv(s) && TasksInv(name, s) && ThreadsInv(s) && TimeInv(s)
    requires s' == s.(log := s'.log, receiver := s'.receiver, clock := s'.clock) && s'.clock >= s.clock
    ensures IdsInv(s') && TasksInv(name, s') && ThreadsInv(s') && TimeInv(s')
  {
    PendingStays(s, s');
    assert forall t :: t in s.tasks ==> KnownTask(name, s', t);
  }

  /** A task found for a final response has not been answered before. */
  lemma FoundIsFresh(name: string, s: Peer, r: int)
    requires TasksInv(name, s) && LogInv(s) && s.receiver.Idle? && r in Ids(s.tasks)
    ensures Count(s.log, FinalKind, r) == 0
    ensures SnapshotOf(name, s, r, Find(s.tasks, r).value)
  {
    CountZero(s.log, FinalKind, r);
    assert Find(s.tasks, r).value in s.tasks && KnownTask(name, s, Find(s.tasks, r).value);
  }

  lemma LookupFinds(name: string, s: Peer, op: Op)
    requires TasksInv(name, s) && LogInv(s) && ReceiverInv(name, s)
    requires Enabled(s, op) && op.Deliver? && DeliveryOk(s, op)
    requires Local(name, s, op).log == s.log
    ensures ReceiverInv(name, Local(name, s, op))
  {
    if op.env.props.rid in Ids(s.tasks) { FoundIsFresh(name, s, op.env.props.rid); }
  }

  lemma LookupKeepsLog(name: string, s: Peer, op: Op)
    requires LogInv(s) && Enabled(s, op) && op.Deliver? && Local(name, s, op).log == s.log
    ensures LogInv(Local(name, s, op))
  {
    forall x | x in s.log ensures EventInv(Local(name, s, op), x) {
      assert EventInv(s, x);
    }
  }

  lemma DeliverKeeps(name: string, s: Peer, op: Op)
    requires LocalInv(name, s) && Enabled(s, op) && op.Deliver? && DeliveryOk(s, op)
    ensures LocalInv(name, Local(name, s, op))
  {
    var s' := Local(name, s, op);
    SameListKeeps(name, s, s');
    if s'.log == s.log {
      LookupFinds(name, s, op);
      LookupKeepsLog(name, s, op);
    } else {
      LogOther(s, s'.log[|s.log|], s'.receiver);
    }
  }

  /** Adding one callback to the log adds one to its own count. */
  lemma LogOne(log: seq<Event>, e: Event)
    ensures forall kind, r :: Count(log + [e], kind, r) == Count(log, kind, r) + (if Is(e, kind, r) then 1 else 0)
  {
    forall kind, r
      ensures Count(log + [e], kind, r) == Count(log, kind, r) + (if Is(e, kind, r) then 1 else 0)
    {
      CountAppend(log, [e], kind, r);
      assert [e][1..] == [];
    }
  }

  lemma CallbackKeeps(name: string, s: Peer, op: Op)
    requires LocalInv(name, s) && Enabled(s, op) && op.Callback?
    ensures LocalInv(name, Local(name, s, op))
  {
    var s' := Local(name, s, op);
    SameListKeeps(name, s, s');
    if s'.log == s.log {
      forall x | x in s'.log ensures EventInv(s', x) { assert EventInv(s, x); }
    } else {
      var e := if s.receiver.TempFound? then TempEvent(s.receiver.task, s.receiver.env)
               else FinalEvents(s.receiver.task, s.receiver.env)[0];
      assert s'.log == s.log + [e];
      LogOne(s.log, e);
      forall x | x in s'.log ensures EventInv(s', x) { assert x == e || EventInv(s, x); }
    }
  }

  lemma FinishKeeps(name: string, s: Peer, op: Op)
    requires LocalInv(name, s) && Enabled(s, op) && op.Finish?
    ensures LocalInv(name, Local(name, s, op))
  {
    var s' := Local(name, s, op);
    if s.receiver.TempCalled? {
      RestartKeeps(name, s, op);
    } else if s.receiver.FinalCalled? {
      var u := RemoveTask(s, s.receiver.rid);
      RemoveTaskKeeps(name, s, s.receiver.rid);
      assert s' == u.(receiver := Idle, clock := op.now);
      SameListKeeps(name, u, s');
      forall x | x in s'.log ensures EventInv(s', x) { assert EventInv(u, x); }
    } else {
      SameListKeeps(name, s, s');
      forall x | x in s'.log ensures EventInv(s', x) { assert EventInv(s, x); }
    }
  }

  lemma RestartKeepsTasks(name: string, s: Peer, op: Op)
    requires TasksInv(name, s) && TimeInv(s) && Enabled(s, op) && op.Finish? && s.receiver.TempCalled?
    ensures Ids(Local(name, s, op).tasks) == Ids(s.tasks)
    ensures TasksInv(name, Local(name, s, op)) && TimeInv(Local(name, s, op))
  {
    var s' := Local(name, s, op);
    var r := s.receiver.rid;
    RestartMembers(s.tasks, r, op.now);
    RestartIds(s.tasks, r, op.now);
    forall i | 0 <= i < |s'.tasks|
      ensures KnownTask(name, s', s'.tasks[i])
      ensures s'.lastSweep <= Max(s'.tasks[i].expireTime, s'.started[s'.tasks[i].id])
    {
      RestartKeepsOne(name, s, op, i);
    }
  }

  lemma RestartKeepsOne(name: string, s: Peer, op: Op, i: nat)
    requires TasksInv(name, s) && TimeInv(s) && Enabled(s, op) && op.Finish? && s.receiver.TempCalled?
    requires i < |s.tasks| == |Local(name, s, op).tasks|
    requires Local(name, s, op).tasks[i]
          == (if s.tasks[i].id == s.receiver.rid then Restarted(s.tasks[i], op.now) else s.tasks[i])
    ensures var s' := Local(name, s, op);
      && KnownTask(name, s', s'.tasks[i])
      && s'.lastSweep <= Max(s'.tasks[i].expireTime, s'.started[s'.tasks[i].id])
  {
    assert s.tasks[i] in s.tasks && KnownTask(name, s, s.tasks[i]);
    assert s.tasks[i].id in Ids(s.tasks);
  }

  lemma RestartKeeps(name: string, s: Peer, op: Op)
    requires LocalInv(name, s) && Enabled(s, op) && op.Finish? && s.receiver.TempCalled?
    ensures LocalInv(name, Local(name, s, op))
  {
    var s' := Local(name, s, op);
    RestartKeepsTasks(name, s, op);
    PendingStays(s, s');
    assert forall x :: Live(s', x) <==> Live(s, x);
    forall x | x in s'.log ensures EventInv(s', x) { assert EventInv(s, x); }
  }

  // ---------------------------------------------------------------- the sweep

  /** What the log says about the id it names. */
  lemma LoggedMeans(s: Peer, r: int)
    requires LogInv(s)
    ensures Count(s.log, FinalKind, r) >= 1 && r in Ids(s.tasks) ==> s.receiver == FinalCalled(r)
    ensures Count(s.log, TimeoutKind, r) >= 1 ==> r in s.ended
  {
    CountZero(s.log, TimeoutKind, r);
    CountZero(s.log, FinalKind, r);
  }

  /** Each removed task causes at most one timeout callback, carrying its own id. */
  lemma {:induction false} TimeoutEventsOf(name: string, s: Peer, ts: seq<TimerTask>)
    requires forall t :: t in ts ==> KnownTask(name, s, t)
    ensures forall e :: e in AllTimeoutEvents(s.handlers, ts) ==>
      && (e.OnRequestTimeout? || e.OnNotifyTimeout?) && e.rid in Ids(ts)
      && Correlated(s, e.rid, e.dst, e.msgName, e.inarg, e.OnNotifyTimeout?)
    ensures forall r :: r !in Ids(ts) ==> Count(AllTimeoutEvents(s.handlers, ts), TimeoutKind, r) == 0
    ensures forall r :: Count(AllTimeoutEvents(s.handlers, ts), FinalKind, r) == 0
  {
    var es := AllTimeoutEvents(s.handlers, ts);
    if ts != [] {
      assert ts[0] in ts;
      TimeoutEventsOf(name, s, ts[1..]);
      forall e | e in es
        ensures (e.OnRequestTimeout? || e.OnNotifyTimeout?) && e.rid in Ids(ts)
        ensures Correlated(s, e.rid, e.dst, e.msgName, e.inarg, e.OnNotifyTimeout?)
      {
        assert e in TimeoutEvents(s.handlers, ts[0]) || e in AllTimeoutEvents(s.handlers, ts[1..]);
        assert Ids(ts[1..]) <= Ids(ts);
      }
    }
    forall r ensures r !in Ids(ts) ==> Count(es, TimeoutKind, r) == 0 { CountZero(es, TimeoutKind, r); }
    forall r ensures Count(es, FinalKind, r) == 0 { CountZero(es, FinalKind, r); }
  }

  /** The handler is set that a timeout of id r calls. */
  predicate TimeoutSet(s: Peer, r: int)
    requires r in s.issued
  {
    if s.issued[r].notify then s.handlers.notifyTimeout else s.handlers.requestTimeout
  }

  lemma {:induction false} OneTimeoutPerTask(name: string, s: Peer, ts: seq<TimerTask>, r: int)
    requires DistinctIds(ts)
    requires forall t :: t in ts ==> KnownTask(name, s, t)
    ensures r in Ids(ts) ==> r in s.issued
    ensures Count(AllTimeoutEvents(s.handlers, ts), TimeoutKind, r)
         == if r in Ids(ts) && TimeoutSet(s, r) then 1 else 0
  {
    if ts != [] {
      assert ts[0] in ts;
      OneTimeoutPerTask(name, s, ts[1..], r);
      var first := TimeoutEvents(s.handlers, ts[0]);
      CountAppend(first, AllTimeoutEvents(s.handlers, ts[1..]), TimeoutKind, r);
      assert Ids(ts) == {ts[0].id} + Ids(ts[1..]) by {
        assert forall t :: t in ts <==> t == ts[0] || t in ts[1..];
      }
      assert ts[0].id !in Ids(ts[1..]) by {
        forall t | t in ts[1..] ensures t.id != ts[0].id {
          var i :| 0 <= i < |ts[1..]| && ts[1..][i] == t;
          assert ts[i + 1] == t;
        }
      }
      assert |first| == 1 ==> first[1..] == [];
    }
  }

  lemma SweepList(name: string, s: Peer, op: Op)
    requires LocalInv(name, s) && Enabled(s, op) && op.Sweep?
    ensures var s' := Local(name, s, op);
      && TasksInv(name, s')
      && Ids(s'.tasks) == Ids(s.tasks) - Ids(Due(s.tasks, op.now))
      && s'.ended == s.ended + Ids(Due(s.tasks, op.now))
      && s'.log == s.log + AllTimeoutEvents(s.handlers, Due(s.tasks, op.now))
      && DistinctIds(Due(s.tasks, op.now))
      && (forall t :: t in s'.tasks ==> t in s.tasks && op.now < t.expireTime)
      && (forall t :: t in Due(s.tasks, op.now) ==> t in s.tasks && KnownTask(name, s, t))
      && (forall r :: Live(s', r) <==> Live(s, r))
  {
    var s' := Local(name, s, op);
    var ids := DueIds(s.tasks, op.now);
    SweepTakesExactlyTheDue(s.tasks, op.now);
    PassDistinct(s.tasks, ids);
    SweepRefinesDelete(s.tasks, op.now);
    DueMembers(s.tasks, op.now);
    assert AsMap(s'.tasks).Keys == Ids(s'.tasks) && AsMap(s.tasks).Keys == Ids(s.tasks);
    forall t | t in s'.tasks ensures KnownTask(name, s', t) { assert KnownTask(name, s, t); }
    assert Ids(Due(s.tasks, op.now)) <= Ids(s.tasks);
  }

  lemma SweepCounts(name: string, s: Peer, op: Op, r: int)
    requires LocalInv(name, s) && Enabled(s, op) && op.Sweep?
    ensures Count(Local(name, s, op).log, FinalKind, r) == Count(s.log, FinalKind, r)
    ensures Count(Local(name, s, op).log, TimeoutKind, r) <= 1
  {
    SweepList(name, s, op);
    AddTimeouts(name, s, Due(s.tasks, op.now), r);
    LoggedMeans(s, r);
    if r in Ids(Due(s.tasks, op.now)) {
      var t :| t in Due(s.tasks, op.now) && t.id == r;
      assert t in s.tasks;
    }
  }

  lemma AddTimeouts(name: string, s: Peer, due: seq<TimerTask>, r: int)
    requires DistinctIds(due) && forall t :: t in due ==> KnownTask(name, s, t)
    ensures r in Ids(due) ==> r in s.issued
    ensures var es := AllTimeoutEvents(s.handlers, due);
      && Count(s.log + es, FinalKind, r) == Count(s.log, FinalKind, r)
      && Count(s.log + es, TimeoutKind, r) == Count(s.log, TimeoutKind, r) +
           (if r in Ids(due) && TimeoutSet(s, r) then 1 else 0)
  {
    TimeoutEventsOf(name, s, due);
    CountAppend(s.log, AllTimeoutEvents(s.handlers, due), FinalKind, r);
    CountAppend(s.log, AllTimeoutEvents(s.handlers, due), TimeoutKind, r);
    OneTimeoutPerTask(name, s, due, r);
  }

  lemma SweepKeepsLog(name: string, s: Peer, op: Op)
    requires LocalInv(name, s) && Enabled(s, op) && op.Sweep?
    ensures LogInv(Local(name, s, op))
    ensures forall r :: Count(Local(name, s, op).log, FinalKind, r) == Count(s.log, FinalKind, r)
  {
    var s' := Local(name, s, op);
    var due := Due(s.tasks, op.now);
    SweepList(name, s, op);
    TimeoutEventsOf(name, s, due);
    forall x | x in s'.log ensures EventInv(s', x) {
      if x in s.log { assert EventInv(s, x); } else { assert x in AllTimeoutEvents(s.handlers, due); }
    }
    forall r
      ensures Count(s'.log, FinalKind, r) == Count(s.log, FinalKind, r)
      ensures Count(s'.log, TimeoutKind, r) <= 1
    {
      SweepCounts(name, s, op, r);
    }
  }

  lemma SweepKeeps(name: string, s: Peer, op: Op)
    requires LocalInv(name, s) && Enabled(s, op) && op.Sweep?
    ensures LocalInv(name, Local(name, s, op))
  {
    var s' := Local(name, s, op);
    SweepList(name, s, op);
    SweepKeepsLog(name, s, op);
    PendingStays(s, s');
  }

  lemma LocalKeeps(name: string, s: Peer, op: Op)
    requires LocalInv(name, s) && Enabled(s, op) && DeliveryOk(s, op)
    ensures LocalInv(name, Local(name, s, op))
  {
    match op
    case Allocate(_, _) => AllocateKeeps(name, s, op);
    case Register(_, _) => RegisterKeeps(name, s, op);
    case Publish(_, _, _) => PublishKeeps(name, s, op);
    case Undo(_) => UndoKeeps(name, s, op);
    case Deliver(_) => DeliverKeeps(name, s, op);
    case Callback => CallbackKeeps(name, s, op);
    case Finish(_, _, _) => FinishKeeps(name, s, op);
    case Sweep(_) => SweepKeeps(name, s, op);
    case _ =>
  }
}
