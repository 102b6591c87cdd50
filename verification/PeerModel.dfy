/** The peer-to-peer protocol as a step system.

    A system is a set of modules with distinct names and a network. Each module has any
    number of application threads, one receive thread and one timer thread. A step is one
    critical section of `timer_mutex`, one callback, or one publish. */
module PeerModel {
  import opened Messages
  import opened TimerTasks

  /** Which entries of `MID_CLIENT_HANDLER` are non-null. */
  datatype Handlers = Handlers(
    request: bool,
    requestTimeout: bool,
    respFinal: bool,
    notify: bool,
    notifyTimeout: bool,
    report: bool,
    respTemp: bool)

  /** One call of an application callback, with the arguments it received. */
  datatype Event =
    | OnRequest(src: string, msgName: string, rid: int, body: string, inarg: int)
    | OnNotify(src: string, msgName: string, body: string)
    | OnReport(src: string, msgName: string, body: string)
    | OnRespTemp(dst: string, msgName: string, rid: int, code: string, desc: string, body: string, inarg: int)
    | OnRespFinal(dst: string, msgName: string, rid: int, code: string, desc: string, body: string, inarg: int)
    | OnRequestTimeout(dst: string, msgName: string, rid: int, inarg: int)
    | OnNotifyTimeout(dst: string, msgName: string, rid: int, inarg: int)

  /** A published message with its routing key. */
  datatype Envelope = Envelope(dest: string, props: IntProps, body: string)

  /** The arguments of one `rmRequestMake` or `rmNotifyMake` call, and the time stamp it reads. */
  datatype CallArgs = CallArgs(
    notify: bool, receiver: string, msgName: string, inarg: int, body: string, timeout: int, stamp: int)

  /** Where an application thread stands inside `rmRequestMake` or `rmNotifyMake`. */
  datatype Call =
    | Allocated(rid: int, args: CallArgs)   // id taken, task not yet in the list
    | Registered(rid: int, args: CallArgs)  // task added, message not yet published
    | SendFailed(rid: int, args: CallArgs)  // publish reported failure, task not yet removed

  /** Where the receive thread stands inside `p2pHandleMessage`. */
  datatype Receiver =
    | Idle
    | TempFound(rid: int, task: TimerTask, env: Envelope)
    | TempCalled(rid: int)
    | FinalFound(rid: int, task: TimerTask, env: Envelope)
    | FinalCalled(rid: int)
    | NotifyCalled(env: Envelope)           // automatic response not yet published

  /** One module. The last four fields are history: no step reads them. */
  datatype Peer = Peer(
    handlers: Handlers,
    nextId: int,
    tasks: seq<TimerTask>,
    threads: map<nat, Call>,
    receiver: Receiver,
    log: seq<Event>,
    clock: int,
    lastSweep: int,              // time of the latest sweep
    issued: map<int, CallArgs>,  // arguments of the call that allocated each id
    started: map<int, int>,      // latest start or restart of each task
    ended: set<int>)             // ids whose task was taken out of the list

  datatype System = System(peers: map<string, Peer>, net: set<Envelope>)

  datatype Op =
    | Allocate(thread: nat, args: CallArgs)
    | Register(thread: nat, now: int)
    | Publish(thread: nat, published: bool, ok: bool)
    | Undo(thread: nat)
    | Respond(src: string, rid: int, final: bool, stamp: int, code: string, desc: string, body: string, published: bool)
    | SendReport(dest: string, msgName: string, stamp: int, body: string, published: bool)
    | Deliver(env: Envelope)
    | Callback
    | Finish(now: int, stamp: int, published: bool)
    | Sweep(now: int)

  datatype Step = Step(m: string, op: Op)

  // ---------------------------------------------------------------- message records

  function CallProps(sender: string, rid: int, args: CallArgs): IntProps {
    IntProps(sender, args.receiver, if args.notify then Notification else Request, args.msgName, rid, args.inarg,
             args.stamp, "no code", "no description", "no transparent")
  }

  function CallEnvelope(sender: string, rid: int, args: CallArgs): Envelope {
    Envelope(args.receiver, CallProps(sender, rid, args), args.body)
  }

  function CallTask(sender: string, rid: int, args: CallArgs, now: int): TimerTask {
    NewTask(rid, args.receiver, args.body, TruncDiv(args.timeout, 1000), CallProps(sender, rid, args), now)
  }

  function ResponseEnvelope(
    sender: string, dest: string, rid: int, final: bool, stamp: int, code: string, desc: string, body: string): Envelope
  {
    Envelope(dest,
             IntProps(sender, dest, if final then FinalResponse else TemporaryResponse,
                      if final then "finalrsp" else "temprsp", rid, NULL_ARG, stamp, code, desc, "no transparent"),
             body)
  }

  function AutoResponse(sender: string, env: Envelope, stamp: int): Envelope {
    ResponseEnvelope(sender, env.props.sender, env.props.rid, true, stamp, "200", "Auto Rsp Ok", "{}")
  }

  function ReportEnvelope(sender: string, dest: string, msgName: string, stamp: int, body: string): Envelope {
    Envelope(dest,
             IntProps(sender, dest, Report, msgName, -1, NULL_ARG, stamp,
                      "no code", "no description", "no transparent"),
             body)
  }

  // ---------------------------------------------------------------- callbacks

  /** `p2pTimeoutProc`: the callback a removed task causes, if its handler is set. */
  function TimeoutEvents(h: Handlers, t: TimerTask): seq<Event> {
    if t.props.msgtype == Request && h.requestTimeout then
      [OnRequestTimeout(t.props.receiver, t.props.msgname, t.props.rid, t.props.inarg)]
    else if t.props.msgtype == Notification && h.notifyTimeout then
      [OnNotifyTimeout(t.props.receiver, t.props.msgname, t.props.rid, t.props.inarg)]
    else []
  }

  function AllTimeoutEvents(h: Handlers, ts: seq<TimerTask>): seq<Event> {
    if ts == [] then [] else TimeoutEvents(h, ts[0]) + AllTimeoutEvents(h, ts[1..])
  }

  function TempEvent(t: TimerTask, env: Envelope): Event {
    OnRespTemp(t.props.receiver, t.props.msgname, env.props.rid, env.props.rspcode, env.props.rspdesc, env.body,
               t.props.inarg)
  }

  function FinalEvents(t: TimerTask, env: Envelope): seq<Event> {
    if t.props.msgtype == Request then
      [OnRespFinal(t.props.receiver, t.props.msgname, env.props.rid, env.props.rspcode, env.props.rspdesc, env.body,
                   t.props.inarg)]
    else []
  }

  // ---------------------------------------------------------------- steps of one module

  /** The module was asked (src, rid) through its request callback. */
  predicate Asked(s: Peer, src: string, rid: int) {
    exists e :: e in s.log && e.OnRequest? && e.src == src && e.rid == rid
  }

  predicate Enabled(s: Peer, op: Op) {
    match op
    case Allocate(th, _) => th !in s.threads
    case Register(th, now) => th in s.threads && s.threads[th].Allocated? && now >= s.clock
    case Publish(th, published, ok) =>
      && th in s.threads && s.threads[th].Registered?
      && (s.threads[th].args.receiver == "" ==> !published && !ok)
    case Undo(th) => th in s.threads && s.threads[th].SendFailed?
    case Respond(src, rid, _, _, _, _, _, published) => Asked(s, src, rid) && (src == "" ==> !published)
    case SendReport(dest, _, _, _, published) => dest == "" ==> !published
    case Deliver(_) => s.receiver.Idle?
    case Callback => s.receiver.TempFound? || s.receiver.FinalFound?
    case Finish(now, _, published) =>
      && (s.receiver.TempCalled? || s.receiver.FinalCalled? || s.receiver.NotifyCalled?)
      && now >= s.clock
      && (s.receiver.NotifyCalled? && s.receiver.env.props.sender == "" ==> !published)
    case Sweep(now) => now >= s.clock
  }

  function Receive(s: Peer, env: Envelope): Peer {
    var p := env.props;
    if p.msgtype == Request && s.handlers.request then
      s.(log := s.log + [OnRequest(p.sender, p.msgname, p.rid, env.body, p.inarg)])
    else if p.msgtype == Notification && s.handlers.notify then
      s.(log := s.log + [OnNotify(p.sender, p.msgname, env.body)], receiver := NotifyCalled(env))
    else if p.msgtype == Report && s.handlers.report then
      s.(log := s.log + [OnReport(p.sender, p.msgname, env.body)])
    else if p.msgtype == TemporaryResponse && s.handlers.respTemp then
      match Find(s.tasks, p.rid)
      case Some(t) => s.(receiver := TempFound(p.rid, t, env))
      case None => s
    else if p.msgtype == FinalResponse && s.handlers.respFinal then
      match Find(s.tasks, p.rid)
      case Some(t) => s.(receiver := FinalFound(p.rid, t, env))
      case None => s
    else s
  }

  function RemoveTask(s: Peer, rid: int): Peer {
    s.(tasks := Remove(s.tasks, rid), ended := if rid in Ids(s.tasks) then s.ended + {rid} else s.ended)
  }

  function SweepTasks(s: Peer, now: int): Peer {
    var ids := DueIds(s.tasks, now);
    s.(tasks := Spared(s.tasks, ids),
       log := s.log + AllTimeoutEvents(s.handlers, Doomed(s.tasks, ids)),
       ended := s.ended + Ids(Doomed(s.tasks, ids)),
       clock := now,
       lastSweep := now)
  }

  function Local(name: string, s: Peer, op: Op): Peer
    requires Enabled(s, op)
  {
    match op
    case Allocate(th, args) =>
      s.(nextId := s.nextId + 1, threads := s.threads[th := Allocated(s.nextId, args)],
         issued := s.issued[s.nextId := args])
    case Register(th, now) =>
      var c := s.threads[th];
      s.(tasks := s.tasks + [CallTask(name, c.rid, c.args, now)], threads := s.threads[th := Registered(c.rid, c.args)],
         started := s.started[c.rid := now], clock := now)
    case Publish(th, _, ok) =>
      var c := s.threads[th];
      s.(threads := if ok then s.threads - {th} else s.threads[th := SendFailed(c.rid, c.args)])
    case Undo(th) => RemoveTask(s, s.threads[th].rid).(threads := s.threads - {th})
    case Respond(_, _, _, _, _, _, _, _) => s
    case SendReport(_, _, _, _, _) => s
    case Deliver(env) => Receive(s, env)
    case Callback =>
      if s.receiver.TempFound? then
        s.(log := s.log + [TempEvent(s.receiver.task, s.receiver.env)], receiver := TempCalled(s.receiver.rid))
      else
        s.(log := s.log + FinalEvents(s.receiver.task, s.receiver.env), receiver := FinalCalled(s.receiver.rid))
    case Finish(now, _, _) =>
      var s' := s.(receiver := Idle, clock := now);
      (match s.receiver
       case TempCalled(rid) =>
         s'.(tasks := Restart(s.tasks, rid, now),
             started := if rid in Ids(s.tasks) then s.started[rid := now] else s.started)
       case FinalCalled(rid) => RemoveTask(s', rid)
       case _ => s')
    case Sweep(now) => SweepTasks(s, now)
  }

  /** What a step hands to the broker. */
  function Sent(name: string, s: Peer, op: Op): set<Envelope>
    requires Enabled(s, op)
  {
    match op
    case Publish(th, published, _) =>
      if published then {CallEnvelope(name, s.threads[th].rid, s.threads[th].args)} else {}
    case Respond(src, rid, final, stamp, code, desc, body, published) =>
      if published then {ResponseEnvelope(name, src, rid, final, stamp, code, desc, body)} else {}
    case SendReport(dest, msgName, stamp, body, published) =>
      if published then {ReportEnvelope(name, dest, msgName, stamp, body)} else {}
    case Finish(_, stamp, published) =>
      if s.receiver.NotifyCalled? && published then {AutoResponse(name, s.receiver.env, stamp)} else {}
    case _ => {}
  }

  // ---------------------------------------------------------------- runs of the system

  predicate CanStep(sys: System, step: Step) {
    && step.m in sys.peers
    && Enabled(sys.peers[step.m], step.op)
    && (step.op.Deliver? ==> step.op.env in sys.net && step.op.env.dest == step.m)
  }

  /** A message once handed to the broker may be delivered to the module its routing key names
      at any later time, or never: the network may lose, delay, reorder and repeat. */
  function Next(sys: System, step: Step): System
    requires CanStep(sys, step)
  {
    var s := sys.peers[step.m];
    System(sys.peers[step.m := Local(step.m, s, step.op)], sys.net + Sent(step.m, s, step.op))
  }

  function Exec(sys: System, steps: seq<Step>): Option<System> {
    if steps == [] then Some(sys)
    else
      match Exec(sys, steps[..|steps| - 1])
      case None => None
      case Some(s) => if CanStep(s, steps[|steps| - 1]) then Some(Next(s, steps[|steps| - 1])) else None
  }

  function InitPeer(h: Handlers, clock: int): Peer {
    Peer(h, 0, [], map[], Idle, [], clock, clock, map[], map[], {})
  }

  function Init(mods: map<string, (Handlers, int)>): System {
    System(map m | m in mods :: InitPeer(mods[m].0, mods[m].1), {})
  }
}
