/** The client object: the timer-task list with its loops, the message handler, the timer sweep
    and the request calls, each proved to do what the step system says. */
module MidClient {
  import opened Messages
  import opened TimerTasks
  import opened PeerModel

  lemma DueIdsStep(ts: seq<TimerTask>, i: nat, now: int)
    requires i < |ts|
    ensures ts[i..] == [ts[i]] + ts[i + 1..]
    ensures DueIds(ts[i..], now)
         == (if now >= ts[i].expireTime then [ts[i].id] else []) + DueIds(ts[i + 1..], now)
  {
  }

  lemma {:induction false} NothingDoomed(ts: seq<TimerTask>)
    ensures Spared(ts, []) == ts && Doomed(ts, []) == []
  {
    if ts != [] {
      NothingDoomed(ts[1..]);
    }
  }

  /** Taking out what was just added restores the vector. */
  lemma AddThenRemove(ts: seq<TimerTask>, t: TimerTask)
    requires DistinctIds(ts) && t.id !in Ids(ts)
    ensures DistinctIds(ts + [t]) && Ids(ts + [t]) == Ids(ts) + {t.id}
    ensures Remove(ts + [t], t.id) == ts
  {
  }

  /** What `p2pTimeoutProc` calls back for one task; nothing for another exchange type. */
  function TimeoutCall(exchangeType: ExchangeType, h: Handlers, t: TimerTask): seq<Event> {
    if exchangeType == P2PType then TimeoutEvents(h, t) else []
  }

  function TimeoutCalls(exchangeType: ExchangeType, h: Handlers, ts: seq<TimerTask>): seq<Event> {
    if exchangeType == P2PType then AllTimeoutEvents(h, ts) else []
  }

  /** The erasing walk over `start` stands at position `it` of what is left, `ts`, after making `calls`. */
  ghost predicate Erasing(
    exchangeType: ExchangeType, h: Handlers, start: seq<TimerTask>, ids: seq<int>,
    ts: seq<TimerTask>, it: nat, calls: seq<Event>)
  {
    && it <= |ts|
    && ts[..it] + Spared(ts[it..], ids) == Spared(start, ids)
    && calls + TimeoutCalls(exchangeType, h, Doomed(ts[it..], ids)) == TimeoutCalls(exchangeType, h, Doomed(start, ids))
  }

  lemma EraseOne(
    exchangeType: ExchangeType, h: Handlers, start: seq<TimerTask>, ids: seq<int>,
    ts: seq<TimerTask>, it: nat, calls: seq<Event>)
    requires Erasing(exchangeType, h, start, ids, ts, it, calls) && it < |ts| && ts[it].id in ids
    ensures Erasing(exchangeType, h, start, ids, ts[..it] + ts[it + 1..], it,
                    calls + TimeoutCall(exchangeType, h, ts[it]))
  {
    var us := ts[..it] + ts[it + 1..];
    assert us[..it] == ts[..it] && us[it..] == ts[it + 1..] == ts[it..][1..];
  }

  lemma KeepOne(
    exchangeType: ExchangeType, h: Handlers, start: seq<TimerTask>, ids: seq<int>,
    ts: seq<TimerTask>, it: nat, calls: seq<Event>)
    requires Erasing(exchangeType, h, start, ids, ts, it, calls) && it < |ts| && ts[it].id !in ids
    ensures Erasing(exchangeType, h, start, ids, ts, it + 1, calls)
  {
    assert ts[it + 1..] == ts[it..][1..] && ts[..it + 1] == ts[..it] + [ts[it]];
  }

  lemma ErasingEnds(
    exchangeType: ExchangeType, h: Handlers, start: seq<TimerTask>, ids: seq<int>,
    ts: seq<TimerTask>, calls: seq<Event>)
    requires Erasing(exchangeType, h, start, ids, ts, |ts|, calls)
    ensures ts == Spared(start, ids) && calls == TimeoutCalls(exchangeType, h, Doomed(start, ids))
  {
    assert ts[..|ts|] == ts && ts[|ts|..] == [];
  }

  /** No id is listed twice, and every listed id is one of the first n. */
  ghost predicate ValidList(ts: seq<TimerTask>, n: int) {
    DistinctIds(ts) && forall id :: id in Ids(ts) ==> 0 <= id < n
  }

  lemma AddKeepsMap(ts: seq<TimerTask>, t: TimerTask, n: int)
    requires ValidList(ts, n) && 0 <= t.id && t.id !in Ids(ts)
    ensures ValidList(ts + [t], if t.id < n then n else t.id + 1)
    ensures AsMap(ts + [t]) == AsMap(ts)[t.id := t]
    ensures Remove(ts + [t], t.id) == ts
  {
    AddThenRemove(ts, t);
    AddRefinesInsert(ts, t);
  }

  lemma EraseKeepsMap(ts: seq<TimerTask>, ids: seq<int>, n: int)
    requires ValidList(ts, n)
    ensures ValidList(Spared(ts, ids), n)
    ensures AsMap(Spared(ts, ids)) == AsMap(ts) - (set id | id in ids)
  {
    PassDistinct(ts, ids);
    PassMembers(ts, ids);
    KeepRefinesDelete(ts, Spared(ts, ids), set id | id in ids);
  }

  lemma SweepKeepsMap(ts: seq<TimerTask>, now: int, n: int)
    requires ValidList(ts, n)
    ensures ValidList(Spared(ts, DueIds(ts, now)), n)
    ensures AsMap(Spared(ts, DueIds(ts, now))) == AsMap(ts) - Ids(Due(ts, now))
  {
    SweepTakesExactlyTheDue(ts, now);
    SweepRefinesDelete(ts, now);
    EraseKeepsMap(ts, DueIds(ts, now), n);
  }

  lemma RemoveKeepsMap(ts: seq<TimerTask>, id: int, n: int)
    requires ValidList(ts, n)
    ensures ValidList(Remove(ts, id), n)
    ensures AsMap(Remove(ts, id)) == AsMap(ts) - {id}
  {
    RemoveRefinesDelete(ts, id);
  }

  lemma RestartKeepsMap(ts: seq<TimerTask>, id: int, now: int, n: int)
    requires ValidList(ts, n)
    ensures ValidList(Restart(ts, id, now), n)
    ensures AsMap(Restart(ts, id, now)) == RestartedIn(AsMap(ts), id, now)
  {
    RestartIds(ts, id, now);
    RestartUpdatesMap(ts, id, now);
  }

  /** `p2pHandleMessage` run without interference: look up, call back, finish. */
  function HandleAlone(name: string, s: Peer, env: Envelope, now: int): Peer
    requires s.receiver.Idle? && now >= s.clock
  {
    var found := Receive(s, env);
    var called := if Enabled(found, Callback) then Local(name, found, Callback) else found;
    if called.receiver.Idle? then called else Local(name, called, Finish(now, 0, false))
  }

  /** What the two response branches come to when nothing interferes. */
  lemma TempAlone(name: string, s: Peer, env: Envelope, now: int)
    requires s.receiver.Idle? && now >= s.clock && env.props.msgtype == TemporaryResponse && s.handlers.respTemp
    ensures var d, found := HandleAlone(name, s, env, now), Find(s.tasks, env.props.rid);
      && d.tasks == (if found.Some? then Restart(s.tasks, env.props.rid, now) else s.tasks)
      && d.log == s.log + (if found.Some? then [TempEvent(found.value, env)] else [])
  {
    var received, found := Receive(s, env), Find(s.tasks, env.props.rid);
    if found.Some? {
      assert received == s.(receiver := TempFound(env.props.rid, found.value, env));
      assert Local(name, received, Callback).receiver == TempCalled(env.props.rid);
    } else {
      assert received == s && !Enabled(s, Callback);
    }
  }

  lemma FinalAlone(name: string, s: Peer, env: Envelope, now: int)
    requires s.receiver.Idle? && now >= s.clock && env.props.msgtype == FinalResponse && s.handlers.respFinal
    ensures var d, found := HandleAlone(name, s, env, now), Find(s.tasks, env.props.rid);
      && d.tasks == (if found.Some? then Remove(s.tasks, env.props.rid) else s.tasks)
      && d.log == s.log + (if found.Some? then FinalEvents(found.value, env) else [])
  {
    var received, found := Receive(s, env), Find(s.tasks, env.props.rid);
    if found.Some? {
      assert received == s.(receiver := FinalFound(env.props.rid, found.value, env));
      assert Local(name, received, Callback).receiver == FinalCalled(env.props.rid);
    } else {
      assert received == s && !Enabled(s, Callback);
    }
  }

  class Client {
    const exchangeType: ExchangeType
    const moduleName: string
    var connected: bool
    var handlers: Handlers
    var nextTimerId: int
    var timerTasks: seq<TimerTask>
    var log: seq<Event>        // callbacks made
    var outbox: seq<Envelope>  // messages handed to the broker

    constructor (exchangeType: ExchangeType, moduleName: string, handlers: Handlers)
      ensures this.exchangeType == exchangeType && this.moduleName == moduleName && this.handlers == handlers
      ensures Valid() && nextTimerId == 0 && timerTasks == [] && log == [] && outbox == [] && !connected
    {
      this.exchangeType := exchangeType;
      this.moduleName := moduleName;
      this.handlers := handlers;
      connected, nextTimerId, timerTasks, log, outbox := false, 0, [], [], [];
    }

    /** Every listed id was handed out by this client, and none is listed twice. */
    ghost predicate Valid()
      reads this
    {
      0 <= nextTimerId && ValidList(timerTasks, nextTimerId)
    }

    /** The timers by id. */
    ghost function Map(): map<int, TimerTask>
      reads this
    {
      AsMap(timerTasks)
    }

    /** This client as a module of the step system, between two handler runs. */
    ghost function View(clock: int): Peer
      reads this
    {
      Peer(handlers, nextTimerId, timerTasks, map[], Idle, log, clock, clock, map[], map[], {})
    }

    // -------------------------------------------------------------- critical sections of timer_mutex

    method ReqTimerId() returns (id: int)
      modifies this`nextTimerId
      ensures exchangeType == P2PType ==> id == old(nextTimerId) && nextTimerId == old(nextTimerId) + 1
      ensures exchangeType != P2PType ==> id == -1 && nextTimerId == old(nextTimerId)
      ensures old(Valid()) ==> Valid()
    {
      if exchangeType != P2PType {
        return -1;
      }
      id := nextTimerId;
      nextTimerId := nextTimerId + 1;
    }

    method AddTimerTask(id: int, key: string, message: string, interval: int, props: IntProps, now: int)
      modifies this`timerTasks
      ensures timerTasks == old(timerTasks)
        + if exchangeType == P2PType then [NewTask(id, key, message, interval, props, now)] else []
      ensures old(Valid()) && 0 <= id < nextTimerId && id !in old(Ids(timerTasks)) ==>
        && Valid()
        && (exchangeType == P2PType ==>
              Map() == old(Map())[id := NewTask(id, key, message, interval, props, now)])
    {
      if exchangeType != P2PType {
        return;
      }
      timerTasks := timerTasks + [NewTask(id, key, message, interval, props, now)];
      if old(Valid()) && 0 <= id < nextTimerId && id !in old(Ids(timerTasks)) {
        AddKeepsMap(old(timerTasks), NewTask(id, key, message, interval, props, now), nextTimerId);
      }
    }

    /** `std::find_if` over the vector. */
    method FindTask(id: int) returns (k: nat)
      ensures k == IndexOf(timerTasks, id)
    {
      k := 0;
      while k < |timerTasks| && timerTasks[k].id != id
        invariant k <= |timerTasks|
        invariant forall i :: 0 <= i < k ==> timerTasks[i].id != id
      {
        k := k + 1;
      }
      if k < |timerTasks| {
        assert timerTasks[k] in timerTasks;
      }
    }

    method RemoveTimerTask(id: int)
      modifies this`timerTasks
      ensures timerTasks == if exchangeType == P2PType then Remove(old(timerTasks), id) else old(timerTasks)
      ensures old(Valid()) ==> Valid() && (exchangeType == P2PType ==> Map() == old(Map()) - {id})
    {
      if exchangeType != P2PType {
        return;
      }
      var it := FindTask(id);
      if it != |timerTasks| {
        timerTasks := timerTasks[..it] + timerTasks[it + 1..];
      }
      if old(Valid()) { RemoveKeepsMap(old(timerTasks), id, nextTimerId); }
    }

    method RestartTimerTask(id: int, now: int)
      modifies this`timerTasks
      ensures timerTasks == if exchangeType == P2PType then Restart(old(timerTasks), id, now) else old(timerTasks)
      ensures var k := IndexOf(old(timerTasks), id);
        exchangeType == P2PType && k < |old(timerTasks)| ==>
          var t := old(timerTasks)[k];
          timerTasks == old(timerTasks)[k := t.(expireTime := now + t.interval * 1_000_000_000)]
      ensures old(Valid()) ==> Valid() && (exchangeType == P2PType ==> Map() == RestartedIn(old(Map()), id, now))
    {
      if exchangeType != P2PType {
        return;
      }
      if Valid() { RestartKeepsMap(timerTasks, id, now, nextTimerId); }
      RestartAt(timerTasks, id, now);
      ghost var restarted := Restart(timerTasks, id, now);
      var it := FindTask(id);
      if it != |timerTasks| {
        var t := timerTasks[it];
        timerTasks := timerTasks[it := t.(expireTime := now + t.interval * TICKS_PER_SECOND)];
      }
      assert timerTasks == restarted;
    }

    method GetTimerTaskInfo(id: int) returns (t: Option<TimerTask>)
      ensures t == if exchangeType == P2PType then Find(timerTasks, id) else None
      ensures exchangeType == P2PType ==> t == if id in Map() then Some(Map()[id]) else None
    {
      if exchangeType != P2PType {
        return None;
      }
      FindRefinesLookup(timerTasks, id);
      for i := 0 to |timerTasks|
        invariant forall j :: 0 <= j < i ==> timerTasks[j].id != id
      {
        if timerTasks[i].id == id {
          assert timerTasks[i] in timerTasks;
          return Some(timerTasks[i]);
        }
      }
      return None;
    }

    method TimeoutProc(t: TimerTask)
      modifies this`log
      ensures log == old(log) + TimeoutCall(exchangeType, handlers, t)
      ensures old(Valid()) ==> Valid()
    {
      if exchangeType != P2PType {
        return;
      }
      if t.props.msgtype == Request && handlers.requestTimeout {
        log := log + [OnRequestTimeout(t.props.receiver, t.props.msgname, t.props.rid, t.props.inarg)];
      } else if t.props.msgtype == Notification && handlers.notifyTimeout {
        log := log + [OnNotifyTimeout(t.props.receiver, t.props.msgname, t.props.rid, t.props.inarg)];
      }
    }

    /** One round of the timer thread: collect the due ids, then erase their tasks while walking
        the vector, calling back for each erased task. */
    method TimerSweep(now: int)
      modifies this`timerTasks, this`log
      ensures timerTasks == Spared(old(timerTasks), DueIds(old(timerTasks), now))
      ensures log == old(log)
        + TimeoutCalls(exchangeType, handlers, Doomed(old(timerTasks), DueIds(old(timerTasks), now)))
      ensures exchangeType == P2PType ==>
        timerTasks == SweepTasks(old(View(now)), now).tasks && log == SweepTasks(old(View(now)), now).log
      ensures old(Valid()) ==> Valid() && Map() == old(Map()) - old(Ids(Due(timerTasks, now)))
    {
      var tasksToRemove := [];
      var i := 0;
      while i < |timerTasks|
        invariant i <= |timerTasks|
        invariant timerTasks == old(timerTasks) && log == old(log)
        invariant tasksToRemove + DueIds(timerTasks[i..], now) == DueIds(timerTasks, now)
      {
        DueIdsStep(timerTasks, i, now);
        if now >= timerTasks[i].expireTime {
          tasksToRemove := tasksToRemove + [timerTasks[i].id];
        }
        i := i + 1;
      }
      assert timerTasks[|timerTasks|..] == [];
      assert tasksToRemove == DueIds(timerTasks, now);
      NothingDoomed(timerTasks);
      if tasksToRemove != [] {
        EraseTasks(tasksToRemove);
      }
      if old(Valid()) { SweepKeepsMap(old(timerTasks), now, nextTimerId); }
    }

    method EraseTasks(tasksToRemove: seq<int>)
      modifies this`timerTasks, this`log
      ensures timerTasks == Spared(old(timerTasks), tasksToRemove)
      ensures log == old(log) + TimeoutCalls(exchangeType, handlers, Doomed(old(timerTasks), tasksToRemove))
      ensures old(Valid()) ==> Valid() && Map() == old(Map()) - (set id | id in tasksToRemove)
    {
      ghost var start, calls := timerTasks, [];
      assert start[..0] == [] && start[0..] == start;
      var it := 0;
      while it < |timerTasks|
        invariant Erasing(exchangeType, handlers, start, tasksToRemove, timerTasks, it, calls)
        invariant log == old(log) + calls
        decreases |timerTasks| - it
      {
        if timerTasks[it].id in tasksToRemove {
          EraseOne(exchangeType, handlers, start, tasksToRemove, timerTasks, it, calls);
          calls := calls + TimeoutCall(exchangeType, handlers, timerTasks[it]);
          TimeoutProc(timerTasks[it]);
          timerTasks := timerTasks[..it] + timerTasks[it + 1..];
        } else {
          KeepOne(exchangeType, handlers, start, tasksToRemove, timerTasks, it, calls);
          it := it + 1;
        }
      }
      ErasingEnds(exchangeType, handlers, start, tasksToRemove, timerTasks, calls);
      if old(Valid()) { EraseKeepsMap(start, tasksToRemove, nextTimerId); }
    }

    // -------------------------------------------------------------- sending

    /** `SendRabbitmqMessage`. Whether the broker got the message and whether the reply reports
        success are up to the network. */
    method SendMessage(key: string, props: IntProps, body: string, published: bool, replyNormal: bool)
      returns (ok: bool)
      modifies this`outbox
      ensures key == "" || !connected ==> !ok && outbox == old(outbox)
      ensures key != "" && connected ==>
        ok == replyNormal && outbox == old(outbox) + if published then [Envelope(key, props, body)] else []
      ensures old(Valid()) ==> Valid()
    {
      if key == "" || !connected {
        return false;
      }
      if published {
        outbox := outbox + [Envelope(key, props, body)];
      }
      return replyNormal;
    }

    /** `rmRequestMake` (notify false) and `rmNotifyMake` (notify true): take an id, add its timer,
        publish, and take the timer out again if publishing fails. A null string is None. */
    method CallMake(
      notify: bool, modName: Option<string>, msgName: Option<string>, inArg: int, msgBody: Option<string>, timeout: int,
      stamp: int, now: int, published: bool, replyNormal: bool) returns (code: int, rpid: Option<int>)
      requires Valid() && exchangeType == P2PType
      modifies this`nextTimerId, this`timerTasks, this`outbox
      ensures Valid()
      ensures modName.None? || msgName.None? || msgBody.None? ==>
        code == -1 && rpid == None && unchanged(this)
      ensures modName.Some? && msgName.Some? && msgBody.Some? ==>
        var id := old(nextTimerId);
        var args := CallArgs(notify, modName.value, msgName.value, inArg, msgBody.value, timeout, stamp);
        var sent := connected && modName.value != "";
        && rpid == Some(id) && nextTimerId == id + 1
        && (code == 0 <==> sent && replyNormal) && (code == 0 || code == -1)
        && timerTasks == old(timerTasks) + (if code == 0 then [CallTask(moduleName, id, args, now)] else [])
        && Map() == (if code == 0 then old(Map())[id := CallTask(moduleName, id, args, now)] else old(Map()))
        && outbox == old(outbox) + (if sent && published then [CallEnvelope(moduleName, id, args)] else [])
    {
      rpid := None;
      if modName.None? || msgName.None? || msgBody.None? {
        return -1, None;
      }
      var timerId := ReqTimerId();
      var props := IntProps(moduleName, modName.value, if notify then Notification else Request, msgName.value, timerId,
                            inArg, stamp, "no code", "no description", "no transparent");
      AddTimerTask(timerId, modName.value, msgBody.value, TruncDiv(timeout, 1000), props, now);
      rpid := Some(timerId);
      ghost var args := CallArgs(notify, modName.value, msgName.value, inArg, msgBody.value, timeout, stamp);
      ghost var task := CallTask(moduleName, timerId, args, now);
      assert timerTasks == old(timerTasks) + [task];
      AddKeepsMap(old(timerTasks), task, old(nextTimerId));
      assert CallEnvelope(moduleName, timerId, args) == Envelope(modName.value, props, msgBody.value);
      var rslt := SendMessage(modName.value, props, msgBody.value, published, replyNormal);
      if rslt {
        code := 0;
      } else {
        RemoveTimerTask(timerId);
        assert timerTasks == old(timerTasks);
        code := -1;
      }
    }

    /** `rmRequestTempResponse` (final false) and `rmRequestFinalResponse` (final true). */
    method Response(
      final: bool, modName: Option<string>, rpid: int, respCode: Option<string>, respDescr: string,
      msgBody: Option<string>, stamp: int, published: bool, replyNormal: bool) returns (code: int)
      modifies this`outbox
      ensures modName.None? || respCode.None? || msgBody.None? ==> code == -1 && outbox == old(outbox)
      ensures modName.Some? && respCode.Some? && msgBody.Some? ==>
        var sent := connected && modName.value != "";
        && code == (if sent && replyNormal then 0 else -1)
        && outbox == old(outbox)
             + (if sent && published
                then [Envelope(modName.value,
                               IntProps(moduleName, modName.value, if final then FinalResponse else TemporaryResponse,
                                        if final then "finalrsp" else "temprsp", rpid, 0, stamp, respCode.value,
                                        respDescr, "no transparent"),
                               msgBody.value)]
                else [])
      ensures old(Valid()) ==> Valid()
    {
      if respCode.None? || msgBody.None? || modName.None? {
        return -1;
      }
      var receiver := modName.value;
      var props := IntProps(moduleName, receiver, if final then FinalResponse else TemporaryResponse,
                            if final then "finalrsp" else "temprsp", rpid, NULL_ARG, stamp, respCode.value, respDescr,
                            "no transparent");
      var rslt := SendMessage(receiver, props, msgBody.value, published, replyNormal);
      return if rslt then 0 else -1;
    }

    // -------------------------------------------------------------- receiving

    /** The temporary-response branch of `p2pHandleMessage`. */
    method HandleTemp(env: Envelope, now: int)
      requires exchangeType == P2PType && env.props.msgtype == TemporaryResponse && handlers.respTemp
      modifies this`timerTasks, this`log
      ensures timerTasks == HandleAlone(moduleName, old(View(now)), env, now).tasks
      ensures log == HandleAlone(moduleName, old(View(now)), env, now).log
      ensures Find(old(timerTasks), env.props.rid).None? ==> log == old(log) && timerTasks == old(timerTasks)
      ensures Find(old(timerTasks), env.props.rid).Some? ==>
        var p, q := env.props, Find(old(timerTasks), env.props.rid).value.props;
        log == old(log) + [OnRespTemp(q.receiver, q.msgname, p.rid, p.rspcode, p.rspdesc, env.body, q.inarg)]
      ensures old(Valid()) ==> Valid() && Map() == RestartedIn(old(Map()), env.props.rid, now)
    {
      var rid := env.props.rid;
      var info := GetTimerTaskInfo(rid);
      TempAlone(moduleName, View(now), env, now);
      if info.Some? {
        var q := info.value.props;
        log := log + [OnRespTemp(q.receiver, q.msgname, rid, env.props.rspcode, env.props.rspdesc, env.body, q.inarg)];
        RestartTimerTask(rid, now);
      }
    }

    /** The final-response branch of `p2pHandleMessage`. */
    method HandleFinal(env: Envelope, now: int)
      requires exchangeType == P2PType && env.props.msgtype == FinalResponse && handlers.respFinal
      modifies this`timerTasks, this`log
      ensures timerTasks == HandleAlone(moduleName, old(View(now)), env, now).tasks
      ensures log == HandleAlone(moduleName, old(View(now)), env, now).log
      ensures Find(old(timerTasks), env.props.rid).None? ==> log == old(log) && timerTasks == old(timerTasks)
      ensures Find(old(timerTasks), env.props.rid).Some? ==>
        var p, q := env.props, Find(old(timerTasks), env.props.rid).value.props;
        log == old(log) +
          if q.msgtype == Request
          then [OnRespFinal(q.receiver, q.msgname, p.rid, p.rspcode, p.rspdesc, env.body, q.inarg)] else []
      ensures old(Valid()) ==> Valid() && Map() == old(Map()) - {env.props.rid}
    {
      var rid := env.props.rid;
      var info := GetTimerTaskInfo(rid);
      FinalAlone(moduleName, View(now), env, now);
      if info.Some? {
        var q := info.value.props;
        if q.msgtype == Request {
          log := log
            + [OnRespFinal(q.receiver, q.msgname, rid, env.props.rspcode, env.props.rspdesc, env.body, q.inarg)];
        }
        RemoveTimerTask(rid);
      }
    }

    /** `p2pHandleMessage` without interference from the other threads. */
    method HandleMessage(env: Envelope, now: int, stamp: int, published: bool, replyNormal: bool)
      requires exchangeType == P2PType
      modifies this`timerTasks, this`log, this`outbox
      ensures timerTasks == HandleAlone(moduleName, old(View(now)), env, now).tasks
      ensures log == HandleAlone(moduleName, old(View(now)), env, now).log
      ensures env.props.msgtype == Request && handlers.request ==>
        var p := env.props;
        timerTasks == old(timerTasks) && log == old(log) + [OnRequest(p.sender, p.msgname, p.rid, env.body, p.inarg)]
      ensures env.props.msgtype == Notification && handlers.notify ==>
        timerTasks == old(timerTasks) && log == old(log) + [OnNotify(env.props.sender, env.props.msgname, env.body)]
      ensures env.props.msgtype == Report && handlers.report ==>
        timerTasks == old(timerTasks) && log == old(log) + [OnReport(env.props.sender, env.props.msgname, env.body)]
      ensures outbox == old(outbox)
        + if env.props.msgtype == Notification && handlers.notify && connected && env.props.sender != "" && published
          then [Envelope(env.props.sender,
                         IntProps(moduleName, env.props.sender, FinalResponse, "finalrsp", env.props.rid, 0, stamp,
                                  "200", "Auto Rsp Ok", "no transparent"),
                         "{}")]
          else []
      ensures old(Valid()) ==> Valid()
    {
      var p := env.props;
      if p.msgtype == Request && handlers.request {
        log := log + [OnRequest(p.sender, p.msgname, p.rid, env.body, p.inarg)];
      } else if p.msgtype == Notification && handlers.notify {
        log := log + [OnNotify(p.sender, p.msgname, env.body)];
        var _ := Response(true, Some(p.sender), p.rid, Some("200"), "Auto Rsp Ok", Some("{}"), stamp, published,
                          replyNormal);
      } else if p.msgtype == Report && handlers.report {
        log := log + [OnReport(p.sender, p.msgname, env.body)];
      } else if p.msgtype == TemporaryResponse && handlers.respTemp {
        HandleTemp(env, now);
      } else if p.msgtype == FinalResponse && handlers.respFinal {
        HandleFinal(env, now);
      }
    }
  }

  /** What a call sends and what it remembers while waiting, field by field. */
  lemma CallMessage(name: string, rid: int, args: CallArgs, now: int)
    ensures var env, task := CallEnvelope(name, rid, args), CallTask(name, rid, args, now);
      && env == Envelope(args.receiver,
                         IntProps(name, args.receiver, if args.notify then Notification else Request, args.msgName, rid,
                                  args.inarg, args.stamp, "no code", "no description", "no transparent"),
                         args.body)
      && task == TimerTask(rid, args.receiver, args.body, TruncDiv(args.timeout, 1000), env.props,
                           now + TruncDiv(args.timeout, 1000) * 1_000_000_000)
  {
  }

  /** The four critical sections of a call, run one after another in the step system, leave the timer
      list and the id counter exactly as `CallMake` does. */
  lemma CallMakeIsItsSteps(name: string, s: Peer, th: nat, args: CallArgs, now: int, published: bool, ok: bool)
    requires th !in s.threads && now >= s.clock && (args.receiver == "" ==> !published && !ok)
    requires s.nextId !in Ids(s.tasks) && DistinctIds(s.tasks)
    ensures var s1 := Local(name, s, Allocate(th, args));
      var s2 := Local(name, s1, Register(th, now));
      && Enabled(s2, Publish(th, published, ok))
      && Sent(name, s2, Publish(th, published, ok)) == (if published then {CallEnvelope(name, s.nextId, args)} else {})
      && var s3 := Local(name, s2, Publish(th, published, ok));
         var s4 := if ok then s3 else Local(name, s3, Undo(th));
         && s4.nextId == s.nextId + 1 && s4.threads == s.threads && s4.log == s.log
         && s4.tasks == s.tasks + (if ok then [CallTask(name, s.nextId, args, now)] else [])
  {
    AddThenRemove(s.tasks, CallTask(name, s.nextId, args, now));
  }
}
