/** The five mutexes of a client process: in which order code paths take them, and why threads
    that keep the order never wait for each other in a circle. */
module LockOrder {

  datatype Lock = HandleMutex | TimerMutex | InstanceMutex | ConnMutex | LoggerMutex

  function Rank(l: Lock): nat {
    match l
    case HandleMutex => 0
    case TimerMutex => 1
    case InstanceMutex => 2
    case ConnMutex => 3
    case LoggerMutex => 4
  }

  /** A `lock_guard` scope and the scopes opened inside it, in order. */
  datatype Scope = Scope(lock: Lock, body: seq<Scope>)

  // ---------------------------------------------------------------- the code paths

  /** What becomes of a `SendRabbitmqMessage` call: turned away before any lock (empty key, no connection
      or another exchange type), replied to, or failed and logged. */
  datatype Send = Refused | Replied | Failed

  /** What an application may call, with what the call runs into. */
  datatype ApiCall =
    | CallMake(firstUse: bool, send: Send)  // rmRequestMake, rmNotifyMake
    | CallSend(firstUse: bool, send: Send)  // rmReportMake, rmRequestTempResponse, rmRequestFinalResponse
    | CallInvalid(firstUse: bool)           // any of them with a null argument
    | CallBind(refused: bool)               // subscribleTopicMsg, unSubscribleTopicMsg, GetBoundRouting...
    | CallPublish(send: Send)               // publishTopicMsg, publishFanoutMsg

  const LOG := Scope(LoggerMutex, [])
  const TIMER_OP := Scope(TimerMutex, [])
  const CONN_OP := Scope(ConnMutex, [])

  /** `getInstance`; the first use constructs the instance, which logs. */
  function GetInstance(firstUse: bool): Scope {
    Scope(InstanceMutex, if firstUse then [LOG] else [])
  }

  /** `SendRabbitmqMessage`. */
  function SendCode(send: Send): seq<Scope> {
    match send
    case Refused => []
    case Replied => [CONN_OP]
    case Failed => [CONN_OP, LOG]
  }

  function CallCode(c: ApiCall): seq<Scope> {
    match c
    case CallMake(first, send) =>
      [GetInstance(first), TIMER_OP, TIMER_OP] + SendCode(send) + if send.Replied? then [] else [TIMER_OP]
    case CallSend(first, send) => [GetInstance(first)] + SendCode(send)
    case CallInvalid(first) => [GetInstance(first)]
    case CallBind(refused) => if refused then [] else [CONN_OP]
    case CallPublish(send) => SendCode(send)
  }

  function CallsCode(cs: seq<ApiCall>): seq<Scope> {
    if cs == [] then [] else CallCode(cs[0]) + CallsCode(cs[1..])
  }

  /** What a message handler does about the timer list: nothing, or a lookup that finds the task of a
      response or fails to. */
  datatype Lookup = NoLookup | Found | NotFound

  /** What one thread does between two moments at which it holds nothing. */
  datatype Activity =
    | AppCalls(calls: seq<ApiCall>)
    | TimerRound(timeouts: seq<seq<ApiCall>>)                          // the calls each timeout callback makes
    | HandleRound(lookup: Lookup, callback: seq<ApiCall>, logs: nat)   // one message under handle_mutex
    | ConsumeRound(logs: nat)
    | InitRound(firstUse: bool, logs: nat)                          // rmInitMidwareClient
    | FreeRound(firstUse: bool, connected: bool, logs: nat)         // MidwareClientDestroy
    | ReconnectRound(logs: nat)                                     // ReconnectProc, logging while connecting
    | HeartbeatRound                                                // the send thread looks at the socket
    | HeartbeatError(logs: nat)                                     // the receive loop reconnects over it

  function Repeat(s: Scope, n: nat): seq<Scope> {
    seq(n, _ => s)
  }

  /** Inside a sweep each timed-out task is logged and called back. */
  function TimeoutsCode(timeouts: seq<seq<ApiCall>>): seq<Scope> {
    if timeouts == [] then [] else [LOG] + CallsCode(timeouts[0]) + TimeoutsCode(timeouts[1..])
  }

  /** `p2pHandleMessage` or `topicHandleMessage`: a response whose task is found calls back between two
      timer operations, one whose task is gone is logged; a notification ends with its automatic response,
      one of the calls. */
  function HandlerCode(lookup: Lookup, callback: seq<ApiCall>, logs: nat): seq<Scope> {
    match lookup
    case NoLookup => CallsCode(callback) + Repeat(LOG, logs)
    case Found => [TIMER_OP] + CallsCode(callback) + [TIMER_OP]
    case NotFound => [TIMER_OP, LOG]
  }

  /** `ReconnectProc`. */
  function ReconnectCode(logs: nat): seq<Scope> {
    [LOG, Scope(ConnMutex, Repeat(LOG, logs))]
  }

  function Code(a: Activity): seq<Scope> {
    match a
    case AppCalls(calls) => CallsCode(calls)
    case TimerRound(timeouts) => [Scope(TimerMutex, TimeoutsCode(timeouts))]
    case HandleRound(lookup, callback, logs) => [Scope(HandleMutex, HandlerCode(lookup, callback, logs))]
    case ConsumeRound(logs) => [CONN_OP] + Repeat(LOG, logs)
    case InitRound(first, logs) => [GetInstance(first)] + Repeat(LOG, logs)
    case FreeRound(first, connected, logs) =>
      [GetInstance(first)] + Repeat(LOG, logs) + (if connected then [CONN_OP] else []) + Repeat(LOG, logs)
    case ReconnectRound(logs) => ReconnectCode(logs)
    case HeartbeatRound => [CONN_OP]
    case HeartbeatError(logs) => [Scope(ConnMutex, [LOG] + ReconnectCode(logs))]
  }

  // ---------------------------------------------------------------- the order

  /** Every scope locks above `floor`, and its inner scopes above itself. */
  predicate Ordered(code: seq<Scope>, floor: int) {
    forall i :: 0 <= i < |code| ==> Rank(code[i].lock) > floor && Ordered(code[i].body, Rank(code[i].lock))
  }

  lemma OrderedAppend(a: seq<Scope>, b: seq<Scope>, floor: int)
    ensures Ordered(a + b, floor) <==> Ordered(a, floor) && Ordered(b, floor)
  {
    var all := a + b;
    assert forall i :: 0 <= i < |a| ==> all[i] == a[i];
    assert forall i :: 0 <= i < |b| ==> all[|a| + i] == b[i];
  }

  /** The call takes no timer critical section. */
  predicate AvoidsTimer(c: ApiCall) {
    !c.CallMake?
  }

  lemma OneScopeOrdered(s: Scope, floor: int)
    ensures Ordered([s], floor) <==> Rank(s.lock) > floor && Ordered(s.body, Rank(s.lock))
  {
    assert [s][0] == s;
  }

  lemma RepeatOrdered(s: Scope, n: nat, floor: int)
    requires Rank(s.lock) > floor && s.body == []
    ensures Ordered(Repeat(s, n), floor)
  {
  }

  lemma SendOrdered(send: Send, floor: int)
    requires floor <= Rank(TimerMutex)
    ensures Ordered(SendCode(send), floor)
  {
  }

  lemma GetInstanceOrdered(firstUse: bool, floor: int)
    requires floor <= Rank(TimerMutex)
    ensures Ordered([GetInstance(firstUse)], floor)
  {
  }

  lemma CallMakeOrdered(firstUse: bool, send: Send, floor: int)
    requires floor <= Rank(TimerMutex)
    ensures Ordered(CallCode(CallMake(firstUse, send)), floor) <==> floor < Rank(TimerMutex)
  {
    var opening := [GetInstance(firstUse), TIMER_OP, TIMER_OP];
    var undo := if send.Replied? then [] else [TIMER_OP];
    GetInstanceOrdered(firstUse, floor);
    OneScopeOrdered(TIMER_OP, floor);
    assert opening == [GetInstance(firstUse)] + [TIMER_OP] + [TIMER_OP];
    OrderedAppend([GetInstance(firstUse)], [TIMER_OP], floor);
    OrderedAppend([GetInstance(firstUse)] + [TIMER_OP], [TIMER_OP], floor);
    SendOrdered(send, floor);
    OrderedAppend(opening, SendCode(send), floor);
    OrderedAppend(opening + SendCode(send), undo, floor);
  }

  lemma CallOrdered(c: ApiCall, floor: int)
    requires floor <= Rank(TimerMutex)
    ensures Ordered(CallCode(c), floor) <==> floor < Rank(TimerMutex) || AvoidsTimer(c)
  {
    match c
    case CallMake(first, send) => CallMakeOrdered(first, send, floor);
    case CallSend(first, send) =>
      GetInstanceOrdered(first, floor);
      SendOrdered(send, floor);
      OrderedAppend([GetInstance(first)], SendCode(send), floor);
    case CallInvalid(first) => GetInstanceOrdered(first, floor);
    case CallBind(_) => OneScopeOrdered(CONN_OP, floor);
    case CallPublish(send) => SendOrdered(send, floor);
  }

  lemma {:induction false} CallsOrdered(cs: seq<ApiCall>, floor: int)
    requires floor <= Rank(TimerMutex)
    ensures Ordered(CallsCode(cs), floor) <==> floor < Rank(TimerMutex) || forall c :: c in cs ==> AvoidsTimer(c)
  {
    if cs != [] {
      CallOrdered(cs[0], floor);
      CallsOrdered(cs[1..], floor);
      OrderedAppend(CallCode(cs[0]), CallsCode(cs[1..]), floor);
      assert forall c :: c in cs <==> c == cs[0] || c in cs[1..];
    }
  }

  ghost predicate TimeoutsAvoidTimer(timeouts: seq<seq<ApiCall>>) {
    forall i, c :: 0 <= i < |timeouts| && c in timeouts[i] ==> AvoidsTimer(c)
  }

  lemma {:induction false} TimeoutsOrdered(timeouts: seq<seq<ApiCall>>)
    ensures Ordered(TimeoutsCode(timeouts), Rank(TimerMutex)) <==> TimeoutsAvoidTimer(timeouts)
  {
    if timeouts != [] {
      var rest := timeouts[1..];
      TimeoutsOrdered(rest);
      CallsOrdered(timeouts[0], Rank(TimerMutex));
      OrderedAppend([LOG], CallsCode(timeouts[0]), Rank(TimerMutex));
      OrderedAppend([LOG] + CallsCode(timeouts[0]), TimeoutsCode(rest), Rank(TimerMutex));
      assert forall i :: 0 <= i < |timeouts| ==> timeouts[i] == (if i == 0 then timeouts[0] else rest[i - 1]);
      assert forall i :: 0 <= i < |rest| ==> rest[i] == timeouts[i + 1];
    }
  }

  /** The two activities that take a mutex they hold: a sweep whose timeout callbacks make a call that enters
      the timer list, and a receive loop that reconnects over a heartbeat error. */
  ghost predicate Reenters(a: Activity) {
    a.HeartbeatError? || (a.TimerRound? && !TimeoutsAvoidTimer(a.timeouts))
  }

  /** Every code path takes the mutexes in rank order, except exactly those two. */
  lemma PathsAreOrdered(a: Activity)
    ensures Ordered(Code(a), -1) <==> !Reenters(a)
  {
    match a
    case AppCalls(calls) => CallsOrdered(calls, -1);
    case TimerRound(timeouts) =>
      TimeoutsOrdered(timeouts);
      OneScopeOrdered(Scope(TimerMutex, TimeoutsCode(timeouts)), -1);
    case HandleRound(lookup, callback, logs) =>
      HandlerOrdered(lookup, callback, logs);
      OneScopeOrdered(Scope(HandleMutex, HandlerCode(lookup, callback, logs)), -1);
    case ConsumeRound(logs) =>
      RepeatOrdered(LOG, logs, -1);
      OrderedAppend([CONN_OP], Repeat(LOG, logs), -1);
    case InitRound(first, logs) =>
      GetInstanceOrdered(first, -1);
      RepeatOrdered(LOG, logs, -1);
      OrderedAppend([GetInstance(first)], Repeat(LOG, logs), -1);
    case FreeRound(first, connected, logs) => FreeOrdered(first, connected, logs);
    case ReconnectRound(logs) => RepeatOrdered(LOG, logs, Rank(ConnMutex));
    case HeartbeatRound =>
    case HeartbeatError(logs) => HeartbeatNotOrdered(logs);
  }

  lemma HeartbeatNotOrdered(logs: nat)
    ensures !Ordered(Code(HeartbeatError(logs)), -1)
  {
    var body := [LOG] + ReconnectCode(logs);
    assert body[2].lock == ConnMutex;
    OneScopeOrdered(Scope(ConnMutex, body), -1);
  }

  lemma FreeOrdered(firstUse: bool, connected: bool, logs: nat)
    ensures Ordered(Code(FreeRound(firstUse, connected, logs)), -1)
  {
    var first, close := [GetInstance(firstUse)], if connected then [CONN_OP] else [];
    GetInstanceOrdered(firstUse, -1);
    RepeatOrdered(LOG, logs, -1);
    OneScopeOrdered(CONN_OP, -1);
    OrderedAppend(first, Repeat(LOG, logs), -1);
    OrderedAppend(first + Repeat(LOG, logs), close, -1);
    OrderedAppend(first + Repeat(LOG, logs) + close, Repeat(LOG, logs), -1);
  }

  lemma HandlerOrdered(lookup: Lookup, callback: seq<ApiCall>, logs: nat)
    ensures Ordered(HandlerCode(lookup, callback, logs), Rank(HandleMutex))
  {
    CallsOrdered(callback, 0);
    RepeatOrdered(LOG, logs, 0);
    OneScopeOrdered(TIMER_OP, 0);
    OrderedAppend(CallsCode(callback), Repeat(LOG, logs), 0);
    OrderedAppend([TIMER_OP], CallsCode(callback), 0);
    OrderedAppend([TIMER_OP] + CallsCode(callback), [TIMER_OP], 0);
  }

  // ---------------------------------------------------------------- which mutex is taken inside which

  predicate TakesLock(code: seq<Scope>, l: Lock) {
    exists i :: 0 <= i < |code| && (code[i].lock == l || TakesLock(code[i].body, l))
  }

  /** Some scope of `inner` lies inside a scope of `outer`. */
  predicate Nests(code: seq<Scope>, outer: Lock, inner: Lock) {
    exists i :: 0 <= i < |code| &&
      ((code[i].lock == outer && TakesLock(code[i].body, inner)) || Nests(code[i].body, outer, inner))
  }

  lemma TakesAppend(a: seq<Scope>, b: seq<Scope>, l: Lock)
    ensures TakesLock(a + b, l) <==> TakesLock(a, l) || TakesLock(b, l)
  {
    var all := a + b;
    forall i | 0 <= i < |a| ensures all[i] == a[i] {}
    forall i | 0 <= i < |b| ensures all[|a| + i] == b[i] {}
  }

  lemma NestsAppend(a: seq<Scope>, b: seq<Scope>, outer: Lock, inner: Lock)
    ensures Nests(a + b, outer, inner) <==> Nests(a, outer, inner) || Nests(b, outer, inner)
  {
    var all := a + b;
    forall i | 0 <= i < |a| ensures all[i] == a[i] {}
    forall i | 0 <= i < |b| ensures all[|a| + i] == b[i] {}
  }

  lemma NestsOne(s: Scope, outer: Lock, inner: Lock)
    ensures TakesLock([s], inner) <==> s.lock == inner || TakesLock(s.body, inner)
    ensures Nests([s], outer, inner) <==> (s.lock == outer && TakesLock(s.body, inner)) || Nests(s.body, outer, inner)
  {
    assert [s][0] == s;
  }

  /** No scope holds another, and none is the handler's. */
  predicate Flat(code: seq<Scope>) {
    forall i :: 0 <= i < |code| ==> code[i].body == [] && code[i].lock != HandleMutex
  }

  lemma FlatNests(code: seq<Scope>, outer: Lock, inner: Lock)
    requires Flat(code)
    ensures !Nests(code, outer, inner) && !TakesLock(code, HandleMutex)
  {
  }

  lemma InstanceNests(firstUse: bool, rest: seq<Scope>, outer: Lock, inner: Lock)
    requires Flat(rest)
    ensures Nests([GetInstance(firstUse)] + rest, outer, inner) ==> outer == InstanceMutex && inner == LoggerMutex
    ensures !TakesLock([GetInstance(firstUse)] + rest, HandleMutex)
  {
    var s := GetInstance(firstUse);
    FlatNests(rest, outer, inner);
    FlatNests(s.body, outer, inner);
    NestsOne(s, outer, inner);
    NestsOne(s, outer, HandleMutex);
    NestsAppend([s], rest, outer, inner);
    TakesAppend([s], rest, HandleMutex);
    if TakesLock(s.body, inner) { assert firstUse && s.body == [LOG]; }
  }

  /** A call takes mutexes one at a time, except that the first use of the instance logs. */
  lemma CallNests(c: ApiCall, outer: Lock, inner: Lock)
    ensures Nests(CallCode(c), outer, inner) ==> outer == InstanceMutex && inner == LoggerMutex
    ensures !TakesLock(CallCode(c), HandleMutex)
  {
    match c
    case CallMake(first, send) =>
      var rest := [TIMER_OP, TIMER_OP] + SendCode(send) + if send.Replied? then [] else [TIMER_OP];
      assert CallCode(c) == [GetInstance(first)] + rest;
      InstanceNests(first, rest, outer, inner);
    case CallSend(first, send) => InstanceNests(first, SendCode(send), outer, inner);
    case CallInvalid(first) =>
      assert [GetInstance(first)] + [] == [GetInstance(first)];
      InstanceNests(first, [], outer, inner);
    case CallBind(_) => FlatNests(CallCode(c), outer, inner);
    case CallPublish(_) => FlatNests(CallCode(c), outer, inner);
  }

  lemma {:induction false} CallsNest(cs: seq<ApiCall>, outer: Lock, inner: Lock)
    ensures Nests(CallsCode(cs), outer, inner) ==> outer == InstanceMutex && inner == LoggerMutex
    ensures !TakesLock(CallsCode(cs), HandleMutex)
  {
    if cs != [] {
      CallNests(cs[0], outer, inner);
      CallsNest(cs[1..], outer, inner);
      NestsAppend(CallCode(cs[0]), CallsCode(cs[1..]), outer, inner);
      TakesAppend(CallCode(cs[0]), CallsCode(cs[1..]), HandleMutex);
    }
  }

  /** The same around the calls: flat code before and after them. */
  lemma AroundCalls(before: seq<Scope>, cs: seq<ApiCall>, behind: seq<Scope>, outer: Lock, inner: Lock)
    requires Flat(before)
    requires Nests(behind, outer, inner) ==> outer == InstanceMutex && inner == LoggerMutex
    requires !TakesLock(behind, HandleMutex)
    ensures Nests(before + CallsCode(cs) + behind, outer, inner) ==> outer == InstanceMutex && inner == LoggerMutex
    ensures !TakesLock(before + CallsCode(cs) + behind, HandleMutex)
  {
    CallsNest(cs, outer, inner);
    FlatNests(before, outer, inner);
    NestsAppend(before, CallsCode(cs), outer, inner);
    TakesAppend(before, CallsCode(cs), HandleMutex);
    NestsAppend(before + CallsCode(cs), behind, outer, inner);
    TakesAppend(before + CallsCode(cs), behind, HandleMutex);
  }

  lemma {:induction false} TimeoutsNest(timeouts: seq<seq<ApiCall>>, outer: Lock, inner: Lock)
    ensures Nests(TimeoutsCode(timeouts), outer, inner) ==> outer == InstanceMutex && inner == LoggerMutex
    ensures !TakesLock(TimeoutsCode(timeouts), HandleMutex)
  {
    if timeouts != [] {
      TimeoutsNest(timeouts[1..], outer, inner);
      AroundCalls([LOG], timeouts[0], TimeoutsCode(timeouts[1..]), outer, inner);
    }
  }

  lemma HandlerNests(lookup: Lookup, callback: seq<ApiCall>, logs: nat, outer: Lock, inner: Lock)
    ensures Nests(HandlerCode(lookup, callback, logs), outer, inner) ==> outer == InstanceMutex && inner == LoggerMutex
    ensures !TakesLock(HandlerCode(lookup, callback, logs), HandleMutex)
  {
    match lookup
    case NoLookup =>
      FlatNests(Repeat(LOG, logs), outer, inner);
      AroundCalls([], callback, Repeat(LOG, logs), outer, inner);
      assert [] + CallsCode(callback) == CallsCode(callback);
    case Found =>
      FlatNests([TIMER_OP], outer, inner);
      AroundCalls([TIMER_OP], callback, [TIMER_OP], outer, inner);
    case NotFound => FlatNests([TIMER_OP, LOG], outer, inner);
  }

  /** A mutex is taken inside another only in these pairs: anything but itself inside the handler's, anything but
      the handler's inside the timer's, logging inside the instance's and the connection's, and the connection's
      inside itself over a heartbeat error. */
  lemma NestingIs(a: Activity, outer: Lock, inner: Lock)
    requires Nests(Code(a), outer, inner)
    ensures
      || (outer == HandleMutex && inner != HandleMutex && a.HandleRound?)
      || (outer == TimerMutex && inner != HandleMutex && a.TimerRound?)
      || (outer == InstanceMutex && inner == LoggerMutex)
      || (outer == ConnMutex && inner == LoggerMutex && (a.ReconnectRound? || a.HeartbeatError?))
      || (outer == ConnMutex && inner == ConnMutex && a.HeartbeatError?)
  {
    match a
    case AppCalls(calls) => CallsNest(calls, outer, inner);
    case TimerRound(timeouts) =>
      NestsOne(Scope(TimerMutex, TimeoutsCode(timeouts)), outer, inner);
      TimeoutsNest(timeouts, outer, inner);
    case HandleRound(lookup, callback, logs) =>
      NestsOne(Scope(HandleMutex, HandlerCode(lookup, callback, logs)), outer, inner);
      HandlerNests(lookup, callback, logs, outer, inner);
    case InitRound(first, logs) => InstanceNests(first, Repeat(LOG, logs), outer, inner);
    case FreeRound(first, connected, logs) => FreeNests(first, connected, logs, outer, inner);
    case ConsumeRound(logs) => FlatNests([CONN_OP] + Repeat(LOG, logs), outer, inner);
    case HeartbeatRound => FlatNests([CONN_OP], outer, inner);
    case ReconnectRound(logs) => ReconnectNests(logs, outer, inner);
    case HeartbeatError(logs) => HeartbeatNests(logs, outer, inner);
  }

  lemma FreeNests(firstUse: bool, connected: bool, logs: nat, outer: Lock, inner: Lock)
    ensures Nests(Code(FreeRound(firstUse, connected, logs)), outer, inner) ==>
      outer == InstanceMutex && inner == LoggerMutex
  {
    var rest := Repeat(LOG, logs) + (if connected then [CONN_OP] else []) + Repeat(LOG, logs);
    assert Code(FreeRound(firstUse, connected, logs)) == [GetInstance(firstUse)] + rest;
    InstanceNests(firstUse, rest, outer, inner);
  }

  lemma HeartbeatNests(logs: nat, outer: Lock, inner: Lock)
    ensures Nests(Code(HeartbeatError(logs)), outer, inner) ==>
      outer == ConnMutex && (inner == ConnMutex || inner == LoggerMutex)
  {
    NestsOne(Scope(ConnMutex, [LOG] + ReconnectCode(logs)), outer, inner);
    ReconnectNests(logs, outer, inner);
    NestsOne(LOG, outer, inner);
    NestsAppend([LOG], ReconnectCode(logs), outer, inner);
    TakesAppend([LOG], ReconnectCode(logs), inner);
  }

  lemma ReconnectNests(logs: nat, outer: Lock, inner: Lock)
    ensures Nests(ReconnectCode(logs), outer, inner) ==> outer == ConnMutex && inner == LoggerMutex
    ensures TakesLock(ReconnectCode(logs), inner) ==> inner == ConnMutex || inner == LoggerMutex
  {
    var rest := Scope(ConnMutex, Repeat(LOG, logs));
    assert ReconnectCode(logs) == [LOG] + [rest];
    FlatNests(Repeat(LOG, logs), outer, inner);
    NestsOne(LOG, outer, inner);
    NestsOne(rest, outer, inner);
    NestsAppend([LOG], [rest], outer, inner);
    TakesAppend([LOG], [rest], inner);
    assert TakesLock(Repeat(LOG, logs), inner) ==> inner == LoggerMutex;
  }

  /** A request made by the callback of a response runs under the handler's mutex, one made by a timeout callback
      under the timer's. */
  lemma CallbacksRunInside(c: ApiCall, l: Lock)
    requires TakesLock(CallCode(c), l)
    ensures Nests(Code(HandleRound(Found, [c], 0)), HandleMutex, l)
    ensures Nests(Code(TimerRound([[c]])), TimerMutex, l)
  {
    var calls := CallsCode([c]);
    assert [c][1..] == [] && CallsCode([]) == [];
    assert calls == CallCode(c) + [] == CallCode(c);
    TakesAppend([TIMER_OP], calls, l);
    TakesAppend([TIMER_OP] + calls, [TIMER_OP], l);
    NestsOne(Scope(HandleMutex, HandlerCode(Found, [c], 0)), HandleMutex, l);
    var timeouts := [[c]];
    assert timeouts[1..] == [] && TimeoutsCode([]) == [];
    assert TimeoutsCode(timeouts) == [LOG] + calls + [] == [LOG] + calls;
    TakesAppend([LOG], calls, l);
    NestsOne(Scope(TimerMutex, TimeoutsCode([[c]])), TimerMutex, l);
  }

  /** One thread's whole work. */
  function WorkCode(work: seq<Activity>): seq<Scope> {
    if work == [] then [] else Code(work[0]) + WorkCode(work[1..])
  }

  ghost predicate KeepsOrder(work: seq<Activity>) {
    forall a :: a in work ==> !Reenters(a)
  }

  lemma {:induction false} WorkIsOrdered(work: seq<Activity>)
    ensures Ordered(WorkCode(work), -1) <==> KeepsOrder(work)
  {
    if work != [] {
      PathsAreOrdered(work[0]);
      WorkIsOrdered(work[1..]);
      OrderedAppend(Code(work[0]), WorkCode(work[1..]), -1);
      assert forall a :: a in work <==> a == work[0] || a in work[1..];
    }
  }

  // ---------------------------------------------------------------- running threads

  /** A scope that has been entered: its mutex is held, `rest` is what remains inside. */
  datatype Frame = Frame(lock: Lock, rest: seq<Scope>)

  /** `todo` is what remains outside all scopes; the last frame is the innermost. */
  datatype Thread = Thread(todo: seq<Scope>, frames: seq<Frame>)

  function Current(t: Thread): seq<Scope> {
    if t.frames == [] then t.todo else t.frames[|t.frames| - 1].rest
  }

  predicate Finished(t: Thread) {
    t.frames == [] && t.todo == []
  }

  predicate Holds(t: Thread, l: Lock) {
    exists i :: 0 <= i < |t.frames| && t.frames[i].lock == l
  }

  /** The thread's next action is to take l. */
  predicate Wants(t: Thread, l: Lock) {
    Current(t) != [] && Current(t)[0].lock == l
  }

  predicate Free(ts: seq<Thread>, l: Lock) {
    forall u :: 0 <= u < |ts| ==> !Holds(ts[u], l)
  }

  predicate CanAdvance(ts: seq<Thread>, u: nat) {
    && u < |ts| && !Finished(ts[u])
    && (Current(ts[u]) != [] ==> Free(ts, Current(ts[u])[0].lock))
  }

  /** Enter the next scope, or leave the innermost one when nothing remains in it. */
  function Advance(t: Thread): Thread
    requires !Finished(t)
  {
    var n := |t.frames|;
    if Current(t) == [] then t.(frames := t.frames[..n - 1])
    else
      var entered := Frame(Current(t)[0].lock, Current(t)[0].body);
      if n == 0 then Thread(t.todo[1..], [entered])
      else t.(frames := t.frames[..n - 1] + [t.frames[n - 1].(rest := t.frames[n - 1].rest[1..]), entered])
  }

  /** The state after a schedule of thread numbers; a step a thread cannot take is skipped. */
  function After(ts: seq<Thread>, schedule: seq<nat>): (after: seq<Thread>)
    ensures |after| == |ts|
  {
    if schedule == [] then ts
    else
      var past := After(ts, schedule[..|schedule| - 1]);
      var u := schedule[|schedule| - 1];
      if CanAdvance(past, u) then past[u := Advance(past[u])] else past
  }

  function Started(work: seq<seq<Scope>>): seq<Thread> {
    seq(|work|, i requires 0 <= i < |work| => Thread(work[i], []))
  }

  // ---------------------------------------------------------------- what every state keeps

  ghost predicate ThreadInv(t: Thread) {
    && Ordered(t.todo, -1)
    && (forall i :: 0 <= i < |t.frames| ==> Ordered(t.frames[i].rest, Rank(t.frames[i].lock)))
    && (forall i, j :: 0 <= i < j < |t.frames| ==> Rank(t.frames[i].lock) < Rank(t.frames[j].lock))
  }

  ghost predicate Exclusive(ts: seq<Thread>) {
    forall u, v, l :: 0 <= u < |ts| && 0 <= v < |ts| && Holds(ts[u], l) && Holds(ts[v], l) ==> u == v
  }

  ghost predicate Inv(ts: seq<Thread>) {
    && (forall u :: 0 <= u < |ts| ==> ThreadInv(ts[u]))
    && Exclusive(ts)
  }

  lemma AdvanceKeeps(t: Thread)
    requires ThreadInv(t) && !Finished(t)
    ensures ThreadInv(Advance(t))
    ensures forall l :: Holds(Advance(t), l) ==> Holds(t, l) || Wants(t, l)
  {
    var t' := Advance(t);
    var n := |t.frames|;
    if Current(t) != [] {
      assert Ordered(Current(t)[0].body, Rank(Current(t)[0].lock));
      if n > 0 {
        assert forall i :: 0 <= i < n ==> t'.frames[i].lock == t.frames[i].lock;
        assert forall i :: 0 <= i < n ==> Rank(t.frames[i].lock) <= Rank(t.frames[n - 1].lock);
      }
    }
  }

  lemma StepKeeps(ts: seq<Thread>, u: nat)
    requires Inv(ts) && CanAdvance(ts, u)
    ensures Inv(ts[u := Advance(ts[u])])
  {
    var ts' := ts[u := Advance(ts[u])];
    AdvanceKeeps(ts[u]);
    assert forall l :: Holds(ts'[u], l) ==> Holds(ts[u], l) || Free(ts, l);
    assert forall v :: 0 <= v < |ts| && v != u ==> ts'[v] == ts[v];
  }

  lemma {:induction false} AllReachableOrdered(work: seq<seq<Scope>>, schedule: seq<nat>)
    requires forall i :: 0 <= i < |work| ==> Ordered(work[i], -1)
    ensures Inv(After(Started(work), schedule))
  {
    if schedule != [] {
      var past := After(Started(work), schedule[..|schedule| - 1]);
      AllReachableOrdered(work, schedule[..|schedule| - 1]);
      if CanAdvance(past, schedule[|schedule| - 1]) {
        StepKeeps(past, schedule[|schedule| - 1]);
      }
    }
  }

  /** Thread u waits for a mutex that thread v holds. */
  predicate WaitsFor(ts: seq<Thread>, u: nat, v: nat) {
    u < |ts| && v < |ts| && Current(ts[u]) != [] && Holds(ts[v], Current(ts[u])[0].lock)
  }

  /** Whatever a thread wants ranks above everything it holds. */
  lemma WantsAbove(t: Thread, l: Lock)
    requires ThreadInv(t) && Current(t) != [] && Holds(t, l)
    ensures Rank(Current(t)[0].lock) > Rank(l)
  {
  }

  function WantedRank(t: Thread): int {
    if Current(t) == [] then 5 else Rank(Current(t)[0].lock)
  }

  lemma {:induction false} RanksClimb(ts: seq<Thread>, path: seq<nat>, k: nat)
    requires Inv(ts) && k < |path| && forall i :: 0 <= i < |path| ==> path[i] < |ts|
    requires forall i :: 0 <= i < |path| - 1 ==> WaitsFor(ts, path[i], path[i + 1])
    ensures k > 0 ==> WantedRank(ts[path[0]]) < WantedRank(ts[path[k]])
  {
    if k > 0 {
      RanksClimb(ts, path, k - 1);
      assert WaitsFor(ts, path[k - 1], path[k - 1 + 1]);
      if Current(ts[path[k]]) != [] {
        WantsAbove(ts[path[k]], Current(ts[path[k - 1]])[0].lock);
      }
    }
  }

  /** No reachable state of any number of threads holds a circle of waiting threads. */
  lemma NoWaitingCircle(work: seq<seq<Scope>>, schedule: seq<nat>, circle: seq<nat>)
    requires forall i :: 0 <= i < |work| ==> Ordered(work[i], -1)
    requires |circle| >= 2 && circle[0] == circle[|circle| - 1]
    ensures exists i :: 0 <= i < |circle| - 1 && !WaitsFor(After(Started(work), schedule), circle[i], circle[i + 1])
  {
    var ts := After(Started(work), schedule);
    AllReachableOrdered(work, schedule);
    if forall i :: 0 <= i < |circle| - 1 ==> WaitsFor(ts, circle[i], circle[i + 1]) {
      var last := |circle| - 1;
      forall i | 0 <= i < last ensures circle[i] < |ts| {
        assert WaitsFor(ts, circle[i], circle[i + 1]);
      }
      assert circle[last] < |ts|;
      RanksClimb(ts, circle, last);
      assert false;
    }
  }

  /** From an unfinished thread, following who holds what it waits for ends at a thread that can step. */
  lemma {:induction false} FollowHolders(ts: seq<Thread>, u: nat) returns (v: nat)
    requires Inv(ts) && u < |ts| && !Finished(ts[u])
    ensures CanAdvance(ts, v)
    decreases 5 - WantedRank(ts[u])
  {
    if CanAdvance(ts, u) {
      v := u;
    } else {
      var l := Current(ts[u])[0].lock;
      var w :| 0 <= w < |ts| && Holds(ts[w], l);
      if Current(ts[w]) != [] { WantsAbove(ts[w], l); }
      v := FollowHolders(ts, w);
    }
  }

  /** Threads that keep the order never stop all together: as long as one is unfinished, one can step. */
  lemma SomeoneCanStep(work: seq<seq<Scope>>, schedule: seq<nat>, u: nat)
    requires forall i :: 0 <= i < |work| ==> Ordered(work[i], -1)
    requires u < |work| && !Finished(After(Started(work), schedule)[u])
    ensures exists v: nat :: CanAdvance(After(Started(work), schedule), v)
  {
    AllReachableOrdered(work, schedule);
    var v := FollowHolders(After(Started(work), schedule), u);
  }

  /** A client process: every thread's work is a list of activities. */
  function Process(works: seq<seq<Activity>>): seq<Thread> {
    Started(seq(|works|, i requires 0 <= i < |works| => WorkCode(works[i])))
  }

  /** A client process without those two activities never deadlocks: at every reachable moment no threads
      wait in a circle, and some unfinished thread can step. */
  lemma ClientNeverDeadlocks(works: seq<seq<Activity>>, schedule: seq<nat>, circle: seq<nat>)
    requires forall i :: 0 <= i < |works| ==> KeepsOrder(works[i])
    ensures (exists u :: 0 <= u < |works| && !Finished(After(Process(works), schedule)[u])) ==>
      exists v: nat :: CanAdvance(After(Process(works), schedule), v)
    ensures |circle| >= 2 && circle[0] == circle[|circle| - 1] ==>
      exists i :: 0 <= i < |circle| - 1 && !WaitsFor(After(Process(works), schedule), circle[i], circle[i + 1])
  {
    var code := seq(|works|, i requires 0 <= i < |works| => WorkCode(works[i]));
    forall i | 0 <= i < |code| ensures Ordered(code[i], -1) { WorkIsOrdered(works[i]); }
    if u :| 0 <= u < |works| && !Finished(After(Process(works), schedule)[u]) {
      SomeoneCanStep(code, schedule, u);
    }
    if |circle| >= 2 && circle[0] == circle[|circle| - 1] {
      NoWaitingCircle(code, schedule, circle);
    }
  }

  lemma AfterOneMore(ts: seq<Thread>, schedule: seq<nat>, u: nat)
    requires CanAdvance(After(ts, schedule), u)
    ensures After(ts, schedule + [u]) == After(ts, schedule)[u := Advance(After(ts, schedule)[u])]
  {
  }

  // ---------------------------------------------------------------- when threads do stop

  /** No scope lies inside one of the same mutex, and none takes a mutex of `held`. */
  predicate NoReentry(code: seq<Scope>, held: set<Lock>) {
    forall i :: 0 <= i < |code| ==> code[i].lock !in held && NoReentry(code[i].body, held + {code[i].lock})
  }

  lemma ReentryAppend(a: seq<Scope>, b: seq<Scope>, held: set<Lock>)
    ensures NoReentry(a + b, held) <==> NoReentry(a, held) && NoReentry(b, held)
  {
    var all := a + b;
    assert forall i :: 0 <= i < |a| ==> all[i] == a[i];
    assert forall i :: 0 <= i < |b| ==> all[|a| + i] == b[i];
  }

  /** A request made inside a sweep takes the timer mutex a second time. */
  lemma CallReenters(c: ApiCall)
    requires !AvoidsTimer(c)
    ensures !NoReentry(CallCode(c), {TimerMutex})
  {
    assert CallCode(c)[1] == TIMER_OP;
  }

  lemma {:induction false} CallsReenter(cs: seq<ApiCall>)
    requires NoReentry(CallsCode(cs), {TimerMutex})
    ensures forall c :: c in cs ==> AvoidsTimer(c)
  {
    if cs != [] {
      ReentryAppend(CallCode(cs[0]), CallsCode(cs[1..]), {TimerMutex});
      CallsReenter(cs[1..]);
      if !AvoidsTimer(cs[0]) { CallReenters(cs[0]); }
    }
  }

  lemma {:induction false} TimeoutsReenter(timeouts: seq<seq<ApiCall>>)
    requires NoReentry(TimeoutsCode(timeouts), {TimerMutex})
    ensures TimeoutsAvoidTimer(timeouts)
  {
    if timeouts != [] {
      var rest := timeouts[1..];
      ReentryAppend([LOG] + CallsCode(timeouts[0]), TimeoutsCode(rest), {TimerMutex});
      ReentryAppend([LOG], CallsCode(timeouts[0]), {TimerMutex});
      CallsReenter(timeouts[0]);
      TimeoutsReenter(rest);
      assert forall i :: 0 <= i < |timeouts| ==> timeouts[i] == (if i == 0 then timeouts[0] else rest[i - 1]);
    }
  }

  lemma {:induction false} WorkReenters(work: seq<Activity>)
    requires NoReentry(WorkCode(work), {})
    ensures KeepsOrder(work)
  {
    if work != [] {
      ReentryAppend(Code(work[0]), WorkCode(work[1..]), {});
      WorkReenters(work[1..]);
      if work[0].TimerRound? {
        assert Code(work[0])[0].body == TimeoutsCode(work[0].timeouts) && {} + {TimerMutex} == {TimerMutex};
        TimeoutsReenter(work[0].timeouts);
      } else if work[0].HeartbeatError? {
        HeartbeatReenters(work[0].logs);
      }
    }
  }

  /** Reconnecting takes `conn_mutex`, which the receive loop holds. */
  lemma HeartbeatReenters(logs: nat)
    ensures !NoReentry(Code(HeartbeatError(logs)), {})
  {
    var body := [LOG] + ReconnectCode(logs);
    assert body[2].lock == ConnMutex;
    assert Code(HeartbeatError(logs))[0] == Scope(ConnMutex, body);
  }

  function Locks(frames: seq<Frame>): set<Lock> {
    set f | f in frames :: f.lock
  }

  ghost predicate FramesSafe(frames: seq<Frame>) {
    frames == [] ||
    (NoReentry(frames[|frames| - 1].rest, Locks(frames)) && FramesSafe(frames[..|frames| - 1]))
  }

  /** What remains to be run never takes a mutex the thread holds by then. */
  ghost predicate Safe(t: Thread) {
    NoReentry(t.todo, {}) && FramesSafe(t.frames)
  }

  lemma ReentryHead(code: seq<Scope>, held: set<Lock>)
    requires code != []
    ensures NoReentry(code, held) <==>
      code[0].lock !in held && NoReentry(code[0].body, held + {code[0].lock}) && NoReentry(code[1..], held)
  {
    assert code == [code[0]] + code[1..];
    ReentryAppend([code[0]], code[1..], held);
    assert [code[0]][0] == code[0];
  }

  lemma FramesSafeStep(frames: seq<Frame>, f: Frame)
    ensures FramesSafe(frames + [f]) <==> NoReentry(f.rest, Locks(frames) + {f.lock}) && FramesSafe(frames)
  {
    assert (frames + [f])[..|frames|] == frames;
    assert Locks(frames + [f]) == Locks(frames) + {f.lock};
  }

  /** A step that does not take a held mutex changes nothing about that. */
  lemma SafetyStays(t: Thread)
    requires !Finished(t) && (Current(t) != [] ==> Current(t)[0].lock !in Locks(t.frames))
    ensures Safe(Advance(t)) <==> Safe(t)
  {
    var n := |t.frames|;
    if Current(t) != [] {
      var entered := Frame(Current(t)[0].lock, Current(t)[0].body);
      ReentryHead(Current(t), Locks(t.frames));
      if n == 0 {
        FramesSafeStep([], entered);
        assert [] + [entered] == [entered] && Locks([]) == Locks(t.frames) == {};
      } else {
        var outer, top := t.frames[..n - 1], t.frames[n - 1];
        var left := top.(rest := top.rest[1..]);
        assert t.frames == outer + [top] && Advance(t).frames == outer + [left] + [entered];
        FramesSafeStep(outer, top);
        FramesSafeStep(outer, left);
        FramesSafeStep(outer + [left], entered);
        assert Locks(outer + [left]) == Locks(outer) + {top.lock} == Locks(t.frames);
      }
    }
  }

  /** Steps a thread has left: two for each scope not entered, one for each to be left. */
  function Size(code: seq<Scope>): nat {
    if code == [] then 0 else 2 + Size(code[0].body) + Size(code[1..])
  }

  function FramesSize(frames: seq<Frame>): nat {
    if frames == [] then 0 else 1 + Size(frames[|frames| - 1].rest) + FramesSize(frames[..|frames| - 1])
  }

  function Left(t: Thread): nat {
    Size(t.todo) + FramesSize(t.frames)
  }

  lemma FramesSizeStep(frames: seq<Frame>, f: Frame)
    ensures FramesSize(frames + [f]) == FramesSize(frames) + 1 + Size(f.rest)
  {
    assert (frames + [f])[..|frames|] == frames;
  }

  lemma OneStepLess(t: Thread)
    requires !Finished(t)
    ensures Left(Advance(t)) == Left(t) - 1
  {
    var n := |t.frames|;
    if Current(t) != [] {
      var entered := Frame(Current(t)[0].lock, Current(t)[0].body);
      if n == 0 {
        FramesSizeStep([], entered);
        assert [] + [entered] == [entered];
      } else {
        var outer, top := t.frames[..n - 1], t.frames[n - 1];
        var left := top.(rest := top.rest[1..]);
        assert Advance(t).frames == outer + [left] + [entered];
        FramesSizeStep(outer, left);
        FramesSizeStep(outer + [left], entered);
      }
    }
  }

  function TotalLeft(ts: seq<Thread>): nat {
    if ts == [] then 0 else Left(ts[0]) + TotalLeft(ts[1..])
  }

  lemma {:induction false} TotalOfUpdate(ts: seq<Thread>, u: nat, t: Thread)
    requires u < |ts|
    ensures TotalLeft(ts[u := t]) == TotalLeft(ts) - Left(ts[u]) + Left(t)
  {
    if u == 0 {
      assert ts[0 := t][1..] == ts[1..];
    } else {
      assert ts[u := t][1..] == ts[1..][u - 1 := t];
      TotalOfUpdate(ts[1..], u - 1, t);
    }
  }

  /** A thread running alone that is not safe comes to wait for itself. */
  lemma {:induction false} RunAlone(ts: seq<Thread>, schedule: seq<nat>, u: nat) returns (longer: seq<nat>)
    requires u < |ts| && !Safe(After(ts, schedule)[u])
    requires forall v :: 0 <= v < |ts| && v != u ==> After(ts, schedule)[v].frames == []
    ensures WaitsFor(After(ts, longer), u, u)
    decreases Left(After(ts, schedule)[u])
  {
    var now := After(ts, schedule);
    if Current(now[u]) != [] && Current(now[u])[0].lock in Locks(now[u].frames) {
      longer := schedule;
    } else {
      assert CanAdvance(now, u);
      SafetyStays(now[u]);
      OneStepLess(now[u]);
      AfterOneMore(ts, schedule, u);
      longer := RunAlone(ts, schedule + [u], u);
    }
  }

  /** Some thread is unfinished and none can step. */
  ghost predicate Stopped(ts: seq<Thread>) {
    (exists u :: 0 <= u < |ts| && !Finished(ts[u])) && forall v: nat :: !CanAdvance(ts, v)
  }

  /** While a thread waits for itself the others can only run until none can step. */
  lemma {:induction false} ComesToAStop(ts: seq<Thread>, schedule: seq<nat>, u: nat) returns (longer: seq<nat>)
    requires WaitsFor(After(ts, schedule), u, u)
    ensures Stopped(After(ts, longer))
    decreases TotalLeft(After(ts, schedule))
  {
    var now := After(ts, schedule);
    if v: nat :| CanAdvance(now, v) {
      OneStepLess(now[v]);
      TotalOfUpdate(now, v, Advance(now[v]));
      AfterOneMore(ts, schedule, v);
      longer := ComesToAStop(ts, schedule + [v], u);
    } else {
      longer := schedule;
    }
  }

  lemma {:induction false} OwnOrderKept(work: seq<seq<Scope>>, schedule: seq<nat>, i: nat)
    requires i < |work| && Ordered(work[i], -1)
    ensures ThreadInv(After(Started(work), schedule)[i])
  {
    if schedule != [] {
      var n := |schedule| - 1;
      var past := After(Started(work), schedule[..n]);
      OwnOrderKept(work, schedule[..n], i);
      if schedule[n] == i && CanAdvance(past, i) { AdvanceKeeps(past[i]); }
    }
  }

  /** After this schedule thread i waits for a mutex it holds. */
  ghost predicate WaitsForItself(works: seq<seq<Activity>>, schedule: seq<nat>, i: nat) {
    WaitsFor(After(Process(works), schedule), i, i)
  }

  /** A thread comes to wait for itself, in some schedule of any process it is part of, exactly if its work
      holds one of the two activities that take a mutex they hold. */
  lemma ReentryStopsExactly(works: seq<seq<Activity>>, i: nat)
    requires i < |works|
    ensures !KeepsOrder(works[i]) <==> exists schedule: seq<nat> :: WaitsForItself(works, schedule, i)
  {
    var ts := Process(works);
    if KeepsOrder(works[i]) {
      var code := seq(|works|, j requires 0 <= j < |works| => WorkCode(works[j]));
      WorkIsOrdered(works[i]);
      forall schedule: seq<nat> ensures !WaitsForItself(works, schedule, i) {
        OwnOrderKept(code, schedule, i);
        var t := After(ts, schedule)[i];
        if WaitsFor(After(ts, schedule), i, i) { WantsAbove(t, Current(t)[0].lock); }
      }
    } else {
      if Safe(ts[i]) { WorkReenters(works[i]); }
      var schedule := RunAlone(ts, [], i);
      assert WaitsForItself(works, schedule, i);
    }
  }

  ghost predicate StopsAfter(works: seq<seq<Activity>>, schedule: seq<nat>) {
    Stopped(After(Process(works), schedule))
  }

  ghost predicate CircleAfter(works: seq<seq<Activity>>, schedule: seq<nat>, circle: seq<nat>) {
    && |circle| >= 2 && circle[0] == circle[|circle| - 1]
    && forall i :: 0 <= i < |circle| - 1 ==> WaitsFor(After(Process(works), schedule), circle[i], circle[i + 1])
  }

  /** A process can come to a stop, and threads of it can wait in a circle, exactly if the work of some thread
      holds one of those activities. */
  lemma ClientStopsExactly(works: seq<seq<Activity>>)
    ensures (exists i :: 0 <= i < |works| && !KeepsOrder(works[i])) <==> exists schedule :: StopsAfter(works, schedule)
    ensures (exists i :: 0 <= i < |works| && !KeepsOrder(works[i]))
       <==> exists schedule, circle :: CircleAfter(works, schedule, circle)
  {
    if i :| 0 <= i < |works| && !KeepsOrder(works[i]) {
      ReentryStopsExactly(works, i);
      var schedule: seq<nat> :| WaitsForItself(works, schedule, i);
      assert CircleAfter(works, schedule, [i, i]);
      var longer := ComesToAStop(Process(works), schedule, i);
      assert StopsAfter(works, longer);
    } else {
      forall schedule ensures !StopsAfter(works, schedule) {
        ClientNeverDeadlocks(works, schedule, []);
      }
      forall schedule, circle ensures !CircleAfter(works, schedule, circle) {
        ClientNeverDeadlocks(works, schedule, circle);
      }
    }
  }
}
