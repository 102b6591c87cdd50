/** When timers run out, over every run: deadlines, outcomes and notifications. */
module PeerDeadlines {
  import opened Messages
  import opened TimerTasks
  import opened PeerModel
  import opened PeerInvariant
  import opened PeerSystem
  import opened PeerTheorems

  // ---------------------------------------------------------------- deadlines

  /** A task leaves the list only because its own publish failed, because its final response was
      handled, or because a sweep found it due. */
  lemma TasksLeaveOnlyBy(name: string, s: Peer, op: Op, r: int)
    requires LocalInv(name, s) && Enabled(s, op)
    requires r in Ids(s.tasks) && r !in Ids(Local(name, s, op).tasks)
    ensures
      || (op.Undo? && s.threads[op.thread].rid == r)
      || (op.Finish? && s.receiver == FinalCalled(r))
      || (op.Sweep? && exists t :: t in s.tasks && t.id == r && op.now >= t.expireTime)
  {
    match op
    case Register(_, _) => RegisterKeepsTasks(name, s, op);
    case Undo(th) => RemoveTaskList(name, s, s.threads[th].rid);
    case Finish(_, _, _) => FinishedIsFinal(name, s, op, r);
    case Sweep(_) => SweptIsDue(name, s, op, r);
    case _ => ListStays(name, s, op);
  }

  lemma FinishedIsFinal(name: string, s: Peer, op: Op, r: int)
    requires LocalInv(name, s) && Enabled(s, op) && op.Finish?
    requires r in Ids(s.tasks) && r !in Ids(Local(name, s, op).tasks)
    ensures s.receiver == FinalCalled(r)
  {
    if s.receiver.TempCalled? { RestartKeepsTasks(name, s, op); }
    if s.receiver.FinalCalled? { RemoveTaskList(name, s, s.receiver.rid); }
  }

  lemma SweptIsDue(name: string, s: Peer, op: Op, r: int)
    requires LocalInv(name, s) && Enabled(s, op) && op.Sweep?
    requires r in Ids(s.tasks) && r !in Ids(Local(name, s, op).tasks)
    ensures exists t :: t in s.tasks && t.id == r && op.now >= t.expireTime
  {
    SweepList(name, s, op);
    DueMembers(s.tasks, op.now);
  }

  /** The deadline by the module's own record. */
  function Deadline(s: Peer, r: int): int
    requires r in s.issued && r in s.started
  {
    s.started[r] + TruncDiv(s.issued[r].timeout, 1000) * TICKS_PER_SECOND
  }

  /** An active id is due exactly from its deadline on. */
  lemma DueAtDeadline(name: string, s: Peer, r: int, now: int)
    requires TasksInv(name, s) && r in Ids(s.tasks)
    ensures r in s.issued && r in s.started
    ensures r in Ids(Due(s.tasks, now)) <==> now >= Deadline(s, r)
    ensures TimeInv(s) ==> s.lastSweep <= Max(Deadline(s, r), s.started[r])
  {
    var t := s.tasks[IndexOf(s.tasks, r)];
    assert t in s.tasks && KnownTask(name, s, t);
    DueMembers(s.tasks, now);
    if r in Ids(Due(s.tasks, now)) {
      var u :| u in Due(s.tasks, now) && u.id == r;
      assert KnownTask(name, s, u);
    }
  }

  lemma SweepDecides(name: string, s: Peer, op: Op, r: int)
    requires LocalInv(name, s) && Enabled(s, op) && op.Sweep? && r in Ids(s.tasks)
    ensures r in s.issued && r in s.started
    ensures Count(s.log, TimeoutKind, r) == 0
    ensures r !in Ids(Local(name, s, op).tasks) <==> op.now >= Deadline(s, r)
    ensures Count(Local(name, s, op).log, TimeoutKind, r)
         == (if op.now >= Deadline(s, r) && TimeoutSet(s, r) then 1 else 0)
  {
    DueAtDeadline(name, s, r, op.now);
    SweepList(name, s, op);
    LoggedMeans(s, r);
    AddTimeouts(name, s, Due(s.tasks, op.now), r);
  }

  // ---------------------------------------------------------------- what the steps of a run say about time

  /** The step starts or restarts the timer of id r: its registration, or the end of the handling of a temporary
      response to it. */
  predicate Starts(s: Peer, op: Op, r: int)
    requires Enabled(s, op)
  {
    (op.Register? && s.threads[op.thread].rid == r) || (op.Finish? && s.receiver == TempCalled(r))
  }

  /** The clock of the latest step of the run that started or restarted the timer of id r at module m. */
  function LastStart(sys: System, steps: seq<Step>, m: string, r: int): Option<int>
    requires Exec(sys, steps).Some?
  {
    if steps == [] then None
    else
      var n := |steps| - 1;
      var past := Exec(sys, steps[..n]).value;
      if steps[n].m == m && Starts(past.peers[m], steps[n].op, r) then Some(steps[n].op.now)
      else LastStart(sys, steps[..n], m, r)
  }

  /** The clock of the latest sweep of module m in the run, or its clock at the beginning. */
  function LastSweep(sys: System, steps: seq<Step>, m: string): int
    requires m in sys.peers
  {
    if steps == [] then sys.peers[m].clock
    else
      var n := |steps| - 1;
      if steps[n].m == m && steps[n].op.Sweep? then steps[n].op.now else LastSweep(sys, steps[..n], m)
  }

  /** A timer found in the list was started by this step, or was there before and is as it was. */
  lemma StartedByStep(name: string, s: Peer, op: Op, r: int)
    requires LocalInv(name, s) && Enabled(s, op) && r in Ids(Local(name, s, op).tasks)
    ensures Starts(s, op, r) ==> r in Local(name, s, op).started && Local(name, s, op).started[r] == op.now
    ensures !Starts(s, op, r) ==> r in Ids(s.tasks) && r in s.started && r in Local(name, s, op).started
    ensures !Starts(s, op, r) ==> Local(name, s, op).started[r] == s.started[r]
  {
    if Starts(s, op, r) {
      if op.Finish? { StartedByFinish(name, s, op, r); }
    } else {
      ListedBefore(name, s, op, r);
      ListedIsStarted(name, s, r);
      StartStays(name, s, op, r);
    }
  }

  lemma StartStays(name: string, s: Peer, op: Op, r: int)
    requires Enabled(s, op) && !Starts(s, op, r) && r in s.started
    ensures r in Local(name, s, op).started && Local(name, s, op).started[r] == s.started[r]
  {
  }

  lemma ListedBefore(name: string, s: Peer, op: Op, r: int)
    requires LocalInv(name, s) && Enabled(s, op) && r in Ids(Local(name, s, op).tasks)
    requires !(op.Register? && s.threads[op.thread].rid == r)
    ensures r in Ids(s.tasks)
  {
    match op
    case Register(_, _) => RegisterKeepsTasks(name, s, op);
    case Undo(th) => RemoveTaskList(name, s, s.threads[th].rid);
    case Finish(_, _, _) => StartedByFinish(name, s, op, r);
    case Sweep(_) => SweepList(name, s, op);
    case _ => ListStays(name, s, op);
  }

  lemma ListStays(name: string, s: Peer, op: Op)
    requires Enabled(s, op) && !op.Register? && !op.Undo? && !op.Finish? && !op.Sweep?
    ensures Local(name, s, op).tasks == s.tasks && Local(name, s, op).ended == s.ended
  {
  }

  lemma ListedIsStarted(name: string, s: Peer, r: int)
    requires TasksInv(name, s)
    ensures r in Ids(s.tasks) ==> r in s.started
  {
  }

  lemma StartedByFinish(name: string, s: Peer, op: Op, r: int)
    requires LocalInv(name, s) && Enabled(s, op) && op.Finish? && r in Ids(Local(name, s, op).tasks)
    ensures r in Ids(s.tasks)
  {
    if s.receiver.TempCalled? { RestartKeepsTasks(name, s, op); }
    if s.receiver.FinalCalled? { RemoveTaskList(name, s, s.receiver.rid); }
  }

  lemma {:induction false} StartHistory(mods: map<string, (Handlers, int)>, steps: seq<Step>, m: string, r: int)
    requires Exec(Init(mods), steps).Some? && m in Exec(Init(mods), steps).value.peers
    requires r in Ids(Exec(Init(mods), steps).value.peers[m].tasks)
    ensures var s := Exec(Init(mods), steps).value.peers[m];
      r in s.started && LastStart(Init(mods), steps, m, r) == Some(s.started[r])
  {
    assert steps != [];
    var n := |steps| - 1;
    var s := Exec(Init(mods), steps[..n]).value.peers[m];
    if steps[n].m == m {
      PeerHolds(mods, steps[..n], m);
      StartedByStep(m, s, steps[n].op, r);
      if !Starts(s, steps[n].op, r) { StartHistory(mods, steps[..n], m, r); }
    } else {
      StartHistory(mods, steps[..n], m, r);
    }
  }

  lemma SweptByStep(name: string, s: Peer, op: Op)
    requires Enabled(s, op)
    ensures Local(name, s, op).lastSweep == if op.Sweep? then op.now else s.lastSweep
  {
  }

  lemma {:induction false} SweepHistory(mods: map<string, (Handlers, int)>, steps: seq<Step>, m: string)
    requires Exec(Init(mods), steps).Some? && m in Init(mods).peers
    ensures m in Exec(Init(mods), steps).value.peers
    ensures Exec(Init(mods), steps).value.peers[m].lastSweep == LastSweep(Init(mods), steps, m)
  {
    if steps != [] {
      var n := |steps| - 1;
      SweepHistory(mods, steps[..n], m);
      if steps[n].m == m { SweptByStep(m, Exec(Init(mods), steps[..n]).value.peers[m], steps[n].op); }
    }
  }

  /** The deadline by the steps of the run: the latest start or restart plus the whole seconds of the timeout
      given to the call. */
  predicate ReachesDeadline(sys: System, steps: seq<Step>, m: string, r: int, timeout: int, now: int)
    requires Exec(sys, steps).Some?
  {
    var start := LastStart(sys, steps, m, r);
    start.Some? && now >= start.value + TruncDiv(timeout, 1000) * 1_000_000_000
  }

  lemma DeadlineIsByRun(mods: map<string, (Handlers, int)>, steps: seq<Step>, m: string, r: int, now: int)
    requires Exec(Init(mods), steps).Some? && m in Exec(Init(mods), steps).value.peers
    requires r in Ids(Exec(Init(mods), steps).value.peers[m].tasks)
    ensures var s := Exec(Init(mods), steps).value.peers[m];
      && r in s.issued && r in s.started
      && (now >= Deadline(s, r) <==> ReachesDeadline(Init(mods), steps, m, r, s.issued[r].timeout, now))
  {
    PeerHolds(mods, steps, m);
    StartHistory(mods, steps, m, r);
    DueAtDeadline(m, Exec(Init(mods), steps).value.peers[m], r, now);
  }

  // ---------------------------------------------------------------- deadlines, over runs

  /** A sweep takes an active id out, with its timeout callback, exactly when the clock has reached the latest
      start or restart of its timer plus the whole seconds of the timeout its call was given. */
  lemma SweepFiresAtDeadline(mods: map<string, (Handlers, int)>, steps: seq<Step>, step: Step, r: int)
    returns (i: nat, args: CallArgs)
    requires Exec(Init(mods), steps).Some? && CanStep(Exec(Init(mods), steps).value, step) && step.op.Sweep?
    requires r in Ids(Exec(Init(mods), steps).value.peers[step.m].tasks)
    ensures AllocatedAt(mods, steps, i, step.m, r, args)
    ensures var sys := Exec(Init(mods), steps).value;
      var s, s' := sys.peers[step.m], Next(sys, step).peers[step.m];
      var reached := ReachesDeadline(Init(mods), steps, step.m, r, args.timeout, step.op.now);
      && (r !in Ids(s'.tasks) <==> reached)
      && Count(s.log, TimeoutKind, r) == 0
      && Count(s'.log, TimeoutKind, r)
         == if reached && (if args.notify then s.handlers.notifyTimeout else s.handlers.requestTimeout) then 1 else 0
  {
    var s := Exec(Init(mods), steps).value.peers[step.m];
    PeerHolds(mods, steps, step.m);
    SweepDecides(step.m, s, step.op, r);
    DeadlineIsByRun(mods, steps, step.m, r, step.op.now);
    args := s.issued[r];
    i := IssuedWasAllocated(mods, steps, step.m, r);
  }

  /** Step j is a sweep of module m that finds id r listed and its deadline reached. */
  predicate SweptDue(sys: System, steps: seq<Step>, j: nat, m: string, r: int) {
    && j < |steps| && steps[j].m == m && steps[j].op.Sweep?
    && Exec(sys, steps[..j]).Some? && m in Exec(sys, steps[..j]).value.peers
    && var s := Exec(sys, steps[..j]).value.peers[m];
       && r in Ids(s.tasks) && r in s.issued
       && ReachesDeadline(sys, steps[..j], m, r, s.issued[r].timeout, steps[j].op.now)
  }

  /** The same by the module's own record. */
  predicate FoundDue(sys: System, steps: seq<Step>, j: nat, m: string, r: int) {
    && j < |steps| && steps[j].m == m && steps[j].op.Sweep?
    && Exec(sys, steps[..j]).Some? && m in Exec(sys, steps[..j]).value.peers
    && var s := Exec(sys, steps[..j]).value.peers[m];
       r in Ids(s.tasks) && r in s.issued && r in s.started && steps[j].op.now >= Deadline(s, r)
  }

  lemma SweptDueIsFound(mods: map<string, (Handlers, int)>, steps: seq<Step>, j: nat, m: string, r: int)
    ensures SweptDue(Init(mods), steps, j, m, r) <==> FoundDue(Init(mods), steps, j, m, r)
  {
    if j < |steps| && steps[j].op.Sweep? && Exec(Init(mods), steps[..j]).Some?
      && m in Exec(Init(mods), steps[..j]).value.peers
      && r in Ids(Exec(Init(mods), steps[..j]).value.peers[m].tasks)
    {
      DeadlineIsByRun(mods, steps[..j], m, r, steps[j].op.now);
    }
  }

  lemma SweptDueCounts(mods: map<string, (Handlers, int)>, steps: seq<Step>, j: nat, m: string, r: int)
    requires Exec(Init(mods), steps).Some? && FoundDue(Init(mods), steps, j, m, r)
    requires m in Exec(Init(mods), steps).value.peers && r in Exec(Init(mods), steps).value.peers[m].issued
    requires TimeoutSet(Exec(Init(mods), steps).value.peers[m], r)
    ensures Count(Exec(Init(mods), steps).value.peers[m].log, TimeoutKind, r) >= 1
  {
    var before := Exec(Init(mods), steps[..j]).value.peers[m];
    PeerHolds(mods, steps[..j], m);
    PrefixGrows(mods, steps, j, m);
    ExecPrefix(Init(mods), steps, j);
    SweepDecides(m, before, steps[j].op, r);
    PrefixGrows(mods, steps, j + 1, m);
    CountOnlyGrows(Local(m, before, steps[j].op).log, Exec(Init(mods), steps).value.peers[m].log, TimeoutKind, r);
  }

  lemma {:induction false} TimeoutWasSwept(mods: map<string, (Handlers, int)>, steps: seq<Step>, m: string, r: int)
    returns (j: nat)
    requires Exec(Init(mods), steps).Some? && m in Exec(Init(mods), steps).value.peers
    requires Count(Exec(Init(mods), steps).value.peers[m].log, TimeoutKind, r) >= 1
    ensures FoundDue(Init(mods), steps, j, m, r)
    ensures TimeoutSet(Exec(Init(mods), steps[..j]).value.peers[m], r)
  {
    assert steps != [];
    var n := |steps| - 1;
    var s := Exec(Init(mods), steps[..n]).value.peers[m];
    if Count(s.log, TimeoutKind, r) >= 1 {
      j := TimeoutWasSwept(mods, steps[..n], m, r);
      assert steps[..n][..j] == steps[..j];
    } else {
      PeerHolds(mods, steps[..n], m);
      TimeoutsOnlyFromSweeps(m, s, steps[n].op, r);
      SweepDecides(m, s, steps[n].op, r);
      j := n;
    }
  }

  /** Over every run, an id's timeout callback is made exactly if its handler is set and some sweep finds
      the id listed with its deadline reached. */
  lemma TimesOutExactly(mods: map<string, (Handlers, int)>, steps: seq<Step>, m: string, r: int)
    requires Exec(Init(mods), steps).Some? && m in Exec(Init(mods), steps).value.peers
    requires r in Exec(Init(mods), steps).value.peers[m].issued
    ensures var s := Exec(Init(mods), steps).value.peers[m];
      Count(s.log, TimeoutKind, r)
        == if TimeoutSet(s, r) && exists j: nat :: SweptDue(Init(mods), steps, j, m, r) then 1 else 0
  {
    var s := Exec(Init(mods), steps).value.peers[m];
    AtMostOneFinalAndOneTimeout(mods, steps, m, r);
    if Count(s.log, TimeoutKind, r) >= 1 {
      var j := TimeoutWasSwept(mods, steps, m, r);
      PrefixGrows(mods, steps, j, m);
      SweptDueIsFound(mods, steps, j, m, r);
    } else if j: nat :| SweptDue(Init(mods), steps, j, m, r) {
      SweptDueIsFound(mods, steps, j, m, r);
      if TimeoutSet(s, r) { SweptDueCounts(mods, steps, j, m, r); }
    }
  }

  /** Id r has ended within the first k steps. */
  predicate EndedBy(sys: System, steps: seq<Step>, k: nat, m: string, r: int) {
    && k <= |steps| && Exec(sys, steps[..k]).Some? && m in Exec(sys, steps[..k]).value.peers
    && r in Exec(sys, steps[..k]).value.peers[m].ended
  }

  /** No sweep finds an id once it has ended. */
  lemma SweptBeforeEnd(mods: map<string, (Handlers, int)>, steps: seq<Step>, j: nat, k: nat, m: string, r: int)
    requires Exec(Init(mods), steps).Some? && SweptDue(Init(mods), steps, j, m, r)
    requires EndedBy(Init(mods), steps, k, m, r)
    ensures j < k
  {
    if j >= k {
      PeerHolds(mods, steps[..j], m);
      assert steps[..j][..k] == steps[..k];
      PrefixGrows(mods, steps[..j], k, m);
      assert false;
    }
  }

  // ---------------------------------------------------------------- at least one of each

  /** Step j takes id r out again because its own publish failed. */
  predicate UndoneAt(sys: System, steps: seq<Step>, j: nat, m: string, r: int) {
    && j < |steps| && steps[j].m == m && steps[j].op.Undo?
    && Exec(sys, steps[..j]).Some? && m in Exec(sys, steps[..j]).value.peers
    && var s := Exec(sys, steps[..j]).value.peers[m];
       steps[j].op.thread in s.threads && s.threads[steps[j].op.thread].rid == r && r in Ids(s.tasks)
  }

  predicate HasOutcome(s: Peer, r: int) {
    Count(s.log, FinalKind, r) + Count(s.log, TimeoutKind, r) >= 1
  }

  lemma EndingStep(name: string, s: Peer, op: Op, r: int)
    requires LocalInv(name, s) && Enabled(s, op) && LocalInv(name, Local(name, s, op))
    requires r !in s.ended && r in Local(name, s, op).ended
    ensures r in Ids(s.tasks) && r in s.issued
    ensures !s.issued[r].notify && s.handlers.requestTimeout ==>
      HasOutcome(Local(name, s, op), r) || (op.Undo? && s.threads[op.thread].rid == r)
  {
    EndedWasListed(name, s, op, r);
    TasksLeaveOnlyBy(name, s, op, r);
    if op.Sweep? { SweepDecides(name, s, op, r); }
  }

  lemma EndedWasListed(name: string, s: Peer, op: Op, r: int)
    requires LocalInv(name, s) && Enabled(s, op) && IdsInv(Local(name, s, op))
    requires r !in s.ended && r in Local(name, s, op).ended
    ensures r in Ids(s.tasks) && r in s.issued && r !in Ids(Local(name, s, op).tasks)
  {
    if op.Sweep? { SweepList(name, s, op); }
    assert Live(s, r);
  }

  lemma OutcomeStays(s: Peer, s': Peer, r: int)
    requires s.log <= s'.log && HasOutcome(s, r)
    ensures HasOutcome(s', r)
  {
    CountOnlyGrows(s.log, s'.log, FinalKind, r);
    CountOnlyGrows(s.log, s'.log, TimeoutKind, r);
  }

  lemma UndoneInLonger(sys: System, steps: seq<Step>, j: nat, m: string, r: int)
    requires steps != [] && UndoneAt(sys, steps[..|steps| - 1], j, m, r)
    ensures UndoneAt(sys, steps, j, m, r)
  {
    assert steps[..|steps| - 1][..j] == steps[..j];
  }

  /** Over every run, a request with a timeout callback that has ended was answered or timed out, or its
      own call took it out again. */
  lemma {:induction false} EndedRequestsHaveAnOutcome(
      mods: map<string, (Handlers, int)>, steps: seq<Step>, m: string, r: int)
    requires Exec(Init(mods), steps).Some? && m in Exec(Init(mods), steps).value.peers
    requires var s := Exec(Init(mods), steps).value.peers[m];
      r in s.ended && r in s.issued && !s.issued[r].notify && s.handlers.requestTimeout
    ensures HasOutcome(Exec(Init(mods), steps).value.peers[m], r)
      || exists j: nat :: UndoneAt(Init(mods), steps, j, m, r)
  {
    assert steps != [];
    var n := |steps| - 1;
    var s := Exec(Init(mods), steps[..n]).value.peers[m];
    PeerHolds(mods, steps[..n], m);
    PeerHolds(mods, steps, m);
    PrefixGrows(mods, steps, n, m);
    if r in s.ended {
      assert Live(s, r);
      EndedRequestsHaveAnOutcome(mods, steps[..n], m, r);
      if HasOutcome(s, r) {
        OutcomeStays(s, Exec(Init(mods), steps).value.peers[m], r);
      } else {
        var j: nat :| UndoneAt(Init(mods), steps[..n], j, m, r);
        UndoneInLonger(Init(mods), steps, j, m, r);
      }
    } else {
      EndingStep(m, s, steps[n].op, r);
      if !HasOutcome(Exec(Init(mods), steps).value.peers[m], r) { assert UndoneAt(Init(mods), steps, n, m, r); }
    }
  }

  /** For a timeout of T >= 0 milliseconds the firing sweep comes later than T - 1000 milliseconds
      after the latest start or restart, and at most one sweep gap after the deadline. */
  lemma TimeoutBound(mods: map<string, (Handlers, int)>, steps: seq<Step>, step: Step, r: int, gap: int)
    returns (i: nat, args: CallArgs, start: int)
    requires Exec(Init(mods), steps).Some? && CanStep(Exec(Init(mods), steps).value, step) && step.op.Sweep?
    requires step.m in Init(mods).peers && step.op.now - LastSweep(Init(mods), steps, step.m) <= gap
    requires var s := Exec(Init(mods), steps).value.peers[step.m];
      && r in Ids(s.tasks) && r !in Ids(Next(Exec(Init(mods), steps).value, step).peers[step.m].tasks)
      && r in s.issued && s.issued[r].timeout >= 0
    ensures AllocatedAt(mods, steps, i, step.m, r, args)
    ensures LastStart(Init(mods), steps, step.m, r) == Some(start)
    ensures step.op.now - start > (args.timeout - 1000) * 1_000_000
    ensures var due := start + TruncDiv(args.timeout, 1000) * 1_000_000_000; due <= step.op.now <= due + gap
  {
    var s := Exec(Init(mods), steps).value.peers[step.m];
    PeerHolds(mods, steps, step.m);
    StartHistory(mods, steps, step.m, r);
    SweepHistory(mods, steps, step.m);
    FiringTime(step.m, s, step.op, r, gap);
    start, args := s.started[r], s.issued[r];
    i := IssuedWasAllocated(mods, steps, step.m, r);
  }

  lemma FiringTime(name: string, s: Peer, op: Op, r: int, gap: int)
    requires LocalInv(name, s) && Enabled(s, op) && op.Sweep?
    requires r in Ids(s.tasks) && r !in Ids(Local(name, s, op).tasks)
    requires r in s.issued && s.issued[r].timeout >= 0 && op.now - s.lastSweep <= gap
    ensures r in s.started
    ensures (op.now - s.started[r]) * 1000 > (s.issued[r].timeout - 1000) * TICKS_PER_SECOND
    ensures Deadline(s, r) <= op.now <= Deadline(s, r) + gap
  {
    SweepDecides(name, s, op, r);
    NotSweptYet(name, s, r);
    var seconds := TruncDiv(s.issued[r].timeout, 1000);
    assert 1000 * seconds > s.issued[r].timeout - 1000;
  }

  lemma NotSweptYet(name: string, s: Peer, r: int)
    requires TasksInv(name, s) && TimeInv(s) && r in Ids(s.tasks)
    ensures r in s.issued && r in s.started
    ensures s.issued[r].timeout >= 0 ==> s.lastSweep <= Deadline(s, r)
  {
    DueAtDeadline(name, s, r, s.lastSweep);
  }

  /** No task is added or restarted at m: no registration and no delivery of a temporary response. */
  predicate Quiet(steps: seq<Step>, m: string) {
    forall step :: step in steps && step.m == m ==>
      && !step.op.Register?
      && !(step.op.Deliver? && step.op.env.props.msgtype.TemporaryResponse?)
  }

  predicate NoTemp(s: Peer) {
    !s.receiver.TempFound? && !s.receiver.TempCalled?
  }

  lemma QuietStep(name: string, s: Peer, op: Op)
    requires LocalInv(name, s) && Enabled(s, op) && Quiet([Step(name, op)], name) && NoTemp(s)
    ensures NoTemp(Local(name, s, op))
    ensures forall t :: t in Local(name, s, op).tasks ==> t in s.tasks
  {
    assert Step(name, op) in [Step(name, op)];
    match op
    case Undo(th) => RemoveMembers(s.tasks, s.threads[th].rid);
    case Finish(_, _, _) => if s.receiver.FinalCalled? { RemoveMembers(s.tasks, s.receiver.rid); }
    case Sweep(_) => SweepList(name, s, op);
    case _ =>
  }

  lemma {:induction false} QuietRun(sys: System, steps: seq<Step>, m: string)
    requires SysInv(sys) && Exec(sys, steps).Some? && m in sys.peers && NoTemp(sys.peers[m]) && Quiet(steps, m)
    ensures m in Exec(sys, steps).value.peers && NoTemp(Exec(sys, steps).value.peers[m])
    ensures forall t :: t in Exec(sys, steps).value.peers[m].tasks ==> t in sys.peers[m].tasks
  {
    if steps != [] {
      var n := |steps| - 1;
      assert Quiet(steps[..n], m) && Quiet([steps[n]], m);
      QuietRun(sys, steps[..n], m);
      PeerStays(sys, steps[..n], m);
      if steps[n].m == m {
        QuietStep(m, Exec(sys, steps[..n]).value.peers[m], steps[n].op);
      }
    }
  }

  /** Once registrations and temporary responses stop, the first sweep that reaches every deadline
      then in the list leaves the list empty. */
  lemma QuietSweepEmptiesList(
      mods: map<string, (Handlers, int)>, past: seq<Step>, quiet: seq<Step>, m: string, now: int)
    requires Exec(Init(mods), past).Some? && Exec(Exec(Init(mods), past).value, quiet).Some?
    requires m in Exec(Init(mods), past).value.peers && NoTemp(Exec(Init(mods), past).value.peers[m])
    requires Quiet(quiet, m)
    requires forall t :: t in Exec(Init(mods), past).value.peers[m].tasks ==> now >= t.expireTime
    requires CanStep(Exec(Exec(Init(mods), past).value, quiet).value, Step(m, Sweep(now)))
    ensures Next(Exec(Exec(Init(mods), past).value, quiet).value, Step(m, Sweep(now))).peers[m].tasks == []
  {
    Reachable(mods, past);
    var sys := Exec(Init(mods), past).value;
    QuietRun(sys, quiet, m);
    RunKeeps(sys, quiet);
    var s := Exec(sys, quiet).value.peers[m];
    SweepClears(m, s, Sweep(now));
  }

  lemma SweepClears(name: string, s: Peer, op: Op)
    requires LocalInv(name, s) && Enabled(s, op) && op.Sweep?
    requires forall t :: t in s.tasks ==> op.now >= t.expireTime
    ensures Local(name, s, op).tasks == []
  {
    var left := Local(name, s, op).tasks;
    assert left != [] ==> left[0] in left;
    SweepList(name, s, op);
  }

  // ---------------------------------------------------------------- notifications

  /** The notifications module m passed to its callback, as (sender, id), in order. */
  function Notified(sys: System, steps: seq<Step>, m: string): seq<(string, int)>
    requires Exec(sys, steps).Some?
  {
    if steps == [] then []
    else
      var n := |steps| - 1;
      var step := steps[n];
      Notified(sys, steps[..n], m)
        + if step.m == m && step.op.Deliver? && step.op.env.props.msgtype == Notification
             && Exec(sys, steps[..n]).value.peers[m].handlers.notify
          then [(step.op.env.props.sender, step.op.env.props.rid)] else []
  }

  /** The automatic final responses module m tried to send, as (addressee, id), in order. */
  function AutoAnswered(sys: System, steps: seq<Step>, m: string): seq<(string, int)>
    requires Exec(sys, steps).Some?
  {
    if steps == [] then []
    else
      var n := |steps| - 1;
      var step := steps[n];
      var mid := Exec(sys, steps[..n]).value;
      AutoAnswered(sys, steps[..n], m)
        + if step.m == m && step.op.Finish? && mid.peers[m].receiver.NotifyCalled?
          then var env := AutoResponse(m, mid.peers[m].receiver.env, step.op.stamp); [(env.dest, env.props.rid)]
          else []
  }

  function Unanswered(s: Peer): seq<(string, int)> {
    if s.receiver.NotifyCalled? then [(s.receiver.env.props.sender, s.receiver.env.props.rid)] else []
  }

  /** Each delivered notification leads to exactly one automatic final response attempt, with its
      own id, to its own sender; at most the one being handled is still owed. */
  lemma {:induction false} EveryNotificationAnsweredOnce(
      mods: map<string, (Handlers, int)>, steps: seq<Step>, m: string)
    requires Exec(Init(mods), steps).Some? && m in Exec(Init(mods), steps).value.peers
    ensures Notified(Init(mods), steps, m)
         == AutoAnswered(Init(mods), steps, m) + Unanswered(Exec(Init(mods), steps).value.peers[m])
  {
    if steps != [] {
      var n := |steps| - 1;
      EveryNotificationAnsweredOnce(mods, steps[..n], m);
      if steps[n].m == m {
        AnswerByStep(m, Exec(Init(mods), steps[..n]).value.peers[m], steps[n].op);
      }
    }
  }

  lemma AnswerByStep(name: string, s: Peer, op: Op)
    requires Enabled(s, op)
    ensures op.Deliver? && op.env.props.msgtype == Notification && s.handlers.notify ==>
      Unanswered(s) == [] && Unanswered(Local(name, s, op)) == [(op.env.props.sender, op.env.props.rid)]
    ensures op.Finish? && s.receiver.NotifyCalled? ==> Unanswered(Local(name, s, op)) == []
    ensures
      (!(op.Deliver? && op.env.props.msgtype == Notification && s.handlers.notify)
       && !(op.Finish? && s.receiver.NotifyCalled?)) ==> Unanswered(Local(name, s, op)) == Unanswered(s)
  {
  }

  /** Step f ends the handling of a final response for id r. */
  predicate HandledAt(sys: System, steps: seq<Step>, f: nat, m: string, r: int) {
    && f < |steps| && steps[f].m == m && steps[f].op.Finish?
    && Exec(sys, steps[..f]).Some? && m in Exec(sys, steps[..f]).value.peers
    && Exec(sys, steps[..f]).value.peers[m].receiver == FinalCalled(r)
  }

  lemma HandledEnds(mods: map<string, (Handlers, int)>, steps: seq<Step>, f: nat, m: string, r: int)
    requires Exec(Init(mods), steps).Some? && HandledAt(Init(mods), steps, f, m, r)
    ensures EndedBy(Init(mods), steps, f + 1, m, r)
  {
    PeerHolds(mods, steps[..f], m);
    ExecPrefix(Init(mods), steps, f);
  }

  /** A notification never causes a response callback. Once its final response has been handled its id
      has ended, and it causes a timeout callback exactly if a sweep had reached its deadline before
      that: if none had, neither callback is ever made for it. */
  lemma AnsweredNotificationEndsQuietly(
      mods: map<string, (Handlers, int)>, steps: seq<Step>, f: nat, m: string, r: int)
    requires Exec(Init(mods), steps).Some? && m in Exec(Init(mods), steps).value.peers
    requires var s := Exec(Init(mods), steps).value.peers[m]; r in s.issued && s.issued[r].notify
    requires HandledAt(Init(mods), steps, f, m, r)
    ensures var s := Exec(Init(mods), steps).value.peers[m];
      && r in s.ended && Count(s.log, FinalKind, r) == 0
      && Count(s.log, TimeoutKind, r)
         == if s.handlers.notifyTimeout && exists j: nat :: j < f && SweptDue(Init(mods), steps, j, m, r) then 1 else 0
  {
    NotificationTimesOutExactly(mods, steps, m, r);
    HandledEnds(mods, steps, f, m, r);
    PrefixGrows(mods, steps, f + 1, m);
    NotSweptAfter(mods, steps, f, m, r);
  }

  lemma NotSweptAfter(mods: map<string, (Handlers, int)>, steps: seq<Step>, f: nat, m: string, r: int)
    requires Exec(Init(mods), steps).Some? && HandledAt(Init(mods), steps, f, m, r)
    ensures forall j: nat :: SweptDue(Init(mods), steps, j, m, r) ==> j < f
  {
    HandledEnds(mods, steps, f, m, r);
    forall j: nat | SweptDue(Init(mods), steps, j, m, r) ensures j < f {
      SweptBeforeEnd(mods, steps, j, f + 1, m, r);
      SweepIsNotFinish(Init(mods), steps, j, f, m, r);
    }
  }

  lemma SweepIsNotFinish(sys: System, steps: seq<Step>, j: nat, f: nat, m: string, r: int)
    requires HandledAt(sys, steps, f, m, r) && SweptDue(sys, steps, j, m, r)
    ensures j != f
  {
  }

  lemma NotificationTimesOutExactly(mods: map<string, (Handlers, int)>, steps: seq<Step>, m: string, r: int)
    requires Exec(Init(mods), steps).Some? && m in Exec(Init(mods), steps).value.peers
    requires var s := Exec(Init(mods), steps).value.peers[m]; r in s.issued && s.issued[r].notify
    ensures var s := Exec(Init(mods), steps).value.peers[m];
      && Count(s.log, FinalKind, r) == 0
      && Count(s.log, TimeoutKind, r)
         == if s.handlers.notifyTimeout && exists j: nat :: SweptDue(Init(mods), steps, j, m, r) then 1 else 0
  {
    var s := Exec(Init(mods), steps).value.peers[m];
    PeerHolds(mods, steps, m);
    TimesOutExactly(mods, steps, m, r);
    CountZero(s.log, FinalKind, r);
    forall e | e in s.log ensures !Is(e, FinalKind, r) { assert EventInv(s, e); }
  }
}
