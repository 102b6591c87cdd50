/** What the protocol promises over every run of every system of modules. */
module PeerTheorems {
  import opened Messages
  import opened TimerTasks
  import opened PeerModel
  import opened PeerInvariant
  import opened PeerSystem

  lemma PeerHolds(mods: map<string, (Handlers, int)>, steps: seq<Step>, m: string)
    requires Exec(Init(mods), steps).Some? && m in Exec(Init(mods), steps).value.peers
    ensures LocalInv(m, Exec(Init(mods), steps).value.peers[m])
  {
    Reachable(mods, steps);
  }

  lemma PeerGrows(mods: map<string, (Handlers, int)>, past: seq<Step>, more: seq<Step>, m: string)
    requires Exec(Init(mods), past).Some? && Exec(Exec(Init(mods), past).value, more).Some?
    requires m in Exec(Init(mods), past).value.peers
    ensures m in Exec(Exec(Init(mods), past).value, more).value.peers
    ensures Grows(Exec(Init(mods), past).value.peers[m], Exec(Exec(Init(mods), past).value, more).value.peers[m])
    ensures LocalInv(m, Exec(Exec(Init(mods), past).value, more).value.peers[m])
  {
    Reachable(mods, past);
    RunKeeps(Exec(Init(mods), past).value, more);
  }

  // ---------------------------------------------------------------- ids

  /** The id has been handed out and is in exactly one of the three places an id can be in. */
  ghost predicate InOnePlace(s: Peer, r: int) {
    && (0 <= r < s.nextId <==> Pending(s, r) || r in Ids(s.tasks) || r in s.ended)
    && !(Pending(s, r) && r in Ids(s.tasks)) && !(Pending(s, r) && r in s.ended)
    && !(r in Ids(s.tasks) && r in s.ended)
    && (forall i, j :: 0 <= i < |s.tasks| && 0 <= j < |s.tasks| && s.tasks[i].id == r && s.tasks[j].id == r ==> i == j)
    && (forall th, th' :: th in s.threads && th' in s.threads && s.threads[th].rid == s.threads[th'].rid ==> th == th')
  }

  lemma PlacesAreDisjoint(name: string, s: Peer, r: int)
    requires IdsInv(s) && TasksInv(name, s) && ThreadsInv(s)
    ensures InOnePlace(s, r)
  {
    if Pending(s, r) {
      var th :| th in s.threads && s.threads[th].Allocated? && s.threads[th].rid == r;
      assert !Live(s, r);
    }
    assert Live(s, r) ==> r in s.issued;
  }

  /** In every reachable state the ids handed out are the disjoint union of those not yet
      registered (held by exactly one thread), those in the list (exactly one entry) and
      those taken out of it. */
  lemma IdConservation(mods: map<string, (Handlers, int)>, steps: seq<Step>, m: string, r: int)
    requires Exec(Init(mods), steps).Some? && m in Exec(Init(mods), steps).value.peers
    ensures InOnePlace(Exec(Init(mods), steps).value.peers[m], r)
  {
    PeerHolds(mods, steps, m);
    PlacesAreDisjoint(m, Exec(Init(mods), steps).value.peers[m], r);
  }

  /** 0 not handed out, 1 not yet registered, 2 in the list, 3 taken out of it. */
  function Phase(s: Peer, r: int): nat {
    if r in s.ended then 3 else if r in Ids(s.tasks) then 2 else if Pending(s, r) then 1 else 0
  }

  lemma PhaseGrows(s: Peer, s': Peer, r: int)
    requires Grows(s, s') && IdsInv(s) && ThreadsInv(s) && IdsInv(s')
    ensures Phase(s, r) <= Phase(s', r)
  {
    if Pending(s, r) {
      assert r in s.issued && r in s'.issued;
    }
  }

  lemma IdsOnlyMoveForward(
      mods: map<string, (Handlers, int)>, past: seq<Step>, more: seq<Step>, m: string, r: int)
    requires Exec(Init(mods), past).Some?
    requires Exec(Exec(Init(mods), past).value, more).Some?
    requires m in Exec(Init(mods), past).value.peers
    ensures m in Exec(Exec(Init(mods), past).value, more).value.peers
    ensures Phase(Exec(Init(mods), past).value.peers[m], r)
         <= Phase(Exec(Exec(Init(mods), past).value, more).value.peers[m], r)
  {
    PeerHolds(mods, past, m);
    PeerGrows(mods, past, more, m);
    PhaseGrows(Exec(Init(mods), past).value.peers[m], Exec(Exec(Init(mods), past).value, more).value.peers[m], r);
  }

  /** The step of a run in which module m handed out id r to a call with these arguments. */
  predicate AllocatedAt(mods: map<string, (Handlers, int)>, steps: seq<Step>, i: nat, m: string, r: int, args: CallArgs)
    requires Exec(Init(mods), steps).Some?
  {
    && i < |steps| && steps[i].m == m && steps[i].op.Allocate? && steps[i].op.args == args
    && Exec(Init(mods), steps[..i]).Some?
    && m in Exec(Init(mods), steps[..i]).value.peers
    && Exec(Init(mods), steps[..i]).value.peers[m].nextId == r
  }

  lemma IssuedByStep(sys: System, step: Step, m: string, r: int)
    requires CanStep(sys, step) && m in sys.peers && IdsInv(sys.peers[m])
    requires r in Next(sys, step).peers[m].issued
    ensures if r in sys.peers[m].issued then Next(sys, step).peers[m].issued[r] == sys.peers[m].issued[r]
            else step.m == m && step.op.Allocate? && sys.peers[m].nextId == r
                 && step.op.args == Next(sys, step).peers[m].issued[r]
  {
  }

  lemma {:induction false} IssuedWasAllocated(mods: map<string, (Handlers, int)>, steps: seq<Step>, m: string, r: int)
    returns (i: nat)
    requires Exec(Init(mods), steps).Some?
    requires m in Exec(Init(mods), steps).value.peers && r in Exec(Init(mods), steps).value.peers[m].issued
    ensures AllocatedAt(mods, steps, i, m, r, Exec(Init(mods), steps).value.peers[m].issued[r])
  {
    assert steps != [];
    var n := |steps| - 1;
    var sys := Exec(Init(mods), steps[..n]).value;
    PeerHolds(mods, steps[..n], m);
    IssuedByStep(sys, steps[n], m, r);
    if r in sys.peers[m].issued {
      i := IssuedWasAllocated(mods, steps[..n], m, r);
      assert steps[..n][..i] == steps[..i];
    } else {
      i := n;
    }
  }

  // ---------------------------------------------------------------- at most one of each

  lemma AtMostOneFinalAndOneTimeout(mods: map<string, (Handlers, int)>, steps: seq<Step>, m: string, r: int)
    requires Exec(Init(mods), steps).Some? && m in Exec(Init(mods), steps).value.peers
    ensures Count(Exec(Init(mods), steps).value.peers[m].log, FinalKind, r) <= 1
    ensures Count(Exec(Init(mods), steps).value.peers[m].log, TimeoutKind, r) <= 1
  {
    PeerHolds(mods, steps, m);
  }

  /** Step j is a sweep of module m that takes out id r between the lookup and the removal
      of a final response for r. */
  predicate SweptInsideHandler(sys: System, steps: seq<Step>, j: nat, m: string, r: int) {
    && j < |steps| && steps[j].m == m && steps[j].op.Sweep?
    && Exec(sys, steps[..j]).Some? && m in Exec(sys, steps[..j]).value.peers
    && var s := Exec(sys, steps[..j]).value.peers[m];
       && (s.receiver.FinalFound? || s.receiver.FinalCalled?) && s.receiver.rid == r
       && r in Ids(s.tasks) && r in Ids(Doomed(s.tasks, DueIds(s.tasks, steps[j].op.now)))
  }

  lemma SweepAddsOnlyDue(name: string, s: Peer, op: Op, r: int)
    requires LocalInv(name, s) && Enabled(s, op) && op.Sweep?
    requires Count(Local(name, s, op).log, TimeoutKind, r) != Count(s.log, TimeoutKind, r)
    ensures r in Ids(s.tasks) && r in Ids(Doomed(s.tasks, DueIds(s.tasks, op.now)))
  {
    var due := Due(s.tasks, op.now);
    SweepList(name, s, op);
    SweepTakesExactlyTheDue(s.tasks, op.now);
    AddTimeouts(name, s, due, r);
    var t :| t in due && t.id == r;
    assert t in s.tasks;
  }

  /** Outside a sweep a step adds at most one callback, and only the receive thread adds one. */
  lemma OneCallbackPerStep(name: string, s: Peer, op: Op)
    requires Enabled(s, op) && !op.Sweep? && Local(name, s, op).log != s.log
    ensures |Local(name, s, op).log| == |s.log| + 1
    ensures Local(name, s, op).log == s.log + [Local(name, s, op).log[|s.log|]]
    ensures var e := Local(name, s, op).log[|s.log|];
      || e.OnRequest? || e.OnNotify? || e.OnReport?
      || (op.Callback? && s.receiver.TempFound? && e == TempEvent(s.receiver.task, s.receiver.env))
      || (op.Callback? && s.receiver.FinalFound? && [e] == FinalEvents(s.receiver.task, s.receiver.env))
  {
  }

  lemma TimeoutsOnlyFromSweeps(name: string, s: Peer, op: Op, r: int)
    requires LocalInv(name, s) && Enabled(s, op)
    requires Count(Local(name, s, op).log, TimeoutKind, r) != Count(s.log, TimeoutKind, r)
    ensures op.Sweep? && r in Ids(s.tasks) && r in Ids(Doomed(s.tasks, DueIds(s.tasks, op.now)))
  {
    if op.Sweep? {
      SweepAddsOnlyDue(name, s, op, r);
    } else {
      OneCallbackPerStep(name, s, op);
      LogOne(s.log, Local(name, s, op).log[|s.log|]);
    }
  }

  lemma FinalsOnlyFromCallbacks(name: string, s: Peer, op: Op, r: int)
    requires LocalInv(name, s) && Enabled(s, op)
    requires Count(Local(name, s, op).log, FinalKind, r) != Count(s.log, FinalKind, r)
    ensures op.Callback? && s.receiver.FinalFound? && s.receiver.rid == r
  {
    if op.Sweep? {
      SweepCounts(name, s, op, r);
    } else {
      OneCallbackPerStep(name, s, op);
      LogOne(s.log, Local(name, s, op).log[|s.log|]);
    }
  }

  predicate Overlapping(s: Peer, r: int) {
    && Count(s.log, TimeoutKind, r) >= 1
    && (Count(s.log, FinalKind, r) >= 1 || (s.receiver.FinalFound? && s.receiver.rid == r))
  }

  lemma OverlapByStep(name: string, s: Peer, op: Op, r: int)
    requires LocalInv(name, s) && Enabled(s, op)
    requires Overlapping(Local(name, s, op), r) && !Overlapping(s, r)
    ensures op.Sweep? && r in Ids(s.tasks) && r in Ids(Doomed(s.tasks, DueIds(s.tasks, op.now)))
    ensures (s.receiver.FinalFound? || s.receiver.FinalCalled?) && s.receiver.rid == r
  {
    var s' := Local(name, s, op);
    LoggedMeans(s, r);
    if Count(s.log, TimeoutKind, r) != Count(s'.log, TimeoutKind, r) {
      TimeoutsOnlyFromSweeps(name, s, op, r);
      SweepCounts(name, s, op, r);
    } else if Count(s.log, FinalKind, r) != Count(s'.log, FinalKind, r) {
      FinalsOnlyFromCallbacks(name, s, op, r);
    } else {
      FindRefinesLookup(s.tasks, r);
      EndedNotFound(name, s, op, r);
    }
  }

  /** A handler that starts now has not found an ended id. */
  lemma EndedNotFound(name: string, s: Peer, op: Op, r: int)
    requires IdsInv(s) && Enabled(s, op) && r in s.ended
    requires Local(name, s, op).receiver.FinalFound? && Local(name, s, op).receiver.rid == r
    ensures s.receiver.FinalFound? && s.receiver.rid == r
  {
    FindRefinesLookup(s.tasks, r);
  }

  lemma {:induction false} OverlapIsSwept(mods: map<string, (Handlers, int)>, steps: seq<Step>, m: string, r: int)
    returns (j: nat)
    requires Exec(Init(mods), steps).Some? && m in Exec(Init(mods), steps).value.peers
    requires Overlapping(Exec(Init(mods), steps).value.peers[m], r)
    ensures SweptInsideHandler(Init(mods), steps, j, m, r)
  {
    assert steps != [];
    var n := |steps| - 1;
    var s := Exec(Init(mods), steps[..n]).value.peers[m];
    if Overlapping(s, r) {
      j := OverlapIsSwept(mods, steps[..n], m, r);
      assert steps[..n][..j] == steps[..j];
    } else {
      PeerHolds(mods, steps[..n], m);
      OverlapByStep(m, s, steps[n].op, r);
      j := n;
    }
  }

  lemma CountOnlyGrows(a: seq<Event>, b: seq<Event>, kind: Kind, r: int)
    requires a <= b
    ensures Count(a, kind, r) <= Count(b, kind, r)
  {
  }

  /** A final response for r has been looked up and its callback is still to come. */
  predicate AboutToAnswer(s: Peer, r: int) {
    s.receiver.FinalFound? && s.receiver.rid == r
  }

  predicate AnsweredOrAbout(s: Peer, r: int) {
    Count(s.log, FinalKind, r) == 1 || AboutToAnswer(s, r)
  }

  lemma AnswerStays(name: string, s: Peer, op: Op, r: int)
    requires LocalInv(name, s) && Enabled(s, op) && LocalInv(name, Local(name, s, op))
    requires r in s.issued && !s.issued[r].notify && AnsweredOrAbout(s, r)
    ensures AnsweredOrAbout(Local(name, s, op), r)
  {
    LocalGrows(name, s, op);
    CountOnlyGrows(s.log, Local(name, s, op).log, FinalKind, r);
    if op.Callback? && s.receiver.FinalFound? && s.receiver.rid == r {
      LogOne(s.log, FinalEvents(s.receiver.task, s.receiver.env)[0]);
    }
  }

  lemma SweepAddsTimeout(name: string, s: Peer, op: Op, r: int)
    requires LocalInv(name, s) && Enabled(s, op) && op.Sweep?
    requires r in Ids(Doomed(s.tasks, DueIds(s.tasks, op.now)))
    requires r in s.issued && !s.issued[r].notify && s.handlers.requestTimeout
    ensures Count(Local(name, s, op).log, TimeoutKind, r) >= 1
  {
    SweepTakesExactlyTheDue(s.tasks, op.now);
    SweepList(name, s, op);
    AddTimeouts(name, s, Due(s.tasks, op.now), r);
  }

  /** Timed out, and answered or about to be. */
  predicate BothOrAbout(s: Peer, r: int) {
    Count(s.log, TimeoutKind, r) == 1 && AnsweredOrAbout(s, r)
  }

  lemma BothStays(name: string, s: Peer, op: Op, r: int)
    requires LocalInv(name, s) && Enabled(s, op) && LocalInv(name, Local(name, s, op))
    requires r in s.issued && !s.issued[r].notify && BothOrAbout(s, r)
    ensures BothOrAbout(Local(name, s, op), r)
  {
    AnswerStays(name, s, op, r);
    LocalGrows(name, s, op);
    CountOnlyGrows(s.log, Local(name, s, op).log, TimeoutKind, r);
  }

  lemma BothBySweep(name: string, s: Peer, op: Op, r: int)
    requires LocalInv(name, s) && Enabled(s, op) && op.Sweep? && LocalInv(name, Local(name, s, op))
    requires r in s.issued && !s.issued[r].notify && s.handlers.requestTimeout
    requires (s.receiver.FinalFound? || s.receiver.FinalCalled?) && s.receiver.rid == r
    requires r in Ids(Doomed(s.tasks, DueIds(s.tasks, op.now)))
    ensures BothOrAbout(Local(name, s, op), r)
  {
    SweepAddsTimeout(name, s, op, r);
    SweptIsAnswered(name, s, r);
    AnswerStays(name, s, op, r);
  }

  /** A request that has both callbacks or is about to. */
  predicate BothForRequest(s: Peer, r: int) {
    r in s.issued && !s.issued[r].notify && BothOrAbout(s, r)
  }

  lemma BothByLastStep(mods: map<string, (Handlers, int)>, steps: seq<Step>, m: string, r: int)
    requires steps != [] && Exec(Init(mods), steps).Some?
    requires m in Exec(Init(mods), steps[..|steps| - 1]).value.peers
    requires BothForRequest(Exec(Init(mods), steps[..|steps| - 1]).value.peers[m], r)
    ensures BothForRequest(Exec(Init(mods), steps).value.peers[m], r)
  {
    var n := |steps| - 1;
    PeerHolds(mods, steps[..n], m);
    PeerHolds(mods, steps, m);
    if steps[n].m == m {
      var s := Exec(Init(mods), steps[..n]).value.peers[m];
      BothStays(m, s, steps[n].op, r);
      LocalGrows(m, s, steps[n].op);
    }
  }

  lemma {:induction false} BothStaysInRun(
      mods: map<string, (Handlers, int)>, steps: seq<Step>, k: nat, m: string, r: int)
    requires k <= |steps| && Exec(Init(mods), steps).Some? && Exec(Init(mods), steps[..k]).Some?
    requires m in Exec(Init(mods), steps[..k]).value.peers
    requires BothForRequest(Exec(Init(mods), steps[..k]).value.peers[m], r)
    ensures m in Exec(Init(mods), steps).value.peers && BothForRequest(Exec(Init(mods), steps).value.peers[m], r)
  {
    var n := |steps| - 1;
    if k == |steps| {
      assert steps[..k] == steps;
    } else {
      assert steps[..n][..k] == steps[..k];
      BothStaysInRun(mods, steps[..n], k, m, r);
      BothByLastStep(mods, steps, m, r);
    }
  }

  lemma BothAtSweep(
      mods: map<string, (Handlers, int)>, steps: seq<Step>, j: nat, m: string, r: int)
    requires Exec(Init(mods), steps).Some? && SweptInsideHandler(Init(mods), steps, j, m, r)
    requires var s := Exec(Init(mods), steps[..j]).value.peers[m];
      r in s.issued && !s.issued[r].notify && s.handlers.requestTimeout
    ensures Exec(Init(mods), steps[..j + 1]).Some? && m in Exec(Init(mods), steps[..j + 1]).value.peers
    ensures BothForRequest(Exec(Init(mods), steps[..j + 1]).value.peers[m], r)
  {
    var s := Exec(Init(mods), steps[..j]).value.peers[m];
    ExecPrefix(Init(mods), steps, j);
    PeerHolds(mods, steps[..j], m);
    PeerHolds(mods, steps[..j + 1], m);
    BothBySweep(m, s, steps[j].op, r);
    LocalGrows(m, s, steps[j].op);
  }

  lemma SweptGivesBoth(
      mods: map<string, (Handlers, int)>, steps: seq<Step>, j: nat, m: string, r: int)
    requires Exec(Init(mods), steps).Some? && SweptInsideHandler(Init(mods), steps, j, m, r)
    requires m in Exec(Init(mods), steps).value.peers
    requires var s := Exec(Init(mods), steps).value.peers[m];
      r in s.issued && !s.issued[r].notify && s.handlers.requestTimeout
    ensures BothOrAbout(Exec(Init(mods), steps).value.peers[m], r)
  {
    StillIssued(mods, steps, j, m, r);
    BothAtSweep(mods, steps, j, m, r);
    BothStaysInRun(mods, steps, j + 1, m, r);
  }

  lemma SweptIsAnswered(name: string, s: Peer, r: int)
    requires LocalInv(name, s) && r in s.issued && !s.issued[r].notify
    requires (s.receiver.FinalFound? || s.receiver.FinalCalled?) && s.receiver.rid == r
    ensures AnsweredOrAbout(s, r)
  {
  }

  lemma {:induction false} PrefixGrows(mods: map<string, (Handlers, int)>, steps: seq<Step>, j: nat, m: string)
    requires Exec(Init(mods), steps).Some? && j <= |steps|
    requires Exec(Init(mods), steps[..j]).Some? && m in Exec(Init(mods), steps[..j]).value.peers
    ensures m in Exec(Init(mods), steps).value.peers
    ensures Grows(Exec(Init(mods), steps[..j]).value.peers[m], Exec(Init(mods), steps).value.peers[m])
  {
    var n := |steps| - 1;
    if j == |steps| {
      assert steps[..j] == steps;
    } else {
      assert steps[..n][..j] == steps[..j];
      PrefixGrows(mods, steps[..n], j, m);
      PeerHolds(mods, steps[..n], m);
      StepGrows(Exec(Init(mods), steps[..n]).value, steps[n], m);
      GrowsTwice(Exec(Init(mods), steps[..j]).value.peers[m], Exec(Init(mods), steps[..n]).value.peers[m],
                 Exec(Init(mods), steps).value.peers[m]);
    }
  }

  lemma StepGrows(sys: System, step: Step, m: string)
    requires CanStep(sys, step) && m in sys.peers && IdsInv(sys.peers[m])
    ensures Grows(sys.peers[m], Next(sys, step).peers[m])
  {
    if step.m == m { LocalGrows(m, sys.peers[m], step.op); }
  }

  lemma GrowsTwice(a: Peer, b: Peer, c: Peer)
    requires Grows(a, b) && Grows(b, c)
    ensures Grows(a, c)
  {
  }

  /** An id swept at step j was handed out before, with the arguments it keeps. */
  lemma StillIssued(mods: map<string, (Handlers, int)>, steps: seq<Step>, j: nat, m: string, r: int)
    requires Exec(Init(mods), steps).Some? && j < |steps|
    requires SweptInsideHandler(Init(mods), steps, j, m, r)
    ensures m in Exec(Init(mods), steps).value.peers
    ensures var s, s' := Exec(Init(mods), steps[..j]).value.peers[m], Exec(Init(mods), steps).value.peers[m];
      r in s.issued && r in s'.issued && s'.issued[r] == s.issued[r] && s'.handlers == s.handlers
  {
    PeerHolds(mods, steps[..j], m);
    PrefixGrows(mods, steps, j, m);
    assert Live(Exec(Init(mods), steps[..j]).value.peers[m], r);
  }

  /** For a request whose timeout callback is set: the response callback and the timeout callback both
      happen exactly when a sweep takes the timer out between a handler's lookup and its removal (and
      that handler has made its call). */
  lemma BothExactlyByOverlap(mods: map<string, (Handlers, int)>, steps: seq<Step>, m: string, r: int)
    requires Exec(Init(mods), steps).Some? && m in Exec(Init(mods), steps).value.peers
    requires var s := Exec(Init(mods), steps).value.peers[m];
      r in s.issued && !s.issued[r].notify && s.handlers.requestTimeout
    ensures var s := Exec(Init(mods), steps).value.peers[m];
      (Count(s.log, FinalKind, r) == 1 && Count(s.log, TimeoutKind, r) == 1)
      <==> (exists j: nat :: SweptInsideHandler(Init(mods), steps, j, m, r)) && !AboutToAnswer(s, r)
  {
    PeerHolds(mods, steps, m);
    NotYetAnswered(m, Exec(Init(mods), steps).value.peers[m], r);
    if j: nat :| SweptInsideHandler(Init(mods), steps, j, m, r) {
      SweptGivesBoth(mods, steps, j, m, r);
    } else if Overlapping(Exec(Init(mods), steps).value.peers[m], r) {
      var j := OverlapIsSwept(mods, steps, m, r);
    }
  }

  lemma NotYetAnswered(name: string, s: Peer, r: int)
    requires LocalInv(name, s)
    ensures AboutToAnswer(s, r) ==> Count(s.log, FinalKind, r) == 0
  {
  }

  // ---------------------------------------------------------------- silence after the end

  /** The receive thread has looked r up and not yet made the callback. */
  predicate AboutToCall(s: Peer, r: int) {
    (s.receiver.TempFound? || s.receiver.FinalFound?) && s.receiver.rid == r
  }

  predicate Silent(s: Peer, r: int) {
    r in s.ended && !AboutToCall(s, r)
  }

  lemma SilentStep(name: string, s: Peer, op: Op, kind: Kind, r: int)
    requires LocalInv(name, s) && Enabled(s, op) && Silent(s, r)
    ensures Count(Local(name, s, op).log, kind, r) == Count(s.log, kind, r)
  {
    if op.Sweep? {
      var due := Due(s.tasks, op.now);
      SweepList(name, s, op);
      TimeoutEventsOf(name, s, due);
      CountZero(AllTimeoutEvents(s.handlers, due), kind, r);
      CountAppend(s.log, AllTimeoutEvents(s.handlers, due), kind, r);
    } else if Local(name, s, op).log != s.log {
      OneCallbackPerStep(name, s, op);
      LogOne(s.log, Local(name, s, op).log[|s.log|]);
    }
  }

  lemma SilenceStays(name: string, s: Peer, op: Op, r: int)
    requires LocalInv(name, s) && Enabled(s, op) && Silent(s, r)
    ensures Silent(Local(name, s, op), r)
    ensures forall kind :: Count(Local(name, s, op).log, kind, r) == Count(s.log, kind, r)
  {
    LocalGrows(name, s, op);
    FindRefinesLookup(s.tasks, r);
    forall kind ensures Count(Local(name, s, op).log, kind, r) == Count(s.log, kind, r) {
      SilentStep(name, s, op, kind, r);
    }
  }

  lemma PeerStays(sys: System, steps: seq<Step>, m: string)
    requires SysInv(sys) && Exec(sys, steps).Some? && m in Exec(sys, steps).value.peers
    ensures LocalInv(m, Exec(sys, steps).value.peers[m])
  {
    RunKeeps(sys, steps);
  }

  /** Since state s the module has made no callback about r. */
  predicate NothingSince(s: Peer, s': Peer, r: int) {
    && Count(s'.log, TempKind, r) == Count(s.log, TempKind, r)
    && Count(s'.log, FinalKind, r) == Count(s.log, FinalKind, r)
    && Count(s'.log, TimeoutKind, r) == Count(s.log, TimeoutKind, r)
  }

  lemma {:induction false} SilentRun(sys: System, more: seq<Step>, m: string, r: int)
    requires SysInv(sys) && Exec(sys, more).Some? && m in sys.peers && Silent(sys.peers[m], r)
    ensures m in Exec(sys, more).value.peers
    ensures Silent(Exec(sys, more).value.peers[m], r)
    ensures NothingSince(sys.peers[m], Exec(sys, more).value.peers[m], r)
  {
    if more != [] {
      var n := |more| - 1;
      SilentRun(sys, more[..n], m, r);
      PeerStays(sys, more[..n], m);
      if more[n].m == m {
        SilenceStays(m, Exec(sys, more[..n]).value.peers[m], more[n].op, r);
      }
    }
  }

  /** Once an id has ended and no handler is about to call back for it, no response or timeout
      callback names it again, on any continuation of the run. */
  lemma EndedIdsStaySilent(
      mods: map<string, (Handlers, int)>, past: seq<Step>, more: seq<Step>, m: string, r: int)
    requires Exec(Init(mods), past).Some?
    requires Exec(Exec(Init(mods), past).value, more).Some?
    requires m in Exec(Init(mods), past).value.peers && Silent(Exec(Init(mods), past).value.peers[m], r)
    ensures m in Exec(Exec(Init(mods), past).value, more).value.peers
    ensures var s, s' := Exec(Init(mods), past).value.peers[m], Exec(Exec(Init(mods), past).value, more).value.peers[m];
      Silent(s', r) && NothingSince(s, s', r)
  {
    Reachable(mods, past);
    SilentRun(Exec(Init(mods), past).value, more, m, r);
  }

  // ---------------------------------------------------------------- registration and correlation

  /** Registration precedes sending: every response in the network names an id that its
      addressee has in its list or has taken out of it, and comes from the module that the
      call of that id was addressed to. */
  lemma ResponsesNameRegisteredIds(mods: map<string, (Handlers, int)>, steps: seq<Step>, env: Envelope)
    requires Exec(Init(mods), steps).Some? && env in Exec(Init(mods), steps).value.net
    requires env.props.msgtype.TemporaryResponse? || env.props.msgtype.FinalResponse?
    ensures var sys := Exec(Init(mods), steps).value;
      && env.dest in sys.peers
      && (env.props.rid in Ids(sys.peers[env.dest].tasks) || env.props.rid in sys.peers[env.dest].ended)
      && env.props.rid in sys.peers[env.dest].issued
      && sys.peers[env.dest].issued[env.props.rid].receiver == env.props.sender
  {
    Reachable(mods, steps);
    assert EnvInv(Exec(Init(mods), steps).value, env);
  }

  /** The branch that finds no task for a response is taken exactly for ids that have ended. */
  lemma LookupFailsExactlyWhenEnded(mods: map<string, (Handlers, int)>, steps: seq<Step>, step: Step)
    requires Exec(Init(mods), steps).Some? && CanStep(Exec(Init(mods), steps).value, step) && step.op.Deliver?
    requires step.op.env.props.msgtype.TemporaryResponse? || step.op.env.props.msgtype.FinalResponse?
    ensures var s := Exec(Init(mods), steps).value.peers[step.m];
      Find(s.tasks, step.op.env.props.rid) == None <==> step.op.env.props.rid in s.ended
  {
    ResponsesNameRegisteredIds(mods, steps, step.op.env);
    Reachable(mods, steps);
    var s := Exec(Init(mods), steps).value.peers[step.m];
    assert LocalInv(step.m, s);
    FindRefinesLookup(s.tasks, step.op.env.props.rid);
  }

  /** Every response or timeout callback for id r carries the receiver, message name and inArg of
      the call in which this module handed out r, whatever ids other modules use. */
  lemma CallbacksAreCorrelated(mods: map<string, (Handlers, int)>, steps: seq<Step>, m: string, e: Event)
    returns (i: nat, args: CallArgs)
    requires Exec(Init(mods), steps).Some? && m in Exec(Init(mods), steps).value.peers
    requires e in Exec(Init(mods), steps).value.peers[m].log
    requires e.OnRespTemp? || e.OnRespFinal? || e.OnRequestTimeout? || e.OnNotifyTimeout?
    ensures AllocatedAt(mods, steps, i, m, e.rid, args)
    ensures e.dst == args.receiver && e.msgName == args.msgName && e.inarg == args.inarg
    ensures args.notify <==> e.OnNotifyTimeout?
  {
    Reachable(mods, steps);
    var s := Exec(Init(mods), steps).value.peers[m];
    assert EventInv(s, e);
    args := s.issued[e.rid];
    i := IssuedWasAllocated(mods, steps, m, e.rid);
  }
}
