/** A run in which one request is both answered and timed out: "at most one outcome per request"
    does not hold of the protocol. */
module PeerExample {
  import opened Messages
  import opened TimerTasks
  import opened PeerModel
  import opened PeerInvariant
  import opened PeerTheorems

  const ALL := Handlers(true, true, true, true, true, true, true)
  const ARGS := CallArgs(false, "a", "ask", 7, "body", 0, 0)
  const MODS: map<string, (Handlers, int)> := map["a" := (ALL, 0)]

  lemma OneMore(sys: System, steps: seq<Step>, step: Step)
    requires Exec(sys, steps).Some? && CanStep(Exec(sys, steps).value, step)
    ensures Exec(sys, steps + [step]) == Some(Next(Exec(sys, steps).value, step))
  {
  }

  /** Module "a" requests itself, with a timeout of 0: the message is out and its timer is listed. */
  lemma Requested() returns (steps: seq<Step>)
    ensures Exec(Init(MODS), steps).Some?
    ensures var sys := Exec(Init(MODS), steps).value;
      && "a" in sys.peers && CallEnvelope("a", 0, ARGS) in sys.net
      && var s := sys.peers["a"];
         && s.handlers == ALL && s.receiver == Idle && s.log == [] && s.clock == 0
         && s.tasks == [CallTask("a", 0, ARGS, 0)] && s.issued == map[0 := ARGS]
  {
    var sys := Init(MODS);
    var s1, s2, s3 := Step("a", Allocate(0, ARGS)), Step("a", Register(0, 0)), Step("a", Publish(0, true, true));
    OneMore(sys, [], s1);
    OneMore(sys, [] + [s1], s2);
    OneMore(sys, [] + [s1] + [s2], s3);
    steps := [] + [s1] + [s2] + [s3];
  }

  /** The request is handled and answered; the answer is in the network. */
  lemma Answered() returns (steps: seq<Step>)
    ensures Exec(Init(MODS), steps).Some?
    ensures var sys := Exec(Init(MODS), steps).value;
      && "a" in sys.peers && ResponseEnvelope("a", "a", 0, true, 0, "200", "", "ok") in sys.net
      && var s := sys.peers["a"];
         && s.handlers == ALL && s.receiver == Idle && s.clock == 0
         && s.tasks == [CallTask("a", 0, ARGS, 0)] && s.issued == map[0 := ARGS]
  {
    var past := Requested();
    var s1 := Step("a", Deliver(CallEnvelope("a", 0, ARGS)));
    var s2 := Step("a", Respond("a", 0, true, 0, "200", "", "ok", true));
    OneMore(Init(MODS), past, s1);
    var e := OnRequest("a", "ask", 0, "body", 7);
    assert Exec(Init(MODS), past + [s1]).value.peers["a"].log == [] + [e];
    assert e in Exec(Init(MODS), past + [s1]).value.peers["a"].log;
    OneMore(Init(MODS), past + [s1], s2);
    steps := past + [s1] + [s2];
  }

  /** The answer is handled; before its handler removes the timer, a sweep finds it due. */
  lemma RequestCanBeAnsweredAndTimeOut() returns (steps: seq<Step>)
    ensures Exec(Init(MODS), steps).Some? && "a" in Exec(Init(MODS), steps).value.peers
    ensures Count(Exec(Init(MODS), steps).value.peers["a"].log, FinalKind, 0) == 1
    ensures Count(Exec(Init(MODS), steps).value.peers["a"].log, TimeoutKind, 0) == 1
  {
    var past := Answered();
    var task := CallTask("a", 0, ARGS, 0);
    var env := ResponseEnvelope("a", "a", 0, true, 0, "200", "", "ok");
    var s1, s2, s3 := Step("a", Deliver(env)), Step("a", Callback), Step("a", Sweep(0));
    assert IndexOf([task], 0) == 0;
    OneMore(Init(MODS), past, s1);
    OneMore(Init(MODS), past + [s1], s2);
    OneMore(Init(MODS), past + [s1] + [s2], s3);
    steps := past + [s1] + [s2] + [s3];
    var j := |past| + 2;
    assert steps[..j] == past + [s1] + [s2];
    assert task in [task] && 0 in Ids([task]);
    assert DueIds([task], 0) == [0] && Doomed([task], [0]) == [task];
    assert SweptInsideHandler(Init(MODS), steps, j, "a", 0);
    BothExactlyByOverlap(MODS, steps, "a", 0);
  }
}
