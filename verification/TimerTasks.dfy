/** The timer-task vector of `RabbitMQWrapper`: what each critical section of
    `timer_mutex` computes on the vector, and the proof that the vector behaves
    as a map from id to task. */
module TimerTasks {
  import opened Messages

  const TICKS_PER_SECOND := 1_000_000_000

  datatype TimerTask = TimerTask(
    id: int,
    routingKey: string,
    message: string,
    interval: int,
    props: IntProps,
    expireTime: int)

  function NewTask(id: int, key: string, message: string, interval: int, props: IntProps, now: int): TimerTask {
    TimerTask(id, key, message, interval, props, now + interval * TICKS_PER_SECOND)
  }

  function Ids(ts: seq<TimerTask>): set<int> {
    set t | t in ts :: t.id
  }

  ghost predicate DistinctIds(ts: seq<TimerTask>) {
    forall i, j :: 0 <= i < j < |ts| ==> ts[i].id != ts[j].id
  }

  /** Position of the first task with this id, or the length of the vector. */
  function IndexOf(ts: seq<TimerTask>, id: int): (k: nat)
    ensures k <= |ts|
    ensures forall i :: 0 <= i < k ==> ts[i].id != id
    ensures k < |ts| ==> ts[k].id == id
    ensures k < |ts| <==> id in Ids(ts)
  {
    if ts == [] then 0
    else if ts[0].id == id then assert ts[0] in ts; 0
    else
      var k := IndexOf(ts[1..], id);
      assert k < |ts| - 1 ==> ts[k + 1] in ts;
      1 + k
  }

  function Find(ts: seq<TimerTask>, id: int): Option<TimerTask> {
    var k := IndexOf(ts, id);
    if k < |ts| then Some(ts[k]) else None
  }

  function Remove(ts: seq<TimerTask>, id: int): seq<TimerTask> {
    var k := IndexOf(ts, id);
    if k < |ts| then ts[..k] + ts[k + 1..] else ts
  }

  function Restarted(t: TimerTask, now: int): TimerTask {
    t.(expireTime := now + t.interval * TICKS_PER_SECOND)
  }

  function Restart(ts: seq<TimerTask>, id: int, now: int): seq<TimerTask> {
    var k := IndexOf(ts, id);
    if k < |ts| then ts[k := Restarted(ts[k], now)] else ts
  }

  /** First pass of a sweep: the ids of the tasks that are due, in vector order. */
  function DueIds(ts: seq<TimerTask>, now: int): seq<int> {
    if ts == [] then []
    else if now >= ts[0].expireTime then [ts[0].id] + DueIds(ts[1..], now)
    else DueIds(ts[1..], now)
  }

  /** Second pass of a sweep: the tasks taken out and the tasks kept, both in vector order. */
  function Doomed(ts: seq<TimerTask>, ids: seq<int>): seq<TimerTask> {
    if ts == [] then []
    else if ts[0].id in ids then [ts[0]] + Doomed(ts[1..], ids)
    else Doomed(ts[1..], ids)
  }

  function Spared(ts: seq<TimerTask>, ids: seq<int>): seq<TimerTask> {
    if ts == [] then []
    else if ts[0].id in ids then Spared(ts[1..], ids)
    else [ts[0]] + Spared(ts[1..], ids)
  }

  // ---------------------------------------------------------------- the map view

  /** The map from id to task that the vector stands for. */
  function AsMap(ts: seq<TimerTask>): map<int, TimerTask> {
    map id | id in Ids(ts) :: ts[IndexOf(ts, id)]
  }

  lemma IndexIsUnique(ts: seq<TimerTask>, i: nat)
    requires DistinctIds(ts) && i < |ts|
    ensures ts[i].id in Ids(ts) && IndexOf(ts, ts[i].id) == i
  {
  }

  /** Two vectors with distinct ids that agree on the tasks of some ids agree there as maps. */
  lemma SameTaskSameEntry(ts: seq<TimerTask>, us: seq<TimerTask>, t: TimerTask)
    requires DistinctIds(ts) && DistinctIds(us) && t in ts && t in us
    ensures t.id in AsMap(ts) && t.id in AsMap(us) && AsMap(us)[t.id] == AsMap(ts)[t.id] == t
  {
  }

  lemma AddMembers(ts: seq<TimerTask>, t: TimerTask)
    requires DistinctIds(ts) && t.id !in Ids(ts)
    ensures DistinctIds(ts + [t])
    ensures forall u :: u in ts + [t] <==> u in ts || u == t
    ensures Ids(ts + [t]) == Ids(ts) + {t.id}
  {
  }

  lemma AddRefinesInsert(ts: seq<TimerTask>, t: TimerTask)
    requires DistinctIds(ts) && t.id !in Ids(ts)
    ensures DistinctIds(ts + [t])
    ensures AsMap(ts + [t]) == AsMap(ts)[t.id := t]
  {
    var us := ts + [t];
    AddMembers(ts, t);
    SameTaskSameEntry(us, us, t);
    forall x | x in Ids(ts) ensures AsMap(us)[x] == AsMap(ts)[x] {
      SameTaskSameEntry(ts, us, ts[IndexOf(ts, x)]);
    }
  }

  /** Where the tasks of the shortened vector come from. */
  lemma RemoveMembers(ts: seq<TimerTask>, id: int)
    requires DistinctIds(ts)
    ensures DistinctIds(Remove(ts, id))
    ensures forall t :: t in Remove(ts, id) <==> t in ts && t.id != id
  {
    var us := Remove(ts, id);
    var k := IndexOf(ts, id);
    if k < |ts| {
      assert forall i :: 0 <= i < |us| ==> us[i] == ts[if i < k then i else i + 1];
      forall t | t in ts && t.id != id ensures t in us {
        var i :| 0 <= i < |ts| && ts[i] == t;
        assert us[if i < k then i else i - 1] == t;
      }
    }
  }

  /** A vector that keeps exactly the tasks outside `gone` stands for the map without those keys. */
  lemma KeepRefinesDelete(ts: seq<TimerTask>, us: seq<TimerTask>, gone: set<int>)
    requires DistinctIds(ts) && DistinctIds(us)
    requires forall t :: t in us <==> t in ts && t.id !in gone
    ensures Ids(us) == Ids(ts) - gone
    ensures AsMap(us) == AsMap(ts) - gone
  {
    forall x | x in Ids(us) ensures x in Ids(ts) - gone && AsMap(us)[x] == AsMap(ts)[x] {
      SameTaskSameEntry(ts, us, us[IndexOf(us, x)]);
    }
    forall x | x in Ids(ts) - gone ensures x in Ids(us) {
      SameTaskSameEntry(ts, us, ts[IndexOf(ts, x)]);
    }
  }

  lemma RemoveRefinesDelete(ts: seq<TimerTask>, id: int)
    requires DistinctIds(ts)
    ensures DistinctIds(Remove(ts, id)) && Ids(Remove(ts, id)) == Ids(ts) - {id}
    ensures AsMap(Remove(ts, id)) == AsMap(ts) - {id}
  {
    RemoveMembers(ts, id);
    KeepRefinesDelete(ts, Remove(ts, id), {id});
  }

  lemma RestartMembers(ts: seq<TimerTask>, id: int, now: int)
    requires DistinctIds(ts)
    ensures |Restart(ts, id, now)| == |ts|
    ensures forall i :: 0 <= i < |ts| ==>
      Restart(ts, id, now)[i] == (if ts[i].id == id then Restarted(ts[i], now) else ts[i])
    ensures DistinctIds(Restart(ts, id, now))
  {
  }

  lemma RestartIds(ts: seq<TimerTask>, id: int, now: int)
    requires DistinctIds(ts)
    ensures Ids(Restart(ts, id, now)) == Ids(ts)
  {
  }

  function RestartedIn(m: map<int, TimerTask>, id: int, now: int): map<int, TimerTask> {
    if id in m then m[id := Restarted(m[id], now)] else m
  }

  /** A new and a restarted timer run out a whole interval of seconds from now. */
  lemma TimersRunTheirInterval(
    id: int, key: string, message: string, interval: int, props: IntProps, now: int, t: TimerTask)
    ensures NewTask(id, key, message, interval, props, now)
         == TimerTask(id, key, message, interval, props, now + interval * 1_000_000_000)
    ensures Restarted(t, now) == t.(expireTime := now + t.interval * 1_000_000_000)
  {
  }

  lemma RestartRefinesUpdate(ts: seq<TimerTask>, id: int, now: int)
    requires DistinctIds(ts)
    ensures DistinctIds(Restart(ts, id, now))
    ensures id !in AsMap(ts) ==> AsMap(Restart(ts, id, now)) == AsMap(ts)
    ensures id in AsMap(ts) ==> var t := AsMap(ts)[id];
      AsMap(Restart(ts, id, now)) == AsMap(ts)[id := t.(expireTime := now + t.interval * 1_000_000_000)]
  {
    RestartUpdatesMap(ts, id, now);
    RestartedInIs(AsMap(ts), id, now);
  }

  lemma RestartedInIs(m: map<int, TimerTask>, id: int, now: int)
    ensures id !in m ==> RestartedIn(m, id, now) == m
    ensures id in m ==>
      RestartedIn(m, id, now) == m[id := m[id].(expireTime := now + m[id].interval * 1_000_000_000)]
  {
  }

  lemma RestartAt(ts: seq<TimerTask>, id: int, now: int)
    ensures var k := IndexOf(ts, id);
      Restart(ts, id, now)
        == if k < |ts| then ts[k := ts[k].(expireTime := now + ts[k].interval * 1_000_000_000)] else ts
  {
  }

  lemma RestartUpdatesMap(ts: seq<TimerTask>, id: int, now: int)
    requires DistinctIds(ts)
    ensures DistinctIds(Restart(ts, id, now))
    ensures AsMap(Restart(ts, id, now)) == RestartedIn(AsMap(ts), id, now)
  {
    RestartMembers(ts, id, now);
    RestartedEntries(ts, id, now);
    assert forall x :: x in RestartedIn(AsMap(ts), id, now) <==> x in AsMap(ts);
    SameMap(AsMap(Restart(ts, id, now)), RestartedIn(AsMap(ts), id, now));
  }

  lemma RestartedEntries(ts: seq<TimerTask>, id: int, now: int)
    requires DistinctIds(ts)
    ensures forall x :: x in AsMap(Restart(ts, id, now)) <==> x in AsMap(ts)
    ensures forall x :: x in AsMap(ts) ==> AsMap(Restart(ts, id, now))[x] == RestartedIn(AsMap(ts), id, now)[x]
  {
    RestartIds(ts, id, now);
    var m, m' := RestartedIn(AsMap(ts), id, now), AsMap(Restart(ts, id, now));
    assert m.Keys == Ids(ts) == m'.Keys;
    forall x | x in AsMap(ts) ensures m'[x] == m[x] {
      RestartedEntry(ts, id, now, x);
    }
  }

  lemma SameMap<K, V>(m: map<K, V>, m': map<K, V>)
    requires forall x :: x in m <==> x in m'
    requires forall x :: x in m ==> m[x] == m'[x]
    ensures m == m'
  {
  }

  lemma RestartedEntry(ts: seq<TimerTask>, id: int, now: int, x: int)
    requires DistinctIds(ts) && x in Ids(ts)
    ensures x in Ids(Restart(ts, id, now))
    ensures AsMap(Restart(ts, id, now))[x] == RestartedIn(AsMap(ts), id, now)[x]
  {
    RestartMembers(ts, id, now);
    RestartIds(ts, id, now);
    IndexIsUnique(Restart(ts, id, now), IndexOf(ts, x));
  }

  lemma FindRefinesLookup(ts: seq<TimerTask>, id: int)
    ensures Find(ts, id) == if id in AsMap(ts) then Some(AsMap(ts)[id]) else None
    ensures Find(ts, id).Some? ==> Find(ts, id).value in ts && Find(ts, id).value.id == id
  {
  }

  // ---------------------------------------------------------------- the sweep

  lemma {:induction false} DueIdsMembers(ts: seq<TimerTask>, now: int)
    ensures forall id :: id in DueIds(ts, now) <==> exists t :: t in ts && t.id == id && now >= t.expireTime
  {
    if ts != [] {
      DueIdsMembers(ts[1..], now);
      assert ts == [ts[0]] + ts[1..];
      assert forall t :: t in ts <==> t == ts[0] || t in ts[1..];
    }
  }

  lemma {:induction false} PassMembers(ts: seq<TimerTask>, ids: seq<int>)
    ensures forall t :: t in Doomed(ts, ids) <==> t in ts && t.id in ids
    ensures forall t :: t in Spared(ts, ids) <==> t in ts && t.id !in ids
    ensures |Doomed(ts, ids)| + |Spared(ts, ids)| == |ts|
  {
    if ts != [] {
      PassMembers(ts[1..], ids);
      assert ts == [ts[0]] + ts[1..];
      assert forall t :: t in ts <==> t == ts[0] || t in ts[1..];
    }
  }

  lemma {:induction false} PassDistinct(ts: seq<TimerTask>, ids: seq<int>)
    requires DistinctIds(ts)
    ensures DistinctIds(Doomed(ts, ids)) && DistinctIds(Spared(ts, ids))
  {
    if ts != [] {
      PassDistinct(ts[1..], ids);
      PassMembers(ts[1..], ids);
      forall t | t in ts[1..] ensures t.id != ts[0].id {
        var i :| 0 <= i < |ts[1..]| && ts[1..][i] == t;
        assert ts[i + 1] == t;
      }
    }
  }

  /** The tasks a sweep at `now` is meant to take out, and those it is meant to keep. */
  function Due(ts: seq<TimerTask>, now: int): seq<TimerTask> {
    if ts == [] then []
    else if now >= ts[0].expireTime then [ts[0]] + Due(ts[1..], now)
    else Due(ts[1..], now)
  }

  function NotDue(ts: seq<TimerTask>, now: int): seq<TimerTask> {
    if ts == [] then []
    else if now >= ts[0].expireTime then NotDue(ts[1..], now)
    else [ts[0]] + NotDue(ts[1..], now)
  }

  lemma {:induction false} PassesByDeadline(ts: seq<TimerTask>, ids: seq<int>, now: int)
    requires forall t :: t in ts ==> (t.id in ids <==> now >= t.expireTime)
    ensures Doomed(ts, ids) == Due(ts, now) && Spared(ts, ids) == NotDue(ts, now)
  {
    if ts != [] {
      assert ts[0] in ts;
      assert forall t :: t in ts[1..] ==> t in ts;
      PassesByDeadline(ts[1..], ids, now);
    }
  }

  /** Two tasks with one id and different deadlines would both be taken out; without them
      the two passes take out exactly the due tasks and keep the rest, both in order. */
  ghost predicate IdsDecideDueness(ts: seq<TimerTask>, now: int) {
    forall t, u :: t in ts && u in ts && t.id == u.id ==> (now >= t.expireTime <==> now >= u.expireTime)
  }

  lemma SweepTakesExactlyTheDue(ts: seq<TimerTask>, now: int)
    ensures DistinctIds(ts) ==> IdsDecideDueness(ts, now)
    ensures IdsDecideDueness(ts, now) <==>
      Doomed(ts, DueIds(ts, now)) == Due(ts, now) && Spared(ts, DueIds(ts, now)) == NotDue(ts, now)
  {
    var ids := DueIds(ts, now);
    DueIdsMembers(ts, now);
    if IdsDecideDueness(ts, now) {
      PassesByDeadline(ts, ids, now);
    } else {
      var t, u :| t in ts && u in ts && t.id == u.id && now >= t.expireTime && !(now >= u.expireTime);
      assert u.id in ids;
      PassMembers(ts, ids);
      DueMembers(ts, now);
      assert u in Doomed(ts, ids) && u !in Due(ts, now);
    }
    if DistinctIds(ts) {
      forall t, u | t in ts && u in ts && t.id == u.id ensures t == u {
        var i :| 0 <= i < |ts| && ts[i] == t;
        var j :| 0 <= j < |ts| && ts[j] == u;
      }
    }
  }

  lemma {:induction false} DueMembers(ts: seq<TimerTask>, now: int)
    ensures forall t :: t in Due(ts, now) <==> t in ts && now >= t.expireTime
    ensures forall t :: t in NotDue(ts, now) <==> t in ts && !(now >= t.expireTime)
  {
    if ts != [] {
      DueMembers(ts[1..], now);
      assert forall t :: t in ts <==> t == ts[0] || t in ts[1..];
    }
  }

  /** On the map view a sweep deletes the due keys. */
  lemma SweepRefinesDelete(ts: seq<TimerTask>, now: int)
    requires DistinctIds(ts)
    ensures DistinctIds(NotDue(ts, now))
    ensures AsMap(NotDue(ts, now)) == AsMap(ts) - Ids(Due(ts, now))
  {
    SweepTakesExactlyTheDue(ts, now);
    PassDistinct(ts, DueIds(ts, now));
    DueMembers(ts, now);
    forall t | t in ts ensures t.id in Ids(Due(ts, now)) <==> now >= t.expireTime {
      if t.id in Ids(Due(ts, now)) {
        var u :| u in Due(ts, now) && u.id == t.id;
        assert IdsDecideDueness(ts, now);
      }
    }
    KeepRefinesDelete(ts, NotDue(ts, now), Ids(Due(ts, now)));
  }
}
