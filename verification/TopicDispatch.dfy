/** The ordered map from topic pattern to callback, and the choice of the callback for a key. */
module TopicDispatch {
  import opened Messages
  import opened TopicPattern
  import opened AmqpTopics

  /** The order of `std::string`. */
  predicate Less(a: string, b: string) {
    b != [] && (a == [] || a[0] < b[0] || (a[0] == b[0] && Less(a[1..], b[1..])))
  }

  lemma {:induction false} LessTransitive(a: string, b: string, c: string)
    requires Less(a, b) && Less(b, c)
    ensures Less(a, c)
  {
    if a != [] && a[0] == b[0] == c[0] {
      LessTransitive(a[1..], b[1..], c[1..]);
    }
  }

  lemma {:induction false} LessTotal(a: string, b: string)
    ensures Less(a, b) || a == b || Less(b, a)
    ensures !(Less(a, b) && (a == b || Less(b, a)))
  {
    if a != [] && b != [] && a[0] == b[0] {
      LessTotal(a[1..], b[1..]);
      assert a == [a[0]] + a[1..] && b == [b[0]] + b[1..];
    }
  }

  /** Lexicographic order: a proper prefix comes first, else the first difference decides by the character. */
  lemma {:induction false} LessIsLexicographic(a: string, b: string)
    ensures Less(a, b) <==>
      exists k :: 0 <= k <= |a| && k < |b| && a[..k] == b[..k] && (k == |a| || a[k] < b[k])
  {
    if a == [] || b == [] || a[0] != b[0] {
      if Less(a, b) { assert a[..0] == b[..0]; }
      forall k | 0 < k <= |a| && k < |b| ensures a[..k] != b[..k] {
        assert a[0] == a[..k][0] && b[0] == b[..k][0];
      }
    } else {
      LessIsLexicographic(a[1..], b[1..]);
      if k :| 0 <= k <= |a| && k < |b| && a[..k] == b[..k] && (k == |a| || a[k] < b[k]) {
        assert k > 0 && a[1..][..k - 1] == a[..k][1..] == b[..k][1..] == b[1..][..k - 1];
      }
      if k :| 0 <= k <= |a[1..]| && k < |b[1..]| && a[1..][..k] == b[1..][..k]
              && (k == |a[1..]| || a[1..][k] < b[1..][k]) {
        assert a[..k + 1] == [a[0]] + a[1..][..k] == [b[0]] + b[1..][..k] == b[..k + 1];
      }
    }
  }

  /** A callback is known by a number. */
  type Callback = nat

  datatype Registration = Registration(pattern: string, callback: Callback)

  ghost predicate Sorted(rs: seq<Registration>) {
    forall i, j :: 0 <= i < j < |rs| ==> Less(rs[i].pattern, rs[j].pattern)
  }

  function Patterns(rs: seq<Registration>): set<string> {
    set r | r in rs :: r.pattern
  }

  /** `map[p] = cb`. */
  function Put(rs: seq<Registration>, p: string, cb: Callback): seq<Registration> {
    if rs == [] || Less(p, rs[0].pattern) then [Registration(p, cb)] + rs
    else if rs[0].pattern == p then [Registration(p, cb)] + rs[1..]
    else [rs[0]] + Put(rs[1..], p, cb)
  }

  /** `map.erase(p)`. */
  function Erase(rs: seq<Registration>, p: string): seq<Registration> {
    if rs == [] then []
    else if rs[0].pattern == p then rs[1..]
    else [rs[0]] + Erase(rs[1..], p)
  }

  lemma SortedTail(rs: seq<Registration>)
    requires Sorted(rs) && rs != []
    ensures Sorted(rs[1..])
    ensures forall r :: r in rs[1..] ==> Less(rs[0].pattern, r.pattern) && r.pattern != rs[0].pattern
    ensures forall r :: r in rs <==> r == rs[0] || r in rs[1..]
  {
    forall r | r in rs[1..] ensures Less(rs[0].pattern, r.pattern) && r.pattern != rs[0].pattern {
      var i :| 0 <= i < |rs[1..]| && rs[1..][i] == r;
      assert rs[i + 1] == r;
      LessTotal(rs[0].pattern, r.pattern);
    }
  }

  lemma SortedCons(r: Registration, rs: seq<Registration>)
    requires Sorted(rs) && forall x :: x in rs ==> Less(r.pattern, x.pattern)
    ensures Sorted([r] + rs)
  {
  }

  /** Assigning through the map keeps the order and changes exactly the entry of p. */
  lemma {:induction false} PutMembers(rs: seq<Registration>, p: string, cb: Callback)
    requires Sorted(rs)
    ensures Sorted(Put(rs, p, cb))
    ensures forall r :: r in Put(rs, p, cb) <==> r == Registration(p, cb) || (r in rs && r.pattern != p)
  {
    if rs != [] {
      SortedTail(rs);
      LessTotal(p, rs[0].pattern);
      if Less(p, rs[0].pattern) {
        forall r | r in rs ensures Less(p, r.pattern) && r.pattern != p {
          if r != rs[0] { LessTransitive(p, rs[0].pattern, r.pattern); }
          LessTotal(p, r.pattern);
        }
        SortedCons(Registration(p, cb), rs);
      } else if rs[0].pattern == p {
        SortedCons(Registration(p, cb), rs[1..]);
      } else {
        PutMembers(rs[1..], p, cb);
        SortedCons(rs[0], Put(rs[1..], p, cb));
      }
    }
  }

  lemma {:induction false} EraseMembers(rs: seq<Registration>, p: string)
    requires Sorted(rs)
    ensures Sorted(Erase(rs, p))
    ensures forall r :: r in Erase(rs, p) <==> r in rs && r.pattern != p
  {
    if rs != [] {
      SortedTail(rs);
      if rs[0].pattern != p {
        EraseMembers(rs[1..], p);
        SortedCons(rs[0], Erase(rs[1..], p));
      }
    }
  }

  lemma PutPatterns(rs: seq<Registration>, p: string, cb: Callback)
    requires Sorted(rs)
    ensures Patterns(Put(rs, p, cb)) == Patterns(rs) + {p}
  {
    PutMembers(rs, p, cb);
    assert Registration(p, cb) in Put(rs, p, cb);
    forall q | q in Patterns(rs) && q != p ensures q in Patterns(Put(rs, p, cb)) {
      var r :| r in rs && r.pattern == q;
      assert r in Put(rs, p, cb);
    }
  }

  lemma ErasePatterns(rs: seq<Registration>, p: string)
    requires Sorted(rs)
    ensures Patterns(Erase(rs, p)) == Patterns(rs) - {p}
  {
    EraseMembers(rs, p);
    forall q | q in Patterns(rs) && q != p ensures q in Patterns(Erase(rs, p)) {
      var r :| r in rs && r.pattern == q;
      assert r in Erase(rs, p);
    }
  }

  /** Erasing a fresh registration restores the map. */
  lemma {:induction false} EraseUndoesPut(rs: seq<Registration>, p: string, cb: Callback)
    requires p !in Patterns(rs)
    ensures Erase(Put(rs, p, cb), p) == rs
  {
    if rs != [] {
      assert rs[0] in rs;
      assert forall r :: r in rs[1..] ==> r in rs;
      if !Less(p, rs[0].pattern) {
        EraseUndoesPut(rs[1..], p, cb);
      }
    }
  }

  // ---------------------------------------------------------------- dispatch

  /** The registration whose callback a key triggers: the least matching pattern. */
  ghost predicate Chosen(rs: seq<Registration>, key: string, r: Registration) {
    && r in rs && PatternMatch(r.pattern, key)
    && forall x :: x in rs && PatternMatch(x.pattern, key) ==> x == r || Less(r.pattern, x.pattern)
  }

  lemma ChosenIsUnique(rs: seq<Registration>, key: string, r: Registration, x: Registration)
    requires Chosen(rs, key, r) && Chosen(rs, key, x)
    ensures r == x
  {
    LessTotal(r.pattern, x.pattern);
  }

  /** The loop of `topicHandleMessage` over the map in its order. */
  method Dispatch(rs: seq<Registration>, key: string) returns (called: Option<Registration>)
    requires Sorted(rs) && forall r :: r in rs ==> InAlphabet(r.pattern)
    ensures called.None? <==> forall r :: r in rs ==> !PatternMatch(r.pattern, key)
    ensures called.Some? ==> Chosen(rs, key, called.value)
  {
    for i := 0 to |rs|
      invariant forall j :: 0 <= j < i ==> !PatternMatch(rs[j].pattern, key)
    {
      assert rs[i] in rs;
      var matched := MatchRoutingKey(rs[i].pattern, key);
      if matched {
        return Some(rs[i]);
      }
    }
    return None;
  }

  /** A key that matches a registered pattern by words, each `#` taking a word, always has a callback. */
  lemma AmqpKeysHaveCallbacks(rs: seq<Registration>, pw: seq<string>, kw: seq<string>)
    requires Sorted(rs) && IsPattern(pw) && IsKey(kw) && AmqpMatchPlus(pw, kw)
    requires Join(pw) in Patterns(rs)
    ensures exists r :: Chosen(rs, Join(kw), r)
  {
    AmqpMatchIsFound(pw, kw);
    var hit :| hit in rs && hit.pattern == Join(pw);
    var _ := LeastMatch(rs, Join(kw), hit);
  }

  lemma {:induction false} LeastMatch(rs: seq<Registration>, key: string, hit: Registration) returns (r: Registration)
    requires Sorted(rs) && hit in rs && PatternMatch(hit.pattern, key)
    ensures Chosen(rs, key, r)
  {
    SortedTail(rs);
    if PatternMatch(rs[0].pattern, key) {
      r := rs[0];
    } else {
      r := LeastMatch(rs[1..], key, hit);
    }
  }
}
