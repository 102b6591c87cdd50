/** The message record as the ten entries of a header table, written and read back. */
module HeaderCodec {
  import opened Messages

  const PROP_HEAD_LEN := 10

  const SENDER := "sender"
  const RECEIVER := "recver"
  const MSGTYPE := "msgtype"
  const MSGNAME := "msgname"
  const RELATID := "rid"
  const INARG := "inarg"
  const SENDTIME := "timestamp"
  const RESPCODE := "rspcode"
  const RESPDESC := "rspdesc"
  const TRANS := "transparent"

  /** A tagged table value; the kinds this code never writes are kept as their tag. */
  datatype FieldValue = Bytes(b: string) | I32(i: int) | I64(l: int) | OtherKind(tag: int)

  datatype Entry = Entry(key: string, value: FieldValue)

  /** What `amqp_cstring_bytes` sees of a string: everything before its first NUL. */
  function CString(s: string): string {
    if s == [] || s[0] == '\0' then [] else [s[0]] + CString(s[1..])
  }

  function TypeCode(t: MessageType): int {
    match t
    case Request => 0
    case TemporaryResponse => 1
    case FinalResponse => 2
    case Notification => 3
    case Report => 4
    case Topic => 5
    case Broadcast => 6
    case EchoTest => 7
    case Unlisted(code) => code
  }

  function TypeOf(code: int): MessageType {
    match code
    case 0 => Request
    case 1 => TemporaryResponse
    case 2 => FinalResponse
    case 3 => Notification
    case 4 => Report
    case 5 => Topic
    case 6 => Broadcast
    case 7 => EchoTest
    case _ => Unlisted(code)
  }

  function Encode(p: IntProps): seq<Entry> {
    [Entry(SENDER, Bytes(CString(p.sender))),
     Entry(RECEIVER, Bytes(CString(p.receiver))),
     Entry(MSGTYPE, I32(TypeCode(p.msgtype))),
     Entry(MSGNAME, Bytes(CString(p.msgname))),
     Entry(RELATID, I32(p.rid)),
     Entry(INARG, I64(p.inarg)),
     Entry(SENDTIME, I64(p.timestamp)),
     Entry(RESPCODE, Bytes(CString(p.rspcode))),
     Entry(RESPDESC, Bytes(CString(p.rspdesc))),
     Entry(TRANS, Bytes(CString(p.trans)))]
  }

  /** The record with every string cut at its first NUL. */
  function CutAtNul(p: IntProps): IntProps {
    p.(sender := CString(p.sender), receiver := CString(p.receiver), msgname := CString(p.msgname),
       rspcode := CString(p.rspcode), rspdesc := CString(p.rspdesc), trans := CString(p.trans))
  }

  /** The key is one of the ten and the value has its kind. */
  predicate WellTyped(e: Entry) {
    if e.key == MSGTYPE || e.key == RELATID then e.value.I32?
    else if e.key == INARG || e.key == SENDTIME then e.value.I64?
    else
      && (|| e.key == SENDER || e.key == RECEIVER || e.key == MSGNAME
          || e.key == RESPCODE || e.key == RESPDESC || e.key == TRANS)
      && e.value.Bytes?
  }

  function SetField(p: IntProps, e: Entry): IntProps
    requires WellTyped(e)
  {
    if e.key == SENDER then p.(sender := e.value.b)
    else if e.key == RECEIVER then p.(receiver := e.value.b)
    else if e.key == MSGTYPE then p.(msgtype := TypeOf(e.value.i))
    else if e.key == MSGNAME then p.(msgname := e.value.b)
    else if e.key == RELATID then p.(rid := e.value.i)
    else if e.key == INARG then p.(inarg := e.value.l)
    else if e.key == SENDTIME then p.(timestamp := e.value.l)
    else if e.key == RESPCODE then p.(rspcode := e.value.b)
    else if e.key == RESPDESC then p.(rspdesc := e.value.b)
    else p.(trans := e.value.b)
  }

  /** Entries are read in order; the first ill-typed one stops the reading and fails. */
  function Decode(t: seq<Entry>, p: IntProps): (bool, IntProps) {
    if t == [] then (true, p)
    else if !WellTyped(t[0]) then (false, p)
    else Decode(t[1..], SetField(p, t[0]))
  }

  // ---------------------------------------------------------------- reading back what was written

  lemma {:induction false} CStringFixed(s: string)
    ensures CString(s) == s <==> '\0' !in s
    ensures '\0' !in CString(s) && CString(s) <= s
    ensures |CString(s)| < |s| ==> s[|CString(s)|] == '\0'
  {
    if s != [] {
      CStringFixed(s[1..]);
      assert s == [s[0]] + s[1..];
      assert '\0' in s <==> s[0] == '\0' || '\0' in s[1..];
    }
  }

  lemma CodesRoundTrip(t: MessageType)
    requires !t.Unlisted?
    ensures TypeOf(TypeCode(t)) == t
  {
  }

  /** The numbers the message types travel as, in both directions. */
  lemma WireCodes(code: int)
    ensures TypeCode(Request) == 0 && TypeCode(TemporaryResponse) == 1 && TypeCode(FinalResponse) == 2
    ensures TypeCode(Notification) == 3 && TypeCode(Report) == 4 && TypeCode(Topic) == 5
    ensures TypeCode(Broadcast) == 6 && TypeCode(EchoTest) == 7
    ensures TypeOf(code).Unlisted? <==> !(0 <= code <= 7)
    ensures TypeCode(TypeOf(code)) == code
  {
  }

  /** Keys, kinds and contents of the ten entries, as they stand in the table. */
  lemma WireFormat(p: IntProps)
    ensures |Encode(p)| == 10
    ensures forall i :: 0 <= i < 10 ==>
      Encode(p)[i].key == ["sender", "recver", "msgtype", "msgname", "rid",
                           "inarg", "timestamp", "rspcode", "rspdesc", "transparent"][i]
    ensures Encode(p)[0].value == Bytes(CString(p.sender)) && Encode(p)[1].value == Bytes(CString(p.receiver))
    ensures !p.msgtype.Unlisted? ==>
      exists i :: 0 <= i < 8 && Encode(p)[2].value == I32(i) && p.msgtype ==
        [Request, TemporaryResponse, FinalResponse, Notification, Report, Topic, Broadcast, EchoTest][i]
    ensures Encode(p)[3].value == Bytes(CString(p.msgname)) && Encode(p)[4].value == I32(p.rid)
    ensures Encode(p)[5].value == I64(p.inarg) && Encode(p)[6].value == I64(p.timestamp)
    ensures Encode(p)[7].value == Bytes(CString(p.rspcode)) && Encode(p)[8].value == Bytes(CString(p.rspdesc))
    ensures Encode(p)[9].value == Bytes(CString(p.trans))
  {
    WireCodes(TypeCode(p.msgtype));
  }

  /** Reading one well-typed entry. */
  lemma DecodeStep(t: seq<Entry>, i: nat, p: IntProps)
    requires i < |t| && WellTyped(t[i])
    ensures Decode(t[i..], p) == Decode(t[i + 1..], SetField(p, t[i]))
  {
  }

  lemma FirstHalf(p: IntProps, q: IntProps)
    requires !p.msgtype.Unlisted?
    ensures Decode(Encode(p), q) == Decode(Encode(p)[5..],
              q.(sender := CString(p.sender), receiver := CString(p.receiver), msgtype := p.msgtype,
                 msgname := CString(p.msgname), rid := p.rid))
  {
    var t := Encode(p);
    assert t[0..] == t;
    CodesRoundTrip(p.msgtype);
    var q1 := SetField(q, t[0]);
    var q2 := SetField(q1, t[1]);
    var q3 := SetField(q2, t[2]);
    var q4 := SetField(q3, t[3]);
    DecodeStep(t, 0, q);
    DecodeStep(t, 1, q1);
    DecodeStep(t, 2, q2);
    DecodeStep(t, 3, q3);
    DecodeStep(t, 4, q4);
  }

  lemma SecondHalf(p: IntProps, q: IntProps)
    ensures Decode(Encode(p)[5..], q) == (true,
              q.(inarg := p.inarg, timestamp := p.timestamp, rspcode := CString(p.rspcode),
                 rspdesc := CString(p.rspdesc), trans := CString(p.trans)))
  {
    var t := Encode(p);
    var q1 := SetField(q, t[5]);
    var q2 := SetField(q1, t[6]);
    var q3 := SetField(q2, t[7]);
    var q4 := SetField(q3, t[8]);
    DecodeStep(t, 5, q);
    DecodeStep(t, 6, q1);
    DecodeStep(t, 7, q2);
    DecodeStep(t, 8, q3);
    DecodeStep(t, 9, q4);
    assert t[10..] == [];
  }

  /** Whatever the record held before, reading an encoding gives the encoded record with its strings cut. */
  lemma RoundTrip(p: IntProps, init: IntProps)
    requires !p.msgtype.Unlisted?
    ensures Decode(Encode(p), init) == (true, CutAtNul(p))
  {
    FirstHalf(p, init);
    SecondHalf(p, init.(sender := CString(p.sender), receiver := CString(p.receiver), msgtype := p.msgtype,
                        msgname := CString(p.msgname), rid := p.rid));
  }

  /** A record comes back unchanged exactly when none of its strings holds a NUL. */
  lemma ExactRoundTrip(p: IntProps, init: IntProps)
    requires !p.msgtype.Unlisted?
    ensures Decode(Encode(p), init) == (true, p) <==>
      '\0' !in p.sender && '\0' !in p.receiver && '\0' !in p.msgname
      && '\0' !in p.rspcode && '\0' !in p.rspdesc && '\0' !in p.trans
  {
    RoundTrip(p, init);
    CStringFixed(p.sender);
    CStringFixed(p.receiver);
    CStringFixed(p.msgname);
    CStringFixed(p.rspcode);
    CStringFixed(p.rspdesc);
    CStringFixed(p.trans);
  }

  // ---------------------------------------------------------------- any table

  ghost predicate AllWellTyped(t: seq<Entry>) {
    forall e :: e in t ==> WellTyped(e)
  }

  /** A table is read successfully exactly when every entry has one of the ten keys and its kind. */
  lemma AcceptsExactlyWellTyped(t: seq<Entry>, p: IntProps)
    ensures Decode(t, p).0 <==> forall e :: e in t ==>
      || (e.value.I32? && e.key in ["msgtype", "rid"])
      || (e.value.I64? && e.key in ["inarg", "timestamp"])
      || (e.value.Bytes? && e.key in ["sender", "recver", "msgname", "rspcode", "rspdesc", "transparent"])
  {
    ReadsExactlyWellTyped(t, p);
    forall e | e in t
      ensures WellTyped(e) <==>
        || (e.value.I32? && e.key in ["msgtype", "rid"])
        || (e.value.I64? && e.key in ["inarg", "timestamp"])
        || (e.value.Bytes? && e.key in ["sender", "recver", "msgname", "rspcode", "rspdesc", "transparent"])
    {
      KindOfKey(e);
    }
  }

  lemma KindOfKey(e: Entry)
    ensures WellTyped(e) <==>
      || (e.value.I32? && e.key in ["msgtype", "rid"])
      || (e.value.I64? && e.key in ["inarg", "timestamp"])
      || (e.value.Bytes? && e.key in ["sender", "recver", "msgname", "rspcode", "rspdesc", "transparent"])
  {
  }

  /** The first entry that is not well typed stops the reading; what was read before it stays. */
  lemma StopsAtIllTyped(a: seq<Entry>, e: Entry, b: seq<Entry>, p: IntProps)
    requires AllWellTyped(a) && !WellTyped(e)
    ensures Decode(a + [e] + b, p) == (false, Decode(a, p).1)
  {
    ReadsExactlyWellTyped(a, p);
    DecodeAppend(a, [e] + b, p);
    assert a + [e] + b == a + ([e] + b);
  }

  lemma {:induction false} ReadsExactlyWellTyped(t: seq<Entry>, p: IntProps)
    ensures Decode(t, p).0 <==> AllWellTyped(t)
  {
    if t != [] {
      if WellTyped(t[0]) { ReadsExactlyWellTyped(t[1..], SetField(p, t[0])); }
      assert forall e :: e in t <==> e == t[0] || e in t[1..];
    }
  }

  /** Reading one table after another: a failure in the first stops the reading there. */
  lemma {:induction false} DecodeAppend(a: seq<Entry>, b: seq<Entry>, p: IntProps)
    ensures Decode(a + b, p) == if Decode(a, p).0 then Decode(b, Decode(a, p).1) else Decode(a, p)
  {
    if a == [] {
      assert a + b == b;
    } else {
      assert (a + b)[1..] == a[1..] + b;
      if WellTyped(a[0]) { DecodeAppend(a[1..], b, SetField(p, a[0])); }
    }
  }

  /** A second entry for a key overrides the first, wherever it stands after it. */
  lemma LastEntryWins(a: seq<Entry>, first: Entry, b: seq<Entry>, last: Entry, p: IntProps)
    requires AllWellTyped(a) && AllWellTyped(b) && WellTyped(first) && WellTyped(last) && first.key == last.key
    ensures Decode(a + [first] + b + [last], p) == Decode(a + b + [last], p)
  {
    ReadsExactlyWellTyped(a, p);
    var q := Decode(a, p).1;
    DecodeAppend(a, [first] + b + [last], p);
    DecodeAppend(a, b + [last], p);
    assert a + [first] + b + [last] == a + ([first] + b + [last]);
    assert a + b + [last] == a + (b + [last]);
    assert [first] + b + [last] == [first] + (b + [last]);
    assert ([first] + (b + [last]))[1..] == b + [last];
    Overridden(first, b, last, q);
  }

  lemma {:induction false} Overridden(first: Entry, b: seq<Entry>, last: Entry, p: IntProps)
    requires AllWellTyped(b) && WellTyped(first) && WellTyped(last) && first.key == last.key
    ensures Decode(b + [last], SetField(p, first)) == Decode(b + [last], p)
  {
    if b == [] {
      assert b + [last] == [last] && [last][1..] == [];
    } else {
      assert (b + [last])[1..] == b[1..] + [last];
      assert WellTyped(b[0]);
      if b[0].key == first.key {
        assert SetField(SetField(p, first), b[0]) == SetField(p, b[0]);
      } else {
        assert SetField(SetField(p, first), b[0]) == SetField(SetField(p, b[0]), first);
        Overridden(first, b[1..], last, SetField(p, b[0]));
      }
    }
  }

  ghost predicate DistinctKeys(t: seq<Entry>) {
    forall i, j :: 0 <= i < j < |t| ==> t[i].key != t[j].key
  }

  /** An entry may be read before others with different keys. */
  lemma {:induction false} MoveToFront(a: seq<Entry>, e: Entry, b: seq<Entry>, p: IntProps)
    requires AllWellTyped(a) && WellTyped(e) && forall x :: x in a ==> x.key != e.key
    ensures Decode(a + [e] + b, p) == Decode(a + b, SetField(p, e))
  {
    if a == [] {
      assert a + [e] + b == [e] + b && ([e] + b)[1..] == b && a + b == b;
    } else {
      assert WellTyped(a[0]);
      assert (a + [e] + b)[1..] == a[1..] + [e] + b && (a + b)[1..] == a[1..] + b;
      MoveToFront(a[1..], e, b, SetField(p, a[0]));
      assert SetField(SetField(p, e), a[0]) == SetField(SetField(p, a[0]), e);
    }
  }

  lemma RestIsSame(s: seq<Entry>, t: seq<Entry>, k: nat)
    requires s != [] && k < |t| && t[k] == s[0] && multiset(s) == multiset(t)
    ensures multiset(t[..k] + t[k + 1..]) == multiset(s[1..])
  {
    var x := s[0];
    assert s == [x] + s[1..];
    assert t == t[..k] + ([x] + t[k + 1..]);
    SplitsAsSum([x], s[1..]);
    SplitsAsSum(t[..k], [x] + t[k + 1..]);
    SplitsAsSum([x], t[k + 1..]);
    SplitsAsSum(t[..k], t[k + 1..]);
    assert multiset(s[1..]) == multiset(s) - multiset{x};
  }

  lemma SplitsAsSum(a: seq<Entry>, b: seq<Entry>)
    ensures multiset(a + b) == multiset(a) + multiset(b)
  {
  }

  lemma OthersDiffer(s: seq<Entry>, a: seq<Entry>, b: seq<Entry>)
    requires s != [] && AllWellTyped(s) && DistinctKeys(s) && multiset(a + b) == multiset(s[1..])
    ensures forall x :: x in a ==> WellTyped(x) && x.key != s[0].key
    ensures AllWellTyped(s[1..]) && DistinctKeys(s[1..])
  {
    forall x | x in a ensures WellTyped(x) && x.key != s[0].key {
      assert x in a + b;
      assert x in multiset(s[1..]);
      var i :| 0 <= i < |s[1..]| && s[1..][i] == x;
      assert s[i + 1] == x;
    }
  }

  /** A table of well-typed entries with distinct keys reads the same in every order. */
  lemma {:induction false} OrderDoesNotMatter(s: seq<Entry>, t: seq<Entry>, p: IntProps)
    requires AllWellTyped(s) && DistinctKeys(s) && multiset(s) == multiset(t)
    ensures Decode(t, p) == Decode(s, p)
  {
    if s == [] {
      assert |multiset(t)| == 0;
    } else {
      var e := s[0];
      assert s == [e] + s[1..];
      assert e in multiset(t);
      var k :| 0 <= k < |t| && t[k] == e;
      var a, b := t[..k], t[k + 1..];
      assert t == a + [e] + b;
      RestIsSame(s, t, k);
      OthersDiffer(s, a, b);
      MoveToFront(a, e, b, p);
      OrderDoesNotMatter(s[1..], a + b, SetField(p, e));
    }
  }

  /** The slot each key is written to. */
  function Slot(key: string): nat {
    if key == SENDER then 0
    else if key == RECEIVER then 1
    else if key == MSGTYPE then 2
    else if key == MSGNAME then 3
    else if key == RELATID then 4
    else if key == INARG then 5
    else if key == SENDTIME then 6
    else if key == RESPCODE then 7
    else if key == RESPDESC then 8
    else if key == TRANS then 9
    else 10
  }

  lemma EncodingHasSlots(p: IntProps)
    ensures forall i :: 0 <= i < PROP_HEAD_LEN ==> Slot(Encode(p)[i].key) == i
  {
  }

  lemma EncodingIsWellFormed(p: IntProps)
    ensures |Encode(p)| == PROP_HEAD_LEN && AllWellTyped(Encode(p)) && DistinctKeys(Encode(p))
  {
    EncodingHasSlots(p);
    RoundTripAccepts(p);
  }

  lemma RoundTripAccepts(p: IntProps)
    ensures AllWellTyped(Encode(p))
  {
    var q := p.(msgtype := Request);
    RoundTrip(q, q);
    ReadsExactlyWellTyped(Encode(q), q);
    forall i | 0 <= i < PROP_HEAD_LEN ensures WellTyped(Encode(p)[i]) {
      assert Encode(q)[i] in Encode(q);
    }
  }

  /** The ten entries of a record read back the same in any order. */
  lemma RoundTripInAnyOrder(p: IntProps, t: seq<Entry>, init: IntProps)
    requires !p.msgtype.Unlisted? && multiset(t) == multiset(Encode(p))
    ensures Decode(t, init) == (true, CutAtNul(p))
  {
    EncodingIsWellFormed(p);
    OrderDoesNotMatter(Encode(p), t, init);
    RoundTrip(p, init);
  }

  // ---------------------------------------------------------------- the two loops over the entry array

  class AmqpTable {
    var numEntries: int
    const entries: array<Entry>

    constructor (entries: array<Entry>)
      ensures this.entries == entries && numEntries == 0
    {
      this.entries, numEntries := entries, 0;
    }
  }

  /** `IntProps2AmqpTable`: fills the ten slots by a running index. */
  method IntPropsToTable(p: IntProps, table: AmqpTable) returns (ok: bool)
    requires table.entries.Length == PROP_HEAD_LEN
    modifies table`numEntries, table.entries
    ensures ok && table.numEntries == PROP_HEAD_LEN && table.entries[..] == Encode(p)
  {
    var index := 0;
    table.entries[index] := Entry(SENDER, Bytes(CString(p.sender)));
    index := index + 1;
    table.entries[index] := Entry(RECEIVER, Bytes(CString(p.receiver)));
    index := index + 1;
    table.entries[index] := Entry(MSGTYPE, I32(TypeCode(p.msgtype)));
    index := index + 1;
    table.entries[index] := Entry(MSGNAME, Bytes(CString(p.msgname)));
    index := index + 1;
    table.entries[index] := Entry(RELATID, I32(p.rid));
    index := index + 1;
    table.entries[index] := Entry(INARG, I64(p.inarg));
    index := index + 1;
    table.entries[index] := Entry(SENDTIME, I64(p.timestamp));
    index := index + 1;
    table.entries[index] := Entry(RESPCODE, Bytes(CString(p.rspcode)));
    index := index + 1;
    table.entries[index] := Entry(RESPDESC, Bytes(CString(p.rspdesc)));
    index := index + 1;
    table.entries[index] := Entry(TRANS, Bytes(CString(p.trans)));
    index := index + 1;
    table.numEntries := index;
    return true;
  }

  /** `AmqpTable2IntProps`: what it leaves in the record on failure included. */
  method TableToIntProps(table: AmqpTable, init: IntProps) returns (ok: bool, p: IntProps)
    requires 0 <= table.numEntries <= table.entries.Length
    ensures (ok, p) == Decode(table.entries[..table.numEntries], init)
  {
    p := init;
    var t := table.entries[..table.numEntries];
    for i := 0 to table.numEntries
      invariant Decode(t, init) == Decode(t[i..], p)
    {
      var entry := table.entries[i];
      assert entry == t[i];
      var key := entry.key;
      var v := entry.value;
      if key == SENDER {
        if v.Bytes? { p := p.(sender := v.b); } else { return false, p; }
      } else if key == RECEIVER {
        if v.Bytes? { p := p.(receiver := v.b); } else { return false, p; }
      } else if key == MSGTYPE {
        if v.I32? { p := p.(msgtype := TypeOf(v.i)); } else { return false, p; }
      } else if key == MSGNAME {
        if v.Bytes? { p := p.(msgname := v.b); } else { return false, p; }
      } else if key == RELATID {
        if v.I32? { p := p.(rid := v.i); } else { return false, p; }
      } else if key == INARG {
        if v.I64? { p := p.(inarg := v.l); } else { return false, p; }
      } else if key == SENDTIME {
        if v.I64? { p := p.(timestamp := v.l); } else { return false, p; }
      } else if key == RESPCODE {
        if v.Bytes? { p := p.(rspcode := v.b); } else { return false, p; }
      } else if key == RESPDESC {
        if v.Bytes? { p := p.(rspdesc := v.b); } else { return false, p; }
      } else if key == TRANS {
        if v.Bytes? { p := p.(trans := v.b); } else { return false, p; }
      } else {
        return false, p;
      }
      assert t[i..][1..] == t[i + 1..];
    }
    return true, p;
  }
}
