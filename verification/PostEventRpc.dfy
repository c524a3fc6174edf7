/**
 The IVRPostEvent proxy and stub: three integers and an optional text, sent with a presence flag.
 */
module PostEventRpc {
  import opened Parcels
  import opened CStrings

  const DESCRIPTOR: Token
  const POSTEVENT := 1

  /** "null" */
  const NULL_TEXT: CText := [0x6E, 0x75, 0x6C, 0x6C]

  /** A text as post() takes it: bytes up to the first zero. */
  type CText = s: String8 | 0 !in s

  datatype Posting = Posting(what: Int32, arg1: Int32, arg2: Int32, str: Option<CText>)

  /** What the receiving post() is given: there is always a text. */
  datatype Heard = Heard(what: Int32, arg1: Int32, arg2: Int32, str: CText)

  function HeardAs(p: Posting): Heard {
    Heard(p.what, p.arg1, p.arg2, if p.str.Some? then p.str.value else NULL_TEXT)
  }

  function Flagged(str: Option<CText>): seq<Byte> {
    if str.Some? then EncodeInt(1) + EncodeString(str.value) else EncodeInt(0)
  }

  function Request(p: Posting): seq<Byte> {
    EncodeString(DESCRIPTOR) + (EncodeInt(p.what) + (EncodeInt(p.arg1) + (EncodeInt(p.arg2) + Flagged(p.str))))
  }

  lemma {:induction false} Chain(a: seq<Byte>, i: Int32, rest: seq<Byte>)
    ensures TakeInt(a + (EncodeInt(i) + rest), |a|) == (i, |a| + 4)
    ensures a + (EncodeInt(i) + rest) == a + EncodeInt(i) + rest
  {
    IntAt(a, i, rest);
  }

  lemma {:induction false} FlagRead(a: seq<Byte>, str: Option<CText>)
    ensures var d := a + Flagged(str);
            && TakeInt(d, |a|) == (if str.Some? then 1 else 0, |a| + 4)
            && (str.Some? ==> TakeString(d, |a| + 4) == (str.value, |d|))
            && (str.None? ==> |a| + 4 == |d|)
  {
    if str.Some? {
      Chain(a, 1, EncodeString(str.value));
      LastString(a + EncodeInt(1), str.value);
    } else {
      Chain(a, 0, []);
      assert EncodeInt(0) + [] == EncodeInt(0);
    }
  }

  lemma {:induction false} TokenRead(p: Posting)
    ensures TakeString(Request(p), 0) == (DESCRIPTOR, |EncodeString(DESCRIPTOR)|)
  {
    var rest := EncodeInt(p.what) + (EncodeInt(p.arg1) + (EncodeInt(p.arg2) + Flagged(p.str)));
    StringAt([], DESCRIPTOR, rest);
    assert [] + EncodeString(DESCRIPTOR) + rest == Request(p);
  }

  lemma {:induction false} ArgumentsRead(p: Posting)
    ensures var d, h := Request(p), |EncodeString(DESCRIPTOR)|;
            && TakeInt(d, h) == (p.what, h + 4) && TakeInt(d, h + 4) == (p.arg1, h + 8)
            && TakeInt(d, h + 8) == (p.arg2, h + 12)
            && TakeInt(d, h + 12) == (if p.str.Some? then 1 else 0, h + 16)
            && (p.str.Some? ==> TakeString(d, h + 16) == (p.str.value, |d|))
            && (p.str.None? ==> h + 16 == |d|)
  {
    var a := EncodeString(DESCRIPTOR);
    var b, c := a + EncodeInt(p.what), a + EncodeInt(p.what) + EncodeInt(p.arg1);
    Chain(a, p.what, EncodeInt(p.arg1) + (EncodeInt(p.arg2) + Flagged(p.str)));
    Chain(b, p.arg1, EncodeInt(p.arg2) + Flagged(p.str));
    Chain(c, p.arg2, Flagged(p.str));
    FlagRead(c + EncodeInt(p.arg2), p.str);
  }

  function UpToZero(s: String8): (t: CText)
    ensures |t| <= |s| && t == s[..|t|]
    ensures |t| < |s| ==> s[|t|] == 0
  {
    if s == [] || s[0] == 0 then []
    else
      var rest: CText := UpToZero(s[1..]);
      [s[0]] + rest
  }

  /** The arguments the stub finds at position p, read left to right, and where it stops. */
  function Parse(d: seq<Byte>, p: nat): (Heard, nat) {
    var (what, q) := TakeInt(d, p);
    var (arg1, r) := TakeInt(d, q);
    var (arg2, t) := TakeInt(d, r);
    var (str, end) := ParseFlagged(d, t);
    (Heard(what, arg1, arg2, str), end)
  }

  function ParseFlagged(d: seq<Byte>, p: nat): (CText, nat) {
    var (bstr, q) := TakeInt(d, p);
    if bstr == 0 then (NULL_TEXT, q)
    else
      var (str, r) := TakeString(d, q);
      (UpToZero(str), r)
  }

  /** What is read back from a request is the posting, a missing text become "null", and nothing is left over. */
  lemma {:induction false} ParseRequest(p: Posting)
    ensures Parse(Request(p), |EncodeString(DESCRIPTOR)|) == (HeardAs(p), |Request(p)|)
  {
    ArgumentsRead(p);
    if p.str.Some? {
      UpToZeroWhole(p.str.value);
    }
  }

  lemma {:induction false} UpToZeroWhole(s: CText)
    ensures UpToZero(s) == s
  {
    assert |UpToZero(s)| == |s|;
  }

  class BnVRPostEvent<S> {
    const impl: (S, Heard) -> (S, Int32)
    var state: S

    constructor (impl: (S, Heard) -> (S, Int32), state: S)
      ensures this.impl == impl && this.state == state
    {
      this.impl, this.state := impl, state;
    }

    /** Whatever the parcel holds. */
    method OnTransact(code: nat, data: Parcel, reply: Parcel) returns (status: Int32)
      requires data != reply && data.pos == 0 && reply.data == []
      modifies this`state, data`pos, reply`data
      ensures var (token, p) := TakeString(data.data, 0);
              if code != 1 then status == -74 && state == old(state) && reply.data == []
              else if token != DESCRIPTOR then status == -1 && state == old(state) && reply.data == []
              else
                var (heard, q) := Parse(data.data, p);
                && status == 0 && data.pos == q
                && state == impl(old(state), heard).0
                && reply.data == EncodeInt(impl(old(state), heard).1)
    {
      if code != POSTEVENT {
        return UNKNOWN_TRANSACTION;
      }
      var token := data.ReadString8();
      if token != DESCRIPTOR {
        return PERMISSION_DENIED;
      }
      var heard := ReadHeard(data);
      var after := impl(state, heard);
      state := after.0;
      reply.WriteInt32(after.1);
      assert reply.data == EncodeInt(after.1);
      status := 0;
    }

    static method ReadHeard(data: Parcel) returns (heard: Heard)
      modifies data`pos
      ensures (heard, data.pos) == Parse(data.data, old(data.pos))
    {
      var what := data.ReadInt32();
      var arg1 := data.ReadInt32();
      var arg2 := data.ReadInt32();
      var bstr := data.ReadInt32();
      var str := NULL_TEXT;
      if bstr != 0 {
        var text := data.ReadString8();
        str := UpToZero(text);
      }
      heard := Heard(what, arg1, arg2, str);
    }
  }

  class BpVRPostEvent<S> {
    const remote: BnVRPostEvent<S>

    constructor (remote: BnVRPostEvent<S>)
      ensures this.remote == remote
    {
      this.remote := remote;
    }

    static method WriteRequest(data: Parcel, what: Int32, arg1: Int32, arg2: Int32, str: Option<CText>)
      requires data.data == []
      modifies data`data
      ensures data.data == Request(Posting(what, arg1, arg2, str))
    {
      data.WriteString8(DESCRIPTOR);
      data.WriteInt32(what);
      data.WriteInt32(arg1);
      data.WriteInt32(arg2);
      if str.Some? {
        data.WriteInt32(1);
        data.WriteString8(str.value);
      } else {
        data.WriteInt32(0);
      }
      Written(Posting(what, arg1, arg2, str));
    }

    method Post(what: Int32, arg1: Int32, arg2: Int32, str: Option<CText>, fault: Int32) returns (ret: Int32)
      modifies remote`state
      ensures if fault != 0 then ret == fault && remote.state == old(remote.state)
              else (remote.state, ret) == remote.impl(old(remote.state), HeardAs(Posting(what, arg1, arg2, str)))
    {
      ghost var p := Posting(what, arg1, arg2, str);
      var data := new Parcel();
      var reply := new Parcel();
      WriteRequest(data, what, arg1, arg2, str);
      if fault != 0 {
        return fault;
      }
      TokenRead(p);
      ParseRequest(p);
      var status := remote.OnTransact(POSTEVENT, data, reply);
      ghost var res := remote.impl(old(remote.state), HeardAs(p)).1;
      IntAt([], res, []);
      assert [] + EncodeInt(res) + [] == reply.data;
      ret := reply.ReadInt32();
    }
  }

  lemma {:induction false} Written(p: Posting)
    ensures var d := [] + EncodeString(DESCRIPTOR) + EncodeInt(p.what) + EncodeInt(p.arg1) + EncodeInt(p.arg2);
            Request(p) == if p.str.Some? then d + EncodeInt(1) + EncodeString(p.str.value) else d + EncodeInt(0)
  {
    var d := [] + EncodeString(DESCRIPTOR) + EncodeInt(p.what) + EncodeInt(p.arg1) + EncodeInt(p.arg2);
    assert Request(p) == d + Flagged(p.str);
  }

  /** The receiver hears every value as it was posted, and a missing text as the four letters of "null". */
  lemma {:induction false} HeardMeans(p: Posting)
    ensures var h := HeardAs(p);
            && h.what == p.what && h.arg1 == p.arg1 && h.arg2 == p.arg2
            && (p.str.Some? ==> h.str == p.str.value)
            && (p.str.None? ==> |h.str| == 4 && forall i :: 0 <= i < 4 ==> h.str[i] == "null"[i] as int)
  {
  }

  /** Two posts reach the receiver alike exactly when they agree, a missing text and the text "null" counting as one. */
  lemma {:induction false} HeardAlikeIff(p: Posting, q: Posting)
    ensures HeardAs(p) == HeardAs(q) <==>
            p.what == q.what && p.arg1 == q.arg1 && p.arg2 == q.arg2
            && (p.str == q.str || (p.str in {None, Some(NULL_TEXT)} && q.str in {None, Some(NULL_TEXT)}))
  {
  }
}
